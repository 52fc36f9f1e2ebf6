/**
 * `ParameterClass`: the parameter block of the full-screen engine, shared
 * with MATLAB through a mapped file. The engine validates it after loading
 * (`CheckAndComplete`, which also fills in default frame and render sizes)
 * and reads every INI value through the `SetParameterFromChar` overloads.
 */
module Parameters {
  import opened Util

  /** `LONG_MAX` and `LONG_MIN` of a 32-bit `long`. */
  const LONG_MAX: int := 0x7FFF_FFFF
  const LONG_MIN: int := -0x8000_0000

  /** The size-related fields `CheckAndComplete` reads and writes. */
  datatype Sizes = Sizes(
    adapter: int, monitor: int,
    screenWidth: int, screenHeight: int, bufferFrameSize: int,
    frameWidth: int, frameHeight: int,
    renderWidth: int, renderHeight: int)

  datatype Completion = Completion(ok: bool, sizes: Sizes)

  /** The display and buffer fields that must be set before anything else is checked. */
  predicate DisplayValid(g: Sizes) {
    g.adapter >= 0 && g.monitor >= 0 && g.screenWidth > 0 && g.screenHeight > 0 && g.bufferFrameSize > 0
  }

  /** A width/height pair that is either all defaults (both zero) or fully given (both nonzero). */
  predicate PairConsistent(w: int, h: int) {
    (w == 0 && h == 0) || (w != 0 && h != 0)
  }

  /**
   * What `CheckAndComplete` does to the sizes, step by step: the frame size
   * defaults to the screen size, then the render size to the frame size. On
   * a failure the steps already taken stay done.
   */
  function Complete(g: Sizes): Completion {
    if !DisplayValid(g) then Completion(false, g)
    else
      var g1 := if g.frameWidth == 0 && g.frameHeight == 0
                then g.(frameWidth := g.screenWidth, frameHeight := g.screenHeight) else g;
      if !(g1.frameWidth != 0 && g1.frameHeight != 0) then Completion(false, g1)
      else
        var g2 := if g1.renderWidth == 0 && g1.renderHeight == 0
                  then g1.(renderWidth := g1.frameWidth, renderHeight := g1.frameHeight) else g1;
        if !(g2.renderWidth != 0 && g2.renderHeight != 0) then Completion(false, g2)
        else Completion(true, g2)
  }

  /** The check succeeds exactly when the display is valid and both pairs are consistent. */
  lemma CompleteSucceeds(g: Sizes)
    ensures Complete(g).ok <==>
              DisplayValid(g) && PairConsistent(g.frameWidth, g.frameHeight) &&
              PairConsistent(g.renderWidth, g.renderHeight)
  {
  }

  /**
   * A successful check leaves the display fields alone, gives every frame
   * and render dimension a nonzero value, takes a zero frame size from the
   * screen and a zero render size from the (completed) frame.
   */
  lemma CompleteResult(g: Sizes)
    requires Complete(g).ok
    ensures var c := Complete(g).sizes;
            c.adapter == g.adapter && c.monitor == g.monitor &&
            c.screenWidth == g.screenWidth && c.screenHeight == g.screenHeight &&
            c.bufferFrameSize == g.bufferFrameSize &&
            c.frameWidth != 0 && c.frameHeight != 0 && c.renderWidth != 0 && c.renderHeight != 0 &&
            (if g.frameWidth == 0 then c.frameWidth == g.screenWidth && c.frameHeight == g.screenHeight
             else c.frameWidth == g.frameWidth && c.frameHeight == g.frameHeight) &&
            (if g.renderWidth == 0 then c.renderWidth == c.frameWidth && c.renderHeight == c.frameHeight
             else c.renderWidth == g.renderWidth && c.renderHeight == g.renderHeight)
  {
  }

  /** Checking a completed configuration again succeeds and changes nothing. */
  lemma CompleteIdempotent(g: Sizes)
    requires Complete(g).ok
    ensures Complete(Complete(g).sizes) == Completion(true, Complete(g).sizes)
  {
  }

  /** A failure with a valid display leaves the render size untouched whenever the frame pair is at fault. */
  lemma CompleteFailure(g: Sizes)
    requires !Complete(g).ok
    ensures var c := Complete(g).sizes;
            c.renderWidth == g.renderWidth && c.renderHeight == g.renderHeight &&
            (!DisplayValid(g) || !PairConsistent(g.frameWidth, g.frameHeight) ==> c == g)
  {
  }

  /** C `isspace` in the "C" locale. */
  predicate IsSpace(c: char) {
    c == ' ' || 9 <= c as int <= 13
  }

  /** The number of leading white-space characters of `s`. */
  function LeadingSpaces(s: string): (n: nat)
    ensures n <= |s|
    ensures forall i :: 0 <= i < n ==> IsSpace(s[i])
    ensures n < |s| ==> !IsSpace(s[n])
    decreases |s|
  {
    if |s| > 0 && IsSpace(s[0]) then 1 + LeadingSpaces(s[1..]) else 0
  }

  /** The number of leading decimal digits of `s`. */
  function DigitRun(s: string): (n: nat)
    ensures n <= |s|
    ensures forall i :: 0 <= i < n ==> IsDigit(s[i])
    ensures n < |s| ==> !IsDigit(s[n])
    decreases |s|
  {
    if |s| > 0 && IsDigit(s[0]) then 1 + DigitRun(s[1..]) else 0
  }

  /** The saturation `strtol` applies on overflow. */
  function Clamp(v: int): (c: int)
    ensures LONG_MIN <= c <= LONG_MAX
    ensures LONG_MIN <= v <= LONG_MAX ==> c == v
    ensures (c == 0) <==> (v == 0)
  {
    if v > LONG_MAX then LONG_MAX else if v < LONG_MIN then LONG_MIN else v
  }

  /** The value of the longest run of leading digits of `u`, if there is one. */
  function ReadDigits(u: string): (r: Option<nat>)
    ensures r.Some? <==> |u| > 0 && IsDigit(u[0])
  {
    var n := DigitRun(u);
    if n == 0 then None else Some(DigitsValue(u[..n]))
  }

  /** An optional sign, then digits, saturated to the range of `long`. */
  function ReadSigned(t: string): (r: Option<int>)
  {
    if |t| > 0 && (t[0] == '-' || t[0] == '+') then
      match ReadDigits(t[1..])
      case None => None
      case Some(m) => Some(Clamp(if t[0] == '-' then -(m as int) else m))
    else
      match ReadDigits(t)
      case None => None
      case Some(m) => Some(Clamp(m))
  }

  /**
   * `strtol(s, &end, 10)`: white space, an optional sign, then the longest
   * run of digits, saturated to the range of `long`. `None` is the case in
   * which no digit is read, so that `end` is left at `s`.
   */
  function Strtol(s: string): (r: Option<int>)
    ensures r.Some? ==> LONG_MIN <= r.value <= LONG_MAX
  {
    ReadSigned(s[LeadingSpaces(s)..])
  }

  /** A number is read exactly when a digit follows the white space and the optional sign. */
  lemma StrtolReads(s: string)
    ensures var t := s[LeadingSpaces(s)..];
            var u := if |t| > 0 && (t[0] == '-' || t[0] == '+') then t[1..] else t;
            Strtol(s).Some? <==> |u| > 0 && IsDigit(u[0])
  {
  }

  lemma {:induction false} DigitRunOfDigits(d: string, rest: string)
    requires forall i :: 0 <= i < |d| ==> IsDigit(d[i])
    requires |rest| == 0 || !IsDigit(rest[0])
    ensures DigitRun(d + rest) == |d|
    decreases |d|
  {
    if |d| > 0 {
      DigitRunOfDigits(d[1..], rest);
      assert (d + rest)[1..] == d[1..] + rest;
    }
  }

  /** The digits of `d` are read in full when a non-digit or the end follows them. */
  lemma ReadDigitsOf(d: string, rest: string)
    requires 0 < |d| && forall i :: 0 <= i < |d| ==> IsDigit(d[i])
    requires |rest| == 0 || !IsDigit(rest[0])
    ensures ReadDigits(d + rest) == Some(DigitsValue(d))
  {
    DigitRunOfDigits(d, rest);
    assert (d + rest)[..|d|] == d;
  }

  lemma NoLeadingSpace(s: string)
    requires 0 < |s| && !IsSpace(s[0])
    ensures s[LeadingSpaces(s)..] == s
  {
  }

  lemma ConcatAssoc(a: string, b: string, c: string)
    ensures (a + b) + c == a + (b + c)
  {
  }

  /** A run of digits followed by a non-digit reads as its value. */
  lemma StrtolOfDigits(d: string, rest: string)
    requires 0 < |d| && forall i :: 0 <= i < |d| ==> IsDigit(d[i])
    requires |rest| == 0 || !IsDigit(rest[0])
    ensures Strtol(d + rest) == Some(Clamp(DigitsValue(d)))
  {
    var s := d + rest;
    ReadDigitsOf(d, rest);
    assert s[0] == d[0];
    NoLeadingSpace(s);
  }

  /** The same run after a minus sign reads as its negated value. */
  lemma StrtolOfNegatedDigits(d: string, rest: string)
    requires 0 < |d| && forall i :: 0 <= i < |d| ==> IsDigit(d[i])
    requires |rest| == 0 || !IsDigit(rest[0])
    ensures Strtol("-" + (d + rest)) == Some(Clamp(-(DigitsValue(d) as int)))
  {
    var s := d + rest;
    ReadDigitsOf(d, rest);
    var m := "-" + s;
    NoLeadingSpace(m);
    assert m[1..] == s;
    ReadSignedMinus(m);
  }

  lemma ReadSignedMinus(t: string)
    requires |t| > 0 && t[0] == '-' && ReadDigits(t[1..]).Some?
    ensures ReadSigned(t) == Some(Clamp(-(ReadDigits(t[1..]).value as int)))
  {
  }

  lemma StrtolOfNatString(m: nat, rest: string)
    requires |rest| == 0 || !IsDigit(rest[0])
    ensures Strtol(NatString(m) + rest) == Some(Clamp(m))
    ensures Strtol("-" + (NatString(m) + rest)) == Some(Clamp(-(m as int)))
  {
    NatStringValue(m);
    StrtolOfDigits(NatString(m), rest);
    StrtolOfNegatedDigits(NatString(m), rest);
  }

  /**
   * Reading back what `std::to_string` writes, followed by anything that does
   * not start with a digit, gives the number saturated to `long`.
   */
  lemma StrtolOfIntString(n: int, rest: string)
    requires |rest| == 0 || !IsDigit(rest[0])
    ensures Strtol(IntString(n) + rest) == Some(Clamp(n))
  {
    if n < 0 {
      var d := NatString(-n);
      StrtolOfNatString(-n, rest);
      assert IntString(n) == "-" + d;
      ConcatAssoc("-", d, rest);
    } else {
      StrtolOfNatString(n, rest);
      assert IntString(n) == NatString(n);
    }
  }

  /** `SetParameterFromChar(int*, ...)`: the new target value, and whether a number was read. */
  datatype Set<T> = Set(ok: bool, target: T)

  /** The int overload stores the number `strtol` reads; with nothing read the target is kept. */
  function SetIntFromChar(target: int, value: string): (r: Set<int>)
    ensures r.ok <==> Strtol(value).Some?
    ensures !r.ok ==> r.target == target
  {
    match Strtol(value)
    case None => Set(false, target)
    case Some(v) => Set(true, v)
  }

  /** Every 32-bit value written in decimal is read back as itself. */
  lemma SetIntRoundTrip(target: int, n: int)
    requires LONG_MIN <= n <= LONG_MAX
    ensures SetIntFromChar(target, IntString(n)) == Set(true, n)
  {
    StrtolOfIntString(n, "");
    assert IntString(n) + "" == IntString(n);
  }

  /** `tolower` for ASCII letters, as `_stricmp` compares. */
  function Lower(c: char): char {
    if 'A' <= c <= 'Z' then (c as int + 32) as char else c
  }

  /** `_stricmp(a, b) == 0`. */
  predicate EqualsIgnoreCase(a: string, b: string) {
    |a| == |b| && forall i :: 0 <= i < |a| ==> Lower(a[i]) == Lower(b[i])
  }

  /**
   * The bool overload: "true" and "false" in any letter case, or else an
   * integer read by `strtol` that is nonzero; with nothing read the target is kept.
   */
  function SetBoolFromChar(target: bool, value: string): (r: Set<bool>)
    ensures r.ok <==> EqualsIgnoreCase(value, "true") || EqualsIgnoreCase(value, "false") ||
                      Strtol(value).Some?
    ensures EqualsIgnoreCase(value, "true") ==> r.target
    ensures !r.ok ==> r.target == target
  {
    if EqualsIgnoreCase(value, "true") then Set(true, true)
    else if EqualsIgnoreCase(value, "false") then Set(true, false)
    else match Strtol(value)
      case None => Set(false, target)
      case Some(v) => Set(true, v != 0)
  }

  /** Every spelling of "false" clears the flag. */
  lemma SetBoolFalse(target: bool, value: string)
    requires EqualsIgnoreCase(value, "false")
    ensures SetBoolFromChar(target, value) == Set(true, false)
  {
    assert Lower(value[0]) == 'f';
  }

  /** Any integer written in decimal sets the flag exactly when it is nonzero, saturation notwithstanding. */
  lemma SetBoolOfInteger(target: bool, n: int)
    ensures SetBoolFromChar(target, IntString(n)) == Set(true, n != 0)
  {
    var s := IntString(n);
    StrtolOfIntString(n, "");
    assert s + "" == s;
    assert IsDigit(s[0]) || s[0] == '-';
    assert Lower(s[0]) != 't' && Lower(s[0]) != 'f';
  }

  /** The SYSTEMTIME overload is not implemented: it always fails and keeps the target. */
  function SetTimeFromChar<T>(target: T, value: string): (r: Set<T>)
    ensures !r.ok && r.target == target
  {
    Set(false, target)
  }

  /**
   * The fields of `ParameterClass` the engine model reads. The floating-point
   * pulse times are kept as reals compared only for equality.
   */
  class Parameters {
    var adapter: int
    var monitor: int
    var screenWidth: int
    var screenHeight: int
    var bufferFrameSize: int
    var frameWidth: int
    var frameHeight: int
    var renderWidth: int
    var renderHeight: int

    var run: bool
    var frameCounter: int
    var stopAfterFrame: int
    var frameRateDivider: int
    var bufferFrameIndex: int
    var signalOnFrame: int
    var signalNow: bool

    var pulseEnable: bool
    var pulseSync: bool
    var pulseDelayFrames: int
    var pulseNumber: int
    var pulseHighTime: real
    var pulseLowTime: real
    var pulseDelayTime: real

    function GetSizes(): Sizes
      reads this
    {
      Sizes(adapter, monitor, screenWidth, screenHeight, bufferFrameSize,
            frameWidth, frameHeight, renderWidth, renderHeight)
    }

    /** Every field zero, then `signalNow`, the pulse times and `pulseNumber` set (triggering builds). */
    constructor ()
      ensures GetSizes() == Sizes(0, 0, 0, 0, 0, 0, 0, 0, 0)
      ensures !run && frameCounter == 0 && stopAfterFrame == 0 && frameRateDivider == 0
      ensures bufferFrameIndex == 0 && signalOnFrame == 0 && signalNow
      ensures !pulseEnable && !pulseSync && pulseDelayFrames == 0 && pulseNumber == 1
      ensures pulseHighTime == 0.001 && pulseLowTime == 0.000001 && pulseDelayTime == 0.0
    {
      adapter, monitor, screenWidth, screenHeight, bufferFrameSize := 0, 0, 0, 0, 0;
      frameWidth, frameHeight, renderWidth, renderHeight := 0, 0, 0, 0;
      run, frameCounter, stopAfterFrame, frameRateDivider := false, 0, 0, 0;
      bufferFrameIndex, signalOnFrame := 0, 0;
      pulseEnable, pulseSync, pulseDelayFrames := false, false, 0;
      pulseDelayTime := 0.0;
      signalNow := true;
      pulseHighTime := 0.001;
      pulseLowTime := 0.000001;
      pulseNumber := 1;
    }

    /**
     * `CheckAndComplete`: validates the display fields, then defaults the
     * frame size to the screen size and the render size to the frame size,
     * writing each default in place as it goes. No other field changes.
     */
    method CheckAndComplete() returns (ok: bool)
      modifies this
      ensures Completion(ok, GetSizes()) == Complete(old(GetSizes()))
      ensures run == old(run) && frameCounter == old(frameCounter) && stopAfterFrame == old(stopAfterFrame)
      ensures frameRateDivider == old(frameRateDivider) && bufferFrameIndex == old(bufferFrameIndex)
      ensures signalOnFrame == old(signalOnFrame) && signalNow == old(signalNow)
      ensures pulseEnable == old(pulseEnable) && pulseSync == old(pulseSync)
      ensures pulseDelayFrames == old(pulseDelayFrames) && pulseNumber == old(pulseNumber)
      ensures pulseHighTime == old(pulseHighTime) && pulseLowTime == old(pulseLowTime)
      ensures pulseDelayTime == old(pulseDelayTime)
    {
      if !(adapter >= 0 && monitor >= 0 && screenWidth > 0 && screenHeight > 0 && bufferFrameSize > 0) {
        return false;
      }
      if frameWidth == 0 && frameHeight == 0 {
        frameWidth := screenWidth;
        frameHeight := screenHeight;
      } else if !(frameWidth != 0 && frameHeight != 0) {
        return false;
      }
      if renderWidth == 0 && renderHeight == 0 {
        renderWidth := frameWidth;
        renderHeight := frameHeight;
      } else if !(renderWidth != 0 && renderHeight != 0) {
        return false;
      }
      return true;
    }
  }
}
