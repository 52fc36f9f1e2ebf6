/**
 * The `modulation_slm_fast` MEX kernel: a stack of N phase-ramp frames of
 * X columns by Y rows, one per pair of integer spatial frequencies
 * (xf[n], yf[n]), and the byte-wise wrapping `add`.
 *
 * The output is a column-major MATLAB `uint8` array of dimensions X, Y, N,
 * so the byte of column x, row y, frame n sits at n*X*Y + y*X + x, written
 * here `At(n, Y * X, At(y, X, x))`.
 */
module Modulation {
  import opened Util
  import opened IndexMath

  // ---------------------------------------------------------------------
  // C integer semantics
  // ---------------------------------------------------------------------

  function Abs(a: int): nat {
    if a < 0 then -a else a
  }

  lemma NegativeTimesPositive(m: int, d: int)
    ensures m < 0 && d > 0 ==> m * d <= -d
  {
    if m < 0 && d > 0 {
      MulMonotone(1, -m, d);
      assert m * d == -((-m) * d);
    }
  }

  lemma DivNonNegative(n: nat, d: nat)
    requires d > 0
    ensures n / d >= 0
  {
    assert n == (n / d) * d + n % d;
    NegativeTimesPositive(n / d, d);
  }

  /** C's `/` on `int`: the quotient truncated toward zero. */
  function CDiv(a: int, b: int): (q: int)
    requires b != 0
    ensures Abs(q) == Abs(a) / Abs(b)
    ensures q != 0 ==> ((q < 0) <==> ((a < 0) != (b < 0)))
  {
    DivNonNegative(Abs(a), Abs(b));
    var m := Abs(a) / Abs(b);
    if (a < 0) != (b < 0) then -m else m
  }

  /** C's `%` on `int`: the remainder that goes with `CDiv`, signed like `a`. */
  function CMod(a: int, b: int): (r: int)
    requires b != 0
    ensures Abs(r) == Abs(a) % Abs(b) && Abs(r) < Abs(b)
    ensures r != 0 ==> ((r < 0) <==> (a < 0))
  {
    if a < 0 then -(Abs(a) % Abs(b)) else Abs(a) % Abs(b)
  }

  /** The C identity `(a / b) * b + a % b == a`. */
  lemma CDivMod(a: int, b: int)
    requires b != 0
    ensures CDiv(a, b) * b + CMod(a, b) == a
  {
    var m, r := Abs(a) / Abs(b), Abs(a) % Abs(b);
    assert Abs(a) == m * Abs(b) + r;
    if b < 0 {
      assert m * Abs(b) == -(m * b);
    }
  }

  /** On non-negative operands C and Dafny agree. */
  lemma CDivOfNonNegative(a: int, b: int)
    requires a >= 0 && b > 0
    ensures CDiv(a, b) == a / b && CMod(a, b) == a % b
  {
  }

  /** The conversion `(char)v` of MSVC, where `char` is signed: the value modulo 256, in -128..127. */
  function SignedChar(v: int): (c: int)
    ensures -128 <= c < 128
    ensures (c - v) % 256 == 0
  {
    (v + 128) % 256 - 128
  }

  /** What a `char` holding `v` reads as through the `uint8` output array. */
  function Wrap(v: int): (b: byte)
    ensures (b as int - v) % 256 == 0
  {
    (v % 256) as byte
  }

  /** `c += d` on a `char` element holding byte `c`: the sum is truncated back to 8 bits. */
  function AddToChar(c: byte, d: int): (r: byte)
    ensures (r as int - c as int - d) % 256 == 0
  {
    Wrap(c as int + d)
  }

  // ---------------------------------------------------------------------
  // add
  // ---------------------------------------------------------------------

  /**
   * `add(x, y, v, n)`: v[i] = x[i] + y[i] on `unsigned char`, so every sum
   * wraps modulo 256. The output may be one of the inputs.
   */
  method Add(x: array<byte>, y: array<byte>, v: array<byte>, n: int)
    requires n <= x.Length && n <= y.Length && n <= v.Length
    modifies v
    ensures forall i :: 0 <= i < n ==> v[i] as int == (old(x[i]) as int + old(y[i]) as int) % 256
    ensures forall i :: 0 <= i < v.Length && !(i < n) ==> v[i] == old(v[i])
  {
    var i := 0;
    while i < n
      invariant 0 <= i && (i <= n || i == 0)
      invariant forall k :: 0 <= k < i ==> v[k] as int == (old(x[k]) as int + old(y[k]) as int) % 256
      invariant forall k :: i <= k < x.Length ==> x[k] == old(x[k])
      invariant forall k :: i <= k < y.Length ==> y[k] == old(y[k])
      invariant forall k :: 0 <= k < v.Length && !(k < i) ==> v[k] == old(v[k])
    {
      v[i] := ((x[i] as int + y[i] as int) % 256) as byte;
      i := i + 1;
    }
  }

  // ---------------------------------------------------------------------
  // Argument checks
  // ---------------------------------------------------------------------

  /** What the entry point inspects of one MATLAB argument. */
  datatype MexArg = MexArg(isInt32: bool, elementCount: nat)

  const WRONG_COUNT := "Input should be four parameters."
  const WRONG_TYPE := "Parameters should be of type int."
  const NOT_SCALAR := "The first two parameters should not be arrays."
  const SIZE_MISMATCH := "The last two parameters should have the same size."
  const TOO_MANY_OUTPUTS := "Only one output argument expected."

  /**
   * The checks made before any computation, in their order; `Some(message)`
   * is the text passed to `mexErrMsgTxt`, which does not return.
   */
  function CheckArguments(nlhs: int, args: seq<MexArg>): (r: Option<string>)
    ensures r.None? <==>
      (|args| == 4
       && args[0].isInt32 && args[1].isInt32 && args[2].isInt32 && args[3].isInt32
       && args[0].elementCount == 1 && args[1].elementCount == 1
       && args[2].elementCount == args[3].elementCount
       && nlhs <= 2)
    ensures |args| != 4 ==> r == Some(WRONG_COUNT)
  {
    if |args| != 4 then Some(WRONG_COUNT)
    else if !args[0].isInt32 || !args[1].isInt32 || !args[2].isInt32 || !args[3].isInt32 then Some(WRONG_TYPE)
    else if args[0].elementCount != 1 || args[1].elementCount != 1 then Some(NOT_SCALAR)
    else if args[2].elementCount != args[3].elementCount then Some(SIZE_MISMATCH)
    else if nlhs > 2 then Some(TOO_MANY_OUTPUTS)
    else None
  }

  /** Every rejection carries one of the five messages, and a type error hides every later check. */
  lemma CheckArgumentsMessages(nlhs: int, args: seq<MexArg>)
    ensures CheckArguments(nlhs, args).Some? ==>
      CheckArguments(nlhs, args).value in {WRONG_COUNT, WRONG_TYPE, NOT_SCALAR, SIZE_MISMATCH, TOO_MANY_OUTPUTS}
    ensures (|args| == 4 && exists i :: 0 <= i < 4 && !args[i].isInt32) ==>
      CheckArguments(nlhs, args) == Some(WRONG_TYPE)
  {
  }

  // ---------------------------------------------------------------------
  // Centre shift
  // ---------------------------------------------------------------------

  /** The centre subtracted from every frequency along an axis of `size` pixels. */
  function Centre(size: int): int {
    if CMod(size, 2) == 0 then CDiv(size, 2) + 1 else CDiv(size + 1, 2)
  }

  /** For every size an array can have, both branches give size / 2 + 1. */
  lemma CentreIsHalfPlusOne(size: int)
    requires size >= 0
    ensures Centre(size) == size / 2 + 1
  {
    CDivOfNonNegative(size, 2);
    CDivOfNonNegative(size + 1, 2);
  }

  /** Subtracts the centres from the frequency arrays in place. */
  method ShiftFrequencies(xf: array<int>, yf: array<int>, X: int, Y: int)
    requires xf.Length == yf.Length && xf != yf
    modifies xf, yf
    ensures forall n :: 0 <= n < xf.Length ==> xf[n] == old(xf[n]) - Centre(X) && yf[n] == old(yf[n]) - Centre(Y)
  {
    var xc := Centre(X);
    var yc := Centre(Y);
    for n := 0 to xf.Length
      invariant forall k :: 0 <= k < n ==> xf[k] == old(xf[k]) - xc && yf[k] == old(yf[k]) - yc
      invariant forall k :: n <= k < xf.Length ==> xf[k] == old(xf[k]) && yf[k] == old(yf[k])
    {
      xf[n] := xf[n] - xc;
      yf[n] := yf[n] - yc;
    }
  }

  // ---------------------------------------------------------------------
  // The phase ramp
  // ---------------------------------------------------------------------

  /** `(256 * pos * freq) / size` in C: the phase step at `pos` along an axis of `size` pixels. */
  function Ramp(pos: nat, freq: int, size: nat): int
    requires pos < size
  {
    CDiv(256 * pos * freq, size)
  }

  /** The output byte of column x, row y for the shifted frequencies a and b. */
  function Pixel(x: nat, y: nat, X: nat, Y: nat, a: int, b: int): byte
    requires x < X && y < Y
  {
    Wrap(Ramp(x, a, X) + Ramp(y, b, Y))
  }

  lemma ModAdd(u: int, v: int)
    ensures (u % 256 + v % 256) % 256 == (u + v) % 256
  {
    var qu, qv := u / 256, v / 256;
    assert u == 256 * qu + u % 256;
    assert v == 256 * qv + v % 256;
    assert u + v == 256 * (qu + qv) + (u % 256 + v % 256);
  }

  /** The corner of every frame is 0, whatever its frequencies. */
  lemma PixelOrigin(X: nat, Y: nat, a: int, b: int)
    requires X > 0 && Y > 0
    ensures Pixel(0, 0, X, Y, a, b) == 0
  {
  }

  /** A pixel is the sum, modulo 256, of its column's value in row 0 and its row's value in column 0. */
  lemma PixelSeparable(x: nat, y: nat, X: nat, Y: nat, a: int, b: int)
    requires x < X && y < Y
    ensures Pixel(x, y, X, Y, a, b) as int == (Pixel(x, 0, X, Y, a, b) as int + Pixel(0, y, X, Y, a, b) as int) % 256
  {
    assert Ramp(0, b, Y) == 0 && Ramp(0, a, X) == 0;
    ModAdd(Ramp(x, a, X), Ramp(y, b, Y));
  }

  /** Adding the signed y step to the wrapped x step gives the wrapped sum. */
  lemma AddToWrapped(u: int, v: int)
    ensures AddToChar(Wrap(u), SignedChar(v)) == Wrap(u + v)
  {
    var c := SignedChar(v);
    assert c == v + 256 * -((v + 128) / 256);
    assert u % 256 == u + 256 * -(u / 256);
    ModShift(u + c, -(u / 256));
    ModShift(u + v, -((v + 128) / 256));
  }

  lemma ModShift(m: int, k: int)
    ensures (m + 256 * k) % 256 == m % 256
  {
    var q, r := m / 256, m % 256;
    assert m + 256 * k == 256 * (q + k) + r;
  }

  /** The size of one frame, X * Y, counted row by row. */
  function FrameSize(X: nat, Y: nat): nat {
    At(Y, X, 0)
  }

  /** The first `rows` rows of the frame at `base` of `s` hold the x ramp for frequency a. */
  ghost predicate XRamped(s: seq<byte>, base: nat, X: nat, rows: nat, a: int) {
    forall y, x :: 0 <= y < rows && 0 <= x < X ==>
      base + At(y, X, x) < |s| && s[base + At(y, X, x)] == Wrap(Ramp(x, a, X))
  }

  /** The first `rows` rows of the frame at `base` of `s` are those of `o` shifted by the y steps for frequency b. */
  ghost predicate YShifted(s: seq<byte>, o: seq<byte>, base: nat, X: nat, Y: nat, rows: nat, b: int) {
    forall y, x :: 0 <= y < rows && y < Y && 0 <= x < X ==>
      base + At(y, X, x) < |s| && base + At(y, X, x) < |o| &&
      s[base + At(y, X, x)] == AddToChar(o[base + At(y, X, x)], SignedChar(Ramp(y, b, Y)))
  }

  /** `s` and `o` agree outside the `size` bytes from `base`. */
  ghost predicate SameOutside(s: seq<byte>, o: seq<byte>, base: nat, size: nat) {
    |s| == |o| && forall i :: 0 <= i < |s| && !(base <= i < base + size) ==> s[i] == o[i]
  }

  /** Row 0 of the frame at `base`: the x ramp for frequency a. */
  method RampRow(data: array<byte>, base: nat, X: nat, a: int)
    requires base + X <= data.Length
    modifies data
    ensures forall k :: 0 <= k < X ==> data[base + k] == Wrap(Ramp(k, a, X))
    ensures SameOutside(data[..], old(data[..]), base, X)
  {
    for x := 0 to X
      invariant forall k :: 0 <= k < x ==> data[base + k] == Wrap(Ramp(k, a, X))
      invariant SameOutside(data[..], old(data[..]), base, x)
    {
      data[base + x] := Wrap(Ramp(x, a, X));
    }
  }

  /** `CopyMemory(to, from, count)` between two blocks of `data` that do not overlap. */
  method CopyBlock(data: array<byte>, to: nat, from: nat, count: nat)
    requires from + count <= to && to + count <= data.Length
    modifies data
    ensures data[to..to + count] == old(data[from..from + count])
    ensures SameOutside(data[..], old(data[..]), to, count)
  {
    forall k | 0 <= k < count {
      data[to + k] := data[from + k];
    }
  }

  /** Rows 1 .. rows - 1 of the frame at `base` of `s` are copies of its row 0. */
  ghost predicate RowsCopied(s: seq<byte>, base: nat, X: nat, rows: nat) {
    forall y, x :: 0 <= y < rows && 0 <= x < X ==>
      base + At(y, X, x) < |s| && base + x < |s| && s[base + At(y, X, x)] == s[base + x]
  }

  /** Copies row 0 of the frame at `base` into rows 1 .. Y - 1. */
  method CopyRowZero(data: array<byte>, base: nat, X: nat, Y: nat)
    requires base + FrameSize(X, Y) <= data.Length
    modifies data
    ensures RowsCopied(data[..], base, X, Y)
    ensures Y > 0 ==> data[base..base + X] == old(data[base..base + X])
    ensures SameOutside(data[..], old(data[..]), base, FrameSize(X, Y))
  {
    if Y == 0 {
      return;
    }
    RowInFrame(0, X, Y);
    for y := 1 to Y
      invariant RowsCopied(data[..], base, X, y)
      invariant data[base..base + X] == old(data[base..base + X])
      invariant SameOutside(data[..], old(data[..]), base, At(y, X, 0))
    {
      RowInFrame(y, X, Y);
      ghost var before := data[..];
      CopyBlock(data, base + At(y, X, 0), base, X);
      CopyExtendsRows(before, data[..], base, X, y);
    }
  }

  /** Copying row 0 over row y extends the copied rows by one. */
  lemma CopyExtendsRows(before: seq<byte>, after: seq<byte>, base: nat, X: nat, y: nat)
    requires y >= 1 && base + At(y, X, 0) + X <= |before|
    requires RowsCopied(before, base, X, y)
    requires SameOutside(after, before, base + At(y, X, 0), X)
    requires after[base + At(y, X, 0)..base + At(y, X, 0) + X] == before[base..base + X]
    ensures RowsCopied(after, base, X, y + 1)
  {
    RowInFrame(0, X, y + 1);
    RowInFrame(y, X, y + 1);
    forall p, q | 0 <= p <= y && 0 <= q < X
      ensures base + At(p, X, q) < |after| && base + q < |after| && after[base + At(p, X, q)] == after[base + q]
    {
      if p < y {
        AtRowOrder(p, q, y, X);
        assert after[base + At(p, X, q)] == before[base + At(p, X, q)];
      } else {
        AtShift(y, X, q);
        assert after[base + At(y, X, 0) + q] == after[base + At(y, X, 0)..base + At(y, X, 0) + X][q];
      }
    }
  }

  /**
   * The first pass over one frame starting at `base`: row 0 gets the x ramp,
   * then every further row is a copy of row 0. A frame without rows gets no
   * write.
   */
  method XFrame(data: array<byte>, base: nat, X: nat, Y: nat, a: int)
    requires base + FrameSize(X, Y) <= data.Length
    modifies data
    ensures RowsCopied(data[..], base, X, Y)
    ensures XRamped(data[..], base, X, Y, a)
    ensures SameOutside(data[..], old(data[..]), base, FrameSize(X, Y))
  {
    if Y == 0 {
      return;
    }
    RowInFrame(0, X, Y);
    RampRow(data, base, X, a);
    ghost var row := data[base..base + X];
    CopyRowZero(data, base, X, Y);
    forall y, x | 0 <= y < Y && 0 <= x < X
      ensures base + At(y, X, x) < data.Length && data[base + At(y, X, x)] == Wrap(Ramp(x, a, X))
    {
      assert data[base + x] == row[x];
    }
  }

  /** A row of `char`s after `+= d` on each of them. */
  ghost function AddedRow(r: seq<byte>, d: int): (t: seq<byte>)
    ensures |t| == |r|
  {
    seq(|r|, k requires 0 <= k < |r| => AddToChar(r[k], d))
  }

  /** The first `rows` rows of the frame at `base` of `s` are those of `o` with row y shifted by `steps[y]`. */
  ghost predicate RowsAdded(s: seq<byte>, o: seq<byte>, base: nat, X: nat, rows: nat, steps: seq<int>) {
    forall y, x :: 0 <= y < rows && y < |steps| && 0 <= x < X ==>
      base + At(y, X, x) < |s| && base + At(y, X, x) < |o| &&
      s[base + At(y, X, x)] == AddToChar(o[base + At(y, X, x)], steps[y])
  }

  /** The y-step array of one frame: `y_arr[y] = (char)((256 * y * b) / Y)`. */
  method YSteps(Y: nat, b: int) returns (steps: array<int>)
    ensures fresh(steps) && steps.Length == Y
    ensures forall k :: 0 <= k < Y ==> steps[k] == SignedChar(Ramp(k, b, Y))
  {
    steps := new int[Y];
    for y := 0 to Y
      invariant forall k :: 0 <= k < y ==> steps[k] == SignedChar(Ramp(k, b, Y))
    {
      steps[y] := SignedChar(Ramp(y, b, Y));
    }
  }

  /** `pLine[x] += d` for every x of the row of X bytes at `line`. */
  method AddToRow(data: array<byte>, line: nat, X: nat, d: int)
    requires line + X <= data.Length
    modifies data
    ensures data[line..line + X] == AddedRow(old(data[line..line + X]), d)
    ensures SameOutside(data[..], old(data[..]), line, X)
  {
    for x := 0 to X
      invariant data[line..line + x] == AddedRow(old(data[line..line + x]), d)
      invariant SameOutside(data[..], old(data[..]), line, x)
    {
      data[line + x] := AddToChar(data[line + x], d);
    }
  }

  /** Shifting row y by its step extends the shifted rows by one. */
  lemma AddExtendsRows(old0: seq<byte>, before: seq<byte>, after: seq<byte>, base: nat, X: nat, y: nat, steps: seq<int>)
    requires y < |steps| && base + At(y, X, 0) + X <= |before|
    requires SameOutside(before, old0, base, At(y, X, 0))
    requires RowsAdded(before, old0, base, X, y, steps)
    requires SameOutside(after, before, base + At(y, X, 0), X)
    requires after[base + At(y, X, 0)..base + At(y, X, 0) + X] ==
             AddedRow(before[base + At(y, X, 0)..base + At(y, X, 0) + X], steps[y])
    ensures RowsAdded(after, old0, base, X, y + 1, steps)
    ensures SameOutside(after, old0, base, At(y + 1, X, 0))
  {
    forall p, q | 0 <= p <= y && 0 <= q < X
      ensures base + At(p, X, q) < |after| && base + At(p, X, q) < |old0| &&
              after[base + At(p, X, q)] == AddToChar(old0[base + At(p, X, q)], steps[p])
    {
      if p < y {
        AtRowOrder(p, q, y, X);
        assert after[base + At(p, X, q)] == before[base + At(p, X, q)];
      } else {
        AtShift(y, X, q);
        var line := base + At(y, X, 0);
        assert after[line + q] == after[line..line + X][q];
        assert before[line + q] == before[line..line + X][q];
        assert before[line + q] == old0[line + q];
      }
    }
  }

  /** Adds `steps[y]` to every byte of row y of the frame at `base`. */
  method AddRows(data: array<byte>, base: nat, X: nat, Y: nat, steps: seq<int>)
    requires base + FrameSize(X, Y) <= data.Length && |steps| == Y
    modifies data
    ensures RowsAdded(data[..], old(data[..]), base, X, Y, steps)
    ensures SameOutside(data[..], old(data[..]), base, FrameSize(X, Y))
  {
    ghost var o := data[..];
    for y := 0 to Y
      invariant RowsAdded(data[..], o, base, X, y, steps)
      invariant SameOutside(data[..], o, base, At(y, X, 0))
    {
      RowInFrame(y, X, Y);
      ghost var before := data[..];
      AddToRow(data, base + At(y, X, 0), X, steps[y]);
      AddExtendsRows(o, before, data[..], base, X, y, steps);
    }
  }

  /**
   * The second pass over one frame starting at `base`: every row y gains the
   * signed y step of that row.
   */
  method YFrame(data: array<byte>, base: nat, X: nat, Y: nat, b: int)
    requires base + FrameSize(X, Y) <= data.Length
    modifies data
    ensures YShifted(data[..], old(data[..]), base, X, Y, Y, b)
    ensures SameOutside(data[..], old(data[..]), base, FrameSize(X, Y))
  {
    var steps := YSteps(Y, b);
    AddRows(data, base, X, Y, steps[..]);
  }

  // ---------------------------------------------------------------------
  // The whole stack
  // ---------------------------------------------------------------------

  /** The frame at `base` of `s` holds the finished phase ramp for frequencies a and b. */
  ghost predicate FramePixels(s: seq<byte>, base: nat, X: nat, Y: nat, a: int, b: int) {
    forall y, x :: 0 <= y < Y && 0 <= x < X ==>
      base + At(y, X, x) < |s| && s[base + At(y, X, x)] == Pixel(x, y, X, Y, a, b)
  }

  /** Every frame n of the stack `s`, which starts at n * X * Y, holds the phase ramp for xf[n] and yf[n]. */
  ghost predicate Modulated(s: seq<byte>, X: nat, Y: nat, xf: seq<int>, yf: seq<int>) {
    forall n :: 0 <= n < |xf| && n < |yf| ==> FramePixels(s, At(n, FrameSize(X, Y), 0), X, Y, xf[n], yf[n])
  }

  /** Frames that do not overlap the changed block keep their x ramp. */
  lemma XRampedKept(s: seq<byte>, o: seq<byte>, base: nat, X: nat, Y: nat, a: int, lo: nat, size: nat)
    requires XRamped(o, base, X, Y, a) && SameOutside(s, o, lo, size)
    requires base + FrameSize(X, Y) <= lo || lo + size <= base
    ensures XRamped(s, base, X, Y, a)
  {
    forall y, x | 0 <= y < Y && 0 <= x < X
      ensures base + At(y, X, x) < |s| && s[base + At(y, X, x)] == Wrap(Ramp(x, a, X))
    {
      AtRowOrder(y, x, Y, X);
    }
  }

  /** Frames that do not overlap the changed block keep their pixels. */
  lemma FramePixelsKept(s: seq<byte>, o: seq<byte>, base: nat, X: nat, Y: nat, a: int, b: int, lo: nat, size: nat)
    requires FramePixels(o, base, X, Y, a, b) && SameOutside(s, o, lo, size)
    requires base + FrameSize(X, Y) <= lo || lo + size <= base
    ensures FramePixels(s, base, X, Y, a, b)
  {
    forall y, x | 0 <= y < Y && 0 <= x < X
      ensures base + At(y, X, x) < |s| && s[base + At(y, X, x)] == Pixel(x, y, X, Y, a, b)
    {
      AtRowOrder(y, x, Y, X);
    }
  }

  /** The y pass over an x-ramped frame leaves the finished ramp. */
  lemma YShiftFinishes(s: seq<byte>, o: seq<byte>, base: nat, X: nat, Y: nat, a: int, b: int)
    requires XRamped(o, base, X, Y, a) && YShifted(s, o, base, X, Y, Y, b)
    ensures FramePixels(s, base, X, Y, a, b)
  {
    forall y, x | 0 <= y < Y && 0 <= x < X
      ensures base + At(y, X, x) < |s| && s[base + At(y, X, x)] == Pixel(x, y, X, Y, a, b)
    {
      AddToWrapped(Ramp(x, a, X), Ramp(y, b, Y));
    }
  }

  /** The x pass over all N frames of `data`. */
  method XPass(data: array<byte>, X: nat, Y: nat, xf: array<int>)
    requires At(xf.Length, FrameSize(X, Y), 0) <= data.Length
    modifies data
    ensures forall m :: 0 <= m < xf.Length ==> XRamped(data[..], At(m, FrameSize(X, Y), 0), X, Y, xf[m])
  {
    var N, F := xf.Length, FrameSize(X, Y);
    for n := 0 to N
      invariant forall m :: 0 <= m < n ==> XRamped(data[..], At(m, F, 0), X, Y, xf[m])
    {
      RowInFrame(n, F, N);
      ghost var before := data[..];
      XFrame(data, At(n, F, 0), X, Y, xf[n]);
      forall m | 0 <= m < n
        ensures XRamped(data[..], At(m, F, 0), X, Y, xf[m])
      {
        RowInFrame(m, F, n);
        XRampedKept(data[..], before, At(m, F, 0), X, Y, xf[m], At(n, F, 0), F);
      }
      assert XRamped(data[..], At(n, F, 0), X, Y, xf[n]);
      assert forall m :: 0 <= m < n + 1 ==> XRamped(data[..], At(m, F, 0), X, Y, xf[m]);
    }
  }

  /** The y pass over all N frames of `data`, each of which holds its x ramp. */
  method YPass(data: array<byte>, X: nat, Y: nat, xf: array<int>, yf: array<int>)
    requires xf.Length == yf.Length && At(xf.Length, FrameSize(X, Y), 0) <= data.Length
    requires forall m :: 0 <= m < xf.Length ==> XRamped(data[..], At(m, FrameSize(X, Y), 0), X, Y, xf[m])
    modifies data
    ensures forall m :: 0 <= m < xf.Length ==> FramePixels(data[..], At(m, FrameSize(X, Y), 0), X, Y, xf[m], yf[m])
  {
    var N, F := xf.Length, FrameSize(X, Y);
    for n := 0 to N
      invariant forall m :: 0 <= m < n ==> FramePixels(data[..], At(m, F, 0), X, Y, xf[m], yf[m])
      invariant forall m :: n <= m < N ==> XRamped(data[..], At(m, F, 0), X, Y, xf[m])
    {
      RowInFrame(n, F, N);
      ghost var before := data[..];
      YFrame(data, At(n, F, 0), X, Y, yf[n]);
      YShiftFinishes(data[..], before, At(n, F, 0), X, Y, xf[n], yf[n]);
      YFrameKeepsOthers(data[..], before, X, Y, n, xf[..], yf[..]);
    }
  }

  /** After the y pass over frame n, the frames before it stay finished and those after it keep their x ramp. */
  lemma YFrameKeepsOthers(s: seq<byte>, o: seq<byte>, X: nat, Y: nat, n: nat, xs: seq<int>, ys: seq<int>)
    requires n < |xs| == |ys|
    requires SameOutside(s, o, At(n, FrameSize(X, Y), 0), FrameSize(X, Y))
    requires FramePixels(s, At(n, FrameSize(X, Y), 0), X, Y, xs[n], ys[n])
    requires forall m :: 0 <= m < n ==> FramePixels(o, At(m, FrameSize(X, Y), 0), X, Y, xs[m], ys[m])
    requires forall m :: n <= m < |xs| ==> XRamped(o, At(m, FrameSize(X, Y), 0), X, Y, xs[m])
    ensures forall m :: 0 <= m < n + 1 ==> FramePixels(s, At(m, FrameSize(X, Y), 0), X, Y, xs[m], ys[m])
    ensures forall m :: n + 1 <= m < |xs| ==> XRamped(s, At(m, FrameSize(X, Y), 0), X, Y, xs[m])
  {
    var F := FrameSize(X, Y);
    forall m | 0 <= m < n
      ensures FramePixels(s, At(m, F, 0), X, Y, xs[m], ys[m])
    {
      RowInFrame(m, F, n);
      FramePixelsKept(s, o, At(m, F, 0), X, Y, xs[m], ys[m], At(n, F, 0), F);
    }
    forall m | n < m < |xs|
      ensures XRamped(s, At(m, F, 0), X, Y, xs[m])
    {
      RowInFrame(n, F, m);
      XRampedKept(s, o, At(m, F, 0), X, Y, xs[m], At(n, F, 0), F);
    }
  }

  /** N frames of X by Y bytes hold X * Y * N bytes. */
  lemma StackSize(X: nat, Y: nat, N: nat)
    ensures At(N, FrameSize(X, Y), 0) == X * Y * N
  {
    AtIsProduct(N, FrameSize(X, Y), 0);
    AtIsProduct(Y, X, 0);
    assert N * (Y * X) == X * Y * N;
  }

  /**
   * Everything after the argument checks: the centre shift of `xf` and `yf`
   * in place, then the x pass and the y pass over a fresh, zero-filled
   * X by Y by N array.
   */
  method Modulate(X: int, Y: int, xf: array<int>, yf: array<int>) returns (data: array<byte>)
    requires X >= 0 && Y >= 0 && xf.Length == yf.Length && xf != yf
    modifies xf, yf
    ensures forall n :: 0 <= n < xf.Length ==> xf[n] == old(xf[n]) - Centre(X) && yf[n] == old(yf[n]) - Centre(Y)
    ensures fresh(data) && data.Length == X * Y * xf.Length
    ensures Modulated(data[..], X, Y, xf[..], yf[..])
  {
    ShiftFrequencies(xf, yf, X, Y);
    var N, F := xf.Length, FrameSize(X, Y);
    data := new byte[At(N, F, 0)];
    XPass(data, X, Y, xf);
    YPass(data, X, Y, xf, yf);
    StackSize(X, Y, N);
  }

  // ---------------------------------------------------------------------
  // The x pass of a frame without rows, as written
  // ---------------------------------------------------------------------

  /**
   * As written, the x pass writes `pLine0[x]`, at n*X*Y + x, for every frame
   * n < N and every column x < X before it looks at Y. This says every such
   * write lands inside the X*Y*N-byte output.
   */
  ghost predicate RowZeroInBounds(X: nat, Y: nat, N: nat) {
    forall n, x :: 0 <= n < N && 0 <= x < X ==> At(n, FrameSize(X, Y), x) < At(N, FrameSize(X, Y), 0)
  }

  /** The row-0 writes stay inside the output exactly when there is nothing to write or every frame has a row. */
  lemma RowZeroInBoundsIff(X: nat, Y: nat, N: nat)
    ensures RowZeroInBounds(X, Y, N) <==> (N == 0 || X == 0 || Y > 0)
  {
    var F := FrameSize(X, Y);
    if Y > 0 {
      RowInFrame(0, X, Y);
      forall n, x | 0 <= n < N && 0 <= x < X
        ensures At(n, F, x) < At(N, F, 0)
      {
        AtRowOrder(n, x, N, F);
      }
    } else if N > 0 && X > 0 {
      AtIsProduct(N, F, 0);
      assert At(0, F, 0) == 0;
    }
  }

  /** With X = 4, Y = 0 and one frequency pair the output is empty, yet the x pass writes 4 bytes into it. */
  lemma ZeroHeightOverruns()
    ensures At(1, FrameSize(4, 0), 0) == 0
    ensures !RowZeroInBounds(4, 0, 1)
  {
    RowZeroInBoundsIff(4, 0, 1);
  }
}
