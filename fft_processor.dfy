/**
 * The FFT stage (`FFTProcessor`): takes images from an upstream image queue,
 * loads 8- or 16-bit pixels into the real-to-complex transform, and keeps a
 * sparse set of Fourier coefficients, in filter order, together with the
 * image's timestamp. A negative filter index selects the conjugate of the
 * coefficient at its magnitude.
 */
module FftProcessor {
  import opened Util
  import opened Pv
  import opened SpscQueue
  import opened FftwDef
  import opened FftwR2C

  const MSG_BIT_DEPTH :=
    "ProcessBuffer failed: cannot copy the data to the FFTW buffer (unsupported bit depth)"
  const MSG_SIZE_PREFIX := "ProcessBuffer failed: cannot copy the data to the FFTW buffer (ImageSize="
  const MSG_RANGE := "ProcessBuffer failed: filter indices out of range."
  const MSG_PUSH := "ProcessBuffer failed: could not push the transformed data to the output stack."
  const MSG_PROCESS := "Process operation failed."
  const MSG_POP_FAILED := "Wait operation succeeded but the queue pop operation failed."
  const MSG_WAIT_FAILED := "Queue wait operation failed."
  const MSG_UNEXPECTED_WAIT := "Unexpected wait error."

  /** `FFTExtract`: the selected coefficients and the image's timestamp. */
  datatype Extract = Extract(coefficients: seq<Complex>, timestamp: nat)

  /** The error recorded when the element count does not match the transform's input size. */
  function SizeMessage(numel: nat, sizeIn: nat): string {
    MSG_SIZE_PREFIX + NatString(numel) + "; Buffer=" + NatString(sizeIn) + ")"
  }

  /** `(ImageSizeBytes * 8) / ImageBpp` evaluated in 32-bit unsigned arithmetic. */
  function ElementCount(sizeBytes: nat, bpp: nat): nat
    requires bpp > 0
  {
    ((sizeBytes * 8) % UINT32_MODULUS) / bpp
  }

  /** Below 2^29 bytes nothing wraps and the count is the exact number of pixels. */
  lemma ElementCountExact(sizeBytes: nat, bpp: nat)
    requires bpp > 0 && sizeBytes < 0x2000_0000
    ensures ElementCount(sizeBytes, bpp) == sizeBytes * 8 / bpp
    ensures bpp == 8 ==> ElementCount(sizeBytes, bpp) == sizeBytes
    ensures bpp == 16 ==> ElementCount(sizeBytes, bpp) == sizeBytes / 2
  {
    assert (sizeBytes * 8) % UINT32_MODULUS == sizeBytes * 8;
  }

  /**
   * The element count as the source computes it, before the bit depth is
   * examined: C++ gives a division by zero no value.
   */
  function ElementCountAsWritten(sizeBytes: nat, bpp: nat): (r: Option<nat>)
    ensures bpp > 0 ==> r == Some(ElementCount(sizeBytes, bpp))
  {
    if bpp == 0 then None else Some(ElementCount(sizeBytes, bpp))
  }

  /** A zero bit depth reaches the division before the bit-depth check can reject it. */
  lemma ZeroBitDepthHasNoCount(sizeBytes: nat)
    ensures ElementCountAsWritten(sizeBytes, 0).None?
    ensures !SupportedDepth(0)
  {
  }

  predicate SupportedDepth(bpp: nat) {
    bpp == 8 || bpp == 16
  }

  /** The pixel values `SetDataIn` reads for a supported bit depth. */
  function Pixels(f: Frame): seq<int>
    requires SupportedDepth(f.bitsPerPixel)
  {
    Elements(f.data, f.bitsPerPixel)
  }

  /** The coefficient a filter index selects from the half spectrum, if it is in range. */
  function Coefficient(spectrum: seq<Complex>, index: int): (c: Option<Complex>)
    ensures c.Some? <==> -|spectrum| < index < |spectrum|
    ensures 0 <= index < |spectrum| ==> c == Some(spectrum[index])
    ensures -|spectrum| < index < 0 ==> c == Some(Conj(spectrum[-index]))
  {
    if index >= 0 then
      if index < |spectrum| then Some(spectrum[index]) else None
    else
      if -index < |spectrum| then Some(Conj(spectrum[-index])) else None
  }

  /**
   * The extracted coefficients, one per filter index and in filter order, or
   * `None` as soon as one index is out of range.
   */
  function ExtractAll(spectrum: seq<Complex>, indices: seq<int>): (r: Option<seq<Complex>>)
    ensures r.Some? <==> forall i :: 0 <= i < |indices| ==> Coefficient(spectrum, indices[i]).Some?
    ensures r.Some? ==> |r.value| == |indices| &&
                        forall i :: 0 <= i < |indices| ==> r.value[i] == Coefficient(spectrum, indices[i]).value
    decreases |indices|
  {
    if indices == [] then Some([])
    else
      var init := ExtractAll(spectrum, indices[..|indices| - 1]);
      var last := Coefficient(spectrum, indices[|indices| - 1]);
      if init.None? || last.None? then None else Some(init.value + [last.value])
  }

  /** What `ProcessBuffer` makes of one image, before the push to the output queue. */
  datatype Processed = Rejected(message: string) | Extracted(extract: Extract)

  function Process(f: Frame, sizeIn: nat, spectrum: seq<Complex>, indices: seq<int>): Processed {
    if !SupportedDepth(f.bitsPerPixel) then Rejected(MSG_BIT_DEPTH)
    else if ElementCount(|f.data|, f.bitsPerPixel) != sizeIn then
      Rejected(SizeMessage(ElementCount(|f.data|, f.bitsPerPixel), sizeIn))
    else
      match ExtractAll(spectrum, indices)
      case None => Rejected(MSG_RANGE)
      case Some(c) => Extracted(Extract(c, f.timestamp))
  }

  /**
   * An image is transformed exactly when its depth is supported, its element
   * count fits the transform and every filter index is in range; the extract
   * then holds one coefficient per index, in order, and the image's timestamp.
   */
  lemma ProcessOutcome(f: Frame, sizeIn: nat, spectrum: seq<Complex>, indices: seq<int>)
    ensures Process(f, sizeIn, spectrum, indices).Extracted? <==>
              SupportedDepth(f.bitsPerPixel) && ElementCount(|f.data|, f.bitsPerPixel) == sizeIn &&
              forall i :: 0 <= i < |indices| ==> -|spectrum| < indices[i] < |spectrum|
    ensures Process(f, sizeIn, spectrum, indices).Extracted? ==>
              var e := Process(f, sizeIn, spectrum, indices).extract;
              e.timestamp == f.timestamp && |e.coefficients| == |indices| &&
              forall i :: 0 <= i < |indices| ==>
                e.coefficients[i] ==
                  if indices[i] >= 0 then spectrum[indices[i]] else Conj(spectrum[-indices[i]])
  {
    var p := Process(f, sizeIn, spectrum, indices);
    if SupportedDepth(f.bitsPerPixel) && ElementCount(|f.data|, f.bitsPerPixel) == sizeIn {
      if forall i :: 0 <= i < |indices| ==> -|spectrum| < indices[i] < |spectrum| {
        assert forall i :: 0 <= i < |indices| ==> Coefficient(spectrum, indices[i]).Some?;
      } else {
        var i :| 0 <= i < |indices| && !(-|spectrum| < indices[i] < |spectrum|);
        assert Coefficient(spectrum, indices[i]).None?;
      }
    }
  }

  class Processor {
    /** The output queue `queue`. */
    const frames: Queue<Extract>
    /** `Errors`. */
    const errors: Queue<string>
    const fft: R2C
    /** The filter indices. */
    var indices: seq<int>

    ghost predicate Valid()
      reads this, frames, frames.slots, errors, errors.slots, fft
    {
      frames.Valid() && errors.Valid() &&
      AllPresent(frames.Contents) && AllPresent(errors.Contents) &&
      fft.Ready()
    }

    /** A processor whose `Initialize(source, width, height, filter)` succeeded. */
    constructor (width: nat, height: nat, filter: seq<int>)
      ensures Valid() && fresh(frames) && fresh(frames.slots) && fresh(errors) && fresh(errors.slots)
      ensures fresh(fft) && fresh(fft.dataIn) && fresh(fft.dataOut)
      ensures frames.Contents == [] && errors.Contents == [] && indices == filter
      ensures fft.width == width && fft.height == height
    {
      frames := new Queue<Extract>();
      errors := new Queue<string>();
      var r2c := new R2C();
      var _ := r2c.Initialize(width, height, true, true, true);
      fft := r2c;
      indices := filter;
    }

    method PushError(msg: string)
      requires Valid()
      modifies errors, errors.slots
      ensures Valid() && frames.Contents == old(frames.Contents)
      ensures errors.Contents == Pushed(old(errors.Contents), Some(msg))
    {
      var _ := errors.TryPush(Some(msg));
    }

    /**
     * `ProcessBuffer`: `spectrum` is the half spectrum the forward transform
     * computes from the loaded pixels.
     */
    method ProcessBuffer(f: Frame, spectrum: seq<Complex>) returns (ok: bool)
      requires Valid()
      requires |spectrum| == fft.numelOut
      modifies frames, frames.slots, errors, errors.slots, fft.dataIn, fft.dataOut
      ensures Valid()
      ensures match Process(f, fft.numelIn, spectrum, indices)
              case Rejected(m) =>
                !ok && frames.Contents == old(frames.Contents) &&
                errors.Contents == Pushed(old(errors.Contents), Some(m))
              case Extracted(e) =>
                (ok <==> old(|frames.Contents|) < SIZE) &&
                frames.Contents == Pushed(old(frames.Contents), Some(e)) &&
                errors.Contents ==
                  if ok then old(errors.Contents) else Pushed(old(errors.Contents), Some(MSG_PUSH))
    {
      var bpp := f.bitsPerPixel;
      if !SupportedDepth(bpp) {
        PushError(MSG_BIT_DEPTH);
        return false;
      }
      var numel := ElementCount(|f.data|, bpp);
      var pixels := Pixels(f);
      assert numel <= |pixels| by {
        assert numel <= |f.data| * 8 / bpp;
      }
      var resCopy := fft.SetDataIn(pixels, numel);
      if !resCopy {
        PushError(SizeMessage(numel, fft.GetSizeIn()));
        return false;
      }
      fft.TransformForward(spectrum);
      var output := fft.dataOut[..];
      var maxOut := fft.GetSizeOut();
      var coefficients: seq<Complex> := [];
      var i := 0;
      while i < |indices|
        invariant Valid() && frames.Contents == old(frames.Contents)
        invariant errors.Contents == old(errors.Contents)
        invariant 0 <= i <= |indices|
        invariant ExtractAll(spectrum, indices[..i]) == Some(coefficients)
      {
        assert indices[..i + 1][..i] == indices[..i];
        var k := indices[i];
        if k >= 0 {
          if k < maxOut {
            coefficients := coefficients + [output[k]];
          } else {
            PushError(MSG_RANGE);
            assert Coefficient(spectrum, indices[i]).None?;
            return false;
          }
        } else {
          if -k < maxOut {
            coefficients := coefficients + [Conj(output[-k])];
          } else {
            PushError(MSG_RANGE);
            assert Coefficient(spectrum, indices[i]).None?;
            return false;
          }
        }
        i := i + 1;
      }
      assert indices[..i] == indices;
      var rest := frames.TryPush(Some(Extract(coefficients, f.timestamp)));
      if rest.Some? {
        PushError(MSG_PUSH);
        return false;
      }
      ok := true;
    }

    /**
     * One pass of `ProcessBuffersContinuously`: `wait` and `popped` are the
     * upstream's `WaitImages(1, 1000)` and `GetImage()`.
     */
    method Iterate(wait: WaitStatus, popped: Option<Frame>, spectrum: seq<Complex>)
      requires Valid()
      requires |spectrum| == fft.numelOut
      modifies frames, frames.slots, errors, errors.slots, fft.dataIn, fft.dataOut
      ensures Valid()
      ensures wait == WaitTimeout ==>
                errors.Contents == old(errors.Contents) && frames.Contents == old(frames.Contents)
      ensures wait != WaitObject0 && wait != WaitTimeout ==>
                frames.Contents == old(frames.Contents) &&
                errors.Contents == Pushed(old(errors.Contents),
                                          Some(if wait == WaitFailed then MSG_WAIT_FAILED else MSG_UNEXPECTED_WAIT))
      ensures wait == WaitObject0 && popped.None? ==>
                frames.Contents == old(frames.Contents) &&
                errors.Contents == Pushed(old(errors.Contents), Some(MSG_POP_FAILED))
      ensures wait == WaitObject0 && popped.Some? ==>
                match Process(popped.value, fft.numelIn, spectrum, indices)
                case Rejected(m) =>
                  frames.Contents == old(frames.Contents) &&
                  errors.Contents == PushAll(old(errors.Contents), [Some(m), Some(MSG_PROCESS)])
                case Extracted(e) =>
                  frames.Contents == Pushed(old(frames.Contents), Some(e)) &&
                  errors.Contents ==
                    if old(|frames.Contents|) < SIZE then old(errors.Contents)
                    else PushAll(old(errors.Contents), [Some(MSG_PUSH), Some(MSG_PROCESS)])
    {
      if wait == WaitObject0 {
        if popped.Some? {
          ghost var e0 := errors.Contents;
          var resProcess := ProcessBuffer(popped.value, spectrum);
          if !resProcess {
            PushError(MSG_PROCESS);
            match Process(popped.value, fft.numelIn, spectrum, indices)
            case Rejected(m) => PushAllTwo(e0, Some(m), Some(MSG_PROCESS));
            case Extracted(_) => PushAllTwo(e0, Some(MSG_PUSH), Some(MSG_PROCESS));
          }
        } else {
          PushError(MSG_POP_FAILED);
        }
      } else if wait == WaitFailed {
        PushError(MSG_WAIT_FAILED);
      } else if wait != WaitTimeout {
        PushError(MSG_UNEXPECTED_WAIT);
      }
    }

    method GetImage() returns (img: Option<Extract>)
      requires Valid()
      modifies frames, frames.slots
      ensures Valid() && errors.Contents == old(errors.Contents)
      ensures old(|frames.Contents|) > 0 ==>
                img == old(frames.Contents[0]) && img.Some? && frames.Contents == old(frames.Contents[1..])
      ensures old(|frames.Contents|) == 0 ==> img.None? && frames.Contents == []
    {
      img := frames.TryPop();
    }

    method GetNumberOfAvailableImages() returns (n: nat)
      requires Valid()
      ensures n == |frames.Contents|
    {
      n := frames.GetCount();
    }

    method GetNumberOfErrors() returns (n: nat)
      requires Valid()
      ensures n == |errors.Contents|
    {
      n := errors.GetCount();
    }

    method WaitImages(n: nat, timeoutMilliseconds: nat, resetOk: bool, blocked: WaitStatus)
      returns (r: WaitStatus)
      requires Valid()
      modifies frames
      ensures Valid()
      ensures frames.Contents == old(frames.Contents) && errors.Contents == old(errors.Contents)
      ensures |frames.Contents| >= n ==> r == WaitObject0
      ensures |frames.Contents| < n && timeoutMilliseconds == 0 ==> r == WaitTimeout
      ensures |frames.Contents| < n && timeoutMilliseconds > 0 ==>
                r == (if resetOk then blocked else WaitFailed) && frames.pushCondition == 0
    {
      r := frames.Wait(n, timeoutMilliseconds, resetOk, blocked);
    }

    method GetError() returns (err: Option<string>)
      requires Valid()
      modifies errors, errors.slots
      ensures Valid() && frames.Contents == old(frames.Contents)
      ensures old(|errors.Contents|) > 0 ==>
                err == old(errors.Contents[0]) && errors.Contents == old(errors.Contents[1..])
      ensures old(|errors.Contents|) == 0 ==> err.None? && errors.Contents == []
    {
      err := errors.TryPop();
    }

    /** The oldest recorded error, or the empty string when none is queued. */
    method GetQueuedError() returns (msg: string)
      requires Valid()
      modifies errors, errors.slots
      ensures Valid() && frames.Contents == old(frames.Contents)
      ensures old(|errors.Contents|) > 0 ==>
                msg == old(errors.Contents[0]).value && errors.Contents == old(errors.Contents[1..])
      ensures old(|errors.Contents|) == 0 ==> msg == "" && errors.Contents == []
    {
      var err := errors.TryPopInto(None);
      if err.Some? {
        msg := err.value;
      } else {
        msg := "";
      }
    }

    /** Empties the output queue and reports success. */
    method FlushImages() returns (ok: bool)
      requires Valid()
      modifies frames, frames.slots
      ensures Valid() && ok
      ensures frames.Contents == [] && errors.Contents == old(errors.Contents)
    {
      DrainedAllPresent(frames.Contents);
      frames.Clear();
      ok := true;
    }
  }
}
