/**
 * `FFTW_Wrapper_R2C`: a real-to-complex 2-D transform of a height x width
 * image, with its real input buffer and its half-spectrum output buffer. The
 * FFTW library is not modelled: planning is reported by parameters and the
 * transform's result is supplied by the caller.
 */
module FftwR2C {
  import opened FftwDef

  /** Elements of the half spectrum of a real height x width input. */
  function SpectrumSize(width: nat, height: nat): nat {
    height * (width / 2 + 1)
  }

  /**
   * The half spectrum keeps one column more than half the input for an even
   * width, and one half column more for an odd width.
   */
  lemma SpectrumSizeVsInput(width: nat, height: nat)
    ensures 2 * SpectrumSize(width, height) ==
              height * width + (if width % 2 == 0 then 2 * height else height)
  {
    var q := width / 2;
    assert width == 2 * q + width % 2;
    calc {
      2 * SpectrumSize(width, height);
      2 * (height * (q + 1));
      height * (2 * q) + 2 * height;
      { assert height * width == height * (2 * q) + height * (width % 2); }
      height * width - height * (width % 2) + 2 * height;
    }
  }

  class R2C {
    var width: nat
    var height: nat
    var numelIn: nat
    var numelOut: nat
    /** `data_in` and `data_out`; `null` before `Initialize` and after `Shutdown`. */
    var dataIn: array?<real>
    var dataOut: array?<Complex>
    /** Whether `plan_forward` and `plan_backward` are non-null. */
    var planForward: bool
    var planBackward: bool

    ghost predicate Valid()
      reads this
    {
      numelIn == height * width && numelOut == SpectrumSize(width, height) &&
      (dataIn != null ==> dataIn.Length == numelIn) &&
      (dataOut != null ==> dataOut.Length == numelOut)
    }

    /** Buffers allocated: the state after `Initialize`. */
    ghost predicate Ready()
      reads this
    {
      Valid() && dataIn != null && dataOut != null
    }

    constructor ()
      ensures Valid() && dataIn == null && dataOut == null && !planForward && !planBackward
    {
      width, height, numelIn, numelOut := 0, 0, 0, 0;
      dataIn, dataOut := null, null;
      planForward, planBackward := false, false;
    }

    /**
     * Allocates both buffers for a `w` x `h` transform. Success requires both
     * plans (`forwardPlanned`, `backwardPlanned`) and the thread set-up.
     */
    method Initialize(w: nat, h: nat, forwardPlanned: bool, backwardPlanned: bool, threadsOk: bool)
      returns (ok: bool)
      modifies this
      ensures Ready() && fresh(dataIn) && fresh(dataOut)
      ensures width == w && height == h
      ensures numelIn == h * w && numelOut == h * (w / 2 + 1)
      ensures planForward == forwardPlanned && planBackward == backwardPlanned
      ensures ok <==> forwardPlanned && backwardPlanned && threadsOk
    {
      width, height := w, h;
      numelIn := h * w;
      numelOut := h * (w / 2 + 1);
      dataIn := new real[numelIn];
      dataOut := new Complex[numelOut](_ => Complex(0.0, 0.0));
      planForward, planBackward := forwardPlanned, backwardPlanned;
      ok := planForward && planBackward && threadsOk;
    }

    /** Destroys the plans and frees the buffers; a second call finds nothing left. */
    method Shutdown()
      requires Valid()
      modifies this
      ensures Valid()
      ensures dataIn == null && dataOut == null && !planForward && !planBackward
      ensures width == old(width) && height == old(height)
      ensures numelIn == old(numelIn) && numelOut == old(numelOut)
    {
      if planForward {
        planForward := false;
      }
      if planBackward {
        planBackward := false;
      }
      if dataIn != null {
        dataIn := null;
      }
      if dataOut != null {
        dataOut := null;
      }
    }

    function GetWidth(): (w: nat)
      reads this
      ensures w == width
    {
      width
    }

    function GetHeight(): (h: nat)
      reads this
      ensures h == height
    {
      height
    }

    /** Number of real input elements: one per pixel. */
    function GetSizeIn(): (n: nat)
      requires Valid()
      reads this
      ensures n == GetHeight() * GetWidth()
    {
      numelIn
    }

    /** Number of complex output elements, using integer division. */
    function GetSizeOut(): (n: nat)
      requires Valid()
      reads this
      ensures n == GetHeight() * (GetWidth() / 2 + 1)
    {
      numelOut
    }

    /**
     * Copies `numel` values of `source`, widened to `Real`, into `data_in`
     * when `numel` is the input size; otherwise rejects and changes nothing.
     */
    method SetDataIn(source: seq<int>, numel: nat) returns (ok: bool)
      requires Ready()
      requires numel == numelIn ==> numel <= |source|
      modifies dataIn
      ensures ok <==> numel == numelIn
      ensures !ok ==> dataIn[..] == old(dataIn[..])
      ensures ok ==> forall i :: 0 <= i < numel ==> dataIn[i] == source[i] as real
    {
      if numel != numelIn {
        return false;
      }
      forall i | 0 <= i < numel {
        dataIn[i] := source[i] as real;
      }
      ok := true;
    }

    /** Copies `data_in` into `target` when `numel` is the input size. */
    method GetDataIn(target: array<real>, numel: nat) returns (ok: bool)
      requires Ready()
      requires numel == numelIn ==> numel <= target.Length
      modifies target
      ensures ok <==> numel == numelIn
      ensures !ok ==> target[..] == old(target[..])
      ensures ok ==> target[..numel] == old(dataIn[..]) && target[numel..] == old(target[numel..])
    {
      if numel != numelIn {
        return false;
      }
      var data := dataIn[..];
      forall i | 0 <= i < numel {
        target[i] := data[i];
      }
      ok := true;
    }

    /** Copies `source` into `data_out` when `numel` is the output size. */
    method SetDataOut(source: seq<Complex>, numel: nat) returns (ok: bool)
      requires Ready()
      requires numel == numelOut ==> numel <= |source|
      modifies dataOut
      ensures ok <==> numel == numelOut
      ensures !ok ==> dataOut[..] == old(dataOut[..])
      ensures ok ==> dataOut[..] == source[..numel]
    {
      if numel != numelOut {
        return false;
      }
      forall i | 0 <= i < numel {
        dataOut[i] := source[i];
      }
      ok := true;
    }

    /** Copies `data_out` into `target` when `numel` is the output size. */
    method GetDataOut(target: array<Complex>, numel: nat) returns (ok: bool)
      requires Ready()
      requires numel == numelOut ==> numel <= target.Length
      modifies target
      ensures ok <==> numel == numelOut
      ensures !ok ==> target[..] == old(target[..])
      ensures ok ==> target[..numel] == old(dataOut[..]) && target[numel..] == old(target[numel..])
    {
      if numel != numelOut {
        return false;
      }
      var data := dataOut[..];
      forall i | 0 <= i < numel {
        target[i] := data[i];
      }
      ok := true;
    }

    /**
     * Executes the forward plan. The half spectrum FFTW computes is `spectrum`;
     * planning with FFTW_DESTROY_INPUT lets the transform overwrite `data_in`.
     */
    method TransformForward(spectrum: seq<Complex>)
      requires Ready() && |spectrum| == numelOut
      modifies dataIn, dataOut
      ensures dataOut[..] == spectrum
    {
      forall i | 0 <= i < numelOut {
        dataOut[i] := spectrum[i];
      }
    }
  }
}
