/**
 * `FFTW_Wrapper_C2C`, restricted to its templated `SetDataIn`, which loads a
 * real-valued source into the complex input buffer.
 */
module FftwC2C {
  import opened FftwDef

  class C2C {
    var numelIn: nat
    /** `data_in`. */
    var dataIn: array<Complex>

    ghost predicate Valid()
      reads this
    {
      dataIn.Length == numelIn
    }

    /**
     * The wrapper as `Initialize` leaves it: the C++ constructor takes no size,
     * and `Initialize` sets `numel_in` and allocates `data_in` with that many
     * elements. Plans and the output buffer are not modelled.
     */
    constructor (numel: nat)
      ensures Valid() && numelIn == numel && fresh(dataIn)
    {
      numelIn := numel;
      dataIn := new Complex[numel](_ => Complex(0.0, 0.0));
    }

    /**
     * When `numel` is the input size, element i becomes `source[i]` with a zero
     * imaginary part; otherwise the call is rejected and nothing changes.
     */
    method SetDataIn(source: seq<int>, numel: nat) returns (ok: bool)
      requires Valid()
      requires numel == numelIn ==> numel <= |source|
      modifies dataIn
      ensures ok <==> numel == numelIn
      ensures !ok ==> dataIn[..] == old(dataIn[..])
      ensures ok ==> forall i :: 0 <= i < numel ==>
                       dataIn[i].re == source[i] as real && dataIn[i].im == 0.0
    {
      if numel != numelIn {
        return false;
      }
      var i := 0;
      while i < numel
        invariant 0 <= i <= numel
        invariant forall k :: 0 <= k < i ==> dataIn[k] == FromReal(source[k] as real)
      {
        dataIn[i] := FromReal(source[i] as real);
        i := i + 1;
      }
      ok := true;
    }
  }
}
