/**
 * The numeric types of the FFT wrappers: `Real` is `double` and `Complex` is
 * `std::complex<double>`. Both are modelled over Dafny's exact `real`.
 */
module FftwDef {

  datatype Complex = Complex(re: real, im: real)

  /** `std::conj`. */
  function Conj(z: Complex): (w: Complex)
    ensures w.re == z.re && w.im == -z.im
  {
    Complex(z.re, -z.im)
  }

  /** The complex number with real part `x` and no imaginary part. */
  function FromReal(x: real): (z: Complex)
    ensures z.re == x && z.im == 0.0 && Conj(z) == z
  {
    Complex(x, 0.0)
  }
}
