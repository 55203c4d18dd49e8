/** Double-precision payloads.

    A `double` is represented by its 64-bit IEEE 754 pattern. Only the two facts the
    evaluator itself relies on are interpreted here: the comparison `d == 0` (true of
    +0.0 and -0.0) and unary minus (which flips the sign bit). Everything that needs
    real floating-point numerics -- the conversion from `long`, the four arithmetic
    operators, `fmod`, `strtod` and `%g` formatting -- is an uninterpreted parameter
    gathered in `FloatOps`. */
module Floats {

  type Double = bv64

  const SignBit: Double := 0x8000_0000_0000_0000

  /** C's `d == 0` on a double: true exactly for positive and negative zero. */
  predicate IsZero(d: Double) {
    d & !SignBit == 0
  }

  /** C's unary `-d`: the same pattern with the sign bit flipped. */
  function Negate(d: Double): (r: Double)
    ensures r & !SignBit == d & !SignBit
    ensures r & SignBit != d & SignBit
  {
    d ^ SignBit
  }

  lemma NegateInvolutive(d: Double)
    ensures Negate(Negate(d)) == d
  {
  }

  lemma ZeroPatterns(d: Double)
    ensures IsZero(d) <==> d == 0 || d == SignBit
  {
  }

  /** The floating-point operations the evaluator uses but does not interpret. */
  datatype FloatOps = FloatOps(
    ofLong: int -> Double,                  // the cast `(double)n`
    add: (Double, Double) -> Double,        // `x + y`
    sub: (Double, Double) -> Double,        // `x - y`
    mul: (Double, Double) -> Double,        // `x * y`
    div: (Double, Double) -> Double,        // `x / y`
    fmod: (Double, Double) -> Double,       // `fmod(x, y)`
    strtod: string -> (Double, bool),       // `strtod(s, NULL)` and whether errno became ERANGE
    format: Double -> string                // `printf("%g", d)`
  )

  /** IEEE 754 conversion of an integer to a double gives a zero exactly for 0 (and
      never a negative zero). The evaluator's zero-divisor test after promotion relies
      on this; lemmas that need it take it as a precondition. */
  ghost predicate ExactZero(fp: FloatOps) {
    forall n: int :: IsZero(fp.ofLong(n)) <==> n == 0
  }
}
