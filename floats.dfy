/** Single-precision floating-point values, as far as the controller's
    comparisons see them: a real number, one of the two infinities, or NaN.
    Comparisons follow IEEE 754: every ordered comparison involving NaN is
    false, and the infinities lie below and above every number. Binary
    rounding and the finite range of a 32-bit float are not represented. */
module Floats {

  datatype Float = Num(v: real) | PosInf | NegInf | NaN

  /** `a < b` */
  predicate Lt(a: Float, b: Float) {
    match (a, b)
    case (NaN, _) => false
    case (_, NaN) => false
    case (Num(x), Num(y)) => x < y
    case (NegInf, _) => b != NegInf
    case (_, PosInf) => a != PosInf
    case _ => false
  }

  /** `a <= b` */
  predicate Le(a: Float, b: Float) {
    Lt(a, b) || (a == b && a != NaN)
  }

  /** `a >= b` */
  predicate Ge(a: Float, b: Float) {
    Le(b, a)
  }

  /** `a - b`, exact on numbers; the IEEE rules for infinities and NaN. */
  function Minus(a: Float, b: Float): Float {
    match (a, b)
    case (NaN, _) => NaN
    case (_, NaN) => NaN
    case (Num(x), Num(y)) => Num(x - y)
    case (PosInf, PosInf) => NaN
    case (NegInf, NegInf) => NaN
    case (PosInf, _) => PosInf
    case (NegInf, _) => NegInf
    case (_, PosInf) => NegInf
    case (_, NegInf) => PosInf
  }

  /** NaN is unordered: it is neither below, at, nor above any value. */
  lemma NaNUnordered(a: Float)
    ensures !Lt(NaN, a) && !Lt(a, NaN)
    ensures !Le(NaN, a) && !Le(a, NaN)
    ensures !Ge(NaN, a) && !Ge(a, NaN)
  {
  }

  /** On ordered values `<` is the negation of `>=`, so an `else` branch
      of `a < b` may assume `a >= b`. */
  lemma NotLtIsGe(a: Float, b: Float)
    requires a != NaN && b != NaN
    ensures !Lt(a, b) <==> Ge(a, b)
  {
  }

  /** Strict order: irreflexive and transitive. */
  lemma LtStrictOrder(a: Float, b: Float, c: Float)
    ensures !Lt(a, a)
    ensures Lt(a, b) && Lt(b, c) ==> Lt(a, c)
    ensures Lt(a, b) && Le(b, c) ==> Lt(a, c)
    ensures Le(a, b) && Le(b, c) ==> Le(a, c)
  {
  }

  /** Subtracting a positive number never moves an ordered value up. */
  lemma SubPositiveNotAbove(a: Float, d: real)
    requires a != NaN && d > 0.0
    ensures Le(Minus(a, Num(d)), a)
    ensures a.Num? ==> Lt(Minus(a, Num(d)), a)
  {
  }
}
