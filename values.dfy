/** Values shared by the dashboard model: an optional value and the
    floating-point numbers pandas hands back, which may be NaN. */
module Values {

  datatype Option<+T> = None | Some(value: T)

  /** A pandas/numpy float: a finite value or NaN (the only non-finite
      value the statistics can produce here, e.g. the sample variance of a
      single grade, or a percentage computed as 0/0). */
  datatype Num = Finite(v: real) | NaN

  /** Python's `a > b` on floats: false whenever either side is NaN. */
  predicate Gt(a: Num, b: Num)
  {
    a.Finite? && b.Finite? && a.v > b.v
  }

  /** Python's `a < b` on floats: false whenever either side is NaN. */
  predicate Lt(a: Num, b: Num)
  {
    a.Finite? && b.Finite? && a.v < b.v
  }

  /** `a > b` is `b < a`, for NaN as well. */
  lemma GtIsFlippedLt(a: Num, b: Num)
    ensures Gt(a, b) <==> Lt(b, a)
    ensures !(Gt(a, b) && Lt(a, b))
  {
  }
}
