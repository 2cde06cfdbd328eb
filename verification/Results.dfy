/** Outcome types, and the smaller of two numbers, for the models of the repository's components. */
module Results {

  /** A value that may be absent (`undefined`, `None`, a missing map key). */
  datatype Option<+T> = None | Some(value: T)

  /** A text that is there and not empty. */
  predicate Texted(t: Option<string>) { t.Some? && |t.value| > 0 }

  /** A returned value or a raised error. */
  datatype Result<+T, +E> = Success(value: T) | Failure(error: E)

  function Min(a: int, b: int): int { if a < b then a else b }
}
