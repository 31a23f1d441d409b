/** Datatypes shared by the models. */
module Common {
  /** A value that may be absent: a missing row, an undefined field, a null cursor. */
  datatype Option<+T> = None | Some(value: T)

  /** The outcome of an operation that may throw. */
  datatype Result<+T, +E> = Ok(value: T) | Err(error: E)

  lemma {:induction false} SubsetCardinality<T>(a: set<T>, b: set<T>)
    requires a <= b
    ensures |a| <= |b|
  {
    assert |b| == |b * a| + |b - a| && b * a == a;
  }
}
