/** Types and predicates that several components share. */
module Common {
  datatype Option<T> = None | Some(value: T)

  type Byte = b: int | 0 <= b < 256

  /** No item is there twice. */
  predicate Distinct<T(==)>(s: seq<T>) { forall i, j :: 0 <= i < j < |s| ==> s[i] != s[j] }
}
