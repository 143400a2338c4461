/** Small shared datatypes. */
module Common {

  /** A value that may be absent, as JavaScript's `undefined` result of `Array.prototype.find`. */
  datatype Option<T> = None | Some(value: T)

  /** True when no element of `s` occurs twice. */
  predicate NoDuplicates<T(==)>(s: seq<T>) {
    forall i, j :: 0 <= i < j < |s| ==> s[i] != s[j]
  }
}
