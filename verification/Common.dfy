/** Two notions that several parts of the system share. */
module Common {
  /** A value that may be missing. */
  datatype Option<T> = None | Some(value: T)

  predicate NoRepeats<T(==)>(s: seq<T>) {
    forall i, j | 0 <= i < j < |s| :: s[i] != s[j]
  }
}
