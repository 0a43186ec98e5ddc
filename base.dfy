/** Small shared vocabulary: optional values and bytes. */
module Base {
  datatype Option<T> = None | Some(value: T)

  /** An 8-bit byte, as read from or written to a pipe. */
  type Byte = b: int | 0 <= b < 256

  /** `p` is a prefix of `s`. */
  predicate StartsWith(s: string, p: string)
  {
    |p| <= |s| && s[..|p|] == p
  }

  /** No element of `s` equals `c`. */
  predicate Without(s: string, c: char)
  {
    forall i :: 0 <= i < |s| ==> s[i] != c
  }

  /** Some element of a non-empty set, standing for Python's unspecified iteration order. */
  method Pick<K>(s: set<K>) returns (x: K)
    requires s != {}
    ensures x in s
  {
    x :| x in s;
  }
}
