/** Byte strings as the C code sees them. */
module Bytes {

  type Byte = b: int | 0 <= b < 256

  /** A C string without its terminator: no byte of it is NUL. */
  type CString = s: seq<Byte> | NulFree(s)

  /** The bytes of a `data_t`; `data_create` makes none of size 0, and sizes are C `int`s. */
  type Data = d: seq<Byte> | 0 < |d| < 0x8000_0000 witness [0]

  datatype Option<+T> = None | Some(value: T)

  predicate NulFree(s: seq<Byte>) {
    forall i :: 0 <= i < |s| ==> s[i] != 0
  }

  ghost predicate NoRepeat<T>(s: seq<T>) {
    forall i, j :: 0 <= i < j < |s| ==> s[i] != s[j]
  }

  lemma Assoc<T>(a: seq<T>, b: seq<T>, c: seq<T>)
    ensures a + b + c == a + (b + c)
  {
  }

  lemma Cut<T>(b: seq<T>, i: nat, n: nat)
    requires i + n <= |b|
    ensures b == b[..i] + (b[i..i + n] + b[i + n..])
    ensures b[i..] == b[i..i + n] + b[i + n..]
  {
  }

  /** Moving `k` elements from what follows `at` to what precedes it. */
  lemma SplitMore<T>(s: seq<T>, at: nat, k: nat)
    requires at + k <= |s|
    ensures s[..at + k] == s[..at] + s[at..][..k]
    ensures s[at + k..] == s[at..][k..]
  {
  }
}
