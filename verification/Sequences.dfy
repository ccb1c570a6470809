/** Slices of slices. */
module Sequences {
  lemma SliceShift<T>(s: seq<T>, skip: nat, at: nat, n: nat)
    requires skip + at + n <= |s|
    ensures s[skip + at..skip + at + n] == s[skip..][at..at + n]
  {
  }

  lemma TakeTake<T>(s: seq<T>, n: nat, k: nat)
    requires k <= n <= |s|
    ensures s[..n][..k] == s[..k]
  {
  }

  lemma TakeDrop<T>(a: seq<T>, b: seq<T>)
    ensures (a + b)[..|a|] == a && (a + b)[|a|..] == b
  {
  }
}
