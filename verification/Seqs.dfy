/**
 Rearrangements of sequences. They are stated apart from their uses because the prover
 finds them at once here, and slowly among unrelated facts.
 */
module Seqs {
  lemma Shorten<T>(s: seq<T>, t: seq<T>, n: nat, k: nat)
    requires k <= n <= |s| && n <= |t| && s[..n] == t[..n]
    ensures s[..k] == t[..k] && s[k..][..n - k] == t[k..][..n - k]
  {
    assert s[..k] == s[..n][..k] && t[..k] == t[..n][..k];
    assert s[k..][..n - k] == s[..n][k..] && t[k..][..n - k] == t[..n][k..];
  }

  lemma Assoc<T>(a: seq<T>, b: seq<T>, c: seq<T>)
    ensures (a + b) + c == a + (b + c)
  {
  }

  lemma Split<T>(a: seq<T>, b: seq<T>)
    ensures (a + b)[..|a|] == a && (a + b)[|a|..] == b
  {
  }

  lemma HeadTail<T>(s: seq<T>)
    requires s != []
    ensures s == [s[0]] + s[1..]
  {
  }

  // Adjacent slices join up.
  lemma Adjacent<T>(s: seq<T>, a: nat, b: nat, c: nat)
    requires a <= b <= c <= |s|
    ensures s[a..c] == s[a..b] + s[b..c]
  {
  }

  lemma Halves<T>(s: seq<T>, n: nat)
    requires n <= |s|
    ensures s[..n] + s[n..] == s
  {
  }
}
