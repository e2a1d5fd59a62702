/** Facts about sequences that the solver needs to be reminded of. */
module Seqs {

  /** No element occurs twice. */
  ghost predicate Distinct(s: seq<int>) {
    forall i, j :: 0 <= i < j < |s| ==> s[i] != s[j]
  }

  lemma PrefixSnoc<T>(s: seq<T>, k: nat)
    requires k < |s|
    ensures s[..k+1] == s[..k] + [s[k]]
  {
  }

  lemma SnocPrefix<T>(a: seq<T>, x: T)
    ensures (a + [x])[..|a|] == a
  {
  }

  lemma PrefixOfLeft<T>(a: seq<T>, b: seq<T>, k: nat)
    requires k <= |a|
    ensures (a + b)[..k] == a[..k]
  {
  }

  lemma PrefixOfRight<T>(a: seq<T>, b: seq<T>, k: nat)
    requires |a| <= k <= |a| + |b|
    ensures (a + b)[..k] == a + b[..k-|a|]
  {
  }

  lemma AppendFour<T>(t: seq<T>, a: seq<T>, b: seq<T>, c: seq<T>, d: seq<T>)
    ensures t + a + b + c + d == t + (a + b + c + d)
  {
  }
}
