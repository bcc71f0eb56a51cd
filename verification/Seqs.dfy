/** Facts about sequences that are better quoted than found. */
module Seqs {

  lemma PrefixStep<A>(s: seq<A>, i: nat)
    requires i <= |s|
    ensures i < |s| ==> s[..i + 1] == s[..i] + [s[i]]
    ensures i == |s| ==> s[..i] == s
  {
  }

  lemma PrefixInits<A>(s: seq<A>, i: nat)
    requires i < |s|
    ensures s[..i + 1][..i] == s[..i] && s[..i + 1][i] == s[i]
    ensures s[..i + 1] == s[..i] + [s[i]]
  {
  }

  lemma PrefixConcat<A>(a: seq<A>, b: seq<A>)
    requires b != []
    ensures (a + b)[..|a + b| - 1] == a + b[..|b| - 1] && (a + b)[|a + b| - 1] == b[|b| - 1]
  {
  }

  lemma ConcatAssociative<A>(a: seq<A>, b: seq<A>, c: seq<A>)
    ensures a + (b + c) == a + b + c
  {
  }

  lemma SliceOfSlice<A>(s: seq<A>, i: nat, j: nat, p: nat, q: nat)
    requires p <= q && i + q <= j <= |s|
    ensures s[i..j][p..q] == s[i + p..i + q]
  {
    var t := s[i..j];
    assert forall k :: 0 <= k < q - p ==> t[p..q][k] == t[p + k] == s[i + p + k];
    assert |t[p..q]| == |s[i + p..i + q]|;
  }

  /** Moving the first of the items to come over to the items done. */
  lemma MoveOver<A>(done: seq<A>, item: A, coming: seq<A>, rest: seq<A>)
    requires coming == [item] + rest
    ensures done + [item] + rest == done + coming
  {
  }

  lemma UpdateLast<A>(s: seq<A>, a: A, b: A)
    ensures (s + [a])[|s| := b] == s + [b]
  {
  }
}
