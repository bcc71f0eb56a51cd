/** The permutations function of bindings/python/rad_util.py. */
module Permutations {
  import opened Digraph

  /** x inserted in front of index i. */
  function Insert<T>(s: seq<T>, i: nat, x: T): (r: seq<T>)
    requires i <= |s|
    ensures |r| == |s| + 1
  {
    s[..i] + [x] + s[i..]
  }

  /** x inserted at the first n places of s. */
  function InsertAll<T>(s: seq<T>, x: T, n: nat): (r: seq<seq<T>>)
    requires n <= |s| + 1
    ensures |r| == n
    ensures forall i :: 0 <= i < n ==> r[i] == Insert(s, i, x)
  {
    if n == 0 then [] else InsertAll(s, x, n - 1) + [Insert(s, n - 1, x)]
  }

  /** x inserted everywhere in each of the first n sub-lists, all of length m. */
  function InsertIntoAll<T>(subs: seq<seq<T>>, x: T, m: nat, n: nat): seq<seq<T>>
    requires n <= |subs| && forall k :: 0 <= k < |subs| ==> |subs[k]| == m
  {
    if n == 0 then [] else InsertIntoAll(subs, x, m, n - 1) + InsertAll(subs[n - 1], x, m + 1)
  }

  function Perms<T>(l: seq<T>): (ps: seq<seq<T>>)
    ensures forall k :: 0 <= k < |ps| ==> |ps[k]| == |l|
  {
    if |l| > 1 then
      var subs := Perms(l[1..]);
      IntoAllLengths(subs, l[0], |l| - 1, |subs|);
      InsertIntoAll(subs, l[0], |l| - 1, |subs|)
    else [l]
  }

  lemma {:induction false} IntoAllLengths<T>(subs: seq<seq<T>>, x: T, m: nat, n: nat)
    requires n <= |subs| && forall k :: 0 <= k < |subs| ==> |subs[k]| == m
    ensures |InsertIntoAll(subs, x, m, n)| == n * (m + 1)
    ensures forall k :: 0 <= k < |InsertIntoAll(subs, x, m, n)| ==> |InsertIntoAll(subs, x, m, n)[k]| == m + 1
  {
    if n > 0 {
      IntoAllLengths(subs, x, m, n - 1);
      var before, last := InsertIntoAll(subs, x, m, n - 1), InsertAll(subs[n - 1], x, m + 1);
      assert (n - 1) * (m + 1) + (m + 1) == n * (m + 1);
      forall k | 0 <= k < |before + last|
        ensures |(before + last)[k]| == m + 1
      {
        assert k >= |before| ==> (before + last)[k] == last[k - |before|];
      }
    }
  }

  method Permutations<T>(inputList: seq<T>) returns (outLists: seq<seq<T>>)
    ensures outLists == Perms(inputList)
    decreases |inputList|
  {
    outLists := [];
    if |inputList| > 1 {
      var item := inputList[0];
      var subLists := Permutations(inputList[1..]);
      var m := |inputList| - 1;
      for k := 0 to |subLists|
        invariant outLists == InsertIntoAll(subLists, item, m, k)
      {
        ghost var before := outLists;
        for i := 0 to |inputList|
          invariant outLists == before + InsertAll(subLists[k], item, i)
        {
          AppendLater(before, InsertAll(subLists[k], item, i), Insert(subLists[k], i, item));
          outLists := outLists + [Insert(subLists[k], i, item)];
        }
      }
    } else {
      outLists := [inputList];
    }
  }

  lemma AppendLater<T>(a: seq<seq<T>>, b: seq<seq<T>>, p: seq<T>)
    ensures a + b + [p] == a + (b + [p])
  {
  }

  function Factorial(n: nat): nat {
    if n == 0 then 1 else n * Factorial(n - 1)
  }

  /** A list of length n has n! permutations. */
  lemma {:induction false} PermsCount<T>(l: seq<T>)
    ensures |Perms(l)| == Factorial(|l|)
    decreases |l|
  {
    if |l| > 1 {
      PermsCount(l[1..]);
      IntoAllLengths(Perms(l[1..]), l[0], |l| - 1, |Perms(l[1..])|);
    } else {
      assert Factorial(0) == 1 && Factorial(1) == 1;
    }
  }

  /** Where a member of the list of insertions comes from. */
  lemma {:induction false} InsertedFrom<T>(subs: seq<seq<T>>, x: T, m: nat, n: nat, p: seq<T>) returns (k: nat, i: nat)
    requires n <= |subs| && forall k :: 0 <= k < |subs| ==> |subs[k]| == m
    requires p in InsertIntoAll(subs, x, m, n)
    ensures k < n && i <= m && p == Insert(subs[k], i, x)
  {
    var last := InsertAll(subs[n - 1], x, m + 1);
    if p in last {
      i :| 0 <= i < |last| && last[i] == p;
      k := n - 1;
    } else {
      k, i := InsertedFrom(subs, x, m, n - 1, p);
    }
  }

  lemma {:induction false} InsertedInto<T>(subs: seq<seq<T>>, x: T, m: nat, n: nat, k: nat, i: nat)
    requires k < n <= |subs| && i <= m && forall k :: 0 <= k < |subs| ==> |subs[k]| == m
    ensures Insert(subs[k], i, x) in InsertIntoAll(subs, x, m, n)
  {
    var last := InsertAll(subs[n - 1], x, m + 1);
    if k == n - 1 {
      assert last[i] in last;
    } else {
      InsertedInto(subs, x, m, n - 1, k, i);
    }
  }

  lemma InsertMultiset<T>(s: seq<T>, i: nat, x: T)
    requires i <= |s|
    ensures multiset(Insert(s, i, x)) == multiset(s) + multiset{x}
  {
    assert s == s[..i] + s[i..];
  }

  /** Taking the first occurrence of x out and putting it back. */
  lemma TakeOut<T>(p: seq<T>, x: T) returns (i: nat, s: seq<T>)
    requires x in multiset(p)
    ensures i <= |s| && p == Insert(s, i, x) && multiset(s) == multiset(p) - multiset{x}
  {
    i :| 0 <= i < |p| && p[i] == x;
    s := p[..i] + p[i + 1..];
    assert s[..i] == p[..i] && s[i..] == p[i + 1..];
    assert p == p[..i] + [x] + p[i + 1..];
    InsertMultiset(s, i, x);
  }

  /** The permutations are exactly the rearrangements. */
  lemma {:induction false} PermsExact<T>(l: seq<T>, p: seq<T>)
    ensures p in Perms(l) <==> multiset(p) == multiset(l)
    decreases |l|, 1
  {
    if |l| > 1 {
      if p in Perms(l) {
        PermIsRearrangement(l, p);
      }
      if multiset(p) == multiset(l) {
        RearrangementIsPerm(l, p);
      }
    } else {
      ShortRearrangement(l, p);
    }
  }

  lemma {:induction false} PermIsRearrangement<T>(l: seq<T>, p: seq<T>)
    requires |l| > 1 && p in Perms(l)
    ensures multiset(p) == multiset(l)
    decreases |l|, 0
  {
    var subs, x, m := Perms(l[1..]), l[0], |l| - 1;
    assert l == [x] + l[1..];
    var k, i := InsertedFrom(subs, x, m, |subs|, p);
    PermsExact(l[1..], subs[k]);
    InsertMultiset(subs[k], i, x);
  }

  lemma {:induction false} RearrangementIsPerm<T>(l: seq<T>, p: seq<T>)
    requires |l| > 1 && multiset(p) == multiset(l)
    ensures p in Perms(l)
    decreases |l|, 0
  {
    var subs, x, m := Perms(l[1..]), l[0], |l| - 1;
    assert l == [x] + l[1..];
    assert x in multiset(p);
    var i, s := TakeOut(p, x);
    PermsExact(l[1..], s);
    var k :| 0 <= k < |subs| && subs[k] == s;
    InsertedInto(subs, x, m, |subs|, k, i);
  }

  lemma ShortRearrangement<T>(l: seq<T>, p: seq<T>)
    requires |l| <= 1
    ensures multiset(p) == multiset(l) <==> p == l
  {
    if multiset(p) == multiset(l) {
      assert |p| == |multiset(p)| == |l|;
      if |l| == 1 {
        assert p[0] in multiset(p);
      }
    }
  }

  lemma InsertInjective<T>(s: seq<T>, i: nat, t: seq<T>, j: nat, x: T)
    requires i <= |s| && j <= |t| && x !in s && x !in t && Insert(s, i, x) == Insert(t, j, x)
    ensures i == j && s == t
  {
    var r := Insert(s, i, x);
    assert r[i] == x && r[j] == x;
    assert s == r[..i] + r[i + 1..];
    assert t == r[..j] + r[j + 1..];
  }

  /** Nothing that lacks x is repeated by inserting x. */
  lemma {:induction false} IntoAllDistinct<T>(subs: seq<seq<T>>, x: T, m: nat, n: nat)
    requires n <= |subs| && forall k :: 0 <= k < |subs| ==> |subs[k]| == m && x !in subs[k]
    requires Distinct(subs)
    ensures Distinct(InsertIntoAll(subs, x, m, n))
  {
    if n > 0 {
      IntoAllDistinct(subs, x, m, n - 1);
      var before, last := InsertIntoAll(subs, x, m, n - 1), InsertAll(subs[n - 1], x, m + 1);
      forall a, b | 0 <= a < |before| && 0 <= b < |last|
        ensures before[a] != last[b]
      {
        if before[a] == last[b] {
          assert before[a] in before;
          var k, i := InsertedFrom(subs, x, m, n - 1, before[a]);
          InsertInjective(subs[k], i, subs[n - 1], b, x);
        }
      }
      forall a, b | 0 <= a < b < |last|
        ensures last[a] != last[b]
      {
        if last[a] == last[b] {
          InsertInjective(subs[n - 1], a, subs[n - 1], b, x);
        }
      }
    }
  }

  /** A list of different items has no permutation twice. */
  lemma {:induction false} PermsDistinct<T>(l: seq<T>)
    requires Distinct(l)
    ensures Distinct(Perms(l))
    decreases |l|
  {
    if |l| > 1 {
      var subs := Perms(l[1..]);
      PermsDistinct(l[1..]);
      forall k | 0 <= k < |subs|
        ensures l[0] !in subs[k]
      {
        PermsExact(l[1..], subs[k]);
        assert l[0] !in multiset(l[1..]);
      }
      IntoAllDistinct(subs, l[0], |l| - 1, |subs|);
    }
  }
}
