/** Finite directed graphs, given by their set of edges, and the walks and cycles in them. */
module Digraph {

  /** Pairwise different items. */
  ghost predicate Distinct<T>(s: seq<T>) {
    forall i, j :: 0 <= i < j < |s| ==> s[i] != s[j]
  }

  /** A non-empty list of nodes, each joined to the next by an edge. */
  ghost predicate Walk<T>(E: set<(T, T)>, w: seq<T>) {
    && |w| > 0
    && forall i, j :: 0 <= i && j == i + 1 && j < |w| ==> (w[i], w[j]) in E
  }

  ghost predicate WalkFromTo<T>(E: set<(T, T)>, w: seq<T>, a: T, b: T) {
    Walk(E, w) && w[0] == a && w[|w| - 1] == b
  }

  ghost predicate Reaches<T(!new)>(E: set<(T, T)>, a: T, b: T) {
    exists w: seq<T> :: WalkFromTo(E, w, a, b)
  }

  /** A simple directed cycle; the edge from the last item to the first closes it. */
  ghost predicate Cycle<T>(E: set<(T, T)>, c: seq<T>) {
    Walk(E, c) && Distinct(c) && (c[|c| - 1], c[0]) in E
  }

  ghost predicate HasCycle<T(!new)>(E: set<(T, T)>) {
    exists c: seq<T> :: Cycle(E, c)
  }

  /** Some node on a cycle reaches x; x itself may be that node. */
  ghost predicate CyclicAncestry<T(!new)>(E: set<(T, T)>, x: T) {
    exists c: seq<T> :: Cycle(E, c) && Reaches(E, c[0], x)
  }

  /** The list c, started at index k and wrapped around. */
  function Rotate<T>(c: seq<T>, k: nat): (r: seq<T>)
    requires k <= |c|
    ensures |r| == |c|
  {
    c[k..] + c[..k]
  }

  ghost predicate Rotation<T>(a: seq<T>, b: seq<T>) {
    exists k: nat :: k < |a| && b == Rotate(a, k)
  }

  lemma RotateTwice<T>(a: seq<T>, j: nat, k: nat)
    requires j < |a| && k < |a|
    ensures Rotate(Rotate(a, j), k) == Rotate(a, if j + k < |a| then j + k else j + k - |a|)
  {
    var b, m := Rotate(a, j), if j + k < |a| then j + k else j + k - |a|;
    if j + k < |a| {
      assert b[k..] == a[j + k..] + a[..j];
      assert b[..k] == a[j..j + k];
      assert a[..j] + a[j..j + k] == a[..j + k];
    } else {
      assert b[k..] == a[m..j];
      assert b[..k] == a[j..] + a[..m];
      assert a[m..j] + a[j..] == a[m..];
    }
  }

  lemma RotationTransitive<T>(a: seq<T>, b: seq<T>, c: seq<T>)
    requires Rotation(a, b) && Rotation(b, c)
    ensures Rotation(a, c)
  {
    var j: nat :| j < |a| && b == Rotate(a, j);
    var k: nat :| k < |b| && c == Rotate(b, k);
    RotateTwice(a, j, k);
  }

  lemma RotationSymmetric<T>(a: seq<T>, b: seq<T>)
    requires Rotation(a, b)
    ensures Rotation(b, a)
  {
    var k: nat :| k < |a| && b == Rotate(a, k);
    var m := if k == 0 then 0 else |a| - k;
    assert a == Rotate(b, m);
  }

  lemma RotatedCycle<T>(E: set<(T, T)>, c: seq<T>, k: nat)
    requires Cycle(E, c) && k < |c|
    ensures Cycle(E, Rotate(c, k))
  {
    var r := Rotate(c, k);
    assert forall i :: 0 <= i < |r| ==> r[i] == c[if i + k < |c| then i + k else i + k - |c|];
  }

  lemma WalkPrefix<T>(E: set<(T, T)>, w: seq<T>, n: nat)
    requires Walk(E, w) && 0 < n <= |w|
    ensures Walk(E, w[..n])
  {
  }

  /** Joining walks at an edge. */
  lemma WalkConcat<T>(E: set<(T, T)>, u: seq<T>, w: seq<T>)
    requires Walk(E, u) && Walk(E, w) && (u[|u| - 1], w[0]) in E
    ensures Walk(E, u + w)
  {
  }

  lemma ReachesSelf<T(!new)>(E: set<(T, T)>, a: T)
    ensures Reaches(E, a, a)
  {
    assert WalkFromTo(E, [a], a, a);
  }

  lemma ReachesTransitive<T(!new)>(E: set<(T, T)>, a: T, b: T, c: T)
    requires Reaches(E, a, b) && Reaches(E, b, c)
    ensures Reaches(E, a, c)
  {
    var u: seq<T> :| WalkFromTo(E, u, a, b);
    var w: seq<T> :| WalkFromTo(E, w, b, c);
    if |w| == 1 {
    } else {
      var v := w[1..];
      WalkConcat(E, u, v);
      assert WalkFromTo(E, u + v, a, c);
    }
  }

  /** Every walk can be cut down to one without repeated nodes. */
  lemma {:induction false} SimpleWalk<T>(E: set<(T, T)>, w: seq<T>, a: T, b: T) returns (p: seq<T>)
    requires WalkFromTo(E, w, a, b)
    ensures WalkFromTo(E, p, a, b) && Distinct(p)
    decreases |w|
  {
    if Distinct(w) {
      p := w;
    } else {
      var i, j :| 0 <= i < j < |w| && w[i] == w[j];
      var v := w[..i] + w[j..];
      assert v[|v| - 1] == w[|w| - 1];
      p := SimpleWalk(E, v, a, b);
    }
  }

  /** A node that reaches a cycle starts a simple walk that runs into the cycle and once around it. */
  lemma Lasso<T(!new)>(E: set<(T, T)>, s: T, c: seq<T>) returns (p: seq<T>, m: nat, k: nat)
    requires Cycle(E, c) && Reaches(E, s, c[0])
    ensures Walk(E, p) && Distinct(p) && p[0] == s
    ensures m < |p| && k < |c| && p[m..] == Rotate(c, k)
    ensures (p[|p| - 1], p[m]) in E
  {
    var w: seq<T> :| WalkFromTo(E, w, s, c[0]);
    var u := SimpleWalk(E, w, s, c[0]);
    m := 0;
    while u[m] !in c
      invariant m < |u| && forall i :: 0 <= i < m ==> u[i] !in c
      decreases |u| - m
    {
      m := m + 1;
    }
    k :| 0 <= k < |c| && c[k] == u[m];
    WalkPrefix(E, u, m + 1);
    p := RunIntoCycle(E, u[..m + 1], c, k);
  }

  /** A simple walk that meets a cycle in its last node only goes on once around the cycle. */
  lemma RunIntoCycle<T(!new)>(E: set<(T, T)>, u: seq<T>, c: seq<T>, k: nat) returns (p: seq<T>)
    requires Walk(E, u) && Distinct(u) && Cycle(E, c) && k < |c| && u[|u| - 1] == c[k]
    requires forall i :: 0 <= i < |u| - 1 ==> u[i] !in c
    ensures Walk(E, p) && Distinct(p) && p[0] == u[0] && |p| >= |u|
    ensures p[|u| - 1..] == Rotate(c, k) && (p[|p| - 1], p[|u| - 1]) in E
  {
    var m, r := |u| - 1, Rotate(c, k);
    RotatedCycle(E, c, k);
    assert forall i :: 0 <= i < |r| ==> r[i] in c;
    p := u[..m] + r;
    DistinctConcat(u[..m], r);
    assert p[m..] == r;
    if m > 0 {
      assert (u[m - 1], u[m]) in E;
      WalkPrefix(E, u, m);
      WalkConcat(E, u[..m], r);
    } else {
      assert p == r;
    }
  }

  lemma DistinctConcat<T>(s: seq<T>, t: seq<T>)
    requires Distinct(s) && Distinct(t)
    requires forall j, k :: 0 <= j < |s| && 0 <= k < |t| ==> s[j] != t[k]
    ensures Distinct(s + t)
  {
  }

  /** A list of different items drawn from a finite set is no longer than the set. */
  lemma {:induction false} DistinctBound<T>(s: seq<T>, S: set<T>)
    requires Distinct(s) && forall i :: 0 <= i < |s| ==> s[i] in S
    ensures |s| <= |S|
    decreases |s|
  {
    if s == [] {
    } else {
      var last := s[|s| - 1];
      DistinctBound(s[..|s| - 1], S - {last});
    }
  }

  /** Different numbers below n are at most n many. */
  lemma {:induction false} DistinctBelow(p: seq<nat>, n: nat)
    requires Distinct(p) && forall k :: 0 <= k < |p| ==> p[k] < n
    ensures |p| <= n
    decreases n
  {
    if p == [] {
      return;
    }
    assert p[0] < n;
    if n - 1 in p {
      var k :| 0 <= k < |p| && p[k] == n - 1;
      DistinctBelow(p[..k] + p[k + 1..], n - 1);
    } else {
      DistinctBelow(p, n - 1);
    }
  }

  // Lists of lists

  /** The lists one after another. */
  function Flatten<T>(lists: seq<seq<T>>): seq<T> {
    if lists == [] then [] else Flatten(lists[..|lists| - 1]) + lists[|lists| - 1]
  }

  lemma {:induction false} FlattenMember<T>(lists: seq<seq<T>>, x: T)
    ensures x in Flatten(lists) <==> exists k :: 0 <= k < |lists| && x in lists[k]
  {
    if lists != [] {
      var n := |lists| - 1;
      FlattenMember(lists[..n], x);
      if k :| 0 <= k < |lists| && x in lists[k] {
        assert k < n ==> lists[..n][k] == lists[k];
      }
    }
  }

  /** An item of two lists. */
  ghost predicate Common<T>(lists: seq<seq<T>>, p: nat, q: nat, x: T)
    requires p < |lists| && q < |lists|
  {
    p < q && x in lists[p] && x in lists[q]
  }

  /** The flattened lists repeat nothing exactly when no list does and no two lists have an item in common. */
  lemma {:induction false} FlattenDistinct<T(!new)>(lists: seq<seq<T>>)
    ensures Distinct(Flatten(lists))
            <==> (forall p :: 0 <= p < |lists| ==> Distinct(lists[p]))
                 && (forall p: nat, q: nat, x :: p < |lists| && q < |lists| ==> !Common(lists, p, q, x))
  {
    if lists != [] {
      var n := |lists| - 1;
      var front, last := lists[..n], lists[n];
      FlattenDistinct(front);
      if Distinct(Flatten(lists)) {
        ConcatDistinct(Flatten(front), last);
        forall p: nat, q: nat, x | p < |lists| && q < |lists|
          ensures !Common(lists, p, q, x)
        {
          FlattenMember(front, x);
          if Common(lists, p, q, x) {
            assert front[p] == lists[p];
            assert q < n ==> Common(front, p, q, x);
          }
        }
      } else if (forall p :: 0 <= p < n ==> Distinct(front[p])) && Distinct(last) {
        if p: nat, q: nat, x :| p < n && q < n && Common(front, p, q, x) {
          assert Common(lists, p, q, x);
        } else {
          var x := RepeatedAcross(Flatten(front), last);
          FlattenMember(front, x);
          var p :| 0 <= p < n && x in front[p];
          assert Common(lists, p, n, x);
        }
      } else if p :| 0 <= p < n && !Distinct(front[p]) {
        assert lists[p] == front[p];
      }
    }
  }

  lemma ConcatDistinct<T>(a: seq<T>, b: seq<T>)
    requires Distinct(a + b)
    ensures Distinct(a) && Distinct(b) && forall x :: x in a ==> x !in b
  {
    var c := a + b;
    assert forall i :: 0 <= i < |a| ==> c[i] == a[i];
    assert forall i :: 0 <= i < |b| ==> c[|a| + i] == b[i];
  }

  lemma RepeatedAcross<T>(a: seq<T>, b: seq<T>) returns (x: T)
    requires Distinct(a) && Distinct(b) && !Distinct(a + b)
    ensures x in a && x in b
  {
    if forall j, k :: 0 <= j < |a| && 0 <= k < |b| ==> a[j] != b[k] {
      DistinctConcat(a, b);
    }
    var j, k :| 0 <= j < |a| && 0 <= k < |b| && a[j] == b[k];
    x := a[j];
  }
}
