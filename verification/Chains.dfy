/** Chains of predecessors, and how unbounded ones give cycles away. */
module Chains {
  import opened Digraph

  /** Some chain of k edges ends in x. */
  ghost predicate HasChain<T(!new)>(E: set<(T, T)>, x: T, k: nat) {
    k == 0 || exists p :: (p, x) in E && HasChain(E, p, k - 1)
  }

  /** Chains of every length end in x. */
  ghost predicate UnboundedChains<T(!new)>(E: set<(T, T)>, x: T) {
    forall k: nat :: HasChain(E, x, k)
  }

  /** The longest chain of predecessors of x has exactly k edges. */
  ghost predicate LongestChain<T(!new)>(E: set<(T, T)>, x: T, k: nat) {
    HasChain(E, x, k) && !HasChain(E, x, k + 1)
  }

  lemma {:induction false} ChainShorter<T(!new)>(E: set<(T, T)>, x: T, j: nat, k: nat)
    requires HasChain(E, x, k) && j <= k
    ensures HasChain(E, x, j)
    decreases k
  {
    if j == 0 || j == k {
    } else {
      var p :| (p, x) in E && HasChain(E, p, k - 1);
      ChainShorter(E, p, j - 1, k - 1);
    }
  }

  lemma {:induction false} ChainWalk<T(!new)>(E: set<(T, T)>, x: T, k: nat) returns (w: seq<T>)
    requires HasChain(E, x, k)
    ensures Walk(E, w) && |w| == k + 1 && w[k] == x
    decreases k
  {
    if k == 0 {
      w := [x];
    } else {
      var p :| (p, x) in E && HasChain(E, p, k - 1);
      var u := ChainWalk(E, p, k - 1);
      WalkConcat(E, u, [x]);
      w := u + [x];
    }
  }

  /** A walk that meets a node twice contains a simple cycle, which its end descends from. */
  lemma {:induction false} RepeatGivesCycle<T(!new)>(E: set<(T, T)>, w: seq<T>, i: nat, j: nat)
    requires Walk(E, w) && i < j < |w| && w[i] == w[j]
    ensures CyclicAncestry(E, w[|w| - 1])
    decreases j - i
  {
    var c := w[i..j];
    if Distinct(c) {
      assert (w[j - 1], w[j]) in E;
      assert Cycle(E, c);
      assert WalkFromTo(E, w[i..], c[0], w[|w| - 1]);
    } else {
      var a, b :| 0 <= a < b < |c| && c[a] == c[b];
      RepeatGivesCycle(E, w, i + a, i + b);
    }
  }

  /** In a graph on finitely many nodes, a chain as long as the number of nodes betrays a cycle. */
  lemma LongChainCyclic<T(!new)>(E: set<(T, T)>, nodes: set<T>, x: T)
    requires forall a, b :: (a, b) in E ==> a in nodes && b in nodes
    requires x in nodes && HasChain(E, x, |nodes|)
    ensures CyclicAncestry(E, x)
  {
    var w := ChainWalk(E, x, |nodes|);
    if Distinct(w) {
      forall i | 0 <= i < |w|
        ensures w[i] in nodes
      {
        if i + 1 < |w| {
          assert (w[i], w[i + 1]) in E;
        }
      }
      DistinctBound(w, nodes);
      assert false;
    } else {
      var i, j :| 0 <= i < j < |w| && w[i] == w[j];
      RepeatGivesCycle(E, w, i, j);
    }
  }

  /** A descendant of a cycle has a predecessor that is one too. */
  lemma CyclicPredecessor<T(!new)>(E: set<(T, T)>, x: T) returns (p: T)
    requires CyclicAncestry(E, x)
    ensures (p, x) in E && CyclicAncestry(E, p)
  {
    var c: seq<T> :| Cycle(E, c) && Reaches(E, c[0], x);
    var w: seq<T> :| WalkFromTo(E, w, c[0], x);
    if |w| == 1 {
      p := c[|c| - 1];
      assert WalkFromTo(E, c, c[0], p);
    } else {
      p := w[|w| - 2];
      assert (w[|w| - 2], w[|w| - 1]) in E;
      assert WalkFromTo(E, w[..|w| - 1], c[0], p);
    }
  }

  lemma {:induction false} CyclicHasChains<T(!new)>(E: set<(T, T)>, x: T, k: nat)
    requires CyclicAncestry(E, x)
    ensures HasChain(E, x, k)
    decreases k
  {
    if k > 0 {
      var p := CyclicPredecessor(E, x);
      CyclicHasChains(E, p, k - 1);
    }
  }

  ghost predicate PrecededIn<T(!new)>(E: set<(T, T)>, R: set<T>, y: T) {
    exists p :: p in R && (p, y) in E
  }

  /** In a set where everything has a predecessor within the set, chains never end. */
  lemma {:induction false} ClosedSetHasChains<T(!new)>(E: set<(T, T)>, R: set<T>, x: T, k: nat)
    requires forall y :: y in R ==> PrecededIn(E, R, y)
    requires x in R
    ensures HasChain(E, x, k)
    decreases k
  {
    if k > 0 {
      assert PrecededIn(E, R, x);
      var p :| p in R && (p, x) in E;
      ClosedSetHasChains(E, R, p, k - 1);
    }
  }

  /** A node descends from a cycle exactly when its chains of predecessors have no longest one. */
  lemma CyclicIffUnboundedChains<T(!new)>(E: set<(T, T)>, nodes: set<T>, x: T)
    requires forall a, b :: (a, b) in E ==> a in nodes && b in nodes
    requires x in nodes
    ensures CyclicAncestry(E, x) <==> UnboundedChains(E, x)
    ensures CyclicAncestry(E, x) <==> HasChain(E, x, |nodes|)
  {
    if CyclicAncestry(E, x) {
      forall k: nat
        ensures HasChain(E, x, k)
      {
        CyclicHasChains(E, x, k);
      }
    }
    if UnboundedChains(E, x) || HasChain(E, x, |nodes|) {
      var n: nat := |nodes|;
      assert HasChain(E, x, n);
      LongChainCyclic(E, nodes, x);
    }
  }

  lemma CycleIsCyclic<T(!new)>(E: set<(T, T)>, c: seq<T>, i: nat)
    requires Cycle(E, c) && i < |c|
    ensures CyclicAncestry(E, c[i])
  {
    assert WalkFromTo(E, c[..i + 1], c[0], c[i]);
  }
}
