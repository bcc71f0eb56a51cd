/** The values that the route search of scratch/network-topology.h works on, and what its steps keep. */
module ShortestPaths {
  import opened Digraph
  import opened Paths

  /** The "infinite" distance, the largest unsigned value. */
  const INF: nat := 0xFFFF_FFFF

  /** A walk from s to t that no walk from s to t undercuts. */
  ghost predicate ShortestRoute(E: set<(nat, nat)>, s: nat, t: nat, p: seq<nat>) {
    && WalkFromTo(E, p, s, t)
    && forall w: seq<nat> :: WalkFromTo(E, w, s, t) ==> |p| <= |w|
  }

  ghost predicate InRange(E: set<(nat, nat)>, n: nat) {
    forall a, b :: (a, b) in E ==> a < n && b < n
  }

  ghost predicate Symmetric(E: set<(nat, nat)>) {
    forall a, b :: (a, b) in E ==> (b, a) in E
  }

  /** The three vectors of the search. */
  datatype Search = Search(dist: seq<nat>, prev: seq<nat>, pego: seq<bool>)

  ghost predicate Shape(D: Search, n: nat) {
    |D.dist| == |D.prev| == |D.pego| == n
  }

  /** How many flags are set. */
  ghost function Count(flags: seq<bool>): (c: nat)
    ensures c <= |flags|
  {
    if flags == [] then 0 else Count(flags[1..]) + if flags[0] then 1 else 0
  }

  /** v starts a tree of predecessors: the target, and node 0 once the search has fallen back to it. */
  ghost predicate Root(t: nat, lost: bool, v: nat) {
    v == t || (lost && v == 0)
  }

  /** Node v hangs below an already settled node, one edge further out. */
  ghost predicate HangsWell(E: set<(nat, nat)>, D: Search, lost: bool, v: nat)
    requires v < |D.dist| && Shape(D, |D.dist|)
  {
    var u := D.prev[v];
    && u < |D.dist| && D.pego[u] && (u, v) in E
    && (if lost && u == 0 then D.dist[v] == 0 else D.dist[u] < INF && D.dist[v] == D.dist[u] + 1)
  }

  /** The predecessors form trees below the roots. */
  ghost predicate Forest(E: set<(nat, nat)>, D: Search, t: nat, lost: bool) {
    && Shape(D, |D.dist|) && t < |D.dist|
    && D.pego[t] && D.dist[t] == 0 && D.prev[t] == t
    && (lost ==> t != 0 && D.pego[0] && D.dist[0] == INF && D.prev[0] == INF)
    && (forall v :: 0 <= v < |D.dist| ==> D.dist[v] <= INF && (D.dist[v] == INF ==> D.prev[v] == INF))
    && (forall v :: 0 <= v < |D.dist| && !Root(t, lost, v) && D.pego[v] ==> D.dist[v] < INF)
    && (forall v :: 0 <= v < |D.dist| && !Root(t, lost, v) && D.dist[v] < INF ==> HangsWell(E, D, lost, v))
  }

  /** Distances stay below the number of settled nodes, so they never overflow. */
  ghost predicate Bounded(D: Search)
    requires Shape(D, |D.dist|)
  {
    forall v :: 0 <= v < |D.dist| && D.dist[v] < INF ==>
      D.dist[v] <= Count(D.pego) && (D.pego[v] ==> D.dist[v] < Count(D.pego))
  }

  /** Node y has told all its neighbours. */
  ghost predicate Relaxed(E: set<(nat, nat)>, D: Search, y: nat)
    requires Shape(D, |D.dist|) && InRange(E, |D.dist|)
  {
    forall x :: (y, x) in E ==> D.pego[x] || D.dist[x] < INF
  }

  /** Every settled node except perhaps k has told its neighbours. */
  ghost predicate AllRelaxedBut(E: set<(nat, nat)>, D: Search, k: nat)
    requires Shape(D, |D.dist|) && InRange(E, |D.dist|)
  {
    forall y :: 0 <= y < |D.pego| && D.pego[y] && y != k ==> Relaxed(E, D, y)
  }

  ghost predicate AllRelaxed(E: set<(nat, nat)>, D: Search)
    requires Shape(D, |D.dist|) && InRange(E, |D.dist|)
  {
    forall y :: 0 <= y < |D.pego| && D.pego[y] ==> Relaxed(E, D, y)
  }

  /** No edge out of y would shorten a distance. */
  ghost predicate Tight(E: set<(nat, nat)>, D: Search, y: nat)
    requires Shape(D, |D.dist|) && InRange(E, |D.dist|) && y < |D.dist|
  {
    forall x :: (y, x) in E ==> D.dist[x] <= D.dist[y] + 1
  }

  /** While the search has not fallen back, k is the latest settled node, the farthest settled one, and all others are
      tight. */
  ghost predicate Frontier(E: set<(nat, nat)>, D: Search, k: nat)
    requires Shape(D, |D.dist|) && InRange(E, |D.dist|) && k < |D.dist|
  {
    && (forall y :: 0 <= y < |D.pego| && D.pego[y] ==> D.dist[y] <= D.dist[k])
    && (forall x :: 0 <= x < |D.pego| && !D.pego[x] ==> D.dist[k] <= D.dist[x])
    && (forall y :: 0 <= y < |D.pego| && D.pego[y] && y != k ==> Tight(E, D, y))
  }

  /** What the relaxing loop makes of the vectors. */
  ghost predicate RelaxesTo(E: set<(nat, nat)>, D: Search, k: nat, D': Search)
    requires Shape(D, |D.dist|) && k < |D.dist|
  {
    var d := (D.dist[k] + 1) % UNSIGNED;
    && Shape(D', |D.dist|) && D'.pego == D.pego
    && forall v :: 0 <= v < |D.dist| ==>
         if (k, v) in E && !D.pego[v] && d < D.dist[v]
         then D'.dist[v] == d && D'.prev[v] == k
         else D'.dist[v] == D.dist[v] && D'.prev[v] == D.prev[v]
  }

  function SettleNode(D: Search, k: nat): Search
    requires k < |D.pego|
  {
    D.(pego := D.pego[k := true])
  }

  lemma {:induction false} CountSet(flags: seq<bool>, k: nat)
    requires k < |flags|
    ensures Count(flags[k := true]) == Count(flags) + if flags[k] then 0 else 1
    decreases |flags|
  {
    if k == 0 {
      assert flags[0 := true][1..] == flags[1..];
    } else {
      CountSet(flags[1..], k - 1);
      assert flags[k := true][1..] == flags[1..][k - 1 := true];
    }
  }

  // What relaxing keeps.

  /** The distance offered to the neighbours of k does not wrap around, except at the node the search fell back to. */
  lemma OfferedDistance(E: set<(nat, nat)>, D: Search, t: nat, lost: bool, k: nat)
    requires Forest(E, D, t, lost) && Bounded(D) && k < |D.dist| < INF && D.pego[k]
    ensures (D.dist[k] + 1) % UNSIGNED == (if lost && k == 0 then 0 else D.dist[k] + 1)
    ensures !(lost && k == 0) ==> D.dist[k] + 1 <= Count(D.pego) <= |D.dist|
  {
  }

  lemma RelaxKeepsForest(E: set<(nat, nat)>, D: Search, t: nat, lost: bool, k: nat, D': Search)
    requires Forest(E, D, t, lost) && Bounded(D) && k < |D.dist| < INF && D.pego[k]
    requires RelaxesTo(E, D, k, D')
    ensures Forest(E, D', t, lost) && Bounded(D')
  {
    OfferedDistance(E, D, t, lost, k);
    forall v | 0 <= v < |D.dist| && !Root(t, lost, v) && D'.dist[v] < INF
      ensures HangsWell(E, D', lost, v)
    {
      var u := D'.prev[v];
      if D'.dist[v] == D.dist[v] && D'.prev[v] == D.prev[v] {
        assert HangsWell(E, D, lost, v);
      }
      assert D.pego[u] && D'.dist[u] == D.dist[u];
    }
  }

  lemma RelaxKeepsRange(E: set<(nat, nat)>, D: Search, t: nat, lost: bool, k: nat, D': Search)
    requires Forest(E, D, t, lost) && Bounded(D) && k < |D.dist| < INF && D.pego[k]
    requires RelaxesTo(E, D, k, D')
    ensures forall v :: 0 <= v < |D'.dist| ==> D'.dist[v] <= INF
  {
    RelaxKeepsForest(E, D, t, lost, k, D');
  }

  lemma RelaxKeepsRelaxed(E: set<(nat, nat)>, D: Search, t: nat, lost: bool, k: nat, D': Search)
    requires Forest(E, D, t, lost) && Bounded(D) && k < |D.dist| < INF && D.pego[k] && InRange(E, |D.dist|)
    requires AllRelaxedBut(E, D, k) && RelaxesTo(E, D, k, D')
    ensures AllRelaxed(E, D')
  {
    OfferedDistance(E, D, t, lost, k);
    forall y | 0 <= y < |D.pego| && D.pego[y]
      ensures Relaxed(E, D', y)
    {
      forall x | (y, x) in E
        ensures D'.pego[x] || D'.dist[x] < INF
      {
        if y != k {
          assert Relaxed(E, D, y);
        }
      }
    }
  }

  lemma RelaxKeepsFrontier(E: set<(nat, nat)>, D: Search, t: nat, k: nat, D': Search)
    requires Forest(E, D, t, false) && Bounded(D) && k < |D.dist| < INF && D.pego[k] && InRange(E, |D.dist|)
    requires Frontier(E, D, k) && RelaxesTo(E, D, k, D')
    ensures Frontier(E, D', k) && Tight(E, D', k)
  {
    OfferedDistance(E, D, t, false, k);
    RelaxMakesTight(E, D, t, k, D');
    forall y | 0 <= y < |D.pego| && D.pego[y] && y != k
      ensures Tight(E, D', y)
    {
      assert Tight(E, D, y);
    }
  }

  lemma RelaxMakesTight(E: set<(nat, nat)>, D: Search, t: nat, k: nat, D': Search)
    requires Forest(E, D, t, false) && Bounded(D) && k < |D.dist| < INF && D.pego[k] && InRange(E, |D.dist|)
    requires Frontier(E, D, k) && RelaxesTo(E, D, k, D')
    ensures Tight(E, D', k)
  {
    OfferedDistance(E, D, t, false, k);
  }

  // What settling keeps.

  lemma SettleKeepsForest(E: set<(nat, nat)>, D: Search, t: nat, lost: bool, k: nat)
    requires Forest(E, D, t, lost) && Bounded(D) && k < |D.dist| && !D.pego[k] && D.dist[k] < INF
    ensures Forest(E, SettleNode(D, k), t, lost) && Bounded(SettleNode(D, k))
  {
    var D' := SettleNode(D, k);
    SettleKeepsBounded(D, k);
    forall v | 0 <= v < |D.dist| && !Root(t, lost, v) && D'.dist[v] < INF
      ensures HangsWell(E, D', lost, v)
    {
      assert HangsWell(E, D, lost, v);
    }
  }

  lemma SettleKeepsBounded(D: Search, k: nat)
    requires Shape(D, |D.dist|) && Bounded(D) && k < |D.dist| && !D.pego[k]
    ensures Bounded(SettleNode(D, k))
  {
    CountSet(D.pego, k);
  }

  lemma SettleKeepsRelaxed(E: set<(nat, nat)>, D: Search, k: nat)
    requires Shape(D, |D.dist|) && InRange(E, |D.dist|) && k < |D.dist| && AllRelaxed(E, D)
    ensures AllRelaxedBut(E, SettleNode(D, k), k)
  {
    forall y | 0 <= y < |D.pego| && D.pego[y] && y != k
      ensures Relaxed(E, SettleNode(D, k), y)
    {
      assert Relaxed(E, D, y);
    }
  }

  lemma SettleKeepsFrontier(E: set<(nat, nat)>, D: Search, k: nat, next: nat)
    requires Shape(D, |D.dist|) && InRange(E, |D.dist|) && k < |D.dist| && next < |D.dist|
    requires Frontier(E, D, k) && Tight(E, D, k) && D.pego[k] && !D.pego[next]
    requires forall x :: 0 <= x < |D.pego| && !D.pego[x] ==> D.dist[next] <= D.dist[x]
    ensures Frontier(E, SettleNode(D, next), next)
  {
    forall y | 0 <= y < |D.pego| && D.pego[y]
      ensures Tight(E, SettleNode(D, next), y)
    {
      assert y != k ==> Tight(E, D, y);
    }
  }

  // What the search knows when it stops.

  /** Nothing unsettled has a finite distance. */
  ghost predicate Stuck(D: Search)
    requires Shape(D, |D.dist|)
  {
    forall x :: 0 <= x < |D.dist| && !D.pego[x] ==> D.dist[x] >= INF
  }

  /** When the search is stuck, the settled nodes are closed under edges. */
  lemma {:induction false} StuckIsClosed(E: set<(nat, nat)>, D: Search, w: seq<nat>)
    requires Shape(D, |D.dist|) && InRange(E, |D.dist|) && AllRelaxed(E, D) && Stuck(D)
    requires Walk(E, w) && w[0] < |D.dist| && D.pego[w[0]]
    ensures w[|w| - 1] < |D.dist| && D.pego[w[|w| - 1]]
    decreases |w|
  {
    if |w| == 1 {
    } else {
      var n := |w| - 1;
      WalkPrefix(E, w, n);
      StuckIsClosed(E, D, w[..n]);
      assert (w[n - 1], w[n]) in E;
      assert Relaxed(E, D, w[n - 1]);
    }
  }

  lemma StuckCannotReach(E: set<(nat, nat)>, D: Search, a: nat, b: nat)
    requires Shape(D, |D.dist|) && InRange(E, |D.dist|) && AllRelaxed(E, D) && Stuck(D)
    requires a < |D.dist| && b < |D.dist| && D.pego[a] && !D.pego[b]
    ensures !Reaches(E, a, b)
  {
    if Reaches(E, a, b) {
      var w: seq<nat> :| WalkFromTo(E, w, a, b);
      StuckIsClosed(E, D, w);
    }
  }

  /** No walk into t is shorter than the distance of the node it starts from, or of the latest settled node. */
  lemma {:induction false} LowerBound(E: set<(nat, nat)>, D: Search, t: nat, k: nat, w: seq<nat>)
    requires Forest(E, D, t, false) && InRange(E, |D.dist|) && Symmetric(E) && k < |D.dist| && D.pego[k]
    requires Frontier(E, D, k)
    requires Walk(E, w) && w[|w| - 1] == t && w[0] < |D.dist|
    ensures D.dist[k] <= |w| - 1 || D.dist[w[0]] <= |w| - 1
    decreases |w|
  {
    if |w| == 1 {
    } else {
      var v := w[1..];
      assert (w[0], w[1]) in E;
      LowerBound(E, D, t, k, v);
      if D.dist[k] > |w| - 1 {
        assert D.dist[w[1]] <= |w| - 2;
        assert D.pego[w[1]] && Tight(E, D, w[1]);
      }
    }
  }

  // The chain of predecessors from a node up to a root.

  /** chain follows prev from its first node, and none but its last node is its own predecessor. */
  ghost predicate FollowsPrev(prev: seq<nat>, chain: seq<nat>) {
    && |chain| > 0
    && (forall i :: 0 <= i < |chain| ==> chain[i] < |prev|)
    && (forall i, j :: 0 <= i && j == i + 1 && j < |chain| ==> chain[j] == prev[chain[i]] && chain[j] != chain[i])
  }

  /** Every node with a distance hangs on a chain to a root; before any fallback its length is the distance. */
  lemma {:induction false} RootChain(E: set<(nat, nat)>, D: Search, t: nat, lost: bool, v: nat)
      returns (chain: seq<nat>)
    requires Forest(E, D, t, lost) && Symmetric(E) && v < |D.dist|
    requires Root(t, lost, v) || D.dist[v] < INF
    ensures FollowsPrev(D.prev, chain) && chain[0] == v && Root(t, lost, chain[|chain| - 1])
    ensures Walk(E, chain)
    ensures !lost ==> |chain| == D.dist[v] + 1
    ensures |chain| <= if Root(t, lost, v) then 1 else D.dist[v] + 2
    decreases if Root(t, lost, v) then 0 else D.dist[v] + 1
  {
    if Root(t, lost, v) {
      chain := [v];
    } else {
      assert HangsWell(E, D, lost, v);
      var u := D.prev[v];
      var rest := RootChain(E, D, t, lost, u);
      WalkConcat(E, [v], rest);
      chain := [v] + rest;
    }
  }

  lemma {:induction false} WalkReversed(E: set<(nat, nat)>, w: seq<nat>) returns (r: seq<nat>)
    requires Walk(E, w) && Symmetric(E)
    ensures WalkFromTo(E, r, w[|w| - 1], w[0]) && |r| == |w|
    decreases |w|
  {
    if |w| == 1 {
      r := w;
    } else {
      assert (w[0], w[1]) in E;
      var rest := WalkReversed(E, w[1..]);
      WalkConcat(E, rest, [w[0]]);
      r := rest + [w[0]];
    }
  }

  lemma ReachesSymmetric(E: set<(nat, nat)>, a: nat, b: nat)
    requires Symmetric(E)
    ensures Reaches(E, a, b) <==> Reaches(E, b, a)
  {
    if Reaches(E, a, b) {
      var w: seq<nat> :| WalkFromTo(E, w, a, b);
      var r := WalkReversed(E, w);
    }
    if Reaches(E, b, a) {
      var w: seq<nat> :| WalkFromTo(E, w, b, a);
      var r := WalkReversed(E, w);
    }
  }

  /** The chain of the latest settled node, before any fallback, is a shortest route to the target. */
  lemma FrontierChainShortest(E: set<(nat, nat)>, D: Search, t: nat, s: nat, chain: seq<nat>)
    requires Forest(E, D, t, false) && InRange(E, |D.dist|) && Symmetric(E) && s < |D.dist| && D.pego[s]
    requires Frontier(E, D, s)
    requires Walk(E, chain) && chain[0] == s && chain[|chain| - 1] == t && |chain| == D.dist[s] + 1
    ensures ShortestRoute(E, s, t, chain) && Reaches(E, s, t)
  {
    assert WalkFromTo(E, chain, s, t);
    forall w: seq<nat> | WalkFromTo(E, w, s, t)
      ensures |chain| <= |w|
    {
      LowerBound(E, D, t, s, w);
    }
  }

  /** Shortest routes visit no node twice. */
  lemma ShortestIsSimple(E: set<(nat, nat)>, s: nat, t: nat, p: seq<nat>)
    requires ShortestRoute(E, s, t, p)
    ensures Distinct(p)
  {
    forall i, j | 0 <= i < j < |p|
      ensures p[i] != p[j]
    {
      if p[i] == p[j] {
        var v := p[..i] + p[j..];
        assert v[|v| - 1] == p[|p| - 1];
        assert WalkFromTo(E, v, s, t);
      }
    }
  }

  /** Every rest of a shortest route is a shortest route. */
  lemma ShortestSuffix(E: set<(nat, nat)>, s: nat, t: nat, p: seq<nat>, k: nat)
    requires ShortestRoute(E, s, t, p) && k < |p|
    ensures ShortestRoute(E, p[k], t, p[k..])
  {
    assert WalkFromTo(E, p[k..], p[k], t);
    forall w: seq<nat> | WalkFromTo(E, w, p[k], t)
      ensures |p| - k <= |w|
    {
      if k > 0 {
        assert (p[k - 1], p[k]) in E;
        WalkConcat(E, p[..k], w);
        assert WalkFromTo(E, p[..k] + w, s, t);
      }
    }
  }

  /** Shortest routes between the same nodes are equally long. */
  lemma ShortestLength(E: set<(nat, nat)>, s: nat, t: nat, p: seq<nat>, q: seq<nat>)
    requires ShortestRoute(E, s, t, p) && ShortestRoute(E, s, t, q)
    ensures |p| == |q|
  {
  }

  // The invariant of the search loop.

  /** State at the head of the loop, while s is not settled. "lost" says that the search has fallen back to node 0
      outside the component of t; "stuck" says that nothing unsettled is left to be found. */
  ghost predicate Searching(E: set<(nat, nat)>, D: Search, s: nat, t: nat, k: nat, lost: bool, stuck: bool,
                            rounds: nat) {
    && Forest(E, D, t, lost) && Bounded(D) && InRange(E, |D.dist|)
    && k < |D.dist| && D.pego[k] && s < |D.dist| && !D.pego[s]
    && (if stuck then AllRelaxed(E, D) && Stuck(D) && D.pego[0]
        else AllRelaxedBut(E, D, k) && Count(D.pego) == rounds + 1)
    && (!lost && !stuck ==> Frontier(E, D, k))
    && (lost ==> !Reaches(E, t, 0) && !Reaches(E, t, s))
  }

  /** State when the loop is left because k is s. */
  ghost predicate Arrived(E: set<(nat, nat)>, D: Search, s: nat, t: nat, lost: bool) {
    && Forest(E, D, t, lost) && Bounded(D) && InRange(E, |D.dist|)
    && s < |D.dist| && D.pego[s]
    && (!lost ==> Frontier(E, D, s))
    && (lost ==> !Reaches(E, t, 0) && !Reaches(E, t, s))
  }

  lemma StuckStays(E: set<(nat, nat)>, D: Search, k: nat, D': Search)
    requires Shape(D, |D.dist|) && InRange(E, |D.dist|) && AllRelaxed(E, D) && Stuck(D)
    requires k < |D.dist| && D.pego[k] && RelaxesTo(E, D, k, D')
    ensures D' == D
  {
    assert Relaxed(E, D, k);
    assert D'.dist == D.dist && D'.prev == D.prev;
  }

  /** The nearest unsettled node, or node 0 when nothing unsettled has a finite distance. */
  ghost predicate Nearest(D: Search, k: nat, min: nat) {
    && Shape(D, |D.dist|)
    && (forall i :: 0 <= i < |D.dist| && !D.pego[i] ==> min <= D.dist[i])
    && (if min < INF then k < |D.dist| && !D.pego[k] && D.dist[k] == min else k == 0 && min == INF)
  }

  /** A round that finds a nearest node settles it. */
  lemma RoundFinds(E: set<(nat, nat)>, D: Search, s: nat, t: nat, k: nat, lost: bool, stuck: bool, rounds: nat,
                   D1: Search, next: nat, min: nat)
    requires Searching(E, D, s, t, k, lost, stuck, rounds) && |D.dist| < INF
    requires RelaxesTo(E, D, k, D1) && Nearest(D1, next, min) && min < INF
    ensures !stuck && rounds + 2 <= |D.dist|
    ensures next == s ==> Arrived(E, SettleNode(D1, next), s, t, lost)
    ensures next != s ==> Searching(E, SettleNode(D1, next), s, t, next, lost, false, rounds + 1)
  {
    if stuck {
      StuckStays(E, D, k, D1);
      assert false;
    }
    RelaxKeepsForest(E, D, t, lost, k, D1);
    RelaxKeepsRelaxed(E, D, t, lost, k, D1);
    SettleKeepsForest(E, D1, t, lost, next);
    SettleKeepsRelaxed(E, D1, next);
    CountSet(D1.pego, next);
    if !lost {
      RelaxKeepsFrontier(E, D, t, k, D1);
      SettleKeepsFrontier(E, D1, k, next);
    }
  }

  /** A round that finds nothing while node 0 is settled leaves the search stuck for good. */
  lemma RoundStuck(E: set<(nat, nat)>, D: Search, s: nat, t: nat, k: nat, lost: bool, stuck: bool, rounds: nat,
                   D1: Search, min: nat)
    requires Searching(E, D, s, t, k, lost, stuck, rounds) && |D.dist| < INF
    requires RelaxesTo(E, D, k, D1) && Nearest(D1, 0, min) && min == INF && D1.pego[0]
    ensures Searching(E, SettleNode(D1, 0), s, t, 0, lost, true, rounds + 1)
    ensures !Reaches(E, t, s) && !Reaches(E, 0, s)
  {
    RelaxKeepsForest(E, D, t, lost, k, D1);
    if stuck {
      StuckStays(E, D, k, D1);
    } else {
      RelaxKeepsRelaxed(E, D, t, lost, k, D1);
    }
    StuckCannotReach(E, D1, t, s);
    StuckCannotReach(E, D1, 0, s);
    assert SettleNode(D1, 0) == D1;
  }

  /** Settling node 0 when nothing unsettled has a distance makes it a second root. */
  lemma FallbackKeepsForest(E: set<(nat, nat)>, D: Search, t: nat)
    requires Forest(E, D, t, false) && Bounded(D) && 0 < |D.dist| && !D.pego[0] && Stuck(D)
    ensures Forest(E, SettleNode(D, 0), t, true) && Bounded(SettleNode(D, 0))
  {
    var D' := SettleNode(D, 0);
    SettleKeepsBounded(D, 0);
    forall v | 0 <= v < |D'.dist| && !Root(t, true, v) && D'.dist[v] < INF
      ensures HangsWell(E, D', true, v)
    {
      assert HangsWell(E, D, false, v);
    }
  }

  /** A round that finds nothing and falls back to a node 0 that is still unsettled. */
  lemma RoundFallsBack(E: set<(nat, nat)>, D: Search, s: nat, t: nat, k: nat, lost: bool, stuck: bool, rounds: nat,
                       D1: Search, min: nat)
    requires Searching(E, D, s, t, k, lost, stuck, rounds) && |D.dist| < INF
    requires RelaxesTo(E, D, k, D1) && Nearest(D1, 0, min) && min == INF && !D1.pego[0]
    ensures !stuck && !lost && rounds + 2 <= |D.dist|
    ensures s == 0 ==> Arrived(E, SettleNode(D1, 0), s, t, true)
    ensures s != 0 ==> Searching(E, SettleNode(D1, 0), s, t, 0, true, false, rounds + 1)
  {
    RelaxKeepsForest(E, D, t, lost, k, D1);
    RelaxKeepsRelaxed(E, D, t, lost, k, D1);
    StuckCannotReach(E, D1, t, 0);
    StuckCannotReach(E, D1, t, s);
    FallbackKeepsForest(E, D1, t);
    SettleKeepsRelaxed(E, D1, 0);
    CountSet(D1.pego, 0);
  }

  /** A whole round. */
  lemma Round(E: set<(nat, nat)>, D: Search, s: nat, t: nat, k: nat, lost: bool, stuck: bool, rounds: nat,
              D1: Search, next: nat, min: nat) returns (lost': bool, stuck': bool)
    requires Searching(E, D, s, t, k, lost, stuck, rounds) && |D.dist| < INF && Symmetric(E)
    requires RelaxesTo(E, D, k, D1) && Nearest(D1, next, min) && next < |D.dist|
    ensures !stuck' ==> rounds + 2 <= |D.dist|
    ensures stuck' ==> next != s && !Reaches(E, s, t) && !Reaches(E, s, 0)
    ensures next == s ==> Arrived(E, SettleNode(D1, next), s, t, lost')
    ensures next != s ==> Searching(E, SettleNode(D1, next), s, t, next, lost', stuck', rounds + 1)
  {
    lost', stuck' := lost, false;
    if min < INF {
      RoundFinds(E, D, s, t, k, lost, stuck, rounds, D1, next, min);
    } else if D1.pego[0] {
      RoundStuck(E, D, s, t, k, lost, stuck, rounds, D1, min);
      ReachesSymmetric(E, s, t);
      ReachesSymmetric(E, s, 0);
      stuck' := true;
    } else {
      RoundFallsBack(E, D, s, t, k, lost, stuck, rounds, D1, min);
      lost' := true;
    }
  }

  lemma SearchStarts(E: set<(nat, nat)>, n: nat, s: nat, t: nat, D: Search)
    requires s < n && t < n && s != t && n < INF && InRange(E, n) && Shape(D, n)
    requires forall v :: 0 <= v < n ==> D.dist[v] == (if v == t then 0 else INF)
    requires forall v :: 0 <= v < n ==> D.prev[v] == (if v == t then t else INF)
    requires forall v :: 0 <= v < n ==> D.pego[v] == (v == t)
    ensures Searching(E, D, s, t, t, false, false, 0)
  {
    CountOne(D.pego, t);
  }

  lemma {:induction false} CountOne(flags: seq<bool>, t: nat)
    requires t < |flags| && forall v :: 0 <= v < |flags| ==> flags[v] == (v == t)
    ensures Count(flags) == 1
    decreases |flags|
  {
    if t == 0 {
      CountNone(flags[1..]);
    } else {
      CountOne(flags[1..], t - 1);
    }
  }

  lemma {:induction false} CountNone(flags: seq<bool>)
    requires forall v :: 0 <= v < |flags| ==> !flags[v]
    ensures Count(flags) == 0
    decreases |flags|
  {
    if flags == [] {
    } else {
      CountNone(flags[1..]);
    }
  }

  /** The chain of predecessors from s once the search has arrived: up to t it is a shortest route, and after a
      fallback it ends in node 0, whose predecessor is out of range. */
  lemma ArrivedChain(E: set<(nat, nat)>, D: Search, s: nat, t: nat, lost: bool) returns (chain: seq<nat>)
    requires Arrived(E, D, s, t, lost) && Symmetric(E) && s != t && |D.dist| < INF
    ensures FollowsPrev(D.prev, chain) && chain[0] == s && |chain| < UNSIGNED
    ensures !lost ==>
              && ShortestRoute(E, s, t, chain) && Reaches(E, s, t)
              && |chain| > 1 && D.prev[chain[|chain| - 1]] == t
    ensures lost ==> !Reaches(E, s, t) && Reaches(E, s, 0) && D.prev[chain[|chain| - 1]] == INF
  {
    chain := RootChain(E, D, t, lost, s);
    ReachesSymmetric(E, s, t);
    if lost {
      assert WalkFromTo(E, chain, s, chain[|chain| - 1]);
    } else {
      FrontierChainShortest(E, D, t, s, chain);
    }
  }

  /** In a graph on the nodes 0, 1, 2 with the one link 0 - 1, node 1 is connected to node 0, which the search for 2
      falls back to, but not to 2. */
  lemma FallbackGoesWrong(E: set<(nat, nat)>)
    requires E == {(0, 1), (1, 0)}
    ensures !Reaches(E, 1, 2) && Reaches(E, 1, 0)
  {
    assert WalkFromTo(E, [1, 0], 1, 0);
    forall w: seq<nat> | Walk(E, w) && |w| > 1
      ensures w[|w| - 1] != 2
    {
      assert (w[|w| - 2], w[|w| - 1]) in E;
    }
  }
}
