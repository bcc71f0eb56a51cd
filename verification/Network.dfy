/** The topology and its route search, from scratch/network-topology.h. */
module Network {
  import opened Digraph
  import opened Paths
  import opened ShortestPaths

  /** How a route search ends. OutOfBounds is a read of the predecessor vector past its end, which C++ leaves
      undefined. */
  datatype SearchResult = Found | NotFound | OutOfBounds

  ghost function AdjEdges(adj: seq<seq<nat>>): (E: set<(nat, nat)>)
    ensures forall u: nat, v: nat :: (u, v) in E <==> u < |adj| && v in adj[u]
  {
    set u: nat, i: nat | u < |adj| && i < |adj[u]| :: (u, adj[u][i])
  }

  lemma AdjPush(adj: seq<seq<nat>>, a: nat, b: nat)
    requires a < |adj|
    ensures AdjEdges(adj[a := adj[a] + [b]]) == AdjEdges(adj) + {(a, b)}
  {
    var adj' := adj[a := adj[a] + [b]];
    forall u, v
      ensures (u, v) in AdjEdges(adj') <==> (u, v) in AdjEdges(adj) + {(a, b)}
    {
      if u == a {
        assert v in adj[a] + [b] <==> v in adj[a] || v == b;
      }
    }
  }

  /** The relaxing loop over the neighbours of k. */
  method RelaxNeighbours(neighbours: seq<nat>, k: nat, dist: array<nat>, prev: array<nat>, pego: array<bool>)
    requires dist.Length == prev.Length == pego.Length && dist != prev && k < dist.Length && pego[k]
    requires forall i :: 0 <= i < |neighbours| ==> neighbours[i] < dist.Length
    modifies dist, prev
    ensures forall v :: 0 <= v < dist.Length ==>
              var d := (old(dist[k]) + 1) % UNSIGNED;
              if v in neighbours && !pego[v] && d < old(dist[v])
              then dist[v] == d && prev[v] == k
              else dist[v] == old(dist[v]) && prev[v] == old(prev[v])
  {
    ghost var d := (dist[k] + 1) % UNSIGNED;
    for i := 0 to |neighbours|
      invariant dist[k] == old(dist[k])
      invariant forall v :: 0 <= v < dist.Length ==>
                  if v in neighbours[..i] && !pego[v] && d < old(dist[v])
                  then dist[v] == d && prev[v] == k
                  else dist[v] == old(dist[v]) && prev[v] == old(prev[v])
    {
      var v := neighbours[i];
      assert neighbours[..i + 1] == neighbours[..i] + [v];
      if !pego[v] {
        if (dist[k] + 1) % UNSIGNED < dist[v] {
          prev[v] := k;
          dist[v] := (dist[k] + 1) % UNSIGNED;
        }
      }
    }
    assert neighbours[..|neighbours|] == neighbours;
  }

  /** The scan for an unsettled node of least distance; it falls back to node 0 when none has a finite one. */
  method PickNearest(dist: array<nat>, pego: array<bool>) returns (k: nat, min: nat)
    requires dist.Length == pego.Length
    requires forall v :: 0 <= v < dist.Length ==> dist[v] <= INF
    ensures forall i :: 0 <= i < dist.Length && !pego[i] ==> min <= dist[i]
    ensures if min < INF then k < dist.Length && !pego[k] && dist[k] == min else k == 0 && min == INF
  {
    k := 0;
    min := INF;
    for i := 0 to dist.Length
      invariant forall j :: 0 <= j < i && !pego[j] ==> min <= dist[j]
      invariant if min < INF then k < i && !pego[k] && dist[k] == min else k == 0 && min == INF
    {
      if !pego[i] && dist[i] < min {
        min := dist[i];
        k := i;
      }
    }
  }

  /** One round of the search: relax the neighbours of k, then settle the nearest node. */
  method SearchRound(neighbours: seq<nat>, k: nat, dist: array<nat>, prev: array<nat>, pego: array<bool>,
                     ghost E: set<(nat, nat)>, ghost D: Search, ghost t: nat, ghost lost: bool)
    returns (next: nat, ghost min: nat, ghost D1: Search)
    requires dist.Length == prev.Length == pego.Length < INF && dist != prev && k < dist.Length && pego[k]
    requires D == Search(dist[..], prev[..], pego[..]) && Forest(E, D, t, lost) && Bounded(D) && InRange(E, dist.Length)
    requires forall v: nat :: v in neighbours <==> (k, v) in E
    modifies dist, prev, pego
    ensures RelaxesTo(E, D, k, D1) && Nearest(D1, next, min) && next < dist.Length
    ensures Search(dist[..], prev[..], pego[..]) == SettleNode(D1, next)
  {
    assert forall i :: 0 <= i < |neighbours| ==> (k, neighbours[i]) in E;
    RelaxNeighbours(neighbours, k, dist, prev, pego);
    D1 := Search(dist[..], prev[..], pego[..]);
    assert RelaxesTo(E, D, k, D1);
    RelaxKeepsRange(E, D, t, lost, k, D1);
    assert forall v :: 0 <= v < dist.Length ==> dist[v] == D1.dist[v] <= INF;
    next, min := PickNearest(dist, pego);
    PickedIsNearest(D1, next, min);
    pego[next] := true;
  }

  lemma PickedIsNearest(D: Search, k: nat, min: nat)
    requires Shape(D, |D.dist|) && forall i :: 0 <= i < |D.dist| && !D.pego[i] ==> min <= D.dist[i]
    requires if min < INF then k < |D.dist| && !D.pego[k] && D.dist[k] == min else k == 0 && min == INF
    ensures Nearest(D, k, min)
  {
  }

  class NetworkTopology {
    /** Links by their source and destination ids; the rates and delays they also carry do not matter here. */
    var links: seq<(nat, nat)>
    var nodes: seq<nat>
    var adjList: seq<seq<nat>>
    var size: nat
    const route: Path

    constructor ()
      ensures links == [] && nodes == [] && adjList == [] && fresh(route) && route.Valid() && route.path == []
    {
      links, nodes, adjList, size := [], [], [], 0;
      route := new Path();
    }

    method AddLink(src: nat, dst: nat)
      modifies `links
      ensures links == old(links) + [(src, dst)]
    {
      links := links + [(src, dst)];
    }

    method AddNode(id: nat)
      modifies `nodes
      ensures nodes == old(nodes) + [id]
    {
      nodes := nodes + [id];
    }

    ghost function E(): set<(nat, nat)>
      reads this
    {
      AdjEdges(adjList)
    }

    /** Adds both directions of every link. The assignment to "size" in the source sets the parameter of that
        name, so the member stays as it was. */
    method SetUpAdjList()
      requires |adjList| <= |nodes|
      requires forall i :: 0 <= i < |links| ==> links[i].0 < |nodes| && links[i].1 < |nodes|
      modifies `adjList
      ensures |adjList| == |nodes|
      ensures forall u, v :: (u, v) in E() <==> (u, v) in old(E()) || (u, v) in links || (v, u) in links
    {
      adjList := adjList + seq(|nodes| - |adjList|, _ => []);
      ghost var E0 := old(E());
      for i := 0 to |links|
        invariant |adjList| == |nodes|
        invariant forall u, v :: (u, v) in E() <==> (u, v) in E0 || (u, v) in links[..i] || (v, u) in links[..i]
      {
        var (a, b) := links[i];
        AdjPush(adjList, a, b);
        adjList := adjList[a := adjList[a] + [b]];
        AdjPush(adjList, b, a);
        adjList := adjList[b := adjList[b] + [a]];
        assert links[..i + 1] == links[..i] + [(a, b)];
      }
      assert links[..|links|] == links;
    }

    /** What the search relies on: the size member is right, ids are in range and the links go both ways. */
    ghost predicate Ready()
      reads this, route
    {
      && size == |adjList| && 0 < size < INF
      && InRange(E(), size) && Symmetric(E())
      && route.Valid()
    }

    /** Rebuilds the route by following the predecessors from s; it ends early when they lead out of the vector. */
    method BuildRoute(s: nat, prev: array<nat>, ghost chain: seq<nat>) returns (ok: bool)
      requires prev as object != route && route.Valid()
      requires FollowsPrev(prev[..], chain) && chain[0] == s && |chain| < UNSIGNED
      requires var last := chain[|chain| - 1]; prev[last] >= prev.Length || (prev[last] == last && |chain| > 1)
      modifies route
      ensures route.Valid()
      ensures ok <==> prev[chain[|chain| - 1]] == chain[|chain| - 1]
      ensures ok ==> route.path == chain && route.actualPos == 0
    {
      var k := s;
      route.Clear();
      ghost var i := 0;
      while true
        invariant i < |chain| && k == chain[i] && route.Valid() && route.path == chain[..i] && route.actualPos == 0
        invariant i == |chain| - 1 ==> prev[k] >= prev.Length
        decreases |chain| - i
      {
        route.AddLinkToPath(k);
        assert chain[..i + 1] == chain[..i] + [k];
        assert i + 1 < |chain| ==> chain[i + 1] == prev[..][k] && chain[i + 1] != k;
        k := prev[k];
        if k >= prev.Length {
          return false;
        }
        i := i + 1;
        assert i + 1 < |chain| ==> chain[i + 1] == prev[..][k] && chain[i + 1] != k;
        if prev[k] == k {
          break;
        }
      }
      route.AddLinkToPath(k);
      assert chain == chain[..i] + [k];
      return true;
    }

    /** The search loop: it ends when s is settled, or when the round counter says that s will not be found. */
    method SettleUntil(s: nat, t: nat) returns (arrived: bool, prev: array<nat>, ghost D: Search, ghost lost: bool)
      requires Ready() && s < size && t < size && s != t
      ensures fresh(prev) && prev[..] == D.prev && |D.dist| == size
      ensures arrived ==> Arrived(E(), D, s, t, lost)
      ensures !arrived ==> !Reaches(E(), s, t) && !Reaches(E(), s, 0)
    {
      var dist := new nat[size](_ => INF);
      prev := new nat[size](_ => INF);
      var pego := new bool[size](_ => false);
      dist[t], prev[t], pego[t] := 0, t, true;
      ghost var stuck := false;
      lost := false;
      D := Search(dist[..], prev[..], pego[..]);
      SearchStarts(E(), size, s, t, D);
      var k, assegure := t, 0;
      while true
        invariant D == Search(dist[..], prev[..], pego[..]) && |D.dist| == size
        invariant Searching(E(), D, s, t, k, lost, stuck, assegure)
        invariant assegure <= size
        decreases size - assegure
      {
        ghost var last := k;
        ghost var min, D1;
        k, min, D1 := SearchRound(adjList[k], k, dist, prev, pego, E(), D, t, lost);
        lost, stuck := Round(E(), D, s, t, last, lost, stuck, assegure, D1, k, min);
        D := SettleNode(D1, k);
        if assegure >= size {
          return false, prev, D, lost;
        }
        assegure := assegure + 1;
        if k == s {
          return true, prev, D, lost;
        }
      }
    }

    method Dijkstra(s: nat, t: nat) returns (r: SearchResult)
      requires Ready() && s < size && t < size && s != t
      modifies route
      ensures route.Valid()
      ensures r.Found? <==> Reaches(E(), s, t)
      ensures r.OutOfBounds? <==> !Reaches(E(), s, t) && Reaches(E(), s, 0)
      ensures r.Found? ==> ShortestRoute(E(), s, t, route.path) && route.actualPos == 0
      ensures r.NotFound? ==> unchanged(route)
    {
      var arrived, prev;
      ghost var D, lost;
      arrived, prev, D, lost := SettleUntil(s, t);
      if !arrived {
        return NotFound;
      }
      ghost var chain := ArrivedChain(E(), D, s, t, lost);
      var ok := BuildRoute(s, prev, chain);
      r := if ok then Found else OutOfBounds;
    }

    /** A shortest route from s to t, when they are connected; the search goes wrong exactly when s is connected to
        node 0 and not to t. */
    method SearchRoute(s: nat, t: nat) returns (r: SearchResult)
      requires Ready() && s < size && t < size
      modifies route
      ensures route.Valid()
      ensures r.Found? <==> Reaches(E(), s, t)
      ensures r.OutOfBounds? <==> !Reaches(E(), s, t) && Reaches(E(), s, 0)
      ensures r.Found? ==> ShortestRoute(E(), s, t, route.path) && Distinct(route.path) && route.actualPos == 0
      ensures r.NotFound? ==> unchanged(route)
    {
      if s == t {
        route.Clear();
        route.AddLinkToPath(s);
        ReachesSelf(E(), s);
        assert WalkFromTo(E(), route.path, s, t);
        return Found;
      }
      r := Dijkstra(s, t);
      if r.Found? {
        ShortestIsSimple(E(), s, t, route.path);
      }
    }

    /** A copy of the route. */
    method GetRoute() returns (p: Path)
      requires route.Valid()
      ensures fresh(p) && p.Valid() && p.path == route.path && p.actualPos == route.actualPos
    {
      p := new Path.Copy(route);
    }
  }

  /** A search that goes wrong: with the one link 0 - 1 among three nodes, the search for a route from 1 to 2 falls back
      to node 0, arrives at 1 from there, and leaves the bounds behind node 0. */
  method FallbackLeavesBounds() returns (network: NetworkTopology, r: SearchResult)
    ensures fresh(network) && network.links == [(0, 1)] && network.nodes == [0, 1, 2] && network.Ready()
    ensures r.OutOfBounds?
  {
    network := new NetworkTopology();
    network.AddNode(0);
    network.AddNode(1);
    network.AddNode(2);
    network.AddLink(0, 1);
    network.SetUpAdjList();
    network.size := 3;
    FallbackGoesWrong(network.E());
    r := network.SearchRoute(1, 2);
  }
}
