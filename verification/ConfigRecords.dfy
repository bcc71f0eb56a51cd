/** When the walk of utils/print-introspected-doxygen.cc records something twice. */
module ConfigRecords {
  import opened Digraph
  import opened Seqs
  import opened ConfigPaths

  /** A walk from root that visits no type twice. */
  ghost predicate SimpleFrom(reg: Registry, aggregates: seq<(nat, nat)>, root: nat, w: seq<nat>)
    requires Registered(reg, aggregates) && root < |reg.types|
  {
    LabelledWalk(reg, aggregates, root, w) && Distinct(Visits(reg, aggregates, root, w))
  }

  /** Items of types s and t can be told apart in a path: an item of s that is equal to one of t or, followed by a
      slash, at the front of it followed by a slash, belongs to an equal edge. */
  ghost predicate ClearBetween(reg: Registry, aggregates: seq<(nat, nat)>, s: nat, t: nat)
    requires Registered(reg, aggregates) && s < |reg.types| && t < |reg.types|
  {
    var from, to := Edges(reg, aggregates, s), Edges(reg, aggregates, t);
    forall j, k :: 0 <= j < |from| && 0 <= k < |to| && from[j].item + "/" <= to[k].item + "/" ==> from[j] == to[k]
  }

  /** Items can be told apart within each type. */
  ghost predicate ClearItems(reg: Registry, aggregates: seq<(nat, nat)>)
    requires Registered(reg, aggregates)
  {
    forall t: nat :: t < |reg.types| ==> ClearBetween(reg, aggregates, t, t)
  }

  /** Edges j and k of the type that u leads to are equal. */
  ghost predicate DoubledAt(reg: Registry, aggregates: seq<(nat, nat)>, root: nat, u: seq<nat>, j: nat, k: nat)
    requires Registered(reg, aggregates) && root < |reg.types|
  {
    EndInRange(reg, aggregates, root, u);
    var edges := Edges(reg, aggregates, EndOf(reg, aggregates, root, u));
    j < |edges| && k < |edges| && j != k && edges[j] == edges[k]
  }

  /** A simple walk from root ends with an edge that its type has twice. */
  ghost predicate MeetsDoubledEdge(reg: Registry, aggregates: seq<(nat, nat)>, root: nat)
    requires Registered(reg, aggregates) && root < |reg.types|
  {
    exists u: seq<nat>, j: nat, k: nat ::
      SimpleFrom(reg, aggregates, root, u + [j]) && DoubledAt(reg, aggregates, root, u, j, k)
  }

  lemma {:induction false} EndInRange(reg: Registry, aggregates: seq<(nat, nat)>, tid: nat, w: seq<nat>)
    requires Registered(reg, aggregates) && tid < |reg.types|
    ensures EndOf(reg, aggregates, tid, w) < |reg.types|
    decreases |w|
  {
    EdgesInRange(reg, aggregates, tid);
    if w != [] && w[0] < |Edges(reg, aggregates, tid)| {
      EndInRange(reg, aggregates, Edges(reg, aggregates, tid)[w[0]].target, w[1..]);
    }
  }

  // Paths as strings

  lemma {:induction false} PathFront(items: seq<string>)
    requires items != []
    ensures PathString(items) == "/" + items[0] + PathString(items[1..])
    decreases |items|
  {
    var n := |items| - 1;
    if n == 0 {
      assert items[..0] == [] && items[1..] == [];
    } else {
      PathFront(items[..n]);
      assert items[..n][1..] == items[1..][..n - 1];
      ConcatAssociative("/" + items[0], PathString(items[1..][..n - 1]), "/");
      ConcatAssociative("/" + items[0], PathString(items[1..][..n - 1]) + "/", items[n]);
    }
  }

  /** A path is empty or starts with a slash. */
  predicate PathLike(s: string) {
    s == "" || s[0] == '/'
  }

  lemma PathStart(items: seq<string>)
    ensures PathLike(PathString(items)) && (PathString(items) == "" <==> items == [])
  {
    if items != [] {
      PathFront(items);
    }
  }

  /** In equal paths one of the first items stops at a slash of the other, or where the other does. */
  lemma FirstItems(a: string, r: string, b: string, s: string)
    requires a + r == b + s && PathLike(r) && PathLike(s) && |a| <= |b|
    ensures a + "/" <= b + "/" && (a == b ==> r == s)
  {
    assert a == (a + r)[..|a|] && b == (b + s)[..|b|];
    assert r == (a + r)[|a|..] && s == (b + s)[|b|..];
    if |a| < |b| {
      assert b[|a|] == (a + r)[|a|] == r[0];
    }
  }

  // Walks with the same record

  /** The first edges of two walks with the same path string are equal edges, and what follows has the same path too. */
  lemma FirstEdges(reg: Registry, aggregates: seq<(nat, nat)>, tid: nat, w: seq<nat>, v: seq<nat>)
    requires Registered(reg, aggregates) && tid < |reg.types| && ClearItems(reg, aggregates)
    requires LabelledWalk(reg, aggregates, tid, w) && LabelledWalk(reg, aggregates, tid, v) && w != [] && v != []
    requires PathString(Items(reg, aggregates, tid, w)) == PathString(Items(reg, aggregates, tid, v))
    ensures var edges := Edges(reg, aggregates, tid);
            && w[0] < |edges| && v[0] < |edges| && edges[w[0]] == edges[v[0]] && edges[w[0]].target < |reg.types|
            && PathString(Items(reg, aggregates, edges[w[0]].target, w[1..]))
               == PathString(Items(reg, aggregates, edges[w[0]].target, v[1..]))
  {
    EdgesInRange(reg, aggregates, tid);
    assert ClearBetween(reg, aggregates, tid, tid);
    var e, f := Edges(reg, aggregates, tid)[w[0]], Edges(reg, aggregates, tid)[v[0]];
    var r, s := Items(reg, aggregates, e.target, w[1..]), Items(reg, aggregates, f.target, v[1..]);
    FirstItemsOf(e.item, r, f.item, s);
  }

  lemma PathWithFront(a: string, r: seq<string>)
    ensures PathString([a] + r)[1..] == a + PathString(r) && PathLike(PathString(r))
  {
    PathFront([a] + r);
    PathStart(r);
    assert ([a] + r)[1..] == r;
    ConcatAssociative("/", a, PathString(r));
  }

  lemma FirstItemsOf(a: string, r: seq<string>, b: string, s: seq<string>)
    requires PathString([a] + r) == PathString([b] + s)
    ensures a + "/" <= b + "/" || b + "/" <= a + "/"
    ensures a == b ==> PathString(r) == PathString(s)
  {
    PathWithFront(a, r);
    PathWithFront(b, s);
    if |a| <= |b| {
      FirstItems(a, PathString(r), b, PathString(s));
    } else {
      FirstItems(b, PathString(s), a, PathString(r));
    }
  }

  /** Two walks with the same path string part at two equal edges. */
  lemma {:induction false} PartAtDoubled(reg: Registry, aggregates: seq<(nat, nat)>, tid: nat, w: seq<nat>, v: seq<nat>)
    returns (u: seq<nat>, j: nat, k: nat)
    requires Registered(reg, aggregates) && tid < |reg.types| && ClearItems(reg, aggregates)
    requires LabelledWalk(reg, aggregates, tid, w) && LabelledWalk(reg, aggregates, tid, v) && w != v
    requires PathString(Items(reg, aggregates, tid, w)) == PathString(Items(reg, aggregates, tid, v))
    ensures u + [j] <= w && DoubledAt(reg, aggregates, tid, u, j, k)
    decreases |w|
  {
    PathStart(Items(reg, aggregates, tid, w));
    PathStart(Items(reg, aggregates, tid, v));
    FirstEdges(reg, aggregates, tid, w, v);
    if w[0] == v[0] {
      var target := Edges(reg, aggregates, tid)[w[0]].target;
      assert w == [w[0]] + w[1..] && v == [v[0]] + v[1..];
      var rest: seq<nat>;
      rest, j, k := PartAtDoubled(reg, aggregates, target, w[1..], v[1..]);
      u := [w[0]] + rest;
      assert u[1..] == rest;
      ConcatAssociative([w[0]], rest, [j]);
    } else {
      u, j, k := [], w[0], v[0];
    }
  }

  lemma {:induction false} WalkFront(reg: Registry, aggregates: seq<(nat, nat)>, tid: nat, w: seq<nat>, n: nat)
    requires Registered(reg, aggregates) && tid < |reg.types| && LabelledWalk(reg, aggregates, tid, w) && n <= |w|
    ensures LabelledWalk(reg, aggregates, tid, w[..n])
    ensures Visits(reg, aggregates, tid, w[..n]) <= Visits(reg, aggregates, tid, w)
    decreases |w|
  {
    if n > 0 {
      EdgesInRange(reg, aggregates, tid);
      WalkFront(reg, aggregates, Edges(reg, aggregates, tid)[w[0]].target, w[1..], n - 1);
      assert w[..n][1..] == w[1..][..n - 1];
    }
  }

  lemma SimpleFront(reg: Registry, aggregates: seq<(nat, nat)>, root: nat, w: seq<nat>, v: seq<nat>)
    requires Registered(reg, aggregates) && root < |reg.types| && SimpleFrom(reg, aggregates, root, w) && v <= w
    ensures SimpleFrom(reg, aggregates, root, v)
  {
    WalkFront(reg, aggregates, root, w, |v|);
    assert w[..|v|] == v;
  }

  /** Walks that end with equal edges visit the same types and are recorded alike. */
  lemma {:induction false} SwapLast(reg: Registry, aggregates: seq<(nat, nat)>, tid: nat, u: seq<nat>, j: nat, k: nat)
    requires Registered(reg, aggregates) && tid < |reg.types|
    requires LabelledWalk(reg, aggregates, tid, u + [j]) && DoubledAt(reg, aggregates, tid, u, j, k)
    ensures LabelledWalk(reg, aggregates, tid, u + [k])
    ensures Visits(reg, aggregates, tid, u + [j]) == Visits(reg, aggregates, tid, u + [k])
    ensures Items(reg, aggregates, tid, u + [j]) == Items(reg, aggregates, tid, u + [k])
    ensures EndOf(reg, aggregates, tid, u + [j]) == EndOf(reg, aggregates, tid, u + [k])
    decreases |u|
  {
    EdgesInRange(reg, aggregates, tid);
    if u == [] {
      assert [] + [j] == [j] && [] + [k] == [k] && [j][1..] == [] && [k][1..] == [];
    } else {
      assert (u + [j])[1..] == u[1..] + [j] && (u + [k])[1..] == u[1..] + [k];
      SwapLast(reg, aggregates, Edges(reg, aggregates, tid)[u[0]].target, u[1..], j, k);
    }
  }

  // One root

  /** The record of a simple walk is among those of its root. */
  lemma WalkIsRecorded(reg: Registry, aggregates: seq<(nat, nat)>, root: nat, w: seq<nat>)
    requires Registered(reg, aggregates) && root < |reg.types| && SimpleFrom(reg, aggregates, root, w)
    ensures (EndOf(reg, aggregates, root, w), PathString(Items(reg, aggregates, root, w)))
            in Gather(reg, aggregates, root, [], [])
  {
    var walks := GatherRecordsSimpleWalks(reg, aggregates, root);
    assert w in walks;
    var a :| 0 <= a < |walks| && walks[a] == w;
    assert Gather(reg, aggregates, root, [], [])[a] in Gather(reg, aggregates, root, [], []);
  }

  /** Every record is that of a simple walk. */
  lemma RecordIsWalked(reg: Registry, aggregates: seq<(nat, nat)>, root: nat, r: (nat, string)) returns (w: seq<nat>)
    requires Registered(reg, aggregates) && root < |reg.types| && r in Gather(reg, aggregates, root, [], [])
    ensures SimpleFrom(reg, aggregates, root, w)
    ensures r == (EndOf(reg, aggregates, root, w), PathString(Items(reg, aggregates, root, w)))
  {
    var walks := GatherRecordsSimpleWalks(reg, aggregates, root);
    var records := Gather(reg, aggregates, root, [], []);
    var a :| 0 <= a < |records| && records[a] == r;
    w := walks[a];
    assert w in walks;
  }

  /** Two walks that are recorded alike. */
  lemma SameRecordRepeats(reg: Registry, aggregates: seq<(nat, nat)>, root: nat, w: seq<nat>, v: seq<nat>)
    requires Registered(reg, aggregates) && root < |reg.types| && w != v
    requires SimpleFrom(reg, aggregates, root, w) && SimpleFrom(reg, aggregates, root, v)
    requires EndOf(reg, aggregates, root, w) == EndOf(reg, aggregates, root, v)
    requires PathString(Items(reg, aggregates, root, w)) == PathString(Items(reg, aggregates, root, v))
    ensures !Distinct(Gather(reg, aggregates, root, [], []))
  {
    var walks := GatherRecordsSimpleWalks(reg, aggregates, root);
    assert w in walks && v in walks;
    var a :| 0 <= a < |walks| && walks[a] == w;
    var b :| 0 <= b < |walks| && walks[b] == v;
    assert Gather(reg, aggregates, root, [], [])[a] == Gather(reg, aggregates, root, [], [])[b];
  }

  lemma DoubledEdgeRepeats(reg: Registry, aggregates: seq<(nat, nat)>, root: nat, u: seq<nat>, j: nat, k: nat)
    requires Registered(reg, aggregates) && root < |reg.types|
    requires SimpleFrom(reg, aggregates, root, u + [j]) && DoubledAt(reg, aggregates, root, u, j, k)
    ensures !Distinct(Gather(reg, aggregates, root, [], []))
  {
    SwapLast(reg, aggregates, root, u, j, k);
    assert (u + [j])[|u|] == j && (u + [k])[|u|] == k;
    SameRecordRepeats(reg, aggregates, root, u + [j], u + [k]);
  }

  lemma RepetitionMeetsDoubled(reg: Registry, aggregates: seq<(nat, nat)>, root: nat)
    requires Registered(reg, aggregates) && root < |reg.types| && ClearItems(reg, aggregates)
    requires !Distinct(Gather(reg, aggregates, root, [], []))
    ensures MeetsDoubledEdge(reg, aggregates, root)
  {
    var records := Gather(reg, aggregates, root, [], []);
    var walks := GatherRecordsSimpleWalks(reg, aggregates, root);
    var a, b :| 0 <= a < b < |records| && records[a] == records[b];
    assert walks[a] in walks && walks[b] in walks;
    var u, j, k := PartAtDoubled(reg, aggregates, root, walks[a], walks[b]);
    SimpleFront(reg, aggregates, root, walks[a], u + [j]);
  }

  /** Where items can be told apart, one gathering records nothing twice exactly when no simple walk from root takes an
      edge that its type has twice. */
  lemma RootDistinctIff(reg: Registry, aggregates: seq<(nat, nat)>, root: nat)
    requires Registered(reg, aggregates) && root < |reg.types| && ClearItems(reg, aggregates)
    ensures Distinct(Gather(reg, aggregates, root, [], [])) <==> !MeetsDoubledEdge(reg, aggregates, root)
  {
    if !Distinct(Gather(reg, aggregates, root, [], [])) {
      RepetitionMeetsDoubled(reg, aggregates, root);
    }
    if MeetsDoubledEdge(reg, aggregates, root) {
      var u: seq<nat>, j: nat, k: nat :|
        SimpleFrom(reg, aggregates, root, u + [j]) && DoubledAt(reg, aggregates, root, u, j, k);
      DoubledEdgeRepeats(reg, aggregates, root, u, j, k);
    }
  }

  /** No item of a type is equal to another one or, followed by a slash, at the front of it. */
  ghost predicate ApartItems(reg: Registry, aggregates: seq<(nat, nat)>)
    requires Registered(reg, aggregates)
  {
    forall t, j, k :: 0 <= t < |reg.types| ==>
      var edges := Edges(reg, aggregates, t);
      0 <= j < |edges| && 0 <= k < |edges| && j != k ==> !(edges[j].item + "/" <= edges[k].item + "/")
  }

  /** With such items no walk meets a doubled edge. */
  lemma ApartMeetsNone(reg: Registry, aggregates: seq<(nat, nat)>, root: nat)
    requires Registered(reg, aggregates) && root < |reg.types| && ApartItems(reg, aggregates)
    ensures !MeetsDoubledEdge(reg, aggregates, root)
  {
    if MeetsDoubledEdge(reg, aggregates, root) {
      var u: seq<nat>, j: nat, k: nat :|
        SimpleFrom(reg, aggregates, root, u + [j]) && DoubledAt(reg, aggregates, root, u, j, k);
      EndInRange(reg, aggregates, root, u);
      assert false;
    }
  }

  // Several roots

  ghost predicate RootsInRange(reg: Registry, roots: seq<nat>) {
    forall p :: 0 <= p < |roots| ==> roots[p] < |reg.types|
  }

  /** What gathering from each of the roots adds to the output. */
  ghost function RecordLists(reg: Registry, aggregates: seq<(nat, nat)>, roots: seq<nat>)
    : (lists: seq<seq<(nat, string)>>)
    requires Registered(reg, aggregates) && RootsInRange(reg, roots)
    ensures |lists| == |roots|
  {
    if roots == [] then []
    else RecordLists(reg, aggregates, roots[..|roots| - 1]) + [Gather(reg, aggregates, roots[|roots| - 1], [], [])]
  }

  lemma {:induction false} RecordListAt(reg: Registry, aggregates: seq<(nat, nat)>, roots: seq<nat>, p: nat)
    requires Registered(reg, aggregates) && RootsInRange(reg, roots) && p < |roots|
    ensures RecordLists(reg, aggregates, roots)[p] == Gather(reg, aggregates, roots[p], [], [])
    decreases |roots|
  {
    if p < |roots| - 1 {
      RecordListAt(reg, aggregates, roots[..|roots| - 1], p);
    }
  }

  ghost function RootRecords(reg: Registry, aggregates: seq<(nat, nat)>, roots: seq<nat>): seq<(nat, string)>
    requires Registered(reg, aggregates) && RootsInRange(reg, roots)
  {
    Flatten(RecordLists(reg, aggregates, roots))
  }

  /** Types x and y have an equal edge, to a type that is neither of them. */
  ghost predicate SharesEdge(reg: Registry, aggregates: seq<(nat, nat)>, x: nat, y: nat)
    requires Registered(reg, aggregates) && x < |reg.types| && y < |reg.types|
  {
    var from, to := Edges(reg, aggregates, x), Edges(reg, aggregates, y);
    exists j, k :: 0 <= j < |from| && 0 <= k < |to| && from[j] == to[k] && from[j].target != x && from[j].target != y
  }

  /** Items can be told apart within each type and between any two roots. */
  ghost predicate ClearRoots(reg: Registry, aggregates: seq<(nat, nat)>, roots: seq<nat>)
    requires Registered(reg, aggregates) && RootsInRange(reg, roots)
  {
    && ClearItems(reg, aggregates)
    && forall p, q :: 0 <= p < |roots| && 0 <= q < |roots| ==> ClearBetween(reg, aggregates, roots[p], roots[q])
  }

  /** No root comes twice, none meets a doubled edge, and no two share an edge. */
  ghost predicate CleanRoots(reg: Registry, aggregates: seq<(nat, nat)>, roots: seq<nat>)
    requires Registered(reg, aggregates) && RootsInRange(reg, roots)
  {
    && Distinct(roots)
    && (forall p :: 0 <= p < |roots| ==> !MeetsDoubledEdge(reg, aggregates, roots[p]))
    && (forall p, q :: 0 <= p < q < |roots| ==> !SharesEdge(reg, aggregates, roots[p], roots[q]))
  }

  lemma EdgeIsRecorded(reg: Registry, aggregates: seq<(nat, nat)>, x: nat, j: nat)
    requires Registered(reg, aggregates) && x < |reg.types| && j < |Edges(reg, aggregates, x)|
    requires Edges(reg, aggregates, x)[j].target != x
    ensures var edge := Edges(reg, aggregates, x)[j];
            (edge.target, PathString([edge.item])) in Gather(reg, aggregates, x, [], [])
  {
    EdgesInRange(reg, aggregates, x);
    var edge := Edges(reg, aggregates, x)[j];
    assert [j][1..] == [];
    assert Visits(reg, aggregates, x, [j]) == [x, edge.target];
    assert Items(reg, aggregates, x, [j]) == [edge.item];
    WalkIsRecorded(reg, aggregates, x, [j]);
  }

  /** A shared edge is recorded from both roots. */
  lemma SharedEdgeRepeats(reg: Registry, aggregates: seq<(nat, nat)>, x: nat, y: nat) returns (r: (nat, string))
    requires Registered(reg, aggregates) && x < |reg.types| && y < |reg.types| && SharesEdge(reg, aggregates, x, y)
    ensures r in Gather(reg, aggregates, x, [], []) && r in Gather(reg, aggregates, y, [], [])
  {
    var from, to := Edges(reg, aggregates, x), Edges(reg, aggregates, y);
    var j, k :| 0 <= j < |from| && 0 <= k < |to| && from[j] == to[k] && from[j].target != x && from[j].target != y;
    EdgeIsRecorded(reg, aggregates, x, j);
    EdgeIsRecorded(reg, aggregates, y, k);
    r := (from[j].target, PathString([from[j].item]));
  }

  lemma RootIsRecorded(reg: Registry, aggregates: seq<(nat, nat)>, x: nat)
    requires Registered(reg, aggregates) && x < |reg.types|
    ensures (x, "") in Gather(reg, aggregates, x, [], [])
  {
    WalkIsRecorded(reg, aggregates, x, []);
  }

  /** A record that two roots have in common comes from an edge that they share. */
  lemma CommonRecordShares(reg: Registry, aggregates: seq<(nat, nat)>, x: nat, y: nat, r: (nat, string))
    requires Registered(reg, aggregates) && x < |reg.types| && y < |reg.types| && x != y
    requires ClearBetween(reg, aggregates, x, y) && ClearBetween(reg, aggregates, y, x)
    requires r in Gather(reg, aggregates, x, [], []) && r in Gather(reg, aggregates, y, [], [])
    ensures SharesEdge(reg, aggregates, x, y)
  {
    var w := RecordIsWalked(reg, aggregates, x, r);
    var v := RecordIsWalked(reg, aggregates, y, r);
    PathStart(Items(reg, aggregates, x, w));
    PathStart(Items(reg, aggregates, y, v));
    EdgesInRange(reg, aggregates, x);
    EdgesInRange(reg, aggregates, y);
    var e, f := Edges(reg, aggregates, x)[w[0]], Edges(reg, aggregates, y)[v[0]];
    FirstItemsOf(e.item, Items(reg, aggregates, e.target, w[1..]), f.item, Items(reg, aggregates, f.target, v[1..]));
    LeavesRoot(reg, aggregates, x, w);
    LeavesRoot(reg, aggregates, y, v);
  }

  lemma LeavesRoot(reg: Registry, aggregates: seq<(nat, nat)>, x: nat, w: seq<nat>)
    requires Registered(reg, aggregates) && x < |reg.types| && SimpleFrom(reg, aggregates, x, w) && w != []
    ensures Edges(reg, aggregates, x)[w[0]].target != x
  {
    EdgesInRange(reg, aggregates, x);
    var visits := Visits(reg, aggregates, x, w);
    assert visits[1] == Edges(reg, aggregates, x)[w[0]].target;
  }

  /** Gathering from two roots that have a record in common records something twice. */
  lemma CommonRecordRepeats(reg: Registry, aggregates: seq<(nat, nat)>, roots: seq<nat>, p: nat, q: nat,
                            r: (nat, string))
    requires Registered(reg, aggregates) && RootsInRange(reg, roots) && p < q < |roots|
    requires r in Gather(reg, aggregates, roots[p], [], []) && r in Gather(reg, aggregates, roots[q], [], [])
    ensures !Distinct(RootRecords(reg, aggregates, roots))
  {
    RecordListAt(reg, aggregates, roots, p);
    RecordListAt(reg, aggregates, roots, q);
    FlattenDistinct(RecordLists(reg, aggregates, roots));
    assert Common(RecordLists(reg, aggregates, roots), p, q, r);
  }

  /** Gathering from the same root twice always records something twice, whatever the items. */
  lemma RootTwiceRepeats(reg: Registry, aggregates: seq<(nat, nat)>, roots: seq<nat>, p: nat, q: nat)
    requires Registered(reg, aggregates) && RootsInRange(reg, roots) && p < q < |roots| && roots[p] == roots[q]
    ensures !Distinct(RootRecords(reg, aggregates, roots))
  {
    RootIsRecorded(reg, aggregates, roots[p]);
    CommonRecordRepeats(reg, aggregates, roots, p, q, (roots[p], ""));
  }

  /** A repetition within one gathering stays. */
  lemma RootRepetitionStays(reg: Registry, aggregates: seq<(nat, nat)>, roots: seq<nat>, p: nat)
    requires Registered(reg, aggregates) && RootsInRange(reg, roots) && p < |roots|
    requires !Distinct(Gather(reg, aggregates, roots[p], [], []))
    ensures !Distinct(RootRecords(reg, aggregates, roots))
  {
    RecordListAt(reg, aggregates, roots, p);
    FlattenDistinct(RecordLists(reg, aggregates, roots));
  }

  lemma CleanRootsDistinct(reg: Registry, aggregates: seq<(nat, nat)>, roots: seq<nat>)
    requires Registered(reg, aggregates) && RootsInRange(reg, roots)
    requires ClearRoots(reg, aggregates, roots) && CleanRoots(reg, aggregates, roots)
    ensures Distinct(RootRecords(reg, aggregates, roots))
  {
    var lists := RecordLists(reg, aggregates, roots);
    forall p | 0 <= p < |roots|
      ensures Distinct(lists[p])
    {
      RecordListAt(reg, aggregates, roots, p);
      RootDistinctIff(reg, aggregates, roots[p]);
    }
    forall p: nat, q: nat, r | p < |lists| && q < |lists|
      ensures !Common(lists, p, q, r)
    {
      if Common(lists, p, q, r) {
        RecordListAt(reg, aggregates, roots, p);
        RecordListAt(reg, aggregates, roots, q);
        assert ClearBetween(reg, aggregates, roots[p], roots[q]) && ClearBetween(reg, aggregates, roots[q], roots[p]);
        CommonRecordShares(reg, aggregates, roots[p], roots[q], r);
        assert false;
      }
    }
    FlattenDistinct(lists);
  }

  /** Where items can be told apart, gathering from a list of roots records nothing twice exactly when no root comes
      twice, no simple walk from a root takes an edge that its type has twice, and no two roots share an edge. */
  lemma RecordsDistinctIff(reg: Registry, aggregates: seq<(nat, nat)>, roots: seq<nat>)
    requires Registered(reg, aggregates) && RootsInRange(reg, roots) && ClearRoots(reg, aggregates, roots)
    ensures Distinct(RootRecords(reg, aggregates, roots)) <==> CleanRoots(reg, aggregates, roots)
  {
    if CleanRoots(reg, aggregates, roots) {
      CleanRootsDistinct(reg, aggregates, roots);
    } else if !Distinct(roots) {
      var p, q :| 0 <= p < q < |roots| && roots[p] == roots[q];
      RootTwiceRepeats(reg, aggregates, roots, p, q);
    } else if p :| 0 <= p < |roots| && MeetsDoubledEdge(reg, aggregates, roots[p]) {
      RootDistinctIff(reg, aggregates, roots[p]);
      RootRepetitionStays(reg, aggregates, roots, p);
    } else {
      var p, q :| 0 <= p < q < |roots| && SharesEdge(reg, aggregates, roots[p], roots[q]);
      var r := SharedEdgeRepeats(reg, aggregates, roots[p], roots[q]);
      CommonRecordRepeats(reg, aggregates, roots, p, q, r);
    }
  }

  /** No item of type s, followed by a slash, is at the front of one of type t followed by a slash. */
  ghost predicate ApartBetween(reg: Registry, aggregates: seq<(nat, nat)>, s: nat, t: nat)
    requires Registered(reg, aggregates) && s < |reg.types| && t < |reg.types|
  {
    var from, to := Edges(reg, aggregates, s), Edges(reg, aggregates, t);
    forall j, k :: 0 <= j < |from| && 0 <= k < |to| ==> !(from[j].item + "/" <= to[k].item + "/")
  }

  /** Items are apart within each type and between different roots. */
  ghost predicate ApartRoots(reg: Registry, aggregates: seq<(nat, nat)>, roots: seq<nat>)
    requires Registered(reg, aggregates) && RootsInRange(reg, roots)
  {
    && ApartItems(reg, aggregates)
    && forall p, q :: 0 <= p < |roots| && 0 <= q < |roots| && roots[p] != roots[q] ==>
         ApartBetween(reg, aggregates, roots[p], roots[q])
  }

  /** With such items, nothing is recorded twice exactly when no root comes twice. */
  lemma ApartItemsDistinct(reg: Registry, aggregates: seq<(nat, nat)>, roots: seq<nat>)
    requires Registered(reg, aggregates) && RootsInRange(reg, roots) && ApartRoots(reg, aggregates, roots)
    ensures Distinct(RootRecords(reg, aggregates, roots)) <==> Distinct(roots)
  {
    ApartIsClear(reg, aggregates, roots);
    RecordsDistinctIff(reg, aggregates, roots);
    ApartIsClean(reg, aggregates, roots);
  }

  lemma ApartIsClean(reg: Registry, aggregates: seq<(nat, nat)>, roots: seq<nat>)
    requires Registered(reg, aggregates) && RootsInRange(reg, roots) && ApartRoots(reg, aggregates, roots)
    ensures CleanRoots(reg, aggregates, roots) <==> Distinct(roots)
  {
    forall p | 0 <= p < |roots|
      ensures !MeetsDoubledEdge(reg, aggregates, roots[p])
    {
      ApartMeetsNone(reg, aggregates, roots[p]);
    }
    forall p, q | 0 <= p < q < |roots| && roots[p] != roots[q]
      ensures !SharesEdge(reg, aggregates, roots[p], roots[q])
    {
      assert ApartBetween(reg, aggregates, roots[p], roots[q]);
    }
  }

  lemma ApartIsClear(reg: Registry, aggregates: seq<(nat, nat)>, roots: seq<nat>)
    requires Registered(reg, aggregates) && RootsInRange(reg, roots) && ApartRoots(reg, aggregates, roots)
    ensures ClearRoots(reg, aggregates, roots)
  {
    assert ClearItems(reg, aggregates);
    forall p, q | 0 <= p < |roots| && 0 <= q < |roots|
      ensures ClearBetween(reg, aggregates, roots[p], roots[q])
    {
      if roots[p] != roots[q] {
        assert ApartBetween(reg, aggregates, roots[p], roots[q]);
      }
    }
  }

  lemma RootRecordsSnoc(reg: Registry, aggregates: seq<(nat, nat)>, roots: seq<nat>, i: nat)
    requires Registered(reg, aggregates) && RootsInRange(reg, roots) && i < |roots|
    ensures RootRecords(reg, aggregates, roots[..i + 1])
            == RootRecords(reg, aggregates, roots[..i]) + Gather(reg, aggregates, roots[i], [], [])
  {
    PrefixInits(roots, i);
    var lists, last := RecordLists(reg, aggregates, roots[..i]), Gather(reg, aggregates, roots[i], [], []);
    assert RecordLists(reg, aggregates, roots[..i + 1]) == lists + [last];
    assert (lists + [last])[..i] == lists;
  }

  /** The loop over the root objects: all gather into one output, from which nothing is removed. */
  method GatherRoots(info: StaticInformation, roots: seq<nat>)
    requires Registered(info.reg, info.m_aggregates) && RootsInRange(info.reg, roots)
    requires info.m_output == [] && info.m_currentPath == [] && info.m_alreadyProcessed == []
    modifies info`m_output, info`m_currentPath, info`m_alreadyProcessed
    ensures info.m_currentPath == [] && info.m_alreadyProcessed == []
    ensures info.m_output == RootRecords(info.reg, info.m_aggregates, roots)
    ensures ClearRoots(info.reg, info.m_aggregates, roots) ==>
              (Distinct(info.m_output) <==> CleanRoots(info.reg, info.m_aggregates, roots))
    ensures !Distinct(roots) ==> !Distinct(info.m_output)
  {
    for i := 0 to |roots|
      invariant info.m_currentPath == [] && info.m_alreadyProcessed == []
      invariant info.m_output == RootRecords(info.reg, info.m_aggregates, roots[..i])
    {
      info.DoGather(roots[i]);
      RootRecordsSnoc(info.reg, info.m_aggregates, roots, i);
    }
    PrefixStep(roots, |roots|);
    if ClearRoots(info.reg, info.m_aggregates, roots) {
      RecordsDistinctIff(info.reg, info.m_aggregates, roots);
    }
    if p, q :| 0 <= p < q < |roots| && roots[p] == roots[q] {
      RootTwiceRepeats(info.reg, info.m_aggregates, roots, p, q);
    }
  }

  // A pair that is registered twice

  lemma {:induction false} AggregatesBefore(reg: Registry, aggregates: seq<(nat, nat)>, tid: nat, m: nat, n: nat)
    requires m <= n <= |aggregates| && Registered(reg, aggregates)
    ensures AggregateEdges(reg, aggregates, tid, m) <= AggregateEdges(reg, aggregates, tid, n)
    decreases n
  {
    if m < n {
      AggregatesBefore(reg, aggregates, tid, m, n - 1);
    }
  }

  /** A pair of two types that is registered twice makes the walk from the first type record something twice. */
  lemma RepeatedPairRepeats(reg: Registry, aggregates: seq<(nat, nat)>, x: nat, y: nat)
    requires Registered(reg, aggregates) && x < y < |aggregates| && aggregates[x] == aggregates[y]
    requires aggregates[x].0 != aggregates[x].1
    ensures !Distinct(Gather(reg, aggregates, aggregates[x].0, [], []))
  {
    var a, b := aggregates[x].0, aggregates[x].1;
    var before := AttributeEdges(reg, reg.types[a].attributes, |reg.types[a].attributes|)
        + ChildEdges(reg, a, |reg.types|);
    var last := AggregateEdges(reg, aggregates, a, |aggregates|);
    AggregatesBefore(reg, aggregates, a, x + 1, y);
    AggregatesBefore(reg, aggregates, a, x + 1, |aggregates|);
    AggregatesBefore(reg, aggregates, a, y + 1, |aggregates|);
    var p, q := |AggregateEdges(reg, aggregates, a, x)|, |AggregateEdges(reg, aggregates, a, y)|;
    assert last[p] == last[q] && last[p].target == b;
    var j, k := |before| + p, |before| + q;
    assert Edges(reg, aggregates, a)[j] == last[p] && Edges(reg, aggregates, a)[k] == last[q];
    assert [] + [j] == [j] && [j][1..] == [];
    EdgesInRange(reg, aggregates, a);
    assert Visits(reg, aggregates, a, [j]) == [a, b];
    DoubledEdgeRepeats(reg, aggregates, a, [], j, k);
  }

  // Items that cannot be told apart

  /** Different items are not enough: a container "x", and a pointer "x" to a type with a pointer "[i]", give the same
      path to the same type. */
  lemma SlashIsAmbiguous(reg: Registry)
    requires reg.types == [TypeInfo("A", [Container("x", 2), Pointer("x", 1)]), TypeInfo("B", [Pointer("[i]", 2)]),
                           TypeInfo("C", [])]
    requires reg.childOf == {} && reg.objectType >= 3
    ensures Registered(reg, [])
    ensures Edges(reg, [], 0) == [Edge("x/[i]", 2), Edge("x", 1)] && Edges(reg, [], 1) == [Edge("[i]", 2)]
    ensures !Distinct(Gather(reg, [], 0, [], []))
  {
    NoChildren(reg, 0, 3);
    NoChildren(reg, 1, 3);
    AttributeEdgesAre(reg);
    AmbiguousWalks(reg);
    AmbiguousPaths();
    SameRecordRepeats(reg, [], 0, [0], [1, 0]);
  }

  lemma {:induction false} NoChildren(reg: Registry, tid: nat, n: nat)
    requires n <= |reg.types| && reg.childOf == {}
    ensures ChildEdges(reg, tid, n) == []
  {
    if n > 0 {
      NoChildren(reg, tid, n - 1);
    }
  }

  lemma AttributeEdgesAre(reg: Registry)
    requires reg.objectType >= 3
    ensures AttributeEdges(reg, [Container("x", 2), Pointer("x", 1)], 2) == [Edge("x/[i]", 2), Edge("x", 1)]
    ensures AttributeEdges(reg, [Pointer("[i]", 2)], 1) == [Edge("[i]", 2)]
  {
    var attributes := [Container("x", 2), Pointer("x", 1)];
    assert "x" + "/[i]" == "x/[i]";
    assert AttributeEdges(reg, attributes, 1) == [Edge("x/[i]", 2)];
  }

  lemma AmbiguousWalks(reg: Registry)
    requires Registered(reg, []) && |reg.types| == 3
    requires Edges(reg, [], 0) == [Edge("x/[i]", 2), Edge("x", 1)] && Edges(reg, [], 1) == [Edge("[i]", 2)]
    ensures SimpleFrom(reg, [], 0, [0]) && EndOf(reg, [], 0, [0]) == 2 && Items(reg, [], 0, [0]) == ["x/[i]"]
    ensures SimpleFrom(reg, [], 0, [1, 0]) && EndOf(reg, [], 0, [1, 0]) == 2
    ensures Items(reg, [], 0, [1, 0]) == ["x", "[i]"]
  {
    assert [0][1..] == [] && [1, 0][1..] == [0];
    assert Visits(reg, [], 2, []) == [2] && Items(reg, [], 2, []) == [];
    assert Visits(reg, [], 0, [0]) == [0, 2] && Visits(reg, [], 1, [0]) == [1, 2];
    assert Items(reg, [], 1, [0]) == ["[i]"];
    assert Visits(reg, [], 0, [1, 0]) == [0, 1, 2];
  }

  lemma AmbiguousPaths()
    ensures PathString(["x/[i]"]) == PathString(["x", "[i]"])
  {
    assert ["x/[i]"][..0] == [] && ["x", "[i]"][..1] == ["x"] && ["x"][..0] == [];
    assert PathString(["x"]) == "" + "/" + "x" == "/x";
    assert PathString(["x/[i]"]) == "" + "/" + "x/[i]" == "/x/[i]";
    assert PathString(["x", "[i]"]) == "/x" + "/" + "[i]" == "/x/[i]";
  }
}
