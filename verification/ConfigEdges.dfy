/** The walk of utils/print-introspected-doxygen.cc in terms of the registry alone: which edges a type has, and which
    records the walk makes. */
module ConfigEdges {
  import opened Digraph
  import opened Seqs
  import opened Wrappers
  import opened ConfigPaths

  /** Where an edge of a type comes from: attribute i of the type, the registered type j, or the registered pair k. */
  datatype Origin = FromAttribute(i: nat) | FromType(j: nat) | FromPair(k: nat)

  /** The item and the target that an origin gives a type, if any: a pointer attribute unless it points to Object; a
      container attribute; a registered type that is a child; a pair with the type, whose other end is the target. */
  function Way(reg: Registry, aggregates: seq<(nat, nat)>, tid: nat, o: Origin): Option<(string, nat)>
    requires Registered(reg, aggregates) && tid < |reg.types|
  {
    match o
    case FromAttribute(i) =>
      if i >= |reg.types[tid].attributes| then None
      else
        (match reg.types[tid].attributes[i]
         case Pointer(name, pointee) => if pointee != reg.objectType then Some((name, pointee)) else None
         case Container(name, item) => Some((name + "/[i]", item))
         case Plain(_) => None)
    case FromType(j) =>
      if j < |reg.types| && (j, tid) in reg.childOf then Some(("$" + reg.types[j].name, j)) else None
    case FromPair(k) =>
      if k >= |aggregates| then None
      else if aggregates[k].0 == tid then Some(("$" + reg.types[aggregates[k].1].name, aggregates[k].1))
      else if aggregates[k].1 == tid then Some(("$" + reg.types[aggregates[k].0].name, aggregates[k].0))
      else None
  }

  lemma WayInRange(reg: Registry, aggregates: seq<(nat, nat)>, tid: nat, o: Origin)
    requires Registered(reg, aggregates) && tid < |reg.types| && Way(reg, aggregates, tid, o).Some?
    ensures Way(reg, aggregates, tid, o).value.1 < |reg.types|
  {
  }

  // The edges of a type and where they come from

  /** The origins of the first n attributes that give an edge. */
  function AttributeOrigins(reg: Registry, attributes: seq<Attribute>, n: nat): seq<Origin>
    requires n <= |attributes|
  {
    if n == 0 then []
    else
      AttributeOrigins(reg, attributes, n - 1)
      + if AttributeEdge(reg, attributes[n - 1]) == [] then [] else [FromAttribute(n - 1)]
  }

  function TypeOrigins(reg: Registry, tid: nat, n: nat): seq<Origin> {
    if n == 0 then []
    else TypeOrigins(reg, tid, n - 1) + if (n - 1, tid) in reg.childOf then [FromType(n - 1)] else []
  }

  function PairOrigins(aggregates: seq<(nat, nat)>, tid: nat, n: nat): seq<Origin>
    requires n <= |aggregates|
  {
    if n == 0 then []
    else
      PairOrigins(aggregates, tid, n - 1)
      + if aggregates[n - 1].0 == tid || aggregates[n - 1].1 == tid then [FromPair(n - 1)] else []
  }

  function Origins(reg: Registry, aggregates: seq<(nat, nat)>, tid: nat): seq<Origin>
    requires Registered(reg, aggregates) && tid < |reg.types|
  {
    AttributeOrigins(reg, reg.types[tid].attributes, |reg.types[tid].attributes|)
    + TypeOrigins(reg, tid, |reg.types|)
    + PairOrigins(aggregates, tid, |aggregates|)
  }

  /** The origins, one for one, give the edges. */
  ghost predicate Give(reg: Registry, aggregates: seq<(nat, nat)>, tid: nat, origins: seq<Origin>, edges: seq<Edge>)
    requires Registered(reg, aggregates) && tid < |reg.types|
  {
    && |origins| == |edges|
    && forall k :: 0 <= k < |edges| ==> Way(reg, aggregates, tid, origins[k]) == Some((edges[k].item, edges[k].target))
  }

  lemma GiveConcat(reg: Registry, aggregates: seq<(nat, nat)>, tid: nat, o: seq<Origin>, e: seq<Edge>, p: seq<Origin>,
                   f: seq<Edge>)
    requires Registered(reg, aggregates) && tid < |reg.types|
    requires Give(reg, aggregates, tid, o, e) && Give(reg, aggregates, tid, p, f)
    ensures Give(reg, aggregates, tid, o + p, e + f)
  {
  }

  lemma AttributeGives(reg: Registry, aggregates: seq<(nat, nat)>, tid: nat, i: nat)
    requires Registered(reg, aggregates) && tid < |reg.types| && i < |reg.types[tid].attributes|
    ensures var edge := AttributeEdge(reg, reg.types[tid].attributes[i]);
            match Way(reg, aggregates, tid, FromAttribute(i))
            case None => edge == []
            case Some((item, target)) => edge == [Edge(item, target)]
  {
  }

  lemma {:induction false} AttributesGive(reg: Registry, aggregates: seq<(nat, nat)>, tid: nat, n: nat)
    requires Registered(reg, aggregates) && tid < |reg.types| && n <= |reg.types[tid].attributes|
    ensures Give(reg, aggregates, tid, AttributeOrigins(reg, reg.types[tid].attributes, n),
                 AttributeEdges(reg, reg.types[tid].attributes, n))
  {
    if n > 0 {
      var attributes := reg.types[tid].attributes;
      AttributesGive(reg, aggregates, tid, n - 1);
      AttributeGives(reg, aggregates, tid, n - 1);
      var last := if AttributeEdge(reg, attributes[n - 1]) == [] then [] else [FromAttribute(n - 1)];
      GiveConcat(reg, aggregates, tid, AttributeOrigins(reg, attributes, n - 1),
                 AttributeEdges(reg, attributes, n - 1), last, AttributeEdge(reg, attributes[n - 1]));
    }
  }

  lemma {:induction false} AttributesAre(reg: Registry, aggregates: seq<(nat, nat)>, tid: nat, n: nat)
    requires Registered(reg, aggregates) && tid < |reg.types| && n <= |reg.types[tid].attributes|
    ensures var origins := AttributeOrigins(reg, reg.types[tid].attributes, n);
            && Distinct(origins)
            && forall o :: o in origins <==> o.FromAttribute? && o.i < n && Way(reg, aggregates, tid, o).Some?
  {
    if n > 0 {
      AttributesAre(reg, aggregates, tid, n - 1);
      AttributeGives(reg, aggregates, tid, n - 1);
      var before := AttributeOrigins(reg, reg.types[tid].attributes, n - 1);
      forall o
        ensures o in before + [FromAttribute(n - 1)] <==> o in before || o == FromAttribute(n - 1)
      {
      }
    }
  }

  lemma {:induction false} TypesGive(reg: Registry, aggregates: seq<(nat, nat)>, tid: nat, n: nat)
    requires Registered(reg, aggregates) && tid < |reg.types| && n <= |reg.types|
    ensures Give(reg, aggregates, tid, TypeOrigins(reg, tid, n), ChildEdges(reg, tid, n))
    ensures Distinct(TypeOrigins(reg, tid, n))
    ensures forall o :: o in TypeOrigins(reg, tid, n) <==>
              o.FromType? && o.j < n && Way(reg, aggregates, tid, o).Some?
  {
    if n > 0 {
      TypesGive(reg, aggregates, tid, n - 1);
    }
  }

  lemma {:induction false} PairsGive(reg: Registry, aggregates: seq<(nat, nat)>, tid: nat, n: nat)
    requires Registered(reg, aggregates) && tid < |reg.types| && n <= |aggregates|
    ensures Give(reg, aggregates, tid, PairOrigins(aggregates, tid, n), AggregateEdges(reg, aggregates, tid, n))
    ensures Distinct(PairOrigins(aggregates, tid, n))
    ensures forall o :: o in PairOrigins(aggregates, tid, n) <==>
              o.FromPair? && o.k < n && Way(reg, aggregates, tid, o).Some?
  {
    if n > 0 {
      PairsGive(reg, aggregates, tid, n - 1);
    }
  }

  /** A type has exactly one edge for every origin that gives it one, with the item and the target of that origin. */
  lemma EdgesAreWays(reg: Registry, aggregates: seq<(nat, nat)>, tid: nat)
    requires Registered(reg, aggregates) && tid < |reg.types|
    ensures Give(reg, aggregates, tid, Origins(reg, aggregates, tid), Edges(reg, aggregates, tid))
    ensures Distinct(Origins(reg, aggregates, tid))
    ensures forall o :: o in Origins(reg, aggregates, tid) <==> Way(reg, aggregates, tid, o).Some?
  {
    var n := |reg.types[tid].attributes|;
    var a, t := AttributeOrigins(reg, reg.types[tid].attributes, n), TypeOrigins(reg, tid, |reg.types|);
    var p := PairOrigins(aggregates, tid, |aggregates|);
    var e, f := AttributeEdges(reg, reg.types[tid].attributes, n), ChildEdges(reg, tid, |reg.types|);
    AttributesGive(reg, aggregates, tid, n);
    AttributesAre(reg, aggregates, tid, n);
    TypesGive(reg, aggregates, tid, |reg.types|);
    PairsGive(reg, aggregates, tid, |aggregates|);
    GiveConcat(reg, aggregates, tid, a, e, t, f);
    GiveConcat(reg, aggregates, tid, a + t, e + f, p, AggregateEdges(reg, aggregates, tid, |aggregates|));
    KindsApart(a, t, p);
  }

  lemma KindsApart(a: seq<Origin>, t: seq<Origin>, p: seq<Origin>)
    requires Distinct(a) && Distinct(t) && Distinct(p)
    requires forall o :: o in a ==> o.FromAttribute?
    requires forall o :: o in t ==> o.FromType?
    requires forall o :: o in p ==> o.FromPair?
    ensures Distinct(a + t + p)
  {
    forall j, k | 0 <= j < |a| && 0 <= k < |t|
      ensures a[j] != t[k]
    {
      assert a[j] in a && t[k] in t;
    }
    DistinctConcat(a, t);
    forall j, k | 0 <= j < |a + t| && 0 <= k < |p|
      ensures (a + t)[j] != p[k]
    {
      assert (a + t)[j] in a + t && p[k] in p;
    }
    DistinctConcat(a + t, p);
  }

  // Walks over origins

  /** A walk from tid: every origin gives an edge of the type reached. */
  predicate OriginWalk(reg: Registry, aggregates: seq<(nat, nat)>, tid: nat, w: seq<Origin>)
    requires Registered(reg, aggregates) && tid < |reg.types|
    decreases |w|
  {
    w == []
    || match Way(reg, aggregates, tid, w[0])
       case None => false
       case Some((_, target)) => WayInRange(reg, aggregates, tid, w[0]); OriginWalk(reg, aggregates, target, w[1..])
  }

  /** The types on the way, tid included. */
  function Passed(reg: Registry, aggregates: seq<(nat, nat)>, tid: nat, w: seq<Origin>): seq<nat>
    requires Registered(reg, aggregates) && tid < |reg.types| && OriginWalk(reg, aggregates, tid, w)
    decreases |w|
  {
    if w == [] then [tid]
    else
      WayInRange(reg, aggregates, tid, w[0]);
      [tid] + Passed(reg, aggregates, Way(reg, aggregates, tid, w[0]).value.1, w[1..])
  }

  /** The path: a slash in front of every item. */
  function PathOf(reg: Registry, aggregates: seq<(nat, nat)>, tid: nat, w: seq<Origin>): string
    requires Registered(reg, aggregates) && tid < |reg.types| && OriginWalk(reg, aggregates, tid, w)
    decreases |w|
  {
    if w == [] then ""
    else
      WayInRange(reg, aggregates, tid, w[0]);
      var (item, target) := Way(reg, aggregates, tid, w[0]).value;
      "/" + item + PathOf(reg, aggregates, target, w[1..])
  }

  /** The walk with each edge named by its origin. */
  function Named(reg: Registry, aggregates: seq<(nat, nat)>, tid: nat, w: seq<nat>): (n: seq<Origin>)
    requires Registered(reg, aggregates) && tid < |reg.types| && LabelledWalk(reg, aggregates, tid, w)
    ensures |n| == |w|
    decreases |w|
  {
    if w == [] then []
    else
      EdgesAreWays(reg, aggregates, tid);
      EdgesInRange(reg, aggregates, tid);
      [Origins(reg, aggregates, tid)[w[0]]] + Named(reg, aggregates, Edges(reg, aggregates, tid)[w[0]].target, w[1..])
  }

  lemma {:induction false} NamedWalk(reg: Registry, aggregates: seq<(nat, nat)>, tid: nat, w: seq<nat>)
    requires Registered(reg, aggregates) && tid < |reg.types| && LabelledWalk(reg, aggregates, tid, w)
    ensures OriginWalk(reg, aggregates, tid, Named(reg, aggregates, tid, w))
    ensures Passed(reg, aggregates, tid, Named(reg, aggregates, tid, w)) == Visits(reg, aggregates, tid, w)
    decreases |w|
  {
    if w != [] {
      EdgesAreWays(reg, aggregates, tid);
      EdgesInRange(reg, aggregates, tid);
      var target := Edges(reg, aggregates, tid)[w[0]].target;
      NamedWalk(reg, aggregates, target, w[1..]);
      assert Named(reg, aggregates, tid, w)[1..] == Named(reg, aggregates, target, w[1..]);
    }
  }

  lemma {:induction false} NamedOnce(reg: Registry, aggregates: seq<(nat, nat)>, tid: nat, w: seq<nat>, v: seq<nat>)
    requires Registered(reg, aggregates) && tid < |reg.types|
    requires LabelledWalk(reg, aggregates, tid, w) && LabelledWalk(reg, aggregates, tid, v)
    requires Named(reg, aggregates, tid, w) == Named(reg, aggregates, tid, v)
    ensures w == v
    decreases |w|
  {
    if w != [] {
      EdgesAreWays(reg, aggregates, tid);
      EdgesInRange(reg, aggregates, tid);
      var origins := Origins(reg, aggregates, tid);
      assert Named(reg, aggregates, tid, w)[0] == origins[w[0]] && Named(reg, aggregates, tid, v)[0] == origins[v[0]];
      var target := Edges(reg, aggregates, tid)[w[0]].target;
      assert Named(reg, aggregates, tid, w)[1..] == Named(reg, aggregates, target, w[1..]);
      assert Named(reg, aggregates, tid, v)[1..] == Named(reg, aggregates, target, v[1..]);
      NamedOnce(reg, aggregates, target, w[1..], v[1..]);
      assert w == [w[0]] + w[1..] && v == [v[0]] + v[1..];
    }
  }

  lemma OriginIndex(reg: Registry, aggregates: seq<(nat, nat)>, tid: nat, o: Origin) returns (k: nat)
    requires Registered(reg, aggregates) && tid < |reg.types| && Way(reg, aggregates, tid, o).Some?
    ensures k < |Edges(reg, aggregates, tid)| == |Origins(reg, aggregates, tid)|
    ensures Origins(reg, aggregates, tid)[k] == o
    ensures Edges(reg, aggregates, tid)[k].target == Way(reg, aggregates, tid, o).value.1 < |reg.types|
  {
    EdgesAreWays(reg, aggregates, tid);
    WayInRange(reg, aggregates, tid, o);
    var origins := Origins(reg, aggregates, tid);
    k :| 0 <= k < |origins| && origins[k] == o;
  }

  lemma NamedFirst(reg: Registry, aggregates: seq<(nat, nat)>, tid: nat, k: nat, target: nat, rest: seq<nat>)
    requires Registered(reg, aggregates) && tid < |reg.types| && k < |Edges(reg, aggregates, tid)|
    requires target == Edges(reg, aggregates, tid)[k].target < |reg.types|
    requires k < |Origins(reg, aggregates, tid)| && LabelledWalk(reg, aggregates, target, rest)
    ensures LabelledWalk(reg, aggregates, tid, [k] + rest)
    ensures Named(reg, aggregates, tid, [k] + rest)
            == [Origins(reg, aggregates, tid)[k]] + Named(reg, aggregates, target, rest)
  {
    assert ([k] + rest)[1..] == rest;
  }

  /** Every walk over origins names a walk over edges. */
  lemma {:induction false} Unnamed(reg: Registry, aggregates: seq<(nat, nat)>, tid: nat, n: seq<Origin>)
    returns (w: seq<nat>)
    requires Registered(reg, aggregates) && tid < |reg.types| && OriginWalk(reg, aggregates, tid, n)
    ensures LabelledWalk(reg, aggregates, tid, w) && Named(reg, aggregates, tid, w) == n
    decreases |n|
  {
    if n == [] {
      w := [];
    } else {
      var k := OriginIndex(reg, aggregates, tid, n[0]);
      var target := Way(reg, aggregates, tid, n[0]).value.1;
      var rest := Unnamed(reg, aggregates, target, n[1..]);
      NamedFirst(reg, aggregates, tid, k, target, rest);
      w := [k] + rest;
      assert n == [n[0]] + n[1..];
    }
  }

  /** The record of a walk is the last type passed and the path. */
  lemma {:induction false} NamedRecord(reg: Registry, aggregates: seq<(nat, nat)>, tid: nat, w: seq<nat>)
    requires Registered(reg, aggregates) && tid < |reg.types| && LabelledWalk(reg, aggregates, tid, w)
    requires OriginWalk(reg, aggregates, tid, Named(reg, aggregates, tid, w))
    ensures var n := Named(reg, aggregates, tid, w); var passed := Passed(reg, aggregates, tid, n);
            && |passed| > 0 && EndOf(reg, aggregates, tid, w) == passed[|passed| - 1]
            && PathString(Items(reg, aggregates, tid, w)) == PathOf(reg, aggregates, tid, n)
    decreases |w|
  {
    if w != [] {
      EdgesAreWays(reg, aggregates, tid);
      EdgesInRange(reg, aggregates, tid);
      var edge := Edges(reg, aggregates, tid)[w[0]];
      assert Named(reg, aggregates, tid, w)[1..] == Named(reg, aggregates, edge.target, w[1..]);
      NamedRecord(reg, aggregates, edge.target, w[1..]);
      PathBehind(edge.item, Items(reg, aggregates, edge.target, w[1..]));
    }
  }

  lemma {:induction false} PathBehind(item: string, items: seq<string>)
    ensures PathString([item] + items) == "/" + item + PathString(items)
    decreases |items|
  {
    var n := |items| - 1;
    if items == [] {
      assert ([item] + items)[..0] == [];
    } else {
      PathBehind(item, items[..n]);
      assert ([item] + items)[..n + 1] == [item] + items[..n];
      ConcatAssociative("/" + item, PathString(items[..n]), "/");
      ConcatAssociative("/" + item, PathString(items[..n]) + "/", items[n]);
    }
  }

  /** A walk over origins from root that passes no type twice. */
  ghost predicate Simple(reg: Registry, aggregates: seq<(nat, nat)>, root: nat, w: seq<Origin>)
    requires Registered(reg, aggregates) && root < |reg.types|
  {
    OriginWalk(reg, aggregates, root, w) && Distinct(Passed(reg, aggregates, root, w))
  }

  /** The records are those of the walks, one for one: the last type passed, and the path. */
  ghost predicate Records(reg: Registry, aggregates: seq<(nat, nat)>, root: nat, walks: seq<seq<Origin>>,
                          records: seq<(nat, string)>)
    requires Registered(reg, aggregates) && root < |reg.types|
  {
    && |records| == |walks|
    && forall i :: 0 <= i < |walks| ==>
         && OriginWalk(reg, aggregates, root, walks[i])
         && var passed := Passed(reg, aggregates, root, walks[i]);
            |passed| > 0 && records[i] == (passed[|passed| - 1], PathOf(reg, aggregates, root, walks[i]))
  }

  /** The walks with their edges named by origins. */
  ghost function AllNamed(reg: Registry, aggregates: seq<(nat, nat)>, root: nat, walks: seq<seq<nat>>)
    : (named: seq<seq<Origin>>)
    requires Registered(reg, aggregates) && root < |reg.types|
    requires forall i :: 0 <= i < |walks| ==> LabelledWalk(reg, aggregates, root, walks[i])
    ensures |named| == |walks|
    ensures forall i :: 0 <= i < |walks| ==> named[i] == Named(reg, aggregates, root, walks[i])
  {
    if walks == [] then []
    else
      AllNamed(reg, aggregates, root, walks[..|walks| - 1]) + [Named(reg, aggregates, root, walks[|walks| - 1])]
  }

  /** The gathering from root makes one record for each walk, over the ways that the registry gives, that passes no type
      twice, and no other record. */
  lemma GatherRecordsWays(reg: Registry, aggregates: seq<(nat, nat)>, root: nat) returns (walks: seq<seq<Origin>>)
    requires Registered(reg, aggregates) && root < |reg.types|
    ensures Distinct(walks) && forall w :: w in walks <==> Simple(reg, aggregates, root, w)
    ensures Records(reg, aggregates, root, walks, Gather(reg, aggregates, root, [], []))
  {
    var indexed := GatherRecordsSimpleWalks(reg, aggregates, root);
    forall i | 0 <= i < |indexed|
      ensures LabelledWalk(reg, aggregates, root, indexed[i])
    {
      assert indexed[i] in indexed;
    }
    walks := AllNamed(reg, aggregates, root, indexed);
    forall i | 0 <= i < |walks|
      ensures Simple(reg, aggregates, root, walks[i])
    {
      assert indexed[i] in indexed;
      NamedWalk(reg, aggregates, root, indexed[i]);
    }
    forall i, j | 0 <= i < j < |walks|
      ensures walks[i] != walks[j]
    {
      if walks[i] == walks[j] {
        NamedOnce(reg, aggregates, root, indexed[i], indexed[j]);
      }
    }
    forall w | Simple(reg, aggregates, root, w)
      ensures w in walks
    {
      var v := Unnamed(reg, aggregates, root, w);
      NamedWalk(reg, aggregates, root, v);
      var i :| 0 <= i < |indexed| && indexed[i] == v;
      assert walks[i] == w;
    }
    RecordsNamed(reg, aggregates, root, indexed, walks);
  }

  lemma RecordsNamed(reg: Registry, aggregates: seq<(nat, nat)>, root: nat, indexed: seq<seq<nat>>,
                     walks: seq<seq<Origin>>)
    requires Registered(reg, aggregates) && root < |reg.types| && |walks| == |indexed|
    requires forall i :: 0 <= i < |indexed| ==>
               LabelledWalk(reg, aggregates, root, indexed[i]) && walks[i] == Named(reg, aggregates, root, indexed[i])
    requires |Gather(reg, aggregates, root, [], [])| == |indexed|
    requires forall i :: 0 <= i < |indexed| ==>
               Gather(reg, aggregates, root, [], [])[i]
               == (EndOf(reg, aggregates, root, indexed[i]), PathString(Items(reg, aggregates, root, indexed[i])))
    ensures Records(reg, aggregates, root, walks, Gather(reg, aggregates, root, [], []))
  {
    forall i | 0 <= i < |walks|
      ensures OriginWalk(reg, aggregates, root, walks[i])
      ensures var passed := Passed(reg, aggregates, root, walks[i]);
              |passed| > 0
              && Gather(reg, aggregates, root, [], [])[i]
                 == (passed[|passed| - 1], PathOf(reg, aggregates, root, walks[i]))
    {
      NamedWalk(reg, aggregates, root, indexed[i]);
      NamedRecord(reg, aggregates, root, indexed[i]);
    }
  }

  /** Every way out of root to another type is recorded, with the path of its item. */
  lemma WayIsRecorded(reg: Registry, aggregates: seq<(nat, nat)>, root: nat, o: Origin)
    requires Registered(reg, aggregates) && root < |reg.types|
    requires Way(reg, aggregates, root, o).Some? && Way(reg, aggregates, root, o).value.1 != root
    ensures var (item, target) := Way(reg, aggregates, root, o).value;
            (target, "/" + item) in Gather(reg, aggregates, root, [], [])
  {
    var walks := GatherRecordsWays(reg, aggregates, root);
    var (item, target) := Way(reg, aggregates, root, o).value;
    WayInRange(reg, aggregates, root, o);
    assert [o][1..] == [];
    assert Passed(reg, aggregates, root, [o]) == [root, target];
    assert PathOf(reg, aggregates, root, [o]) == "/" + item + "" == "/" + item;
    assert Simple(reg, aggregates, root, [o]);
    assert [o] in walks;
    var i :| 0 <= i < |walks| && walks[i] == [o];
    assert Gather(reg, aggregates, root, [], [])[i] in Gather(reg, aggregates, root, [], []);
  }

  /** What the registry says of root is recorded, apart from what leads back to root: its pointer attributes,
      unless they point to Object, its containers, the types that are its children, and the other ends of its pairs. */
  lemma RegistryIsRecorded(reg: Registry, aggregates: seq<(nat, nat)>, root: nat)
    requires Registered(reg, aggregates) && root < |reg.types|
    ensures forall i :: 0 <= i < |reg.types[root].attributes| ==>
              match reg.types[root].attributes[i]
              case Pointer(name, pointee) =>
                pointee != root && pointee != reg.objectType ==>
                  (pointee, "/" + name) in Gather(reg, aggregates, root, [], [])
              case Container(name, item) =>
                item != root ==> (item, "/" + (name + "/[i]")) in Gather(reg, aggregates, root, [], [])
              case Plain(_) => true
    ensures forall j: nat :: j < |reg.types| && j != root && (j, root) in reg.childOf ==>
              (j, "/" + ("$" + reg.types[j].name)) in Gather(reg, aggregates, root, [], [])
    ensures forall k :: 0 <= k < |aggregates| && aggregates[k].0 != aggregates[k].1 ==>
              && (aggregates[k].0 == root ==>
                    (aggregates[k].1, "/" + ("$" + reg.types[aggregates[k].1].name))
                    in Gather(reg, aggregates, root, [], []))
              && (aggregates[k].1 == root ==>
                    (aggregates[k].0, "/" + ("$" + reg.types[aggregates[k].0].name))
                    in Gather(reg, aggregates, root, [], []))
  {
    forall o | Way(reg, aggregates, root, o).Some? && Way(reg, aggregates, root, o).value.1 != root
      ensures var (item, target) := Way(reg, aggregates, root, o).value;
              (target, "/" + item) in Gather(reg, aggregates, root, [], [])
    {
      WayIsRecorded(reg, aggregates, root, o);
    }
    forall i | 0 <= i < |reg.types[root].attributes|
      ensures match reg.types[root].attributes[i]
              case Pointer(name, pointee) =>
                pointee != root && pointee != reg.objectType ==>
                  (pointee, "/" + name) in Gather(reg, aggregates, root, [], [])
              case Container(name, item) =>
                item != root ==> (item, "/" + (name + "/[i]")) in Gather(reg, aggregates, root, [], [])
              case Plain(_) => true
    {
      var way := Way(reg, aggregates, root, FromAttribute(i));
    }
    forall j: nat | j < |reg.types| && j != root && (j, root) in reg.childOf
      ensures (j, "/" + ("$" + reg.types[j].name)) in Gather(reg, aggregates, root, [], [])
    {
      var way := Way(reg, aggregates, root, FromType(j));
    }
    forall k | 0 <= k < |aggregates| && aggregates[k].0 != aggregates[k].1
      ensures aggregates[k].0 == root ==>
                (aggregates[k].1, "/" + ("$" + reg.types[aggregates[k].1].name))
                in Gather(reg, aggregates, root, [], [])
      ensures aggregates[k].1 == root ==>
                (aggregates[k].0, "/" + ("$" + reg.types[aggregates[k].0].name))
                in Gather(reg, aggregates, root, [], [])
    {
      var way := Way(reg, aggregates, root, FromPair(k));
    }
  }

  /** One gathering of the program: the output gains the records of all walks over the ways of the registry that pass no
      type twice. What is then made unique is a copy of the output. */
  method GatherFrom(info: StaticInformation, root: nat) returns (ghost walks: seq<seq<Origin>>)
    requires Registered(info.reg, info.m_aggregates) && root < |info.reg.types|
    requires info.m_currentPath == [] && info.m_alreadyProcessed == []
    modifies info`m_output, info`m_currentPath, info`m_alreadyProcessed
    ensures info.m_currentPath == [] && info.m_alreadyProcessed == []
    ensures Distinct(walks) && forall w :: w in walks <==> Simple(info.reg, info.m_aggregates, root, w)
    ensures old(info.m_output) <= info.m_output
    ensures Records(info.reg, info.m_aggregates, root, walks, info.m_output[|old(info.m_output)|..])
  {
    info.DoGather(root);
    walks := GatherRecordsWays(info.reg, info.m_aggregates, root);
  }
}
