/** The configuration path walk of utils/print-introspected-doxygen.cc: all simple labelled walks over attribute,
    child and aggregation edges between registered types. */
module ConfigPaths {
  import opened Digraph
  import opened Seqs

  /** An attribute of a type, by what its checker accepts: a pointer, a container of objects, or something else. */
  datatype Attribute =
    | Pointer(name: string, pointee: nat)
    | Container(name: string, item: nat)
    | Plain(name: string)

  datatype TypeInfo = TypeInfo(name: string, attributes: seq<Attribute>)

  /** The registered types by number, the child relation, and the number of the type Object itself. */
  datatype Registry = Registry(types: seq<TypeInfo>, childOf: set<(nat, nat)>, objectType: nat)

  datatype Edge = Edge(item: string, target: nat)

  predicate Registered(reg: Registry, aggregates: seq<(nat, nat)>) {
    && (forall t, k :: 0 <= t < |reg.types| && 0 <= k < |reg.types[t].attributes| ==>
          match reg.types[t].attributes[k]
          case Pointer(_, pointee) => pointee < |reg.types|
          case Container(_, item) => item < |reg.types|
          case Plain(_) => true)
    && (forall k :: 0 <= k < |aggregates| ==> aggregates[k].0 < |reg.types| && aggregates[k].1 < |reg.types|)
  }

  function AttributeEdge(reg: Registry, a: Attribute): seq<Edge> {
    match a
    case Pointer(name, pointee) => if pointee == reg.objectType then [] else [Edge(name, pointee)]
    case Container(name, item) => [Edge(name + "/[i]", item)]
    case Plain(_) => []
  }

  /** Edges for the first n attributes. */
  function AttributeEdges(reg: Registry, attributes: seq<Attribute>, n: nat): seq<Edge>
    requires n <= |attributes|
  {
    if n == 0 then [] else AttributeEdges(reg, attributes, n - 1) + AttributeEdge(reg, attributes[n - 1])
  }

  /** Edges to the children among the first n registered types. */
  function ChildEdges(reg: Registry, tid: nat, n: nat): seq<Edge>
    requires n <= |reg.types|
  {
    if n == 0 then []
    else
      ChildEdges(reg, tid, n - 1)
      + if (n - 1, tid) in reg.childOf then [Edge("$" + reg.types[n - 1].name, n - 1)] else []
  }

  function Other(pair: (nat, nat), tid: nat): nat {
    if pair.1 == tid then pair.0 else pair.1
  }

  /** Edges for the first n aggregations. */
  function AggregateEdges(reg: Registry, aggregates: seq<(nat, nat)>, tid: nat, n: nat): seq<Edge>
    requires n <= |aggregates| && Registered(reg, aggregates)
  {
    if n == 0 then []
    else
      var pair := aggregates[n - 1];
      AggregateEdges(reg, aggregates, tid, n - 1)
      + if pair.0 == tid || pair.1 == tid then [Edge("$" + reg.types[Other(pair, tid)].name, Other(pair, tid))] else []
  }

  /** All edges out of a type, in the order in which the walk takes them. */
  function Edges(reg: Registry, aggregates: seq<(nat, nat)>, tid: nat): seq<Edge>
    requires Registered(reg, aggregates) && tid < |reg.types|
  {
    AttributeEdges(reg, reg.types[tid].attributes, |reg.types[tid].attributes|)
    + ChildEdges(reg, tid, |reg.types|)
    + AggregateEdges(reg, aggregates, tid, |aggregates|)
  }

  predicate InRange(reg: Registry, edges: seq<Edge>) {
    forall k :: 0 <= k < |edges| ==> edges[k].target < |reg.types|
  }

  lemma {:induction false} AttributeEdgesInRange(reg: Registry, aggregates: seq<(nat, nat)>, tid: nat, n: nat)
    requires Registered(reg, aggregates) && tid < |reg.types| && n <= |reg.types[tid].attributes|
    ensures InRange(reg, AttributeEdges(reg, reg.types[tid].attributes, n))
  {
    if n > 0 {
      AttributeEdgesInRange(reg, aggregates, tid, n - 1);
      AttributeTarget(reg, aggregates, tid, n - 1);
    }
  }

  lemma AttributeTarget(reg: Registry, aggregates: seq<(nat, nat)>, tid: nat, k: nat)
    requires Registered(reg, aggregates) && tid < |reg.types| && k < |reg.types[tid].attributes|
    ensures match reg.types[tid].attributes[k]
            case Pointer(_, pointee) => pointee < |reg.types|
            case Container(_, item) => item < |reg.types|
            case Plain(_) => true
  {
  }

  lemma {:induction false} ChildEdgesInRange(reg: Registry, tid: nat, n: nat)
    requires n <= |reg.types|
    ensures InRange(reg, ChildEdges(reg, tid, n))
  {
    if n > 0 {
      ChildEdgesInRange(reg, tid, n - 1);
    }
  }

  lemma {:induction false} AggregateEdgesInRange(reg: Registry, aggregates: seq<(nat, nat)>, tid: nat, n: nat)
    requires n <= |aggregates| && Registered(reg, aggregates)
    ensures InRange(reg, AggregateEdges(reg, aggregates, tid, n))
  {
    if n > 0 {
      AggregateEdgesInRange(reg, aggregates, tid, n - 1);
    }
  }

  lemma EdgesInRange(reg: Registry, aggregates: seq<(nat, nat)>, tid: nat)
    requires Registered(reg, aggregates) && tid < |reg.types|
    ensures InRange(reg, Edges(reg, aggregates, tid))
  {
    AttributeEdgesInRange(reg, aggregates, tid, |reg.types[tid].attributes|);
    ChildEdgesInRange(reg, tid, |reg.types|);
    AggregateEdgesInRange(reg, aggregates, tid, |aggregates|);
  }

  /** A configuration path: every item behind a slash. */
  function PathString(items: seq<string>): string {
    if items == [] then "" else PathString(items[..|items| - 1]) + "/" + items[|items| - 1]
  }

  /** The types on the stack: registered, and none twice. */
  ghost predicate Stack(reg: Registry, done: seq<nat>) {
    Distinct(done) && forall k :: 0 <= k < |done| ==> done[k] < |reg.types|
  }

  /** The records that the walk from tid adds, given the path so far and the types on the stack. */
  ghost function Gather(reg: Registry, aggregates: seq<(nat, nat)>, tid: nat, path: seq<string>, done: seq<nat>)
      : seq<(nat, string)>
    requires Registered(reg, aggregates) && tid < |reg.types| && Stack(reg, done)
    decreases |reg.types| - |done|, 1, 0
  {
    if tid in done then []
    else
      DistinctBelow(done + [tid], |reg.types|);
      EdgesInRange(reg, aggregates, tid);
      [(tid, PathString(path))] + GatherAll(reg, aggregates, Edges(reg, aggregates, tid), path, done + [tid])
  }

  /** The same over a list of edges. */
  ghost function GatherAll(reg: Registry, aggregates: seq<(nat, nat)>, edges: seq<Edge>, path: seq<string>,
                           done: seq<nat>): seq<(nat, string)>
    requires Registered(reg, aggregates) && InRange(reg, edges) && Stack(reg, done)
    decreases |reg.types| - |done|, 2, |edges|
  {
    DistinctBelow(done, |reg.types|);
    if edges == [] then []
    else
      var n := |edges| - 1;
      GatherAll(reg, aggregates, edges[..n], path, done)
      + Gather(reg, aggregates, edges[n].target, path + [edges[n].item], done)
  }

  lemma {:induction false} GatherAllConcat(reg: Registry, aggregates: seq<(nat, nat)>, e: seq<Edge>, f: seq<Edge>,
                                           path: seq<string>, done: seq<nat>)
    requires Registered(reg, aggregates) && InRange(reg, e) && InRange(reg, f) && Stack(reg, done)
    ensures InRange(reg, e + f)
    ensures GatherAll(reg, aggregates, e + f, path, done)
            == GatherAll(reg, aggregates, e, path, done) + GatherAll(reg, aggregates, f, path, done)
    decreases |f|
  {
    if f == [] {
      assert e + f == e;
    } else {
      var n := |f| - 1;
      GatherAllConcat(reg, aggregates, e, f[..n], path, done);
      GatherSnoc(reg, aggregates, e + f[..n], f[n], path, done);
      GatherSnoc(reg, aggregates, f[..n], f[n], path, done);
      PrefixStep(f, n);
      PrefixStep(f, n + 1);
      ConcatAssociative(e, f[..n], [f[n]]);
      ConcatAssociative(GatherAll(reg, aggregates, e, path, done), GatherAll(reg, aggregates, f[..n], path, done),
                        Gather(reg, aggregates, f[n].target, path + [f[n].item], done));
    }
  }

  lemma GatherSnoc(reg: Registry, aggregates: seq<(nat, nat)>, edges: seq<Edge>, edge: Edge, path: seq<string>,
                   done: seq<nat>)
    requires Registered(reg, aggregates) && InRange(reg, edges) && edge.target < |reg.types| && Stack(reg, done)
    ensures InRange(reg, edges + [edge])
    ensures GatherAll(reg, aggregates, edges + [edge], path, done)
            == GatherAll(reg, aggregates, edges, path, done)
               + Gather(reg, aggregates, edge.target, path + [edge.item], done)
  {
    assert (edges + [edge])[..|edges|] == edges;
  }

  /** A walk goes over the attributes, then the children, then the aggregations. */
  lemma GatherParts(reg: Registry, aggregates: seq<(nat, nat)>, tid: nat, path: seq<string>, done: seq<nat>,
                    before: seq<(nat, string)>)
    requires Registered(reg, aggregates) && tid < |reg.types| && Stack(reg, done) && tid !in done
    requires Stack(reg, done + [tid])
    ensures var attributes := AttributeEdges(reg, reg.types[tid].attributes, |reg.types[tid].attributes|);
            var children := ChildEdges(reg, tid, |reg.types|);
            var others := AggregateEdges(reg, aggregates, tid, |aggregates|);
            && InRange(reg, attributes) && InRange(reg, children) && InRange(reg, others)
            && before + Gather(reg, aggregates, tid, path, done)
               == before + [(tid, PathString(path))] + GatherAll(reg, aggregates, attributes, path, done + [tid])
                  + GatherAll(reg, aggregates, children, path, done + [tid])
                  + GatherAll(reg, aggregates, others, path, done + [tid])
  {
    var attributes := AttributeEdges(reg, reg.types[tid].attributes, |reg.types[tid].attributes|);
    var children := ChildEdges(reg, tid, |reg.types|);
    var others := AggregateEdges(reg, aggregates, tid, |aggregates|);
    AttributeEdgesInRange(reg, aggregates, tid, |reg.types[tid].attributes|);
    ChildEdgesInRange(reg, tid, |reg.types|);
    AggregateEdgesInRange(reg, aggregates, tid, |aggregates|);
    GatherAllConcat(reg, aggregates, attributes, children, path, done + [tid]);
    GatherAllConcat(reg, aggregates, attributes + children, others, path, done + [tid]);
    FiveParts(before, [(tid, PathString(path))],
              GatherAll(reg, aggregates, attributes, path, done + [tid]),
              GatherAll(reg, aggregates, children, path, done + [tid]),
              GatherAll(reg, aggregates, others, path, done + [tid]));
  }

  lemma FiveParts<A>(a: seq<A>, b: seq<A>, c: seq<A>, d: seq<A>, e: seq<A>)
    ensures a + (b + (c + d + e)) == a + b + c + d + e
  {
  }

  class StaticInformation {
    var m_output: seq<(nat, string)>
    var m_currentPath: seq<string>
    var m_alreadyProcessed: seq<nat>
    var m_aggregates: seq<(nat, nat)>
    const reg: Registry

    constructor (reg: Registry)
      ensures m_output == [] && m_currentPath == [] && m_alreadyProcessed == [] && m_aggregates == [] && this.reg == reg
    {
      m_output, m_currentPath, m_alreadyProcessed, m_aggregates := [], [], [], [];
      this.reg := reg;
    }

    method GetCurrentPath() returns (path: string)
      ensures path == PathString(m_currentPath)
    {
      path := "";
      for i := 0 to |m_currentPath|
        invariant path == PathString(m_currentPath[..i])
      {
        path := path + "/" + m_currentPath[i];
        assert m_currentPath[..i + 1][..i] == m_currentPath[..i];
      }
      assert m_currentPath[..|m_currentPath|] == m_currentPath;
    }

    method RecordOutput(tid: nat)
      modifies `m_output
      ensures m_output == old(m_output) + [(tid, PathString(m_currentPath))]
    {
      var path := GetCurrentPath();
      m_output := m_output + [(tid, path)];
    }

    method HasAlreadyBeenProcessed(tid: nat) returns (has: bool)
      ensures has <==> tid in m_alreadyProcessed
    {
      for i := 0 to |m_alreadyProcessed|
        invariant tid !in m_alreadyProcessed[..i]
      {
        if m_alreadyProcessed[i] == tid {
          return true;
        }
        assert m_alreadyProcessed[..i + 1] == m_alreadyProcessed[..i] + [m_alreadyProcessed[i]];
      }
      assert m_alreadyProcessed[..|m_alreadyProcessed|] == m_alreadyProcessed;
      return false;
    }

    /** Walks on from the type at hand along one edge and comes back. */
    method Follow(tid: nat, edge: Edge)
      requires Registered(reg, m_aggregates) && tid < |reg.types| && edge.target < |reg.types|
      requires Stack(reg, m_alreadyProcessed) && tid !in m_alreadyProcessed
      modifies `m_output, `m_currentPath, `m_alreadyProcessed
      ensures m_currentPath == old(m_currentPath) && m_alreadyProcessed == old(m_alreadyProcessed)
      ensures Stack(reg, m_alreadyProcessed + [tid])
      ensures m_output == old(m_output)
                          + Gather(reg, m_aggregates, edge.target, m_currentPath + [edge.item],
                                   m_alreadyProcessed + [tid])
      decreases |reg.types| - |m_alreadyProcessed|, 0
    {
      DistinctBelow(m_alreadyProcessed + [tid], |reg.types|);
      m_currentPath := m_currentPath + [edge.item];
      m_alreadyProcessed := m_alreadyProcessed + [tid];
      DoGather(edge.target);
      m_alreadyProcessed := m_alreadyProcessed[..|m_alreadyProcessed| - 1];
      m_currentPath := m_currentPath[..|m_currentPath| - 1];
    }

    /** Walks on along one edge, after the walks along the given edges. */
    method FollowNext(tid: nat, edge: Edge, ghost edges: seq<Edge>, ghost before: seq<(nat, string)>)
      requires Registered(reg, m_aggregates) && tid < |reg.types| && edge.target < |reg.types|
      requires Stack(reg, m_alreadyProcessed) && tid !in m_alreadyProcessed && Stack(reg, m_alreadyProcessed + [tid])
      requires InRange(reg, edges)
      requires m_output == before + GatherAll(reg, m_aggregates, edges, m_currentPath, m_alreadyProcessed + [tid])
      modifies `m_output, `m_currentPath, `m_alreadyProcessed
      ensures m_currentPath == old(m_currentPath) && m_alreadyProcessed == old(m_alreadyProcessed)
      ensures InRange(reg, edges + [edge])
      ensures m_output == before
              + GatherAll(reg, m_aggregates, edges + [edge], m_currentPath, m_alreadyProcessed + [tid])
      decreases |reg.types| - |m_alreadyProcessed|, 1
    {
      ghost var done := m_alreadyProcessed + [tid];
      Follow(tid, edge);
      GatherSnoc(reg, m_aggregates, edges, edge, m_currentPath, done);
      ConcatAssociative(before, GatherAll(reg, m_aggregates, edges, m_currentPath, done),
                        Gather(reg, m_aggregates, edge.target, m_currentPath + [edge.item], done));
    }

    /** The edge of an attribute, if its checker is one for pointers, except pointers to Object, or for containers. */
    method PointsTo(a: Attribute) returns (edge: seq<Edge>)
      ensures edge == AttributeEdge(reg, a)
      ensures edge == [] || edge == [edge[0]]
    {
      match a {
        case Pointer(name, pointee) =>
          if pointee == reg.objectType {
            return [];
          }
          return [Edge(name, pointee)];
        case Container(name, item) => return [Edge(name + "/[i]", item)];
        case Plain(_) => return [];
      }
    }

    /** Everything along the edges of the first i attributes has been recorded after the given output. */
    ghost predicate AttributesDone(tid: nat, i: nat, before: seq<(nat, string)>, path: seq<string>, done: seq<nat>)
      reads this
      requires Registered(reg, m_aggregates) && tid < |reg.types| && i <= |reg.types[tid].attributes|
               && Stack(reg, done)
    {
      && m_currentPath == path
      && InRange(reg, AttributeEdges(reg, reg.types[tid].attributes, i))
      && m_output == before
         + GatherAll(reg, m_aggregates, AttributeEdges(reg, reg.types[tid].attributes, i), path, done)
    }

    /** Walks on along the edge of attribute i, if it has one. */
    method FollowAttribute(tid: nat, i: nat, ghost before: seq<(nat, string)>)
      requires Registered(reg, m_aggregates) && tid < |reg.types| && i < |reg.types[tid].attributes|
      requires Stack(reg, m_alreadyProcessed) && tid !in m_alreadyProcessed && Stack(reg, m_alreadyProcessed + [tid])
      requires AttributesDone(tid, i, before, m_currentPath, m_alreadyProcessed + [tid])
      modifies `m_output, `m_currentPath, `m_alreadyProcessed
      ensures m_alreadyProcessed == old(m_alreadyProcessed)
      ensures AttributesDone(tid, i + 1, before, old(m_currentPath), m_alreadyProcessed + [tid])
      decreases |reg.types| - |m_alreadyProcessed|, 2
    {
      ghost var edges := AttributeEdges(reg, reg.types[tid].attributes, i);
      AttributeTarget(reg, m_aggregates, tid, i);
      var next := PointsTo(reg.types[tid].attributes[i]);
      if next != [] {
        FollowNext(tid, next[0], edges, before);
      } else {
        assert edges + [] == edges;
      }
    }

    /** The loop over the attributes. */
    method GatherAttributes(tid: nat)
      requires Registered(reg, m_aggregates) && tid < |reg.types|
      requires Stack(reg, m_alreadyProcessed) && tid !in m_alreadyProcessed && Stack(reg, m_alreadyProcessed + [tid])
      modifies `m_output, `m_currentPath, `m_alreadyProcessed
      ensures m_alreadyProcessed == old(m_alreadyProcessed)
      ensures AttributesDone(tid, |reg.types[tid].attributes|, old(m_output), old(m_currentPath),
                             m_alreadyProcessed + [tid])
      decreases |reg.types| - |m_alreadyProcessed|, 3
    {
      for i := 0 to |reg.types[tid].attributes|
        invariant m_alreadyProcessed == old(m_alreadyProcessed)
        invariant AttributesDone(tid, i, old(m_output), old(m_currentPath), m_alreadyProcessed + [tid])
      {
        FollowAttribute(tid, i, old(m_output));
      }
    }

    /** The loop over the registered types that are children of tid. */
    method GatherChildren(tid: nat)
      requires Registered(reg, m_aggregates) && tid < |reg.types|
      requires Stack(reg, m_alreadyProcessed) && tid !in m_alreadyProcessed && Stack(reg, m_alreadyProcessed + [tid])
      modifies `m_output, `m_currentPath, `m_alreadyProcessed
      ensures m_currentPath == old(m_currentPath) && m_alreadyProcessed == old(m_alreadyProcessed)
      ensures var edges := ChildEdges(reg, tid, |reg.types|);
              && InRange(reg, edges)
              && m_output == old(m_output)
                 + GatherAll(reg, m_aggregates, edges, m_currentPath, m_alreadyProcessed + [tid])
      decreases |reg.types| - |m_alreadyProcessed|, 2
    {
      ghost var edges: seq<Edge> := [];
      for j := 0 to |reg.types|
        invariant m_currentPath == old(m_currentPath) && m_alreadyProcessed == old(m_alreadyProcessed)
        invariant edges == ChildEdges(reg, tid, j) && InRange(reg, edges)
        invariant m_output == old(m_output)
                  + GatherAll(reg, m_aggregates, edges, m_currentPath, m_alreadyProcessed + [tid])
      {
        if (j, tid) in reg.childOf {
          var edge := Edge("$" + reg.types[j].name, j);
          FollowNext(tid, edge, edges, old(m_output));
          edges := edges + [edge];
        }
      }
    }

    /** The loop over the aggregations with tid. */
    method GatherAggregates(tid: nat)
      requires Registered(reg, m_aggregates) && tid < |reg.types|
      requires Stack(reg, m_alreadyProcessed) && tid !in m_alreadyProcessed && Stack(reg, m_alreadyProcessed + [tid])
      modifies `m_output, `m_currentPath, `m_alreadyProcessed
      ensures m_currentPath == old(m_currentPath) && m_alreadyProcessed == old(m_alreadyProcessed)
      ensures var edges := AggregateEdges(reg, m_aggregates, tid, |m_aggregates|);
              && InRange(reg, edges)
              && m_output == old(m_output)
                 + GatherAll(reg, m_aggregates, edges, m_currentPath, m_alreadyProcessed + [tid])
      decreases |reg.types| - |m_alreadyProcessed|, 2
    {
      ghost var edges: seq<Edge> := [];
      for k := 0 to |m_aggregates|
        invariant m_currentPath == old(m_currentPath) && m_alreadyProcessed == old(m_alreadyProcessed)
        invariant edges == AggregateEdges(reg, m_aggregates, tid, k) && InRange(reg, edges)
        invariant m_output == old(m_output)
                  + GatherAll(reg, m_aggregates, edges, m_currentPath, m_alreadyProcessed + [tid])
      {
        var pair := m_aggregates[k];
        if pair.0 == tid || pair.1 == tid {
          var other := pair.1;
          if pair.1 == tid {
            other := pair.0;
          }
          var edge := Edge("$" + reg.types[other].name, other);
          FollowNext(tid, edge, edges, old(m_output));
          edges := edges + [edge];
        }
      }
    }

    /** Records every walk from tid that avoids the types on the stack. */
    method DoGather(tid: nat)
      requires Registered(reg, m_aggregates) && tid < |reg.types| && Stack(reg, m_alreadyProcessed)
      modifies `m_output, `m_currentPath, `m_alreadyProcessed
      ensures m_currentPath == old(m_currentPath) && m_alreadyProcessed == old(m_alreadyProcessed)
      ensures m_output == old(m_output) + Gather(reg, m_aggregates, tid, m_currentPath, m_alreadyProcessed)
      decreases |reg.types| - |m_alreadyProcessed|, 4
    {
      var processed := HasAlreadyBeenProcessed(tid);
      if processed {
        return;
      }
      RecordOutput(tid);
      assert Stack(reg, m_alreadyProcessed + [tid]);
      GatherAttributes(tid);
      GatherChildren(tid);
      GatherAggregates(tid);
      GatherParts(reg, m_aggregates, tid, m_currentPath, m_alreadyProcessed, old(m_output));
    }
  }

  // The records are the simple labelled walks

  /** The type reached from tid by taking the edges with the given numbers. */
  function EndOf(reg: Registry, aggregates: seq<(nat, nat)>, tid: nat, w: seq<nat>): nat
    requires Registered(reg, aggregates) && tid < |reg.types|
    decreases |w|
  {
    EdgesInRange(reg, aggregates, tid);
    if w == [] || w[0] >= |Edges(reg, aggregates, tid)| then tid
    else EndOf(reg, aggregates, Edges(reg, aggregates, tid)[w[0]].target, w[1..])
  }

  /** The path items on the way. */
  function Items(reg: Registry, aggregates: seq<(nat, nat)>, tid: nat, w: seq<nat>): seq<string>
    requires Registered(reg, aggregates) && tid < |reg.types|
    decreases |w|
  {
    EdgesInRange(reg, aggregates, tid);
    if w == [] || w[0] >= |Edges(reg, aggregates, tid)| then []
    else
      var edge := Edges(reg, aggregates, tid)[w[0]];
      [edge.item] + Items(reg, aggregates, edge.target, w[1..])
  }

  /** The types on the way, tid included. */
  function Visits(reg: Registry, aggregates: seq<(nat, nat)>, tid: nat, w: seq<nat>): (v: seq<nat>)
    requires Registered(reg, aggregates) && tid < |reg.types|
    ensures |v| > 0 && v[0] == tid
    decreases |w|
  {
    EdgesInRange(reg, aggregates, tid);
    if w == [] || w[0] >= |Edges(reg, aggregates, tid)| then [tid]
    else [tid] + Visits(reg, aggregates, Edges(reg, aggregates, tid)[w[0]].target, w[1..])
  }

  /** w is a labelled walk from tid: each of its numbers is one of an edge out of the type reached. */
  predicate LabelledWalk(reg: Registry, aggregates: seq<(nat, nat)>, tid: nat, w: seq<nat>)
    requires Registered(reg, aggregates) && tid < |reg.types|
    decreases |w|
  {
    EdgesInRange(reg, aggregates, tid);
    w == [] || (w[0] < |Edges(reg, aggregates, tid)|
                && LabelledWalk(reg, aggregates, Edges(reg, aggregates, tid)[w[0]].target, w[1..]))
  }

  /** The walk visits no type twice, and none of those on the stack. */
  ghost predicate SimpleOutside(reg: Registry, aggregates: seq<(nat, nat)>, tid: nat, done: seq<nat>, w: seq<nat>)
    requires Registered(reg, aggregates) && tid < |reg.types|
  {
    LabelledWalk(reg, aggregates, tid, w) && Distinct(done + Visits(reg, aggregates, tid, w))
  }

  /** What is recorded for a walk. */
  function Record(reg: Registry, aggregates: seq<(nat, nat)>, tid: nat, path: seq<string>, w: seq<nat>): (nat, string)
    requires Registered(reg, aggregates) && tid < |reg.types|
  {
    (EndOf(reg, aggregates, tid, w), PathString(path + Items(reg, aggregates, tid, w)))
  }

  /** The walks from tid outside the stack, listed as the gathering comes across them. */
  ghost function Walks(reg: Registry, aggregates: seq<(nat, nat)>, tid: nat, done: seq<nat>): seq<seq<nat>>
    requires Registered(reg, aggregates) && tid < |reg.types| && Stack(reg, done)
    decreases |reg.types| - |done|, 1, 0
  {
    if tid in done then []
    else
      DistinctBelow(done + [tid], |reg.types|);
      [[]] + WalksAll(reg, aggregates, tid, |Edges(reg, aggregates, tid)|, done + [tid])
  }

  /** The walks from tid whose first edge is one of the first n, with tid already on the stack. */
  ghost function WalksAll(reg: Registry, aggregates: seq<(nat, nat)>, tid: nat, n: nat, done: seq<nat>): seq<seq<nat>>
    requires Registered(reg, aggregates) && tid < |reg.types| && Stack(reg, done) && n <= |Edges(reg, aggregates, tid)|
    decreases |reg.types| - |done|, 2, n
  {
    DistinctBelow(done, |reg.types|);
    EdgesInRange(reg, aggregates, tid);
    if n == 0 then []
    else
      WalksAll(reg, aggregates, tid, n - 1, done)
      + Prefixed(n - 1, Walks(reg, aggregates, Edges(reg, aggregates, tid)[n - 1].target, done))
  }

  function Prefixed(k: nat, walks: seq<seq<nat>>): (r: seq<seq<nat>>)
    ensures |r| == |walks|
    ensures forall i :: 0 <= i < |r| ==> r[i] == [k] + walks[i]
  {
    if walks == [] then [] else Prefixed(k, walks[..|walks| - 1]) + [[k] + walks[|walks| - 1]]
  }

  lemma RecordFirst(reg: Registry, aggregates: seq<(nat, nat)>, tid: nat, path: seq<string>, k: nat, w: seq<nat>)
    requires Registered(reg, aggregates) && tid < |reg.types| && k < |Edges(reg, aggregates, tid)|
    ensures var edge := Edges(reg, aggregates, tid)[k];
            edge.target < |reg.types|
            && Record(reg, aggregates, tid, path, [k] + w)
               == Record(reg, aggregates, edge.target, path + [edge.item], w)
  {
    EdgesInRange(reg, aggregates, tid);
    var edge := Edges(reg, aggregates, tid)[k];
    assert ([k] + w)[1..] == w;
    ConcatAssociative(path, [edge.item], Items(reg, aggregates, edge.target, w));
  }

  /** The records g are those of the walks ws. */
  ghost predicate Matches(reg: Registry, aggregates: seq<(nat, nat)>, tid: nat, path: seq<string>,
                          g: seq<(nat, string)>, ws: seq<seq<nat>>)
    requires Registered(reg, aggregates) && tid < |reg.types|
  {
    |g| == |ws| && forall i :: 0 <= i < |ws| ==> g[i] == Record(reg, aggregates, tid, path, ws[i])
  }

  lemma MatchesConcat(reg: Registry, aggregates: seq<(nat, nat)>, tid: nat, path: seq<string>,
                      g: seq<(nat, string)>, ws: seq<seq<nat>>, h: seq<(nat, string)>, vs: seq<seq<nat>>)
    requires Registered(reg, aggregates) && tid < |reg.types|
    requires Matches(reg, aggregates, tid, path, g, ws) && Matches(reg, aggregates, tid, path, h, vs)
    ensures Matches(reg, aggregates, tid, path, g + h, ws + vs)
  {
  }

  /** The records over edge k are those of the walks that start with it. */
  lemma MatchesPrefixed(reg: Registry, aggregates: seq<(nat, nat)>, tid: nat, path: seq<string>, k: nat,
                        g: seq<(nat, string)>, ws: seq<seq<nat>>)
    requires Registered(reg, aggregates) && tid < |reg.types| && k < |Edges(reg, aggregates, tid)|
    requires InRange(reg, Edges(reg, aggregates, tid))
    requires var edge := Edges(reg, aggregates, tid)[k];
             Matches(reg, aggregates, edge.target, path + [edge.item], g, ws)
    ensures Matches(reg, aggregates, tid, path, g, Prefixed(k, ws))
  {
    forall i | 0 <= i < |ws|
      ensures g[i] == Record(reg, aggregates, tid, path, Prefixed(k, ws)[i])
    {
      RecordFirst(reg, aggregates, tid, path, k, ws[i]);
    }
  }

  /** Record for record, the gathering is the list of walks. */
  lemma {:induction false} GatherIsWalks(reg: Registry, aggregates: seq<(nat, nat)>, tid: nat, path: seq<string>,
                                         done: seq<nat>)
    requires Registered(reg, aggregates) && tid < |reg.types| && Stack(reg, done)
    ensures Matches(reg, aggregates, tid, path, Gather(reg, aggregates, tid, path, done),
                    Walks(reg, aggregates, tid, done))
    decreases |reg.types| - |done|, 1, 0
  {
    if tid !in done {
      DistinctBelow(done + [tid], |reg.types|);
      EdgesInRange(reg, aggregates, tid);
      var edges := Edges(reg, aggregates, tid);
      GatherAllIsWalks(reg, aggregates, tid, |edges|, path, done + [tid]);
      PrefixStep(edges, |edges|);
      assert path + [] == path;
      assert Matches(reg, aggregates, tid, path, [(tid, PathString(path))], [[]]);
      MatchesConcat(reg, aggregates, tid, path, [(tid, PathString(path))], [[]],
                    GatherAll(reg, aggregates, edges, path, done + [tid]),
                    WalksAll(reg, aggregates, tid, |edges|, done + [tid]));
    }
  }

  lemma {:induction false} GatherAllIsWalks(reg: Registry, aggregates: seq<(nat, nat)>, tid: nat, n: nat,
                                            path: seq<string>, done: seq<nat>)
    requires Registered(reg, aggregates) && tid < |reg.types| && Stack(reg, done)
    requires n <= |Edges(reg, aggregates, tid)| && InRange(reg, Edges(reg, aggregates, tid))
    ensures Matches(reg, aggregates, tid, path,
                    GatherAll(reg, aggregates, Edges(reg, aggregates, tid)[..n], path, done),
                    WalksAll(reg, aggregates, tid, n, done))
    decreases |reg.types| - |done|, 2, n
  {
    DistinctBelow(done, |reg.types|);
    var edges := Edges(reg, aggregates, tid);
    if n > 0 {
      var edge := edges[n - 1];
      var ws := Walks(reg, aggregates, edge.target, done);
      GatherAllIsWalks(reg, aggregates, tid, n - 1, path, done);
      GatherIsWalks(reg, aggregates, edge.target, path + [edge.item], done);
      PrefixStep(edges, n - 1);
      GatherSnoc(reg, aggregates, edges[..n - 1], edge, path, done);
      MatchesPrefixed(reg, aggregates, tid, path, n - 1,
                      Gather(reg, aggregates, edge.target, path + [edge.item], done), ws);
      MatchesConcat(reg, aggregates, tid, path, GatherAll(reg, aggregates, edges[..n - 1], path, done),
                    WalksAll(reg, aggregates, tid, n - 1, done),
                    Gather(reg, aggregates, edge.target, path + [edge.item], done), Prefixed(n - 1, ws));
    }
  }

  lemma VisitsFirst(reg: Registry, aggregates: seq<(nat, nat)>, tid: nat, done: seq<nat>, w: seq<nat>)
    requires Registered(reg, aggregates) && tid < |reg.types| && tid !in done && Distinct(done)
    ensures InRange(reg, Edges(reg, aggregates, tid))
    ensures SimpleOutside(reg, aggregates, tid, done, w) <==>
              w == [] || (w[0] < |Edges(reg, aggregates, tid)|
                          && SimpleOutside(reg, aggregates, Edges(reg, aggregates, tid)[w[0]].target, done + [tid],
                                           w[1..]))
  {
    EdgesInRange(reg, aggregates, tid);
    if w != [] && w[0] < |Edges(reg, aggregates, tid)| {
      var target := Edges(reg, aggregates, tid)[w[0]].target;
      ConcatAssociative(done, [tid], Visits(reg, aggregates, target, w[1..]));
    }
  }

  /** The listed walks are exactly the simple ones outside the stack. */
  lemma {:induction false} WalksComplete(reg: Registry, aggregates: seq<(nat, nat)>, tid: nat, done: seq<nat>,
                                         w: seq<nat>)
    requires Registered(reg, aggregates) && tid < |reg.types| && Stack(reg, done)
    ensures w in Walks(reg, aggregates, tid, done) <==> SimpleOutside(reg, aggregates, tid, done, w)
    decreases |reg.types| - |done|, 1, 0
  {
    if tid in done {
      var k :| 0 <= k < |done| && done[k] == tid;
      assert (done + Visits(reg, aggregates, tid, w))[k] == (done + Visits(reg, aggregates, tid, w))[|done|];
    } else {
      DistinctBelow(done + [tid], |reg.types|);
      VisitsFirst(reg, aggregates, tid, done, w);
      WalksAllComplete(reg, aggregates, tid, |Edges(reg, aggregates, tid)|, done + [tid], w);
    }
  }

  lemma {:induction false} WalksAllComplete(reg: Registry, aggregates: seq<(nat, nat)>, tid: nat, n: nat,
                                            done: seq<nat>, w: seq<nat>)
    requires Registered(reg, aggregates) && tid < |reg.types| && Stack(reg, done)
    requires n <= |Edges(reg, aggregates, tid)| && InRange(reg, Edges(reg, aggregates, tid))
    ensures w in WalksAll(reg, aggregates, tid, n, done) <==>
              w != [] && w[0] < n && SimpleOutside(reg, aggregates, Edges(reg, aggregates, tid)[w[0]].target, done,
                                                   w[1..])
    decreases |reg.types| - |done|, 2, n
  {
    DistinctBelow(done, |reg.types|);
    if n > 0 {
      var target := Edges(reg, aggregates, tid)[n - 1].target;
      var ws := Walks(reg, aggregates, target, done);
      WalksAllComplete(reg, aggregates, tid, n - 1, done, w);
      PrefixedMember(n - 1, ws, w);
      if w != [] && w[0] == n - 1 {
        WalksComplete(reg, aggregates, target, done, w[1..]);
      }
    }
  }

  lemma PrefixedMember(k: nat, walks: seq<seq<nat>>, w: seq<nat>)
    ensures w in Prefixed(k, walks) <==> w != [] && w[0] == k && w[1..] in walks
  {
    if w != [] && w[0] == k && w[1..] in walks {
      var i :| 0 <= i < |walks| && walks[i] == w[1..];
      assert Prefixed(k, walks)[i] == w;
    }
  }

  /** No walk is listed twice. */
  lemma {:induction false} WalksDistinct(reg: Registry, aggregates: seq<(nat, nat)>, tid: nat, done: seq<nat>)
    requires Registered(reg, aggregates) && tid < |reg.types| && Stack(reg, done)
    ensures Distinct(Walks(reg, aggregates, tid, done))
    decreases |reg.types| - |done|, 1, 0
  {
    if tid !in done {
      DistinctBelow(done + [tid], |reg.types|);
      EdgesInRange(reg, aggregates, tid);
      WalksAllDistinct(reg, aggregates, tid, |Edges(reg, aggregates, tid)|, done + [tid]);
    }
  }

  lemma {:induction false} WalksAllDistinct(reg: Registry, aggregates: seq<(nat, nat)>, tid: nat, n: nat,
                                            done: seq<nat>)
    requires Registered(reg, aggregates) && tid < |reg.types| && Stack(reg, done)
    requires n <= |Edges(reg, aggregates, tid)| && InRange(reg, Edges(reg, aggregates, tid))
    ensures Distinct(WalksAll(reg, aggregates, tid, n, done))
    ensures forall i :: 0 <= i < |WalksAll(reg, aggregates, tid, n, done)| ==>
              var w := WalksAll(reg, aggregates, tid, n, done)[i]; w != [] && w[0] < n
    decreases |reg.types| - |done|, 2, n
  {
    DistinctBelow(done, |reg.types|);
    if n > 0 {
      var target := Edges(reg, aggregates, tid)[n - 1].target;
      WalksAllDistinct(reg, aggregates, tid, n - 1, done);
      WalksDistinct(reg, aggregates, target, done);
      PrefixedDistinct(n - 1, Walks(reg, aggregates, target, done));
      HeadsApart(WalksAll(reg, aggregates, tid, n - 1, done), n - 1,
                 Prefixed(n - 1, Walks(reg, aggregates, target, done)));
    }
  }

  /** Walks along earlier edges are none of the walks along edge k. */
  lemma HeadsApart(a: seq<seq<nat>>, k: nat, b: seq<seq<nat>>)
    requires Distinct(a) && forall i :: 0 <= i < |a| ==> a[i] != [] && a[i][0] < k
    requires Distinct(b) && forall i :: 0 <= i < |b| ==> b[i] != [] && b[i][0] == k
    ensures Distinct(a + b)
    ensures forall i :: 0 <= i < |a + b| ==> (a + b)[i] != [] && (a + b)[i][0] < k + 1
  {
  }

  lemma PrefixedDistinct(k: nat, walks: seq<seq<nat>>)
    requires Distinct(walks)
    ensures Distinct(Prefixed(k, walks))
  {
    forall i, j | 0 <= i < j < |walks|
      ensures [k] + walks[i] != [k] + walks[j]
    {
      assert ([k] + walks[i])[1..] == walks[i] && ([k] + walks[j])[1..] == walks[j];
    }
  }

  /** From an empty stack the walk from root adds exactly one record for every simple labelled walk from root. */
  lemma GatherRecordsSimpleWalks(reg: Registry, aggregates: seq<(nat, nat)>, root: nat) returns (walks: seq<seq<nat>>)
    requires Registered(reg, aggregates) && root < |reg.types|
    ensures Distinct(walks)
    ensures forall w: seq<nat> :: w in walks <==>
              LabelledWalk(reg, aggregates, root, w) && Distinct(Visits(reg, aggregates, root, w))
    ensures |Gather(reg, aggregates, root, [], [])| == |walks|
    ensures forall i :: 0 <= i < |walks| ==>
              Gather(reg, aggregates, root, [], [])[i]
              == (EndOf(reg, aggregates, root, walks[i]), PathString(Items(reg, aggregates, root, walks[i])))
  {
    walks := Walks(reg, aggregates, root, []);
    WalksDistinct(reg, aggregates, root, []);
    GatherIsWalks(reg, aggregates, root, [], []);
    forall w: seq<nat>
      ensures w in walks <==> LabelledWalk(reg, aggregates, root, w) && Distinct(Visits(reg, aggregates, root, w))
    {
      WalksComplete(reg, aggregates, root, [], w);
      assert [] + Visits(reg, aggregates, root, w) == Visits(reg, aggregates, root, w);
    }
    forall i | 0 <= i < |walks|
      ensures [] + Items(reg, aggregates, root, walks[i]) == Items(reg, aggregates, root, walks[i])
    {
    }
  }
}
