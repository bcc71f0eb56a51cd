/** The cycle finder of bindings/python/topsort.py: a search over a stack of simple paths. */
module FindCycles {
  import opened Digraph
  import opened RadUtil
  import opened Seqs

  /** The edges of a parent -> children dictionary. */
  ghost function EdgeSet<T(!new)>(g: map<T, seq<T>>): (E: set<(T, T)>)
    ensures forall a, b :: (a, b) in E <==> a in g && b in g[a]
  {
    set a, b | a in g && b in g[a] :: (a, b)
  }

  /** Some rotation of c is among the cycles found. */
  ghost predicate Covered<T>(cycles: seq<seq<T>>, c: seq<T>) {
    exists i :: 0 <= i < |cycles| && Rotation(cycles[i], c)
  }

  /** Only cycles have been found, and no two of them are rotations of one another. */
  ghost predicate Sound<T>(E: set<(T, T)>, cycles: seq<seq<T>>) {
    && (forall i :: 0 <= i < |cycles| ==> Cycle(E, cycles[i]))
    && (forall i, j :: 0 <= i < j < |cycles| ==> !Rotation(cycles[i], cycles[j]))
  }

  /** Every cycle that closes at the end of path p, back to one of the given nodes, is covered. */
  ghost predicate ClosedFor<T>(cycles: seq<seq<T>>, p: seq<T>, children: seq<T>) {
    forall m :: 0 <= m < |p| && p[m] in children ==> Covered(cycles, p[m..])
  }

  /** Every cycle that closes at the end of path p, back to a node of p, is covered. */
  ghost predicate Closed<T>(E: set<(T, T)>, cycles: seq<seq<T>>, p: seq<T>) {
    |p| > 0 ==> forall m :: 0 <= m < |p| && (p[|p| - 1], p[m]) in E ==> Covered(cycles, p[m..])
  }

  ghost predicate SimpleFrom<T>(E: set<(T, T)>, s: T, p: seq<T>) {
    Walk(E, p) && Distinct(p) && p[0] == s
  }

  /** All cycles that node s reaches are covered. */
  ghost predicate Exhausted<T(!new)>(E: set<(T, T)>, cycles: seq<seq<T>>, s: T) {
    forall c: seq<T> :: Cycle(E, c) && Reaches(E, s, c[0]) ==> Covered(cycles, c)
  }

  lemma CoveredGrows<T>(cycles: seq<seq<T>>, more: seq<seq<T>>, c: seq<T>)
    requires Covered(cycles, c) && cycles <= more
    ensures Covered(more, c)
  {
    var i :| 0 <= i < |cycles| && Rotation(cycles[i], c);
    assert more[i] == cycles[i];
  }

  lemma ClosedGrows<T>(E: set<(T, T)>, cycles: seq<seq<T>>, more: seq<seq<T>>, p: seq<T>)
    requires Closed(E, cycles, p) && cycles <= more
    ensures Closed(E, more, p)
  {
    forall m | 0 <= m < |p| && (p[|p| - 1], p[m]) in E
      ensures Covered(more, p[m..])
    {
      CoveredGrows(cycles, more, p[m..]);
    }
  }

  lemma ExhaustedGrows<T(!new)>(E: set<(T, T)>, cycles: seq<seq<T>>, more: seq<seq<T>>, s: T)
    requires Exhausted(E, cycles, s) && cycles <= more
    ensures Exhausted(E, more, s)
  {
    forall c: seq<T> | Cycle(E, c) && Reaches(E, s, c[0])
      ensures Covered(more, c)
    {
      CoveredGrows(cycles, more, c);
    }
  }

  /** Once every simple path from s has been closed, every cycle s reaches is covered. */
  lemma AllClosedExhausts<T(!new)>(E: set<(T, T)>, cycles: seq<seq<T>>, s: T)
    requires forall p: seq<T> :: SimpleFrom(E, s, p) ==> Closed(E, cycles, p)
    ensures Exhausted(E, cycles, s)
  {
    forall c: seq<T> | Cycle(E, c) && Reaches(E, s, c[0])
      ensures Covered(cycles, c)
    {
      var p, m, k := Lasso(E, s, c);
      assert SimpleFrom(E, s, p);
      assert Covered(cycles, Rotate(c, k));
      var i :| 0 <= i < |cycles| && Rotation(cycles[i], Rotate(c, k));
      assert Rotation(c, Rotate(c, k));
      RotationSymmetric(c, Rotate(c, k));
      RotationTransitive(cycles[i], Rotate(c, k), c);
    }
  }

  // The termination measure of the path stack.

  ghost function Power(b: nat, e: nat): (r: nat)
    requires b > 0
    ensures r > 0
  {
    if e == 0 then 1 else b * Power(b, e - 1)
  }

  /** Weight of a stack: each path of length l counts (B+1)^(N-l). */
  ghost function Weight<T>(B: nat, N: nat, paths: seq<seq<T>>): nat {
    if paths == [] then 0
    else
      var p := paths[|paths| - 1];
      Weight(B, N, paths[..|paths| - 1]) + Power(B + 1, if |p| <= N then N - |p| else 0)
  }

  lemma WeightPush<T>(B: nat, N: nat, paths: seq<seq<T>>, p: seq<T>)
    requires |p| <= N
    ensures Weight(B, N, paths + [p]) == Weight(B, N, paths) + Power(B + 1, N - |p|)
  {
    assert (paths + [p])[..|paths|] == paths;
  }

  /** Largest number of children of any listed parent. */
  ghost function MaxDegree<T>(g: map<T, seq<T>>, order: seq<T>): (B: nat)
    requires forall i :: 0 <= i < |order| ==> order[i] in g
    ensures forall i :: 0 <= i < |order| ==> |g[order[i]]| <= B
  {
    if order == [] then 0
    else
      var rest := MaxDegree(g, order[1..]);
      if |g[order[0]]| > rest then |g[order[0]]| else rest
  }

  ghost function Nodes<T(!new)>(g: map<T, seq<T>>): (nodes: set<T>)
    ensures g.Keys <= nodes
    ensures forall a, i :: a in g && 0 <= i < |g[a]| ==> g[a][i] in nodes
  {
    g.Keys + (set a, i | a in g && 0 <= i < |g[a]| :: g[a][i])
  }

  lemma PathBound<T(!new)>(g: map<T, seq<T>>, p: seq<T>)
    requires Walk(EdgeSet(g), p) && Distinct(p) && p[0] in g
    ensures |p| <= |Nodes(g)|
  {
    forall i | 0 <= i < |p|
      ensures p[i] in Nodes(g)
    {
      if i > 0 {
        assert (p[i - 1], p[i]) in EdgeSet(g);
      }
    }
    DistinctBound(p, Nodes(g));
  }

  lemma ExtendSimple<T(!new)>(E: set<(T, T)>, s: T, p: seq<T>, c: T)
    requires SimpleFrom(E, s, p) && (p[|p| - 1], c) in E && c !in p
    ensures SimpleFrom(E, s, p + [c])
    ensures Reaches(E, s, c)
  {
    WalkConcat(E, p, [c]);
    assert WalkFromTo(E, p + [c], s, c);
  }

  /** The part of a path from one of its nodes on, when an edge leads back there, is a cycle. */
  lemma ClosingCycle<T>(E: set<(T, T)>, p: seq<T>, m: nat)
    requires Walk(E, p) && Distinct(p) && m < |p| && (p[|p| - 1], p[m]) in E
    ensures Cycle(E, p[m..])
  {
  }

  /** Index of the first occurrence of x. */
  method IndexOf<T(==)>(s: seq<T>, x: T) returns (i: nat)
    requires x in s
    ensures i < |s| && s[i] == x && x !in s[..i]
  {
    i := 0;
    while s[i] != x
      invariant i < |s| && x !in s[..i]
      decreases |s| - i
    {
      i := i + 1;
    }
  }

  /** Is a rotation of cycle among the cycles yielded so far? */
  method IsDuplicate<T(==)>(cycles: seq<seq<T>>, cycle: seq<T>) returns (dup: bool)
    requires cycle != []
    ensures dup <==> Covered(cycles, cycle)
  {
    for i := 0 to |cycles|
      invariant forall j :: 0 <= j < i ==> !Rotation(cycles[j], cycle)
    {
      var r := IsRotated(cycles[i], cycle);
      if r.value {
        return true;
      }
    }
    return false;
  }

  /** The simple extensions of a path by the given children, in order. */
  function Extensions<T(==)>(path: seq<T>, children: seq<T>): (ext: seq<seq<T>>)
  {
    if children == [] then []
    else
      var n := |children| - 1;
      Extensions(path, children[..n]) + (if children[n] in path then [] else [path + [children[n]]])
  }

  lemma {:induction false} ExtensionsSimple<T(!new)>(E: set<(T, T)>, s: T, path: seq<T>, children: seq<T>)
    requires SimpleFrom(E, s, path)
    requires forall i :: 0 <= i < |children| ==> (path[|path| - 1], children[i]) in E
    ensures forall i :: 0 <= i < |Extensions(path, children)| ==> SimpleFrom(E, s, Extensions(path, children)[i])
    ensures forall c :: c in children && c !in path ==> path + [c] in Extensions(path, children)
  {
    if children == [] {
    } else {
      var n := |children| - 1;
      ExtensionsSimple(E, s, path, children[..n]);
      if children[n] !in path {
        ExtendSimple(E, s, path, children[n]);
      }
    }
  }

  /** Stacking the extensions of a popped path keeps the stack lighter than before. */
  lemma {:induction false} ExtensionsWeight<T>(B: nat, N: nat, paths: seq<seq<T>>, path: seq<T>, children: seq<T>)
    requires |path| < N
    ensures Weight(B, N, paths + Extensions(path, children))
            <= Weight(B, N, paths) + |children| * Power(B + 1, N - |path| - 1)
  {
    if children == [] {
      assert paths + Extensions(path, children) == paths;
    } else {
      var n := |children| - 1;
      var unit := Power(B + 1, N - |path| - 1);
      var earlier := Extensions(path, children[..n]);
      ExtensionsWeight(B, N, paths, path, children[..n]);
      MulSuccessor(n, unit);
      if children[n] in path {
        assert Extensions(path, children) == earlier;
      } else {
        WeightPush(B, N, paths + earlier, path + [children[n]]);
        ConcatAssociative(paths, earlier, [path + [children[n]]]);
      }
    }
  }

  lemma MulSuccessor(n: nat, u: nat)
    ensures (n + 1) * u == n * u + u
  {
  }

  /** Popping a path and stacking its extensions makes the stack lighter. */
  lemma StackLighter<T(!new)>(g: map<T, seq<T>>, B: nat, N: nat, paths: seq<seq<T>>, path: seq<T>)
    requires Walk(EdgeSet(g), path) && Distinct(path) && path[0] in g && path[|path| - 1] in g
    requires |g[path[|path| - 1]]| <= B && N == |Nodes(g)|
    ensures Weight(B, N, paths + Extensions(path, g[path[|path| - 1]])) < Weight(B, N, paths + [path])
  {
    PathBound(g, path);
    WeightPush(B, N, paths, path);
    var children := g[path[|path| - 1]];
    if |path| < N {
      ExtensionsWeight(B, N, paths, path, children);
      var unit := Power(B + 1, N - |path| - 1);
      assert Power(B + 1, N - |path|) == (B + 1) * unit == B * unit + unit;
      MulMonotone(|children|, B, unit);
    } else {
      if Extensions(path, children) != [] {
        ExtensionsSimple(EdgeSet(g), path[0], path, children);
        var longer := Extensions(path, children)[0];
        ExtensionsLonger(path, children);
        PathBound(g, longer);
        assert false;
      }
      assert paths + Extensions(path, children) == paths;
    }
  }

  lemma {:induction false} ExtensionsLonger<T>(path: seq<T>, children: seq<T>)
    ensures forall i :: 0 <= i < |Extensions(path, children)| ==> |Extensions(path, children)[i]| == |path| + 1
  {
    if children == [] {
    } else {
      ExtensionsLonger(path, children[..|children| - 1]);
    }
  }

  /** Records the cycle that an edge from the end of the path back to child closes, unless a rotation of it is known. */
  method CloseCycle<T(==, !new)>(ghost E: set<(T, T)>, path: seq<T>, child: T, cycles0: seq<seq<T>>)
    returns (cycles: seq<seq<T>>)
    requires Walk(E, path) && Distinct(path) && child in path && (path[|path| - 1], child) in E
    requires Sound(E, cycles0)
    ensures cycles0 <= cycles && Sound(E, cycles) && ClosedFor(cycles, path, [child])
  {
    cycles := cycles0;
    var at := IndexOf(path, child);
    var cycle := path[at..];
    ClosingCycle(E, path, at);
    var dup := IsDuplicate(cycles, cycle);
    if !dup {
      cycles := cycles + [cycle];
      assert Rotate(cycle, 0) == cycle;
      assert Rotation(cycles[|cycles0|], cycle);
    }
  }

  /** Handles one popped path: closes the cycles at its end and stacks its simple extensions. */
  method ExpandPath<T(==, !new)>(ghost E: set<(T, T)>, path: seq<T>, children: seq<T>, paths0: seq<seq<T>>,
                                 cycles0: seq<seq<T>>, visited0: set<T>, ghost s: T)
    returns (paths: seq<seq<T>>, cycles: seq<seq<T>>, visited: set<T>)
    requires SimpleFrom(E, s, path) && forall i :: 0 <= i < |children| ==> (path[|path| - 1], children[i]) in E
    requires Sound(E, cycles0)
    ensures cycles0 <= cycles && Sound(E, cycles) && ClosedFor(cycles, path, children)
    ensures paths == paths0 + Extensions(path, children)
    ensures visited0 <= visited && forall v :: v in visited - visited0 ==> Reaches(E, s, v)
  {
    paths, cycles, visited := paths0, cycles0, visited0;
    for i := 0 to |children|
      invariant cycles0 <= cycles && Sound(E, cycles) && ClosedFor(cycles, path, children[..i])
      invariant paths == paths0 + Extensions(path, children[..i])
      invariant visited0 <= visited && forall v :: v in visited - visited0 ==> Reaches(E, s, v)
    {
      var child := children[i];
      assert children[..i + 1][..i] == children[..i];
      if child in path {
        ghost var before := cycles;
        cycles := CloseCycle(E, path, child, cycles);
        ClosedForGrows(before, cycles, path, children[..i]);
      } else {
        ExtendSimple(E, s, path, child);
        paths := paths + [path + [child]];
        visited := visited + {child};
      }
    }
    assert children[..|children|] == children;
  }

  lemma ClosedForGrows<T>(cycles: seq<seq<T>>, more: seq<seq<T>>, p: seq<T>, children: seq<T>)
    requires ClosedFor(cycles, p, children) && cycles <= more
    ensures ClosedFor(more, p, children)
  {
    forall m | 0 <= m < |p| && p[m] in children
      ensures Covered(more, p[m..])
    {
      CoveredGrows(cycles, more, p[m..]);
    }
  }

  lemma MulMonotone(a: nat, b: nat, u: nat)
    requires a <= b
    ensures a * u <= b * u
  {
  }

  /** Some stacked path is a prefix of p. */
  ghost predicate Pending<T>(paths: seq<seq<T>>, p: seq<T>) {
    exists i :: 0 <= i < |paths| && paths[i] <= p
  }

  /** Every simple path from s is closed or still waits on the stack, below one of its prefixes. */
  ghost predicate Explored<T(!new)>(E: set<(T, T)>, s: T, cycles: seq<seq<T>>, paths: seq<seq<T>>) {
    forall p: seq<T> :: SimpleFrom(E, s, p) ==> Closed(E, cycles, p) || Pending(paths, p)
  }

  ghost predicate AllSimple<T>(E: set<(T, T)>, s: T, paths: seq<seq<T>>) {
    forall i :: 0 <= i < |paths| ==> SimpleFrom(E, s, paths[i])
  }

  /** A path covered by the stack before a step stays on the stack, below an extension, or is closed by the step. */
  lemma PendingOrClosed<T(!new)>(g: map<T, seq<T>>, s: T, path: seq<T>, stacked: seq<seq<T>>, paths: seq<seq<T>>,
                                 found: seq<seq<T>>, cycles: seq<seq<T>>, p: seq<T>)
    requires SimpleFrom(EdgeSet(g), s, p) && SimpleFrom(EdgeSet(g), s, path)
    requires |stacked| > 0 && path == stacked[|stacked| - 1] && stacked[..|stacked| - 1] <= paths
    requires found <= cycles
    requires Closed(EdgeSet(g), found, p) || Pending(stacked, p)
    requires path[|path| - 1] in g ==>
               && Closed(EdgeSet(g), cycles, path)
               && forall c :: c in g[path[|path| - 1]] && c !in path ==> path + [c] in paths
    ensures Closed(EdgeSet(g), cycles, p) || Pending(paths, p)
  {
    if Closed(EdgeSet(g), found, p) {
      ClosedGrows(EdgeSet(g), found, cycles, p);
    } else {
      var i :| 0 <= i < |stacked| && stacked[i] <= p;
      if i < |stacked| - 1 {
        assert paths[i] == stacked[..|stacked| - 1][i] == stacked[i];
      } else if |p| > |path| {
        var n := |path|;
        assert (p[n - 1], p[n]) in EdgeSet(g);
        assert path + [p[n]] == p[..n + 1];
        var j :| 0 <= j < |paths| && paths[j] == path + [p[n]];
        assert paths[j] <= p;
      } else {
        assert p == path;
      }
    }
  }

  /** One pop of the stack keeps the search complete. */
  lemma ExploredStep<T(!new)>(g: map<T, seq<T>>, s: T, path: seq<T>, rest: seq<seq<T>>, paths: seq<seq<T>>,
                              found: seq<seq<T>>, cycles: seq<seq<T>>)
    requires SimpleFrom(EdgeSet(g), s, path) && found <= cycles && rest <= paths
    requires Explored(EdgeSet(g), s, found, rest + [path])
    requires path[|path| - 1] in g ==>
               && ClosedFor(cycles, path, g[path[|path| - 1]])
               && paths == rest + Extensions(path, g[path[|path| - 1]])
    ensures Explored(EdgeSet(g), s, cycles, paths)
  {
    var E := EdgeSet(g);
    if path[|path| - 1] in g {
      var children := g[path[|path| - 1]];
      ExtensionsSimple(E, s, path, children);
      assert Closed(E, cycles, path);
    }
    forall p: seq<T> | SimpleFrom(E, s, p)
      ensures Closed(E, cycles, p) || Pending(paths, p)
    {
      PendingOrClosed(g, s, path, rest + [path], paths, found, cycles, p);
    }
  }

  lemma ExploredStart<T(!new)>(E: set<(T, T)>, s: T, cycles: seq<seq<T>>)
    ensures Explored(E, s, cycles, [[s]]) && AllSimple(E, s, [[s]])
  {
    forall p: seq<T> | SimpleFrom(E, s, p)
      ensures Pending([[s]], p)
    {
      assert [[s]][0] <= p;
    }
  }

  /** The search from one start node: every cycle the start reaches ends up covered. */
  method SearchFrom<T(==, !new)>(g: map<T, seq<T>>, s: T, cycles0: seq<seq<T>>, visited0: set<T>, ghost order: seq<T>)
    returns (cycles: seq<seq<T>>, visited: set<T>)
    requires s in g && Sound(EdgeSet(g), cycles0)
    requires forall x :: x in order <==> x in g
    ensures cycles0 <= cycles && Sound(EdgeSet(g), cycles)
    ensures visited0 <= visited && forall v :: v in visited - visited0 ==> Reaches(EdgeSet(g), s, v)
    ensures Exhausted(EdgeSet(g), cycles, s)
  {
    ghost var E := EdgeSet(g);
    ghost var B, N := MaxDegree(g, order), |Nodes(g)|;
    cycles, visited := cycles0, visited0;
    var paths := [[s]];
    ExploredStart(E, s, cycles);
    while paths != []
      invariant cycles0 <= cycles && Sound(E, cycles)
      invariant visited0 <= visited && forall v :: v in visited - visited0 ==> Reaches(E, s, v)
      invariant AllSimple(E, s, paths) && Explored(E, s, cycles, paths)
      decreases Weight(B, N, paths)
    {
      ghost var found := cycles;
      var path := paths[|paths| - 1];
      var rest := paths[..|paths| - 1];
      assert paths == rest + [path];
      if path[|path| - 1] in g {
        var children := g[path[|path| - 1]];
        StackLighter(g, B, N, rest, path);
        ExtensionsSimple(E, s, path, children);
        paths, cycles, visited := ExpandPath(E, path, children, rest, cycles, visited, s);
      } else {
        PathBound(g, path);
        WeightPush(B, N, rest, path);
        paths := rest;
      }
      ExploredStep(g, s, path, rest, paths, found, cycles);
    }
    AllClosedExhausts(E, cycles, s);
  }

  /** All simple cycles of the graph, one rotation of each; order is the dictionary's iteration order. */
  method FindCycles<T(==, !new)>(parentChildren: map<T, seq<T>>, order: seq<T>) returns (cycles: seq<seq<T>>)
    requires Distinct(order) && forall x :: x in order <==> x in parentChildren
    ensures forall i :: 0 <= i < |cycles| ==> Cycle(EdgeSet(parentChildren), cycles[i])
    ensures forall i, j :: 0 <= i < |cycles| && 0 <= j < |cycles| && i != j ==> !Rotation(cycles[i], cycles[j])
    ensures forall c: seq<T> :: Cycle(EdgeSet(parentChildren), c) ==> Covered(cycles, c)
  {
    ghost var E := EdgeSet(parentChildren);
    var visited: set<T> := {};
    ghost var started: set<T> := {};
    cycles := [];
    for i := 0 to |order|
      invariant Sound(E, cycles)
      invariant forall x :: x in started ==> Exhausted(E, cycles, x)
      invariant forall v :: v in visited ==> exists s :: s in started && Reaches(E, s, v)
      invariant forall j :: 0 <= j < i ==> order[j] in started || order[j] in visited
    {
      var parent := order[i];
      if parent in visited {
        continue;
      }
      ghost var before, seen, earlier := cycles, visited, started;
      cycles, visited := SearchFrom(parentChildren, parent, cycles, visited, order);
      forall x | x in started
        ensures Exhausted(E, cycles, x)
      {
        ExhaustedGrows(E, before, cycles, x);
      }
      started := started + {parent};
      forall v | v in visited
        ensures exists s :: s in started && Reaches(E, s, v)
      {
        if v in seen {
          var s :| s in earlier && Reaches(E, s, v);
        }
      }
    }
    forall c: seq<T> | Cycle(E, c)
      ensures Covered(cycles, c)
    {
      CycleCovered(parentChildren, order, cycles, visited, started, c);
    }
    forall i, j | 0 <= i < |cycles| && 0 <= j < |cycles| && i != j
      ensures !Rotation(cycles[i], cycles[j])
    {
      if Rotation(cycles[i], cycles[j]) {
        RotationSymmetric(cycles[i], cycles[j]);
      }
    }
  }

  /** The skipped start nodes lose nothing: each lies on a path from a start that was searched. */
  lemma CycleCovered<T(!new)>(g: map<T, seq<T>>, order: seq<T>, cycles: seq<seq<T>>, visited: set<T>, started: set<T>,
                              c: seq<T>)
    requires forall x :: x in order <==> x in g
    requires forall x :: x in started ==> Exhausted(EdgeSet(g), cycles, x)
    requires forall v :: v in visited ==> exists s :: s in started && Reaches(EdgeSet(g), s, v)
    requires forall j :: 0 <= j < |order| ==> order[j] in started || order[j] in visited
    requires Cycle(EdgeSet(g), c)
    ensures Covered(cycles, c)
  {
    var E := EdgeSet(g);
    assert c[0] in g by {
      if |c| > 1 {
        assert (c[0], c[1]) in E;
      }
    }
    var j :| 0 <= j < |order| && order[j] == c[0];
    if c[0] in started {
      ReachesSelf(E, c[0]);
    } else {
      var s :| s in started && Reaches(E, s, c[0]);
    }
  }
}
