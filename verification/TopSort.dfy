/** The dependency sorts of bindings/python/topsort.py: topsort, topsort_levels and topsort_levels_core. */
module TopSort {
  import opened Digraph
  import opened Chains
  import opened Seqs
  import FindCycles

  /** The edges of a list of (parent, child) pairs. */
  ghost function Edges<T(!new)>(pairs: seq<(T, T)>): (E: set<(T, T)>)
    ensures forall a, b :: (a, b) in E <==> (a, b) in pairs
  {
    set i | 0 <= i < |pairs| :: pairs[i]
  }

  /** Everything that is named in the pairs. */
  ghost function Elements<T(!new)>(pairs: seq<(T, T)>): (S: set<T>)
    ensures forall a, b :: (a, b) in pairs ==> a in S && b in S
  {
    if pairs == [] then {} else var n := |pairs| - 1; Elements(pairs[..n]) + {pairs[n].0, pairs[n].1}
  }

  /** The children paired with p, in list order and with repetitions. */
  function ChildrenOf<T(==)>(pairs: seq<(T, T)>, p: T): (s: seq<T>)
    ensures forall i :: 0 <= i < |s| ==> (p, s[i]) in pairs
  {
    if pairs == [] then []
    else
      var n := |pairs| - 1;
      ChildrenOf(pairs[..n], p) + if pairs[n].0 == p then [pairs[n].1] else []
  }

  /** How many pairs lead into x from a parent outside done. */
  ghost function Waiting<T(!new)>(pairs: seq<(T, T)>, x: T, done: set<T>): nat {
    if pairs == [] then 0
    else
      var n := |pairs| - 1;
      Waiting(pairs[..n], x, done) + if pairs[n].1 == x && pairs[n].0 !in done then 1 else 0
  }

  function Kids<T(==)>(children: map<T, seq<T>>, p: T): seq<T> {
    if p in children then children[p] else []
  }

  /** The parent counts once the parents in done have been handled; nodes are the keys at the start. */
  ghost predicate Counts<T(!new)>(numParents: map<T, int>, pairs: seq<(T, T)>, nodes: set<T>, done: set<T>) {
    && numParents.Keys == nodes - done
    && forall x :: x in numParents ==> numParents[x] == Waiting(pairs, x, done)
  }

  /** The children lists once the parents in done have been handled. */
  ghost predicate Lists<T(!new)>(children: map<T, seq<T>>, pairs: seq<(T, T)>, done: set<T>) {
    && (forall p :: p !in done ==> Kids(children, p) == ChildrenOf(pairs, p))
    && (forall p :: p in done ==> p !in children)
  }

  /** Only elements without unhandled parents have been handled. */
  ghost predicate Settled<T(!new)>(pairs: seq<(T, T)>, done: set<T>) {
    forall x :: x in done ==> Waiting(pairs, x, done) == 0
  }

  /** The state of both dictionaries. */
  ghost predicate Represents<T(!new)>(numParents: map<T, int>, children: map<T, seq<T>>,
                                      pairs: seq<(T, T)>, nodes: set<T>, done: set<T>) {
    && Elements(pairs) <= nodes && done <= nodes
    && Counts(numParents, pairs, nodes, done)
    && Lists(children, pairs, done)
    && Settled(pairs, done)
  }

  lemma {:induction false} WaitingZero<T(!new)>(pairs: seq<(T, T)>, x: T, done: set<T>)
    ensures Waiting(pairs, x, done) == 0 <==> forall p :: (p, x) in Edges(pairs) ==> p in done
  {
    if pairs == [] {
    } else {
      var n := |pairs| - 1;
      WaitingZero(pairs[..n], x, done);
      assert pairs == pairs[..n] + [pairs[n]];
      assert (pairs[n].0, pairs[n].1) in pairs;
    }
  }

  /** Handling p removes as many waits from x as p has x among its children. */
  lemma {:induction false} WaitingSplit<T(!new)>(pairs: seq<(T, T)>, x: T, done: set<T>, p: T)
    requires p !in done
    ensures Waiting(pairs, x, done) == Waiting(pairs, x, done + {p}) + multiset(ChildrenOf(pairs, p))[x]
  {
    if pairs == [] {
    } else {
      WaitingSplit(pairs[..|pairs| - 1], x, done, p);
    }
  }

  lemma {:induction false} ChildrenComplete<T(!new)>(pairs: seq<(T, T)>, p: T, c: T)
    requires (p, c) in pairs
    ensures c in ChildrenOf(pairs, p)
  {
    var n := |pairs| - 1;
    if pairs[n] != (p, c) {
      assert (p, c) in pairs[..n];
      ChildrenComplete(pairs[..n], p, c);
    }
  }

  /** Enters one pair into the two dictionaries. */
  function Enter<T(==)>(numParents: map<T, int>, children: map<T, seq<T>>, parent: T, child: T)
      : (map<T, int>, map<T, seq<T>>)
  {
    var withParent := if parent in numParents then numParents else numParents[parent := 0];
    var withChild := if child in withParent then withParent else withParent[child := 0];
    (withChild[child := withChild[child] + 1], children[parent := Kids(children, parent) + [child]])
  }

  lemma EnterCounts<T(!new)>(numParents: map<T, int>, children: map<T, seq<T>>, pairs: seq<(T, T)>, parent: T, child: T)
    requires Counts(numParents, pairs, Elements(pairs), {})
    ensures Counts(Enter(numParents, children, parent, child).0, pairs + [(parent, child)],
                   Elements(pairs + [(parent, child)]), {})
  {
    var np := Enter(numParents, children, parent, child).0;
    var more := pairs + [(parent, child)];
    assert more[..|pairs|] == pairs;
    forall x | x in np
      ensures np[x] == Waiting(more, x, {})
    {
      if x !in numParents {
        AbsentWaitsForNothing(pairs, x);
      }
    }
  }

  lemma EnterLists<T(!new)>(numParents: map<T, int>, children: map<T, seq<T>>, pairs: seq<(T, T)>, parent: T, child: T)
    requires Lists(children, pairs, {})
    ensures Lists(Enter(numParents, children, parent, child).1, pairs + [(parent, child)], {})
  {
    var more := pairs + [(parent, child)];
    assert more[..|pairs|] == pairs;
  }

  /** One turn of the tabulating loop. */
  method EnterPair<T(==)>(numParents0: map<T, int>, children0: map<T, seq<T>>, parent: T, child: T)
    returns (numParents: map<T, int>, children: map<T, seq<T>>)
    ensures (numParents, children) == Enter(numParents0, children0, parent, child)
  {
    numParents, children := numParents0, children0;
    if parent !in numParents {
      numParents := numParents[parent := 0];
    }
    if child !in numParents {
      numParents := numParents[child := 0];
    }
    numParents := numParents[child := numParents[child] + 1];
    children := children[parent := Kids(children, parent) + [child]];
  }

  /** Tabulates the pairs: parent counts for every element, and the children of every parent. */
  method Tabulate<T(==, !new)>(pairs: seq<(T, T)>) returns (numParents: map<T, int>, children: map<T, seq<T>>)
    ensures Represents(numParents, children, pairs, Elements(pairs), {})
  {
    numParents, children := map[], map[];
    ghost var entered: seq<(T, T)> := [];
    for i := 0 to |pairs|
      invariant entered == pairs[..i]
      invariant Counts(numParents, entered, Elements(entered), {}) && Lists(children, entered, {})
    {
      PrefixStep(pairs, i);
      var (parent, child) := pairs[i];
      EnterCounts(numParents, children, entered, parent, child);
      EnterLists(numParents, children, entered, parent, child);
      numParents, children := EnterPair(numParents, children, parent, child);
      entered := entered + [(parent, child)];
    }
    PrefixStep(pairs, |pairs|);
  }

  lemma AbsentWaitsForNothing<T(!new)>(pairs: seq<(T, T)>, x: T)
    requires x !in Elements(pairs)
    ensures Waiting(pairs, x, {}) == 0
  {
    WaitingZero(pairs, x, {});
  }

  /** The keys whose count is zero, in the dictionary's arbitrary order. */
  method WithoutParent<T(==, !new)>(numParents: map<T, int>) returns (s: seq<T>)
    ensures Distinct(s) && forall x :: x in s <==> x in numParents && numParents[x] == 0
  {
    s := [];
    var rest := numParents.Keys;
    while rest != {}
      invariant rest <= numParents.Keys
      invariant Distinct(s)
      invariant forall x :: x in s <==> x in numParents && x !in rest && numParents[x] == 0
    {
      var x :| x in rest;
      rest := rest - {x};
      if numParents[x] == 0 {
        s := s + [x];
      }
    }
  }

  /** Lowers the count of each listed child by one per occurrence; freed lists those that drop to zero, in that
      order. */
  method KnockDown<T(==)>(numParents0: map<T, int>, kids: seq<T>) returns (numParents: map<T, int>, freed: seq<T>)
    requires forall j :: 0 <= j < |kids| ==> kids[j] in numParents0
    requires forall x :: x in numParents0 ==> numParents0[x] >= multiset(kids)[x]
    ensures numParents.Keys == numParents0.Keys
    ensures forall x :: x in numParents ==> numParents[x] == numParents0[x] - multiset(kids)[x]
    ensures Distinct(freed)
    ensures forall x :: x in freed <==> x in numParents && numParents[x] == 0 && numParents0[x] > 0
  {
    numParents, freed := numParents0, [];
    for j := 0 to |kids|
      invariant numParents.Keys == numParents0.Keys
      invariant forall x :: x in numParents ==> numParents[x] == numParents0[x] - multiset(kids[..j])[x]
      invariant Distinct(freed)
      invariant forall x :: x in freed <==> x in numParents && numParents[x] == 0 && numParents0[x] > 0
    {
      var child := kids[j];
      assert kids[..j + 1] == kids[..j] + [child];
      assert kids == kids[..j + 1] + kids[j + 1..];
      numParents := numParents[child := numParents[child] - 1];
      if numParents[child] == 0 {
        freed := freed + [child];
      }
    }
    assert kids[..|kids|] == kids;
  }

  /** Deletes a parent and knocks down the counts of its children. */
  method Release<T(==, !new)>(numParents0: map<T, int>, children0: map<T, seq<T>>, parent: T,
                              ghost pairs: seq<(T, T)>, ghost nodes: set<T>, ghost done: set<T>)
    returns (numParents: map<T, int>, children: map<T, seq<T>>, freed: seq<T>)
    requires Represents(numParents0, children0, pairs, nodes, done)
    requires parent in numParents0 && numParents0[parent] == 0
    ensures Represents(numParents, children, pairs, nodes, done + {parent})
    ensures children == children0 - {parent}
    ensures Distinct(freed)
    ensures forall x :: x in freed <==> x in numParents && numParents[x] == 0 && numParents0[x] > 0
  {
    var kids := Kids(children0, parent);
    ReleasePrepares(numParents0, pairs, nodes, done, parent);
    numParents, freed := KnockDown(numParents0 - {parent}, kids);
    children := children0 - {parent};
    ReleaseLists(children0, pairs, done, parent);
    ReleaseCounts(numParents0, numParents, pairs, nodes, done, parent);
    ReleaseSettles(pairs, done, parent);
  }

  lemma ReleasePrepares<T(!new)>(numParents: map<T, int>, pairs: seq<(T, T)>, nodes: set<T>, done: set<T>, parent: T)
    requires Elements(pairs) <= nodes && Counts(numParents, pairs, nodes, done) && Settled(pairs, done)
    requires parent in numParents && numParents[parent] == 0
    ensures forall c :: c in ChildrenOf(pairs, parent) ==> c in numParents && c != parent
    ensures forall x :: x in numParents ==> numParents[x] >= multiset(ChildrenOf(pairs, parent))[x]
  {
    forall c | c in ChildrenOf(pairs, parent)
      ensures c in numParents && c != parent
    {
      KidStillCounted(pairs, parent, c, done);
    }
    forall x | x in numParents
      ensures numParents[x] >= multiset(ChildrenOf(pairs, parent))[x]
    {
      WaitingSplit(pairs, x, done, parent);
    }
  }

  lemma ReleaseCounts<T(!new)>(numParents0: map<T, int>, numParents: map<T, int>,
                               pairs: seq<(T, T)>, nodes: set<T>, done: set<T>, parent: T)
    requires Counts(numParents0, pairs, nodes, done) && parent !in done
    requires numParents.Keys == numParents0.Keys - {parent}
    requires forall x :: x in numParents ==> numParents[x] == numParents0[x] - multiset(ChildrenOf(pairs, parent))[x]
    ensures Counts(numParents, pairs, nodes, done + {parent})
  {
    forall x | x in numParents
      ensures numParents[x] == Waiting(pairs, x, done + {parent})
    {
      WaitingSplit(pairs, x, done, parent);
    }
  }

  lemma ReleaseLists<T(!new)>(children: map<T, seq<T>>, pairs: seq<(T, T)>, done: set<T>, parent: T)
    requires Lists(children, pairs, done)
    ensures Lists(children - {parent}, pairs, done + {parent})
  {
  }

  lemma ReleaseSettles<T(!new)>(pairs: seq<(T, T)>, done: set<T>, parent: T)
    requires Settled(pairs, done) && parent !in done && Waiting(pairs, parent, done) == 0
    ensures Settled(pairs, done + {parent})
  {
    forall x | x in done + {parent}
      ensures Waiting(pairs, x, done + {parent}) == 0
    {
      WaitingSplit(pairs, x, done, parent);
    }
  }

  /** A child of an unhandled parent without waits is itself neither handled nor that parent. */
  lemma KidStillCounted<T(!new)>(pairs: seq<(T, T)>, parent: T, child: T, done: set<T>)
    requires parent !in done && Waiting(pairs, parent, done) == 0
    requires forall x :: x in done ==> Waiting(pairs, x, done) == 0
    requires child in ChildrenOf(pairs, parent)
    ensures child in Elements(pairs) && child !in done && child != parent
  {
    assert (parent, child) in Edges(pairs);
    WaitingZero(pairs, child, done);
  }

  // topsort

  datatype SortResult<T> =
    | Sorted(answer: seq<T>)
    | CycleError(answer: seq<T>, numParents: map<T, int>, children: map<T, seq<T>>)

  /** Every parent of a listed element is listed before it. */
  ghost predicate Ordered<T(!new)>(E: set<(T, T)>, answer: seq<T>) {
    forall q, k :: 0 <= k < |answer| && (q, answer[k]) in E ==> q in answer[..k]
  }

  /** The answer as a queue: the first i elements are handled, the others are the keys without waits. */
  ghost predicate Queue<T(!new)>(answer: seq<T>, i: nat, numParents: map<T, int>, done: set<T>) {
    && Distinct(answer) && i <= |answer|
    && (forall x :: x in answer[..i] <==> x in done)
    && (forall x :: x in answer[i..] <==> x in numParents && numParents[x] == 0)
  }

  lemma QueueStep<T(!new)>(answer: seq<T>, i: nat, numParents: map<T, int>, done: set<T>,
                           numParents': map<T, int>, freed: seq<T>)
    requires Queue(answer, i, numParents, done) && i < |answer|
    requires done !! numParents.Keys
    requires numParents'.Keys == numParents.Keys - {answer[i]}
    requires forall x :: x in numParents' ==> 0 <= numParents'[x] <= numParents[x]
    requires Distinct(freed)
    requires forall x :: x in freed <==> x in numParents' && numParents'[x] == 0 && numParents[x] > 0
    ensures Queue(answer + freed, i + 1, numParents', done + {answer[i]})
  {
    var more := answer + freed;
    forall x
      ensures x in answer <==> x in done || (x in numParents && numParents[x] == 0)
    {
      PrefixSuffix(answer, i, x);
    }
    forall j, k | 0 <= j < |answer| && 0 <= k < |freed|
      ensures answer[j] != freed[k]
    {
      assert freed[k] in freed && answer[j] in answer;
    }
    DistinctConcat(answer, freed);
    assert more[..i + 1] == answer[..i] + [answer[i]];
    forall x
      ensures x in more[i + 1..] <==> x in numParents' && numParents'[x] == 0
    {
      QueueTail(answer, i, freed, x);
    }
  }

  lemma PrefixSuffix<T>(s: seq<T>, i: nat, x: T)
    requires i <= |s|
    ensures x in s <==> x in s[..i] || x in s[i..]
  {
    assert s == s[..i] + s[i..];
  }

  lemma QueueTail<T>(answer: seq<T>, i: nat, freed: seq<T>, x: T)
    requires Distinct(answer) && i < |answer|
    ensures x in (answer + freed)[i + 1..] <==> x in freed || (x in answer[i..] && x != answer[i])
  {
    assert (answer + freed)[i + 1..] == answer[i + 1..] + freed;
    assert answer[i..] == [answer[i]] + answer[i + 1..];
  }

  /** Appending elements whose parents are all listed keeps the order. */
  lemma OrderedAppend<T(!new)>(E: set<(T, T)>, answer: seq<T>, freed: seq<T>)
    requires Ordered(E, answer)
    requires forall q, k :: 0 <= k < |freed| && (q, freed[k]) in E ==> q in answer
    ensures Ordered(E, answer + freed)
  {
    var more := answer + freed;
    forall q, k | 0 <= k < |more| && (q, more[k]) in E
      ensures q in more[..k]
    {
      if k < |answer| {
        assert more[..k] == answer[..k];
      } else {
        assert more[..k] == answer + freed[..k - |answer|];
        assert more[k] == freed[k - |answer|];
      }
    }
  }

  /** Chains that end at position k of a dependency order have at most k edges. */
  lemma {:induction false} OrderBoundsChains<T(!new)>(E: set<(T, T)>, answer: seq<T>, k: nat, n: nat)
    requires Ordered(E, answer) && k < |answer| && HasChain(E, answer[k], n)
    ensures n <= k
    decreases k
  {
    if n > 0 {
      var p :| (p, answer[k]) in E && HasChain(E, p, n - 1);
      var j :| 0 <= j < k && answer[..k][j] == p;
      OrderBoundsChains(E, answer, j, n - 1);
    }
  }

  /** Elements that wait for unhandled parents only descend from a cycle. */
  lemma WaitersAreCyclic<T(!new)>(numParents: map<T, int>, pairs: seq<(T, T)>, nodes: set<T>, done: set<T>)
    requires Elements(pairs) <= nodes && Counts(numParents, pairs, nodes, done)
    requires forall x :: x in numParents ==> numParents[x] != 0
    ensures forall x :: x in numParents ==> CyclicAncestry(Edges(pairs), x)
  {
    var E := Edges(pairs);
    forall x | x in numParents.Keys
      ensures PrecededIn(E, numParents.Keys, x)
    {
      WaitingZero(pairs, x, done);
      var p :| (p, x) in E && p !in done;
      assert p in numParents.Keys;
    }
    forall x | x in numParents
      ensures CyclicAncestry(E, x)
    {
      ClosedSetHasChains(E, numParents.Keys, x, |nodes|);
      CyclicIffUnboundedChains(E, nodes, x);
    }
  }

  lemma OrderedIsAcyclic<T(!new)>(E: set<(T, T)>, answer: seq<T>, x: T)
    requires Ordered(E, answer) && x in answer
    ensures !CyclicAncestry(E, x)
  {
    if CyclicAncestry(E, x) {
      var k :| 0 <= k < |answer| && answer[k] == x;
      CyclicHasChains(E, x, k + 1);
      OrderBoundsChains(E, answer, k, k + 1);
    }
  }

  /** What is left when no count is zero: exactly the descendants of cycles, so something is left just when there is a
      cycle. */
  lemma LeftOver<T(!new)>(numParents: map<T, int>, pairs: seq<(T, T)>, nodes: set<T>, done: set<T>)
    requires Elements(pairs) <= nodes && Counts(numParents, pairs, nodes, done)
    requires forall x :: x in numParents ==> numParents[x] != 0
    requires forall x :: x in done ==> !CyclicAncestry(Edges(pairs), x)
    ensures forall x :: x in numParents <==> x in nodes && CyclicAncestry(Edges(pairs), x)
    ensures numParents != map[] <==> HasCycle(Edges(pairs))
  {
    WaitersAreCyclic(numParents, pairs, nodes, done);
    if numParents != map[] {
      var x :| x in numParents;
      assert CyclicAncestry(Edges(pairs), x);
    }
    if HasCycle(Edges(pairs)) {
      var c: seq<T> :| Cycle(Edges(pairs), c);
      CycleNodesAreElements(pairs, c);
      assert c[0] in numParents;
    }
  }

  lemma CycleNodesAreElements<T(!new)>(pairs: seq<(T, T)>, c: seq<T>)
    requires Cycle(Edges(pairs), c)
    ensures c[0] in Elements(pairs) && CyclicAncestry(Edges(pairs), c[0])
  {
    assert (c[|c| - 1], c[0]) in Edges(pairs);
    CycleIsCyclic(Edges(pairs), c, 0);
  }

  /** The parents of an element without waits have been handled. */
  lemma FreedParents<T(!new)>(pairs: seq<(T, T)>, numParents: map<T, int>, nodes: set<T>, done: set<T>, freed: seq<T>)
    requires Counts(numParents, pairs, nodes, done)
    requires forall x :: x in freed ==> x in numParents && numParents[x] == 0
    ensures forall q, k {:trigger (q, freed[k]) in Edges(pairs)} ::
              0 <= k < |freed| && (q, freed[k]) in Edges(pairs) ==> q in done
  {
    forall q, k | 0 <= k < |freed| && (q, freed[k]) in Edges(pairs)
      ensures q in done
    {
      WaitingZero(pairs, freed[k], done);
    }
  }

  /** The state of the growing answer: the first i elements are handled. */
  ghost predicate Sorting<T(!new)>(pairs: seq<(T, T)>, numParents: map<T, int>, children: map<T, seq<T>>,
                                   answer: seq<T>, i: nat, done: set<T>) {
    && Represents(numParents, children, pairs, Elements(pairs), done)
    && Queue(answer, i, numParents, done) && Ordered(Edges(pairs), answer)
  }

  lemma SortingStarts<T(!new)>(pairs: seq<(T, T)>, numParents: map<T, int>, children: map<T, seq<T>>, answer: seq<T>)
    requires Represents(numParents, children, pairs, Elements(pairs), {})
    requires Distinct(answer) && forall x :: x in answer <==> x in numParents && numParents[x] == 0
    ensures Sorting(pairs, numParents, children, answer, 0, {})
  {
    FreedParents(pairs, numParents, Elements(pairs), {}, answer);
    OrderedAppend(Edges(pairs), [], answer);
    assert [] + answer == answer;
  }

  /** One turn of the loop over the answer. */
  method HandleNext<T(==, !new)>(numParents0: map<T, int>, children0: map<T, seq<T>>, answer0: seq<T>, i: nat,
                                 ghost pairs: seq<(T, T)>, ghost done: set<T>)
    returns (numParents: map<T, int>, children: map<T, seq<T>>, answer: seq<T>)
    requires Sorting(pairs, numParents0, children0, answer0, i, done) && i < |answer0|
    ensures answer0 <= answer && Sorting(pairs, numParents, children, answer, i + 1, done + {answer0[i]})
    ensures numParents.Keys == numParents0.Keys - {answer0[i]} && answer0[i] in numParents0
  {
    var parent := answer0[i];
    assert parent in answer0[i..];
    var freed: seq<T>;
    numParents, children, freed := Release(numParents0, children0, parent, pairs, Elements(pairs), done);
    CountsDrop(numParents0, numParents, pairs, Elements(pairs), done, parent);
    QueueStep(answer0, i, numParents0, done, numParents, freed);
    AnswerGrows(pairs, numParents, answer0, i, done, freed);
    answer := answer0 + freed;
  }

  lemma AnswerGrows<T(!new)>(pairs: seq<(T, T)>, numParents: map<T, int>, answer: seq<T>, i: nat, done: set<T>,
                             freed: seq<T>)
    requires i < |answer| && Ordered(Edges(pairs), answer) && forall x :: x in done ==> x in answer[..i]
    requires Counts(numParents, pairs, Elements(pairs), done + {answer[i]})
    requires forall x :: x in freed ==> x in numParents && numParents[x] == 0
    ensures Ordered(Edges(pairs), answer + freed)
  {
    FreedParents(pairs, numParents, Elements(pairs), done + {answer[i]}, freed);
    OrderedAppend(Edges(pairs), answer, freed);
  }

  method TopSort<T(==, !new)>(pairs: seq<(T, T)>) returns (r: SortResult<T>)
    ensures r.CycleError? <==> HasCycle(Edges(pairs))
    ensures Distinct(r.answer) && Ordered(Edges(pairs), r.answer)
    ensures forall x :: x in r.answer <==> x in Elements(pairs) && !CyclicAncestry(Edges(pairs), x)
    ensures r.CycleError? ==> Represents(r.numParents, r.children, pairs, Elements(pairs), set x | x in r.answer)
    ensures r.CycleError? ==> forall x :: x in r.numParents <==> x in Elements(pairs) && CyclicAncestry(Edges(pairs), x)
    ensures r.Sorted? ==> forall x :: x in r.answer <==> x in Elements(pairs)
  {
    ghost var E, nodes := Edges(pairs), Elements(pairs);
    var numParents, children := Tabulate(pairs);
    var answer := WithoutParent(numParents);
    ghost var done: set<T> := {};
    SortingStarts(pairs, numParents, children, answer);
    var i := 0;
    while i < |answer|
      invariant Sorting(pairs, numParents, children, answer, i, done)
      decreases numParents.Keys
    {
      ghost var parent := answer[i];
      numParents, children, answer := HandleNext(numParents, children, answer, i, pairs, done);
      done := done + {parent};
      i := i + 1;
    }
    PrefixStep(answer, i);
    assert done == set x | x in answer;
    forall x | x in answer
      ensures !CyclicAncestry(E, x)
    {
      OrderedIsAcyclic(E, answer, x);
    }
    LeftOver(numParents, pairs, nodes, done);
    if numParents != map[] {
      r := CycleError(answer, numParents, children);
    } else {
      r := Sorted(answer);
    }
  }

  lemma CountsDrop<T(!new)>(before: map<T, int>, after: map<T, int>, pairs: seq<(T, T)>, nodes: set<T>, done: set<T>,
                            p: T)
    requires Counts(before, pairs, nodes, done) && Counts(after, pairs, nodes, done + {p}) && p !in done
    ensures forall x :: x in after ==> x in before && 0 <= after[x] <= before[x]
  {
    forall x | x in after
      ensures x in before && after[x] <= before[x]
    {
      WaitingSplit(pairs, x, done, p);
    }
  }

  /** The children dictionary that a CycleError carries has the very cycles of the pair list, so that
      searching it for cycles explains the error completely. */
  lemma CycleErrorKeepsCycles<T(!new)>(children: map<T, seq<T>>, pairs: seq<(T, T)>, done: set<T>, c: seq<T>)
    requires Lists(children, pairs, done)
    requires forall x :: x in done ==> !CyclicAncestry(Edges(pairs), x)
    ensures Cycle(FindCycles.EdgeSet(children), c) <==> Cycle(Edges(pairs), c)
  {
    var E, F := Edges(pairs), FindCycles.EdgeSet(children);
    forall a, b | (a, b) in F
      ensures (a, b) in E
    {
      assert a !in done;
      assert b in Kids(children, a);
    }
    if Cycle(E, c) {
      forall i, b | 0 <= i < |c| && (c[i], b) in E
        ensures (c[i], b) in F
      {
        CycleIsCyclic(E, c, i);
        ChildrenComplete(pairs, c[i], b);
      }
    }
  }

  // topsort_levels

  /** How a run of the level generator ends. */
  datatype LevelsEnd<T> = StopIteration | LevelsCycleError(numParents: map<T, int>, children: map<T, seq<T>>)

  /** Level k lists exactly the elements whose longest chain of predecessors has k edges. */
  ghost predicate IsLevel<T(!new)>(E: set<(T, T)>, nodes: set<T>, level: seq<T>, k: nat) {
    && Distinct(level)
    && forall x :: x in level <==> x in nodes && LongestChain(E, x, k)
  }

  /** The elements handled are those without a chain of k edges. */
  ghost predicate ShortChains<T(!new)>(E: set<(T, T)>, nodes: set<T>, done: set<T>, k: nat) {
    forall x :: x in done <==> x in nodes && !HasChain(E, x, k)
  }

  /** With all elements of shorter chains handled, the counts drop to zero exactly on the next level. */
  lemma ZeroIsNextLevel<T(!new)>(pairs: seq<(T, T)>, numParents: map<T, int>, nodes: set<T>, done: set<T>, k: nat, x: T)
    requires Elements(pairs) <= nodes && Counts(numParents, pairs, nodes, done)
    requires ShortChains(Edges(pairs), nodes, done, k) && x in nodes
    ensures x in numParents && numParents[x] == 0 <==> LongestChain(Edges(pairs), x, k)
  {
    var E := Edges(pairs);
    WaitingZero(pairs, x, done);
    if HasChain(E, x, k + 1) {
      var p :| (p, x) in E && HasChain(E, p, k);
      assert p !in done;
    } else if x in numParents {
      forall p | (p, x) in E
        ensures p in done
      {
        assert !HasChain(E, p, k);
        assert p in nodes;
      }
    }
  }

  /** Handling a whole level moves the bound on the chains up by one. */
  lemma LevelHandled<T(!new)>(E: set<(T, T)>, nodes: set<T>, done: set<T>, level: seq<T>, after: set<T>, k: nat)
    requires ShortChains(E, nodes, done, k) && IsLevel(E, nodes, level, k)
    requires forall x :: x in after <==> x in done || x in level
    ensures ShortChains(E, nodes, after, k + 1)
  {
    forall x | x in nodes && HasChain(E, x, k + 1)
      ensures HasChain(E, x, k)
    {
      ChainShorter(E, x, k, k + 1);
    }
  }

  /** Releases every element of a level. */
  method ReleaseLevel<T(==, !new)>(numParents0: map<T, int>, children0: map<T, seq<T>>, level: seq<T>,
                                   ghost pairs: seq<(T, T)>, ghost nodes: set<T>, ghost done0: set<T>)
    returns (numParents: map<T, int>, children: map<T, seq<T>>)
    requires Represents(numParents0, children0, pairs, nodes, done0)
    requires Distinct(level) && forall x :: x in level ==> x in numParents0 && numParents0[x] == 0
    ensures Represents(numParents, children, pairs, nodes, done0 + set x | x in level)
  {
    numParents, children := numParents0, children0;
    ghost var done := done0;
    for j := 0 to |level|
      invariant Represents(numParents, children, pairs, nodes, done)
      invariant forall x :: x in done <==> x in done0 || x in level[..j]
      invariant forall m :: j <= m < |level| ==> level[m] in numParents && numParents[level[m]] == 0
    {
      var parent := level[j];
      PrefixStep(level, j);
      ghost var before := numParents;
      var freed: seq<T>;
      numParents, children, freed := Release(numParents, children, parent, pairs, nodes, done);
      CountsDrop(before, numParents, pairs, nodes, done, parent);
      done := done + {parent};
    }
    PrefixStep(level, |level|);
    assert done == done0 + set x | x in level;
  }

  /** Everything handled is on one of the levels. */
  ghost predicate OnLevels<T(!new)>(levels: seq<seq<T>>, done: set<T>) {
    forall x :: x in done ==> exists k :: 0 <= k < |levels| && x in levels[k]
  }

  lemma OnLevelsStep<T(!new)>(levels: seq<seq<T>>, level: seq<T>, earlier: set<T>, done: set<T>)
    requires OnLevels(levels, earlier) && forall x :: x in done <==> x in earlier || x in level
    ensures OnLevels(levels + [level], done)
  {
    var more := levels + [level];
    forall x | x in done
      ensures exists k :: 0 <= k < |more| && x in more[k]
    {
      if x in earlier {
        var k :| 0 <= k < |levels| && x in levels[k];
        assert x in more[k];
      } else {
        assert x in more[|levels|];
      }
    }
  }

  /** The levels found so far are right and hold everything handled. */
  ghost predicate LevelsSoFar<T(!new)>(E: set<(T, T)>, nodes: set<T>, levels: seq<seq<T>>, done: set<T>) {
    && (forall k :: 0 <= k < |levels| ==> levels[k] != [] && IsLevel(E, nodes, levels[k], k))
    && ShortChains(E, nodes, done, |levels|)
    && OnLevels(levels, done)
  }

  /** The keys without waits form the next level. */
  lemma NextLevel<T(!new)>(numParents: map<T, int>, pairs: seq<(T, T)>, nodes: set<T>, done: set<T>, level: seq<T>,
                           k: nat)
    requires Elements(pairs) <= nodes && Counts(numParents, pairs, nodes, done)
    requires ShortChains(Edges(pairs), nodes, done, k)
    requires Distinct(level) && forall x :: x in level <==> x in numParents && numParents[x] == 0
    ensures IsLevel(Edges(pairs), nodes, level, k)
  {
    forall x
      ensures x in level <==> x in nodes && LongestChain(Edges(pairs), x, k)
    {
      if x in nodes {
        ZeroIsNextLevel(pairs, numParents, nodes, done, k, x);
      }
    }
  }

  lemma LevelsStep<T(!new)>(E: set<(T, T)>, nodes: set<T>, levels: seq<seq<T>>, level: seq<T>, earlier: set<T>,
                            done: set<T>)
    requires LevelsSoFar(E, nodes, levels, earlier)
    requires level != [] && IsLevel(E, nodes, level, |levels|)
    requires forall x :: x in done <==> x in earlier || x in level
    ensures LevelsSoFar(E, nodes, levels + [level], done)
  {
    LevelHandled(E, nodes, earlier, level, done, |levels|);
    OnLevelsStep(levels, level, earlier, done);
  }

  lemma ShortChainsAcyclic<T(!new)>(E: set<(T, T)>, nodes: set<T>, done: set<T>, k: nat)
    requires ShortChains(E, nodes, done, k)
    ensures forall x :: x in done ==> !CyclicAncestry(E, x)
  {
    forall x | x in done
      ensures !CyclicAncestry(E, x)
    {
      if CyclicAncestry(E, x) {
        CyclicHasChains(E, x, k);
      }
    }
  }

  /** The generator run to its end; pairs are any edge list that the two dictionaries tabulate. */
  method TopSortLevelsCore<T(==, !new)>(numParents0: map<T, int>, children0: map<T, seq<T>>, ghost pairs: seq<(T, T)>)
    returns (levels: seq<seq<T>>, end: LevelsEnd<T>)
    requires Represents(numParents0, children0, pairs, numParents0.Keys, {})
    ensures forall k :: 0 <= k < |levels| ==> levels[k] != [] && IsLevel(Edges(pairs), numParents0.Keys, levels[k], k)
    ensures forall x :: x in numParents0 && !CyclicAncestry(Edges(pairs), x) ==>
              exists k :: 0 <= k < |levels| && x in levels[k]
    ensures end.LevelsCycleError? <==> HasCycle(Edges(pairs))
    ensures end.LevelsCycleError? ==>
              forall x :: x in end.numParents <==> x in numParents0 && CyclicAncestry(Edges(pairs), x)
  {
    ghost var E, nodes := Edges(pairs), numParents0.Keys;
    var numParents, children := numParents0, children0;
    ghost var done: set<T> := {};
    levels := [];
    while true
      invariant Represents(numParents, children, pairs, nodes, done)
      invariant LevelsSoFar(E, nodes, levels, done)
      decreases nodes - done
    {
      var level := WithoutParent(numParents);
      if level == [] {
        break;
      }
      NextLevel(numParents, pairs, nodes, done, level, |levels|);
      ghost var earlier := done;
      assert level[0] in level;
      numParents, children := ReleaseLevel(numParents, children, level, pairs, nodes, done);
      done := done + set x | x in level;
      LevelsStep(E, nodes, levels, level, earlier, done);
      levels := levels + [level];
    }
    assert forall x :: x in numParents ==> numParents[x] != 0;
    ShortChainsAcyclic(E, nodes, done, |levels|);
    LeftOver(numParents, pairs, nodes, done);
    if numParents != map[] {
      end := LevelsCycleError(numParents, children);
    } else {
      end := StopIteration;
    }
  }

  method TopSortLevels<T(==, !new)>(pairs: seq<(T, T)>) returns (levels: seq<seq<T>>, end: LevelsEnd<T>)
    ensures forall k :: 0 <= k < |levels| ==> levels[k] != [] && IsLevel(Edges(pairs), Elements(pairs), levels[k], k)
    ensures Distinct(Flatten(levels)) && Ordered(Edges(pairs), Flatten(levels))
    ensures forall x :: x in Flatten(levels) <==> x in Elements(pairs) && !CyclicAncestry(Edges(pairs), x)
    ensures end.LevelsCycleError? <==> HasCycle(Edges(pairs))
    ensures end.LevelsCycleError? ==>
              forall x :: x in end.numParents <==> x in Elements(pairs) && CyclicAncestry(Edges(pairs), x)
    ensures end.StopIteration? ==> forall x :: x in Flatten(levels) <==> x in Elements(pairs)
  {
    var numParents, children := Tabulate(pairs);
    levels, end := TopSortLevelsCore(numParents, children, pairs);
    LevelsInSequence(Edges(pairs), Elements(pairs), levels);
    forall x
      ensures x in Flatten(levels) <==> x in Elements(pairs) && !CyclicAncestry(Edges(pairs), x)
      ensures x in Elements(pairs) && CyclicAncestry(Edges(pairs), x) ==> HasCycle(Edges(pairs))
    {
      FlattenMember(levels, x);
      LevelMembersAcyclic(Edges(pairs), Elements(pairs), levels, x);
    }
  }

  lemma LevelMembersAcyclic<T(!new)>(E: set<(T, T)>, nodes: set<T>, levels: seq<seq<T>>, x: T)
    requires forall k :: 0 <= k < |levels| ==> IsLevel(E, nodes, levels[k], k)
    ensures (exists k :: 0 <= k < |levels| && x in levels[k]) ==> x in nodes && !CyclicAncestry(E, x)
  {
    if k :| 0 <= k < |levels| && x in levels[k] {
      if CyclicAncestry(E, x) {
        CyclicHasChains(E, x, k + 1);
      }
    }
  }

  /** The parents of an element on level n are on the levels before it. */
  lemma ParentEarlier<T(!new)>(E: set<(T, T)>, nodes: set<T>, levels: seq<seq<T>>, n: nat, q: T, x: T)
    requires forall k :: 0 <= k < |levels| ==> IsLevel(E, nodes, levels[k], k)
    requires n < |levels| && x in levels[n] && (q, x) in E && q in nodes
    ensures q in Flatten(levels[..n])
  {
    assert !HasChain(E, q, n);
    var j := LongestBelow(E, q, n);
    assert q in levels[..n][j];
    FlattenMember(levels[..n], q);
  }

  lemma LongestBelow<T(!new)>(E: set<(T, T)>, x: T, n: nat) returns (k: nat)
    requires !HasChain(E, x, n)
    ensures k < n && LongestChain(E, x, k)
  {
    k := 0;
    while HasChain(E, x, k + 1)
      invariant k < n && HasChain(E, x, k)
      decreases n - k
    {
      if k + 1 == n {
        assert false;
      }
      k := k + 1;
    }
  }

  /** The levels in sequence are a dependency order without repetitions. */
  lemma {:induction false} LevelsInSequence<T(!new)>(E: set<(T, T)>, nodes: set<T>, levels: seq<seq<T>>)
    requires forall a, b :: (a, b) in E ==> a in nodes && b in nodes
    requires forall k :: 0 <= k < |levels| ==> IsLevel(E, nodes, levels[k], k)
    ensures Distinct(Flatten(levels)) && Ordered(E, Flatten(levels))
    decreases |levels|
  {
    if levels != [] {
      var n := |levels| - 1;
      var before, last := Flatten(levels[..n]), levels[n];
      LevelsInSequence(E, nodes, levels[..n]);
      forall j, k | 0 <= j < |before| && 0 <= k < |last|
        ensures before[j] != last[k]
      {
        LevelApart(E, nodes, levels, n, before[j]);
        assert before[j] in before && last[k] in last;
      }
      DistinctConcat(before, last);
      forall q, k | 0 <= k < |last| && (q, last[k]) in E
        ensures q in before
      {
        ParentEarlier(E, nodes, levels, n, q, last[k]);
      }
      OrderedAppend(E, before, last);
    }
  }

  lemma LevelApart<T(!new)>(E: set<(T, T)>, nodes: set<T>, levels: seq<seq<T>>, n: nat, x: T)
    requires forall k :: 0 <= k < |levels| ==> IsLevel(E, nodes, levels[k], k)
    requires n < |levels| && x in Flatten(levels[..n])
    ensures x !in levels[n]
  {
    FlattenMember(levels[..n], x);
    var i :| 0 <= i < n && x in levels[..n][i];
    if x in levels[n] {
      LevelsDisjoint(E, nodes, levels, i, n, x);
    }
  }

  /** A parent's level comes strictly before its child's. */
  lemma LevelsOrder<T(!new)>(E: set<(T, T)>, nodes: set<T>, levels: seq<seq<T>>, i: nat, j: nat, p: T, c: T)
    requires forall k :: 0 <= k < |levels| ==> IsLevel(E, nodes, levels[k], k)
    requires i < |levels| && j < |levels| && p in levels[i] && c in levels[j] && (p, c) in E
    ensures i < j
  {
    assert HasChain(E, c, i + 1);
    if j <= i {
      ChainShorter(E, c, j + 1, i + 1);
    }
  }

  /** No element is on two levels. */
  lemma LevelsDisjoint<T(!new)>(E: set<(T, T)>, nodes: set<T>, levels: seq<seq<T>>, i: nat, j: nat, x: T)
    requires forall k :: 0 <= k < |levels| ==> IsLevel(E, nodes, levels[k], k)
    requires i < |levels| && j < |levels| && x in levels[i] && x in levels[j]
    ensures i == j
  {
    if i < j {
      ChainShorter(E, x, i + 1, j);
    } else if j < i {
      ChainShorter(E, x, j + 1, i);
    }
  }

  /** The generator reaches a level exactly for the elements that descend from no cycle. */
  lemma LevelExists<T(!new)>(E: set<(T, T)>, nodes: set<T>, x: T)
    requires forall a, b :: (a, b) in E ==> a in nodes && b in nodes
    requires x in nodes
    ensures !CyclicAncestry(E, x) <==> exists k: nat :: k < |nodes| && LongestChain(E, x, k)
  {
    if CyclicAncestry(E, x) {
      forall k: nat
        ensures HasChain(E, x, k)
      {
        CyclicHasChains(E, x, k);
      }
    } else {
      CyclicIffUnboundedChains(E, nodes, x);
      var k := LongestBelow(E, x, |nodes|);
    }
  }
}
