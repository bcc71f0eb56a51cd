/** The string splitter of scratch/utils.h. */
module StrSplit {
  import opened Seqs
  import opened Wrappers

  /** The delimiter stands at index p. */
  predicate OccursAt(s: string, d: string, p: nat) {
    p + |d| <= |s| && s[p..p + |d|] == d
  }

  /** The first index from start on at which the delimiter stands. */
  function Find(s: string, d: string, start: nat): (r: Option<nat>)
    ensures r.Some? ==> start <= r.value && r.value + |d| <= |s|
    decreases if start <= |s| then |s| - start + 1 else 0
  {
    if start > |s| then None
    else if OccursAt(s, d, start) then Some(start)
    else Find(s, d, start + 1)
  }

  lemma {:induction false} FindFirst(s: string, d: string, start: nat)
    ensures match Find(s, d, start)
            case Some(p) => OccursAt(s, d, p) && forall q: nat :: start <= q < p ==> !OccursAt(s, d, q)
            case None => forall q: nat :: start <= q ==> !OccursAt(s, d, q)
    decreases if start <= |s| then |s| - start + 1 else 0
  {
    if start <= |s| && !OccursAt(s, d, start) {
      FindFirst(s, d, start + 1);
    }
  }

  lemma FindIs(s: string, d: string, p: nat)
    requires OccursAt(s, d, p) && forall q: nat :: q < p ==> !OccursAt(s, d, q)
    ensures Find(s, d, 0) == Some(p)
  {
    FindFirst(s, d, 0);
  }

  predicate EndsWith(s: string, suffix: string) {
    |s| >= |suffix| && s[|s| - |suffix|..] == suffix
  }

  // Where the loop stands

  /** Where the loop stands after a turn that began at start, which is where it ends once that is behind the string. */
  function NextStart(s: string, d: string, start: nat): nat {
    if start >= |s| then start
    else
      match Find(s, d, start)
      case Some(p) => p + |d|
      case None => |s| + |d|
  }

  /** Where the loop stands after k turns. */
  function StandsAt(s: string, d: string, k: nat): nat {
    if k == 0 then 0 else NextStart(s, d, StandsAt(s, d, k - 1))
  }

  /** With an empty delimiter every turn finds it on the spot and stays there. */
  lemma EmptyDelimiterStays(s: string, start: nat)
    requires start < |s|
    ensures Find(s, "", start) == Some(start) && NextStart(s, "", start) == start
  {
  }

  /** The loop ends exactly when there is a delimiter or nothing to split. */
  lemma LoopEndsIff(s: string, d: string)
    ensures (exists k: nat :: StandsAt(s, d, k) >= |s|) <==> d != "" || s == ""
  {
    if d != "" {
      StandsBehind(s, d, |s|);
    } else if s == "" {
      assert StandsAt(s, d, 0) >= |s|;
    } else {
      forall k: nat
        ensures StandsAt(s, d, k) == 0
      {
        StandsStill(s, k);
      }
    }
  }

  lemma {:induction false} StandsBehind(s: string, d: string, k: nat)
    requires d != ""
    ensures StandsAt(s, d, k) >= k || StandsAt(s, d, k) >= |s|
  {
    if k > 0 {
      StandsBehind(s, d, k - 1);
    }
  }

  lemma {:induction false} StandsStill(s: string, k: nat)
    requires s != ""
    ensures StandsAt(s, "", k) == 0
  {
    if k > 0 {
      StandsStill(s, k - 1);
      EmptyDelimiterStays(s, 0);
    }
  }

  /** The tokens that the loop pushes for a string, empty ones kept. */
  function LoopTokens(s: string, d: string): seq<string>
    requires d != "" || s == ""
    decreases |s|
  {
    if s == "" then []
    else
      match Find(s, d, 0)
      case Some(p) => [s[..p]] + LoopTokens(s[p + |d|..], d)
      case None => [s]
  }

  /** The token pushed after the loop. */
  function Tail(s: string, d: string): seq<string> {
    if s == "" || EndsWith(s, d) then [""] else []
  }

  function NonEmpty(tokens: seq<string>): seq<string> {
    if tokens == [] then []
    else NonEmpty(tokens[..|tokens| - 1]) + if tokens[|tokens| - 1] == "" then [] else [tokens[|tokens| - 1]]
  }

  function Split(s: string, d: string): seq<string>
    requires d != "" || s == ""
  {
    LoopTokens(s, d) + Tail(s, d)
  }

  lemma OccursBehind(s: string, d: string, i: nat, p: nat)
    requires i <= |s|
    ensures OccursAt(s[i..], d, p) <==> OccursAt(s, d, i + p)
  {
    if i + p + |d| <= |s| {
      SliceOfSlice(s, i, |s|, p, p + |d|);
      assert s[i..|s|] == s[i..];
    }
  }

  /** Searching on from an index is searching the rest of the string. */
  lemma {:induction false} FindBehind(s: string, d: string, i: nat, start: nat)
    requires i <= |s|
    ensures Find(s, d, i + start) == match Find(s[i..], d, start) case Some(p) => Some(i + p) case None => None
    decreases if i + start <= |s| then |s| - i - start + 1 else 0
  {
    if i + start <= |s| {
      OccursBehind(s, d, i, start);
      FindBehind(s, d, i, start + 1);
    }
  }

  /** The tokens still to come when the loop stands at start. */
  function Remaining(s: string, d: string, start: nat): seq<string>
    requires d != "" || s == ""
  {
    if start < |s| then LoopTokens(s[start..], d) else []
  }

  /** One turn of the loop. */
  lemma LoopStep(s: string, d: string, start: nat, end: nat, next: nat)
    requires d != "" && start < |s| && next == end + |d|
    requires end == if Find(s, d, start).Some? then Find(s, d, start).value else |s|
    ensures start <= end <= |s|
    ensures Remaining(s, d, start) == [s[start..end]] + Remaining(s, d, next)
  {
    FindBehind(s, d, start, 0);
    if Find(s, d, start).Some? {
      SlicesBehind(s, start, end, next);
      LoopUnfolds(s[start..], d, s[start..end], s[next..]);
      RemainingAt(s, d, start, s[start..]);
      RemainingAt(s, d, next, s[next..]);
    } else {
      assert s[start..end] == s[start..];
      LoopEnds(s[start..], d);
      RemainingAt(s, d, start, s[start..]);
    }
  }

  lemma RemainingAt(s: string, d: string, start: nat, rest: string)
    requires (d != "" || s == "") && start <= |s| && rest == s[start..]
    ensures Remaining(s, d, start) == LoopTokens(rest, d)
  {
  }

  lemma LoopUnfolds(s: string, d: string, token: string, after: string)
    requires d != "" && s != "" && Find(s, d, 0).Some?
    requires token == s[..Find(s, d, 0).value] && after == s[Find(s, d, 0).value + |d|..]
    ensures LoopTokens(s, d) == [token] + LoopTokens(after, d)
  {
  }

  lemma LoopEnds(s: string, d: string)
    requires d != "" && s != "" && Find(s, d, 0).None?
    ensures LoopTokens(s, d) == [s] + []
  {
    assert [s] + [] == [s];
  }

  lemma SlicesBehind(s: string, start: nat, end: nat, next: nat)
    requires start <= end <= next <= |s|
    ensures s[start..][..end - start] == s[start..end] && s[start..][next - start..] == s[next..]
  {
  }

  lemma NextIs(s: string, d: string, start: nat, end: nat)
    requires start < |s|
    requires end == if Find(s, d, start).Some? then Find(s, d, start).value else |s|
    ensures NextStart(s, d, start) == end + |d|
  {
  }

  /** The token at start, and where the loop goes on. */
  method NextToken(s: string, delimiter: string, start: nat) returns (token: string, next: nat)
    requires delimiter != "" && start < |s|
    ensures start < next == NextStart(s, delimiter, start)
    ensures Remaining(s, delimiter, start) == [token] + Remaining(s, delimiter, next)
  {
    var position := Find(s, delimiter, start);
    var end := if position.Some? then position.value else |s|;
    NextIs(s, delimiter, start, end);
    LoopStep(s, delimiter, start, end, end + |delimiter|);
    token := s[start..end];
    next := end + |delimiter|;
  }

  method StrSplit(s: string, delimiter: string, removeEmptyEntries: bool) returns (tokens: seq<string>)
    requires delimiter != "" || s == ""
    ensures !removeEmptyEntries ==> tokens == Split(s, delimiter)
    ensures removeEmptyEntries ==> tokens == NonEmpty(LoopTokens(s, delimiter))
  {
    tokens := [];
    ghost var all: seq<string> := [];
    ghost var coming := Remaining(s, delimiter, 0);
    var start := 0;
    RemainingAt(s, delimiter, 0, s);
    while start < |s|
      invariant coming == Remaining(s, delimiter, start) && all + coming == LoopTokens(s, delimiter)
      invariant tokens == if removeEmptyEntries then NonEmpty(all) else all
      decreases |s| - start
    {
      var token: string, next: nat := NextToken(s, delimiter, start);
      if !removeEmptyEntries || token != "" {
        tokens := tokens + [token];
      }
      NonEmptySnoc(all, token);
      MoveOver(all, token, coming, Remaining(s, delimiter, next));
      all, coming := all + [token], Remaining(s, delimiter, next);
      start := next;
    }
    assert all + [] == all;
    if !removeEmptyEntries && (s == "" || EndsWith(s, delimiter)) {
      tokens := tokens + [""];
    }
  }

  lemma NonEmptySnoc(tokens: seq<string>, token: string)
    ensures NonEmpty(tokens + [token]) == NonEmpty(tokens) + if token == "" then [] else [token]
  {
    assert (tokens + [token])[..|tokens|] == tokens;
  }

  /** The empty tokens are dropped, and no others. */
  lemma {:induction false} OnlyEmptyDropped(tokens: seq<string>)
    ensures multiset(NonEmpty(tokens)) == multiset(tokens)["" := 0]
  {
    if tokens != [] {
      var n := |tokens| - 1;
      OnlyEmptyDropped(tokens[..n]);
      assert tokens == tokens[..n] + [tokens[n]];
    }
  }

  /** The tokens that stay keep their order. */
  lemma {:induction false} NonEmptyConcat(a: seq<string>, b: seq<string>)
    ensures NonEmpty(a + b) == NonEmpty(a) + NonEmpty(b)
    decreases |b|
  {
    if b == [] {
      assert a + b == a;
    } else {
      NonEmptyConcat(a, b[..|b| - 1]);
      PrefixConcat(a, b);
    }
  }

  /** The token that starts at "start" ends at the first delimiter from there on, or with the string; the next one
      starts behind the delimiter. */
  ghost predicate CutAt(s: string, d: string, start: nat, next: nat, token: string) {
    && start + |d| <= next <= |s| + |d| && token == s[start..next - |d|]
    && (next - |d| == |s| || OccursAt(s, d, next - |d|))
    && forall q: nat :: start <= q < next - |d| ==> !OccursAt(s, d, q)
  }

  /** The tokens are cut one behind another until the string is used up. */
  ghost predicate AreCut(s: string, d: string, tokens: seq<string>, cuts: seq<nat>) {
    && |cuts| == |tokens| + 1 && cuts[|tokens|] >= |s|
    && forall k :: 0 <= k < |tokens| ==> cuts[k] < |s| && CutAt(s, d, cuts[k], cuts[k + 1], tokens[k])
  }

  lemma CutBefore(s: string, d: string, tokens: seq<string>, cuts: seq<nat>, token: string, start: nat)
    requires AreCut(s, d, tokens, cuts) && start < |s| && CutAt(s, d, start, cuts[0], token)
    ensures AreCut(s, d, [token] + tokens, [start] + cuts)
  {
    forall k | 0 <= k < |tokens| + 1
      ensures ([start] + cuts)[k] < |s|
      ensures CutAt(s, d, ([start] + cuts)[k], ([start] + cuts)[k + 1], ([token] + tokens)[k])
    {
      if k > 0 {
        assert CutAt(s, d, cuts[k - 1], cuts[k], tokens[k - 1]);
      }
    }
  }

  /** The end of the token at start. */
  function EndOf(s: string, d: string, start: nat): (end: nat)
    requires start <= |s|
    ensures start <= end <= |s|
  {
    if Find(s, d, start).Some? then Find(s, d, start).value else |s|
  }

  lemma TokenIsCut(s: string, d: string, start: nat)
    requires d != "" && start < |s|
    ensures CutAt(s, d, start, EndOf(s, d, start) + |d|, s[start..EndOf(s, d, start)])
  {
    FindFirst(s, d, start);
  }

  lemma RestIsCut(s: string, d: string, start: nat, tokens: seq<string>, cuts: seq<nat>)
    requires d != "" && start < |s| && AreCut(s, d, tokens, cuts) && cuts[0] == EndOf(s, d, start) + |d|
    ensures AreCut(s, d, [s[start..EndOf(s, d, start)]] + tokens, [start] + cuts)
  {
    TokenIsCut(s, d, start);
    CutBefore(s, d, tokens, cuts, s[start..EndOf(s, d, start)], start);
  }

  lemma {:induction false} TokensAreCut(s: string, d: string, start: nat, tokens: seq<string>)
      returns (cuts: seq<nat>)
    requires d != "" && tokens == Remaining(s, d, start)
    ensures AreCut(s, d, tokens, cuts) && cuts[0] == start
    decreases |s| - start
  {
    if start >= |s| {
      cuts := [start];
    } else {
      var next := EndOf(s, d, start) + |d|;
      LoopStep(s, d, start, EndOf(s, d, start), next);
      var rest := Remaining(s, d, next);
      cuts := TokensAreCut(s, d, next, rest);
      RestIsCut(s, d, start, rest, cuts);
      cuts := [start] + cuts;
    }
  }

  function Join(tokens: seq<string>, d: string): string {
    if tokens == [] then ""
    else if |tokens| == 1 then tokens[0]
    else tokens[0] + d + Join(tokens[1..], d)
  }

  lemma JoinCons(token: string, rest: seq<string>, d: string)
    requires rest != []
    ensures Join([token] + rest, d) == token + d + Join(rest, d)
  {
    assert ([token] + rest)[1..] == rest;
  }

  ghost predicate Contains(s: string, d: string) {
    exists p: nat :: OccursAt(s, d, p)
  }

  /** Some proper part of d stands both at its front and at its end, so that two occurrences of d can overlap. */
  ghost predicate OverlapsItself(d: string) {
    exists b :: 0 < b < |d| && d[..b] == d[|d| - b..]
  }

  /** The string up to its first delimiter does not contain one. */
  lemma PrefixIsFree(s: string, d: string, p: nat)
    requires d != "" && Find(s, d, 0) == Some(p)
    ensures !Contains(s[..p], d)
  {
    FindFirst(s, d, 0);
    forall q: nat
      ensures !OccursAt(s[..p], d, q)
    {
      if q + |d| <= p {
        assert s[..p][q..q + |d|] == s[q..q + |d|];
        assert !OccursAt(s, d, q);
      }
    }
  }

  /** No token contains the delimiter. */
  lemma {:induction false} TokensAreFree(s: string, d: string, k: nat)
    requires d != "" && k < |LoopTokens(s, d)|
    ensures !Contains(LoopTokens(s, d)[k], d)
    decreases |s|
  {
    match Find(s, d, 0)
    case Some(p) =>
      if k == 0 {
        PrefixIsFree(s, d, p);
      } else {
        TokensAreFree(s[p + |d|..], d, k - 1);
      }
    case None => FindFirst(s, d, 0);
  }

  /** Two overlapping occurrences make the delimiter overlap itself. */
  lemma OverlapGivesBorder(s: string, d: string, p: nat, q: nat)
    requires OccursAt(s, d, p) && OccursAt(s, d, q) && p < q < p + |d|
    ensures OverlapsItself(d)
  {
    var b := p + |d| - q;
    assert d[|d| - b..] == s[q..p + |d|];
    assert d[..b] == s[q..q + b];
  }

  /** The token after the loop depends only on what follows the first delimiter. */
  lemma TailOfRest(token: string, d: string, after: string)
    requires d != "" && !OverlapsItself(d)
    ensures Tail(token + d + after, d) == Tail(after, d)
  {
    var s := token + d + after;
    assert OccursAt(s, d, |token|) by { assert s[|token|..|token| + |d|] == d; }
    if after == "" {
      assert s[|s| - |d|..] == d;
    } else if |after| >= |d| {
      assert s[|s| - |d|..] == after[|after| - |d|..];
    } else if EndsWith(s, d) {
      assert OccursAt(s, d, |s| - |d|);
      OverlapGivesBorder(s, d, |token|, |s| - |d|);
    }
  }

  lemma OccursInFront(token: string, more: string, d: string, q: nat)
    ensures OccursAt(token + more, d, q) && q + |d| <= |token| ==> OccursAt(token, d, q)
  {
    if q + |d| <= |token| {
      assert (token + more)[q..q + |d|] == token[q..q + |d|];
    }
  }

  /** The first delimiter after a token without one. */
  lemma FirstDelimiter(token: string, d: string, after: string)
    requires d != "" && !OverlapsItself(d) && !Contains(token, d)
    ensures Find(token + d + after, d, 0) == Some(|token|)
  {
    var s := token + d + after;
    assert s[|token|..|token| + |d|] == d && s == token + (d + after);
    forall q: nat | q < |token|
      ensures !OccursAt(s, d, q)
    {
      if OccursAt(s, d, q) {
        if q + |d| > |token| {
          OverlapGivesBorder(s, d, q, |token|);
        }
        OccursInFront(token, d + after, d, q);
      }
    }
    FindIs(s, d, |token|);
  }

  /** Splitting a token without the delimiter, the delimiter, and more, is the token and the split of the rest. */
  lemma SplitFirst(token: string, d: string, after: string)
    requires d != "" && !OverlapsItself(d) && !Contains(token, d)
    ensures Split(token + d + after, d) == [token] + Split(after, d)
  {
    var s := token + d + after;
    FirstDelimiter(token, d, after);
    TailOfRest(token, d, after);
    assert s[..|token|] == token && s[|token| + |d|..] == after;
    ConcatAssociative([token], LoopTokens(after, d), Tail(after, d));
  }

  lemma SplitFree(token: string, d: string)
    requires d != "" && !Contains(token, d)
    ensures Split(token, d) == [token]
  {
    FindFirst(token, d, 0);
    if token != "" {
      assert !OccursAt(token, d, if |token| >= |d| then |token| - |d| else 0);
      assert LoopTokens(token, d) == [token];
    }
  }

  /** Splitting the join of any tokens without the delimiter gives these tokens. */
  lemma {:induction false} SplitJoin(tokens: seq<string>, d: string)
    requires d != "" && !OverlapsItself(d)
    requires tokens != [] && forall k :: 0 <= k < |tokens| ==> !Contains(tokens[k], d)
    ensures Split(Join(tokens, d), d) == tokens
    decreases |tokens|
  {
    if |tokens| == 1 {
      SplitFree(tokens[0], d);
    } else {
      SplitJoin(tokens[1..], d);
      SplitFirst(tokens[0], d, Join(tokens[1..], d));
      assert [tokens[0]] + tokens[1..] == tokens;
    }
  }

  /** Joining the tokens of a string gives the string back. */
  lemma {:induction false} JoinSplit(s: string, d: string)
    requires d != "" && !OverlapsItself(d)
    ensures Split(s, d) != [] && Join(Split(s, d), d) == s
    decreases |s|
  {
    FindFirst(s, d, 0);
    match Find(s, d, 0)
    case Some(p) =>
      var token, after := s[..p], s[p + |d|..];
      assert s == token + d + after;
      PrefixIsFree(s, d, p);
      JoinSplit(after, d);
      SplitFirst(token, d, after);
      JoinCons(token, Split(after, d), d);
    case None => SplitFree(s, d);
  }

  lemma JoinThree(a: string, b: string, c: string, d: string)
    ensures Join([a, b, c], d) == a + d + (b + d + c)
  {
    JoinCons(b, [c], d);
    JoinCons(a, [b, c], d);
  }

  /** A border b of d breaks the splitting of d followed by its part after the border. */
  lemma BorderBreaksJoin(d: string, b: nat)
    requires 0 < b < |d| && d[..b] == d[|d| - b..]
    ensures |Join(Split(d + d[b..], d), d)| == |d + d[b..]| + |d|
  {
    var s, rest := d + d[b..], d[b..];
    assert s[..|d|] == d && s[0..|d|] == d;
    FindIs(s, d, 0);
    assert s[|d|..] == rest && s[..0] == "";
    FindFirst(rest, d, 0);
    assert LoopTokens(rest, d) == [rest];
    assert LoopTokens(s, d) == [""] + [rest];
    BorderEnds(d, b);
    assert Split(s, d) == ["", rest, ""];
    JoinThree("", rest, "", d);
  }

  lemma BorderEnds(d: string, b: nat)
    requires 0 < b < |d| && d[..b] == d[|d| - b..]
    ensures EndsWith(d + d[b..], d)
  {
    var s := d + d[b..];
    assert s[|s| - |d|..] == d[|d| - b..] + d[b..];
    assert d[..b] + d[b..] == d;
  }

  /** Joining the tokens gives every string back exactly when the delimiter does not overlap itself. */
  lemma JoinUndoesSplit(d: string)
    requires d != ""
    ensures (forall s: string :: Join(Split(s, d), d) == s) <==> !OverlapsItself(d)
  {
    if OverlapsItself(d) {
      var b :| 0 < b < |d| && d[..b] == d[|d| - b..];
      BorderBreaksJoin(d, b);
      assert Join(Split(d + d[b..], d), d) != d + d[b..];
    } else {
      forall s: string
        ensures Join(Split(s, d), d) == s
      {
        JoinSplit(s, d);
      }
    }
  }

  // Which strings come back

  /** The last delimiter that the loop uses ends the string. */
  predicate Lands(s: string, d: string)
    requires d != ""
    decreases |s|
  {
    match Find(s, d, 0)
    case Some(p) => s[p + |d|..] == "" || Lands(s[p + |d|..], d)
    case None => false
  }

  lemma {:induction false} LandsEndsWith(s: string, d: string)
    requires d != "" && Lands(s, d)
    ensures EndsWith(s, d)
    decreases |s|
  {
    FindFirst(s, d, 0);
    var p := Find(s, d, 0).value;
    var rest := s[p + |d|..];
    if rest != "" {
      LandsEndsWith(rest, d);
      assert s[|s| - |d|..] == rest[|rest| - |d|..];
    }
  }

  /** Joining the tokens of the loop loses the last delimiter exactly if it ends the string. */
  lemma {:induction false} JoinLoop(s: string, d: string)
    requires d != "" && s != ""
    ensures LoopTokens(s, d) != []
    ensures s == if Lands(s, d) then Join(LoopTokens(s, d), d) + d else Join(LoopTokens(s, d), d)
    decreases |s|
  {
    FindFirst(s, d, 0);
    match Find(s, d, 0)
    case Some(p) =>
      var token, rest := s[..p], s[p + |d|..];
      assert s == token + d + rest;
      if rest == "" {
        assert LoopTokens(s, d) == [token];
      } else {
        JoinLoop(rest, d);
        JoinCons(token, LoopTokens(rest, d), d);
        ConcatAssociative(token + d, Join(LoopTokens(rest, d), d), d);
      }
    case None =>
  }

  lemma {:induction false} JoinSnocEmpty(tokens: seq<string>, d: string)
    requires tokens != []
    ensures Join(tokens + [""], d) == Join(tokens, d) + d
    decreases |tokens|
  {
    if |tokens| == 1 {
      JoinWithEmpty(tokens[0], d);
      assert tokens + [""] == [tokens[0], ""];
    } else {
      JoinSnocEmpty(tokens[1..], d);
      assert tokens + [""] == [tokens[0]] + (tokens[1..] + [""]);
      JoinCons(tokens[0], tokens[1..] + [""], d);
      ConcatAssociative(tokens[0] + d, Join(tokens[1..], d), d);
    }
  }

  lemma NextOnRest(s: string, d: string, n: nat, m: nat, rest: string)
    requires n <= |s| && rest == s[n..]
    ensures NextStart(s, d, n + m) == n + NextStart(rest, d, m)
  {
    FindBehind(s, d, n, m);
  }

  /** The loop stands at the same places behind the first token as on the rest of the string alone. */
  lemma {:induction false} StandsOnRest(s: string, d: string, n: nat, rest: string, k: nat)
    requires n <= |s| && rest == s[n..] && StandsAt(s, d, 1) == n
    ensures StandsAt(s, d, k + 1) == n + StandsAt(rest, d, k)
    decreases k
  {
    if k > 0 {
      StandsOnRest(s, d, n, rest, k - 1);
      StandsShift(s, d, n, rest, k, StandsAt(rest, d, k - 1));
    }
  }

  lemma StandsShift(s: string, d: string, n: nat, rest: string, k: nat, m: nat)
    requires n <= |s| && rest == s[n..] && k > 0
    requires StandsAt(s, d, k) == n + m && StandsAt(rest, d, k - 1) == m
    ensures StandsAt(s, d, k + 1) == n + StandsAt(rest, d, k)
  {
    NextOnRest(s, d, n, m, rest);
  }

  lemma StandsFirst(s: string, d: string, n: nat)
    requires s != "" && n == NextStart(s, d, 0)
    ensures StandsAt(s, d, 1) == n
  {
    assert StandsAt(s, d, 0) == 0;
  }

  lemma {:induction false} StandsBeyond(s: string, d: string, k: nat)
    requires s != "" && NextStart(s, d, 0) > |s|
    ensures StandsAt(s, d, k) != |s|
  {
    if k > 1 {
      StandsBeyond(s, d, k - 1);
      StandsOnly(s, d, k - 1);
    }
  }

  lemma {:induction false} StandsOnly(s: string, d: string, k: nat)
    requires k > 0 && s != "" && NextStart(s, d, 0) > |s|
    ensures StandsAt(s, d, k) == NextStart(s, d, 0)
  {
    if k > 1 {
      StandsOnly(s, d, k - 1);
    } else {
      assert StandsAt(s, d, 0) == 0;
    }
  }

  /** The loop stands at the end of the string at some time. */
  ghost predicate EndsAtEnd(s: string, d: string) {
    exists k: nat :: StandsAt(s, d, k) == |s|
  }

  lemma EndsOnRest(s: string, d: string, n: nat, rest: string)
    requires s != "" && n <= |s| && rest == s[n..] && StandsAt(s, d, 1) == n
    ensures EndsAtEnd(s, d) <==> EndsAtEnd(rest, d)
  {
    if k: nat :| StandsAt(rest, d, k) == |rest| {
      StandsOnRest(s, d, n, rest, k);
    }
    if k: nat :| StandsAt(s, d, k) == |s| {
      assert k > 0;
      StandsOnRest(s, d, n, rest, k - 1);
    }
  }

  /** The last delimiter ends the string exactly if the loop ends at the end of the string and not behind it. */
  lemma {:induction false} LandsIffStands(s: string, d: string)
    requires d != "" && s != ""
    ensures Lands(s, d) <==> EndsAtEnd(s, d)
    decreases |s|
  {
    match Find(s, d, 0)
    case Some(p) =>
      var n := p + |d|;
      var rest := s[n..];
      StandsFirst(s, d, n);
      EndsOnRest(s, d, n, rest);
      if rest == "" {
        assert StandsAt(rest, d, 0) == |rest|;
      } else {
        LandsIffStands(rest, d);
      }
    case None =>
      forall k: nat
        ensures StandsAt(s, d, k) != |s|
      {
        StandsBeyond(s, d, k);
      }
  }

  /** Joining the tokens of a string gives it back exactly if, should it end with the delimiter, the loop ends at the
      end of the string: it must have used that very delimiter. */
  lemma JoinUndoesSplitOf(s: string, d: string)
    requires d != ""
    ensures Join(Split(s, d), d) == s <==> (EndsWith(s, d) ==> EndsAtEnd(s, d))
  {
    if s != "" {
      LandsIffStands(s, d);
      JoinLoop(s, d);
      JoinSnocEmpty(LoopTokens(s, d), d);
      if Lands(s, d) {
        LandsEndsWith(s, d);
      } else if EndsWith(s, d) {
        assert |Join(Split(s, d), d)| == |s| + |d|;
      } else {
        assert LoopTokens(s, d) + [] == LoopTokens(s, d);
      }
    }
  }

  /** The tokens are some tokens without the delimiter. */
  ghost predicate FreeTokens(tokens: seq<string>, d: string) {
    tokens != [] && forall k :: 0 <= k < |tokens| ==> !Contains(tokens[k], d)
  }

  /** The front of d before the border, followed by d, is d followed by its part after the border. */
  lemma BorderShift(d: string, b: nat)
    requires 0 < b < |d| && d[..b] == d[|d| - b..]
    ensures d[..|d| - b] + d == d + d[b..]
  {
    var u, x, v := d[..|d| - b], d[..b], d[b..];
    assert d == u + x && d == x + v;
    ConcatAssociative(u, x, v);
  }

  lemma JoinWithEmpty(token: string, d: string)
    ensures Join([token, ""], d) == token + d
  {
    JoinCons(token, [""], d);
  }

  lemma FrontIsFree(d: string, n: nat)
    requires n < |d|
    ensures FreeTokens([d[..n], ""], d)
  {
  }

  /** For a border b of d, the front of d before the border and an empty token do not come back: their join starts
      with d. */
  lemma BorderBreaksSplit(d: string, b: nat) returns (tokens: seq<string>)
    requires 0 < b < |d| && d[..b] == d[|d| - b..]
    ensures tokens == [d[..|d| - b], ""] && FreeTokens(tokens, d) && Split(Join(tokens, d), d) != tokens
  {
    tokens := [d[..|d| - b], ""];
    FrontIsFree(d, |d| - b);
    JoinWithEmpty(tokens[0], d);
    BorderShift(d, b);
    BorderBreaksJoin(d, b);
  }

  /** Splitting gives all tokens without the delimiter back exactly when the delimiter does not overlap itself. */
  lemma SplitUndoesJoin(d: string)
    requires d != ""
    ensures (forall tokens: seq<string> :: FreeTokens(tokens, d) ==> Split(Join(tokens, d), d) == tokens)
            <==> !OverlapsItself(d)
  {
    if OverlapsItself(d) {
      var b :| 0 < b < |d| && d[..b] == d[|d| - b..];
      var tokens := BorderBreaksSplit(d, b);
    } else {
      forall tokens: seq<string> | FreeTokens(tokens, d)
        ensures Split(Join(tokens, d), d) == tokens
      {
        SplitJoin(tokens, d);
      }
    }
  }

  /** For a delimiter of one character, splitting and joining undo each other. */
  lemma SingleCharacter(c: char, s: string, tokens: seq<string>)
    requires tokens != [] && forall k :: 0 <= k < |tokens| ==> c !in tokens[k]
    ensures Join(Split(s, [c]), [c]) == s
    ensures Split(Join(tokens, [c]), [c]) == tokens
  {
    assert !OverlapsItself([c]);
    JoinUndoesSplit([c]);
    forall k | 0 <= k < |tokens|
      ensures !Contains(tokens[k], [c])
    {
      if Contains(tokens[k], [c]) {
        assert false;
      }
    }
    assert FreeTokens(tokens, [c]);
    SplitUndoesJoin([c]);
  }
}
