/** What every run of the controller keeps, and why redirections run out. */
module ControllerTheorems {
  import opened Digraph
  import opened ShortestPaths
  import opened ControllerModel
  import opened Wrappers

  // The cache

  lemma ProvideKeepsLimits(c: Cache, node: nat, video: nat)
    requires WithinLimits(c) && Available(c, node, video)
    ensures WithinLimits(Provide(c, node, video))
    ensures video in VideosAt(Provide(c, node, video), node)
    ensures forall v, x :: x in VideosAt(c, v) ==> x in VideosAt(Provide(c, node, video), v)
  {
    var d := Provide(c, node, video);
    forall v
      ensures PlacedAt(d, v) <= LimitAt(d, v) && Distinct(VideosAt(d, v))
      ensures forall x :: x in VideosAt(c, v) ==> x in VideosAt(d, v)
    {
      assert PlacedAt(c, v) <= LimitAt(c, v);
    }
  }

  /** A node's count of placed videos moves with the number of videos it holds. */
  lemma ProvideCounts(c: Cache, node: nat, video: nat, v: nat)
    ensures PlacedAt(Provide(c, node, video), v) - PlacedAt(c, v)
            == |VideosAt(Provide(c, node, video), v)| - |VideosAt(c, v)|
    ensures LimitAt(Provide(c, node, video), v) == LimitAt(c, v)
  {
  }

  // The target of a redirection

  /** The walk back ends at the stop node without having passed a node that is available. */
  ghost predicate WalkedTo(c: Cache, p: seq<nat>, top: nat, stop: nat, a: nat, content: nat) {
    && 1 <= stop <= top < |p| && (stop == 1 || p[stop] == a)
    && (forall i :: stop < i <= top ==> p[i] != a && !Available(c, p[i], content))
  }

  lemma {:induction false} TargetFromIsFirst(c: Cache, p: seq<nat>, pos: nat, a: nat, content: nat)
    requires pos + 1 < |p|
    ensures match TargetFrom(c, p, pos, a, content)
            case Some(k) =>
              && 2 <= k <= pos + 1 && Available(c, p[k], content)
              && (forall i :: k <= i <= pos + 1 ==> p[i] != a)
              && (forall i :: k < i <= pos + 1 ==> !Available(c, p[i], content))
            case None => var top := pos + 1; exists stop :: WalkedTo(c, p, top, stop, a, content)
    decreases pos
  {
    if pos == 0 || p[pos + 1] == a {
      assert WalkedTo(c, p, pos + 1, pos + 1, a, content);
    } else if Available(c, p[pos + 1], content) {
    } else {
      TargetFromIsFirst(c, p, pos - 1, a, content);
      if TargetFrom(c, p, pos - 1, a, content).None? {
        var stop :| WalkedTo(c, p, pos, stop, a, content);
        assert WalkedTo(c, p, pos + 1, stop, a, content);
      }
    }
  }

  /** With the congested link at index j of a simple route, the target is the last available node strictly behind
      the link, apart from the first two nodes of the route; there is none exactly when no such node is available. */
  lemma TargetIsLastAvailable(c: Cache, p: seq<nat>, a: nat, b: nat, content: nat, j: nat)
    requires Distinct(p) && j + 1 < |p| && p[j] == a && p[j + 1] == b
    ensures match Target(c, p, a, b, content)
            case Some(k) =>
              && j < k < |p| && 2 <= k && Available(c, p[k], content)
              && (forall i :: k < i < |p| ==> !Available(c, p[i], content))
            case None => forall i :: j < i < |p| && 2 <= i ==> !Available(c, p[i], content)
  {
    TargetFromIsFirst(c, p, |p| - 2, a, content);
    assert Crosses(p, a, b);
    if Target(c, p, a, b, content).None? {
      var stop :| WalkedTo(c, p, |p| - 1, stop, a, content);
      assert stop == 1 || stop == j;
    }
  }

  // The invariant

  lemma ServedStays(w: World, pre: State, post: State, g: Group)
    requires Served(w, pre, g)
    requires forall v, x :: x in VideosAt(pre.cache, v) ==> x in VideosAt(post.cache, v)
    requires g.Key() in post.table && post.table[g.Key()] == pre.table[g.Key()]
    ensures Served(w, post, g)
  {
  }

  lemma MoveKeepsInv(w: World, pre: State, i: nat, node: nat, post: State)
    requires Sane(w) && Inv(w, pre) && i < |pre.groups| && node < w.n
    requires Available(pre.cache, node, pre.groups[i].content)
    requires Moved(w, pre, i, node, post)
    ensures Inv(w, post)
  {
    var g := pre.groups[i];
    var r :| ShortestRoute(w.E, node, g.from, r) && post == MovedOver(w, pre, i, node, r);
    ProvideKeepsLimits(pre.cache, node, g.content);
    assert Served(w, pre, g);
    forall j | 0 <= j < |post.groups|
      ensures post.groups[j].Key() == pre.groups[j].Key()
      ensures Served(w, post, post.groups[j])
    {
      if j != i {
        assert pre.groups[j].Key() != g.Key() by {
          assert UniqueKeys(pre.groups);
        }
        ServedStays(w, pre, post, pre.groups[j]);
      }
    }
    MoveKeepsDefault(w, pre, i, post);
  }

  /** Only the table entry of the moved group changes, and caches only gain videos. */
  lemma MoveKeepsDefault(w: World, pre: State, i: nat, post: State)
    requires Sane(w) && OriginDefault(w, pre) && i < |pre.groups| == |post.groups|
    requires forall j :: 0 <= j < |pre.groups| ==> post.groups[j].Key() == pre.groups[j].Key()
    requires post.table.Keys == pre.table.Keys
    requires forall key :: key in pre.table && key != pre.groups[i].Key() ==> post.table[key] == pre.table[key]
    requires forall v, x :: x in VideosAt(pre.cache, v) ==> x in VideosAt(post.cache, v)
    ensures OriginDefault(w, post)
  {
    forall key | key in post.table
      ensures key.1 in VideosAt(post.cache, w.origin)
      ensures NoGroup(post.groups, key) ==> post.table[key] == w.addr[w.origin]
    {
      assert key in pre.table;
      if NoGroup(post.groups, key) {
        SameKeys(pre.groups, post.groups, key);
      }
    }
  }

  lemma JoinKeepsDefault(w: World, pre: State, post: State)
    requires OriginDefault(w, pre) && post.table == pre.table && post.cache == pre.cache
    requires |pre.groups| <= |post.groups|
    requires forall j :: 0 <= j < |pre.groups| ==> post.groups[j].Key() == pre.groups[j].Key()
    ensures OriginDefault(w, post)
  {
    forall key | key in post.table && NoGroup(post.groups, key)
      ensures NoGroup(pre.groups, key)
    {
      SameKeys(pre.groups, post.groups, key);
    }
  }

  lemma SameKeys(pre: seq<Group>, post: seq<Group>, key: (string, nat))
    requires |pre| <= |post| && forall j :: 0 <= j < |pre| ==> pre[j].Key() == post[j].Key()
    requires NoGroup(post, key)
    ensures NoGroup(pre, key)
  {
  }

  /** Users do not matter to how a group is served. */
  lemma ServedLater(w: World, pre: State, post: State, g: Group, h: Group)
    requires Served(w, pre, g) && post.cache == pre.cache && post.table == pre.table && h == g.(users := h.users)
    ensures Served(w, post, h) && h.Key() == g.Key()
  {
  }

  lemma JoinExisting(w: World, pre: State, i: nat, user: User)
    requires Inv(w, pre) && i < |pre.groups|
    ensures Inv(w, Joined(pre, i, user))
  {
    var post := Joined(pre, i, user);
    forall j | 0 <= j < |pre.groups|
      ensures post.groups[j].Key() == pre.groups[j].Key()
      ensures Served(w, post, post.groups[j])
    {
      ServedLater(w, pre, post, pre.groups[j], post.groups[j]);
    }
    JoinKeepsDefault(w, pre, post);
  }

  lemma JoinNew(w: World, pre: State, g: Group)
    requires Sane(w) && Inv(w, pre) && g.Key() in pre.table && NoGroup(pre.groups, g.Key())
    requires g.ap == g.from < w.n && g.serverIp == pre.table[g.Key()] && ShortestRoute(w.E, w.origin, g.from, g.route)
    ensures Inv(w, pre.(groups := pre.groups + [g]))
  {
    var post := pre.(groups := pre.groups + [g]);
    assert Served(w, post, g);
    forall j | 0 <= j < |pre.groups|
      ensures Served(w, post, post.groups[j])
    {
      ServedLater(w, pre, post, pre.groups[j], post.groups[j]);
    }
    JoinKeepsDefault(w, pre, post);
  }

  lemma JoinKeepsInv(w: World, pre: State, bcast: string, user: User, from: nat, post: State)
    requires Sane(w) && Inv(w, pre) && from < w.n && (bcast, user.content) in pre.table
    requires Joins(w, pre, bcast, user, from, post)
    ensures Inv(w, post)
  {
    var key := (bcast, user.content);
    var i := Find(pre.groups, key);
    if i < |pre.groups| {
      JoinExisting(w, pre, i, user);
    } else {
      var r: seq<nat> :| ShortestRoute(w.E, w.origin, from, r) && post == Opened(pre, bcast, user, from, w.origin, r);
      JoinNew(w, pre, Group(bcast, pre.table[key], user.content, [user], from, from, w.origin, r));
    }
  }

  /** What adding a user has to do to be a step. */
  lemma AddIsStep(w: World, pre: State, bcast: string, user: User, from: nat, post: State)
    requires Sane(w) && Inv(w, pre) && from < w.n && (bcast, user.content) in pre.table
    requires Joins(w, pre, bcast, user, from, post)
    ensures Step(w, pre, Add(bcast, user, from), post) && Inv(w, post)
  {
    JoinKeepsInv(w, pre, bcast, user, from, post);
  }

  lemma TargetOnRoute(c: Cache, p: seq<nat>, a: nat, b: nat, content: nat)
    ensures var target := Target(c, p, a, b, content);
            target.Some? ==> target.value < |p| && Available(c, p[target.value], content)
  {
    if Crosses(p, a, b) {
      TargetFromIsFirst(c, p, |p| - 2, a, content);
    }
  }

  /** The target of a redirection is an available node of the topology. */
  lemma TargetAvailable(w: World, st: State, a: nat, b: nat, i: nat)
    requires Sane(w) && Inv(w, st) && i < |st.groups|
    ensures var g := st.groups[i]; var target := Target(st.cache, g.route, a, b, g.content);
            target.Some? ==>
              && target.value < |g.route| && g.route[target.value] < w.n
              && Available(st.cache, g.route[target.value], g.content)
  {
    var g := st.groups[i];
    TargetOnRoute(st.cache, g.route, a, b, g.content);
    var target := Target(st.cache, g.route, a, b, g.content);
    if target.Some? {
      RouteInRange(w, st, i, target.value);
    }
  }

  lemma RedirectKeepsInv(w: World, pre: State, a: nat, b: nat, i: nat, post: State)
    requires Sane(w) && Inv(w, pre) && Step(w, pre, Redirect(a, b, i), post)
    ensures Inv(w, post)
  {
    var g := pre.groups[i];
    var target := Target(pre.cache, g.route, a, b, g.content);
    TargetAvailable(w, pre, a, b, i);
    if target.Some? {
      MoveKeepsInv(w, pre, i, g.route[target.value], post);
    }
  }

  /** What a turn of the redirecting loop has to do to be a step. */
  lemma RedirectIsStep(w: World, pre: State, a: nat, b: nat, i: nat, node: nat, r: seq<nat>, post: State)
    requires Sane(w) && Inv(w, pre) && i < |pre.groups| && node < w.n
    requires var target := Target(pre.cache, pre.groups[i].route, a, b, pre.groups[i].content);
             target.Some? && target.value < |pre.groups[i].route| && pre.groups[i].route[target.value] == node
    requires ShortestRoute(w.E, node, pre.groups[i].from, r) && post == MovedOver(w, pre, i, node, r)
    ensures Step(w, pre, Redirect(a, b, i), post) && Inv(w, post)
  {
    assert Moved(w, pre, i, node, post);
    RedirectKeepsInv(w, pre, a, b, i, post);
  }

  lemma NoRedirectIsStep(w: World, pre: State, a: nat, b: nat, i: nat)
    requires i < |pre.groups| && Target(pre.cache, pre.groups[i].route, a, b, pre.groups[i].content).None?
    ensures Step(w, pre, Redirect(a, b, i), pre)
  {
  }

  /** What applying an answer of the solver has to do to be a step. */
  lemma AssignIsStep(w: World, pre: State, i: nat, server: nat, r: seq<nat>, post: State)
    requires Sane(w) && Inv(w, pre) && i < |pre.groups| && server < w.n
    requires Available(pre.cache, server, pre.groups[i].content)
    requires ShortestRoute(w.E, server, pre.groups[i].from, r) && post == MovedOver(w, pre, i, server, r)
    ensures Step(w, pre, Assign(i, server), post) && Inv(w, post)
  {
    assert Moved(w, pre, i, server, post);
    MoveKeepsInv(w, pre, i, server, post);
  }

  /** Before any user has joined: the limits hold and the table names the origin, which holds the videos, for every
      key. */
  lemma InvAtStart(w: World, cache: Cache, table: map<(string, nat), string>)
    requires Sane(w) && WithinLimits(cache)
    requires forall key :: key in table ==> key.1 in VideosAt(cache, w.origin) && table[key] == w.addr[w.origin]
    ensures Inv(w, State([], cache, table))
  {
  }

  lemma StepKeepsInv(w: World, pre: State, ev: Event, post: State)
    requires Sane(w) && Inv(w, pre) && Step(w, pre, ev, post)
    ensures Inv(w, post)
  {
    match ev
    case Add(bcast, user, from) => JoinKeepsInv(w, pre, bcast, user, from, post);
    case Redirect(a, b, i) => RedirectKeepsInv(w, pre, a, b, i, post);
    case Assign(i, server) =>
      if Available(pre.cache, server, pre.groups[i].content) {
        MoveKeepsInv(w, pre, i, server, post);
      }
  }

  lemma RouteInRange(w: World, st: State, i: nat, k: nat)
    requires Sane(w) && Inv(w, st) && i < |st.groups| && k < |st.groups[i].route|
    ensures st.groups[i].route[k] < w.n
  {
    var p := st.groups[i].route;
    assert Served(w, st, st.groups[i]);
    if k > 0 {
      assert (p[k - 1], p[k]) in w.E;
    }
  }

  /** The controller invariant holds in every state of every run. */
  lemma {:induction false} RunKeepsInv(w: World, trace: seq<State>, events: seq<Event>, k: nat)
    requires Sane(w) && Run(w, trace, events) && Inv(w, trace[0]) && k < |trace|
    ensures Inv(w, trace[k])
    decreases k
  {
    if k > 0 {
      RunKeepsInv(w, trace, events, k - 1);
      assert StepAt(w, trace, events, k - 1);
      StepKeepsInv(w, trace[k - 1], events[k - 1], trace[k]);
    }
  }

  lemma RouteSimple(w: World, st: State, i: nat)
    requires Inv(w, st) && i < |st.groups|
    ensures Distinct(st.groups[i].route)
  {
    assert Served(w, st, st.groups[i]);
    ShortestIsSimple(w.E, st.groups[i].route[0], st.groups[i].from, st.groups[i].route);
  }

  /** Routes of groups are no longer than the number of nodes. */
  lemma RouteFits(w: World, st: State, i: nat)
    requires Sane(w) && Inv(w, st) && i < |st.groups|
    ensures 0 < |st.groups[i].route| <= w.n
  {
    var p := st.groups[i].route;
    assert Served(w, st, st.groups[i]);
    ShortestIsSimple(w.E, p[0], st.groups[i].from, p);
    forall k | 0 <= k < |p|
      ensures p[k] < w.n
    {
      RouteInRange(w, st, i, k);
    }
    DistinctBelow(p, w.n);
  }

  lemma RoutesFit(w: World, st: State)
    requires Sane(w) && Inv(w, st)
    ensures forall i :: 0 <= i < |st.groups| ==> 0 < |st.groups[i].route| <= w.n && Distinct(st.groups[i].route)
  {
    forall i | 0 <= i < |st.groups|
      ensures 0 < |st.groups[i].route| <= w.n && Distinct(st.groups[i].route)
    {
      RouteFits(w, st, i);
      RouteSimple(w, st, i);
    }
  }

  // What a turn and an answer do

  /** Group i is handed over to the node: the group, its table entry and the node's cache change, and nothing else. A
      video that the node holds is not placed again. */
  ghost predicate HandedTo(w: World, pre: State, i: nat, node: nat, post: State)
    requires i < |pre.groups| && node < |w.addr|
  {
    var g := pre.groups[i];
    && |post.groups| == |pre.groups|
    && ShortestRoute(w.E, node, g.from, post.groups[i].route)
    && post.groups == pre.groups[i := g.(route := post.groups[i].route, serverIp := w.addr[node])]
    && post.table == pre.table[(g.id, g.content) := w.addr[node]]
    && post.cache.limit == pre.cache.limit
    && (if g.content in VideosAt(pre.cache, node) then post.cache == pre.cache
        else
          && post.cache.videos == pre.cache.videos[node := VideosAt(pre.cache, node) + [g.content]]
          && post.cache.placed == pre.cache.placed[node := PlacedAt(pre.cache, node) + 1])
  }

  /** The node neither holds the video nor has room for it. */
  ghost predicate Refuses(c: Cache, node: nat, video: nat) {
    video !in VideosAt(c, node) && PlacedAt(c, node) >= LimitAt(c, node)
  }

  /** A turn of the redirecting loop for a group whose route takes the link from a to b at index j: nothing changes if
      all nodes behind the link refuse, the second node of the route not being asked; otherwise the last one that does
      not refuse takes the group over, by a route that avoids a. */
  ghost predicate TurnAt(w: World, pre: State, a: nat, i: nat, j: nat, post: State)
    requires i < |pre.groups|
  {
    var p, video := pre.groups[i].route, pre.groups[i].content;
    if forall k :: j < k < |p| && 2 <= k ==> Refuses(pre.cache, p[k], video) then post == pre
    else
      exists k ::
        && j < k < |p| && 2 <= k && !Refuses(pre.cache, p[k], video)
        && (forall m :: k < m < |p| ==> Refuses(pre.cache, p[m], video))
        && p[k] < |w.addr| && HandedTo(w, pre, i, p[k], post) && a !in post.groups[i].route
  }

  /** What a turn does, in all cases. */
  ghost predicate TurnDone(w: World, pre: State, a: nat, b: nat, i: nat, post: State) {
    && i < |pre.groups|
    && var p := pre.groups[i].route;
       && (forall j :: 0 <= j < |p| - 1 && p[j] == a && p[j + 1] == b ==> TurnAt(w, pre, a, i, j, post))
       && ((forall j :: 0 <= j < |p| - 1 && p[j] == a ==> p[j + 1] != b) ==> post == pre)
  }

  lemma MovedIsHanded(w: World, pre: State, i: nat, node: nat, post: State)
    requires i < |pre.groups| && node < |w.addr| && Moved(w, pre, i, node, post)
    ensures HandedTo(w, pre, i, node, post)
  {
  }

  /** A turn does what is said of it. */
  lemma TurnIsDone(w: World, pre: State, a: nat, b: nat, i: nat, post: State)
    requires Sane(w) && Inv(w, pre) && Step(w, pre, Redirect(a, b, i), post)
    ensures TurnDone(w, pre, a, b, i, post)
  {
    var p := pre.groups[i].route;
    RouteSimple(w, pre, i);
    forall j | 0 <= j < |p| - 1 && p[j] == a && p[j + 1] == b
      ensures TurnAt(w, pre, a, i, j, post)
    {
      TurnAtLink(w, pre, a, b, i, j, post);
    }
  }

  lemma TurnAtLink(w: World, pre: State, a: nat, b: nat, i: nat, j: nat, post: State)
    requires Sane(w) && Inv(w, pre) && Step(w, pre, Redirect(a, b, i), post) && Distinct(pre.groups[i].route)
    requires var p := pre.groups[i].route; j + 1 < |p| && p[j] == a && p[j + 1] == b
    ensures TurnAt(w, pre, a, i, j, post)
  {
    var p, video := pre.groups[i].route, pre.groups[i].content;
    TargetIsLastAvailable(pre.cache, p, a, b, video, j);
    var target := Target(pre.cache, p, a, b, video);
    if target.Some? {
      MovedIsHanded(w, pre, i, p[target.value], post);
      assert Redirects(pre, Redirect(a, b, i), i);
      RedirectRelieves(w, pre, a, b, i, post);
    }
  }

  /** A call of the redirecting loop over n groups is one such turn for each group in order. */
  ghost predicate TurnsDone(w: World, trace: seq<State>, a: nat, b: nat, n: nat) {
    |trace| == n + 1 && forall i :: 0 <= i < n ==> TurnDone(w, trace[i], a, b, i, trace[i + 1])
  }

  lemma PassIsTurns(w: World, first: State, a: nat, b: nat, n: nat, last: State)
    requires Sane(w) && Inv(w, first) && Leads(w, first, Pass(a, b, n), last)
    ensures exists trace :: TurnsDone(w, trace, a, b, n) && trace[0] == first && trace[n] == last
  {
    var trace: seq<State> :| Run(w, trace, Pass(a, b, n)) && trace[0] == first && trace[n] == last;
    forall i | 0 <= i < n
      ensures TurnDone(w, trace[i], a, b, i, trace[i + 1])
    {
      RunKeepsInv(w, trace, Pass(a, b, n), i);
      TurnIsStep(w, trace, a, b, n, i);
      TurnIsDone(w, trace[i], a, b, i, trace[i + 1]);
    }
    assert TurnsDone(w, trace, a, b, n);
  }

  /** Applying an answer hands the group over exactly if the server holds the video or has room for it. */
  ghost predicate AnswerDone(w: World, pre: State, i: nat, server: nat, post: State) {
    && i < |pre.groups| && server < |w.addr|
    && if Refuses(pre.cache, server, pre.groups[i].content) then post == pre else HandedTo(w, pre, i, server, post)
  }

  lemma AnswerIsDone(w: World, pre: State, i: nat, server: nat, post: State)
    requires Sane(w) && Step(w, pre, Assign(i, server), post)
    ensures AnswerDone(w, pre, i, server, post)
  {
    if !Refuses(pre.cache, server, pre.groups[i].content) {
      MovedIsHanded(w, pre, i, server, post);
    }
  }

  ghost predicate AnswersDone(w: World, trace: seq<State>, answers: seq<(nat, nat)>) {
    && |trace| == |answers| + 1
    && forall k :: 0 <= k < |answers| ==> AnswerDone(w, trace[k], answers[k].0, answers[k].1, trace[k + 1])
  }

  lemma {:induction false} SolutionIsAnswers(w: World, first: State, answers: seq<(nat, nat)>, last: State)
    requires Sane(w) && Leads(w, first, Answers(answers), last)
    ensures exists trace :: AnswersDone(w, trace, answers) && trace[0] == first && trace[|answers|] == last
  {
    var events := Answers(answers);
    var trace: seq<State> :| Run(w, trace, events) && trace[0] == first && trace[|events|] == last;
    forall k | 0 <= k < |answers|
      ensures AnswerDone(w, trace[k], answers[k].0, answers[k].1, trace[k + 1])
    {
      assert StepAt(w, trace, events, k);
      AnswerIsDone(w, trace[k], answers[k].0, answers[k].1, trace[k + 1]);
    }
    assert AnswersDone(w, trace, answers);
  }

  // Redirection

  function Hops(g: Group): int {
    |g.route| - 1
  }

  /** Event ev redirects group i. */
  predicate Redirects(st: State, ev: Event, i: nat) {
    && ev.Redirect? && ev.i == i && i < |st.groups|
    && Target(st.cache, st.groups[i].route, ev.actual, ev.next, st.groups[i].content).Some?
  }

  /** A redirected group leaves the node before the congested link, and its new route is the rest of the old one
      in length: two hops shorter at least. */
  lemma RedirectRelieves(w: World, pre: State, a: nat, b: nat, i: nat, post: State)
    requires Sane(w) && Inv(w, pre) && Step(w, pre, Redirect(a, b, i), post)
    requires Redirects(pre, Redirect(a, b, i), i)
    ensures a in pre.groups[i].route && a !in post.groups[i].route
    ensures !Crosses(post.groups[i].route, a, b)
    ensures Hops(post.groups[i]) <= Hops(pre.groups[i]) - 2
  {
    var g := pre.groups[i];
    var p := g.route;
    var k := Target(pre.cache, p, a, b, g.content).value;
    var j :| 0 <= j < |p| - 1 && p[j] == a && p[j + 1] == b;
    assert Served(w, pre, g);
    ShortestIsSimple(w.E, p[0], g.from, p);
    TargetIsLastAvailable(pre.cache, p, a, b, g.content, j);
    var r :| ShortestRoute(w.E, p[k], g.from, r) && post == MovedOver(w, pre, i, p[k], r);
    ShortestSuffix(w.E, p[0], g.from, p, k);
    ShortestLength(w.E, p[k], g.from, p[k..], r);
    if a in r {
      var m :| 0 <= m < |r| && r[m] == a;
      ShortestSuffix(w.E, p[k], g.from, r, m);
      ShortestSuffix(w.E, p[0], g.from, p, j);
      ShortestLength(w.E, a, g.from, r[m..], p[j..]);
    }
  }

  ghost function Redirections(trace: seq<State>, events: seq<Event>, i: nat): nat
    requires |trace| == |events| + 1
    decreases |events|
  {
    if events == [] then 0
    else
      var n := |events| - 1;
      Redirections(trace[..n + 1], events[..n], i) + if Redirects(trace[n], events[n], i) then 1 else 0
  }

  /** Groups keep their places and their keys. */
  lemma StepKeepsPlaces(w: World, pre: State, ev: Event, post: State, i: nat)
    requires Step(w, pre, ev, post) && i < |pre.groups|
    ensures i < |post.groups| && post.groups[i].Key() == pre.groups[i].Key()
    ensures !(ev.Assign? && ev.i == i) && !Redirects(pre, ev, i) ==> post.groups[i].route == pre.groups[i].route
  {
  }

  lemma SameStep(w: World, pre: State, ev: Event, post: State, pre': State, ev': Event, post': State)
    requires Step(w, pre, ev, post) && pre' == pre && ev' == ev && post' == post
    ensures Step(w, pre', ev', post')
  {
  }

  lemma RunPrefix(w: World, trace: seq<State>, events: seq<Event>)
    requires Run(w, trace, events) && |events| > 0
    ensures Run(w, trace[..|events|], events[..|events| - 1])
  {
    var n := |events| - 1;
    var t, e := trace[..n + 1], events[..n];
    forall k: nat | k < n
      ensures StepAt(w, t, e, k)
    {
      assert StepAt(w, trace, events, k);
      SameStep(w, trace[k], events[k], trace[k + 1], t[k], e[k], t[k + 1]);
    }
  }

  lemma LastStep(w: World, trace: seq<State>, events: seq<Event>)
    requires Run(w, trace, events) && |events| > 0
    ensures Step(w, trace[|events| - 1], events[|events| - 1], trace[|events|])
  {
    var n := |events| - 1;
    assert StepAt(w, trace, events, n);
  }

  lemma RunSnoc(w: World, trace: seq<State>, events: seq<Event>, ev: Event, post: State)
    requires Run(w, trace, events) && Step(w, trace[|events|], ev, post)
    ensures Run(w, trace + [post], events + [ev])
  {
    var more := trace + [post];
    forall k: nat | k < |events| + 1
      ensures StepAt(w, more, events + [ev], k)
    {
      if k < |events| {
        assert StepAt(w, trace, events, k);
        SameStep(w, trace[k], events[k], trace[k + 1], more[k], (events + [ev])[k], more[k + 1]);
      } else {
        SameStep(w, trace[k], ev, post, more[k], (events + [ev])[k], more[k + 1]);
      }
    }
  }

  /** A run leads from one state to another. */
  ghost predicate Leads(w: World, first: State, events: seq<Event>, last: State) {
    exists trace: seq<State> :: Run(w, trace, events) && trace[0] == first && trace[|events|] == last
  }

  lemma LeadsNowhere(w: World, st: State)
    ensures Leads(w, st, [], st)
  {
    assert Run(w, [st], []);
  }

  lemma LeadsSnoc(w: World, first: State, events: seq<Event>, mid: State, ev: Event, last: State)
    requires Leads(w, first, events, mid) && Step(w, mid, ev, last)
    ensures Leads(w, first, events + [ev], last)
  {
    var trace: seq<State> :| Run(w, trace, events) && trace[0] == first && trace[|events|] == mid;
    RunSnoc(w, trace, events, ev, last);
    assert (trace + [last])[0] == first;
  }

  lemma LeadsOn(w: World, first: State, events: seq<Event>, mid: State, more: seq<Event>, last: State)
    requires Leads(w, first, events, mid) && Leads(w, mid, more, last)
    ensures Leads(w, first, events + more, last)
  {
    var t: seq<State> :| Run(w, t, events) && t[0] == first && t[|events|] == mid;
    var u: seq<State> :| Run(w, u, more) && u[0] == mid && u[|more|] == last;
    var whole, all := t + u[1..], events + more;
    forall k: nat | k < |all|
      ensures StepAt(w, whole, all, k)
    {
      var n := |events|;
      if k < n {
        assert StepAt(w, t, events, k);
        SameStep(w, t[k], events[k], t[k + 1], whole[k], all[k], whole[k + 1]);
      } else {
        assert StepAt(w, u, more, k - n);
        assert whole[k] == u[k - n];
        SameStep(w, u[k - n], more[k - n], u[k - n + 1], whole[k], all[k], whole[k + 1]);
      }
    }
    assert Run(w, whole, all) && whole[0] == first && whole[|all|] == last;
  }

  lemma LeadsKeepsInv(w: World, first: State, events: seq<Event>, last: State)
    requires Sane(w) && Inv(w, first) && Leads(w, first, events, last)
    ensures Inv(w, last)
    ensures TotalUsers(last.groups) == TotalUsers(first.groups) + Additions(events)
    ensures last.table.Keys == first.table.Keys
  {
    var trace: seq<State> :| Run(w, trace, events) && trace[0] == first && trace[|events|] == last;
    RunKeepsInv(w, trace, events, |events|);
    RunCountsUsers(w, trace, events);
    RunKeepsKeys(w, trace, events, |events|);
  }

  lemma StepKeepsKeys(w: World, pre: State, ev: Event, post: State)
    requires Inv(w, pre) && Step(w, pre, ev, post)
    ensures post.table.Keys == pre.table.Keys
  {
    if !ev.Add? {
      assert Served(w, pre, pre.groups[ev.i]);
    }
  }

  /** The server table has the same keys in every state of a run. */
  lemma {:induction false} RunKeepsKeys(w: World, trace: seq<State>, events: seq<Event>, k: nat)
    requires Sane(w) && Run(w, trace, events) && Inv(w, trace[0]) && k < |trace|
    ensures trace[k].table.Keys == trace[0].table.Keys
    decreases k
  {
    if k > 0 {
      RunKeepsKeys(w, trace, events, k - 1);
      RunKeepsInv(w, trace, events, k - 1);
      assert StepAt(w, trace, events, k - 1);
      StepKeepsKeys(w, trace[k - 1], events[k - 1], trace[k]);
    }
  }

  /** The hops that assignments of group i can have given it: each gives a route with at most m hops. */
  function Granted(m: nat, events: seq<Event>, i: nat): nat {
    if events == [] then 0
    else
      var n := |events| - 1;
      Granted(m, events[..n], i) + if events[n].Assign? && events[n].i == i then m else 0
  }

  /** No answer of the solver assigns group i; it may assign others. */
  ghost predicate NeverAssigned(events: seq<Event>, i: nat) {
    forall k :: 0 <= k < |events| && events[k].Assign? ==> events[k].i != i
  }

  lemma {:induction false} NotAssigned(m: nat, events: seq<Event>, i: nat)
    requires NeverAssigned(events, i)
    ensures Granted(m, events, i) == 0
  {
    if events != [] {
      NotAssigned(m, events[..|events| - 1], i);
    }
  }

  /** A group that does not exist yet has not been redirected. */
  lemma {:induction false} UnbornIsQuiet(w: World, trace: seq<State>, events: seq<Event>, i: nat)
    requires Run(w, trace, events) && i >= |trace[|events|].groups|
    ensures Redirections(trace, events, i) == 0
    decreases |events|
  {
    if events != [] {
      var n := |events| - 1;
      RunPrefix(w, trace, events);
      LastStep(w, trace, events);
      GroupsStay(w, trace[n], events[n], trace[n + 1]);
      UnbornIsQuiet(w, trace[..n + 1], events[..n], i);
    }
  }

  lemma GroupsStay(w: World, pre: State, ev: Event, post: State)
    requires Step(w, pre, ev, post)
    ensures |pre.groups| <= |post.groups|
  {
  }

  /** State b is the first one of the run that has group i. */
  predicate BornAt(trace: seq<State>, b: nat, i: nat) {
    b < |trace| && i < |trace[b].groups| && (b == 0 || i >= |trace[b - 1].groups|)
  }

  /** The hops that redirections save are hops that the group had when it was opened, or was given by an assignment. */
  lemma {:induction false} HopsAreSaved(w: World, trace: seq<State>, events: seq<Event>, i: nat) returns (b: nat)
    requires Sane(w) && Run(w, trace, events) && Inv(w, trace[0]) && i < |trace[|events|].groups|
    ensures BornAt(trace, b, i)
    ensures Saved(w.n - 1, trace, events, i, b)
    decreases |events|
  {
    var n := |events| - 1;
    if events == [] {
      b := 0;
      RouteRemains(w, trace, events, i);
    } else if i < |trace[n].groups| {
      RunPrefix(w, trace, events);
      b := HopsAreSaved(w, trace[..n + 1], events[..n], i);
      RunKeepsInv(w, trace, events, n);
      LastStep(w, trace, events);
      StepShortens(w, trace[n], events[n], trace[n + 1], i);
    } else {
      b := |events|;
      RunPrefix(w, trace, events);
      UnbornIsQuiet(w, trace[..n + 1], events[..n], i);
      RouteRemains(w, trace, events, i);
    }
  }

  /** Redirections of group i since state b have cost two hops each, out of those it had and those it was given. */
  ghost predicate Saved(m: nat, trace: seq<State>, events: seq<Event>, i: nat, b: nat)
    requires |trace| == |events| + 1 && BornAt(trace, b, i)
  {
    && i < |trace[|events|].groups| && 0 <= Hops(trace[|events|].groups[i])
    && 2 * Redirections(trace, events, i) + Hops(trace[|events|].groups[i])
       <= Hops(trace[b].groups[i]) + Granted(m, events, i)
  }

  lemma RouteRemains(w: World, trace: seq<State>, events: seq<Event>, i: nat)
    requires Sane(w) && Run(w, trace, events) && Inv(w, trace[0]) && i < |trace[|events|].groups|
    ensures 0 <= Hops(trace[|events|].groups[i])
  {
    RunKeepsInv(w, trace, events, |events|);
    RouteFits(w, trace[|events|], i);
  }

  lemma SavedFromBirth(m: nat, trace: seq<State>, events: seq<Event>, i: nat, b: nat)
    requires |trace| == |events| + 1 && BornAt(trace, b, i) && Saved(m, trace, events, i, b)
    requires NeverAssigned(events, i)
    ensures var before, after := Hops(trace[b].groups[i]), Hops(trace[|events|].groups[i]);
            2 * Redirections(trace, events, i) <= before - after <= before
  {
    NotAssigned(m, events, i);
  }

  /** Redirections run out: a group that is never assigned from outside is redirected at most half as often as its
      route had hops when the group was opened, whatever happens to the other groups. */
  lemma RedirectionsRunOut(w: World, trace: seq<State>, events: seq<Event>, i: nat) returns (b: nat)
    requires Sane(w) && Run(w, trace, events) && Inv(w, trace[0]) && i < |trace[|events|].groups|
    requires NeverAssigned(events, i)
    ensures BornAt(trace, b, i)
    ensures var before, after := Hops(trace[b].groups[i]), Hops(trace[|events|].groups[i]);
            2 * Redirections(trace, events, i) <= before - after <= before
  {
    b := HopsAreSaved(w, trace, events, i);
    SavedFromBirth(w.n - 1, trace, events, i, b);
  }

  /** A step shortens the route of a group by two hops if it redirects the group; if it assigns the group, the new
      route has fewer hops than there are nodes; and otherwise it keeps the route's length. */
  lemma StepShortens(w: World, pre: State, ev: Event, post: State, i: nat)
    requires Sane(w) && Inv(w, pre) && Step(w, pre, ev, post) && i < |pre.groups|
    ensures i < |post.groups| && 0 <= Hops(post.groups[i])
    ensures Hops(post.groups[i]) <= Hops(pre.groups[i]) - (if Redirects(pre, ev, i) then 2 else 0)
                                    + if ev.Assign? && ev.i == i then w.n - 1 else 0
  {
    StepKeepsInv(w, pre, ev, post);
    StepKeepsPlaces(w, pre, ev, post, i);
    RouteFits(w, pre, i);
    RouteFits(w, post, i);
    if Redirects(pre, ev, i) {
      RedirectRelieves(w, pre, ev.actual, ev.next, i, post);
    }
  }

  /** The bound is attained: a group with two hops that is redirected once, to the access point itself. */
  lemma BoundIsAttained() returns (w: World, pre: State, post: State)
    ensures Sane(w) && Inv(w, pre) && Step(w, pre, Redirect(0, 1, 0), post)
    ensures |pre.groups| == |post.groups| == 1 && pre.cache == Cache(map[0 := [7]], map[], map[2 := 1])
    ensures pre.groups[0].content == 7 && pre.groups[0].route == [0, 1, 2]
    ensures post.groups[0].route == [2] && post.groups[0].serverIp == "c"
    ensures Redirections([pre, post], [Redirect(0, 1, 0)], 0) == 1 && Hops(pre.groups[0]) == 2
  {
    w := World(3, {(0, 1), (1, 0), (1, 2), (2, 1)}, ["a", "b", "c"], 0);
    pre := LineState(w);
    post := MovedOver(w, pre, 0, 2, [2]);
    LineIsConnected(w);
    LineRoutes(w.E);
    LineTarget(pre);
    assert Moved(w, pre, 0, 2, post);
    assert Redirections([pre], [], 0) == 0;
    assert [pre, post][..1] == [pre];
  }

  /** One group on the line 0 - 1 - 2, served by the origin 0; node 2 has room for a video. */
  lemma LineState(w: World) returns (st: State)
    requires w == World(3, {(0, 1), (1, 0), (1, 2), (2, 1)}, ["a", "b", "c"], 0)
    ensures |st.groups| == 1 && st.groups[0] == Group("net", "a", 7, [], 2, 2, 0, [0, 1, 2])
    ensures st.cache == Cache(map[0 := [7]], map[], map[2 := 1])
    ensures Inv(w, st) && Available(st.cache, 2, 7)
  {
    st := State([Group("net", "a", 7, [], 2, 2, 0, [0, 1, 2])], Cache(map[0 := [7]], map[], map[2 := 1]),
                map[("net", 7) := "a"]);
    LineRoutes(w.E);
    assert Served(w, st, st.groups[0]);
  }

  lemma LineTarget(st: State)
    requires |st.groups| == 1 && st.groups[0].route == [0, 1, 2] && st.groups[0].content == 7
    requires Available(st.cache, 2, 7)
    ensures Target(st.cache, st.groups[0].route, 0, 1, 7) == Some(2)
  {
    var p, j := st.groups[0].route, 0;
    assert p[j] == 0 && p[j + 1] == 1;
  }

  lemma LineRoutes(E: set<(nat, nat)>)
    requires E == {(0, 1), (1, 0), (1, 2), (2, 1)}
    ensures ShortestRoute(E, 0, 2, [0, 1, 2]) && ShortestRoute(E, 2, 2, [2])
  {
  }

  lemma LineIsConnected(w: World)
    requires w.n == 3 && w.E == {(0, 1), (1, 0), (1, 2), (2, 1)}
    ensures Connected(w)
  {
    assert WalkFromTo(w.E, [1], 1, 1);
    forall u: nat | u < 3
      ensures Reaches(w.E, 1, u) && Reaches(w.E, u, 1)
    {
      assert WalkFromTo(w.E, if u == 1 then [1] else [1, u], 1, u);
      assert WalkFromTo(w.E, if u == 1 then [1] else [u, 1], u, 1);
    }
    forall u: nat, v: nat | u < 3 && v < 3
      ensures Reaches(w.E, u, v)
    {
      ReachesTransitive(w.E, u, 1, v);
    }
  }

  // Conservation

  function TotalUsers(groups: seq<Group>): nat {
    if groups == [] then 0 else TotalUsers(groups[..|groups| - 1]) + |groups[|groups| - 1].users|
  }

  function Additions(events: seq<Event>): nat {
    if events == [] then 0 else Additions(events[..|events| - 1]) + if events[|events| - 1].Add? then 1 else 0
  }

  lemma {:induction false} AdditionsConcat(e: seq<Event>, f: seq<Event>)
    ensures Additions(e + f) == Additions(e) + Additions(f)
    decreases |f|
  {
    if f == [] {
      assert e + f == e;
    } else {
      AdditionsConcat(e, f[..|f| - 1]);
      assert (e + f)[..|e + f| - 1] == e + f[..|f| - 1];
    }
  }

  lemma {:induction false} AllAdditions(events: seq<Event>)
    requires forall k :: 0 <= k < |events| ==> events[k].Add?
    ensures Additions(events) == |events|
  {
    if events != [] {
      AllAdditions(events[..|events| - 1]);
    }
  }

  lemma {:induction false} NoAdditions(events: seq<Event>)
    requires forall k :: 0 <= k < |events| ==> !events[k].Add?
    ensures Additions(events) == 0
  {
    if events != [] {
      NoAdditions(events[..|events| - 1]);
    }
  }

  lemma {:induction false} TotalUsersUpdate(groups: seq<Group>, i: nat, g: Group)
    requires i < |groups|
    ensures TotalUsers(groups[i := g]) == TotalUsers(groups) - |groups[i].users| + |g.users|
    decreases |groups|
  {
    var n := |groups| - 1;
    if i == n {
      assert groups[i := g][..n] == groups[..n];
    } else {
      assert groups[i := g][..n] == groups[..n][i := g];
      TotalUsersUpdate(groups[..n], i, g);
    }
  }

  lemma StepCountsUsers(w: World, pre: State, ev: Event, post: State)
    requires Step(w, pre, ev, post)
    ensures TotalUsers(post.groups) == TotalUsers(pre.groups) + if ev.Add? then 1 else 0
  {
    match ev
    case Add(bcast, user, from) =>
      var i := Find(pre.groups, (bcast, user.content));
      if i < |pre.groups| {
        TotalUsersUpdate(pre.groups, i, post.groups[i]);
      } else {
        assert post.groups[..|pre.groups|] == pre.groups;
      }
    case Redirect(a, b, i) => TotalUsersUpdate(pre.groups, i, post.groups[i]);
    case Assign(i, server) => TotalUsersUpdate(pre.groups, i, post.groups[i]);
  }

  lemma {:induction false} CountsUsersTo(w: World, trace: seq<State>, events: seq<Event>, k: nat)
    requires Run(w, trace, events) && k <= |events|
    ensures TotalUsers(trace[k].groups) == TotalUsers(trace[0].groups) + Additions(events[..k])
    decreases k
  {
    if k > 0 {
      CountsUsersTo(w, trace, events, k - 1);
      assert StepAt(w, trace, events, k - 1);
      StepCountsUsers(w, trace[k - 1], events[k - 1], trace[k]);
      AdditionsStep(events, k - 1);
    }
  }

  lemma AdditionsStep(events: seq<Event>, k: nat)
    requires k < |events|
    ensures Additions(events[..k + 1]) == Additions(events[..k]) + if events[k].Add? then 1 else 0
  {
    assert events[..k + 1][..k] == events[..k];
  }

  /** Over every run the group sizes grow by exactly the number of users added. */
  lemma RunCountsUsers(w: World, trace: seq<State>, events: seq<Event>)
    requires Run(w, trace, events)
    ensures TotalUsers(trace[|events|].groups) == TotalUsers(trace[0].groups) + Additions(events)
  {
    CountsUsersTo(w, trace, events, |events|);
    assert events[..|events|] == events;
  }

  lemma StepCountsVideos(w: World, pre: State, ev: Event, post: State, v: nat)
    requires Step(w, pre, ev, post)
    ensures PlacedAt(post.cache, v) - PlacedAt(pre.cache, v) == |VideosAt(post.cache, v)| - |VideosAt(pre.cache, v)|
    ensures LimitAt(post.cache, v) == LimitAt(pre.cache, v)
  {
    match ev
    case Add(bcast, user, from) =>
    case Redirect(a, b, i) =>
      var g := pre.groups[i];
      var target := Target(pre.cache, g.route, a, b, g.content);
      if target.Some? {
        ProvideCounts(pre.cache, g.route[target.value], g.content, v);
      }
    case Assign(i, server) => ProvideCounts(pre.cache, server, pre.groups[i].content, v);
  }

  /** Over every run a node's placement count grows by exactly the videos placed on it. */
  lemma {:induction false} RunCountsVideos(w: World, trace: seq<State>, events: seq<Event>, v: nat)
    requires Run(w, trace, events)
    ensures PlacedAt(trace[|events|].cache, v) - PlacedAt(trace[0].cache, v)
            == |VideosAt(trace[|events|].cache, v)| - |VideosAt(trace[0].cache, v)|
    ensures LimitAt(trace[|events|].cache, v) == LimitAt(trace[0].cache, v)
    decreases |events|
  {
    if events == [] {
    } else {
      var n := |events| - 1;
      RunPrefix(w, trace, events);
      RunCountsVideos(w, trace[..n + 1], events[..n], v);
      LastStep(w, trace, events);
      StepCountsVideos(w, trace[n], events[n], trace[n + 1], v);
    }
  }

  // One pass over all groups

  /** The events of one call of the redirecting loop over n groups. */
  function Pass(a: nat, b: nat, n: nat): seq<Event> {
    seq(n, (i: nat) => Redirect(a, b, i))
  }

  lemma PassSnoc(a: nat, b: nat, n: nat)
    ensures Pass(a, b, n + 1) == Pass(a, b, n) + [Redirect(a, b, n)]
  {
  }

  /** The events that apply a list of solver answers. */
  function Answers(answers: seq<(nat, nat)>): (events: seq<Event>)
    ensures |events| == |answers|
    ensures forall k :: 0 <= k < |answers| ==> events[k] == Assign(answers[k].0, answers[k].1)
  {
    if answers == [] then []
    else
      var n := |answers| - 1;
      Answers(answers[..n]) + [Assign(answers[n].0, answers[n].1)]
  }

  lemma AnswersSnoc(answers: seq<(nat, nat)>, k: nat)
    requires k < |answers|
    ensures Answers(answers[..k + 1]) == Answers(answers[..k]) + [Assign(answers[k].0, answers[k].1)]
  {
    assert answers[..k + 1][..k] == answers[..k];
  }

  /** A pass puts no group on the link. A group whose own turn redirects it leaves the node before the link, by a route
      at least two hops shorter; every other group has after the pass the route that it had before. */
  lemma PassOnlyRelieves(w: World, trace: seq<State>, a: nat, b: nat, i: nat)
    requires |trace| > 0 && i < |trace[0].groups|
    requires Sane(w) && Inv(w, trace[0]) && Run(w, trace, Pass(a, b, |trace[0].groups|))
    ensures var n := |trace[0].groups|;
            && i < |trace[i].groups| && i < |trace[n].groups|
            && (if Redirects(trace[i], Redirect(a, b, i), i)
                then a !in trace[n].groups[i].route && Hops(trace[n].groups[i]) <= Hops(trace[0].groups[i]) - 2
                else trace[n].groups[i].route == trace[0].groups[i].route)
  {
    var n := |trace[0].groups|;
    PassSkips(w, trace, a, b, n, i, 0, i);
    OwnTurn(w, trace, a, b, n, i);
    PassSkips(w, trace, a, b, n, i, i + 1, n);
  }

  lemma OwnTurn(w: World, trace: seq<State>, a: nat, b: nat, n: nat, i: nat)
    requires i < n && |trace| > 0 && Sane(w) && Inv(w, trace[0]) && Run(w, trace, Pass(a, b, n))
    ensures i < |trace[i].groups| && i < |trace[i + 1].groups|
    ensures if Redirects(trace[i], Redirect(a, b, i), i)
            then a !in trace[i + 1].groups[i].route && Hops(trace[i + 1].groups[i]) <= Hops(trace[i].groups[i]) - 2
            else trace[i + 1].groups[i].route == trace[i].groups[i].route
  {
    TurnIsStep(w, trace, a, b, n, i);
    RunKeepsInv(w, trace, Pass(a, b, n), i);
    TurnRelieves(w, trace[i], a, b, i, trace[i + 1]);
  }

  lemma TurnIsStep(w: World, trace: seq<State>, a: nat, b: nat, n: nat, i: nat)
    requires i < n && Run(w, trace, Pass(a, b, n))
    ensures Step(w, trace[i], Redirect(a, b, i), trace[i + 1])
  {
    assert StepAt(w, trace, Pass(a, b, n), i);
  }

  /** The own turn of group i. */
  lemma TurnRelieves(w: World, pre: State, a: nat, b: nat, i: nat, post: State)
    requires Sane(w) && Inv(w, pre) && Step(w, pre, Redirect(a, b, i), post)
    ensures i < |pre.groups| && i < |post.groups|
    ensures if Redirects(pre, Redirect(a, b, i), i)
            then a !in post.groups[i].route && Hops(post.groups[i]) <= Hops(pre.groups[i]) - 2
            else post.groups[i].route == pre.groups[i].route
  {
    StepKeepsPlaces(w, pre, Redirect(a, b, i), post, i);
    if Redirects(pre, Redirect(a, b, i), i) {
      RedirectRelieves(w, pre, a, b, i, post);
    }
  }

  /** The turns of the other groups leave group i as it is. */
  lemma {:induction false} PassSkips(w: World, trace: seq<State>, a: nat, b: nat, n: nat, i: nat, lo: nat, hi: nat)
    requires Run(w, trace, Pass(a, b, n)) && lo <= hi <= n && (i < lo || hi <= i)
    requires i < |trace[lo].groups|
    ensures i < |trace[hi].groups| && trace[hi].groups[i].route == trace[lo].groups[i].route
    decreases hi - lo
  {
    if lo < hi {
      TurnIsStep(w, trace, a, b, n, lo);
      StepKeepsPlaces(w, trace[lo], Redirect(a, b, lo), trace[lo + 1], i);
      PassSkips(w, trace, a, b, n, i, lo + 1, hi);
    }
  }

  // Groups on a link

  /** The indices, in order, of the groups whose route uses the link. */
  function CommonGroups(groups: seq<Group>, a: nat, b: nat): seq<nat> {
    if groups == [] then []
    else
      var n := |groups| - 1;
      CommonGroups(groups[..n], a, b) + if Crosses(groups[n].route, a, b) then [n] else []
  }

  lemma CommonGroupsSnoc(groups: seq<Group>, i: nat, a: nat, b: nat)
    requires i < |groups|
    ensures CommonGroups(groups[..i + 1], a, b)
            == CommonGroups(groups[..i], a, b) + if Crosses(groups[i].route, a, b) then [i] else []
  {
    assert groups[..i + 1][..i] == groups[..i];
  }

  lemma {:induction false} CommonGroupsComplete(groups: seq<Group>, a: nat, b: nat)
    ensures forall i: nat :: i in CommonGroups(groups, a, b) <==> i < |groups| && Crosses(groups[i].route, a, b)
    ensures forall k, l :: 0 <= k < l < |CommonGroups(groups, a, b)| ==>
              CommonGroups(groups, a, b)[k] < CommonGroups(groups, a, b)[l]
  {
    if groups == [] {
    } else {
      var n := |groups| - 1;
      CommonGroupsComplete(groups[..n], a, b);
      var common := CommonGroups(groups[..n], a, b);
      forall k | 0 <= k < |common|
        ensures common[k] < n
      {
        assert common[k] in common;
      }
    }
  }

  /** After a pass the groups still on the link are among those that were on it before, with their old routes. */
  lemma PassShrinksCommonGroups(w: World, trace: seq<State>, a: nat, b: nat, i: nat)
    requires |trace| > 0 && Sane(w) && Inv(w, trace[0]) && Run(w, trace, Pass(a, b, |trace[0].groups|))
    requires i < |trace[0].groups| && i in CommonGroups(trace[|trace| - 1].groups, a, b)
    ensures i in CommonGroups(trace[0].groups, a, b) && i < |trace[|trace| - 1].groups|
    ensures trace[|trace| - 1].groups[i].route == trace[0].groups[i].route
  {
    CommonGroupsComplete(trace[|trace| - 1].groups, a, b);
    CommonGroupsComplete(trace[0].groups, a, b);
    PassOnlyRelieves(w, trace, a, b, i);
  }
}
