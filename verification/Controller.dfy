/** The controller objects of scratch/ctrl-dash-main.h and scratch/group-user.h, refining the state machine. */
module Controller {
  import opened Digraph
  import opened Paths
  import opened ShortestPaths
  import opened Network
  import opened ControllerModel
  import opened Wrappers
  import opened ControllerTheorems
  import opened Videos
  import opened Seqs

  /** A group of users. Its route is a Path held by value, that is, a node sequence whose cursor is reset before each
      use. */
  class GroupUser {
    var id: string
    var route: seq<nat>
    var serverIp: string
    var content: nat
    var users: seq<User>
    var ap: nat
    var from: nat
    var to: nat
    var actualNode: nat

    ghost function View(): Group
      reads this
    {
      Group(id, serverIp, content, users, ap, from, to, route)
    }

    constructor (id: string, serverIp: string, from: nat, to: nat, route: seq<nat>, content: nat, user: User)
      ensures View() == Group(id, serverIp, content, [user], from, from, to, route)
    {
      this.id, this.serverIp, this.ap, this.from, this.to := id, serverIp, from, from, to;
      this.route := route;
      this.content, this.users := content, [user];
    }

    /** The group is served by the node from now on. */
    method MoveTo(route: seq<nat>, node: nat, serverIp: string)
      modifies this
      ensures View() == old(View()).(route := route, serverIp := serverIp) && actualNode == node
    {
      this.route := route;
      actualNode := node;
      this.serverIp := serverIp;
    }

    method AddUser(user: User)
      modifies `users
      ensures View() == old(View()).(users := old(users) + [user])
    {
      users := users + [user];
    }
  }

  /** Moves the cursor to the first link from a to b, or to the end of the path. */
  method FindLink(path: Path, a: nat, b: nat) returns (found: bool)
    requires path.Valid() && path.path != []
    modifies path`actualPos
    ensures path.Valid()
    ensures found <==> Crosses(path.path, a, b)
    ensures found ==> path.actualPos + 1 < |path.path|
  {
    path.GoStart();
    while !path.IsEndPath()
      invariant path.Valid() && path.actualPos < |path.path|
      invariant forall j :: 0 <= j < path.actualPos ==> path.path[j] != a || path.path[j + 1] != b
      decreases |path.path| - path.actualPos
    {
      if path.GetActualStep() == a && path.GetNextStep() == b {
        return true;
      }
      path.GoAhead();
    }
    return false;
  }

  /** Appends i once per link from a to b on the route; a simple route has at most one. */
  method ListCrossings(route: seq<nat>, a: nat, b: nat, i: nat, indices0: seq<nat>) returns (indices: seq<nat>)
    requires 0 < |route| < UNSIGNED && Distinct(route)
    ensures indices == indices0 + if Crosses(route, a, b) then [i] else []
  {
    var path := new Path.Of(route);
    indices := indices0;
    path.GoStart();
    while !path.IsEndPath()
      invariant path.Valid() && path.path == route && path.actualPos < |route|
      invariant if exists j :: 0 <= j < path.actualPos && route[j] == a && route[j + 1] == b
                then indices == indices0 + [i] else indices == indices0
      decreases |route| - path.actualPos
    {
      if path.GetActualStep() == a && path.GetNextStep() == b {
        indices := indices + [i];
      }
      path.GoAhead();
    }
  }

  /** The walk back from the last link: the first node offered that serves the video. */
  method FindServer(path: Path, store: VideoStore, a: nat, content: nat) returns (server: Option<nat>)
    requires path.Valid() && |path.path| >= 2
    modifies path`actualPos, store
    ensures path.Valid()
    ensures match TargetFrom(old(store.View()), path.path, |path.path| - 2, a, content)
            case None => server.None? && store.View() == old(store.View())
            case Some(k) =>
              && k < |path.path| && server == Some(path.path[k])
              && store.View() == Provide(old(store.View()), path.path[k], content)
  {
    path.GoLastLink();
    var next := path.GetNextStep();
    while !path.IsStartPath() && next != a
      invariant path.Valid() && path.actualPos + 1 < |path.path| && next == path.path[path.actualPos + 1]
      invariant store.View() == old(store.View())
      invariant TargetFrom(store.View(), path.path, |path.path| - 2, a, content)
                == TargetFrom(store.View(), path.path, path.actualPos, a, content)
      decreases path.actualPos
    {
      var served := store.ServeFrom(next, content);
      if served {
        return Some(next);
      }
      path.GoBack();
      next := path.GetNextStep();
    }
    return None;
  }

  /** Looks for the link on a copy of the route and, if the route uses it, for a server behind it. */
  method ChooseServer(route: seq<nat>, store: VideoStore, a: nat, b: nat, content: nat) returns (server: Option<nat>)
    requires 0 < |route| < UNSIGNED
    modifies store
    ensures match Target(old(store.View()), route, a, b, content)
            case None => server.None? && store.View() == old(store.View())
            case Some(k) =>
              && k < |route| && server == Some(route[k])
              && store.View() == Provide(old(store.View()), route[k], content)
  {
    var path := new Path.Of(route);
    var found := FindLink(path, a, b);
    if found {
      server := FindServer(path, store, a, content);
    } else {
      server := None;
    }
  }

  function Named(table: map<(string, nat), string>, key: (string, nat)): string {
    if key in table then table[key] else ""
  }

  /** The user is one more of the group of its key, or the first of a new one, over a shortest route from node "to". */
  ghost predicate Added(w: World, pre: State, bcast: string, user: User, from: nat, to: nat, r: seq<nat>, post: State) {
    var key := (bcast, user.content);
    var i := Find(pre.groups, key);
    if i < |pre.groups| then post == Joined(pre, i, user)
    else
      var named := pre.(table := pre.table[key := Named(pre.table, key)]);
      ShortestRoute(w.E, to, from, r) && post == Opened(named, bcast, user, from, to, r)
  }

  lemma AddedIsStep(w: World, pre: State, bcast: string, user: User, from: nat, to: nat, r: seq<nat>, post: State)
    requires Added(w, pre, bcast, user, from, to, r, post)
    ensures Sane(w) && Inv(w, pre) && from < w.n && to == w.origin && (bcast, user.content) in pre.table ==>
              Step(w, pre, Add(bcast, user, from), post) && Inv(w, post)
  {
    if Sane(w) && Inv(w, pre) && from < w.n && to == w.origin && (bcast, user.content) in pre.table {
      var key := (bcast, user.content);
      assert pre.(table := pre.table[key := Named(pre.table, key)]) == pre;
      AddIsStep(w, pre, bcast, user, from, post);
    }
  }

  class DashController {
    const network: NetworkTopology
    const store: VideoStore
    const addr: seq<string>
    const origin: nat
    var groups: seq<GroupUser>
    var serverTable: map<(string, nat), string>
    /** The values of the group objects. */
    ghost var model: seq<Group>

    constructor (network: NetworkTopology, store: VideoStore, addr: seq<string>, origin: nat,
                 serverTable: map<(string, nat), string>)
      ensures this.network == network && this.store == store && this.addr == addr && this.origin == origin
      ensures groups == [] && this.serverTable == serverTable && model == []
    {
      this.network, this.store, this.addr, this.origin := network, store, addr, origin;
      this.groups, this.serverTable, this.model := [], serverTable, [];
    }

    ghost function TheWorld(): World
      reads network
    {
      World(network.size, network.E(), addr, origin)
    }

    ghost function View(): State
      reads this, store
    {
      State(model, store.View(), serverTable)
    }

    /** The objects are apart from each other, and the model shows their values. */
    ghost predicate Apart()
      reads this, network, network.route, groups
    {
      && network.Ready() && |model| == |groups|
      && (forall i, j :: 0 <= i < j < |groups| ==> groups[i] != groups[j])
      && (forall i :: 0 <= i < |groups| ==> groups[i].View() == model[i])
    }

    ghost predicate Valid()
      reads this, network, network.route, store, groups
    {
      Apart() && Sane(TheWorld()) && Inv(TheWorld(), View())
    }

    /** The first address of a node. */
    function GetInterfaceNode(node: nat): string
      requires node < |addr|
    {
      addr[node]
    }

    /** Searches a route from the node to the group's access point and hands the group over to the node, with the route
        found or, when the two are not connected, with the one of the search before. A search that reads out of
        bounds leaves the program without a meaning, and the groups as they were. */
    method DoRedirectUsers(i: nat, node: nat) returns (found: SearchResult)
      requires Apart() && i < |groups| && node < network.size == |addr| && groups[i].from < network.size
      modifies network.route, groups[i], `serverTable, `model
      ensures Apart()
      ensures found.Found? <==> Reaches(network.E(), node, old(groups[i].from))
      ensures found.OutOfBounds? <==>
                !Reaches(network.E(), node, old(groups[i].from)) && Reaches(network.E(), node, 0)
      ensures found.Found? ==> ShortestRoute(network.E(), node, old(model)[i].from, groups[i].route)
      ensures found.NotFound? ==> groups[i].route == old(network.route.path)
      ensures found.OutOfBounds? ==> model == old(model) && serverTable == old(serverTable)
      ensures !found.OutOfBounds? ==>
                && groups[i].actualNode == node
                && model == old(model)[i := old(model)[i].(route := groups[i].route, serverIp := addr[node])]
                && serverTable == old(serverTable)[old(model)[i].Key() := addr[node]]
    {
      var g := groups[i];
      found := network.SearchRoute(node, g.from);
      if found.OutOfBounds? {
        return;
      }
      var newServerIp := GetInterfaceNode(node);
      var r := network.GetRoute();
      g.MoveTo(r.path, node, newServerIp);
      serverTable := serverTable[(g.id, g.content) := newServerIp];
      model := model[i := model[i].(route := g.route, serverIp := newServerIp)];
    }

    /** On a connected graph the search always finds a route. */
    method HandOver(i: nat, node: nat)
      requires Apart() && Sane(TheWorld()) && i < |groups| && node < network.size && groups[i].from < network.size
      modifies network.route, groups[i], `serverTable, `model
      ensures Apart() && TheWorld() == old(TheWorld())
      ensures ShortestRoute(TheWorld().E, node, old(model)[i].from, groups[i].route)
      ensures model == old(model)[i := old(model)[i].(route := groups[i].route, serverIp := addr[node])]
      ensures serverTable == old(serverTable)[old(model)[i].Key() := addr[node]]
    {
      assert Reaches(TheWorld().E, node, groups[i].from);
      var found := DoRedirectUsers(i, node);
    }

    /** The server that a redirection away from the link chooses for group i. */
    method ServerFor(i: nat, actualNode: nat, nextNode: nat) returns (server: Option<nat>)
      requires Valid() && i < |groups|
      modifies store
      ensures match Target(old(store.View()), model[i].route, actualNode, nextNode, model[i].content)
              case None => server.None? && store.View() == old(store.View())
              case Some(k) =>
                && k < |model[i].route| && server == Some(model[i].route[k]) && server.value < network.size
                && store.View() == Provide(old(store.View()), server.value, model[i].content)
    {
      TargetAvailable(TheWorld(), View(), actualNode, nextNode, i);
      RouteFits(TheWorld(), View(), i);
      var g := groups[i];
      assert g.View() == model[i];
      server := ChooseServer(g.route, store, actualNode, nextNode, g.content);
    }

    /** The turn of group i in a redirection away from the link between two nodes. */
    method RedirectGroup(i: nat, actualNode: nat, nextNode: nat)
      requires Valid() && i < |groups|
      modifies network.route, store, groups[i], `serverTable, `model
      ensures Valid() && TheWorld() == old(TheWorld())
      ensures Step(TheWorld(), old(View()), Redirect(actualNode, nextNode, i), View())
    {
      ghost var w, pre := TheWorld(), View();
      assert Served(w, pre, pre.groups[i]) && groups[i].View() == pre.groups[i];
      var server := ServerFor(i, actualNode, nextNode);
      if server.Some? {
        HandOver(i, server.value);
        RedirectIsStep(w, pre, actualNode, nextNode, i, server.value, groups[i].route, View());
      } else {
        NoRedirectIsStep(w, pre, actualNode, nextNode, i);
      }
    }

    /** Redirects every group that uses the link, in turn. */
    method RedirectUsersTwo(actualNode: nat, nextNode: nat)
      requires Valid()
      modifies network.route, store, groups, `serverTable, `model
      ensures Valid() && groups == old(groups)
      ensures Leads(TheWorld(), old(View()), Pass(actualNode, nextNode, |groups|), View())
      ensures exists trace :: TurnsDone(TheWorld(), trace, actualNode, nextNode, |groups|)
                              && trace[0] == old(View()) && trace[|groups|] == View()
    {
      LeadsNowhere(TheWorld(), View());
      for i := 0 to |groups|
        invariant Valid() && TheWorld() == old(TheWorld())
        invariant Leads(TheWorld(), old(View()), Pass(actualNode, nextNode, i), View())
      {
        ghost var before := View();
        RedirectGroup(i, actualNode, nextNode);
        LeadsSnoc(TheWorld(), old(View()), Pass(actualNode, nextNode, i), before, Redirect(actualNode, nextNode, i),
                  View());
        PassSnoc(actualNode, nextNode, i);
      }
      PassIsTurns(TheWorld(), old(View()), actualNode, nextNode, |groups|, View());
    }

    /** Applies one answer of the solver, if the server can serve the group. */
    method ApplyAnswer(groupId: nat, serverId: nat)
      requires Valid() && groupId < |groups| && serverId < network.size
      modifies network.route, store, groups[groupId], `serverTable, `model
      ensures Valid() && TheWorld() == old(TheWorld())
      ensures Step(TheWorld(), old(View()), Assign(groupId, serverId), View())
    {
      ghost var w, pre := TheWorld(), View();
      var g := groups[groupId];
      assert g.View() == pre.groups[groupId] && Served(w, pre, pre.groups[groupId]);
      var ok := store.ServeFrom(serverId, g.content);
      if ok {
        HandOver(groupId, serverId);
        AssignIsStep(w, pre, groupId, serverId, g.route, View());
      }
    }

    /** The loop of ILPSolution that applies the answers, whatever they are. */
    method ApplySolution(answers: seq<(nat, nat)>)
      requires Valid() && forall k :: 0 <= k < |answers| ==> answers[k].0 < |groups| && answers[k].1 < network.size
      modifies network.route, store, groups, `serverTable, `model
      ensures Valid() && groups == old(groups)
      ensures Leads(TheWorld(), old(View()), Answers(answers), View())
      ensures exists trace :: AnswersDone(TheWorld(), trace, answers)
                              && trace[0] == old(View()) && trace[|answers|] == View()
    {
      LeadsNowhere(TheWorld(), View());
      for k := 0 to |answers|
        invariant Valid() && TheWorld() == old(TheWorld())
        invariant Leads(TheWorld(), old(View()), Answers(answers[..k]), View())
      {
        ghost var before := View();
        ApplyAnswer(answers[k].0, answers[k].1);
        LeadsSnoc(TheWorld(), old(View()), Answers(answers[..k]), before, Assign(answers[k].0, answers[k].1), View());
        AnswersSnoc(answers, k);
      }
      assert answers[..|answers|] == answers;
      SolutionIsAnswers(TheWorld(), old(View()), answers, View());
    }

    /** Adds a user to an existing group. */
    method JoinGroup(i: nat, user: User)
      requires Apart() && i < |groups|
      modifies groups[i], `model
      ensures Apart() && model == old(model)[i := old(model)[i].(users := old(model)[i].users + [user])]
      ensures groups[i].View() == old(groups[i].View()).(users := old(groups[i].users) + [user])
    {
      groups[i].AddUser(user);
      model := model[i := model[i].(users := model[i].users + [user])];
    }

    /** Opens a group for a user, over a route from the server. */
    method OpenGroup(bcast: string, user: User, from: nat, to: nat, serverIp: string) returns (group: GroupUser)
      requires Apart() && from < network.size && to < network.size && Reaches(network.E(), to, from)
      modifies network.route, `groups, `model
      ensures Apart() && groups == old(groups) + [group] && fresh(group)
      ensures group.View() == Group(bcast, serverIp, user.content, [user], from, from, to, group.route)
      ensures ShortestRoute(network.E(), to, from, group.route)
      ensures model == old(model) + [Group(bcast, serverIp, user.content, [user], from, from, to, group.route)]
    {
      var found := network.SearchRoute(to, from);
      var r := network.GetRoute();
      group := new GroupUser(bcast, serverIp, from, to, r.path, user.content, user);
      groups := groups + [group];
      model := model + [group.View()];
    }

    /** The address that the server table names for a key; a read of a missing key enters an empty address. */
    method LookUp(key: (string, nat)) returns (serverIp: string)
      modifies `serverTable
      ensures serverIp == Named(old(serverTable), key)
      ensures serverTable == old(serverTable)[key := serverIp]
    {
      serverIp := if key in serverTable then serverTable[key] else "";
      serverTable := serverTable[key := serverIp];
    }

    /** Puts a user into the group of its network and content, or opens that group, over a route from node "to". From
        the origin and over a known key, this is a step of the controller. */
    method AddUserInGroup(bcast: string, user: User, from: nat, to: nat) returns (group: GroupUser)
      requires Apart() && Sane(TheWorld()) && from < network.size && to < network.size
      modifies network.route, groups, `groups, `model, `serverTable
      ensures Apart() && TheWorld() == old(TheWorld()) && group in groups
      ensures groups == old(groups) || (groups == old(groups) + [group] && fresh(group))
      ensures group.id == bcast && group.content == user.content && user in group.users
      ensures Added(TheWorld(), old(View()), bcast, user, from, to, group.route, View())
      ensures (bcast, user.content) in old(serverTable) ==> serverTable == old(serverTable)
      ensures old(Valid()) && to == origin && (bcast, user.content) in old(serverTable) ==>
                Valid() && Step(TheWorld(), old(View()), Add(bcast, user, from), View())
    {
      ghost var w, pre := TheWorld(), View();
      var i := IndexOf(bcast, user.content);
      if i < |groups| {
        group := groups[i];
        JoinGroup(i, user);
        assert View() == Joined(pre, i, user);
      } else {
        assert Reaches(w.E, to, from);
        var serverIp := LookUp((bcast, user.content));
        group := OpenGroup(bcast, user, from, to, serverIp);
      }
      AddedIsStep(w, pre, bcast, user, from, to, group.route, View());
    }

    /** The loop that looks for the group of a network and a content. */
    method IndexOf(bcast: string, content: nat) returns (i: nat)
      requires Apart()
      ensures i == Find(model, (bcast, content))
      ensures i < |groups| ==> groups[i].id == bcast && groups[i].content == content
    {
      i := 0;
      while i < |groups| && !(bcast == groups[i].id && content == groups[i].content)
        invariant i <= |groups| && forall j :: 0 <= j < i ==> model[j].Key() != (bcast, content)
      {
        assert groups[i].View() == model[i];
        i := i + 1;
      }
      assert i < |groups| ==> groups[i].View() == model[i];
    }

    /** The indices of the groups whose route uses the link. */
    method FindCommonGroups(actualNode: nat, nextNode: nat) returns (indices: seq<nat>)
      requires Valid()
      ensures indices == CommonGroups(model, actualNode, nextNode)
      ensures forall i: nat :: i in indices <==>
                i < |model| && exists j :: 0 <= j < |model[i].route| - 1
                                           && model[i].route[j] == actualNode && model[i].route[j + 1] == nextNode
      ensures forall k, l :: 0 <= k < l < |indices| ==> indices[k] < indices[l]
    {
      CommonGroupsComplete(model, actualNode, nextNode);
      RoutesFit(TheWorld(), View());
      indices := [];
      for i := 0 to |groups|
        invariant indices == CommonGroups(model[..i], actualNode, nextNode)
      {
        assert groups[i].View() == model[i];
        indices := ListCrossings(groups[i].route, actualNode, nextNode, i, indices);
        CommonGroupsSnoc(model, i, actualNode, nextNode);
      }
      assert model[..|groups|] == model;
    }
  }

  /** The events are users who join over a known network and content. */
  predicate Joining(events: seq<Event>, n: nat, keys: set<(string, nat)>) {
    forall k :: 0 <= k < |events| ==>
      events[k].Add? && events[k].from < n && (events[k].bcast, events[k].user.content) in keys
  }

  /** One user joins. */
  method JoinNext(c: DashController, join: Event)
    requires c.Valid() && join.Add? && join.from < c.network.size
    requires (join.bcast, join.user.content) in c.serverTable
    modifies c.network.route, c.groups, c`groups, c`model, c`serverTable
    ensures c.Valid() && c.TheWorld() == old(c.TheWorld()) && c.serverTable == old(c.serverTable)
    ensures Step(c.TheWorld(), old(c.View()), join, c.View())
    ensures forall i :: 0 <= i < |c.groups| ==> c.groups[i] in old(c.groups) || fresh(c.groups[i])
  {
    var group := c.AddUserInGroup(join.bcast, join.user, join.from, c.origin);
  }

  /** Users join, one after another. */
  method JoinAll(c: DashController, joins: seq<Event>)
    requires c.Valid() && Joining(joins, c.network.size, c.serverTable.Keys)
    modifies c.network.route, c.groups, c`groups, c`model, c`serverTable
    ensures c.Valid() && c.TheWorld() == old(c.TheWorld()) && c.serverTable == old(c.serverTable)
    ensures Leads(c.TheWorld(), old(c.View()), joins, c.View())
    ensures forall i :: 0 <= i < |c.groups| ==> c.groups[i] in old(c.groups) || fresh(c.groups[i])
  {
    LeadsNowhere(c.TheWorld(), c.View());
    for k := 0 to |joins|
      invariant c.Valid() && c.TheWorld() == old(c.TheWorld()) && c.serverTable == old(c.serverTable)
      invariant Leads(c.TheWorld(), old(c.View()), joins[..k], c.View())
      invariant forall i :: 0 <= i < |c.groups| ==> c.groups[i] in old(c.groups) || fresh(c.groups[i])
    {
      ghost var before := c.View();
      JoinNext(c, joins[k]);
      LeadsSnoc(c.TheWorld(), old(c.View()), joins[..k], before, joins[k], c.View());
      PrefixInits(joins, k);
    }
    PrefixStep(joins, |joins|);
  }

  /** The start of the program: a controller without groups, and users who join. */
  method Opening(network: NetworkTopology, store: VideoStore, addr: seq<string>, origin: nat,
                 table: map<(string, nat), string>, joins: seq<Event>)
    returns (c: DashController)
    requires network.Ready() && WithinLimits(store.View())
    requires Sane(World(network.size, network.E(), addr, origin))
    requires forall key :: key in table ==> key.1 in VideosAt(store.View(), origin) && table[key] == addr[origin]
    requires Joining(joins, network.size, table.Keys)
    modifies network.route
    ensures fresh(c) && c.network == network && c.store == store && c.addr == addr && c.origin == origin
    ensures c.Valid() && forall i :: 0 <= i < |c.groups| ==> fresh(c.groups[i])
    ensures Inv(c.TheWorld(), State([], store.View(), table))
    ensures Leads(c.TheWorld(), State([], store.View(), table), joins, c.View())
  {
    c := new DashController(network, store, addr, origin, table);
    InvAtStart(c.TheWorld(), store.View(), table);
    JoinAll(c, joins);
  }

  /** A run from the start of the program: users join, groups are redirected away from a link, and more users join. */
  method Session(network: NetworkTopology, store: VideoStore, addr: seq<string>, origin: nat,
                 table: map<(string, nat), string>, joins: seq<Event>, a: nat, b: nat, more: seq<Event>)
    returns (c: DashController)
    requires network.Ready() && WithinLimits(store.View())
    requires Sane(World(network.size, network.E(), addr, origin))
    requires forall key :: key in table ==> key.1 in VideosAt(store.View(), origin) && table[key] == addr[origin]
    requires Joining(joins, network.size, table.Keys) && Joining(more, network.size, table.Keys)
    modifies network.route, store
    ensures fresh(c) && c.Valid() && TotalUsers(c.model) == |joins| + |more|
    ensures exists n: nat ::
              Leads(c.TheWorld(), State([], old(store.View()), table), joins + Pass(a, b, n) + more, c.View())
  {
    c := Opening(network, store, addr, origin, table, joins);
    ghost var w, start, joined := c.TheWorld(), State([], store.View(), table), c.View();
    LeadsKeepsInv(w, start, joins, joined);
    c.RedirectUsersTwo(a, b);
    ghost var n, redirected := |c.groups|, c.View();
    LeadsKeepsInv(w, joined, Pass(a, b, n), redirected);
    JoinAll(c, more);
    SessionRuns(w, start, joins, joined, a, b, n, redirected, more, c.View());
  }

  /** The parts of a session make one run. */
  lemma SessionRuns(w: World, start: State, joins: seq<Event>, joined: State, a: nat, b: nat, n: nat, redirected: State,
                    more: seq<Event>, end: State)
    requires Sane(w) && Inv(w, start) && Leads(w, start, joins, joined)
    requires Leads(w, joined, Pass(a, b, n), redirected) && Leads(w, redirected, more, end)
    requires forall k :: 0 <= k < |joins| ==> joins[k].Add?
    requires forall k :: 0 <= k < |more| ==> more[k].Add?
    ensures Leads(w, start, joins + Pass(a, b, n) + more, end)
    ensures TotalUsers(end.groups) == TotalUsers(start.groups) + |joins| + |more|
  {
    LeadsOn(w, start, joins, joined, Pass(a, b, n), redirected);
    LeadsOn(w, start, joins + Pass(a, b, n), redirected, more, end);
    LeadsKeepsInv(w, start, joins + Pass(a, b, n) + more, end);
    SessionCounts(joins, a, b, n, more);
  }

  lemma SessionCounts(joins: seq<Event>, a: nat, b: nat, n: nat, more: seq<Event>)
    requires forall k :: 0 <= k < |joins| ==> joins[k].Add?
    requires forall k :: 0 <= k < |more| ==> more[k].Add?
    ensures Additions(joins + Pass(a, b, n) + more) == |joins| + |more|
  {
    AllAdditions(joins);
    AllAdditions(more);
    NoAdditions(Pass(a, b, n));
    AdditionsConcat(joins, Pass(a, b, n));
    AdditionsConcat(joins + Pass(a, b, n), more);
  }

  /** Three nodes without links. */
  method LoneNodes() returns (network: NetworkTopology)
    ensures fresh(network) && fresh(network.route) && network.Ready()
    ensures network.links == [] && network.size == 3 && network.E() == {}
  {
    network := new NetworkTopology();
    network.AddNode(0);
    network.AddNode(1);
    network.AddNode(2);
    network.SetUpAdjList();
    network.size := 3;
  }

  /** A group handed over with an old route: three nodes without links, a group at access point 2, a search from node 0
      to itself. Node 1 is not connected to node 2, so the group is served by node 1 over the route of that search. */
  method HandedOverWithOldRoute() returns (c: DashController)
    ensures fresh(c) && |c.groups| == 1 && c.network.links == [] && c.network.size == 3
    ensures c.groups[0].from == 2 && c.groups[0].actualNode == 1 && c.groups[0].route == [0]
    ensures c.addr == ["a", "b", "c"] && c.groups[0].serverIp == "b" && c.serverTable == map[("net", 7) := "b"]
  {
    var network := LoneNodes();
    var store := new VideoStore();
    c := new DashController(network, store, ["a", "b", "c"], 0, map[]);
    ReachesSelf(network.E(), 0);
    ReachesSelf(network.E(), 2);
    var group := c.OpenGroup("net", User(1, "u", 7), 2, 2, "c");
    var found := network.SearchRoute(0, 0);
    NoWay(network.E(), [0], network.route.path);
    NowhereToGo(network.E(), 1, 2);
    NowhereToGo(network.E(), 1, 0);
    found := c.DoRedirectUsers(0, 1);
  }

  /** Without edges nothing is connected. */
  lemma NowhereToGo(E: set<(nat, nat)>, a: nat, b: nat)
    requires E == {} && a != b
    ensures !Reaches(E, a, b)
  {
    forall w: seq<nat> | Walk(E, w)
      ensures |w| == 1
    {
      if |w| > 1 {
        FirstEdge(E, w);
        assert false;
      }
    }
  }

  lemma FirstEdge(E: set<(nat, nat)>, w: seq<nat>)
    requires Walk(E, w) && |w| > 1
    ensures (w[0], w[1]) in E
  {
  }

  lemma NoWay(E: set<(nat, nat)>, p: seq<nat>, q: seq<nat>)
    requires E == {} && |p| == 1 && ShortestRoute(E, p[0], p[0], q)
    ensures q == p
  {
    if |q| > 1 {
      FirstEdge(E, q);
      assert false;
    }
  }
}
