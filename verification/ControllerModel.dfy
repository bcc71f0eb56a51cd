/** The controller of scratch/ctrl-dash-main.h as a state machine over values: users join groups, groups are
    redirected away from a link, and groups are assigned to servers by an outside solver. */
module ControllerModel {
  import opened Digraph
  import opened ShortestPaths
  import opened Wrappers

  /** The global maps of scratch/videos.h. */
  datatype Cache = Cache(videos: map<nat, seq<nat>>, placed: map<nat, int>, limit: map<nat, int>)

  function VideosAt(c: Cache, node: nat): seq<nat> {
    if node in c.videos then c.videos[node] else []
  }

  function PlacedAt(c: Cache, node: nat): int {
    if node in c.placed then c.placed[node] else 0
  }

  function LimitAt(c: Cache, node: nat): int {
    if node in c.limit then c.limit[node] else 0
  }

  /** The node holds the video or has room for it. */
  predicate Available(c: Cache, node: nat, video: nat) {
    video in VideosAt(c, node) || PlacedAt(c, node) < LimitAt(c, node)
  }

  /** The cache once the node serves the video, which it must hold or have room for. */
  function Provide(c: Cache, node: nat, video: nat): Cache {
    if video in VideosAt(c, node) then c
    else Cache(c.videos[node := VideosAt(c, node) + [video]], c.placed[node := PlacedAt(c, node) + 1], c.limit)
  }

  datatype User = User(id: nat, ip: string, content: nat)

  datatype Group = Group(id: string, serverIp: string, content: nat, users: seq<User>, ap: nat, from: nat, to: nat,
                         route: seq<nat>)
  {
    function Key(): (string, nat) { (id, content) }
  }

  datatype State = State(groups: seq<Group>, cache: Cache, table: map<(string, nat), string>)

  /** What stays fixed: the topology, the address of every node and the origin server. */
  datatype World = World(n: nat, E: set<(nat, nat)>, addr: seq<string>, origin: nat)

  ghost predicate Connected(w: World) {
    forall u: nat, v: nat :: u < w.n && v < w.n ==> Reaches(w.E, u, v)
  }

  ghost predicate Sane(w: World) {
    w.origin < w.n == |w.addr| && InRange(w.E, w.n) && Symmetric(w.E) && Connected(w)
  }

  // Steps

  datatype Event =
    | Add(bcast: string, user: User, from: nat)
    | Redirect(actual: nat, next: nat, i: nat)
    | Assign(i: nat, server: nat)

  /** The route uses the link from a to b. */
  predicate Crosses(p: seq<nat>, a: nat, b: nat) {
    exists j :: 0 <= j < |p| - 1 && p[j] == a && p[j + 1] == b
  }

  /** The cursor walk back from link pos of the route: the index of the first node offered that is available. */
  function TargetFrom(c: Cache, p: seq<nat>, pos: nat, a: nat, content: nat): Option<nat>
    requires pos + 1 < |p|
  {
    if pos == 0 || p[pos + 1] == a then None
    else if Available(c, p[pos + 1], content) then Some(pos + 1)
    else TargetFrom(c, p, pos - 1, a, content)
  }

  function Target(c: Cache, p: seq<nat>, a: nat, b: nat, content: nat): Option<nat> {
    if Crosses(p, a, b) then TargetFrom(c, p, |p| - 2, a, content) else None
  }

  /** Index of the first group with the key, or the number of groups. */
  function Find(groups: seq<Group>, key: (string, nat)): (i: nat)
    ensures i <= |groups|
    ensures i < |groups| ==> groups[i].Key() == key
    ensures forall j :: 0 <= j < i ==> groups[j].Key() != key
  {
    if groups == [] then 0
    else if groups[0].Key() == key then 0
    else 1 + Find(groups[1..], key)
  }

  /** Group i is served by the node from now on, over a shortest route, and the server table says so. */
  ghost predicate Moved(w: World, pre: State, i: nat, node: nat, post: State)
    requires i < |pre.groups| && node < |w.addr|
  {
    exists r: seq<nat> :: ShortestRoute(w.E, node, pre.groups[i].from, r) && post == MovedOver(w, pre, i, node, r)
  }

  function MovedOver(w: World, pre: State, i: nat, node: nat, r: seq<nat>): State
    requires i < |pre.groups| && node < |w.addr|
  {
    var g := pre.groups[i];
    State(pre.groups[i := g.(route := r, serverIp := w.addr[node])],
          Provide(pre.cache, node, g.content),
          pre.table[g.Key() := w.addr[node]])
  }

  ghost predicate Enabled(w: World, pre: State, ev: Event) {
    match ev
    case Add(bcast, user, from) => from < w.n && (bcast, user.content) in pre.table
    case Redirect(a, b, i) => i < |pre.groups|
    case Assign(i, server) => i < |pre.groups| && server < w.n
  }

  /** The user is one more of group i. */
  function Joined(pre: State, i: nat, user: User): State
    requires i < |pre.groups|
  {
    pre.(groups := pre.groups[i := pre.groups[i].(users := pre.groups[i].users + [user])])
  }

  /** The user is the first one of a new group. */
  function Opened(pre: State, bcast: string, user: User, from: nat, to: nat, r: seq<nat>): State
    requires (bcast, user.content) in pre.table
  {
    pre.(groups := pre.groups
         + [Group(bcast, pre.table[(bcast, user.content)], user.content, [user], from, from, to, r)])
  }

  ghost predicate Joins(w: World, pre: State, bcast: string, user: User, from: nat, post: State)
    requires (bcast, user.content) in pre.table
  {
    var i := Find(pre.groups, (bcast, user.content));
    if i < |pre.groups| then post == Joined(pre, i, user)
    else
      exists r: seq<nat> ::
        ShortestRoute(w.E, w.origin, from, r) && post == Opened(pre, bcast, user, from, w.origin, r)
  }

  ghost predicate Step(w: World, pre: State, ev: Event, post: State) {
    && Enabled(w, pre, ev)
    && match ev
       case Add(bcast, user, from) => Joins(w, pre, bcast, user, from, post)
       case Redirect(a, b, i) =>
         var g := pre.groups[i];
         var target := Target(pre.cache, g.route, a, b, g.content);
         if target.None? then post == pre
         else target.value < |g.route| && g.route[target.value] < |w.addr|
              && Moved(w, pre, i, g.route[target.value], post)
       case Assign(i, server) =>
         if Available(pre.cache, server, pre.groups[i].content) then server < |w.addr| && Moved(w, pre, i, server, post)
         else post == pre
  }

  /** A run: every event takes one state of the trace to the next. */
  ghost predicate Run(w: World, trace: seq<State>, events: seq<Event>) {
    |trace| == |events| + 1 && forall k: nat :: k < |events| ==> StepAt(w, trace, events, k)
  }

  /** Event k takes state k to the next. */
  ghost predicate StepAt(w: World, trace: seq<State>, events: seq<Event>, k: nat)
    requires k < |events| < |trace|
  {
    Step(w, trace[k], events[k], trace[k + 1])
  }

  // Invariant

  ghost predicate UniqueKeys(groups: seq<Group>) {
    forall i, j :: 0 <= i < j < |groups| ==> groups[i].Key() != groups[j].Key()
  }

  /** The group is served over a shortest route, by a node that holds its video and that the server table names. */
  ghost predicate Served(w: World, st: State, g: Group) {
    && g.ap == g.from < w.n
    && |g.route| > 0 && g.route[0] < w.n && ShortestRoute(w.E, g.route[0], g.from, g.route)
    && g.content in VideosAt(st.cache, g.route[0])
    && g.Key() in st.table && st.table[g.Key()] == g.serverIp
    && g.route[0] < |w.addr| && g.serverIp == w.addr[g.route[0]]
  }

  /** No node is over its capacity and none holds a video twice. */
  ghost predicate WithinLimits(c: Cache) {
    forall v :: PlacedAt(c, v) <= LimitAt(c, v) && Distinct(VideosAt(c, v))
  }

  ghost predicate NoGroup(groups: seq<Group>, key: (string, nat)) {
    forall j :: 0 <= j < |groups| ==> groups[j].Key() != key
  }

  /** Keys without a group still name the origin, which holds every registered video. */
  ghost predicate OriginDefault(w: World, st: State) {
    forall key :: key in st.table ==>
      && key.1 in VideosAt(st.cache, w.origin)
      && (NoGroup(st.groups, key) ==> w.origin < |w.addr| && st.table[key] == w.addr[w.origin])
  }

  ghost predicate Inv(w: World, st: State) {
    && UniqueKeys(st.groups)
    && (forall i :: 0 <= i < |st.groups| ==> Served(w, st, st.groups[i]))
    && OriginDefault(w, st)
    && WithinLimits(st.cache)
  }
}
