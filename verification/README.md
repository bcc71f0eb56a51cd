# Proofs about graph ordering, the DASH controller and their neighbours

The modules model the parts of the repository whose correctness is least obvious, and prove what they are for.
Code that updates its state step by step is modelled by methods and classes with the same loops and fields; what it
computes is given by functions and predicates, and the laws are lemmas about those.

## What is modelled

**Graphs** (`bindings/python/topsort.py`). A graph is a set of pairs; walks, cycles, rotations and reachability are
defined in `Digraph`. `FindCycles` has the path-stack search: its worklist empties because the sum of
(B+1)^(N-|path|) over the stacked paths falls in every turn, B being the largest out-degree and N the number of
nodes. Skipping start nodes that were already seen loses no cycle, since everything reachable from an earlier start
node was searched completely. `TopSort` has the counting sort with its answer that grows while it is iterated over,
and the peeling of levels; both keep the one invariant `Represents`, which says that each count is the number of
pairs whose parent is not yet handled. `Chains` relates longest chains of predecessors to cycles. Dictionary order
is arbitrary: `FindCycles` takes any order of the keys, and the sorts pick keys in any order.

**The controller** (`scratch/*.h`). `Paths` and `Network` are the route with its cursor (unsigned arithmetic wraps)
and the unit-weight search backwards from the access point, with its fallback to node 0 and its counter.
`ShortestPaths` holds the search invariant. `Videos` is the cache. `ControllerModel` is the state machine of users
joining groups, redirections and outside assignments; `ControllerTheorems` has the theorems about all its runs; and
`Controller` has the objects of the program, whose methods perform steps and runs of the machine.

**Smaller parts.** `WorkerPool` is the test runner as a state machine over every interleaving of main, workers and
an interrupt. `ConfigPaths` is the walk that finds configuration paths, `ConfigEdges` tells its edges and
records from the registry alone, and `ConfigRecords` says when it records something twice. `PatchSet` is the patch
reader and writer (`Decimal` has the numbers of chunk headers), `PatchReading` tells from the text of the lines what is
read and where reading fails, and `PatchListing` when writing reproduces a listing. `ShellCmd` is the shell pipeline;
`ShellGrammar` is the language it accepts with its meaning, `ShellPrinting` shows that all it can parse has a printed
form, and `ShellAgreement` compares running it with what a shell does. `Permutations`, `BinaryNumbers`, `RadUtil` and
`StrSplit` are small utilities. `Seqs` and `Wrappers` hold stock facts and types.

## What the code does that one might not expect

- `SearchRoute(s, t)`: when t's part of the graph is exhausted the search goes on from node 0. If s is in the part
  of node 0 but not in that of t, the search "arrives" and then reads behind the end of `prev`. So it succeeds
  exactly when s and t are connected, and goes wrong exactly when s is connected to node 0 and not to t. The
  counter `assegure` never stops a search that would succeed; it is what ends a search that reaches neither.
- `SetUpAdjList(int size)` assigns its parameter in line 167, so the field `size` stays as it was. The methods below
  it are modelled with the intended value, as the precondition `Ready` says.
- `str_split` with an empty delimiter finds it on the spot in every turn, so its loop ends only for the empty string.
  Joining its tokens restores every string exactly when no proper part of the delimiter stands at both its ends, and
  splitting a join restores all tokens under the same condition; with "aa", splitting "aaa" and joining gives
  "aaaaa", because the last test finds a delimiter that overlaps one already used.
- `Gather` calls `Uniquefy(m_output)`, whose parameter is passed by value, so repeated records stay, and all roots
  gather into the same output. Gathering from a root twice always repeats its records. Where items can be told apart
  in a path, the other causes are exactly an edge that a type has twice, as when a pair is registered twice (lines 1292
  and 1294 of `utils/print-introspected-doxygen.cc`), and an edge that two roots share. Items with slashes can also be
  ambiguous: a container "x" and a pointer "x" to a type with a pointer "[i]" give the same path.
- `Pipeline.run` evaluates `&&` and `||` as if they nested to the right: `a || b && c` runs nothing after a
  successful `a`, where a shell would run `c`. The two agree exactly on lists that, behind directory changes at the
  front, use only one of the two operators.
- `parse_patchset` takes a removed line that starts with "-- " for a file header, and an added line that starts with
  "++ " likewise. Apart from these it reads back everything that was written. It needs both counts in a chunk header,
  so the header "@@ -9 +9 @@" that difflib writes for chunks of one line makes it raise (lines 362 and 402 of
  `utils/check-style.py`).
- `is_rotated` raises an IndexError for two empty lists.
- `int2bin` checks what it cuts off, so its result always denotes its argument, but with n = 0 it cuts nothing, and
  with a negative n it cuts that many digits at the front.
- `DoRedirectUsers` does not look at the result of the search: a group whose access point is not connected to the
  node is handed over with the route of the search before, which need not start at the node nor end at the access
  point.

## Model

| member | source | states |
|---|---|---|
| FindCycles.FindCycles | bindings/python/topsort.py:343-385 | for any map and any order of its keys, the yielded lists are simple directed cycles, no two are rotations of one another, and every simple cycle is a rotation of one of them; the search terminates |
| FindCycles.SearchFrom | bindings/python/topsort.py:351-385 | the search from one start node yields every cycle reachable from it, marks only reachable nodes as visited, and adds no rotation of a cycle known before |
| FindCycles.StackLighter | bindings/python/topsort.py:353-383 | replacing a simple path by its extensions lowers the weight of the worklist, so it empties |
| FindCycles.CycleCovered | bindings/python/topsort.py:346-349 | start nodes that are skipped because they were visited lie behind a start node searched completely, so no cycle is lost |
| FindCycles.IsDuplicate | bindings/python/topsort.py:371-375 | a cycle is dropped exactly when one of its rotations was yielded |
| RadUtil.IsRotated | bindings/python/rad_util.py:761-775 | true exactly for rotations, by any number of places; an error exactly for two empty lists |
| TopSort.Tabulate | bindings/python/topsort.py:77-90 | every element has a count, equal to the number of pairs into it (duplicates included), and the child lists hold the pairs |
| TopSort.KnockDown | bindings/python/topsort.py:100-103 | each count drops by the number of occurrences in the child list, and the elements that drop to zero are found once each |
| TopSort.Release | bindings/python/topsort.py:98-106 | handling a parent keeps every count equal to the number of pairs whose parent is not yet handled |
| TopSort.TopSort | bindings/python/topsort.py:77-112 | CycleError exactly when the pairs have a directed cycle; the answer has each element once, every parent before its children; the keys left over are exactly the elements with an ancestor or themselves on a cycle |
| TopSort.CycleErrorKeepsCycles | bindings/python/topsort.py:108-111 | the child lists reported with the error have exactly the cycles of the pairs |
| TopSort.OrderedIsAcyclic | bindings/python/topsort.py:64-64 | nothing that comes after a cycle can stand in a dependency order, so the answer of a failed sort is as long as possible |
| TopSort.TopSortLevelsCore | bindings/python/topsort.py:203-232 | level k is exactly the set of elements whose longest chain of predecessors has k edges and that no cycle precedes; the error comes exactly on cyclic input, with the elements behind cycles left over |
| TopSort.TopSortLevels | bindings/python/topsort.py:157-172 | for a list of pairs: the levels as above, one after another, are a dependency order of exactly the elements that no cycle precedes, each once; an error comes exactly on cyclic input, with the other elements left over |
| TopSort.LevelsOrder | bindings/python/topsort.py:115-122 | a parent's level is below its child's |
| TopSort.LevelsInSequence | bindings/python/topsort.py:115-122 | the levels one after another repeat nothing and have every parent before its children |
| TopSort.LevelsDisjoint | bindings/python/topsort.py:203-224 | no element is on two levels |
| TopSort.LevelExists | bindings/python/topsort.py:203-232 | an element has a level, below the number of elements, exactly when no cycle precedes it |
| Chains.CyclicIffUnboundedChains | bindings/python/topsort.py:226-229 | an element has a cycle among its ancestors or on itself exactly when chains of every length end at it, and exactly when one as long as the number of elements does |
| Paths.Path.AddLinkToPath | scratch/path.h:58-64 | the path grows by the node, and length, from and to stay in step |
| Paths.Path.GoLastLink | scratch/path.h:76-79 | the cursor stands on the last link; for a path of fewer than two nodes it wraps around |
| Paths.Path.GoAhead | scratch/path.h:86-89 | the cursor moves on, modulo 2^32 |
| Paths.Path.GoBack | scratch/path.h:91-94 | the cursor moves back, modulo 2^32 |
| Paths.Path.IsEndPath | scratch/path.h:96-99 | the cursor is on the last node or behind it, never so for the empty path |
| Network.NetworkTopology.SetUpAdjList | scratch/network-topology.h:152-169 | there is one list a node, and the pairs they hold grow by exactly the links, in both directions; the field size stays as it was |
| Network.NetworkTopology.SettleUntil | scratch/network-topology.h:222-258 | the loop arrives with predecessors that lead to t over shortest ways, or by way of node 0, or gives up, and gives up only when s is connected neither to t nor to node 0 |
| Network.NetworkTopology.BuildRoute | scratch/network-topology.h:260-268 | the route becomes the chain of predecessors; it reads out of bounds exactly when the chain ends in a node without predecessor |
| Network.NetworkTopology.Dijkstra | scratch/network-topology.h:218-271 | found exactly when s and t are connected, with a shortest route among all walks; false, and the route untouched, exactly when s is connected neither to t nor to node 0; reads out of bounds in the remaining case |
| Network.NetworkTopology.SearchRoute | scratch/network-topology.h:208-216 | the same with s and t equal included; the route found has no node twice |
| ShortestPaths.Round | scratch/network-topology.h:232-258 | one turn of the search keeps its invariant, whichever of the four ways it takes |
| ShortestPaths.RoundFallsBack | scratch/network-topology.h:243-253 | the turn in which nothing is left to settle takes node 0, and only once |
| ShortestPaths.ArrivedChain | scratch/network-topology.h:260-268 | on arrival the predecessors of s form a shortest chain to t, or one that ends without predecessor when the search was lost |
| ShortestPaths.FallbackGoesWrong | scratch/network-topology.h:243-243 | in a graph on three nodes with the one link 0 - 1, node 1 is connected to node 0, which the search falls back to, and not to node 2 |
| Network.FallbackLeavesBounds | scratch/network-topology.h:208-271 | built by the methods of the topology, this graph makes the search for a route from 1 to 2 leave the bounds |
| ShortestPaths.ShortestIsSimple | scratch/network-topology.h:218-271 | a shortest route has no node twice |
| ShortestPaths.ShortestSuffix | scratch/network-topology.h:218-271 | what remains of a shortest route behind any of its nodes is a shortest route from there |
| Videos.VideoStore.BindVideosToNode | scratch/videos.h:25-30 | the node holds the videos of the range after those it had; other nodes are untouched |
| Videos.VideoStore.HasVideoByNode | scratch/videos.h:32-40 | true exactly when the node holds the video |
| Videos.VideoStore.AddCapacityNode | scratch/videos.h:42-46 | the node has the capacity and no placement; other nodes are untouched |
| Videos.VideoStore.VideoAssignment | scratch/videos.h:48-58 | a placement happens exactly below capacity, adds the video to that node only, and is counted once there |
| Videos.VideoStore.ServeFrom | scratch/ctrl-dash-main.h:444-456 | true exactly when the node holds the video or its counter is below its capacity, written out on the fields; it then holds the video, appended and counted only if it was missing, and otherwise nothing changes |
| ControllerTheorems.ProvideKeepsLimits | scratch/videos.h:48-58 | serving a video keeps every node within its capacity and without duplicates, and takes no video away |
| ControllerTheorems.TargetFromIsFirst | scratch/ctrl-dash-main.h:437-461 | the walk back takes the first available node it is offered, and passes over none that is available |
| ControllerTheorems.TargetIsLastAvailable | scratch/ctrl-dash-main.h:423-461 | with the congested link at index j of a simple route the target is the last available node at an index above max(j, 1), and there is none exactly when no such node is available |
| ControllerTheorems.InvAtStart | scratch/ctrl-dash-main.h:387-415 | the invariant holds before any user has joined |
| ControllerTheorems.MoveKeepsInv | scratch/ctrl-dash-main.h:592-605 | handing a group to an available node keeps the invariant of the whole controller |
| ControllerTheorems.JoinKeepsInv | scratch/ctrl-dash-main.h:387-415 | so does a user who joins a group or opens one |
| ControllerTheorems.StepKeepsInv | scratch/ctrl-dash-main.h:387-524 | so does every step |
| ControllerTheorems.RunKeepsInv | scratch/ctrl-dash-main.h:387-524 | in every state of every run, whatever the solver answers: group keys are unique, each route is a shortest path from the serving node to the access point, that node holds the content, the server table and the group name its address, and caches stay within their limits |
| ControllerTheorems.RedirectRelieves | scratch/ctrl-dash-main.h:417-463 | a redirected group's new route avoids the node before the congested link, and is at least two hops shorter |
| ControllerTheorems.HopsAreSaved | scratch/ctrl-dash-main.h:417-524 | in every run, twice the redirections of a group and the hops it has left are no more than the hops it was opened with and those its assignments can have given it |
| ControllerTheorems.RedirectionsRunOut | scratch/ctrl-dash-main.h:417-463 | a group that is never assigned from outside, whenever it was opened and whatever is assigned otherwise, is redirected at most half as often as its route had hops when it was opened |
| ControllerTheorems.BoundIsAttained | scratch/ctrl-dash-main.h:417-463 | a line of three nodes, with a cache written out that has one slot left, on which a group with two hops is redirected once, so the bound on redirections is sharp and the last slot is used |
| ControllerTheorems.RunCountsUsers | scratch/ctrl-dash-main.h:398-414 | over every run the group sizes grow by exactly the number of users added |
| ControllerTheorems.RunKeepsKeys | scratch/ctrl-dash-main.h:592-605 | no run adds a key to the server table or takes one away |
| ControllerTheorems.RunCountsVideos | scratch/videos.h:48-58 | over every run a node's counter moves exactly with the videos it holds, and capacities stay |
| ControllerTheorems.PassOnlyRelieves | scratch/ctrl-dash-main.h:417-463 | one call of the redirecting loop changes a group's route at most in the group's own turn, and then the route leaves the congested node; otherwise the route is as before the call |
| ControllerTheorems.TurnIsDone | scratch/ctrl-dash-main.h:417-463 | in its turn a group stays as it is if its route does not take the link, or every node behind the link, but for the second of the route, lacks the video and has its counter at its capacity; otherwise the last node that does not refuse takes it over: shortest route, address, table entry, and the video placed if it was missing |
| ControllerTheorems.PassIsTurns | scratch/ctrl-dash-main.h:417-463 | a call of the redirecting loop is one such turn of each group in order |
| ControllerTheorems.AnswerIsDone | scratch/ctrl-dash-main.h:508-524 | an answer is ignored exactly when the server named lacks the video and has its counter at its capacity; otherwise the server takes the group over |
| ControllerTheorems.SolutionIsAnswers | scratch/ctrl-dash-main.h:504-524 | the answers of the solver are applied so, one after another |
| ControllerTheorems.PassShrinksCommonGroups | scratch/ctrl-dash-main.h:369-463 | the groups found on the link after a call were found on it before, with the same routes |
| ControllerTheorems.CommonGroupsComplete | scratch/ctrl-dash-main.h:369-385 | the indices found are exactly those of the groups on the link, in ascending order |
| Controller.GroupUser.constructor | scratch/group-user.h:45-54 | a group starts with its one user, and its access point is where the route starts from |
| Controller.GroupUser.MoveTo | scratch/group-user.h:64-74 | the setters change route, node and address, nothing else |
| Controller.FindLink | scratch/ctrl-dash-main.h:426-434 | finds the link exactly when the route crosses it, with every cursor read in bounds |
| Controller.FindServer | scratch/ctrl-dash-main.h:437-461 | the cursor walk chooses the specified target, provides the video there, and leaves the cache alone when there is none |
| Controller.DashController.DoRedirectUsers | scratch/ctrl-dash-main.h:592-605 | the group, and only it, gets the route of the search: a shortest one from the node if the two are connected, the one of the search before if nothing was found; its address and the server table entry of its key name the node; a search that leaves the bounds ends it |
| Controller.HandedOverWithOldRoute | scratch/ctrl-dash-main.h:592-605 | three nodes without links, built by the methods of the classes, on which a group is handed to node 1 with the route of a search from node 0 to itself |
| Controller.DashController.RedirectUsersTwo | scratch/ctrl-dash-main.h:417-466 | the loop performs a run of the state machine that gives every group one turn, and each turn does what is said of one above, told by free slots and routes |
| Controller.DashController.ApplySolution | scratch/ctrl-dash-main.h:504-524 | the loop performs a run of the state machine, for every list of answers with valid indices, and each answer is ignored or served as said above |
| Controller.DashController.AddUserInGroup | scratch/ctrl-dash-main.h:387-415 | the user joins the group of the network and content, or opens it over a shortest route from the node given, with the address that the server table names, empty for a missing key; that group is returned with the user in it; the groups stay or gain this one, a new object; from the origin, over a known key, this is the joining step and keeps the invariant |
| Controller.Session | scratch/ctrl-dash-main.h:387-466 | from a new controller, users who join, a redirection, and more users make one run of the state machine, and no user is lost |
| Controller.DashController.IndexOf | scratch/ctrl-dash-main.h:398-405 | the loop stops at the first group with the network and content |
| Controller.DashController.FindCommonGroups | scratch/ctrl-dash-main.h:369-385 | returns exactly the indices of the groups whose route has the ends of the link next to each other, in ascending order |
| WorkerPool.InitHasInv | test.py:1395-1402 | the invariant holds when the workers have been started |
| WorkerPool.NextKeepsInv | test.py:965-1033 | every action of main, a worker or the interrupt keeps it: each dispatched test is in exactly one place, each break job is queued or taken by one worker, tests stand in front of break jobs |
| WorkerPool.RunKeepsInv | test.py:1399-1723 | it holds in every state of every interleaving |
| WorkerPool.NoDeadlock | test.py:1667-1690 | with at least one worker, until main is done some main or worker action is possible |
| WorkerPool.WorkDrops | test.py:965-1033 | every action but the interrupt uses up some of the work that is left |
| WorkerPool.RunsAreBounded | test.py:965-1033 | a run has at most 6 actions a test and 4 a worker, and 4 more, interrupts not counted |
| WorkerPool.OneBreakEach | test.py:965-973 | in every run a worker has taken one break job if it is on its way out or gone, and none before |
| WorkerPool.MaximalRunsFinish | test.py:1828-1916 | a run that cannot go on has main done, all workers gone after one break job each, empty queues, every test collected once, each of the six counters equal to the number of tests that the actions of the run ended in that way, and the result 0 exactly when every test was skipped or its process ended with status 0 |
| WorkerPool.DoneIsDrained | test.py:1689-1690 | when main is done the queues are empty and every test came back exactly once |
| WorkerPool.DoneIsCounted | test.py:1699-1718 | the six counters of the collected jobs add up; none is counted as broken off without an interrupt; the result is 0 exactly when all passed or were skipped |
| WorkerPool.DoneIsReported | test.py:1699-1718 | when main is done, in any run, the counters and the result are those of the ends that the actions gave the tests: skipped, broken off, or the status of the process |
| WorkerPool.EndsOnce | test.py:965-1033 | a test ends once and in one way; no process ends of a test that was skipped |
| WorkerPool.CounterTells | test.py:1699-1718 | each counter is the number of tests that ended in its way |
| ConfigPaths.StaticInformation.HasAlreadyBeenProcessed | utils/print-introspected-doxygen.cc:1113-1125 | true exactly for the types on the stack |
| ConfigPaths.StaticInformation.RecordOutput | utils/print-introspected-doxygen.cc:1105-1110 | appends the type with the string of the current path |
| ConfigPaths.StaticInformation.DoGather | utils/print-introspected-doxygen.cc:1185-1269 | appends the specified records, restores both stacks, and terminates because fewer types are off the stack in each call |
| ConfigPaths.GatherRecordsSimpleWalks | utils/print-introspected-doxygen.cc:1185-1269 | from empty stacks there is exactly one record for each walk over attribute, child and aggregate edges that meets no type twice, with the type it ends in and its path string |
| ConfigPaths.GatherIsWalks | utils/print-introspected-doxygen.cc:1193-1268 | with any stacks, the records are those of the walks that avoid the stack, in order |
| ConfigPaths.WalksComplete | utils/print-introspected-doxygen.cc:1189-1192 | the walks taken are exactly the simple ones outside the stack |
| ConfigPaths.WalksDistinct | utils/print-introspected-doxygen.cc:1194-1268 | no walk is taken twice |
| ConfigEdges.EdgesAreWays | utils/print-introspected-doxygen.cc:1194-1268 | a type has exactly one edge for each of: a pointer attribute that does not point to Object, with its name; a container attribute, with its name and "/[i]"; a registered type that is its child, with "$" and its name; a registered pair it is part of, with "$" and the name of the other end |
| ConfigEdges.GatherRecordsWays | utils/print-introspected-doxygen.cc:1185-1269 | a gathering makes exactly one record for every walk over these, told by what each step comes from in the registry, that passes no type twice: its last type, and the items behind one slash each |
| ConfigEdges.WayIsRecorded | utils/print-introspected-doxygen.cc:1194-1268 | each of these that leads from the root to another type is recorded |
| ConfigEdges.RegistryIsRecorded | utils/print-introspected-doxygen.cc:1194-1268 | the same written out for attributes, children and pairs |
| ConfigEdges.GatherFrom | utils/print-introspected-doxygen.cc:1176-1182 | the output grows by these records, and both stacks are as before |
| ConfigRecords.RootDistinctIff | utils/print-introspected-doxygen.cc:1185-1269 | where items can be told apart, one gathering records nothing twice exactly when no simple walk from the root takes an edge that its type has twice |
| ConfigRecords.RecordsDistinctIff | utils/print-introspected-doxygen.cc:1159-1182 | where items can be told apart, gathering from a list of roots records nothing twice exactly when no root comes twice, no simple walk from a root takes an edge that its type has twice, and no two roots share an edge to a third type |
| ConfigRecords.GatherRoots | utils/print-introspected-doxygen.cc:1313-1317 | the output of the loop over the roots is that of all gatherings one after another, with nothing removed, so that law holds of it; it repeats something whenever a root comes twice |
| ConfigRecords.RootTwiceRepeats | utils/print-introspected-doxygen.cc:1176-1182 | gathering from the same root twice repeats a record, whatever the items |
| ConfigRecords.SharedEdgeRepeats | utils/print-introspected-doxygen.cc:1176-1182 | an edge that two roots share gives a record from each, whatever the items |
| ConfigRecords.ApartItemsDistinct | utils/print-introspected-doxygen.cc:1159-1182 | if no item of a type or of another root, followed by a slash, is at the front of one followed by a slash, gathering from the roots records nothing twice exactly when no root comes twice |
| ConfigRecords.DoubledEdgeRepeats | utils/print-introspected-doxygen.cc:1234-1268 | an edge that a type has twice, at the end of a simple walk, gives a repeated record, whatever the items |
| ConfigRecords.RepeatedPairRepeats | utils/print-introspected-doxygen.cc:1247-1268 | a pair of two types that is registered twice gives a repeated record from its first type on |
| ConfigRecords.SlashIsAmbiguous | utils/print-introspected-doxygen.cc:1214-1232 | a registry whose types have no two equal items and still a record repeats |
| PatchSet.Output.EmitLine | utils/check-style.py:204-217 | the file gains the text behind "-", "+" or a space |
| PatchSet.Output.EmitChunk | utils/check-style.py:286-295 | the file gains the header, written out with both positions and the numbers of old and new lines, and the lines, each behind its sign |
| PatchSet.Output.EmitPatch | utils/check-style.py:348-357 | the file gains both file headers and the chunks in order |
| PatchSet.SourceLines | utils/check-style.py:254-263 | the lines of the old file in their order, as many as the header counts |
| PatchSet.DestinationLines | utils/check-style.py:264-273 | the lines of the new file in their order, as many as the header counts |
| PatchSet.SidesAreExact | utils/check-style.py:254-273 | each side has exactly the lines that do not belong to the other side only |
| PatchSet.SidesInOrder | utils/check-style.py:254-273 | the sides of two pieces are the sides of each, one behind the other |
| PatchReading.ParsePatchset | utils/check-style.py:359-403 | it succeeds exactly when every line starts with "-", "+" or a space or is a chunk header with four numbers, no "+++ " line or header comes before the first "--- " line, and no other line before the first header; otherwise the error is that of the first line at fault; what it returns has the old names and chunk headers, the headers and body lines, and the last new name of each patch, all in the order of the lines |
| PatchReading.ReadFaults | utils/check-style.py:372-402 | that law, by the text of the lines |
| PatchReading.AllIsRead | utils/check-style.py:372-401 | no line that is read is lost, doubled or moved to another place in the patches |
| PatchReading.HeaderIsFound | utils/check-style.py:362-362 | the pattern for chunk headers matches exactly "@@ -a,b +c,d @@" with non-empty digits and anything behind, and gives a and c |
| Decimal.PrintRead | utils/check-style.py:239-240 | digits without a leading zero are the numeral of the number that they are read as |
| Decimal.ReadLeadingZero | utils/check-style.py:239-240 | a leading zero does not change the number |
| PatchSet.HeaderRoundTrip | utils/check-style.py:362-362 | a written chunk header is read back as its two positions, whatever the four numbers |
| PatchSet.RoundTripIffSafe | utils/check-style.py:359-403 | reading what was written rebuilds the same patches exactly when no removed line starts with "-- " and no added line with "++ " |
| PatchSet.OnePatchRoundTrip | utils/check-style.py:348-403 | the same for one written patch |
| PatchListing.WriteParseIffCanonical | utils/check-style.py:359-403 | writing what was read reproduces a listing line for line exactly when file headers come in pairs, body lines stand behind chunk headers, and these are spelled canonically with the right counts |
| PatchListing.ReadOrdered | utils/check-style.py:371-402 | a listing in that order is read without error, and nothing of it is lost |
| Permutations.Permutations | bindings/python/rad_util.py:310-326 | the nested loops build the specified list |
| Permutations.PermsExact | bindings/python/rad_util.py:310-326 | the lists are exactly the rearrangements of the input |
| Permutations.PermsCount | bindings/python/rad_util.py:310-326 | there are n! of them |
| Permutations.PermsDistinct | bindings/python/rad_util.py:310-326 | none is repeated when the items differ |
| BinaryNumbers.Int2Bin | bindings/python/rad_util.py:91-105 | the result always reads back as i, and has n digits for n >= 1; ValueError exactly when the digits left have no room for i, that is for n >= 1 when i >= 2^n; KeyError exactly for negative i |
| BinaryNumbers.HexValue | bindings/python/rad_util.py:96-96 | replacing hexadecimal digits by groups of four keeps the number |
| BinaryNumbers.NumeralUnique | bindings/python/rad_util.py:130-130 | a number has only one numeral of a given width, so reading and writing are inverse both ways |
| BinaryNumbers.RippleIncrement | bindings/python/rad_util.py:649-659 | one round of toggles is the increment in place, and reports the carry |
| BinaryNumbers.IncrementValue | bindings/python/rad_util.py:651-659 | the increment adds one, and carries out exactly from the greatest number, to zero |
| BinaryNumbers.BinaryRange | bindings/python/rad_util.py:639-660 | the loop ends with 2^bits strings whose k-th is the numeral of k |
| ShellCmd.Pipeline.ParseToken | waf-tools/shellcmd.py:136-199 | one turn of the loop, with each assertion that can fail |
| ShellCmd.Pipeline.Parse | waf-tools/shellcmd.py:121-201 | the loop builds the specified list or fails, as the law of the language says; a list is well formed and of odd length |
| ShellCmd.ParsedIsWell | waf-tools/shellcmd.py:136-201 | whenever parsing returns, commands and operators alternate, exactly the commands in front of a pipe write into one, the last one does not, and a directory change comes in front of && or last |
| ShellGrammar.ParsedIffSentence | waf-tools/shellcmd.py:121-201 | parsing succeeds exactly when the tokens are clauses joined by operators: settings, a name that is neither a setting nor cd, then words and redirections in any order, at most one of each stream, with no file for the output in front of a pipe, or cd with at most one directory in front of && only; a last sign may lack its file; the list is then the commands with these words, files, settings (the last of each name) and pipes |
| ShellGrammar.SettingIff | waf-tools/shellcmd.py:24-24 | a token is a setting exactly when it is a name of letters, digits and underscores, "=", and a value without white space, neither of them empty, with perhaps one newline at the end |
| ShellCmd.ParsePrinted | waf-tools/shellcmd.py:121-201 | parsing undoes printing, for all commands with settings and redirections and operators that may follow them |
| ShellPrinting.ParsedIsPrinted | waf-tools/shellcmd.py:121-201 | whatever parsing returns is the parse of the printed form of commands with settings and redirections and operators that may follow them |
| ShellCmd.Pipeline.ExecPipedCommands | waf-tools/shellcmd.py:203-212 | the status of a group |
| ShellCmd.WaitIsLast | waf-tools/shellcmd.py:203-212 | that status is always the one of the last command |
| ShellCmd.Pipeline.Run | waf-tools/shellcmd.py:214-346 | the loop returns what the specification says; for every list in which commands and operators alternate, as parsing returns, the processes are those of the commands in front of the place where it ends, in order, each with its words, output streams and settings, in the directory that the changes before it lead to, reading from the process before it if a pipe is in front, otherwise from its file if it has one; && was passed with status 0 only and || with another one only; and it ends for the reason that the outcome names |
| ShellCmd.JoinLaw | waf-tools/shellcmd.py:228-228 | an absolute directory replaces the one before, a relative one is appended behind exactly one slash |
| ShellCmd.CommandRan | waf-tools/shellcmd.py:233-346 | one turn for a command keeps what is said of the processes, and stops exactly at the end of the list or at an operator that the status does not pass |
| ShellCmd.RunIsEval | waf-tools/shellcmd.py:214-346 | on a list in which each directory change has a directory and a following && and does not follow a pipe, running is right-nested short-circuit evaluation over piped groups |
| ShellAgreement.AgreesWithShell | waf-tools/shellcmd.py:214-346 | this evaluation agrees with the left-binding one of a shell, for all statuses of the processes, exactly when behind the directory changes at the front all operators other than pipes are of one kind |
| ShellAgreement.OrThenAnd | waf-tools/shellcmd.py:312-346 | on "a or b and c" with a successful first command, running starts one process and a shell two |
| StrSplit.LoopEndsIff | scratch/utils.h:49-57 | the loop ends exactly when there is a delimiter or nothing to split |
| StrSplit.StrSplit | scratch/utils.h:45-64 | for every string and delimiter for which it ends, the loop yields the specified tokens, with and without empty entries |
| StrSplit.TokensAreFree | scratch/utils.h:49-57 | no token contains the delimiter |
| StrSplit.TokensAreCut | scratch/utils.h:49-57 | the tokens follow each other: each ends at the first delimiter from its start on, or with the string, and the next starts right behind that delimiter, until the string is used up |
| StrSplit.OnlyEmptyDropped | scratch/utils.h:54-56 | removing empty entries drops the empty tokens, and no others |
| StrSplit.NonEmptyConcat | scratch/utils.h:54-56 | and keeps the order of the rest |
| StrSplit.JoinUndoesSplit | scratch/utils.h:45-64 | joining the tokens restores every string exactly when the delimiter does not overlap itself |
| StrSplit.JoinUndoesSplitOf | scratch/utils.h:45-64 | for each string: joining its tokens restores it exactly if, should it end with the delimiter, the loop ends at the end of the string and not behind it |
| StrSplit.SplitUndoesJoin | scratch/utils.h:45-64 | splitting a join returns the tokens, for all tokens without the delimiter, exactly when the delimiter does not overlap itself |
| StrSplit.BorderBreaksJoin | scratch/dash-utils.h:51-55 | for a delimiter that overlaps itself, a string after whose split the join is too long by one delimiter |
| StrSplit.BorderBreaksSplit | scratch/utils.h:45-64 | and two tokens without the delimiter that splitting their join does not return |
| StrSplit.SingleCharacter | scratch/utils.h:45-64 | for a delimiter of one character splitting and joining undo each other, both ways |

## Left out

- Everything of ns-3 (nodes, sockets, addresses, the simulator, the type registry): nodes are numbers, addresses are a list indexed by node, and the registry is a list of types with labelled edges.
- Sockets, printing, sending of redirects and set-up in `scratch/ctrl-dash-main.h`; `RedirectUsers` and `ResourceAllocation`, which are dead or unfinished; the solver process and its files, of which only the loop over the answers is modelled.
- `canAlloc`, `canAllocGroups`, `allocStream` and the allocation matrix: they do not affect routing.
- Network.NetworkTopology.SearchRoute: needs symmetric adjacency lists in range and a field `size` equal to their number, as after a proper set-up.
- Controller.DashController.AddUserInGroup: needs a connected graph; with another node than the origin, or a key that the server table lacks, the invariant of the controller is not claimed.
- Controller.DashController.ApplySolution: needs answers with valid group and server indices; the program does not check them.
- Default entries that `operator[]` inserts into the maps of `scratch/videos.h` on reading: absent and zero or empty read the same.
- Content numbers and node numbers are natural numbers; counters of videos and users do not overflow.
- A group's route is held as a sequence of nodes: its cursor is reset before each use, so the model does not carry it.
- ControllerTheorems.RedirectionsRunOut: a group that is assigned from outside is bounded by `HopsAreSaved` only, since an assignment may give it a longer route again.
- The nodes' fake server application that is told about a placed video.
- FindCycles.FindCycles: the list objects that are yielded are the ones kept for the test on duplicates; a caller that changes them while iterating is not modelled.
- Generators run to their end; what a caller sees who stops early is a prefix.
- WorkerPool.NextKeepsInv: workers take whole steps between queue operations; exceptions in a worker, the reading of results and the XML report are not modelled, and a process may end with any status.
- ConfigPaths.StaticInformation.DoGather: checkers other than those for pointers and containers add no edge, so they are one case; the log is left out.
- PatchReading.ParsePatchset: patches, chunks and lines are values, with the open chunk named by the index of its patch; lines are given without their newlines, and no text holds one.
- The whitespace filter, uncrustify and the patch program in `utils/check-style.py`.
- ShellCmd.Pipeline.Parse: takes the list of tokens; splitting a command line with shlex is not modelled, and word characters are those of ASCII.
- ShellCmd.Pipeline.Run: leaves out verbose runs (they use a variable that may be unbound, lines 322 and 325), opening and closing of files, and processes that cannot be started; the environment is the added settings.
- StrSplit.StrSplit: leaves out a non-empty string with an empty delimiter, for which the loop does not end.
- ShellAgreement.AgreesWithShell: a directory change always succeeds, and a shell without the option pipefail is meant.
- ConfigRecords.RecordsDistinctIff: where items cannot be told apart, only the conditions of the lemmas beside it are given.
- Permutations.Permutations: lists are values, so that a list of one item is returned itself and not as a copy is not modelled.
- Reading of topology files, random numbers, statistics and drawing.
