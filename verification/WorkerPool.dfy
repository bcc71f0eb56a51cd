/** The test runner of test.py as a state machine: a main thread, workers, two FIFO queues and an interrupt flag. */
module WorkerPool {
  import opened Wrappers

  /** A test has an id counted from 0; the break jobs that main queues behind the tests carry the id -1. */
  datatype Job = Job(id: int, isBreak: bool, isSkip: bool, returncode: int)

  /** What a worker is doing: waiting for a job, looking at the one it got, running it, or gone. */
  datatype Worker = Waiting | Holding(job: Job) | Running(job: Job) | Exited

  /** Where main is: queueing tests, queueing break jobs, collecting results, joining the workers, finished. */
  datatype Main = Dispatching | Breaking(sent: nat) | Collecting | Joining | Done(result: int)

  datatype Tally = Tally(passed: nat, skipped: nat, failed: nat, crashed: nat, valgrind: nat, interrupted: nat)

  datatype State = State(main: Main, dispatched: nat, input: seq<Job>, output: seq<Job>, workers: seq<Worker>,
                         threadExit: bool, collected: seq<Job>, tally: Tally)

  datatype Action =
    | MainStep
    | Get(w: nat)
    | Look(w: nat)
    | Finish(w: nat, returncode: int)
    | Interrupt

  /** Which tests are to be skipped, and how many workers there are. */
  datatype Config = Config(skip: seq<bool>, processors: nat)

  function Init(c: Config): State {
    State(Dispatching, 0, [], [], seq(c.processors, _ => Waiting), false, [], Tally(0, 0, 0, 0, 0, 0))
  }

  /** The counter that a collected job raises. */
  function Score(t: Tally, job: Job): Tally {
    if job.isBreak then t.(interrupted := t.interrupted + 1)
    else if job.isSkip then t.(skipped := t.skipped + 1)
    else if job.returncode == 0 then t.(passed := t.passed + 1)
    else if job.returncode == 1 then t.(failed := t.failed + 1)
    else if job.returncode == 2 then t.(valgrind := t.valgrind + 1)
    else t.(crashed := t.crashed + 1)
  }

  /** Main's next step; None while it blocks on the output queue or on a worker that still lives. */
  function MainNext(c: Config, st: State): Option<State> {
    match st.main
    case Dispatching =>
      if st.dispatched < |c.skip| then
        Some(st.(input := st.input + [Job(st.dispatched, false, c.skip[st.dispatched], 0)],
                 dispatched := st.dispatched + 1))
      else Some(st.(main := Breaking(0)))
    case Breaking(sent) =>
      if sent < c.processors then Some(st.(input := st.input + [Job(-1, true, false, 0)], main := Breaking(sent + 1)))
      else Some(st.(main := Collecting))
    case Collecting =>
      if |st.collected| < st.dispatched then
        if st.output == [] then None
        else Some(st.(output := st.output[1..], collected := st.collected + [st.output[0]],
                      tally := Score(st.tally, st.output[0])))
      else Some(st.(main := Joining))
    case Joining =>
      if forall w :: 0 <= w < |st.workers| ==> st.workers[w].Exited? then
        Some(st.(main := Done(if st.tally.passed + st.tally.skipped == st.dispatched then 0 else 1)))
      else None
    case Done(_) => None
  }

  /** What a worker makes of the job in its hands. */
  function LookNext(st: State, w: nat, job: Job): State
    requires w < |st.workers|
  {
    if job.isBreak then st.(workers := st.workers[w := Exited])
    else if st.threadExit then st.(output := st.output + [job.(isBreak := true)], workers := st.workers[w := Waiting])
    else if job.isSkip then st.(output := st.output + [job], workers := st.workers[w := Waiting])
    else st.(workers := st.workers[w := Running(job)])
  }

  /** The state after an action, if the action is possible. */
  function Next(c: Config, st: State, a: Action): Option<State> {
    match a
    case MainStep => MainNext(c, st)
    case Get(w) =>
      if w < |st.workers| && st.workers[w].Waiting? && st.input != [] then
        Some(st.(input := st.input[1..], workers := st.workers[w := Holding(st.input[0])]))
      else None
    case Look(w) =>
      if w < |st.workers| && st.workers[w].Holding? then Some(LookNext(st, w, st.workers[w].job)) else None
    case Finish(w, rc) =>
      if w < |st.workers| && st.workers[w].Running? then
        Some(st.(output := st.output + [st.workers[w].job.(returncode := rc)], workers := st.workers[w := Waiting]))
      else None
    case Interrupt => Some(st.(threadExit := true))
  }

  /** A run from the start: every action leads from one state of the trace to the next. */
  ghost predicate Run(c: Config, trace: seq<State>, actions: seq<Action>) {
    && |trace| == |actions| + 1 && trace[0] == Init(c)
    && forall k :: 0 <= k < |actions| ==> Next(c, trace[k], actions[k]) == Some(trace[k + 1])
  }

  // Where the jobs are

  /** How often a test is among the jobs. */
  function Count(jobs: seq<Job>, id: nat): nat {
    if jobs == [] then 0 else Count(jobs[..|jobs| - 1], id) + if jobs[|jobs| - 1].id == id then 1 else 0
  }

  predicate Has(w: Worker, id: nat) {
    (w.Holding? || w.Running?) && w.job.id == id
  }

  /** How many workers have the test in hand. */
  function CountInHand(workers: seq<Worker>, id: nat): nat {
    if workers == [] then 0
    else CountInHand(workers[..|workers| - 1], id) + if Has(workers[|workers| - 1], id) then 1 else 0
  }

  /** How many break jobs wait in the queue. */
  function Breaks(jobs: seq<Job>): nat {
    if jobs == [] then 0 else Breaks(jobs[..|jobs| - 1]) + if jobs[|jobs| - 1].id < 0 then 1 else 0
  }

  /** The worker has taken a break job. */
  predicate TookBreak(w: Worker) {
    w.Exited? || (w.Holding? && w.job.id < 0)
  }

  function BreaksTaken(workers: seq<Worker>): nat {
    if workers == [] then 0
    else BreaksTaken(workers[..|workers| - 1]) + if TookBreak(workers[|workers| - 1]) then 1 else 0
  }

  function BreaksSent(c: Config, m: Main): nat {
    match m
    case Dispatching => 0
    case Breaking(sent) => sent
    case _ => c.processors
  }

  // The invariant

  /** A test still carries the data it was queued with; only break jobs have a negative id. */
  ghost predicate Fresh(c: Config, job: Job) {
    if job.id < 0 then job.isBreak else job.id < |c.skip| && !job.isBreak && job.isSkip == c.skip[job.id]
  }

  /** A test on its way back: skipped only if it was to be skipped, broken off only after the interrupt. */
  ghost predicate Returned(c: Config, st: State, job: Job) {
    0 <= job.id < |c.skip| && job.isSkip == c.skip[job.id] && (job.isBreak ==> st.threadExit)
  }

  ghost predicate JobsSane(c: Config, st: State) {
    && (forall k :: 0 <= k < |st.input| ==> Fresh(c, st.input[k]))
    && (forall w :: 0 <= w < |st.workers| && st.workers[w].Holding? ==> Fresh(c, st.workers[w].job))
    && (forall w :: 0 <= w < |st.workers| && st.workers[w].Running? ==>
          Fresh(c, st.workers[w].job) && st.workers[w].job.id >= 0 && !st.workers[w].job.isSkip)
    && (forall k :: 0 <= k < |st.output| ==> Returned(c, st, st.output[k]))
    && (forall k :: 0 <= k < |st.collected| ==> Returned(c, st, st.collected[k]))
  }

  /** The tests stand before the break jobs in the input queue, and once a break job is taken no test is left there. */
  ghost predicate TestsFirst(st: State) {
    && (forall j, k :: 0 <= j < k < |st.input| && st.input[j].id < 0 ==> st.input[k].id < 0)
    && (BreaksTaken(st.workers) > 0 ==> forall k :: 0 <= k < |st.input| ==> st.input[k].id < 0)
  }

  function Places(st: State, id: nat): nat {
    Count(st.input, id) + CountInHand(st.workers, id) + Count(st.output, id) + Count(st.collected, id)
  }

  /** Every dispatched test is in exactly one place. */
  ghost predicate NoneLost(st: State) {
    forall id: nat :: Places(st, id) == if id < st.dispatched then 1 else 0
  }

  /** Every break job sent is in the queue or was taken by one worker. */
  ghost predicate BreaksKept(c: Config, st: State) {
    Breaks(st.input) + BreaksTaken(st.workers) == BreaksSent(c, st.main)
  }

  function Total(t: Tally): nat {
    t.passed + t.skipped + t.failed + t.crashed + t.valgrind + t.interrupted
  }

  /** The tally of a list of collected jobs. */
  function TallyOf(jobs: seq<Job>): Tally {
    if jobs == [] then Tally(0, 0, 0, 0, 0, 0) else Score(TallyOf(jobs[..|jobs| - 1]), jobs[|jobs| - 1])
  }

  ghost predicate PhaseSane(c: Config, st: State) {
    && |st.workers| == c.processors && st.dispatched <= |c.skip|
    && (st.main.Dispatching? || st.dispatched == |c.skip|)
    && (st.main.Breaking? ==> st.main.sent <= c.processors)
    && (st.main.Dispatching? || st.main.Breaking? ==> st.collected == [])
    && st.tally == TallyOf(st.collected)
  }

  ghost predicate Finished(c: Config, st: State) {
    && |st.collected| == |c.skip|
    && (st.main.Done? ==>
          && (forall w :: 0 <= w < |st.workers| ==> st.workers[w].Exited?)
          && st.main.result == if st.tally.passed + st.tally.skipped == st.dispatched then 0 else 1)
  }

  ghost predicate Inv(c: Config, st: State) {
    && PhaseSane(c, st) && JobsSane(c, st) && TestsFirst(st) && NoneLost(st) && BreaksKept(c, st)
    && (st.main.Joining? || st.main.Done? ==> Finished(c, st))
  }

  // Counting over queues and workers

  lemma {:induction false} HeadTail(jobs: seq<Job>)
    requires jobs != []
    ensures forall id: nat :: Count(jobs, id) == Count(jobs[1..], id) + if jobs[0].id == id then 1 else 0
    ensures Breaks(jobs) == Breaks(jobs[1..]) + if jobs[0].id < 0 then 1 else 0
    decreases |jobs|
  {
    var n := |jobs| - 1;
    if n == 0 {
      assert jobs[..0] == [] && jobs[1..] == [];
    } else {
      HeadTail(jobs[..n]);
      assert jobs[..n][1..] == jobs[1..][..n - 1];
      assert jobs[1..][n - 1] == jobs[n];
    }
  }

  lemma Push(jobs: seq<Job>, job: Job)
    ensures forall id: nat :: Count(jobs + [job], id) == Count(jobs, id) + if job.id == id then 1 else 0
    ensures Breaks(jobs + [job]) == Breaks(jobs) + if job.id < 0 then 1 else 0
  {
    assert (jobs + [job])[..|jobs|] == jobs;
  }

  lemma {:induction false} ChangeWorker(workers: seq<Worker>, w: nat, to: Worker)
    requires w < |workers|
    ensures forall id: nat :: CountInHand(workers[w := to], id) + (if Has(workers[w], id) then 1 else 0)
                              == CountInHand(workers, id) + if Has(to, id) then 1 else 0
    ensures BreaksTaken(workers[w := to]) + (if TookBreak(workers[w]) then 1 else 0)
            == BreaksTaken(workers) + if TookBreak(to) then 1 else 0
    decreases |workers|
  {
    var n := |workers| - 1;
    if w == n {
      assert workers[w := to][..n] == workers[..n];
    } else {
      ChangeWorker(workers[..n], w, to);
      assert workers[w := to][..n] == workers[..n][w := to];
    }
  }

  lemma {:induction false} NoBreaks(jobs: seq<Job>)
    ensures Breaks(jobs) == 0 <==> forall k :: 0 <= k < |jobs| ==> jobs[k].id >= 0
  {
    if jobs == [] {
    } else {
      NoBreaks(jobs[..|jobs| - 1]);
    }
  }

  lemma {:induction false} OnlyBreaks(jobs: seq<Job>, id: nat)
    requires forall k :: 0 <= k < |jobs| ==> jobs[k].id < 0
    ensures Count(jobs, id) == 0
  {
    if jobs == [] {
    } else {
      OnlyBreaks(jobs[..|jobs| - 1], id);
    }
  }

  lemma UncountedIsEmpty(jobs: seq<Job>)
    requires forall k :: 0 <= k < |jobs| ==> jobs[k].id >= 0
    requires forall id: nat :: Count(jobs, id) == 0
    ensures jobs == []
  {
    assert jobs != [] ==> Count(jobs, jobs[|jobs| - 1].id) > 0;
  }

  lemma {:induction false} HandsEmpty(workers: seq<Worker>, id: nat)
    requires forall w :: 0 <= w < |workers| ==> workers[w].Waiting? || workers[w].Exited?
    ensures CountInHand(workers, id) == 0
  {
    if workers == [] {
    } else {
      HandsEmpty(workers[..|workers| - 1], id);
    }
  }

  lemma {:induction false} BreaksTakenBound(workers: seq<Worker>)
    ensures BreaksTaken(workers) <= |workers|
    ensures BreaksTaken(workers) == |workers| <==> forall w :: 0 <= w < |workers| ==> TookBreak(workers[w])
  {
    if workers == [] {
    } else {
      BreaksTakenBound(workers[..|workers| - 1]);
    }
  }

  /** Every test is among the jobs, exactly once. */
  ghost predicate EachOnce(jobs: seq<Job>, n: nat) {
    forall id: nat :: id < n ==> Count(jobs, id) == 1
  }

  function SumCounts(jobs: seq<Job>, n: nat): nat {
    if n == 0 then 0 else SumCounts(jobs, n - 1) + Count(jobs, n - 1)
  }

  lemma {:induction false} SumPush(jobs: seq<Job>, job: Job, n: nat)
    ensures SumCounts(jobs + [job], n) == SumCounts(jobs, n) + if 0 <= job.id < n then 1 else 0
  {
    if n > 0 {
      SumPush(jobs, job, n - 1);
      Push(jobs, job);
    }
  }

  lemma {:induction false} SumEmpty(n: nat)
    ensures SumCounts([], n) == 0
  {
    if n > 0 {
      SumEmpty(n - 1);
    }
  }

  lemma {:induction false} LengthIsSum(jobs: seq<Job>, n: nat)
    requires forall k :: 0 <= k < |jobs| ==> 0 <= jobs[k].id < n
    ensures |jobs| == SumCounts(jobs, n)
  {
    if jobs == [] {
      SumEmpty(n);
    } else {
      var m := |jobs| - 1;
      LengthIsSum(jobs[..m], n);
      SumPush(jobs[..m], jobs[m], n);
      assert jobs == jobs[..m] + [jobs[m]];
    }
  }

  lemma {:induction false} SumBounds(jobs: seq<Job>, n: nat)
    requires forall id: nat :: id < n ==> Count(jobs, id) <= 1
    ensures SumCounts(jobs, n) <= n
    ensures SumCounts(jobs, n) == n <==> EachOnce(jobs, n)
  {
    if n > 0 {
      SumBounds(jobs, n - 1);
      assert EachOnce(jobs, n) <==> EachOnce(jobs, n - 1) && Count(jobs, n - 1) == 1;
    }
  }

  /** The collected results are at most as many as the tests, and as many exactly when every test is among them. */
  lemma CollectedBound(c: Config, st: State)
    requires Inv(c, st)
    ensures |st.collected| <= |c.skip|
    ensures |st.collected| == |c.skip| <==> EachOnce(st.collected, |c.skip|)
  {
    forall id: nat
      ensures Count(st.collected, id) <= 1
    {
      assert Places(st, id) <= 1;
    }
    LengthIsSum(st.collected, |c.skip|);
    SumBounds(st.collected, |c.skip|);
  }

  // Every action keeps the invariant

  lemma DispatchKeepsInv(c: Config, st: State, st': State)
    requires Inv(c, st) && st.main.Dispatching? && Next(c, st, MainStep) == Some(st')
    ensures Inv(c, st')
  {
    if st.dispatched < |c.skip| {
      Push(st.input, Job(st.dispatched, false, c.skip[st.dispatched], 0));
      NoBreaks(st.input);
      forall id: nat
        ensures Places(st', id) == if id < st'.dispatched then 1 else 0
      {
        assert Places(st, id) == if id < st.dispatched then 1 else 0;
      }
    } else {
      assert forall id: nat :: Places(st', id) == Places(st, id);
    }
  }

  /** What the invariant says of the jobs does not depend on where main is. */
  lemma MainMoves(c: Config, st: State, main: Main)
    requires JobsSane(c, st) && TestsFirst(st) && NoneLost(st)
    ensures JobsSane(c, st.(main := main)) && TestsFirst(st.(main := main)) && NoneLost(st.(main := main))
  {
    assert forall id: nat :: Places(st.(main := main), id) == Places(st, id);
  }

  lemma BreakKeepsOrder(st: State, st': State, job: Job)
    requires TestsFirst(st) && job.id < 0 && st'.input == st.input + [job] && st'.workers == st.workers
    ensures TestsFirst(st')
  {
  }

  lemma BreakIsSane(c: Config, st: State, st': State, job: Job)
    requires JobsSane(c, st) && job.id < 0 && job.isBreak && st'.input == st.input + [job]
    requires st'.workers == st.workers && st'.output == st.output && st'.collected == st.collected
    requires st'.threadExit == st.threadExit
    ensures JobsSane(c, st')
  {
  }

  /** A break job joins the queue. */
  lemma BreakIsQueued(c: Config, st: State, main: Main)
    requires JobsSane(c, st) && TestsFirst(st) && NoneLost(st)
    ensures var st' := st.(input := st.input + [Job(-1, true, false, 0)], main := main);
            JobsSane(c, st') && TestsFirst(st') && NoneLost(st') && Breaks(st'.input) == Breaks(st.input) + 1
  {
    var st' := st.(input := st.input + [Job(-1, true, false, 0)], main := main);
    var job := Job(-1, true, false, 0);
    Push(st.input, job);
    BreakKeepsOrder(st, st', job);
    BreakIsSane(c, st, st', job);
    assert forall id: nat :: Places(st', id) == Places(st, id);
  }

  lemma BreakingKeepsInv(c: Config, st: State, st': State)
    requires Inv(c, st) && st.main.Breaking? && Next(c, st, MainStep) == Some(st')
    ensures Inv(c, st')
  {
    if st.main.sent < c.processors {
      BreakIsQueued(c, st, st'.main);
    } else {
      MainMoves(c, st, st'.main);
    }
  }

  /** A result moves from the output queue to main. */
  lemma ResultIsCollected(c: Config, st: State, tally: Tally)
    requires JobsSane(c, st) && TestsFirst(st) && NoneLost(st) && st.output != []
    ensures var st' := st.(output := st.output[1..], collected := st.collected + [st.output[0]], tally := tally);
            JobsSane(c, st') && TestsFirst(st') && NoneLost(st')
  {
    var st' := st.(output := st.output[1..], collected := st.collected + [st.output[0]], tally := tally);
    HeadTail(st.output);
    Push(st.collected, st.output[0]);
    assert forall id: nat :: Places(st', id) == Places(st, id);
  }

  lemma CollectingKeepsInv(c: Config, st: State, st': State)
    requires Inv(c, st) && st.main.Collecting? && Next(c, st, MainStep) == Some(st')
    ensures Inv(c, st')
  {
    if |st.collected| < st.dispatched {
      ResultIsCollected(c, st, st'.tally);
      assert st'.collected[..|st.collected|] == st.collected;
    } else {
      CollectedBound(c, st);
      MainMoves(c, st, Joining);
    }
  }

  lemma JoiningKeepsInv(c: Config, st: State, st': State)
    requires Inv(c, st) && st.main.Joining? && Next(c, st, MainStep) == Some(st')
    ensures Inv(c, st')
  {
    assert forall id: nat :: Places(st', id) == Places(st, id);
  }

  /** A job moves from the queue into a worker's hands. */
  lemma JobIsTaken(c: Config, st: State, w: nat)
    requires JobsSane(c, st) && NoneLost(st) && w < |st.workers| && st.workers[w].Waiting? && st.input != []
    ensures var st' := st.(input := st.input[1..], workers := st.workers[w := Holding(st.input[0])]);
            && JobsSane(c, st') && NoneLost(st')
            && Breaks(st'.input) + BreaksTaken(st'.workers) == Breaks(st.input) + BreaksTaken(st.workers)
            && (st.input[0].id >= 0 ==> BreaksTaken(st'.workers) == BreaksTaken(st.workers))
  {
    var st' := st.(input := st.input[1..], workers := st.workers[w := Holding(st.input[0])]);
    HeadTail(st.input);
    ChangeWorker(st.workers, w, Holding(st.input[0]));
    assert forall id: nat :: Places(st', id) == Places(st, id);
  }

  lemma GetKeepsInv(c: Config, st: State, w: nat, st': State)
    requires Inv(c, st) && Next(c, st, Get(w)) == Some(st')
    ensures Inv(c, st')
  {
    JobIsTaken(c, st, w);
  }

  lemma LookKeepsInv(c: Config, st: State, w: nat, st': State)
    requires Inv(c, st) && Next(c, st, Look(w)) == Some(st')
    ensures Inv(c, st')
  {
    var job := st.workers[w].job;
    if job.isBreak {
      ExitKeepsInv(c, st, w);
    } else if st.threadExit {
      ReturnKeepsInv(c, st, w, job.(isBreak := true));
    } else if job.isSkip {
      ReturnKeepsInv(c, st, w, job);
    } else {
      LaunchKeepsInv(c, st, w);
    }
  }

  lemma ExitKeepsInv(c: Config, st: State, w: nat)
    requires Inv(c, st) && w < |st.workers| && st.workers[w].Holding? && st.workers[w].job.isBreak
    ensures Inv(c, st.(workers := st.workers[w := Exited]))
  {
    var st' := st.(workers := st.workers[w := Exited]);
    ChangeWorker(st.workers, w, Exited);
    assert forall id: nat :: Places(st', id) == Places(st, id);
  }

  lemma LaunchKeepsInv(c: Config, st: State, w: nat)
    requires Inv(c, st) && w < |st.workers| && st.workers[w].Holding?
    requires !st.workers[w].job.isBreak && !st.workers[w].job.isSkip
    ensures Inv(c, st.(workers := st.workers[w := Running(st.workers[w].job)]))
  {
    var st' := st.(workers := st.workers[w := Running(st.workers[w].job)]);
    ChangeWorker(st.workers, w, Running(st.workers[w].job));
    assert forall id: nat :: Places(st', id) == Places(st, id);
  }

  /** Handing a test back, whether it was run, skipped or broken off. */
  lemma ReturnKeepsInv(c: Config, st: State, w: nat, job: Job)
    requires Inv(c, st) && w < |st.workers| && (st.workers[w].Holding? || st.workers[w].Running?)
    requires !st.workers[w].job.isBreak && job.id == st.workers[w].job.id && job.isSkip == st.workers[w].job.isSkip
    requires job.isBreak ==> st.threadExit
    ensures Inv(c, st.(output := st.output + [job], workers := st.workers[w := Waiting]))
  {
    var st' := st.(output := st.output + [job], workers := st.workers[w := Waiting]);
    ChangeWorker(st.workers, w, Waiting);
    Push(st.output, job);
    assert forall id: nat :: Places(st', id) == Places(st, id);
  }

  lemma InterruptKeepsInv(c: Config, st: State, st': State)
    requires Inv(c, st) && Next(c, st, Interrupt) == Some(st')
    ensures Inv(c, st')
  {
    assert forall id: nat :: Places(st', id) == Places(st, id);
  }

  lemma NextKeepsInv(c: Config, st: State, a: Action, st': State)
    requires Inv(c, st) && Next(c, st, a) == Some(st')
    ensures Inv(c, st')
  {
    match a
    case MainStep =>
      match st.main {
        case Dispatching => DispatchKeepsInv(c, st, st');
        case Breaking(_) => BreakingKeepsInv(c, st, st');
        case Collecting => CollectingKeepsInv(c, st, st');
        case Joining => JoiningKeepsInv(c, st, st');
      }
    case Get(w) => GetKeepsInv(c, st, w, st');
    case Look(w) => LookKeepsInv(c, st, w, st');
    case Finish(w, rc) => ReturnKeepsInv(c, st, w, st.workers[w].job.(returncode := rc));
    case Interrupt => InterruptKeepsInv(c, st, st');
  }

  lemma InitHasInv(c: Config)
    ensures Inv(c, Init(c))
  {
    var st := Init(c);
    forall id: nat
      ensures Places(st, id) == 0
    {
      HandsEmpty(st.workers, id);
    }
    NoneTaken(st.workers);
  }

  lemma {:induction false} NoneTaken(workers: seq<Worker>)
    requires forall w :: 0 <= w < |workers| ==> workers[w].Waiting?
    ensures BreaksTaken(workers) == 0
  {
    if workers == [] {
    } else {
      NoneTaken(workers[..|workers| - 1]);
    }
  }

  lemma {:induction false} RunKeepsInv(c: Config, trace: seq<State>, actions: seq<Action>, k: nat)
    requires Run(c, trace, actions) && k < |trace|
    ensures Inv(c, trace[k])
    decreases k
  {
    if k == 0 {
      InitHasInv(c);
    } else {
      RunKeepsInv(c, trace, actions, k - 1);
      assert Next(c, trace[k - 1], actions[k - 1]) == Some(trace[k - 1 + 1]);
      NextKeepsInv(c, trace[k - 1], actions[k - 1], trace[k]);
    }
  }

  // No deadlock

  /** Unless main is done, some action other than an interrupt is possible. */
  lemma NoDeadlock(c: Config, st: State) returns (a: Action)
    requires Inv(c, st) && c.processors >= 1 && !st.main.Done?
    ensures !a.Interrupt? && Next(c, st, a).Some?
  {
    if w :| 0 <= w < |st.workers| && st.workers[w].Holding? {
      a := Look(w);
    } else if w :| 0 <= w < |st.workers| && st.workers[w].Running? {
      a := Finish(w, 0);
    } else if w :| 0 <= w < |st.workers| && st.workers[w].Waiting? && st.input != [] {
      a := Get(w);
    } else {
      a := MainStep;
      BreaksTakenBound(st.workers);
      if st.main.Collecting? && |st.collected| < st.dispatched && st.output == [] {
        QuietMeansCollected(c, st);
        assert false;
      } else if st.main.Joining? {
        NoBreaks(st.input);
        if st.input == [] {
          assert Breaks(st.input) == 0;
        }
      }
    }
  }

  /** When no test is in hand or in the output queue and nobody can take a job, all results are in. */
  lemma QuietMeansCollected(c: Config, st: State)
    requires Inv(c, st) && c.processors >= 1 && !st.main.Dispatching? && st.output == []
    requires forall w :: 0 <= w < |st.workers| ==> st.workers[w].Waiting? || st.workers[w].Exited?
    requires st.input != [] ==> forall w :: 0 <= w < |st.workers| ==> st.workers[w].Exited?
    ensures |st.collected| == |c.skip|
  {
    BreaksTakenBound(st.workers);
    forall id: nat | id < |c.skip|
      ensures Count(st.collected, id) == 1
    {
      HandsEmpty(st.workers, id);
      OnlyBreaks(st.input, id);
      assert Places(st, id) == 1;
    }
    CollectedBound(c, st);
  }

  // Termination

  function JobWork(job: Job): nat {
    if job.id < 0 then 3 else 5
  }

  function HandWork(w: Worker): nat {
    match w
    case Holding(job) => if job.id < 0 then 2 else 4
    case Running(_) => 3
    case _ => 0
  }

  function QueueWork(jobs: seq<Job>): nat {
    if jobs == [] then 0 else QueueWork(jobs[..|jobs| - 1]) + JobWork(jobs[|jobs| - 1])
  }

  function HandsWork(workers: seq<Worker>): nat {
    if workers == [] then 0 else HandsWork(workers[..|workers| - 1]) + HandWork(workers[|workers| - 1])
  }

  function MainWork(c: Config, st: State): int {
    match st.main
    case Dispatching => 6 * (|c.skip| - st.dispatched) + 4 * c.processors + 4
    case Breaking(sent) => 4 * (c.processors - sent) + 3
    case Collecting => 2
    case Joining => 1
    case Done(_) => 0
  }

  /** A bound on the actions still possible, interrupts apart. */
  function Work(c: Config, st: State): int {
    MainWork(c, st) + QueueWork(st.input) + HandsWork(st.workers) + 2 * |st.output|
  }

  lemma {:induction false} QueueWorkHead(jobs: seq<Job>)
    requires jobs != []
    ensures QueueWork(jobs) == QueueWork(jobs[1..]) + JobWork(jobs[0])
    decreases |jobs|
  {
    var n := |jobs| - 1;
    if n > 0 {
      QueueWorkHead(jobs[..n]);
      assert jobs[..n][1..] == jobs[1..][..n - 1];
    }
  }

  lemma {:induction false} HandsWorkChange(workers: seq<Worker>, w: nat, to: Worker)
    requires w < |workers|
    ensures HandsWork(workers[w := to]) == HandsWork(workers) - HandWork(workers[w]) + HandWork(to)
    decreases |workers|
  {
    var n := |workers| - 1;
    if w == n {
      assert workers[w := to][..n] == workers[..n];
    } else {
      HandsWorkChange(workers[..n], w, to);
      assert workers[w := to][..n] == workers[..n][w := to];
    }
  }

  lemma LookWorkDrops(c: Config, st: State, w: nat, st': State)
    requires Inv(c, st) && Next(c, st, Look(w)) == Some(st')
    ensures 0 <= Work(c, st') < Work(c, st)
  {
    HandsWorkChange(st.workers, w, st'.workers[w]);
  }

  lemma MainWorkDrops(c: Config, st: State, st': State)
    requires Inv(c, st) && MainNext(c, st) == Some(st')
    ensures 0 <= Work(c, st') < Work(c, st)
  {
    if st'.input != st.input {
      assert st'.input[..|st.input|] == st.input;
    }
  }

  /** Every action other than an interrupt leaves less work. */
  lemma WorkDrops(c: Config, st: State, a: Action, st': State)
    requires Inv(c, st) && Next(c, st, a) == Some(st')
    ensures Work(c, st') >= 0
    ensures if a.Interrupt? then Work(c, st') == Work(c, st) else Work(c, st') < Work(c, st)
  {
    match a
    case MainStep => MainWorkDrops(c, st, st');
    case Get(w) =>
      QueueWorkHead(st.input);
      HandsWorkChange(st.workers, w, st'.workers[w]);
    case Look(w) => LookWorkDrops(c, st, w, st');
    case Finish(w, rc) => HandsWorkChange(st.workers, w, st'.workers[w]);
    case Interrupt =>
  }

  /** How many of the actions are not interrupts. */
  function Proper(actions: seq<Action>): nat {
    if actions == [] then 0
    else Proper(actions[..|actions| - 1]) + if actions[|actions| - 1].Interrupt? then 0 else 1
  }

  lemma RunPrefix(c: Config, trace: seq<State>, actions: seq<Action>)
    requires Run(c, trace, actions) && |actions| > 0
    ensures Run(c, trace[..|actions|], actions[..|actions| - 1])
    ensures Next(c, trace[|actions| - 1], actions[|actions| - 1]) == Some(trace[|actions|])
  {
    var n := |actions| - 1;
    assert Next(c, trace[n], actions[n]) == Some(trace[n + 1]);
    forall k | 0 <= k < n
      ensures Next(c, trace[..n + 1][k], actions[..n][k]) == Some(trace[..n + 1][k + 1])
    {
      assert Next(c, trace[k], actions[k]) == Some(trace[k + 1]);
    }
  }

  /** No run has more than 6 actions a test and 4 a worker, and 4 more, however it is scheduled. */
  lemma {:induction false} RunsAreBounded(c: Config, trace: seq<State>, actions: seq<Action>)
    requires Run(c, trace, actions)
    ensures Proper(actions) + Work(c, trace[|actions|]) <= 6 * |c.skip| + 4 * c.processors + 4
    ensures Proper(actions) <= 6 * |c.skip| + 4 * c.processors + 4
    decreases |actions|
  {
    if actions == [] {
      IdleWork(Init(c).workers);
    } else {
      var n := |actions| - 1;
      RunPrefix(c, trace, actions);
      RunsAreBounded(c, trace[..n + 1], actions[..n]);
      RunKeepsInv(c, trace, actions, n);
      WorkDrops(c, trace[n], actions[n], trace[n + 1]);
    }
  }

  lemma {:induction false} IdleWork(workers: seq<Worker>)
    requires forall w :: 0 <= w < |workers| ==> workers[w].Waiting?
    ensures HandsWork(workers) == 0
  {
    if workers == [] {
    } else {
      IdleWork(workers[..|workers| - 1]);
    }
  }

  // How runs end

  predicate Good(job: Job) {
    !job.isBreak && (job.isSkip || job.returncode == 0)
  }

  lemma {:induction false} TallyCounts(jobs: seq<Job>)
    ensures Total(TallyOf(jobs)) == |jobs|
    ensures TallyOf(jobs).passed + TallyOf(jobs).skipped == |jobs| <==> forall k :: 0 <= k < |jobs| ==> Good(jobs[k])
    decreases |jobs|
  {
    if jobs == [] {
    } else {
      TallyCounts(jobs[..|jobs| - 1]);
    }
  }

  /** All tests are delivered and both queues are empty once main is done. */
  lemma DoneIsDrained(c: Config, st: State)
    requires Inv(c, st) && st.main.Done?
    ensures st.input == [] && st.output == []
    ensures |st.collected| == |c.skip| && EachOnce(st.collected, |c.skip|)
  {
    CollectedBound(c, st);
    BreaksTakenBound(st.workers);
    NoBreaks(st.input);
    forall id: nat
      ensures Count(st.input, id) == 0 && Count(st.output, id) == 0
    {
      assert Places(st, id) == if id < st.dispatched then 1 else 0;
    }
    UncountedIsEmpty(st.input);
    UncountedIsEmpty(st.output);
  }

  /** The counters of a finished run add up, and its result tells whether all tests passed or were skipped. */
  lemma DoneIsCounted(c: Config, st: State)
    requires Inv(c, st) && st.main.Done?
    ensures Total(st.tally) == |c.skip|
    ensures st.main.result == 0 <==> forall k :: 0 <= k < |st.collected| ==> Good(st.collected[k])
    ensures !st.threadExit ==> st.tally.interrupted == 0
  {
    TallyCounts(st.collected);
    if !st.threadExit {
      NoneInterrupted(st.collected);
    }
  }

  // How tests end

  /** How a test can end; the exit status decides between the first four. */
  datatype Kind = Passed | Failed | Valgrind | Crashed | Skipped | BrokenOff

  /** Some action before action k is an interrupt. */
  predicate InterruptedBefore(actions: seq<Action>, k: nat) {
    exists m :: 0 <= m < k && m < |actions| && actions[m].Interrupt?
  }

  predicate LooksAt(st: State, w: nat, id: nat) {
    w < |st.workers| && st.workers[w].Holding? && st.workers[w].job.id == id
  }

  predicate Runs(st: State, w: nat, id: nat) {
    w < |st.workers| && st.workers[w].Running? && st.workers[w].job.id == id
  }

  /** Action k ends the test: a worker looks at it after an interrupt, or without one and it is to be skipped; or its
      process ends, with some status. */
  ghost predicate EndsAt(c: Config, trace: seq<State>, actions: seq<Action>, k: nat, id: nat, kind: Kind)
    requires |trace| == |actions| + 1
  {
    && k < |actions| && id < |c.skip|
    && match actions[k]
       case Look(w) =>
         && LooksAt(trace[k], w, id)
         && (if InterruptedBefore(actions, k) then kind == BrokenOff else c.skip[id] && kind == Skipped)
       case Finish(w, rc) =>
         && Runs(trace[k], w, id)
         && (rc == 0 ==> kind == Passed) && (rc == 1 ==> kind == Failed) && (rc == 2 ==> kind == Valgrind)
         && (rc != 0 && rc != 1 && rc != 2 ==> kind == Crashed)
       case _ => false
  }

  ghost predicate Ends(c: Config, trace: seq<State>, actions: seq<Action>, id: nat, kind: Kind)
    requires |trace| == |actions| + 1
  {
    exists k :: EndsAt(c, trace, actions, k, id, kind)
  }

  /** The tests that end in one way. */
  ghost function Ending(c: Config, trace: seq<State>, actions: seq<Action>, kind: Kind): set<nat>
    requires |trace| == |actions| + 1
  {
    set id: nat | id < |c.skip| && Ends(c, trace, actions, id, kind)
  }

  /** What the fields of a returned test say of its end. */
  function KindOf(job: Job): Kind {
    if job.isBreak then BrokenOff
    else if job.isSkip then Skipped
    else if job.returncode == 0 then Passed
    else if job.returncode == 1 then Failed
    else if job.returncode == 2 then Valgrind
    else Crashed
  }

  /** The test has been handed back. */
  predicate Back(st: State, job: Job) {
    job in st.output || job in st.collected
  }

  /** The test that an action hands back. */
  function HandsBack(st: State, a: Action): Option<Job> {
    match a
    case Look(w) =>
      if w < |st.workers| && st.workers[w].Holding? && !st.workers[w].job.isBreak then
        if st.threadExit then Some(st.workers[w].job.(isBreak := true))
        else if st.workers[w].job.isSkip then Some(st.workers[w].job)
        else None
      else None
    case Finish(w, rc) =>
      if w < |st.workers| && st.workers[w].Running? then Some(st.workers[w].job.(returncode := rc)) else None
    case _ => None
  }

  lemma BackGrows(c: Config, st: State, a: Action, st': State, job: Job)
    requires Next(c, st, a) == Some(st')
    ensures Back(st', job) <==> Back(st, job) || HandsBack(st, a) == Some(job)
  {
    if a.MainStep? && st.main.Collecting? && st.output != [] {
      assert st.output == [st.output[0]] + st.output[1..];
    }
  }

  /** The flag is set exactly by the interrupts. */
  lemma {:induction false} FlagTells(c: Config, trace: seq<State>, actions: seq<Action>, n: nat)
    requires Run(c, trace, actions) && n < |trace|
    ensures trace[n].threadExit <==> InterruptedBefore(actions, n)
    decreases n
  {
    if n > 0 {
      FlagTells(c, trace, actions, n - 1);
      assert Next(c, trace[n - 1], actions[n - 1]) == Some(trace[n - 1 + 1]);
      if trace[n - 1].threadExit {
        var m :| 0 <= m < n - 1 && m < |actions| && actions[m].Interrupt?;
      }
    }
  }

  /** What is handed back says how the test ended, and an action that ends a test hands it back. */
  lemma HandsBackTells(c: Config, trace: seq<State>, actions: seq<Action>, k: nat)
    requires Run(c, trace, actions) && k < |actions|
    ensures match HandsBack(trace[k], actions[k])
            case Some(job) => job.id >= 0 && EndsAt(c, trace, actions, k, job.id, KindOf(job))
            case None => forall id: nat, kind :: !EndsAt(c, trace, actions, k, id, kind)
    ensures forall id: nat, kind :: EndsAt(c, trace, actions, k, id, kind) ==>
              HandsBack(trace[k], actions[k]).Some?
              && HandsBack(trace[k], actions[k]).value.id == id && KindOf(HandsBack(trace[k], actions[k]).value) == kind
  {
    RunKeepsInv(c, trace, actions, k);
    FlagTells(c, trace, actions, k);
  }

  /** Every test that is back says how it ended. */
  lemma {:induction false} BackTells(c: Config, trace: seq<State>, actions: seq<Action>, n: nat, job: Job)
    returns (k: nat)
    requires Run(c, trace, actions) && n < |trace| && Back(trace[n], job)
    ensures k < n && job.id >= 0 && EndsAt(c, trace, actions, k, job.id, KindOf(job))
    decreases n
  {
    assert n > 0;
    assert Next(c, trace[n - 1], actions[n - 1]) == Some(trace[n - 1 + 1]);
    BackGrows(c, trace[n - 1], actions[n - 1], trace[n], job);
    if Back(trace[n - 1], job) {
      k := BackTells(c, trace, actions, n - 1, job);
    } else {
      k := n - 1;
      HandsBackTells(c, trace, actions, k);
    }
  }

  /** A test that has ended is back, and says how. */
  lemma {:induction false} EndedIsBack(c: Config, trace: seq<State>, actions: seq<Action>, k: nat, n: nat, id: nat,
                                       kind: Kind)
    returns (job: Job)
    requires Run(c, trace, actions) && k < n < |trace| && EndsAt(c, trace, actions, k, id, kind)
    ensures Back(trace[n], job) && job.id == id && KindOf(job) == kind
    decreases n
  {
    assert Next(c, trace[n - 1], actions[n - 1]) == Some(trace[n - 1 + 1]);
    if k == n - 1 {
      HandsBackTells(c, trace, actions, k);
      job := HandsBack(trace[k], actions[k]).value;
    } else {
      job := EndedIsBack(c, trace, actions, k, n - 1, id, kind);
    }
    BackGrows(c, trace[n - 1], actions[n - 1], trace[n], job);
  }

  lemma {:induction false} MemberCounts(jobs: seq<Job>, i: nat, id: nat)
    requires i < |jobs| && jobs[i].id == id
    ensures Count(jobs, id) > 0
    decreases |jobs|
  {
    if i < |jobs| - 1 {
      MemberCounts(jobs[..|jobs| - 1], i, id);
    }
  }

  lemma {:induction false} HandCounts(workers: seq<Worker>, w: nat, id: nat)
    requires w < |workers| && Has(workers[w], id)
    ensures CountInHand(workers, id) > 0
    decreases |workers|
  {
    if w < |workers| - 1 {
      HandCounts(workers[..|workers| - 1], w, id);
    }
  }

  lemma {:induction false} CountedOnce(jobs: seq<Job>, i: nat, j: nat, id: nat)
    requires i < j < |jobs| && jobs[i].id == id && jobs[j].id == id
    ensures Count(jobs, id) > 1
    decreases |jobs|
  {
    var n := |jobs| - 1;
    if j < n {
      CountedOnce(jobs[..n], i, j, id);
    } else {
      MemberCounts(jobs[..n], i, id);
    }
  }

  /** A test ends once: in particular its process ends once, and no process ends of a test that was skipped. */
  lemma EndsOnce(c: Config, trace: seq<State>, actions: seq<Action>, k: nat, l: nat, id: nat, kind: Kind, other: Kind)
    requires Run(c, trace, actions)
    requires EndsAt(c, trace, actions, k, id, kind) && EndsAt(c, trace, actions, l, id, other)
    ensures k == l && kind == other
  {
    if k < l {
      EndsNoMore(c, trace, actions, k, l, id, kind, other);
    } else if l < k {
      EndsNoMore(c, trace, actions, l, k, id, other, kind);
    }
  }

  lemma EndsNoMore(c: Config, trace: seq<State>, actions: seq<Action>, k: nat, l: nat, id: nat, kind: Kind, other: Kind)
    requires Run(c, trace, actions) && k < l < |trace| && EndsAt(c, trace, actions, k, id, kind)
    ensures !EndsAt(c, trace, actions, l, id, other)
  {
    RunKeepsInv(c, trace, actions, l);
    assert Places(trace[l], id) <= 1;
    BackCounts(c, trace, actions, k, l, id, kind);
    if EndsAt(c, trace, actions, l, id, other) {
      HandCounts(trace[l].workers, match actions[l] case Look(w) => w case Finish(w, _) => w, id);
      assert false;
    }
  }

  lemma BackCounts(c: Config, trace: seq<State>, actions: seq<Action>, k: nat, n: nat, id: nat, kind: Kind)
    requires Run(c, trace, actions) && k < n < |trace| && EndsAt(c, trace, actions, k, id, kind)
    ensures Count(trace[n].output, id) + Count(trace[n].collected, id) > 0
  {
    var st := trace[n];
    var job := EndedIsBack(c, trace, actions, k, n, id, kind);
    if job in st.output {
      var i :| 0 <= i < |st.output| && st.output[i] == job;
      MemberCounts(st.output, i, id);
    } else {
      var i :| 0 <= i < |st.collected| && st.collected[i] == job;
      MemberCounts(st.collected, i, id);
    }
  }

  // Counting tests by how they end

  function Counter(t: Tally, kind: Kind): nat {
    match kind
    case Passed => t.passed
    case Failed => t.failed
    case Valgrind => t.valgrind
    case Crashed => t.crashed
    case Skipped => t.skipped
    case BrokenOff => t.interrupted
  }

  function IdsOf(jobs: seq<Job>, kind: Kind): set<nat>
    requires forall k :: 0 <= k < |jobs| ==> jobs[k].id >= 0
  {
    if jobs == [] then {}
    else
      var n := |jobs| - 1;
      var id: nat := jobs[n].id;
      IdsOf(jobs[..n], kind) + if KindOf(jobs[n]) == kind then {id} else {}
  }

  lemma {:induction false} IdsOfMember(jobs: seq<Job>, kind: Kind, id: nat)
    requires forall k :: 0 <= k < |jobs| ==> jobs[k].id >= 0
    ensures id in IdsOf(jobs, kind) <==> exists k :: 0 <= k < |jobs| && jobs[k].id == id && KindOf(jobs[k]) == kind
    decreases |jobs|
  {
    if jobs != [] {
      var n := |jobs| - 1;
      IdsOfMember(jobs[..n], kind, id);
      if k :| 0 <= k < |jobs| && jobs[k].id == id && KindOf(jobs[k]) == kind {
        assert k < n ==> jobs[..n][k] == jobs[k];
      }
    }
  }

  lemma ScoreCounts(t: Tally, job: Job, kind: Kind)
    ensures Counter(Score(t, job), kind) == Counter(t, kind) + if KindOf(job) == kind then 1 else 0
  {
  }

  lemma {:induction false} TallyCountsIds(jobs: seq<Job>, kind: Kind)
    requires forall k :: 0 <= k < |jobs| ==> jobs[k].id >= 0
    requires forall i, j :: 0 <= i < j < |jobs| ==> jobs[i].id != jobs[j].id
    ensures Counter(TallyOf(jobs), kind) == |IdsOf(jobs, kind)|
    decreases |jobs|
  {
    if jobs != [] {
      var n := |jobs| - 1;
      TallyCountsIds(jobs[..n], kind);
      ScoreCounts(TallyOf(jobs[..n]), jobs[n], kind);
      IdsOfMember(jobs[..n], kind, jobs[n].id);
    }
  }

  lemma AllDifferent(jobs: seq<Job>, n: nat)
    requires EachOnce(jobs, n) && forall k :: 0 <= k < |jobs| ==> 0 <= jobs[k].id < n
    ensures forall i, j :: 0 <= i < j < |jobs| ==> jobs[i].id != jobs[j].id
  {
    forall i, j | 0 <= i < j < |jobs|
      ensures jobs[i].id != jobs[j].id
    {
      if jobs[i].id == jobs[j].id {
        CountedOnce(jobs, i, j, jobs[i].id);
      }
    }
  }

  lemma {:induction false} CountedIsMember(jobs: seq<Job>, id: nat) returns (k: nat)
    requires Count(jobs, id) > 0
    ensures k < |jobs| && jobs[k].id == id
    decreases |jobs|
  {
    var n := |jobs| - 1;
    if jobs[n].id == id {
      k := n;
    } else {
      k := CountedIsMember(jobs[..n], id);
    }
  }

  /** When main is done, the collected tests of a kind are those that ended so. */
  lemma CollectedEnded(c: Config, trace: seq<State>, actions: seq<Action>, kind: Kind)
    requires Run(c, trace, actions) && trace[|actions|].main.Done?
    ensures forall k :: 0 <= k < |trace[|actions|].collected| ==> trace[|actions|].collected[k].id >= 0
    ensures IdsOf(trace[|actions|].collected, kind) == Ending(c, trace, actions, kind)
  {
    var st, n := trace[|actions|], |actions|;
    RunKeepsInv(c, trace, actions, n);
    DoneIsDrained(c, st);
    forall id: nat
      ensures id in IdsOf(st.collected, kind) <==> id in Ending(c, trace, actions, kind)
    {
      IdsOfMember(st.collected, kind, id);
      if k :| 0 <= k < |st.collected| && st.collected[k].id == id && KindOf(st.collected[k]) == kind {
        assert Back(st, st.collected[k]);
        var at := BackTells(c, trace, actions, n, st.collected[k]);
      }
      if id in Ending(c, trace, actions, kind) {
        var k :| EndsAt(c, trace, actions, k, id, kind);
        var job := EndedIsBack(c, trace, actions, k, n, id, kind);
        var i :| 0 <= i < |st.collected| && st.collected[i] == job;
      }
    }
  }

  /** When main is done, each counter is the number of tests that ended in its way. */
  lemma CounterTells(c: Config, trace: seq<State>, actions: seq<Action>, kind: Kind)
    requires Run(c, trace, actions) && trace[|actions|].main.Done?
    ensures Counter(trace[|actions|].tally, kind) == |Ending(c, trace, actions, kind)|
  {
    var st := trace[|actions|];
    RunKeepsInv(c, trace, actions, |actions|);
    DoneIsDrained(c, st);
    AllDifferent(st.collected, |c.skip|);
    CollectedEnded(c, trace, actions, kind);
    TallyCountsIds(st.collected, kind);
  }

  /** When main is done, every test has ended, in one way. */
  lemma AllEnd(c: Config, trace: seq<State>, actions: seq<Action>, id: nat) returns (kind: Kind)
    requires Run(c, trace, actions) && trace[|actions|].main.Done? && id < |c.skip|
    ensures Ends(c, trace, actions, id, kind)
    ensures forall other :: Ends(c, trace, actions, id, other) ==> other == kind
    ensures trace[|actions|].main.result == 0 ==> kind == Passed || kind == Skipped
  {
    var st, n := trace[|actions|], |actions|;
    RunKeepsInv(c, trace, actions, n);
    DoneIsDrained(c, st);
    DoneIsCounted(c, st);
    var i := CountedIsMember(st.collected, id);
    kind := KindOf(st.collected[i]);
    assert Back(st, st.collected[i]);
    var k := BackTells(c, trace, actions, n, st.collected[i]);
    forall other | Ends(c, trace, actions, id, other)
      ensures other == kind
    {
      var l :| EndsAt(c, trace, actions, l, id, other);
      EndsOnce(c, trace, actions, k, l, id, kind, other);
    }
    if st.main.result == 0 {
      assert Good(st.collected[i]);
    }
  }

  /** What the result and the counters of a finished run say of what happened: the result is 0 exactly when every test
      was skipped or its process ended with status 0, and each counter is the number of tests that ended so. */
  ghost predicate Reported(c: Config, trace: seq<State>, actions: seq<Action>)
    requires |trace| == |actions| + 1
  {
    var st := trace[|actions|];
    && st.main.Done?
    && (st.main.result == 0 <==> forall id: nat :: id < |c.skip| ==>
          Ends(c, trace, actions, id, Passed) || Ends(c, trace, actions, id, Skipped))
    && st.tally.passed == |Ending(c, trace, actions, Passed)|
    && st.tally.failed == |Ending(c, trace, actions, Failed)|
    && st.tally.valgrind == |Ending(c, trace, actions, Valgrind)|
    && st.tally.crashed == |Ending(c, trace, actions, Crashed)|
    && st.tally.skipped == |Ending(c, trace, actions, Skipped)|
    && st.tally.interrupted == |Ending(c, trace, actions, BrokenOff)|
  }

  lemma DoneIsReported(c: Config, trace: seq<State>, actions: seq<Action>)
    requires Run(c, trace, actions) && trace[|actions|].main.Done?
    ensures Reported(c, trace, actions)
  {
    CounterTells(c, trace, actions, Passed);
    CounterTells(c, trace, actions, Failed);
    CounterTells(c, trace, actions, Valgrind);
    CounterTells(c, trace, actions, Crashed);
    CounterTells(c, trace, actions, Skipped);
    CounterTells(c, trace, actions, BrokenOff);
    ResultTells(c, trace, actions);
  }

  lemma ResultTells(c: Config, trace: seq<State>, actions: seq<Action>)
    requires Run(c, trace, actions) && trace[|actions|].main.Done?
    ensures trace[|actions|].main.result == 0 <==> forall id: nat :: id < |c.skip| ==>
              Ends(c, trace, actions, id, Passed) || Ends(c, trace, actions, id, Skipped)
  {
    var st, n := trace[|actions|], |actions|;
    RunKeepsInv(c, trace, actions, n);
    DoneIsDrained(c, st);
    DoneIsCounted(c, st);
    if st.main.result == 0 {
      forall id: nat | id < |c.skip|
        ensures Ends(c, trace, actions, id, Passed) || Ends(c, trace, actions, id, Skipped)
      {
        var kind := AllEnd(c, trace, actions, id);
      }
    } else {
      var k :| 0 <= k < |st.collected| && !Good(st.collected[k]);
      assert Back(st, st.collected[k]);
      var at := BackTells(c, trace, actions, n, st.collected[k]);
      var id: nat := st.collected[k].id;
      var kind := AllEnd(c, trace, actions, id);
      assert Ends(c, trace, actions, id, KindOf(st.collected[k]));
      assert !Ends(c, trace, actions, id, Passed) && !Ends(c, trace, actions, id, Skipped);
    }
  }

  /** How many break jobs worker w has taken in a run. */
  function BreaksGot(trace: seq<State>, actions: seq<Action>, w: nat): nat
    requires |trace| == |actions| + 1
    decreases |actions|
  {
    if actions == [] then 0
    else
      var n := |actions| - 1;
      BreaksGot(trace[..n + 1], actions[..n], w)
      + if actions[n] == Get(w) && trace[n].input != [] && trace[n].input[0].id < 0 then 1 else 0
  }

  /** A worker takes no second break job: it has taken one exactly if it is on its way out or gone. */
  lemma {:induction false} OneBreakEach(c: Config, trace: seq<State>, actions: seq<Action>, w: nat)
    requires Run(c, trace, actions) && w < c.processors
    ensures w < |trace[|actions|].workers|
    ensures BreaksGot(trace, actions, w) == if TookBreak(trace[|actions|].workers[w]) then 1 else 0
    decreases |actions|
  {
    if actions != [] {
      var n := |actions| - 1;
      RunPrefix(c, trace, actions);
      OneBreakEach(c, trace[..n + 1], actions[..n], w);
      RunKeepsInv(c, trace, actions, n);
      NextTakesBreak(c, trace[n], actions[n], trace[n + 1], w);
    }
  }

  lemma NextTakesBreak(c: Config, st: State, a: Action, st': State, w: nat)
    requires Inv(c, st) && Next(c, st, a) == Some(st') && w < |st.workers|
    ensures w < |st'.workers|
    ensures TookBreak(st'.workers[w]) <==> TookBreak(st.workers[w]) || (a == Get(w) && st.input[0].id < 0)
    ensures a == Get(w) ==> st.input != [] && !TookBreak(st.workers[w])
  {
  }

  /** A run that cannot go on has ended well: every worker is gone and took one break job, both queues are empty,
      every test was delivered once and counted once, and the result is 0 exactly when all passed or were skipped. */
  lemma MaximalRunsFinish(c: Config, trace: seq<State>, actions: seq<Action>)
    requires Run(c, trace, actions) && c.processors >= 1
    requires forall a: Action :: !a.Interrupt? ==> Next(c, trace[|actions|], a).None?
    ensures var st := trace[|actions|];
            && st.main.Done? && |st.workers| == c.processors
            && (forall w :: 0 <= w < |st.workers| ==> st.workers[w].Exited?)
            && st.input == [] && st.output == []
            && |st.collected| == |c.skip| && EachOnce(st.collected, |c.skip|)
            && Total(st.tally) == |c.skip|
            && (st.main.result == 0 <==> forall k :: 0 <= k < |st.collected| ==> Good(st.collected[k]))
            && (!st.threadExit ==> st.tally.interrupted == 0)
    ensures forall w: nat :: w < c.processors ==> BreaksGot(trace, actions, w) == 1
    ensures Reported(c, trace, actions)
  {
    var st := trace[|actions|];
    RunKeepsInv(c, trace, actions, |actions|);
    if !st.main.Done? {
      var a := NoDeadlock(c, st);
      assert false;
    }
    DoneIsDrained(c, st);
    DoneIsCounted(c, st);
    forall w: nat | w < c.processors
      ensures BreaksGot(trace, actions, w) == 1
    {
      OneBreakEach(c, trace, actions, w);
    }
    DoneIsReported(c, trace, actions);
  }

  lemma {:induction false} NoneInterrupted(jobs: seq<Job>)
    requires forall k :: 0 <= k < |jobs| ==> !jobs[k].isBreak
    ensures TallyOf(jobs).interrupted == 0
  {
    if jobs == [] {
    } else {
      NoneInterrupted(jobs[..|jobs| - 1]);
    }
  }
}
