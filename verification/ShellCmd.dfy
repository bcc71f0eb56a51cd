/** The shell pipelines of waf-tools/shellcmd.py: parsing a token list, and running the result. */
module ShellCmd {
  import opened Seqs
  import opened Wrappers

  /** Where a stream goes: nowhere special, into the next command, after stdout, or to a file. */
  datatype Stream = Inherit | PipeOut | ToStdout | File(name: string)

  datatype Command = Command(argv: seq<string>, stdin: Option<string>, stdout: Stream, stderr: Stream,
                             env: map<string, string>)

  datatype Node = Cmd(cmd: Command) | Chdir(dir: Option<string>) | Pipe | And | Or

  predicate IsOp(n: Node) {
    n.Pipe? || n.And? || n.Or?
  }

  // Parsing

  datatype Mode = Begin | InCommand | InChdir | Stderr | Stdout | Stdin

  /** The parser's variables; the current command is a command or a directory change. */
  datatype Parser = Parser(mode: Mode, current: Option<Node>, env: map<string, string>, pipeline: seq<Node>)

  datatype Result<T> = Ok(value: T) | AssertionError

  predicate IsWord(c: char) {
    'a' <= c <= 'z' || 'A' <= c <= 'Z' || '0' <= c <= '9' || c == '_'
  }

  predicate IsSpace(c: char) {
    c == ' ' || '\t' <= c <= '\r'
  }

  predicate NoSpace(s: string) {
    forall i :: 0 <= i < |s| ==> !IsSpace(s[i])
  }

  function WordLength(s: string): (n: nat)
    ensures n <= |s|
  {
    if s != "" && IsWord(s[0]) then 1 + WordLength(s[1..]) else 0
  }

  /** A setting NAME=value, with a non-empty name of word characters and a non-empty value without white space;
      the end of the pattern also matches in front of one last newline. */
  function EnvSetting(token: string): Option<(string, string)> {
    var n := WordLength(token);
    if n == 0 || n == |token| || token[n] != '=' then None
    else
      var rest := token[n + 1..];
      var value := if rest != "" && rest[|rest| - 1] == '\n' then rest[..|rest| - 1] else rest;
      if value != "" && NoSpace(value) then Some((token[..n], value)) else None
  }

  /** What the parser holds in each mode. */
  predicate Sane(p: Parser) {
    match p.mode
    case Begin => p.current.None?
    case InChdir => p.current.Some? && p.current.value.Chdir? && p.env == map[]
    case _ => p.current.Some? && p.current.value.Cmd? && p.env == map[]
  }

  function Commit(p: Parser, op: Node): Parser
    requires p.current.Some?
  {
    Parser(Begin, None, p.env, p.pipeline + [p.current.value] + [op])
  }

  function WithCommand(p: Parser, mode: Mode, c: Command): Parser {
    p.(mode := mode, current := Some(Cmd(c)))
  }

  /** What one token does. */
  function Feed(p: Parser, token: string): (r: Result<Parser>)
    requires Sane(p)
    ensures r.Ok? ==> Sane(r.value)
  {
    match p.mode
    case Begin =>
      var setting := EnvSetting(token);
      if setting.Some? then Ok(p.(env := p.env[setting.value.0 := setting.value.1]))
      else if token == "cd" then
        if p.env != map[] then AssertionError else Ok(p.(mode := InChdir, current := Some(Chdir(None))))
      else Ok(Parser(InCommand, Some(Cmd(Command([token], None, Inherit, Inherit, p.env))), map[], p.pipeline))
    case InCommand =>
      var c := p.current.value.cmd;
      if token == ">" then Ok(p.(mode := Stdout))
      else if token == "2>" then Ok(p.(mode := Stderr))
      else if token == "2>&1" then
        if c.stderr != Inherit then AssertionError else Ok(WithCommand(p, InCommand, c.(stderr := ToStdout)))
      else if token == "<" then Ok(p.(mode := Stdin))
      else if token == "|" then
        if c.stdout != Inherit then AssertionError
        else Ok(Commit(WithCommand(p, InCommand, c.(stdout := PipeOut)), Pipe))
      else if token == "&&" then Ok(Commit(p, And))
      else if token == "||" then Ok(Commit(p, Or))
      else Ok(WithCommand(p, InCommand, c.(argv := c.argv + [token])))
    case InChdir =>
      if token == "&&" then Ok(Commit(p, And))
      else if p.current.value.dir.Some? then AssertionError
      else Ok(p.(current := Some(Chdir(Some(token)))))
    case Stdout =>
      var c := p.current.value.cmd;
      if c.stdout != Inherit then AssertionError else Ok(WithCommand(p, InCommand, c.(stdout := File(token))))
    case Stderr =>
      var c := p.current.value.cmd;
      if c.stderr != Inherit then AssertionError else Ok(WithCommand(p, InCommand, c.(stderr := File(token))))
    case Stdin =>
      var c := p.current.value.cmd;
      if c.stdin.Some? then AssertionError else Ok(WithCommand(p, InCommand, c.(stdin := Some(token))))
  }

  function FeedAll(p: Parser, tokens: seq<string>): (r: Result<Parser>)
    requires Sane(p)
    ensures r.Ok? ==> Sane(r.value)
    decreases |tokens|
  {
    if tokens == [] then Ok(p)
    else
      match Feed(p, tokens[0])
      case AssertionError => AssertionError
      case Ok(next) => FeedAll(next, tokens[1..])
  }

  const START := Parser(Begin, None, map[], [])

  /** The last command is committed at the end, so there must be one. */
  function ParsedList(p: Parser): Result<seq<Node>> {
    if p.current.None? then AssertionError else Ok(p.pipeline + [p.current.value])
  }

  function Parsed(tokens: seq<string>): Result<seq<Node>> {
    match FeedAll(START, tokens)
    case AssertionError => AssertionError
    case Ok(p) => ParsedList(p)
  }

  // What parsing yields

  /** Commands and directory changes at even places, operators between them. */
  ghost predicate Alternates(nodes: seq<Node>) {
    forall i :: 0 <= i < |nodes| ==> (IsOp(nodes[i]) <==> i % 2 == 1)
  }

  /** A command writes into a pipe exactly when a pipe follows it. */
  ghost predicate PipesMatch(nodes: seq<Node>) {
    forall i, j :: 0 <= i && j == i + 1 && j < |nodes| && nodes[i].Cmd? ==>
          (nodes[i].cmd.stdout == PipeOut <==> nodes[j].Pipe?)
  }

  /** A directory change is followed by && or ends the list. */
  ghost predicate ChdirsMatch(nodes: seq<Node>) {
    forall i, j :: 0 <= i && j == i + 1 && j < |nodes| && nodes[i].Chdir? ==> nodes[j].And?
  }

  ghost predicate WellParsed(nodes: seq<Node>) {
    Alternates(nodes) && PipesMatch(nodes) && ChdirsMatch(nodes)
  }

  ghost predicate ParserInv(p: Parser) {
    && Sane(p) && |p.pipeline| % 2 == 0 && WellParsed(p.pipeline)
    && (p.current.Some? && p.current.value.Cmd? ==>
          p.current.value.cmd.stdout != PipeOut && p.current.value.cmd.argv != [])
  }

  /** A committed operand and its operator extend a well parsed list. */
  lemma CommitKeepsWell(nodes: seq<Node>, operand: Node, op: Node)
    requires |nodes| % 2 == 0 && WellParsed(nodes) && !IsOp(operand) && IsOp(op)
    requires operand.Cmd? ==> (operand.cmd.stdout == PipeOut <==> op.Pipe?)
    requires operand.Chdir? ==> op.And?
    ensures WellParsed(nodes + [operand] + [op])
  {
  }

  lemma FeedKeepsInv(p: Parser, token: string)
    requires ParserInv(p) && Feed(p, token).Ok?
    ensures ParserInv(Feed(p, token).value)
  {
    if p.mode.InCommand? && token == "|" {
      CommitKeepsWell(p.pipeline, Cmd(p.current.value.cmd.(stdout := PipeOut)), Pipe);
    } else if p.mode.InCommand? && token == "||" {
      CommitKeepsWell(p.pipeline, p.current.value, Or);
    } else if (p.mode.InCommand? || p.mode.InChdir?) && token == "&&" {
      CommitKeepsWell(p.pipeline, p.current.value, And);
    }
  }

  lemma {:induction false} FeedAllKeepsInv(p: Parser, tokens: seq<string>)
    requires ParserInv(p) && FeedAll(p, tokens).Ok?
    ensures ParserInv(FeedAll(p, tokens).value)
    decreases |tokens|
  {
    if tokens != [] {
      FeedKeepsInv(p, tokens[0]);
      FeedAllKeepsInv(Feed(p, tokens[0]).value, tokens[1..]);
    }
  }

  /** The list ends with a command that does not write into a pipe, or with a directory change. */
  ghost predicate LastStaysOpen(nodes: seq<Node>) {
    nodes != [] && !IsOp(nodes[|nodes| - 1])
    && (nodes[|nodes| - 1].Cmd? ==> nodes[|nodes| - 1].cmd.stdout != PipeOut)
  }

  /** Whenever parsing returns, commands and operators alternate, from a command to a command, and exactly the
      commands in front of a pipe write into one. */
  lemma ParsedIsWell(tokens: seq<string>)
    requires Parsed(tokens).Ok?
    ensures WellParsed(Parsed(tokens).value) && |Parsed(tokens).value| % 2 == 1
    ensures LastStaysOpen(Parsed(tokens).value)
  {
    FeedAllKeepsInv(START, tokens);
    var p := FeedAll(START, tokens).value;
    LastKeepsWell(p.pipeline, p.current.value);
  }

  lemma LastKeepsWell(nodes: seq<Node>, operand: Node)
    requires |nodes| % 2 == 0 && WellParsed(nodes) && !IsOp(operand)
    ensures WellParsed(nodes + [operand])
  {
  }

  // Running

  datatype Source = NoSource | FromFile(name: string) | FromPipe(process: nat)

  /** A process as it is started. */
  datatype Launch = Launch(argv: seq<string>, stdin: Source, stdout: Stream, stderr: Stream, env: map<string, string>,
                           cwd: string)

  datatype Outcome = Exit(code: int) | IndexError | TypeError | FailedAssertion | NoValue

  /** os.path.join for two parts. */
  function Join(cwd: string, dir: string): string {
    if dir != "" && dir[0] == '/' then dir
    else if cwd == "" || cwd[|cwd| - 1] == '/' then cwd + dir
    else cwd + "/" + dir
  }

  /** The exit status of a piped group: that of its last process if any process failed, and 0 otherwise. */
  function Wait(status: nat -> int, piped: seq<nat>): int {
    if exists i :: 0 <= i < |piped| && status(piped[i]) != 0 then status(piped[|piped| - 1]) else 0
  }

  function LaunchOf(c: Command, piped: seq<nat>, inPipe: bool, cwd: string): Launch
    requires inPipe ==> piped != []
  {
    Launch(c.argv,
           if inPipe then FromPipe(piped[|piped| - 1]) else if c.stdin.Some? then FromFile(c.stdin.value) else NoSource,
           c.stdout, c.stderr, c.env, cwd)
  }

  /** The running loop from some point on: what it returns, and the processes it has started. */
  function RunFrom(status: nat -> int, nodes: seq<Node>, piped: seq<nat>, inPipe: bool, cwd: string, log: seq<Launch>)
      : (Outcome, seq<Launch>)
    requires inPipe ==> piped != []
    decreases |nodes|
  {
    if nodes == [] then (NoValue, log)
    else
      match nodes[0]
      case Chdir(dir) =>
        if |nodes| < 2 then (IndexError, log)
        else if !nodes[1].And? then (FailedAssertion, log)
        else if dir.None? then (TypeError, log)
        else RunFrom(status, nodes[2..], piped, inPipe, Join(cwd, dir.value), log)
      case Cmd(c) =>
        var started := log + [LaunchOf(c, piped, inPipe, cwd)];
        var group := piped + [|log|];
        if |nodes| < 2 then (Exit(Wait(status, group)), started)
        else
          (match nodes[1]
           case Pipe => RunFrom(status, nodes[2..], group, true, cwd, started)
           case Or =>
             if Wait(status, group) == 0 then (Exit(0), started)
             else RunFrom(status, nodes[2..], [], false, cwd, started)
           case And =>
             if Wait(status, group) != 0 then (Exit(Wait(status, group)), started)
             else RunFrom(status, nodes[2..], [], false, cwd, started)
           case _ => RunFrom(status, nodes[2..], group, inPipe, cwd, started))
      case _ => (FailedAssertion, log)
  }

  // The meaning of a pipeline

  /** Number of commands in the piped group at the front. */
  function GroupSize(nodes: seq<Node>): (n: nat)
    ensures n > 0 ==> 2 * n - 1 <= |nodes|
    ensures forall i :: 0 <= i < n ==> nodes[2 * i].Cmd?
    decreases |nodes|
  {
    if nodes == [] || !nodes[0].Cmd? then 0
    else if |nodes| >= 2 && nodes[1].Pipe? then
      var rest := GroupSize(nodes[2..]);
      assert forall i :: 0 < i < rest + 1 ==> nodes[2 * i] == nodes[2..][2 * (i - 1)];
      1 + rest
    else 1
  }

  /** The processes of a group of n commands: all but the first read from the one before. */
  function GroupLaunches(nodes: seq<Node>, n: nat, cwd: string, base: nat): seq<Launch>
    requires n > 0 ==> 2 * n - 1 <= |nodes|
    requires forall i :: 0 <= i < n ==> nodes[2 * i].Cmd?
    ensures |GroupLaunches(nodes, n, cwd, base)| == n
  {
    if n == 0 then []
    else GroupLaunches(nodes, n - 1, cwd, base)
         + [LaunchOf(nodes[2 * (n - 1)].cmd, if n == 1 then [] else [base + n - 2], n > 1, cwd)]
  }

  /** Every directory change names a directory, is followed by && and does not follow a pipe, and pipes end in a
      command. */
  ghost predicate Evaluable(nodes: seq<Node>) {
    && |nodes| % 2 == 1 && Alternates(nodes) && ChdirsMatch(nodes)
    && !nodes[|nodes| - 1].Chdir?
    && (forall i :: 0 <= i < |nodes| && nodes[i].Chdir? ==> nodes[i].dir.Some?)
    && (forall i, j :: 0 <= i && j == i + 1 && j < |nodes| && nodes[j].Chdir? ==> !nodes[i].Pipe?)
  }

  lemma EvaluableSuffix(nodes: seq<Node>, k: nat)
    requires Evaluable(nodes) && k < |nodes| && k % 2 == 0
    ensures Evaluable(nodes[k..]) && !IsOp(nodes[k])
  {
    var rest := nodes[k..];
    assert forall i :: 0 <= i < |rest| ==> rest[i] == nodes[k + i];
    assert rest[|rest| - 1] == nodes[|nodes| - 1];
    assert Alternates(rest) by {
      forall i | 0 <= i < |rest|
        ensures IsOp(rest[i]) <==> i % 2 == 1
      {
        assert IsOp(nodes[k + i]) <==> (k + i) % 2 == 1;
      }
    }
  }

  /** A group ends at the end of the list or in front of && or ||. */
  lemma {:induction false} GroupEnds(nodes: seq<Node>)
    requires Evaluable(nodes) && !nodes[0].Chdir?
    ensures var n := GroupSize(nodes);
            n > 0 && (2 * n - 1 == |nodes| || (2 * n < |nodes| && (nodes[2 * n - 1].And? || nodes[2 * n - 1].Or?)))
    ensures forall i :: 0 <= i < GroupSize(nodes) - 1 ==> nodes[2 * i + 1].Pipe?
    decreases |nodes|
  {
    EvaluableSuffix(nodes, 0);
    if |nodes| >= 2 && nodes[1].Pipe? {
      EvaluableSuffix(nodes, 2);
      assert nodes[2..][0] == nodes[2];
      GroupEnds(nodes[2..]);
      var m := GroupSize(nodes[2..]);
      forall i | 0 <= i < m
        ensures nodes[2 * i + 1].Pipe?
      {
        if i > 0 {
          assert nodes[2..][2 * (i - 1) + 1] == nodes[2 * i + 1];
        }
      }
      assert 2 * m - 1 < |nodes[2..]| ==> nodes[2..][2 * m - 1] == nodes[2 * (m + 1) - 1];
    } else if |nodes| >= 2 {
      assert IsOp(nodes[1]) by { assert 1 % 2 == 1; }
    }
  }

  /** The same without what lies inside the group. */
  lemma GroupEnd(nodes: seq<Node>)
    requires Evaluable(nodes) && !nodes[0].Chdir?
    ensures var n := GroupSize(nodes);
            n > 0 && (2 * n - 1 == |nodes| || (2 * n < |nodes| && (nodes[2 * n - 1].And? || nodes[2 * n - 1].Or?)))
  {
    GroupEnds(nodes);
  }

  lemma RestEvaluable(nodes: seq<Node>, k: nat)
    requires Evaluable(nodes) && k % 2 == 0
    ensures k < |nodes| ==> Evaluable(nodes[k..])
  {
    if k < |nodes| {
      EvaluableSuffix(nodes, k);
    }
  }

  lemma ChdirRest(nodes: seq<Node>)
    requires Evaluable(nodes) && nodes[0].Chdir?
    ensures |nodes| >= 3 && nodes[1].And? && nodes[0].dir.Some? && Evaluable(nodes[2..])
  {
    assert |nodes| > 1;
    assert nodes[1].And?;
    EvaluableSuffix(nodes, 2);
  }

  /** Right-nested short-circuit evaluation: a group, and if need be what follows its && or ||. */
  ghost function Eval(status: nat -> int, nodes: seq<Node>, cwd: string, log: seq<Launch>): (int, seq<Launch>)
    requires Evaluable(nodes)
    decreases |nodes|
  {
    if nodes[0].Chdir? then
      ChdirRest(nodes);
      Eval(status, nodes[2..], Join(cwd, nodes[0].dir.value), log)
    else
      GroupEnd(nodes);
      var n := GroupSize(nodes);
      RestEvaluable(nodes, 2 * n);
      var started := log + GroupLaunches(nodes, n, cwd, |log|);
      var code := status(|started| - 1);
      var end := 2 * n - 1;
      if end == |nodes| then (code, started)
      else if nodes[end].And? then if code != 0 then (code, started) else Eval(status, nodes[end + 1..], cwd, started)
      else if code == 0 then (code, started) else Eval(status, nodes[end + 1..], cwd, started)
  }

  // Running refines evaluating

  /** The process numbers of a group of n. */
  function Numbers(base: nat, n: nat): (s: seq<nat>)
    ensures |s| == n
    ensures forall i :: 0 <= i < n ==> s[i] == base + i
  {
    if n == 0 then [] else Numbers(base, n - 1) + [base + n - 1]
  }

  /** One command with a pipe behind it: it is started, and the next one will read from it. */
  lemma RunPiped(status: nat -> int, here: seq<Node>, piped: seq<nat>, cwd: string, log: seq<Launch>)
    requires |here| >= 2 && here[0].Cmd? && here[1].Pipe?
    ensures RunFrom(status, here, piped, piped != [], cwd, log)
            == RunFrom(status, here[2..], piped + [|log|], true, cwd,
                       log + [LaunchOf(here[0].cmd, piped, piped != [], cwd)])
  {
  }

  /** The launches of a group grow by that of the next command, which reads from the process started last. */
  lemma LaunchNext(nodes: seq<Node>, i: nat, cwd: string, log: seq<Launch>)
    requires 2 * i < |nodes| && forall k :: 0 <= k <= i ==> nodes[2 * k].Cmd?
    ensures log + GroupLaunches(nodes, i + 1, cwd, |log|)
            == log + GroupLaunches(nodes, i, cwd, |log|) + [LaunchOf(nodes[2 * i].cmd, Numbers(|log|, i), i > 0, cwd)]
  {
    ConcatAssociative(log, GroupLaunches(nodes, i, cwd, |log|),
                      [LaunchOf(nodes[2 * i].cmd, Numbers(|log|, i), i > 0, cwd)]);
  }

  lemma NothingYet(nodes: seq<Node>, log: seq<Launch>)
    ensures nodes[0..] == nodes && log + [] == log
  {
  }

  lemma RunMore(status: nat -> int, nodes: seq<Node>, k: nat, cwd: string, log: seq<Launch>)
    requires 2 * k + 1 < |nodes| && nodes[2 * k + 1].Pipe? && forall j :: 0 <= j <= k ==> nodes[2 * j].Cmd?
    ensures RunFrom(status, nodes[2 * k..], Numbers(|log|, k), k > 0, cwd, log + GroupLaunches(nodes, k, cwd, |log|))
            == RunFrom(status, nodes[2 * k + 2..], Numbers(|log|, k + 1), true, cwd,
                       log + GroupLaunches(nodes, k + 1, cwd, |log|))
  {
    LastOfGroup(nodes, k + 1);
    RunPiped(status, nodes[2 * k..], Numbers(|log|, k), cwd, log + GroupLaunches(nodes, k, cwd, |log|));
    LaunchNext(nodes, k, cwd, log);
  }

  /** Within a group the running loop only starts processes. */
  lemma {:induction false} RunGroup(status: nat -> int, nodes: seq<Node>, i: nat, cwd: string, log: seq<Launch>)
    requires 2 * i < |nodes| && (forall j :: 0 <= j <= i ==> nodes[2 * j].Cmd?)
    requires forall j :: 0 <= j < i ==> nodes[2 * j + 1].Pipe?
    ensures RunFrom(status, nodes, [], false, cwd, log)
            == RunFrom(status, nodes[2 * i..], Numbers(|log|, i), i > 0, cwd, log + GroupLaunches(nodes, i, cwd, |log|))
    decreases i
  {
    if i == 0 {
      NothingYet(nodes, log);
    } else {
      RunGroup(status, nodes, i - 1, cwd, log);
      RunMore(status, nodes, i - 1, cwd, log);
    }
  }

  /** The status of a group is that of its last command. */
  lemma WaitIsLast(status: nat -> int, piped: seq<nat>)
    requires piped != []
    ensures Wait(status, piped) == status(piped[|piped| - 1])
  {
  }

  /** The last command of a group: afterwards the group is waited for. */
  lemma RunLast(status: nat -> int, here: seq<Node>, piped: seq<nat>, cwd: string, log: seq<Launch>)
    requires here != [] && here[0].Cmd? && (|here| == 1 || here[1].And? || here[1].Or?)
    ensures var started := log + [LaunchOf(here[0].cmd, piped, piped != [], cwd)];
            var code := status(|log|);
            RunFrom(status, here, piped, piped != [], cwd, log)
            == if |here| == 1 || (if here[1].And? then code != 0 else code == 0) then (Exit(code), started)
               else RunFrom(status, here[2..], [], false, cwd, started)
  {
    WaitIsLast(status, piped + [|log|]);
  }

  lemma LastOfGroup(nodes: seq<Node>, n: nat)
    requires 0 < n && 2 * n - 1 <= |nodes|
    ensures var here := nodes[2 * (n - 1)..];
            && here[0] == nodes[2 * (n - 1)]
            && (|here| == 1 <==> 2 * n - 1 == |nodes|)
            && (|here| > 1 ==> here[1] == nodes[2 * n - 1] && here[2..] == nodes[2 * n..])
  {
  }

  /** A whole group: all its processes are started, and the status of the last one decides what follows. */
  lemma RunWholeGroup(status: nat -> int, nodes: seq<Node>, cwd: string, log: seq<Launch>)
    requires Evaluable(nodes) && !nodes[0].Chdir?
    ensures var end := 2 * GroupSize(nodes) - 1;
            var started := log + GroupLaunches(nodes, GroupSize(nodes), cwd, |log|);
            && 0 < end <= |nodes| && |started| > 0
            && RunFrom(status, nodes, [], false, cwd, log)
               == if end == |nodes|
                  || (if nodes[end].And? then status(|started| - 1) != 0 else status(|started| - 1) == 0)
                  then (Exit(status(|started| - 1)), started)
                  else RunFrom(status, nodes[end + 1..], [], false, cwd, started)
  {
    GroupEnds(nodes);
    var k := GroupSize(nodes) - 1;
    RunGroup(status, nodes, k, cwd, log);
    LastOfGroup(nodes, k + 1);
    RunLast(status, nodes[2 * k..], Numbers(|log|, k), cwd, log + GroupLaunches(nodes, k, cwd, |log|));
    LaunchNext(nodes, k, cwd, log);
  }

  /** Running an evaluable pipeline starts the processes and returns the code that evaluating it says. */
  lemma {:induction false} RunIsEval(status: nat -> int, nodes: seq<Node>, cwd: string, log: seq<Launch>)
    requires Evaluable(nodes)
    ensures RunFrom(status, nodes, [], false, cwd, log)
            == (Exit(Eval(status, nodes, cwd, log).0), Eval(status, nodes, cwd, log).1)
    decreases |nodes|
  {
    if nodes[0].Chdir? {
      ChdirRest(nodes);
      RunIsEval(status, nodes[2..], Join(cwd, nodes[0].dir.value), log);
    } else {
      GroupEnd(nodes);
      var next := 2 * GroupSize(nodes);
      RestEvaluable(nodes, next);
      RunWholeGroup(status, nodes, cwd, log);
      if next <= |nodes| {
        RunIsEval(status, nodes[next..], cwd, log + GroupLaunches(nodes, GroupSize(nodes), cwd, |log|));
      }
    }
  }

  // Parsing undoes printing

  lemma {:induction false} FeedAllConcat(p: Parser, a: seq<string>, b: seq<string>)
    requires Sane(p)
    ensures FeedAll(p, a + b)
            == match FeedAll(p, a) case Ok(mid) => FeedAll(mid, b) case AssertionError => AssertionError
    decreases |a|
  {
    if a == [] {
      assert a + b == b;
    } else {
      assert (a + b)[1..] == a[1..] + b;
      match Feed(p, a[0])
      case Ok(next) => FeedAllConcat(next, a[1..], b);
      case AssertionError =>
    }
  }

  lemma FeedOne(p: Parser, token: string)
    requires Sane(p)
    ensures FeedAll(p, [token]) == Feed(p, token)
  {
  }

  lemma FeedTwo(p: Parser, token: string, next: string)
    requires Sane(p) && Feed(p, token).Ok?
    ensures FeedAll(p, [token, next]) == Feed(Feed(p, token).value, next)
  {
    assert [token, next][1..] == [next];
    FeedOne(Feed(p, token).value, next);
  }

  /** A node together with the settings written in front of it. */
  datatype Item = Item(settings: seq<(string, string)>, node: Node)

  function Environment(settings: seq<(string, string)>): map<string, string> {
    if settings == [] then map[]
    else Environment(settings[..|settings| - 1])[settings[|settings| - 1].0 := settings[|settings| - 1].1]
  }

  function PrintSettings(settings: seq<(string, string)>): seq<string> {
    if settings == [] then []
    else PrintSettings(settings[..|settings| - 1]) + [settings[|settings| - 1].0 + "=" + settings[|settings| - 1].1]
  }

  function PrintStream(s: Stream, sign: string): seq<string> {
    match s
    case Inherit => []
    case PipeOut => []
    case ToStdout => ["2>&1"]
    case File(name) => [sign, name]
  }

  function PrintItem(item: Item): seq<string> {
    match item.node
    case Cmd(c) =>
      PrintSettings(item.settings) + c.argv + PrintRedirections(c)
    case Chdir(dir) => if dir.Some? then ["cd", dir.value] else ["cd"]
    case _ => []
  }

  predicate IsSign(token: string) {
    token in [">", "2>", "2>&1", "<", "|", "&&", "||"]
  }

  /** The item can be told apart from operators, settings and directory changes once it is printed. */
  ghost predicate Printable(item: Item) {
    match item.node
    case Cmd(c) =>
      && (forall k :: 0 <= k < |item.settings| ==>
            EnvSetting(item.settings[k].0 + "=" + item.settings[k].1) == Some(item.settings[k]))
      && c.env == Environment(item.settings)
      && c.argv != [] && EnvSetting(c.argv[0]).None? && c.argv[0] != "cd"
      && (forall k :: 1 <= k < |c.argv| ==> !IsSign(c.argv[k]))
      && (c.stdout.Inherit? || c.stdout.File?) && !c.stderr.PipeOut?
    case Chdir(dir) => item.settings == [] && (dir.Some? ==> dir.value != "&&")
    case _ => false
  }

  lemma {:induction false} FeedSettings(settings: seq<(string, string)>, pipeline: seq<Node>)
    requires forall k :: 0 <= k < |settings| ==> EnvSetting(settings[k].0 + "=" + settings[k].1) == Some(settings[k])
    ensures FeedAll(Parser(Begin, None, map[], pipeline), PrintSettings(settings))
            == Ok(Parser(Begin, None, Environment(settings), pipeline))
    decreases |settings|
  {
    if settings != [] {
      var n := |settings| - 1;
      var token := settings[n].0 + "=" + settings[n].1;
      FeedSettings(settings[..n], pipeline);
      FeedAllConcat(Parser(Begin, None, map[], pipeline), PrintSettings(settings[..n]), [token]);
      FeedOne(Parser(Begin, None, Environment(settings[..n]), pipeline), token);
    }
  }

  /** The parser while it collects the command c. */
  function Collecting(c: Command, pipeline: seq<Node>): Parser {
    Parser(InCommand, Some(Cmd(c)), map[], pipeline)
  }

  lemma {:induction false} FeedArguments(c: Command, args: seq<string>, pipeline: seq<Node>)
    requires forall k :: 0 <= k < |args| ==> !IsSign(args[k])
    ensures FeedAll(Collecting(c, pipeline), args) == Ok(Collecting(c.(argv := c.argv + args), pipeline))
    decreases |args|
  {
    if args == [] {
      assert c.argv + [] == c.argv;
    } else {
      var n := |args| - 1;
      FeedArguments(c, args[..n], pipeline);
      FeedAllConcat(Collecting(c, pipeline), args[..n], [args[n]]);
      assert !IsSign(args[n]);
      FeedOne(Collecting(c.(argv := c.argv + args[..n]), pipeline), args[n]);
      ConcatAssociative(c.argv, args[..n], [args[n]]);
      assert args[..n] + [args[n]] == args;
    }
  }

  /** The redirections of a command, on a command that has none yet. */
  lemma FeedRedirections(c: Command, pipeline: seq<Node>)
    requires (c.stdout.Inherit? || c.stdout.File?) && !c.stderr.PipeOut?
    ensures FeedAll(Collecting(Command(c.argv, None, Inherit, Inherit, c.env), pipeline), PrintRedirections(c))
            == Ok(Collecting(c, pipeline))
  {
    var c0 := Command(c.argv, None, Inherit, Inherit, c.env);
    var c1 := c0.(stdin := c.stdin);
    var c2 := c1.(stdout := c.stdout);
    var t1 := if c.stdin.Some? then ["<", c.stdin.value] else [];
    var t2, t3 := PrintStream(c.stdout, ">"), PrintStream(c.stderr, "2>");
    FeedAllConcat(Collecting(c0, pipeline), t1 + t2, t3);
    FeedAllConcat(Collecting(c0, pipeline), t1, t2);
    if c.stdin.Some? {
      FeedTwo(Collecting(c0, pipeline), "<", c.stdin.value);
    }
    assert FeedAll(Collecting(c0, pipeline), t1) == Ok(Collecting(c1, pipeline));
    if c.stdout.File? {
      FeedTwo(Collecting(c1, pipeline), ">", c.stdout.name);
    }
    assert FeedAll(Collecting(c1, pipeline), t2) == Ok(Collecting(c2, pipeline));
    if c.stderr.File? {
      FeedTwo(Collecting(c2, pipeline), "2>", c.stderr.name);
    } else if c.stderr.ToStdout? {
      FeedOne(Collecting(c2, pipeline), "2>&1");
    }
  }

  function PrintRedirections(c: Command): seq<string> {
    (if c.stdin.Some? then ["<", c.stdin.value] else []) + PrintStream(c.stdout, ">") + PrintStream(c.stderr, "2>")
  }

  /** The settings and the words of a command. */
  lemma FeedWords(settings: seq<(string, string)>, c: Command, pipeline: seq<Node>)
    requires Printable(Item(settings, Cmd(c)))
    ensures FeedAll(Parser(Begin, None, map[], pipeline), PrintSettings(settings) + c.argv)
            == Ok(Collecting(Command(c.argv, None, Inherit, Inherit, c.env), pipeline))
  {
    var ready := Parser(Begin, None, c.env, pipeline);
    var c0 := Command([c.argv[0]], None, Inherit, Inherit, c.env);
    FeedSettings(settings, pipeline);
    FeedAllConcat(Parser(Begin, None, map[], pipeline), PrintSettings(settings), c.argv);
    FeedAllConcat(ready, [c.argv[0]], c.argv[1..]);
    FeedOne(ready, c.argv[0]);
    FeedArguments(c0, c.argv[1..], pipeline);
    assert [c.argv[0]] + c.argv[1..] == c.argv;
  }

  lemma FeedCommand(settings: seq<(string, string)>, c: Command, pipeline: seq<Node>)
    requires Printable(Item(settings, Cmd(c)))
    ensures FeedAll(Parser(Begin, None, map[], pipeline), PrintItem(Item(settings, Cmd(c))))
            == Ok(Collecting(c, pipeline))
  {
    FeedWords(settings, c, pipeline);
    FeedRedirections(c, pipeline);
    FeedAllConcat(Parser(Begin, None, map[], pipeline), PrintSettings(settings) + c.argv, PrintRedirections(c));
  }

  /** The parser when it has read the item. */
  function Reading(item: Item, pipeline: seq<Node>): Parser {
    Parser(if item.node.Chdir? then InChdir else InCommand, Some(item.node), map[], pipeline)
  }

  lemma FeedItem(item: Item, pipeline: seq<Node>)
    requires Printable(item)
    ensures FeedAll(Parser(Begin, None, map[], pipeline), PrintItem(item)) == Ok(Reading(item, pipeline))
  {
    var start := Parser(Begin, None, map[], pipeline);
    match item.node
    case Cmd(c) => FeedCommand(item.settings, c, pipeline);
    case Chdir(dir) =>
      assert WordLength("cd") == 2 by { assert "cd"[1..] == "d" && "d"[1..] == ""; }
      if dir.Some? {
        FeedTwo(start, "cd", dir.value);
      } else {
        FeedOne(start, "cd");
      }
  }

  function Token(op: Node): string {
    match op
    case Pipe => "|"
    case And => "&&"
    case _ => "||"
  }

  /** The node as it stands in front of the operator. */
  function InFront(node: Node, op: Node): Node {
    if node.Cmd? && op.Pipe? then Cmd(node.cmd.(stdout := PipeOut)) else node
  }

  /** The operator may follow the node: only && after a directory change, and no pipe after a file. */
  predicate Fits(node: Node, op: Node) {
    IsOp(op) && (node.Chdir? ==> op.And?) && (node.Cmd? && op.Pipe? ==> node.cmd.stdout.Inherit?)
  }

  /** The tokens of n items, with operators between them. */
  function PrintAll(items: seq<Item>, ops: seq<Node>, n: nat): seq<string>
    requires 0 < n <= |items| && n <= |ops| + 1
  {
    if n == 1 then PrintItem(items[0]) else PrintAll(items, ops, n - 1) + [Token(ops[n - 2])] + PrintItem(items[n - 1])
  }

  /** The nodes of n items, each with its operator. */
  function NodesBefore(items: seq<Item>, ops: seq<Node>, n: nat): seq<Node>
    requires n <= |items| && n <= |ops|
  {
    if n == 0 then [] else NodesBefore(items, ops, n - 1) + [InFront(items[n - 1].node, ops[n - 1])] + [ops[n - 1]]
  }

  /** The operator commits the item in front of it. */
  lemma FeedOperator(item: Item, op: Node, pipeline: seq<Node>)
    requires Printable(item) && Fits(item.node, op)
    ensures FeedAll(Reading(item, pipeline), [Token(op)])
            == Ok(Parser(Begin, None, map[], pipeline + [InFront(item.node, op)] + [op]))
  {
    FeedOne(Reading(item, pipeline), Token(op));
    if op.And? {
      FeedAnd(item.node, pipeline);
    } else {
      FeedPipeOr(item.node.cmd, op, pipeline);
    }
  }

  lemma FeedAnd(node: Node, pipeline: seq<Node>)
    requires node.Cmd? || node.Chdir?
    ensures Feed(Parser(if node.Chdir? then InChdir else InCommand, Some(node), map[], pipeline), "&&")
            == Ok(Parser(Begin, None, map[], pipeline + [node] + [And]))
  {
  }

  lemma FeedPipeOr(c: Command, op: Node, pipeline: seq<Node>)
    requires op.Or? || (op.Pipe? && c.stdout.Inherit?)
    ensures Feed(Collecting(c, pipeline), Token(op))
            == Ok(Parser(Begin, None, map[], pipeline + [InFront(Cmd(c), op)] + [op]))
  {
  }

  /** One operator and one item more. */
  lemma FeedNext(tokens: seq<string>, item: Item, op: Node, next: Item, pipeline: seq<Node>)
    requires Printable(item) && Fits(item.node, op) && Printable(next)
    requires FeedAll(START, tokens) == Ok(Reading(item, pipeline))
    ensures FeedAll(START, tokens + [Token(op)] + PrintItem(next))
            == Ok(Reading(next, pipeline + [InFront(item.node, op)] + [op]))
  {
    FeedAllConcat(START, tokens + [Token(op)], PrintItem(next));
    FeedAllConcat(START, tokens, [Token(op)]);
    FeedOperator(item, op, pipeline);
    FeedItem(next, pipeline + [InFront(item.node, op)] + [op]);
  }

  lemma PrintedNext(items: seq<Item>, ops: seq<Node>, n: nat, tokens: seq<string>, pipeline: seq<Node>)
    requires 1 < n <= |items| && n <= |ops| + 1
    requires tokens == PrintAll(items, ops, n - 1) && pipeline == NodesBefore(items, ops, n - 2)
    requires Printable(items[n - 1]) && Printable(items[n - 2]) && Fits(items[n - 2].node, ops[n - 2])
    requires FeedAll(START, tokens) == Ok(Reading(items[n - 2], pipeline))
    ensures FeedAll(START, PrintAll(items, ops, n)) == Ok(Reading(items[n - 1], NodesBefore(items, ops, n - 1)))
  {
    FeedNext(tokens, items[n - 2], ops[n - 2], items[n - 1], pipeline);
  }

  lemma {:induction false} FeedPrinted(items: seq<Item>, ops: seq<Node>, n: nat)
    requires 0 < n <= |items| && n <= |ops| + 1
    requires forall k :: 0 <= k < |items| ==> Printable(items[k])
    requires forall k :: 0 <= k < |ops| && k < |items| ==> Fits(items[k].node, ops[k])
    ensures FeedAll(START, PrintAll(items, ops, n)) == Ok(Reading(items[n - 1], NodesBefore(items, ops, n - 1)))
    decreases n
  {
    if n == 1 {
      FeedItem(items[0], []);
    } else {
      FeedPrinted(items, ops, n - 1);
      assert Printable(items[n - 1]) && Printable(items[n - 2]) && Fits(items[n - 2].node, ops[n - 2]);
      PrintedNext(items, ops, n, PrintAll(items, ops, n - 1), NodesBefore(items, ops, n - 2));
    }
  }

  /** Parsing the printed form of commands joined by operators gives exactly these commands and operators. */
  lemma ParsePrinted(items: seq<Item>, ops: seq<Node>)
    requires |items| == |ops| + 1
    requires forall k :: 0 <= k < |items| ==> Printable(items[k])
    requires forall k :: 0 <= k < |ops| ==> Fits(items[k].node, ops[k])
    ensures Parsed(PrintAll(items, ops, |items|))
            == Ok(NodesBefore(items, ops, |ops|) + [items[|ops|].node])
  {
    FeedPrinted(items, ops, |items|);
    ParsedFrom(PrintAll(items, ops, |items|), Reading(items[|ops|], NodesBefore(items, ops, |ops|)));
  }

  lemma ParsedFrom(tokens: seq<string>, p: Parser)
    requires FeedAll(START, tokens) == Ok(p)
    ensures Parsed(tokens) == ParsedList(p)
  {
  }

  // What is started, and where running ends, read off the list

  /** A relative part is appended behind one slash, an absolute one replaces what stands before it. */
  lemma JoinLaw(cwd: string, dir: string)
    ensures dir != "" && dir[0] == '/' ==> Join(cwd, dir) == dir
    ensures (dir == "" || dir[0] != '/') && cwd == "" ==> Join(cwd, dir) == dir
    ensures (dir == "" || dir[0] != '/') && cwd != "" ==>
              exists base :: (cwd == base || cwd == base + "/") && Join(cwd, dir) == base + "/" + dir
                             && (cwd == base ==> cwd[|cwd| - 1] != '/')
  {
    if (dir == "" || dir[0] != '/') && cwd != "" {
      var base := if cwd[|cwd| - 1] == '/' then cwd[..|cwd| - 1] else cwd;
      assert cwd[|cwd| - 1] == '/' ==> cwd == base + "/";
      assert Join(cwd, dir) == base + "/" + dir;
    }
  }

  /** Number of commands among the first i nodes. */
  function CommandsBefore(nodes: seq<Node>, i: nat): nat
    requires i <= |nodes|
  {
    if i == 0 then 0 else CommandsBefore(nodes, i - 1) + if nodes[i - 1].Cmd? then 1 else 0
  }

  /** Where the directory changes among the first i nodes lead. */
  function DirBefore(nodes: seq<Node>, i: nat): string
    requires i <= |nodes|
  {
    if i == 0 then "."
    else if nodes[i - 1].Chdir? && nodes[i - 1].dir.Some? then Join(DirBefore(nodes, i - 1), nodes[i - 1].dir.value)
    else DirBefore(nodes, i - 1)
  }

  /** A pipe stands in front of node i, or in front of the directory changes in front of it. */
  predicate PipedInto(nodes: seq<Node>, i: nat)
    requires i <= |nodes|
  {
    i >= 1
    && (nodes[i - 1].Pipe? || (nodes[i - 1].And? && i >= 2 && nodes[i - 2].Chdir? && PipedInto(nodes, i - 2)))
  }

  /** The process of command i has the command's words, output streams and settings, and the directory that the changes
      in front of it lead to. It reads from the process before it if it is piped into, otherwise from the command's
      file, if it has one, and otherwise from nowhere special. */
  ghost predicate StartedAs(nodes: seq<Node>, log: seq<Launch>, i: nat)
    requires i < |nodes| && nodes[i].Cmd?
  {
    var c, m := nodes[i].cmd, CommandsBefore(nodes, i);
    && m < |log|
    && log[m].argv == c.argv && log[m].stdout == c.stdout && log[m].stderr == c.stderr && log[m].env == c.env
    && log[m].cwd == DirBefore(nodes, i)
    && (PipedInto(nodes, i) ==> m > 0 && log[m].stdin == FromPipe(m - 1))
    && (!PipedInto(nodes, i) && c.stdin.Some? ==> log[m].stdin == FromFile(c.stdin.value))
    && (!PipedInto(nodes, i) && c.stdin.None? ==> log[m].stdin == NoSource)
  }

  /** The processes are those of the commands among the first "end" nodes, in order. */
  ghost predicate Started(nodes: seq<Node>, log: seq<Launch>, end: nat) {
    && end <= |nodes| && |log| == CommandsBefore(nodes, end)
    && forall i :: 0 <= i < end && nodes[i].Cmd? ==> StartedAs(nodes, log, i)
  }

  /** Behind every command passed, && stands with status 0 and || with another one. */
  ghost predicate PassedOn(status: nat -> int, nodes: seq<Node>, end: nat)
    requires end <= |nodes|
  {
    forall i, j :: 0 <= i && j == i + 1 && j < end && nodes[i].Cmd? ==>
      && CommandsBefore(nodes, j) > 0
      && (nodes[j].And? ==> status(CommandsBefore(nodes, j) - 1) == 0)
      && (nodes[j].Or? ==> status(CommandsBefore(nodes, j) - 1) != 0)
  }

  /** Why running ends before node "end": the list is over, behind a command or not; the status of the last command
      stops it at an operator; or a directory change is last, has no && behind it, or has no directory. */
  ghost predicate EndedAt(status: nat -> int, nodes: seq<Node>, log: seq<Launch>, outcome: Outcome, end: nat)
    requires end <= |nodes|
  {
    match outcome
    case Exit(code) =>
      && end > 0 && nodes[end - 1].Cmd? && log != [] && code == status(|log| - 1)
      && (end < |nodes| ==> (nodes[end].And? && code != 0) || (nodes[end].Or? && code == 0))
    case IndexError => end + 1 == |nodes| && nodes[end].Chdir?
    case FailedAssertion => end + 1 < |nodes| && nodes[end].Chdir? && !nodes[end + 1].And?
    case TypeError => end + 1 < |nodes| && nodes[end].Chdir? && nodes[end + 1].And? && nodes[end].dir.None?
    case NoValue => end == |nodes| && (nodes == [] || IsOp(nodes[end - 1]))
  }

  /** One more process. */
  lemma StartsNext(nodes: seq<Node>, log: seq<Launch>, launch: Launch, i: nat)
    requires Started(nodes, log, i) && i < |nodes| && nodes[i].Cmd? && (PipedInto(nodes, i) ==> log != [])
    requires var c := nodes[i].cmd;
             && launch.argv == c.argv && launch.stdout == c.stdout && launch.stderr == c.stderr && launch.env == c.env
             && launch.cwd == DirBefore(nodes, i)
             && launch.stdin == if PipedInto(nodes, i) then FromPipe(|log| - 1)
                                else if c.stdin.Some? then FromFile(c.stdin.value) else NoSource
    ensures Started(nodes, log + [launch], i + 1)
  {
    forall k | 0 <= k < i + 1 && nodes[k].Cmd?
      ensures StartedAs(nodes, log + [launch], k)
    {
      if k < i {
        assert StartedAs(nodes, log, k);
      }
    }
  }

  /** What the running loop knows when it has dealt with the first i nodes. */
  ghost predicate Running(status: nat -> int, nodes: seq<Node>, log: seq<Launch>, piped: seq<nat>, inPipe: bool,
                          cwd: string, i: nat) {
    && i <= |nodes| && i % 2 == 0 && Started(nodes, log, i) && PassedOn(status, nodes, i)
    && cwd == DirBefore(nodes, i) && (inPipe <==> PipedInto(nodes, i))
    && (inPipe ==> piped != [] && log != [] && piped[|piped| - 1] == |log| - 1)
    && (i > 0 ==> IsOp(nodes[i - 1]))
  }

  /** No process is added for a node that is no command. */
  lemma StartedAlso(nodes: seq<Node>, log: seq<Launch>, i: nat)
    requires Started(nodes, log, i) && i < |nodes| && !nodes[i].Cmd?
    ensures Started(nodes, log, i + 1)
  {
    assert CommandsBefore(nodes, i + 1) == CommandsBefore(nodes, i);
    forall k | 0 <= k < i + 1 && nodes[k].Cmd?
      ensures StartedAs(nodes, log, k)
    {
      assert k < i;
    }
  }

  lemma DirMoves(nodes: seq<Node>, i: nat)
    requires i + 1 < |nodes| && nodes[i].Chdir? && nodes[i].dir.Some? && nodes[i + 1].And?
    ensures DirBefore(nodes, i + 2) == Join(DirBefore(nodes, i), nodes[i].dir.value)
    ensures PipedInto(nodes, i + 2) <==> PipedInto(nodes, i)
  {
    assert DirBefore(nodes, i + 1) == Join(DirBefore(nodes, i), nodes[i].dir.value);
  }

  /** Dealing with a directory change and the && behind it. */
  lemma RunningOn(status: nat -> int, nodes: seq<Node>, log: seq<Launch>, piped: seq<nat>, inPipe: bool, cwd: string,
                  i: nat)
    requires Running(status, nodes, log, piped, inPipe, cwd, i)
    requires i + 1 < |nodes| && nodes[i].Chdir? && nodes[i].dir.Some? && nodes[i + 1].And?
    ensures Running(status, nodes, log, piped, inPipe, Join(cwd, nodes[i].dir.value), i + 2)
  {
    DirMoves(nodes, i);
    StartedAlso(nodes, log, i);
    StartedAlso(nodes, log, i + 1);
  }

  /** Dealing with a command and an operator behind it that lets running go on. */
  lemma RunningNext(status: nat -> int, nodes: seq<Node>, log: seq<Launch>, i: nat)
    requires i + 1 < |nodes| && i % 2 == 0 && nodes[i].Cmd? && IsOp(nodes[i + 1])
    requires Started(nodes, log, i + 1) && PassedOn(status, nodes, i + 1)
    requires log != [] && (nodes[i + 1].And? ==> status(|log| - 1) == 0)
             && (nodes[i + 1].Or? ==> status(|log| - 1) != 0)
    ensures Started(nodes, log, i + 2) && PassedOn(status, nodes, i + 2)
    ensures DirBefore(nodes, i + 2) == DirBefore(nodes, i)
    ensures PipedInto(nodes, i + 2) <==> nodes[i + 1].Pipe?
  {
    StartedAlso(nodes, log, i + 1);
    assert DirBefore(nodes, i + 1) == DirBefore(nodes, i);
  }

  /** For lists in which commands and operators alternate: what the running loop knows, and what its end says. */
  ghost predicate Ran(status: nat -> int, nodes: seq<Node>, log: seq<Launch>, piped: seq<nat>, inPipe: bool,
                      cwd: string,
                      i: nat) {
    Alternates(nodes) ==> Running(status, nodes, log, piped, inPipe, cwd, i)
  }

  ghost predicate Told(status: nat -> int, nodes: seq<Node>, log: seq<Launch>, outcome: Outcome, end: nat) {
    Alternates(nodes) ==>
      Started(nodes, log, end) && PassedOn(status, nodes, end) && EndedAt(status, nodes, log, outcome, end)
  }

  lemma RanStarts(status: nat -> int, nodes: seq<Node>)
    ensures Ran(status, nodes, [], [], false, ".", 0)
  {
  }

  lemma ChdirRan(status: nat -> int, nodes: seq<Node>, log: seq<Launch>, piped: seq<nat>, inPipe: bool, cwd: string,
                 i: nat)
    requires Ran(status, nodes, log, piped, inPipe, cwd, i) && i < |nodes| && nodes[i].Chdir?
    ensures i + 1 == |nodes| ==> Told(status, nodes, log, IndexError, i)
    ensures i + 1 < |nodes| && !nodes[i + 1].And? ==> Told(status, nodes, log, FailedAssertion, i)
    ensures i + 1 < |nodes| && nodes[i + 1].And? ==>
              if nodes[i].dir.None? then Told(status, nodes, log, TypeError, i)
              else Ran(status, nodes, log, piped, inPipe, Join(cwd, nodes[i].dir.value), i + 2)
  {
    if Alternates(nodes) && i + 1 < |nodes| && nodes[i + 1].And? && nodes[i].dir.Some? {
      RunningOn(status, nodes, log, piped, inPipe, cwd, i);
    }
  }

  /** The command at node i is started, and ends running, or the operator behind it lets running go on. */
  lemma CommandRan(status: nat -> int, nodes: seq<Node>, log: seq<Launch>, piped: seq<nat>, inPipe: bool, cwd: string,
                   i: nat)
    requires Ran(status, nodes, log, piped, inPipe, cwd, i) && i < |nodes| && nodes[i].Cmd? && (inPipe ==> piped != [])
    ensures var started, group := log + [LaunchOf(nodes[i].cmd, piped, inPipe, cwd)], piped + [|log|];
            var code := status(|log|);
            && (i + 1 == |nodes| ==> Told(status, nodes, started, Exit(code), i + 1))
            && (i + 1 < |nodes| && nodes[i + 1].Pipe? ==> Ran(status, nodes, started, group, true, cwd, i + 2))
            && (i + 1 < |nodes| && (nodes[i + 1].And? || nodes[i + 1].Or?) ==>
                  if (if nodes[i + 1].And? then code == 0 else code != 0)
                  then Ran(status, nodes, started, [], false, cwd, i + 2)
                  else Told(status, nodes, started, Exit(code), i + 1))
  {
    if Alternates(nodes) {
      var launch := LaunchOf(nodes[i].cmd, piped, inPipe, cwd);
      StartsNext(nodes, log, launch, i);
      PassedUpTo(status, nodes, i);
      if i + 1 < |nodes| {
        assert IsOp(nodes[i + 1]);
        if nodes[i + 1].Pipe? || (if nodes[i + 1].And? then status(|log|) == 0 else status(|log|) != 0) {
          RunningNext(status, nodes, log + [launch], i);
        }
      }
    }
  }

  lemma PassedUpTo(status: nat -> int, nodes: seq<Node>, i: nat)
    requires i < |nodes| && PassedOn(status, nodes, i) && (i > 0 ==> IsOp(nodes[i - 1]))
    ensures PassedOn(status, nodes, i + 1)
  {
  }

  lemma NothingLeft(status: nat -> int, nodes: seq<Node>, log: seq<Launch>, piped: seq<nat>, inPipe: bool, cwd: string,
                    i: nat)
    requires Ran(status, nodes, log, piped, inPipe, cwd, i) && i == |nodes|
    ensures Told(status, nodes, log, NoValue, i)
  {
  }

  /** In an alternating list the loop finds no operator for a command, and no command for an operator. */
  lemma OutOfTurn(status: nat -> int, nodes: seq<Node>, log: seq<Launch>, piped: seq<nat>, inPipe: bool, cwd: string,
                  i: nat)
    requires Ran(status, nodes, log, piped, inPipe, cwd, i) && i < |nodes|
    requires IsOp(nodes[i]) || (i + 1 < |nodes| && !IsOp(nodes[i + 1]))
    ensures !Alternates(nodes)
  {
  }

  // The pipeline object

  class Pipeline {
    var currentCommand: Option<Node>
    var pipeline: seq<Node>

    constructor ()
      ensures currentCommand == None && pipeline == []
    {
      currentCommand, pipeline := None, [];
    }

    method CommitCommand() returns (ok: bool)
      modifies this
      ensures ok <==> old(currentCommand).Some?
      ensures ok ==> pipeline == old(pipeline) + [old(currentCommand).value] && currentCommand == None
      ensures !ok ==> unchanged(this)
    {
      if currentCommand == None {
        return false;
      }
      pipeline := pipeline + [currentCommand.value];
      currentCommand := None;
      return true;
    }

    /** One turn of the parsing loop. */
    method ParseToken(state: Mode, env: map<string, string>, token: string)
        returns (state': Mode, env': map<string, string>, ok: bool)
      requires Sane(Parser(state, currentCommand, env, pipeline))
      modifies this
      ensures ok <==> Feed(Parser(state, old(currentCommand), env, old(pipeline)), token).Ok?
      ensures ok ==> Feed(Parser(state, old(currentCommand), env, old(pipeline)), token)
                     == Ok(Parser(state', currentCommand, env', pipeline))
    {
      state', env', ok := state, env, true;
      match state {
        case Begin =>
          var setting := EnvSetting(token);
          if setting.Some? {
            env' := env[setting.value.0 := setting.value.1];
          } else if token == "cd" {
            ok := env == map[];
            currentCommand := Some(Chdir(None));
            state' := InChdir;
          } else {
            currentCommand := Some(Cmd(Command([token], None, Inherit, Inherit, env)));
            env' := map[];
            state' := InCommand;
          }
        case InCommand =>
          var c := currentCommand.value.cmd;
          if token == ">" {
            state' := Stdout;
          } else if token == "2>" {
            state' := Stderr;
          } else if token == "2>&1" {
            ok := c.stderr == Inherit;
            currentCommand := Some(Cmd(c.(stderr := ToStdout)));
          } else if token == "<" {
            state' := Stdin;
          } else if token == "|" {
            ok := c.stdout == Inherit;
            currentCommand := Some(Cmd(c.(stdout := PipeOut)));
            var committed := CommitCommand();
            pipeline := pipeline + [Pipe];
            state' := Begin;
          } else if token == "&&" {
            var committed := CommitCommand();
            pipeline := pipeline + [And];
            state' := Begin;
          } else if token == "||" {
            var committed := CommitCommand();
            pipeline := pipeline + [Or];
            state' := Begin;
          } else {
            currentCommand := Some(Cmd(c.(argv := c.argv + [token])));
          }
        case InChdir =>
          if token == "&&" {
            var committed := CommitCommand();
            pipeline := pipeline + [And];
            state' := Begin;
          } else {
            ok := currentCommand.value.dir == None;
            currentCommand := Some(Chdir(Some(token)));
          }
        case Stdout =>
          var c := currentCommand.value.cmd;
          ok := c.stdout == Inherit;
          currentCommand := Some(Cmd(c.(stdout := File(token))));
          state' := InCommand;
        case Stderr =>
          var c := currentCommand.value.cmd;
          ok := c.stderr == Inherit;
          currentCommand := Some(Cmd(c.(stderr := File(token))));
          state' := InCommand;
        case Stdin =>
          var c := currentCommand.value.cmd;
          ok := c.stdin == None;
          currentCommand := Some(Cmd(c.(stdin := Some(token))));
          state' := InCommand;
      }
    }

    method Parse(tokens: seq<string>) returns (r: Result<seq<Node>>)
      modifies this
      ensures r == Parsed(tokens)
      ensures r.Ok? ==> pipeline == r.value && WellParsed(pipeline) && |pipeline| % 2 == 1 && LastStaysOpen(pipeline)
    {
      currentCommand, pipeline := None, [];
      var state, env, ok := Begin, map[], true;
      for i := 0 to |tokens|
        invariant Sane(Parser(state, currentCommand, env, pipeline))
        invariant FeedAll(START, tokens) == FeedAll(Parser(state, currentCommand, env, pipeline), tokens[i..])
      {
        assert tokens[i..][1..] == tokens[i + 1..];
        state, env, ok := ParseToken(state, env, tokens[i]);
        if !ok {
          return AssertionError;
        }
      }
      ok := CommitCommand();
      if !ok {
        return AssertionError;
      }
      ParsedIsWell(tokens);
      return Ok(pipeline);
    }

    /** Collects the statuses of a group of processes. */
    method ExecPipedCommands(status: nat -> int, commands: seq<nat>) returns (retval: int)
      requires commands != []
      ensures retval == Wait(status, commands)
    {
      var retvals: seq<int> := [];
      for i := 0 to |commands|
        invariant |retvals| == i && forall k :: 0 <= k < i ==> retvals[k] == status(commands[k])
      {
        retvals := retvals + [status(commands[i])];
      }
      retval := 0;
      for i := 0 to |retvals|
        invariant forall k :: 0 <= k < i ==> retvals[k] == 0
      {
        if retvals[i] != 0 {
          return retvals[|retvals| - 1];
        }
      }
    }

    /** Runs the pipeline without reporting; the processes end with arbitrary statuses. What is started is what stands
        in front of node "end" of the list, and what ends running is read off the list and the statuses. */
    method Run(status: nat -> int) returns (outcome: Outcome, log: seq<Launch>, ghost end: nat)
      ensures (outcome, log) == RunFrom(status, pipeline, [], false, ".", [])
      ensures Evaluable(pipeline) ==>
                (outcome, log) == (Exit(Eval(status, pipeline, ".", []).0), Eval(status, pipeline, ".", []).1)
      ensures Alternates(pipeline) ==>
                && Started(pipeline, log, end) && PassedOn(status, pipeline, end)
                && EndedAt(status, pipeline, log, outcome, end)
    {
      outcome, log, end := RunLoop(status);
      if Evaluable(pipeline) {
        RunIsEval(status, pipeline, ".", []);
      }
      assert Told(status, pipeline, log, outcome, end);
    }

    /** Waits for the group in front of an operator, whose last status may end running. */
    method WaitAt(status: nat -> int, commands: seq<nat>, op: Node) returns (retval: int, stop: bool)
      requires commands != [] && (op.And? || op.Or?)
      ensures retval == Wait(status, commands) == status(commands[|commands| - 1])
      ensures stop <==> if op.And? then retval != 0 else retval == 0
    {
      WaitIsLast(status, commands);
      retval := ExecPipedCommands(status, commands);
      stop := if op.Or? then retval == 0 else retval != 0;
    }

    /** The running loop. */
    method RunLoop(status: nat -> int) returns (outcome: Outcome, log: seq<Launch>, ghost end: nat)
      ensures (outcome, log) == RunFrom(status, pipeline, [], false, ".", [])
      ensures Told(status, pipeline, log, outcome, end)
    {
      var rest, inPipe, cwd := pipeline, false, ".";
      var piped: seq<nat> := [];
      log, end := [], 0;
      RanStarts(status, pipeline);
      while rest != []
        invariant inPipe ==> piped != []
        invariant RunFrom(status, pipeline, [], false, ".", []) == RunFrom(status, rest, piped, inPipe, cwd, log)
        invariant end <= |pipeline| && rest == pipeline[end..]
        invariant Ran(status, pipeline, log, piped, inPipe, cwd, end)
        decreases |rest|
      {
        var node := rest[0];
        if node.Chdir? {
          ChdirRan(status, pipeline, log, piped, inPipe, cwd, end);
          if |rest| < 2 {
            return IndexError, log, end;
          }
          if !rest[1].And? {
            return FailedAssertion, log, end;
          }
          if node.dir == None {
            return TypeError, log, end;
          }
          cwd := Join(cwd, node.dir.value);
          rest, end := rest[2..], end + 2;
          continue;
        }
        if !node.Cmd? {
          OutOfTurn(status, pipeline, log, piped, inPipe, cwd, end);
          return FailedAssertion, log, end;
        }
        CommandRan(status, pipeline, log, piped, inPipe, cwd, end);
        ghost var was, group := log, piped;
        var launch := LaunchOf(node.cmd, piped, inPipe, cwd);
        piped := piped + [|log|];
        log := log + [launch];
        if |rest| < 2 {
          WaitIsLast(status, piped);
          var retval := ExecPipedCommands(status, piped);
          return Exit(retval), log, end + 1;
        }
        var op := rest[1];
        if op.Pipe? {
          inPipe := true;
        } else if op.Or? || op.And? {
          var retval, stop := WaitAt(status, piped, op);
          if stop {
            return Exit(retval), log, end + 1;
          }
          piped, inPipe := [], false;
        } else {
          OutOfTurn(status, pipeline, was, group, inPipe, cwd, end);
        }
        rest, end := rest[2..], end + 2;
      }
      NothingLeft(status, pipeline, log, piped, inPipe, cwd, end);
      return NoValue, log, end;
    }
  }
}
