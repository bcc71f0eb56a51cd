/** How a shell evaluates the pipelines of waf-tools/shellcmd.py, and when running them agrees with it. */
module ShellAgreement {
  import opened ShellCmd

  /** Evaluation by a shell: && and || have the same rank and bind to the left, so an operand that is skipped leaves
      the code as it was for the operator behind it. "run" says whether the next operand runs, "code" is the code so
      far; a directory change succeeds. */
  ghost function ShellFrom(status: nat -> int, nodes: seq<Node>, run: bool, code: int, cwd: string, log: seq<Launch>)
    : (int, seq<Launch>)
    requires Evaluable(nodes)
    decreases |nodes|
  {
    if nodes[0].Chdir? then
      ChdirRest(nodes);
      var after := if run then 0 else code;
      ShellFrom(status, nodes[2..], after == 0, after, if run then Join(cwd, nodes[0].dir.value) else cwd, log)
    else
      GroupEnd(nodes);
      var n := GroupSize(nodes);
      RestEvaluable(nodes, 2 * n);
      var started := if run then log + GroupLaunches(nodes, n, cwd, |log|) else log;
      var after := if run then status(|started| - 1) else code;
      if 2 * n - 1 == |nodes| then (after, started)
      else
        ShellFrom(status, nodes[2 * n..], if nodes[2 * n - 1].And? then after == 0 else after != 0, after, cwd, started)
  }

  ghost function Shell(status: nat -> int, nodes: seq<Node>, cwd: string, log: seq<Launch>): (int, seq<Launch>)
    requires Evaluable(nodes)
  {
    ShellFrom(status, nodes, true, 0, cwd, log)
  }

  ghost predicate HasAnd(nodes: seq<Node>) {
    exists i :: 0 <= i < |nodes| && nodes[i].And?
  }

  ghost predicate HasOr(nodes: seq<Node>) {
    exists i :: 0 <= i < |nodes| && nodes[i].Or?
  }

  /** What stands behind the directory changes at the front. */
  ghost function BehindChdirs(nodes: seq<Node>): (rest: seq<Node>)
    requires Evaluable(nodes)
    ensures Evaluable(rest) && !rest[0].Chdir?
    decreases |nodes|
  {
    if nodes[0].Chdir? then
      ChdirRest(nodes);
      BehindChdirs(nodes[2..])
    else nodes
  }

  /** Apart from pipes, all operators are && or all are ||. */
  ghost predicate OneKind(nodes: seq<Node>) {
    !HasAnd(nodes) || !HasOr(nodes)
  }

  // Where they agree

  lemma RestHasLess(nodes: seq<Node>, k: nat)
    requires k <= |nodes|
    ensures HasAnd(nodes[k..]) ==> HasAnd(nodes)
    ensures HasOr(nodes[k..]) ==> HasOr(nodes)
  {
    if i :| 0 <= i < |nodes[k..]| && nodes[k..][i].And? {
      assert nodes[k + i].And?;
    }
    if i :| 0 <= i < |nodes[k..]| && nodes[k..][i].Or? {
      assert nodes[k + i].Or?;
    }
  }

  /** Nothing behind a short circuit runs when no operator of the other kind follows. */
  lemma {:induction false} StaysSkipped(status: nat -> int, nodes: seq<Node>, code: int, cwd: string, log: seq<Launch>)
    requires Evaluable(nodes) && if code == 0 then !HasAnd(nodes) else !HasOr(nodes)
    ensures ShellFrom(status, nodes, false, code, cwd, log) == (code, log)
    decreases |nodes|
  {
    if nodes[0].Chdir? {
      ChdirRest(nodes);
      RestHasLess(nodes, 2);
      assert HasAnd(nodes);
      StaysSkipped(status, nodes[2..], code, cwd, log);
    } else {
      GroupEnd(nodes);
      var next := 2 * GroupSize(nodes);
      RestEvaluable(nodes, next);
      if next <= |nodes| {
        RestHasLess(nodes, next);
        StaysSkipped(status, nodes[next..], code, cwd, log);
      }
    }
  }

  /** Behind the first operator there are only operators of its kind. */
  lemma RestOneKind(nodes: seq<Node>, next: nat)
    requires 0 < next <= |nodes| && OneKind(nodes) && (nodes[next - 1].And? || nodes[next - 1].Or?)
    ensures OneKind(nodes[next..]) && if nodes[next - 1].And? then !HasOr(nodes[next..]) else !HasAnd(nodes[next..])
  {
    RestHasLess(nodes, next);
    assert if nodes[next - 1].And? then HasAnd(nodes) else HasOr(nodes);
  }

  /** The group at the front, given how what follows is evaluated. */
  lemma GroupAgrees(status: nat -> int, nodes: seq<Node>, code: int, cwd: string, log: seq<Launch>)
    requires Evaluable(nodes) && !nodes[0].Chdir?
    requires var next := 2 * GroupSize(nodes);
             var started := log + GroupLaunches(nodes, GroupSize(nodes), cwd, |log|);
             var after := status(|started| - 1);
             0 < next <= |nodes| ==>
               && Evaluable(nodes[next..])
               && if (if nodes[next - 1].And? then after == 0 else after != 0)
                  then ShellFrom(status, nodes[next..], true, after, cwd, started)
                       == Eval(status, nodes[next..], cwd, started)
                  else ShellFrom(status, nodes[next..], false, after, cwd, started) == (after, started)
    ensures ShellFrom(status, nodes, true, code, cwd, log) == Eval(status, nodes, cwd, log)
  {
    GroupEnd(nodes);
  }

  /** With operators of one kind only, nesting to the right and binding to the left come to the same. */
  lemma {:induction false} OneKindAgrees(status: nat -> int, nodes: seq<Node>, code: int, cwd: string, log: seq<Launch>)
    requires Evaluable(nodes) && OneKind(nodes)
    ensures ShellFrom(status, nodes, true, code, cwd, log) == Eval(status, nodes, cwd, log)
    decreases |nodes|
  {
    if nodes[0].Chdir? {
      ChdirRest(nodes);
      RestHasLess(nodes, 2);
      OneKindAgrees(status, nodes[2..], 0, Join(cwd, nodes[0].dir.value), log);
    } else {
      GroupEnd(nodes);
      var next := 2 * GroupSize(nodes);
      RestEvaluable(nodes, next);
      if next <= |nodes| {
        var started := log + GroupLaunches(nodes, GroupSize(nodes), cwd, |log|);
        var after := status(|started| - 1);
        RestOneKind(nodes, next);
        if (if nodes[next - 1].And? then after == 0 else after != 0) {
          OneKindAgrees(status, nodes[next..], after, cwd, started);
        } else {
          StaysSkipped(status, nodes[next..], after, cwd, started);
        }
      }
      GroupAgrees(status, nodes, code, cwd, log);
    }
  }

  // Where they differ

  /** Evaluation only adds processes. */
  lemma {:induction false} ShellGrows(status: nat -> int, nodes: seq<Node>, run: bool, code: int, cwd: string,
                                      log: seq<Launch>)
    requires Evaluable(nodes)
    ensures |ShellFrom(status, nodes, run, code, cwd, log).1| >= |log|
    ensures run ==> |ShellFrom(status, nodes, run, code, cwd, log).1| > |log|
    decreases |nodes|
  {
    if nodes[0].Chdir? {
      ChdirRest(nodes);
      var after := if run then 0 else code;
      ShellGrows(status, nodes[2..], after == 0, after, if run then Join(cwd, nodes[0].dir.value) else cwd, log);
    } else {
      GroupEnd(nodes);
      var next := 2 * GroupSize(nodes);
      RestEvaluable(nodes, next);
      if next <= |nodes| {
        var started := if run then log + GroupLaunches(nodes, GroupSize(nodes), cwd, |log|) else log;
        var after := if run then status(|started| - 1) else code;
        ShellGrows(status, nodes[next..], if nodes[next - 1].And? then after == 0 else after != 0, after, cwd, started);
      }
    }
  }

  /** Behind a short circuit an operator of the other kind makes something run again. */
  lemma {:induction false} RunsAgain(status: nat -> int, nodes: seq<Node>, code: int, cwd: string, log: seq<Launch>)
    requires Evaluable(nodes) && if code == 0 then HasAnd(nodes) else HasOr(nodes)
    ensures |ShellFrom(status, nodes, false, code, cwd, log).1| > |log|
    decreases |nodes|
  {
    if nodes[0].Chdir? {
      ChdirRest(nodes);
      if code == 0 {
        ShellGrows(status, nodes[2..], true, 0, cwd, log);
      } else {
        OperatorBehind(nodes, 2);
        RunsAgain(status, nodes[2..], code, cwd, log);
      }
    } else {
      GroupEnd(nodes);
      var next := 2 * GroupSize(nodes);
      RestEvaluable(nodes, next);
      OperatorBehindGroup(nodes);
      if nodes[next - 1].And? <==> code == 0 {
        ShellGrows(status, nodes[next..], true, code, cwd, log);
      } else {
        RunsAgain(status, nodes[next..], code, cwd, log);
      }
    }
  }

  /** An operator that is not among the first k nodes is behind them. */
  lemma OperatorBehind(nodes: seq<Node>, k: nat)
    requires k <= |nodes|
    ensures HasAnd(nodes) && (forall i :: 0 <= i < k ==> !nodes[i].And?) ==> HasAnd(nodes[k..])
    ensures HasOr(nodes) && (forall i :: 0 <= i < k ==> !nodes[i].Or?) ==> HasOr(nodes[k..])
  {
    if i :| 0 <= i < |nodes| && nodes[i].And? {
      assert i >= k ==> nodes[k..][i - k].And?;
    }
    if i :| 0 <= i < |nodes| && nodes[i].Or? {
      assert i >= k ==> nodes[k..][i - k].Or?;
    }
  }

  /** Within the group at the front all operators are pipes. */
  lemma GroupHasPipes(nodes: seq<Node>)
    requires Evaluable(nodes) && !nodes[0].Chdir?
    ensures forall i :: 0 <= i < 2 * GroupSize(nodes) - 1 ==> !nodes[i].And? && !nodes[i].Or?
  {
    GroupEnds(nodes);
    forall i | 0 <= i < 2 * GroupSize(nodes) - 1
      ensures !nodes[i].And? && !nodes[i].Or?
    {
      if i % 2 == 1 {
        assert nodes[2 * (i / 2) + 1].Pipe?;
      } else {
        assert nodes[2 * (i / 2)].Cmd?;
      }
    }
  }

  /** An operator other than the one behind the group at the front is further behind. */
  lemma OperatorBehindGroup(nodes: seq<Node>)
    requires Evaluable(nodes) && !nodes[0].Chdir? && (HasAnd(nodes) || HasOr(nodes))
    ensures var next := 2 * GroupSize(nodes);
            && 0 < next <= |nodes|
            && (HasAnd(nodes) && !nodes[next - 1].And? ==> HasAnd(nodes[next..]))
            && (HasOr(nodes) && !nodes[next - 1].Or? ==> HasOr(nodes[next..]))
  {
    GroupEnd(nodes);
    GroupHasPipes(nodes);
    if 2 * GroupSize(nodes) <= |nodes| {
      OperatorBehind(nodes, 2 * GroupSize(nodes));
    }
  }

  /** The status that the first group needs for its operator to short-circuit; all other processes succeed. */
  function Stopping(last: nat, code: int): nat -> int {
    p => if p == last then code else 0
  }

  /** With operators of both kinds there are statuses for which running stops and a shell goes on. */
  lemma BothKindsDiffer(nodes: seq<Node>, code: int, cwd: string, log: seq<Launch>) returns (status: nat -> int)
    requires Evaluable(nodes) && !nodes[0].Chdir? && !OneKind(nodes)
    ensures ShellFrom(status, nodes, true, code, cwd, log) != Eval(status, nodes, cwd, log)
  {
    GroupEnd(nodes);
    OperatorBehindGroup(nodes);
    var n := GroupSize(nodes);
    var next := 2 * n;
    RestEvaluable(nodes, next);
    var started := log + GroupLaunches(nodes, n, cwd, |log|);
    var after := if nodes[next - 1].And? then 1 else 0;
    status := Stopping(|started| - 1, after);
    RunsAgain(status, nodes[next..], after, cwd, started);
  }

  lemma {:induction false} SameBehindChdirs(nodes: seq<Node>, cwd: string) returns (cwd': string)
    requires Evaluable(nodes)
    ensures forall status: nat -> int, log ::
              Eval(status, nodes, cwd, log) == Eval(status, BehindChdirs(nodes), cwd', log)
    ensures forall status: nat -> int, log ::
              Shell(status, nodes, cwd, log) == Shell(status, BehindChdirs(nodes), cwd', log)
    decreases |nodes|
  {
    if nodes[0].Chdir? {
      ChdirRest(nodes);
      cwd' := SameBehindChdirs(nodes[2..], Join(cwd, nodes[0].dir.value));
    } else {
      cwd' := cwd;
    }
  }

  /** Running a pipeline agrees with a shell, whatever the statuses of the processes, exactly when behind the directory
      changes at its front all operators other than pipes are of one kind. */
  lemma AgreesWithShell(nodes: seq<Node>, cwd: string, log: seq<Launch>)
    requires Evaluable(nodes)
    ensures (forall status: nat -> int :: Eval(status, nodes, cwd, log) == Shell(status, nodes, cwd, log))
            <==> OneKind(BehindChdirs(nodes))
  {
    var cwd' := SameBehindChdirs(nodes, cwd);
    var rest := BehindChdirs(nodes);
    if OneKind(rest) {
      forall status: nat -> int
        ensures Eval(status, nodes, cwd, log) == Shell(status, nodes, cwd, log)
      {
        OneKindAgrees(status, rest, 0, cwd', log);
      }
    } else {
      var status := BothKindsDiffer(rest, 0, cwd', log);
      assert Eval(status, nodes, cwd, log) != Shell(status, nodes, cwd, log);
    }
  }

  /** The shortest case: after "a || b && c" with a successful first command, running has started one process, and a
      shell two. */
  lemma OrThenAnd(a: Command, b: Command, c: Command)
    ensures var nodes := [Cmd(a), Or, Cmd(b), And, Cmd(c)];
            && Evaluable(nodes)
            && |Eval(_ => 0, nodes, ".", []).1| == 1 && |Shell(_ => 0, nodes, ".", []).1| == 2
  {
    var nodes := [Cmd(a), Or, Cmd(b), And, Cmd(c)];
    assert nodes[2..] == [Cmd(b), And, Cmd(c)] && nodes[2..][2..] == [Cmd(c)];
    assert GroupSize(nodes) == GroupSize(nodes[2..]) == GroupSize([Cmd(c)]) == 1;
    var status := _ => 0;
    var log := [] + GroupLaunches(nodes, 1, ".", 0);
    assert Shell(status, nodes, ".", []) == ShellFrom(status, nodes[2..], false, 0, ".", log);
    assert ShellFrom(status, nodes[2..], false, 0, ".", log) == ShellFrom(status, [Cmd(c)], true, 0, ".", log);
  }
}
