/** Everything that parsing a pipeline of waf-tools/shellcmd.py can give has a printed form. */
module ShellPrinting {
  import opened ShellCmd
  import ShellGrammar
  import opened Wrappers

  /** The setting is read as what it sets. */
  predicate GoodSetting(setting: (string, string)) {
    EnvSetting(setting.0 + "=" + setting.1) == Some(setting)
  }

  /** The settings, written one after another, give the environment. */
  ghost predicate SetBy(env: map<string, string>, settings: seq<(string, string)>) {
    (forall k :: 0 <= k < |settings| ==> GoodSetting(settings[k])) && env == Environment(settings)
  }

  /** What a token sets can be written again, without the newline that the token may have ended with. */
  lemma SettingIsGood(token: string)
    requires EnvSetting(token).Some?
    ensures GoodSetting(EnvSetting(token).value)
  {
    var s := ShellGrammar.ReadIsSetting(token);
    ShellGrammar.SettingIsRead(s.(newline := false));
    assert s.name + "=" + s.value + "" == s.name + "=" + s.value;
  }

  lemma SetAlso(env: map<string, string>, settings: seq<(string, string)>, setting: (string, string))
    requires SetBy(env, settings) && GoodSetting(setting)
    ensures SetBy(env[setting.0 := setting.1], settings + [setting])
  {
    var more := settings + [setting];
    assert more[..|settings|] == settings && more[|settings|] == setting;
    assert Environment(more) == Environment(settings)[setting.0 := setting.1];
  }

  /** Items and operators that print to what has been read, but for the command at hand. */
  ghost predicate Stands(p: Parser, items: seq<Item>, ops: seq<Node>) {
    && |items| == |ops|
    && (forall k :: 0 <= k < |items| ==> Printable(items[k]) && Fits(items[k].node, ops[k]))
    && p.pipeline == NodesBefore(items, ops, |items|)
  }

  /** The command at hand has a printed form. */
  ghost predicate Written(node: Node) {
    exists settings :: Printable(Item(settings, node))
  }

  ghost predicate Settable(env: map<string, string>) {
    exists settings :: SetBy(env, settings)
  }

  ghost predicate Traced(p: Parser, items: seq<Item>, ops: seq<Node>) {
    && Sane(p) && Stands(p, items, ops) && Settable(p.env)
    && (p.current.Some? ==> Written(p.current.value))
    && (p.current.Some? && p.current.value.Cmd? ==> p.current.value.cmd.stdout != PipeOut)
  }

  lemma {:induction false} NodesBeforeMore(items: seq<Item>, ops: seq<Node>, item: Item, op: Node, n: nat)
    requires n <= |items| == |ops|
    ensures NodesBefore(items + [item], ops + [op], n) == NodesBefore(items, ops, n)
    decreases n
  {
    if n > 0 {
      NodesBeforeMore(items, ops, item, op, n - 1);
    }
  }

  lemma NodesBeforeSnoc(items: seq<Item>, ops: seq<Node>, item: Item, op: Node)
    requires |items| == |ops|
    ensures NodesBefore(items + [item], ops + [op], |items| + 1)
            == NodesBefore(items, ops, |items|) + [InFront(item.node, op)] + [op]
  {
    NodesBeforeMore(items, ops, item, op, |items|);
  }

  lemma StandsMore(p: Parser, items: seq<Item>, ops: seq<Node>, item: Item, op: Node)
    requires Stands(p, items, ops) && Printable(item) && Fits(item.node, op)
    ensures Stands(Parser(Begin, None, map[], p.pipeline + [InFront(item.node, op)] + [op]), items + [item], ops + [op])
  {
    NodesBeforeSnoc(items, ops, item, op);
  }

  /** The command at hand is committed with an operator. */
  lemma CommitTraced(p: Parser, items: seq<Item>, ops: seq<Node>, op: Node)
    returns (items': seq<Item>, ops': seq<Node>)
    requires Traced(p, items, ops) && p.current.Some? && p.env == map[] && Fits(p.current.value, op)
    ensures Traced(Parser(Begin, None, map[], p.pipeline + [InFront(p.current.value, op)] + [op]), items', ops')
  {
    var settings :| Printable(Item(settings, p.current.value));
    var item := Item(settings, p.current.value);
    items', ops' := items + [item], ops + [op];
    StandsMore(p, items, ops, item, op);
    assert SetBy(map[], []);
  }

  /** A change of the command at hand. */
  lemma CommandTraced(p: Parser, items: seq<Item>, ops: seq<Node>, mode: Mode, c: Command)
    requires Traced(p, items, ops) && p.current.Some? && p.current.value.Cmd? && p.env == map[]
    requires !mode.Begin? && !mode.InChdir?
    requires var was := p.current.value.cmd;
             && c.env == was.env && c.argv != [] && was.argv <= c.argv
             && (forall k :: |was.argv| <= k < |c.argv| ==> !IsSign(c.argv[k]))
             && (c.stdout.Inherit? || c.stdout.File?) && !c.stderr.PipeOut?
    ensures Traced(p.(mode := mode, current := Some(Cmd(c))), items, ops)
  {
    var settings :| Printable(Item(settings, p.current.value));
    assert Printable(Item(settings, Cmd(c)));
  }

  /** What a token does in front of a command. */
  lemma BeginTraced(p: Parser, items: seq<Item>, ops: seq<Node>, token: string)
    requires Traced(p, items, ops) && p.mode.Begin? && Feed(p, token).Ok?
    ensures Traced(Feed(p, token).value, items, ops)
  {
    var settings :| SetBy(p.env, settings);
    if EnvSetting(token).Some? {
      SettingIsGood(token);
      SetAlso(p.env, settings, EnvSetting(token).value);
    } else {
      assert SetBy(map[], []);
      if token == "cd" {
        assert Printable(Item([], Chdir(None)));
      } else {
        assert Printable(Item(settings, Cmd(Command([token], None, Inherit, Inherit, p.env))));
      }
    }
  }

  /** Every token keeps the trace. */
  lemma FeedTraced(p: Parser, items: seq<Item>, ops: seq<Node>, token: string)
    returns (items': seq<Item>, ops': seq<Node>)
    requires Traced(p, items, ops) && Feed(p, token).Ok?
    ensures Traced(Feed(p, token).value, items', ops')
  {
    items', ops' := items, ops;
    match p.mode
    case Begin => BeginTraced(p, items, ops, token);
    case InCommand =>
      var c := p.current.value.cmd;
      if token == ">" {
        CommandTraced(p, items, ops, Stdout, c);
      } else if token == "2>" {
        CommandTraced(p, items, ops, Stderr, c);
      } else if token == "2>&1" {
        CommandTraced(p, items, ops, InCommand, c.(stderr := ToStdout));
      } else if token == "<" {
        CommandTraced(p, items, ops, Stdin, c);
      } else if token == "|" {
        items', ops' := CommitTraced(p, items, ops, Pipe);
      } else if token == "&&" {
        items', ops' := CommitTraced(p, items, ops, And);
      } else if token == "||" {
        items', ops' := CommitTraced(p, items, ops, Or);
      } else {
        CommandTraced(p, items, ops, InCommand, c.(argv := c.argv + [token]));
      }
    case InChdir =>
      if token == "&&" {
        items', ops' := CommitTraced(p, items, ops, And);
      } else {
        assert Printable(Item([], Chdir(Some(token))));
      }
    case Stdout => CommandTraced(p, items, ops, InCommand, p.current.value.cmd.(stdout := File(token)));
    case Stderr => CommandTraced(p, items, ops, InCommand, p.current.value.cmd.(stderr := File(token)));
    case Stdin => CommandTraced(p, items, ops, InCommand, p.current.value.cmd.(stdin := Some(token)));
  }

  lemma {:induction false} FeedAllTraced(p: Parser, items: seq<Item>, ops: seq<Node>, tokens: seq<string>)
    returns (items': seq<Item>, ops': seq<Node>)
    requires Traced(p, items, ops) && FeedAll(p, tokens).Ok?
    ensures Traced(FeedAll(p, tokens).value, items', ops')
    decreases |tokens|
  {
    items', ops' := items, ops;
    if tokens != [] {
      items', ops' := FeedTraced(p, items, ops, tokens[0]);
      items', ops' := FeedAllTraced(Feed(p, tokens[0]).value, items', ops', tokens[1..]);
    }
  }

  /** Whatever parsing returns is the parse of printed items with operators that may follow them. */
  lemma ParsedIsPrinted(tokens: seq<string>) returns (items: seq<Item>, ops: seq<Node>)
    requires Parsed(tokens).Ok?
    ensures |items| == |ops| + 1
    ensures forall k :: 0 <= k < |items| ==> Printable(items[k])
    ensures forall k :: 0 <= k < |ops| ==> Fits(items[k].node, ops[k])
    ensures Parsed(tokens) == Ok(NodesBefore(items, ops, |ops|) + [items[|ops|].node])
    ensures Parsed(PrintAll(items, ops, |items|)) == Parsed(tokens)
  {
    assert SetBy(map[], []);
    assert Stands(START, [], []);
    items, ops := FeedAllTraced(START, [], [], tokens);
    var p := FeedAll(START, tokens).value;
    var settings :| Printable(Item(settings, p.current.value));
    var last := Item(settings, p.current.value);
    NodesBeforeLast(items, ops, last, |ops|);
    items := items + [last];
    ParsePrinted(items, ops);
  }

  lemma {:induction false} NodesBeforeLast(items: seq<Item>, ops: seq<Node>, last: Item, n: nat)
    requires n <= |items| == |ops|
    ensures NodesBefore(items + [last], ops, n) == NodesBefore(items, ops, n)
    decreases n
  {
    if n > 0 {
      NodesBeforeLast(items, ops, last, n - 1);
    }
  }
}
