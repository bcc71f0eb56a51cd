/** The language that the parser of waf-tools/shellcmd.py accepts, and what each sentence of it means. */
module ShellGrammar {
  import opened ShellCmd
  import opened Seqs
  import opened Wrappers

  // Sentences

  /** NAME=value; one newline may end the token. */
  datatype Setting = Setting(name: string, value: string, newline: bool)

  /** What may stand behind the name of a command, in any order. */
  datatype Part = Word(text: string) | In(file: string) | Out(file: string) | Err(file: string) | ErrIsOut

  datatype Clause = Call(settings: seq<Setting>, name: string, parts: seq<Part>) | Change(dir: Option<string>)

  /** Tokens taken apart: clauses with the operators behind them, then the clause at hand or the settings in front of
      it, and at last the sign of a redirection whose file is missing. */
  datatype Draft = Draft(clauses: seq<Clause>, ops: seq<string>, settings: seq<Setting>, current: Option<Clause>,
                         sign: Option<string>)

  function SettingToken(s: Setting): string {
    s.name + "=" + s.value + if s.newline then "\n" else ""
  }

  function SettingTokens(settings: seq<Setting>): seq<string> {
    if settings == [] then []
    else SettingTokens(settings[..|settings| - 1]) + [SettingToken(settings[|settings| - 1])]
  }

  function PartTokens(part: Part): seq<string> {
    match part
    case Word(text) => [text]
    case In(file) => ["<", file]
    case Out(file) => [">", file]
    case Err(file) => ["2>", file]
    case ErrIsOut => ["2>&1"]
  }

  function PartsTokens(parts: seq<Part>): seq<string> {
    if parts == [] then [] else PartsTokens(parts[..|parts| - 1]) + PartTokens(parts[|parts| - 1])
  }

  function ClauseTokens(c: Clause): seq<string> {
    match c
    case Call(settings, name, parts) => SettingTokens(settings) + [name] + PartsTokens(parts)
    case Change(dir) => if dir.Some? then ["cd", dir.value] else ["cd"]
  }

  function ClausesTokens(clauses: seq<Clause>, ops: seq<string>): seq<string>
    requires |clauses| == |ops|
  {
    if clauses == [] then []
    else
      var n := |clauses| - 1;
      ClausesTokens(clauses[..n], ops[..n]) + (ClauseTokens(clauses[n]) + [ops[n]])
  }

  function Tokens(d: Draft): seq<string>
    requires |d.clauses| == |d.ops|
  {
    ClausesTokens(d.clauses, d.ops)
        + (if d.current.Some? then ClauseTokens(d.current.value) else SettingTokens(d.settings))
    + if d.sign.Some? then [d.sign.value] else []
  }

  // The conditions

  predicate GoodSetting(s: Setting) {
    && s.name != "" && s.value != ""
    && (forall c :: c in s.name ==> 'a' <= c <= 'z' || 'A' <= c <= 'Z' || '0' <= c <= '9' || c == '_')
    && (forall c :: c in s.value ==> c != ' ' && !('\t' <= c <= '\r'))
  }

  ghost predicate IsSetting(token: string) {
    exists s :: GoodSetting(s) && token == SettingToken(s)
  }

  predicate GoodPart(part: Part) {
    part.Word? ==> part.text !in [">", "2>", "2>&1", "<", "|", "&&", "||"]
  }

  predicate ForErrors(part: Part) {
    part.Err? || part.ErrIsOut?
  }

  /** Each stream is redirected once at most. */
  predicate Compatible(a: Part, b: Part) {
    !(a.In? && b.In?) && !(a.Out? && b.Out?) && !(ForErrors(a) && ForErrors(b))
  }

  ghost predicate GoodParts(parts: seq<Part>) {
    && (forall i :: 0 <= i < |parts| ==> GoodPart(parts[i]))
    && (forall i, j :: 0 <= i < j < |parts| ==> Compatible(parts[i], parts[j]))
  }

  predicate GoodSettings(settings: seq<Setting>) {
    forall i :: 0 <= i < |settings| ==> GoodSetting(settings[i])
  }

  ghost predicate GoodClause(c: Clause) {
    match c
    case Call(settings, name, parts) => GoodSettings(settings) && !IsSetting(name) && name != "cd" && GoodParts(parts)
    case Change(dir) => dir != Some("&&")
  }

  /** The operator may follow the clause. */
  predicate MayFollow(c: Clause, op: string) {
    && op in ["|", "&&", "||"]
    && (c.Change? ==> op == "&&")
    && (c.Call? && op == "|" ==> forall i :: 0 <= i < |c.parts| ==> !c.parts[i].Out?)
  }

  ghost predicate Good(d: Draft) {
    && |d.clauses| == |d.ops|
    && (forall i :: 0 <= i < |d.clauses| ==> GoodClause(d.clauses[i]) && MayFollow(d.clauses[i], d.ops[i]))
    && GoodSettings(d.settings)
    && (d.current.Some? ==> d.settings == [] && GoodClause(d.current.value))
    && (d.sign.Some? ==> d.current.Some? && d.current.value.Call? && d.sign.value in [">", "2>", "<"])
  }

  /** The tokens are a sentence: clauses joined by operators, and perhaps a sign left over. */
  ghost predicate Sentence(d: Draft, tokens: seq<string>) {
    Good(d) && d.current.Some? && tokens == Tokens(d)
  }

  // The meaning

  function WordsOf(parts: seq<Part>): seq<string> {
    if parts == [] then []
    else
      var last := parts[|parts| - 1];
      WordsOf(parts[..|parts| - 1]) + if last.Word? then [last.text] else []
  }

  /** The setting is the last one of its name. */
  predicate LastOfName(settings: seq<Setting>, i: nat)
    requires i < |settings|
  {
    forall j :: i < j < |settings| ==> settings[j].name != settings[i].name
  }

  predicate Named(settings: seq<Setting>, name: string) {
    exists i :: 0 <= i < |settings| && settings[i].name == name
  }

  /** The environment has the names that are set, each with its last value. */
  ghost predicate SetAs(env: map<string, string>, settings: seq<Setting>) {
    && (forall name :: name in env <==> Named(settings, name))
    && (forall i :: 0 <= i < |settings| && LastOfName(settings, i) ==>
          settings[i].name in env && env[settings[i].name] == settings[i].value)
  }

  /** Every stream goes where its redirection says; the output goes into the pipe if one follows. */
  ghost predicate Redirected(c: Command, parts: seq<Part>, op: string) {
    && (forall f :: c.stdin == Some(f) <==> In(f) in parts)
    && (forall f :: c.stdout == File(f) <==> Out(f) in parts)
    && (c.stdout == PipeOut <==> op == "|") && c.stdout != ToStdout
    && (forall f :: c.stderr == File(f) <==> Err(f) in parts)
    && (c.stderr == ToStdout <==> ErrIsOut in parts) && c.stderr != PipeOut
  }

  ghost predicate Means(node: Node, c: Clause, op: string) {
    match c
    case Call(settings, name, parts) =>
      && node.Cmd? && node.cmd.argv == [name] + WordsOf(parts) && SetAs(node.cmd.env, settings)
      && Redirected(node.cmd, parts, op)
    case Change(dir) => node == Chdir(dir)
  }

  ghost predicate OpMeans(node: Node, op: string) {
    (op == "|" ==> node == Pipe) && (op == "&&" ==> node == And) && (op == "||" ==> node == Or)
  }

  /** Nodes 2 i and 2 i + 1 are clause i and the operator behind it. */
  ghost predicate AllMean(nodes: seq<Node>, clauses: seq<Clause>, ops: seq<string>)
    requires |clauses| == |ops|
  {
    && |nodes| == 2 * |clauses|
    && forall i :: 0 <= i < |clauses| ==> Means(nodes[2 * i], clauses[i], ops[i]) && OpMeans(nodes[2 * i + 1], ops[i])
  }

  /** The nodes are what the sentence says. */
  ghost predicate Says(d: Draft, nodes: seq<Node>)
    requires |d.clauses| == |d.ops| && d.current.Some?
  {
    && nodes != [] && AllMean(nodes[..|nodes| - 1], d.clauses, d.ops)
    && Means(nodes[|nodes| - 1], d.current.value, "")
  }

  // The parser's state

  function ModeOf(d: Draft): Mode {
    if d.current.None? then Begin
    else if d.current.value.Change? then InChdir
    else if d.sign == Some(">") then Stdout
    else if d.sign == Some("2>") then Stderr
    else if d.sign == Some("<") then Stdin
    else InCommand
  }

  /** The parser has read the draft. */
  ghost predicate At(p: Parser, d: Draft)
    requires |d.clauses| == |d.ops|
  {
    && Sane(p) && p.mode == ModeOf(d) && AllMean(p.pipeline, d.clauses, d.ops)
    && (d.current.None? ==> SetAs(p.env, d.settings))
    && (d.current.Some? ==> p.current.Some? && Means(p.current.value, d.current.value, ""))
  }

  // Settings

  lemma {:induction false} WordsFirst(name: string, rest: string)
    requires forall c :: c in name ==> IsWord(c)
    requires rest == "" || !IsWord(rest[0])
    ensures WordLength(name + rest) == |name|
    decreases |name|
  {
    if name == "" {
      assert name + rest == rest;
    } else {
      WordsFirst(name[1..], rest);
      assert (name + rest)[1..] == name[1..] + rest;
    }
  }

  lemma SettingParts(s: Setting, end: string)
    requires end == if s.newline then "\n" else ""
    ensures var n := |s.name|; var token := SettingToken(s);
            && |token| > n && token[..n] == s.name && token[n] == '=' && token[n + 1..] == s.value + end
            && token == s.name + ("=" + s.value + end)
  {
  }

  /** The value without the newline that may end it. */
  function Trimmed(rest: string): string {
    if rest != "" && rest[|rest| - 1] == '\n' then rest[..|rest| - 1] else rest
  }

  lemma TrimmedValue(value: string, newline: bool)
    requires value != "" && forall c :: c in value ==> c != ' ' && !('\t' <= c <= '\r')
    ensures Trimmed(value + if newline then "\n" else "") == value && NoSpace(value)
  {
    assert forall i :: 0 <= i < |value| ==> value[i] in value;
    if newline {
      assert (value + "\n")[..|value|] == value;
    } else {
      assert value + "" == value;
    }
  }

  lemma EnvParts(token: string)
    ensures var n := WordLength(token);
            EnvSetting(token)
            == if 0 < n < |token| && token[n] == '=' && Trimmed(token[n + 1..]) != ""
               && NoSpace(Trimmed(token[n + 1..]))
               then Some((token[..n], Trimmed(token[n + 1..]))) else None
  {
  }

  lemma SettingIsRead(s: Setting)
    requires GoodSetting(s)
    ensures EnvSetting(SettingToken(s)) == Some((s.name, s.value))
  {
    var end := if s.newline then "\n" else "";
    SettingParts(s, end);
    TrimmedValue(s.value, s.newline);
    assert ("=" + s.value + end)[0] == '=';
    WordsFirst(s.name, "=" + s.value + end);
    EnvParts(SettingToken(s));
  }

  lemma {:induction false} WordsAre(s: string)
    ensures forall i :: 0 <= i < WordLength(s) ==> IsWord(s[i])
  {
    if s != "" && IsWord(s[0]) {
      WordsAre(s[1..]);
      forall i | 0 <= i < WordLength(s)
        ensures IsWord(s[i])
      {
        assert i > 0 ==> s[i] == s[1..][i - 1];
      }
    }
  }

  lemma TrimmedBack(rest: string)
    ensures rest == Trimmed(rest) + if rest != Trimmed(rest) then "\n" else ""
  {
  }

  lemma TokenParts(token: string, n: nat)
    requires n < |token| && token[n] == '='
    ensures token == token[..n] + "=" + token[n + 1..]
  {
  }

  lemma ReadIsGood(token: string, s: Setting)
    requires EnvSetting(token) == Some((s.name, s.value))
    ensures GoodSetting(s)
  {
    WordsAre(token);
    EnvParts(token);
    assert forall c :: c in s.value ==> !IsSpace(c);
    assert forall c :: c in s.name ==> IsWord(c);
  }

  lemma ReadIsSetting(token: string) returns (s: Setting)
    requires EnvSetting(token).Some?
    ensures GoodSetting(s) && token == SettingToken(s) && EnvSetting(token) == Some((s.name, s.value))
  {
    var n := WordLength(token);
    EnvParts(token);
    var rest := token[n + 1..];
    s := Setting(token[..n], Trimmed(rest), rest != Trimmed(rest));
    ReadIsGood(token, s);
    TrimmedBack(rest);
    TokenParts(token, n);
    ConcatAssociative(s.name + "=", s.value, if s.newline then "\n" else "");
  }

  lemma SettingIff(token: string)
    ensures EnvSetting(token).Some? <==> IsSetting(token)
  {
    if EnvSetting(token).Some? {
      var s := ReadIsSetting(token);
    }
    if IsSetting(token) {
      var s :| GoodSetting(s) && token == SettingToken(s);
      SettingIsRead(s);
    }
  }

  lemma SetOneMore(env: map<string, string>, settings: seq<Setting>, s: Setting)
    requires SetAs(env, settings)
    ensures SetAs(env[s.name := s.value], settings + [s])
  {
    var more, n := settings + [s], |settings|;
    forall name
      ensures Named(more, name) <==> name == s.name || Named(settings, name)
    {
      assert more[n].name == s.name;
      if Named(settings, name) {
        var i :| 0 <= i < n && settings[i].name == name;
        assert more[i].name == name;
      }
    }
    forall i | 0 <= i < |more| && LastOfName(more, i)
      ensures more[i].name in env[s.name := s.value] && env[s.name := s.value][more[i].name] == more[i].value
    {
      if i < n {
        assert more[n].name != more[i].name;
        assert forall j :: i < j < n ==> settings[j].name == more[j].name;
        assert LastOfName(settings, i);
      }
    }
  }

  // One token more

  lemma AddSetting(p: Parser, d: Draft, s: Setting)
    requires Good(d) && At(p, d) && d.current.None? && GoodSetting(s)
    ensures var d' := d.(settings := d.settings + [s]);
            && Good(d') && Feed(p, SettingToken(s)).Ok? && At(Feed(p, SettingToken(s)).value, d')
            && Tokens(d') == Tokens(d) + [SettingToken(s)]
  {
    SettingIsRead(s);
    SetOneMore(p.env, d.settings, s);
    assert (d.settings + [s])[..|d.settings|] == d.settings;
    assert Tokens(d) == ClausesTokens(d.clauses, d.ops) + SettingTokens(d.settings);
    ConcatAssociative(ClausesTokens(d.clauses, d.ops), SettingTokens(d.settings), [SettingToken(s)]);
  }

  lemma NameTokens(d: Draft, name: string)
    requires |d.clauses| == |d.ops| && d.current.None? && d.sign.None?
    ensures Tokens(d.(settings := [], current := Some(Call(d.settings, name, [])))) == Tokens(d) + [name]
  {
    assert ClauseTokens(Call(d.settings, name, [])) == SettingTokens(d.settings) + [name];
    ConcatAssociative(ClausesTokens(d.clauses, d.ops), SettingTokens(d.settings), [name]);
  }

  lemma NameMeans(name: string, env: map<string, string>, settings: seq<Setting>)
    requires SetAs(env, settings)
    ensures Means(Cmd(Command([name], None, Inherit, Inherit, env)), Call(settings, name, []), "")
  {
    assert [name] + WordsOf([]) == [name];
  }

  lemma AddName(p: Parser, d: Draft, name: string)
    requires Good(d) && At(p, d) && d.current.None? && !IsSetting(name) && name != "cd"
    ensures var d' := d.(settings := [], current := Some(Call(d.settings, name, [])));
            && Good(d') && Feed(p, name).Ok? && At(Feed(p, name).value, d') && Tokens(d') == Tokens(d) + [name]
  {
    SettingIff(name);
    NameMeans(name, p.env, d.settings);
    NameTokens(d, name);
  }

  lemma AddChange(p: Parser, d: Draft)
    requires Good(d) && At(p, d) && d.current.None?
    ensures Feed(p, "cd").Ok? <==> d.settings == []
    ensures var d' := d.(current := Some(Change(None)));
            d.settings == [] ==>
              Good(d') && At(Feed(p, "cd").value, d') && Tokens(d') == Tokens(d) + ["cd"]
  {
    NotASetting();
    if d.settings != [] {
      assert Named(d.settings, d.settings[0].name);
    } else {
      assert p.env == map[] by {
        assert forall name :: name !in p.env;
      }
    }
  }

  lemma NotASetting()
    ensures EnvSetting("cd").None?
  {
    assert "cd"[1..] == "d" && "d"[1..] == "";
    assert WordLength("cd") == 2;
  }

  lemma AddDir(p: Parser, d: Draft, dir: string)
    requires Good(d) && At(p, d) && d.current.Some? && d.current.value.Change? && dir != "&&"
    ensures Feed(p, dir).Ok? <==> d.current.value.dir.None?
    ensures var d' := d.(current := Some(Change(Some(dir))));
            d.current.value.dir.None? ==>
              Good(d') && At(Feed(p, dir).value, d') && Tokens(d') == Tokens(d) + [dir]
  {
    assert ["cd"] + [dir] == ["cd", dir];
    ConcatAssociative(ClausesTokens(d.clauses, d.ops), ["cd"], [dir]);
  }

  /** The draft with a part added to the call at hand. */
  function WithPart(d: Draft, part: Part): Draft
    requires d.current.Some? && d.current.value.Call?
  {
    d.(current := Some(d.current.value.(parts := d.current.value.parts + [part])), sign := None)
  }

  /** No part of the call redirects what this one redirects. */
  predicate Free(parts: seq<Part>, part: Part) {
    forall i :: 0 <= i < |parts| ==> Compatible(parts[i], part)
  }

  lemma PartIsGood(d: Draft, part: Part)
    requires Good(d) && d.current.Some? && d.current.value.Call? && GoodPart(part)
    ensures Free(d.current.value.parts, part) ==> Good(WithPart(d, part))
    ensures Tokens(WithPart(d, part)) == Tokens(d.(sign := None)) + PartTokens(part)
  {
    var call := d.current.value;
    var parts, front := call.parts + [part], SettingTokens(call.settings) + [call.name];
    assert parts[..|call.parts|] == call.parts;
    ConcatAssociative(front, PartsTokens(call.parts), PartTokens(part));
    ConcatAssociative(ClausesTokens(d.clauses, d.ops), front + PartsTokens(call.parts), PartTokens(part));
  }

  lemma WordsMore(name: string, parts: seq<Part>, part: Part)
    ensures [name] + WordsOf(parts + [part]) == [name] + WordsOf(parts) + if part.Word? then [part.text] else []
  {
    assert (parts + [part])[..|parts|] == parts;
  }

  /** The command with one part more. */
  function Changed(c: Command, part: Part): Command {
    match part
    case Word(text) => c.(argv := c.argv + [text])
    case In(file) => c.(stdin := Some(file))
    case Out(file) => c.(stdout := File(file))
    case Err(file) => c.(stderr := File(file))
    case ErrIsOut => c.(stderr := ToStdout)
  }

  /** A stream is free exactly when nothing has been set for it. */
  lemma FreeMeans(c: Command, parts: seq<Part>, part: Part)
    requires Redirected(c, parts, "")
    ensures Free(parts, part) <==> match part
                                   case Word(_) => true
                                   case In(_) => c.stdin.None?
                                   case Out(_) => c.stdout.Inherit?
                                   case _ => c.stderr.Inherit?
  {
    forall i | 0 <= i < |parts|
      ensures parts[i].In? ==> c.stdin.Some?
      ensures parts[i].Out? ==> !c.stdout.Inherit?
      ensures ForErrors(parts[i]) ==> !c.stderr.Inherit?
    {
      assert parts[i] in parts;
    }
    assert c.stdin.Some? ==> In(c.stdin.value) in parts;
    assert c.stdout.File? ==> Out(c.stdout.name) in parts;
    assert c.stderr.File? ==> Err(c.stderr.name) in parts;
  }

  lemma PartMeans(c: Command, parts: seq<Part>, part: Part)
    requires Redirected(c, parts, "") && Free(parts, part)
    ensures Redirected(Changed(c, part), parts + [part], "")
  {
    FreeMeans(c, parts, part);
    assert forall q :: q in parts + [part] <==> q in parts || q == part;
  }

  lemma CallMeans(c: Command, call: Clause, part: Part)
    requires call.Call? && Means(Cmd(c), call, "") && Free(call.parts, part)
    ensures Means(Cmd(Changed(c, part)), call.(parts := call.parts + [part]), "")
  {
    PartMeans(c, call.parts, part);
    WordsMore(call.name, call.parts, part);
  }

  /** A part that is read changes the command accordingly. */
  lemma PartIsRead(p: Parser, d: Draft, part: Part, r: Result<Parser>)
    requires |d.clauses| == |d.ops| && At(p, d) && d.current.Some? && d.current.value.Call?
    requires Free(d.current.value.parts, part)
    requires r == Ok(WithCommand(p, InCommand, Changed(p.current.value.cmd, part)))
    ensures At(r.value, WithPart(d, part))
  {
    CallMeans(p.current.value.cmd, d.current.value, part);
  }

  lemma FeedShort(p: Parser, c: Command, part: Part)
    requires Sane(p) && p.mode.InCommand? && p.current == Some(Cmd(c)) && GoodPart(part)
    requires part.Word? || part.ErrIsOut?
    ensures Feed(p, PartTokens(part)[0])
            == if part.Word? || c.stderr.Inherit? then Ok(WithCommand(p, InCommand, Changed(c, part)))
               else AssertionError
  {
  }

  /** A part of one token. */
  lemma AddShortPart(p: Parser, d: Draft, part: Part)
    requires Good(d) && At(p, d) && d.current.Some? && d.current.value.Call? && d.sign.None? && GoodPart(part)
    requires part.Word? || part.ErrIsOut?
    ensures Feed(p, PartTokens(part)[0]).Ok? <==> Free(d.current.value.parts, part)
    ensures Free(d.current.value.parts, part) ==>
              && Good(WithPart(d, part)) && At(Feed(p, PartTokens(part)[0]).value, WithPart(d, part))
              && Tokens(WithPart(d, part)) == Tokens(d) + PartTokens(part)
  {
    FreeMeans(p.current.value.cmd, d.current.value.parts, part);
    FeedShort(p, p.current.value.cmd, part);
    PartIsGood(d, part);
    assert d.(sign := None) == d;
    if Free(d.current.value.parts, part) {
      PartIsRead(p, d, part, Feed(p, PartTokens(part)[0]));
    }
  }

  lemma AddSign(p: Parser, d: Draft, sign: string)
    requires Good(d) && At(p, d) && d.current.Some? && d.current.value.Call? && d.sign.None?
    requires sign in [">", "2>", "<"]
    ensures var d' := d.(sign := Some(sign));
            Good(d') && Feed(p, sign).Ok? && At(Feed(p, sign).value, d') && Tokens(d') == Tokens(d) + [sign]
  {
  }

  function FilePart(sign: string, file: string): Part {
    if sign == ">" then Out(file) else if sign == "2>" then Err(file) else In(file)
  }

  lemma FeedFile(p: Parser, c: Command, sign: string, file: string)
    requires Sane(p) && p.current == Some(Cmd(c)) && sign in [">", "2>", "<"]
    requires p.mode == if sign == ">" then Stdout else if sign == "2>" then Stderr else Stdin
    ensures Feed(p, file)
            == if (if sign == ">" then c.stdout.Inherit? else if sign == "2>" then c.stderr.Inherit? else c.stdin.None?)
               then Ok(WithCommand(p, InCommand, Changed(c, FilePart(sign, file)))) else AssertionError
  {
  }

  lemma FileTokens(d: Draft, file: string)
    requires Good(d) && d.sign.Some?
    ensures Tokens(WithPart(d, FilePart(d.sign.value, file))) == Tokens(d) + [file]
  {
    var part := FilePart(d.sign.value, file);
    PartIsGood(d, part);
    assert PartTokens(part) == [d.sign.value] + [file];
    ConcatAssociative(Tokens(d.(sign := None)), [d.sign.value], [file]);
    assert Tokens(d.(sign := None)) + [d.sign.value] == Tokens(d);
  }

  lemma FileIsFed(p: Parser, d: Draft, file: string)
    requires |d.clauses| == |d.ops| && At(p, d) && d.sign.Some? && d.sign.value in [">", "2>", "<"]
    requires d.current.Some? && d.current.value.Call?
    ensures var part := FilePart(d.sign.value, file);
            Feed(p, file) == if Free(d.current.value.parts, part)
                             then Ok(WithCommand(p, InCommand, Changed(p.current.value.cmd, part))) else AssertionError
  {
    FreeMeans(p.current.value.cmd, d.current.value.parts, FilePart(d.sign.value, file));
    FeedFile(p, p.current.value.cmd, d.sign.value, file);
  }

  /** The file behind a sign. */
  lemma AddFile(p: Parser, d: Draft, file: string)
    requires Good(d) && At(p, d) && d.sign.Some?
    ensures var part := FilePart(d.sign.value, file);
            && (Feed(p, file).Ok? <==> Free(d.current.value.parts, part))
            && (Free(d.current.value.parts, part) ==>
                  && Good(WithPart(d, part)) && At(Feed(p, file).value, WithPart(d, part))
                  && Tokens(WithPart(d, part)) == Tokens(d) + [file])
  {
    var part := FilePart(d.sign.value, file);
    FileIsFed(p, d, file);
    FileTokens(d, file);
    if Free(d.current.value.parts, part) {
      PartIsGood(d, part);
      PartIsRead(p, d, part, Feed(p, file));
    }
  }

  function WithOp(d: Draft, op: string): Draft
    requires d.current.Some?
  {
    Draft(d.clauses + [d.current.value], d.ops + [op], [], None, None)
  }

  lemma AllMeanMore(nodes: seq<Node>, clauses: seq<Clause>, ops: seq<string>, node: Node, c: Clause, opNode: Node,
                    op: string)
    requires |clauses| == |ops| && AllMean(nodes, clauses, ops) && Means(node, c, op) && OpMeans(opNode, op)
    ensures AllMean(nodes + [node] + [opNode], clauses + [c], ops + [op])
  {
    var more := nodes + [node] + [opNode];
    forall i | 0 <= i <= |clauses|
      ensures Means(more[2 * i], (clauses + [c])[i], (ops + [op])[i]) && OpMeans(more[2 * i + 1], (ops + [op])[i])
    {
      if i < |clauses| {
        assert more[2 * i] == nodes[2 * i] && more[2 * i + 1] == nodes[2 * i + 1];
      }
    }
  }

  lemma OpTokens(d: Draft, op: string)
    requires |d.clauses| == |d.ops| && d.current.Some? && d.sign.None?
    ensures Tokens(WithOp(d, op)) == Tokens(d) + [op]
  {
    var d' := WithOp(d, op);
    assert d'.clauses[..|d.clauses|] == d.clauses && d'.ops[..|d.ops|] == d.ops;
    ConcatAssociative(ClausesTokens(d.clauses, d.ops), ClauseTokens(d.current.value), [op]);
  }

  /** The node as an operator commits it. */
  function Committed(node: Node, op: string): Node {
    if op == "|" && node.Cmd? then Cmd(node.cmd.(stdout := PipeOut)) else node
  }

  lemma CommittedMeans(node: Node, c: Clause, op: string)
    requires Means(node, c, "") && MayFollow(c, op)
    ensures Means(Committed(node, op), c, op)
  {
    if op == "|" {
      forall f
        ensures Out(f) !in c.parts
      {
      }
    }
  }

  function OpNode(op: string): Node {
    if op == "|" then Pipe else if op == "&&" then And else Or
  }

  lemma FeedOp(p: Parser, op: string)
    requires Sane(p) && p.current.Some? && op in ["|", "&&", "||"]
    requires p.mode.InCommand? || (p.mode.InChdir? && op == "&&")
    ensures Feed(p, op)
            == if op == "|" && !p.current.value.cmd.stdout.Inherit? then AssertionError
               else Ok(Parser(Begin, None, map[], p.pipeline + [Committed(p.current.value, op)] + [OpNode(op)]))
  {
  }

  lemma OpIsGood(d: Draft, op: string)
    requires Good(d) && d.current.Some? && MayFollow(d.current.value, op)
    ensures Good(WithOp(d, op))
  {
  }

  lemma OpIsFree(c: Command, call: Clause, op: string)
    requires call.Call? && Redirected(c, call.parts, "") && op in ["|", "&&", "||"]
    ensures MayFollow(call, op) <==> op != "|" || c.stdout.Inherit?
  {
    FreeMeans(c, call.parts, Out(""));
  }

  lemma OpIsAt(p: Parser, d: Draft, op: string, r: Parser)
    requires |d.clauses| == |d.ops| && At(p, d) && d.current.Some? && MayFollow(d.current.value, op)
    requires r == Parser(Begin, None, map[], p.pipeline + [Committed(p.current.value, op)] + [OpNode(op)])
    ensures At(r, WithOp(d, op))
  {
    CommittedMeans(p.current.value, d.current.value, op);
    AllMeanMore(p.pipeline, d.clauses, d.ops, Committed(p.current.value, op), d.current.value, OpNode(op), op);
  }

  lemma OpIsFed(p: Parser, d: Draft, op: string)
    requires |d.clauses| == |d.ops| && At(p, d) && d.current.Some? && d.sign.None? && op in ["|", "&&", "||"]
    requires d.current.value.Change? ==> op == "&&"
    ensures Feed(p, op)
            == if MayFollow(d.current.value, op)
               then Ok(Parser(Begin, None, map[], p.pipeline + [Committed(p.current.value, op)] + [OpNode(op)]))
               else AssertionError
  {
    FeedOp(p, op);
    if d.current.value.Call? {
      OpIsFree(p.current.value.cmd, d.current.value, op);
    }
  }

  lemma AddOp(p: Parser, d: Draft, op: string)
    requires Good(d) && At(p, d) && d.current.Some? && d.sign.None? && op in ["|", "&&", "||"]
    requires d.current.value.Change? ==> op == "&&"
    ensures Feed(p, op).Ok? <==> MayFollow(d.current.value, op)
    ensures MayFollow(d.current.value, op) ==>
              && Good(WithOp(d, op)) && At(Feed(p, op).value, WithOp(d, op))
              && Tokens(WithOp(d, op)) == Tokens(d) + [op]
  {
    OpTokens(d, op);
    OpIsFed(p, d, op);
    if MayFollow(d.current.value, op) {
      OpIsGood(d, op);
      OpIsAt(p, d, op, Feed(p, op).value);
    }
  }

  // Whatever is read is a draft

  lemma BeginMore(p: Parser, d: Draft, token: string) returns (d': Draft)
    requires Good(d) && At(p, d) && d.current.None? && Feed(p, token).Ok?
    ensures Good(d') && At(Feed(p, token).value, d') && Tokens(d') == Tokens(d) + [token]
  {
    if IsSetting(token) {
      var s :| GoodSetting(s) && token == SettingToken(s);
      AddSetting(p, d, s);
      d' := d.(settings := d.settings + [s]);
    } else if token == "cd" {
      AddChange(p, d);
      d' := d.(current := Some(Change(None)));
    } else {
      AddName(p, d, token);
      d' := d.(settings := [], current := Some(Call(d.settings, token, [])));
    }
  }

  lemma PartMore(p: Parser, d: Draft, token: string) returns (d': Draft)
    requires Good(d) && At(p, d) && d.current.Some? && d.current.value.Call? && d.sign.None? && Feed(p, token).Ok?
    requires token !in [">", "2>", "<", "|", "&&", "||"]
    ensures Good(d') && At(Feed(p, token).value, d') && Tokens(d') == Tokens(d) + [token]
  {
    var part := if token == "2>&1" then ErrIsOut else Word(token);
    assert PartTokens(part) == [token];
    AddShortPart(p, d, part);
    d' := WithPart(d, part);
  }

  lemma CallMore(p: Parser, d: Draft, token: string) returns (d': Draft)
    requires Good(d) && At(p, d) && d.current.Some? && d.current.value.Call? && d.sign.None? && Feed(p, token).Ok?
    ensures Good(d') && At(Feed(p, token).value, d') && Tokens(d') == Tokens(d) + [token]
  {
    if token in ["|", "&&", "||"] {
      AddOp(p, d, token);
      d' := WithOp(d, token);
    } else if token in [">", "2>", "<"] {
      AddSign(p, d, token);
      d' := d.(sign := Some(token));
    } else {
      d' := PartMore(p, d, token);
    }
  }

  lemma ReadMore(p: Parser, d: Draft, token: string) returns (d': Draft)
    requires Good(d) && At(p, d) && Feed(p, token).Ok?
    ensures Good(d') && At(Feed(p, token).value, d') && Tokens(d') == Tokens(d) + [token]
  {
    if d.current.None? {
      d' := BeginMore(p, d, token);
    } else if d.sign.Some? {
      AddFile(p, d, token);
      d' := WithPart(d, FilePart(d.sign.value, token));
    } else if d.current.value.Call? {
      d' := CallMore(p, d, token);
    } else if token == "&&" {
      AddOp(p, d, token);
      d' := WithOp(d, token);
    } else {
      AddDir(p, d, token);
      d' := d.(current := Some(Change(Some(token))));
    }
  }

  const NOTHING := Draft([], [], [], None, None)

  lemma StartsAt()
    ensures Good(NOTHING) && At(START, NOTHING) && Tokens(NOTHING) == []
  {
  }

  lemma FeedSnoc(tokens: seq<string>, token: string)
    requires FeedAll(START, tokens).Ok?
    ensures FeedAll(START, tokens + [token]) == Feed(FeedAll(START, tokens).value, token)
  {
    FeedAllConcat(START, tokens, [token]);
    FeedOne(FeedAll(START, tokens).value, token);
  }

  lemma FeedPrefix(tokens: seq<string>)
    requires tokens != [] && FeedAll(START, tokens).Ok?
    ensures FeedAll(START, tokens[..|tokens| - 1]).Ok?
  {
    FeedAllConcat(START, tokens[..|tokens| - 1], [tokens[|tokens| - 1]]);
    PrefixStep(tokens, |tokens| - 1);
    PrefixStep(tokens, |tokens|);
  }

  lemma {:induction false} ReadIsDraft(tokens: seq<string>) returns (d: Draft)
    requires FeedAll(START, tokens).Ok?
    ensures Good(d) && At(FeedAll(START, tokens).value, d) && Tokens(d) == tokens
    decreases |tokens|
  {
    if tokens == [] {
      StartsAt();
      d := NOTHING;
    } else {
      var n := |tokens| - 1;
      FeedPrefix(tokens);
      d := ReadIsDraft(tokens[..n]);
      PrefixStep(tokens, n);
      PrefixStep(tokens, n + 1);
      FeedSnoc(tokens[..n], tokens[n]);
      d := ReadMore(FeedAll(START, tokens[..n]).value, d, tokens[n]);
    }
  }

  // Every draft is read

  ghost predicate IsRead(d: Draft)
    requires |d.clauses| == |d.ops|
  {
    FeedAll(START, Tokens(d)).Ok? && At(FeedAll(START, Tokens(d)).value, d)
  }

  /** The draft without its last token. */
  function Shorter(d: Draft): Draft
    requires |d.clauses| == |d.ops|
  {
    if d.sign.Some? then d.(sign := None)
    else if d.current.Some? then
      match d.current.value
      case Change(dir) => if dir.Some? then d.(current := Some(Change(None))) else d.(current := None)
      case Call(settings, name, parts) =>
        if parts == [] then d.(settings := settings, current := None)
        else
          var before := Some(Call(settings, name, parts[..|parts| - 1]));
          (match parts[|parts| - 1]
           case In(_) => d.(current := before, sign := Some("<"))
           case Out(_) => d.(current := before, sign := Some(">"))
           case Err(_) => d.(current := before, sign := Some("2>"))
           case _ => d.(current := before))
    else if d.settings != [] then d.(settings := d.settings[..|d.settings| - 1])
    else if d.clauses != [] then
      var n := |d.clauses| - 1;
      Draft(d.clauses[..n], d.ops[..n], [], Some(d.clauses[n]), None)
    else d
  }

  lemma ShorterIsGood(d: Draft)
    requires Good(d)
    ensures Good(Shorter(d))
  {
  }

  lemma ReadAgain(d: Draft, before: Draft, token: string)
    requires |before.clauses| == |before.ops| && |d.clauses| == |d.ops| && IsRead(before)
    requires var p := FeedAll(START, Tokens(before)).value;
             Tokens(d) == Tokens(before) + [token] && Feed(p, token).Ok? && At(Feed(p, token).value, d)
    ensures IsRead(d)
  {
    FeedSnoc(Tokens(before), token);
  }

  lemma NameIsAdded(d: Draft, before: Draft, name: string)
    requires Good(before) && IsRead(before) && before.current.None? && !IsSetting(name) && name != "cd"
    requires d == before.(settings := [], current := Some(Call(before.settings, name, [])))
    ensures IsRead(d)
  {
    AddName(FeedAll(START, Tokens(before)).value, before, name);
    ReadAgain(d, before, name);
  }

  lemma CallIsRead(d: Draft)
    requires Good(d) && d.current.Some? && d.current.value.Call? && d.sign.None? && IsRead(Shorter(d))
    ensures IsRead(d)
  {
    if d.current.value.parts == [] {
      ShorterIsGood(d);
      NameIsAdded(d, Shorter(d), d.current.value.name);
    } else {
      PartIsAdded(d);
    }
  }

  lemma LastIsFree(parts: seq<Part>)
    requires GoodParts(parts) && parts != []
    ensures Free(parts[..|parts| - 1], parts[|parts| - 1]) && GoodPart(parts[|parts| - 1])
    ensures parts[..|parts| - 1] + [parts[|parts| - 1]] == parts
  {
  }

  lemma ShortIsAdded(d: Draft, before: Draft, part: Part)
    requires Good(d) && Good(before) && IsRead(before)
    requires before.current.Some? && before.current.value.Call? && before.sign.None? && d == WithPart(before, part)
    requires (part.Word? || part.ErrIsOut?) && GoodPart(part) && Free(before.current.value.parts, part)
    ensures IsRead(d)
  {
    var p, token := FeedAll(START, Tokens(before)).value, PartTokens(part)[0];
    assert PartTokens(part) == [token];
    AddShortPart(p, before, part);
    assert Feed(p, token).Ok? && At(Feed(p, token).value, d);
    ReadAgain(d, before, token);
  }

  lemma FileIsAdded(d: Draft, before: Draft, file: string)
    requires Good(d) && Good(before) && IsRead(before) && before.sign.Some?
    requires d == WithPart(before, FilePart(before.sign.value, file))
    requires Free(before.current.value.parts, FilePart(before.sign.value, file))
    ensures IsRead(d)
  {
    AddFile(FeedAll(START, Tokens(before)).value, before, file);
    ReadAgain(d, before, file);
  }

  lemma ShorterCall(d: Draft)
    requires Good(d) && d.current.Some? && d.current.value.Call? && d.sign.None? && d.current.value.parts != []
    ensures var part := d.current.value.parts[|d.current.value.parts| - 1]; var before := Shorter(d);
            && before.current.Some? && before.current.value.Call? && d == WithPart(before, part)
            && Free(before.current.value.parts, part) && GoodPart(part)
            && if part.Word? || part.ErrIsOut? then before.sign.None?
               else before.sign.Some? && part == FilePart(before.sign.value, part.file)
  {
    LastIsFree(d.current.value.parts);
  }

  lemma PartIsAdded(d: Draft)
    requires Good(d) && d.current.Some? && d.current.value.Call? && d.sign.None? && d.current.value.parts != []
    requires IsRead(Shorter(d))
    ensures IsRead(d)
  {
    var part := d.current.value.parts[|d.current.value.parts| - 1];
    ShorterIsGood(d);
    ShorterCall(d);
    if part.Word? || part.ErrIsOut? {
      ShortIsAdded(d, Shorter(d), part);
    } else {
      FileIsAdded(d, Shorter(d), part.file);
    }
  }

  lemma ChangeIsRead(d: Draft)
    requires Good(d) && d.current.Some? && d.current.value.Change? && IsRead(Shorter(d))
    ensures IsRead(d)
  {
    var before := Shorter(d);
    var p := FeedAll(START, Tokens(before)).value;
    ShorterIsGood(d);
    if d.current.value.dir.Some? {
      AddDir(p, before, d.current.value.dir.value);
      ReadAgain(d, before, d.current.value.dir.value);
    } else {
      AddChange(p, before);
      ReadAgain(d, before, "cd");
    }
  }

  lemma SettingIsAdded(d: Draft, before: Draft, s: Setting)
    requires Good(d) && Good(before) && IsRead(before) && before.current.None? && GoodSetting(s)
    requires d == before.(settings := before.settings + [s])
    ensures IsRead(d)
  {
    AddSetting(FeedAll(START, Tokens(before)).value, before, s);
    ReadAgain(d, before, SettingToken(s));
  }

  lemma OpIsAdded(d: Draft, before: Draft, op: string)
    requires Good(d) && Good(before) && IsRead(before) && before.current.Some? && before.sign.None?
    requires d == WithOp(before, op) && MayFollow(before.current.value, op)
    ensures IsRead(d)
  {
    AddOp(FeedAll(START, Tokens(before)).value, before, op);
    ReadAgain(d, before, op);
  }

  lemma BeginIsRead(d: Draft)
    requires Good(d) && d.current.None? && d != NOTHING && IsRead(Shorter(d))
    ensures IsRead(d)
  {
    ShorterIsGood(d);
    if d.settings != [] {
      PrefixStep(d.settings, |d.settings| - 1);
      PrefixStep(d.settings, |d.settings|);
      SettingIsAdded(d, Shorter(d), d.settings[|d.settings| - 1]);
    } else {
      var n := |d.clauses| - 1;
      PrefixStep(d.clauses, n);
      PrefixStep(d.clauses, n + 1);
      PrefixStep(d.ops, n);
      PrefixStep(d.ops, n + 1);
      OpIsAdded(d, Shorter(d), d.ops[n]);
    }
  }

  /** The number of parts at hand, with the directory of a change counted as one. */
  function PartCount(d: Draft): nat {
    if d.current.None? then 0
    else
      match d.current.value
      case Call(_, _, parts) => 1 + |parts|
      case Change(dir) => if dir.Some? then 2 else 1
  }

  lemma {:induction false} DraftIsRead(d: Draft)
    requires Good(d)
    ensures IsRead(d)
    decreases |d.clauses|, PartCount(d), if d.sign.Some? then 1 else 0, |d.settings|
  {
    if d == NOTHING {
      StartsAt();
    } else {
      ShorterIsGood(d);
      DraftIsRead(Shorter(d));
      var p := FeedAll(START, Tokens(Shorter(d))).value;
      if d.sign.Some? {
        AddSign(p, Shorter(d), d.sign.value);
        ReadAgain(d, Shorter(d), d.sign.value);
      } else if d.current.None? {
        BeginIsRead(d);
      } else if d.current.value.Call? {
        CallIsRead(d);
      } else {
        ChangeIsRead(d);
      }
    }
  }

  // The law

  /** Parsing succeeds exactly for sentences, and yields what the sentence says, however it is taken apart. */
  lemma ParsedIffSentence(tokens: seq<string>)
    ensures Parsed(tokens).Ok? <==> exists d :: Sentence(d, tokens)
    ensures forall d :: Sentence(d, tokens) ==> Says(d, Parsed(tokens).value)
  {
    if Parsed(tokens).Ok? {
      var d := ReadIsDraft(tokens);
      assert Sentence(d, tokens);
    }
    forall d | Sentence(d, tokens)
      ensures Parsed(tokens).Ok? && Says(d, Parsed(tokens).value)
    {
      DraftIsRead(d);
      var p := FeedAll(START, tokens).value;
      assert (p.pipeline + [p.current.value])[..|p.pipeline|] == p.pipeline;
    }
  }
}
