/** What reading a patch listing of utils/check-style.py yields, told by the text of its lines: where reading fails and
    with which error, and which line each part of the patches comes from. */
module PatchReading {
  import opened Decimal
  import opened PatchSet
  import opened Seqs
  import opened Wrappers

  // Lines by their text

  ghost predicate HeaderOf(line: string, a: string, b: string, c: string, d: string, rest: string) {
    && a != "" && b != "" && c != "" && d != "" && AllDigits(a) && AllDigits(b) && AllDigits(c) && AllDigits(d)
    && line == "@@ -" + a + "," + b + " +" + c + "," + d + " @@" + rest
  }

  /** The line is a chunk header: two positions with their counts, each of them digits, and anything behind. */
  ghost predicate HeaderText(line: string) {
    exists a, b, c, d, rest :: HeaderOf(line, a, b, c, d, rest)
  }

  /** The two positions of a chunk header. */
  ghost function Positions(line: string): (nat, nat)
    requires HeaderText(line)
  {
    var a, b, c, d, rest :| HeaderOf(line, a, b, c, d, rest);
    (Read(a), Read(c))
  }

  predicate BodyText(line: string) {
    ("-" <= line && !("--- " <= line)) || ("+" <= line && !("+++ " <= line)) || " " <= line
  }

  /** The line behind its sign. */
  function BodyLine(line: Text): Line
    requires BodyText(line)
  {
    if "-" <= line then Src(line[1..]) else if "+" <= line then Dst(line[1..]) else Both(line[1..])
  }

  // Headers

  lemma NumberThenSplits(s: string, follow: string)
    requires NumberThen(s, follow).Some?
    ensures Digits(s) != "" && s == Digits(s) + (follow + NumberThen(s, follow).value.1)
  {
    var d := Digits(s);
    assert s == d + s[|d|..];
  }

  /** What the pattern finds is a header. */
  lemma FoundIsHeader(line: string)
    requires ParseHeader(line).Some?
    ensures HeaderText(line)
  {
    var s0 := After(line, "@@ -").value;
    NumberThenSplits(s0, ",");
    var s1 := NumberThen(s0, ",").value.1;
    NumberThenSplits(s1, " +");
    var s2 := NumberThen(s1, " +").value.1;
    NumberThenSplits(s2, ",");
    var s3 := NumberThen(s2, ",").value.1;
    NumberThenSplits(s3, " @@");
    var rest := NumberThen(s3, " @@").value.1;
    HeaderParts(Digits(s0), Digits(s1), Digits(s2), Digits(s3), rest);
    assert line == "@@ -" + s0;
    assert HeaderOf(line, Digits(s0), Digits(s1), Digits(s2), Digits(s3), rest);
  }

  /** The pattern finds the positions of every header, and nothing else. */
  lemma HeaderIsFound(line: string)
    ensures ParseHeader(line).Some? <==> HeaderText(line)
    ensures HeaderText(line) ==> ParseHeader(line) == Some(Positions(line)) && "@" <= line
  {
    if HeaderText(line) {
      var a, b, c, d, rest :| HeaderOf(line, a, b, c, d, rest) && Positions(line) == (Read(a), Read(c));
      HeaderIsRead(a, b, c, d, rest);
    }
    if ParseHeader(line).Some? {
      FoundIsHeader(line);
    }
  }

  /** The kind of a line is that of its text. */
  lemma KindOfText(line: Text)
    ensures match Classify(line)
            case SrcFile(name) => "--- " <= line && name == line[4..]
            case DstFile(name) => "+++ " <= line && name == line[4..]
            case ChunkStart(a, c) => HeaderText(line) && Positions(line) == (a, c)
            case Body(l) => BodyText(line) && l == BodyLine(line)
            case Bad => !("-" <= line) && !("+" <= line) && !(" " <= line) && !HeaderText(line)
  {
    HeaderIsFound(line);
    TextsDiffer(line);
  }

  /** A line has one form only. */
  lemma TextsDiffer(line: string)
    ensures HeaderText(line) ==> !("-" <= line) && !("+" <= line) && !(" " <= line)
    ensures "--- " <= line ==> "-" <= line && !("+" <= line) && !(" " <= line)
    ensures "+++ " <= line ==> "+" <= line && !("-" <= line) && !(" " <= line)
    ensures BodyText(line) ==> !HeaderText(line) && !("--- " <= line) && !("+++ " <= line)
  {
    HeaderIsFound(line);
    assert "@" <= line ==> line[0] == '@';
    assert "-" <= line ==> line[0] == '-';
    assert "+" <= line ==> line[0] == '+';
    assert " " <= line ==> line[0] == ' ';
    assert "--- " <= line ==> line[0] == '-';
    assert "+++ " <= line ==> line[0] == '+';
  }

  // Where reading fails

  /** None of the first n lines names an old file. */
  predicate NoFileIn(lines: seq<Text>, n: nat)
    requires n <= |lines|
  {
    forall j :: 0 <= j < n ==> !("--- " <= lines[j])
  }

  ghost predicate NoHeaderIn(lines: seq<Text>, n: nat)
    requires n <= |lines|
  {
    forall j :: 0 <= j < n ==> !HeaderText(lines[j])
  }

  /** Line i cannot be read: it fits no pattern, or belongs to a patch or a chunk where none has begun. */
  ghost predicate FaultAt(lines: seq<Text>, i: nat, e: Error)
    requires i < |lines|
  {
    match e
    case BadLine => !("-" <= lines[i]) && !("+" <= lines[i]) && !(" " <= lines[i]) && !HeaderText(lines[i])
    case NoPatch => ("+++ " <= lines[i] || HeaderText(lines[i])) && NoFileIn(lines, i)
    case NoChunk => BodyText(lines[i]) && NoHeaderIn(lines, i)
  }

  ghost predicate Faultless(lines: seq<Text>) {
    forall i, e :: 0 <= i < |lines| ==> !FaultAt(lines, i, e)
  }

  /** Line i is the first that cannot be read. */
  ghost predicate FirstFault(lines: seq<Text>, i: nat, e: Error)
    requires i < |lines|
  {
    FaultAt(lines, i, e) && forall j, f :: 0 <= j < i ==> !FaultAt(lines, j, f)
  }

  // What is read

  datatype Mark = FileMark(src: Text) | ChunkMark(srcPos: nat, dstPos: nat) | LineMark(line: Line)

  /** The old file names and the chunk headers in the order of the lines. */
  ghost function Outline(lines: seq<Text>): seq<Mark> {
    if lines == [] then []
    else
      var line := lines[|lines| - 1];
      Outline(lines[..|lines| - 1])
      + if "--- " <= line then [FileMark(line[4..])]
        else if HeaderText(line) then [ChunkMark(Positions(line).0, Positions(line).1)]
        else []
  }

  /** The chunk headers and the body lines in the order of the lines. */
  ghost function Contents(lines: seq<Text>): seq<Mark> {
    if lines == [] then []
    else
      var line := lines[|lines| - 1];
      Contents(lines[..|lines| - 1])
      + if HeaderText(line) then [ChunkMark(Positions(line).0, Positions(line).1)]
        else if BodyText(line) then [LineMark(BodyLine(line))]
        else []
  }

  /** The new file name of each patch: that of the last line naming one before the next patch. */
  function NewNames(lines: seq<Text>): (names: seq<Text>)
    ensures |names| <= |lines|
  {
    if lines == [] then []
    else
      var line, before := lines[|lines| - 1], NewNames(lines[..|lines| - 1]);
      if "--- " <= line then before + [""]
      else if "+++ " <= line && before != [] then before[|before| - 1 := line[4..]]
      else before
  }

  function HeadsOf(chunks: seq<Chunk>): seq<Mark> {
    if chunks == [] then []
    else
      var c := chunks[|chunks| - 1];
      HeadsOf(chunks[..|chunks| - 1]) + [ChunkMark(c.srcPos, c.dstPos)]
  }

  function OutlineOf(ps: seq<Patch>): seq<Mark> {
    if ps == [] then []
    else
      var p := ps[|ps| - 1];
      OutlineOf(ps[..|ps| - 1]) + ([FileMark(p.src)] + HeadsOf(p.chunks))
  }

  function LinesOf(lines: seq<Line>): seq<Mark> {
    if lines == [] then [] else LinesOf(lines[..|lines| - 1]) + [LineMark(lines[|lines| - 1])]
  }

  function ChunksOf(chunks: seq<Chunk>): seq<Mark> {
    if chunks == [] then []
    else
      var c := chunks[|chunks| - 1];
      ChunksOf(chunks[..|chunks| - 1]) + ([ChunkMark(c.srcPos, c.dstPos)] + LinesOf(c.lines))
  }

  function ContentsOf(ps: seq<Patch>): seq<Mark> {
    if ps == [] then [] else ContentsOf(ps[..|ps| - 1]) + ChunksOf(ps[|ps| - 1].chunks)
  }

  ghost predicate NamesOf(ps: seq<Patch>, names: seq<Text>) {
    |names| == |ps| && forall k :: 0 <= k < |ps| ==> ps[k].dst == names[k]
  }

  /** The patches hold what the lines say, each part once and in order. */
  ghost predicate Holds(ps: seq<Patch>, lines: seq<Text>) {
    && OutlineOf(ps) == Outline(lines) && ContentsOf(ps) == Contents(lines) && NamesOf(ps, NewNames(lines))
  }

  // One line more

  function NoLines(): State {
    State([], None)
  }

  lemma ReadSnoc(lines: seq<Text>)
    requires lines != []
    ensures ReadFrom(NoLines(), Kinds(lines))
            == match ReadFrom(NoLines(), Kinds(lines[..|lines| - 1]))
               case Err(e) => Err(e)
               case Ok(mid) => Apply(mid, Classify(lines[|lines| - 1]))
  {
    var kind := Classify(lines[|lines| - 1]);
    ReadConcat(NoLines(), Kinds(lines[..|lines| - 1]), [kind]);
    match ReadFrom(NoLines(), Kinds(lines[..|lines| - 1]))
    case Ok(mid) => ReadOne(mid, kind);
    case Err(_) =>
  }

  /** Which patches and chunks have begun. */
  ghost predicate Begun(st: State, lines: seq<Text>) {
    && (st.patches == [] <==> NoFileIn(lines, |lines|))
    && (st.open.None? <==> NoHeaderIn(lines, |lines|))
  }

  lemma NoneInPrefix(lines: seq<Text>, n: nat, i: nat)
    requires i <= n <= |lines|
    ensures NoFileIn(lines[..n], i) <==> NoFileIn(lines, i)
    ensures NoHeaderIn(lines[..n], i) <==> NoHeaderIn(lines, i)
  {
    assert forall j :: 0 <= j < n ==> lines[..n][j] == lines[j];
  }

  lemma NoneSnoc(lines: seq<Text>, n: nat)
    requires n < |lines|
    ensures NoFileIn(lines, n + 1) <==> NoFileIn(lines, n) && !("--- " <= lines[n])
    ensures NoHeaderIn(lines, n + 1) <==> NoHeaderIn(lines, n) && !HeaderText(lines[n])
  {
  }

  lemma FaultInPrefix(lines: seq<Text>, n: nat, i: nat, e: Error)
    requires i < n <= |lines|
    ensures FaultAt(lines[..n], i, e) <==> FaultAt(lines, i, e)
  {
    NoneInPrefix(lines, n, i);
  }

  /** The next line is applied exactly when it is no fault. */
  lemma ApplyFails(st: State, lines: seq<Text>, e: Error)
    requires lines != [] && WellOpened(st) && Begun(st, lines[..|lines| - 1])
    ensures Apply(st, Classify(lines[|lines| - 1])) == Err(e) <==> FaultAt(lines, |lines| - 1, e)
  {
    KindOfText(lines[|lines| - 1]);
    TextsDiffer(lines[|lines| - 1]);
    NoneInPrefix(lines, |lines| - 1, |lines| - 1);
  }

  lemma ApplyBegins(st: State, lines: seq<Text>)
    requires lines != [] && WellOpened(st) && Begun(st, lines[..|lines| - 1])
    requires Apply(st, Classify(lines[|lines| - 1])).Ok?
    ensures Begun(Apply(st, Classify(lines[|lines| - 1])).value, lines)
  {
    KindOfText(lines[|lines| - 1]);
    TextsDiffer(lines[|lines| - 1]);
    NoneInPrefix(lines, |lines| - 1, |lines| - 1);
    NoneSnoc(lines, |lines| - 1);
  }

  lemma {:induction false} ReadFaults(lines: seq<Text>)
    ensures match ReadFrom(NoLines(), Kinds(lines))
            case Ok(st) => Begun(st, lines) && Faultless(lines)
            case Err(e) => exists i :: 0 <= i < |lines| && FirstFault(lines, i, e)
    decreases |lines|
  {
    if lines != [] {
      var n := |lines| - 1;
      ReadFaults(lines[..n]);
      ReadSnoc(lines);
      match ReadFrom(NoLines(), Kinds(lines[..n]))
      case Ok(st) =>
        FaultlessPrefix(lines);
        LastFault(lines, st);
      case Err(e) =>
        var i :| 0 <= i < n && FirstFault(lines[..n], i, e);
        FirstInPrefix(lines, i, e);
    }
  }

  lemma FaultlessPrefix(lines: seq<Text>)
    requires lines != [] && Faultless(lines[..|lines| - 1])
    ensures forall i, e :: 0 <= i < |lines| - 1 ==> !FaultAt(lines, i, e)
  {
    forall i, e | 0 <= i < |lines| - 1
      ensures !FaultAt(lines, i, e)
    {
      FaultInPrefix(lines, |lines| - 1, i, e);
    }
  }

  lemma FirstInPrefix(lines: seq<Text>, i: nat, e: Error)
    requires i < |lines| - 1 && FirstFault(lines[..|lines| - 1], i, e)
    ensures FirstFault(lines, i, e)
  {
    FaultInPrefix(lines, |lines| - 1, i, e);
    forall j, f | 0 <= j < i
      ensures !FaultAt(lines, j, f)
    {
      FaultInPrefix(lines, |lines| - 1, j, f);
    }
  }

  lemma LastFault(lines: seq<Text>, st: State)
    requires lines != [] && WellOpened(st) && Begun(st, lines[..|lines| - 1])
    requires forall i, e :: 0 <= i < |lines| - 1 ==> !FaultAt(lines, i, e)
    ensures match Apply(st, Classify(lines[|lines| - 1]))
            case Ok(next) => Begun(next, lines) && Faultless(lines)
            case Err(e) => FirstFault(lines, |lines| - 1, e)
  {
    match Apply(st, Classify(lines[|lines| - 1]))
    case Ok(next) =>
      ApplyBegins(st, lines);
      ApplyFails(st, lines, NoPatch);
      ApplyFails(st, lines, NoChunk);
      ApplyFails(st, lines, BadLine);
    case Err(e) =>
      ApplyFails(st, lines, e);
  }

  // Changing one patch

  lemma HeadsSnoc(chunks: seq<Chunk>, c: Chunk)
    ensures HeadsOf(chunks + [c]) == HeadsOf(chunks) + [ChunkMark(c.srcPos, c.dstPos)]
    ensures ChunksOf(chunks + [c]) == ChunksOf(chunks) + ([ChunkMark(c.srcPos, c.dstPos)] + LinesOf(c.lines))
  {
    assert (chunks + [c])[..|chunks|] == chunks;
  }

  /** A patch changes within, but not in its source name or in the heads of its chunks. */
  lemma {:induction false} OutlineStays(ps: seq<Patch>, i: nat, p: Patch)
    requires i < |ps| && p.src == ps[i].src && HeadsOf(p.chunks) == HeadsOf(ps[i].chunks)
    ensures OutlineOf(ps[i := p]) == OutlineOf(ps)
    decreases |ps|
  {
    var n := |ps| - 1;
    if i == n {
      assert ps[i := p][..n] == ps[..n];
    } else {
      assert ps[i := p][..n] == ps[..n][i := p];
      OutlineStays(ps[..n], i, p);
    }
  }

  /** The end of the outline is that of the last patch. */
  lemma OutlineGrows(ps: seq<Patch>, p: Patch, more: seq<Mark>)
    requires ps != [] && p.src == ps[|ps| - 1].src && HeadsOf(p.chunks) == HeadsOf(ps[|ps| - 1].chunks) + more
    ensures OutlineOf(ps[|ps| - 1 := p]) == OutlineOf(ps) + more
  {
    var n := |ps| - 1;
    assert ps[n := p][..n] == ps[..n];
    ConcatAssociative([FileMark(p.src)], HeadsOf(ps[n].chunks), more);
    ConcatAssociative(OutlineOf(ps[..n]), [FileMark(p.src)] + HeadsOf(ps[n].chunks), more);
  }

  /** No patch behind the one with the current chunk has chunks. */
  ghost predicate BareBehind(st: State) {
    forall k :: 0 <= k < |st.patches| && (st.open.None? || k > st.open.value) ==> st.patches[k].chunks == []
  }

  /** Contents grow at the end of patch i when no patch behind it has chunks. */
  lemma {:induction false} ContentsGrow(ps: seq<Patch>, i: nat, p: Patch, more: seq<Mark>)
    requires i < |ps| && forall k :: i < k < |ps| ==> ps[k].chunks == []
    requires ChunksOf(p.chunks) == ChunksOf(ps[i].chunks) + more
    ensures ContentsOf(ps[i := p]) == ContentsOf(ps) + more
    decreases |ps|
  {
    var n := |ps| - 1;
    if i == n {
      assert ps[i := p][..n] == ps[..n];
      ConcatAssociative(ContentsOf(ps[..n]), ChunksOf(ps[n].chunks), more);
    } else {
      assert ps[i := p][..n] == ps[..n][i := p];
      ContentsGrow(ps[..n], i, p, more);
      NothingBehind(ps);
      NothingBehind(ps[i := p]);
    }
  }

  lemma NothingBehind(ps: seq<Patch>)
    requires ps != [] && ps[|ps| - 1].chunks == []
    ensures ContentsOf(ps) == ContentsOf(ps[..|ps| - 1])
  {
    assert ContentsOf(ps) == ContentsOf(ps[..|ps| - 1]) + [];
  }

  lemma ContentsStay(ps: seq<Patch>, p: Patch)
    requires ps != [] && p.chunks == ps[|ps| - 1].chunks
    ensures ContentsOf(ps[|ps| - 1 := p]) == ContentsOf(ps)
  {
    assert ps[|ps| - 1 := p][..|ps| - 1] == ps[..|ps| - 1];
  }

  lemma LineIsAdded(p: Patch, l: Line)
    requires p.chunks != []
    ensures HeadsOf(AddLine(p, l).chunks) == HeadsOf(p.chunks)
    ensures ChunksOf(AddLine(p, l).chunks) == ChunksOf(p.chunks) + [LineMark(l)]
  {
    var n := |p.chunks| - 1;
    var c := p.chunks[n];
    assert AddLine(p, l).chunks[..n] == p.chunks[..n];
    assert (c.lines + [l])[..|c.lines|] == c.lines;
    ConcatAssociative([ChunkMark(c.srcPos, c.dstPos)], LinesOf(c.lines), [LineMark(l)]);
    ConcatAssociative(ChunksOf(p.chunks[..n]), [ChunkMark(c.srcPos, c.dstPos)] + LinesOf(c.lines), [LineMark(l)]);
  }

  // Each kind of line

  ghost predicate Reads(st: State, lines: seq<Text>) {
    WellOpened(st) && BareBehind(st) && Holds(st.patches, lines)
  }

  lemma FileAdds(lines: seq<Text>)
    requires lines != [] && "--- " <= lines[|lines| - 1]
    ensures Outline(lines) == Outline(lines[..|lines| - 1]) + [FileMark(lines[|lines| - 1][4..])]
    ensures Contents(lines) == Contents(lines[..|lines| - 1])
    ensures NewNames(lines) == NewNames(lines[..|lines| - 1]) + [""]
  {
    TextsDiffer(lines[|lines| - 1]);
    assert Contents(lines) == Contents(lines[..|lines| - 1]) + [];
  }

  lemma OutlineSnoc(ps: seq<Patch>, src: Text)
    ensures OutlineOf(ps + [Patch(src, "", [])]) == OutlineOf(ps) + [FileMark(src)]
    ensures ContentsOf(ps + [Patch(src, "", [])]) == ContentsOf(ps)
  {
    var more := ps + [Patch(src, "", [])];
    assert more[..|ps|] == ps;
    NothingBehind(more);
    assert [FileMark(src)] + [] == [FileMark(src)];
  }

  lemma FileIsRead(st: State, lines: seq<Text>)
    requires lines != [] && Reads(st, lines[..|lines| - 1]) && "--- " <= lines[|lines| - 1]
    ensures Reads(State(st.patches + [Patch(lines[|lines| - 1][4..], "", [])], st.open), lines)
  {
    FileAdds(lines);
    OutlineSnoc(st.patches, lines[|lines| - 1][4..]);
  }

  lemma NameIsRead(st: State, lines: seq<Text>)
    requires lines != [] && Reads(st, lines[..|lines| - 1]) && "+++ " <= lines[|lines| - 1] && st.patches != []
    ensures var n := |st.patches| - 1;
            Reads(st.(patches := st.patches[n := st.patches[n].(dst := lines[|lines| - 1][4..])]), lines)
  {
    var n := |st.patches| - 1;
    var p := st.patches[n].(dst := lines[|lines| - 1][4..]);
    TextsDiffer(lines[|lines| - 1]);
    OutlineStays(st.patches, n, p);
    ContentsStay(st.patches, p);
    assert Contents(lines) == Contents(lines[..|lines| - 1]) + [];
    assert Outline(lines) == Outline(lines[..|lines| - 1]) + [];
  }

  lemma ChunkIsRead(st: State, lines: seq<Text>, a: nat, c: nat)
    requires lines != [] && Reads(st, lines[..|lines| - 1]) && st.patches != []
    requires HeaderText(lines[|lines| - 1]) && Positions(lines[|lines| - 1]) == (a, c)
    ensures var n := |st.patches| - 1; var p := st.patches[n];
            Reads(State(st.patches[n := p.(chunks := p.chunks + [Chunk(a, c, [])])], Some(n)), lines)
  {
    var n := |st.patches| - 1;
    var p := st.patches[n].(chunks := st.patches[n].chunks + [Chunk(a, c, [])]);
    TextsDiffer(lines[|lines| - 1]);
    HeadsSnoc(st.patches[n].chunks, Chunk(a, c, []));
    assert [ChunkMark(a, c)] + LinesOf([]) == [ChunkMark(a, c)];
    OutlineGrows(st.patches, p, [ChunkMark(a, c)]);
    ContentsGrow(st.patches, n, p, [ChunkMark(a, c)]);
  }

  lemma BodyAdds(lines: seq<Text>)
    requires lines != [] && BodyText(lines[|lines| - 1])
    ensures Outline(lines) == Outline(lines[..|lines| - 1])
    ensures Contents(lines) == Contents(lines[..|lines| - 1]) + [LineMark(BodyLine(lines[|lines| - 1]))]
    ensures NewNames(lines) == NewNames(lines[..|lines| - 1])
  {
    TextsDiffer(lines[|lines| - 1]);
    assert Outline(lines) == Outline(lines[..|lines| - 1]) + [];
  }

  lemma BodyIsRead(st: State, lines: seq<Text>)
    requires lines != [] && Reads(st, lines[..|lines| - 1]) && BodyText(lines[|lines| - 1]) && st.open.Some?
    ensures var i := st.open.value;
            Reads(st.(patches := st.patches[i := AddLine(st.patches[i], BodyLine(lines[|lines| - 1]))]), lines)
  {
    var i, l := st.open.value, BodyLine(lines[|lines| - 1]);
    LineIsAdded(st.patches[i], l);
    OutlineStays(st.patches, i, AddLine(st.patches[i], l));
    ContentsGrow(st.patches, i, AddLine(st.patches[i], l), [LineMark(l)]);
    BodyAdds(lines);
  }

  lemma LineIsRead(st: State, lines: seq<Text>)
    requires lines != [] && Reads(st, lines[..|lines| - 1]) && Apply(st, Classify(lines[|lines| - 1])).Ok?
    ensures Reads(Apply(st, Classify(lines[|lines| - 1])).value, lines)
  {
    KindOfText(lines[|lines| - 1]);
    match Classify(lines[|lines| - 1])
    case SrcFile(_) => FileIsRead(st, lines);
    case DstFile(_) => NameIsRead(st, lines);
    case ChunkStart(a, c) => ChunkIsRead(st, lines, a, c);
    case Body(_) => BodyIsRead(st, lines);
    case Bad =>
  }

  lemma {:induction false} AllIsRead(lines: seq<Text>)
    requires ReadFrom(NoLines(), Kinds(lines)).Ok?
    ensures Reads(ReadFrom(NoLines(), Kinds(lines)).value, lines)
    decreases |lines|
  {
    if lines != [] {
      ReadSnoc(lines);
      AllIsRead(lines[..|lines| - 1]);
      LineIsRead(ReadFrom(NoLines(), Kinds(lines[..|lines| - 1])).value, lines);
    }
  }

  // The loop

  /** The last patterns: a line of the current chunk. */
  method ParseBody(patchset: seq<Patch>, open: Option<nat>, line: Text) returns (r: Result<State>)
    requires WellOpened(State(patchset, open)) && !("--- " <= line) && !("+++ " <= line)
    ensures r == Apply(State(patchset, open), ClassifyWith(line, None))
  {
    var l: Line;
    if "-" <= line {
      l := Src(line[1..]);
    } else if "+" <= line {
      l := Dst(line[1..]);
    } else if " " <= line {
      l := Both(line[1..]);
    } else {
      return Err(BadLine);
    }
    if open.None? {
      return Err(NoChunk);
    }
    return Ok(State(patchset[open.value := AddLine(patchset[open.value], l)], open));
  }

  /** One turn of the reading loop: the patterns are tried in order, and the line goes to the current patch or chunk. */
  method ParseLine(patchset0: seq<Patch>, open: Option<nat>, line: Text, header: Option<(nat, nat)>)
      returns (r: Result<State>)
    requires WellOpened(State(patchset0, open))
    ensures r == Apply(State(patchset0, open), ClassifyWith(line, header))
  {
    var patchset := patchset0;
    var current := |patchset| - 1;
    if "--- " <= line {
      return Ok(State(patchset + [Patch(line[4..], "", [])], open));
    }
    if "+++ " <= line {
      if current < 0 {
        return Err(NoPatch);
      }
      patchset := patchset[current := patchset[current].(dst := line[4..])];
      return Ok(State(patchset, open));
    }
    if header.Some? {
      if current < 0 {
        return Err(NoPatch);
      }
      var chunk := Chunk(header.value.0, header.value.1, []);
      patchset := patchset[current := patchset[current].(chunks := patchset[current].chunks + [chunk])];
      return Ok(State(patchset, Some(current)));
    }
    r := ParseBody(patchset, open, line);
  }

  /** The reading loop. */
  method ParsePatchset(lines: seq<Text>) returns (r: Result<seq<Patch>>)
    ensures r == Parse(lines)
    ensures r.Ok? <==> forall i, e :: 0 <= i < |lines| ==> !FaultAt(lines, i, e)
    ensures r.Err? ==> exists i :: 0 <= i < |lines| && FirstFault(lines, i, r.error)
    ensures r.Ok? ==> Holds(r.value, lines)
  {
    ReadFaults(lines);
    if Parse(lines).Ok? {
      AllIsRead(lines);
    }
    r := ReadAll(lines);
  }

  method ReadAll(lines: seq<Text>) returns (r: Result<seq<Patch>>)
    ensures r == Parse(lines)
  {
    var st := State([], None);
    ghost var kinds := Kinds(lines);
    for i := 0 to |lines|
      invariant WellOpened(st)
      invariant ReadFrom(State([], None), kinds) == ReadFrom(st, kinds[i..])
    {
      ReadNext(st, kinds, i);
      KindsAt(lines, i);
      var next := ParseLine(st.patches, st.open, lines[i], ParseHeader(lines[i]));
      match next {
        case Err(e) => return Err(e);
        case Ok(value) => st := value;
      }
    }
    r := Ok(st.patches);
  }
}
