/** The patch reader and writer of utils/check-style.py. A file is the list of its lines, without their newlines. */
module PatchSet {
  import opened Decimal
  import opened Seqs
  import opened Wrappers

  /** A line of text; newlines are what separates lines. */
  type Text = s: string | '\n' !in s witness ""

  datatype Line = Src(text: Text) | Dst(text: Text) | Both(text: Text)

  datatype Chunk = Chunk(srcPos: nat, dstPos: nat, lines: seq<Line>)

  datatype Patch = Patch(src: Text, dst: Text, chunks: seq<Chunk>)

  // Writing

  function WriteLine(l: Line): Text {
    match l
    case Src(t) => "-" + t
    case Dst(t) => "+" + t
    case Both(t) => " " + t
  }

  function SrcLen(lines: seq<Line>): nat {
    if lines == [] then 0 else SrcLen(lines[..|lines| - 1]) + if lines[|lines| - 1].Dst? then 0 else 1
  }

  function DstLen(lines: seq<Line>): nat {
    if lines == [] then 0 else DstLen(lines[..|lines| - 1]) + if lines[|lines| - 1].Src? then 0 else 1
  }

  function Header(srcPos: nat, srcLen: nat, dstPos: nat, dstLen: nat): string {
    "@@ -" + Print(srcPos) + "," + Print(srcLen) + " +" + Print(dstPos) + "," + Print(dstLen) + " @@"
  }

  lemma DigitsAreText(s: string)
    requires AllDigits(s)
    ensures '\n' !in s
  {
  }

  lemma HeaderIsText(a: nat, b: nat, c: nat, d: nat)
    ensures '\n' !in Header(a, b, c, d)
  {
    DigitsAreText(Print(a));
    DigitsAreText(Print(b));
    DigitsAreText(Print(c));
    DigitsAreText(Print(d));
  }

  function WriteLines(lines: seq<Line>): (out: seq<Text>)
    ensures |out| == |lines|
    ensures forall i :: 0 <= i < |lines| ==> out[i] == WriteLine(lines[i])
  {
    if lines == [] then [] else WriteLines(lines[..|lines| - 1]) + [WriteLine(lines[|lines| - 1])]
  }

  function WriteChunk(c: Chunk): seq<Text> {
    HeaderIsText(c.srcPos, SrcLen(c.lines), c.dstPos, DstLen(c.lines));
    [Header(c.srcPos, SrcLen(c.lines), c.dstPos, DstLen(c.lines))] + WriteLines(c.lines)
  }

  function WriteChunks(chunks: seq<Chunk>): seq<Text> {
    if chunks == [] then [] else WriteChunks(chunks[..|chunks| - 1]) + WriteChunk(chunks[|chunks| - 1])
  }

  function WritePatch(p: Patch): seq<Text> {
    ["--- " + p.src, "+++ " + p.dst] + WriteChunks(p.chunks)
  }

  function WritePatches(ps: seq<Patch>): seq<Text> {
    if ps == [] then [] else WritePatches(ps[..|ps| - 1]) + WritePatch(ps[|ps| - 1])
  }

  /** A file that is being written, line by line. */
  class Output {
    var lines: seq<Text>

    constructor ()
      ensures lines == []
    {
      lines := [];
    }

    method Write(line: Text)
      modifies this
      ensures lines == old(lines) + [line]
    {
      lines := lines + [line];
    }

    method EmitLine(l: Line)
      modifies this
      ensures lines == old(lines) + [WriteLine(l)]
      ensures lines == old(lines) + [match l case Src(t) => "-" + t case Dst(t) => "+" + t case Both(t) => " " + t]
    {
      match l
      case Src(t) => Write("-" + t);
      case Dst(t) => Write("+" + t);
      case Both(t) => Write(" " + t);
    }

    method EmitChunk(c: Chunk)
      modifies this
      ensures lines == old(lines) + WriteChunk(c)
      ensures |lines| == |old(lines)| + 1 + |c.lines|
      ensures lines[|old(lines)|] == "@@ -" + Print(c.srcPos) + "," + Print(|Sources(c.lines)|) + " +"
                                     + Print(c.dstPos) + "," + Print(|Destinations(c.lines)|) + " @@"
      ensures forall i :: 0 <= i < |c.lines| ==> lines[|old(lines)| + 1 + i] == WriteLine(c.lines[i])
    {
      var src := SourceLines(c.lines);
      var dst := DestinationLines(c.lines);
      HeaderIsText(c.srcPos, |src|, c.dstPos, |dst|);
      Write(Header(c.srcPos, |src|, c.dstPos, |dst|));
      ghost var header := lines;
      for i := 0 to |c.lines|
        invariant lines == header + WriteLines(c.lines[..i])
      {
        EmitLine(c.lines[i]);
        PrefixInits(c.lines, i);
        ConcatAssociative(header, WriteLines(c.lines[..i]), [WriteLine(c.lines[i])]);
      }
      assert c.lines[..|c.lines|] == c.lines;
      ConcatAssociative(old(lines), [Header(c.srcPos, |src|, c.dstPos, |dst|)], WriteLines(c.lines));
    }

    method EmitPatch(p: Patch)
      modifies this
      ensures lines == old(lines) + WritePatch(p)
      ensures lines[|old(lines)|] == "--- " + p.src && lines[|old(lines)| + 1] == "+++ " + p.dst
    {
      Write("--- " + p.src);
      Write("+++ " + p.dst);
      ghost var headers := lines;
      for i := 0 to |p.chunks|
        invariant lines == headers + WriteChunks(p.chunks[..i])
      {
        EmitChunk(p.chunks[i]);
        PrefixInits(p.chunks, i);
        ConcatAssociative(headers, WriteChunks(p.chunks[..i]), WriteChunk(p.chunks[i]));
      }
      assert p.chunks[..|p.chunks|] == p.chunks;
      ConcatAssociative(old(lines), ["--- " + p.src, "+++ " + p.dst], WriteChunks(p.chunks));
    }
  }

  /** The lines of the old file, in order. */
  function Sources(lines: seq<Line>): seq<Line> {
    if lines == [] then []
    else
      var last := lines[|lines| - 1];
      Sources(lines[..|lines| - 1]) + if last.Dst? then [] else [last]
  }

  /** The lines of the new file, in order. */
  function Destinations(lines: seq<Line>): seq<Line> {
    if lines == [] then []
    else
      var last := lines[|lines| - 1];
      Destinations(lines[..|lines| - 1]) + if last.Src? then [] else [last]
  }

  lemma SidesSnoc(lines: seq<Line>, i: nat)
    requires i < |lines|
    ensures Sources(lines[..i + 1]) == Sources(lines[..i]) + if lines[i].Dst? then [] else [lines[i]]
    ensures Destinations(lines[..i + 1]) == Destinations(lines[..i]) + if lines[i].Src? then [] else [lines[i]]
  {
    PrefixInits(lines, i);
  }

  lemma {:induction false} SidesAreCounted(lines: seq<Line>)
    ensures |Sources(lines)| == SrcLen(lines) && |Destinations(lines)| == DstLen(lines)
  {
    if lines != [] {
      SidesAreCounted(lines[..|lines| - 1]);
    }
  }

  /** The sides hold exactly the lines that do not belong to the other side only. */
  lemma {:induction false} SidesAreExact(lines: seq<Line>, l: Line)
    ensures l in Sources(lines) <==> l in lines && !l.Dst?
    ensures l in Destinations(lines) <==> l in lines && !l.Src?
  {
    if lines != [] {
      var n := |lines| - 1;
      SidesAreExact(lines[..n], l);
      PrefixStep(lines, n);
      assert lines == lines[..n] + [lines[n]];
    }
  }

  /** The sides keep the order: those of two pieces are the sides of each, one behind the other. */
  lemma {:induction false} SidesInOrder(a: seq<Line>, b: seq<Line>)
    ensures Sources(a + b) == Sources(a) + Sources(b)
    ensures Destinations(a + b) == Destinations(a) + Destinations(b)
    decreases |b|
  {
    if b == [] {
      assert a + b == a;
    } else {
      SidesInOrder(a, b[..|b| - 1]);
      PrefixConcat(a, b);
    }
  }

  method SourceLines(lines: seq<Line>) returns (src: seq<Line>)
    ensures src == Sources(lines) && |src| == SrcLen(lines)
  {
    src := [];
    for i := 0 to |lines|
      invariant src == Sources(lines[..i])
    {
      SidesSnoc(lines, i);
      if !lines[i].Dst? {
        src := src + [lines[i]];
      }
    }
    PrefixStep(lines, |lines|);
    SidesAreCounted(lines);
  }

  method DestinationLines(lines: seq<Line>) returns (dst: seq<Line>)
    ensures dst == Destinations(lines) && |dst| == DstLen(lines)
  {
    dst := [];
    for i := 0 to |lines|
      invariant dst == Destinations(lines[..i])
    {
      SidesSnoc(lines, i);
      if !lines[i].Src? {
        dst := dst + [lines[i]];
      }
    }
    PrefixStep(lines, |lines|);
    SidesAreCounted(lines);
  }

  // Reading

  datatype Kind =
    | SrcFile(name: Text)
    | DstFile(name: Text)
    | ChunkStart(srcPos: nat, dstPos: nat)
    | Body(line: Line)
    | Bad

  function After(s: string, prefix: string): Option<string> {
    if prefix <= s then Some(s[|prefix|..]) else None
  }

  /** A number at the front, followed by the given text. */
  function NumberThen(s: string, follow: string): Option<(nat, string)> {
    var d := Digits(s);
    if d == "" then None
    else
      match After(s[|d|..], follow)
      case None => None
      case Some(rest) => Some((Read(d), rest))
  }

  /** The chunk_start pattern; only the two positions are used. */
  function ParseHeader(s: string): Option<(nat, nat)> {
    match After(s, "@@ -")
    case None => None
    case Some(s0) =>
      match NumberThen(s0, ",")
      case None => None
      case Some((srcPos, s1)) =>
        match NumberThen(s1, " +")
        case None => None
        case Some((_, s2)) =>
          match NumberThen(s2, ",")
          case None => None
          case Some((dstPos, s3)) =>
            match NumberThen(s3, " @@")
            case None => None
            case Some(_) => Some((srcPos, dstPos))
  }

  /** The patterns in the order in which they are tried, given what the chunk_start pattern finds. */
  function ClassifyWith(s: Text, header: Option<(nat, nat)>): Kind {
    if "--- " <= s then SrcFile(s[4..])
    else if "+++ " <= s then DstFile(s[4..])
    else if header.Some? then ChunkStart(header.value.0, header.value.1)
    else if "-" <= s then Body(Src(s[1..]))
    else if "+" <= s then Body(Dst(s[1..]))
    else if " " <= s then Body(Both(s[1..]))
    else Bad
  }

  function Classify(s: Text): Kind {
    ClassifyWith(s, ParseHeader(s))
  }

  datatype Error = NoPatch | NoChunk | BadLine

  /** The patches read so far. The current patch is the last one; the current chunk is the last one of patch "open",
      which stays the same when a new patch starts. */
  datatype State = State(patches: seq<Patch>, open: Option<nat>)

  datatype Result<T> = Ok(value: T) | Err(error: Error)

  ghost predicate WellOpened(st: State) {
    st.open.Some? ==> st.open.value < |st.patches| && st.patches[st.open.value].chunks != []
  }

  function AddLine(p: Patch, l: Line): Patch
    requires p.chunks != []
  {
    var n := |p.chunks| - 1;
    p.(chunks := p.chunks[n := p.chunks[n].(lines := p.chunks[n].lines + [l])])
  }

  /** What a line of some kind does to the patches read so far. */
  function Apply(st: State, kind: Kind): (r: Result<State>)
    requires WellOpened(st)
    ensures r.Ok? ==> WellOpened(r.value)
  {
    var n := |st.patches| - 1;
    match kind
    case SrcFile(name) => Ok(State(st.patches + [Patch(name, "", [])], st.open))
    case DstFile(name) =>
      if n < 0 then Err(NoPatch) else Ok(st.(patches := st.patches[n := st.patches[n].(dst := name)]))
    case ChunkStart(a, c) =>
      if n < 0 then Err(NoPatch)
      else Ok(State(st.patches[n := st.patches[n].(chunks := st.patches[n].chunks + [Chunk(a, c, [])])], Some(n)))
    case Body(l) =>
      if st.open.None? then Err(NoChunk)
      else Ok(st.(patches := st.patches[st.open.value := AddLine(st.patches[st.open.value], l)]))
    case Bad => Err(BadLine)
  }

  /** Reading on from a state. */
  function ReadFrom(st: State, kinds: seq<Kind>): (r: Result<State>)
    requires WellOpened(st)
    ensures r.Ok? ==> WellOpened(r.value)
    decreases |kinds|
  {
    if kinds == [] then Ok(st)
    else
      match Apply(st, kinds[0])
      case Err(e) => Err(e)
      case Ok(next) => ReadFrom(next, kinds[1..])
  }

  function Kinds(lines: seq<Text>): (kinds: seq<Kind>)
    ensures |kinds| == |lines|
  {
    if lines == [] then [] else Kinds(lines[..|lines| - 1]) + [Classify(lines[|lines| - 1])]
  }

  lemma {:induction false} KindsAt(lines: seq<Text>, i: nat)
    requires i < |lines|
    ensures Kinds(lines)[i] == Classify(lines[i])
    decreases |lines|
  {
    if i < |lines| - 1 {
      KindsAt(lines[..|lines| - 1], i);
    }
  }

  function Parse(lines: seq<Text>): Result<seq<Patch>> {
    match ReadFrom(State([], None), Kinds(lines))
    case Ok(st) => Ok(st.patches)
    case Err(e) => Err(e)
  }

  lemma ReadNext(st: State, kinds: seq<Kind>, i: nat)
    requires WellOpened(st) && i < |kinds|
    ensures ReadFrom(st, kinds[i..]) == match Apply(st, kinds[i])
                                        case Err(e) => Err(e)
                                        case Ok(next) => ReadFrom(next, kinds[i + 1..])
  {
    assert kinds[i..][1..] == kinds[i + 1..];
  }

  lemma {:induction false} ReadConcat(st: State, a: seq<Kind>, b: seq<Kind>)
    requires WellOpened(st)
    ensures ReadFrom(st, a + b) == match ReadFrom(st, a) case Ok(mid) => ReadFrom(mid, b) case Err(e) => Err(e)
    decreases |a|
  {
    if a == [] {
      assert a + b == b;
    } else {
      assert (a + b)[1..] == a[1..] + b;
      match Apply(st, a[0])
      case Ok(next) => ReadConcat(next, a[1..], b);
      case Err(_) =>
    }
  }

  // Headers

  lemma AfterConcat(prefix: string, rest: string)
    ensures After(prefix + rest, prefix) == Some(rest)
  {
  }

  lemma NumberThenConcat(d: string, follow: string, rest: string)
    requires d != "" && AllDigits(d) && follow != "" && !IsDigit(follow[0])
    ensures NumberThen(d + (follow + rest), follow) == Some((Read(d), rest))
  {
    DigitsStop(d, follow + rest);
    AfterConcat(follow, rest);
    assert (d + (follow + rest))[|d|..] == follow + rest;
  }

  /** A line of the form of a header is read as its two positions, whatever follows. */
  lemma HeaderIsRead(a: string, b: string, c: string, d: string, rest: string)
    requires a != "" && b != "" && c != "" && d != "" && AllDigits(a) && AllDigits(b) && AllDigits(c) && AllDigits(d)
    ensures ParseHeader("@@ -" + a + "," + b + " +" + c + "," + d + " @@" + rest) == Some((Read(a), Read(c)))
  {
    var s3 := d + (" @@" + rest);
    var s2 := c + ("," + s3);
    var s1 := b + (" +" + s2);
    var s0 := a + ("," + s1);
    HeaderParts(a, b, c, d, rest);
    AfterConcat("@@ -", s0);
    NumberThenConcat(a, ",", s1);
    NumberThenConcat(b, " +", s2);
    NumberThenConcat(c, ",", s3);
    NumberThenConcat(d, " @@", rest);
  }

  lemma HeaderParts(a: string, b: string, c: string, d: string, rest: string)
    ensures "@@ -" + a + "," + b + " +" + c + "," + d + " @@" + rest
            == "@@ -" + (a + ("," + (b + (" +" + (c + ("," + (d + (" @@" + rest))))))))
  {
  }

  /** A written header is read back as its two positions. */
  lemma HeaderRoundTrip(a: nat, b: nat, c: nat, d: nat)
    ensures ParseHeader(Header(a, b, c, d)) == Some((a, c))
  {
    HeaderIsRead(Print(a), Print(b), Print(c), Print(d), "");
    assert Header(a, b, c, d) + "" == Header(a, b, c, d);
    ReadPrint(a);
    ReadPrint(c);
  }

  // The round trip

  /** The written line is not taken for a file header. */
  predicate SafeLine(l: Line) {
    match l
    case Src(t) => !("-- " <= t)
    case Dst(t) => !("++ " <= t)
    case Both(_) => true
  }

  predicate SafeLines(lines: seq<Line>) {
    forall i :: 0 <= i < |lines| ==> SafeLine(lines[i])
  }

  predicate SafeChunks(chunks: seq<Chunk>) {
    forall i :: 0 <= i < |chunks| ==> SafeLines(chunks[i].lines)
  }

  /** No removed line starts with "-- " and no added line with "++ ". */
  predicate Safe(ps: seq<Patch>) {
    forall i :: 0 <= i < |ps| ==> SafeChunks(ps[i].chunks)
  }

  /** What a written line is taken for. */
  function LineKind(l: Line): Kind {
    match l
    case Src(t) => if "-- " <= t then SrcFile(t[3..]) else Body(l)
    case Dst(t) => if "++ " <= t then DstFile(t[3..]) else Body(l)
    case Both(t) => Body(l)
  }

  lemma ClassifyLine(l: Line)
    ensures Classify(WriteLine(l)) == LineKind(l)
  {
    var s := WriteLine(l);
    assert s[0] != '@';
    match l
    case Src(t) =>
      assert s[1..] == t;
      assert "-- " <= t ==> s[4..] == t[3..];
      assert "--- " <= s <==> "-- " <= t by { assert forall i :: 0 <= i < |t| ==> s[i + 1] == t[i]; }
    case Dst(t) =>
      assert s[1..] == t;
      assert "++ " <= t ==> s[4..] == t[3..];
      assert "+++ " <= s <==> "++ " <= t by { assert forall i :: 0 <= i < |t| ==> s[i + 1] == t[i]; }
    case Both(t) =>
      assert s[1..] == t;
  }

  lemma HeaderFront(s: string, a: nat, b: nat, c: nat, d: nat)
    requires s == Header(a, b, c, d)
    ensures !("--- " <= s) && !("+++ " <= s)
  {
    HeaderParts(Print(a), Print(b), Print(c), Print(d), "");
    assert s + "" == s;
    assert s[0] == '@';
  }

  lemma ClassifyHeader(a: nat, b: nat, c: nat, d: nat)
    ensures '\n' !in Header(a, b, c, d) && Classify(Header(a, b, c, d)) == ChunkStart(a, c)
  {
    HeaderIsText(a, b, c, d);
    HeaderRoundTrip(a, b, c, d);
    HeaderFront(Header(a, b, c, d), a, b, c, d);
  }

  lemma ClassifyFiles(t: Text)
    ensures Classify("--- " + t) == SrcFile(t) && Classify("+++ " + t) == DstFile(t)
  {
    assert ("--- " + t)[4..] == t && ("+++ " + t)[4..] == t;
    assert ("+++ " + t)[0] == '+';
  }

  // The kinds of written lines

  function LineKinds(lines: seq<Line>): (kinds: seq<Kind>)
    ensures |kinds| == |lines|
  {
    if lines == [] then [] else LineKinds(lines[..|lines| - 1]) + [LineKind(lines[|lines| - 1])]
  }

  function ChunkKinds(c: Chunk): seq<Kind> {
    [ChunkStart(c.srcPos, c.dstPos)] + LineKinds(c.lines)
  }

  function ChunksKinds(chunks: seq<Chunk>): seq<Kind> {
    if chunks == [] then [] else ChunksKinds(chunks[..|chunks| - 1]) + ChunkKinds(chunks[|chunks| - 1])
  }

  function PatchKinds(p: Patch): seq<Kind> {
    [SrcFile(p.src), DstFile(p.dst)] + ChunksKinds(p.chunks)
  }

  function PatchesKinds(ps: seq<Patch>): seq<Kind> {
    if ps == [] then [] else PatchesKinds(ps[..|ps| - 1]) + PatchKinds(ps[|ps| - 1])
  }

  lemma {:induction false} KindsConcat(a: seq<Text>, b: seq<Text>)
    ensures Kinds(a + b) == Kinds(a) + Kinds(b)
    decreases |b|
  {
    if b == [] {
      assert a + b == a;
    } else {
      var n := |b| - 1;
      KindsConcat(a, b[..n]);
      PrefixConcat(a, b);
      ConcatAssociative(Kinds(a), Kinds(b[..n]), [Classify(b[n])]);
    }
  }

  lemma KindsOne(line: Text)
    ensures Kinds([line]) == [Classify(line)]
  {
  }

  lemma KindsOfChunk(c: Chunk)
    ensures Kinds(WriteChunk(c)) == ChunkKinds(c)
  {
    ClassifyHeader(c.srcPos, SrcLen(c.lines), c.dstPos, DstLen(c.lines));
    KindsConcat([Header(c.srcPos, SrcLen(c.lines), c.dstPos, DstLen(c.lines))], WriteLines(c.lines));
    KindsOne(Header(c.srcPos, SrcLen(c.lines), c.dstPos, DstLen(c.lines)));
    KindsOfLines(c.lines);
  }

  lemma {:induction false} KindsOfLines(lines: seq<Line>)
    ensures Kinds(WriteLines(lines)) == LineKinds(lines)
  {
    if lines != [] {
      var n := |lines| - 1;
      KindsOfLines(lines[..n]);
      ClassifyLine(lines[n]);
      KindsConcat(WriteLines(lines[..n]), [WriteLine(lines[n])]);
      KindsOne(WriteLine(lines[n]));
    }
  }

  lemma {:induction false} KindsOfChunks(chunks: seq<Chunk>)
    ensures Kinds(WriteChunks(chunks)) == ChunksKinds(chunks)
  {
    if chunks != [] {
      KindsOfChunks(chunks[..|chunks| - 1]);
      KindsOfChunk(chunks[|chunks| - 1]);
      KindsConcat(WriteChunks(chunks[..|chunks| - 1]), WriteChunk(chunks[|chunks| - 1]));
    }
  }

  lemma KindsOfTwo(l0: Text, l1: Text)
    ensures Kinds([l0, l1]) == [Classify(l0), Classify(l1)]
  {
  }

  lemma KindsOfPatch(p: Patch)
    ensures Kinds(WritePatch(p)) == PatchKinds(p)
  {
    ClassifyFiles(p.src);
    ClassifyFiles(p.dst);
    KindsOfChunks(p.chunks);
    var l0: Text, l1: Text := "--- " + p.src, "+++ " + p.dst;
    KindsConcat([l0, l1], WriteChunks(p.chunks));
    KindsOfTwo(l0, l1);
  }

  lemma {:induction false} KindsOfPatches(ps: seq<Patch>)
    ensures Kinds(WritePatches(ps)) == PatchesKinds(ps)
  {
    if ps != [] {
      KindsOfPatches(ps[..|ps| - 1]);
      KindsOfPatch(ps[|ps| - 1]);
      KindsConcat(WritePatches(ps[..|ps| - 1]), WritePatch(ps[|ps| - 1]));
    }
  }

  // Reading safe kinds back

  lemma ReadOne(st: State, kind: Kind)
    requires WellOpened(st)
    ensures ReadFrom(st, [kind]) == Apply(st, kind)
  {
  }

  /** The state with its last patch replaced. */
  function WithLast(st: State, p: Patch, open: Option<nat>): State
    requires st.patches != []
  {
    State(st.patches[|st.patches| - 1 := p], open)
  }

  lemma WithSame(st: State)
    requires st.patches != []
    ensures WithLast(st, st.patches[|st.patches| - 1], st.open) == st
  {
    assert st.patches[|st.patches| - 1 := st.patches[|st.patches| - 1]] == st.patches;
  }

  lemma WithTwice(st: State, p: Patch, q: Patch, o1: Option<nat>, o2: Option<nat>)
    requires st.patches != []
    ensures WithLast(WithLast(st, p, o1), q, o2) == WithLast(st, q, o2)
  {
    assert WithLast(WithLast(st, p, o1), q, o2).patches == WithLast(st, q, o2).patches;
  }

  /** The patch with the lines added to its last chunk. */
  function AddLines(p: Patch, lines: seq<Line>): Patch
    requires p.chunks != []
  {
    var n := |p.chunks| - 1;
    p.(chunks := p.chunks[n := p.chunks[n].(lines := p.chunks[n].lines + lines)])
  }

  lemma AddLinesSnoc(p: Patch, lines: seq<Line>, l: Line)
    requires p.chunks != []
    ensures AddLine(AddLines(p, lines), l) == AddLines(p, lines + [l])
  {
    ConcatAssociative(p.chunks[|p.chunks| - 1].lines, lines, [l]);
    assert AddLine(AddLines(p, lines), l).chunks == AddLines(p, lines + [l]).chunks;
  }

  lemma AddNoLines(p: Patch)
    requires p.chunks != []
    ensures AddLines(p, []) == p
  {
    var n := |p.chunks| - 1;
    assert p.chunks[n].lines + [] == p.chunks[n].lines;
    assert p.chunks[n := p.chunks[n]] == p.chunks;
  }

  lemma {:induction false} ReadLines(st: State, lines: seq<Line>)
    requires WellOpened(st) && st.patches != [] && st.open == Some(|st.patches| - 1) && SafeLines(lines)
    ensures ReadFrom(st, LineKinds(lines)) == Ok(WithLast(st, AddLines(st.patches[|st.patches| - 1], lines), st.open))
    decreases |lines|
  {
    var p := st.patches[|st.patches| - 1];
    if lines == [] {
      AddNoLines(p);
      WithSame(st);
    } else {
      var m := |lines| - 1;
      var mid := WithLast(st, AddLines(p, lines[..m]), st.open);
      ReadLines(st, lines[..m]);
      ReadConcat(st, LineKinds(lines[..m]), [Body(lines[m])]);
      ReadOne(mid, Body(lines[m]));
      AddLinesSnoc(p, lines[..m], lines[m]);
      PrefixStep(lines, m);
      assert lines[..m] + [lines[m]] == lines;
      WithTwice(st, AddLines(p, lines[..m]), AddLines(p, lines), st.open, st.open);
    }
  }

  /** The patch with the chunks added. */
  function AddChunks(p: Patch, chunks: seq<Chunk>): Patch {
    p.(chunks := p.chunks + chunks)
  }

  lemma FillChunk(p: Patch, c: Chunk)
    ensures AddLines(AddChunks(p, [c.(lines := [])]), c.lines) == AddChunks(p, [c])
  {
    assert [] + c.lines == c.lines;
    assert AddLines(AddChunks(p, [c.(lines := [])]), c.lines).chunks == AddChunks(p, [c]).chunks;
  }

  lemma ReadChunk(st: State, c: Chunk)
    requires WellOpened(st) && st.patches != [] && SafeLines(c.lines)
    ensures ReadFrom(st, ChunkKinds(c))
            == Ok(WithLast(st, AddChunks(st.patches[|st.patches| - 1], [c]), Some(|st.patches| - 1)))
  {
    var p := st.patches[|st.patches| - 1];
    var begun := WithLast(st, AddChunks(p, [c.(lines := [])]), Some(|st.patches| - 1));
    ReadOne(st, ChunkStart(c.srcPos, c.dstPos));
    ReadConcat(st, [ChunkStart(c.srcPos, c.dstPos)], LineKinds(c.lines));
    ReadLines(begun, c.lines);
    FillChunk(p, c);
    WithTwice(st, AddChunks(p, [c.(lines := [])]), AddChunks(p, [c]), begun.open, begun.open);
  }

  lemma {:induction false} ReadChunks(st: State, chunks: seq<Chunk>)
    requires WellOpened(st) && st.patches != [] && SafeChunks(chunks)
    ensures ReadFrom(st, ChunksKinds(chunks))
            == Ok(WithLast(st, AddChunks(st.patches[|st.patches| - 1], chunks),
                           if chunks == [] then st.open else Some(|st.patches| - 1)))
    decreases |chunks|
  {
    var p := st.patches[|st.patches| - 1];
    if chunks == [] {
      assert p.chunks + [] == p.chunks;
      WithSame(st);
    } else {
      var m := |chunks| - 1;
      var mid := WithLast(st, AddChunks(p, chunks[..m]), if m == 0 then st.open else Some(|st.patches| - 1));
      ReadChunks(st, chunks[..m]);
      ReadConcat(st, ChunksKinds(chunks[..m]), ChunkKinds(chunks[m]));
      ReadChunk(mid, chunks[m]);
      WithTwice(st, mid.patches[|st.patches| - 1], AddChunks(p, chunks), mid.open, Some(|st.patches| - 1));
      PrefixStep(chunks, m);
      PrefixStep(chunks, m + 1);
      ConcatAssociative(p.chunks, chunks[..m], [chunks[m]]);
    }
  }

  lemma ReadPatch(st: State, p: Patch)
    requires WellOpened(st) && SafeChunks(p.chunks)
    ensures ReadFrom(st, PatchKinds(p))
            == Ok(State(st.patches + [p], if p.chunks == [] then st.open else Some(|st.patches|)))
  {
    var bare := State(st.patches + [Patch(p.src, p.dst, [])], st.open);
    ReadFiles(st, p.src, p.dst);
    ReadConcat(st, [SrcFile(p.src), DstFile(p.dst)], ChunksKinds(p.chunks));
    ReadChunks(bare, p.chunks);
    FillPatch(st, p, if p.chunks == [] then st.open else Some(|st.patches|));
  }

  lemma FillPatch(st: State, p: Patch, open: Option<nat>)
    ensures WithLast(State(st.patches + [Patch(p.src, p.dst, [])], st.open),
                     AddChunks(Patch(p.src, p.dst, []), p.chunks), open)
            == State(st.patches + [p], open)
  {
    assert [] + p.chunks == p.chunks;
    assert (st.patches + [Patch(p.src, p.dst, [])])[|st.patches| := p] == st.patches + [p];
  }

  lemma ReadFiles(st: State, src: Text, dst: Text)
    requires WellOpened(st)
    ensures ReadFrom(st, [SrcFile(src), DstFile(dst)]) == Ok(State(st.patches + [Patch(src, dst, [])], st.open))
  {
    var first := State(st.patches + [Patch(src, "", [])], st.open);
    ReadOne(first, DstFile(dst));
    assert [SrcFile(src), DstFile(dst)][1..] == [DstFile(dst)];
    UpdateLast(st.patches, Patch(src, "", []), Patch(src, dst, []));
  }

  lemma {:induction false} ReadPatches(ps: seq<Patch>) returns (open: Option<nat>)
    requires Safe(ps)
    ensures ReadFrom(State([], None), PatchesKinds(ps)) == Ok(State(ps, open))
    decreases |ps|
  {
    if ps == [] {
      open := None;
    } else {
      var n := |ps| - 1;
      var before := ReadPatches(ps[..n]);
      ReadConcat(State([], None), PatchesKinds(ps[..n]), PatchKinds(ps[n]));
      ReadPatch(State(ps[..n], before), ps[n]);
      open := if ps[n].chunks == [] then before else Some(n);
      assert ps[..n] + [ps[n]] == ps;
    }
  }

  // Counting lines: where a line is taken for a header, one is missing from the chunks.

  function LinesIn(chunks: seq<Chunk>): nat {
    if chunks == [] then 0 else LinesIn(chunks[..|chunks| - 1]) + |chunks[|chunks| - 1].lines|
  }

  function TotalLines(ps: seq<Patch>): nat {
    if ps == [] then 0 else TotalLines(ps[..|ps| - 1]) + LinesIn(ps[|ps| - 1].chunks)
  }

  function Bodies(kinds: seq<Kind>): nat {
    if kinds == [] then 0 else Bodies(kinds[..|kinds| - 1]) + if kinds[|kinds| - 1].Body? then 1 else 0
  }

  function Unsafe(lines: seq<Line>): nat {
    if lines == [] then 0 else Unsafe(lines[..|lines| - 1]) + if SafeLine(lines[|lines| - 1]) then 0 else 1
  }

  function UnsafeIn(chunks: seq<Chunk>): nat {
    if chunks == [] then 0 else UnsafeIn(chunks[..|chunks| - 1]) + Unsafe(chunks[|chunks| - 1].lines)
  }

  function TotalUnsafe(ps: seq<Patch>): nat {
    if ps == [] then 0 else TotalUnsafe(ps[..|ps| - 1]) + UnsafeIn(ps[|ps| - 1].chunks)
  }

  lemma {:induction false} BodiesConcat(a: seq<Kind>, b: seq<Kind>)
    ensures Bodies(a + b) == Bodies(a) + Bodies(b)
    decreases |b|
  {
    if b == [] {
      assert a + b == a;
    } else {
      BodiesConcat(a, b[..|b| - 1]);
      assert (a + b)[..|a + b| - 1] == a + b[..|b| - 1];
    }
  }

  lemma BodiesOne(kind: Kind)
    ensures Bodies([kind]) == if kind.Body? then 1 else 0
  {
  }

  lemma {:induction false} TotalUpdate(ps: seq<Patch>, i: nat, p: Patch)
    requires i < |ps|
    ensures TotalLines(ps[i := p]) == TotalLines(ps) - LinesIn(ps[i].chunks) + LinesIn(p.chunks)
    decreases |ps|
  {
    var n := |ps| - 1;
    if i == n {
      assert ps[i := p][..n] == ps[..n];
    } else {
      assert ps[i := p][..n] == ps[..n][i := p];
      TotalUpdate(ps[..n], i, p);
    }
  }

  lemma ApplyCounts(st: State, kind: Kind)
    requires WellOpened(st) && Apply(st, kind).Ok?
    ensures TotalLines(Apply(st, kind).value.patches) == TotalLines(st.patches) + if kind.Body? then 1 else 0
  {
    var n := |st.patches| - 1;
    match kind
    case SrcFile(name) => assert (st.patches + [Patch(name, "", [])])[..n + 1] == st.patches;
    case DstFile(name) => TotalUpdate(st.patches, n, st.patches[n].(dst := name));
    case ChunkStart(a, c) =>
      var p := st.patches[n];
      TotalUpdate(st.patches, n, p.(chunks := p.chunks + [Chunk(a, c, [])]));
      assert (p.chunks + [Chunk(a, c, [])])[..|p.chunks|] == p.chunks;
    case Body(l) =>
      var p := st.patches[st.open.value];
      TotalUpdate(st.patches, st.open.value, AddLine(p, l));
      assert AddLine(p, l).chunks[..|p.chunks| - 1] == p.chunks[..|p.chunks| - 1];
    case Bad =>
  }

  lemma {:induction false} ReadCounts(st: State, kinds: seq<Kind>)
    requires WellOpened(st) && ReadFrom(st, kinds).Ok?
    ensures TotalLines(ReadFrom(st, kinds).value.patches) == TotalLines(st.patches) + Bodies(kinds)
    decreases |kinds|
  {
    if kinds != [] {
      ApplyCounts(st, kinds[0]);
      ReadCounts(Apply(st, kinds[0]).value, kinds[1..]);
      BodiesConcat([kinds[0]], kinds[1..]);
      BodiesOne(kinds[0]);
      assert [kinds[0]] + kinds[1..] == kinds;
    }
  }

  lemma {:induction false} LineBodies(lines: seq<Line>)
    ensures Bodies(LineKinds(lines)) + Unsafe(lines) == |lines|
    ensures Unsafe(lines) == 0 <==> SafeLines(lines)
    decreases |lines|
  {
    if lines != [] {
      var n := |lines| - 1;
      LineBodies(lines[..n]);
      assert LineKinds(lines)[..n] == LineKinds(lines[..n]);
    }
  }

  lemma OneChunkBodies(c: Chunk)
    ensures Bodies(ChunkKinds(c)) + Unsafe(c.lines) == |c.lines|
    ensures Unsafe(c.lines) == 0 <==> SafeLines(c.lines)
  {
    LineBodies(c.lines);
    BodiesConcat([ChunkStart(c.srcPos, c.dstPos)], LineKinds(c.lines));
    BodiesOne(ChunkStart(c.srcPos, c.dstPos));
  }

  lemma SafeChunksSnoc(chunks: seq<Chunk>)
    requires chunks != []
    ensures SafeChunks(chunks) <==> SafeChunks(chunks[..|chunks| - 1]) && SafeLines(chunks[|chunks| - 1].lines)
  {
    var n := |chunks| - 1;
    assert forall i :: 0 <= i < n ==> chunks[..n][i] == chunks[i];
  }

  lemma {:induction false} ChunkBodies(chunks: seq<Chunk>)
    ensures Bodies(ChunksKinds(chunks)) + UnsafeIn(chunks) == LinesIn(chunks)
    ensures UnsafeIn(chunks) == 0 <==> SafeChunks(chunks)
    decreases |chunks|
  {
    if chunks != [] {
      var n := |chunks| - 1;
      var c := chunks[n];
      ChunkBodies(chunks[..n]);
      OneChunkBodies(c);
      BodiesConcat(ChunksKinds(chunks[..n]), ChunkKinds(c));
      SafeChunksSnoc(chunks);
    }
  }

  lemma {:induction false} PatchBodies(ps: seq<Patch>)
    ensures Bodies(PatchesKinds(ps)) + TotalUnsafe(ps) == TotalLines(ps)
    ensures TotalUnsafe(ps) == 0 <==> Safe(ps)
    decreases |ps|
  {
    if ps != [] {
      var n := |ps| - 1;
      var p := ps[n];
      PatchBodies(ps[..n]);
      ChunkBodies(p.chunks);
      BodiesOne(SrcFile(p.src));
      BodiesOne(DstFile(p.dst));
      BodiesConcat([SrcFile(p.src)], [DstFile(p.dst)]);
      assert [SrcFile(p.src)] + [DstFile(p.dst)] == [SrcFile(p.src), DstFile(p.dst)];
      BodiesConcat([SrcFile(p.src), DstFile(p.dst)], ChunksKinds(p.chunks));
      BodiesConcat(PatchesKinds(ps[..n]), PatchKinds(p));
    }
  }

  /** Reading a written patch set gives it back exactly when no removed line starts with "-- " and no added line
      with "++ ". */
  lemma RoundTripIffSafe(ps: seq<Patch>)
    ensures Parse(WritePatches(ps)) == Ok(ps) <==> Safe(ps)
  {
    KindsOfPatches(ps);
    if Safe(ps) {
      var open := ReadPatches(ps);
    }
    if Parse(WritePatches(ps)) == Ok(ps) {
      ReadCounts(State([], None), PatchesKinds(ps));
      PatchBodies(ps);
    }
  }

  /** The same for one patch. */
  lemma OnePatchRoundTrip(p: Patch)
    ensures Parse(WritePatch(p)) == Ok([p]) <==> SafeChunks(p.chunks)
  {
    RoundTripIffSafe([p]);
    assert [p][..0] == [];
    assert WritePatches([p]) == [] + WritePatch(p) == WritePatch(p);
  }
}
