/** When reading a patch listing of utils/check-style.py and writing the patches again reproduces it line for line. */
module PatchListing {
  import opened PatchSet
  import opened Seqs
  import opened Wrappers

  /** Number of lines of the old file in the body that starts at line i. */
  function SrcRun(kinds: seq<Kind>, i: nat): nat
    requires i <= |kinds|
    decreases |kinds| - i
  {
    if i < |kinds| && kinds[i].Body? then SrcRun(kinds, i + 1) + if kinds[i].line.Dst? then 0 else 1 else 0
  }

  /** Number of lines of the new file in the body that starts at line i. */
  function DstRun(kinds: seq<Kind>, i: nat): nat
    requires i <= |kinds|
    decreases |kinds| - i
  {
    if i < |kinds| && kinds[i].Body? then DstRun(kinds, i + 1) + if kinds[i].line.Src? then 0 else 1 else 0
  }

  /** Line i stands where it may: file headers come in pairs, and body lines behind a chunk header. */
  predicate FitsAt(kinds: seq<Kind>, i: nat)
    requires i < |kinds|
  {
    match kinds[i]
    case SrcFile(_) => i + 1 < |kinds| && kinds[i + 1].DstFile?
    case DstFile(_) => i > 0 && kinds[i - 1].SrcFile?
    case ChunkStart(_, _) => i > 0
    case Body(_) => i > 0 && (kinds[i - 1].ChunkStart? || kinds[i - 1].Body?)
    case Bad => false
  }

  ghost predicate Ordered(kinds: seq<Kind>) {
    forall i :: 0 <= i < |kinds| ==> FitsAt(kinds, i)
  }

  /** Every chunk header is spelled as one, with the counts of the lines behind it. */
  ghost predicate Counted(lines: seq<Text>, kinds: seq<Kind>)
    requires |lines| == |kinds|
  {
    forall i :: 0 <= i < |lines| && kinds[i].ChunkStart? ==>
      lines[i] == Header(kinds[i].srcPos, SrcRun(kinds, i + 1), kinds[i].dstPos, DstRun(kinds, i + 1))
  }

  ghost predicate Canonical(lines: seq<Text>) {
    Ordered(Kinds(lines)) && Counted(lines, Kinds(lines))
  }

  /** The body lines are not taken for anything else. */
  ghost predicate SafeBodies(kinds: seq<Kind>) {
    forall i :: 0 <= i < |kinds| && kinds[i].Body? ==> SafeLine(kinds[i].line)
  }

  // Spelling

  /** The text of a line, given the counts for a chunk header. */
  function Spell(kind: Kind, srcLen: nat, dstLen: nat): string {
    match kind
    case SrcFile(name) => "--- " + name
    case DstFile(name) => "+++ " + name
    case ChunkStart(a, c) => Header(a, srcLen, c, dstLen)
    case Body(l) => WriteLine(l)
    case Bad => ""
  }

  function Spelling(kinds: seq<Kind>, i: nat): string
    requires i < |kinds|
  {
    Spell(kinds[i], SrcRun(kinds, i + 1), DstRun(kinds, i + 1))
  }

  ghost predicate Spells(out: seq<Text>, kinds: seq<Kind>) {
    |out| == |kinds| && forall i :: 0 <= i < |kinds| ==> out[i] == Spelling(kinds, i)
  }

  lemma SpellsOnce(a: seq<Text>, b: seq<Text>, kinds: seq<Kind>)
    requires Spells(a, kinds) && Spells(b, kinds)
    ensures a == b
  {
    forall i | 0 <= i < |kinds|
      ensures a[i] == b[i]
    {
      assert a[i] == Spelling(kinds, i);
    }
  }

  lemma {:induction false} RunInFront(k: seq<Kind>, m: seq<Kind>, i: nat)
    requires i <= |k| && (m == [] || !m[0].Body?)
    ensures SrcRun(k + m, i) == SrcRun(k, i) && DstRun(k + m, i) == DstRun(k, i)
    decreases |k| - i
  {
    if i < |k| {
      RunInFront(k, m, i + 1);
    }
  }

  lemma {:induction false} RunBehind(k: seq<Kind>, m: seq<Kind>, i: nat)
    requires i <= |m|
    ensures SrcRun(k + m, |k| + i) == SrcRun(m, i) && DstRun(k + m, |k| + i) == DstRun(m, i)
    decreases |m| - i
  {
    if i < |m| {
      RunBehind(k, m, i + 1);
      assert (k + m)[|k| + i] == m[i];
    }
  }

  lemma SpellingConcat(k: seq<Kind>, m: seq<Kind>, i: nat)
    requires i < |k| + |m| && (m == [] || !m[0].Body?)
    ensures Spelling(k + m, i) == if i < |k| then Spelling(k, i) else Spelling(m, i - |k|)
  {
    if i < |k| {
      RunInFront(k, m, i + 1);
    } else {
      RunBehind(k, m, i - |k| + 1);
    }
  }

  lemma SpellsConcat(a: seq<Text>, k: seq<Kind>, b: seq<Text>, m: seq<Kind>)
    requires Spells(a, k) && Spells(b, m) && (m == [] || !m[0].Body?)
    ensures Spells(a + b, k + m)
  {
    forall i | 0 <= i < |k| + |m|
      ensures (a + b)[i] == Spelling(k + m, i)
    {
      SpellingConcat(k, m, i);
      if i < |k| {
        assert a[i] == Spelling(k, i);
      } else {
        assert b[i - |k|] == Spelling(m, i - |k|);
      }
    }
  }

  lemma {:induction false} RunSnoc(k: seq<Kind>, l: Line, i: nat)
    requires i <= |k| && forall j :: i <= j < |k| ==> k[j].Body?
    ensures SrcRun(k + [Body(l)], i) == SrcRun(k, i) + if l.Dst? then 0 else 1
    ensures DstRun(k + [Body(l)], i) == DstRun(k, i) + if l.Src? then 0 else 1
    decreases |k| - i
  {
    if i < |k| {
      RunSnoc(k, l, i + 1);
    }
  }

  lemma {:induction false} SafeKinds(lines: seq<Line>)
    requires SafeLines(lines)
    ensures forall i :: 0 <= i < |lines| ==> LineKinds(lines)[i] == Body(lines[i])
    decreases |lines|
  {
    if lines != [] {
      SafeKinds(lines[..|lines| - 1]);
    }
  }

  /** The run behind the header of a chunk is its body. */
  lemma {:induction false} RunOfLines(lines: seq<Line>)
    requires SafeLines(lines)
    ensures SrcRun(LineKinds(lines), 0) == SrcLen(lines) && DstRun(LineKinds(lines), 0) == DstLen(lines)
    decreases |lines|
  {
    if lines != [] {
      var n := |lines| - 1;
      RunOfLines(lines[..n]);
      SafeKinds(lines[..n]);
      RunSnoc(LineKinds(lines[..n]), lines[n], 0);
    }
  }

  lemma SpelledHeader(c: Chunk)
    requires SafeLines(c.lines)
    ensures WriteChunk(c)[0] == Spelling(ChunkKinds(c), 0)
  {
    RunOfLines(c.lines);
    RunBehind([ChunkStart(c.srcPos, c.dstPos)], LineKinds(c.lines), 0);
  }

  lemma SpelledBody(c: Chunk, i: nat)
    requires SafeLines(c.lines) && i < |c.lines|
    ensures WriteChunk(c)[1 + i] == Spelling(ChunkKinds(c), 1 + i)
  {
    SafeKinds(c.lines);
    assert ChunkKinds(c)[1 + i] == LineKinds(c.lines)[i] == Body(c.lines[i]);
    assert WriteChunk(c)[1 + i] == WriteLines(c.lines)[i];
  }

  lemma SpelledChunk(c: Chunk)
    requires SafeLines(c.lines)
    ensures Spells(WriteChunk(c), ChunkKinds(c))
  {
    SpelledHeader(c);
    forall i | 0 <= i < |ChunkKinds(c)|
      ensures WriteChunk(c)[i] == Spelling(ChunkKinds(c), i)
    {
      if i > 0 {
        SpelledBody(c, i - 1);
      }
    }
  }

  lemma {:induction false} SpelledChunks(chunks: seq<Chunk>)
    requires SafeChunks(chunks)
    ensures Spells(WriteChunks(chunks), ChunksKinds(chunks))
    ensures ChunksKinds(chunks) == [] || ChunksKinds(chunks)[0].ChunkStart?
    decreases |chunks|
  {
    if chunks != [] {
      var n := |chunks| - 1;
      SpelledChunks(chunks[..n]);
      SpelledChunk(chunks[n]);
      SpellsConcat(WriteChunks(chunks[..n]), ChunksKinds(chunks[..n]), WriteChunk(chunks[n]), ChunkKinds(chunks[n]));
    }
  }

  lemma SpelledPatch(p: Patch)
    requires SafeChunks(p.chunks)
    ensures Spells(WritePatch(p), PatchKinds(p))
  {
    SpelledChunks(p.chunks);
    SpellsConcat(["--- " + p.src, "+++ " + p.dst], [SrcFile(p.src), DstFile(p.dst)], WriteChunks(p.chunks),
                 ChunksKinds(p.chunks));
  }

  lemma {:induction false} SpelledPatches(ps: seq<Patch>)
    requires Safe(ps)
    ensures Spells(WritePatches(ps), PatchesKinds(ps))
    decreases |ps|
  {
    if ps != [] {
      var n := |ps| - 1;
      SpelledPatches(ps[..n]);
      SpelledPatch(ps[n]);
      SpellsConcat(WritePatches(ps[..n]), PatchesKinds(ps[..n]), WritePatch(ps[n]), PatchKinds(ps[n]));
    }
  }

  // Written listings are in order

  /** The last line so far may have body lines behind it. */
  predicate InChunk(kinds: seq<Kind>) {
    kinds != [] && (kinds[|kinds| - 1].ChunkStart? || kinds[|kinds| - 1].Body?)
  }

  lemma OrderedSnoc(kinds: seq<Kind>, kind: Kind)
    requires Ordered(kinds)
    requires (kind.ChunkStart? && kinds != []) || (kind.Body? && InChunk(kinds))
    ensures Ordered(kinds + [kind])
  {
    var more := kinds + [kind];
    forall i | 0 <= i < |more|
      ensures FitsAt(more, i)
    {
      if i < |kinds| {
        assert FitsAt(kinds, i);
      }
    }
  }

  lemma OrderedFiles(kinds: seq<Kind>, src: Text, dst: Text)
    requires Ordered(kinds)
    ensures Ordered(kinds + [SrcFile(src), DstFile(dst)])
  {
    var more := kinds + [SrcFile(src), DstFile(dst)];
    forall i | 0 <= i < |more|
      ensures FitsAt(more, i)
    {
      if i < |kinds| {
        assert FitsAt(kinds, i);
      }
    }
  }

  lemma {:induction false} OrderedLines(kinds: seq<Kind>, lines: seq<Line>)
    requires Ordered(kinds) && InChunk(kinds) && SafeLines(lines)
    ensures Ordered(kinds + LineKinds(lines)) && InChunk(kinds + LineKinds(lines))
    decreases |lines|
  {
    if lines == [] {
      assert kinds + [] == kinds;
    } else {
      var n := |lines| - 1;
      OrderedLines(kinds, lines[..n]);
      OrderedSnoc(kinds + LineKinds(lines[..n]), Body(lines[n]));
      ConcatAssociative(kinds, LineKinds(lines[..n]), [Body(lines[n])]);
    }
  }

  lemma {:induction false} OrderedChunks(kinds: seq<Kind>, chunks: seq<Chunk>)
    requires Ordered(kinds) && kinds != [] && SafeChunks(chunks)
    ensures Ordered(kinds + ChunksKinds(chunks))
    decreases |chunks|
  {
    if chunks == [] {
      assert kinds + [] == kinds;
    } else {
      var n := |chunks| - 1;
      var c, before := chunks[n], kinds + ChunksKinds(chunks[..n]);
      OrderedChunks(kinds, chunks[..n]);
      OrderedSnoc(before, ChunkStart(c.srcPos, c.dstPos));
      OrderedLines(before + [ChunkStart(c.srcPos, c.dstPos)], c.lines);
      ConcatAssociative(before, [ChunkStart(c.srcPos, c.dstPos)], LineKinds(c.lines));
      ConcatAssociative(kinds, ChunksKinds(chunks[..n]), ChunkKinds(c));
    }
  }

  lemma {:induction false} OrderedPatches(ps: seq<Patch>)
    requires Safe(ps)
    ensures Ordered(PatchesKinds(ps))
    decreases |ps|
  {
    if ps != [] {
      var n := |ps| - 1;
      var p, before := ps[n], PatchesKinds(ps[..n]);
      OrderedPatches(ps[..n]);
      OrderedFiles(before, p.src, p.dst);
      OrderedChunks(before + [SrcFile(p.src), DstFile(p.dst)], p.chunks);
      ConcatAssociative(before, [SrcFile(p.src), DstFile(p.dst)], ChunksKinds(p.chunks));
    }
  }

  // Reading an ordered listing

  lemma OrderedPrefix(kinds: seq<Kind>, n: nat)
    requires Ordered(kinds) && n <= |kinds| && (n > 0 ==> !kinds[n - 1].SrcFile?)
    ensures Ordered(kinds[..n])
  {
    forall i | 0 <= i < n
      ensures FitsAt(kinds[..n], i)
    {
      assert FitsAt(kinds, i);
    }
  }

  lemma KindsWithNewPatch(ps: seq<Patch>, src: Text, dst: Text)
    ensures PatchesKinds(ps + [Patch(src, dst, [])]) == PatchesKinds(ps) + [SrcFile(src), DstFile(dst)]
  {
    assert (ps + [Patch(src, dst, [])])[..|ps|] == ps;
    assert PatchKinds(Patch(src, dst, [])) == [SrcFile(src), DstFile(dst)];
  }

  /** Changing the last patch changes the end of the kinds. */
  lemma KindsWithLast(ps: seq<Patch>, p: Patch, tail: seq<Kind>)
    requires ps != [] && PatchKinds(p) == PatchKinds(ps[|ps| - 1]) + tail
    ensures PatchesKinds(ps[|ps| - 1 := p]) == PatchesKinds(ps) + tail
  {
    var n := |ps| - 1;
    assert ps[n := p][..n] == ps[..n];
    ConcatAssociative(PatchesKinds(ps[..n]), PatchKinds(ps[n]), tail);
  }

  lemma KindsWithNewChunk(p: Patch, a: nat, c: nat)
    ensures PatchKinds(p.(chunks := p.chunks + [Chunk(a, c, [])])) == PatchKinds(p) + [ChunkStart(a, c)]
  {
    var chunks := p.chunks + [Chunk(a, c, [])];
    assert chunks[..|p.chunks|] == p.chunks;
    assert ChunkKinds(Chunk(a, c, [])) == [ChunkStart(a, c)];
    ConcatAssociative([SrcFile(p.src), DstFile(p.dst)], ChunksKinds(p.chunks), [ChunkStart(a, c)]);
  }

  lemma ChunkKindsWithLine(c: Chunk, l: Line)
    requires SafeLine(l)
    ensures ChunkKinds(c.(lines := c.lines + [l])) == ChunkKinds(c) + [Body(l)]
  {
    assert (c.lines + [l])[..|c.lines|] == c.lines;
    ConcatAssociative([ChunkStart(c.srcPos, c.dstPos)], LineKinds(c.lines), [Body(l)]);
  }

  lemma KindsWithLine(p: Patch, l: Line)
    requires p.chunks != [] && SafeLine(l)
    ensures PatchKinds(AddLine(p, l)) == PatchKinds(p) + [Body(l)]
  {
    var n := |p.chunks| - 1;
    var c := p.chunks[n].(lines := p.chunks[n].lines + [l]);
    assert p.chunks[n := c][..n] == p.chunks[..n];
    ChunkKindsWithLine(p.chunks[n], l);
    ConcatAssociative(ChunksKinds(p.chunks[..n]), ChunkKinds(p.chunks[n]), [Body(l)]);
    ConcatAssociative([SrcFile(p.src), DstFile(p.dst)], ChunksKinds(p.chunks), [Body(l)]);
  }

  /** What has been read so far shows every kind read. */
  ghost predicate Shows(st: State, kinds: seq<Kind>) {
    && WellOpened(st) && PatchesKinds(st.patches) == kinds
    && (InChunk(kinds) ==> st.open == Some(|st.patches| - 1))
  }

  lemma ApplyShows(st: State, kinds: seq<Kind>, kind: Kind)
    requires Shows(st, kinds)
    requires (kind.ChunkStart? && kinds != []) || (kind.Body? && InChunk(kinds) && SafeLine(kind.line))
    ensures Apply(st, kind).Ok? && Shows(Apply(st, kind).value, kinds + [kind])
  {
    var n := |st.patches| - 1;
    var p := st.patches[n];
    if kind.ChunkStart? {
      KindsWithNewChunk(p, kind.srcPos, kind.dstPos);
      KindsWithLast(st.patches, p.(chunks := p.chunks + [Chunk(kind.srcPos, kind.dstPos, [])]), [kind]);
    } else {
      KindsWithLine(p, kind.line);
      KindsWithLast(st.patches, AddLine(p, kind.line), [kind]);
    }
  }

  lemma {:induction false} ReadOrdered(kinds: seq<Kind>) returns (st: State)
    requires Ordered(kinds) && SafeBodies(kinds)
    ensures ReadFrom(State([], None), kinds) == Ok(st) && Shows(st, kinds)
    decreases |kinds|
  {
    var n := |kinds| - 1;
    if kinds == [] {
      st := State([], None);
    } else {
      assert FitsAt(kinds, n);
      if kinds[n].DstFile? {
        var before := kinds[..n - 1];
        var src, dst := kinds[n - 1].name, kinds[n].name;
        if n > 1 {
          assert FitsAt(kinds, n - 2);
        }
        OrderedPrefix(kinds, n - 1);
        var mid := ReadOrdered(before);
        assert kinds == before + [SrcFile(src), DstFile(dst)];
        ReadConcat(State([], None), before, [SrcFile(src), DstFile(dst)]);
        ReadFiles(mid, src, dst);
        KindsWithNewPatch(mid.patches, src, dst);
        st := State(mid.patches + [Patch(src, dst, [])], mid.open);
      } else {
        assert n > 0 && FitsAt(kinds, n - 1);
        OrderedPrefix(kinds, n);
        var mid := ReadOrdered(kinds[..n]);
        PrefixStep(kinds, n);
        PrefixStep(kinds, n + 1);
        ReadConcat(State([], None), kinds[..n], [kinds[n]]);
        ReadOne(mid, kinds[n]);
        ApplyShows(mid, kinds[..n], kinds[n]);
        st := Apply(mid, kinds[n]).value;
      }
    }
  }

  // The law

  /** Apart from chunk headers, a line is spelled by its kind. */
  lemma ClassifyBack(line: Text)
    ensures match Classify(line)
            case SrcFile(name) => line == "--- " + name
            case DstFile(name) => line == "+++ " + name
            case Body(l) => line == WriteLine(l) && SafeLine(l)
            case _ => true
  {
  }

  lemma ListingSpells(lines: seq<Text>)
    requires Canonical(lines)
    ensures Spells(lines, Kinds(lines)) && SafeBodies(Kinds(lines))
  {
    var kinds := Kinds(lines);
    forall i | 0 <= i < |lines|
      ensures lines[i] == Spelling(kinds, i)
      ensures kinds[i].Body? ==> SafeLine(kinds[i].line)
    {
      KindsAt(lines, i);
      ClassifyBack(lines[i]);
      assert FitsAt(kinds, i);
    }
  }

  /** Nothing is lost in reading, so no line that was read is unsafe. */
  lemma ReadIsSafe(kinds: seq<Kind>, st: State)
    requires ReadFrom(State([], None), kinds) == Ok(st) && PatchesKinds(st.patches) == kinds
    ensures Safe(st.patches)
  {
    ReadCounts(State([], None), kinds);
    PatchBodies(st.patches);
  }

  lemma WrittenIsCanonical(ps: seq<Patch>)
    requires Safe(ps)
    ensures Canonical(WritePatches(ps))
  {
    KindsOfPatches(ps);
    OrderedPatches(ps);
    SpelledPatches(ps);
    forall i | 0 <= i < |PatchesKinds(ps)|
      ensures WritePatches(ps)[i] == Spelling(PatchesKinds(ps), i)
    {
    }
  }

  /** Reading a listing and writing the patches reproduces it line for line exactly when file headers come in pairs,
      body lines stand behind chunk headers, and these are spelled as they are written, with the right counts. */
  lemma WriteParseIffCanonical(lines: seq<Text>)
    ensures Canonical(lines) <==> Parse(lines).Ok? && WritePatches(Parse(lines).value) == lines
  {
    if Canonical(lines) {
      ListingSpells(lines);
      var st := ReadOrdered(Kinds(lines));
      ReadIsSafe(Kinds(lines), st);
      SpelledPatches(st.patches);
      SpellsOnce(lines, WritePatches(st.patches), Kinds(lines));
    }
    if Parse(lines).Ok? && WritePatches(Parse(lines).value) == lines {
      RoundTripIffSafe(Parse(lines).value);
      WrittenIsCanonical(Parse(lines).value);
    }
  }
}
