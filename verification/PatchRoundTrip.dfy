/** Writing a patch set and reading it back. */
module PatchRoundTrip {
  import opened Wrappers
  import opened PatchText

  predicate LinesOk(ls: seq<Line>) { forall i :: 0 <= i < |ls| ==> NoNewline(ls[i].text) }

  predicate ChunksOk(cs: seq<Chunk>) { forall i :: 0 <= i < |cs| ==> LinesOk(cs[i].lines) }

  /** No name and no text contains a newline. */
  predicate PatchesOk(ps: seq<Patch>) {
    forall i :: 0 <= i < |ps| ==> NoNewline(ps[i].src) && NoNewline(ps[i].dst) && ChunksOk(ps[i].chunks)
  }

  // ---------- Clashes ----------

  function DelClashes(ls: seq<Line>): nat {
    if ls == [] then 0 else (if ls[0].kind.Src? && Clashes(ls[0]) then 1 else 0) + DelClashes(ls[1..])
  }

  function AddClashes(ls: seq<Line>): nat {
    if ls == [] then 0 else (if ls[0].kind.Dst? && Clashes(ls[0]) then 1 else 0) + AddClashes(ls[1..])
  }

  /** All lines of a patch set, in order. */
  function ChunkLines(cs: seq<Chunk>): seq<Line> {
    if cs == [] then [] else cs[0].lines + ChunkLines(cs[1..])
  }

  function AllLines(ps: seq<Patch>): seq<Line> {
    if ps == [] then [] else ChunkLines(ps[0].chunks) + AllLines(ps[1..])
  }

  predicate NoClash(ls: seq<Line>) { forall i :: 0 <= i < |ls| ==> !Clashes(ls[i]) }

  // ---------- Reading what was written ----------

  lemma {:induction false} ReadConcat(r: Reader, a: seq<string>, b: seq<string>)
    requires ReaderOk(r)
    ensures Read(r, a + b) == match Read(r, a) case Err(e) => Err(e) case Ok(q) => Read(q, b)
    decreases |a|
  {
    hide Take, Classify;
    if a == [] {
      assert a + b == b;
    } else {
      assert (a + b)[1..] == a[1..] + b;
      var q := Take(r, Classify(a[0]));
      if q.Ok? { ReadConcat(q.value, a[1..], b); }
    }
  }

  lemma ReadNone(r: Reader)
    requires ReaderOk(r)
    ensures Read(r, []) == Ok(r)
  {}

  lemma ReadOne(r: Reader, line: string)
    requires ReaderOk(r)
    ensures Read(r, [line]) == Take(r, Classify(line))
  {
    hide Take, Classify;
    assert [line][1..] == [];
  }

  /** A reader in the middle of the last chunk of the last patch. */
  function InChunk(before: seq<Patch>, p: Patch, c: Chunk): (r: Reader)
    ensures ReaderOk(r)
  {
    Reader(before + [p.(chunks := p.chunks + [c])], Some(|before|))
  }

  lemma TakeBody(before: seq<Patch>, p: Patch, c: Chunk, l: Line)
    ensures Take(InChunk(before, p, c), Body(l)) == Ok(InChunk(before, p, c.(lines := c.lines + [l])))
  {
    var r := InChunk(before, p, c);
    var i := |before|;
    var p1 := r.patches[i];
    assert p1.chunks[|p1.chunks| - 1] == c;
    var c' := c.(lines := c.lines + [l]);
    assert p1.chunks[|p.chunks| := c'] == p.chunks + [c'];
    assert r.patches[i := p.(chunks := p.chunks + [c'])] == before + [p.(chunks := p.chunks + [c'])];
  }

  lemma {:induction false} ReadLines(before: seq<Patch>, p: Patch, c: Chunk, ls: seq<Line>)
    requires LinesOk(ls) && NoClash(ls)
    ensures Read(InChunk(before, p, c), WriteLines(ls)) == Ok(InChunk(before, p, c.(lines := c.lines + ls)))
    decreases |ls|
  {
    hide Classify, Take, InChunk, WriteLine, Read;
    ReadNone(InChunk(before, p, c));
    if ls == [] {
      assert c.lines + ls == c.lines;
    } else {
      ReadConcat(InChunk(before, p, c), [WriteLine(ls[0])], WriteLines(ls[1..]));
      ReadOne(InChunk(before, p, c), WriteLine(ls[0]));
      ClassifyLine(ls[0]);
      TakeBody(before, p, c, ls[0]);
      LinesTail(ls);
      ReadLines(before, p, c.(lines := c.lines + [ls[0]]), ls[1..]);
      assert c.lines + [ls[0]] + ls[1..] == c.lines + ls;
    }
  }

  lemma LinesTail(ls: seq<Line>)
    requires ls != []
    ensures LinesOk(ls) ==> LinesOk(ls[1..])
    ensures NoClash(ls) ==> NoClash(ls[1..])
  {}

  lemma TakeHeader(before: seq<Patch>, p: Patch, owner: Option<nat>, a: nat, b: nat)
    requires ReaderOk(Reader(before + [p], owner))
    ensures Take(Reader(before + [p], owner), Header(a, b)) == Ok(InChunk(before, p, Chunk(a, b, [])))
  {
    var ps := before + [p];
    assert ps[|ps| - 1] == p;
    var p' := p.(chunks := p.chunks + [Chunk(a, b, [])]);
    assert ps[|ps| - 1 := p'] == before + [p'];
  }

  /** Where the current chunk is after reading some chunks of the last patch. */
  function OwnerAfter(before: seq<Patch>, owner: Option<nat>, cs: seq<Chunk>): Option<nat> {
    if cs == [] then owner else Some(|before|)
  }

  lemma ReadChunk(before: seq<Patch>, p: Patch, owner: Option<nat>, c: Chunk)
    requires ReaderOk(Reader(before + [p], owner)) && LinesOk(c.lines) && NoClash(c.lines)
    ensures Read(Reader(before + [p], owner), [ChunkHeader(c)] + WriteLines(c.lines)) == Ok(InChunk(before, p, c))
  {
    hide Classify, Take, InChunk, ChunkHeader, WriteLines, LinesOk, NoClash;
    var r := Reader(before + [p], owner);
    ReadConcat(r, [ChunkHeader(c)], WriteLines(c.lines));
    ReadOne(r, ChunkHeader(c));
    ClassifyHeader(c);
    TakeHeader(before, p, owner, c.srcPos, c.dstPos);
    ReadLines(before, p, Chunk(c.srcPos, c.dstPos, []), c.lines);
    assert [] + c.lines == c.lines;
  }

  lemma ChunksTail(cs: seq<Chunk>)
    requires cs != [] && ChunksOk(cs) && NoClash(ChunkLines(cs))
    ensures LinesOk(cs[0].lines) && NoClash(cs[0].lines)
    ensures ChunksOk(cs[1..]) && NoClash(ChunkLines(cs[1..]))
  {
    NoClashParts(cs[0].lines, ChunkLines(cs[1..]));
  }

  lemma NoClashParts(a: seq<Line>, b: seq<Line>)
    ensures NoClash(a + b) <==> NoClash(a) && NoClash(b)
  {
    if NoClash(a + b) {
      forall i | 0 <= i < |a| ensures !Clashes(a[i]) { assert (a + b)[i] == a[i]; }
      forall i | 0 <= i < |b| ensures !Clashes(b[i]) { assert (a + b)[|a| + i] == b[i]; }
    }
  }

  lemma {:induction false} ReadChunks(before: seq<Patch>, p: Patch, owner: Option<nat>, cs: seq<Chunk>)
    requires ReaderOk(Reader(before + [p], owner)) && ChunksOk(cs) && NoClash(ChunkLines(cs))
    ensures Read(Reader(before + [p], owner), WriteChunks(cs))
            == Ok(Reader(before + [p.(chunks := p.chunks + cs)], OwnerAfter(before, owner, cs)))
    decreases |cs|
  {
    hide ChunkHeader, WriteLines, LinesOk, NoClash, ChunksOk, ChunkLines, Read;
    ReadNone(Reader(before + [p], owner));
    if cs == [] {
      assert p.chunks + cs == p.chunks;
    } else {
      var r := Reader(before + [p], owner);
      var head := [ChunkHeader(cs[0])] + WriteLines(cs[0].lines);
      ChunksTail(cs);
      ReadConcat(r, head, WriteChunks(cs[1..]));
      ReadChunk(before, p, owner, cs[0]);
      var p1 := p.(chunks := p.chunks + [cs[0]]);
      assert (before + [p1])[|before|] == p1;
      ReadChunks(before, p1, Some(|before|), cs[1..]);
      assert p.chunks + [cs[0]] + cs[1..] == p.chunks + cs;
    }
  }

  lemma ReadFileHeaders(before: seq<Patch>, owner: Option<nat>, src: string, dst: string)
    requires ReaderOk(Reader(before, owner)) && NoNewline(src) && NoNewline(dst)
    ensures Read(Reader(before, owner), ["--- " + src + "\n", "+++ " + dst + "\n"])
            == Ok(Reader(before + [Patch(src, dst, [])], owner))
  {
    hide Classify;
    var r := Reader(before, owner);
    var a, b := "--- " + src + "\n", "+++ " + dst + "\n";
    assert [a, b] == [a] + [b];
    ReadConcat(r, [a], [b]);
    ReadOne(r, a);
    ClassifyFrom(src);
    var r1 := Reader(before + [Patch(src, "", [])], owner);
    ReadOne(r1, b);
    ClassifyTo(dst);
    var n := |before|;
    assert r1.patches[n := Patch(src, dst, [])] == before + [Patch(src, dst, [])];
  }

  lemma ReadPatch(before: seq<Patch>, owner: Option<nat>, p: Patch)
    requires ReaderOk(Reader(before, owner)) && PatchesOk([p]) && NoClash(ChunkLines(p.chunks))
    ensures Read(Reader(before, owner), WritePatch(p))
            == Ok(Reader(before + [p], OwnerAfter(before, owner, p.chunks)))
  {
    hide WriteChunks, NoClash, ChunkLines, ChunksOk, NoNewline;
    assert [p][0] == p;
    var r := Reader(before, owner);
    var head := ["--- " + p.src + "\n", "+++ " + p.dst + "\n"];
    ReadFileHeaders(before, owner, p.src, p.dst);
    ReadConcat(r, head, WriteChunks(p.chunks));
    var p0 := Patch(p.src, p.dst, []);
    assert ReaderOk(Reader(before + [p0], owner));
    ReadChunks(before, p0, owner, p.chunks);
    assert [] + p.chunks == p.chunks;
  }

  lemma {:induction false} ReadPatches(before: seq<Patch>, owner: Option<nat>, ps: seq<Patch>)
    requires ReaderOk(Reader(before, owner)) && PatchesOk(ps) && NoClash(AllLines(ps))
    ensures Read(Reader(before, owner), WritePatchset(ps)).Ok?
    ensures Read(Reader(before, owner), WritePatchset(ps)).value.patches == before + ps
    decreases |ps|
  {
    hide WritePatch, NoClash, ChunkLines, ChunksOk, NoNewline, Read;
    ReadNone(Reader(before, owner));
    if ps == [] {
      assert before + ps == before;
    } else {
      NoClashParts(ChunkLines(ps[0].chunks), AllLines(ps[1..]));
      ReadConcat(Reader(before, owner), WritePatch(ps[0]), WritePatchset(ps[1..]));
      ReadPatch(before, owner, ps[0]);
      var owner' := OwnerAfter(before, owner, ps[0].chunks);
      assert ReaderOk(Reader(before + [ps[0]], owner'));
      ReadPatches(before + [ps[0]], owner', ps[1..]);
      assert before + [ps[0]] + ps[1..] == before + ps;
    }
  }

  // ---------- What goes wrong otherwise ----------

  function Froms(lines: seq<string>): nat {
    if lines == [] then 0 else (if Classify(lines[0]).FileFrom? then 1 else 0) + Froms(lines[1..])
  }

  function Bodies(lines: seq<string>): nat {
    if lines == [] then 0 else (if Classify(lines[0]).Body? then 1 else 0) + Bodies(lines[1..])
  }

  lemma {:induction false} Counts(a: seq<string>, b: seq<string>)
    ensures Froms(a + b) == Froms(a) + Froms(b) && Bodies(a + b) == Bodies(a) + Bodies(b)
    decreases |a|
  {
    hide Classify;
    if a == [] {
      assert a + b == b;
    } else {
      Counts(a[1..], b);
      assert (a + b)[1..] == a[1..] + b;
    }
  }

  function LinesInChunks(cs: seq<Chunk>): nat {
    if cs == [] then 0 else LinesInChunks(cs[..|cs| - 1]) + |cs[|cs| - 1].lines|
  }

  function LinesIn(ps: seq<Patch>): nat {
    if ps == [] then 0 else LinesIn(ps[..|ps| - 1]) + LinesInChunks(ps[|ps| - 1].chunks)
  }

  lemma {:induction false} LinesUpdate(ps: seq<Patch>, i: nat, p: Patch)
    requires i < |ps|
    ensures LinesIn(ps[i := p]) + LinesInChunks(ps[i].chunks) == LinesIn(ps) + LinesInChunks(p.chunks)
    decreases |ps|
  {
    hide LinesInChunks;
    var last := |ps| - 1;
    if i == last {
      assert ps[i := p][..last] == ps[..last];
    } else {
      assert ps[i := p][..last] == ps[..last][i := p];
      LinesUpdate(ps[..last], i, p);
    }
  }

  /** Each file header adds one patch and each body line one line. */
  lemma TakeCounts(r: Reader, form: Form)
    requires ReaderOk(r) && Take(r, form).Ok?
    ensures var q := Take(r, form).value;
      |q.patches| == |r.patches| + (if form.FileFrom? then 1 else 0) &&
      LinesIn(q.patches) == LinesIn(r.patches) + (if form.Body? then 1 else 0)
  {
    hide LinesIn, LinesInChunks;
    var n := |r.patches|;
    match form
    case FileFrom(name) =>
      OnePatchMore(r.patches, Patch(name, "", []));
      NoChunks();
    case FileTo(name) =>
      LinesUpdate(r.patches, n - 1, r.patches[n - 1].(dst := name));
    case Header(a, b) =>
      var p := r.patches[n - 1];
      LinesUpdate(r.patches, n - 1, p.(chunks := p.chunks + [Chunk(a, b, [])]));
      OneChunkMore(p.chunks, Chunk(a, b, []));
    case Body(l) =>
      var p := r.patches[r.owner.value];
      var last := |p.chunks| - 1;
      var c := p.chunks[last];
      var cs := p.chunks[last := c.(lines := c.lines + [l])];
      LinesUpdate(r.patches, r.owner.value, p.(chunks := cs));
      OneChunkMore(p.chunks[..last], c);
      OneChunkMore(p.chunks[..last], c.(lines := c.lines + [l]));
      assert p.chunks == p.chunks[..last] + [c] && cs == p.chunks[..last] + [c.(lines := c.lines + [l])];
    case Unknown =>
  }

  lemma OnePatchMore(ps: seq<Patch>, p: Patch)
    ensures LinesIn(ps + [p]) == LinesIn(ps) + LinesInChunks(p.chunks)
  {
    assert (ps + [p])[..|ps|] == ps;
  }

  lemma OneChunkMore(cs: seq<Chunk>, c: Chunk)
    ensures LinesInChunks(cs + [c]) == LinesInChunks(cs) + |c.lines|
  {
    assert (cs + [c])[..|cs|] == cs;
  }

  lemma {:induction false} ReadCounts(r: Reader, lines: seq<string>)
    requires ReaderOk(r) && Read(r, lines).Ok?
    ensures var q := Read(r, lines).value;
      |q.patches| == |r.patches| + Froms(lines) && LinesIn(q.patches) == LinesIn(r.patches) + Bodies(lines)
    decreases |lines|
  {
    hide Take, Classify, LinesIn;
    if lines != [] {
      TakeCounts(r, Classify(lines[0]));
      ReadCounts(Take(r, Classify(lines[0])).value, lines[1..]);
    }
  }

  lemma {:induction false} WrittenLineCounts(ls: seq<Line>)
    requires LinesOk(ls)
    ensures Froms(WriteLines(ls)) == DelClashes(ls)
    ensures Bodies(WriteLines(ls)) + DelClashes(ls) + AddClashes(ls) == |ls|
    decreases |ls|
  {
    hide Classify, WriteLine;
    if ls != [] {
      LinesTail(ls);
      WrittenLineCounts(ls[1..]);
      ClassifyLine(ls[0]);
      assert WriteLines(ls)[1..] == WriteLines(ls[1..]);
    }
  }

  lemma {:induction false} ClashCounts(a: seq<Line>, b: seq<Line>)
    ensures DelClashes(a + b) == DelClashes(a) + DelClashes(b)
    ensures AddClashes(a + b) == AddClashes(a) + AddClashes(b)
    decreases |a|
  {
    hide Clashes;
    if a == [] {
      assert a + b == b;
    } else {
      ClashCounts(a[1..], b);
      assert (a + b)[1..] == a[1..] + b;
    }
  }

  lemma {:induction false} WrittenChunkCounts(cs: seq<Chunk>)
    requires ChunksOk(cs)
    ensures Froms(WriteChunks(cs)) == DelClashes(ChunkLines(cs))
    ensures Bodies(WriteChunks(cs)) + DelClashes(ChunkLines(cs)) + AddClashes(ChunkLines(cs)) == |ChunkLines(cs)|
    decreases |cs|
  {
    hide Classify, ChunkHeader, WriteLines, LinesOk, DelClashes, AddClashes;
    NoLines();
    if cs != [] {
      var ls := cs[0].lines;
      ClassifyHeader(cs[0]);
      OneCount(ChunkHeader(cs[0]));
      WrittenLineCounts(ls);
      WrittenChunkCounts(cs[1..]);
      Counts([ChunkHeader(cs[0])], WriteLines(ls));
      Counts([ChunkHeader(cs[0])] + WriteLines(ls), WriteChunks(cs[1..]));
      ClashCounts(ls, ChunkLines(cs[1..]));
    }
  }

  lemma NoLines()
    ensures DelClashes([]) == 0 && AddClashes([]) == 0
  {}

  lemma OneCount(line: string)
    ensures Froms([line]) == if Classify(line).FileFrom? then 1 else 0
    ensures Bodies([line]) == if Classify(line).Body? then 1 else 0
  {
    hide Classify;
    assert [line][1..] == [];
  }

  lemma WrittenPatchCounts(p: Patch)
    requires PatchesOk([p])
    ensures Froms(WritePatch(p)) == 1 + DelClashes(ChunkLines(p.chunks))
    ensures Bodies(WritePatch(p)) + DelClashes(ChunkLines(p.chunks)) + AddClashes(ChunkLines(p.chunks))
            == |ChunkLines(p.chunks)|
  {
    hide Classify, WriteChunks, DelClashes, AddClashes, ChunkLines, NoNewline;
    assert [p][0] == p;
    var a, b := "--- " + p.src + "\n", "+++ " + p.dst + "\n";
    ClassifyFrom(p.src);
    ClassifyTo(p.dst);
    OneCount(a);
    OneCount(b);
    assert [a, b] == [a] + [b];
    Counts([a], [b]);
    Counts([a, b], WriteChunks(p.chunks));
    WrittenChunkCounts(p.chunks);
  }

  lemma {:induction false} WrittenCounts(ps: seq<Patch>)
    requires PatchesOk(ps)
    ensures Froms(WritePatchset(ps)) == |ps| + DelClashes(AllLines(ps))
    ensures Bodies(WritePatchset(ps)) + DelClashes(AllLines(ps)) + AddClashes(AllLines(ps)) == |AllLines(ps)|
    decreases |ps|
  {
    hide WritePatch, DelClashes, AddClashes, ChunkLines, NoNewline, ChunksOk;
    NoLines();
    if ps != [] {
      WrittenPatchCounts(ps[0]);
      WrittenCounts(ps[1..]);
      Counts(WritePatch(ps[0]), WritePatchset(ps[1..]));
      ClashCounts(ChunkLines(ps[0].chunks), AllLines(ps[1..]));
    }
  }

  lemma {:induction false} NoClashMeans(ls: seq<Line>)
    ensures NoClash(ls) <==> DelClashes(ls) == 0 && AddClashes(ls) == 0
    decreases |ls|
  {
    hide Clashes;
    if ls != [] {
      NoClashMeans(ls[1..]);
      NoClashParts([ls[0]], ls[1..]);
      assert [ls[0]] + ls[1..] == ls;
      assert ls[0].kind.Both? ==> !Clashes(ls[0]) by { BothNeverClashes(ls[0]); }
    }
  }

  lemma BothNeverClashes(l: Line)
    ensures l.kind.Both? ==> !Clashes(l)
  {}

  lemma {:induction false} ChunkTotals(cs: seq<Chunk>, more: seq<Chunk>)
    ensures LinesInChunks(cs + more) == LinesInChunks(cs) + |ChunkLines(more)|
    decreases |more|
  {
    if more == [] {
      assert cs + more == cs;
    } else {
      ChunkTotals(cs + [more[0]], more[1..]);
      assert cs + [more[0]] + more[1..] == cs + more;
      assert (cs + [more[0]])[..|cs|] == cs;
    }
  }

  lemma {:induction false} Totals(ps: seq<Patch>, more: seq<Patch>)
    ensures LinesIn(ps + more) == LinesIn(ps) + |AllLines(more)|
    decreases |more|
  {
    hide LinesInChunks, ChunkLines;
    if more == [] {
      assert ps + more == ps;
    } else {
      Totals(ps + [more[0]], more[1..]);
      assert ps + [more[0]] + more[1..] == ps + more;
      assert (ps + [more[0]])[..|ps|] == ps;
      ChunkTotals([], more[0].chunks);
      assert [] + more[0].chunks == more[0].chunks;
      NoChunks();
    }
  }

  lemma NoChunks()
    ensures LinesInChunks([]) == 0
  {}

  /** Reading back what was written gives the same patch set if and only if no
      deleted line starts with "-- " and no added line with "++ ". */
  lemma RoundTripExactlyWhen(ps: seq<Patch>)
    requires PatchesOk(ps)
    ensures ParsePatchset(WritePatchset(ps)) == Ok(ps) <==> NoClash(AllLines(ps))
  {
    hide WritePatchset, NoClash, AllLines, PatchesOk, DelClashes, AddClashes, Read, LinesIn;
    NoClashMeans(AllLines(ps));
    if NoClash(AllLines(ps)) {
      ReadPatches([], None, ps);
      assert [] + ps == ps;
    } else if Read(Reader([], None), WritePatchset(ps)).Ok? {
      ReadCounts(Reader([], None), WritePatchset(ps));
      WrittenCounts(ps);
      Totals([], ps);
      assert [] + ps == ps;
      NoPatches();
    }
  }

  lemma NoPatches()
    ensures LinesIn([]) == 0
  {}
}
