/** The rewrite over a whole patch set: which chunks it reaches, when a second
pass changes something, and when the result can still be read back. */
module PatchWhole {
  import opened Wrappers
  import opened PatchText
  import opened PatchRoundTrip
  import opened PatchRewrite

  // ---------- The rewrite on values ----------

  function TextsIn(ls: seq<Line>): (ts: seq<string>)
    ensures |ts| == |ls|
  {
    seq(|ls|, i requires 0 <= i < |ls| => ls[i].text)
  }

  function WithTexts(ls: seq<Line>, texts: seq<string>): (r: seq<Line>)
    requires |texts| == |ls|
    ensures |r| == |ls| && KindsIn(r) == KindsIn(ls) && TextsIn(r) == texts
  {
    seq(|ls|, i requires 0 <= i < |ls| => Line(ls[i].kind, texts[i]))
  }

  function RewriteLines(ls: seq<Line>): seq<Line> { WithTexts(ls, Rewritten(KindsIn(ls), TextsIn(ls))) }

  function RewriteChunk(c: Chunk): Chunk { c.(lines := RewriteLines(c.lines)) }

  /** The old side is not longer than the new one, so the chunk's loop completes. */
  predicate Fits(ls: seq<Line>) { |SrcAt(KindsIn(ls))| <= |DstAt(KindsIn(ls))| }

  predicate AllFit(cs: seq<Chunk>) { forall c :: 0 <= c < |cs| ==> Fits(cs[c].lines) }

  /** Chunk after chunk; the first that does not fit is the last one touched. */
  function RewriteChunks(cs: seq<Chunk>): (r: seq<Chunk>)
    ensures |r| == |cs|
  {
    if cs == [] then []
    else [RewriteChunk(cs[0])] + if Fits(cs[0].lines) then RewriteChunks(cs[1..]) else cs[1..]
  }

  /** All patches; the early return leaves the later ones alone as well. */
  function RewriteAll(ps: seq<Patch>): (r: seq<Patch>)
    ensures |r| == |ps|
  {
    if ps == [] then []
    else
      [ps[0].(chunks := RewriteChunks(ps[0].chunks))] +
      if AllFit(ps[0].chunks) then RewriteAll(ps[1..]) else ps[1..]
  }

  /** The chunks of a patch set, in order. */
  function Chunks(ps: seq<Patch>): seq<Chunk> {
    if ps == [] then [] else ps[0].chunks + Chunks(ps[1..])
  }

  // ---------- Reached chunks ----------

  lemma {:induction false} RewriteAt(cs: seq<Chunk>, c: nat)
    requires c < |cs|
    ensures RewriteChunks(cs)[c] == if AllFit(cs[..c]) then RewriteChunk(cs[c]) else cs[c]
  {
    hide Fits, RewriteChunk;
    if c > 0 {
      RewriteAt(cs[1..], c - 1);
      AllFitSplit(cs[..1], cs[1..c]);
      assert cs[..1] + cs[1..c] == cs[..c] && cs[1..][..c - 1] == cs[1..c];
      assert AllFit(cs[..1]) <==> Fits(cs[0].lines) by { assert cs[..1][0] == cs[0]; }
    }
  }

  lemma AllFitSplit(a: seq<Chunk>, b: seq<Chunk>)
    ensures AllFit(a + b) <==> AllFit(a) && AllFit(b)
  {
    hide Fits;
    if AllFit(a + b) {
      forall c | 0 <= c < |b| ensures Fits(b[c].lines) { assert (a + b)[|a| + c] == b[c]; }
      forall c | 0 <= c < |a| ensures Fits(a[c].lines) { assert (a + b)[c] == a[c]; }
    }
  }

  lemma {:induction false} RewriteJoins(a: seq<Chunk>, b: seq<Chunk>)
    ensures RewriteChunks(a + b) == RewriteChunks(a) + if AllFit(a) then RewriteChunks(b) else b
    decreases |a|
  {
    hide Fits, RewriteChunk, AllFit;
    if a == [] {
      NothingUnfit();
      assert a + b == b;
    } else {
      assert (a + b)[0] == a[0] && (a + b)[1..] == a[1..] + b && a + b != [];
      RewriteJoins(a[1..], b);
      FitsFromHead(a);
    }
  }

  lemma NothingUnfit()
    ensures AllFit([])
  {}

  lemma FitsFromHead(cs: seq<Chunk>)
    requires cs != []
    ensures AllFit(cs) <==> Fits(cs[0].lines) && AllFit(cs[1..])
  {
    hide Fits;
    AllFitSplit([cs[0]], cs[1..]);
    assert [cs[0]] + cs[1..] == cs;
    assert AllFit([cs[0]]) <==> Fits(cs[0].lines) by { assert [cs[0]][0] == cs[0]; }
  }

  /** Chunk by chunk, the patches do not matter. */
  lemma {:induction false} RewriteIsFlat(ps: seq<Patch>)
    ensures Chunks(RewriteAll(ps)) == RewriteChunks(Chunks(ps))
  {
    hide AllFit, RewriteChunks;
    if ps != [] {
      var r := RewriteAll(ps);
      RewriteJoins(ps[0].chunks, Chunks(ps[1..]));
      RewriteIsFlat(ps[1..]);
      assert r[1..] == if AllFit(ps[0].chunks) then RewriteAll(ps[1..]) else ps[1..];
    }
  }

  /** Rewriting touches no kind, so it does not change which chunks fit. */
  lemma RewriteKeepsFit(cs: seq<Chunk>, n: nat)
    requires n <= |cs|
    ensures AllFit(RewriteChunks(cs)[..n]) <==> AllFit(cs[..n])
  {
    hide Rewritten, SrcAt, DstAt, RewriteChunks;
    forall c | 0 <= c < n ensures Fits(RewriteChunks(cs)[..n][c].lines) <==> Fits(cs[..n][c].lines) {
      RewriteAt(cs, c);
    }
  }

  // ---------- The second pass ----------

  predicate SameKinds(cs: seq<Chunk>, ds: seq<Chunk>) {
    |cs| == |ds| && forall c :: 0 <= c < |cs| ==> KindsIn(cs[c].lines) == KindsIn(ds[c].lines)
  }

  lemma SameKindsFit(cs: seq<Chunk>, ds: seq<Chunk>, n: nat)
    requires SameKinds(cs, ds) && n <= |cs|
    ensures AllFit(cs[..n]) <==> AllFit(ds[..n])
  {
    hide SrcAt, DstAt, KindsIn;
    forall c | 0 <= c < n ensures Fits(cs[..n][c].lines) <==> Fits(ds[..n][c].lines) {
      assert KindsIn(cs[c].lines) == KindsIn(ds[c].lines);
    }
  }

  ghost predicate StableOver(cs: seq<Chunk>, ds: seq<Chunk>) {
    SameKinds(cs, ds) ==> RewriteChunks(RewriteChunks(ds)) == RewriteChunks(ds)
  }

  /** Every chunk that is reached is settled. */
  predicate ReachedSettled(cs: seq<Chunk>) {
    forall c :: 0 <= c < |cs| && AllFit(cs[..c]) ==> Settled(KindsIn(cs[c].lines))
  }

  lemma TwiceAt(ds: seq<Chunk>, c: nat)
    requires c < |ds|
    ensures RewriteChunks(RewriteChunks(ds))[c] ==
            if AllFit(ds[..c]) then RewriteChunk(RewriteChunk(ds[c])) else ds[c]
  {
    hide RewriteChunk, AllFit, RewriteChunks;
    RewriteAt(ds, c);
    RewriteAt(RewriteChunks(ds), c);
    RewriteKeepsFit(ds, c);
  }

  /** One chunk, on lines instead of kinds and texts. */
  lemma TwiceLines(ls: seq<Line>)
    ensures RewriteLines(RewriteLines(ls)) == RewriteLines(ls) <==> StableFor(KindsIn(ls), TextsIn(ls))
  {
    hide Rewritten;
    var once, twice := RewriteLines(ls), RewriteLines(RewriteLines(ls));
    if TextsIn(twice) == TextsIn(once) {
      forall i | 0 <= i < |ls| ensures twice[i] == once[i] {
        assert TextsIn(twice)[i] == TextsIn(once)[i];
      }
    }
  }

  /** Over the whole patch set: a second pass changes nothing, whatever the texts,
      exactly when every chunk that the first pass reaches is settled. */
  lemma SecondPassOverAllExactlyWhen(cs: seq<Chunk>)
    ensures (forall ds :: StableOver(cs, ds)) <==> ReachedSettled(cs)
  {
    hide RewriteChunks, RewriteLines, AllFit, Settled, StableFor, KindsIn, TextsIn;
    if ReachedSettled(cs) {
      forall ds ensures StableOver(cs, ds) {
        if SameKinds(cs, ds) { SettledOver(cs, ds); }
      }
    } else {
      var c :| 0 <= c < |cs| && AllFit(cs[..c]) && !Settled(KindsIn(cs[c].lines));
      var ds := UnsettledOver(cs, c);
      assert !StableOver(cs, ds);
    }
  }

  lemma SettledOver(cs: seq<Chunk>, ds: seq<Chunk>)
    requires SameKinds(cs, ds) && ReachedSettled(cs)
    ensures RewriteChunks(RewriteChunks(ds)) == RewriteChunks(ds)
  {
    hide RewriteChunks, RewriteLines, AllFit, Settled, StableFor, KindsIn, TextsIn;
    forall c | 0 <= c < |ds| ensures RewriteChunks(RewriteChunks(ds))[c] == RewriteChunks(ds)[c] {
      TwiceAt(ds, c);
      RewriteAt(ds, c);
      SameKindsFit(cs, ds, c);
      if AllFit(ds[..c]) {
        assert KindsIn(cs[c].lines) == KindsIn(ds[c].lines);
        SizesOf(ds[c].lines);
        SettledIsStable(KindsIn(ds[c].lines), TextsIn(ds[c].lines));
        TwiceLines(ds[c].lines);
      }
    }
  }

  lemma SizesOf(ls: seq<Line>)
    ensures |KindsIn(ls)| == |TextsIn(ls)| == |ls|
  {}

  lemma UnsettledOver(cs: seq<Chunk>, c: nat) returns (ds: seq<Chunk>)
    requires c < |cs| && AllFit(cs[..c]) && !Settled(KindsIn(cs[c].lines))
    ensures SameKinds(cs, ds) && RewriteChunks(RewriteChunks(ds)) != RewriteChunks(ds)
  {
    hide RewriteChunks, RewriteLines, AllFit, Settled, StableFor;
    var texts := UnsettledIsUnstable(KindsIn(cs[c].lines));
    var ls := WithTexts(cs[c].lines, texts);
    ds := cs[c := cs[c].(lines := ls)];
    SameKindsFit(cs, ds, c);
    TwiceAt(ds, c);
    RewriteAt(ds, c);
    TwiceLines(ls);
    assert RewriteChunks(RewriteChunks(ds))[c] != RewriteChunks(ds)[c];
  }

  // ---------- Reading the result back ----------

  /** Some step meets the added text "++" where the old side then reads "++ ". */
  predicate Doubles(ls: seq<Line>) {
    var kinds, texts := KindsIn(ls), TextsIn(ls);
    SidesInside(kinds);
    var src, dst := SrcAt(kinds), DstAt(kinds);
    exists i :: 0 <= i < Min(|src|, |dst|) && DoublesAt(kinds, texts, src, dst, i)
  }

  predicate DoublesAt(kinds: seq<Kind>, texts: seq<string>, src: seq<nat>, dst: seq<nat>, i: nat)
    requires |texts| == |kinds| && Indices(src, |kinds|) && Indices(dst, |kinds|) && i < |src| && i < |dst|
  {
    kinds[dst[i]].Dst? && texts[dst[i]] == "++" && Pass(texts, src, dst, i)[src[i]] == "++ "
  }

  /** A blank makes a newly clashing line out of "++" only. */
  lemma BlankClash(l: Line, now: string)
    requires !Clashes(l) && (now == l.text || now == l.text + " " || now == l.text + "\t")
    requires l.kind.Src? ==> now == l.text
    ensures Clashes(Line(l.kind, now)) <==> l.kind.Dst? && l.text == "++" && now == "++ "
  {
    if |l.text| >= 3 {
      PrefixOfLonger("++ ", l.text, " ");
      PrefixOfLonger("++ ", l.text, "\t");
    }
    if l.kind.Dst? && "++ " <= now {
      assert |l.text| == 2 && l.text == now[..2] && now[2] == ' ';
    }
  }

  lemma PrefixOfLonger(prefix: string, text: string, more: string)
    requires |prefix| <= |text|
    ensures prefix <= text + more <==> prefix <= text
  {
    assert (text + more)[..|prefix|] == text[..|prefix|];
  }

  lemma PassHasNoNewline(texts: seq<string>, src: seq<nat>, dst: seq<nat>, n: nat, p: nat)
    requires Indices(src, |texts|) && Indices(dst, |texts|) && n <= |src| && n <= |dst| && p < |texts|
    requires Increasing(dst) && NoNewline(texts[p])
    ensures NoNewline(Pass(texts, src, dst, n)[p])
  {
    hide Pass;
    PassEffect(texts, src, dst, n, p);
  }

  /** The line that step i may write clashes afterwards exactly when it doubles. */
  lemma StepClashes(kinds: seq<Kind>, texts: seq<string>, i: nat)
    requires |texts| == |kinds| && (forall p :: 0 <= p < |texts| ==> NoNewline(texts[p]))
    requires i < |SrcAt(kinds)| && i < |DstAt(kinds)|
    requires Indices(SrcAt(kinds), |kinds|) && Indices(DstAt(kinds), |kinds|)
    requires kinds[DstAt(kinds)[i]].Dst?
    ensures texts[DstAt(kinds)[i]] == "++" && Rewritten(kinds, texts)[DstAt(kinds)[i]] == "++ "
            <==> DoublesAt(kinds, texts, SrcAt(kinds), DstAt(kinds), i)
  {
    hide Pass, SrcAt, DstAt, Undone;
    var src, dst := SrcAt(kinds), DstAt(kinds);
    SidesIncrease(kinds);
    StepDecides(texts, src, dst, i, Min(|src|, |dst|));
    PassHasNoNewline(texts, src, dst, i, src[i]);
    UndoneMeans(Pass(texts, src, dst, i)[src[i]], texts[dst[i]]);
    assert "++" + " " == "++ ";
  }

  lemma LineClashes(ls: seq<Line>, p: nat) returns (i: nat)
    requires LinesOk(ls) && NoClash(ls) && p < |ls|
    ensures Clashes(RewriteLines(ls)[p]) ==>
      var kinds := KindsIn(ls);
      Indices(SrcAt(kinds), |kinds|) && Indices(DstAt(kinds), |kinds|) &&
      i < Min(|SrcAt(kinds)|, |DstAt(kinds)|) && DoublesAt(kinds, TextsIn(ls), SrcAt(kinds), DstAt(kinds), i)
  {
    hide Pass, SrcAt, DstAt, DoublesAt, Clashes;
    var kinds, texts := KindsIn(ls), TextsIn(ls);
    var src, dst := SrcAt(kinds), DstAt(kinds);
    var n := Min(|src|, |dst|);
    SidesInside(kinds);
    SidesIncrease(kinds);
    SidesExact(kinds, p);
    RewriteIsSmall(kinds, texts, p);
    BlankClash(ls[p], Rewritten(kinds, texts)[p]);
    i := 0;
    if ls[p].kind.Dst? {
      assert p in dst;
      i :| 0 <= i < |dst| && dst[i] == p;
      if i < n {
        StepClashes(kinds, texts, i);
      } else {
        assert p !in dst[..n];
        PassEffect(texts, src, dst, n, p);
      }
    }
  }

  /** Rewriting a clash-free chunk leaves it clash-free exactly when no step
      doubles a "++". */
  lemma ChunkClashesExactlyWhen(ls: seq<Line>)
    requires LinesOk(ls) && NoClash(ls)
    ensures NoClash(RewriteLines(ls)) <==> !Doubles(ls)
  {
    hide Pass, SrcAt, DstAt, DoublesAt, Clashes, Rewritten;
    var kinds, texts := KindsIn(ls), TextsIn(ls);
    SidesInside(kinds);
    var src, dst := SrcAt(kinds), DstAt(kinds);
    if i :| 0 <= i < Min(|src|, |dst|) && DoublesAt(kinds, texts, src, dst, i) {
      DoublesMeans(kinds, texts, src, dst, i);
      StepClashes(kinds, texts, i);
      var p := dst[i];
      RewriteIsSmall(kinds, texts, p);
      BlankClash(ls[p], Rewritten(kinds, texts)[p]);
      assert Clashes(RewriteLines(ls)[p]);
    }
    if p :| 0 <= p < |ls| && Clashes(RewriteLines(ls)[p]) {
      var i := LineClashes(ls, p);
    }
  }

  lemma DoublesMeans(kinds: seq<Kind>, texts: seq<string>, src: seq<nat>, dst: seq<nat>, i: nat)
    requires |texts| == |kinds| && Indices(src, |kinds|) && Indices(dst, |kinds|) && i < |src| && i < |dst|
    requires DoublesAt(kinds, texts, src, dst, i)
    ensures kinds[dst[i]].Dst?
  {}

  // ---------- Lines of a patch set ----------

  lemma {:induction false} LinesByChunk(ps: seq<Patch>)
    ensures AllLines(ps) == ChunkLines(Chunks(ps))
  {
    if ps != [] {
      LinesByChunk(ps[1..]);
      ChunkLinesJoin(ps[0].chunks, Chunks(ps[1..]));
    }
  }

  lemma {:induction false} ChunkLinesJoin(a: seq<Chunk>, b: seq<Chunk>)
    ensures ChunkLines(a + b) == ChunkLines(a) + ChunkLines(b)
    decreases |a|
  {
    if a == [] {
      assert a + b == b;
    } else {
      assert (a + b)[1..] == a[1..] + b;
      ChunkLinesJoin(a[1..], b);
    }
  }

  predicate ChunksClear(cs: seq<Chunk>) { forall c :: 0 <= c < |cs| ==> NoClash(cs[c].lines) }

  lemma {:induction false} ClearMeans(cs: seq<Chunk>)
    ensures NoClash(ChunkLines(cs)) <==> ChunksClear(cs)
    decreases |cs|
  {
    hide NoClash;
    if cs == [] {
      NothingClashes();
    } else {
      ClearMeans(cs[1..]);
      NoClashParts(cs[0].lines, ChunkLines(cs[1..]));
      assert cs == [cs[0]] + cs[1..];
      if ChunksClear(cs) {
        forall c | 0 <= c < |cs[1..]| ensures NoClash(cs[1..][c].lines) { assert cs[1..][c] == cs[c + 1]; }
      }
    }
  }

  lemma NothingClashes()
    ensures NoClash([])
  {}

  lemma {:induction false} ChunksAreOk(ps: seq<Patch>)
    requires PatchesOk(ps)
    ensures ChunksOk(Chunks(ps))
  {
    hide LinesOk;
    if ps != [] {
      assert ChunksOk(ps[0].chunks);
      ChunksAreOk(ps[1..]);
    }
  }

  lemma LinesStayOk(ls: seq<Line>)
    requires LinesOk(ls)
    ensures LinesOk(RewriteLines(ls))
  {
    hide Rewritten;
    forall p | 0 <= p < |ls| ensures NoNewline(RewriteLines(ls)[p].text) {
      RewriteIsSmall(KindsIn(ls), TextsIn(ls), p);
    }
  }

  lemma {:induction false} ChunksStayOk(cs: seq<Chunk>)
    requires ChunksOk(cs)
    ensures ChunksOk(RewriteChunks(cs))
  {
    hide LinesOk, RewriteLines, Fits;
    if cs != [] {
      LinesStayOk(cs[0].lines);
      ChunksStayOk(cs[1..]);
    }
  }

  lemma {:induction false} PatchesStayOk(ps: seq<Patch>)
    requires PatchesOk(ps)
    ensures PatchesOk(RewriteAll(ps))
  {
    hide ChunksOk, RewriteChunks, AllFit, NoNewline;
    if ps != [] {
      ChunksStayOk(ps[0].chunks);
      PatchesStayOk(ps[1..]);
    }
  }

  /** No chunk that is reached doubles a "++". */
  predicate NothingDoubles(cs: seq<Chunk>) {
    forall c :: 0 <= c < |cs| && AllFit(cs[..c]) ==> !Doubles(cs[c].lines)
  }

  lemma RewriteStaysClear(cs: seq<Chunk>)
    requires ChunksOk(cs) && ChunksClear(cs)
    ensures ChunksClear(RewriteChunks(cs)) <==> NothingDoubles(cs)
  {
    hide LinesOk, NoClash, RewriteLines, AllFit, Doubles, RewriteChunks;
    var r := RewriteChunks(cs);
    forall c | 0 <= c < |cs| ensures NoClash(r[c].lines) <==> (AllFit(cs[..c]) ==> !Doubles(cs[c].lines)) {
      RewriteAt(cs, c);
      ChunkClashesExactlyWhen(cs[c].lines);
    }
  }

  /** A patch set that can be read back can still be read back after the rewrite
      if and only if no chunk that is reached doubles a "++". */
  lemma RewriteReadsBackExactlyWhen(ps: seq<Patch>)
    requires PatchesOk(ps) && NoClash(AllLines(ps))
    ensures ParsePatchset(WritePatchset(RewriteAll(ps))) == Ok(RewriteAll(ps)) <==> NothingDoubles(Chunks(ps))
  {
    hide PatchesOk, NoClash, AllLines, ChunkLines, ChunksClear, ChunksOk, NothingDoubles, RewriteAll, RewriteChunks,
         Chunks, ParsePatchset, WritePatchset;
    PatchesStayOk(ps);
    RoundTripExactlyWhen(RewriteAll(ps));
    LinesByChunk(RewriteAll(ps));
    RewriteIsFlat(ps);
    ClearMeans(RewriteChunks(Chunks(ps)));
    LinesByChunk(ps);
    ClearMeans(Chunks(ps));
    ChunksAreOk(ps);
    RewriteStaysClear(Chunks(ps));
  }

  // ---------- The same on aligned chunks, from the input alone ----------

  /** An added line "++" stands at the place of an old-side line "++ ". */
  predicate FacesDouble(ls: seq<Line>) {
    var kinds, texts := KindsIn(ls), TextsIn(ls);
    SidesInside(kinds);
    var src, dst := SrcAt(kinds), DstAt(kinds);
    exists i :: 0 <= i < Min(|src|, |dst|) && FacesAt(kinds, texts, src, dst, i)
  }

  predicate FacesAt(kinds: seq<Kind>, texts: seq<string>, src: seq<nat>, dst: seq<nat>, i: nat)
    requires |texts| == |kinds| && Indices(src, |kinds|) && Indices(dst, |kinds|) && i < |src| && i < |dst|
  {
    kinds[dst[i]].Dst? && texts[dst[i]] == "++" && texts[src[i]] == "++ "
  }

  lemma AlignedDoubles(ls: seq<Line>)
    requires Aligned(KindsIn(ls))
    ensures Doubles(ls) <==> FacesDouble(ls)
  {
    hide Pass, SrcAt, DstAt, Aligned;
    var kinds, texts := KindsIn(ls), TextsIn(ls);
    SidesInside(kinds);
    var src, dst := SrcAt(kinds), DstAt(kinds);
    forall i | 0 <= i < Min(|src|, |dst|)
      ensures DoublesAt(kinds, texts, src, dst, i) <==> FacesAt(kinds, texts, src, dst, i)
    {
      assert src[i] in src;
      SidesExact(kinds, src[i]);
      OldSideKept(kinds, texts, i, src[i]);
    }
  }

  predicate ReachedAligned(cs: seq<Chunk>) {
    forall c :: 0 <= c < |cs| && AllFit(cs[..c]) ==> Aligned(KindsIn(cs[c].lines))
  }

  predicate NothingFaces(cs: seq<Chunk>) {
    forall c :: 0 <= c < |cs| && AllFit(cs[..c]) ==> !FacesDouble(cs[c].lines)
  }

  /** With aligned chunks, read-back survives the rewrite if and only if no reached
      chunk of the input has an added "++" at the place of an old "++ ". */
  lemma AlignedReadsBackExactlyWhen(ps: seq<Patch>)
    requires PatchesOk(ps) && NoClash(AllLines(ps)) && ReachedAligned(Chunks(ps))
    ensures ParsePatchset(WritePatchset(RewriteAll(ps))) == Ok(RewriteAll(ps)) <==> NothingFaces(Chunks(ps))
  {
    hide PatchesOk, NoClash, AllLines, RewriteAll, Chunks, ParsePatchset, WritePatchset, AllFit, Aligned, KindsIn,
         Doubles, FacesDouble;
    RewriteReadsBackExactlyWhen(ps);
    var cs := Chunks(ps);
    forall c | 0 <= c < |cs| && AllFit(cs[..c]) ensures Doubles(cs[c].lines) <==> FacesDouble(cs[c].lines) {
      AlignedDoubles(cs[c].lines);
    }
  }

  /** A deleted "++ " facing an added "++": neither clashes, the result does. */
  lemma DoublingExample()
    ensures var ls := [Line(Src, "++ "), Line(Dst, "++")];
      NoClash(ls) && Doubles(ls) && !NoClash(RewriteLines(ls))
  {
    hide RewriteLines;
    var ls := [Line(Src, "++ "), Line(Dst, "++")];
    var kinds, texts := KindsIn(ls), TextsIn(ls);
    assert "++ "[0] != "-- "[0];
    assert !("-- " <= "++ ") && !("++ " <= "++");
    assert kinds == [Src, Dst] && kinds[..1] == [Src] && [Src][..0] == [];
    assert SrcAt([Src]) == [0] && DstAt([Src]) == [];
    assert SrcAt(kinds) == [0] && DstAt(kinds) == [1];
    assert Pass(texts, [0], [1], 0) == texts;
    assert DoublesAt(kinds, texts, [0], [1], 0);
    ChunkClashesExactlyWhen(ls);
  }
}
