/** The mutable side of utils/check-style.py: the reading loop, and the rewrite of
shared line objects in place. */
module PatchObjects {
  import opened Wrappers
  import opened PatchText
  import opened PatchRewrite
  import opened PatchWhole

  /** parse_patchset as the loop it is. */
  method ParseLines(lines: seq<string>) returns (r: Result<seq<Patch>>)
    ensures r == ParsePatchset(lines)
  {
    hide Classify;
    var patchset: seq<Patch> := [];
    var chunkOwner: Option<nat> := None;
    assert lines[0..] == lines;
    for i := 0 to |lines|
      invariant ReaderOk(Reader(patchset, chunkOwner))
      invariant Read(Reader([], None), lines) == Read(Reader(patchset, chunkOwner), lines[i..])
    {
      assert lines[i..][0] == lines[i] && lines[i..][1..] == lines[i + 1..];
      var n := |patchset|;
      match Classify(lines[i]) {
        case FileFrom(name) =>
          patchset := patchset + [Patch(name, "", [])];
        case FileTo(name) =>
          if n == 0 { return Err(NoPatch); }
          patchset := patchset[n - 1 := patchset[n - 1].(dst := name)];
        case Header(a, b) =>
          if n == 0 { return Err(NoPatch); }
          patchset := patchset[n - 1 := patchset[n - 1].(chunks := patchset[n - 1].chunks + [Chunk(a, b, [])])];
          chunkOwner := Some(n - 1);
        case Body(l) =>
          if chunkOwner == None { return Err(NoChunk); }
          var p := patchset[chunkOwner.value];
          var last := |p.chunks| - 1;
          var c := p.chunks[last].(lines := p.chunks[last].lines + [l]);
          patchset := patchset[chunkOwner.value := p.(chunks := p.chunks[last := c])];
        case Unknown =>
          return Err(BadLine);
      }
    }
    return Ok(patchset);
  }

  class PatchChunkLine {
    const kind: Kind
    var text: string

    constructor (l: Line)
      ensures kind == l.kind && text == l.text
    {
      kind, text := l.kind, l.text;
    }

    predicate IsSrc() { OnSrc(kind) }

    predicate IsDst() { OnDst(kind) }

    method AppendToLine(s: string)
      modifies this
      ensures text == old(text) + s
    {
      text := text + s;
    }
  }

  function KindsOf(ls: seq<PatchChunkLine>): (ks: seq<Kind>)
    ensures |ks| == |ls| && forall i :: 0 <= i < |ls| ==> ks[i] == ls[i].kind
  {
    seq(|ls|, i requires 0 <= i < |ls| => ls[i].kind)
  }

  function TextsOf(ls: seq<PatchChunkLine>): (ts: seq<string>)
    reads ls
    ensures |ts| == |ls| && forall i :: 0 <= i < |ls| ==> ts[i] == ls[i].text
  {
    seq(|ls|, i requires 0 <= i < |ls| reads ls => ls[i].text)
  }

  /** The objects at the given positions. */
  function At(ls: seq<PatchChunkLine>, at: seq<nat>): (r: seq<PatchChunkLine>)
    requires Indices(at, |ls|)
    ensures |r| == |at| && forall i :: 0 <= i < |at| ==> r[i] == ls[at[i]]
  {
    seq(|at|, i requires 0 <= i < |at| => ls[at[i]])
  }

  predicate Unshared(ls: seq<PatchChunkLine>) { forall i, j :: 0 <= i < j < |ls| ==> ls[i] != ls[j] }

  class PatchChunk {
    const lines: seq<PatchChunkLine>

    constructor (lines: seq<PatchChunkLine>)
      ensures this.lines == lines
    {
      this.lines := lines;
    }

    /** src(): the old side, as references to the chunk's own line objects. */
    method Src() returns (src: seq<PatchChunkLine>)
      ensures Indices(SrcAt(KindsOf(lines)), |lines|) && src == At(lines, SrcAt(KindsOf(lines)))
    {
      hide Indices;
      src := [];
      ghost var kinds := KindsOf(lines);
      SidesInside(kinds[..0]);
      Wider(SrcAt(kinds[..0]), 0, |lines|);
      for i := 0 to |lines|
        invariant Indices(SrcAt(kinds[..i]), i) && Indices(SrcAt(kinds[..i]), |lines|)
        invariant src == At(lines, SrcAt(kinds[..i]))
      {
        SidesInside(kinds[..i + 1]);
        Wider(SrcAt(kinds[..i + 1]), i + 1, |lines|);
        assert kinds[..i + 1][..i] == kinds[..i];
        if lines[i].IsSrc() { src := src + [lines[i]]; }
      }
      assert kinds[..|lines|] == kinds;
    }

    /** dst(): the new side. */
    method Dst() returns (dst: seq<PatchChunkLine>)
      ensures Indices(DstAt(KindsOf(lines)), |lines|) && dst == At(lines, DstAt(KindsOf(lines)))
    {
      hide Indices;
      dst := [];
      ghost var kinds := KindsOf(lines);
      SidesInside(kinds[..0]);
      Wider(DstAt(kinds[..0]), 0, |lines|);
      for i := 0 to |lines|
        invariant Indices(DstAt(kinds[..i]), i) && Indices(DstAt(kinds[..i]), |lines|)
        invariant dst == At(lines, DstAt(kinds[..i]))
      {
        SidesInside(kinds[..i + 1]);
        Wider(DstAt(kinds[..i + 1]), i + 1, |lines|);
        assert kinds[..i + 1][..i] == kinds[..i];
        if lines[i].IsDst() { dst := dst + [lines[i]]; }
      }
      assert kinds[..|lines|] == kinds;
    }

    /** The loop over one chunk.  The result is false when the old side is longer
        than the new side: then dst[i] fails after the lines both sides have. */
    method RemoveTrailingWhitespaceChanges() returns (complete: bool)
      requires Unshared(lines)
      modifies lines
      ensures TextsOf(lines) == Rewritten(KindsOf(lines), old(TextsOf(lines)))
      ensures complete <==> |SrcAt(KindsOf(lines))| <= |DstAt(KindsOf(lines))|
    {
      hide SrcAt, DstAt, Step;
      var src := Src();
      var dst := Dst();
      ghost var texts := TextsOf(lines);
      ghost var s, d := SrcAt(KindsOf(lines)), DstAt(KindsOf(lines));
      for i := 0 to |src|
        invariant i <= |dst|
        invariant TextsOf(lines) == Pass(texts, s, d, i)
      {
        if i >= |dst| { return false; }
        ghost var now := TextsOf(lines);
        var m := Trailing(src[i].text);
        if m.Some? && m.value.0 == dst[i].text {
          dst[i].AppendToLine([m.value.1]);
          assert TextsOf(lines) == now[d[i] := now[d[i]] + [m.value.1]];
        } else {
          assert TextsOf(lines) == now;
        }
        StepIs(now, s, d, i);
      }
      return true;
    }
  }

  lemma Wider(at: seq<nat>, m: nat, n: nat)
    requires Indices(at, m) && m <= n
    ensures Indices(at, n)
  {}

  lemma StepIs(texts: seq<string>, src: seq<nat>, dst: seq<nat>, i: nat)
    requires Indices(src, |texts|) && Indices(dst, |texts|) && i < |src| && i < |dst|
    ensures var m := Trailing(texts[src[i]]);
      Step(texts, src, dst, i) ==
        if m.Some? && m.value.0 == texts[dst[i]] then texts[dst[i] := texts[dst[i]] + [m.value.1]] else texts
  {}

  /** Every line object belongs to one place of one chunk. */
  ghost predicate Separate(chunks: seq<PatchChunk>) {
    (forall c :: 0 <= c < |chunks| ==> Unshared(chunks[c].lines)) &&
    (forall b, c, l :: 0 <= b < c < |chunks| && l in chunks[b].lines ==> l !in chunks[c].lines)
  }

  predicate SidesFit(chunk: PatchChunk) { |SrcAt(KindsOf(chunk.lines))| <= |DstAt(KindsOf(chunk.lines))| }

  /** Is chunk c reached, that is, do all chunks before it fit? */
  predicate Reached(chunks: seq<PatchChunk>, c: nat)
    requires c <= |chunks|
  {
    forall b :: 0 <= b < c ==> SidesFit(chunks[b])
  }

  ghost function Footprint(chunks: seq<PatchChunk>): set<PatchChunkLine> {
    set c, l | 0 <= c < |chunks| && l in chunks[c].lines :: l
  }

  twostate lemma TextsUnchanged(ls: seq<PatchChunkLine>)
    requires forall l :: l in ls ==> unchanged(l)
    ensures TextsOf(ls) == old(TextsOf(ls))
  {
    assert forall i :: 0 <= i < |ls| ==> ls[i] in ls;
  }

  /** remove_trailing_whitespace_changes over all chunks of a patch set: the
      first chunk whose old side is longer ends it, after its common part. */
  method RemoveAll(chunks: seq<PatchChunk>)
    requires Separate(chunks)
    modifies Footprint(chunks)
    ensures forall c :: 0 <= c < |chunks| ==>
      TextsOf(chunks[c].lines) ==
        if Reached(chunks, c) then Rewritten(KindsOf(chunks[c].lines), old(TextsOf(chunks[c].lines)))
        else old(TextsOf(chunks[c].lines))
  {
    hide Rewritten, SrcAt, DstAt, TextsOf, KindsOf;
    for i := 0 to |chunks|
      invariant Reached(chunks, i)
      invariant forall c :: 0 <= c < i ==>
        TextsOf(chunks[c].lines) == Rewritten(KindsOf(chunks[c].lines), old(TextsOf(chunks[c].lines)))
      invariant forall c :: i <= c < |chunks| ==> TextsOf(chunks[c].lines) == old(TextsOf(chunks[c].lines))
    {
      assert forall l :: l in chunks[i].lines ==> l in Footprint(chunks);
      label before:
      var complete := chunks[i].RemoveTrailingWhitespaceChanges();
      forall c | 0 <= c < |chunks| && c != i
        ensures TextsOf(chunks[c].lines) == old@before(TextsOf(chunks[c].lines))
      {
        assert forall l :: l in chunks[c].lines ==> l !in chunks[i].lines;
        TextsUnchanged@before(chunks[c].lines);
      }
      if !complete {
        assert !SidesFit(chunks[i]);
        assert forall c :: i < c <= |chunks| ==> !Reached(chunks, c);
        return;
      }
    }
  }

  /** A parsed chunk as objects: one new line object for each line. */
  method BuildChunk(c: Chunk) returns (o: PatchChunk)
    ensures fresh(o) && |o.lines| == |c.lines| && Unshared(o.lines)
    ensures forall i :: 0 <= i < |c.lines| ==>
      fresh(o.lines[i]) && o.lines[i].kind == c.lines[i].kind && o.lines[i].text == c.lines[i].text
  {
    var ls: seq<PatchChunkLine> := [];
    for i := 0 to |c.lines|
      invariant |ls| == i && Unshared(ls)
      invariant forall j :: 0 <= j < i ==>
        fresh(ls[j]) && ls[j].kind == c.lines[j].kind && ls[j].text == c.lines[j].text
    {
      var l := new PatchChunkLine(c.lines[i]);
      ls := ls + [l];
    }
    o := new PatchChunk(ls);
  }

  /** Parsed chunks share no line objects, so RemoveAll may be applied to them. */
  method BuildChunks(cs: seq<Chunk>) returns (os: seq<PatchChunk>)
    ensures |os| == |cs| && Separate(os)
    ensures forall i, l :: 0 <= i < |os| && l in os[i].lines ==> fresh(l)
    ensures forall i :: 0 <= i < |os| ==> Shows(os[i], cs[i])
  {
    os := [];
    for i := 0 to |cs|
      invariant |os| == i && Separate(os)
      invariant forall k, l :: 0 <= k < i && l in os[k].lines ==> fresh(l)
      invariant forall k :: 0 <= k < i ==> Shows(os[k], cs[k])
    {
      label before:
      var o := BuildChunk(cs[i]);
      assert forall k :: 0 <= k < i ==> Shows(os[k], cs[k]);
      assert forall k, l :: 0 <= k < i && l in os[k].lines ==> l !in o.lines by {
        assert forall l :: l in o.lines ==> fresh@before(l);
      }
      os := os + [o];
    }
  }

  /** The object holds the same kinds and texts as the parsed chunk. */
  ghost predicate Shows(o: PatchChunk, c: Chunk)
    reads o.lines
  {
    |o.lines| == |c.lines| &&
    forall i :: 0 <= i < |c.lines| ==> o.lines[i].kind == c.lines[i].kind && o.lines[i].text == c.lines[i].text
  }

  lemma ShowsKinds(o: PatchChunk, c: Chunk)
    requires Shows(o, c)
    ensures KindsOf(o.lines) == KindsIn(c.lines) && TextsOf(o.lines) == TextsIn(c.lines)
  {}

  lemma ReachedMeans(os: seq<PatchChunk>, cs: seq<Chunk>, n: nat)
    requires |os| == |cs| && n <= |cs|
    requires forall c :: 0 <= c < |cs| ==> KindsOf(os[c].lines) == KindsIn(cs[c].lines)
    ensures Reached(os, n) <==> AllFit(cs[..n])
  {
    hide SrcAt, DstAt, KindsOf, KindsIn;
    forall c | 0 <= c < n ensures SidesFit(os[c]) <==> Fits(cs[..n][c].lines) {
      assert KindsOf(os[c].lines) == KindsIn(cs[c].lines);
    }
  }

  lemma ShowsRewritten(o: PatchChunk, c: Chunk)
    requires KindsOf(o.lines) == KindsIn(c.lines) && TextsOf(o.lines) == TextsIn(c.lines)
    ensures Shows(o, c)
  {
    assert |o.lines| == |c.lines|;
    forall i | 0 <= i < |c.lines|
      ensures o.lines[i].kind == c.lines[i].kind && o.lines[i].text == c.lines[i].text
    {
      assert KindsOf(o.lines)[i] == KindsIn(c.lines)[i] && TextsOf(o.lines)[i] == TextsIn(c.lines)[i];
    }
  }

  /** Parsed chunks, as objects, rewritten in place: what the objects then show is
      the rewrite of the values. */
  method RewriteParsed(cs: seq<Chunk>) returns (os: seq<PatchChunk>)
    ensures |os| == |cs| && forall c :: 0 <= c < |cs| ==> Shows(os[c], RewriteChunks(cs)[c])
  {
    hide Shows, Rewritten, KindsOf, KindsIn, TextsOf, TextsIn, Reached, AllFit, RewriteChunks;
    os := BuildChunks(cs);
    forall c | 0 <= c < |cs|
      ensures KindsOf(os[c].lines) == KindsIn(cs[c].lines) && TextsOf(os[c].lines) == TextsIn(cs[c].lines)
    {
      ShowsKinds(os[c], cs[c]);
    }
    RemoveAll(os);
    forall c | 0 <= c < |cs| ensures Shows(os[c], RewriteChunks(cs)[c]) {
      RewriteAt(cs, c);
      ReachedMeans(os, cs, c);
      ShowsRewritten(os[c], RewriteChunks(cs)[c]);
    }
  }
}
