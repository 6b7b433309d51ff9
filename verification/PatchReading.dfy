/** What reading any sequence of patch lines gives, defined from the end of the file
to its beginning and without the reader's variables. */
module PatchReading {
  import opened Wrappers
  import opened PatchText

  function Forms(lines: seq<string>): (fs: seq<Form>)
    ensures |fs| == |lines|
  {
    seq(|lines|, i requires 0 <= i < |lines| => Classify(lines[i]))
  }

  // ---------- Failures ----------

  /** The first line that cannot be placed: a header needs a file in front of it, a
      body line needs a chunk, and every line needs a known form. */
  function FirstError(fs: seq<Form>, file: bool, chunk: bool): Option<ParseError> {
    if fs == [] then None
    else match fs[0]
      case Unknown => Some(BadLine)
      case FileFrom(_) => FirstError(fs[1..], true, chunk)
      case FileTo(_) => if file then FirstError(fs[1..], file, chunk) else Some(NoPatch)
      case Header(_, _) => if file then FirstError(fs[1..], file, true) else Some(NoPatch)
      case Body(_) => if chunk then FirstError(fs[1..], file, chunk) else Some(NoChunk)
  }

  lemma TakeError(r: Reader, fs: seq<Form>)
    requires ReaderOk(r) && fs != []
    ensures FirstError(fs, r.patches != [], r.owner.Some?) ==
      match Take(r, fs[0])
      case Err(e) => Some(e)
      case Ok(q) => FirstError(fs[1..], q.patches != [], q.owner.Some?)
  {}

  lemma {:induction false} ReadError(r: Reader, lines: seq<string>)
    requires ReaderOk(r)
    ensures FirstError(Forms(lines), r.patches != [], r.owner.Some?) ==
      match Read(r, lines) case Err(e) => Some(e) case Ok(_) => None
    decreases |lines|
  {
    hide Classify, Take, FirstError;
    if lines == [] {
      NoForms();
    } else {
      FormsTail(lines);
      TakeError(r, Forms(lines));
      match Take(r, Classify(lines[0]))
      case Err(_) =>
      case Ok(q) => ReadError(q, lines[1..]);
    }
  }

  lemma NoForms()
    ensures FirstError([], false, false) == FirstError([], true, false) == None
    ensures FirstError([], false, true) == FirstError([], true, true) == None
  {}

  lemma FormsTail(lines: seq<string>)
    requires lines != []
    ensures Forms(lines)[0] == Classify(lines[0]) && Forms(lines)[1..] == Forms(lines[1..])
  {
    hide Classify;
  }

  // ---------- The patches ----------

  /** What the rest of a file says: body lines that belong to the chunk in front of
      it, chunks and a name that belong to the file in front of it, and files. */
  datatype Rest = Rest(lines: seq<Line>, chunks: seq<Chunk>, dst: Option<string>, patches: seq<Patch>)

  /** A chunk has the body lines up to the next chunk header, file headers or not;
      a file has the chunks up to the next one, and the last `+++` name in between. */
  function Backward(fs: seq<Form>): Rest {
    if fs == [] then Rest([], [], None, [])
    else
      var r := Backward(fs[1..]);
      match fs[0]
      case Body(l) => r.(lines := [l] + r.lines)
      case Header(a, b) => r.(lines := [], chunks := [Chunk(a, b, r.lines)] + r.chunks)
      case FileTo(name) => if r.dst.Some? then r else r.(dst := Some(name))
      case FileFrom(name) =>
        var p := Patch(name, if r.dst.Some? then r.dst.value else "", r.chunks);
        Rest(r.lines, [], None, [p] + r.patches)
      case Unknown => r
  }

  function MoreLines(p: Patch, ls: seq<Line>): Patch
    requires p.chunks != []
  {
    var last := |p.chunks| - 1;
    p.(chunks := p.chunks[..last] + [p.chunks[last].(lines := p.chunks[last].lines + ls)])
  }

  function MoreChunks(p: Patch, cs: seq<Chunk>, dst: Option<string>): Patch {
    p.(chunks := p.chunks + cs, dst := if dst.Some? then dst.value else p.dst)
  }

  /** The reader's patches, completed by the rest of the file. */
  function Completed(r: Reader, rest: Rest): seq<Patch>
    requires ReaderOk(r)
  {
    var ps := if r.owner.Some? then r.patches[r.owner.value := MoreLines(r.patches[r.owner.value], rest.lines)]
              else r.patches;
    var n := |ps| - 1;
    (if ps == [] then ps else ps[n := MoreChunks(ps[n], rest.chunks, rest.dst)]) + rest.patches
  }

  lemma NothingMore(r: Reader)
    requires ReaderOk(r)
    ensures Completed(r, Rest([], [], None, [])) == r.patches
  {
    if r.owner.Some? {
      var p := r.patches[r.owner.value];
      assert MoreLines(p, []) == p by {
        var last := |p.chunks| - 1;
        assert p.chunks[last].lines + [] == p.chunks[last].lines;
        assert p.chunks[..last] + [p.chunks[last]] == p.chunks;
      }
    }
    forall p: Patch ensures MoreChunks(p, [], None) == p { assert p.chunks + [] == p.chunks; }
  }

  lemma TakeBodyForm(r: Reader, l: Line, rest: Rest)
    requires ReaderOk(r) && r.owner.Some?
    ensures Take(r, Body(l)).Ok?
    ensures Completed(Take(r, Body(l)).value, rest) == Completed(r, rest.(lines := [l] + rest.lines))
  {
    hide MoreChunks;
    var i := r.owner.value;
    var p := r.patches[i];
    var last := |p.chunks| - 1;
    var c := p.chunks[last];
    var p' := p.(chunks := p.chunks[last := c.(lines := c.lines + [l])]);
    assert Take(r, Body(l)).value == Reader(r.patches[i := p'], r.owner);
    assert p'.chunks[..last] == p.chunks[..last];
    assert c.lines + [l] + rest.lines == c.lines + ([l] + rest.lines);
    assert MoreLines(p', rest.lines) == MoreLines(p, [l] + rest.lines);
    assert r.patches[i := p'][i := MoreLines(p', rest.lines)] == r.patches[i := MoreLines(p', rest.lines)];
  }

  lemma TakeHeaderForm(r: Reader, a: nat, b: nat, rest: Rest)
    requires ReaderOk(r) && r.patches != []
    ensures Take(r, Header(a, b)).Ok?
    ensures Completed(Take(r, Header(a, b)).value, rest)
            == Completed(r, rest.(lines := [], chunks := [Chunk(a, b, rest.lines)] + rest.chunks))
  {
    var n := |r.patches| - 1;
    var p := r.patches[n];
    var p' := p.(chunks := p.chunks + [Chunk(a, b, [])]);
    var q := Reader(r.patches[n := p'], Some(n));
    assert Take(r, Header(a, b)).value == q;
    assert p'.chunks[..|p.chunks|] == p.chunks && [] + rest.lines == rest.lines;
    assert MoreLines(p', rest.lines).chunks == p.chunks + [Chunk(a, b, rest.lines)];
    assert p.chunks + [Chunk(a, b, rest.lines)] + rest.chunks == p.chunks + ([Chunk(a, b, rest.lines)] + rest.chunks);
    if r.owner.Some? { SameLines(r); }
  }

  /** No lines more, no change. */
  lemma SameLines(r: Reader)
    requires ReaderOk(r) && r.owner.Some?
    ensures var i := r.owner.value; r.patches[i := MoreLines(r.patches[i], [])] == r.patches
  {
    var p := r.patches[r.owner.value];
    var last := |p.chunks| - 1;
    assert p.chunks[last].lines + [] == p.chunks[last].lines;
    assert p.chunks[..last] + [p.chunks[last]] == p.chunks;
  }

  lemma TakeToForm(r: Reader, name: string, rest: Rest)
    requires ReaderOk(r) && r.patches != []
    ensures Take(r, FileTo(name)).Ok?
    ensures Completed(Take(r, FileTo(name)).value, rest)
            == Completed(r, if rest.dst.Some? then rest else rest.(dst := Some(name)))
  {
    var n := |r.patches| - 1;
    var p' := r.patches[n].(dst := name);
    var q := Reader(r.patches[n := p'], r.owner);
    assert Take(r, FileTo(name)).value == q;
    if r.owner.Some? && r.owner.value == n {
      assert MoreLines(p', rest.lines) == MoreLines(r.patches[n], rest.lines).(dst := name);
    }
  }

  /** The reader's patches with the rest's body lines in their chunk. */
  function WithLines(r: Reader, ls: seq<Line>): (ps: seq<Patch>)
    requires ReaderOk(r)
    ensures |ps| == |r.patches|
  {
    if r.owner.Some? then r.patches[r.owner.value := MoreLines(r.patches[r.owner.value], ls)] else r.patches
  }

  lemma OneFileMore(r: Reader, p: Patch, ls: seq<Line>)
    requires ReaderOk(r)
    ensures ReaderOk(Reader(r.patches + [p], r.owner))
    ensures WithLines(Reader(r.patches + [p], r.owner), ls) == WithLines(r, ls) + [p]
  {
    hide MoreLines;
  }

  lemma CompletedIs(r: Reader, rest: Rest)
    requires ReaderOk(r)
    ensures var ps := WithLines(r, rest.lines);
      var n := |ps| - 1;
      Completed(r, rest) ==
        (if ps == [] then ps else ps[n := MoreChunks(ps[n], rest.chunks, rest.dst)]) + rest.patches
  {
    hide MoreLines, MoreChunks;
  }

  lemma NoChunksMore(p: Patch)
    ensures MoreChunks(p, [], None) == p
  {
    assert p.chunks + [] == p.chunks;
  }

  lemma TakeFromForm(r: Reader, name: string, rest: Rest)
    requires ReaderOk(r)
    ensures Take(r, FileFrom(name)).Ok?
    ensures var p := Patch(name, if rest.dst.Some? then rest.dst.value else "", rest.chunks);
      Completed(Take(r, FileFrom(name)).value, rest) == Completed(r, Rest(rest.lines, [], None, [p] + rest.patches))
  {
    hide Completed, WithLines;
    var empty := Patch(name, "", []);
    var q := Reader(r.patches + [empty], r.owner);
    assert Take(r, FileFrom(name)).value == q;
    var ps := WithLines(r, rest.lines);
    var p := MoreChunks(empty, rest.chunks, rest.dst);
    assert [] + rest.chunks == rest.chunks;
    OneFileMore(r, empty, rest.lines);
    CompletedIs(q, rest);
    CompletedIs(r, Rest(rest.lines, [], None, [p] + rest.patches));
    if ps != [] {
      NoChunksMore(ps[|ps| - 1]);
      assert ps[|ps| - 1 := ps[|ps| - 1]] == ps;
    }
    assert (ps + [empty])[|ps| := p] == ps + [p];
    assert ps + [p] + rest.patches == ps + ([p] + rest.patches);
  }

  lemma {:induction false} ReadBackward(r: Reader, lines: seq<string>)
    requires ReaderOk(r) && Read(r, lines).Ok?
    ensures Read(r, lines).value.patches == Completed(r, Backward(Forms(lines)))
    decreases |lines|
  {
    hide Classify, Take, Completed;
    if lines == [] {
      NothingMore(r);
    } else {
      FormsTail(lines);
      var form := Classify(lines[0]);
      var q := Take(r, form).value;
      OneForm(r, form, Forms(lines));
      ReadBackward(q, lines[1..]);
    }
  }

  lemma OneForm(r: Reader, form: Form, fs: seq<Form>)
    requires ReaderOk(r) && fs != [] && fs[0] == form && Take(r, form).Ok?
    ensures Completed(Take(r, form).value, Backward(fs[1..])) == Completed(r, Backward(fs))
  {
    hide Completed, Take;
    var rest := Backward(fs[1..]);
    TakeOnly(r, form);
    match form
    case Body(l) => TakeBodyForm(r, l, rest);
    case Header(a, b) => TakeHeaderForm(r, a, b, rest);
    case FileTo(name) => TakeToForm(r, name, rest);
    case FileFrom(name) => TakeFromForm(r, name, rest);
  }

  /** What a form needs to be placed. */
  lemma TakeOnly(r: Reader, form: Form)
    requires ReaderOk(r) && Take(r, form).Ok?
    ensures !form.Unknown? && (form.Body? ==> r.owner.Some?) && (form.Header? || form.FileTo? ==> r.patches != [])
  {}

  /** For every list of lines: the reader fails at the first line that cannot be
      placed, and else returns the patches read from the end. */
  lemma ReadExactly(lines: seq<string>)
    ensures ParsePatchset(lines) ==
      match FirstError(Forms(lines), false, false)
      case Some(e) => Err(e)
      case None => Ok(Backward(Forms(lines)).patches)
  {
    hide Classify, Read, FirstError;
    var r := Reader([], None);
    ReadError(r, lines);
    if Read(r, lines).Ok? {
      ReadBackward(r, lines);
      assert [] + Backward(Forms(lines)).patches == Backward(Forms(lines)).patches;
    }
  }
}
