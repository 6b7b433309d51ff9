/** Unified diffs as utils/check-style.py reads and writes them. */
module PatchText {
  import opened Wrappers

  datatype Kind = Src | Dst | Both

  datatype Line = Line(kind: Kind, text: string)

  datatype Chunk = Chunk(srcPos: nat, dstPos: nat, lines: seq<Line>)

  datatype Patch = Patch(src: string, dst: string, chunks: seq<Chunk>)

  /** The ways in which reading can fail: a header before any file header, a
      line before any chunk header, or a line of no known form. */
  datatype ParseError = NoPatch | NoChunk | BadLine

  datatype Result<T> = Ok(value: T) | Err(error: ParseError)

  // ---------- The patterns ----------

  predicate NoNewline(s: string) { '\n' !in s }

  /** What `(.*)$` captures: everything but one final newline, if no other
      newline is left. */
  function Tail(s: string): Option<string> {
    if NoNewline(s) then Some(s)
    else if s[|s| - 1] == '\n' && NoNewline(s[..|s| - 1]) then Some(s[..|s| - 1])
    else None
  }

  function After(prefix: string, s: string): Option<string> {
    if prefix <= s then Some(s[|prefix|..]) else None
  }

  function MatchTail(prefix: string, line: string): Option<string> {
    var rest :- After(prefix, line);
    Tail(rest)
  }

  predicate IsDigit(c: char) { '0' <= c <= '9' }

  function DigitValue(c: char): nat
    requires IsDigit(c)
  {
    c as int - '0' as int
  }

  predicate AllDigits(s: string) { forall i :: 0 <= i < |s| ==> IsDigit(s[i]) }

  function LeadingDigits(s: string): (k: nat)
    ensures k <= |s| && AllDigits(s[..k]) && (k < |s| ==> !IsDigit(s[k]))
  {
    if s == "" || !IsDigit(s[0]) then 0 else 1 + LeadingDigits(s[1..])
  }

  function ValueOf(digits: string): nat
    requires AllDigits(digits)
  {
    if digits == "" then 0 else 10 * ValueOf(digits[..|digits| - 1]) + DigitValue(digits[|digits| - 1])
  }

  /** `([0-9]+)` and the rest of the line. */
  function ReadNumber(s: string): Option<(nat, string)> {
    var k := LeadingDigits(s);
    if k == 0 then None else Some((ValueOf(s[..k]), s[k..]))
  }

  /** `^@@ -([0-9]+),([0-9]+) \+([0-9]+),([0-9]+) @@`: the four groups. */
  function MatchChunk(line: string): Option<(nat, nat, nat, nat)> {
    var s0 :- After("@@ -", line);
    var (srcPos, s1) :- ReadNumber(s0);
    var s2 :- After(",", s1);
    var (srcLen, s3) :- ReadNumber(s2);
    var s4 :- After(" +", s3);
    var (dstPos, s5) :- ReadNumber(s4);
    var s6 :- After(",", s5);
    var (dstLen, s7) :- ReadNumber(s6);
    var _ :- After(" @@", s7);
    Some((srcPos, srcLen, dstPos, dstLen))
  }

  // ---------- Reading ----------

  /** The reader's variables.  current_patch is the last patch; current_chunk is
      the last chunk of patch number `owner`, which need not be the last patch. */
  datatype Reader = Reader(patches: seq<Patch>, owner: Option<nat>)

  ghost predicate ReaderOk(r: Reader) {
    r.owner.Some? ==> r.owner.value < |r.patches| && r.patches[r.owner.value].chunks != []
  }

  function AddLine(r: Reader, l: Line): (q: Result<Reader>)
    requires ReaderOk(r)
    ensures q.Ok? ==> ReaderOk(q.value)
  {
    if r.owner.None? then Err(NoChunk)
    else
      var p := r.patches[r.owner.value];
      var last := |p.chunks| - 1;
      var c := p.chunks[last];
      var p' := p.(chunks := p.chunks[last := c.(lines := c.lines + [l])]);
      Ok(r.(patches := r.patches[r.owner.value := p']))
  }

  datatype Form = FileFrom(name: string) | FileTo(name: string) | Header(srcPos: nat, dstPos: nat)
    | Body(line: Line) | Unknown

  /** Which pattern a line matches first. */
  function Classify(line: string): Form {
    match MatchTail("--- ", line)
    case Some(name) => FileFrom(name)
    case None =>
      match MatchTail("+++ ", line)
      case Some(name) => FileTo(name)
      case None =>
        match MatchChunk(line)
        case Some((a, _, b, _)) => Header(a, b)
        case None =>
          match MatchTail("-", line)
          case Some(text) => Body(Line(Src, text))
          case None =>
            match MatchTail("+", line)
            case Some(text) => Body(Line(Dst, text))
            case None =>
              match MatchTail(" ", line)
              case Some(text) => Body(Line(Both, text))
              case None => Unknown
  }

  function Take(r: Reader, form: Form): (q: Result<Reader>)
    requires ReaderOk(r)
    ensures q.Ok? ==> ReaderOk(q.value)
  {
    var n := |r.patches|;
    match form
    case FileFrom(name) => Ok(r.(patches := r.patches + [Patch(name, "", [])]))
    case FileTo(name) =>
      if n == 0 then Err(NoPatch) else Ok(r.(patches := r.patches[n - 1 := r.patches[n - 1].(dst := name)]))
    case Header(a, b) =>
      if n == 0 then Err(NoPatch)
      else
        var p := r.patches[n - 1];
        Ok(Reader(r.patches[n - 1 := p.(chunks := p.chunks + [Chunk(a, b, [])])], Some(n - 1)))
    case Body(l) => AddLine(r, l)
    case Unknown => Err(BadLine)
  }

  function Read(r: Reader, lines: seq<string>): (q: Result<Reader>)
    requires ReaderOk(r)
    ensures q.Ok? ==> ReaderOk(q.value)
    decreases |lines|
  {
    if lines == [] then Ok(r)
    else match Take(r, Classify(lines[0]))
      case Err(e) => Err(e)
      case Ok(q) => Read(q, lines[1..])
  }

  function ParsePatchset(lines: seq<string>): Result<seq<Patch>> {
    match Read(Reader([], None), lines)
    case Err(e) => Err(e)
    case Ok(r) => Ok(r.patches)
  }

  // ---------- Writing ----------

  function Digit(d: nat): char
    requires d < 10
  {
    ('0' as int + d) as char
  }

  function Decimal(n: nat): string {
    if n < 10 then [Digit(n)] else Decimal(n / 10) + [Digit(n % 10)]
  }

  function Mark(k: Kind): string {
    match k
    case Src => "-"
    case Dst => "+"
    case Both => " "
  }

  function WriteLine(l: Line): string { Mark(l.kind) + l.text + "\n" }

  function WriteLines(ls: seq<Line>): seq<string> {
    if ls == [] then [] else [WriteLine(ls[0])] + WriteLines(ls[1..])
  }

  function SrcCount(ls: seq<Line>): nat {
    if ls == [] then 0 else SrcCount(ls[..|ls| - 1]) + if ls[|ls| - 1].kind.Dst? then 0 else 1
  }

  function DstCount(ls: seq<Line>): nat {
    if ls == [] then 0 else DstCount(ls[..|ls| - 1]) + if ls[|ls| - 1].kind.Src? then 0 else 1
  }

  function ChunkHeader(c: Chunk): string {
    "@@ -" + Decimal(c.srcPos) + "," + Decimal(SrcCount(c.lines)) +
    " +" + Decimal(c.dstPos) + "," + Decimal(DstCount(c.lines)) + " @@\n"
  }

  function WriteChunks(cs: seq<Chunk>): seq<string> {
    if cs == [] then [] else [ChunkHeader(cs[0])] + WriteLines(cs[0].lines) + WriteChunks(cs[1..])
  }

  function WritePatch(p: Patch): seq<string> {
    ["--- " + p.src + "\n", "+++ " + p.dst + "\n"] + WriteChunks(p.chunks)
  }

  function WritePatchset(ps: seq<Patch>): seq<string> {
    if ps == [] then [] else WritePatch(ps[0]) + WritePatchset(ps[1..])
  }

  // ---------- Numbers ----------

  lemma {:induction false} DecimalDigits(n: nat)
    ensures Decimal(n) != "" && AllDigits(Decimal(n)) && ValueOf(Decimal(n)) == n
  {
    if n >= 10 {
      DecimalDigits(n / 10);
      var d := Decimal(n);
      assert d[..|d| - 1] == Decimal(n / 10);
    } else {
      assert Decimal(n)[..0] == "";
    }
  }

  lemma {:induction false} LeadingDigitsOf(digits: string, rest: string)
    requires AllDigits(digits) && (rest == "" || !IsDigit(rest[0]))
    ensures LeadingDigits(digits + rest) == |digits|
  {
    var s := digits + rest;
    if digits == "" {
      assert s == rest;
    } else {
      assert s[1..] == digits[1..] + rest;
      LeadingDigitsOf(digits[1..], rest);
    }
  }

  lemma ReadDecimal(n: nat, rest: string)
    requires rest != "" && !IsDigit(rest[0])
    ensures ReadNumber(Decimal(n) + rest) == Some((n, rest))
  {
    DecimalDigits(n);
    LeadingDigitsOf(Decimal(n), rest);
    var s := Decimal(n) + rest;
    assert s[..|Decimal(n)|] == Decimal(n) && s[|Decimal(n)|..] == rest;
  }

  lemma AfterPrefix(prefix: string, rest: string)
    ensures After(prefix, prefix + rest) == Some(rest)
  {
    assert (prefix + rest)[|prefix|..] == rest;
  }

  // ---------- What the written lines look like to the reader ----------

  lemma TailOfText(text: string)
    requires NoNewline(text)
    ensures Tail(text + "\n") == Some(text)
  {
    var s := text + "\n";
    assert s[|s| - 1] == '\n';
    assert s[..|s| - 1] == text;
  }

  /** Does the writer's line look like a file header? */
  predicate Clashes(l: Line) {
    (l.kind.Src? && "-- " <= l.text) || (l.kind.Dst? && "++ " <= l.text)
  }

  lemma FirstChar(line: string, c: char, prefix: string)
    requires line != "" && line[0] == c && prefix != "" && prefix[0] != c
    ensures !(prefix <= line)
  {}

  lemma SecondChars(mark: string, text: string, prefix: string, rest: string)
    requires |mark| == 1 && prefix == mark + rest
    ensures prefix <= mark + text + "\n" <==> rest <= text + "\n"
  {
    var line := mark + text + "\n";
    if prefix <= line {
      assert forall i :: 0 <= i < |rest| ==> rest[i] == prefix[i + 1] == line[i + 1] == (text + "\n")[i];
    }
    if rest <= text + "\n" {
      assert line == mark + (text + "\n");
    }
  }

  lemma BlankEnds(rest: string, text: string)
    requires rest != "" && rest[|rest| - 1] != '\n'
    ensures rest <= text + "\n" <==> rest <= text
  {
    if |rest| <= |text| {
      assert (text + "\n")[..|text|] == text;
    } else if |rest| == |text| + 1 {
      assert (text + "\n")[|text|] == '\n';
    }
  }

  lemma ClassifyLine(l: Line)
    requires NoNewline(l.text)
    ensures !Clashes(l) ==> Classify(WriteLine(l)) == Body(l)
    ensures Clashes(l) && l.kind.Src? ==> Classify(WriteLine(l)).FileFrom?
    ensures Clashes(l) && l.kind.Dst? ==> Classify(WriteLine(l)).FileTo?
  {
    hide MatchChunk;
    var line := WriteLine(l);
    NotAChunk(line);
    match l.kind
    case Src =>
      SecondChars("-", l.text, "--- ", "-- ");
      BlankEnds("-- ", l.text);
      FirstChar(line, '-', "+++ ");
      if Clashes(l) { CutText("--- ", "-", l.text); } else { CutText("-", "-", l.text); }
    case Dst =>
      SecondChars("+", l.text, "+++ ", "++ ");
      BlankEnds("++ ", l.text);
      FirstChar(line, '+', "--- ");
      FirstChar(line, '+', "-");
      if Clashes(l) { CutText("+++ ", "+", l.text); } else { CutText("+", "+", l.text); }
    case Both =>
      FirstChar(line, ' ', "--- ");
      FirstChar(line, ' ', "+++ ");
      FirstChar(line, ' ', "-");
      FirstChar(line, ' ', "+");
      CutText(" ", " ", l.text);
  }

  lemma NotAChunk(line: string)
    requires line != "" && line[0] != '@'
    ensures MatchChunk(line).None?
  {
    FirstChar(line, line[0], "@@ -");
  }

  /** Cutting a header-like prefix off a written line leaves newline-free text. */
  lemma CutText(prefix: string, mark: string, text: string)
    requires NoNewline(text) && |mark| == 1 && mark <= prefix && prefix <= mark + text + "\n"
    requires NoNewline(prefix)
    ensures |prefix| <= |mark + text|
    ensures MatchTail(prefix, mark + text + "\n") == Some((mark + text)[|prefix|..])
    ensures prefix == mark ==> MatchTail(prefix, mark + text + "\n") == Some(text)
  {
    var line := mark + text + "\n";
    assert line[|line| - 1] == '\n' && '\n' in line;
    assert prefix != line;
    var rest := (mark + text)[|prefix|..];
    assert line[|prefix|..] == rest + "\n";
    assert NoNewline(rest) by { assert forall i :: 0 <= i < |rest| ==> rest[i] == text[i + |prefix| - 1]; }
    TailOfText(rest);
    if prefix == mark { assert rest == text; }
  }

  lemma ClassifyFrom(name: string)
    requires NoNewline(name)
    ensures Classify("--- " + name + "\n") == FileFrom(name)
  {
    hide MatchChunk;
    FileLine("--- ", name);
  }

  lemma ClassifyTo(name: string)
    requires NoNewline(name)
    ensures Classify("+++ " + name + "\n") == FileTo(name)
  {
    hide MatchChunk;
    FileLine("+++ ", name);
    FirstChar("+++ " + name + "\n", '+', "--- ");
  }

  lemma FileLine(prefix: string, name: string)
    requires NoNewline(name)
    ensures MatchTail(prefix, prefix + name + "\n") == Some(name)
  {
    assert prefix + name + "\n" == prefix + (name + "\n");
    AfterPrefix(prefix, name + "\n");
    TailOfText(name);
  }

  /** The numbers in a written header are the two positions and the numbers of
      lines on the two sides. */
  lemma HeaderSays(c: Chunk)
    ensures MatchChunk(ChunkHeader(c)) == Some((c.srcPos, SrcCount(c.lines), c.dstPos, DstCount(c.lines)))
  {
    hide SrcCount, DstCount, Decimal, ReadNumber, LeadingDigits;
    var d3 := Decimal(DstCount(c.lines));
    var s8 := " @@\n";
    var s6 := d3 + s8;
    var s5 := "," + s6;
    var s4 := Decimal(c.dstPos) + s5;
    var s3 := " +" + s4;
    var s2 := Decimal(SrcCount(c.lines)) + s3;
    var s1 := "," + s2;
    var s0 := Decimal(c.srcPos) + s1;
    var line := ChunkHeader(c);
    assert line == "@@ -" + s0;
    AfterPrefix("@@ -", s0);
    ReadDecimal(c.srcPos, s1);
    AfterPrefix(",", s2);
    ReadDecimal(SrcCount(c.lines), s3);
    AfterPrefix(" +", s4);
    ReadDecimal(c.dstPos, s5);
    AfterPrefix(",", s6);
    ReadDecimal(DstCount(c.lines), s8);
    assert " @@" <= s8;
  }

  lemma ClassifyHeader(c: Chunk)
    ensures Classify(ChunkHeader(c)) == Header(c.srcPos, c.dstPos)
  {
    hide MatchChunk, SrcCount, DstCount, Decimal;
    var line := ChunkHeader(c);
    assert line[0] == '@';
    FirstChar(line, '@', "--- ");
    FirstChar(line, '@', "+++ ");
    HeaderSays(c);
  }
}
