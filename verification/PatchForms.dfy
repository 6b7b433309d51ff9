/** Which lines of a patch the reader takes for what, with or without a newline at
their end, and what it makes of any sequence of them. */
module PatchForms {
  import opened Wrappers
  import opened PatchText
  import opened PatchRoundTrip

  // ---------- Tails ----------

  /** `prefix(.*)$`: the rest of the line, without its newline if it has one. */
  lemma MatchTailExactly(prefix: string, line: string, text: string)
    ensures MatchTail(prefix, line) == Some(text) <==>
            NoNewline(text) && (line == prefix + text || line == prefix + text + "\n")
  {
    if NoNewline(text) {
      AfterPrefix(prefix, text);
      AfterPrefix(prefix, text + "\n");
      assert prefix + text + "\n" == prefix + (text + "\n");
      TailOfText(text);
    }
    if MatchTail(prefix, line) == Some(text) {
      var rest := line[|prefix|..];
      assert line == prefix + rest;
      if rest != text { assert rest == text + "\n" && prefix + (text + "\n") == prefix + text + "\n"; }
    }
  }

  // ---------- Numbers and chunk headers ----------

  predicate Digits(s: string) { s != "" && forall i :: 0 <= i < |s| ==> '0' <= s[i] <= '9' }

  /** The value of a digit string in base ten, leading zeros included. */
  lemma ValueOfDigits(s: string, d: char)
    requires AllDigits(s) && IsDigit(d)
    ensures AllDigits(s + [d]) && ValueOf(s + [d]) == 10 * ValueOf(s) + (d as int - '0' as int)
    ensures ValueOf("") == 0
  {
    var t := s + [d];
    assert t[..|t| - 1] == s && t[|t| - 1] == d;
  }

  lemma ReadDigits(s: string, rest: string)
    requires Digits(s) && rest != "" && !('0' <= rest[0] <= '9')
    ensures AllDigits(s) && ReadNumber(s + rest) == Some((ValueOf(s), rest))
  {
    LeadingDigitsOf(s, rest);
    assert (s + rest)[..|s|] == s && (s + rest)[|s|..] == rest;
  }

  lemma ReadNumberParts(s: string) returns (digits: string)
    requires ReadNumber(s).Some?
    ensures Digits(digits) && AllDigits(digits) && s == digits + ReadNumber(s).value.1
            && ReadNumber(s).value.0 == ValueOf(digits)
  {
    digits := s[..LeadingDigits(s)];
    assert s == digits + s[LeadingDigits(s)..];
  }

  function HeaderText(a: string, b: string, c: string, d: string, rest: string): string {
    "@@ -" + a + "," + b + " +" + c + "," + d + " @@" + rest
  }

  lemma HeaderParts(a: string, b: string, c: string, d: string, rest: string)
    ensures HeaderText(a, b, c, d, rest)
            == "@@ -" + (a + ("," + (b + (" +" + (c + ("," + (d + (" @@" + rest))))))))
  {}

  /** Any four numbers in this shape make a chunk header, whatever follows. */
  lemma HeaderMatches(a: string, b: string, c: string, d: string, rest: string)
    requires Digits(a) && Digits(b) && Digits(c) && Digits(d)
    ensures AllDigits(a) && AllDigits(b) && AllDigits(c) && AllDigits(d)
    ensures MatchChunk(HeaderText(a, b, c, d, rest)) == Some((ValueOf(a), ValueOf(b), ValueOf(c), ValueOf(d)))
  {
    hide ReadNumber, Digits, AllDigits, ValueOf, HeaderText, After;
    HeaderParts(a, b, c, d, rest);
    var s7 := " @@" + rest;
    var s6 := d + s7;
    var s5 := "," + s6;
    var s4 := c + s5;
    var s3 := " +" + s4;
    var s2 := b + s3;
    var s1 := "," + s2;
    AfterPrefix("@@ -", a + s1);
    ReadDigits(a, s1);
    AfterPrefix(",", s2);
    ReadDigits(b, s3);
    AfterPrefix(" +", s4);
    ReadDigits(c, s5);
    AfterPrefix(",", s6);
    ReadDigits(d, s7);
    AfterPrefix(" @@", rest);
  }

  lemma AfterParts(prefix: string, s: string)
    requires After(prefix, s).Some?
    ensures s == prefix + After(prefix, s).value
  {}

  /** And every chunk header has that shape. */
  lemma HeaderOnlyIf(line: string) returns (a: string, b: string, c: string, d: string, rest: string)
    requires MatchChunk(line).Some?
    ensures Digits(a) && Digits(b) && Digits(c) && Digits(d) && line == HeaderText(a, b, c, d, rest)
  {
    hide ReadNumber, Digits, AllDigits, ValueOf, HeaderText, After;
    AfterParts("@@ -", line);
    var s0 := After("@@ -", line).value;
    a := ReadNumberParts(s0);
    var s1 := ReadNumber(s0).value.1;
    AfterParts(",", s1);
    var s2 := After(",", s1).value;
    b := ReadNumberParts(s2);
    var s3 := ReadNumber(s2).value.1;
    AfterParts(" +", s3);
    var s4 := After(" +", s3).value;
    c := ReadNumberParts(s4);
    var s5 := ReadNumber(s4).value.1;
    AfterParts(",", s5);
    var s6 := After(",", s5).value;
    d := ReadNumberParts(s6);
    var s7 := ReadNumber(s6).value.1;
    AfterParts(" @@", s7);
    rest := After(" @@", s7).value;
    HeaderParts(a, b, c, d, rest);
  }

  // ---------- What a line is taken for ----------

  /** Text with or without a newline behind it. */
  predicate Ended(line: string, text: string) { NoNewline(text) && (line == text || line == text + "\n") }

  lemma TailIs(prefix: string, line: string)
    requires NoNewline(prefix)
    ensures MatchTail(prefix, line).Some? <==> exists text :: Ended(line, text) && prefix <= text
  {
    if MatchTail(prefix, line).Some? {
      var t := MatchTail(prefix, line).value;
      MatchTailExactly(prefix, line, t);
      assert Ended(line, prefix + t);
    }
    if text :| Ended(line, text) && prefix <= text {
      var t := text[|prefix|..];
      assert text == prefix + t;
      MatchTailExactly(prefix, line, t);
    }
  }

  lemma TailOfBody(prefix: string, body: string, line: string)
    requires Ended(line, body) && NoNewline(prefix)
    ensures MatchTail(prefix, line) == if prefix <= body then Some(body[|prefix|..]) else None
  {
    if prefix <= body {
      assert body == prefix + body[|prefix|..];
      MatchTailExactly(prefix, line, body[|prefix|..]);
    } else if MatchTail(prefix, line).Some? {
      TailIs(prefix, line);
      var text :| Ended(line, text) && prefix <= text;
      OneBody(line, text, body);
    }
  }

  lemma OneBody(line: string, a: string, b: string)
    requires Ended(line, a) && Ended(line, b)
    ensures a == b
  {
    if line == a + "\n" { assert line[|line| - 1] == '\n' && line[..|line| - 1] == a; }
    if line == b + "\n" { assert line[|line| - 1] == '\n' && line[..|line| - 1] == b; }
  }

  lemma FirstOf(prefix: string, s: string)
    requires prefix != "" && prefix <= s
    ensures s != "" && s[0] == prefix[0]
  {}

  /** What the reader takes a line for, with or without a newline at its end. */
  lemma ClassifyText(body: string, line: string)
    requires Ended(line, body)
    ensures "--- " <= body ==> Classify(line) == FileFrom(body[4..])
    ensures "+++ " <= body ==> Classify(line) == FileTo(body[4..])
    ensures "-" <= body && !("--- " <= body) ==> Classify(line) == Body(Line(Src, body[1..]))
    ensures "+" <= body && !("+++ " <= body) ==> Classify(line) == Body(Line(Dst, body[1..]))
    ensures " " <= body ==> Classify(line) == Body(Line(Both, body[1..]))
    ensures "@" <= body ==> Classify(line).Header? || Classify(line).Unknown?
    ensures (body == "" || body[0] !in "-+ @") ==> Classify(line) == Unknown
  {
    hide MatchChunk, MatchTail;
    TailOfBody("--- ", body, line);
    TailOfBody("+++ ", body, line);
    TailOfBody("-", body, line);
    TailOfBody("+", body, line);
    TailOfBody(" ", body, line);
    if body != "" {
      if body[0] != '@' {
        assert line[0] == body[0];
        NotAChunk(line);
      }
    } else {
      NoChunkInEmpty(line);
    }
  }

  lemma NoChunkInEmpty(line: string)
    requires Ended(line, "")
    ensures MatchChunk(line).None?
  {}

  /** A chunk header is known by its shape alone: four numbers, and anything may
      follow. */
  lemma ClassifyHeaderText(a: string, b: string, c: string, d: string, rest: string)
    requires Digits(a) && Digits(b) && Digits(c) && Digits(d)
    ensures AllDigits(a) && AllDigits(c)
    ensures Classify(HeaderText(a, b, c, d, rest)) == Header(ValueOf(a), ValueOf(c))
  {
    hide MatchChunk, MatchTail, ValueOf, AllDigits, Digits;
    HeaderMatches(a, b, c, d, rest);
    var line := HeaderText(a, b, c, d, rest);
    StartsWithAt(a, b, c, d, rest);
    NoTail("--- ", line);
    NoTail("+++ ", line);
  }

  lemma StartsWithAt(a: string, b: string, c: string, d: string, rest: string)
    ensures HeaderText(a, b, c, d, rest) != "" && HeaderText(a, b, c, d, rest)[0] == '@'
  {}

  lemma NoTail(prefix: string, line: string)
    requires line != "" && prefix != "" && line[0] != prefix[0]
    ensures MatchTail(prefix, line).None?
  {}

  lemma OnlyHeaders(line: string) returns (a: string, b: string, c: string, d: string, rest: string)
    requires Classify(line).Header?
    ensures Digits(a) && Digits(b) && Digits(c) && Digits(d) && line == HeaderText(a, b, c, d, rest)
  {
    hide MatchTail, MatchChunk, HeaderText;
    a, b, c, d, rest := HeaderOnlyIf(line);
  }

  /** A line with a newline inside is a chunk header or nothing known. */
  lemma ClassifyInner(line: string)
    requires forall text :: !Ended(line, text)
    ensures Classify(line).Header? || Classify(line).Unknown?
  {
    hide MatchChunk, MatchTail;
    TailIs("--- ", line);
    TailIs("+++ ", line);
    TailIs("-", line);
    TailIs("+", line);
    TailIs(" ", line);
  }

  // ---------- A missing newline at the end of the file ----------

  lemma HeaderWithNewline(body: string)
    ensures MatchChunk(body) == MatchChunk(body + "\n")
  {
    hide MatchChunk, HeaderText, Digits, ValueOf, AllDigits;
    var line := body + "\n";
    if MatchChunk(body).Some? {
      var a, b, c, d, rest := HeaderOnlyIf(body);
      HeaderLonger(a, b, c, d, rest);
      HeaderMatches(a, b, c, d, rest);
      HeaderMatches(a, b, c, d, rest + "\n");
    } else if MatchChunk(line).Some? {
      var a, b, c, d, rest := HeaderOnlyIf(line);
      HeaderShorter(a, b, c, d, rest, body);
      HeaderMatches(a, b, c, d, rest[..|rest| - 1]);
    }
  }

  lemma HeaderLonger(a: string, b: string, c: string, d: string, rest: string)
    ensures HeaderText(a, b, c, d, rest) + "\n" == HeaderText(a, b, c, d, rest + "\n")
  {
    var front := "@@ -" + a + "," + b + " +" + c + "," + d + " @@";
    assert front + rest + "\n" == front + (rest + "\n");
  }

  lemma HeaderShorter(a: string, b: string, c: string, d: string, rest: string, body: string)
    requires HeaderText(a, b, c, d, rest) == body + "\n"
    ensures rest != "" && body == HeaderText(a, b, c, d, rest[..|rest| - 1])
  {
    var line := body + "\n";
    var front := "@@ -" + a + "," + b + " +" + c + "," + d + " @@";
    assert line == front + rest && line[|line| - 1] == '\n' && line[..|line| - 1] == body;
    assert line[|front| - 1] == front[|front| - 1] == '@';
    assert line[..|line| - 1] == front + rest[..|rest| - 1];
  }

  lemma NewlineIgnored(body: string)
    requires NoNewline(body)
    ensures Classify(body) == Classify(body + "\n")
  {
    hide MatchChunk, MatchTail;
    HeaderWithNewline(body);
    TailBoth("--- ", body);
    TailBoth("+++ ", body);
    TailBoth("-", body);
    TailBoth("+", body);
    TailBoth(" ", body);
  }

  lemma TailBoth(prefix: string, body: string)
    requires NoNewline(body) && NoNewline(prefix)
    ensures MatchTail(prefix, body) == MatchTail(prefix, body + "\n")
  {
    hide MatchTail;
    TailOfBody(prefix, body, body);
    TailOfBody(prefix, body, body + "\n");
  }

  /** The same lines, where the last one has lost its newline. */
  predicate Unterminated(full: seq<string>, lines: seq<string>) {
    full != [] && |lines| == |full| && lines[..|lines| - 1] == full[..|full| - 1]
    && NoNewline(lines[|lines| - 1]) && full[|full| - 1] == lines[|lines| - 1] + "\n"
  }

  lemma {:induction false} UnterminatedReads(r: Reader, full: seq<string>, lines: seq<string>)
    requires ReaderOk(r) && Unterminated(full, lines)
    ensures Read(r, lines) == Read(r, full)
    decreases |full|
  {
    hide Classify, Take, NoNewline;
    var n := |full| - 1;
    assert full == full[..n] + [full[n]] && lines == full[..n] + [lines[n]];
    NewlineIgnored(lines[n]);
    ReadConcat(r, full[..n], [full[n]]);
    ReadConcat(r, full[..n], [lines[n]]);
    if Read(r, full[..n]).Ok? {
      ReadOne(Read(r, full[..n]).value, full[n]);
      ReadOne(Read(r, full[..n]).value, lines[n]);
    }
  }

  /** A written patch set whose last line lost its newline reads back exactly when
      the complete one does. */
  lemma UnterminatedRoundTrip(ps: seq<Patch>, lines: seq<string>)
    requires PatchesOk(ps) && Unterminated(WritePatchset(ps), lines)
    ensures ParsePatchset(lines) == Ok(ps) <==> NoClash(AllLines(ps))
  {
    hide Unterminated, Read, WritePatchset, NoClash, AllLines, PatchesOk;
    UnterminatedReads(Reader([], None), WritePatchset(ps), lines);
    RoundTripExactlyWhen(ps);
  }
}
