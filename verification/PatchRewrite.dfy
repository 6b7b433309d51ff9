/** Undoing trailing-whitespace changes in a patch set, in place.  Line objects
are shared: a context line is one object that stands on both sides. */
module PatchRewrite {
  import opened Wrappers
  import opened PatchText

  // ---------- On values ----------

  predicate OnSrc(k: Kind) { !k.Dst? }

  predicate OnDst(k: Kind) { !k.Src? }

  /** Positions of the lines on one side, in order. */
  function SrcAt(kinds: seq<Kind>): seq<nat> {
    if kinds == [] then []
    else SrcAt(kinds[..|kinds| - 1]) + if OnSrc(kinds[|kinds| - 1]) then [|kinds| - 1] else []
  }

  function DstAt(kinds: seq<Kind>): seq<nat> {
    if kinds == [] then []
    else DstAt(kinds[..|kinds| - 1]) + if OnDst(kinds[|kinds| - 1]) then [|kinds| - 1] else []
  }

  predicate Blank(c: char) { c == ' ' || c == '\t' }

  /** `^(.*)([ \t]+)$`: the first group is greedy, so the second is the last
      character alone. */
  function Trailing(text: string): Option<(string, char)> {
    match Tail(text)
    case None => None
    case Some(b) => if b != "" && Blank(b[|b| - 1]) then Some((b[..|b| - 1], b[|b| - 1])) else None
  }

  predicate Indices(at: seq<nat>, n: nat) { forall i :: 0 <= i < |at| ==> at[i] < n }

  /** Step i: when line src[i] is line dst[i] plus one blank, append that blank. */
  function Step(texts: seq<string>, src: seq<nat>, dst: seq<nat>, i: nat): (r: seq<string>)
    requires Indices(src, |texts|) && Indices(dst, |texts|) && i < |src| && i < |dst|
    ensures |r| == |texts|
  {
    var d := texts[dst[i]];
    match Trailing(texts[src[i]])
    case Some((head, blank)) => if head == d then texts[dst[i] := d + [blank]] else texts
    case None => texts
  }

  /** The first n steps. */
  function Pass(texts: seq<string>, src: seq<nat>, dst: seq<nat>, n: nat): (r: seq<string>)
    requires Indices(src, |texts|) && Indices(dst, |texts|) && n <= |src| && n <= |dst|
    ensures |r| == |texts|
  {
    if n == 0 then texts else Step(Pass(texts, src, dst, n - 1), src, dst, n - 1)
  }

  /** What happens to the texts of a whole chunk. */
  function Rewritten(kinds: seq<Kind>, texts: seq<string>): (r: seq<string>)
    requires |kinds| == |texts|
    ensures |r| == |texts|
  {
    SidesInside(kinds);
    Pass(texts, SrcAt(kinds), DstAt(kinds), Min(|SrcAt(kinds)|, |DstAt(kinds)|))
  }

  lemma {:induction false} SidesInside(kinds: seq<Kind>)
    ensures Indices(SrcAt(kinds), |kinds|) && Indices(DstAt(kinds), |kinds|)
  {
    if kinds != [] { SidesInside(kinds[..|kinds| - 1]); }
  }

  predicate Increasing(at: seq<nat>) { forall i, j :: 0 <= i < j < |at| ==> at[i] < at[j] }

  lemma {:induction false} SidesIncrease(kinds: seq<Kind>)
    ensures Increasing(SrcAt(kinds)) && Increasing(DstAt(kinds))
  {
    if kinds != [] {
      SidesInside(kinds[..|kinds| - 1]);
      SidesIncrease(kinds[..|kinds| - 1]);
    }
  }

  lemma {:induction false} SidesExact(kinds: seq<Kind>, p: nat)
    requires p < |kinds|
    ensures p in SrcAt(kinds) <==> kinds[p] == Src || kinds[p] == Both
    ensures p in DstAt(kinds) <==> kinds[p] == Dst || kinds[p] == Both
  {
    var front := kinds[..|kinds| - 1];
    SidesInside(front);
    if p < |kinds| - 1 { SidesExact(front, p); }
  }

  function KindsIn(ls: seq<Line>): seq<Kind> { seq(|ls|, i requires 0 <= i < |ls| => ls[i].kind) }

  /** The counts in a chunk header are the numbers of lines on the two sides; they
      depend on the kinds alone, which no rewrite touches. */
  lemma {:induction false} HeaderCountsSides(ls: seq<Line>)
    ensures SrcCount(ls) == |SrcAt(KindsIn(ls))| && DstCount(ls) == |DstAt(KindsIn(ls))|
  {
    if ls != [] {
      HeaderCountsSides(ls[..|ls| - 1]);
      assert KindsIn(ls)[..|ls| - 1] == KindsIn(ls[..|ls| - 1]);
    }
  }

  /** A step changes at most line dst[i], by one appended blank. */
  lemma StepEffect(texts: seq<string>, src: seq<nat>, dst: seq<nat>, i: nat, p: nat)
    requires Indices(src, |texts|) && Indices(dst, |texts|) && i < |src| && i < |dst| && p < |texts|
    ensures var r := Step(texts, src, dst, i);
      && (p != dst[i] ==> r[p] == texts[p])
      && (r[p] == texts[p] || r[p] == texts[p] + " " || r[p] == texts[p] + "\t")
  {
    hide Tail;
  }

  /** Before step i is reached, line dst[i] is untouched; afterwards it stays. */
  lemma {:induction false} PassEffect(texts: seq<string>, src: seq<nat>, dst: seq<nat>, n: nat, p: nat)
    requires Indices(src, |texts|) && Indices(dst, |texts|) && n <= |src| && n <= |dst| && p < |texts|
    requires Increasing(dst)
    ensures var r := Pass(texts, src, dst, n);
      && (p !in dst[..n] ==> r[p] == texts[p])
      && (r[p] == texts[p] || r[p] == texts[p] + " " || r[p] == texts[p] + "\t")
  {
    hide Step;
    if n > 0 {
      var before := Pass(texts, src, dst, n - 1);
      StepEffect(before, src, dst, n - 1, p);
      PassEffect(texts, src, dst, n - 1, p);
      assert dst[..n] == dst[..n - 1] + [dst[n - 1]];
    }
  }

  /** Whatever the chunk: lines that exist only on the old side keep their text,
      and every other line keeps it or gains one blank or tab, once. */
  lemma RewriteIsSmall(kinds: seq<Kind>, texts: seq<string>, p: nat)
    requires |kinds| == |texts| && p < |texts|
    ensures var r := Rewritten(kinds, texts);
      && (kinds[p].Src? ==> r[p] == texts[p])
      && (r[p] == texts[p] || r[p] == texts[p] + " " || r[p] == texts[p] + "\t")
  {
    hide Pass, SrcAt, DstAt;
    SidesInside(kinds);
    SidesIncrease(kinds);
    var n := Min(|SrcAt(kinds)|, |DstAt(kinds)|);
    PassEffect(texts, SrcAt(kinds), DstAt(kinds), n, p);
    SidesExact(kinds, p);
    assert p in DstAt(kinds)[..n] ==> p in DstAt(kinds);
  }

  // ---------- Aligned chunks ----------

  /** Each new-side line is the old-side line at the same place or an added one. */
  predicate Aligned(kinds: seq<Kind>) {
    var src, dst := SrcAt(kinds), DstAt(kinds);
    SidesInside(kinds);
    forall i :: 0 <= i < |src| && i < |dst| ==> dst[i] == src[i] || kinds[dst[i]].Dst?
  }

  /** A text never is its own text without the last blank. */
  lemma NotItsOwnHead(text: string)
    ensures Trailing(text).Some? ==> |Trailing(text).value.0| < |text|
  {}

  /** Where step i writes, if it writes at all, stands an added line. */
  lemma WritesOnlyAdded(kinds: seq<Kind>, texts: seq<string>, i: nat, p: nat)
    requires |kinds| == |texts| && Aligned(kinds) && p < |texts| && !kinds[p].Dst?
    requires i < |SrcAt(kinds)| && i < |DstAt(kinds)|
    requires Indices(SrcAt(kinds), |kinds|) && Indices(DstAt(kinds), |kinds|)
    ensures Step(texts, SrcAt(kinds), DstAt(kinds), i)[p] == texts[p]
  {
    hide Trailing, SrcAt, DstAt;
    NotItsOwnHead(texts[SrcAt(kinds)[i]]);
  }

  lemma {:induction false} OldSideKept(kinds: seq<Kind>, texts: seq<string>, n: nat, p: nat)
    requires |kinds| == |texts| && Aligned(kinds) && p < |texts| && !kinds[p].Dst?
    requires Indices(SrcAt(kinds), |kinds|) && Indices(DstAt(kinds), |kinds|)
    requires n <= |SrcAt(kinds)| && n <= |DstAt(kinds)|
    ensures Pass(texts, SrcAt(kinds), DstAt(kinds), n)[p] == texts[p]
  {
    hide Step, SrcAt, DstAt, Aligned;
    if n > 0 {
      OldSideKept(kinds, texts, n - 1, p);
      WritesOnlyAdded(kinds, Pass(texts, SrcAt(kinds), DstAt(kinds), n - 1), n - 1, p);
    }
  }

  /** What step i leaves on the new side of an aligned chunk. */
  function Undone(was: string, now: string): string {
    match Trailing(was)
    case Some((head, blank)) => if head == now then now + [blank] else now
    case None => now
  }

  /** In an aligned chunk every new-side line is repaired against the old-side
      line at its place, independently of all other lines. */
  lemma AlignedResult(kinds: seq<Kind>, texts: seq<string>, i: nat)
    requires |kinds| == |texts| && Aligned(kinds)
    requires i < |SrcAt(kinds)| && i < |DstAt(kinds)|
    ensures Indices(SrcAt(kinds), |kinds|) && Indices(DstAt(kinds), |kinds|)
    ensures Rewritten(kinds, texts)[DstAt(kinds)[i]] == Undone(texts[SrcAt(kinds)[i]], texts[DstAt(kinds)[i]])
  {
    hide Aligned, SrcAt, DstAt, Trailing, Undone, Pass;
    SidesInside(kinds);
    SidesIncrease(kinds);
    var src, dst := SrcAt(kinds), DstAt(kinds);
    StepDecides(texts, src, dst, i, Min(|src|, |dst|));
    assert src[i] in src;
    SidesExact(kinds, src[i]);
    OldSideKept(kinds, texts, i, src[i]);
  }

  /** Step i repairs line dst[i] against line src[i] as the earlier steps left it,
      and no later step touches it again. */
  lemma {:induction false} StepDecides(texts: seq<string>, src: seq<nat>, dst: seq<nat>, i: nat, n: nat)
    requires Indices(src, |texts|) && Indices(dst, |texts|) && Increasing(dst)
    requires i < n <= |src| && n <= |dst|
    ensures Pass(texts, src, dst, n)[dst[i]] == Undone(Pass(texts, src, dst, i)[src[i]], texts[dst[i]])
    decreases n
  {
    hide Trailing;
    var before := Pass(texts, src, dst, n - 1);
    StepEffect(before, src, dst, n - 1, dst[i]);
    if i == n - 1 {
      assert dst[i] !in dst[..n - 1];
      PassEffect(texts, src, dst, n - 1, dst[i]);
    } else {
      StepDecides(texts, src, dst, i, n - 1);
    }
  }

  lemma UndoneTwice(was: string, now: string)
    ensures Undone(was, Undone(was, now)) == Undone(was, now)
  {
    hide Tail;
  }

  /** The purpose: a change that only dropped one trailing blank disappears, and
      any other change stays. */
  lemma WhitespaceChangeUndone(kinds: seq<Kind>, texts: seq<string>, i: nat)
    requires |kinds| == |texts| && Aligned(kinds)
    requires i < |SrcAt(kinds)| && i < |DstAt(kinds)|
    ensures Indices(SrcAt(kinds), |kinds|) && Indices(DstAt(kinds), |kinds|)
    ensures var s, d := SrcAt(kinds)[i], DstAt(kinds)[i];
      var r := Rewritten(kinds, texts);
      NoNewline(texts[s]) ==>
        && r[s] == texts[s]
        && ((texts[s] == texts[d] + " " || texts[s] == texts[d] + "\t") ==> r[d] == texts[s])
        && (!(texts[s] == texts[d] + " " || texts[s] == texts[d] + "\t") ==> r[d] == texts[d])
  {
    hide Aligned, SrcAt, DstAt, Pass, Trailing, Undone;
    SidesInside(kinds);
    var s, d := SrcAt(kinds)[i], DstAt(kinds)[i];
    AlignedResult(kinds, texts, i);
    assert s in SrcAt(kinds);
    SidesExact(kinds, s);
    OldSideKept(kinds, texts, Min(|SrcAt(kinds)|, |DstAt(kinds)|), s);
    if NoNewline(texts[s]) { UndoneMeans(texts[s], texts[d]); }
  }

  /** Of the changes that only dropped trailing blanks exactly those are undone
      that dropped a single one. */
  lemma TrailingChangeUndoneExactlyWhen(kinds: seq<Kind>, texts: seq<string>, i: nat, blanks: string)
    requires |kinds| == |texts| && Aligned(kinds)
    requires i < |SrcAt(kinds)| && i < |DstAt(kinds)|
    requires Indices(SrcAt(kinds), |kinds|) && Indices(DstAt(kinds), |kinds|)
    requires blanks != "" && forall j :: 0 <= j < |blanks| ==> Blank(blanks[j])
    requires NoNewline(texts[SrcAt(kinds)[i]]) && texts[SrcAt(kinds)[i]] == texts[DstAt(kinds)[i]] + blanks
    ensures Rewritten(kinds, texts)[DstAt(kinds)[i]] == texts[SrcAt(kinds)[i]] <==> |blanks| == 1
  {
    hide Aligned, SrcAt, DstAt, Rewritten;
    WhitespaceChangeUndone(kinds, texts, i);
    var d := texts[DstAt(kinds)[i]];
    assert |blanks| == 1 ==> blanks == [blanks[0]];
    assert Blank(blanks[0]);
    assert |d + blanks| == |d| + |blanks|;
  }

  lemma UndoneMeans(s: string, d: string)
    requires NoNewline(s)
    ensures (s == d + " " || s == d + "\t") ==> Undone(s, d) == s
    ensures !(s == d + " " || s == d + "\t") ==> Undone(s, d) == d
  {
    if s != "" {
      assert s == s[..|s| - 1] + [s[|s| - 1]];
      assert (d + " ")[..|d|] == d && (d + "\t")[..|d|] == d;
    }
  }

  // ---------- The second pass ----------

  /** No context line within reach follows more added than deleted lines. */
  predicate Settled(kinds: seq<Kind>) {
    forall p :: 0 <= p < |kinds| && kinds[p].Both? && |DstAt(kinds[..p])| < |SrcAt(kinds)| ==>
      |DstAt(kinds[..p])| <= |SrcAt(kinds[..p])|
  }

  /** Each line stands on its side at the number of lines before it on that side. */
  lemma {:induction false} PlaceOf(kinds: seq<Kind>, p: nat)
    requires p < |kinds|
    ensures OnSrc(kinds[p]) ==> |SrcAt(kinds[..p])| < |SrcAt(kinds)| && SrcAt(kinds)[|SrcAt(kinds[..p])|] == p
    ensures OnDst(kinds[p]) ==> |DstAt(kinds[..p])| < |DstAt(kinds)| && DstAt(kinds)[|DstAt(kinds[..p])|] == p
  {
    var front := kinds[..|kinds| - 1];
    if p < |kinds| - 1 {
      PlaceOf(front, p);
      assert front[..p] == kinds[..p];
    }
  }

  /** A line that some step reads is never written by a later step. */
  predicate ReadAfterWrite(src: seq<nat>, dst: seq<nat>) {
    forall i, j :: 0 <= j < i < |src| && i < |dst| ==> dst[i] != src[j]
  }

  lemma SettledMeans(kinds: seq<Kind>)
    ensures Settled(kinds) <==> ReadAfterWrite(SrcAt(kinds), DstAt(kinds))
  {
    hide SrcAt, DstAt;
    SidesInside(kinds);
    SidesIncrease(kinds);
    var src, dst := SrcAt(kinds), DstAt(kinds);
    if Settled(kinds) {
      forall i, j | 0 <= j < i < |src| && i < |dst| ensures dst[i] != src[j] {
        var p := dst[i];
        assert p in dst && src[j] in src;
        SidesExact(kinds, p);
        PlaceOf(kinds, p);
      }
    }
    forall p | ReadAfterWrite(src, dst) && 0 <= p < |kinds| && kinds[p].Both? && |DstAt(kinds[..p])| < |src|
      ensures |DstAt(kinds[..p])| <= |SrcAt(kinds[..p])|
    {
      PlaceOf(kinds, p);
    }
  }

  /** What a step reads is what the whole pass leaves there. */
  lemma {:induction false} ReadsFinalText(texts: seq<string>, src: seq<nat>, dst: seq<nat>, j: nat, n: nat)
    requires Indices(src, |texts|) && Indices(dst, |texts|) && ReadAfterWrite(src, dst)
    requires j < n <= |src| && n <= |dst|
    ensures Pass(texts, src, dst, n)[src[j]] == Pass(texts, src, dst, j)[src[j]]
    decreases n
  {
    hide Trailing;
    var before := Pass(texts, src, dst, n - 1);
    StepEffect(before, src, dst, n - 1, src[j]);
    if j == n - 1 {
      NotItsOwnHead(before[src[j]]);
    } else {
      ReadsFinalText(texts, src, dst, j, n - 1);
    }
  }

  lemma {:induction false} NothingToDo(texts: seq<string>, src: seq<nat>, dst: seq<nat>, n: nat)
    requires Indices(src, |texts|) && Indices(dst, |texts|) && n <= |src| && n <= |dst|
    requires forall i :: 0 <= i < n ==> Undone(texts[src[i]], texts[dst[i]]) == texts[dst[i]]
    ensures Pass(texts, src, dst, n) == texts
  {
    hide Trailing;
    if n > 0 {
      NothingToDo(texts, src, dst, n - 1);
      assert Undone(texts[src[n - 1]], texts[dst[n - 1]]) == texts[dst[n - 1]];
    }
  }

  ghost predicate StableFor(kinds: seq<Kind>, texts: seq<string>) {
    |texts| == |kinds| ==> Rewritten(kinds, Rewritten(kinds, texts)) == Rewritten(kinds, texts)
  }

  lemma SettledIsStable(kinds: seq<Kind>, texts: seq<string>)
    requires Settled(kinds) && |texts| == |kinds|
    ensures StableFor(kinds, texts)
  {
    hide SrcAt, DstAt, Pass, Undone, Settled;
    SidesInside(kinds);
    SidesIncrease(kinds);
    SettledMeans(kinds);
    var src, dst := SrcAt(kinds), DstAt(kinds);
    var n := Min(|src|, |dst|);
    var once := Rewritten(kinds, texts);
    forall i | 0 <= i < n ensures Undone(once[src[i]], once[dst[i]]) == once[dst[i]] {
      ReadsFinalText(texts, src, dst, i, n);
      StepDecides(texts, src, dst, i, n);
      UndoneTwice(once[src[i]], texts[dst[i]]);
    }
    NothingToDo(once, src, dst, n);
  }

  /** Lines 'a', 'a ' and 'a  ' where step j repairs the first against the second
      and the later step i repairs the second against the third. */
  lemma UnsettledIsUnstable(kinds: seq<Kind>) returns (texts: seq<string>)
    requires !Settled(kinds)
    ensures |texts| == |kinds| && !StableFor(kinds, texts)
  {
    hide SrcAt, DstAt, Pass, Undone, Settled;
    SidesInside(kinds);
    SidesIncrease(kinds);
    SettledMeans(kinds);
    var src, dst := SrcAt(kinds), DstAt(kinds);
    var n := Min(|src|, |dst|);
    var i, j :| 0 <= j < i < n && dst[i] == src[j];
    texts := seq(|kinds|, q => if q == dst[j] then "a" else if q == dst[i] then "a " else "a  ");
    var once := Rewritten(kinds, texts);
    Repairs();
    UntilStep(texts, src, dst, j, dst[i]);
    StepDecides(texts, src, dst, j, n);
    UntilStep(texts, src, dst, i, src[i]);
    StepDecides(texts, src, dst, i, n);
    UntilStep(once, src, dst, j, dst[i]);
    StepDecides(once, src, dst, j, n);
  }

  lemma Repairs()
    ensures Undone("a ", "a") == "a " && Undone("a  ", "a ") == "a  "
  {
    UndoneMeans("a ", "a");
    UndoneMeans("a  ", "a ");
    assert "a  " == "a " + " ";
  }

  /** A line from dst[i] on has its text when step i begins. */
  lemma UntilStep(texts: seq<string>, src: seq<nat>, dst: seq<nat>, i: nat, p: nat)
    requires Indices(src, |texts|) && Indices(dst, |texts|) && Increasing(dst)
    requires i < |src| && i < |dst| && dst[i] <= p < |texts|
    ensures Pass(texts, src, dst, i)[p] == texts[p]
  {
    hide Pass;
    PassEffect(texts, src, dst, i, p);
  }

  /** A second pass changes nothing, whatever the texts, exactly when no context
      line within reach follows more added than deleted lines. */
  lemma SecondPassExactlyWhen(kinds: seq<Kind>)
    ensures (forall texts :: StableFor(kinds, texts)) <==> Settled(kinds)
  {
    hide SrcAt, DstAt, Pass, Settled, StableFor;
    if Settled(kinds) {
      forall texts ensures StableFor(kinds, texts) {
        if |texts| == |kinds| { SettledIsStable(kinds, texts); } else { DifferentSize(kinds, texts); }
      }
    } else {
      var texts := UnsettledIsUnstable(kinds);
    }
  }

  lemma DifferentSize(kinds: seq<Kind>, texts: seq<string>)
    requires |texts| != |kinds|
    ensures StableFor(kinds, texts)
  {}

  /** Aligned chunks are among them. */
  lemma SecondPassChangesNothing(kinds: seq<Kind>, texts: seq<string>)
    requires |kinds| == |texts| && Aligned(kinds)
    ensures Rewritten(kinds, Rewritten(kinds, texts)) == Rewritten(kinds, texts)
  {
    hide SrcAt, DstAt, Pass, Settled;
    SidesInside(kinds);
    SidesIncrease(kinds);
    SettledMeans(kinds);
    var src, dst := SrcAt(kinds), DstAt(kinds);
    forall i, j | 0 <= j < i < |src| && i < |dst| ensures dst[i] != src[j] {
      assert src[j] in src;
      SidesExact(kinds, src[j]);
    }
    SettledIsStable(kinds, texts);
  }

  /** The smallest chunk that a second pass changes: context lines are repaired
      against lines that are themselves still changing. */
  lemma SecondPassCanChange()
    ensures var kinds := [Dst, Both, Both];
            var texts := ["a", "a ", "a  "];
            Rewritten(kinds, texts) == ["a ", "a  ", "a  "] &&
            Rewritten(kinds, Rewritten(kinds, texts)) == ["a  ", "a  ", "a  "]
  {
    hide Step, Trailing;
    var src, dst := [1, 2], [0, 1, 2];
    ExampleSides();
    var t0, t1, t2, t3 := ["a", "a ", "a  "], ["a ", "a ", "a  "], ["a ", "a  ", "a  "], ["a  ", "a  ", "a  "];
    assert "a" + [' '] == "a " && "a " + [' '] == "a  ";
    StepWrites(t0, src, dst, 0, ' ');
    assert t0[0 := "a "] == t1;
    StepWrites(t1, src, dst, 1, ' ');
    assert t1[1 := "a  "] == t2;
    StepWrites(t2, src, dst, 0, ' ');
    assert t2[0 := "a  "] == t3;
    StepKeepsEqual(t3, src, dst, 1);
    assert Pass(t0, src, dst, 1) == t1 && Pass(t0, src, dst, 2) == t2;
    assert Pass(t2, src, dst, 1) == t3 && Pass(t2, src, dst, 2) == t3;
  }

  lemma ExampleSides()
    ensures SrcAt([Dst, Both, Both]) == [1, 2] && DstAt([Dst, Both, Both]) == [0, 1, 2]
  {
    var kinds := [Dst, Both, Both];
    assert kinds[..2] == [Dst, Both] && [Dst, Both][..1] == [Dst] && [Dst][..0] == [];
    assert SrcAt([Dst]) == [] && DstAt([Dst]) == [0];
    assert SrcAt([Dst, Both]) == [1] && DstAt([Dst, Both]) == [0, 1];
  }

  lemma StepWrites(texts: seq<string>, src: seq<nat>, dst: seq<nat>, i: nat, blank: char)
    requires Indices(src, |texts|) && Indices(dst, |texts|) && i < |src| && i < |dst| && Blank(blank)
    requires NoNewline(texts[src[i]]) && texts[src[i]] == texts[dst[i]] + [blank]
    ensures Step(texts, src, dst, i) == texts[dst[i] := texts[src[i]]]
  {
    var s := texts[src[i]];
    assert s[..|s| - 1] == texts[dst[i]] && s[|s| - 1] == blank;
  }

  lemma StepKeepsEqual(texts: seq<string>, src: seq<nat>, dst: seq<nat>, i: nat)
    requires Indices(src, |texts|) && Indices(dst, |texts|) && i < |src| && i < |dst|
    requires texts[src[i]] == texts[dst[i]]
    ensures Step(texts, src, dst, i) == texts
  {
    NotItsOwnHead(texts[src[i]]);
  }
}
