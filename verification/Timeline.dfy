/** Window queries of utils/grid.py: binary searches over sorted ranges and
events, compared with plain filters. */
module Timeline {

  datatype DataRange = DataRange(start: int, end: int, value: string)

  datatype Event = Event(at: int, value: string)

  // ---------- Ranges ----------

  /** Ranges in order, none overlapping another. */
  predicate Disjoint(rs: seq<DataRange>) {
    (forall i :: 0 <= i < |rs| ==> rs[i].start <= rs[i].end) &&
    (forall i, j :: 0 <= i < j < |rs| ==> rs[i].end < rs[j].start)
  }

  predicate Hit(r: DataRange, key: int) { r.start <= key <= r.end }

  predicate Overlaps(r: DataRange, start: int, end: int) { r.start <= end && start <= r.end }

  /** Those of the first n ranges that meet the window, by looking at all of them. */
  function OverlappingOf(rs: seq<DataRange>, start: int, end: int, n: nat): seq<DataRange>
    requires n <= |rs|
  {
    if n == 0 then []
    else OverlappingOf(rs, start, end, n - 1) + if Overlaps(rs[n - 1], start, end) then [rs[n - 1]] else []
  }

  function Overlapping(rs: seq<DataRange>, start: int, end: int): seq<DataRange> {
    OverlappingOf(rs, start, end, |rs|)
  }

  /** The bisection between l and u: the index of a range that contains key, or
      -1.  Nothing is assumed about the list. */
  function BisectRanges(rs: seq<DataRange>, key: int, l: int, u: int): (r: int)
    requires 0 <= l && u < |rs|
    ensures r == -1 || (l <= r <= u && Hit(rs[r], key))
    decreases u - l
  {
    if l > u then -1
    else
      var i := (l + u) / 2;
      if Hit(rs[i], key) then i
      else if key < rs[i].start then BisectRanges(rs, key, l, i - 1)
      else BisectRanges(rs, key, i + 1, u)
  }

  /** __search of TimelineDataRange. */
  method SearchRange(rs: seq<DataRange>, key: int) returns (r: int)
    ensures r == BisectRanges(rs, key, 0, |rs| - 1)
    ensures Disjoint(rs) ==> Found(rs, key, r)
  {
    if Disjoint(rs) { SearchFinds(rs, key); }
    var l, u := 0, |rs| - 1;
    while l <= u
      invariant 0 <= l && u < |rs|
      invariant BisectRanges(rs, key, 0, |rs| - 1) == BisectRanges(rs, key, l, u)
      decreases u - l
    {
      var i := (l + u) / 2;
      if key >= rs[i].start && key <= rs[i].end {
        return i;
      } else if key < rs[i].start {
        u := i - 1;
      } else {
        l := i + 1;
      }
    }
    return -1;
  }

  /** r is the range that contains key, or -1 when none does. */
  ghost predicate Found(rs: seq<DataRange>, key: int, r: int) {
    if r == -1 then forall i :: 0 <= i < |rs| ==> !Hit(rs[i], key)
    else 0 <= r < |rs| && Hit(rs[r], key)
  }

  /** On sorted disjoint ranges the bisection misses nothing. */
  lemma {:induction false} BisectFinds(rs: seq<DataRange>, key: int, l: int, u: int)
    requires Disjoint(rs) && 0 <= l <= u + 1 && u < |rs|
    requires forall i :: 0 <= i < l ==> rs[i].end < key
    requires forall i :: u < i < |rs| ==> key < rs[i].start
    ensures Found(rs, key, BisectRanges(rs, key, l, u))
    decreases u - l
  {
    if l <= u {
      var i := (l + u) / 2;
      if !Hit(rs[i], key) {
        if key < rs[i].start { BisectFinds(rs, key, l, i - 1); } else { BisectFinds(rs, key, i + 1, u); }
      }
    }
  }

  lemma SearchFinds(rs: seq<DataRange>, key: int)
    requires Disjoint(rs)
    ensures Found(rs, key, BisectRanges(rs, key, 0, |rs| - 1))
  {
    BisectFinds(rs, key, 0, |rs| - 1);
  }

  /** The slice between two search results. */
  function Window(rs: seq<DataRange>, s: int, e: int): seq<DataRange>
    requires -1 <= s < |rs| && -1 <= e < |rs|
  {
    if s == -1 && e == -1 then []
    else if s == -1 then rs[..e + 1]
    else if e == -1 then rs[s..]
    else if s <= e + 1 then rs[s..e + 1] else []
  }

  /** get_ranges, with the bounds of get_ranges_bounds. */
  method GetRanges(rs: seq<DataRange>, start: int, end: int) returns (w: seq<DataRange>, lo: nat, hi: nat)
    ensures w == RangeWindow(rs, start, end)
    ensures lo <= |rs| && hi <= |rs| && w == if lo <= hi then rs[lo..hi] else []
    ensures Disjoint(rs) && start <= end ==>
      (w == Overlapping(rs, start, end) <==> ExactWindow(rs, start, end)) &&
      (Holds(w, rs, start, end) <==> HitBy(rs, start) || HitBy(rs, end) || !LiesInside(rs, start, end))
  {
    hide Overlapping, ExactWindow, Holds, HitBy, LiesInside, Disjoint;
    if Disjoint(rs) && start <= end { RangesInWindow(rs, start, end); }
    var s := SearchRange(rs, start);
    var e := SearchRange(rs, end);
    if s == -1 && e == -1 {
      return [], 0, 0;
    } else if s == -1 {
      return rs[..e + 1], 0, e + 1;
    } else if e == -1 {
      return rs[s..], s, |rs|;
    } else if s <= e + 1 {
      return rs[s..e + 1], s, e + 1;
    } else {
      return [], s, e + 1;
    }
  }

  /** Ranges lo .. hi - 1 are the overlapping ones: the filter is that slice. */
  lemma {:induction false} FilterIsSlice(rs: seq<DataRange>, start: int, end: int, lo: nat, hi: nat, n: nat)
    requires lo <= hi <= |rs| && n <= |rs|
    requires forall i :: 0 <= i < |rs| ==> (Overlaps(rs[i], start, end) <==> lo <= i < hi)
    ensures OverlappingOf(rs, start, end, n) == if n <= lo then [] else if n <= hi then rs[lo..n] else rs[lo..hi]
  {
    hide Overlaps;
    if n > 0 {
      FilterIsSlice(rs, start, end, lo, hi, n - 1);
      if lo < n <= hi { SliceGrows(rs, lo, n); }
    }
  }

  lemma SliceGrows<T>(s: seq<T>, lo: nat, n: nat)
    requires lo < n <= |s|
    ensures s[lo..n] == s[lo..n - 1] + [s[n - 1]]
  {}

  lemma FilterSlice(rs: seq<DataRange>, start: int, end: int, lo: nat, hi: nat)
    requires lo <= hi <= |rs|
    requires forall i :: 0 <= i < |rs| ==> (Overlaps(rs[i], start, end) <==> lo <= i < hi)
    ensures Overlapping(rs, start, end) == rs[lo..hi]
  {
    FilterIsSlice(rs, start, end, lo, hi, |rs|);
  }

  /** A hit at both ends: the window is exactly the overlapping ranges. */
  lemma BothEndsHit(rs: seq<DataRange>, start: int, end: int, s: int, e: int)
    requires Disjoint(rs) && start <= end && Found(rs, start, s) && Found(rs, end, e) && s != -1 && e != -1
    ensures Window(rs, s, e) == Overlapping(rs, start, end)
  {
    assert s <= e;
    FilterSlice(rs, start, end, s, e + 1);
  }

  ghost predicate Holds(w: seq<DataRange>, rs: seq<DataRange>, start: int, end: int) {
    forall i :: 0 <= i < |rs| && Overlaps(rs[i], start, end) ==> rs[i] in w
  }

  /** A hit at one end or both: no overlapping range is missing. */
  lemma OneEndHit(rs: seq<DataRange>, start: int, end: int, s: int, e: int)
    requires Disjoint(rs) && start <= end && Found(rs, start, s) && Found(rs, end, e) && (s != -1 || e != -1)
    ensures Holds(Window(rs, s, e), rs, start, end)
  {
    var w := Window(rs, s, e);
    forall i | 0 <= i < |rs| && Overlaps(rs[i], start, end) ensures rs[i] in w {
      if s == -1 {
        assert i <= e && w[i] == rs[i];
      } else {
        assert s <= i && (e == -1 || i <= e) && w[i - s] == rs[i];
      }
    }
  }

  /** No overlapping range is missing, exactly when one end hits a range or none
      lies strictly inside the window. */
  lemma CompleteExactlyWhen(rs: seq<DataRange>, start: int, end: int, s: int, e: int)
    requires Disjoint(rs) && start <= end && Found(rs, start, s) && Found(rs, end, e)
    ensures Holds(Window(rs, s, e), rs, start, end) <==>
            s != -1 || e != -1 || forall i :: 0 <= i < |rs| ==> !(start < rs[i].start && rs[i].end < end)
  {
    if s != -1 || e != -1 {
      OneEndHit(rs, start, end, s, e);
    } else {
      forall i | 0 <= i < |rs|
        ensures Overlaps(rs[i], start, end) <==> start < rs[i].start && rs[i].end < end
      {
        assert !Hit(rs[i], start) && !Hit(rs[i], end);
      }
    }
  }

  /** The window is exactly the overlapping ranges, exactly when nothing before
      the window slips in at a missed start, nothing behind it at a missed end,
      and nothing inside it is lost when both ends miss. */
  lemma ExactExactlyWhen(rs: seq<DataRange>, start: int, end: int, s: int, e: int)
    requires Disjoint(rs) && start <= end && Found(rs, start, s) && Found(rs, end, e)
    ensures Window(rs, s, e) == Overlapping(rs, start, end) <==>
      if s == -1 && e == -1 then forall i :: 0 <= i < |rs| ==> !(start < rs[i].start && rs[i].end < end)
      else if s == -1 then start <= rs[0].end
      else if e == -1 then rs[|rs| - 1].start <= end
      else true
  {
    if s != -1 && e != -1 {
      BothEndsHit(rs, start, end, s, e);
    } else if s == -1 && e == -1 {
      BothEndsMiss(rs, start, end);
    } else if s == -1 {
      var lo := FirstFrom(rs, start);
      FilterSlice(rs, start, end, lo, e + 1);
      assert |rs[lo..e + 1]| == e + 1 - lo;
      assert lo == 0 <==> start <= rs[0].end;
    } else {
      var hi := FirstAfter(rs, end);
      FilterSlice(rs, start, end, s, hi);
      assert |rs[s..hi]| == hi - s && |rs[s..]| == |rs| - s;
      assert hi == |rs| <==> rs[|rs| - 1].start <= end;
    }
  }

  lemma BothEndsMiss(rs: seq<DataRange>, start: int, end: int)
    requires Disjoint(rs) && start <= end && Found(rs, start, -1) && Found(rs, end, -1)
    ensures Overlapping(rs, start, end) == [] <==>
            forall i :: 0 <= i < |rs| ==> !(start < rs[i].start && rs[i].end < end)
  {
    forall i | 0 <= i < |rs| ensures Overlaps(rs[i], start, end) <==> start < rs[i].start && rs[i].end < end {
      assert !Hit(rs[i], start) && !Hit(rs[i], end);
    }
    NothingOverlaps(rs, start, end);
  }

  lemma NothingOverlaps(rs: seq<DataRange>, start: int, end: int)
    ensures Overlapping(rs, start, end) == [] <==> forall i :: 0 <= i < |rs| ==> !Overlaps(rs[i], start, end)
  {
    NoneOf(rs, start, end, |rs|);
  }

  lemma {:induction false} NoneOf(rs: seq<DataRange>, start: int, end: int, n: nat)
    requires n <= |rs|
    ensures OverlappingOf(rs, start, end, n) == [] <==> forall i :: 0 <= i < n ==> !Overlaps(rs[i], start, end)
  {
    hide Overlaps;
    if n > 0 { NoneOf(rs, start, end, n - 1); }
  }

  /** The first range that does not end before start. */
  lemma FirstFrom(rs: seq<DataRange>, start: int) returns (lo: nat)
    requires Disjoint(rs)
    ensures lo <= |rs| && forall i :: 0 <= i < |rs| ==> (start <= rs[i].end <==> lo <= i)
  {
    lo := 0;
    while lo < |rs| && rs[lo].end < start
      invariant lo <= |rs| && forall i :: 0 <= i < lo ==> rs[i].end < start
    {
      lo := lo + 1;
    }
  }

  /** The first range that starts behind end. */
  lemma FirstAfter(rs: seq<DataRange>, end: int) returns (hi: nat)
    requires Disjoint(rs)
    ensures hi <= |rs| && forall i :: 0 <= i < |rs| ==> (rs[i].start <= end <==> i < hi)
  {
    hi := 0;
    while hi < |rs| && rs[hi].start <= end
      invariant hi <= |rs| && forall i :: 0 <= i < hi ==> rs[i].start <= end
    {
      hi := hi + 1;
    }
  }

  /** The window that get_ranges returns. */
  function RangeWindow(rs: seq<DataRange>, start: int, end: int): seq<DataRange> {
    Window(rs, BisectRanges(rs, start, 0, |rs| - 1), BisectRanges(rs, end, 0, |rs| - 1))
  }

  predicate HitBy(rs: seq<DataRange>, key: int) { exists i :: 0 <= i < |rs| && Hit(rs[i], key) }

  /** Some range lies strictly inside the window. */
  predicate LiesInside(rs: seq<DataRange>, start: int, end: int) {
    exists i :: 0 <= i < |rs| && start < rs[i].start && rs[i].end < end
  }

  /** Nothing in front of the window slips in where its start misses, nothing
      behind it where its end misses, and nothing is lost where both do. */
  predicate ExactWindow(rs: seq<DataRange>, start: int, end: int) {
    if HitBy(rs, start) then HitBy(rs, end) || rs[|rs| - 1].start <= end
    else if HitBy(rs, end) then start <= rs[0].end
    else !LiesInside(rs, start, end)
  }

  lemma FoundMeansHit(rs: seq<DataRange>, key: int, r: int)
    requires Found(rs, key, r)
    ensures HitBy(rs, key) <==> r != -1
  {}

  /** get_ranges on sorted disjoint ranges: when it is exactly the filter, and
      when no overlapping range is missing. */
  lemma RangesInWindow(rs: seq<DataRange>, start: int, end: int)
    requires Disjoint(rs) && start <= end
    ensures RangeWindow(rs, start, end) == Overlapping(rs, start, end) <==> ExactWindow(rs, start, end)
    ensures Holds(RangeWindow(rs, start, end), rs, start, end) <==>
            HitBy(rs, start) || HitBy(rs, end) || !LiesInside(rs, start, end)
  {
    hide Window, Overlapping, Holds, BisectRanges, Disjoint, HitBy, Found;
    SearchFinds(rs, start);
    SearchFinds(rs, end);
    var s, e := BisectRanges(rs, start, 0, |rs| - 1), BisectRanges(rs, end, 0, |rs| - 1);
    FoundMeansHit(rs, start, s);
    FoundMeansHit(rs, end, e);
    CompleteExactlyWhen(rs, start, end, s, e);
    ExactExactlyWhen(rs, start, end, s, e);
  }

  /** Both ends miss and the range between them is lost. */
  lemma InnerRangeLost()
    ensures var rs := [DataRange(2, 3, "a")];
      Disjoint(rs) && RangeWindow(rs, 1, 5) == [] && Overlapping(rs, 1, 5) == rs
  {
    var rs := [DataRange(2, 3, "a")];
    FilterSlice(rs, 1, 5, 0, 1);
    assert rs[0..1] == rs;
  }

  /** The start misses and a range in front of the window is returned. */
  lemma OuterRangeReturned()
    ensures var rs := [DataRange(0, 1, "a"), DataRange(4, 5, "b")];
      Disjoint(rs) && RangeWindow(rs, 3, 4) == rs && Overlapping(rs, 3, 4) == rs[1..]
  {
    var rs := [DataRange(0, 1, "a"), DataRange(4, 5, "b")];
    assert BisectRanges(rs, 3, 0, 1) == BisectRanges(rs, 3, 1, 1) == BisectRanges(rs, 3, 1, 0) == -1;
    assert BisectRanges(rs, 4, 0, 1) == BisectRanges(rs, 4, 1, 1) == 1;
    assert rs[..2] == rs;
    FilterSlice(rs, 3, 4, 1, 2);
  }

  // ---------- Events ----------

  predicate StrictlyIncreasing(es: seq<Event>) { forall i, j :: 0 <= i < j < |es| ==> es[i].at < es[j].at }

  /** The first event at or after key. */
  ghost predicate AtOrAfter(es: seq<Event>, key: int, i: int) {
    0 <= i <= |es| && (forall j :: 0 <= j < i ==> es[j].at < key) && (forall j :: i <= j < |es| ==> key <= es[j].at)
  }

  /** The bisection between l and u: an event at key, or where it would stand. */
  function BisectEvents(es: seq<Event>, key: int, l: int, u: int): (r: nat)
    requires 0 <= l <= u + 1 && u < |es|
    ensures l <= r <= u + 1
    decreases u - l
  {
    if l > u then l
    else
      var i := (l + u) / 2;
      if key == es[i].at then i
      else if key < es[i].at then BisectEvents(es, key, l, i - 1)
      else BisectEvents(es, key, i + 1, u)
  }

  /** __search of TimelineEvent. */
  method SearchEvent(es: seq<Event>, key: int) returns (r: nat)
    ensures r == BisectEvents(es, key, 0, |es| - 1)
    ensures StrictlyIncreasing(es) ==> AtOrAfter(es, key, r)
  {
    if StrictlyIncreasing(es) { BisectIsAtOrAfter(es, key, 0, |es| - 1); }
    var l, u := 0, |es| - 1;
    while l <= u
      invariant 0 <= l <= u + 1 && u < |es|
      invariant BisectEvents(es, key, 0, |es| - 1) == BisectEvents(es, key, l, u)
      decreases u - l
    {
      var i := (l + u) / 2;
      if key == es[i].at {
        return i;
      } else if key < es[i].at {
        u := i - 1;
      } else {
        l := i + 1;
      }
    }
    return l;
  }

  lemma {:induction false} BisectIsAtOrAfter(es: seq<Event>, key: int, l: int, u: int)
    requires StrictlyIncreasing(es) && 0 <= l <= u + 1 && u < |es|
    requires forall i :: 0 <= i < l ==> es[i].at < key
    requires forall i :: u < i < |es| ==> key < es[i].at
    ensures AtOrAfter(es, key, BisectEvents(es, key, l, u))
    decreases u - l
  {
    if l <= u {
      var i := (l + u) / 2;
      if key < es[i].at { BisectIsAtOrAfter(es, key, l, i - 1); }
      else if key > es[i].at { BisectIsAtOrAfter(es, key, i + 1, u); }
    }
  }

  /** Python's slice es[s:e + 1], which stops at the end of the list. */
  function EventWindow(es: seq<Event>, s: nat, e: nat): seq<Event>
    requires s <= |es| && e <= |es|
  {
    var hi := if e + 1 <= |es| then e + 1 else |es|;
    if s <= hi then es[s..hi] else []
  }

  /** The window that get_events returns. */
  function ReturnedEvents(es: seq<Event>, start: int, end: int): seq<Event> {
    EventWindow(es, BisectEvents(es, start, 0, |es| - 1), BisectEvents(es, end, 0, |es| - 1))
  }

  /** How many events happen before a time, by looking at all of them. */
  function EarlierThan(es: seq<Event>, time: int): (n: nat)
    ensures n <= |es|
  {
    if es == [] then 0
    else EarlierThan(es[..|es| - 1], time) + if es[|es| - 1].at < time then 1 else 0
  }

  /** The event that get_events returns beyond the window: none when an event
      falls on its end, else the next later one. */
  function Beyond(es: seq<Event>, end: int): seq<Event> {
    var i := EarlierThan(es, end);
    if i < |es| && end < es[i].at then [es[i]] else []
  }

  lemma {:induction false} EarlierThanIs(es: seq<Event>, time: int, i: nat)
    requires AtOrAfter(es, time, i)
    ensures EarlierThan(es, time) == i
  {
    if es != [] { EarlierThanIs(es[..|es| - 1], time, if i == |es| then i - 1 else i); }
  }

  method GetEvents(es: seq<Event>, start: int, end: int) returns (w: seq<Event>)
    ensures w == ReturnedEvents(es, start, end)
    ensures StrictlyIncreasing(es) && start <= end ==> w == Inside(es, start, end) + Beyond(es, end)
    ensures StrictlyIncreasing(es) ==> multiset(Inside(es, start, end)) <= multiset(w)
  {
    hide StrictlyIncreasing, Inside, BisectEvents;
    if StrictlyIncreasing(es) {
      NothingMissing(es, start, end);
      if start <= end { EventsInWindow(es, start, end); }
    }
    var s := SearchEvent(es, start);
    var e := SearchEvent(es, end);
    w := EventWindow(es, s, e);
  }

  /** Those of the first n events in the window, by looking at all of them. */
  function InsideOf(es: seq<Event>, start: int, end: int, n: nat): seq<Event>
    requires n <= |es|
  {
    if n == 0 then []
    else InsideOf(es, start, end, n - 1) + if start <= es[n - 1].at <= end then [es[n - 1]] else []
  }

  function Inside(es: seq<Event>, start: int, end: int): seq<Event> { InsideOf(es, start, end, |es|) }

  lemma {:induction false} InsideIsSlice(es: seq<Event>, start: int, end: int, lo: nat, hi: nat, n: nat)
    requires lo <= hi <= |es| && n <= |es|
    requires forall i :: 0 <= i < |es| ==> (start <= es[i].at <= end <==> lo <= i < hi)
    ensures InsideOf(es, start, end, n) == if n <= lo then [] else if n <= hi then es[lo..n] else es[lo..hi]
  {
    if n > 0 {
      InsideIsSlice(es, start, end, lo, hi, n - 1);
      if lo < n <= hi { SliceGrows(es, lo, n); }
    }
  }

  /** get_events returns every event of the window and, unless an event falls on
      the end of the window, the next later one if there is any. */
  lemma EventsInWindow(es: seq<Event>, start: int, end: int)
    requires StrictlyIncreasing(es) && start <= end
    ensures ReturnedEvents(es, start, end) == Inside(es, start, end) + Beyond(es, end)
    ensures ReturnedEvents(es, start, end) == Inside(es, start, end) <==>
            EarlierThan(es, end) == |es| || es[EarlierThan(es, end)].at == end
  {
    hide Inside, BisectEvents, EventWindow, AtOrAfter, StrictlyIncreasing, EarlierThan;
    BisectIsAtOrAfter(es, start, 0, |es| - 1);
    BisectIsAtOrAfter(es, end, 0, |es| - 1);
    EarlierThanIs(es, end, BisectEvents(es, end, 0, |es| - 1));
    WindowBetween(es, start, end, BisectEvents(es, start, 0, |es| - 1), BisectEvents(es, end, 0, |es| - 1));
  }

  lemma WindowBetween(es: seq<Event>, start: int, end: int, s: nat, e: nat)
    requires StrictlyIncreasing(es) && start <= end && AtOrAfter(es, start, s) && AtOrAfter(es, end, e)
    ensures s <= |es| && e <= |es|
    ensures EventWindow(es, s, e) == Inside(es, start, end) + (if e < |es| && end < es[e].at then [es[e]] else [])
    ensures EventWindow(es, s, e) == Inside(es, start, end) <==> e == |es| || es[e].at == end
  {
    hide InsideOf, StrictlyIncreasing;
    assert e < |es| ==> end <= es[e].at;
    assert s <= e;
    var hi := if e < |es| && es[e].at == end then e + 1 else e;
    InsideBounds(es, start, end, s, e);
    InsideIsSlice(es, start, end, s, hi, |es|);
    if e < |es| && end < es[e].at { assert es[s..e + 1] == es[s..e] + [es[e]]; }
  }

  lemma InsideBounds(es: seq<Event>, start: int, end: int, s: nat, e: nat)
    requires StrictlyIncreasing(es) && start <= end && AtOrAfter(es, start, s) && AtOrAfter(es, end, e)
    ensures var hi := if e < |es| && es[e].at == end then e + 1 else e;
      forall i :: 0 <= i < |es| ==> (start <= es[i].at <= end <==> s <= i < hi)
  {
    forall i | 0 <= i < |es| && i > e ensures end < es[i].at {
      assert es[e].at < es[i].at;
    }
  }

  // ---------- Which event lists lose nothing ----------

  /** No event of the window is missing from what get_events returns. */
  ghost predicate Complete(es: seq<Event>, start: int, end: int) {
    multiset(Inside(es, start, end)) <= multiset(ReturnedEvents(es, start, end))
  }

  lemma {:induction false} InsideMember(es: seq<Event>, start: int, end: int, n: nat)
    requires n <= |es|
    ensures forall x :: x in InsideOf(es, start, end, n) ==> start <= x.at <= end
    ensures forall i :: 0 <= i < n && start <= es[i].at <= end ==> es[i] in InsideOf(es, start, end, n)
  {
    if n > 0 { InsideMember(es, start, end, n - 1); }
  }

  /** Two events of the window make it at least two long. */
  lemma {:induction false} InsideTwo(es: seq<Event>, start: int, end: int, i: nat, j: nat, n: nat)
    requires i < j < n <= |es| && start <= es[i].at <= end && start <= es[j].at <= end
    ensures |InsideOf(es, start, end, n)| >= 2
  {
    if j < n - 1 {
      InsideTwo(es, start, end, i, j, n - 1);
    } else {
      InsideMember(es, start, end, n - 1);
    }
  }

  lemma {:induction false} NothingInside(es: seq<Event>, start: int, end: int, n: nat)
    requires end < start && n <= |es|
    ensures InsideOf(es, start, end, n) == []
  {
    if n > 0 { NothingInside(es, start, end, n - 1); }
  }

  lemma NothingMissing(es: seq<Event>, start: int, end: int)
    requires StrictlyIncreasing(es)
    ensures Complete(es, start, end)
  {
    hide ReturnedEvents, StrictlyIncreasing;
    if start <= end {
      EventsInWindow(es, start, end);
    } else {
      NothingInside(es, start, end, |es|);
    }
  }

  /** Two events that the bisection both finds at their places are in order. */
  lemma {:induction false} FoundInOrder(es: seq<Event>, i: nat, j: nat, l: int, u: int)
    requires 0 <= l <= u + 1 && u < |es| && i < j < |es|
    requires BisectEvents(es, es[i].at, l, u) == i && BisectEvents(es, es[j].at, l, u) == j
    ensures es[i].at < es[j].at
    decreases u - l
  {
    if l <= u {
      var m := (l + u) / 2;
      if es[j].at < es[m].at { FoundInOrder(es, i, j, l, m - 1); }
      else if es[m].at < es[i].at { FoundInOrder(es, i, j, m + 1, u); }
    }
  }

  /** The window of one instant holds at most one event. */
  lemma InstantWindow(es: seq<Event>, t: int)
    ensures var k := BisectEvents(es, t, 0, |es| - 1);
      k <= |es| && ReturnedEvents(es, t, t) == if k < |es| then [es[k]] else []
  {
    hide BisectEvents;
  }

  /** If that window loses nothing, an event at the instant is its only one. */
  lemma InstantFindsEvent(es: seq<Event>, i: nat)
    requires i < |es| && Complete(es, es[i].at, es[i].at)
    ensures BisectEvents(es, es[i].at, 0, |es| - 1) == i
  {
    hide BisectEvents, InsideOf, ReturnedEvents;
    var t := es[i].at;
    var k := BisectEvents(es, t, 0, |es| - 1);
    var inside := Inside(es, t, t);
    InstantWindow(es, t);
    InsideMember(es, t, t, |es|);
    SmallerBag(multiset(inside), multiset(ReturnedEvents(es, t, t)));
    assert es[i] in inside;
    assert |inside| == |multiset(inside)| <= 1;
    assert es[i] in multiset(inside) && es[i] in multiset(ReturnedEvents(es, t, t));
    assert k < |es| && es[k] == es[i];
    if i < k { InsideTwo(es, t, t, i, k, |es|); }
    if k < i { InsideTwo(es, t, t, k, i, |es|); }
  }

  lemma SmallerBag<T>(a: multiset<T>, b: multiset<T>)
    requires a <= b
    ensures |a| <= |b|
  {
    assert b == a + (b - a);
  }

  /** Whatever the list, sorted or not: get_events loses no event of any window
      if and only if the times are strictly increasing. */
  lemma EventsCompleteExactlyWhen(es: seq<Event>)
    ensures (forall start, end :: Complete(es, start, end)) <==> StrictlyIncreasing(es)
  {
    hide Complete, BisectEvents;
    if StrictlyIncreasing(es) {
      forall start, end ensures Complete(es, start, end) { NothingMissing(es, start, end); }
    }
    if forall start, end :: Complete(es, start, end) {
      forall i, j | 0 <= i < j < |es| ensures es[i].at < es[j].at {
        InstantFindsEvent(es, i);
        InstantFindsEvent(es, j);
        FoundInOrder(es, i, j, 0, |es| - 1);
      }
    }
  }

  /** Equal times break it: of three events at one time the search finds the
      middle one, and the first is missing from the window. */
  lemma EqualTimesLoseEvents()
    ensures var es := [Event(1, "a"), Event(1, "b"), Event(1, "c")];
      BisectEvents(es, 1, 0, 2) == 1 && EventWindow(es, 1, 1) == [Event(1, "b")] && Inside(es, 1, 1) == es
  {
    var es := [Event(1, "a"), Event(1, "b"), Event(1, "c")];
    assert es[1..2] == [Event(1, "b")];
    InsideIsSlice(es, 1, 1, 0, 3, 3);
    assert es[0..3] == es;
  }
}
