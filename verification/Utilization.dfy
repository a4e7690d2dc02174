/** Booked time over operating time: merging of booking intervals, clipping of
    operating hours, and the measure both amount to.

    Instants are integers, in microseconds; an interval is half open. */
module Utilization {
  import opened Numbers
  import opened Sequences
  import opened Sorting

  type Interval = (int, int)

  // ------------------------------------------------------------------- coverage

  predicate Within(x: Interval, t: int) {
    x.0 <= t < x.1
  }

  predicate Covered(xs: seq<Interval>, t: int) {
    exists i :: 0 <= i < |xs| && Within(xs[i], t)
  }

  /** Each interval ends strictly before every later one starts. */
  ghost predicate Separated(xs: seq<Interval>) {
    forall i, j :: 0 <= i < j < |xs| ==> xs[i].1 < xs[j].0 && xs[i].0 <= xs[j].0
  }

  ghost predicate NonEmpty(xs: seq<Interval>) {
    forall i :: 0 <= i < |xs| ==> xs[i].0 < xs[i].1
  }

  /** The order of `sorted` on pairs. */
  predicate Earlier(x: Interval, y: Interval) {
    x.0 < y.0 || (x.0 == y.0 && x.1 <= y.1)
  }

  // --------------------------------------------------------------------- merging

  lemma CoveredOneMore(xs: seq<Interval>, x: Interval, t: int)
    ensures Covered(xs + [x], t) <==> Covered(xs, t) || Within(x, t)
  {
    assert (xs + [x])[|xs|] == x;
    assert forall i :: 0 <= i < |xs| ==> (xs + [x])[i] == xs[i];
  }

  lemma CoveredByMembers(xs: seq<Interval>, ys: seq<Interval>, t: int)
    requires multiset(xs) == multiset(ys)
    ensures Covered(xs, t) <==> Covered(ys, t)
  {
    if Covered(xs, t) {
      var i :| 0 <= i < |xs| && Within(xs[i], t);
      assert xs[i] in multiset(ys);
    }
    if Covered(ys, t) {
      var i :| 0 <= i < |ys| && Within(ys[i], t);
      assert ys[i] in multiset(xs);
    }
  }

  lemma MergeLast(out: seq<Interval>, x: Interval, t: int)
    requires out != [] && out[|out| - 1].0 <= x.0 <= out[|out| - 1].1
    ensures var last := out[|out| - 1];
      Covered(out[|out| - 1 := (last.0, Max(last.1, x.1))], t) <==> Covered(out, t) || Within(x, t)
  {
    var last, front := out[|out| - 1], out[..|out| - 1];
    var wide := (last.0, Max(last.1, x.1));
    CoveredOneMore(front, last, t);
    CoveredOneMore(front, wide, t);
    assert front + [last] == out;
    assert front + [wide] == out[|out| - 1 := wide];
  }

  lemma SortedIntervals(xs: seq<Interval>)
    ensures SortedBy(Earlier, Sort(Earlier, xs)) && multiset(Sort(Earlier, xs)) == multiset(xs)
  {
    SortIsSorted(Earlier, xs);
  }

  /** One step of the merge: widen the last interval, or start a new one. */
  function Absorb(out: seq<Interval>, x: Interval): seq<Interval> {
    if out != [] && x.0 <= out[|out| - 1].1 then
      out[|out| - 1 := (out[|out| - 1].0, Max(out[|out| - 1].1, x.1))]
    else out + [x]
  }

  function MergeSorted(s: seq<Interval>): seq<Interval> {
    if s == [] then [] else Absorb(MergeSorted(s[..|s| - 1]), s[|s| - 1])
  }

  function Merge(intervals: seq<Interval>): seq<Interval> {
    MergeSorted(Sort(Earlier, intervals))
  }

  method MergeIntervals(intervals: seq<Interval>) returns (out: seq<Interval>)
    ensures out == Merge(intervals)
  {
    var s := Sort(Earlier, intervals);
    out := [];
    for i := 0 to |s|
      invariant out == MergeSorted(s[..i])
    {
      var (a, b) := s[i];
      assert s[..i + 1][..i] == s[..i];
      if out != [] && a <= out[|out| - 1].1 {
        out := out[|out| - 1 := (out[|out| - 1].0, Max(out[|out| - 1].1, b))];
      } else {
        out := out + [(a, b)];
      }
    }
    assert s[..|s|] == s;
  }

  lemma AbsorbKeeps(out: seq<Interval>, x: Interval)
    requires Separated(out) && forall k :: 0 <= k < |out| ==> out[k].0 <= x.0
    ensures Separated(Absorb(out, x)) && forall k :: 0 <= k < |Absorb(out, x)| ==> Absorb(out, x)[k].0 <= x.0
    ensures NonEmpty(out) && x.0 < x.1 ==> NonEmpty(Absorb(out, x))
    ensures forall t :: Covered(Absorb(out, x), t) <==> Covered(out, t) || Within(x, t)
  {
    forall t ensures Covered(Absorb(out, x), t) <==> Covered(out, t) || Within(x, t) {
      if out != [] && x.0 <= out[|out| - 1].1 {
        MergeLast(out, x, t);
      } else {
        CoveredOneMore(out, x, t);
      }
    }
  }

  lemma {:induction false} MergeSortedCorrect(s: seq<Interval>)
    requires SortedBy(Earlier, s)
    ensures Separated(MergeSorted(s))
    ensures s != [] ==> forall k :: 0 <= k < |MergeSorted(s)| ==> MergeSorted(s)[k].0 <= s[|s| - 1].0
    ensures NonEmpty(s) ==> NonEmpty(MergeSorted(s))
    ensures forall t :: Covered(MergeSorted(s), t) <==> Covered(s, t)
  {
    if s != [] {
      var front, x := s[..|s| - 1], s[|s| - 1];
      MergeSortedCorrect(front);
      FrontAndLast(s);
      assert front != [] ==> front[|front| - 1] == s[|s| - 2] && Earlier(s[|s| - 2], x);
      assert forall k :: 0 <= k < |MergeSorted(front)| ==> MergeSorted(front)[k].0 <= x.0;
      assert MergeSorted(s) == Absorb(MergeSorted(front), x);
      assert NonEmpty(s) ==> NonEmpty(front) && x.0 < x.1;
      hide Covered, Separated, NonEmpty, Absorb, MergeSorted, SortedBy;
      AbsorbKeeps(MergeSorted(front), x);
      forall t ensures Covered(MergeSorted(s), t) <==> Covered(s, t) {
        CoveredOneMore(front, x, t);
      }
    }
  }

  /** Merging keeps the instants covered, whatever the intervals, and leaves them
      separated. */
  lemma MergeCorrect(xs: seq<Interval>)
    ensures Separated(Merge(xs))
    ensures NonEmpty(xs) ==> NonEmpty(Merge(xs))
    ensures forall t :: Covered(Merge(xs), t) <==> Covered(xs, t)
  {
    var s := Sort(Earlier, xs);
    SortedIntervals(xs);
    MergeSortedCorrect(s);
    if NonEmpty(xs) {
      forall k | 0 <= k < |s| ensures s[k].0 < s[k].1 {
        assert s[k] in multiset(xs);
      }
    }
    forall t ensures Covered(Merge(xs), t) <==> Covered(xs, t) {
      CoveredByMembers(s, xs, t);
    }
  }

  ghost predicate Canonical(xs: seq<Interval>) {
    Separated(xs) && NonEmpty(xs)
  }

  lemma FirstStarts(xs: seq<Interval>, ys: seq<Interval>)
    requires Canonical(xs) && Canonical(ys) && xs != [] && ys != []
    requires forall t :: Covered(xs, t) ==> Covered(ys, t)
    ensures ys[0].0 <= xs[0].0
  {
    assert Within(xs[0], xs[0].0);
    assert Covered(xs, xs[0].0);
  }

  lemma FirstEnds(xs: seq<Interval>, ys: seq<Interval>)
    requires Canonical(xs) && Canonical(ys) && xs != [] && ys != [] && xs[0].0 == ys[0].0
    requires forall t :: Covered(xs, t) ==> Covered(ys, t)
    ensures xs[0].1 <= ys[0].1
  {
    if ys[0].1 < xs[0].1 {
      var t := ys[0].1;
      assert Within(xs[0], t);
      assert Covered(xs, t);
    }
  }

  lemma TailCovers(xs: seq<Interval>, ys: seq<Interval>, t: int)
    requires Canonical(xs) && Canonical(ys) && xs != [] && ys != [] && xs[0] == ys[0]
    requires Covered(xs, t) ==> Covered(ys, t)
    ensures Covered(xs[1..], t) ==> Covered(ys[1..], t)
  {
    if Covered(xs[1..], t) {
      var i :| 0 <= i < |xs[1..]| && Within(xs[1..][i], t);
      assert xs[i + 1] == xs[1..][i] && xs[0].1 < xs[i + 1].0;
      var j :| 0 <= j < |ys| && Within(ys[j], t);
      assert j != 0;
      assert ys[1..][j - 1] == ys[j];
    }
  }

  lemma SameFirst(xs: seq<Interval>, ys: seq<Interval>)
    requires Canonical(xs) && Canonical(ys) && xs != [] && ys != []
    requires forall t :: Covered(xs, t) <==> Covered(ys, t)
    ensures xs[0] == ys[0]
  {
    FirstStarts(xs, ys);
    FirstStarts(ys, xs);
    FirstEnds(xs, ys);
    FirstEnds(ys, xs);
  }

  lemma TailCanonical(xs: seq<Interval>)
    requires Canonical(xs) && xs != []
    ensures Canonical(xs[1..])
  {
  }

  /** Two canonical lists that cover the same instants are the same list. */
  lemma {:induction false} MergeCanonical(xs: seq<Interval>, ys: seq<Interval>)
    requires Canonical(xs) && Canonical(ys)
    requires forall t :: Covered(xs, t) <==> Covered(ys, t)
    ensures xs == ys
  {
    if xs != [] { StartCovered(xs); }
    if ys != [] { StartCovered(ys); }
    if xs != [] && ys != [] {
      SameFirst(xs, ys);
      TailCanonical(xs);
      TailCanonical(ys);
      forall t ensures Covered(xs[1..], t) <==> Covered(ys[1..], t) {
        TailCovers(xs, ys, t);
        TailCovers(ys, xs, t);
      }
      hide Canonical, Covered;
      MergeCanonical(xs[1..], ys[1..]);
      HeadAndTail(xs);
      HeadAndTail(ys);
    }
  }

  lemma StartCovered(xs: seq<Interval>)
    requires xs != [] && NonEmpty(xs)
    ensures Covered(xs, xs[0].0)
  {
  }

  /** What is merged depends on the instants covered alone: not on the order of the
      rows, nor on repeats, nor on how the time is divided among them. */
  lemma MergeDetermined(xs: seq<Interval>, ys: seq<Interval>)
    requires NonEmpty(xs) && NonEmpty(ys)
    ensures Merge(xs) == Merge(ys) <==> forall t :: Covered(xs, t) <==> Covered(ys, t)
  {
    MergeCorrect(xs);
    MergeCorrect(ys);
    if forall t :: Covered(xs, t) <==> Covered(ys, t) {
      MergeCanonical(Merge(xs), Merge(ys));
    } else {
      var t :| Covered(xs, t) != Covered(ys, t);
      assert Covered(Merge(xs), t) != Covered(Merge(ys), t);
    }
  }

  // --------------------------------------------------------------------- measure

  /** The number of instants from `a` to `b` that are covered. */
  function Count(xs: seq<Interval>, a: int, b: int): (n: nat)
    ensures n <= Max(b - a, 0)
    decreases b - a
  {
    if a >= b then 0 else (if Covered(xs, a) then 1 else 0) + Count(xs, a + 1, b)
  }

  lemma {:induction false} CountMonotone(xs: seq<Interval>, ys: seq<Interval>, a: int, b: int)
    requires forall t :: a <= t < b && Covered(xs, t) ==> Covered(ys, t)
    ensures Count(xs, a, b) <= Count(ys, a, b)
    decreases b - a
  {
    if a < b {
      CountMonotone(xs, ys, a + 1, b);
    }
  }

  lemma CountSame(xs: seq<Interval>, ys: seq<Interval>, a: int, b: int)
    requires forall t :: a <= t < b ==> (Covered(xs, t) <==> Covered(ys, t))
    ensures Count(xs, a, b) == Count(ys, a, b)
  {
    CountMonotone(xs, ys, a, b);
    CountMonotone(ys, xs, a, b);
  }

  lemma {:induction false} CountSplit(xs: seq<Interval>, a: int, m: int, b: int)
    requires a <= m <= b
    ensures Count(xs, a, b) == Count(xs, a, m) + Count(xs, m, b)
    decreases m - a
  {
    if a < m {
      CountSplit(xs, a + 1, m, b);
    }
  }

  lemma {:induction false} CountNone(xs: seq<Interval>, a: int, b: int)
    requires forall t :: a <= t < b ==> !Covered(xs, t)
    ensures Count(xs, a, b) == 0
    decreases b - a
  {
    if a < b {
      CountNone(xs, a + 1, b);
    }
  }

  lemma {:induction false} CountAll(xs: seq<Interval>, a: int, b: int)
    requires a <= b && forall t :: a <= t < b ==> Covered(xs, t)
    ensures Count(xs, a, b) == b - a
    decreases b - a
  {
    if a < b {
      CountAll(xs, a + 1, b);
    }
  }

  function Overlap(x: Interval, y: Interval): nat {
    Max(Min(x.1, y.1) - Max(x.0, y.0), 0)
  }

  lemma CoveredByOne(y: Interval, t: int)
    ensures Covered([y], t) <==> Within(y, t)
  {
    assert [y][0] == y;
  }

  lemma CountOne(y: Interval, a: int, b: int)
    ensures Count([y], a, b) == Overlap((a, b), y)
  {
    forall t ensures Covered([y], t) <==> Within(y, t) {
      CoveredByOne(y, t);
    }
    var lo, hi := Max(a, y.0), Min(b, y.1);
    if lo < hi {
      CountSplit([y], a, lo, b);
      CountSplit([y], lo, hi, b);
      CountNone([y], a, lo);
      CountAll([y], lo, hi);
      CountNone([y], hi, b);
    } else {
      CountNone([y], a, b);
    }
  }

  lemma {:induction false} CountDisjoint(xs: seq<Interval>, y: Interval, a: int, b: int)
    requires forall t :: !(Covered(xs, t) && Within(y, t))
    ensures Count(xs + [y], a, b) == Count(xs, a, b) + Count([y], a, b)
    decreases b - a
  {
    if a < b {
      CoveredOneMore(xs, y, a);
      CoveredByOne(y, a);
      CountDisjoint(xs, y, a + 1, b);
    }
  }

  lemma SeparatedLast(xs: seq<Interval>, t: int)
    requires xs != [] && Separated(xs)
    ensures !(Covered(xs[..|xs| - 1], t) && Within(xs[|xs| - 1], t))
  {
  }

  /** The time of `seg` that separated intervals cover, summed interval by interval. */
  method Intersect(seg: Interval, intervals: seq<Interval>) returns (total: nat)
    requires Separated(intervals)
    ensures total == Count(intervals, seg.0, seg.1)
  {
    total := 0;
    CountNone([], seg.0, seg.1);
    for i := 0 to |intervals|
      invariant total == Count(intervals[..i], seg.0, seg.1)
    {
      var lo, hi := Max(seg.0, intervals[i].0), Min(seg.1, intervals[i].1);
      ghost var front := intervals[..i + 1];
      assert front[..i] == intervals[..i] && front == intervals[..i] + [intervals[i]];
      forall t ensures !(Covered(intervals[..i], t) && Within(intervals[i], t)) {
        SeparatedLast(front, t);
      }
      CountDisjoint(intervals[..i], intervals[i], seg.0, seg.1);
      CountOne(intervals[i], seg.0, seg.1);
      if hi > lo {
        total := total + (hi - lo);
      }
    }
    assert intervals[..|intervals|] == intervals;
  }

  // ------------------------------------------------------------- operating hours

  /** One weekday's hours, in minutes of the local day. */
  datatype Hours = Hours(closed: bool, open: int, close: int)

  /** A time zone: the local date of an instant, as a day number with day zero a
      Monday, and the instant of a wall-clock time on a local date. */
  datatype Zone = Zone(dateOf: int -> int, toUtc: (int, int) -> int)

  type Week = w: seq<Hours> | |w| == 7 witness seq(7, i => Hours(true, 0, 0))

  /** The operating interval of local date `d`; empty when closed. */
  function Window(zone: Zone, week: Week, d: int): Interval {
    var entry := week[d % 7];
    if entry.closed then (0, 0) else (zone.toUtc(d, entry.open), zone.toUtc(d, entry.close))
  }

  function Clip(x: Interval, from: int, to: int): Interval {
    (Max(x.0, from), Min(x.1, to))
  }

  function SegmentOf(zone: Zone, week: Week, d: int, from: int, to: int): seq<Interval> {
    var c := Clip(Window(zone, week, d), from, to);
    if !week[d % 7].closed && c.1 > c.0 then [c] else []
  }

  function Segments(zone: Zone, week: Week, first: int, last: int, from: int, to: int): seq<Interval>
    decreases last - first
  {
    if last < first then []
    else Segments(zone, week, first, last - 1, from, to) + SegmentOf(zone, week, last, from, to)
  }

  function Length(segments: seq<Interval>): int {
    if segments == [] then 0
    else Length(segments[..|segments| - 1]) + segments[|segments| - 1].1 - segments[|segments| - 1].0
  }

  /** One more day adds at most one segment, and as much time. */
  lemma OneMoreDay(zone: Zone, week: Week, first: int, d: int, from: int, to: int)
    requires first <= d
    ensures var entry, before := week[d % 7], Segments(zone, week, first, d - 1, from, to);
      var after := Segments(zone, week, first, d, from, to);
      if entry.closed then after == before
      else
        var su, eu := Max(zone.toUtc(d, entry.open), from), Min(zone.toUtc(d, entry.close), to);
        if eu > su then after == before + [(su, eu)] && Length(after) == Length(before) + (eu - su)
        else after == before
  {
    var before := Segments(zone, week, first, d - 1, from, to);
    var one := SegmentOf(zone, week, d, from, to);
    if one == [] {
      assert before + one == before;
    } else {
      assert (before + one)[..|before|] == before;
    }
  }

  method OperatingSegments(zone: Zone, week: Week, from: int, to: int) returns (segments: seq<Interval>, total: int)
    ensures segments == Segments(zone, week, zone.dateOf(from), zone.dateOf(to), from, to)
    ensures total == Length(segments)
  {
    hide *;
    segments, total := [], 0;
    var first, last := zone.dateOf(from), zone.dateOf(to);
    var d := first;
    NoDays(zone, week, first, d - 1, from, to);
    while d <= last
      invariant first <= d && (d <= last + 1 || d == first)
      invariant segments == Segments(zone, week, first, d - 1, from, to)
      invariant total == Length(segments)
    {
      OneMoreDay(zone, week, first, d, from, to);
      var entry := week[d % 7];
      if !entry.closed {
        var su := Max(zone.toUtc(d, entry.open), from);
        var eu := Min(zone.toUtc(d, entry.close), to);
        if eu > su {
          segments := segments + [(su, eu)];
          total := total + (eu - su);
        }
      }
      d := d + 1;
    }
    if last < first { NoDays(zone, week, first, last, from, to); }
  }

  lemma NoDays(zone: Zone, week: Week, first: int, last: int, from: int, to: int)
    requires last < first
    ensures Segments(zone, week, first, last, from, to) == [] && Length([]) == 0
  {
  }

  /** Covered time summed over the segments. */
  function Booked(segments: seq<Interval>, xs: seq<Interval>): nat {
    if segments == [] then 0
    else Booked(segments[..|segments| - 1], xs) + Count(xs, segments[|segments| - 1].0, segments[|segments| - 1].1)
  }

  method BookedTime(segments: seq<Interval>, bookings: seq<Interval>) returns (booked: nat)
    ensures booked == Booked(segments, bookings)
  {
    var merged := MergeIntervals(bookings);
    MergeCorrect(bookings);
    booked := 0;
    for i := 0 to |segments|
      invariant booked == Booked(segments[..i], bookings)
    {
      var part := Intersect(segments[i], merged);
      CountSame(merged, bookings, segments[i].0, segments[i].1);
      assert segments[..i + 1][..i] == segments[..i];
      booked := booked + part;
    }
    assert segments[..|segments|] == segments;
  }

  // ------------------------------------------------------- properties of the ratio

  ghost predicate Forward(segments: seq<Interval>) {
    forall i :: 0 <= i < |segments| ==> segments[i].0 <= segments[i].1
  }

  lemma {:induction false} SegmentsForward(zone: Zone, week: Week, first: int, last: int, from: int, to: int)
    ensures Forward(Segments(zone, week, first, last, from, to))
    decreases last - first
  {
    if first <= last {
      SegmentsForward(zone, week, first, last - 1, from, to);
    }
  }

  /** Booked time never exceeds operating time, for any bookings. */
  lemma {:induction false} BookedAtMostTotal(segments: seq<Interval>, xs: seq<Interval>)
    requires Forward(segments)
    ensures 0 <= Booked(segments, xs) <= Length(segments)
  {
    if segments != [] {
      BookedAtMostTotal(segments[..|segments| - 1], xs);
    }
  }

  /** More bookings never lower it, and bookings over the same time leave it alone. */
  lemma {:induction false} BookedMonotone(segments: seq<Interval>, xs: seq<Interval>, ys: seq<Interval>)
    requires forall t :: Covered(xs, t) ==> Covered(ys, t)
    ensures Booked(segments, xs) <= Booked(segments, ys)
  {
    if segments != [] {
      BookedMonotone(segments[..|segments| - 1], xs, ys);
      CountMonotone(xs, ys, segments[|segments| - 1].0, segments[|segments| - 1].1);
    }
  }

  lemma AddingABooking(segments: seq<Interval>, xs: seq<Interval>, x: Interval)
    ensures Booked(segments, xs) <= Booked(segments, xs + [x])
  {
    forall t | Covered(xs, t) ensures Covered(xs + [x], t) {
      CoveredOneMore(xs, x, t);
    }
    BookedMonotone(segments, xs, xs + [x]);
  }

  /** The number of instants from `a` to `b` that both cover. */
  function CountBoth(segments: seq<Interval>, xs: seq<Interval>, a: int, b: int): nat
    decreases b - a
  {
    if a >= b then 0
    else (if Covered(segments, a) && Covered(xs, a) then 1 else 0) + CountBoth(segments, xs, a + 1, b)
  }

  ghost predicate DisjointSegments(segments: seq<Interval>) {
    forall i, j, t :: 0 <= i < j < |segments| ==> !(Within(segments[i], t) && Within(segments[j], t))
  }

  lemma {:induction false} CountBothNone(xs: seq<Interval>, a: int, b: int)
    ensures CountBoth([], xs, a, b) == 0
    decreases b - a
  {
    if a < b {
      CountBothNone(xs, a + 1, b);
    }
  }

  lemma {:induction false} CountBothOneMore(segments: seq<Interval>, x: Interval, xs: seq<Interval>, a: int, b: int)
    requires forall t :: !(Covered(segments, t) && Within(x, t))
    ensures CountBoth(segments + [x], xs, a, b)
      == CountBoth(segments, xs, a, b) + Count(xs, Max(x.0, a), Min(x.1, b))
    decreases b - a
  {
    if a < b {
      CoveredOneMore(segments, x, a);
      CountBothOneMore(segments, x, xs, a + 1, b);
    }
  }

  /** For disjoint segments the booked time is the measure of the instants that are
      both operating and booked. */
  lemma {:induction false} BookedIsMeasure(segments: seq<Interval>, xs: seq<Interval>, a: int, b: int)
    requires DisjointSegments(segments)
    requires forall i :: 0 <= i < |segments| ==> a <= segments[i].0 && segments[i].1 <= b
    ensures Booked(segments, xs) == CountBoth(segments, xs, a, b)
  {
    if segments == [] {
      CountBothNone(xs, a, b);
    } else {
      var front, x := segments[..|segments| - 1], segments[|segments| - 1];
      assert segments == front + [x];
      BookedIsMeasure(front, xs, a, b);
      CountBothOneMore(front, x, xs, a, b);
    }
  }

  // ---------------------------------------------------------- splitting a window

  /** Local dates never run backwards, and a day's hours lie within that date. */
  ghost predicate Regular(zone: Zone, week: Week) {
    && (forall t, u :: t <= u ==> zone.dateOf(t) <= zone.dateOf(u))
    && (forall d, t :: Within(Window(zone, week, d), t) ==> zone.dateOf(t) == d)
  }

  function DayBooked(zone: Zone, week: Week, xs: seq<Interval>, d: int, from: int, to: int): nat {
    var c := Clip(Window(zone, week, d), from, to);
    if week[d % 7].closed then 0 else Count(xs, c.0, c.1)
  }

  function DaysBooked(zone: Zone, week: Week, xs: seq<Interval>, first: int, last: int, from: int, to: int): nat
    decreases last - first
  {
    if last < first then 0
    else DaysBooked(zone, week, xs, first, last - 1, from, to) + DayBooked(zone, week, xs, last, from, to)
  }

  lemma BookedOneMore(segments: seq<Interval>, x: Interval, xs: seq<Interval>)
    ensures Booked(segments + [x], xs) == Booked(segments, xs) + Count(xs, x.0, x.1)
  {
  }

  lemma {:induction false} BookedByDay(zone: Zone, week: Week, xs: seq<Interval>, first: int, last: int, from: int, to: int)
    ensures Booked(Segments(zone, week, first, last, from, to), xs) == DaysBooked(zone, week, xs, first, last, from, to)
    decreases last - first
  {
    if first <= last {
      BookedByDay(zone, week, xs, first, last - 1, from, to);
      var front, one := Segments(zone, week, first, last - 1, from, to), SegmentOf(zone, week, last, from, to);
      if one == [] {
        assert front + one == front;
      } else {
        BookedOneMore(front, one[0], xs);
        assert one == [one[0]];
      }
    }
  }

  lemma DaySplit(zone: Zone, week: Week, xs: seq<Interval>, d: int, from: int, m: int, to: int)
    requires from <= m <= to
    ensures DayBooked(zone, week, xs, d, from, to)
      == DayBooked(zone, week, xs, d, from, m) + DayBooked(zone, week, xs, d, m, to)
  {
    var w := Window(zone, week, d);
    var a, b := Max(w.0, from), Min(w.1, to);
    if a <= m <= b {
      CountSplit(xs, a, m, b);
    }
  }

  lemma {:induction false} DaysSplit(
    zone: Zone, week: Week, xs: seq<Interval>, first: int, last: int, from: int, m: int, to: int)
    requires from <= m <= to
    ensures DaysBooked(zone, week, xs, first, last, from, to)
      == DaysBooked(zone, week, xs, first, last, from, m) + DaysBooked(zone, week, xs, first, last, m, to)
    decreases last - first
  {
    if first <= last {
      DaysSplit(zone, week, xs, first, last - 1, from, m, to);
      DaySplit(zone, week, xs, last, from, m, to);
    }
  }

  lemma OpenWithinDates(zone: Zone, week: Week, d: int, from: int, to: int, t: int)
    requires Regular(zone, week) && Within(Window(zone, week, d), t) && from <= t <= to
    ensures zone.dateOf(from) <= d <= zone.dateOf(to)
  {
    assert zone.dateOf(t) == d;
  }

  lemma DayOutside(zone: Zone, week: Week, xs: seq<Interval>, d: int, from: int, to: int)
    requires Regular(zone, week)
    requires d < zone.dateOf(from) || zone.dateOf(to) < d
    ensures DayBooked(zone, week, xs, d, from, to) == 0
  {
    var w := Window(zone, week, d);
    var a := Max(w.0, from);
    if a < Min(w.1, to) {
      OpenWithinDates(zone, week, d, from, to, a);
    }
  }

  /** Days before or after the dates of the window's ends contribute nothing. */
  lemma {:induction false} DaysPadded(
    zone: Zone, week: Week, xs: seq<Interval>, first: int, last: int, from: int, to: int)
    requires Regular(zone, week)
    requires first <= zone.dateOf(from) && zone.dateOf(to) <= last
    ensures DaysBooked(zone, week, xs, first, last, from, to)
      == DaysBooked(zone, week, xs, zone.dateOf(from), zone.dateOf(to), from, to)
    decreases last - first
  {
    if zone.dateOf(to) < last {
      if first <= last {
        DayOutside(zone, week, xs, last, from, to);
        DaysPadded(zone, week, xs, first, last - 1, from, to);
      }
    } else if first < zone.dateOf(from) {
      DaysBefore(zone, week, xs, first, zone.dateOf(from), last, from, to);
    }
  }

  lemma {:induction false} DaysBefore(
    zone: Zone, week: Week, xs: seq<Interval>, first: int, second: int, last: int, from: int, to: int)
    requires Regular(zone, week)
    requires first <= second <= zone.dateOf(from)
    ensures DaysBooked(zone, week, xs, first, last, from, to) == DaysBooked(zone, week, xs, second, last, from, to)
    decreases last - first
  {
    if first <= last {
      DaysBefore(zone, week, xs, first, second, last - 1, from, to);
      if last < second {
        DayOutside(zone, week, xs, last, from, to);
      }
    }
  }

  /** What the report computes for a window, over all active bookings. */
  function Report(zone: Zone, week: Week, xs: seq<Interval>, from: int, to: int): (r: (int, nat)) {
    var segments := Segments(zone, week, zone.dateOf(from), zone.dateOf(to), from, to);
    (Length(segments), Booked(segments, xs))
  }

  lemma {:induction false} LengthIsBooked(segments: seq<Interval>, a: int, b: int)
    requires Forward(segments)
    requires forall i :: 0 <= i < |segments| ==> a <= segments[i].0 && segments[i].1 <= b
    ensures Length(segments) == Booked(segments, [(a, b)])
  {
    if segments != [] {
      LengthIsBooked(segments[..|segments| - 1], a, b);
      CountOne((a, b), segments[|segments| - 1].0, segments[|segments| - 1].1);
    }
  }

  lemma {:induction false} SegmentsInside(zone: Zone, week: Week, first: int, last: int, from: int, to: int)
    ensures forall i :: 0 <= i < |Segments(zone, week, first, last, from, to)| ==>
      from <= Segments(zone, week, first, last, from, to)[i].0 && Segments(zone, week, first, last, from, to)[i].1 <= to
    decreases last - first
  {
    if first <= last {
      SegmentsInside(zone, week, first, last - 1, from, to);
    }
  }

  /** Operating time is what a booking of everything would have booked. */
  lemma TotalIsBooked(zone: Zone, week: Week, from: int, to: int, a: int, b: int)
    requires a <= from && to <= b
    ensures Report(zone, week, [], from, to).0 == Report(zone, week, [(a, b)], from, to).1
  {
    var first, last := zone.dateOf(from), zone.dateOf(to);
    SegmentsForward(zone, week, first, last, from, to);
    SegmentsInside(zone, week, first, last, from, to);
    LengthIsBooked(Segments(zone, week, first, last, from, to), a, b);
  }

  lemma BookedSplits(zone: Zone, week: Week, xs: seq<Interval>, from: int, m: int, to: int)
    requires Regular(zone, week) && from <= m <= to
    ensures Report(zone, week, xs, from, to).1 == Report(zone, week, xs, from, m).1 + Report(zone, week, xs, m, to).1
  {
    var f, l := zone.dateOf(from), zone.dateOf(to);
    BookedByDay(zone, week, xs, f, l, from, to);
    BookedByDay(zone, week, xs, f, zone.dateOf(m), from, m);
    BookedByDay(zone, week, xs, zone.dateOf(m), l, m, to);
    DaysSplit(zone, week, xs, f, l, from, m, to);
    DaysPadded(zone, week, xs, f, l, from, m);
    DaysPadded(zone, week, xs, f, l, m, to);
  }

  /** Cutting a reporting window at any instant conserves both of its totals. */
  lemma WindowSplits(zone: Zone, week: Week, xs: seq<Interval>, from: int, m: int, to: int)
    requires Regular(zone, week) && from <= m <= to
    ensures var whole, left, right :=
        Report(zone, week, xs, from, to), Report(zone, week, xs, from, m), Report(zone, week, xs, m, to);
      whole.0 == left.0 + right.0 && whole.1 == left.1 + right.1
  {
    BookedSplits(zone, week, xs, from, m, to);
    BookedSplits(zone, week, [(from, to)], from, m, to);
    TotalIsBooked(zone, week, from, to, from, to);
    TotalIsBooked(zone, week, from, m, from, to);
    TotalIsBooked(zone, week, m, to, from, to);
  }

  // -------------------------------------------------------------------- the report

  datatype Row = Row(start: int, end: int, status: string, deleted: bool)

  predicate IsActive(r: Row) {
    !r.deleted && r.status != "draft" && r.status != "rejected" && r.status != "closed"
  }

  /** The rows the report selects: active, and meeting the window. */
  predicate Selected(r: Row, from: int, to: int) {
    IsActive(r) && r.start < to && r.end > from
  }

  function ActiveIntervals(rows: seq<Row>): seq<Interval> {
    if rows == [] then []
    else
      var r := rows[|rows| - 1];
      ActiveIntervals(rows[..|rows| - 1]) + if IsActive(r) then [(r.start, r.end)] else []
  }

  function SelectedIntervals(rows: seq<Row>, from: int, to: int): seq<Interval> {
    if rows == [] then []
    else
      var r := rows[|rows| - 1];
      SelectedIntervals(rows[..|rows| - 1], from, to) + if Selected(r, from, to) then [(r.start, r.end)] else []
  }

  /** Inside the window the selected rows cover what all active rows cover. */
  lemma {:induction false} SelectionLosesNothing(rows: seq<Row>, from: int, to: int, t: int)
    requires from <= t < to
    ensures Covered(SelectedIntervals(rows, from, to), t) <==> Covered(ActiveIntervals(rows), t)
  {
    if rows != [] {
      var front, r := rows[..|rows| - 1], rows[|rows| - 1];
      SelectionLosesNothing(front, from, to, t);
      CoveredOneMore(SelectedIntervals(front, from, to), (r.start, r.end), t);
      CoveredOneMore(ActiveIntervals(front), (r.start, r.end), t);
      assert SelectedIntervals(front, from, to) + [] == SelectedIntervals(front, from, to);
      assert ActiveIntervals(front) + [] == ActiveIntervals(front);
    }
  }

  lemma {:induction false} BookedSame(segments: seq<Interval>, xs: seq<Interval>, ys: seq<Interval>, from: int, to: int)
    requires forall i :: 0 <= i < |segments| ==> from <= segments[i].0 && segments[i].1 <= to
    requires forall t :: from <= t < to ==> (Covered(xs, t) <==> Covered(ys, t))
    ensures Booked(segments, xs) == Booked(segments, ys)
  {
    if segments != [] {
      BookedSame(segments[..|segments| - 1], xs, ys, from, to);
      CountSame(xs, ys, segments[|segments| - 1].0, segments[|segments| - 1].1);
    }
  }

  method SelectIntervals(rows: seq<Row>, from: int, to: int) returns (intervals: seq<Interval>)
    ensures intervals == SelectedIntervals(rows, from, to)
  {
    intervals := [];
    for i := 0 to |rows|
      invariant intervals == SelectedIntervals(rows[..i], from, to)
    {
      assert rows[..i + 1][..i] == rows[..i];
      if Selected(rows[i], from, to) {
        intervals := intervals + [(rows[i].start, rows[i].end)];
      }
    }
    assert rows[..|rows|] == rows;
  }

  lemma TotalsOfAll(zone: Zone, week: Week, rows: seq<Row>, from: int, to: int)
    ensures var segments := Segments(zone, week, zone.dateOf(from), zone.dateOf(to), from, to);
      var booked := Booked(segments, SelectedIntervals(rows, from, to));
      booked == Booked(segments, ActiveIntervals(rows)) && booked <= Length(segments)
  {
    hide Booked, Segments, Length, SelectedIntervals, ActiveIntervals, Covered;
    var segments := Segments(zone, week, zone.dateOf(from), zone.dateOf(to), from, to);
    var intervals := SelectedIntervals(rows, from, to);
    SegmentsInside(zone, week, zone.dateOf(from), zone.dateOf(to), from, to);
    SegmentsForward(zone, week, zone.dateOf(from), zone.dateOf(to), from, to);
    forall t | from <= t < to
      ensures Covered(intervals, t) <==> Covered(ActiveIntervals(rows), t)
    {
      SelectionLosesNothing(rows, from, to, t);
    }
    BookedSame(segments, intervals, ActiveIntervals(rows), from, to);
    BookedAtMostTotal(segments, intervals);
  }

  /** The whole report. Its totals are those of all active bookings, and the ratio
      lies between zero and one. */
  method EnvironmentUtilization(zone: Zone, week: Week, rows: seq<Row>, from: int, to: int)
    returns (total: int, booked: nat, ratio: real)
    ensures (total, booked) == Report(zone, week, ActiveIntervals(rows), from, to)
    ensures booked <= total
    ensures total == 0 ==> ratio == 0.0
    ensures total != 0 ==> ratio * total as real == booked as real
    ensures 0.0 <= ratio <= 1.0
  {
    hide Booked, Segments, Length, SelectedIntervals, ActiveIntervals;
    var segments;
    segments, total := OperatingSegments(zone, week, from, to);
    var intervals := SelectIntervals(rows, from, to);
    booked := BookedTime(segments, intervals);
    TotalsOfAll(zone, week, rows, from, to);
    ratio := Ratio(booked, total);
  }

  function Ratio(booked: nat, total: int): (ratio: real)
    requires booked <= total
    ensures total == 0 ==> ratio == 0.0
    ensures total != 0 ==> ratio * total as real == booked as real
    ensures 0.0 <= ratio <= 1.0
  {
    if total != 0 then
      assert 0.0 <= booked as real <= total as real;
      booked as real / total as real
    else 0.0
  }
}
