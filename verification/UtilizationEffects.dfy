/** What a utilization report counts, said of instants: when an environment is open by its
    hours, and when it is booked by its rows. */
module UtilizationEffects {
  import opened Numbers
  import opened Utilization

  /** Some row that is not deleted, is no draft, and is neither rejected nor closed, takes
      the instant. */
  predicate BookedAt(rows: seq<Row>, t: int) {
    exists i :: 0 <= i < |rows| && Counts(rows[i]) && rows[i].start <= t < rows[i].end
  }

  predicate Counts(r: Row) {
    !r.deleted && r.status !in {"draft", "rejected", "closed"}
  }

  /** The hours of the instant's own local date have it open. */
  predicate OpenAt(zone: Zone, week: Week, t: int) {
    OpenOn(zone, week, zone.dateOf(t), t)
  }

  predicate OpenOn(zone: Zone, week: Week, d: int, t: int) {
    !week[d % 7].closed && zone.toUtc(d, week[d % 7].open) <= t < zone.toUtc(d, week[d % 7].close)
  }

  lemma {:induction false} ActiveExactly(rows: seq<Row>, t: int)
    ensures Covered(ActiveIntervals(rows), t) <==> BookedAt(rows, t)
  {
    if rows != [] {
      var front, r := rows[..|rows| - 1], rows[|rows| - 1];
      ActiveExactly(front, t);
      CoveredOneMore(ActiveIntervals(front), (r.start, r.end), t);
      assert ActiveIntervals(front) + [] == ActiveIntervals(front);
      assert forall i :: 0 <= i < |front| ==> front[i] == rows[i];
    }
  }

  /** The segments are the open hours of the dates from first to last, inside the window. */
  lemma {:induction false} SegmentsExactly(
    zone: Zone, week: Week, first: int, last: int, from: int, to: int, t: int)
    ensures Covered(Segments(zone, week, first, last, from, to), t) <==>
      from <= t < to && exists d :: first <= d <= last && OpenOn(zone, week, d, t)
    decreases last - first
  {
    if first <= last {
      SegmentsExactly(zone, week, first, last - 1, from, to, t);
      var front, one := Segments(zone, week, first, last - 1, from, to), SegmentOf(zone, week, last, from, to);
      if one == [] {
        assert front + one == front;
      } else {
        assert one == [one[0]];
        CoveredOneMore(front, one[0], t);
      }
      assert from <= t < to && OpenOn(zone, week, last, t) ==> one != [] && Within(one[0], t);
    }
  }

  /** In the window an instant is in a segment exactly when its date's hours have it open. */
  lemma OperatingExactly(zone: Zone, week: Week, from: int, to: int, t: int)
    requires Regular(zone, week) && from <= t < to
    ensures Covered(Segments(zone, week, zone.dateOf(from), zone.dateOf(to), from, to), t) <==> OpenAt(zone, week, t)
  {
    SegmentsExactly(zone, week, zone.dateOf(from), zone.dateOf(to), from, to, t);
    assert zone.dateOf(from) <= zone.dateOf(t) <= zone.dateOf(to);
    forall d | OpenOn(zone, week, d, t) ensures d == zone.dateOf(t) {
      assert Within(Window(zone, week, d), t);
    }
  }

  ghost predicate DatedBy(zone: Zone, segments: seq<Interval>, dates: seq<int>) {
    && |dates| == |segments|
    && (forall i, j :: 0 <= i < j < |dates| ==> dates[i] < dates[j])
    && forall i, t :: 0 <= i < |segments| && Within(segments[i], t) ==> zone.dateOf(t) == dates[i]
  }

  lemma {:induction false} SegmentDates(
    zone: Zone, week: Week, first: int, last: int, from: int, to: int) returns (dates: seq<int>)
    requires Regular(zone, week)
    ensures DatedBy(zone, Segments(zone, week, first, last, from, to), dates)
    ensures forall i :: 0 <= i < |dates| ==> dates[i] <= last
    decreases last - first
  {
    dates := [];
    if first <= last {
      dates := SegmentDates(zone, week, first, last - 1, from, to);
      var one := SegmentOf(zone, week, last, from, to);
      if one != [] {
        assert forall t :: Within(one[0], t) ==> Within(Window(zone, week, last), t);
        dates := dates + [last];
      }
    }
  }

  lemma SameSegment(zone: Zone, segments: seq<Interval>, dates: seq<int>, i: nat, j: nat, t: int)
    requires DatedBy(zone, segments, dates) && i < |segments| && j < |segments|
    requires Within(segments[i], t) && Within(segments[j], t)
    ensures i == j
  {
    assert dates[i] == zone.dateOf(t) == dates[j];
  }

  lemma DatedDisjoint(zone: Zone, segments: seq<Interval>, dates: seq<int>)
    requires DatedBy(zone, segments, dates)
    ensures DisjointSegments(segments)
  {
    hide DatedBy;
    forall i, j, t | 0 <= i < j < |segments| ensures !(Within(segments[i], t) && Within(segments[j], t)) {
      if Within(segments[i], t) && Within(segments[j], t) {
        SameSegment(zone, segments, dates, i, j, t);
      }
    }
  }

  /** How many instants from `a` up to `b` satisfy `p`. */
  ghost function Instants(p: int -> bool, a: int, b: int): nat
    decreases b - a
  {
    if a >= b then 0 else (if p(a) then 1 else 0) + Instants(p, a + 1, b)
  }

  lemma {:induction false} BothAreInstants(segments: seq<Interval>, xs: seq<Interval>, p: int -> bool, a: int, b: int)
    requires forall t :: a <= t < b ==> (p(t) <==> Covered(segments, t) && Covered(xs, t))
    ensures CountBoth(segments, xs, a, b) == Instants(p, a, b)
    decreases b - a
  {
    if a < b {
      BothAreInstants(segments, xs, p, a + 1, b);
    }
  }

  ghost function OpenNow(zone: Zone, week: Week): int -> bool {
    (t: int) => OpenAt(zone, week, t)
  }

  ghost function OpenAndBooked(zone: Zone, week: Week, rows: seq<Row>): int -> bool {
    (t: int) => OpenAt(zone, week, t) && BookedAt(rows, t)
  }

  lemma BookedInstants(zone: Zone, week: Week, xs: seq<Interval>, p: int -> bool, from: int, to: int)
    requires Regular(zone, week)
    requires forall t :: from <= t < to ==> (p(t) <==> OpenAt(zone, week, t) && Covered(xs, t))
    ensures Report(zone, week, xs, from, to).1 == Instants(p, from, to)
  {
    var first, last := zone.dateOf(from), zone.dateOf(to);
    var segments := Segments(zone, week, first, last, from, to);
    var dates := SegmentDates(zone, week, first, last, from, to);
    DatedDisjoint(zone, segments, dates);
    SegmentsInside(zone, week, first, last, from, to);
    BookedIsMeasure(segments, xs, from, to);
    forall t | from <= t < to ensures p(t) <==> Covered(segments, t) && Covered(xs, t) {
      OperatingExactly(zone, week, from, to, t);
    }
    BothAreInstants(segments, xs, p, from, to);
  }

  /** The report counts, of the window's instants, those that are open and those that are
      open and booked. */
  lemma ReportExactly(zone: Zone, week: Week, rows: seq<Row>, from: int, to: int)
    requires Regular(zone, week)
    ensures var report := Report(zone, week, ActiveIntervals(rows), from, to);
      && report.0 == Instants(OpenNow(zone, week), from, to)
      && report.1 == Instants(OpenAndBooked(zone, week, rows), from, to)
  {
    hide Report, Regular;
    forall t ensures Covered(ActiveIntervals(rows), t) <==> BookedAt(rows, t) {
      ActiveExactly(rows, t);
    }
    BookedInstants(zone, week, ActiveIntervals(rows), OpenAndBooked(zone, week, rows), from, to);
    forall t | from <= t < to ensures Covered([(from, to)], t) {
      CoveredByOne((from, to), t);
    }
    BookedInstants(zone, week, [(from, to)], OpenNow(zone, week), from, to);
    TotalIsBooked(zone, week, from, to, from, to);
    SameTotal(zone, week, ActiveIntervals(rows), from, to);
  }

  lemma SameTotal(zone: Zone, week: Week, xs: seq<Interval>, from: int, to: int)
    ensures Report(zone, week, xs, from, to).0 == Report(zone, week, [], from, to).0
  {
  }
}
