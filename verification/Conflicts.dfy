/** When two bookings clash: the definition, the per-booking conflict list, and the
    pairing of a whole tenant's bookings. */
module Conflicts {
  import opened Options

  /** `request` is the parent booking request. Instants are integers; a booking takes the
      half-open interval from `start` to `end`. */
  datatype Booking = Booking(
    tenant: int, request: int, environment: int, status: string, deleted: bool, start: int, end: int)

  type Table = map<int, Booking>

  predicate Terminal(status: string) {
    status == "rejected" || status == "closed"
  }

  /** The clash test, which looks at the state of the other booking only. */
  predicate ConflictsWith(t: Table, other: int, subject: int, environment: int, start: int, end: int, tenant: int)
    requires other in t
  {
    var o := t[other];
    && o.tenant == tenant
    && other != subject
    && o.environment == environment
    && !o.deleted
    && !Terminal(o.status)
    && o.start < end
    && o.end > start
  }

  /** The ids `list_conflicts` returns for a booking. */
  function ListConflicts(t: Table, id: int, tenant: int): set<int> {
    if id !in t || t[id].tenant != tenant || Terminal(t[id].status) then {}
    else
      var me := t[id];
      set other | other in t && ConflictsWith(t, other, id, me.environment, me.start, me.end, tenant)
  }

  predicate LiveSubject(t: Table, id: int, tenant: int)
    requires id in t
  {
    t[id].tenant == tenant && !t[id].deleted && !Terminal(t[id].status)
  }

  predicate InWindow(a: Booking, b: Booking, window: Option<(int, int)>) {
    window.Some? ==>
      var (start, end) := window.value;
      a.start < end && b.start < end && a.end > start && b.end > start
  }

  predicate InPage(a: int, b: int, ids: Option<set<int>>) {
    ids.Some? ==> a in ids.value || b in ids.value
  }

  /** The clashing pairs, lower id first. */
  function OverlappingPairs(
    t: Table, tenant: int, ids: Option<set<int>>, window: Option<(int, int)>): set<(int, int)>
  {
    set a, b | a in t && b in t && LiveSubject(t, a, tenant)
      && ConflictsWith(t, b, a, t[a].environment, t[a].start, t[a].end, tenant)
      && a < b && InPage(a, b, ids) && InWindow(t[a], t[b], window) :: (a, b)
  }

  function Normalise(a: int, b: int): (int, int) {
    if a < b then (a, b) else (b, a)
  }

  /** The pairing and the lists agree: a pair is reported exactly when each booking is in
      the other's list. */
  lemma PairsAreMutualConflicts(t: Table, tenant: int, a: int, b: int)
    ensures Normalise(a, b) in OverlappingPairs(t, tenant, None, None) <==>
      a in ListConflicts(t, b, tenant) && b in ListConflicts(t, a, tenant)
  {
  }

  /** The two lists disagree only about a deleted booking: it is shown the live one, and is
      not shown to it. */
  lemma OneSidedExactly(t: Table, tenant: int, a: int, b: int)
    requires b in ListConflicts(t, a, tenant)
    ensures a !in ListConflicts(t, b, tenant) <==> t[a].deleted
    ensures Normalise(a, b) in OverlappingPairs(t, tenant, None, None) <==> !t[a].deleted
  {
  }

  ghost predicate At(b: Booking, x: int) {
    b.start <= x < b.end
  }

  /** Some instant of the window is taken by both bookings. */
  ghost predicate ClashInside(t: Table, a: int, b: int, window: (int, int))
    requires a in t && b in t
  {
    exists x :: window.0 <= x < window.1 && At(t[a], x) && At(t[b], x)
  }

  /** A contention is counted in a window exactly when some instant of the window is taken
      by both bookings: the four comparisons say what the overlap interval would. */
  lemma WindowCountsOverlaps(t: Table, tenant: int, a: int, b: int, window: (int, int))
    requires a < b && a in t && b in t && window.0 < window.1
    requires t[a].start < t[a].end && t[b].start < t[b].end
    ensures (a, b) in OverlappingPairs(t, tenant, None, Some(window)) <==>
      (a, b) in OverlappingPairs(t, tenant, None, None) && ClashInside(t, a, b, window)
  {
    if (a, b) in OverlappingPairs(t, tenant, None, Some(window)) {
      var later := if t[a].start < t[b].start then t[b].start else t[a].start;
      var x := if later < window.0 then window.0 else later;
      assert At(t[a], x) && At(t[b], x);
    }
  }

  /** Asking about a page of bookings loses no pair of any booking on it. */
  lemma PageKeepsPairs(t: Table, tenant: int, ids: set<int>, id: int, p: (int, int))
    requires id in ids && (p.0 == id || p.1 == id)
    ensures p in OverlappingPairs(t, tenant, Some(ids), None) <==> p in OverlappingPairs(t, tenant, None, None)
  {
  }
}
