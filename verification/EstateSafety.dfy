/** What every run of the estate keeps. */
module EstateSafety {
  import opened Numbers
  import opened Options
  import opened Text
  import opened Decommission
  import opened Estate

  // ------------------------------------------------------------------ invariant

  /** A booking whose end was written after the record was made. */
  ghost predicate WrittenUnder(b: Booking, r: Record) {
    b.environmentId == r.environmentId && r.initiatedAt < b.endWrittenAt
  }

  /** No booking written under a live decommission outlasts it. */
  ghost predicate Safe(s: Store) {
    forall i, j :: 0 <= i < |s.records| && 0 <= j < |s.bookings|
      && Live(s.records[i]) && WrittenUnder(s.bookings[j], s.records[i])
      ==> s.bookings[j].end <= s.records[i].teardown
  }

  /** The date is where the initiator put it, or where a granted extension moved it;
      an open request asks for a later one. */
  ghost predicate DatesOrderly(r: Record) {
    && r.warnedAt + r.noticeDaysThen * DAY <= r.firstTeardown
    && (r.extensionRequestedAt.Some? <==> r.extensionUntil.Some?)
    && (r.extensionDecidedAt.Some? <==> r.extensionGranted.Some?)
    && (r.extensionDecidedAt.Some? ==> r.extensionRequestedAt.Some?)
    && (r.extensionUntil.Some? ==> r.firstTeardown < r.extensionUntil.value)
    && r.teardown == if r.extensionGranted == Some(true) then r.extensionUntil.value else r.firstTeardown
  }

  ghost predicate SignedOff(r: Record) {
    r.tornDownAt.Some? ==> r.requiredThen <= r.signed
  }

  ghost predicate Orderly(s: Store) {
    && (forall i :: 0 <= i < |s.records| ==>
          DatesOrderly(s.records[i]) && SignedOff(s.records[i]) && s.records[i].initiatedAt < s.clock)
    && (forall i, j :: 0 <= i < j < |s.records| && Live(s.records[i]) && Live(s.records[j])
          ==> s.records[i].environmentId != s.records[j].environmentId)
    && (forall i :: 0 <= i < |s.records| ==> s.records[i].environmentId in s.environments)
    && (forall j :: 0 <= j < |s.bookings| ==>
          s.bookings[j].endWrittenAt < s.clock && s.bookings[j].environmentId in s.environments)
  }

  ghost predicate Inv(s: Store) {
    Orderly(s) && Safe(s)
  }

  // ------------------------------------------------- one request keeps it

  /** A record after a request that may have moved its date later or ended it. */
  ghost predicate Follows(r: Record, r': Record) {
    && r'.environmentId == r.environmentId && r'.initiatedAt == r.initiatedAt
    && r'.noticeDaysThen == r.noticeDaysThen && r'.firstTeardown == r.firstTeardown && r'.warnedAt == r.warnedAt
    && r.teardown <= r'.teardown
    && (Live(r') ==> Live(r))
    && (r.extensionDecidedAt.Some? ==>
          r'.extensionGranted == r.extensionGranted && r'.extensionDecidedAt == r.extensionDecidedAt
          && r'.teardown == r.teardown)
    && (r.tornDownAt.Some? ==> r'.tornDownAt.Some?)
    && (r'.teardown != r.teardown ==> r'.extensionGranted == Some(true))
    && r.signed <= r'.signed
  }

  /** A request that rewrites one record and keeps the environments' ids. */
  lemma RecordUpdateKeepsInv(s: Store, id: nat, r': Record, s': Store)
    requires Inv(s) && id < |s.records|
    requires Follows(s.records[id], r') && DatesOrderly(r') && SignedOff(r')
    requires s'.records == s.records[id := r'] && s'.bookings == s.bookings
    requires s.environments.Keys <= s'.environments.Keys && s.clock <= s'.clock
    ensures Inv(s')
  {
    forall i, j | 0 <= i < |s'.records| && 0 <= j < |s'.bookings|
      && Live(s'.records[i]) && WrittenUnder(s'.bookings[j], s'.records[i])
      ensures s'.bookings[j].end <= s'.records[i].teardown
    {
      assert Live(s.records[i]) && WrittenUnder(s.bookings[j], s.records[i]);
    }
  }

  lemma NewRecordKeepsInv(s: Store, r: Record)
    requires Inv(s)
    requires DatesOrderly(r) && Live(r) && r.initiatedAt == s.clock
    requires !HasLive(s.records, r.environmentId) && r.environmentId in s.environments
    ensures Inv(s.(records := s.records + [r], clock := s.clock + 1))
  {
    var records' := s.records + [r];
    forall i | 0 <= i < |records'| ensures i < |s.records| ==> records'[i] == s.records[i] {}
  }

  lemma SameTablesKeepInv(s: Store, s': Store)
    requires Inv(s)
    requires s'.records == s.records && s'.bookings == s.bookings
    requires s.environments.Keys <= s'.environments.Keys && s.clock <= s'.clock
    ensures Inv(s')
  {
  }

  /** A booking written now, or left as it was up to its start and deletion. */
  ghost predicate WellWritten(s: Store, b: Booking) {
    b.environmentId in s.environments && b.endWrittenAt == s.clock && Bookable(s, b.environmentId, b.end)
  }

  ghost predicate EndKept(b: Booking, b': Booking) {
    b'.environmentId == b.environmentId && b'.end == b.end && b'.endWrittenAt == b.endWrittenAt
  }

  /** A request that appends bookings and rewrites others, each of them checked. */
  lemma BookingWritesKeepInv(s: Store, s': Store)
    requires Inv(s)
    requires s'.records == s.records && s'.environments == s.environments && s'.clock == s.clock + 1
    requires |s.bookings| <= |s'.bookings|
    requires forall j :: 0 <= j < |s'.bookings| ==>
      WellWritten(s, s'.bookings[j]) || (j < |s.bookings| && EndKept(s.bookings[j], s'.bookings[j]))
    ensures Inv(s')
  {
    forall i, j | 0 <= i < |s'.records| && 0 <= j < |s'.bookings|
      && Live(s'.records[i]) && WrittenUnder(s'.bookings[j], s'.records[i])
      ensures s'.bookings[j].end <= s'.records[i].teardown
    {
      if WellWritten(s, s'.bookings[j]) {
        assert Clear(s.records, s'.bookings[j].environmentId, s'.bookings[j].end);
      } else {
        assert WrittenUnder(s.bookings[j], s.records[i]);
      }
    }
    assert forall i :: 0 <= i < |s.records| ==> s.records[i].initiatedAt < s.clock;
  }

  ghost predicate IsBookingEvent(e: Event) {
    || e.CreateRequestEvent? || e.CreateBookingEvent? || e.AddEnvironmentEvent?
    || e.UpdateRequestEvent? || e.UpdateBookingEvent? || e.RemoveBookingEvent?
  }

  lemma CreateBookingWrites(s: Store, environmentId: nat, start: int, end: int, rule: seq<int>, admitted: bool)
    requires CreateBooking(s, environmentId, start, end, rule, admitted).Done?
    ensures var s' := CreateBooking(s, environmentId, start, end, rule, admitted).store;
      && |s.bookings| <= |s'.bookings|
      && s'.bookings[..|s.bookings|] == s.bookings
      && forall j :: |s.bookings| <= j < |s'.bookings| ==> WellWritten(s, s'.bookings[j])
  {
    var dates, duration := Capped(rule), end - start;
    var m := FurthestEnd(end, duration, dates);
    assert Clear(s.records, environmentId, m);
    forall d | d <= m ensures Clear(s.records, environmentId, d) {}
  }

  lemma UpdateRequestWrites(s: Store, req: nat, start: Option<int>, end: Option<int>, admitted: bool)
    requires Inv(s) && UpdateRequest(s, req, start, end, admitted).Done?
    ensures var s' := UpdateRequest(s, req, start, end, admitted).store;
      |s'.bookings| == |s.bookings| && forall j :: 0 <= j < |s.bookings| ==>
        WellWritten(s, s'.bookings[j]) || EndKept(s.bookings[j], s'.bookings[j])
  {
    var s' := UpdateRequest(s, req, start, end, admitted).store;
    forall j | 0 <= j < |s'.bookings|
      ensures WellWritten(s, s'.bookings[j]) || EndKept(s.bookings[j], s'.bookings[j])
    {
      if InRequest(s.bookings[j], req) && end.Some? {
        assert Bookable(s, s.bookings[j].environmentId, end.value);
      }
    }
  }

  lemma BookingEventWrites(s: Store, e: Event, s': Store)
    requires Inv(s) && IsBookingEvent(e) && Answer(s, e) == Done(s')
    ensures s'.records == s.records && s'.environments == s.environments && s'.clock == s.clock
    ensures |s.bookings| <= |s'.bookings|
    ensures forall j :: 0 <= j < |s'.bookings| ==>
      WellWritten(s, s'.bookings[j]) || (j < |s.bookings| && EndKept(s.bookings[j], s'.bookings[j]))
  {
    match e
    case CreateBookingEvent(env, start, end, rule, admitted) =>
      CreateBookingWrites(s, env, start, end, rule, admitted);
      forall j | 0 <= j < |s.bookings| ensures s'.bookings[j] == s.bookings[j] {
        assert s'.bookings[..|s.bookings|][j] == s.bookings[j];
      }
    case UpdateRequestEvent(req, start, end, admitted) => UpdateRequestWrites(s, req, start, end, admitted);
    case _ =>
  }

  ghost predicate IsRecordEvent(e: Event) {
    e.RequestExtensionEvent? || e.DecideExtensionEvent? || e.SignStepEvent? || e.TearDownEvent? || e.CancelEvent?
  }

  lemma RecordEventFollows(s: Store, e: Event, s': Store)
    requires Orderly(s) && IsRecordEvent(e) && Answer(s, e) == Done(s')
    ensures e.id < |s.records| == |s'.records|
    ensures s'.records == s.records[e.id := s'.records[e.id]] && s'.bookings == s.bookings
    ensures s'.environments.Keys == s.environments.Keys && s'.clock == s.clock
    ensures Follows(s.records[e.id], s'.records[e.id])
    ensures DatesOrderly(s'.records[e.id]) && SignedOff(s'.records[e.id])
  {
  }

  lemma RecordEventKeepsInv(s: Store, e: Event)
    requires Inv(s) && !IsBookingEvent(e)
    ensures Inv(Step(s, e))
  {
    var a := Answer(s, e);
    var s' := Step(s, e);
    if a.Refused? {
      SameTablesKeepInv(s, s');
    } else if IsRecordEvent(e) {
      hide Answer;
      RecordEventFollows(s, e, a.store);
      RecordUpdateKeepsInv(s, e.id, s'.records[e.id], s');
    } else if e.InitiateEvent? {
      NewRecordKeepsInv(s, a.store.records[|s.records|]);
    } else {
      SameTablesKeepInv(s, s');
    }
  }

  lemma StepKeepsInv(s: Store, e: Event)
    requires Inv(s)
    ensures Inv(Step(s, e))
  {
    if IsBookingEvent(e) {
      var a := Answer(s, e);
      if a.Done? {
        BookingEventWrites(s, e, a.store);
        BookingWritesKeepInv(s, Step(s, e));
      } else {
        SameTablesKeepInv(s, Step(s, e));
      }
    } else {
      RecordEventKeepsInv(s, e);
    }
  }

  lemma {:induction false} RunKeepsInv(s: Store, es: seq<Event>)
    requires Inv(s)
    ensures Inv(Run(s, es))
  {
    if es != [] {
      RunKeepsInv(s, es[..|es| - 1]);
      StepKeepsInv(Run(s, es[..|es| - 1]), es[|es| - 1]);
    }
  }

  /** Whatever the requests, and in whatever order, no booking whose end was written
      while a decommission was live ends after the date that decommission has now. */
  lemma BookingsEndBeforeTeardown(es: seq<Event>, i: nat, j: nat)
    ensures var s := Run(EMPTY, es);
      i < |s.records| && j < |s.bookings| && Live(s.records[i]) && WrittenUnder(s.bookings[j], s.records[i])
      ==> s.bookings[j].end <= s.records[i].teardown
  {
    RunKeepsInv(EMPTY, es);
  }

  // --------------------------------------------------------- the life of a record

  lemma OtherEventKeepsRecords(s: Store, e: Event)
    requires !IsRecordEvent(e) && Answer(s, e).Done?
    ensures |s.records| <= |Answer(s, e).store.records|
    ensures forall i :: 0 <= i < |s.records| ==> Answer(s, e).store.records[i] == s.records[i]
  {
  }

  lemma StepFollows(s: Store, e: Event)
    requires Inv(s)
    ensures |s.records| <= |Step(s, e).records|
    ensures forall i :: 0 <= i < |s.records| ==> Follows(s.records[i], Step(s, e).records[i])
  {
    hide Answer, Safe;
    if Answer(s, e).Done? {
      if IsRecordEvent(e) {
        RecordEventFollows(s, e, Answer(s, e).store);
      } else {
        OtherEventKeepsRecords(s, e);
      }
    }
  }

  lemma {:induction false} RunFollows(s: Store, es: seq<Event>, i: nat)
    requires Inv(s) && i < |s.records|
    ensures i < |Run(s, es).records| && Follows(s.records[i], Run(s, es).records[i])
  {
    if es != [] {
      var front := es[..|es| - 1];
      RunFollows(s, front, i);
      RunKeepsInv(s, front);
      StepFollows(Run(s, front), es[|es| - 1]);
    }
  }

  /** Over any run: the date is never before the notice the initiator owed, never
      moves earlier, and moves only by a granted extension - so at most once, since
      a decision stands and a second request is refused. */
  lemma TeardownDates(es: seq<Event>, more: seq<Event>, i: nat)
    requires i < |Run(EMPTY, es).records|
    ensures var r := Run(EMPTY, es).records[i];
      var later := Run(Run(EMPTY, es), more).records;
      && i < |later|
      && r.warnedAt + r.noticeDaysThen * DAY <= r.teardown <= later[i].teardown
      && (later[i].teardown != r.teardown ==>
            r.extensionDecidedAt.None? && later[i].extensionGranted == Some(true)
            && later[i].extensionUntil == Some(later[i].teardown))
  {
    RunKeepsInv(EMPTY, es);
    RunFollows(Run(EMPTY, es), more, i);
    RunKeepsInv(Run(EMPTY, es), more);
  }

  /** Over any run: one live decommission per environment, and a torn-down one had
      every step required at that moment signed. */
  lemma OneLiveAndSignedOff(es: seq<Event>)
    ensures var rs := Run(EMPTY, es).records;
      && (forall i, j :: 0 <= i < j < |rs| && Live(rs[i]) && Live(rs[j]) ==> rs[i].environmentId != rs[j].environmentId)
      && (forall i :: 0 <= i < |rs| && rs[i].tornDownAt.Some? ==> rs[i].requiredThen <= rs[i].signed)
  {
    RunKeepsInv(EMPTY, es);
  }

  // ----------------------------------------------------- the line that moves

  /** With a live decommission the bookable ends are those up to its date. */
  lemma BookableUpToTeardown(s: Store, i: nat, end: int)
    requires Inv(s) && i < |s.records| && Live(s.records[i])
    ensures var e := s.records[i].environmentId;
      Bookable(s, e, end) <==> s.environments[e].status != Decommissioned && end <= s.records[i].teardown
  {
    var e := s.records[i].environmentId;
    if end <= s.records[i].teardown {
      forall k | 0 <= k < |s.records| && s.records[k].environmentId == e && Live(s.records[k])
        ensures end <= s.records[k].teardown
      {
        assert k == i;
      }
    }
  }

  /** Granting an extension moves the line to the date asked for and no further;
      refusing moves nothing; cancelling lifts it. None of them writes a booking. */
  lemma DecisionsMoveTheLine(s: Store, id: nat, granted: bool, reason: string, now: int, end: int)
    requires Inv(s) && Resolved(s, id) && Live(s.records[id])
    requires s.environments[s.records[id].environmentId].status != Decommissioned
    ensures var e := s.records[id].environmentId;
      var d := DecideExtension(s, id, true, granted, now);
      && (d.Done? <==> s.records[id].extensionRequestedAt.Some? && s.records[id].extensionDecidedAt.None?)
      && (d.Done? ==>
            && d.store.bookings == s.bookings
            && (Bookable(d.store, e, end) <==>
                  end <= if granted then s.records[id].extensionUntil.value else s.records[id].teardown))
    ensures var e := s.records[id].environmentId;
      var c := Cancel(s, id, true, reason, now);
      c.Done? ==> c.store.bookings == s.bookings && Bookable(c.store, e, end)
  {
    var e := s.records[id].environmentId;
    var d := DecideExtension(s, id, true, granted, now);
    if d.Done? {
      RecordUpdateKeepsInv(s, id, d.store.records[id], d.store);
      BookableUpToTeardown(d.store, id, end);
    }
  }

  /** The request puts a decommissioned environment back into use by hand. */
  predicate Reopens(e: Event, environmentId: nat) {
    e.SaveEnvironmentEvent? && e.environmentId == environmentId && e.environment.status != Decommissioned
  }

  predicate Closed(s: Store, environmentId: nat) {
    environmentId in s.environments && s.environments[environmentId].status == Decommissioned
  }

  /** No booking of the environment is made, nor the end of one moved. */
  ghost predicate EndsStand(s: Store, s': Store, environmentId: nat) {
    forall j :: 0 <= j < |s'.bookings| && s'.bookings[j].environmentId == environmentId ==>
      j < |s.bookings| && EndKept(s.bookings[j], s'.bookings[j])
  }

  lemma StatusStays(s: Store, e: Event, environmentId: nat)
    requires Closed(s, environmentId) && !Reopens(e, environmentId)
    ensures Closed(Step(s, e), environmentId)
  {
  }

  lemma EndsStandOnStep(s: Store, e: Event, environmentId: nat)
    requires Inv(s) && Closed(s, environmentId)
    ensures EndsStand(s, Step(s, e), environmentId)
  {
    hide Answer;
    if Answer(s, e).Done? {
      if IsBookingEvent(e) {
        BookingEventWrites(s, e, Answer(s, e).store);
      } else {
        OtherEventKeepsBookings(s, e);
      }
    }
  }

  lemma OtherEventKeepsBookings(s: Store, e: Event)
    requires !IsBookingEvent(e) && Answer(s, e).Done?
    ensures Answer(s, e).store.bookings == s.bookings
  {
  }

  lemma {:induction false} StaysClosed(s: Store, es: seq<Event>, environmentId: nat)
    requires Inv(s) && Closed(s, environmentId)
    requires forall e :: e in es ==> !Reopens(e, environmentId)
    ensures Closed(Run(s, es), environmentId) && EndsStand(s, Run(s, es), environmentId)
  {
    if es != [] {
      var front := es[..|es| - 1];
      StaysClosed(s, front, environmentId);
      RunKeepsInv(s, front);
      hide Step, Inv;
      StatusStays(Run(s, front), es[|es| - 1], environmentId);
      EndsStandOnStep(Run(s, front), es[|es| - 1], environmentId);
    }
  }

  /** Tearing down closes the environment to every booking and touches none. It stays
      closed over every run, cancellations included, in which nobody puts it back into use
      by hand: no window on it is bookable, no booking of it is made, and no end of one is
      moved. */
  lemma TornDownStaysClosed(s: Store, id: nat, now: int, es: seq<Event>, end: int)
    requires Inv(s) && TearDown(s, id, true, now).Done?
    requires forall e :: e in es ==> !Reopens(e, s.records[id].environmentId)
    ensures var e := s.records[id].environmentId;
      var t, later := Step(s, TearDownEvent(id, true, now)), Run(Step(s, TearDownEvent(id, true, now)), es);
      && t.bookings == s.bookings
      && (forall other :: other != e && other in s.environments ==> t.environments[other] == s.environments[other])
      && Closed(later, e) && !Bookable(later, e, end)
      && EndsStand(s, later, e)
  {
    StepKeepsInv(s, TearDownEvent(id, true, now));
    StaysClosed(Step(s, TearDownEvent(id, true, now)), es, s.records[id].environmentId);
  }

  /** A cancellation after teardown needs a reason and nothing else, and opens nothing. */
  lemma CancelledStaysClosed(s: Store, id: nat, now: int, reason: string, end: int)
    requires Inv(s) && TearDown(s, id, true, now).Done?
    ensures var e := s.records[id].environmentId;
      var t := TearDown(s, id, true, now).store;
      && t.bookings == s.bookings
      && !Bookable(t, e, end)
      && (forall other :: other != e && other in s.environments ==> t.environments[other] == s.environments[other])
      && var c := Cancel(t, id, true, reason, now);
         (c.Done? <==> Strip(reason) != []) && (c.Done? ==> !Bookable(c.store, e, end))
  {
  }
}
