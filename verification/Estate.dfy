/** Environments, their decommissions, and every request that writes the end date
    of a booking, as transitions of one store.

    `clock` counts the requests served; it dates a decommission's initiation and
    every write of a booking's end date, so the two can be compared. */
module Estate {
  import opened Numbers
  import opened Options
  import opened Text
  import opened Decommission

  datatype Status = Active | Inactive | Maintenance | Decommissioned

  datatype Environment = Environment(status: Status, deleted: bool)

  datatype ChecklistStep = ChecklistStep(active: bool, required: bool)

  /** `endWrittenAt` is history; `groupId` is the group that put the booking there. */
  datatype Booking = Booking(
    environmentId: nat, requestId: nat, groupId: Option<nat>, start: int, end: int, deleted: bool, endWrittenAt: nat)

  datatype Request = Request(start: int, end: int)

  datatype Store = Store(
    environments: map<nat, Environment>,
    noticeDays: nat,
    steps: map<string, ChecklistStep>,
    records: seq<Record>,
    bookings: seq<Booking>,
    requests: seq<Request>,
    clock: nat)

  /** The outcome of a request; a refusal carries its status code and leaves the
      store as it was. */
  datatype Reply = Done(store: Store) | Refused(code: int)

  // ------------------------------------------------------------ what is bookable

  predicate Clear(records: seq<Record>, environmentId: nat, end: int) {
    forall i :: 0 <= i < |records| ==>
      (records[i].environmentId == environmentId && Live(records[i]) ==> end <= records[i].teardown)
  }

  predicate Bookable(s: Store, environmentId: nat, end: int) {
    environmentId in s.environments ==>
      s.environments[environmentId].status != Decommissioned && Clear(s.records, environmentId, end)
  }

  // --------------------------------------------------------- decommission requests

  predicate Resolves(s: Store, environmentId: nat) {
    environmentId in s.environments && !s.environments[environmentId].deleted
  }

  predicate HasLive(records: seq<Record>, environmentId: nat) {
    exists i :: 0 <= i < |records| && records[i].environmentId == environmentId && Live(records[i])
  }

  /** `allowed` is the answer of the role check of the action. */
  function Initiate(
    s: Store, environmentId: nat, allowed: bool, reason: string, scheduled: Option<int>, now: int): Reply
  {
    if !Resolves(s, environmentId) then Refused(404)
    else if !allowed then Refused(403)
    else if Strip(reason) == [] then Refused(422)
    else if HasLive(s.records, environmentId) then Refused(409)
    else
      var earliest := now + s.noticeDays * DAY;
      if scheduled.Some? && scheduled.value < earliest then Refused(422)
      else
        var teardown := if scheduled.Some? then scheduled.value else earliest;
        Done(s.(records := s.records + [Record(
          environmentId, now, teardown, None, None, None, None, None, None, {},
          s.clock, s.noticeDays, teardown, {})]))
  }

  predicate Resolved(s: Store, id: nat) {
    id < |s.records| && Resolves(s, s.records[id].environmentId)
  }

  function RequestExtension(s: Store, id: nat, allowed: bool, until: int, now: int): Reply {
    if !Resolved(s, id) then Refused(404)
    else if !allowed then Refused(403)
    else if !Live(s.records[id]) then Refused(409)
    else if s.records[id].extensionRequestedAt.Some? then Refused(409)
    else if until <= s.records[id].teardown then Refused(422)
    else Done(s.(records := s.records[id := s.records[id].(extensionRequestedAt := Some(now), extensionUntil := Some(until))]))
  }

  function DecideExtension(s: Store, id: nat, allowed: bool, granted: bool, now: int): Reply {
    if !Resolved(s, id) then Refused(404)
    else if !allowed then Refused(403)
    else if !Live(s.records[id]) then Refused(409)
    else
      var r := s.records[id];
      if r.extensionRequestedAt.None? || r.extensionDecidedAt.Some? then Refused(409)
      else
        var moved := if granted && r.extensionUntil.Some? then r.extensionUntil.value else r.teardown;
        Done(s.(records := s.records[id :=
          r.(extensionDecidedAt := Some(now), extensionGranted := Some(granted), teardown := moved)]))
  }

  function SignStep(s: Store, id: nat, allowed: bool, key: string): Reply {
    if !Resolved(s, id) then Refused(404)
    else if !allowed then Refused(403)
    else if !Live(s.records[id]) then Refused(409)
    else if key !in s.steps then Refused(422)
    else if key in s.records[id].signed then Refused(409)
    else Done(s.(records := s.records[id := s.records[id].(signed := s.records[id].signed + {key})]))
  }

  function RequiredSteps(steps: map<string, ChecklistStep>): set<string> {
    set key | key in steps && steps[key].active && steps[key].required
  }

  function TearDown(s: Store, id: nat, allowed: bool, now: int): Reply {
    if !Resolved(s, id) then Refused(404)
    else if !allowed then Refused(403)
    else if !Live(s.records[id]) then Refused(409)
    else
      var required := RequiredSteps(s.steps);
      if !(required <= s.records[id].signed) then Refused(422)
      else
        var e := s.records[id].environmentId;
        Done(s.(
          records := s.records[id := s.records[id].(tornDownAt := Some(now), requiredThen := required)],
          environments := s.environments[e := s.environments[e].(status := Decommissioned)]))
  }

  function Cancel(s: Store, id: nat, allowed: bool, reason: string, now: int): Reply {
    if !Resolved(s, id) then Refused(404)
    else if !allowed then Refused(403)
    else if s.records[id].cancelledAt.Some? then Refused(409)
    else if Strip(reason) == [] then Refused(422)
    else Done(s.(records := s.records[id := s.records[id].(cancelledAt := Some(now))]))
  }

  // -------------------------------------------------------------- booking requests

  datatype Group = Group(id: nat, members: seq<nat>)

  /** An environment on a request, and the group it came from if it was not picked
      by hand. */
  datatype Pick = Pick(environmentId: nat, groupId: Option<nat>)

  predicate Distinct(picks: seq<Pick>) {
    forall i, j :: 0 <= i < j < |picks| ==> picks[i].environmentId != picks[j].environmentId
  }

  function ByHand(ids: seq<nat>): seq<Pick> {
    seq(|ids|, i requires 0 <= i < |ids| => Pick(ids[i], None))
  }

  function OfGroup(g: Group): seq<Pick> {
    seq(|g.members|, i requires 0 <= i < |g.members| => Pick(g.members[i], Some(g.id)))
  }

  /** Every environment a request names, hand-picked first, then group by group. */
  function Picks(ids: seq<nat>, groups: seq<Group>): seq<Pick> {
    if groups == [] then ByHand(ids) else Picks(ids, groups[..|groups| - 1]) + OfGroup(groups[|groups| - 1])
  }

  predicate DistinctGroups(groups: seq<Group>) {
    forall i, j :: 0 <= i < j < |groups| ==> groups[i].id != groups[j].id
  }

  predicate ValidSelection(ids: seq<nat>, groups: seq<Group>) {
    && DistinctGroups(groups)
    && (forall i :: 0 <= i < |groups| ==> groups[i].members != [])
    && Distinct(Picks(ids, groups))
    && Picks(ids, groups) != []
  }

  predicate AllKnown(s: Store, picks: seq<Pick>) {
    forall i :: 0 <= i < |picks| ==> picks[i].environmentId in s.environments
  }

  predicate AllBookable(s: Store, picks: seq<Pick>, end: int) {
    forall i :: 0 <= i < |picks| ==> Bookable(s, picks[i].environmentId, end)
  }

  function NewBookings(picks: seq<Pick>, requestId: nat, start: int, end: int, clock: nat): seq<Booking> {
    seq(|picks|, i requires 0 <= i < |picks| =>
      Booking(picks[i].environmentId, requestId, picks[i].groupId, start, end, false, clock))
  }

  /** `admitted` is the answer of the checks that do not concern dates. */
  function CreateRequest(
    s: Store, ids: seq<nat>, groups: seq<Group>, start: int, end: int, admitted: bool): Reply
  {
    var picks := Picks(ids, groups);
    if !ValidSelection(ids, groups) then Refused(400)
    else if !AllKnown(s, picks) then Refused(400)
    else if !AllBookable(s, picks, end) then Refused(409)
    else if !admitted then Refused(400)
    else Done(s.(
      requests := s.requests + [Request(start, end)],
      bookings := s.bookings + NewBookings(picks, |s.requests|, start, end, s.clock)))
  }

  const MAX_OCCURRENCES: nat := 100

  function Capped(dates: seq<int>): seq<int> {
    if |dates| <= MAX_OCCURRENCES then dates else dates[..MAX_OCCURRENCES]
  }

  function FurthestEnd(end: int, duration: int, dates: seq<int>): (m: int)
    ensures end <= m && forall i :: 0 <= i < |dates| ==> dates[i] + duration <= m
    ensures m == end || exists i :: 0 <= i < |dates| && m == dates[i] + duration
  {
    if dates == [] then end
    else Max(FurthestEnd(end, duration, dates[..|dates| - 1]), dates[|dates| - 1] + duration)
  }

  function Occurrences(
    environmentId: nat, requestId: nat, duration: int, dates: seq<int>, clock: nat): seq<Booking>
  {
    seq(|dates|, i requires 0 <= i < |dates| =>
      Booking(environmentId, requestId, None, dates[i], dates[i] + duration, false, clock))
  }

  /** The single-environment create, with the dates its recurrence rule yields. */
  function CreateBooking(s: Store, environmentId: nat, start: int, end: int, rule: seq<int>, admitted: bool): Reply {
    var dates := Capped(rule);
    var duration := end - start;
    if !Bookable(s, environmentId, FurthestEnd(end, duration, dates)) then Refused(409)
    else if !admitted || environmentId !in s.environments then Refused(409)
    else
      var requestId := |s.requests|;
      Done(s.(
        requests := s.requests + [Request(start, end)],
        bookings := s.bookings + [Booking(environmentId, requestId, None, start, end, false, s.clock)]
                    + Occurrences(environmentId, requestId, duration, dates, s.clock)))
  }

  predicate InRequest(b: Booking, requestId: nat) {
    b.requestId == requestId && !b.deleted
  }

  function AddEnvironment(s: Store, requestId: nat, environmentId: nat, start: Option<int>, end: Option<int>): Reply {
    if requestId >= |s.requests| then Refused(404)
    else if environmentId !in s.environments then Refused(404)
    else if exists i :: 0 <= i < |s.bookings| && InRequest(s.bookings[i], requestId)
                        && s.bookings[i].environmentId == environmentId then Refused(400)
    else
      var r := s.requests[requestId];
      if !Bookable(s, environmentId, Or(end, r.end)) then Refused(409)
      else Done(s.(bookings := s.bookings
             + [Booking(environmentId, requestId, None, Or(start, r.start), Or(end, r.end), false, s.clock)]))
  }

  function MoveBooking(b: Booking, start: Option<int>, end: Option<int>, clock: nat): Booking {
    b.(start := Or(start, b.start), end := Or(end, b.end), endWrittenAt := if end.Some? then clock else b.endWrittenAt)
  }

  function Cascade(bookings: seq<Booking>, requestId: nat, start: Option<int>, end: Option<int>, clock: nat): seq<Booking> {
    seq(|bookings|, i requires 0 <= i < |bookings| =>
      if InRequest(bookings[i], requestId) then MoveBooking(bookings[i], start, end, clock) else bookings[i])
  }

  /** The request-level edit of the dates, which every live booking of it follows. */
  function UpdateRequest(s: Store, requestId: nat, start: Option<int>, end: Option<int>, admitted: bool): Reply {
    if requestId >= |s.requests| then Refused(404)
    else if !admitted then Refused(400)
    else
      var r := s.requests[requestId];
      if (start.Some? || end.Some?)
         && exists i :: 0 <= i < |s.bookings| && InRequest(s.bookings[i], requestId)
                        && !Bookable(s, s.bookings[i].environmentId, Or(end, r.end))
      then Refused(409)
      else Done(s.(
        requests := s.requests[requestId := Request(Or(start, r.start), Or(end, r.end))],
        bookings := Cascade(s.bookings, requestId, start, end, s.clock)))
  }

  /** The edit of one booking's own dates. */
  function UpdateBooking(s: Store, id: nat, start: Option<int>, end: Option<int>, admitted: bool): Reply {
    if id >= |s.bookings| || s.bookings[id].deleted then Refused(404)
    else if !admitted then Refused(403)
    else
      var b := s.bookings[id];
      if (start.Some? || end.Some?) && !Bookable(s, b.environmentId, Or(end, b.end)) then Refused(409)
      else Done(s.(bookings := s.bookings[id := MoveBooking(b, start, end, s.clock)]))
  }

  function RemoveBooking(s: Store, id: nat, admitted: bool): Reply {
    if id >= |s.bookings| then Refused(404)
    else if !admitted then Refused(403)
    else Done(s.(bookings := s.bookings[id := s.bookings[id].(deleted := true)]))
  }

  // ----------------------------------------------------------------------- runs

  datatype Event =
    | InitiateEvent(environmentId: nat, allowed: bool, reason: string, scheduled: Option<int>, now: int)
    | RequestExtensionEvent(id: nat, allowed: bool, until: int, now: int)
    | DecideExtensionEvent(id: nat, allowed: bool, granted: bool, now: int)
    | SignStepEvent(id: nat, allowed: bool, key: string)
    | TearDownEvent(id: nat, allowed: bool, now: int)
    | CancelEvent(id: nat, allowed: bool, reason: string, now: int)
    | CreateRequestEvent(environmentIds: seq<nat>, groups: seq<Group>, start: int, end: int, admitted: bool)
    | CreateBookingEvent(environmentId: nat, start: int, end: int, rule: seq<int>, admitted: bool)
    | AddEnvironmentEvent(requestId: nat, environmentId: nat, from: Option<int>, until_: Option<int>)
    | UpdateRequestEvent(requestId: nat, from: Option<int>, until_: Option<int>, admitted: bool)
    | UpdateBookingEvent(id: nat, from: Option<int>, until_: Option<int>, admitted: bool)
    | RemoveBookingEvent(id: nat, admitted: bool)
    | SaveEnvironmentEvent(environmentId: nat, environment: Environment)
    | SavePolicyEvent(days: nat)
    | SaveStepsEvent(steps: map<string, ChecklistStep>)

  function Answer(s: Store, e: Event): Reply {
    match e
    case InitiateEvent(env, allowed, reason, scheduled, now) => Initiate(s, env, allowed, reason, scheduled, now)
    case RequestExtensionEvent(id, allowed, until, now) => RequestExtension(s, id, allowed, until, now)
    case DecideExtensionEvent(id, allowed, granted, now) => DecideExtension(s, id, allowed, granted, now)
    case SignStepEvent(id, allowed, key) => SignStep(s, id, allowed, key)
    case TearDownEvent(id, allowed, now) => TearDown(s, id, allowed, now)
    case CancelEvent(id, allowed, reason, now) => Cancel(s, id, allowed, reason, now)
    case CreateRequestEvent(ids, groups, start, end, admitted) => CreateRequest(s, ids, groups, start, end, admitted)
    case CreateBookingEvent(env, start, end, rule, admitted) => CreateBooking(s, env, start, end, rule, admitted)
    case AddEnvironmentEvent(req, env, start, end) => AddEnvironment(s, req, env, start, end)
    case UpdateRequestEvent(req, start, end, admitted) => UpdateRequest(s, req, start, end, admitted)
    case UpdateBookingEvent(id, start, end, admitted) => UpdateBooking(s, id, start, end, admitted)
    case RemoveBookingEvent(id, admitted) => RemoveBooking(s, id, admitted)
    case SaveEnvironmentEvent(env, environment) => Done(s.(environments := s.environments[env := environment]))
    case SavePolicyEvent(days) => Done(s.(noticeDays := days))
    case SaveStepsEvent(steps) => Done(s.(steps := steps))
  }

  function Step(s: Store, e: Event): Store {
    var a := Answer(s, e);
    var s' := if a.Done? then a.store else s;
    s'.(clock := s.clock + 1)
  }

  function Run(s: Store, es: seq<Event>): Store {
    if es == [] then s else Step(Run(s, es[..|es| - 1]), es[|es| - 1])
  }

  const EMPTY: Store := Store(map[], 5, map[], [], [], [], 0)
}
