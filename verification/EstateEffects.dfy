/** What each request of the estate does, request by request: when it is accepted, with
    which code it is refused, and every row it leaves different. */
module EstateEffects {
  import opened Numbers
  import opened Options
  import opened Text
  import opened Sorting
  import opened Decommission
  import opened Estate

  /** Some character that is not white space. */
  predicate SomethingSaid(s: string) {
    exists i :: 0 <= i < |s| && !IsSpace(s[i])
  }

  lemma {:induction false} BlankExactly(s: string)
    ensures Strip(s) == [] <==> !SomethingSaid(s)
    decreases |s|
  {
    if s != [] {
      if IsSpace(s[0]) {
        BlankExactly(s[1..]);
        assert forall i :: 1 <= i < |s| ==> s[i] == s[1..][i - 1];
      } else {
        StripKeepsFirst(s);
        assert !IsSpace(s[0]);
      }
    }
  }

  lemma {:induction false} StripKeepsFirst(s: string)
    requires s != [] && !IsSpace(s[0])
    ensures Strip(s) != []
    decreases |s|
  {
    if IsSpace(s[|s| - 1]) {
      StripKeepsFirst(s[..|s| - 1]);
    }
  }

  predicate There(s: Store, environmentId: nat) {
    environmentId in s.environments && !s.environments[environmentId].deleted
  }

  predicate Underway(r: Record) {
    r.cancelledAt.None? && r.tornDownAt.None?
  }

  predicate SomeUnderway(s: Store, environmentId: nat) {
    exists i :: 0 <= i < |s.records| && s.records[i].environmentId == environmentId && Underway(s.records[i])
  }

  // --------------------------------------------------------------- decommissions

  /** The date asked for, or the end of the notice. */
  predicate DateFor(s: Store, scheduled: Option<int>, now: int, teardown: int) {
    match scheduled
    case None => teardown == now + s.noticeDays * 86_400_000_000
    case Some(date) => teardown == date && now + s.noticeDays * 86_400_000_000 <= date
  }

  /** A decommission is started exactly for an environment that is there, by one who may, with
      a reason, when none is under way, and for no date within the notice; one record is added
      and nothing else changes. */
  lemma InitiateExactly(s: Store, e: nat, allowed: bool, reason: string, scheduled: Option<int>, now: int)
    ensures var a := Initiate(s, e, allowed, reason, scheduled, now);
      && (a == Refused(404) <==> !There(s, e))
      && (a == Refused(403) <==> There(s, e) && !allowed)
      && (a == Refused(409) <==> There(s, e) && allowed && SomethingSaid(reason) && SomeUnderway(s, e))
      && (a == Refused(422) <==> (There(s, e) && allowed && (!SomethingSaid(reason)
        || (!SomeUnderway(s, e) && scheduled.Some? && scheduled.value < now + s.noticeDays * 86_400_000_000))))
      && (a.Done? <==> (There(s, e) && allowed && SomethingSaid(reason) && !SomeUnderway(s, e)
        && (scheduled.Some? ==> now + s.noticeDays * 86_400_000_000 <= scheduled.value)))
      && (a.Done? ==> Started(s, a.store, e, scheduled, now))
  {
    BlankExactly(reason);
  }

  ghost predicate Started(s: Store, s': Store, e: nat, scheduled: Option<int>, now: int) {
    && s' == s.(records := s'.records) && |s'.records| == |s.records| + 1
    && (forall i :: 0 <= i < |s.records| ==> s'.records[i] == s.records[i])
    && var r := s'.records[|s.records|];
      && r.environmentId == e && r.warnedAt == now && DateFor(s, scheduled, now, r.teardown) && Underway(r)
      && r.extensionRequestedAt.None? && r.extensionUntil.None? && r.extensionDecidedAt.None?
      && r.extensionGranted.None? && r.signed == {}
  }

  /** One record is rewritten as `r` and nothing else changes. */
  predicate Rewrites(s: Store, s': Store, id: nat, r: Record) {
    id < |s.records| && s' == s.(records := s.records[id := r])
  }

  predicate Found(s: Store, id: nat) {
    id < |s.records| && There(s, s.records[id].environmentId)
  }

  /** An extension is asked for once for each record, while it is under way, to a later date;
      the asking is recorded, and nothing moves. */
  lemma RequestExtensionExactly(s: Store, id: nat, allowed: bool, until: int, now: int)
    ensures var a := RequestExtension(s, id, allowed, until, now);
      && (a == Refused(404) <==> !Found(s, id))
      && (a == Refused(403) <==> Found(s, id) && !allowed)
      && (a == Refused(409) <==> (Found(s, id) && allowed
        && (!Underway(s.records[id]) || s.records[id].extensionRequestedAt.Some?)))
      && (a == Refused(422) <==> (Found(s, id) && allowed && Underway(s.records[id])
        && s.records[id].extensionRequestedAt.None? && until <= s.records[id].teardown))
      && (a.Done? <==> (Found(s, id) && allowed && Underway(s.records[id])
        && s.records[id].extensionRequestedAt.None? && s.records[id].teardown < until))
      && (a.Done? ==> Rewrites(s, a.store, id,
        s.records[id].(extensionRequestedAt := Some(now), extensionUntil := Some(until))))
  {
  }

  /** A decision is made once, on a request of a record under way; a grant moves the date to
      the one asked for, and a refusal moves nothing. */
  lemma DecideExtensionExactly(s: Store, id: nat, allowed: bool, granted: bool, now: int)
    requires id < |s.records| && s.records[id].extensionRequestedAt.Some? ==> s.records[id].extensionUntil.Some?
    ensures var a := DecideExtension(s, id, allowed, granted, now);
      && (a == Refused(404) <==> !Found(s, id))
      && (a == Refused(403) <==> Found(s, id) && !allowed)
      && (a.Done? <==> (Found(s, id) && allowed && Underway(s.records[id])
        && s.records[id].extensionRequestedAt.Some? && s.records[id].extensionDecidedAt.None?))
      && (a == Refused(409) <==> Found(s, id) && allowed && !a.Done?)
      && (a.Done? && granted ==> Rewrites(s, a.store, id, s.records[id].(
        extensionDecidedAt := Some(now), extensionGranted := Some(true),
        teardown := s.records[id].extensionUntil.value)))
      && (a.Done? && !granted ==> Rewrites(s, a.store, id, s.records[id].(
        extensionDecidedAt := Some(now), extensionGranted := Some(false))))
  {
  }

  /** A step the tenant has, active or retired, is signed once on a record under way. */
  lemma SignStepExactly(s: Store, id: nat, allowed: bool, key: string)
    ensures var a := SignStep(s, id, allowed, key);
      && (a == Refused(404) <==> !Found(s, id))
      && (a == Refused(403) <==> Found(s, id) && !allowed)
      && (a == Refused(422) <==> Found(s, id) && allowed && Underway(s.records[id]) && key !in s.steps)
      && (a == Refused(409) <==> (Found(s, id) && allowed
        && (!Underway(s.records[id]) || (key in s.steps && key in s.records[id].signed))))
      && (a.Done? <==> (Found(s, id) && allowed && Underway(s.records[id]) && key in s.steps
        && key !in s.records[id].signed))
      && (a.Done? ==> Rewrites(s, a.store, id, s.records[id].(signed := s.records[id].signed + {key})))
  {
  }

  /** Every step that is active and required has been signed. */
  predicate AllSigned(s: Store, id: nat)
    requires id < |s.records|
  {
    forall key :: key in s.steps && s.steps[key].active && s.steps[key].required ==> key in s.records[id].signed
  }

  /** A teardown goes ahead exactly on a record under way with every active required step
      signed; the record is torn down, its environment decommissioned, and nothing else
      changes. */
  lemma TearDownExactly(s: Store, id: nat, allowed: bool, now: int)
    ensures var a := TearDown(s, id, allowed, now);
      && (a == Refused(404) <==> !Found(s, id))
      && (a == Refused(403) <==> Found(s, id) && !allowed)
      && (a == Refused(409) <==> Found(s, id) && allowed && !Underway(s.records[id]))
      && (a == Refused(422) <==> Found(s, id) && allowed && Underway(s.records[id]) && !AllSigned(s, id))
      && (a.Done? <==> Found(s, id) && allowed && Underway(s.records[id]) && AllSigned(s, id))
      && (a.Done? ==> TornDownNow(s, a.store, id, now))
  {
  }

  ghost predicate TornDownNow(s: Store, s': Store, id: nat, now: int)
    requires id < |s.records| && s.records[id].environmentId in s.environments
  {
    var e := s.records[id].environmentId;
    && s' == s.(records := s'.records, environments := s'.environments) && |s'.records| == |s.records|
    && (forall i :: 0 <= i < |s.records| && i != id ==> s'.records[i] == s.records[i])
    && s'.records[id] == s.records[id].(tornDownAt := Some(now), requiredThen := s'.records[id].requiredThen)
    && s'.environments == s.environments[e := Environment(Decommissioned, s.environments[e].deleted)]
  }

  /** A cancellation needs a reason, and a record that is not cancelled yet; it is recorded
      and nothing else changes. */
  lemma CancelExactly(s: Store, id: nat, allowed: bool, reason: string, now: int)
    ensures var a := Cancel(s, id, allowed, reason, now);
      && (a == Refused(404) <==> !Found(s, id))
      && (a == Refused(403) <==> Found(s, id) && !allowed)
      && (a == Refused(409) <==> Found(s, id) && allowed && s.records[id].cancelledAt.Some?)
      && (a == Refused(422) <==> Found(s, id) && allowed && s.records[id].cancelledAt.None? && !SomethingSaid(reason))
      && (a.Done? <==> Found(s, id) && allowed && s.records[id].cancelledAt.None? && SomethingSaid(reason))
      && (a.Done? ==> Rewrites(s, a.store, id, s.records[id].(cancelledAt := Some(now))))
  {
    BlankExactly(reason);
  }

  // -------------------------------------------------------------------- bookings

  /** What refuses a window that ends at `end`: an environment already decommissioned, or a
      decommission of it under way with an earlier date. */
  predicate Blocked(s: Store, e: nat, end: int) {
    e in s.environments && (s.environments[e].status == Decommissioned || SomeEarlier(s, e, end))
  }

  predicate SomeEarlier(s: Store, e: nat, end: int) {
    exists i :: 0 <= i < |s.records| && s.records[i].environmentId == e && Underway(s.records[i])
      && s.records[i].teardown < end
  }

  lemma BookableExactly(s: Store, e: nat, end: int)
    ensures Bookable(s, e, end) <==> !Blocked(s, e, end)
  {
  }

  /** The environments of a request: those picked by hand, then each group's members, with
      the group they came from. */
  lemma {:induction false} PicksExactly(ids: seq<nat>, groups: seq<Group>, p: Pick)
    ensures p in Picks(ids, groups) <==> (p.groupId.None? && p.environmentId in ids) || PickedByGroup(groups, p)
  {
    hide ByHand, OfGroup, PickedByGroup;
    PickedByLast(groups, p);
    if groups == [] {
      HandPicked(ids, p);
    } else {
      var n := |groups| - 1;
      PicksExactly(ids, groups[..n], p);
      GroupPicked(groups[n], p);
      assert Picks(ids, groups) == Picks(ids, groups[..n]) + OfGroup(groups[n]);
    }
  }

  /** Some group of those selected has the environment among its members. */
  predicate PickedByGroup(groups: seq<Group>, p: Pick) {
    exists g :: 0 <= g < |groups| && p.groupId == Some(groups[g].id) && p.environmentId in groups[g].members
  }

  lemma PickedByLast(groups: seq<Group>, p: Pick)
    ensures groups == [] ==> !PickedByGroup(groups, p)
    ensures groups != [] ==>
      var n := |groups| - 1;
      PickedByGroup(groups, p) <==>
        PickedByGroup(groups[..n], p) || (p.groupId == Some(groups[n].id) && p.environmentId in groups[n].members)
  {
    if groups != [] {
      assert forall g :: 0 <= g < |groups| - 1 ==> groups[..|groups| - 1][g] == groups[g];
    }
  }

  lemma HandPicked(ids: seq<nat>, p: Pick)
    ensures p in ByHand(ids) <==> p.groupId.None? && p.environmentId in ids
  {
    if p.groupId.None? && p.environmentId in ids {
      var i :| 0 <= i < |ids| && ids[i] == p.environmentId;
      assert ByHand(ids)[i] == p;
    }
  }

  lemma GroupPicked(g: Group, p: Pick)
    ensures p in OfGroup(g) <==> p.groupId == Some(g.id) && p.environmentId in g.members
  {
    if p.groupId == Some(g.id) && p.environmentId in g.members {
      var i :| 0 <= i < |g.members| && g.members[i] == p.environmentId;
      assert OfGroup(g)[i] == p;
    }
  }

  function Environments(picks: seq<Pick>): (ids: seq<nat>)
    ensures |ids| == |picks| && forall i :: 0 <= i < |picks| ==> ids[i] == picks[i].environmentId
  {
    if picks == [] then [] else Environments(picks[..|picks| - 1]) + [picks[|picks| - 1].environmentId]
  }

  lemma {:induction false} EnvironmentsJoin(a: seq<Pick>, b: seq<Pick>)
    ensures Environments(a + b) == Environments(a) + Environments(b)
  {
  }

  /** How often the groups have an environment among their members. */
  function TimesIn(groups: seq<Group>, e: nat): nat {
    if groups == [] then 0
    else TimesIn(groups[..|groups| - 1], e) + multiset(groups[|groups| - 1].members)[e]
  }

  lemma PickedOf(ids: seq<nat>, g: Group)
    ensures Environments(ByHand(ids)) == ids && Environments(OfGroup(g)) == g.members
  {
  }

  lemma {:induction false} TimesPicked(ids: seq<nat>, groups: seq<Group>, e: nat)
    ensures multiset(Environments(Picks(ids, groups)))[e] == multiset(ids)[e] + TimesIn(groups, e)
  {
    hide Environments, ByHand, OfGroup;
    if groups == [] {
      PickedOf(ids, Group(0, []));
    } else {
      var front, g := groups[..|groups| - 1], groups[|groups| - 1];
      TimesPicked(ids, front, e);
      EnvironmentsJoin(Picks(ids, front), OfGroup(g));
      PickedOf(ids, g);
    }
  }

  lemma {:induction false} NothingPicked(ids: seq<nat>, groups: seq<Group>)
    ensures Picks(ids, groups) == [] <==> ids == [] && forall g :: 0 <= g < |groups| ==> groups[g].members == []
  {
    if groups != [] {
      NothingPicked(ids, groups[..|groups| - 1]);
    }
  }

  lemma {:induction false} OnceExactly(s: seq<nat>)
    ensures NoRepeats(s) <==> forall e: nat :: multiset(s)[e] <= 1
  {
    if NoRepeats(s) {
      forall e: nat ensures multiset(s)[e] <= 1 {
        CountsOnce(s, e);
      }
    }
    if forall e: nat :: multiset(s)[e] <= 1 {
      forall i, j | 0 <= i < j < |s| ensures s[i] != s[j] {
        if s[i] == s[j] {
          Twice(s, i, j);
        }
      }
    }
  }

  lemma Twice(s: seq<nat>, i: nat, j: nat)
    requires i < j < |s| && s[i] == s[j]
    ensures multiset(s)[s[j]] >= 2
  {
    assert s == s[..j] + [s[j]] + s[j + 1..];
    assert s[..j][i] in multiset(s[..j]);
  }

  lemma PickedOnceExactly(ids: seq<nat>, groups: seq<Group>)
    ensures Distinct(Picks(ids, groups)) <==> forall e: nat :: multiset(ids)[e] + TimesIn(groups, e) <= 1
  {
    var picks := Picks(ids, groups);
    assert Distinct(picks) <==> NoRepeats(Environments(picks));
    hide Distinct, NoRepeats, Picks, TimesIn, Environments;
    OnceExactly(Environments(picks));
    forall e: nat
      ensures multiset(Environments(picks))[e] == multiset(ids)[e] + TimesIn(groups, e)
    {
      TimesPicked(ids, groups, e);
    }
  }

  /** A selection is valid exactly when no group is named twice, no group named is empty,
      something is named, and no environment is named twice, by hand or through a group. */
  lemma ValidSelectionExactly(ids: seq<nat>, groups: seq<Group>)
    ensures ValidSelection(ids, groups) <==>
      && (forall i, j :: 0 <= i < j < |groups| ==> groups[i].id != groups[j].id)
      && (forall g :: 0 <= g < |groups| ==> groups[g].members != [])
      && (ids != [] || groups != [])
      && forall e: nat :: multiset(ids)[e] + TimesIn(groups, e) <= 1
  {
    hide Picks, TimesIn, Distinct;
    PickedOnceExactly(ids, groups);
    NothingPicked(ids, groups);
    if groups != [] && groups[0].members != [] {
      assert Picks(ids, groups) != [];
    }
  }

  /** `s'` has the bookings of `s`, and after them `n` more. */
  predicate Appends(s: Store, s': Store, n: nat) {
    |s'.bookings| == |s.bookings| + n && forall i :: 0 <= i < |s.bookings| ==> s'.bookings[i] == s.bookings[i]
  }

  /** A request is accepted exactly when its selection is valid, its environments are there,
      none is blocked to the end of the window and the other checks pass; it is stored with
      one booking for each pick, on the pick's environment, for the whole window. */
  lemma CreateRequestExactly(s: Store, ids: seq<nat>, groups: seq<Group>, start: int, end: int, admitted: bool)
    ensures var a, picks := CreateRequest(s, ids, groups, start, end, admitted), Picks(ids, groups);
      && (a.Done? <==> (ValidSelection(ids, groups) && admitted
        && forall i :: 0 <= i < |picks| ==>
          picks[i].environmentId in s.environments && !Blocked(s, picks[i].environmentId, end)))
      && (a.Done? ==> Requested(s, a.store, picks, start, end))
  {
  }

  ghost predicate Requested(s: Store, s': Store, picks: seq<Pick>, start: int, end: int) {
    && s' == s.(requests := s.requests + [Request(start, end)], bookings := s'.bookings)
    && Appends(s, s', |picks|)
    && forall k :: 0 <= k < |picks| ==>
      s'.bookings[|s.bookings| + k]
        == Booking(picks[k].environmentId, |s.requests|, picks[k].groupId, start, end, false, s.clock)
  }

  /** A single create stores a request, a booking for the window, and one as long for each of
      the first hundred dates of its rule; it is accepted exactly when the environment is
      there and not blocked to the end of any of them, and the other checks pass. */
  lemma CreateBookingExactly(s: Store, e: nat, start: int, end: int, rule: seq<int>, admitted: bool)
    ensures var a, n := CreateBooking(s, e, start, end, rule, admitted), if |rule| <= 100 then |rule| else 100;
      && (a.Done? <==> (e in s.environments && admitted && !Blocked(s, e, end)
        && forall k :: 0 <= k < n ==> !Blocked(s, e, rule[k] + (end - start))))
      && (a.Done? ==> CreatedSeries(s, a.store, e, start, end, rule, n))
  {
    hide Bookable, Blocked, CreatedSeries;
    FurthestExactly(s, e, end, end - start, Capped(rule));
    if CreateBooking(s, e, start, end, rule, admitted).Done? {
      SeriesCreated(s, e, start, end, rule, admitted);
    }
  }

  /** What is bookable to the furthest end is bookable to each. */
  lemma FurthestExactly(s: Store, e: nat, end: int, duration: int, dates: seq<int>)
    ensures Bookable(s, e, FurthestEnd(end, duration, dates)) <==>
      (e in s.environments ==> !Blocked(s, e, end) && forall k :: 0 <= k < |dates| ==> !Blocked(s, e, dates[k] + duration))
  {
    var m := FurthestEnd(end, duration, dates);
    assert forall d :: d <= m && !Blocked(s, e, m) ==> !Blocked(s, e, d);
  }

  lemma SeriesCreated(s: Store, e: nat, start: int, end: int, rule: seq<int>, admitted: bool)
    requires CreateBooking(s, e, start, end, rule, admitted).Done?
    ensures CreatedSeries(
      s, CreateBooking(s, e, start, end, rule, admitted).store, e, start, end, rule, if |rule| <= 100 then |rule| else 100)
  {
    hide Occurrences, CreateBooking;
    var dates, first := Capped(rule), Booking(e, |s.requests|, None, start, end, false, s.clock);
    SeriesStored(s, e, start, end, rule, admitted);
    OccurrencesAt(e, |s.requests|, end - start, dates, s.clock);
    OnTop(s.bookings, first, Occurrences(e, |s.requests|, end - start, dates, s.clock));
  }

  lemma SeriesStored(s: Store, e: nat, start: int, end: int, rule: seq<int>, admitted: bool)
    requires CreateBooking(s, e, start, end, rule, admitted).Done?
    ensures CreateBooking(s, e, start, end, rule, admitted).store == s.(
      requests := s.requests + [Request(start, end)],
      bookings := s.bookings + [Booking(e, |s.requests|, None, start, end, false, s.clock)]
                  + Occurrences(e, |s.requests|, end - start, Capped(rule), s.clock))
  {
    hide Occurrences, Capped, Bookable, FurthestEnd;
  }

  lemma OccurrencesAt(e: nat, requestId: nat, duration: int, dates: seq<int>, clock: nat)
    ensures var more := Occurrences(e, requestId, duration, dates, clock);
      |more| == |dates| && forall k :: 0 <= k < |dates| ==>
        more[k] == Booking(e, requestId, None, dates[k], dates[k] + duration, false, clock)
  {
  }

  lemma OnTop<T>(a: seq<T>, x: T, b: seq<T>)
    ensures var s := a + [x] + b;
      && |s| == |a| + 1 + |b| && s[|a|] == x
      && (forall i :: 0 <= i < |a| ==> s[i] == a[i])
      && (forall k :: 0 <= k < |b| ==> s[|a| + 1 + k] == b[k])
  {
  }

  ghost predicate CreatedSeries(s: Store, s': Store, e: nat, start: int, end: int, rule: seq<int>, n: nat)
    requires n <= |rule|
  {
    && s' == s.(requests := s.requests + [Request(start, end)], bookings := s'.bookings)
    && Appends(s, s', n + 1)
    && s'.bookings[|s.bookings|] == Booking(e, |s.requests|, None, start, end, false, s.clock)
    && forall k :: 0 <= k < n ==>
      s'.bookings[|s.bookings| + 1 + k]
        == Booking(e, |s.requests|, None, rule[k], rule[k] + (end - start), false, s.clock)
  }

  predicate OnRequest(s: Store, requestId: nat, e: nat) {
    exists i :: 0 <= i < |s.bookings| && s.bookings[i].requestId == requestId && !s.bookings[i].deleted
      && s.bookings[i].environmentId == e
  }

  function Given(date: Option<int>, otherwise: int): int {
    match date
    case None => otherwise
    case Some(d) => d
  }

  /** An environment is added once to a request, with the dates given or the request's. */
  lemma AddEnvironmentExactly(s: Store, id: nat, e: nat, start: Option<int>, end: Option<int>)
    ensures var a := AddEnvironment(s, id, e, start, end);
      && (a.Done? <==> (id < |s.requests| && e in s.environments && !OnRequest(s, id, e)
        && !Blocked(s, e, Given(end, s.requests[id].end))))
      && (a.Done? ==> a.store == s.(bookings := s.bookings + [Booking(
        e, id, None, Given(start, s.requests[id].start), Given(end, s.requests[id].end), false, s.clock)]))
  {
  }

  /** The dates of a request are changed exactly when no live booking of it would be blocked;
      the dates given, and no others, are then those of the request and of its live bookings. */
  lemma UpdateRequestExactly(s: Store, id: nat, start: Option<int>, end: Option<int>, admitted: bool)
    ensures var a := UpdateRequest(s, id, start, end, admitted);
      && (a.Done? <==> id < |s.requests| && admitted && (start.Some? || end.Some? ==>
        forall i :: 0 <= i < |s.bookings| && s.bookings[i].requestId == id && !s.bookings[i].deleted ==>
          !Blocked(s, s.bookings[i].environmentId, Given(end, s.requests[id].end))))
      && (a.Done? ==> Rescheduled(s, a.store, id, start, end))
  {
  }

  ghost predicate Rescheduled(s: Store, s': Store, id: nat, start: Option<int>, end: Option<int>)
    requires id < |s.requests|
  {
    && s' == s.(requests := s'.requests, bookings := s'.bookings)
    && s'.requests == s.requests[id := Request(Given(start, s.requests[id].start), Given(end, s.requests[id].end))]
    && |s'.bookings| == |s.bookings|
    && forall i :: 0 <= i < |s.bookings| ==>
      if s.bookings[i].requestId == id && !s.bookings[i].deleted
      then Moved(s, s.bookings[i], s'.bookings[i], start, end) else s'.bookings[i] == s.bookings[i]
  }

  /** The dates given, and no others, are taken over. */
  predicate Moved(s: Store, b: Booking, b': Booking, start: Option<int>, end: Option<int>) {
    && b'.environmentId == b.environmentId && b'.requestId == b.requestId && b'.groupId == b.groupId
    && b'.deleted == b.deleted && b'.start == Given(start, b.start) && b'.end == Given(end, b.end)
    && b'.endWrittenAt == (if end.Some? then s.clock else b.endWrittenAt)
  }

  /** One booking's own dates are changed exactly when it would not be blocked. */
  lemma UpdateBookingExactly(s: Store, id: nat, start: Option<int>, end: Option<int>, admitted: bool)
    ensures var a := UpdateBooking(s, id, start, end, admitted);
      && (a.Done? <==> (id < |s.bookings| && !s.bookings[id].deleted && admitted
        && (start.Some? || end.Some? ==> !Blocked(s, s.bookings[id].environmentId, Given(end, s.bookings[id].end)))))
      && (a.Done? ==> (a.store == s.(bookings := a.store.bookings) && |a.store.bookings| == |s.bookings|
        && Moved(s, s.bookings[id], a.store.bookings[id], start, end)
        && forall i :: 0 <= i < |s.bookings| && i != id ==> a.store.bookings[i] == s.bookings[i]))
  {
  }

  /** Removing a booking marks it deleted and changes nothing else. */
  lemma RemoveBookingExactly(s: Store, id: nat, admitted: bool)
    ensures var a := RemoveBooking(s, id, admitted);
      && (a.Done? <==> id < |s.bookings| && admitted)
      && (a.Done? ==> a.store == s.(bookings := s.bookings[id := s.bookings[id].(deleted := true)]))
  {
  }
}
