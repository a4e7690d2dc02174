/** The estate's requests as they change the stored rows, each proved to leave the
    store that `Estate` describes. */
module EstateService {
  import opened Numbers
  import opened Options
  import opened Text
  import opened Decommission
  import opened Estate

  /** What was collected for the groups so far is a prefix of what is collected for
      all of them. */
  lemma {:induction false} PicksPrefix(ids: seq<nat>, groups: seq<Group>, k: nat)
    requires k <= |groups|
    ensures Picks(ids, groups[..k]) <= Picks(ids, groups)
    decreases |groups|
  {
    if k < |groups| {
      var front := groups[..|groups| - 1];
      PicksPrefix(ids, front, k);
      assert front[..k] == groups[..k];
    } else {
      assert groups[..k] == groups;
    }
  }

  lemma PicksOneMore(ids: seq<nat>, groups: seq<Group>, k: nat)
    requires k < |groups|
    ensures Picks(ids, groups[..k + 1]) == Picks(ids, groups[..k]) + OfGroup(groups[k])
  {
    assert groups[..k + 1][..k] == groups[..k];
  }

  ghost predicate Names(picks: seq<Pick>, environmentId: nat) {
    exists i :: 0 <= i < |picks| && picks[i].environmentId == environmentId
  }

  ghost predicate HasChild(bookings: seq<Booking>, requestId: nat, environmentId: nat) {
    exists i :: 0 <= i < |bookings| && InRequest(bookings[i], requestId) && bookings[i].environmentId == environmentId
  }

  lemma ChildrenOneMore(bookings: seq<Booking>, i: nat, requestId: nat, e: nat)
    requires i < |bookings|
    ensures HasChild(bookings[..i + 1], requestId, e)
      <==> HasChild(bookings[..i], requestId, e) || (InRequest(bookings[i], requestId) && bookings[i].environmentId == e)
  {
  }

  lemma NamesOneMore(picks: seq<Pick>, p: Pick, e: nat)
    ensures Names(picks + [p], e) <==> Names(picks, e) || p.environmentId == e
  {
    assert (picks + [p])[|picks|] == p;
    assert forall i :: 0 <= i < |picks| ==> (picks + [p])[i] == picks[i];
  }

  class Service {
    var environments: map<nat, Environment>
    var noticeDays: nat
    var steps: map<string, ChecklistStep>
    var records: seq<Record>
    var bookings: seq<Booking>
    var requests: seq<Request>
    var clock: nat

    function Contents(): Store
      reads this
    {
      Store(environments, noticeDays, steps, records, bookings, requests, clock)
    }

    // ------------------------------------------------------------- the date check

    /** Refuses a window that runs past the date of a live decommission of any of
        the environments, or any window on a decommissioned one. */
    method AssertBookable(picks: seq<Pick>, end: int) returns (ok: bool)
      ensures ok == AllBookable(Contents(), picks, end)
    {
      ok := true;
      for i := 0 to |picks|
        invariant ok == AllBookable(Contents(), picks[..i], end)
      {
        var e := picks[i].environmentId;
        if e in environments {
          if environments[e].status == Status.Decommissioned {
            ok := false;
          }
          var clear := CheckDates(e, end);
          ok := ok && clear;
        }
        assert picks[..i + 1] == picks[..i] + [picks[i]];
        assert AllBookable(Contents(), picks[..i + 1], end)
          <==> AllBookable(Contents(), picks[..i], end) && Bookable(Contents(), e, end) by {
          assert picks[..i + 1][i] == picks[i];
          assert forall k :: 0 <= k < i ==> picks[..i + 1][k] == picks[..i][k];
        }
      }
      assert picks[..|picks|] == picks;
    }

    method CheckDates(environmentId: nat, end: int) returns (clear: bool)
      ensures clear == Clear(records, environmentId, end)
    {
      clear := true;
      for i := 0 to |records|
        invariant clear == Clear(records[..i], environmentId, end)
      {
        if records[i].environmentId == environmentId && Live(records[i]) && records[i].teardown < end {
          clear := false;
          assert records[..i + 1][i] == records[i];
        }
      }
      assert records[..|records|] == records;
    }

    method AssertOneBookable(environmentId: nat, end: int) returns (ok: bool)
      ensures ok == Bookable(Contents(), environmentId, end)
    {
      var picks := [Pick(environmentId, None)];
      ok := AssertBookable(picks, end);
      assert picks[0].environmentId == environmentId;
    }

    // --------------------------------------------------------------- decommissions

    method InitiateDecommission(
      environmentId: nat, allowed: bool, reason: string, scheduled: Option<int>, now: int) returns (code: int)
      modifies this`records
      ensures match Initiate(old(Contents()), environmentId, allowed, reason, scheduled, now)
        case Done(s) => code == 200 && Contents() == s
        case Refused(c) => code == c && Contents() == old(Contents())
    {
      if environmentId !in environments || environments[environmentId].deleted { return 404; }
      if !allowed { return 403; }
      if Strip(reason) == [] { return 422; }
      if HasLive(records, environmentId) { return 409; }
      var earliest := now + noticeDays * DAY;
      var teardown := earliest;
      if scheduled.Some? {
        teardown := scheduled.value;
        if teardown < earliest { return 422; }
      }
      records := records + [Record(
        environmentId, now, teardown, None, None, None, None, None, None, {}, clock, noticeDays, teardown, {})];
      return 200;
    }

    method AskForExtension(id: nat, allowed: bool, until: int, now: int) returns (code: int)
      modifies this`records
      ensures match RequestExtension(old(Contents()), id, allowed, until, now)
        case Done(s) => code == 200 && Contents() == s
        case Refused(c) => code == c && Contents() == old(Contents())
    {
      if !Resolved(Contents(), id) { return 404; }
      if !allowed { return 403; }
      if !Live(records[id]) { return 409; }
      if records[id].extensionRequestedAt.Some? { return 409; }
      if until <= records[id].teardown { return 422; }
      records := records[id := records[id].(extensionRequestedAt := Some(now))];
      records := records[id := records[id].(extensionUntil := Some(until))];
      return 200;
    }

    method AnswerExtension(id: nat, allowed: bool, granted: bool, now: int) returns (code: int)
      modifies this`records
      ensures match DecideExtension(old(Contents()), id, allowed, granted, now)
        case Done(s) => code == 200 && Contents() == s
        case Refused(c) => code == c && Contents() == old(Contents())
    {
      if !Resolved(Contents(), id) { return 404; }
      if !allowed { return 403; }
      if !Live(records[id]) { return 409; }
      if records[id].extensionRequestedAt.None? || records[id].extensionDecidedAt.Some? { return 409; }
      records := records[id := records[id].(extensionDecidedAt := Some(now))];
      records := records[id := records[id].(extensionGranted := Some(granted))];
      if granted && records[id].extensionUntil.Some? {
        records := records[id := records[id].(teardown := records[id].extensionUntil.value)];
      }
      return 200;
    }

    method SignChecklistStep(id: nat, allowed: bool, key: string) returns (code: int)
      modifies this`records
      ensures match SignStep(old(Contents()), id, allowed, key)
        case Done(s) => code == 200 && Contents() == s
        case Refused(c) => code == c && Contents() == old(Contents())
    {
      if !Resolved(Contents(), id) { return 404; }
      if !allowed { return 403; }
      if !Live(records[id]) { return 409; }
      if key !in steps { return 422; }
      if key in records[id].signed { return 409; }
      records := records[id := records[id].(signed := records[id].signed + {key})];
      return 200;
    }

    method TearDownEnvironment(id: nat, allowed: bool, now: int) returns (code: int)
      modifies this`records, this`environments
      ensures match TearDown(old(Contents()), id, allowed, now)
        case Done(s) => code == 200 && Contents() == s
        case Refused(c) => code == c && Contents() == old(Contents())
    {
      if !Resolved(Contents(), id) { return 404; }
      if !allowed { return 403; }
      if !Live(records[id]) { return 409; }
      var required := set key | key in steps && steps[key].active && steps[key].required;
      assert required == RequiredSteps(steps);
      if !(required <= records[id].signed) { return 422; }
      var e := records[id].environmentId;
      records := records[id := records[id].(tornDownAt := Some(now), requiredThen := required)];
      environments := environments[e := environments[e].(status := Status.Decommissioned)];
      return 200;
    }

    method CancelDecommission(id: nat, allowed: bool, reason: string, now: int) returns (code: int)
      modifies this`records
      ensures match Cancel(old(Contents()), id, allowed, reason, now)
        case Done(s) => code == 200 && Contents() == s
        case Refused(c) => code == c && Contents() == old(Contents())
    {
      if !Resolved(Contents(), id) { return 404; }
      if !allowed { return 403; }
      if records[id].cancelledAt.Some? { return 409; }
      if Strip(reason) == [] { return 422; }
      records := records[id := records[id].(cancelledAt := Some(now))];
      return 200;
    }

    // --------------------------------------------------------------------- bookings

    /** Adds one group's members, refusing an environment already on the request. */
    method ExpandGroup(before: seq<Pick>, taken: set<nat>, g: Group) returns (ok: bool, picks: seq<Pick>, origin: set<nat>)
      requires Distinct(before)
      requires forall e :: e in taken <==> Names(before, e)
      ensures ok == Distinct(before + OfGroup(g))
      ensures ok ==> picks == before + OfGroup(g)
      ensures ok ==> forall e :: e in origin <==> Names(picks, e)
    {
      picks, origin := before, taken;
      ghost var all := before + OfGroup(g);
      for m := 0 to |g.members|
        invariant picks == before + OfGroup(g)[..m]
        invariant Distinct(picks)
        invariant forall e :: e in origin <==> Names(picks, e)
      {
        var e := g.members[m];
        if e in origin {
          ghost var i :| 0 <= i < |picks| && picks[i].environmentId == e;
          assert all[i] == picks[i] && all[|before| + m].environmentId == e;
          return false, picks, origin;
        }
        ghost var was := picks;
        origin := origin + {e};
        picks := picks + [Pick(e, Some(g.id))];
        assert picks == before + OfGroup(g)[..m + 1];
        forall x ensures x in origin <==> Names(picks, x) {
          NamesOneMore(was, Pick(e, Some(g.id)), x);
        }
      }
      assert picks == all;
      ok := true;
    }

    /** The expansion of a request's groups, one pass with the set of environments
        already taken. */
    method ExpandGroups(ids: seq<nat>, groups: seq<Group>) returns (ok: bool, picks: seq<Pick>)
      ensures ok == ValidSelection(ids, groups)
      ensures ok ==> picks == Picks(ids, groups)
    {
      picks := ByHand(ids);
      if !Distinct(picks) || !DistinctGroups(groups) {
        ghost var p := Picks(ids, groups[..0]);
        PicksPrefix(ids, groups, 0);
        return false, picks;
      }
      var origin := set i | 0 <= i < |ids| :: ids[i];
      assert forall i :: 0 <= i < |ids| ==> picks[i].environmentId == ids[i];
      for g := 0 to |groups|
        invariant picks == Picks(ids, groups[..g])
        invariant Distinct(picks)
        invariant forall e :: e in origin <==> Names(picks, e)
        invariant forall i :: 0 <= i < g ==> groups[i].members != []
      {
        if groups[g].members == [] {
          return false, picks;
        }
        PicksOneMore(ids, groups, g);
        PicksPrefix(ids, groups, g + 1);
        var fits;
        fits, picks, origin := ExpandGroup(picks, origin, groups[g]);
        if !fits {
          return false, picks;
        }
      }
      assert groups[..|groups|] == groups;
      ok := picks != [];
    }

    method CreateBookingRequest(
      ids: seq<nat>, groups: seq<Group>, start: int, end: int, admitted: bool) returns (code: int)
      modifies this`requests, this`bookings
      ensures match CreateRequest(old(Contents()), ids, groups, start, end, admitted)
        case Done(s) => code == 200 && Contents() == s
        case Refused(c) => code == c && Contents() == old(Contents())
    {
      var valid, picks := ExpandGroups(ids, groups);
      if !valid { return 400; }
      if exists i :: 0 <= i < |picks| && picks[i].environmentId !in environments { return 400; }
      var ok := AssertBookable(picks, end);
      if !ok { return 409; }
      if !admitted { return 400; }
      var requestId := |requests|;
      requests := requests + [Request(start, end)];
      for i := 0 to |picks|
        invariant bookings == old(bookings) + NewBookings(picks, requestId, start, end, clock)[..i]
        invariant requests == old(requests) + [Request(start, end)]
      {
        bookings := bookings
          + [Booking(picks[i].environmentId, requestId, picks[i].groupId, start, end, false, clock)];
      }
      return 200;
    }

    method Furthest(end: int, duration: int, dates: seq<int>) returns (furthest: int)
      ensures furthest == FurthestEnd(end, duration, dates)
    {
      furthest := end;
      for i := 0 to |dates|
        invariant furthest == FurthestEnd(end, duration, dates[..i])
      {
        assert dates[..i + 1][..i] == dates[..i];
        furthest := Max(furthest, dates[i] + duration);
      }
      assert dates[..|dates|] == dates;
    }

    method AddOccurrences(environmentId: nat, requestId: nat, duration: int, dates: seq<int>)
      modifies this`bookings
      ensures bookings == old(bookings) + Occurrences(environmentId, requestId, duration, dates, clock)
    {
      ghost var all := Occurrences(environmentId, requestId, duration, dates, clock);
      for i := 0 to |dates|
        invariant bookings == old(bookings) + all[..i]
      {
        bookings := bookings
          + [Booking(environmentId, requestId, None, dates[i], dates[i] + duration, false, clock)];
      }
    }

    method CreateSingleBooking(
      environmentId: nat, start: int, end: int, rule: seq<int>, admitted: bool) returns (code: int)
      modifies this`requests, this`bookings
      ensures match CreateBooking(old(Contents()), environmentId, start, end, rule, admitted)
        case Done(s) => code == 200 && Contents() == s
        case Refused(c) => code == c && Contents() == old(Contents())
    {
      var dates := Capped(rule);
      var duration := end - start;
      var furthest := Furthest(end, duration, dates);
      var ok := AssertOneBookable(environmentId, furthest);
      if !ok { return 409; }
      if !admitted || environmentId !in environments { return 409; }
      var requestId := |requests|;
      requests := requests + [Request(start, end)];
      bookings := bookings + [Booking(environmentId, requestId, None, start, end, false, clock)];
      AddOccurrences(environmentId, requestId, duration, dates);
      return 200;
    }

    method AddToRequest(requestId: nat, environmentId: nat, start: Option<int>, end: Option<int>) returns (code: int)
      modifies this`bookings
      ensures match AddEnvironment(old(Contents()), requestId, environmentId, start, end)
        case Done(s) => code == 200 && Contents() == s
        case Refused(c) => code == c && Contents() == old(Contents())
    {
      if requestId >= |requests| { return 404; }
      if environmentId !in environments { return 404; }
      if exists i :: 0 <= i < |bookings| && InRequest(bookings[i], requestId)
                     && bookings[i].environmentId == environmentId { return 400; }
      var r := requests[requestId];
      var ok := AssertOneBookable(environmentId, Or(end, r.end));
      if !ok { return 409; }
      bookings := bookings + [Booking(environmentId, requestId, None, Or(start, r.start), Or(end, r.end), false, clock)];
      return 200;
    }

    /** The live bookings of a request, as the date check wants them. */
    method ChildrenOf(requestId: nat) returns (picks: seq<Pick>)
      ensures forall e :: Names(picks, e) <==> HasChild(bookings, requestId, e)
    {
      picks := [];
      for i := 0 to |bookings|
        invariant forall e :: Names(picks, e) <==> HasChild(bookings[..i], requestId, e)
      {
        ghost var was := picks;
        if InRequest(bookings[i], requestId) {
          picks := picks + [Pick(bookings[i].environmentId, bookings[i].groupId)];
        }
        forall e ensures Names(picks, e) <==> HasChild(bookings[..i + 1], requestId, e) {
          ChildrenOneMore(bookings, i, requestId, e);
          NamesOneMore(was, Pick(bookings[i].environmentId, bookings[i].groupId), e);
        }
      }
      assert bookings[..|bookings|] == bookings;
    }

    method UpdateRequestDates(requestId: nat, start: Option<int>, end: Option<int>, admitted: bool) returns (code: int)
      modifies this`requests, this`bookings
      ensures match UpdateRequest(old(Contents()), requestId, start, end, admitted)
        case Done(s) => code == 200 && Contents() == s
        case Refused(c) => code == c && Contents() == old(Contents())
    {
      if requestId >= |requests| { return 404; }
      if !admitted { return 400; }
      var r := requests[requestId];
      if start.Some? || end.Some? {
        var children := ChildrenOf(requestId);
        var ok := AssertBookable(children, Or(end, r.end));
        if !ok {
          ghost var k :| 0 <= k < |children| && !Bookable(Contents(), children[k].environmentId, Or(end, r.end));
          assert Names(children, children[k].environmentId);
          assert HasChild(bookings, requestId, children[k].environmentId);
          return 409;
        }
        forall i | 0 <= i < |bookings| && InRequest(bookings[i], requestId)
          ensures Bookable(Contents(), bookings[i].environmentId, Or(end, r.end))
        {
          assert HasChild(bookings, requestId, bookings[i].environmentId);
          assert Names(children, bookings[i].environmentId);
        }
      }
      requests := requests[requestId := Request(Or(start, r.start), Or(end, r.end))];
      CascadeDates(requestId, start, end);
      return 200;
    }

    method CascadeDates(requestId: nat, start: Option<int>, end: Option<int>)
      modifies this`bookings
      ensures bookings == Cascade(old(bookings), requestId, start, end, clock)
    {
      ghost var target := Cascade(bookings, requestId, start, end, clock);
      for i := 0 to |bookings|
        invariant |bookings| == |old(bookings)|
        invariant forall k :: 0 <= k < i ==> bookings[k] == target[k]
        invariant forall k :: i <= k < |bookings| ==> bookings[k] == old(bookings)[k]
      {
        if InRequest(bookings[i], requestId) {
          bookings := bookings[i := MoveBooking(bookings[i], start, end, clock)];
        }
      }
    }

    method UpdateBookingDates(id: nat, start: Option<int>, end: Option<int>, admitted: bool) returns (code: int)
      modifies this`bookings
      ensures match UpdateBooking(old(Contents()), id, start, end, admitted)
        case Done(s) => code == 200 && Contents() == s
        case Refused(c) => code == c && Contents() == old(Contents())
    {
      if id >= |bookings| || bookings[id].deleted { return 404; }
      if !admitted { return 403; }
      if start.Some? || end.Some? {
        var ok := AssertOneBookable(bookings[id].environmentId, Or(end, bookings[id].end));
        if !ok { return 409; }
      }
      if start.Some? {
        bookings := bookings[id := bookings[id].(start := start.value)];
      }
      if end.Some? {
        bookings := bookings[id := bookings[id].(end := end.value, endWrittenAt := clock)];
      }
      return 200;
    }
  }
}
