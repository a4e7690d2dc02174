/** The contention state of each booking on a page, folded over its clashes. */
module Forecast {
  import opened Options
  import opened Sorting
  import opened Conflicts
  import opened Contention

  datatype State = Unowned | Owned | Decided

  function Precedence(s: State): int {
    match s
    case Unowned => 0
    case Owned => 1
    case Decided => 2
  }

  function MoreActionable(current: Option<State>, candidate: State): State {
    if current.None? || Precedence(candidate) < Precedence(current.value) then candidate else current.value
  }

  function PairState(escalations: map<(int, int), Escalation>, p: (int, int), now: int): State {
    if p !in escalations then Unowned
    else if StandingOf(escalations[p], now) == Answered then Decided
    else Owned
  }

  predicate Touches(p: (int, int), id: int) {
    p.0 == id || p.1 == id
  }

  /** Some pair of the booking is in state `s`. */
  ghost predicate SomePair(
    pairs: set<(int, int)>, escalations: map<(int, int), Escalation>, now: int, id: int, s: State)
  {
    exists p :: p in pairs && Touches(p, id) && PairState(escalations, p, now) == s
  }

  /** The most actionable state over all of a booking's pairs. */
  ghost function Most(
    pairs: set<(int, int)>, escalations: map<(int, int), Escalation>, now: int, id: int): Option<State>
  {
    if SomePair(pairs, escalations, now, id, Unowned) then Some(Unowned)
    else if SomePair(pairs, escalations, now, id, Owned) then Some(Owned)
    else if SomePair(pairs, escalations, now, id, Decided) then Some(Decided)
    else None
  }

  /** A booking's state, from the whole tenant's clashes and escalations. */
  ghost function StateOf(t: Table, tenant: int, rows: map<(int, int), Escalation>, now: int, id: int): Option<State> {
    Most(OverlappingPairs(t, tenant, None, None), rows, now, id)
  }

  lemma MostOneMore(
    pairs: set<(int, int)>, p: (int, int), escalations: map<(int, int), Escalation>, now: int, id: int)
    ensures Most(pairs + {p}, escalations, now, id)
      == if Touches(p, id) then Some(MoreActionable(Most(pairs, escalations, now, id), PairState(escalations, p, now)))
         else Most(pairs, escalations, now, id)
  {
  }

  lemma MostSame(
    pairs: set<(int, int)>, others: set<(int, int)>, escalations: map<(int, int), Escalation>,
    rows: map<(int, int), Escalation>, now: int, id: int)
    requires forall p :: Touches(p, id) ==> (p in pairs <==> p in others)
    requires forall p :: p in pairs && Touches(p, id) ==>
      PairState(escalations, p, now) == PairState(rows, p, now)
    ensures Most(pairs, escalations, now, id) == Most(others, rows, now, id)
  {
  }

  /** Each pair raises its two bookings' states, if they were asked for. */
  method Fold(pairs: set<(int, int)>, escalations: map<(int, int), Escalation>, requested: set<int>, now: int)
    returns (states: map<int, State>)
    ensures forall id :: id in states <==> id in requested && Most(pairs, escalations, now, id).Some?
    ensures forall id :: id in states ==> Most(pairs, escalations, now, id) == Some(states[id])
  {
    states := map[];
    var pending := pairs;
    while |pending| > 0
      invariant pending <= pairs
      invariant forall id :: id in states <==>
        id in requested && Most(pairs - pending, escalations, now, id).Some?
      invariant forall id :: id in states ==> Most(pairs - pending, escalations, now, id) == Some(states[id])
      decreases pending
    {
      var p := Pick(pending);
      var state := PairState(escalations, p, now);
      ghost var seen := pairs - pending;
      forall id
        ensures Most(seen + {p}, escalations, now, id)
          == if Touches(p, id) then Some(MoreActionable(Most(seen, escalations, now, id), state))
             else Most(seen, escalations, now, id)
      {
        MostOneMore(seen, p, escalations, now, id);
      }
      states := Raise(states, p.0, requested, state);
      states := Raise(states, p.1, requested, state);
      pending := pending - {p};
      assert pairs - pending == seen + {p};
    }
    assert pairs - pending == pairs;
  }

  function Raise(states: map<int, State>, id: int, requested: set<int>, state: State): map<int, State> {
    if id !in requested then states
    else states[id := MoreActionable(if id in states then Some(states[id]) else None, state)]
  }

  /** The state of each booking asked for that has one: its state over the whole tenant,
      whatever else is on the page and in whatever order the pairs come. */
  method ContentionStatesForBookings(
    t: Table, rows: map<(int, int), Escalation>, tenant: int, bookingIds: seq<int>, now: int)
    returns (states: map<int, State>)
    ensures forall id :: id in states <==> id in bookingIds && StateOf(t, tenant, rows, now, id).Some?
    ensures forall id :: id in states ==> StateOf(t, tenant, rows, now, id) == Some(states[id])
  {
    var requested := set id | id in bookingIds;
    var pairs := OverlappingPairs(t, tenant, Some(requested), None);
    var escalations := EscalationsForPairs(rows, pairs);
    states := Fold(pairs, escalations, requested, now);
    forall id | id in requested
      ensures Most(pairs, escalations, now, id) == StateOf(t, tenant, rows, now, id)
    {
      forall p | Touches(p, id) ensures p in pairs <==> p in OverlappingPairs(t, tenant, None, None) {
        PageKeepsPairs(t, tenant, requested, id, p);
      }
      MostSame(pairs, OverlappingPairs(t, tenant, None, None), escalations, rows, now, id);
    }
  }

  /** The calendar marks a live booking exactly when its conflict list is not empty. */
  lemma MarkedExactly(t: Table, tenant: int, rows: map<(int, int), Escalation>, now: int, id: int)
    requires id in t && LiveSubject(t, id, tenant)
    ensures StateOf(t, tenant, rows, now, id).Some? <==> ListConflicts(t, id, tenant) != {}
  {
    var pairs := OverlappingPairs(t, tenant, None, None);
    if StateOf(t, tenant, rows, now, id).Some? {
      var p :| p in pairs && Touches(p, id);
      assert (if p.0 == id then p.1 else p.0) in ListConflicts(t, id, tenant);
    }
    forall other | other in ListConflicts(t, id, tenant) ensures StateOf(t, tenant, rows, now, id).Some? {
      OneSidedExactly(t, tenant, id, other);
      var p := Normalise(id, other);
      assert p in pairs && Touches(p, id);
    }
  }
}
