/** A decommission record: what is stored of it, the state computed from that and
    the clock, and the state as the worklist's filter selects it.

    Instants are integers (microseconds, UTC). */
module Decommission {
  import opened Numbers
  import opened Options

  /** `initiatedAt`, `noticeDaysThen` and `firstTeardown` are history: the position of the initiating
      request among all requests, the notice period then, and the date set. `requiredThen` is the steps
      that were required when the environment was torn down. */
  datatype Record = Record(
    environmentId: nat,
    warnedAt: int,
    teardown: int,
    extensionRequestedAt: Option<int>,
    extensionUntil: Option<int>,
    extensionDecidedAt: Option<int>,
    extensionGranted: Option<bool>,
    tornDownAt: Option<int>,
    cancelledAt: Option<int>,
    signed: set<string>,
    initiatedAt: nat,
    noticeDaysThen: nat,
    firstTeardown: int,
    requiredThen: set<string>)

  datatype Phase = Warned | Due | ExtensionRequested | TornDown | Cancelled

  /** The start of the UTC day. */
  function ExpiryBoundary(now: int): (b: int)
    ensures b <= now < b + DAY && b % DAY == 0
  {
    now - now % DAY
  }

  function PhaseOf(r: Record, now: int): Phase {
    if r.cancelledAt.Some? then Cancelled
    else if r.tornDownAt.Some? then TornDown
    else if r.extensionRequestedAt.Some? && r.extensionDecidedAt.None? then ExtensionRequested
    else if r.teardown >= ExpiryBoundary(now) then Warned
    else Due
  }

  /** The filter for a phase, over the stored columns. */
  predicate Selects(p: Phase, r: Record, now: int) {
    var boundary := ExpiryBoundary(now);
    var notTerminal := r.cancelledAt.None? && r.tornDownAt.None?;
    var noOpenExtension := r.extensionRequestedAt.None? || r.extensionDecidedAt.Some?;
    match p
    case Cancelled => r.cancelledAt.Some?
    case TornDown => r.cancelledAt.None? && r.tornDownAt.Some?
    case ExtensionRequested => notTerminal && r.extensionRequestedAt.Some? && r.extensionDecidedAt.None?
    case Warned => notTerminal && noOpenExtension && r.teardown >= boundary
    case Due => notTerminal && noOpenExtension && r.teardown < boundary
  }

  predicate Live(r: Record) {
    r.cancelledAt.None? && r.tornDownAt.None?
  }

  /** A cancellation outranks a teardown, either outranks an extension nobody has answered,
      and that outranks the clock: the notice runs through the UTC day of the teardown. */
  lemma PhaseExactly(r: Record, now: int)
    ensures PhaseOf(r, now).Cancelled? <==> r.cancelledAt.Some?
    ensures PhaseOf(r, now).TornDown? <==> r.tornDownAt.Some? && r.cancelledAt.None?
    ensures Live(r) ==>
      var asked := r.extensionRequestedAt.Some? && r.extensionDecidedAt.None?;
      (PhaseOf(r, now).ExtensionRequested? <==> asked)
      && (PhaseOf(r, now).Warned? <==> !asked && now / DAY <= r.teardown / DAY)
      && (PhaseOf(r, now).Due? <==> !asked && now / DAY > r.teardown / DAY)
  {
    assert ExpiryBoundary(now) == now / DAY * DAY;
    assert r.teardown == r.teardown / DAY * DAY + r.teardown % DAY;
  }

  /** At every clock exactly one filter selects a record: that of its phase. */
  lemma OneFilterSelects(r: Record, now: int, p: Phase)
    ensures Selects(p, r, now) <==> p == PhaseOf(r, now)
  {
  }

  /** While a record is untouched its phase is the same all day, and as days pass
      it can only go from warned to due. */
  lemma PhaseOverTime(r: Record, now: int, later: int)
    requires now <= later
    ensures now / DAY == later / DAY ==> PhaseOf(r, now) == PhaseOf(r, later)
    ensures PhaseOf(r, later) != PhaseOf(r, now) ==> PhaseOf(r, now).Warned? && PhaseOf(r, later).Due?
  {
  }

  /** The whole of the teardown day still reads as warned, the next day as due. */
  lemma TeardownDayIsWarned(r: Record, now: int)
    requires Live(r) && (r.extensionRequestedAt.Some? ==> r.extensionDecidedAt.Some?)
    ensures PhaseOf(r, now).Warned? <==> now < ExpiryBoundary(r.teardown) + DAY
  {
  }
}
