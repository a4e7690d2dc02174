/** Moving all bookings of an environment group through their lifecycle together, and
    what is offered to whoever may do so. */
module GroupTransition {
  import opened Options
  import opened Sequences

  datatype Transition = Transition(from: string, to: string, roles: set<string>)

  /** `required` is the fields each state needs filled in. */
  datatype Definition = Definition(transitions: seq<Transition>, required: map<string, seq<string>>)

  datatype Refusal = NoTransition | RoleBlocked | FieldsEmpty(fields: seq<string>)

  // --------------------------------------------------------------- one transition

  /** The first transition between two states, which is the one that decides. */
  function FirstBetween(transitions: seq<Transition>, from: string, to: string): Option<Transition> {
    if transitions == [] then None
    else if transitions[0].from == from && transitions[0].to == to then Some(transitions[0])
    else FirstBetween(transitions[1..], from, to)
  }

  function Empty(required: seq<string>, filled: set<string>): (missing: seq<string>)
    ensures missing == [] <==> forall i :: 0 <= i < |required| ==> required[i] in filled
  {
    if required == [] then []
    else (if required[0] in filled then [] else [required[0]]) + Empty(required[1..], filled)
  }

  function RequiredFor(d: Definition, to: string): seq<string> {
    if to in d.required then d.required[to] else []
  }

  /** Why a booking may not move; `filled` is the fields its request has values for. */
  function Validate(d: Definition, from: string, to: string, role: string, filled: set<string>): Option<Refusal> {
    match FirstBetween(d.transitions, from, to)
    case None => Some(NoTransition)
    case Some(t) =>
      if role !in t.roles then Some(RoleBlocked)
      else
        var missing := Empty(RequiredFor(d, to), filled);
        if missing != [] then Some(FieldsEmpty(missing)) else None
  }

  /** The states a role may move to, by any transition there is. */
  function AllowedStates(transitions: seq<Transition>, from: string, role: string): (states: set<string>)
    ensures forall to :: to in states <==> Lists(transitions, from, to, role)
  {
    set i | 0 <= i < |transitions| && transitions[i].from == from && role in transitions[i].roles :: transitions[i].to
  }

  predicate Lists(transitions: seq<Transition>, from: string, to: string, role: string) {
    exists i :: 0 <= i < |transitions| && transitions[i].from == from && transitions[i].to == to && role in transitions[i].roles
  }

  /** No two transitions join the same states. */
  ghost predicate OneBetween(d: Definition) {
    forall i, j :: 0 <= i < j < |d.transitions| ==>
      d.transitions[i].from != d.transitions[j].from || d.transitions[i].to != d.transitions[j].to
  }

  lemma {:induction false} FirstIsAmong(transitions: seq<Transition>, from: string, to: string)
    ensures var t := FirstBetween(transitions, from, to);
      if t.Some? then exists i :: 0 <= i < |transitions| && transitions[i] == t.value && t.value.from == from && t.value.to == to
      else forall i :: 0 <= i < |transitions| ==> transitions[i].from != from || transitions[i].to != to
  {
    if transitions != [] && !(transitions[0].from == from && transitions[0].to == to) {
      FirstIsAmong(transitions[1..], from, to);
      assert forall i :: 1 <= i < |transitions| ==> transitions[i] == transitions[1..][i - 1];
    }
  }

  /** Transition `k` is the first between two states. */
  predicate FirstAt(d: Definition, from: string, to: string, k: nat) {
    && k < |d.transitions| && d.transitions[k].from == from && d.transitions[k].to == to
    && forall j :: 0 <= j < k ==> d.transitions[j].from != from || d.transitions[j].to != to
  }

  lemma {:induction false} FirstExactly(transitions: seq<Transition>, from: string, to: string, k: nat)
    requires FirstAt(Definition(transitions, map[]), from, to, k)
    ensures FirstBetween(transitions, from, to) == Some(transitions[k])
  {
    if k > 0 {
      assert transitions[0].from != from || transitions[0].to != to;
      FirstExactly(transitions[1..], from, to, k - 1);
    }
  }

  lemma {:induction false} EmptyExactly(required: seq<string>, filled: set<string>, field: string)
    ensures field in Empty(required, filled) <==> field in required && field !in filled
  {
    if required != [] {
      EmptyExactly(required[1..], filled, field);
      assert required == [required[0]] + required[1..];
    }
  }

  /** A move is refused for want of a transition exactly when none joins the states; for the
      role exactly when the first that does excludes it; and otherwise for the required fields
      of the state that have no value, exactly when there are some. */
  lemma ValidateExactly(d: Definition, from: string, to: string, role: string, filled: set<string>, k: nat, field: string)
    ensures var v := Validate(d, from, to, role, filled);
      && (v == Some(NoTransition) <==> forall j :: 0 <= j < |d.transitions| ==>
        d.transitions[j].from != from || d.transitions[j].to != to)
      && (FirstAt(d, from, to, k) ==> (v == Some(RoleBlocked) <==> role !in d.transitions[k].roles))
      && (FirstAt(d, from, to, k) ==> (v == None <==> (role in d.transitions[k].roles
        && (to in d.required ==> forall f :: f in d.required[to] ==> f in filled))))
      && (v.Some? && v.value.FieldsEmpty? ==>
        v.value.fields != [] && (field in v.value.fields <==> to in d.required && field in d.required[to] && field !in filled))
  {
    FirstIsAmong(d.transitions, from, to);
    EmptyExactly(RequiredFor(d, to), filled, field);
    if FirstAt(d, from, to, k) {
      FirstExactly(d.transitions, from, to, k);
    }
  }

  // -------------------------------------------------------------------- the group

  /** The states every member of a group may move to. */
  method GroupAllowedStates(d: Definition, statuses: seq<string>, role: string) returns (common: set<string>)
    requires statuses != []
    ensures forall to :: to in common <==> Offered(d, statuses, role, to)
  {
    common := AllowedStates(d.transitions, statuses[0], role);
    for i := 1 to |statuses|
      invariant forall to :: to in common <==> Offered(d, statuses[..i], role, to)
    {
      common := common * AllowedStates(d.transitions, statuses[i], role);
    }
    assert statuses[..|statuses|] == statuses;
  }

  predicate Offered(d: Definition, statuses: seq<string>, role: string, to: string) {
    forall i :: 0 <= i < |statuses| ==> Lists(d.transitions, statuses[i], to, role)
  }

  predicate GroupMoves(d: Definition, statuses: seq<string>, role: string, filled: set<string>, to: string) {
    forall i :: 0 <= i < |statuses| ==> Validate(d, statuses[i], to, role, filled).None?
  }

  /** Every member's first transition to the state lets the role through. */
  predicate FirstLets(d: Definition, statuses: seq<string>, role: string, to: string) {
    forall i :: 0 <= i < |statuses| ==>
      FirstBetween(d.transitions, statuses[i], to).Some? && role in FirstBetween(d.transitions, statuses[i], to).value.roles
  }

  predicate FieldsFilled(d: Definition, to: string, filled: set<string>) {
    Empty(RequiredFor(d, to), filled) == []
  }

  /** What is offered is what succeeds, up to required fields, which the offer does not
      look at, and up to a second transition between the same two states, which the offer
      sees and the move does not. */
  lemma OfferedSucceedsExactly(d: Definition, statuses: seq<string>, role: string, filled: set<string>, to: string)
    requires statuses != []
    ensures GroupMoves(d, statuses, role, filled, to) ==> Offered(d, statuses, role, to)
    ensures GroupMoves(d, statuses, role, filled, to) <==>
      FirstLets(d, statuses, role, to) && FieldsFilled(d, to, filled)
    ensures OneBetween(d) ==> (FirstLets(d, statuses, role, to) <==> Offered(d, statuses, role, to))
  {
    if GroupMoves(d, statuses, role, filled, to) {
      assert Validate(d, statuses[0], to, role, filled).None?;
    }
    forall i | 0 <= i < |statuses|
      ensures Validate(d, statuses[i], to, role, filled).None? ==> Lists(d.transitions, statuses[i], to, role)
      ensures OneBetween(d) && Lists(d.transitions, statuses[i], to, role) ==>
        FirstBetween(d.transitions, statuses[i], to).Some? && role in FirstBetween(d.transitions, statuses[i], to).value.roles
      ensures FirstBetween(d.transitions, statuses[i], to).Some? && role in FirstBetween(d.transitions, statuses[i], to).value.roles
        ==> Lists(d.transitions, statuses[i], to, role)
    {
      FirstIsAmong(d.transitions, statuses[i], to);
    }
  }

  /** Two transitions between one pair of states: the offer is made, and refused. */
  lemma OfferedAndRefused(role: string, other: string, from: string, to: string)
    requires role != other
    ensures var d := Definition([Transition(from, to, {other}), Transition(from, to, {role})], map[]);
      Offered(d, [from], role, to) && Validate(d, from, to, role, {}) == Some(RoleBlocked)
  {
    var d := Definition([Transition(from, to, {other}), Transition(from, to, {role})], map[]);
    assert d.transitions[1].from == from && role in d.transitions[1].roles;
  }

  /** One transition, and a required field left empty: the offer is made, and refused. */
  lemma OfferedAndIncomplete(role: string, from: string, to: string, field: string, filled: set<string>)
    requires field !in filled
    ensures var d := Definition([Transition(from, to, {role})], map[to := [field]]);
      && OneBetween(d) && Offered(d, [from], role, to)
      && Validate(d, from, to, role, filled) == Some(FieldsEmpty([field]))
  {
    var d := Definition([Transition(from, to, {role})], map[to := [field]]);
    assert d.transitions[0].from == from && role in d.transitions[0].roles;
    assert FirstBetween(d.transitions, from, to) == Some(d.transitions[0]);
    var required := RequiredFor(d, to);
    assert required == [field] && required[1..] == [];
    assert Empty(required, filled) == [field];
  }

  datatype Change = Change(member: nat, from: string, to: string)

  function Changes(statuses: seq<string>, to: string): seq<Change> {
    seq(|statuses|, i requires 0 <= i < |statuses| => Change(i, statuses[i], to))
  }

  datatype Failure = Failure(member: nat, reason: Refusal)

  function FailuresOf(d: Definition, statuses: seq<string>, role: string, filled: set<string>, to: string): seq<Failure> {
    if statuses == [] then []
    else
      var n := |statuses| - 1;
      var refusal := Validate(d, statuses[n], to, role, filled);
      FailuresOf(d, statuses[..n], role, filled, to)
        + if refusal.Some? then [Failure(n, refusal.value)] else []
  }

  lemma {:induction false} NoFailuresExactly(d: Definition, statuses: seq<string>, role: string, filled: set<string>, to: string)
    ensures FailuresOf(d, statuses, role, filled, to) == [] <==> GroupMoves(d, statuses, role, filled, to)
  {
    if statuses != [] {
      NoFailuresExactly(d, statuses[..|statuses| - 1], role, filled, to);
    }
  }

  /** Every member that may not move is reported once, at its own position and with its own
      reason, in order, and no other. */
  lemma {:induction false} FailuresExactly(
    d: Definition, statuses: seq<string>, role: string, filled: set<string>, to: string)
    ensures var failures := FailuresOf(d, statuses, role, filled, to);
      && (forall f :: f in failures <==>
        f.member < |statuses| && Validate(d, statuses[f.member], to, role, filled) == Some(f.reason))
      && forall i, j :: 0 <= i < j < |failures| ==> failures[i].member < failures[j].member
  {
    hide Validate;
    if statuses != [] {
      var n := |statuses| - 1;
      var front := FailuresOf(d, statuses[..n], role, filled, to);
      FailuresExactly(d, statuses[..n], role, filled, to);
      assert forall i :: 0 <= i < |front| ==> front[i] in front;
    }
  }

  /** The live bookings that came from one group on one request. */
  class Group {
    var statuses: seq<string>
    var history: seq<Change>

    constructor (statuses: seq<string>)
      ensures this.statuses == statuses && history == []
    {
      this.statuses, history := statuses, [];
    }

    method CollectFailures(d: Definition, role: string, filled: set<string>, to: string) returns (failures: seq<Failure>)
      ensures failures == FailuresOf(d, statuses, role, filled, to)
    {
      hide Validate;
      failures := [];
      for i := 0 to |statuses|
        invariant failures == FailuresOf(d, statuses[..i], role, filled, to)
      {
        NextPrefix(statuses, i);
        var refusal := Validate(d, statuses[i], to, role, filled);
        if refusal.Some? {
          failures := failures + [Failure(i, refusal.value)];
        }
      }
      assert statuses[..|statuses|] == statuses;
    }

    method MoveAll(to: string)
      modifies this
      ensures statuses == seq(|old(statuses)|, i => to) && history == old(history) + Changes(old(statuses), to)
    {
      ghost var trace := Changes(statuses, to);
      for i := 0 to |statuses|
        invariant |statuses| == |old(statuses)|
        invariant forall k :: 0 <= k < i ==> statuses[k] == to
        invariant forall k :: i <= k < |statuses| ==> statuses[k] == old(statuses)[k]
        invariant history == old(history) + trace[..i]
      {
        NextPrefix(trace, i);
        var from := statuses[i];
        statuses := statuses[i := to];
        history := history + [Change(i, from, to)];
      }
      assert trace[..|statuses|] == trace;
    }

    /** Every member moves and leaves a trace, or none does and every failing member is
        reported. */
    method TransitionGroup(d: Definition, role: string, filled: set<string>, to: string) returns (failures: seq<Failure>)
      modifies this
      ensures failures == FailuresOf(d, old(statuses), role, filled, to)
      ensures failures == [] <==> GroupMoves(d, old(statuses), role, filled, to)
      ensures failures == [] ==> statuses == seq(|old(statuses)|, i => to) && history == old(history) + Changes(old(statuses), to)
      ensures failures == [] ==> forall i :: 0 <= i < |old(statuses)| ==>
        history[|old(history)| + i] == Change(i, old(statuses)[i], to)
      ensures failures != [] ==> statuses == old(statuses) && history == old(history)
    {
      hide FailuresOf, GroupMoves;
      failures := CollectFailures(d, role, filled, to);
      NoFailuresExactly(d, statuses, role, filled, to);
      if failures == [] {
        MoveAll(to);
      }
    }
  }
}
