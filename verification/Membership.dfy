/** Admission of project releases to enterprise releases: requests, decisions and
    removals, and the parent each project release points to. */
module Membership {
  import opened Options

  datatype Kind = Enterprise | Project

  datatype Release = Release(kind: Kind, deleted: bool, parent: Option<int>, status: string)

  datatype Stage = PendingRequest | AcceptedIn | Rejected | Withdrawn | Removed

  datatype Record = Record(
    enterprise: int, project: int, stage: Stage, requestedBy: int,
    decidedBy: Option<int>, removedBy: Option<int>, lateScope: bool)

  datatype State = State(releases: map<int, Release>, records: seq<Record>)

  // ----------------------------------------------------------------- late admission

  /** A state of the enterprise's lifecycle, and whether it locks admission down. */
  datatype LifecycleState = LifecycleState(key: string, lockdown: bool)

  function FirstLockdown(states: seq<LifecycleState>, from: nat): (i: Option<nat>)
    requires from <= |states|
    ensures i.Some? ==> from <= i.value < |states| && states[i.value].lockdown
    ensures forall k :: from <= k < (if i.Some? then i.value else |states|) ==> !states[k].lockdown
    decreases |states| - from
  {
    if from == |states| then None else if states[from].lockdown then Some(from) else FirstLockdown(states, from + 1)
  }

  function FirstNamed(states: seq<LifecycleState>, key: string, from: nat): (i: Option<nat>)
    requires from <= |states|
    ensures i.Some? ==> from <= i.value < |states| && states[i.value].key == key
    ensures forall k :: from <= k < (if i.Some? then i.value else |states|) ==> states[k].key != key
    decreases |states| - from
  {
    if from == |states| then None else if states[from].key == key then Some(from) else FirstNamed(states, key, from + 1)
  }

  function LateScope(states: seq<LifecycleState>, status: string): bool {
    var lockdown, current := FirstLockdown(states, 0), FirstNamed(states, status, 0);
    lockdown.Some? && current.Some? && current.value >= lockdown.value
  }

  /** Admission is late exactly when the enterprise's state is one of its lifecycle's, and
      that state or one before it locks admission down. */
  lemma LateScopeExactly(states: seq<LifecycleState>, status: string)
    ensures LateScope(states, status) <==>
      exists i, j :: 0 <= i <= j < |states| && states[i].lockdown && states[j].key == status
        && forall k :: 0 <= k < j ==> states[k].key != status
  {
  }

  // -------------------------------------------------------------------- the steps

  /** `permitted` is the answer of the role check; `admin` whether the user is one. */
  datatype Action =
    | Ask(enterprise: int, project: int, user: int)
    | Accept(i: nat, user: int, permitted: bool, states: seq<LifecycleState>)
    | Reject(i: nat, user: int, permitted: bool)
    | Withdraw(i: nat, user: int, admin: bool)
    | Remove(i: nat, user: int, permitted: bool)
    | DeleteRelease(id: int)

  predicate Available(s: State, id: int) {
    id in s.releases && !s.releases[id].deleted
  }

  predicate Open(r: Record) {
    r.stage == PendingRequest || r.stage == AcceptedIn
  }

  predicate HasOpen(records: seq<Record>, project: int) {
    exists k :: 0 <= k < |records| && records[k].project == project && Open(records[k])
  }

  predicate HasAccepted(records: seq<Record>, project: int) {
    exists k :: 0 <= k < |records| && records[k].project == project && records[k].stage == AcceptedIn
  }

  predicate Allowed(s: State, a: Action) {
    match a
    case Ask(e, p, _) =>
      Available(s, e) && Available(s, p) && s.releases[e].kind == Enterprise && s.releases[p].kind == Project
      && !HasOpen(s.records, p)
    case Accept(i, _, permitted, _) =>
      i < |s.records| && s.records[i].stage == PendingRequest
      && Available(s, s.records[i].enterprise) && Available(s, s.records[i].project)
      && permitted && !HasAccepted(s.records, s.records[i].project)
    case Reject(i, _, permitted) =>
      i < |s.records| && s.records[i].stage == PendingRequest && Available(s, s.records[i].enterprise) && permitted
    case Withdraw(i, user, admin) =>
      i < |s.records| && s.records[i].stage == PendingRequest && (s.records[i].requestedBy == user || admin)
    case Remove(i, _, permitted) =>
      i < |s.records| && s.records[i].stage == AcceptedIn
      && Available(s, s.records[i].enterprise) && Available(s, s.records[i].project) && permitted
    case DeleteRelease(id) => Available(s, id)
  }

  function SetParent(releases: map<int, Release>, id: int, parent: Option<int>): map<int, Release>
    requires id in releases
  {
    releases[id := releases[id].(parent := parent)]
  }

  /** A refused action changes nothing. */
  function Apply(s: State, a: Action): State {
    if !Allowed(s, a) then s
    else match a
      case Ask(e, p, user) =>
        s.(records := s.records + [Record(e, p, PendingRequest, user, None, None, false)])
      case Accept(i, user, _, states) =>
        var r := s.records[i];
        State(SetParent(s.releases, r.project, Some(r.enterprise)),
          s.records[i := r.(stage := AcceptedIn, decidedBy := Some(user),
            lateScope := LateScope(states, s.releases[r.enterprise].status))])
      case Reject(i, user, _) =>
        s.(records := s.records[i := s.records[i].(stage := Rejected, decidedBy := Some(user))])
      case Withdraw(i, user, _) =>
        s.(records := s.records[i := s.records[i].(stage := Withdrawn, decidedBy := Some(user))])
      case Remove(i, user, _) =>
        State(SetParent(s.releases, s.records[i].project, None),
          s.records[i := s.records[i].(stage := Removed, removedBy := Some(user))])
      case DeleteRelease(id) =>
        s.(releases := s.releases[id := s.releases[id].(deleted := true)])
  }

  function Run(s: State, actions: seq<Action>): State {
    if actions == [] then s else Apply(Run(s, actions[..|actions| - 1]), actions[|actions| - 1])
  }

  // ------------------------------------------------------------ what each action does

  /** A project asks for admission exactly when both releases are there and of their kinds,
      and it has no membership pending or accepted; a pending one by the asker is added. */
  lemma AskExactly(s: State, e: int, p: int, user: int)
    ensures var s' := Apply(s, Ask(e, p, user));
      && (Allowed(s, Ask(e, p, user)) <==>
        && e in s.releases && !s.releases[e].deleted && s.releases[e].kind == Enterprise
        && p in s.releases && !s.releases[p].deleted && s.releases[p].kind == Project
        && forall k :: 0 <= k < |s.records| && s.records[k].project == p ==>
          s.records[k].stage != PendingRequest && s.records[k].stage != AcceptedIn)
      && (Allowed(s, Ask(e, p, user)) ==>
        s' == s.(records := s.records + [Record(e, p, PendingRequest, user, None, None, false)]))
  {
  }

  /** Record `i` is pending, and the releases it names are there. */
  predicate Decidable(s: State, i: nat) {
    i < |s.records| && s.records[i].stage == PendingRequest
  }

  predicate Stays(s: State, s': State, i: nat) {
    |s'.records| == |s.records| && forall k :: 0 <= k < |s.records| && k != i ==> s'.records[k] == s.records[k]
  }

  /** Acceptance of a pending request by one who may makes it accepted, by them, and points
      the project at the enterprise; it is late exactly as the enterprise's state says. */
  lemma AcceptExactly(s: State, i: nat, user: int, permitted: bool, states: seq<LifecycleState>)
    requires OneOpen(s.records)
    ensures var a, s' := Accept(i, user, permitted, states), Apply(s, Accept(i, user, permitted, states));
      && (Allowed(s, a) <==> (Decidable(s, i) && permitted
        && Available(s, s.records[i].enterprise) && Available(s, s.records[i].project)))
      && (Allowed(s, a) ==> (Stays(s, s', i) && s'.records[i] == s.records[i].(
        stage := AcceptedIn, decidedBy := Some(user), lateScope := s'.records[i].lateScope)
        && s'.records[i].lateScope == LateScope(states, s.releases[s.records[i].enterprise].status)
        && s'.releases == s.releases[s.records[i].project :=
          s.releases[s.records[i].project].(parent := Some(s.records[i].enterprise))]))
  {
  }

  /** Only a pending request of an enterprise that is there is rejected, by one who may; it
      becomes rejected, by them, and nothing else changes. */
  lemma RejectExactly(s: State, i: nat, user: int, permitted: bool)
    ensures var a, s' := Reject(i, user, permitted), Apply(s, Reject(i, user, permitted));
      && (Allowed(s, a) <==> Decidable(s, i) && permitted && Available(s, s.records[i].enterprise))
      && (Allowed(s, a) ==> (s'.releases == s.releases && Stays(s, s', i)
        && s'.records[i] == s.records[i].(stage := Rejected, decidedBy := Some(user))))
  {
  }

  /** Only a pending request is withdrawn, by whoever asked or an admin; it becomes withdrawn,
      by them, and nothing else changes. */
  lemma WithdrawExactly(s: State, i: nat, user: int, admin: bool)
    ensures var a, s' := Withdraw(i, user, admin), Apply(s, Withdraw(i, user, admin));
      && (Allowed(s, a) <==> Decidable(s, i) && (admin || user == s.records[i].requestedBy))
      && (Allowed(s, a) ==> (s'.releases == s.releases && Stays(s, s', i)
        && s'.records[i] == s.records[i].(stage := Withdrawn, decidedBy := Some(user))))
  {
  }

  /** Only an accepted membership is removed, by one who may and while both releases are
      there; it becomes removed, by them, and the project points nowhere. */
  lemma RemoveExactly(s: State, i: nat, user: int, permitted: bool)
    ensures var a, s' := Remove(i, user, permitted), Apply(s, Remove(i, user, permitted));
      && (Allowed(s, a) <==> (i < |s.records| && s.records[i].stage == AcceptedIn && permitted
        && Available(s, s.records[i].enterprise) && Available(s, s.records[i].project)))
      && (Allowed(s, a) ==> (Stays(s, s', i)
        && s'.records[i] == s.records[i].(stage := Removed, removedBy := Some(user))
        && s'.releases == s.releases[s.records[i].project := s.releases[s.records[i].project].(parent := None)]))
  {
  }

  /** A refused action, and a deletion of a release apart from its mark, change nothing. */
  lemma RefusedExactly(s: State, a: Action, id: int)
    ensures !Allowed(s, a) ==> Apply(s, a) == s
    ensures Allowed(s, DeleteRelease(id)) <==> id in s.releases && !s.releases[id].deleted
    ensures Allowed(s, DeleteRelease(id)) ==>
      Apply(s, DeleteRelease(id)) == s.(releases := s.releases[id := s.releases[id].(deleted := true)])
  {
  }

  // ----------------------------------------------------------------- the invariant

  ghost predicate OneOpen(records: seq<Record>) {
    forall i, j :: 0 <= i < j < |records| && Open(records[i]) && Open(records[j]) ==>
      records[i].project != records[j].project
  }

  ghost predicate AcceptedAt(records: seq<Record>, project: int, enterprise: int) {
    exists k :: 0 <= k < |records| && records[k].project == project && records[k].enterprise == enterprise
      && records[k].stage == AcceptedIn
  }

  ghost predicate ParentsExact(s: State) {
    forall p, e :: p in s.releases ==> (s.releases[p].parent == Some(e) <==> AcceptedAt(s.records, p, e))
  }

  ghost predicate KindsOk(s: State) {
    forall k :: 0 <= k < |s.records| ==>
      var r := s.records[k];
      r.enterprise in s.releases && s.releases[r.enterprise].kind == Enterprise
      && r.project in s.releases && s.releases[r.project].kind == Project
  }

  ghost predicate Inv(s: State) {
    OneOpen(s.records) && ParentsExact(s) && KindsOk(s)
  }

  ghost predicate Start(s: State) {
    s.records == [] && forall id :: id in s.releases ==> s.releases[id].parent.None?
  }

  lemma AskKeeps(s: State, a: Action)
    requires Inv(s) && Allowed(s, a) && a.Ask?
    ensures Inv(Apply(s, a))
  {
    var s' := Apply(s, a);
    forall p, e ensures AcceptedAt(s'.records, p, e) <==> AcceptedAt(s.records, p, e) {
      if AcceptedAt(s.records, p, e) {
        var k :| 0 <= k < |s.records| && s.records[k].project == p && s.records[k].enterprise == e
          && s.records[k].stage == AcceptedIn;
        assert s'.records[k] == s.records[k];
      }
    }
  }

  /** The record at `i`, decided, alone changes where its project is accepted. */
  lemma DecidedAt(records: seq<Record>, i: nat, stage: Stage, r: Record, p: int, e: int)
    requires i < |records| && OneOpen(records) && Open(records[i])
    requires r.project == records[i].project && r.enterprise == records[i].enterprise && r.stage == stage
    ensures AcceptedAt(records[i := r], p, e) <==>
      if p == r.project then e == r.enterprise && stage == AcceptedIn else AcceptedAt(records, p, e)
  {
    if p == r.project && e == r.enterprise && stage == AcceptedIn {
      assert records[i := r][i].stage == AcceptedIn;
    }
    if p != r.project && AcceptedAt(records, p, e) {
      var k :| 0 <= k < |records| && records[k].project == p && records[k].enterprise == e
        && records[k].stage == AcceptedIn;
      assert records[i := r][k] == records[k];
    }
  }

  lemma DecisionKeeps(s: State, a: Action)
    requires Inv(s) && Allowed(s, a) && !a.Ask? && !a.DeleteRelease?
    ensures Inv(Apply(s, a))
  {
    var s' := Apply(s, a);
    forall p, e | p in s'.releases
      ensures s'.releases[p].parent == Some(e) <==> AcceptedAt(s'.records, p, e)
    {
      DecidedAt(s.records, a.i, s'.records[a.i].stage, s'.records[a.i], p, e);
      if !a.Accept? && !a.Remove? && p == s.records[a.i].project {
        PendingNotAccepted(s.records, a.i, e);
      }
    }
  }

  lemma PendingNotAccepted(records: seq<Record>, i: nat, e: int)
    requires i < |records| && OneOpen(records) && records[i].stage == PendingRequest
    ensures !AcceptedAt(records, records[i].project, e)
  {
  }

  lemma ApplyKeeps(s: State, a: Action)
    requires Inv(s)
    ensures Inv(Apply(s, a))
  {
    if Allowed(s, a) {
      if a.Ask? {
        AskKeeps(s, a);
      } else if !a.DeleteRelease? {
        DecisionKeeps(s, a);
      }
    }
  }

  lemma {:induction false} RunKeeps(s: State, actions: seq<Action>)
    requires Inv(s)
    ensures Inv(Run(s, actions))
  {
    if actions != [] {
      RunKeeps(s, actions[..|actions| - 1]);
      ApplyKeeps(Run(s, actions[..|actions| - 1]), actions[|actions| - 1]);
    }
  }

  // ----------------------------------------------------------------- main results

  lemma ParentKinds(s: State, p: int)
    requires Inv(s) && p in s.releases && s.releases[p].parent.Some?
    ensures s.releases[p].kind == Project
    ensures s.releases[p].parent.value in s.releases && s.releases[s.releases[p].parent.value].kind == Enterprise
  {
    assert AcceptedAt(s.records, p, s.releases[p].parent.value);
  }

  /** After any run a project release has at most one membership pending or accepted, its
      parent names an enterprise exactly when it is accepted there, and a parent has no
      parent of its own. */
  lemma ParentsFollowMemberships(s: State, actions: seq<Action>)
    requires Start(s)
    ensures var s' := Run(s, actions);
      && OneOpen(s'.records)
      && ParentsExact(s')
      && forall p :: p in s'.releases && s'.releases[p].parent.Some? ==>
        s'.releases[p].parent.value in s'.releases && s'.releases[s'.releases[p].parent.value].parent.None?
  {
    RunKeeps(s, actions);
    var s' := Run(s, actions);
    forall p | p in s'.releases && s'.releases[p].parent.Some?
      ensures s'.releases[p].parent.value in s'.releases && s'.releases[s'.releases[p].parent.value].parent.None?
    {
      ParentKinds(s', p);
      if s'.releases[s'.releases[p].parent.value].parent.Some? {
        ParentKinds(s', s'.releases[p].parent.value);
      }
    }
  }

  predicate Settled(r: Record) {
    r.stage == Rejected || r.stage == Withdrawn || r.stage == Removed
  }

  /** A record that is rejected, withdrawn or removed never changes again; no record is
      ever lost, nor changes the releases it names. */
  lemma {:induction false} SettledForever(s: State, actions: seq<Action>, i: nat)
    requires i < |s.records|
    ensures i < |Run(s, actions).records|
    ensures Run(s, actions).records[i].enterprise == s.records[i].enterprise
      && Run(s, actions).records[i].project == s.records[i].project
    ensures Settled(s.records[i]) ==> Run(s, actions).records[i] == s.records[i]
  {
    if actions != [] {
      SettledForever(s, actions[..|actions| - 1], i);
    }
  }

  /** The record is accepted into an enterprise release that has been deleted. */
  ghost predicate Stranded(s: State, i: nat) {
    && i < |s.records| && s.records[i].stage == AcceptedIn
    && s.records[i].enterprise in s.releases && s.releases[s.records[i].enterprise].deleted
  }

  lemma StrandedStep(s: State, a: Action, i: nat)
    requires Inv(s) && Stranded(s, i)
    ensures Stranded(Apply(s, a), i) && Apply(s, a).records[i] == s.records[i]
  {
    var k := s.records[i];
    if Allowed(s, a) && a.Accept? {
      assert s.records[a.i].project != k.project;
    }
  }

  /** Deleting an enterprise release strands the projects accepted into it: from then on
      their memberships are never removed, their parents stay, and they may ask nowhere
      else. */
  lemma {:induction false} StrandedForever(s: State, actions: seq<Action>, i: nat, e: int, user: int)
    requires Inv(s) && Stranded(s, i)
    ensures var s', r := Run(s, actions), s.records[i];
      && Stranded(s', i) && s'.records[i] == r
      && r.project in s'.releases && s'.releases[r.project].parent == Some(r.enterprise)
      && !Allowed(s', Ask(e, r.project, user))
  {
    RunKeeps(s, actions);
    if actions != [] {
      var front := actions[..|actions| - 1];
      StrandedForever(s, front, i, e, user);
      RunKeeps(s, front);
      StrandedStep(Run(s, front), actions[|actions| - 1], i);
    }
    StrandedNow(Run(s, actions), i);
  }

  lemma StrandedNow(s: State, i: nat)
    requires Inv(s) && Stranded(s, i)
    ensures s.records[i].project in s.releases
    ensures s.releases[s.records[i].project].parent == Some(s.records[i].enterprise)
    ensures HasOpen(s.records, s.records[i].project)
  {
  }

  // ---------------------------------------------------------------- the operations

  class Memberships {
    var releases: map<int, Release>
    var records: seq<Record>

    ghost function View(): State
      reads this
    {
      State(releases, records)
    }

    constructor (releases: map<int, Release>)
      ensures View() == State(releases, [])
    {
      this.releases, records := releases, [];
    }

    method RequestMembership(enterprise: int, project: int, user: int) returns (ok: bool)
      modifies this
      ensures ok <==> Allowed(old(View()), Ask(enterprise, project, user))
      ensures View() == Apply(old(View()), Ask(enterprise, project, user))
    {
      if !(enterprise in releases && !releases[enterprise].deleted && project in releases && !releases[project].deleted) {
        return false;
      }
      if releases[enterprise].kind != Enterprise || releases[project].kind != Project || HasOpen(records, project) {
        return false;
      }
      records := records + [Record(enterprise, project, PendingRequest, user, None, None, false)];
      return true;
    }

    method AcceptMembership(i: nat, user: int, permitted: bool, states: seq<LifecycleState>) returns (ok: bool)
      modifies this
      ensures ok <==> Allowed(old(View()), Accept(i, user, permitted, states))
      ensures View() == Apply(old(View()), Accept(i, user, permitted, states))
    {
      if i >= |records| || records[i].stage != PendingRequest {
        return false;
      }
      var m := records[i];
      if !(m.enterprise in releases && !releases[m.enterprise].deleted && m.project in releases && !releases[m.project].deleted) {
        return false;
      }
      if !permitted || HasAccepted(records, m.project) {
        return false;
      }
      var late := LateScope(states, releases[m.enterprise].status);
      records := records[i := m.(stage := AcceptedIn, decidedBy := Some(user), lateScope := late)];
      releases := releases[m.project := releases[m.project].(parent := Some(m.enterprise))];
      return true;
    }

    method RejectMembership(i: nat, user: int, permitted: bool) returns (ok: bool)
      modifies this
      ensures ok <==> Allowed(old(View()), Reject(i, user, permitted))
      ensures View() == Apply(old(View()), Reject(i, user, permitted))
    {
      if i >= |records| || records[i].stage != PendingRequest {
        return false;
      }
      var m := records[i];
      if !(m.enterprise in releases && !releases[m.enterprise].deleted) || !permitted {
        return false;
      }
      records := records[i := m.(stage := Rejected, decidedBy := Some(user))];
      return true;
    }

    method WithdrawMembership(i: nat, user: int, admin: bool) returns (ok: bool)
      modifies this
      ensures ok <==> Allowed(old(View()), Withdraw(i, user, admin))
      ensures View() == Apply(old(View()), Withdraw(i, user, admin))
    {
      if i >= |records| || records[i].stage != PendingRequest || (records[i].requestedBy != user && !admin) {
        return false;
      }
      records := records[i := records[i].(stage := Withdrawn, decidedBy := Some(user))];
      return true;
    }

    method RemoveMembership(i: nat, user: int, permitted: bool) returns (ok: bool)
      modifies this
      ensures ok <==> Allowed(old(View()), Remove(i, user, permitted))
      ensures View() == Apply(old(View()), Remove(i, user, permitted))
    {
      if i >= |records| || records[i].stage != AcceptedIn {
        return false;
      }
      var m := records[i];
      if !(m.enterprise in releases && !releases[m.enterprise].deleted && m.project in releases && !releases[m.project].deleted) {
        return false;
      }
      if !permitted {
        return false;
      }
      releases := releases[m.project := releases[m.project].(parent := None)];
      records := records[i := m.(stage := Removed, removedBy := Some(user))];
      return true;
    }
  }
}
