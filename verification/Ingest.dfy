/** Deployment webhooks: each delivery names an event and a status; its effects are a
    deployment row, a build, a version of the environment, a change request, its history,
    and an event published. */
module Ingest {
  import opened Builds
  import opened Options

  datatype Status = Pending | InProgress | Success | Failed | RolledBack

  predicate MayFollow(next: Status, current: Status) {
    match current
    case Pending => next != RolledBack
    case InProgress => next == InProgress || next == Success || next == Failed
    case Success => next == Success || next == RolledBack
    case Failed => next == Failed || next == RolledBack
    case RolledBack => next == RolledBack
  }

  /** `commit` and `number` identify a build of a subsystem; `details` is what a later
      delivery of it replaces. */
  datatype BuildKey = BuildKey(subsystem: int, commit: string, number: Option<string>)

  /** One delivery. `status` is none when it is not a known one; `change` is the change
      request it names. */
  datatype Delivery = Delivery(
    event: string, status: Option<Status>, system: string, subsystem: string, environment: string,
    commit: string, number: Option<string>, details: string, change: Option<nat>, deployedAt: int)

  /** The live systems' subsystems and environments, by name. */
  datatype Catalogue = Catalogue(subsystems: map<(string, string), int>, environments: map<string, int>)

  /** `reached` is history: the statuses accepted for the deployment so far. */
  datatype Deployment = Deployment(
    event: string, build: BuildKey, environment: int, change: nat, deployedAt: int,
    completedAt: Option<int>, status: Status, reached: set<Status>)

  datatype ChangeStatus = Created | Deployed | ChangeFailed | Other(string)

  datatype Change = Change(status: ChangeStatus, auto: bool, deleted: bool)

  /** A version recorded for an environment's subsystem; `deployment` is history: the
      row of the deployment that recorded it. */
  datatype Version = Version(environment: int, subsystem: int, build: BuildKey, tag: string, deployment: nat)

  datatype Move = Move(change: nat, from: ChangeStatus, to: ChangeStatus)

  datatype Store = Store(
    deployments: seq<Deployment>, builds: map<BuildKey, string>, versions: seq<Version>,
    changes: seq<Change>, moves: seq<Move>, published: seq<(nat, Status)>)

  datatype Outcome = Ingested(deployment: nat) | Replayed(deployment: nat) | Refused

  // ------------------------------------------------------------------ the function

  function Find(deployments: seq<Deployment>, event: string): (i: Option<nat>)
    ensures i.Some? ==> i.value < |deployments| && deployments[i.value].event == event
    ensures i.None? ==> forall k :: 0 <= k < |deployments| ==> deployments[k].event != event
  {
    if deployments == [] then None
    else
      var n := |deployments| - 1;
      if deployments[n].event == event then Some(n) else Find(deployments[..n], event)
  }

  predicate Resolves(c: Catalogue, d: Delivery) {
    (d.system, d.subsystem) in c.subsystems && d.environment in c.environments
  }

  function KeyOf(c: Catalogue, d: Delivery): BuildKey
    requires Resolves(c, d)
  {
    BuildKey(c.subsystems[(d.system, d.subsystem)], d.commit, d.number)
  }

  function CompletedAt(d: Delivery): Option<int> {
    if d.status == Some(Success) || d.status == Some(Failed) then Some(d.deployedAt) else None
  }

  /** Is the delivery accepted and new, given what else is checked. */
  predicate Accepts(s: Store, c: Catalogue, d: Delivery, valid: bool) {
    && d.status.Some?
    && (var found := Find(s.deployments, d.event);
        if found.Some? then
          d.status.value != s.deployments[found.value].status
          && MayFollow(d.status.value, s.deployments[found.value].status)
        else d.change.Some? ==> d.change.value < |s.changes| && !s.changes[d.change.value].deleted)
    && Resolves(c, d) && valid
  }

  predicate IsReplay(s: Store, d: Delivery) {
    d.status.Some? && Find(s.deployments, d.event).Some?
    && s.deployments[Find(s.deployments, d.event).value].status == d.status.value
  }

  /** The build row is inserted, or its details are replaced. */
  function WithBuild(s: Store, key: BuildKey, details: string): Store {
    s.(builds := s.builds[key := details])
  }

  /** A first delivery's change request: the one named, or a new one. */
  function WithChange(s: Store, d: Delivery): Store {
    if d.change.Some? then s else s.(changes := s.changes + [Change(Created, true, false)])
  }

  function ChangeFor(s: Store, d: Delivery): nat {
    if d.change.Some? then d.change.value else |s.changes|
  }

  function NewDeployment(s: Store, c: Catalogue, d: Delivery): Deployment
    requires Resolves(c, d) && d.status.Some?
  {
    Deployment(d.event, KeyOf(c, d), c.environments[d.environment], ChangeFor(s, d), d.deployedAt,
      CompletedAt(d), d.status.value, {d.status.value})
  }

  function Advanced(row: Deployment, d: Delivery): Deployment
    requires d.status.Some?
  {
    row.(status := d.status.value,
      completedAt := if CompletedAt(d).Some? then CompletedAt(d) else row.completedAt,
      reached := row.reached + {d.status.value})
  }

  function WithVersion(s: Store, c: Catalogue, d: Delivery, i: nat): Store
    requires Resolves(c, d)
  {
    if d.status != Some(Success) then s
    else s.(versions := s.versions
      + [Version(c.environments[d.environment], KeyOf(c, d).subsystem, KeyOf(c, d), BuildLabel(d.number, d.commit), i)])
  }

  function Target(status: Status): Option<ChangeStatus> {
    match status
    case Success => Some(Deployed)
    case Failed => Some(ChangeFailed)
    case _ => None
  }

  /** A terminal status moves the change request, and leaves a trace when it does. */
  function WithMove(s: Store, status: Status, change: nat): Store {
    var to := Target(status);
    if to.None? || change >= |s.changes| || s.changes[change].status == to.value then s
    else s.(changes := s.changes[change := s.changes[change].(status := to.value)],
            moves := s.moves + [Move(change, s.changes[change].status, to.value)])
  }

  /** The deployment row, inserted or advanced, and its position. */
  function WithDeployment(s: Store, c: Catalogue, d: Delivery): (r: (Store, nat))
    requires Resolves(c, d) && d.status.Some?
    ensures r.1 < |r.0.deployments|
  {
    var found := Find(s.deployments, d.event);
    if found.Some? then
      (s.(deployments := s.deployments[found.value := Advanced(s.deployments[found.value], d)]), found.value)
    else
      (WithChange(s, d).(deployments := s.deployments + [NewDeployment(s, c, d)]), |s.deployments|)
  }

  /** A delivery: its effects in full, or none of them. */
  function Deliver(s: Store, c: Catalogue, d: Delivery, valid: bool): (Store, Outcome) {
    if IsReplay(s, d) then (s, Replayed(Find(s.deployments, d.event).value))
    else if !Accepts(s, c, d, valid) then (s, Refused)
    else (Performed(s, c, d), Ingested(Place(s, d)))
  }

  /** Where an accepted delivery's deployment is. */
  function Place(s: Store, d: Delivery): nat {
    var found := Find(s.deployments, d.event);
    if found.Some? then found.value else |s.deployments|
  }

  function Performed(s: Store, c: Catalogue, d: Delivery): Store
    requires Resolves(c, d) && d.status.Some?
  {
    var (stored, i) := WithDeployment(WithBuild(s, KeyOf(c, d), d.details), c, d);
    var moved := WithMove(WithVersion(stored, c, d, i), d.status.value, stored.deployments[i].change);
    moved.(published := moved.published + [(i, d.status.value)])
  }

  /** One delivery as it arrives: what the names resolve to by then, and whether what else
      is checked passes. */
  datatype Arrival = Arrival(catalogue: Catalogue, delivery: Delivery, valid: bool)

  function Run(s: Store, arrivals: seq<Arrival>): Store {
    if arrivals == [] then s
    else
      var last := arrivals[|arrivals| - 1];
      Deliver(Run(s, arrivals[..|arrivals| - 1]), last.catalogue, last.delivery, last.valid).0
  }

  // ----------------------------------------------------------------- the invariant

  function Rank(s: Status): nat {
    match s
    case Pending => 0
    case InProgress => 1
    case Success => 2
    case Failed => 2
    case RolledBack => 3
  }

  predicate Reached(s: Store, i: nat, status: Status) {
    i < |s.deployments| && status in s.deployments[i].reached
  }

  function VersionsFor(versions: seq<Version>, i: nat): nat {
    if versions == [] then 0
    else VersionsFor(versions[..|versions| - 1], i) + if versions[|versions| - 1].deployment == i then 1 else 0
  }

  ghost predicate EventsUnique(s: Store) {
    forall i, j :: 0 <= i < j < |s.deployments| ==> s.deployments[i].event != s.deployments[j].event
  }

  /** The status stands above every other status reached. */
  predicate Topmost(row: Deployment) {
    && row.status in row.reached
    && !(Success in row.reached && Failed in row.reached)
    && forall st :: st in row.reached ==> st == row.status || Rank(st) < Rank(row.status)
  }

  ghost predicate EffectsOnce(s: Store) {
    && (forall i: nat :: VersionsFor(s.versions, i) == if Reached(s, i, Success) then 1 else 0)
    && forall i: nat, st :: multiset(s.published)[(i, st)] == if Reached(s, i, st) then 1 else 0
  }

  /** Deployment `i` made its change request and no other deployment uses it. */
  ghost predicate Unshared(s: Store, i: nat) {
    && i < |s.deployments| && s.deployments[i].change < |s.changes| && s.changes[s.deployments[i].change].auto
    && forall j :: 0 <= j < |s.deployments| && j != i ==> s.deployments[j].change != s.deployments[i].change
  }

  function Outcomes(reached: set<Status>): ChangeStatus {
    if Success in reached then Deployed else if Failed in reached then ChangeFailed else Created
  }

  /** Some deployment has the change request as its own. */
  predicate Owned(s: Store, k: nat) {
    exists i :: 0 <= i < |s.deployments| && s.deployments[i].change == k
  }

  ghost predicate ChangesFollow(s: Store) {
    && (forall i :: 0 <= i < |s.deployments| ==> s.deployments[i].change < |s.changes|)
    && (forall k :: 0 <= k < |s.changes| && s.changes[k].auto ==> Owned(s, k))
    && forall i: nat :: Unshared(s, i) ==>
      s.changes[s.deployments[i].change].status == Outcomes(s.deployments[i].reached)
  }

  ghost predicate Inv(s: Store) {
    && EventsUnique(s)
    && (forall i :: 0 <= i < |s.deployments| ==> Topmost(s.deployments[i]))
    && EffectsOnce(s)
    && ChangesFollow(s)
  }

  ghost predicate Start(s: Store) {
    s.deployments == [] && s.versions == [] && s.published == [] && forall k :: 0 <= k < |s.changes| ==> !s.changes[k].auto
  }

  // ------------------------------------------------------------ a delivery keeps it

  /** What the row of an accepted delivery becomes. */
  function RowAfter(s: Store, c: Catalogue, d: Delivery): Deployment
    requires Resolves(c, d) && d.status.Some?
  {
    var found := Find(s.deployments, d.event);
    if found.Some? then Advanced(s.deployments[found.value], d) else NewDeployment(s, c, d)
  }

  lemma DeliverEffects(s: Store, c: Catalogue, d: Delivery, valid: bool)
    requires Accepts(s, c, d, valid)
    ensures !IsReplay(s, d)
    ensures var s', i, row := Deliver(s, c, d, valid).0, Place(s, d), RowAfter(s, c, d);
      && s'.deployments == (if i < |s.deployments| then s.deployments[i := row] else s.deployments + [row])
      && s'.versions == WithVersion(s, c, d, i).versions
      && s'.published == s.published + [(i, d.status.value)]
      && var changed := if i < |s.deployments| then s else WithChange(s, d);
        s'.changes == WithMove(changed, d.status.value, row.change).changes
  {
  }

  lemma NewStatus(s: Store, c: Catalogue, d: Delivery, valid: bool)
    requires Inv(s) && Accepts(s, c, d, valid)
    ensures !Reached(s, Place(s, d), d.status.value)
    ensures Topmost(RowAfter(s, c, d))
    ensures RowAfter(s, c, d).reached == (if Place(s, d) < |s.deployments| then s.deployments[Place(s, d)].reached else {})
      + {d.status.value}
    ensures RowAfter(s, c, d).event == d.event
  {
  }

  lemma ReachedAfter(s: Store, c: Catalogue, d: Delivery, valid: bool, i: nat, st: Status)
    requires Inv(s) && Accepts(s, c, d, valid)
    ensures Reached(Deliver(s, c, d, valid).0, i, st) <==>
      Reached(s, i, st) || (i == Place(s, d) && Some(st) == d.status)
  {
    hide Deliver, RowAfter, EffectsOnce, ChangesFollow;
    DeliverEffects(s, c, d, valid);
    NewStatus(s, c, d, valid);
  }

  lemma EffectsKept(s: Store, c: Catalogue, d: Delivery, valid: bool)
    requires Inv(s) && Accepts(s, c, d, valid)
    ensures EffectsOnce(Deliver(s, c, d, valid).0)
  {
    hide Deliver, RowAfter, ChangesFollow, EventsUnique, Topmost, Find, Reached;
    DeliverEffects(s, c, d, valid);
    NewStatus(s, c, d, valid);
    var s', p := Deliver(s, c, d, valid).0, Place(s, d);
    forall i: nat ensures VersionsFor(s'.versions, i) == if Reached(s', i, Success) then 1 else 0 {
      ReachedAfter(s, c, d, valid, i, Success);
      VersionAdded(s, c, d, p, i);
    }
    forall i: nat, st ensures multiset(s'.published)[(i, st)] == if Reached(s', i, st) then 1 else 0 {
      ReachedAfter(s, c, d, valid, i, st);
    }
  }

  lemma VersionAdded(s: Store, c: Catalogue, d: Delivery, p: nat, i: nat)
    requires Resolves(c, d)
    ensures VersionsFor(WithVersion(s, c, d, p).versions, i)
      == VersionsFor(s.versions, i) + if d.status == Some(Success) && i == p then 1 else 0
  {
  }

  /** What a delivery does to the change requests. */
  lemma ChangesAfter(s: Store, c: Catalogue, d: Delivery, valid: bool)
    requires Inv(s) && Accepts(s, c, d, valid)
    ensures var changes, k, added := Deliver(s, c, d, valid).0.changes, RowAfter(s, c, d).change,
        Place(s, d) == |s.deployments| && d.change.None?;
      && |changes| == |s.changes| + (if added then 1 else 0)
      && k < |changes| && (added ==> k == |s.changes|)
      && (forall n :: 0 <= n < |s.changes| ==> changes[n].auto == s.changes[n].auto)
      && (forall n :: 0 <= n < |s.changes| && n != k ==> changes[n] == s.changes[n])
      && changes[k].status == (if Target(d.status.value).Some? then Target(d.status.value).value
        else if added then Created else s.changes[k].status)
  {
    hide Deliver, EffectsOnce, EventsUnique, Topmost;
    DeliverEffects(s, c, d, valid);
  }

  lemma OutcomesAfter(reached: set<Status>, st: Status)
    requires forall x :: x in reached ==> Rank(x) < Rank(st)
    ensures Outcomes(reached + {st}) == if Target(st).Some? then Target(st).value else Outcomes(reached)
  {
  }

  lemma NewStatusAbove(s: Store, c: Catalogue, d: Delivery, valid: bool, x: Status)
    requires Inv(s) && Accepts(s, c, d, valid) && Reached(s, Place(s, d), x)
    ensures Rank(x) < Rank(d.status.value)
  {
  }

  /** The delivery's own deployment, when it was there before. */
  lemma OwnStatusAfter(s: Store, c: Catalogue, d: Delivery, valid: bool)
    requires Inv(s) && Accepts(s, c, d, valid) && Place(s, d) < |s.deployments| && Unshared(s, Place(s, d))
    ensures var s', p := Deliver(s, c, d, valid).0, Place(s, d);
      s.deployments[p].change < |s'.changes|
      && s'.changes[s.deployments[p].change].status == Outcomes(s.deployments[p].reached + {d.status.value})
  {
    hide Deliver, EffectsOnce, EventsUnique, Outcomes, Target;
    ChangesAfter(s, c, d, valid);
    var reached, st := s.deployments[Place(s, d)].reached, d.status.value;
    forall x | x in reached ensures Rank(x) < Rank(st) {
      NewStatusAbove(s, c, d, valid, x);
    }
    OutcomesAfter(reached, st);
  }

  /** A deployment made by the delivery, with a change request of its own. */
  lemma FirstStatusAfter(s: Store, c: Catalogue, d: Delivery, valid: bool)
    requires Inv(s) && Accepts(s, c, d, valid) && Place(s, d) == |s.deployments| && d.change.None?
    ensures var s' := Deliver(s, c, d, valid).0;
      |s.changes| < |s'.changes| && s'.changes[|s.changes|].status == Outcomes({d.status.value})
  {
    hide Deliver, EffectsOnce, EventsUnique;
    ChangesAfter(s, c, d, valid);
  }

  /** A new deployment that names its change request shares it if a deployment made it. */
  lemma NamedIsShared(s: Store, c: Catalogue, d: Delivery, valid: bool)
    requires Inv(s) && Accepts(s, c, d, valid) && Place(s, d) == |s.deployments| && d.change.Some?
    ensures !Unshared(Deliver(s, c, d, valid).0, |s.deployments|)
  {
    hide Deliver, EffectsOnce, EventsUnique, Topmost;
    DeliverEffects(s, c, d, valid);
    ChangesAfter(s, c, d, valid);
    var s', k := Deliver(s, c, d, valid).0, d.change.value;
    if k < |s.changes| && s.changes[k].auto {
      OwnedStill(s, s', k);
    }
  }

  lemma UnsharedBefore(s: Store, c: Catalogue, d: Delivery, valid: bool, i: nat)
    requires Inv(s) && Accepts(s, c, d, valid)
    ensures Unshared(Deliver(s, c, d, valid).0, i) ==>
      (i < |s.deployments| ==> Unshared(s, i) && (i != Place(s, d) ==> RowAfter(s, c, d).change != s.deployments[i].change))
      && (i >= |s.deployments| ==> i == Place(s, d) == |s.deployments| && d.change.None?)
  {
    hide Deliver, EffectsOnce, EventsUnique, Topmost;
    DeliverEffects(s, c, d, valid);
    ChangesAfter(s, c, d, valid);
    var s', p := Deliver(s, c, d, valid).0, Place(s, d);
    assert s'.deployments[p].change == RowAfter(s, c, d).change;
    forall j | 0 <= j < |s.deployments| ensures s'.deployments[j].change == s.deployments[j].change {
    }
    if Place(s, d) == |s.deployments| && d.change.Some? {
      NamedIsShared(s, c, d, valid);
    }
  }

  lemma ChangeStatusAfter(s: Store, c: Catalogue, d: Delivery, valid: bool, i: nat)
    requires Inv(s) && Accepts(s, c, d, valid)
    ensures var s' := Deliver(s, c, d, valid).0;
      Unshared(s', i) ==> s'.changes[s'.deployments[i].change].status == Outcomes(s'.deployments[i].reached)
  {
    hide Deliver, EffectsOnce, EventsUnique, Accepts, Outcomes, Target, Unshared, Find;
    if Unshared(Deliver(s, c, d, valid).0, i) {
      DeliverEffects(s, c, d, valid);
      NewStatus(s, c, d, valid);
      ChangesAfter(s, c, d, valid);
      UnsharedBefore(s, c, d, valid, i);
      if i >= |s.deployments| {
        FirstStatusAfter(s, c, d, valid);
      } else if i == Place(s, d) {
        OwnStatusAfter(s, c, d, valid);
      }
    }
  }

  lemma OwnedStill(s: Store, s': Store, k: nat)
    requires Owned(s, k) && |s.deployments| <= |s'.deployments|
    requires forall i :: 0 <= i < |s.deployments| ==> s'.deployments[i].change == s.deployments[i].change
    ensures exists i :: 0 <= i < |s.deployments| && s'.deployments[i].change == k
    ensures Owned(s', k)
  {
  }

  lemma ChangesKept(s: Store, c: Catalogue, d: Delivery, valid: bool)
    requires Inv(s) && Accepts(s, c, d, valid)
    ensures ChangesFollow(Deliver(s, c, d, valid).0)
  {
    hide Deliver, EffectsOnce, EventsUnique, Accepts, Outcomes;
    DeliverEffects(s, c, d, valid);
    ChangesAfter(s, c, d, valid);
    var s', p := Deliver(s, c, d, valid).0, Place(s, d);
    forall k | 0 <= k < |s'.changes| && s'.changes[k].auto ensures Owned(s', k) {
      if k < |s.changes| {
        OwnedStill(s, s', k);
      } else {
        assert s'.deployments[p].change == k;
      }
    }
    forall i: nat | Unshared(s', i)
      ensures s'.changes[s'.deployments[i].change].status == Outcomes(s'.deployments[i].reached)
    {
      ChangeStatusAfter(s, c, d, valid, i);
    }
  }

  lemma RowsKept(s: Store, c: Catalogue, d: Delivery, valid: bool)
    requires Inv(s) && Accepts(s, c, d, valid)
    ensures var s' := Deliver(s, c, d, valid).0;
      EventsUnique(s') && forall i :: 0 <= i < |s'.deployments| ==> Topmost(s'.deployments[i])
  {
    hide Deliver, EffectsOnce, ChangesFollow, Topmost, RowAfter;
    DeliverEffects(s, c, d, valid);
    NewStatus(s, c, d, valid);
  }

  lemma DeliverKeeps(s: Store, c: Catalogue, d: Delivery, valid: bool)
    requires Inv(s)
    ensures Inv(Deliver(s, c, d, valid).0)
  {
    hide EffectsOnce, ChangesFollow, EventsUnique, Topmost, Performed, Accepts;
    if Accepts(s, c, d, valid) {
      RowsKept(s, c, d, valid);
      EffectsKept(s, c, d, valid);
      ChangesKept(s, c, d, valid);
    }
  }

  lemma {:induction false} RunKeeps(s: Store, arrivals: seq<Arrival>)
    requires Inv(s)
    ensures Inv(Run(s, arrivals))
  {
    hide Inv, Deliver;
    if arrivals != [] {
      var front, last := arrivals[..|arrivals| - 1], arrivals[|arrivals| - 1];
      RunKeeps(s, front);
      DeliverKeeps(Run(s, front), last.catalogue, last.delivery, last.valid);
    }
  }

  lemma StartKeeps(s: Store)
    requires Start(s)
    ensures Inv(s)
  {
  }

  // ----------------------------------------------------------------- main results

  /** Whatever is delivered, and however often: each event has one deployment at most; a
      deployment records one version if it ever succeeded and none otherwise, and publishes
      each status it reached once. */
  lemma EffectsHappenOnce(s: Store, arrivals: seq<Arrival>)
    requires Start(s)
    ensures EventsUnique(Run(s, arrivals)) && EffectsOnce(Run(s, arrivals))
  {
    StartKeeps(s);
    RunKeeps(s, arrivals);
  }

  /** A change request made for one deployment alone is deployed exactly when the deployment
      ever succeeded, failed exactly when it ever failed, and otherwise as it was made. */
  lemma ChangeStatusExactly(s: Store, arrivals: seq<Arrival>, i: nat)
    requires Start(s) && Unshared(Run(s, arrivals), i)
    ensures var s' := Run(s, arrivals);
      var status := s'.changes[s'.deployments[i].change].status;
      && (status == Deployed <==> Reached(s', i, Success))
      && (status == ChangeFailed <==> Reached(s', i, Failed))
      && (status == Created <==> !Reached(s', i, Success) && !Reached(s', i, Failed))
  {
    StartKeeps(s);
    RunKeeps(s, arrivals);
    NotBoth(Run(s, arrivals), i);
  }

  lemma NotBoth(s: Store, i: nat)
    requires Inv(s)
    ensures !(Reached(s, i, Success) && Reached(s, i, Failed))
  {
  }

  /** What a later delivery leaves of a deployment. */
  predicate MovedOn(row: Deployment, row': Deployment) {
    && row'.event == row.event && row'.build == row.build && row'.environment == row.environment
    && row'.change == row.change && row'.deployedAt == row.deployedAt
    && row.reached <= row'.reached
    && (row'.status == row.status || Rank(row.status) < Rank(row'.status))
  }

  lemma DeliverMovesOn(s: Store, c: Catalogue, d: Delivery, valid: bool, i: nat)
    requires Inv(s) && i < |s.deployments|
    ensures i < |Deliver(s, c, d, valid).0.deployments|
    ensures MovedOn(s.deployments[i], Deliver(s, c, d, valid).0.deployments[i])
  {
    if Accepts(s, c, d, valid) {
      hide Deliver, EffectsOnce, ChangesFollow, EventsUnique;
      DeliverEffects(s, c, d, valid);
      if i == Place(s, d) {
        AdvanceMovesOn(s, c, d, valid);
      }
    }
  }

  lemma AdvanceMovesOn(s: Store, c: Catalogue, d: Delivery, valid: bool)
    requires Inv(s) && Accepts(s, c, d, valid) && Place(s, d) < |s.deployments|
    ensures MovedOn(s.deployments[Place(s, d)], RowAfter(s, c, d))
  {
    hide EffectsOnce, ChangesFollow, EventsUnique, Topmost;
  }

  /** A deployment's status only ever moves forward; its event, build, environment and
      change request never change. */
  lemma {:induction false} ForwardOnly(s: Store, arrivals: seq<Arrival>, i: nat)
    requires Inv(s) && i < |s.deployments|
    ensures i < |Run(s, arrivals).deployments|
    ensures MovedOn(s.deployments[i], Run(s, arrivals).deployments[i])
  {
    hide Inv, Deliver;
    if arrivals != [] {
      var front, last := arrivals[..|arrivals| - 1], arrivals[|arrivals| - 1];
      ForwardOnly(s, front, i);
      RunKeeps(s, front);
      DeliverMovesOn(Run(s, front), last.catalogue, last.delivery, last.valid, i);
    }
  }

  /** Delivering again any status a deployment has reached changes nothing: it is replayed
      if it is the current one, and refused if not. */
  lemma RedeliveryChangesNothing(s: Store, c: Catalogue, d: Delivery, valid: bool, i: nat)
    requires Inv(s) && i < |s.deployments| && s.deployments[i].event == d.event
    requires d.status.Some? && Reached(s, i, d.status.value)
    ensures Deliver(s, c, d, valid)
      == (s, if s.deployments[i].status == d.status.value then Replayed(i) else Refused)
  {
  }

  /** An accepted delivery is never ingested a second time, whatever arrived in between. */
  lemma NeverIngestedTwice(
    s: Store, c: Catalogue, d: Delivery, valid: bool, between: seq<Arrival>, again: Arrival)
    requires Inv(s) && Deliver(s, c, d, valid).1.Ingested?
    requires again.delivery.event == d.event && again.delivery.status == d.status
    ensures var later := Run(Deliver(s, c, d, valid).0, between);
      var outcome := Deliver(later, again.catalogue, again.delivery, again.valid);
      outcome.0 == later && !outcome.1.Ingested?
  {
    var s', p := Deliver(s, c, d, valid).0, Place(s, d);
    DeliverKeeps(s, c, d, valid);
    AcceptedIsReached(s, c, d, valid);
    ForwardOnly(s', between, p);
    RunKeeps(s', between);
    hide Deliver, Inv, Run;
    RedeliveryChangesNothing(Run(s', between), again.catalogue, again.delivery, again.valid, p);
  }

  lemma AcceptedIsReached(s: Store, c: Catalogue, d: Delivery, valid: bool)
    requires Inv(s) && Deliver(s, c, d, valid).1.Ingested?
    ensures var s', p := Deliver(s, c, d, valid).0, Place(s, d);
      d.status.Some? && p < |s'.deployments| && s'.deployments[p].event == d.event && Reached(s', p, d.status.value)
  {
  }

  // --------------------------------------------------------- where a version stands

  /** The version stands where its deployment row says the deployment is. */
  predicate Agrees(v: Version, row: Deployment) {
    v.environment == row.environment && v.build == row.build && v.subsystem == row.build.subsystem
  }

  /** A delivery names what the event's first delivery named. */
  predicate NamesTheSame(s: Store, c: Catalogue, d: Delivery)
    requires Resolves(c, d)
  {
    var found := Find(s.deployments, d.event);
    found.Some? ==>
      c.environments[d.environment] == s.deployments[found.value].environment
      && KeyOf(c, d) == s.deployments[found.value].build
  }

  lemma VersionsStay(s: Store, c: Catalogue, d: Delivery, valid: bool)
    ensures |s.versions| <= |Deliver(s, c, d, valid).0.versions|
    ensures forall k :: 0 <= k < |s.versions| ==> Deliver(s, c, d, valid).0.versions[k] == s.versions[k]
  {
    if Accepts(s, c, d, valid) {
      hide Deliver;
      DeliverEffects(s, c, d, valid);
    }
  }

  lemma {:induction false} VersionsStayOnRun(s: Store, arrivals: seq<Arrival>, k: nat)
    requires k < |s.versions|
    ensures k < |Run(s, arrivals).versions| && Run(s, arrivals).versions[k] == s.versions[k]
  {
    hide Deliver;
    if arrivals != [] {
      var front, last := arrivals[..|arrivals| - 1], arrivals[|arrivals| - 1];
      VersionsStayOnRun(s, front, k);
      VersionsStay(Run(s, front), last.catalogue, last.delivery, last.valid);
    }
  }

  lemma VersionOf(s: Store, c: Catalogue, d: Delivery, valid: bool)
    requires Inv(s) && Accepts(s, c, d, valid) && d.status == Some(Success)
    ensures var s', k := Deliver(s, c, d, valid).0, |s.versions|;
      && k < |s'.versions| && s'.versions[k].deployment == Place(s, d) < |s'.deployments|
      && (Agrees(s'.versions[k], s'.deployments[Place(s, d)]) <==> NamesTheSame(s, c, d))
  {
    hide Deliver, Inv;
    DeliverEffects(s, c, d, valid);
  }

  /** A success may name another system, environment or build than the event's first
      delivery, and its version is recorded where it says. The version stands where its
      deployment row says, then and ever after, exactly when the two name the same. */
  lemma VersionWhereExactly(
    s: Store, c: Catalogue, d: Delivery, valid: bool, later: seq<Arrival>)
    requires Inv(s) && Deliver(s, c, d, valid).1.Ingested? && d.status == Some(Success)
    ensures Resolves(c, d)
    ensures var s', k := Run(Deliver(s, c, d, valid).0, later), |s.versions|;
      && k < |s'.versions| && s'.versions[k].deployment < |s'.deployments|
      && s'.deployments[s'.versions[k].deployment].event == d.event
      && (Agrees(s'.versions[k], s'.deployments[s'.versions[k].deployment]) <==> NamesTheSame(s, c, d))
  {
    var after := Deliver(s, c, d, valid).0;
    DeliverKeeps(s, c, d, valid);
    AcceptedIsReached(s, c, d, valid);
    VersionOf(s, c, d, valid);
    hide Deliver, Inv, Run, NamesTheSame;
    VersionsStayOnRun(after, later, |s.versions|);
    ForwardOnly(after, later, Place(s, d));
  }

  // ----------------------------------------------------------------- the operation

  class Webhooks {
    var deployments: seq<Deployment>
    var builds: map<BuildKey, string>
    var versions: seq<Version>
    var changes: seq<Change>
    var moves: seq<Move>
    var published: seq<(nat, Status)>

    ghost function View(): Store
      reads this
    {
      Store(deployments, builds, versions, changes, moves, published)
    }

    constructor (changes: seq<Change>)
      ensures View() == Store([], map[], [], changes, [], [])
    {
      this.deployments, this.builds, this.versions := [], map[], [];
      this.changes, this.moves, this.published := changes, [], [];
    }

    method Lookup(event: string) returns (found: Option<nat>)
      ensures found == Find(deployments, event)
    {
      found := None;
      for i := 0 to |deployments|
        invariant found == Find(deployments[..i], event)
      {
        assert deployments[..i + 1][..i] == deployments[..i];
        if deployments[i].event == event {
          found := Some(i);
        }
      }
      assert deployments[..|deployments|] == deployments;
    }

    /** Move the change request of a terminal status. */
    method MoveChange(status: Status, change: nat)
      requires change < |changes|
      modifies this`changes, this`moves
      ensures View() == WithMove(old(View()), status, change)
    {
      if status == Success || status == Failed {
        var target := if status == Success then Deployed else ChangeFailed;
        var from := changes[change].status;
        if from != target {
          changes := changes[change := changes[change].(status := target)];
          moves := moves + [Move(change, from, target)];
        }
      }
    }

    /** The row, inserted with its change request or advanced. */
    method WriteDeployment(c: Catalogue, d: Delivery, found: Option<nat>) returns (i: nat)
      requires Resolves(c, d) && d.status.Some? && found == Find(deployments, d.event)
      modifies this`deployments, this`changes
      ensures (View(), i) == WithDeployment(old(View()), c, d)
    {
      if found.Some? {
        i := found.value;
        deployments := deployments[i := Advanced(deployments[i], d)];
        return;
      }
      i := |deployments|;
      var change := if d.change.Some? then d.change.value else |changes|;
      if d.change.None? {
        changes := changes + [Change(Created, true, false)];
      }
      deployments := deployments
        + [Deployment(d.event, KeyOf(c, d), c.environments[d.environment], change, d.deployedAt,
             CompletedAt(d), d.status.value, {d.status.value})];
    }

    /** The writes of an accepted delivery. */
    method Perform(c: Catalogue, d: Delivery, found: Option<nat>) returns (i: nat)
      requires Resolves(c, d) && d.status.Some? && found == Find(deployments, d.event)
      requires found.Some? ==> deployments[found.value].change < |changes|
      requires found.None? && d.change.Some? ==> d.change.value < |changes|
      modifies this
      ensures View() == Performed(old(View()), c, d) && i == Place(old(View()), d)
    {
      hide Find, WithMove;
      builds := builds[KeyOf(c, d) := d.details];
      i := WriteDeployment(c, d, found);
      if d.status.value == Success {
        versions := versions
          + [Version(c.environments[d.environment], KeyOf(c, d).subsystem, KeyOf(c, d), BuildLabel(d.number, d.commit), i)];
      }
      MoveChange(d.status.value, deployments[i].change);
      published := published + [(i, d.status.value)];
    }

    /** One delivery, all in one transaction. `valid` is whether what else is checked along
        the way passes; a refusal anywhere leaves nothing behind. */
    method Ingest(c: Catalogue, d: Delivery, valid: bool) returns (outcome: Outcome)
      requires Inv(View())
      modifies this
      ensures (View(), outcome) == Deliver(old(View()), c, d, valid)
      ensures Inv(View())
    {
      DeliverKeeps(View(), c, d, valid);
      hide Inv, Find;
      if d.status.None? {
        return Refused;
      }
      var found := Lookup(d.event);
      if found.Some? && deployments[found.value].status == d.status.value {
        return Replayed(found.value);
      }
      if found.Some? && !MayFollow(d.status.value, deployments[found.value].status) {
        return Refused;
      }
      if !Resolves(c, d) || !valid {
        return Refused;
      }
      if found.None? && d.change.Some? && (d.change.value >= |changes| || changes[d.change.value].deleted) {
        return Refused;
      }
      var i := Perform(c, d, found);
      return Ingested(i);
    }
  }
}
