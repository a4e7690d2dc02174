/** What a delivery does, first or later: which statuses may follow which, and every row it
    leaves different. */
module IngestEffects {
  import opened Builds
  import opened Options
  import opened Ingest

  /** The statuses that may follow one another. */
  const STEPS: set<(Status, Status)> := {
    (Pending, InProgress), (Pending, Success), (Pending, Failed),
    (InProgress, Success), (InProgress, Failed),
    (Success, RolledBack), (Failed, RolledBack)}

  lemma FollowsExactly(current: Status, next: Status)
    ensures MayFollow(next, current) <==> next == current || (current, next) in STEPS
  {
  }

  /** A build is called by its number, and one without a number by the first eight characters
      of its commit. */
  lemma LabelExactly(number: Option<string>, commit: string)
    ensures number.Some? && number.value != "" ==> BuildLabel(number, commit) == number.value
    ensures number == None || number == Some("") ==>
      BuildLabel(number, commit) <= commit && |BuildLabel(number, commit)| == (if |commit| < 8 then |commit| else 8)
  {
  }

  /** No deployment of the event is stored. */
  predicate NewEvent(s: Store, event: string) {
    forall i :: 0 <= i < |s.deployments| ==> s.deployments[i].event != event
  }

  /** The deployment of the event is at `i`. */
  predicate EventAt(s: Store, event: string, i: nat) {
    i < |s.deployments| && s.deployments[i].event == event
  }

  predicate NamesKnown(c: Catalogue, d: Delivery) {
    (d.system, d.subsystem) in c.subsystems && d.environment in c.environments
  }

  /** The change request named is there. */
  predicate ChangeThere(s: Store, d: Delivery) {
    d.change.Some? ==> d.change.value < |s.changes| && !s.changes[d.change.value].deleted
  }

  /** What a success adds to the versions, and any other status does not. */
  ghost predicate VersionAdded(s: Store, s': Store, c: Catalogue, d: Delivery, i: nat)
    requires NamesKnown(c, d)
  {
    var subsystem := c.subsystems[(d.system, d.subsystem)];
    s'.versions == s.versions + if d.status == Some(Success) then
      [Version(c.environments[d.environment], subsystem, BuildKey(subsystem, d.commit, d.number),
        BuildLabel(d.number, d.commit), i)] else []
  }

  /** A success makes the change request deployed and a failure failed, with a trace of the
      move if it was not so already; any other status leaves it. */
  ghost predicate ChangeMoved(before: seq<Change>, moves: seq<Move>, s': Store, k: nat, status: Status)
    requires k < |before|
  {
    var from := before[k].status;
    var to := if status == Success then Deployed else if status == Failed then ChangeFailed else from;
    && s'.changes == before[k := before[k].(status := to)]
    && s'.moves == moves + if to == from then [] else [Move(k, from, to)]
  }

  /** A first delivery is accepted exactly when its status is known, its names resolve, the
      change request it names is there and the rest is valid; it stores the deployment as it
      says, with a change request made for it if it names none. */
  lemma FirstExactly(s: Store, c: Catalogue, d: Delivery, valid: bool)
    requires NewEvent(s, d.event)
    ensures var (s', o) := Deliver(s, c, d, valid);
      && (o.Ingested? <==> d.status.Some? && NamesKnown(c, d) && ChangeThere(s, d) && valid)
      && (!o.Ingested? ==> o == Refused && s' == s)
      && (o.Ingested? ==> FirstStored(s, s', c, d) && o == Ingested(|s.deployments|))
  {
    assert Find(s.deployments, d.event) == None;
    hide Find, Performed, FirstStored;
    if Deliver(s, c, d, valid).1.Ingested? {
      FirstPerformed(s, c, d);
    }
  }

  lemma FirstPerformed(s: Store, c: Catalogue, d: Delivery)
    requires Find(s.deployments, d.event) == None && NamesKnown(c, d) && d.status.Some? && ChangeThere(s, d)
    ensures FirstStored(s, Performed(s, c, d), c, d)
  {
    hide Find;
  }

  ghost predicate FirstStored(s: Store, s': Store, c: Catalogue, d: Delivery)
    requires NamesKnown(c, d) && d.status.Some? && ChangeThere(s, d)
  {
    var key := BuildKey(c.subsystems[(d.system, d.subsystem)], d.commit, d.number);
    var k := if d.change.Some? then d.change.value else |s.changes|;
    var changes := if d.change.Some? then s.changes else s.changes + [Change(Created, true, false)];
    var ends := d.status.value == Success || d.status.value == Failed;
    && s'.deployments == s.deployments + [Deployment(
      d.event, key, c.environments[d.environment], k, d.deployedAt,
      if ends then Some(d.deployedAt) else None, d.status.value, {d.status.value})]
    && s'.builds == s.builds[key := d.details]
    && VersionAdded(s, s', c, d, |s.deployments|)
    && ChangeMoved(changes, s.moves, s', k, d.status.value)
    && s'.published == s.published + [(|s.deployments|, d.status.value)]
  }

  /** A later delivery is replayed exactly when it repeats the status; it is accepted exactly
      when its status may follow, its names resolve and the rest is valid; it moves the
      deployment's status, and its completion if the status is one that completes. */
  lemma LaterExactly(s: Store, c: Catalogue, d: Delivery, valid: bool, i: nat)
    requires Inv(s) && EventAt(s, d.event, i)
    ensures var (s', o) := Deliver(s, c, d, valid);
      && (o == Replayed(i) <==> d.status == Some(s.deployments[i].status))
      && (o.Ingested? <==> (d.status.Some? && (s.deployments[i].status, d.status.value) in STEPS
        && NamesKnown(c, d) && valid))
      && (!o.Ingested? ==> s' == s)
      && (o.Ingested? ==> s.deployments[i].change < |s.changes| && LaterStored(s, s', c, d, i) && o == Ingested(i))
  {
    assert Find(s.deployments, d.event) == Some(i);
    ChangeIsThere(s, i);
    hide Inv, Find, Performed, LaterStored;
    if Deliver(s, c, d, valid).1.Ingested? {
      LaterPerformed(s, c, d, i);
    }
  }

  lemma LaterPerformed(s: Store, c: Catalogue, d: Delivery, i: nat)
    requires Find(s.deployments, d.event) == Some(i) && i < |s.deployments|
    requires NamesKnown(c, d) && d.status.Some? && s.deployments[i].change < |s.changes|
    ensures LaterStored(s, Performed(s, c, d), c, d, i)
  {
    hide Find;
  }

  lemma ChangeIsThere(s: Store, i: nat)
    requires Inv(s) && i < |s.deployments|
    ensures s.deployments[i].change < |s.changes|
  {
  }

  ghost predicate LaterStored(s: Store, s': Store, c: Catalogue, d: Delivery, i: nat)
    requires NamesKnown(c, d) && d.status.Some? && i < |s.deployments| && s.deployments[i].change < |s.changes|
  {
    var key := BuildKey(c.subsystems[(d.system, d.subsystem)], d.commit, d.number);
    var row, ends := s.deployments[i], d.status.value == Success || d.status.value == Failed;
    && s'.deployments == s.deployments[i := row.(
      status := d.status.value, completedAt := if ends then Some(d.deployedAt) else row.completedAt,
      reached := row.reached + {d.status.value})]
    && s'.builds == s.builds[key := d.details]
    && VersionAdded(s, s', c, d, i)
    && ChangeMoved(s.changes, s.moves, s', row.change, d.status.value)
    && s'.published == s.published + [(i, d.status.value)]
  }
}
