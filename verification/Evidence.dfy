/** Gate evidence: whether the deployment a piece of evidence cites has been superseded. */
module Evidence {
  import opened Builds
  import opened Options

  datatype Build = Build(subsystem: int, number: Option<string>, commit: string)

  /** A deployment row: its build is in `builds` (a foreign key). */
  datatype Deployment = Deployment(
    tenant: int, build: int, environment: int, deployedAt: int, success: bool, deleted: bool)

  datatype Tables = Tables(builds: map<int, Build>, deployments: map<int, Deployment>, environments: map<int, string>)

  /** A piece of evidence and the deployment it cites, if any. */
  datatype Item = Item(id: int, deployment: Option<int>)

  datatype Detail = Detail(
    environment: Option<string>, supersededLabel: string, supersededAt: int, supersedingLabel: string, supersedingAt: int)

  predicate Joined(t: Tables) {
    forall d :: d in t.deployments ==> t.deployments[d].build in t.builds
  }

  function Place(t: Tables, d: int): (int, int)
    requires Joined(t) && d in t.deployments
  {
    (t.builds[t.deployments[d].build].subsystem, t.deployments[d].environment)
  }

  function LabelOf(b: Build): string {
    BuildLabel(b.number, b.commit)
  }

  predicate Cited(t: Tables, tenant: int, d: int) {
    d in t.deployments && t.deployments[d].tenant == tenant
  }

  predicate Candidate(t: Tables, tenant: int, d: int) {
    Cited(t, tenant, d) && t.deployments[d].success && !t.deployments[d].deleted
  }

  /** A later successful deployment of the same subsystem into the same environment. */
  predicate Supersedes(t: Tables, tenant: int, later: int, d: int)
    requires Joined(t) && d in t.deployments
  {
    Candidate(t, tenant, later) && Place(t, later) == Place(t, d)
    && t.deployments[later].deployedAt > t.deployments[d].deployedAt
  }

  /** The plain meaning of stale. */
  ghost predicate Stale(t: Tables, tenant: int, e: Item)
    requires Joined(t)
  {
    e.deployment.Some? && Cited(t, tenant, e.deployment.value)
    && exists later :: Supersedes(t, tenant, later, e.deployment.value)
  }

  /** `newest` is a last candidate of its place. */
  ghost predicate IsNewest(t: Tables, tenant: int, newest: int)
    requires Joined(t)
  {
    Candidate(t, tenant, newest) &&
    forall d :: Candidate(t, tenant, d) && Place(t, d) == Place(t, newest) ==>
      t.deployments[d].deployedAt <= t.deployments[newest].deployedAt
  }

  ghost predicate LatestSoFar(
    t: Tables, tenant: int, seen: seq<int>, latest: map<(int, int), int>)
    requires Joined(t)
  {
    && (forall p :: p in latest ==> Candidate(t, tenant, latest[p]) && Place(t, latest[p]) == p)
    && forall k :: 0 <= k < |seen| && Candidate(t, tenant, seen[k]) ==>
      var p := Place(t, seen[k]);
      p in latest && t.deployments[seen[k]].deployedAt <= t.deployments[latest[p]].deployedAt
  }

  /** One pass over the candidate rows, in whatever order they come: the newest of each
      place. */
  method LatestByPlace(t: Tables, tenant: int, rows: seq<int>) returns (latest: map<(int, int), int>)
    requires Joined(t) && forall k :: 0 <= k < |rows| ==> Candidate(t, tenant, rows[k])
    ensures LatestSoFar(t, tenant, rows, latest)
  {
    latest := map[];
    for i := 0 to |rows|
      invariant LatestSoFar(t, tenant, rows[..i], latest)
    {
      var row := rows[i];
      var p := Place(t, row);
      if p !in latest || t.deployments[row].deployedAt > t.deployments[latest[p]].deployedAt {
        latest := latest[p := row];
      }
    }
    assert rows[..|rows|] == rows;
  }

  /** The rows the query returns: every candidate at a place some citation names. */
  ghost predicate QueryResult(t: Tables, tenant: int, linked: seq<Item>, rows: seq<int>)
    requires Joined(t)
  {
    && (forall k :: 0 <= k < |rows| ==> Candidate(t, tenant, rows[k]))
    && forall k, d :: 0 <= k < |linked| && AtPlaceOf(t, tenant, d, linked[k]) ==> d in rows
  }

  predicate AtPlaceOf(t: Tables, tenant: int, d: int, e: Item)
    requires Joined(t)
  {
    e.deployment.Some? && Cited(t, tenant, e.deployment.value)
    && Candidate(t, tenant, d) && Place(t, d) == Place(t, e.deployment.value)
  }

  lemma NewestOfPlace(t: Tables, tenant: int, items: seq<Item>, rows: seq<int>, latest: map<(int, int), int>, e: Item)
    requires Joined(t) && QueryResult(t, tenant, items, rows) && LatestSoFar(t, tenant, rows, latest)
    requires e in items && e.deployment.Some? && Cited(t, tenant, e.deployment.value)
    ensures var p := Place(t, e.deployment.value);
      && (p in latest ==> IsNewest(t, tenant, latest[p]))
      && (Stale(t, tenant, e) <==>
        p in latest && t.deployments[latest[p]].deployedAt > t.deployments[e.deployment.value].deployedAt)
  {
    var p := Place(t, e.deployment.value);
    forall d | Candidate(t, tenant, d) && Place(t, d) == p
      ensures p in latest && t.deployments[d].deployedAt <= t.deployments[latest[p]].deployedAt
    {
      var n :| 0 <= n < |items| && items[n] == e;
      assert AtPlaceOf(t, tenant, d, items[n]) && d in rows;
      var k :| 0 <= k < |rows| && rows[k] == d;
    }
    if p in latest && t.deployments[latest[p]].deployedAt > t.deployments[e.deployment.value].deployedAt {
      assert Supersedes(t, tenant, latest[p], e.deployment.value);
    }
  }

  function BuildOf(t: Tables, d: int): Build
    requires Joined(t) && d in t.deployments
  {
    t.builds[t.deployments[d].build]
  }

  function EnvironmentName(t: Tables, id: int): Option<string> {
    if id in t.environments then Some(t.environments[id]) else None
  }

  /** The detail of a piece of evidence names the deployment it cites and a newest one of
      the same place. */
  ghost predicate Describes(t: Tables, tenant: int, e: Item, detail: Detail)
    requires Joined(t)
  {
    && e.deployment.Some? && e.deployment.value in t.deployments
    && detail.environment == EnvironmentName(t, t.deployments[e.deployment.value].environment)
    && detail.supersededLabel == LabelOf(BuildOf(t, e.deployment.value))
    && detail.supersededAt == t.deployments[e.deployment.value].deployedAt
    && exists newest :: NewestNamed(t, tenant, e.deployment.value, newest, detail)
  }

  ghost predicate NewestNamed(t: Tables, tenant: int, cited: int, newest: int, detail: Detail)
    requires Joined(t) && cited in t.deployments
  {
    IsNewest(t, tenant, newest) && NamedBy(t, newest, detail) && Place(t, newest) == Place(t, cited)
  }

  predicate NamedBy(t: Tables, d: int, detail: Detail)
    requires Joined(t) && d in t.deployments
  {
    detail.supersedingLabel == LabelOf(BuildOf(t, d))
    && detail.supersedingAt == t.deployments[d].deployedAt
  }

  /** Evidence is reported exactly when it is stale in the plain sense, each piece by itself
      whatever else is asked about, and the report names a newest deployment. */
  method StaleEvidenceDetails(t: Tables, tenant: int, evidence: seq<Item>, rows: seq<int>)
    returns (details: map<int, Detail>)
    requires Joined(t) && QueryResult(t, tenant, evidence, rows)
    requires forall i, j :: 0 <= i < j < |evidence| ==> evidence[i].id != evidence[j].id
    ensures forall e :: e in evidence ==> (e.id in details <==> Stale(t, tenant, e))
    ensures forall id :: id in details ==> exists e :: e in evidence && e.id == id
    ensures forall e :: e in evidence && e.id in details ==> Describes(t, tenant, e, details[e.id])
  {
    var latest := LatestByPlace(t, tenant, rows);
    details := map[];
    for i := 0 to |evidence|
      invariant forall k :: 0 <= k < i ==> (evidence[k].id in details <==> Stale(t, tenant, evidence[k]))
      invariant forall id :: id in details ==> exists k :: 0 <= k < i && evidence[k].id == id
      invariant forall k :: 0 <= k < i && evidence[k].id in details ==>
        Stale(t, tenant, evidence[k]) && Describes(t, tenant, evidence[k], details[evidence[k].id])
    {
      var e := evidence[i];
      if e.deployment.Some? && Cited(t, tenant, e.deployment.value) {
        NewestOfPlace(t, tenant, evidence, rows, latest, e);
        var detail := DetailFor(t, latest, e.deployment.value);
        if detail.Some? {
          assert NewestNamed(t, tenant, e.deployment.value, latest[Place(t, e.deployment.value)], detail.value);
          assert Describes(t, tenant, e, detail.value);
          details := details[e.id := detail.value];
        }
      }
    }
  }

  function DetailFor(t: Tables, latest: map<(int, int), int>, d: int): Option<Detail>
    requires Joined(t) && d in t.deployments && forall p :: p in latest ==> latest[p] in t.deployments
  {
    var p := Place(t, d);
    if p !in latest || t.deployments[latest[p]].deployedAt <= t.deployments[d].deployedAt then None
    else
      Some(Detail(
        EnvironmentName(t, t.deployments[d].environment),
        LabelOf(BuildOf(t, d)), t.deployments[d].deployedAt,
        LabelOf(BuildOf(t, latest[p])), t.deployments[latest[p]].deployedAt))
  }

  /** Evidence that cites a successful deployment is stale exactly when that is not a newest
      one of its place. */
  lemma StaleExactlyOlder(t: Tables, tenant: int, e: Item)
    requires Joined(t) && e.deployment.Some? && Candidate(t, tenant, e.deployment.value)
    ensures Stale(t, tenant, e) <==> !IsNewest(t, tenant, e.deployment.value)
  {
    if !IsNewest(t, tenant, e.deployment.value) {
      var later :| Candidate(t, tenant, later) && Place(t, later) == Place(t, e.deployment.value)
        && t.deployments[later].deployedAt > t.deployments[e.deployment.value].deployedAt;
      assert Supersedes(t, tenant, later, e.deployment.value);
    }
  }

  /** Evidence is stale exactly when a later deployment of the tenant, successful and not
      deleted, of a build of the same subsystem into the same environment is stored. */
  lemma StaleExactly(t: Tables, tenant: int, e: Item)
    requires Joined(t)
    ensures Stale(t, tenant, e) <==>
      && e.deployment.Some? && e.deployment.value in t.deployments
      && t.deployments[e.deployment.value].tenant == tenant
      && exists later :: later in t.deployments && Overtakes(t, tenant, t.deployments[later], t.deployments[e.deployment.value])
  {
    if Stale(t, tenant, e) {
      var later :| Supersedes(t, tenant, later, e.deployment.value);
      assert Overtakes(t, tenant, t.deployments[later], t.deployments[e.deployment.value]);
    }
    if e.deployment.Some? && Cited(t, tenant, e.deployment.value) {
      forall later | later in t.deployments && Overtakes(t, tenant, t.deployments[later], t.deployments[e.deployment.value])
        ensures Supersedes(t, tenant, later, e.deployment.value)
      {
      }
    }
  }

  predicate Overtakes(t: Tables, tenant: int, x: Deployment, y: Deployment) {
    && x.tenant == tenant && x.success && !x.deleted && x.deployedAt > y.deployedAt
    && x.environment == y.environment && x.build in t.builds && y.build in t.builds
    && t.builds[x.build].subsystem == t.builds[y.build].subsystem
  }

  /** A report names the environment the cited deployment went into, where it has a name. */
  lemma EnvironmentNamed(t: Tables, tenant: int, e: Item, detail: Detail)
    requires Joined(t) && Describes(t, tenant, e, detail)
    ensures e.deployment.Some? && e.deployment.value in t.deployments
    ensures var id := t.deployments[e.deployment.value].environment;
      if id in t.environments then detail.environment == Some(t.environments[id]) else detail.environment.None?
  {
  }

  /** What a report calls a build: its number, or the first eight characters of its commit. */
  lemma NamedExactly(b: Build)
    ensures b.number.Some? && b.number.value != "" ==> LabelOf(b) == b.number.value
    ensures b.number == None || b.number == Some("") ==>
      LabelOf(b) <= b.commit && |LabelOf(b)| == (if |b.commit| < 8 then |b.commit| else 8)
  {
  }
}
