/** What a comparison of two environments reports, read off their tables: each row, each
    dimension, each count, and the order of the rows and of a subsystem's hosts. */
module DiffEffects {
  import opened Options
  import opened Sorting
  import opened Comparison
  import opened EnvironmentDiff

  // --------------------------------------------------------------- strings and hosts

  /** `s` has the smaller character where it first differs from `t`. */
  predicate SmallerAt(s: string, t: string, k: nat) {
    k < |s| && k < |t| && s[..k] == t[..k] && s[k] < t[k]
  }

  /** `s` is a prefix of `t`, or is smaller where they first differ. */
  ghost predicate Precedes(s: string, t: string) {
    s <= t || exists k: nat :: SmallerAt(s, t, k)
  }

  lemma {:induction false} StringLeqExactly(s: string, t: string)
    ensures StringLeq(s, t) <==> Precedes(s, t)
  {
    if s != "" && t != "" {
      hide SmallerAt;
      if s[0] == t[0] {
        StringLeqExactly(s[1..], t[1..]);
        PrefixShifts(s, t);
        SmallerShifts(s, t);
      } else {
        SmallerFirst(s, t);
      }
    }
  }

  lemma SmallerFirst(s: string, t: string)
    requires s != "" && t != "" && s[0] != t[0]
    ensures (exists k: nat :: SmallerAt(s, t, k)) <==> s[0] < t[0]
  {
    assert SmallerAt(s, t, 0) <==> s[0] < t[0];
    forall k: nat | 0 < k < |s| && k < |t| ensures s[..k] != t[..k] {
      assert s[..k][0] != t[..k][0];
    }
  }

  lemma SmallerShifts(s: string, t: string)
    requires s != "" && t != "" && s[0] == t[0]
    ensures (exists k: nat :: SmallerAt(s, t, k)) <==> (exists k: nat :: SmallerAt(s[1..], t[1..], k))
  {
    if exists k: nat :: SmallerAt(s, t, k) {
      var k: nat :| SmallerAt(s, t, k);
      SmallerShift(s, t, k - 1);
    }
    if exists k: nat :: SmallerAt(s[1..], t[1..], k) {
      var k: nat :| SmallerAt(s[1..], t[1..], k);
      SmallerShift(s, t, k);
    }
  }

  lemma SmallerShift(s: string, t: string, k: nat)
    requires s != "" && t != "" && s[0] == t[0]
    ensures SmallerAt(s, t, k + 1) <==> SmallerAt(s[1..], t[1..], k)
  {
    var x, y := s[1..], t[1..];
    if k + 1 < |s| && k + 1 < |t| {
      assert s[..k + 1] == [s[0]] + x[..k] && t[..k + 1] == [t[0]] + y[..k];
      assert x[..k] == s[..k + 1][1..] && y[..k] == t[..k + 1][1..];
      assert s[k + 1] == x[k] && t[k + 1] == y[k];
      assert s[..k + 1] == t[..k + 1] <==> x[..k] == y[..k];
    }
  }

  lemma PrefixShifts(s: string, t: string)
    requires s != "" && t != "" && s[0] == t[0]
    ensures s <= t <==> s[1..] <= t[1..]
  {
    assert s == [s[0]] + s[1..] && t == [t[0]] + t[1..];
  }

  /** Hosts come by type, within a type the ones with a role first, and those by role. */
  ghost predicate HostsInOrder(x: Host, y: Host) {
    && Precedes(x.kind, y.kind)
    && (x.kind == y.kind ==> (x.role.None? ==> y.role.None?))
    && (x.kind == y.kind && x.role.Some? && y.role.Some? ==> Precedes(x.role.value, y.role.value))
  }

  /** A subsystem's hosts are those of its own row, as often as they are stored. */
  lemma {:induction false} HostsExactly(hosts: seq<HostRow>, row: int, h: Host)
    ensures multiset(HostsOf(hosts, row))[h] == |PlacesOf(hosts, row, h)|
  {
    hide PlacesOf;
    if hosts == [] {
      NoPlaces(row, h);
    } else {
      HostsExactly(hosts[..|hosts| - 1], row, h);
      OnePlaceMore(hosts, row, h);
    }
  }

  lemma NoPlaces(row: int, h: Host)
    ensures PlacesOf([], row, h) == {}
  {
  }

  lemma OnePlaceMore(hosts: seq<HostRow>, row: int, h: Host)
    requires hosts != []
    ensures var n := |hosts| - 1;
      |PlacesOf(hosts, row, h)| == |PlacesOf(hosts[..n], row, h)| + if hosts[n] == HostRow(row, h) then 1 else 0
  {
    var n := |hosts| - 1;
    var here: set<nat> := if hosts[n] == HostRow(row, h) then {n} else {};
    forall k: nat ensures k in PlacesOf(hosts, row, h) <==> k in PlacesOf(hosts[..n], row, h) + here {
    }
    SameSet(PlacesOf(hosts, row, h), PlacesOf(hosts[..n], row, h) + here);
  }

  function PlacesOf(hosts: seq<HostRow>, row: int, h: Host): set<nat> {
    set k: nat | k < |hosts| && hosts[k] == HostRow(row, h)
  }

  /** A shape lists each host there is once, with how often it occurs, in order. */
  lemma ShapeExactly(hosts: seq<Host>)
    ensures var shape := HostShape(hosts);
      && (forall e :: e in shape <==> e.host in hosts && e.count == multiset(hosts)[e.host])
      && (forall i, j :: 0 <= i < j < |shape| ==> shape[i].host != shape[j].host)
      && forall i, j :: 0 <= i < j < |shape| ==> HostsInOrder(shape[i].host, shape[j].host)
  {
    var tally, shape := Tally(hosts), HostShape(hosts);
    KeyOrder();
    SortIsSorted(KeyLeq, tally);
    TallyCounts(hosts);
    assert NoRepeats(tally);
    NoRepeatsByContents(tally, shape);
    forall e ensures e in shape <==> e.host in hosts && e.count == multiset(hosts)[e.host] {
      TallyEntry(hosts, e);
      assert e in shape <==> e in multiset(shape);
      assert e in tally <==> e in multiset(tally);
    }
    forall i, j | 0 <= i < j < |shape|
      ensures shape[i].host != shape[j].host && HostsInOrder(shape[i].host, shape[j].host)
    {
      assert shape[i] in shape && shape[j] in shape;
      KeyInOrder(shape[i], shape[j]);
    }
  }

  lemma KeyInOrder(x: Entry, y: Entry)
    requires KeyLeq(x, y)
    ensures HostsInOrder(x.host, y.host)
  {
    hide Precedes;
    StringLeqExactly(x.host.kind, y.host.kind);
    StringLeqExactly(RoleText(x.host), RoleText(y.host));
    SamePrecedes(x.host.kind);
  }

  lemma SamePrecedes(s: string)
    ensures Precedes(s, s)
  {
  }

  // ------------------------------------------------------------------- dimensions

  function Position(k: Kind): int {
    match k
    case PresenceDiffers => 0
    case MockedDiffers => 1
    case VersionDiffers => 2
    case HostShapeDiffers => 3
  }

  /** Each dimension is listed exactly when the sides differ in it, once and in the fixed
      order; presence excludes the others; and the error is raised exactly when both sides
      are said to be there and one is not. */
  lemma KindsExactly(presence: Presence, left: Option<Side>, right: Option<Side>)
    ensures DifferenceKinds(presence, left, right).None? <==> presence == Both && (left.None? || right.None?)
    ensures DifferenceKinds(presence, left, right).Some? ==>
      var d := DifferenceKinds(presence, left, right).value;
      && (PresenceDiffers in d <==> presence != Both)
      && (MockedDiffers in d <==> presence == Both && left.value.mocked != right.value.mocked)
      && (VersionDiffers in d <==> presence == Both && left.value.version != right.value.version)
      && (HostShapeDiffers in d <==> presence == Both && left.value.hostShape != right.value.hostShape)
      && forall i, j :: 0 <= i < j < |d| ==> Position(d[i]) < Position(d[j])
  {
  }

  // ------------------------------------------------------------------------- rows

  /** The subsystem is live and one environment or the other deploys it. */
  ghost predicate OnEither(t: Tables, u: Tables, catalogue: Catalogue, id: int) {
    id in catalogue && (Deploys(t, id) || Deploys(u, id))
  }

  /** Rows of both environments deploy the subsystem, and differ in the dimension. */
  ghost predicate DiffersIn(t: Tables, u: Tables, id: int, k: Kind) {
    match k
    case PresenceDiffers => Deploys(t, id) != Deploys(u, id)
    case MockedDiffers => exists r, v :: BothDeploy(t, u, id, r, v) && r.mocked != v.mocked
    case VersionDiffers => exists r, v :: BothDeploy(t, u, id, r, v) && Lookup(t.versions, id) != Lookup(u.versions, id)
    case HostShapeDiffers =>
      exists r, v :: BothDeploy(t, u, id, r, v) && multiset(HostsOf(t.hosts, r.id)) != multiset(HostsOf(u.hosts, v.id))
  }

  predicate BothDeploy(t: Tables, u: Tables, id: int, r: SubRow, v: SubRow) {
    r in t.rows && v in u.rows && r.subsystem == id && v.subsystem == id
  }

  /** The sides hold the live subsystems the environments deploy. */
  lemma KeysExactly(t: Tables, catalogue: Catalogue, side: map<int, Side>, id: int)
    requires IsSide(t, catalogue, side)
    ensures id in side <==> id in catalogue && Deploys(t, id)
  {
  }

  /** A row's sides hold what the environments' own rows say, each on its own side. */
  lemma RowExactly(
    t: Tables, u: Tables, catalogue: Catalogue, left: map<int, Side>, right: map<int, Side>, id: int)
    requires IsSide(t, catalogue, left) && IsSide(u, catalogue, right) && OnEither(t, u, catalogue, id)
    ensures (id in left || id in right)
    ensures var row := RowOf(left, right, id);
      && row.id == id && row.name == catalogue[id].name
      && row.systemId == catalogue[id].systemId && row.systemName == catalogue[id].systemName
      && (row.presence == LeftOnly <==> !Deploys(u, id)) && (row.presence == RightOnly <==> !Deploys(t, id))
      && (row.left.Some? <==> Deploys(t, id)) && (row.right.Some? <==> Deploys(u, id))
      && (forall r :: r in t.rows && r.subsystem == id ==> Carries(t, r, row.left))
      && (forall v :: v in u.rows && v.subsystem == id ==> Carries(u, v, row.right))
  {
    hide HostShape;
    KeysExactly(t, catalogue, left, id);
    KeysExactly(u, catalogue, right, id);
  }

  predicate Carries(t: Tables, r: SubRow, p: Option<Payload>) {
    p == Some(Payload(r.mocked, r.notes, Lookup(t.versions, r.subsystem), HostShape(HostsOf(t.hosts, r.id))))
  }

  /** A row lists a dimension exactly when the environments' own rows differ in it. */
  lemma RowDiffersExactly(
    t: Tables, u: Tables, catalogue: Catalogue, left: map<int, Side>, right: map<int, Side>, id: int, k: Kind)
    requires IsSide(t, catalogue, left) && IsSide(u, catalogue, right) && OnEither(t, u, catalogue, id)
    ensures (id in left || id in right)
    ensures k in RowOf(left, right, id).differences <==> DiffersIn(t, u, id, k)
  {
    hide HostShape, DifferenceKinds;
    KeysExactly(t, catalogue, left, id);
    KeysExactly(u, catalogue, right, id);
    var l, r := Lookup(left, id), Lookup(right, id);
    KindsExactly(PresenceOf(l.Some?, r.Some?), l, r);
    if id in left && id in right {
      forall x, v | BothDeploy(t, u, id, x, v)
        ensures left[id] == SideOf(t, catalogue, x) && right[id] == SideOf(u, catalogue, v)
        ensures left[id].hostShape == right[id].hostShape <==>
          multiset(HostsOf(t.hosts, x.id)) == multiset(HostsOf(u.hosts, v.id))
      {
        ShapeIsMultiset(HostsOf(t.hosts, x.id), HostsOf(u.hosts, v.id));
      }
      var x :| x in t.rows && x.subsystem == id;
      var v :| v in u.rows && v.subsystem == id;
      assert BothDeploy(t, u, id, x, v);
    }
  }

  ghost function IdsDiffering(t: Tables, u: Tables, catalogue: Catalogue, k: Kind): set<int> {
    set id | id in catalogue && OnEither(t, u, catalogue, id) && DiffersIn(t, u, id, k)
  }

  lemma UnionExactly(t: Tables, u: Tables, catalogue: Catalogue, left: map<int, Side>, right: map<int, Side>)
    requires IsSide(t, catalogue, left) && IsSide(u, catalogue, right)
    ensures left.Keys + right.Keys == set id | id in catalogue && OnEither(t, u, catalogue, id)
  {
    hide IsSide, Deploys;
    var ids := set id | id in catalogue && OnEither(t, u, catalogue, id);
    forall id: int ensures id in left.Keys + right.Keys <==> id in ids {
      KeysExactly(t, catalogue, left, id);
      KeysExactly(u, catalogue, right, id);
      assert id in left.Keys + right.Keys <==> id in left || id in right;
    }
    SameSet(left.Keys + right.Keys, ids);
  }

  lemma IdsExactly(
    t: Tables, u: Tables, catalogue: Catalogue, left: map<int, Side>, right: map<int, Side>, k: Kind)
    requires IsSide(t, catalogue, left) && IsSide(u, catalogue, right)
    ensures IdsWith(left, right, k) == IdsDiffering(t, u, catalogue, k)
  {
    hide RowOf, DiffersIn, IsSide, OnEither;
    UnionExactly(t, u, catalogue, left, right);
    forall id | id in left.Keys + right.Keys
      ensures k in RowOf(left, right, id).differences <==> DiffersIn(t, u, id, k)
    {
      assert OnEither(t, u, catalogue, id);
      RowDiffersExactly(t, u, catalogue, left, right, id, k);
    }
  }

  /** The summary counts, for each dimension, the live subsystems whose rows differ in it. */
  lemma CountsExactly(
    t: Tables, u: Tables, catalogue: Catalogue, left: map<int, Side>, right: map<int, Side>, s: Summary)
    requires IsSide(t, catalogue, left) && IsSide(u, catalogue, right) && IsSummary(left, right, s)
    ensures s.compared == |set id | id in catalogue && OnEither(t, u, catalogue, id)|
    ensures s.byKind.Keys == {PresenceDiffers, MockedDiffers, VersionDiffers, HostShapeDiffers}
    ensures forall k :: k in s.byKind ==> s.byKind[k] == |IdsDiffering(t, u, catalogue, k)|
  {
    hide RowOf, DiffersIn, IsSide, OnEither, IdsWith, IdsDiffering, DifferingIds;
    UnionExactly(t, u, catalogue, left, right);
    forall k ensures IdsWith(left, right, k) == IdsDiffering(t, u, catalogue, k) {
      IdsExactly(t, u, catalogue, left, right, k);
    }
  }

  // ------------------------------------------------------------------------ order

  /** One name is at or before another. */
  ghost predicate NameOrder(x: string, y: string, tied: bool) {
    Precedes(x, y) && (x == y ==> tied)
  }

  /** Rows that differ come before rows that do not; within each, they come by the system's
      name in lower case, then the subsystem's, then the id. */
  lemma OrderExactly(
    left: map<int, Side>, right: map<int, Side>, lower: string -> string, rows: seq<DiffRow>, i: nat, j: nat)
    requires IsDiff(left, right, lower, rows) && i < j < |rows|
    ensures var x, y := rows[i], rows[j];
      && (x.differences == [] ==> y.differences == [])
      && ((x.differences == []) == (y.differences == []) ==>
        NameOrder(lower(x.systemName), lower(y.systemName), NameOrder(lower(x.name), lower(y.name), x.id < y.id)))
  {
    var x, y := rows[i], rows[j];
    DiffDistinctIds(left, right, lower, rows);
    assert RowOrder(lower)(x, y);
    StringLeqExactly(lower(x.systemName), lower(y.systemName));
    StringLeqExactly(lower(x.name), lower(y.name));
  }
}
