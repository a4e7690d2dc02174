/** The comparison of two environments: each side read from its tables, the rows of
    the diff, their order, and the summary. */
module EnvironmentDiff {
  import opened Options
  import opened Sorting
  import opened Comparison

  // ------------------------------------------------------------------- one side

  /** A live subsystem and its system, shared by every environment of the tenant. */
  datatype Listed = Listed(name: string, systemId: int, systemName: string)

  type Catalogue = map<int, Listed>

  datatype SubRow = SubRow(id: int, subsystem: int, mocked: bool, notes: Option<string>)

  datatype HostRow = HostRow(row: int, host: Host)

  /** What an environment's tables hold: its subsystem rows, their live hosts, and the
      current version of each subsystem. */
  datatype Tables = Tables(rows: seq<SubRow>, hosts: seq<HostRow>, versions: map<int, string>)

  /** The primary key and `uq_env_subsystem`. */
  ghost predicate Keyed(t: Tables) {
    forall i, j :: 0 <= i < j < |t.rows| ==>
      t.rows[i].id != t.rows[j].id && t.rows[i].subsystem != t.rows[j].subsystem
  }

  function HostsOf(hosts: seq<HostRow>, row: int): seq<Host> {
    if hosts == [] then []
    else
      var last := hosts[|hosts| - 1];
      HostsOf(hosts[..|hosts| - 1], row) + if last.row == row then [last.host] else []
  }

  function Lookup<V>(m: map<int, V>, key: int): Option<V> {
    if key in m then Some(m[key]) else None
  }

  function SideOf(t: Tables, catalogue: Catalogue, r: SubRow): Side
    requires r.subsystem in catalogue
  {
    var listed := catalogue[r.subsystem];
    Side(listed.name, listed.systemId, listed.systemName, r.mocked, r.notes,
      Lookup(t.versions, r.subsystem), HostShape(HostsOf(t.hosts, r.id)))
  }

  ghost predicate Deploys(t: Tables, id: int) {
    exists r :: r in t.rows && r.subsystem == id
  }

  ghost predicate IsSide(t: Tables, catalogue: Catalogue, side: map<int, Side>) {
    && (forall r :: r in t.rows && r.subsystem in catalogue ==>
      r.subsystem in side && side[r.subsystem] == SideOf(t, catalogue, r))
    && (forall id :: id in side ==> id in catalogue && Deploys(t, id))
  }

  method GroupHosts(hostRows: seq<HostRow>, ids: set<int>) returns (hosts: map<int, seq<Host>>)
    ensures hosts.Keys == ids
    ensures forall id :: id in ids ==> hosts[id] == HostsOf(hostRows, id)
  {
    hosts := map id | id in ids :: [];
    for i := 0 to |hostRows|
      invariant hosts.Keys == ids
      invariant forall id :: id in ids ==> hosts[id] == HostsOf(hostRows[..i], id)
    {
      var h := hostRows[i];
      assert hostRows[..i + 1][..i] == hostRows[..i];
      if h.row in ids {
        hosts := hosts[h.row := hosts[h.row] + [h.host]];
      }
    }
    assert hostRows[..|hostRows|] == hostRows;
  }

  /** The first `n` rows are on the side, as they should be. */
  ghost predicate SideSoFar(t: Tables, catalogue: Catalogue, n: nat, side: map<int, Side>)
    requires n <= |t.rows|
  {
    && (forall k :: 0 <= k < n && t.rows[k].subsystem in catalogue ==>
      t.rows[k].subsystem in side && side[t.rows[k].subsystem] == SideOf(t, catalogue, t.rows[k]))
    && (forall id :: id in side ==> id in catalogue && Deploys(t, id))
  }

  lemma OneMoreRow(t: Tables, catalogue: Catalogue, n: nat, side: map<int, Side>)
    requires Keyed(t) && n < |t.rows| && SideSoFar(t, catalogue, n, side)
    ensures SideSoFar(t, catalogue, n + 1,
      if t.rows[n].subsystem in catalogue then side[t.rows[n].subsystem := SideOf(t, catalogue, t.rows[n])] else side)
  {
    hide SideOf;
    assert Deploys(t, t.rows[n].subsystem);
  }

  method ReadSide(t: Tables, catalogue: Catalogue) returns (side: map<int, Side>)
    requires Keyed(t)
    ensures IsSide(t, catalogue, side)
  {
    hide SideSoFar, HostsOf, HostShape, Keyed;
    var ids := set r | r in t.rows && r.subsystem in catalogue :: r.id;
    var hosts := GroupHosts(t.hosts, ids);
    side := map[];
    assert SideSoFar(t, catalogue, 0, side) by { NoRowsYet(t, catalogue); }
    for i := 0 to |t.rows|
      invariant SideSoFar(t, catalogue, i, side)
    {
      OneMoreRow(t, catalogue, i, side);
      var r := t.rows[i];
      if r.subsystem in catalogue {
        var listed := catalogue[r.subsystem];
        side := side[r.subsystem := Side(listed.name, listed.systemId, listed.systemName, r.mocked, r.notes,
          Lookup(t.versions, r.subsystem), HostShape(hosts[r.id]))];
      }
    }
    AllRows(t, catalogue, side);
  }

  lemma NoRowsYet(t: Tables, catalogue: Catalogue)
    ensures SideSoFar(t, catalogue, 0, map[])
  {
  }

  lemma AllRows(t: Tables, catalogue: Catalogue, side: map<int, Side>)
    requires SideSoFar(t, catalogue, |t.rows|, side)
    ensures IsSide(t, catalogue, side)
  {
  }

  // ------------------------------------------------------------------- diff rows

  datatype Payload = Payload(mocked: bool, mockNotes: Option<string>, version: Option<string>, hostShape: seq<Entry>)

  datatype DiffRow = DiffRow(
    id: int, name: string, systemId: int, systemName: string, presence: Presence,
    left: Option<Payload>, right: Option<Payload>, differences: seq<Kind>)

  function PayloadOf(side: Option<Side>): Option<Payload> {
    match side
    case None => None
    case Some(s) => Some(Payload(s.mocked, s.mockNotes, s.version, s.hostShape))
  }

  function RowOf(left: map<int, Side>, right: map<int, Side>, id: int): (row: DiffRow)
    requires id in left || id in right
    ensures row.id == id
  {
    var l, r := Lookup(left, id), Lookup(right, id);
    var meta := if l.Some? then l.value else r.value;
    var presence := PresenceOf(l.Some?, r.Some?);
    DiffRow(id, meta.name, meta.systemId, meta.systemName, presence, PayloadOf(l), PayloadOf(r),
      DifferenceKinds(presence, l, r).value)
  }

  /** Differing first, then by system and subsystem name in lower case, then by id. */
  predicate RowLeq(lower: string -> string, x: DiffRow, y: DiffRow) {
    if (x.differences == []) != (y.differences == []) then x.differences != []
    else if lower(x.systemName) != lower(y.systemName) then StringLeq(lower(x.systemName), lower(y.systemName))
    else if lower(x.name) != lower(y.name) then StringLeq(lower(x.name), lower(y.name))
    else x.id <= y.id
  }

  function RowOrder(lower: string -> string): (DiffRow, DiffRow) -> bool {
    (x, y) => RowLeq(lower, x, y)
  }

  lemma RowOrderTotal(lower: string -> string)
    ensures TotalOrder(RowOrder(lower))
    ensures forall x, y :: RowLeq(lower, x, y) && RowLeq(lower, y, x) ==> x.id == y.id
  {
    StringOrder();
  }

  /** The rows of a diff: one for each subsystem on either side, in order. */
  ghost predicate IsDiff(left: map<int, Side>, right: map<int, Side>, lower: string -> string, rows: seq<DiffRow>) {
    && SortedBy(RowOrder(lower), rows)
    && NoRepeats(rows)
    && (forall r :: r in rows ==> r.id in left.Keys + right.Keys && r == RowOf(left, right, r.id))
    && (forall id :: id in left.Keys + right.Keys ==> RowOf(left, right, id) in rows)
  }

  datatype Summary = Summary(compared: nat, differing: nat, byKind: map<Kind, nat>)

  function DifferingIds(left: map<int, Side>, right: map<int, Side>): set<int> {
    set id | id in left.Keys + right.Keys && RowOf(left, right, id).differences != []
  }

  function IdsWith(left: map<int, Side>, right: map<int, Side>, kind: Kind): set<int> {
    set id | id in left.Keys + right.Keys && kind in RowOf(left, right, id).differences
  }

  ghost predicate IsSummary(left: map<int, Side>, right: map<int, Side>, s: Summary) {
    && s.compared == |left.Keys + right.Keys|
    && s.differing == |DifferingIds(left, right)|
    && s.byKind.Keys == {PresenceDiffers, MockedDiffers, VersionDiffers, HostShapeDiffers}
    && forall k :: k in s.byKind ==> s.byKind[k] == |IdsWith(left, right, k)|
  }

  // -------------------------------------------------------------------- counting

  function CountRows(rows: seq<DiffRow>, p: DiffRow -> bool): nat {
    if rows == [] then 0 else CountRows(rows[..|rows| - 1], p) + if p(rows[|rows| - 1]) then 1 else 0
  }

  ghost predicate DistinctIds(rows: seq<DiffRow>) {
    forall i, j :: 0 <= i < j < |rows| ==> rows[i].id != rows[j].id
  }

  predicate Differs(r: DiffRow) {
    r.differences != []
  }

  predicate Any(r: DiffRow) {
    true
  }

  function Has(kind: Kind): DiffRow -> bool {
    (r: DiffRow) => kind in r.differences
  }

  lemma {:induction false} CountAny(rows: seq<DiffRow>)
    ensures CountRows(rows, Any) == |rows|
  {
    if rows != [] {
      CountAny(rows[..|rows| - 1]);
    }
  }

  function IdsWhere(rows: seq<DiffRow>, p: DiffRow -> bool): set<int> {
    set r | r in rows && p(r) :: r.id
  }

  lemma {:induction false} CountIsCardinality(rows: seq<DiffRow>, p: DiffRow -> bool)
    requires DistinctIds(rows)
    ensures CountRows(rows, p) == |IdsWhere(rows, p)|
  {
    if rows != [] {
      var front, last := rows[..|rows| - 1], rows[|rows| - 1];
      CountIsCardinality(front, p);
      assert rows == front + [last];
      assert IdsWhere(rows, p) == IdsWhere(front, p) + if p(last) then {last.id} else {};
    }
  }

  lemma DiffDistinctIds(left: map<int, Side>, right: map<int, Side>, lower: string -> string, rows: seq<DiffRow>)
    requires IsDiff(left, right, lower, rows)
    ensures DistinctIds(rows)
  {
  }

  lemma CountIds(
    left: map<int, Side>, right: map<int, Side>, lower: string -> string, rows: seq<DiffRow>,
    p: DiffRow -> bool, ids: set<int>)
    requires IsDiff(left, right, lower, rows)
    requires forall id :: id in ids <==> id in left.Keys + right.Keys && p(RowOf(left, right, id))
    ensures CountRows(rows, p) == |ids|
  {
    hide RowOf, SortedBy;
    DiffDistinctIds(left, right, lower, rows);
    CountIsCardinality(rows, p);
    forall id ensures id in IdsWhere(rows, p) <==> id in ids {
      if id in ids {
        assert RowOf(left, right, id) in rows;
      }
    }
    assert IdsWhere(rows, p) == ids;
  }

  method Count(rows: seq<DiffRow>, p: DiffRow -> bool) returns (n: nat)
    ensures n == CountRows(rows, p)
  {
    n := 0;
    for i := 0 to |rows|
      invariant n == CountRows(rows[..i], p)
    {
      assert rows[..i + 1][..i] == rows[..i];
      if p(rows[i]) {
        n := n + 1;
      }
    }
    assert rows[..|rows|] == rows;
  }

  // ------------------------------------------------------------------ the service

  /** The rows, gathered in any order the set of ids happens to come in. */
  method Gather(left: map<int, Side>, right: map<int, Side>) returns (rows: seq<DiffRow>)
    ensures NoRepeats(rows)
    ensures forall r :: r in rows ==> r.id in left.Keys + right.Keys && r == RowOf(left, right, r.id)
    ensures forall id :: id in left.Keys + right.Keys ==> RowOf(left, right, id) in rows
  {
    hide RowOf;
    rows := [];
    var pending: set<int> := left.Keys + right.Keys;
    while |pending| > 0
      invariant pending <= left.Keys + right.Keys
      invariant NoRepeats(rows)
      invariant forall r :: r in rows ==>
        r.id in left.Keys + right.Keys && r.id !in pending && r == RowOf(left, right, r.id)
      invariant forall id :: id in left.Keys + right.Keys && id !in pending ==> RowOf(left, right, id) in rows
      decreases pending
    {
      var id := Pick(pending);
      rows := rows + [RowOf(left, right, id)];
      pending := pending - {id};
    }
  }

  lemma SortedRows(lower: string -> string, rows: seq<DiffRow>)
    requires NoRepeats(rows)
    ensures var sorted := Sort(RowOrder(lower), rows);
      SortedBy(RowOrder(lower), sorted) && NoRepeats(sorted) && forall r :: r in sorted <==> r in rows
  {
    RowOrderTotal(lower);
    SortIsSorted(RowOrder(lower), rows);
    var sorted := Sort(RowOrder(lower), rows);
    forall r ensures r in sorted <==> r in rows {
      assert r in sorted <==> r in multiset(sorted);
      assert r in rows <==> r in multiset(rows);
    }
    NoRepeatsByContents(rows, sorted);
  }

  method CountKinds(left: map<int, Side>, right: map<int, Side>, ghost lower: string -> string, rows: seq<DiffRow>)
    returns (byKind: map<Kind, nat>)
    requires IsDiff(left, right, lower, rows)
    ensures byKind.Keys == {PresenceDiffers, MockedDiffers, VersionDiffers, HostShapeDiffers}
    ensures forall k :: k in byKind ==> byKind[k] == |IdsWith(left, right, k)|
  {
    hide RowOf, SortedBy, CountRows;
    byKind := map[];
    var kinds := [PresenceDiffers, MockedDiffers, VersionDiffers, HostShapeDiffers];
    for i := 0 to 4
      invariant byKind.Keys == set k | k in kinds[..i]
      invariant forall k :: k in byKind ==> byKind[k] == |IdsWith(left, right, k)|
    {
      var n := Count(rows, Has(kinds[i]));
      CountIds(left, right, lower, rows, Has(kinds[i]), IdsWith(left, right, kinds[i]));
      byKind := byKind[kinds[i] := n];
    }
    assert byKind.Keys == {kinds[0], kinds[1], kinds[2], kinds[3]};
  }

  method CompareSides(left: map<int, Side>, right: map<int, Side>, lower: string -> string)
    returns (rows: seq<DiffRow>, summary: Summary)
    ensures IsDiff(left, right, lower, rows)
    ensures IsSummary(left, right, summary)
  {
    hide RowOf, SortedBy, RowLeq, CountRows;
    var gathered := Gather(left, right);
    rows := Sort(RowOrder(lower), gathered);
    SortedRows(lower, gathered);
    var differing := Count(rows, Differs);
    CountIds(left, right, lower, rows, Differs, DifferingIds(left, right));
    CountIds(left, right, lower, rows, Any, left.Keys + right.Keys);
    CountAny(rows);
    var byKind := CountKinds(left, right, lower, rows);
    summary := Summary(|rows|, differing, byKind);
  }

  // ------------------------------------------------------------------ main results

  lemma SortDiff(left: map<int, Side>, right: map<int, Side>, lower: string -> string, a: seq<DiffRow>, b: seq<DiffRow>)
    requires IsDiff(left, right, lower, a) && IsDiff(left, right, lower, b)
    ensures multiset(a) == multiset(b) && NoTies(RowOrder(lower), a)
  {
    hide RowOf, SortedBy, RowLeq;
    forall r ensures r in a <==> r in b {
    }
    SameElements(a, b);
    RowOrderTotal(lower);
    forall x, y | x in a && y in a && RowLeq(lower, x, y) && RowLeq(lower, y, x) ensures x == y {
      assert x.id == y.id;
    }
  }

  /** The order the ids were gathered in does not show: two diffs of the same sides
      are the same list. */
  lemma DiffDetermined(left: map<int, Side>, right: map<int, Side>, lower: string -> string, a: seq<DiffRow>, b: seq<DiffRow>)
    requires IsDiff(left, right, lower, a) && IsDiff(left, right, lower, b)
    ensures a == b
  {
    SortDiff(left, right, lower, a, b);
    RowOrderTotal(lower);
    SortedUnique(RowOrder(lower), a, b);
  }

  /** The two rows run one subsystem alike. */
  ghost predicate Alike(t: Tables, r: SubRow, u: Tables, s: SubRow) {
    && r.mocked == s.mocked
    && Lookup(t.versions, r.subsystem) == Lookup(u.versions, s.subsystem)
    && multiset(HostsOf(t.hosts, r.id)) == multiset(HostsOf(u.hosts, s.id))
  }

  /** Two environments agree: the same live subsystems, with the same mock flag, the same
      version and the same hosts by type and role. */
  ghost predicate SameEnvironment(t: Tables, u: Tables, catalogue: Catalogue) {
    && (forall id :: id in catalogue ==> (Deploys(t, id) <==> Deploys(u, id)))
    && forall r, s :: r in t.rows && s in u.rows && r.subsystem == s.subsystem && r.subsystem in catalogue ==>
      Alike(t, r, u, s)
  }

  lemma RowAlike(
    t: Tables, u: Tables, catalogue: Catalogue, left: map<int, Side>, right: map<int, Side>, r: SubRow, s: SubRow)
    requires IsSide(t, catalogue, left) && IsSide(u, catalogue, right)
    requires r in t.rows && s in u.rows && r.subsystem == s.subsystem && r.subsystem in catalogue
    ensures RowOf(left, right, r.subsystem).differences == [] <==> Alike(t, r, u, s)
  {
    ShapeIsMultiset(HostsOf(t.hosts, r.id), HostsOf(u.hosts, s.id));
    DifferencesMeaning(Lookup(left, r.subsystem), Lookup(right, r.subsystem));
  }

  lemma OneSided(left: map<int, Side>, right: map<int, Side>, id: int)
    requires (id in left) != (id in right)
    ensures RowOf(left, right, id).differences != []
  {
  }

  /** The summary counts no differing subsystem exactly when the environments agree. */
  lemma NothingDiffersExactly(
    t: Tables, u: Tables, catalogue: Catalogue, left: map<int, Side>, right: map<int, Side>, s: Summary)
    requires IsSide(t, catalogue, left) && IsSide(u, catalogue, right)
    requires IsSummary(left, right, s)
    ensures s.differing == 0 <==> SameEnvironment(t, u, catalogue)
  {
    hide RowOf, SideOf, Alike;
    assert s.differing == 0 <==> DifferingIds(left, right) == {};
    if DifferingIds(left, right) == {} {
      NoneDiffer(t, u, catalogue, left, right);
    }
    if SameEnvironment(t, u, catalogue) {
      AllAgree(t, u, catalogue, left, right);
    }
  }

  lemma NoneDiffer(t: Tables, u: Tables, catalogue: Catalogue, left: map<int, Side>, right: map<int, Side>)
    requires IsSide(t, catalogue, left) && IsSide(u, catalogue, right)
    requires DifferingIds(left, right) == {}
    ensures SameEnvironment(t, u, catalogue)
  {
    hide RowOf, SideOf, Alike;
    forall id | id in left.Keys + right.Keys ensures RowOf(left, right, id).differences == [] && id in left && id in right {
      assert id !in DifferingIds(left, right);
      if (id in left) != (id in right) {
        OneSided(left, right, id);
        assert false;
      }
    }
    forall r, v | r in t.rows && v in u.rows && r.subsystem == v.subsystem && r.subsystem in catalogue
      ensures Alike(t, r, u, v)
    {
      RowAlike(t, u, catalogue, left, right, r, v);
    }
  }

  lemma AllAgree(t: Tables, u: Tables, catalogue: Catalogue, left: map<int, Side>, right: map<int, Side>)
    requires IsSide(t, catalogue, left) && IsSide(u, catalogue, right)
    requires SameEnvironment(t, u, catalogue)
    ensures DifferingIds(left, right) == {}
  {
    hide RowOf, SideOf, Alike;
    forall id | id in left.Keys + right.Keys ensures RowOf(left, right, id).differences == [] {
      assert id in catalogue;
      assert Deploys(t, id) && Deploys(u, id);
      var r :| r in t.rows && r.subsystem == id;
      var v :| v in u.rows && v.subsystem == id;
      RowAlike(t, u, catalogue, left, right, r, v);
    }
  }

  // ---------------------------------------------------------------------- symmetry

  /** Names come from rows both environments share. */
  ghost predicate Agreeing(left: map<int, Side>, right: map<int, Side>) {
    forall id :: id in left && id in right ==>
      left[id].name == right[id].name && left[id].systemId == right[id].systemId
      && left[id].systemName == right[id].systemName
  }

  lemma SidesAgree(t: Tables, u: Tables, catalogue: Catalogue, left: map<int, Side>, right: map<int, Side>)
    requires IsSide(t, catalogue, left) && IsSide(u, catalogue, right)
    ensures Agreeing(left, right)
  {
  }

  function Turned(p: Presence): Presence {
    match p
    case Both => Both
    case LeftOnly => RightOnly
    case RightOnly => LeftOnly
  }

  function Flip(r: DiffRow): DiffRow {
    r.(presence := Turned(r.presence), left := r.right, right := r.left)
  }

  function FlipAll(rows: seq<DiffRow>): seq<DiffRow> {
    seq(|rows|, i requires 0 <= i < |rows| => Flip(rows[i]))
  }

  lemma RowFlips(left: map<int, Side>, right: map<int, Side>, id: int)
    requires Agreeing(left, right) && (id in left || id in right)
    ensures RowOf(right, left, id) == Flip(RowOf(left, right, id))
  {
  }

  lemma DifferencesUnturned(left: map<int, Side>, right: map<int, Side>, id: int)
    requires id in left || id in right
    ensures RowOf(right, left, id).differences == RowOf(left, right, id).differences
  {
  }

  lemma FlippedMembers(left: map<int, Side>, right: map<int, Side>, lower: string -> string, rows: seq<DiffRow>)
    requires Agreeing(left, right) && IsDiff(left, right, lower, rows)
    ensures forall r :: r in FlipAll(rows) ==> r.id in left.Keys + right.Keys && r == RowOf(right, left, r.id)
    ensures forall id :: id in left.Keys + right.Keys ==> RowOf(right, left, id) in FlipAll(rows)
  {
    hide RowOf, SortedBy, RowLeq;
    var flipped := FlipAll(rows);
    forall r | r in flipped ensures r.id in left.Keys + right.Keys && r == RowOf(right, left, r.id) {
      var i :| 0 <= i < |flipped| && flipped[i] == r;
      assert rows[i] in rows;
      RowFlips(left, right, r.id);
    }
    forall id | id in left.Keys + right.Keys ensures RowOf(right, left, id) in flipped {
      RowFlips(left, right, id);
      var i :| 0 <= i < |rows| && rows[i] == RowOf(left, right, id);
      assert flipped[i] == RowOf(right, left, id);
    }
  }

  lemma FlippedSorted(lower: string -> string, rows: seq<DiffRow>)
    requires SortedBy(RowOrder(lower), rows)
    ensures SortedBy(RowOrder(lower), FlipAll(rows))
  {
  }

  /** Swapping the environments swaps each row's sides in place: the same subsystems in
      the same order, with the same differences. */
  lemma SwapFlipsRows(left: map<int, Side>, right: map<int, Side>, lower: string -> string, rows: seq<DiffRow>)
    requires Agreeing(left, right) && IsDiff(left, right, lower, rows)
    ensures IsDiff(right, left, lower, FlipAll(rows))
  {
    hide RowOf, SortedBy, RowLeq, Agreeing;
    FlippedMembers(left, right, lower, rows);
    FlippedSorted(lower, rows);
    DiffDistinctIds(left, right, lower, rows);
    forall i, j | 0 <= i < j < |rows| ensures FlipAll(rows)[i] != FlipAll(rows)[j] {
      assert rows[i].id != rows[j].id;
    }
  }

  lemma SwapKeepsSummary(left: map<int, Side>, right: map<int, Side>, s: Summary)
    requires IsSummary(left, right, s)
    ensures IsSummary(right, left, s)
  {
    hide RowOf;
    assert left.Keys + right.Keys == right.Keys + left.Keys;
    forall id | id in left.Keys + right.Keys
      ensures RowOf(right, left, id).differences == RowOf(left, right, id).differences
    {
      DifferencesUnturned(left, right, id);
    }
    assert DifferingIds(right, left) == DifferingIds(left, right);
    forall k ensures IdsWith(right, left, k) == IdsWith(left, right, k) {
    }
  }

  lemma SummaryDetermined(left: map<int, Side>, right: map<int, Side>, a: Summary, b: Summary)
    requires IsSummary(left, right, a) && IsSummary(left, right, b)
    ensures a == b
  {
  }

  /** Whatever the program returns for two environments and for the same two swapped,
      the second is the first with presence and sides flipped and the same counts. */
  lemma ComparisonSymmetric(
    t: Tables, u: Tables, catalogue: Catalogue, lower: string -> string, left: map<int, Side>, right: map<int, Side>,
    rows: seq<DiffRow>, summary: Summary, turnedRows: seq<DiffRow>, turnedSummary: Summary)
    requires IsSide(t, catalogue, left) && IsSide(u, catalogue, right)
    requires IsDiff(left, right, lower, rows) && IsSummary(left, right, summary)
    requires IsDiff(right, left, lower, turnedRows) && IsSummary(right, left, turnedSummary)
    ensures turnedRows == FlipAll(rows) && turnedSummary == summary
  {
    hide IsDiff, IsSummary, IsSide;
    SidesAgree(t, u, catalogue, left, right);
    SwapFlipsRows(left, right, lower, rows);
    DiffDetermined(right, left, lower, turnedRows, FlipAll(rows));
    SwapKeepsSummary(left, right, summary);
    SummaryDetermined(right, left, turnedSummary, summary);
  }
}
