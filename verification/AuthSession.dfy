/** Refresh tokens: the table of issued tokens, the transitions of the session
    service on it, and the requests that decide which of them are committed.

    Instants are integers (microseconds). A token's row id is its position in the
    table. Random output - a new token, a new family id - is an argument. */
module AuthSession {
  import opened Numbers
  import opened Options

  const REFRESH_TOKEN_DAYS: int := 14

  /** SHA-256 as a collision-free function of the token. */
  datatype Digest = Sha256(token: string)

  datatype Row = Row(
    userId: int,
    digest: Digest,
    family: string,
    expiresAt: int,
    usedAt: Option<int>,
    revokedAt: Option<int>,
    revokedReason: Option<string>,
    replacedBy: Option<nat>)

  /** `users` holds whether each known user is active. */
  datatype Store = Store(rows: seq<Row>, users: map<int, bool>)

  datatype Reason = Unknown | AlreadyUsed | Revoked | Expired | UserInactive | Collision

  /** `Written` is the rejection whose revocations the caller must commit. */
  datatype Outcome =
    | Exchanged(id: nat)
    | Rejected(reason: Reason)
    | Written(reason: Reason)

  // -------------------------------------------------------------- transitions

  function Find(rows: seq<Row>, token: string): (r: Option<nat>)
    ensures r.Some? ==> r.value < |rows| && rows[r.value].digest == Sha256(token)
    ensures r.None? ==> forall i :: 0 <= i < |rows| ==> rows[i].digest != Sha256(token)
  {
    if rows == [] then None
    else if rows[|rows| - 1].digest == Sha256(token) then Some(|rows| - 1)
    else Find(rows[..|rows| - 1], token)
  }

  function RevokeRow(r: Row, hit: bool, now: int, reason: string): Row {
    if hit && r.revokedAt.None? then r.(revokedAt := Some(now), revokedReason := Some(reason)) else r
  }

  function RevokeFamilyRows(rows: seq<Row>, family: string, now: int, reason: string): seq<Row> {
    seq(|rows|, i requires 0 <= i < |rows| => RevokeRow(rows[i], rows[i].family == family, now, reason))
  }

  function RevokeUserRows(rows: seq<Row>, userId: int, now: int, reason: string): seq<Row> {
    seq(|rows|, i requires 0 <= i < |rows| => RevokeRow(rows[i], rows[i].userId == userId, now, reason))
  }

  function NewRow(userId: int, token: string, family: string, now: int): Row {
    Row(userId, Sha256(token), family, now + REFRESH_TOKEN_DAYS * DAY, None, None, None, None)
  }

  /** The service call; what is kept of it is decided by the request. */
  function Rotate(s: Store, token: string, newToken: string, now: int): (r: (Store, Outcome))
    ensures r.1.Exchanged? ==> r.1.id < |s.rows| && s.rows[r.1.id].digest == Sha256(token)
  {
    var found := Find(s.rows, token);
    if found.None? then (s, Rejected(Unknown))
    else
      var id := found.value;
      var row := s.rows[id];
      if row.usedAt.Some? then
        (s.(rows := RevokeFamilyRows(s.rows, row.family, now, "reuse_detected")), Written(AlreadyUsed))
      else if row.revokedAt.Some? then (s, Rejected(Revoked))
      else if row.expiresAt <= now then (s, Rejected(Expired))
      else if row.userId !in s.users || !s.users[row.userId] then
        (s.(rows := RevokeFamilyRows(s.rows, row.family, now, "user_inactive")), Written(UserInactive))
      else if Find(s.rows, newToken).Some? then (s, Rejected(Collision))
      else
        var used := row.(usedAt := Some(now), replacedBy := Some(|s.rows|));
        (s.(rows := s.rows[id := used] + [NewRow(row.userId, newToken, row.family, now)]), Exchanged(id))
  }

  /** The refresh request: an error rolls the transaction back, except that a
      written revocation is committed before the error is returned. */
  function Refresh(s: Store, token: string, newToken: string, now: int): Store {
    var (s', o) := Rotate(s, token, newToken, now);
    if o.Rejected? then s else s'
  }

  /** What the request would keep if every error rolled the transaction back. */
  function RefreshWithoutCommit(s: Store, token: string, newToken: string, now: int): Store {
    var (s', o) := Rotate(s, token, newToken, now);
    if o.Exchanged? then s' else s
  }

  function Login(s: Store, userId: int, token: string, family: string, now: int): Store {
    if userId in s.users && s.users[userId] && Find(s.rows, token).None? then
      s.(rows := s.rows + [NewRow(userId, token, family, now)])
    else s
  }

  function Logout(s: Store, token: string, now: int): Store {
    var found := Find(s.rows, token);
    if found.None? then s
    else s.(rows := s.rows[found.value := RevokeRow(s.rows[found.value], true, now, "logout")])
  }

  function RevokeAll(s: Store, userId: int, now: int, reason: string): Store {
    s.(rows := RevokeUserRows(s.rows, userId, now, reason))
  }

  // ------------------------------------------------------ the service, in place

  class SessionService {
    var rows: seq<Row>
    var users: map<int, bool>

    ghost function Contents(): Store
      reads this
    {
      Store(rows, users)
    }

    constructor (users: map<int, bool>)
      ensures Contents() == Store([], users)
    {
      this.rows := [];
      this.users := users;
    }

    /** Ends a family: its unrevoked tokens are revoked, no token of it can be exchanged at
        any time, and every other token can be exchanged whenever it could. */
    method RevokeFamily(family: string, now: int, reason: string)
      modifies this`rows
      ensures |rows| == |old(rows)|
      ensures forall i :: 0 <= i < |rows| ==> (rows[i] ==
        if old(rows)[i].family == family && old(rows)[i].revokedAt.None?
        then old(rows)[i].(revokedAt := Some(now), revokedReason := Some(reason)) else old(rows)[i])
      ensures forall i, at :: 0 <= i < |rows| ==>
        (Exchangeable(Contents(), i, at) <==> Exchangeable(old(Contents()), i, at) && rows[i].family != family)
    {
      for i := 0 to |rows|
        invariant |rows| == |old(rows)|
        invariant forall k :: 0 <= k < i ==> rows[k] == RevokeRow(old(rows)[k], old(rows)[k].family == family, now, reason)
        invariant forall k :: i <= k < |rows| ==> rows[k] == old(rows)[k]
      {
        if rows[i].family == family && rows[i].revokedAt.None? {
          rows := rows[i := rows[i].(revokedAt := Some(now), revokedReason := Some(reason))];
        }
      }
    }

    /** Inserts the row of a fresh session; the digest column is unique. */
    method IssueSession(userId: int, token: string, family: string, now: int) returns (inserted: bool)
      modifies this`rows
      ensures inserted == Find(old(rows), token).None?
      ensures rows == if inserted then old(rows) + [NewRow(userId, token, family, now)] else old(rows)
      ensures inserted ==> FreshRow(Contents(), userId, token, family, now)
    {
      inserted := Find(rows, token).None?;
      if inserted {
        rows := rows + [NewRow(userId, token, family, now)];
      }
    }

    method RotateRefreshToken(token: string, newToken: string, now: int) returns (o: Outcome)
      modifies this`rows
      ensures (Contents(), o) == Rotate(old(Contents()), token, newToken, now)
    {
      var found := Find(rows, token);
      if found.None? {
        return Rejected(Unknown);
      }
      var id := found.value;
      if rows[id].usedAt.Some? {
        RevokeFamily(rows[id].family, now, "reuse_detected");
        assert rows == RevokeFamilyRows(old(rows), old(rows)[id].family, now, "reuse_detected");
        return Written(AlreadyUsed);
      }
      if rows[id].revokedAt.Some? {
        return Rejected(Revoked);
      }
      if rows[id].expiresAt <= now {
        return Rejected(Expired);
      }
      var userId := rows[id].userId;
      if userId !in users || !users[userId] {
        RevokeFamily(rows[id].family, now, "user_inactive");
        assert rows == RevokeFamilyRows(old(rows), old(rows)[id].family, now, "user_inactive");
        return Written(UserInactive);
      }
      var inserted := IssueSession(userId, newToken, rows[id].family, now);
      if !inserted {
        return Rejected(Collision);
      }
      var successor := |rows| - 1;
      rows := rows[id := rows[id].(usedAt := Some(now))];
      rows := rows[id := rows[id].(replacedBy := Some(successor))];
      assert rows == old(rows)[id := rows[id]] + [NewRow(userId, newToken, old(rows)[id].family, now)];
      return Exchanged(id);
    }

    /** The refresh endpoint with the transaction around it. */
    method RefreshSession(token: string, newToken: string, now: int) returns (o: Outcome)
      modifies this`rows
      ensures o == Rotate(old(Contents()), token, newToken, now).1
      ensures Contents() == Refresh(old(Contents()), token, newToken, now)
    {
      var begun := rows;
      o := RotateRefreshToken(token, newToken, now);
      match o {
        case Exchanged(_) =>
        case Written(_) =>
        case Rejected(_) => rows := begun;
      }
    }

    method LogIn(userId: int, token: string, family: string, now: int)
      modifies this`rows
      ensures Contents() == Login(old(Contents()), userId, token, family, now)
    {
      if userId in users && users[userId] {
        var _ := IssueSession(userId, token, family, now);
      }
    }

    method RevokeRefreshToken(token: string, now: int)
      modifies this`rows
      ensures |rows| == |old(rows)|
      ensures forall i :: 0 <= i < |rows| ==> (rows[i] ==
        if Find(old(rows), token) == Some(i) && old(rows)[i].revokedAt.None?
        then old(rows)[i].(revokedAt := Some(now), revokedReason := Some("logout")) else old(rows)[i])
      ensures Contents() == Logout(old(Contents()), token, now)
    {
      var found := Find(rows, token);
      if found.Some? && rows[found.value].revokedAt.None? {
        rows := rows[found.value := rows[found.value].(revokedAt := Some(now))];
        rows := rows[found.value := rows[found.value].(revokedReason := Some("logout"))];
      } else if found.Some? {
        assert rows == rows[found.value := rows[found.value]];
      }
    }

    /** Ends every session of a user, and none of anybody else. */
    method RevokeAllForUser(userId: int, now: int, reason: string)
      modifies this`rows
      ensures |rows| == |old(rows)|
      ensures forall i :: 0 <= i < |rows| ==> (rows[i] ==
        if old(rows)[i].userId == userId && old(rows)[i].revokedAt.None?
        then old(rows)[i].(revokedAt := Some(now), revokedReason := Some(reason)) else old(rows)[i])
      ensures forall i, at :: 0 <= i < |rows| ==>
        (Exchangeable(Contents(), i, at) <==> Exchangeable(old(Contents()), i, at) && rows[i].userId != userId)
      ensures Contents() == RevokeAll(old(Contents()), userId, now, reason)
    {
      for i := 0 to |rows|
        invariant |rows| == |old(rows)|
        invariant forall k :: 0 <= k < i ==> rows[k] == RevokeRow(old(rows)[k], old(rows)[k].userId == userId, now, reason)
        invariant forall k :: i <= k < |rows| ==> rows[k] == old(rows)[k]
      {
        if rows[i].userId == userId && rows[i].revokedAt.None? {
          rows := rows[i := rows[i].(revokedAt := Some(now), revokedReason := Some(reason))];
        }
      }
      assert rows == RevokeUserRows(old(rows), userId, now, reason);
    }
  }

  // --------------------------------------------------------------------- runs

  datatype Event =
    | LoginEvent(userId: int, token: string, family: string, now: int)
    | RefreshEvent(token: string, newToken: string, now: int)
    | LogoutEvent(token: string, now: int)
    | RevokeAllEvent(userId: int, now: int, reason: string)
    | SetActiveEvent(userId: int, active: bool)

  function Step(s: Store, e: Event): Store {
    match e
    case LoginEvent(userId, token, family, now) => Login(s, userId, token, family, now)
    case RefreshEvent(token, newToken, now) => Refresh(s, token, newToken, now)
    case LogoutEvent(token, now) => Logout(s, token, now)
    case RevokeAllEvent(userId, now, reason) => RevokeAll(s, userId, now, reason)
    case SetActiveEvent(userId, active) => s.(users := s.users[userId := active])
  }

  /** A new login draws a family id no row has. */
  ghost predicate FreshFamily(s: Store, e: Event) {
    e.LoginEvent? ==> forall i :: 0 <= i < |s.rows| ==> s.rows[i].family != e.family
  }

  function Run(s: Store, es: seq<Event>): Store {
    if es == [] then s else Step(Run(s, es[..|es| - 1]), es[|es| - 1])
  }

  ghost predicate FreshRun(s: Store, es: seq<Event>) {
    forall k :: 0 <= k < |es| ==> FreshFamily(Run(s, es[..k]), es[k])
  }

  /** What the refresh presented at position `k` of the run came to. */
  ghost function OutcomeAt(s: Store, es: seq<Event>, k: nat): Outcome
    requires k < |es| && es[k].RefreshEvent?
  {
    Rotate(Run(s, es[..k]), es[k].token, es[k].newToken, es[k].now).1
  }

  // --------------------------------------------------------------- invariant

  /** `j` is the row that follows `i` in `i`'s family. */
  ghost predicate Next(rows: seq<Row>, i: nat, j: nat) {
    && i < j < |rows|
    && rows[i].family == rows[j].family
    && forall k :: i < k < j ==> rows[k].family != rows[i].family
  }

  ghost predicate Last(rows: seq<Row>, i: nat) {
    && i < |rows|
    && forall k :: i < k < |rows| ==> rows[k].family != rows[i].family
  }

  /** Every used row points at the next row of its family; the unused one is the
      last. */
  ghost predicate Linked(rows: seq<Row>, i: nat)
    requires i < |rows|
  {
    if rows[i].usedAt.Some? then rows[i].replacedBy.Some? && Next(rows, i, rows[i].replacedBy.value)
    else rows[i].replacedBy.None? && Last(rows, i)
  }

  ghost predicate Inv(s: Store) {
    && (forall i, j :: 0 <= i < j < |s.rows| ==> s.rows[i].digest != s.rows[j].digest)
    && (forall i :: 0 <= i < |s.rows| ==> Linked(s.rows, i))
    && (forall i, j :: 0 <= i < j < |s.rows| && s.rows[i].family == s.rows[j].family
          ==> s.rows[i].userId == s.rows[j].userId)
  }

  /** Rows are never removed, and what identifies or ends one is never undone. */
  ghost predicate Kept(r: Row, r': Row) {
    && r'.userId == r.userId && r'.digest == r.digest && r'.family == r.family && r'.expiresAt == r.expiresAt
    && (r.usedAt.Some? ==> r'.usedAt == r.usedAt && r'.replacedBy == r.replacedBy)
    && (r.revokedAt.Some? ==> r'.revokedAt == r.revokedAt && r'.revokedReason == r.revokedReason)
  }

  ghost predicate Grows(s: Store, s': Store) {
    && |s.rows| <= |s'.rows|
    && forall i :: 0 <= i < |s.rows| ==> Kept(s.rows[i], s'.rows[i])
  }

  /** Only revocation columns differ. */
  ghost predicate SameChains(rows: seq<Row>, rows': seq<Row>) {
    && |rows| == |rows'|
    && forall i :: 0 <= i < |rows| ==>
         rows'[i].(revokedAt := rows[i].revokedAt, revokedReason := rows[i].revokedReason) == rows[i]
  }

  lemma SameChainsKeepInv(s: Store, s': Store)
    requires Inv(s) && SameChains(s.rows, s'.rows)
    ensures Inv(s')
  {
    forall i | 0 <= i < |s.rows|
      ensures s'.rows[i].family == s.rows[i].family && s'.rows[i].usedAt == s.rows[i].usedAt
      ensures s'.rows[i].replacedBy == s.rows[i].replacedBy && s'.rows[i].digest == s.rows[i].digest
      ensures s'.rows[i].userId == s.rows[i].userId
    {
    }
    forall i | 0 <= i < |s.rows| ensures Linked(s'.rows, i) {
      assert Linked(s.rows, i);
    }
  }

  lemma AppendKeepsInv(s: Store, row: Row)
    requires Inv(s)
    requires row.usedAt.None? && row.replacedBy.None?
    requires forall i :: 0 <= i < |s.rows| ==> s.rows[i].family != row.family && s.rows[i].digest != row.digest
    ensures Inv(s.(rows := s.rows + [row]))
  {
    var rows' := s.rows + [row];
    forall i | 0 <= i < |rows'| ensures Linked(rows', i) {
      if i < |s.rows| { assert Linked(s.rows, i); }
    }
  }

  lemma ExchangeKeepsInv(s: Store, id: nat, token: string, now: int)
    requires Inv(s) && id < |s.rows| && s.rows[id].usedAt.None?
    requires Find(s.rows, token).None?
    ensures var row := s.rows[id];
      Inv(s.(rows := s.rows[id := row.(usedAt := Some(now), replacedBy := Some(|s.rows|))]
                     + [NewRow(row.userId, token, row.family, now)]))
  {
    var row := s.rows[id];
    var n := |s.rows|;
    var rows' := s.rows[id := row.(usedAt := Some(now), replacedBy := Some(n))]
                 + [NewRow(row.userId, token, row.family, now)];
    assert Linked(s.rows, id);
    forall i | 0 <= i < n
      ensures rows'[i].family == s.rows[i].family && rows'[i].digest == s.rows[i].digest
      ensures rows'[i].userId == s.rows[i].userId
    {
    }
    forall i | 0 <= i < |rows'| ensures Linked(rows', i) {
      if i < n {
        assert Linked(s.rows, i);
        if i == id {
          assert Next(rows', id, n);
        } else if s.rows[i].usedAt.None? {
          assert s.rows[i].family != row.family;
        }
      }
    }
  }

  lemma ExchangeAs(s: Store, token: string, newToken: string, now: int)
    requires Rotate(s, token, newToken, now).1.Exchanged?
    ensures var (s', o) := Rotate(s, token, newToken, now);
      && o.id < |s.rows| && s.rows[o.id].usedAt.None? && Find(s.rows, newToken).None?
      && s' == s.(rows := s.rows[o.id := s.rows[o.id].(usedAt := Some(now), replacedBy := Some(|s.rows|))]
                     + [NewRow(s.rows[o.id].userId, newToken, s.rows[o.id].family, now)])
  {
  }

  lemma RejectionKeepsChains(s: Store, token: string, newToken: string, now: int)
    requires !Rotate(s, token, newToken, now).1.Exchanged?
    ensures SameChains(s.rows, Rotate(s, token, newToken, now).0.rows)
  {
    hide Find;
  }

  lemma RefreshKeepsInv(s: Store, token: string, newToken: string, now: int)
    requires Inv(s)
    ensures Inv(Refresh(s, token, newToken, now))
  {
    hide Rotate, Inv;
    var (s', o) := Rotate(s, token, newToken, now);
    if o.Exchanged? {
      ExchangeAs(s, token, newToken, now);
      ExchangeKeepsInv(s, o.id, newToken, now);
    } else {
      RejectionKeepsChains(s, token, newToken, now);
      SameChainsKeepInv(s, s');
    }
  }

  lemma StepKeepsInv(s: Store, e: Event)
    requires Inv(s) && FreshFamily(s, e)
    ensures Inv(Step(s, e))
  {
    hide Refresh;
    match e
    case LoginEvent(userId, token, family, now) =>
      if Login(s, userId, token, family, now) != s {
        AppendKeepsInv(s, NewRow(userId, token, family, now));
      }
    case RefreshEvent(token, newToken, now) => RefreshKeepsInv(s, token, newToken, now);
    case LogoutEvent(token, now) => SameChainsKeepInv(s, Step(s, e));
    case RevokeAllEvent(userId, now, reason) => SameChainsKeepInv(s, Step(s, e));
    case SetActiveEvent(userId, active) => SameChainsKeepInv(s, Step(s, e));
  }

  lemma RefreshGrows(s: Store, token: string, newToken: string, now: int)
    ensures Grows(s, Refresh(s, token, newToken, now))
  {
    hide Rotate, Find;
    if Rotate(s, token, newToken, now).1.Exchanged? {
      ExchangeAs(s, token, newToken, now);
    } else {
      RejectionGrows(s, token, newToken, now);
    }
  }

  lemma RejectionGrows(s: Store, token: string, newToken: string, now: int)
    requires !Rotate(s, token, newToken, now).1.Exchanged?
    ensures Grows(s, Rotate(s, token, newToken, now).0)
  {
    hide Find;
  }

  lemma StepGrows(s: Store, e: Event)
    ensures Grows(s, Step(s, e))
  {
    hide Refresh, Find;
    match e
    case RefreshEvent(token, newToken, now) => RefreshGrows(s, token, newToken, now);
    case _ =>
  }

  lemma {:induction false} RunKeepsInv(s: Store, es: seq<Event>)
    requires Inv(s) && FreshRun(s, es)
    ensures Inv(Run(s, es))
  {
    if es != [] {
      var front := es[..|es| - 1];
      assert forall k :: 0 <= k < |front| ==> front[..k] == es[..k];
      assert forall k :: 0 <= k < |front| ==> FreshFamily(Run(s, es[..k]), es[k]);
      RunKeepsInv(s, front);
      assert FreshFamily(Run(s, es[..|es| - 1]), es[|es| - 1]);
      StepKeepsInv(Run(s, front), es[|es| - 1]);
    }
  }

  // ------------------------------------------------------------------- chains

  /** The ids of a family's rows, oldest first. */
  function Members(rows: seq<Row>, family: string): (ids: seq<nat>)
    ensures forall m :: 0 <= m < |ids| ==> ids[m] < |rows| && rows[ids[m]].family == family
    ensures forall i :: 0 <= i < |rows| && rows[i].family == family ==> i in ids
    ensures forall m, n :: 0 <= m < n < |ids| ==> ids[m] < ids[n]
  {
    if rows == [] then []
    else
      var front := rows[..|rows| - 1];
      if rows[|rows| - 1].family == family then Members(front, family) + [|rows| - 1]
      else Members(front, family)
  }

  /** The family's rows form one chain: each but the last was exchanged for the
      next, and the last is the only one not exchanged. */
  ghost predicate IsChain(rows: seq<Row>, ids: seq<nat>) {
    && (forall m :: 0 <= m < |ids| ==> ids[m] < |rows|)
    && (forall m {:trigger rows[ids[m]]} :: 0 <= m < |ids| - 1 ==>
          rows[ids[m]].usedAt.Some? && rows[ids[m]].replacedBy == Some(ids[m + 1]))
    && (ids != [] ==>
          rows[ids[|ids| - 1]].usedAt.None? && rows[ids[|ids| - 1]].replacedBy.None?)
  }

  lemma ChainLink(s: Store, family: string, m: nat)
    requires Inv(s) && m + 1 < |Members(s.rows, family)|
    ensures var ids := Members(s.rows, family);
      s.rows[ids[m]].usedAt.Some? && s.rows[ids[m]].replacedBy == Some(ids[m + 1])
  {
    var rows, ids := s.rows, Members(s.rows, family);
    var i, j := ids[m], ids[m + 1];
    assert Linked(rows, i);
    assert rows[j].family == rows[i].family;
    var k := rows[i].replacedBy.value;
    assert k in ids;
    var n :| 0 <= n < |ids| && ids[n] == k;
    assert n == m + 1;
  }

  lemma ChainTail(s: Store, family: string)
    requires Inv(s) && Members(s.rows, family) != []
    ensures var ids := Members(s.rows, family);
      var last := s.rows[ids[|ids| - 1]];
      last.usedAt.None? && last.replacedBy.None?
  {
    var rows, ids := s.rows, Members(s.rows, family);
    var i := ids[|ids| - 1];
    assert Linked(rows, i);
    assert Last(rows, i) by {
      forall k | i < k < |rows| ensures rows[k].family != rows[i].family {
        assert k !in ids;
      }
    }
  }

  lemma FamilyIsChain(s: Store, family: string)
    requires Inv(s)
    ensures IsChain(s.rows, Members(s.rows, family))
  {
    var rows, ids := s.rows, Members(s.rows, family);
    forall m {:trigger rows[ids[m]]} | 0 <= m < |ids| - 1
      ensures rows[ids[m]].usedAt.Some? && rows[ids[m]].replacedBy == Some(ids[m + 1])
    {
      ChainLink(s, family, m);
    }
    if ids != [] {
      ChainTail(s, family);
    }
  }

  /** In every run each family is a single chain with one unused token, its tail. */
  lemma EveryFamilyIsChain(users: map<int, bool>, es: seq<Event>, family: string)
    requires FreshRun(Store([], users), es)
    ensures var rows := Run(Store([], users), es).rows;
      IsChain(rows, Members(rows, family))
  {
    RunKeepsInv(Store([], users), es);
    FamilyIsChain(Run(Store([], users), es), family);
  }

  // ------------------------------------------------------------ safety of runs

  lemma {:induction false} RunGrows(s: Store, es: seq<Event>, k: nat)
    requires k <= |es|
    ensures Grows(Run(s, es[..k]), Run(s, es))
    decreases |es| - k
  {
    if k == |es| {
      assert es[..k] == es;
    } else {
      assert es[..k + 1][..k] == es[..k];
      StepGrows(Run(s, es[..k]), es[k]);
      RunGrows(s, es, k + 1);
    }
  }

  lemma PrefixGrows(s: Store, es: seq<Event>, j: nat, k: nat)
    requires j <= k <= |es|
    ensures Grows(Run(s, es[..j]), Run(s, es[..k]))
  {
    RunGrows(s, es[..k], j);
    assert es[..k][..j] == es[..j];
  }

  /** A token is never exchanged twice. */
  lemma NoTokenExchangedTwice(users: map<int, bool>, es: seq<Event>, j: nat, k: nat)
    requires FreshRun(Store([], users), es)
    requires j < k < |es| && es[j].RefreshEvent? && es[k].RefreshEvent?
    requires OutcomeAt(Store([], users), es, j).Exchanged? && OutcomeAt(Store([], users), es, k).Exchanged?
    ensures es[j].token != es[k].token
  {
    hide Rotate;
    var s0 := Store([], users);
    var s, t := Run(s0, es[..j]), Run(s0, es[..k]);
    var id := OutcomeAt(s0, es, j).id;
    ExchangeSpends(s, es[j].token, es[j].newToken, es[j].now);
    assert es[..j + 1][..j] == es[..j];
    PrefixGrows(s0, es, j + 1, k);
    assert Kept(Run(s0, es[..j + 1]).rows[id], t.rows[id]);
    ExchangeSpends(t, es[k].token, es[k].newToken, es[k].now);
    assert OutcomeAt(s0, es, k).id != id;
    RunOfPrefixKeepsInv(s0, es, k);
  }

  lemma ExchangeSpends(s: Store, token: string, newToken: string, now: int)
    requires Rotate(s, token, newToken, now).1.Exchanged?
    ensures var id := Rotate(s, token, newToken, now).1.id;
      var s' := Refresh(s, token, newToken, now);
      && s.rows[id].usedAt.None?
      && |s'.rows| == |s.rows| + 1 && s'.rows[id].usedAt.Some? && s'.rows[id].digest == Sha256(token)
  {
  }

  lemma RunOfPrefixKeepsInv(s: Store, es: seq<Event>, k: nat)
    requires Inv(s) && FreshRun(s, es) && k <= |es|
    ensures Inv(Run(s, es[..k]))
  {
    forall i | 0 <= i < k ensures FreshFamily(Run(s, es[..k][..i]), es[..k][i]) {
      assert es[..k][..i] == es[..i];
    }
    RunKeepsInv(s, es[..k]);
  }

  /** Every row of the family, and there is one, is revoked. */
  ghost predicate Dead(s: Store, family: string) {
    && (exists i :: 0 <= i < |s.rows| && s.rows[i].family == family)
    && (forall i :: 0 <= i < |s.rows| && s.rows[i].family == family ==> s.rows[i].revokedAt.Some?)
  }

  lemma StepKeepsDead(s: Store, e: Event, family: string)
    requires Dead(s, family) && FreshFamily(s, e)
    ensures Dead(Step(s, e), family)
  {
    StepGrows(s, e);
    var i :| 0 <= i < |s.rows| && s.rows[i].family == family;
    assert Kept(s.rows[i], Step(s, e).rows[i]);
    forall k | 0 <= k < |Step(s, e).rows| && Step(s, e).rows[k].family == family
      ensures Step(s, e).rows[k].revokedAt.Some?
    {
      if k < |s.rows| { assert Kept(s.rows[k], Step(s, e).rows[k]); }
    }
  }

  lemma RunOneMore(s: Store, es: seq<Event>, k: nat)
    requires 0 < k <= |es|
    ensures Run(s, es[..k]) == Step(Run(s, es[..k - 1]), es[k - 1])
  {
    hide Step;
    assert es[..k][..k - 1] == es[..k - 1];
  }

  lemma {:induction false} DeadForever(s: Store, es: seq<Event>, j: nat, k: nat, family: string)
    requires FreshRun(s, es) && j <= k <= |es| && Dead(Run(s, es[..j]), family)
    ensures Dead(Run(s, es[..k]), family)
  {
    hide Dead, Step, Run, FreshFamily;
    if j < k {
      DeadForever(s, es, j, k - 1, family);
      RunOneMore(s, es, k);
      StepKeepsDead(Run(s, es[..k - 1]), es[k - 1], family);
    }
  }

  /** A committed rejection leaves the presented token's family dead. */
  lemma WrittenKills(s: Store, token: string, newToken: string, now: int)
    requires Rotate(s, token, newToken, now).1.Written?
    ensures var found := Find(s.rows, token);
      found.Some? && Dead(Refresh(s, token, newToken, now), s.rows[found.value].family)
  {
    var id := Find(s.rows, token).value;
    assert Refresh(s, token, newToken, now).rows[id].family == s.rows[id].family;
  }

  lemma DeadNotExchanged(s: Store, family: string, token: string, newToken: string, now: int)
    requires Dead(s, family) && Rotate(s, token, newToken, now).1.Exchanged?
    ensures s.rows[Rotate(s, token, newToken, now).1.id].family != family
  {
  }

  /** Once a spent token has been presented again - or a token of a deactivated
      user has - no token of that family is ever exchanged, although the request
      that presented it failed. */
  lemma ReplayEndsFamily(users: map<int, bool>, es: seq<Event>, j: nat, k: nat)
    requires FreshRun(Store([], users), es)
    requires j < k < |es| && es[j].RefreshEvent? && es[k].RefreshEvent?
    requires OutcomeAt(Store([], users), es, j).Written?
    requires OutcomeAt(Store([], users), es, k).Exchanged?
    ensures var before, rows := Run(Store([], users), es[..j]).rows, Run(Store([], users), es[..k]).rows;
      var replayed := Find(before, es[j].token);
      && replayed.Some?
      && rows[OutcomeAt(Store([], users), es, k).id].family != before[replayed.value].family
  {
    hide Rotate;
    var s0 := Store([], users);
    var s := Run(s0, es[..j]);
    WrittenKills(s, es[j].token, es[j].newToken, es[j].now);
    var family := s.rows[Find(s.rows, es[j].token).value].family;
    assert es[..j + 1][..j] == es[..j];
    DeadForever(s0, es, j + 1, k, family);
    DeadNotExchanged(Run(s0, es[..k]), family, es[k].token, es[k].newToken, es[k].now);
  }

  lemma RevokedUserIsDead(s: Store, i: nat, now: int, reason: string)
    requires Inv(s) && i < |s.rows|
    ensures Dead(RevokeAll(s, s.rows[i].userId, now, reason), s.rows[i].family)
  {
    var s' := RevokeAll(s, s.rows[i].userId, now, reason);
    assert s'.rows[i].family == s.rows[i].family;
  }

  /** After a password reset no session opened before it is ever exchanged. */
  lemma RevokeAllEndsSessions(users: map<int, bool>, es: seq<Event>, j: nat, k: nat)
    requires FreshRun(Store([], users), es)
    requires j < k < |es| && es[j].RevokeAllEvent? && es[k].RefreshEvent?
    requires OutcomeAt(Store([], users), es, k).Exchanged?
    ensures var before := Run(Store([], users), es[..j]).rows;
      var rows := Run(Store([], users), es[..k]).rows;
      var family := rows[OutcomeAt(Store([], users), es, k).id].family;
      forall i :: 0 <= i < |before| && before[i].userId == es[j].userId ==> before[i].family != family
  {
    hide Rotate, RevokeAll;
    var s0 := Store([], users);
    var s := Run(s0, es[..j]);
    RunOfPrefixKeepsInv(s0, es, j);
    assert es[..j + 1][..j] == es[..j];
    forall i | 0 <= i < |s.rows| && s.rows[i].userId == es[j].userId
      ensures s.rows[i].family != Run(s0, es[..k]).rows[OutcomeAt(s0, es, k).id].family
    {
      var family := s.rows[i].family;
      RevokedUserIsDead(s, i, es[j].now, es[j].reason);
      DeadForever(s0, es, j + 1, k, family);
      DeadNotExchanged(Run(s0, es[..k]), family, es[k].token, es[k].newToken, es[k].now);
    }
  }

  // ------------------------------------------------------------ how long it lives

  /** The last row is one a user was just given: unused, unrevoked, and exchangeable for
      fourteen days to the microsecond while the user is active. */
  ghost predicate FreshRow(s: Store, userId: int, token: string, family: string, now: int) {
    && s.rows != []
    && var i := |s.rows| - 1;
      && s.rows[i].userId == userId && s.rows[i].digest == Sha256(token) && s.rows[i].family == family
      && s.rows[i].replacedBy.None?
      && forall at :: Exchangeable(s, i, at) <==>
        at < now + 14 * 86_400_000_000 && userId in s.users && s.users[userId]
  }

  /** A login appends one row, the active user's, and touches no other. */
  lemma LoginOpensSession(s: Store, userId: int, token: string, family: string, now: int)
    requires userId in s.users && s.users[userId] && Find(s.rows, token).None?
    ensures var s' := Login(s, userId, token, family, now);
      && |s'.rows| == |s.rows| + 1 && s'.users == s.users
      && (forall i :: 0 <= i < |s.rows| ==> s'.rows[i] == s.rows[i])
      && FreshRow(s', userId, token, family, now)
  {
  }

  /** A login changes the store if and only if the user is there and active and the token
      drawn is nobody's yet. */
  lemma LoginExactly(s: Store, userId: int, token: string, family: string, now: int)
    ensures Login(s, userId, token, family, now) != s
        <==> userId in s.users && s.users[userId] && forall i :: 0 <= i < |s.rows| ==> s.rows[i].digest != Sha256(token)
  {
    var s' := Login(s, userId, token, family, now);
    if userId in s.users && s.users[userId] && Find(s.rows, token).None? {
      LoginOpensSession(s, userId, token, family, now);
      assert |s'.rows| != |s.rows|;
    }
  }

  /** An exchange appends one row of the same user and family, marks the row exchanged as
      used and replaced by it, and touches no other. */
  lemma ExchangeExtendsSession(s: Store, token: string, newToken: string, now: int)
    requires Rotate(s, token, newToken, now).1.Exchanged?
    ensures var id, s' := Rotate(s, token, newToken, now).1.id, Refresh(s, token, newToken, now);
      && id < |s.rows| && s.rows[id].digest == Sha256(token)
      && |s'.rows| == |s.rows| + 1 && s'.users == s.users
      && (forall i :: 0 <= i < |s.rows| && i != id ==> s'.rows[i] == s.rows[i])
      && s'.rows[id].usedAt == Some(now) && s'.rows[id].replacedBy == Some(|s.rows|)
      && s'.rows[id].revokedAt == s.rows[id].revokedAt && s'.rows[id].userId == s.rows[id].userId
      && s'.rows[id].family == s.rows[id].family && s'.rows[id].expiresAt == s.rows[id].expiresAt
      && FreshRow(s', s.rows[id].userId, newToken, s.rows[id].family, now)
  {
  }

  /** A token a user was just given is exchanged on any presentation within the fortnight
      with nothing in between, and leaves the user with such a token again. */
  lemma FreshTokenExchanged(
    s: Store, userId: int, token: string, family: string, now: int, newToken: string, later: int)
    requires Inv(s) && FreshRow(s, userId, token, family, now) && userId in s.users && s.users[userId]
    requires later < now + 14 * 86_400_000_000 && Find(s.rows, newToken).None?
    ensures Rotate(s, token, newToken, later).1 == Exchanged(|s.rows| - 1)
    ensures var s' := Refresh(s, token, newToken, later);
      Inv(s') && s'.users == s.users && FreshRow(s', userId, newToken, family, later)
  {
    hide Rotate, Refresh, Inv;
    assert s.rows[|s.rows| - 1].digest.token == token;
    ExchangeableExact(s, |s.rows| - 1, newToken, later);
    ExchangeExtendsSession(s, token, newToken, later);
    RefreshKeepsInv(s, token, newToken, later);
  }

  /** Each refresh comes within a fortnight of the one before, with the token that one gave
      and a new token nobody holds. */
  ghost predicate RefreshedInTime(s: Store, token: string, now: int, refreshes: seq<(string, int)>)
    decreases |refreshes|
  {
    refreshes != [] ==>
      var (newToken, at) := refreshes[0];
      && at < now + 14 * 86_400_000_000 && Find(s.rows, newToken).None?
      && RefreshedInTime(Refresh(s, token, newToken, at), newToken, at, refreshes[1..])
  }

  /** Every one of the refreshes is an exchange. */
  ghost predicate AllExchanged(s: Store, token: string, refreshes: seq<(string, int)>)
    decreases |refreshes|
  {
    refreshes != [] ==>
      var (newToken, at) := refreshes[0];
      && Rotate(s, token, newToken, at).1.Exchanged?
      && AllExchanged(Refresh(s, token, newToken, at), newToken, refreshes[1..])
  }

  /** A session refreshed at least once a fortnight goes on for as long as its user is
      active, however long that is. */
  lemma {:induction false} SessionGoesOn(
    s: Store, userId: int, token: string, family: string, now: int, refreshes: seq<(string, int)>)
    requires Inv(s) && FreshRow(s, userId, token, family, now) && userId in s.users && s.users[userId]
    requires RefreshedInTime(s, token, now, refreshes)
    ensures AllExchanged(s, token, refreshes)
    decreases |refreshes|
  {
    hide Rotate, Refresh, Inv, FreshRow;
    if refreshes != [] {
      var (newToken, at) := refreshes[0];
      FreshTokenExchanged(s, userId, token, family, now, newToken, at);
      SessionGoesOn(Refresh(s, token, newToken, at), userId, newToken, family, at, refreshes[1..]);
    }
  }

  /** What presenting a token comes to, outcome by outcome. */
  lemma OutcomesExactly(s: Store, i: nat, newToken: string, now: int)
    requires Inv(s) && i < |s.rows|
    ensures var r, o := s.rows[i], OutcomeOf(s, i, newToken, now);
      var active := r.userId in s.users && s.users[r.userId];
      && (o == Written(AlreadyUsed) <==> r.usedAt.Some?)
      && (o == Rejected(Revoked) <==> r.usedAt.None? && r.revokedAt.Some?)
      && (o == Rejected(Expired) <==> r.usedAt.None? && r.revokedAt.None? && r.expiresAt <= now)
      && (o == Written(UserInactive) <==> r.usedAt.None? && r.revokedAt.None? && now < r.expiresAt && !active)
      && (o == Rejected(Collision) <==> Exchangeable(s, i, now) && Find(s.rows, newToken).Some?)
      && (o == Exchanged(i) <==> Exchangeable(s, i, now) && Find(s.rows, newToken).None?)
  {
    assert Find(s.rows, s.rows[i].digest.token) == Some(i);
  }

  /** An unknown token changes nothing, and so does every rejection that is not committed;
      a committed one revokes the family with its reason. */
  lemma RejectionsExactly(s: Store, token: string, newToken: string, now: int)
    ensures (forall i :: 0 <= i < |s.rows| ==> s.rows[i].digest != Sha256(token)) <==>
      Rotate(s, token, newToken, now).1 == Rejected(Unknown)
    ensures Rotate(s, token, newToken, now).1.Rejected? ==> Refresh(s, token, newToken, now) == s
    ensures Rotate(s, token, newToken, now).1.Written? ==>
      var id, s' := Find(s.rows, token).value, Refresh(s, token, newToken, now);
      && |s'.rows| == |s.rows| && s'.users == s.users
      && forall i :: 0 <= i < |s.rows| ==>
        s'.rows[i] == (if s.rows[i].family == s.rows[id].family && s.rows[i].revokedAt.None? then
          s.rows[i].(revokedAt := Some(now), revokedReason := Some(if s.rows[id].usedAt.Some? then "reuse_detected" else "user_inactive"))
        else s.rows[i])
  {
  }

  // --------------------------------------------------------- commit or lose it

  /** Some token of the family would be exchanged at `now`. */
  ghost predicate Alive(s: Store, family: string, now: int) {
    exists i :: 0 <= i < |s.rows| && s.rows[i].family == family && Exchangeable(s, i, now)
  }

  ghost predicate Exchangeable(s: Store, i: nat, now: int)
    requires i < |s.rows|
  {
    var r := s.rows[i];
    && r.usedAt.None? && r.revokedAt.None? && now < r.expiresAt
    && r.userId in s.users && s.users[r.userId]
  }

  /** A row is exchangeable exactly when presenting its token gets it exchanged,
      given a new token nobody holds. */
  lemma ExchangeableExact(s: Store, i: nat, newToken: string, now: int)
    requires Inv(s) && i < |s.rows| && Find(s.rows, newToken).None?
    ensures Rotate(s, s.rows[i].digest.token, newToken, now).1 == Exchanged(i) <==> Exchangeable(s, i, now)
  {
  }

  /** Committing the revocation is what ends the family: had the error rolled it back,
      the family would be as alive as before, and whoever holds its unused token could
      still exchange it; with the commit that token is refused as revoked. */
  lemma CommitEndsRollbackForgets(s: Store, token: string, newToken: string, now: int, later: int)
    requires Inv(s)
    requires Rotate(s, token, newToken, now).1.Written?
    ensures var family := s.rows[Find(s.rows, token).value].family;
      var kept, lost := Refresh(s, token, newToken, now), RefreshWithoutCommit(s, token, newToken, now);
      && !Alive(kept, family, later)
      && (Alive(lost, family, later) <==> Alive(s, family, later))
      && forall i, next ::
        0 <= i < |s.rows| && s.rows[i].family == family && Exchangeable(s, i, later) && Find(s.rows, next).None? ==>
        OutcomeOf(kept, i, next, later) == Rejected(Revoked) && OutcomeOf(lost, i, next, later) == Exchanged(i)
  {
    var family := s.rows[Find(s.rows, token).value].family;
    WrittenKills(s, token, newToken, now);
    hide Rotate;
    forall i, next |
      0 <= i < |s.rows| && s.rows[i].family == family && Exchangeable(s, i, later) && Find(s.rows, next).None?
      ensures OutcomeOf(Refresh(s, token, newToken, now), i, next, later) == Rejected(Revoked)
      ensures OutcomeOf(s, i, next, later) == Exchanged(i)
    {
      ExchangeableExact(s, i, next, later);
      RevokedStays(s, token, newToken, now, i, next, later);
    }
  }

  /** What presenting the token of row `i` comes to. */
  function OutcomeOf(s: Store, i: nat, newToken: string, now: int): Outcome
    requires i < |s.rows|
  {
    Rotate(s, s.rows[i].digest.token, newToken, now).1
  }

  lemma WrittenKeepsRows(s: Store, token: string, newToken: string, now: int)
    requires Rotate(s, token, newToken, now).1.Written?
    ensures var rows := Refresh(s, token, newToken, now).rows;
      |rows| == |s.rows| && forall k :: 0 <= k < |rows| ==>
        rows[k].digest == s.rows[k].digest && rows[k].usedAt == s.rows[k].usedAt
  {
  }

  lemma RevokedIsRefused(s: Store, i: nat, newToken: string, now: int)
    requires i < |s.rows| && Find(s.rows, s.rows[i].digest.token) == Some(i)
    requires s.rows[i].usedAt.None? && s.rows[i].revokedAt.Some?
    ensures OutcomeOf(s, i, newToken, now) == Rejected(Revoked)
  {
  }

  /** A committed rejection leaves the family's unused token where it was, revoked. */
  lemma RevokedStays(s: Store, token: string, newToken: string, now: int, i: nat, next: string, later: int)
    requires Inv(s) && Rotate(s, token, newToken, now).1.Written?
    requires i < |s.rows| && s.rows[i].family == s.rows[Find(s.rows, token).value].family && s.rows[i].usedAt.None?
    ensures i < |Refresh(s, token, newToken, now).rows|
    ensures OutcomeOf(Refresh(s, token, newToken, now), i, next, later) == Rejected(Revoked)
  {
    hide Rotate;
    WrittenKeepsRows(s, token, newToken, now);
    WrittenKills(s, token, newToken, now);
    SameFamily(s, token, newToken, now, i);
    var s' := Refresh(s, token, newToken, now);
    assert Find(s'.rows, s'.rows[i].digest.token) == Some(i);
    RevokedIsRefused(s', i, next, later);
  }

  lemma SameFamily(s: Store, token: string, newToken: string, now: int, i: nat)
    requires Rotate(s, token, newToken, now).1.Written? && i < |s.rows|
    ensures i < |Refresh(s, token, newToken, now).rows|
    ensures Refresh(s, token, newToken, now).rows[i].family == s.rows[i].family
  {
  }

  /** Logging out revokes the presented row alone, so it ends the session exactly
      when that row is the family's unused one or the session was over already. */
  lemma LogoutExact(s: Store, id: nat, now: int, later: int)
    requires Inv(s) && id < |s.rows|
    ensures var family := s.rows[id].family;
      Alive(Logout(s, s.rows[id].digest.token, now), family, later)
      <==> Alive(s, family, later) && s.rows[id].usedAt.Some?
  {
    var family := s.rows[id].family;
    var s' := Logout(s, s.rows[id].digest.token, now);
    assert Find(s.rows, s.rows[id].digest.token) == Some(id);
    assert s'.rows[id].revokedAt.Some?;
    assert forall i :: 0 <= i < |s.rows| && i != id ==> s'.rows[i] == s.rows[i];
    if Alive(s, family, later) {
      var i :| 0 <= i < |s.rows| && s.rows[i].family == family && Exchangeable(s, i, later);
      assert Linked(s.rows, i) && Linked(s.rows, id);
      if s.rows[id].usedAt.Some? {
        assert s'.rows[i] == s.rows[i] && Exchangeable(s', i, later);
      } else {
        assert i == id;
      }
    }
    if Alive(s', family, later) {
      var i :| 0 <= i < |s'.rows| && s'.rows[i].family == family && Exchangeable(s', i, later);
      assert i != id;
      assert Exchangeable(s, i, later);
      assert Linked(s.rows, i) && Linked(s.rows, id);
    }
  }
}
