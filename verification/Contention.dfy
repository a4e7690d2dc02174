/** Which of two contending bookings outranks the other, and the escalation raised when
    a person has to decide. */
module Contention {
  import opened Options
  import opened Conflicts
  import opened Decommission

  // ------------------------------------------------------------------- the facts

  /** What a verdict knows of a booking: the project its request names, the one that
      resolves, that project's rank, and how hard the claim is. */
  datatype Facts = Facts(requested: Option<int>, project: Option<int>, rank: Option<int>, level: Option<string>)

  const MISSING: Facts := Facts(None, None, None, None)

  datatype Request = Request(project: Option<int>, level: string)

  datatype Project = Project(tenant: int, deleted: bool, rank: Option<int>)

  datatype Tables = Tables(bookings: Table, requests: map<int, Request>, projects: map<int, Project>)

  predicate Resolves(t: Tables, tenant: int, project: Option<int>) {
    project.Some? && project.value in t.projects
    && t.projects[project.value].tenant == tenant && !t.projects[project.value].deleted
  }

  predicate Known(t: Tables, tenant: int, id: int) {
    id in t.bookings && t.bookings[id].tenant == tenant && t.bookings[id].request in t.requests
  }

  function RequestOf(t: Tables, tenant: int, id: int): Request
    requires Known(t, tenant, id)
  {
    t.requests[t.bookings[id].request]
  }

  function RanksFor(t: Tables, tenant: int, ids: set<int>): map<int, Facts> {
    map id | id in ids && Known(t, tenant, id) ::
      var r := RequestOf(t, tenant, id);
      if Resolves(t, tenant, r.project) then
        Facts(r.project, r.project, t.projects[r.project.value].rank, Some(r.level))
      else Facts(r.project, None, None, Some(r.level))
  }

  // ------------------------------------------------------------------ the verdict

  datatype Outcome = Ranked | NoProject | Unranked | EqualRank | Protected

  datatype Reason = HigherPriority | NotLinked | Unresolvable | NoRank | SameRank

  /** `held` is the suffix that says a protected booking holds. */
  datatype Verdict = Verdict(outcome: Outcome, winner: Option<int>, reason: Reason, held: bool)

  function ProtectionBreaksTie(
    a: int, aLevel: Option<string>, b: int, bLevel: Option<string>, reason: Reason): Option<Verdict>
  {
    if aLevel.None? || bLevel.None? || aLevel == bLevel then None
    else Some(Verdict(Protected, Some(if aLevel == Some("hard") then a else b), reason, true))
  }

  function OrElse(v: Option<Verdict>, otherwise: Verdict): Verdict {
    if v.Some? then v.value else otherwise
  }

  function Decide(a: int, f: Facts, b: int, g: Facts): Verdict {
    if f.project.None? || g.project.None? then
      var unresolvable := (f.requested.Some? && f.project.None?) || (g.requested.Some? && g.project.None?);
      var reason := if unresolvable then Unresolvable else NotLinked;
      OrElse(ProtectionBreaksTie(a, f.level, b, g.level, reason), Verdict(NoProject, None, reason, false))
    else if f.rank.None? || g.rank.None? then
      OrElse(ProtectionBreaksTie(a, f.level, b, g.level, NoRank), Verdict(Unranked, None, NoRank, false))
    else if f.rank == g.rank then
      OrElse(ProtectionBreaksTie(a, f.level, b, g.level, SameRank), Verdict(EqualRank, None, SameRank, false))
    else
      Verdict(Ranked, Some(if f.rank.value < g.rank.value then a else b), HigherPriority, false)
  }

  // -------------------------------------------------------------- symmetry, exactly

  predicate Placed(f: Facts) {
    f.project.Some? && f.rank.Some?
  }

  predicate RankSeparates(f: Facts, g: Facts) {
    Placed(f) && Placed(g) && f.rank != g.rank
  }

  predicate Hard(f: Facts) {
    f.level == Some("hard")
  }

  /** The levels the database holds, or none for a booking that was not found. */
  predicate Levelled(f: Facts) {
    f.level.None? || f.level == Some("soft") || f.level == Some("hard")
  }

  /** The verdict is the same from either side except where a tie is broken between two
      different levels neither of which is hard. */
  lemma OrderIndependentExactly(a: int, f: Facts, b: int, g: Facts)
    ensures Decide(a, f, b, g) == Decide(b, g, a, f) <==>
      a == b || RankSeparates(f, g) || f.level.None? || g.level.None? || f.level == g.level || Hard(f) || Hard(g)
  {
  }

  // ------------------------------------------------------------------- no cycles

  /** A booking and what is known of it. */
  datatype Claim = Claim(id: int, facts: Facts)

  predicate Beats(x: Claim, y: Claim) {
    Decide(x.id, x.facts, y.id, y.facts).winner == Some(x.id)
  }

  /** Hard claims no rank can touch, then the ranked, then the rest. */
  function Tier(f: Facts): int {
    if Placed(f) then 1 else if Hard(f) then 0 else 2
  }

  predicate Before(f: Facts, g: Facts) {
    if Tier(f) != Tier(g) then Tier(f) < Tier(g)
    else if !Placed(f) || !Placed(g) then false
    else if f.rank.value != g.rank.value then f.rank.value < g.rank.value
    else Hard(f) && !Hard(g)
  }

  lemma BeatsDescends(x: Claim, y: Claim)
    requires Levelled(x.facts) && Levelled(y.facts)
    requires Beats(x, y) && x.id != y.id
    ensures Before(x.facts, y.facts)
  {
  }

  ghost predicate EachBeatsNext(walk: seq<Claim>) {
    forall i :: 0 <= i < |walk| - 1 ==> walk[i].id != walk[i + 1].id && Beats(walk[i], walk[i + 1])
  }

  ghost predicate AllLevelled(walk: seq<Claim>) {
    forall i :: 0 <= i < |walk| ==> Levelled(walk[i].facts)
  }

  /** However many bookings contend, following "wins against" never comes back. */
  lemma {:induction false} NoCycle(walk: seq<Claim>)
    requires |walk| >= 2 && EachBeatsNext(walk) && AllLevelled(walk)
    ensures Before(walk[0].facts, walk[|walk| - 1].facts)
    ensures walk[0] != walk[|walk| - 1]
  {
    BeatsDescends(walk[0], walk[1]);
    if |walk| > 2 {
      var rest := walk[1..];
      forall i | 0 <= i < |rest| - 1 ensures rest[i].id != rest[i + 1].id && Beats(rest[i], rest[i + 1]) {
        assert rest[i] == walk[i + 1] && rest[i + 1] == walk[i + 2];
      }
      NoCycle(rest);
    }
  }

  ghost predicate Unbeaten(c: Claim, claims: set<Claim>) {
    forall d :: d in claims && d.id != c.id ==> !Beats(d, c)
  }

  ghost predicate NoneBefore(c: Claim, claims: set<Claim>) {
    forall d :: d in claims ==> !Before(d.facts, c.facts)
  }

  lemma {:induction false} SomeoneFirst(claims: set<Claim>) returns (c: Claim)
    requires |claims| > 0
    ensures c in claims && NoneBefore(c, claims)
  {
    c :| c in claims;
    var rest := claims - {c};
    if |rest| > 0 {
      var m := SomeoneFirst(rest);
      assert claims == rest + {c};
      if !Before(c.facts, m.facts) {
        c := m;
      } else {
        forall d | d in rest ensures !Before(d.facts, c.facts) {
          assert !Before(d.facts, m.facts);
        }
      }
    } else {
      assert claims == {c};
    }
  }

  /** Every set of contending bookings has one that loses to none of the others. */
  lemma SomeoneUnbeaten(claims: set<Claim>)
    requires |claims| > 0 && forall c :: c in claims ==> Levelled(c.facts)
    ensures exists c :: c in claims && Unbeaten(c, claims)
  {
    var c := SomeoneFirst(claims);
    forall d | d in claims && d.id != c.id ensures !Beats(d, c) {
      if Beats(d, c) {
        BeatsDescends(d, c);
      }
    }
  }

  /** "Wins against" is not transitive: an unranked hard claim holds against a first-ranked
      soft one, which outranks a second-ranked hard one, which the first cannot beat. */
  lemma NotTransitive(project: int, other: int, x: int, y: int, z: int)
    requires x != y && y != z && x != z
    ensures var p := Claim(x, Facts(None, None, None, Some("hard")));
      var q := Claim(y, Facts(Some(project), Some(project), Some(1), Some("soft")));
      var r := Claim(z, Facts(Some(other), Some(other), Some(2), Some("hard")));
      Beats(p, q) && Beats(q, r) && !Beats(p, r) && !Beats(r, p)
  {
  }

  // ---------------------------------------------------------------- pages of pairs

  function GetFacts(ranks: map<int, Facts>, id: int): Facts {
    if id in ranks then ranks[id] else MISSING
  }

  function VerdictsForPairs(t: Tables, pairs: seq<(int, int)>, tenant: int): map<(int, int), Verdict> {
    var ids := (set p | p in pairs :: p.0) + (set p | p in pairs :: p.1);
    var ranks := RanksFor(t, tenant, ids);
    map p | p in pairs :: Decide(p.0, GetFacts(ranks, p.0), p.1, GetFacts(ranks, p.1))
  }

  function FactsOf(t: Tables, tenant: int, id: int): Facts {
    GetFacts(RanksFor(t, tenant, {id}), id)
  }

  lemma VerdictOnPage(t: Tables, pairs: seq<(int, int)>, tenant: int, p: (int, int))
    requires p in pairs
    ensures VerdictsForPairs(t, pairs, tenant)[p]
      == Decide(p.0, FactsOf(t, tenant, p.0), p.1, FactsOf(t, tenant, p.1))
  {
  }

  predicate LevelsStored(t: Tables) {
    forall r :: r in t.requests ==> t.requests[r].level == "soft" || t.requests[r].level == "hard"
  }

  lemma FactsLevelled(t: Tables, tenant: int, id: int)
    requires LevelsStored(t)
    ensures Levelled(FactsOf(t, tenant, id))
  {
  }

  /** A pair's verdict does not depend on the page it is asked with, and, for the levels
      the database holds, not on which booking is named first. */
  lemma VerdictOfPairAlone(t: Tables, tenant: int, page: seq<(int, int)>, other: seq<(int, int)>, a: int, b: int)
    requires (a, b) in page && ((a, b) in other || (b, a) in other)
    requires LevelsStored(t)
    ensures (a, b) in other ==> VerdictsForPairs(t, page, tenant)[(a, b)] == VerdictsForPairs(t, other, tenant)[(a, b)]
    ensures (b, a) in other ==> VerdictsForPairs(t, page, tenant)[(a, b)] == VerdictsForPairs(t, other, tenant)[(b, a)]
  {
    hide VerdictsForPairs, FactsOf, Decide, LevelsStored;
    FactsLevelled(t, tenant, a);
    FactsLevelled(t, tenant, b);
    VerdictOnPage(t, page, tenant, (a, b));
    if (a, b) in other { VerdictOnPage(t, other, tenant, (a, b)); }
    if (b, a) in other { VerdictOnPage(t, other, tenant, (b, a)); }
    OrderIndependentExactly(a, FactsOf(t, tenant, a), b, FactsOf(t, tenant, b));
  }

  /** The rank of the live project of this tenant that the booking's request names. */
  function RankHeld(t: Tables, tenant: int, id: int): Option<int> {
    if Known(t, tenant, id) && Resolves(t, tenant, RequestOf(t, tenant, id).project) then
      t.projects[RequestOf(t, tenant, id).project.value].rank
    else None
  }

  /** Rank decides exactly between two bookings whose requests name live projects of this
      tenant with different ranks, and then the lower number wins: an archived or foreign
      project never does. */
  lemma RankedExactly(t: Tables, tenant: int, a: int, b: int)
    ensures var v := Decide(a, FactsOf(t, tenant, a), b, FactsOf(t, tenant, b));
      var x, y := RankHeld(t, tenant, a), RankHeld(t, tenant, b);
      && (v.outcome == Ranked <==> x.Some? && y.Some? && x.value != y.value)
      && (v.outcome == Ranked ==> v.winner == Some(if x.value < y.value then a else b))
  {
  }

  // ------------------------------------------------------------------- escalations

  datatype Escalation = Escalation(
    escalatedBy: int, owner: int, respondBy: int,
    givesWay: Option<int>, notes: Option<string>, decidedBy: Option<int>, decidedAt: Option<int>)

  datatype Standing = Open | Answered | Expired

  function StandingOf(e: Escalation, now: int): Standing {
    if e.decidedAt.Some? then Answered
    else if e.respondBy < ExpiryBoundary(now) then Expired
    else Open
  }

  /** The worklist's filter for a state. */
  predicate StandingSelects(s: Standing, e: Escalation, now: int) {
    var boundary := ExpiryBoundary(now);
    match s
    case Answered => e.decidedAt.Some?
    case Expired => e.decidedAt.None? && e.respondBy < boundary
    case Open => e.decidedAt.None? && e.respondBy >= boundary
  }

  /** At each clock exactly one filter selects an escalation, the one for its state; it is
      open to the end of the UTC day it is due on, and an unanswered one only expires. */
  lemma StandingFilter(e: Escalation, s: Standing, now: int, later: int)
    requires now <= later
    ensures StandingSelects(s, e, now) <==> s == StandingOf(e, now)
    ensures StandingOf(e, now) == Open && ExpiryBoundary(later) <= e.respondBy ==> StandingOf(e, later) == Open
    ensures StandingOf(e, now) != Open ==> StandingOf(e, later) == StandingOf(e, now)
    ensures StandingOf(e, later) == Expired && StandingOf(e, now) == Open ==> ExpiryBoundary(now) <= e.respondBy < later
  {
  }

  predicate Visible(t: Table, id: int, tenant: int) {
    id in t && t[id].tenant == tenant && !t[id].deleted
  }

  /** The check in front of a new escalation, asked of the lower booking about the higher. */
  predicate InConflict(t: Table, lower: int, higher: int, tenant: int) {
    && lower in t && t[lower].tenant == tenant && !Terminal(t[lower].status)
    && higher in t && ConflictsWith(t, higher, lower, t[lower].environment, t[lower].start, t[lower].end, tenant)
  }

  /** A clash can be escalated afresh exactly when the calendar pairs its bookings. */
  lemma EscalableExactly(t: Table, tenant: int, a: int, b: int)
    ensures var (lower, higher) := Normalise(a, b);
      Visible(t, lower, tenant) && Visible(t, higher, tenant) && InConflict(t, lower, higher, tenant) <==>
      Normalise(a, b) in OverlappingPairs(t, tenant, None, None)
  {
  }

  datatype Asked = Created | Existing | NotFound | NotInConflict | OwnerNotFound

  /** The stored escalations, one for each normalised pair. */
  class Register {
    var rows: map<(int, int), Escalation>

    constructor ()
      ensures rows == map[]
    {
      rows := map[];
    }

    /** Raise the clash with an owner, or hand back the escalation that is there. */
    method CreateEscalation(
      t: Table, tenant: int, users: set<int>, a: int, b: int, owner: int, respondBy: int, asker: int)
      returns (outcome: Asked)
      modifies this
      ensures Normalise(a, b) in old(rows) ==> outcome == Existing
      ensures Normalise(a, b) !in old(rows) ==>
        (outcome == Created <==> Normalise(a, b) in OverlappingPairs(t, tenant, None, None) && owner in users)
      ensures outcome == NotFound <==> Normalise(a, b) !in old(rows) && !(Visible(t, a, tenant) && Visible(t, b, tenant))
      ensures outcome == NotInConflict <==> (Normalise(a, b) !in old(rows)
        && Visible(t, a, tenant) && Visible(t, b, tenant) && Normalise(a, b) !in OverlappingPairs(t, tenant, None, None))
      ensures rows == if outcome == Created
        then old(rows)[Normalise(a, b) := Escalation(asker, owner, respondBy, None, None, None, None)]
        else old(rows)
    {
      var (lower, higher) := Normalise(a, b);
      EscalableExactly(t, tenant, a, b);
      if (lower, higher) in rows {
        return Existing;
      }
      if !Visible(t, lower, tenant) || !Visible(t, higher, tenant) {
        return NotFound;
      }
      if !InConflict(t, lower, higher, tenant) {
        return NotInConflict;
      }
      if owner !in users {
        return OwnerNotFound;
      }
      rows := rows[(lower, higher) := Escalation(asker, owner, respondBy, None, None, None, None)];
      return Created;
    }

    /** Record which booking should give way; a later decision replaces the whole answer,
        and the asking is untouched. */
    method RecordDecision(pair: (int, int), givesWay: int, notes: Option<string>, decider: int, now: int) returns (ok: bool)
      modifies this
      ensures ok <==> pair in old(rows) && (givesWay == pair.0 || givesWay == pair.1)
      ensures !ok ==> rows == old(rows)
      ensures ok ==> rows == old(rows)[pair := old(rows)[pair].(
        givesWay := Some(givesWay), notes := notes, decidedBy := Some(decider), decidedAt := Some(now))]
    {
      if pair !in rows || (givesWay != pair.0 && givesWay != pair.1) {
        return false;
      }
      var e := rows[pair].(givesWay := Some(givesWay), notes := notes, decidedBy := Some(decider), decidedAt := Some(now));
      rows := rows[pair := e];
      return true;
    }
  }

  /** The escalations of a page of pairs, keyed by each pair as it was given. */
  function EscalationsForPairs(rows: map<(int, int), Escalation>, pairs: set<(int, int)>): map<(int, int), Escalation> {
    map p | p in pairs && Normalise(p.0, p.1) in rows :: rows[Normalise(p.0, p.1)]
  }
}
