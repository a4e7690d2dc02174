/** What a clash, a verdict, an escalation and a booking's state are, read off the rows. */
module ContentionEffects {
  import opened Options
  import opened Conflicts
  import opened Contention
  import opened Forecast

  // ---------------------------------------------------------------------- clashes

  /** A booking of the tenant that is not deleted, and neither rejected nor closed. */
  predicate Stands(t: Table, tenant: int, id: int) {
    id in t && t[id].tenant == tenant && !t[id].deleted && t[id].status != "rejected" && t[id].status != "closed"
  }

  /** Both bookings take some instant of one environment. */
  ghost predicate ShareAnInstant(t: Table, a: int, b: int)
    requires a in t && b in t
  {
    t[a].environment == t[b].environment && exists x :: At(t[a], x) && At(t[b], x)
  }

  lemma OverlapIsShared(a: Booking, b: Booking)
    requires a.start < a.end && b.start < b.end
    ensures b.start < a.end && b.end > a.start <==> exists x :: At(a, x) && At(b, x)
  {
    if b.start < a.end && b.end > a.start {
      var x := if a.start < b.start then b.start else a.start;
      assert At(a, x) && At(b, x);
    }
  }

  /** Two bookings that take some time are paired exactly when they are different ones, both
      stand, and they share an instant of an environment; the lower id comes first. */
  lemma PairedExactly(t: Table, tenant: int, a: int, b: int)
    requires forall id :: id in t ==> t[id].start < t[id].end
    ensures (a, b) in OverlappingPairs(t, tenant, None, None) <==>
      a < b && Stands(t, tenant, a) && Stands(t, tenant, b) && ShareAnInstant(t, a, b)
  {
    if a in t && b in t {
      OverlapIsShared(t[a], t[b]);
    }
  }

  /** A booking's conflict list holds the others that stand and share an instant with it; it
      is empty for a booking that is rejected or closed, and not for one that is deleted. */
  lemma ListedExactly(t: Table, tenant: int, id: int, other: int)
    requires forall id :: id in t ==> t[id].start < t[id].end
    ensures other in ListConflicts(t, id, tenant) <==>
      && id in t && t[id].tenant == tenant && t[id].status != "rejected" && t[id].status != "closed"
      && other != id && Stands(t, tenant, other) && ShareAnInstant(t, id, other)
  {
    if id in t && other in t {
      OverlapIsShared(t[id], t[other]);
    }
  }

  // --------------------------------------------------------------------- verdicts

  /** The booking's request names a project, and it is a live one of the tenant. */
  predicate Linked(t: Tables, tenant: int, id: int) {
    && Known(t, tenant, id) && RequestOf(t, tenant, id).project.Some?
    && var p := RequestOf(t, tenant, id).project.value;
      p in t.projects && t.projects[p].tenant == tenant && !t.projects[p].deleted
  }

  /** The booking's request names a project that is not there for the tenant. */
  predicate NamesInVain(t: Tables, tenant: int, id: int) {
    Known(t, tenant, id) && RequestOf(t, tenant, id).project.Some? && !Linked(t, tenant, id)
  }

  /** How hard the claim of a booking is; nothing is said of one that cannot be seen. */
  function LevelOf(t: Tables, tenant: int, id: int): Option<string> {
    if id in t.bookings && t.bookings[id].tenant == tenant && t.bookings[id].request in t.requests then
      Some(t.requests[t.bookings[id].request].level)
    else None
  }

  predicate RankDecides(t: Tables, tenant: int, a: int, b: int) {
    var x, y := RankHeld(t, tenant, a), RankHeld(t, tenant, b);
    x.Some? && y.Some? && x.value != y.value
  }

  predicate LevelDecides(t: Tables, tenant: int, a: int, b: int) {
    var x, y := LevelOf(t, tenant, a), LevelOf(t, tenant, b);
    !RankDecides(t, tenant, a, b) && x.Some? && y.Some? && x.value != y.value
  }

  /** The level read is the request's, linked to a project or not. */
  lemma LevelExactly(t: Tables, tenant: int, id: int)
    ensures FactsOf(t, tenant, id).level == LevelOf(t, tenant, id)
    ensures FactsOf(t, tenant, id).project.Some? <==> Linked(t, tenant, id)
    ensures FactsOf(t, tenant, id).rank == RankHeld(t, tenant, id)
  {
  }

  /** The outcome: by rank, by level where rank does not decide, and otherwise the first of
      no project, no rank and equal rank that holds. */
  lemma OutcomeExactly(t: Tables, tenant: int, a: int, b: int)
    ensures var v := Decide(a, FactsOf(t, tenant, a), b, FactsOf(t, tenant, b));
      var linked, decided := Linked(t, tenant, a) && Linked(t, tenant, b),
        RankDecides(t, tenant, a, b) || LevelDecides(t, tenant, a, b);
      && (v.outcome == Ranked <==> RankDecides(t, tenant, a, b))
      && (v.outcome == Protected <==> LevelDecides(t, tenant, a, b))
      && (v.outcome == NoProject <==> !decided && !linked)
      && (v.outcome == Unranked <==> (!decided && linked
        && (RankHeld(t, tenant, a) == None || RankHeld(t, tenant, b) == None)))
      && (v.outcome == EqualRank <==> (!decided && RankHeld(t, tenant, a).Some?
        && RankHeld(t, tenant, a) == RankHeld(t, tenant, b)))
  {
    hide FactsOf;
    LevelExactly(t, tenant, a);
    LevelExactly(t, tenant, b);
    RankNeedsLink(t, tenant, a);
    RankNeedsLink(t, tenant, b);
  }

  lemma RankNeedsLink(t: Tables, tenant: int, id: int)
    ensures RankHeld(t, tenant, id).Some? ==> Linked(t, tenant, id)
  {
  }

  /** The winner: the lower rank, the hard claim where the level decides, or none. */
  lemma WinnerExactly(t: Tables, tenant: int, a: int, b: int)
    ensures var v := Decide(a, FactsOf(t, tenant, a), b, FactsOf(t, tenant, b));
      && (RankDecides(t, tenant, a, b) ==>
        v.winner == Some(if RankHeld(t, tenant, a).value < RankHeld(t, tenant, b).value then a else b))
      && (LevelDecides(t, tenant, a, b) && LevelOf(t, tenant, a) == Some("hard") ==> v.winner == Some(a))
      && (LevelDecides(t, tenant, a, b) && LevelOf(t, tenant, b) == Some("hard") ==> v.winner == Some(b))
      && (v.winner == None <==> !RankDecides(t, tenant, a, b) && !LevelDecides(t, tenant, a, b))
      && (v.held <==> LevelDecides(t, tenant, a, b))
  {
    hide FactsOf;
    LevelExactly(t, tenant, a);
    LevelExactly(t, tenant, b);
    RankNeedsLink(t, tenant, a);
    RankNeedsLink(t, tenant, b);
  }

  /** The reason: rank, or what kept rank from deciding, kept also where the level did. */
  lemma ReasonExactly(t: Tables, tenant: int, a: int, b: int)
    ensures var v := Decide(a, FactsOf(t, tenant, a), b, FactsOf(t, tenant, b));
      var linked := Linked(t, tenant, a) && Linked(t, tenant, b);
      var vain := NamesInVain(t, tenant, a) || NamesInVain(t, tenant, b);
      && (v.reason == HigherPriority <==> RankDecides(t, tenant, a, b))
      && (v.reason == Unresolvable <==> !linked && vain)
      && (v.reason == NotLinked <==> !linked && !vain)
      && (v.reason == NoRank <==> linked && (RankHeld(t, tenant, a) == None || RankHeld(t, tenant, b) == None))
      && (v.reason == SameRank <==> RankHeld(t, tenant, a).Some? && RankHeld(t, tenant, a) == RankHeld(t, tenant, b))
  {
    hide FactsOf;
    LevelExactly(t, tenant, a);
    LevelExactly(t, tenant, b);
    RequestedExactly(t, tenant, a);
    RequestedExactly(t, tenant, b);
    RankNeedsLink(t, tenant, a);
    RankNeedsLink(t, tenant, b);
  }

  lemma RequestedExactly(t: Tables, tenant: int, id: int)
    ensures FactsOf(t, tenant, id).requested.Some? && FactsOf(t, tenant, id).project.None? <==> NamesInVain(t, tenant, id)
  {
  }

  // ------------------------------------------------------------- escalations, states

  /** Whichever way round a page holds a pair, it finds the pair's one escalation. */
  lemma FoundEitherWay(rows: map<(int, int), Escalation>, pairs: set<(int, int)>, a: int, b: int)
    requires (a, b) in pairs && (b, a) in pairs
    ensures var found := EscalationsForPairs(rows, pairs);
      var key := if a < b then (a, b) else (b, a);
      && ((a, b) in found <==> key in rows) && ((b, a) in found <==> key in rows)
      && (key in rows ==> found[(a, b)] == rows[key] && found[(b, a)] == rows[key])
  {
  }

  /** A clash is unowned exactly when it has no escalation, decided exactly when that has been
      answered, and owned while it waits for the answer, overdue or not. */
  lemma PairStateExactly(escalations: map<(int, int), Escalation>, p: (int, int), now: int)
    ensures var state := PairState(escalations, p, now);
      && (state == Unowned <==> p !in escalations)
      && (state == Decided <==> p in escalations && escalations[p].decidedAt != None)
      && (state == Owned <==> p in escalations && escalations[p].decidedAt == None)
  {
  }

  /** A clash of the booking has no escalation, or one whose answer is as said. */
  ghost predicate SomeUnowned(t: Table, tenant: int, rows: map<(int, int), Escalation>, id: int) {
    exists p :: p in OverlappingPairs(t, tenant, None, None) && Touches(p, id) && p !in rows
  }

  ghost predicate SomeEscalated(t: Table, tenant: int, rows: map<(int, int), Escalation>, id: int, answered: bool) {
    exists p :: p in OverlappingPairs(t, tenant, None, None) && Touches(p, id) && p in rows
      && rows[p].decidedAt.Some? == answered
  }

  /** A booking is unowned if any clash of it is, else owned if any waits for its answer, else
      decided if it has clashes at all, and else without a state. */
  lemma StateExactly(t: Table, tenant: int, rows: map<(int, int), Escalation>, now: int, id: int)
    ensures var state := StateOf(t, tenant, rows, now, id);
      var unowned, waiting, answered := SomeUnowned(t, tenant, rows, id),
        SomeEscalated(t, tenant, rows, id, false), SomeEscalated(t, tenant, rows, id, true);
      && (state == Some(Unowned) <==> unowned)
      && (state == Some(Owned) <==> !unowned && waiting)
      && (state == Some(Decided) <==> !unowned && !waiting && answered)
      && (state == None <==> !unowned && !waiting && !answered)
  {
    var pairs := OverlappingPairs(t, tenant, None, None);
    assert SomePair(pairs, rows, now, id, Unowned) <==> SomeUnowned(t, tenant, rows, id);
    assert SomePair(pairs, rows, now, id, Owned) <==> SomeEscalated(t, tenant, rows, id, false);
    assert SomePair(pairs, rows, now, id, Decided) <==> SomeEscalated(t, tenant, rows, id, true);
  }
}
