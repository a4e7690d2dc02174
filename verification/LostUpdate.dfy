/** Two overlapping acknowledgements that end with what neither caller said. */
module LostUpdate {
  import opened Options
  import opened Upsert
  import opened UpsertSafety

  /** Three acknowledgements of one conflict, each by its own request. */
  function Three(key: Key, first: Content, second: Content, third: Content): seq<Request> {
    [Request(LastWins, key, first), Request(LastWins, key, second), Request(LastWins, key, third)]
  }

  /** The first is stored, the other two have read it. */
  function BothRead(key: Key, first: Content, second: Content, third: Content): State {
    var loaded := Memory(Some(first), 1, 1, None);
    State(Three(key, first, second, third), [Done(0), Found(0), Found(0)],
      [Memory(None, 0, 0, Some(first)), loaded, loaded], [Row(key, first, Committed, None)], [0])
  }

  function Begin(key: Key, first: Content, second: Content, third: Content): State {
    State(Three(key, first, second, third), [Reading, Reading, Reading], [BLANK, BLANK, BLANK], [], [])
  }

  lemma FourSteps(s: State, a: Event, b: Event, c: Event, d: Event)
    ensures Run(s, [a, b, c, d]) == Next(Next(Next(Next(s, a), b), c), d)
  {
    hide Next;
    RunFrom(s, a, [b, c, d]);
    RunFrom(Next(s, a), b, [c, d]);
    RunFrom(Next(Next(s, a), b), c, [d]);
    RunFrom(Next(Next(Next(s, a), b), c), d, []);
    assert [a] + [b, c, d] == [a, b, c, d] && [b] + [c, d] == [b, c, d];
  }

  lemma FiveSteps(s: State, a: Event, b: Event, c: Event, d: Event, e: Event)
    ensures Run(s, [a, b, c, d, e]) == Next(Next(Next(Next(Next(s, a), b), c), d), e)
  {
    hide Next;
    RunFrom(s, a, [b, c, d, e]);
    FourSteps(Next(s, a), b, c, d, e);
    assert [a] + [b, c, d, e] == [a, b, c, d, e];
  }

  lemma Inserts(key: Key, first: Content, second: Content, third: Content)
    ensures var s := Begin(key, first, second, third);
      Next(Next(Next(s, Steps(0)), Steps(0)), Steps(0))
      == State(Three(key, first, second, third), [Done(0), Reading, Reading],
        [Memory(None, 0, 0, Some(first)), BLANK, BLANK], [Row(key, first, Committed, None)], [0])
  {
    var s := Begin(key, first, second, third);
    var s1 := s.(at := [Absent, Reading, Reading]);
    var s2 := s.(at := [Ready(0), Reading, Reading], rows := [Row(key, first, Pending(0), None)]);
    assert Next(s, Steps(0)) == s1;
    assert Next(s1, Steps(0)) == s2;
  }

  lemma FirstIsStored(key: Key, first: Content, second: Content, third: Content)
    ensures Run(Begin(key, first, second, third), [Steps(0), Steps(0), Steps(0), Steps(1), Steps(2)])
      == BothRead(key, first, second, third)
  {
    hide Run;
    var s := Begin(key, first, second, third);
    Inserts(key, first, second, third);
    FiveSteps(s, Steps(0), Steps(0), Steps(0), Steps(1), Steps(2));
    hide Begin;
    var s3 := State(Three(key, first, second, third), [Done(0), Reading, Reading],
      [Memory(None, 0, 0, Some(first)), BLANK, BLANK], [Row(key, first, Committed, None)], [0]);
    var loaded := Memory(Some(first), 1, 1, None);
    assert Next(s3, Steps(1)) == s3.(at := [Done(0), Found(0), Reading],
      memory := [Memory(None, 0, 0, Some(first)), loaded, BLANK]);
  }

  /** A caller that has read the one row and found no other at work on it writes and
      commits. */
  lemma WritesAndCommits(s: State, c: nat)
    requires Caller(s, c) && s.at[c] == Found(0) && |s.rows| == 1
    requires s.rows[0].fate == Committed && s.rows[0].locker.None?
    requires s.memory[c].read.Some? && !Idle(s.requests[c], s.memory[c].read)
    ensures var s' := Next(Next(s, Steps(c)), Steps(c));
      && s'.requests == s.requests && s'.at == s.at[c := Done(0)] && s'.log == s.log + [c]
      && s'.rows == [s.rows[0].(content := Overlay(s.memory[c].read.value, s.requests[c].content, s.rows[0].content))]
      && |s'.memory| == |s.memory| && forall d :: 0 <= d < |s.memory| && d != c ==> s'.memory[d] == s.memory[d]
  {
    hide Overlay, Idle;
    var m := s.memory[c].(until := |s.log|);
    assert Next(s, Steps(c)) == s.(at := s.at[c := Ready(0)], memory := s.memory[c := m],
      rows := [s.rows[0].(locker := Some(c))]);
  }

  lemma BothWrite(key: Key, first: Content, second: Content, third: Content)
    requires second != first && third != first
    ensures var s := Run(BothRead(key, first, second, third), [Steps(1), Steps(1), Steps(2), Steps(2)]);
      s.at == [Done(0), Done(0), Done(0)] && s.log == [0, 1, 2]
      && |s.rows| == 1 && s.rows[0].content == Overlay(first, third, second)
  {
    hide Run, Next;
    var s := BothRead(key, first, second, third);
    FourSteps(s, Steps(1), Steps(1), Steps(2), Steps(2));
    WritesAndCommits(s, 1);
    WritesAndCommits(Next(Next(s, Steps(1)), Steps(1)), 2);
  }

  /** Two callers have read a stored answer; one changes what it says, the other its notes
      alone, and they commit in that order. The row ends with the one's answer and the
      other's notes, which neither said. */
  lemma NeitherSaid(key: Key, first: Content, second: Content, third: Content)
    requires second.choice != first.choice && second.notes == first.notes
    requires third.choice == first.choice && third.notes != first.notes
    ensures var events :=
        [Steps(0), Steps(0), Steps(0), Steps(1), Steps(2)] + [Steps(1), Steps(1), Steps(2), Steps(2)];
      var s := Run(Begin(key, first, second, third), events);
      && Start(Begin(key, first, second, third))
      && s.log == [0, 1, 2] && |s.rows| == 1
      && s.rows[0].content.choice == second.choice && s.rows[0].content.notes == third.notes
      && s.rows[0].content != second && s.rows[0].content != third
  {
    RunOn(Begin(key, first, second, third),
      [Steps(0), Steps(0), Steps(0), Steps(1), Steps(2)], [Steps(1), Steps(1), Steps(2), Steps(2)]);
    FirstIsStored(key, first, second, third);
    BothWrite(key, first, second, third);
  }
}
