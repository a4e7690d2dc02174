/** Who wins among concurrent callers, and that all of them can finish. */
module UpsertResults {
  import opened Upsert
  import opened UpsertSafety

  // ----------------------------------------------------------------- main results

  /** However any number of callers interleave, a key never has two rows, and no caller
      is left without the row that refused its insert. */
  lemma OneRowPerKey(s: State, events: seq<Event>)
    requires Start(s)
    ensures UniqueKeys(Run(s, events).rows)
    ensures forall c :: 0 <= c < |Run(s, events).at| ==> !Run(s, events).at[c].Failed?
  {
    RunKeeps(s, events);
    var s' := Run(s, events);
    forall c | 0 <= c < |s'.at| ensures !s'.at[c].Failed? {
      assert CallerOk(s', c);
    }
  }

  lemma DoneRow(s: State, c: nat)
    requires Inv(s) && Caller(s, c) && s.at[c].Done?
    ensures Holds(s, c, s.at[c].row) && s.rows[s.at[c].row].fate == Committed
    ensures Recorded(s, s.requests[c].key, s.rows[s.at[c].row].content)
  {
    assert CallerOk(s, c);
    assert RowOk(s, s.at[c].row);
  }

  /** All callers that raised one clash are handed one row, and it says what the first of
      them to commit said. */
  lemma FirstWriterWins(s: State, events: seq<Event>, c: nat, d: nat)
    requires Start(s) && c < |s.requests| && d < |s.requests|
    requires s.requests[c].key == s.requests[d].key && s.requests[c].mode == FirstWins
    requires Caller(Run(s, events), c) && Run(s, events).at[c].Done?
    requires Caller(Run(s, events), d) && Run(s, events).at[d].Done?
    ensures var s' := Run(s, events);
      var first := FirstOf(s'.log, s'.requests, s.requests[c].key);
      && s'.at[c] == s'.at[d] && s'.at[c].row < |s'.rows|
      && first.Some? && s'.rows[s'.at[c].row].content == s'.requests[first.value].content
  {
    RunKeeps(s, events);
    DoneRow(Run(s, events), c);
    DoneRow(Run(s, events), d);
  }

  /** One column of the row: it holds what the last caller said exactly when that caller
      said other than it had read, or found it said already. */
  predicate ColumnExact<T(==)>(read: T, mine: T, before: T, now: T) {
    now == mine <==> mine != read || before == mine
  }

  predicate ColumnsExact(read: Content, mine: Content, before: Content, now: Content) {
    && ColumnExact(read.author, mine.author, before.author, now.author)
    && ColumnExact(read.choice, mine.choice, before.choice, now.choice)
    && ColumnExact(read.notes, mine.notes, before.notes, now.notes)
    && ColumnExact(read.when, mine.when, before.when, now.when)
  }

  /** Column by column, exactly when the acknowledgement holds what the last caller to
      commit on it said. */
  lemma LastWriterExactly(s: State, events: seq<Event>, c: nat)
    requires Start(s) && c < |s.requests| && s.requests[c].mode == LastWins
    requires Caller(Run(s, events), c) && Run(s, events).at[c].Done?
    ensures var s' := Run(s, events);
      var last := LastOf(s'.log, s'.requests, s.requests[c].key);
      && s'.at[c].row < |s'.rows| && last.Some? && Caller(s', last.value)
      && var m, mine, now := s'.memory[last.value], s'.requests[last.value].content, s'.rows[s'.at[c].row].content;
      && (m.read.None? ==> now == mine)
      && (m.read.Some? ==> m.before.Some? && ColumnsExact(m.read.value, mine, m.before.value, now))
  {
    RunKeeps(s, events);
    DoneRow(Run(s, events), c);
    LastRemembers(Run(s, events), s.requests[c].key);
  }

  lemma LastRemembers(s: State, key: Key)
    requires Inv(s) && LastOf(s.log, s.requests, key).Some?
    ensures var c := LastOf(s.log, s.requests, key).value;
      && Caller(s, c) && s.at[c].Done?
      && (s.memory[c].read.Some? ==> Settled(s, s.memory[c], key))
  {
    var c := LastOf(s.log, s.requests, key).value;
    assert MemoryOk(s, c);
  }

  /** The acknowledgement holds all that the last caller to commit on it said, if that
      caller inserted it or nobody committed on it between that caller's read and its
      write. */
  lemma LastWriterWins(s: State, events: seq<Event>, c: nat)
    requires Start(s) && c < |s.requests| && s.requests[c].mode == LastWins
    requires Caller(Run(s, events), c) && Run(s, events).at[c].Done?
    ensures var s' := Run(s, events);
      var key := s.requests[c].key;
      var last := LastOf(s'.log, s'.requests, key);
      && s'.at[c].row < |s'.rows| && last.Some? && Caller(s', last.value)
      && var m := s'.memory[last.value];
        m.read.None? || Quiet(s', key, m.since, m.until) ==>
        s'.rows[s'.at[c].row].content == s'.requests[last.value].content
  {
    RunKeeps(s, events);
    DoneRow(Run(s, events), c);
    LastRemembers(Run(s, events), s.requests[c].key);
  }

  /** A step moves its own caller alone, and the log grows by that caller at most. */
  lemma NextMovesOne(s: State, e: Event)
    requires Caller(s, e.c)
    ensures var s' := Next(s, e);
      && s'.requests == s.requests && |s'.memory| == |s.memory| && s'.at == s.at[e.c := s'.at[e.c]]
      && (s'.log == s.log || s'.log == s.log + [e.c])
      && (Finished(s.at[e.c]) ==> s' == s)
  {
    hide Find, CommitRow, AbortRow, Written, Remember, Idle, SomePending;
  }

  lemma DoneStays(s: State, e: Event, c: nat, key: Key)
    requires Inv(s) && Caller(s, c) && s.at[c].Done?
    ensures Caller(Next(s, e), c) && Next(s, e).at[c] == s.at[c]
    ensures FirstOf(s.log, s.requests, key).Some? ==>
      FirstOf(Next(s, e).log, s.requests, key) == FirstOf(s.log, s.requests, key)
  {
    if Caller(s, e.c) {
      NextMovesOne(s, e);
      hide Inv, FirstOf, Next;
      LogGrows(s, e.c, key);
    }
  }

  lemma {:induction false} DoneStaysOnRun(s: State, events: seq<Event>, c: nat, key: Key)
    requires Inv(s) && Caller(s, c) && s.at[c].Done?
    ensures Caller(Run(s, events), c) && Run(s, events).at[c] == s.at[c]
    ensures FirstOf(s.log, s.requests, key).Some? ==>
      FirstOf(Run(s, events).log, s.requests, key) == FirstOf(s.log, s.requests, key)
  {
    if events != [] {
      var front := events[..|events| - 1];
      DoneStaysOnRun(s, front, c, key);
      RunKeeps(s, front);
      DoneStays(Run(s, front), events[|events| - 1], c, key);
    }
  }

  /** Once an escalation is raised, no later or concurrent asking changes its owner or its
      deadline: from any state that keeps the invariant, as every state of a run does. */
  lemma OwnerAndDeadlineStay(s: State, events: seq<Event>, c: nat)
    requires Inv(s) && Caller(s, c) && s.requests[c].mode == FirstWins && s.at[c].Done?
    ensures var s', r := Run(s, events), s.at[c].row;
      && Caller(s', c) && s'.at[c] == s.at[c]
      && r < |s.rows| && r < |s'.rows| && s'.rows[r].content == s.rows[r].content
  {
    hide Run;
    RunKeeps(s, events);
    DoneRow(s, c);
    DoneStaysOnRun(s, events, c, s.requests[c].key);
    DoneRow(Run(s, events), c);
  }

  // --------------------------------------------------------------------- progress

  function StepsLeft(p: Progress): nat {
    match p
    case Reading => 5
    case Absent => 4
    case Refused => 3
    case Found(_) => 2
    case Ready(_) => 1
    case _ => 0
  }

  /** A caller that can take its next step now. */
  predicate Free(s: State, c: nat) {
    Caller(s, c) && StepsLeft(Advance(s, c).at[c]) < StepsLeft(s.at[c])
  }

  lemma CommitFree(s: State, d: nat, r: nat)
    requires Holder(s, d, r) && r < |s.rows|
    ensures Free(s, d)
  {
  }

  /** Whoever a caller waits for can commit, so the callers never wait on one another. */
  lemma NoDeadlock(s: State, c: nat)
    requires Inv(s) && Caller(s, c) && !Finished(s.at[c])
    ensures exists d: nat :: Free(s, d)
  {
    assert CallerOk(s, c);
    if !Free(s, c) {
      var r :| 0 <= r < |s.rows| && (s.rows[r].fate.Pending? || s.rows[r].locker.Some?);
      hide CallerOk, Free, UniqueKeys, MemoriesOk;
      assert RowOk(s, r);
      CommitFree(s, if s.rows[r].fate.Pending? then s.rows[r].fate.inserter else s.rows[r].locker.value, r);
    }
  }

  function Total(at: seq<Progress>): nat {
    if at == [] then 0 else StepsLeft(at[0]) + Total(at[1..])
  }

  lemma {:induction false} TotalDrops(at: seq<Progress>, c: nat, p: Progress)
    requires c < |at| && StepsLeft(p) < StepsLeft(at[c])
    ensures Total(at[c := p]) < Total(at)
  {
    if c == 0 {
      assert at[c := p][1..] == at[1..];
    } else {
      TotalDrops(at[1..], c - 1, p);
      assert at[c := p][1..] == at[1..][c - 1 := p];
    }
  }

  ghost predicate Answered(s: State) {
    forall c :: 0 <= c < |s.at| ==> s.at[c].Done? || s.at[c].Gone?
  }

  /** From every state a run reaches, the requests still under way can all commit. */
  lemma {:induction false} AllCanCommit(s: State) returns (events: seq<Event>)
    requires Inv(s)
    ensures Answered(Run(s, events)) && forall e :: e in events ==> e.Steps?
    decreases Total(s.at)
  {
    if Answered(s) {
      events := [];
    } else {
      var c :| 0 <= c < |s.at| && !(s.at[c].Done? || s.at[c].Gone?);
      assert CallerOk(s, c);
      NoDeadlock(s, c);
      var d: nat :| Free(s, d);
      var s' := Next(s, Steps(d));
      NextKeeps(s, Steps(d));
      assert s'.at == s.at[d := s'.at[d]];
      TotalDrops(s.at, d, s'.at[d]);
      var rest := AllCanCommit(s');
      RunFrom(s, Steps(d), rest);
      events := [Steps(d)] + rest;
    }
  }
}
