/** What every interleaving of the callers keeps. */
module UpsertSafety {
  import opened Options
  import opened Upsert

  // ----------------------------------------------------------------- the invariant

  predicate Asks(requests: seq<Request>, c: nat, key: Key) {
    c < |requests| && requests[c].key == key
  }

  function FirstOf(log: seq<nat>, requests: seq<Request>, key: Key): (first: Option<nat>)
    ensures first.Some? ==> first.value in log && Asks(requests, first.value, key)
  {
    if log == [] then None
    else
      var before, c := FirstOf(log[..|log| - 1], requests, key), log[|log| - 1];
      if before.Some? then before else if Asks(requests, c, key) then Some(c) else None
  }

  function LastOf(log: seq<nat>, requests: seq<Request>, key: Key): (last: Option<nat>)
    ensures last.Some? ==> last.value in log && Asks(requests, last.value, key)
  {
    if log == [] then None
    else
      var c := log[|log| - 1];
      if Asks(requests, c, key) then Some(c) else LastOf(log[..|log| - 1], requests, key)
  }

  predicate Alive(row: Row) {
    row.fate != Withdrawn
  }

  ghost predicate UniqueKeys(rows: seq<Row>) {
    forall i, j :: 0 <= i < j < |rows| && Alive(rows[i]) && Alive(rows[j]) ==> rows[i].key != rows[j].key
  }

  /** One table, one rule: callers on a key agree on who wins. */
  ghost predicate OneMode(requests: seq<Request>) {
    forall c, d :: 0 <= c < |requests| && 0 <= d < |requests| && requests[c].key == requests[d].key ==>
      requests[c].mode == requests[d].mode
  }

  predicate Holds(s: State, c: nat, r: nat)
    requires Caller(s, c)
  {
    r < |s.rows| && s.rows[r].key == s.requests[c].key
  }

  /** What a caller's progress says of the rows. */
  ghost predicate CallerOk(s: State, c: nat)
    requires Caller(s, c)
  {
    match s.at[c]
    case Reading => true
    case Absent => true
    case Refused => SomeCommitted(s.rows, s.requests[c].key)
    case Found(r) => Holds(s, c, r) && s.rows[r].fate == Committed
    case Ready(r) => Holds(s, c, r) && ReadyOn(s.rows[r], c, s.requests[c], s.memory[c].read)
    case Done(r) => Holds(s, c, r) && s.rows[r].fate == Committed
    case Gone => true
    case Failed => false
  }

  /** The row is the caller's own insert, or a committed one it has finished with. */
  predicate ReadyOn(row: Row, c: nat, request: Request, read: Option<Content>) {
    row.fate == Pending(c) || (row.fate == Committed && (Idle(request, read) || row.locker == Some(c)))
  }

  /** No caller on the key is among those that committed from position `a` up to `b`. */
  ghost predicate Quiet(s: State, key: Key, a: nat, b: nat) {
    forall n :: a <= n < b && n < |s.log| ==> !Asks(s.requests, s.log[n], key)
  }

  /** What a caller read is still there unless somebody committed on the key since. */
  ghost predicate MemoryOk(s: State, c: nat)
    requires Caller(s, c)
  {
    var m, key := s.memory[c], s.requests[c].key;
    match s.at[c]
    case Found(r) => m.read.Some? && Fresh(s, m, key, r, |s.log|)
    case Ready(r) =>
      && r < |s.rows|
      && (m.read.None? ==> s.rows[r].fate == Pending(c))
      && (m.read.Some? ==> s.rows[r].fate == Committed)
      && (m.read.Some? ==> Fresh(s, m, key, r, if s.rows[r].locker == Some(c) then m.until else |s.log|))
    case Done(_) =>
      m.read.Some? ==> Settled(s, m, key)
    case _ => m.read.None? || s.at[c].Gone? || s.at[c].Failed?
  }

  ghost predicate Settled(s: State, m: Memory, key: Key) {
    m.before.Some? && m.since <= m.until <= |s.log| && (Quiet(s, key, m.since, m.until) ==> m.before == m.read)
  }

  ghost predicate Fresh(s: State, m: Memory, key: Key, r: nat, until: nat) {
    r < |s.rows| && m.since <= until <= |s.log| && (Quiet(s, key, m.since, until) ==> Some(s.rows[r].content) == m.read)
  }

  predicate Holder(s: State, c: nat, r: nat) {
    Caller(s, c) && s.at[c] == Ready(r) && Holds(s, c, r)
  }

  ghost predicate RowOk(s: State, r: nat)
    requires r < |s.rows|
  {
    var row := s.rows[r];
    match row.fate
    case Pending(c) => row.locker.None? && Holder(s, c, r) && row.content == s.requests[c].content
    case Committed =>
      Recorded(s, row.key, row.content)
      && (row.locker.Some? ==> Holder(s, row.locker.value, r) && s.requests[row.locker.value].mode == LastWins)
    case Withdrawn => row.locker.None?
  }

  /** A committed content is that of the first caller to commit on its key, or what
      the last one left. */
  ghost predicate Recorded(s: State, key: Key, content: Content) {
    var first, last := FirstOf(s.log, s.requests, key), LastOf(s.log, s.requests, key);
    && first.Some? && last.Some?
    && (s.requests[first.value].mode == FirstWins ==> content == s.requests[first.value].content)
    && last.value < |s.memory|
    && (s.requests[last.value].mode == LastWins ==> content == Left(s.memory[last.value], s.requests[last.value].content))
  }

  /** What a caller left in the row when it committed. */
  function Left(m: Memory, mine: Content): Content {
    if m.before.None? then mine else Written(m.read, mine, m.before.value)
  }

  ghost predicate LogOk(s: State) {
    forall c :: c in s.log ==> Caller(s, c) && s.at[c].Done?
  }

  ghost predicate CallersOk(s: State) {
    |s.at| == |s.requests| == |s.memory| && forall c :: 0 <= c < |s.at| ==> CallerOk(s, c)
  }

  ghost predicate MemoriesOk(s: State) {
    |s.at| == |s.requests| == |s.memory| && forall c :: 0 <= c < |s.at| ==> MemoryOk(s, c)
  }

  ghost predicate RowsOk(s: State) {
    forall r :: 0 <= r < |s.rows| ==> RowOk(s, r)
  }

  ghost predicate Orderly(s: State) {
    UniqueKeys(s.rows) && OneMode(s.requests) && LogOk(s) && CallersOk(s) && RowsOk(s)
  }

  ghost predicate Inv(s: State) {
    Orderly(s) && MemoriesOk(s)
  }

  ghost predicate Start(s: State) {
    && s.rows == [] && s.log == [] && OneMode(s.requests) && |s.at| == |s.requests| == |s.memory|
    && forall c :: 0 <= c < |s.at| ==> s.at[c] == Reading && s.memory[c] == BLANK
  }

  // ------------------------------------------------------------ every step keeps it

  /** `c` moved, and did nothing another caller relies on. */
  ghost predicate OnlyMoved(s: State, s': State, c: nat)
    requires Caller(s, c)
  {
    && !Finished(s.at[c])
    && s'.requests == s.requests && |s'.at| == |s.at| && |s'.memory| == |s.memory| && |s.rows| <= |s'.rows|
    && (s'.log == s.log || s'.log == s.log + [c])
    && (forall d :: 0 <= d < |s.at| && d != c ==> s'.at[d] == s.at[d])
    && (forall d :: 0 <= d < |s.memory| && d != c ==> s'.memory[d] == s.memory[d])
    && (forall r :: 0 <= r < |s.rows| ==> RowServes(s.rows[r], s'.rows[r], c))
    && forall r :: 0 <= r < |s.rows| ==> s'.rows[r].content == s.rows[r].content || OwnCommit(s, s', c, r)
  }

  /** `c` holds the row and commits. */
  predicate OwnCommit(s: State, s': State, c: nat, r: nat)
    requires Caller(s, c) && r < |s.rows|
  {
    s.rows[r].locker == Some(c) && s'.log == s.log + [c] && s.rows[r].key == s.requests[c].key
  }

  predicate RowServes(row: Row, row': Row, c: nat) {
    && row'.key == row.key
    && (row.fate == Committed ==> row'.fate == Committed)
    && (row.fate != Pending(c) ==> row'.fate == row.fate)
    && (row.locker != Some(c) && row.locker.Some? ==> row'.locker == row.locker)
    && (row'.locker == row.locker || row'.locker == Some(c) || row'.locker.None?)
  }

  lemma OthersOk(s: State, s': State, c: nat, d: nat)
    requires Orderly(s) && Caller(s, c) && OnlyMoved(s, s', c)
    requires d < |s.at| && d != c
    ensures CallerOk(s', d)
  {
    hide RowOk, UniqueKeys, LogOk;
    assert CallerOk(s, d);
    if s.at[d].Refused? {
      var r :| 0 <= r < |s.rows| && s.rows[r].key == s.requests[d].key && s.rows[r].fate == Committed;
      assert s'.rows[r].key == s.requests[d].key && s'.rows[r].fate == Committed;
    }
  }

  lemma QuietBefore(s: State, s': State, c: nat, key: Key, a: nat, b: nat)
    requires s'.requests == s.requests && (s'.log == s.log || s'.log == s.log + [c])
    requires Quiet(s', key, a, b) && a <= b <= |s'.log|
    ensures b <= |s.log| ==> Quiet(s, key, a, b)
    ensures b == |s'.log| && a <= |s.log| ==> Quiet(s, key, a, |s.log|)
    ensures b == |s'.log| && a <= |s.log| && s'.log != s.log ==> !Asks(s.requests, c, key)
  {
    forall n | a <= n < b && n < |s.log| ensures !Asks(s.requests, s.log[n], key) {
      assert s'.log[n] == s.log[n];
    }
    if s'.log != s.log && b == |s'.log| {
      assert s'.log[|s.log|] == c;
    }
  }

  /** What `d` remembers of a row stays right while `c` moves. */
  lemma StillFresh(s: State, s': State, c: nat, d: nat, r: nat, until: nat, until': nat)
    requires Orderly(s) && Caller(s, c) && OnlyMoved(s, s', c) && Caller(s, d) && d != c
    requires Fresh(s, s.memory[d], s.requests[d].key, r, until) && s.rows[r].key == s.requests[d].key
    requires (until == |s.log| && until' == |s'.log|) || (until' == until && s.rows[r].locker == Some(d))
    ensures Fresh(s', s.memory[d], s.requests[d].key, r, until')
  {
    hide RowOk, UniqueKeys, LogOk, CallerOk, RowServes;
    var m, key := s.memory[d], s.requests[d].key;
    if Quiet(s', key, m.since, until') {
      QuietBefore(s, s', c, key, m.since, until');
    }
  }

  lemma QuietStays(s: State, s': State, c: nat, key: Key, a: nat, b: nat)
    requires s'.requests == s.requests && (s'.log == s.log || s'.log == s.log + [c])
    requires a <= b <= |s.log| && Quiet(s', key, a, b)
    ensures Quiet(s, key, a, b)
  {
    QuietBefore(s, s', c, key, a, b);
  }

  lemma OthersRemember(s: State, s': State, c: nat, d: nat)
    requires Inv(s) && Caller(s, c) && OnlyMoved(s, s', c)
    requires d < |s.at| && d != c
    ensures MemoryOk(s', d)
  {
    hide RowOk, UniqueKeys, LogOk, Fresh, Quiet;
    assert MemoryOk(s, d) && CallerOk(s, d);
    var m, key := s.memory[d], s.requests[d].key;
    match s.at[d]
    case Found(r) => StillFresh(s, s', c, d, r, |s.log|, |s'.log|);
    case Ready(r) =>
      if m.read.Some? {
        if s.rows[r].locker == Some(d) {
          StillFresh(s, s', c, d, r, m.until, m.until);
        } else {
          StillFresh(s, s', c, d, r, |s.log|, |s'.log|);
        }
      }
    case Done(_) =>
      if m.read.Some? && Quiet(s', key, m.since, m.until) {
        QuietStays(s, s', c, key, m.since, m.until);
      }
    case _ =>
  }

  /** A row `c` neither wrote nor committed over stays in order. */
  lemma RowStays(s: State, s': State, c: nat, r: nat)
    requires Orderly(s) && Caller(s, c) && OnlyMoved(s, s', c) && r < |s.rows|
    requires s'.rows[r] == s.rows[r] && s.at[c] != Ready(r)
    requires s'.log == s.log || s.requests[c].key != s.rows[r].key || s.rows[r].fate == Withdrawn
    ensures RowOk(s', r)
  {
    hide UniqueKeys, FirstOf, LastOf, CallerOk;
    assert RowOk(s, r);
    LogGrows(s, c, s.rows[r].key);
  }

  lemma LogGrows(s: State, c: nat, key: Key)
    requires c < |s.requests|
    ensures s.requests[c].key != key ==> FirstOf(s.log + [c], s.requests, key) == FirstOf(s.log, s.requests, key)
    ensures s.requests[c].key != key ==> LastOf(s.log + [c], s.requests, key) == LastOf(s.log, s.requests, key)
    ensures s.requests[c].key == key ==> LastOf(s.log + [c], s.requests, key) == Some(c)
    ensures s.requests[c].key == key && FirstOf(s.log, s.requests, key).None? ==>
      FirstOf(s.log + [c], s.requests, key) == Some(c)
    ensures FirstOf(s.log, s.requests, key).Some? ==>
      FirstOf(s.log + [c], s.requests, key) == FirstOf(s.log, s.requests, key)
  {
  }

  /** A row that is in order, or that the step of `c` left alone. */
  ghost predicate RowSettled(s: State, s': State, c: nat, r: nat)
    requires Caller(s, c) && r < |s'.rows|
  {
    RowOk(s', r) || (r < |s.rows| && s'.rows[r] == s.rows[r] && s.at[c] != Ready(r) && s'.log == s.log)
  }

  lemma StepKeeps(s: State, s': State, c: nat)
    requires Inv(s) && Caller(s, c) && OnlyMoved(s, s', c)
    requires UniqueKeys(s'.rows) && CallerOk(s', c) && MemoryOk(s', c)
    requires s'.log == s.log || s'.at[c].Done?
    requires forall r :: 0 <= r < |s'.rows| ==> RowSettled(s, s', c, r)
    ensures Inv(s')
  {
    hide RowOk, UniqueKeys, CallerOk, MemoryOk;
    forall d | 0 <= d < |s.at| ensures CallerOk(s', d) && MemoryOk(s', d) {
      if d != c {
        OthersOk(s, s', c, d);
        OthersRemember(s, s', c, d);
      }
    }
    forall r | 0 <= r < |s'.rows| ensures RowOk(s', r) {
      if !RowOk(s', r) {
        assert RowSettled(s, s', c, r);
        RowStays(s, s', c, r);
      }
    }
  }

  lemma LoadKeeps(s: State, c: nat, r: nat)
    requires Inv(s) && Caller(s, c) && (s.at[c].Reading? || s.at[c].Refused?)
    requires r < |s.rows| && s.rows[r].key == s.requests[c].key && s.rows[r].fate == Committed
    ensures Inv(Load(s, c, r))
  {
    hide RowOk, UniqueKeys, LogOk, Find, RowServes;
    var s' := Load(s, c, r);
    assert forall q :: 0 <= q < |s.rows| ==> RowSettled(s, s', c, q);
    assert OnlyMoved(s, s', c) by { SameRows(s, c); }
    StepKeeps(s, s', c);
  }

  lemma SameRows(s: State, c: nat)
    ensures forall r :: 0 <= r < |s.rows| ==> RowServes(s.rows[r], s.rows[r], c)
  {
  }

  lemma ReadKeeps(s: State, c: nat)
    requires Inv(s) && Caller(s, c) && s.at[c].Reading?
    ensures Inv(ReadStep(s, c))
  {
    hide Orderly, MemoriesOk;
    var r := Find(s.rows, s.requests[c].key);
    if r.Some? {
      LoadKeeps(s, c, r.value);
    } else {
      MoveKeeps(s, c, Absent);
    }
  }

  /** Moving on with nothing read or written. */
  lemma MoveKeeps(s: State, c: nat, to: Progress)
    requires Inv(s) && Caller(s, c) && (s.at[c].Reading? || s.at[c].Absent?)
    requires to == Absent || (to == Refused && SomeCommitted(s.rows, s.requests[c].key))
    ensures Inv(Move(s, c, to))
  {
    hide RowOk, UniqueKeys, LogOk, RowServes;
    var s' := Move(s, c, to);
    assert MemoryOk(s, c);
    assert forall q :: 0 <= q < |s.rows| ==> RowSettled(s, s', c, q);
    assert OnlyMoved(s, s', c) by { SameRows(s, c); }
    StepKeeps(s, s', c);
  }

  /** The reread always finds the row that refused the insert. */
  lemma RereadKeeps(s: State, c: nat)
    requires Inv(s) && Caller(s, c) && s.at[c].Refused?
    ensures Inv(RereadStep(s, c))
  {
    hide RowOk, UniqueKeys, LogOk, MemoriesOk;
    assert CallerOk(s, c);
    LoadKeeps(s, c, Find(s.rows, s.requests[c].key).value);
  }

  lemma NewRowKeeps(s: State, c: nat)
    requires Inv(s) && Caller(s, c) && s.at[c].Absent?
    requires !SomePending(s.rows, s.requests[c].key) && Find(s.rows, s.requests[c].key).None?
    ensures Inv(InsertStep(s, c))
  {
    hide LogOk, RowServes;
    var s' := InsertStep(s, c);
    assert MemoryOk(s, c);
    assert RowOk(s', |s.rows|);
    assert UniqueKeys(s'.rows) by { NewKey(s.rows, s'.rows[|s.rows|]); }
    hide RowOk, UniqueKeys, Find;
    assert forall q :: 0 <= q < |s'.rows| ==> RowSettled(s, s', c, q);
    assert OnlyMoved(s, s', c) by { SameRows(s, c); }
    StepKeeps(s, s', c);
  }

  lemma NewKey(rows: seq<Row>, row: Row)
    requires UniqueKeys(rows) && !SomePending(rows, row.key) && Find(rows, row.key).None?
    ensures UniqueKeys(rows + [row])
  {
  }

  lemma InsertKeeps(s: State, c: nat)
    requires Inv(s) && Caller(s, c) && s.at[c].Absent?
    ensures Inv(InsertStep(s, c))
  {
    hide Orderly, MemoriesOk;
    if !SomePending(s.rows, s.requests[c].key) {
      if Find(s.rows, s.requests[c].key).Some? {
        MoveKeeps(s, c, Refused);
      } else {
        NewRowKeeps(s, c);
      }
    }
  }

  /** A caller that found its row waits if and only if it has a column to change and another
      update of the row is not decided. A caller that found an escalation, or that says what
      its session read, goes on without a lock; any other takes the lock. */
  lemma WriteExactly(s: State, c: nat, r: nat)
    requires Caller(s, c) && s.at[c] == Found(r) && r < |s.rows|
    ensures var me, read, s' := s.requests[c], s.memory[c].read, Advance(s, c);
      var changes := me.mode == LastWins && read != Some(me.content);
      (s' == s <==> changes && s.rows[r].locker.Some?)
      && (s' != s ==> s'.at == s.at[c := Ready(r)])
      && s'.requests == s.requests && s'.log == s.log && |s'.rows| == |s.rows|
      && (forall q :: 0 <= q < |s.rows| && q != r ==> s'.rows[q] == s.rows[q])
      && s'.rows[r].(locker := None) == s.rows[r].(locker := None)
      && s'.rows[r].locker == (if changes && s.rows[r].locker.None? then Some(c) else s.rows[r].locker)
  {
    assert s.at[c := Ready(r)][c] != s.at[c];
  }

  lemma WriteKeeps(s: State, c: nat, r: nat)
    requires Inv(s) && Caller(s, c) && s.at[c] == Found(r)
    ensures r < |s.rows| && Inv(WriteStep(s, c, r))
  {
    assert CallerOk(s, c) && RowOk(s, r) && MemoryOk(s, c);
    var s' := WriteStep(s, c, r);
    if s' != s {
      WriteMoves(s, c, r);
      WriteRemembers(s, c, r);
      assert RowOk(s', r) by { WrittenRowOk(s, c, r); }
      hide RowOk, LogOk;
      assert forall q :: 0 <= q < |s'.rows| ==> RowSettled(s, s', c, q);
      StepKeeps(s, s', c);
    }
  }

  lemma WriteMoves(s: State, c: nat, r: nat)
    requires Inv(s) && Caller(s, c) && s.at[c] == Found(r) && r < |s.rows| && WriteStep(s, c, r) != s
    ensures OnlyMoved(s, WriteStep(s, c, r), c)
    ensures UniqueKeys(WriteStep(s, c, r).rows) && CallerOk(WriteStep(s, c, r), c)
  {
    hide RowOk, LogOk, MemoriesOk;
    assert CallerOk(s, c);
  }

  lemma WriteRemembers(s: State, c: nat, r: nat)
    requires Inv(s) && Caller(s, c) && s.at[c] == Found(r) && r < |s.rows| && WriteStep(s, c, r) != s
    ensures MemoryOk(WriteStep(s, c, r), c)
  {
    hide UniqueKeys, LogOk, FirstOf, LastOf;
    assert CallerOk(s, c) && MemoryOk(s, c) && RowOk(s, r);
  }

  lemma WrittenRowOk(s: State, c: nat, r: nat)
    requires Inv(s) && Caller(s, c) && s.at[c] == Found(r) && r < |s.rows| && WriteStep(s, c, r) != s
    ensures RowOk(WriteStep(s, c, r), r)
  {
    hide UniqueKeys, FirstOf, LastOf, MemoriesOk;
    assert CallerOk(s, c) && RowOk(s, r);
  }

  lemma AbortKeeps(s: State, c: nat)
    requires Inv(s) && Caller(s, c)
    ensures Inv(AbortStep(s, c))
  {
    if !Finished(s.at[c]) {
      var s' := AbortStep(s, c);
      AbortMoves(s, c);
      if s.at[c].Ready? {
        AbortedRowOk(s, c);
      }
      hide RowOk, LogOk, MemoriesOk;
      assert forall q :: 0 <= q < |s'.rows| ==> RowSettled(s, s', c, q);
      StepKeeps(s, s', c);
    }
  }

  lemma AbortMoves(s: State, c: nat)
    requires Inv(s) && Caller(s, c) && !Finished(s.at[c])
    ensures OnlyMoved(s, AbortStep(s, c), c)
    ensures UniqueKeys(AbortStep(s, c).rows) && CallerOk(AbortStep(s, c), c) && MemoryOk(AbortStep(s, c), c)
  {
    hide RowOk, LogOk, MemoriesOk;
    assert CallerOk(s, c);
  }

  lemma AbortedRowOk(s: State, c: nat)
    requires Inv(s) && Caller(s, c) && s.at[c].Ready?
    ensures s.at[c].row < |s.rows| && RowOk(AbortStep(s, c), s.at[c].row)
  {
    hide UniqueKeys, FirstOf, LastOf, MemoriesOk;
    assert CallerOk(s, c);
    assert RowOk(s, s.at[c].row);
  }

  lemma LoggedHasRow(s: State, c: nat)
    requires Orderly(s) && c in s.log
    ensures Caller(s, c) && s.at[c].Done? && Holds(s, c, s.at[c].row) && s.rows[s.at[c].row].fate == Committed
  {
    assert CallerOk(s, c);
  }

  lemma PendingUnlogged(s: State, r: nat)
    requires Orderly(s) && r < |s.rows| && s.rows[r].fate.Pending?
    ensures FirstOf(s.log, s.requests, s.rows[r].key).None?
  {
    var first := FirstOf(s.log, s.requests, s.rows[r].key);
    if first.Some? {
      LoggedHasRow(s, first.value);
    }
  }

  lemma CommittedRowOk(s: State, c: nat, r: nat)
    requires Inv(s) && Caller(s, c) && s.at[c] == Ready(r) && r < |s.rows|
    ensures RowOk(CommitStep(s, c, r), r)
  {
    hide UniqueKeys, FirstOf, LastOf, Quiet;
    assert CallerOk(s, c) && RowOk(s, r) && MemoryOk(s, c);
    LogGrows(s, c, s.rows[r].key);
    if s.rows[r].fate.Pending? {
      PendingUnlogged(s, r);
    }
  }

  lemma CommitMoves(s: State, c: nat, r: nat)
    requires Inv(s) && Caller(s, c) && s.at[c] == Ready(r)
    ensures r < |s.rows| && OnlyMoved(s, CommitStep(s, c, r), c)
    ensures UniqueKeys(CommitStep(s, c, r).rows) && CallerOk(CommitStep(s, c, r), c) && s.rows[r].fate != Withdrawn
  {
    hide LogOk, FirstOf, LastOf, MemoriesOk;
    assert CallerOk(s, c) && RowOk(s, r);
  }

  lemma CommitRemembers(s: State, c: nat, r: nat)
    requires Inv(s) && Caller(s, c) && s.at[c] == Ready(r) && r < |s.rows|
    ensures MemoryOk(CommitStep(s, c, r), c)
  {
    hide RowOk, UniqueKeys, LogOk;
    assert CallerOk(s, c) && MemoryOk(s, c);
    var s', key, since := CommitStep(s, c, r), s.requests[c].key, s.memory[c].since;
    var until := s'.memory[c].until;
    if s.memory[c].read.Some? && Quiet(s', key, since, until) {
      QuietStays(s, s', c, key, since, until);
    }
  }

  lemma CommitKeeps(s: State, c: nat, r: nat)
    requires Inv(s) && Caller(s, c) && s.at[c] == Ready(r)
    ensures r < |s.rows| && Inv(CommitStep(s, c, r))
  {
    CommitMoves(s, c, r);
    CommittedRowOk(s, c, r);
    CommitRemembers(s, c, r);
    hide RowOk, UniqueKeys, MemoriesOk, CallerOk, MemoryOk, OnlyMoved, CommitRow;
    var s' := CommitStep(s, c, r);
    forall q | 0 <= q < |s.rows| && q != r ensures RowOk(s', q) {
      SameKeyWithdrawn(s, r, q);
      RowStays(s, s', c, q);
    }
    StepKeeps(s, s', c);
  }

  lemma SameKeyWithdrawn(s: State, r: nat, q: nat)
    requires Orderly(s) && r < |s.rows| && q < |s.rows| && q != r && s.rows[r].fate != Withdrawn
    ensures s.rows[q].key == s.rows[r].key ==> s.rows[q].fate == Withdrawn
  {
  }

  lemma NextKeeps(s: State, e: Event)
    requires Inv(s)
    ensures Inv(Next(s, e)) && Next(s, e).requests == s.requests
  {
    hide Inv;
    if Caller(s, e.c) {
      match e
      case Fails(c) => AbortKeeps(s, c);
      case Steps(c) =>
        match s.at[c]
        case Reading => ReadKeeps(s, c);
        case Absent => InsertKeeps(s, c);
        case Refused => RereadKeeps(s, c);
        case Found(r) => WriteKeeps(s, c, r);
        case Ready(r) => CommitKeeps(s, c, r);
        case _ =>
    }
  }

  lemma {:induction false} RunKeeps(s: State, events: seq<Event>)
    requires Inv(s)
    ensures Inv(Run(s, events)) && Run(s, events).requests == s.requests
  {
    if events != [] {
      RunKeeps(s, events[..|events| - 1]);
      NextKeeps(Run(s, events[..|events| - 1]), events[|events| - 1]);
    }
  }
}
