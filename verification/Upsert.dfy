/** Concurrent callers that read, branch, and insert under a unique key: escalations,
    where the first writer wins, and acknowledgements, where the last one does.

    Each caller is one request in one transaction, under read committed isolation. Any
    number of them run, their steps interleaved in any order. */
module Upsert {
  import opened Options
  import opened Sequences

  type Key = (int, int)

  datatype Mode = FirstWins | LastWins

  datatype Choice = Owner(user: int) | Willing(answer: Option<bool>)

  /** The columns a request assigns: an acknowledgement's author, answer, notes and time; an
      escalation's author, owner and deadline. */
  datatype Content = Content(author: int, choice: Choice, notes: Option<string>, when: int)

  /** Where a request has got to. `Absent`: its read found no row. `Refused`: the unique
      key refused its insert and the savepoint is rolled back. `Found`: it holds the row
      that is there. `Ready`: what is left is to commit. `Failed`: it re-raised. */
  datatype Progress =
    | Reading
    | Absent
    | Refused
    | Found(row: nat)
    | Ready(row: nat)
    | Done(row: nat)
    | Gone
    | Failed

  /** What a caller was asked to do. */
  datatype Request = Request(mode: Mode, key: Key, content: Content)

  datatype Fate = Pending(inserter: nat) | Committed | Withdrawn

  /** A row and the caller, if any, whose update of it is not committed yet. */
  datatype Row = Row(key: Key, content: Content, fate: Fate, locker: Option<nat>)

  /** `read` is the content a request's session loaded, if it found a row. The rest is
      history: how many requests had committed when it read, how many when it wrote (or
      committed, having nothing to write), and the content its commit found. */
  datatype Memory = Memory(read: Option<Content>, since: nat, until: nat, before: Option<Content>)

  const BLANK: Memory := Memory(None, 0, 0, None)

  /** `at` is how far each request has got; `log` the callers in the order they
      committed. */
  datatype State = State(
    requests: seq<Request>, at: seq<Progress>, memory: seq<Memory>, rows: seq<Row>, log: seq<nat>)

  predicate Caller(s: State, c: nat) {
    c < |s.requests| && c < |s.at| && c < |s.memory|
  }

  // ------------------------------------------------------------------- the mapper

  /** The mapper updates a column only where the value assigned differs from the value its
      session loaded; elsewhere what is stored stays. */
  function Kept<T(==)>(read: T, mine: T, stored: T): T {
    if mine != read then mine else stored
  }

  function Overlay(read: Content, mine: Content, stored: Content): Content {
    Content(
      Kept(read.author, mine.author, stored.author), Kept(read.choice, mine.choice, stored.choice),
      Kept(read.notes, mine.notes, stored.notes), Kept(read.when, mine.when, stored.when))
  }

  /** What a request leaves in a row that holds `stored`. */
  function Written(read: Option<Content>, mine: Content, stored: Content): Content {
    if read.None? then mine else Overlay(read.value, mine, stored)
  }

  // --------------------------------------------------------------------- the steps

  /** The committed row with a key, as any transaction may read it. */
  function Find(rows: seq<Row>, key: Key): (r: Option<nat>)
    ensures r.Some? ==> r.value < |rows| && rows[r.value].key == key && rows[r.value].fate == Committed
    ensures r.None? ==> forall i :: 0 <= i < |rows| ==> !(rows[i].key == key && rows[i].fate == Committed)
  {
    if rows == [] then None
    else
      var n := |rows| - 1;
      if rows[n].key == key && rows[n].fate == Committed then Some(n) else Find(rows[..n], key)
  }

  predicate SomeCommitted(rows: seq<Row>, key: Key) {
    exists i :: 0 <= i < |rows| && rows[i].key == key && rows[i].fate == Committed
  }

  predicate SomePending(rows: seq<Row>, key: Key) {
    exists i :: 0 <= i < |rows| && rows[i].key == key && rows[i].fate.Pending?
  }

  function Move(s: State, c: nat, to: Progress): State
    requires Caller(s, c)
  {
    s.(at := s.at[c := to])
  }

  /** The session loads row `r`. */
  function Load(s: State, c: nat, r: nat): State
    requires Caller(s, c) && r < |s.rows|
  {
    Move(s.(memory := s.memory[c := Memory(Some(s.rows[r].content), |s.log|, |s.log|, None)]), c, Found(r))
  }

  function ReadStep(s: State, c: nat): State
    requires Caller(s, c)
  {
    var r := Find(s.rows, s.requests[c].key);
    if r.Some? then Load(s, c, r.value) else Move(s, c, Absent)
  }

  /** An insert waits while another transaction's row with the key is not decided. */
  function InsertStep(s: State, c: nat): State
    requires Caller(s, c)
  {
    var me := s.requests[c];
    if SomePending(s.rows, me.key) then s
    else if Find(s.rows, me.key).Some? then Move(s, c, Refused)
    else Move(s.(rows := s.rows + [Row(me.key, me.content, Pending(c), None)]), c, Ready(|s.rows|))
  }

  function RereadStep(s: State, c: nat): State
    requires Caller(s, c)
  {
    var r := Find(s.rows, s.requests[c].key);
    if r.Some? then Load(s, c, r.value) else Move(s, c, Failed)
  }

  /** The caller has no update to make: an escalation is handed back as it is, and an
      acknowledgement that repeats what was read changes no column. */
  predicate Idle(request: Request, read: Option<Content>) {
    request.mode == FirstWins || read == Some(request.content)
  }

  /** An update waits while another transaction's update of the row is not decided. */
  function WriteStep(s: State, c: nat, r: nat): State
    requires Caller(s, c) && r < |s.rows|
  {
    if Idle(s.requests[c], s.memory[c].read) then Move(s, c, Ready(r))
    else if s.rows[r].locker.Some? then s
    else
      Move(s.(rows := s.rows[r := s.rows[r].(locker := Some(c))],
              memory := s.memory[c := s.memory[c].(until := |s.log|)]), c, Ready(r))
  }

  function CommitRow(row: Row, c: nat, content: Content): Row {
    if row.locker == Some(c) then row.(content := content, locker := None)
    else if row.fate == Pending(c) then row.(fate := Committed)
    else row
  }

  function Remember(m: Memory, row: Row, c: nat, now: nat): Memory {
    m.(until := if row.locker == Some(c) then m.until else now, before := Some(row.content))
  }

  function CommitStep(s: State, c: nat, r: nat): State
    requires Caller(s, c) && r < |s.rows|
  {
    var row, m := s.rows[r], s.memory[c];
    Move(s.(rows := s.rows[r := CommitRow(row, c, Written(m.read, s.requests[c].content, row.content))],
            memory := s.memory[c := Remember(m, row, c, |s.log|)],
            log := s.log + [c]), c, Done(r))
  }

  function AbortRow(row: Row, c: nat): Row {
    if row.locker == Some(c) then row.(locker := None)
    else if row.fate == Pending(c) then row.(fate := Withdrawn)
    else row
  }

  function Finished(p: Progress): bool {
    p.Done? || p.Gone? || p.Failed?
  }

  function AbortStep(s: State, c: nat): State
    requires Caller(s, c)
  {
    var at := s.at[c];
    if Finished(at) then s
    else if at.Ready? && at.row < |s.rows| then
      Move(s.(rows := s.rows[at.row := AbortRow(s.rows[at.row], c)]), c, Gone)
    else Move(s, c, Gone)
  }

  /** The next step of a caller's own request. */
  function Advance(s: State, c: nat): State
    requires Caller(s, c)
  {
    match s.at[c]
    case Reading => ReadStep(s, c)
    case Absent => InsertStep(s, c)
    case Refused => RereadStep(s, c)
    case Found(r) => if r < |s.rows| then WriteStep(s, c, r) else s
    case Ready(r) => if r < |s.rows| then CommitStep(s, c, r) else s
    case Done(_) => s
    case Gone => s
    case Failed => s
  }

  /** A caller takes its next step, or its request fails for a reason of its own and its
      transaction is rolled back. */
  datatype Event = Steps(c: nat) | Fails(c: nat)

  function Next(s: State, e: Event): State {
    if !Caller(s, e.c) then s
    else match e
      case Steps(c) => Advance(s, c)
      case Fails(c) => AbortStep(s, c)
  }

  function Run(s: State, events: seq<Event>): State {
    if events == [] then s else Next(Run(s, events[..|events| - 1]), events[|events| - 1])
  }

  lemma {:induction false} RunFrom(s: State, e: Event, events: seq<Event>)
    ensures Run(s, [e] + events) == Run(Next(s, e), events)
  {
    hide Next;
    if events == [] {
      assert [e] + events == [e];
    } else {
      RunFrom(s, e, events[..|events| - 1]);
      FrontOfJoin([e], events);
    }
  }

  lemma {:induction false} RunOn(s: State, before: seq<Event>, after: seq<Event>)
    ensures Run(s, before + after) == Run(Run(s, before), after)
  {
    hide Next;
    if after == [] {
      assert before + after == before;
    } else {
      RunOn(s, before, after[..|after| - 1]);
      FrontOfJoin(before, after);
    }
  }
}
