/** The callers' operations as they change the tables, each proved to be one step. */
module UpsertService {
  import opened Options
  import opened Upsert
  import opened UpsertSafety

  // ---------------------------------------------------------------- the operations

  /** The database and the requests under way. */
  class Database {
    var requests: seq<Request>
    var at: seq<Progress>
    var memory: seq<Memory>
    var rows: seq<Row>
    var log: seq<nat>

    ghost function View(): State
      reads this
    {
      State(requests, at, memory, rows, log)
    }

    constructor (todo: seq<Request>)
      requires OneMode(todo)
      ensures View().requests == todo && Start(View())
    {
      requests, rows, log := todo, [], [];
      at := seq(|todo|, i => Reading);
      memory := seq(|todo|, i => BLANK);
    }

    /** The committed row with a key, by a scan of the table. */
    method Lookup(key: Key) returns (found: Option<nat>)
      ensures found == Find(rows, key)
    {
      found := None;
      for i := 0 to |rows|
        invariant found == Find(rows[..i], key)
      {
        assert rows[..i + 1][..i] == rows[..i];
        if rows[i].key == key && rows[i].fate == Committed {
          found := Some(i);
        }
      }
      assert rows[..|rows|] == rows;
    }

    /** The read in front: the row that is there, or the branch to insert. */
    method Read(c: nat)
      requires Inv(View()) && Caller(View(), c) && at[c] == Reading
      modifies this
      ensures View() == Next(old(View()), Steps(c)) && Inv(View())
    {
      NextKeeps(View(), Steps(c));
      var found := Lookup(requests[c].key);
      if found.None? {
        at := at[c := Absent];
      } else {
        LoadRow(c, found.value);
      }
    }

    /** The session loads a row and remembers its columns. */
    method LoadRow(c: nat, r: nat)
      requires Caller(View(), c) && r < |rows|
      modifies this`memory, this`at
      ensures View() == Load(old(View()), c, r)
    {
      memory := memory[c := Memory(Some(rows[r].content), |log|, |log|, None)];
      at := at[c := Found(r)];
    }

    /** Insert, or roll the savepoint back and reread. Answers at once: `waiting` when an
        undecided insert of the same key makes it wait, and otherwise whether the row
        landed. */
    method InsertOrReread(c: nat) returns (waiting: bool, inserted: bool)
      requires Inv(View()) && Caller(View(), c) && at[c] == Absent
      modifies this
      ensures Inv(View()) && Caller(View(), c)
      ensures waiting ==> View() == old(View()) && SomePending(rows, requests[c].key)
      ensures !waiting && inserted ==> View() == Next(old(View()), Steps(c))
      ensures !waiting && !inserted ==> View() == Next(Next(old(View()), Steps(c)), Steps(c))
      ensures !waiting ==> (inserted <==> old(Find(rows, requests[c].key)).None?)
      ensures !waiting ==> rows == if inserted
        then old(rows) + [Row(requests[c].key, requests[c].content, Pending(c), None)] else old(rows)
      ensures !waiting ==> at[c] == if inserted then Ready(|old(rows)|) else Found(Find(rows, requests[c].key).value)
    {
      hide Inv, Find;
      NextKeeps(View(), Steps(c));
      NextKeeps(Next(View(), Steps(c)), Steps(c));
      if SomePending(rows, requests[c].key) {
        return true, false;
      }
      var existing := Lookup(requests[c].key);
      if existing.None? {
        at := at[c := Ready(|rows|)];
        rows := rows + [Row(requests[c].key, requests[c].content, Pending(c), None)];
        return false, true;
      }
      at := at[c := Refused];
      existing := Lookup(requests[c].key);
      LoadRow(c, existing.value);
      return false, false;
    }

    /** What the caller does with the row that was there. */
    method Write(c: nat) returns (waiting: bool)
      requires Inv(View()) && Caller(View(), c) && at[c].Found?
      modifies this
      ensures View() == Next(old(View()), Steps(c)) && Inv(View())
      ensures waiting <==> at[c].Found?
    {
      NextKeeps(View(), Steps(c));
      assert CallerOk(View(), c);
      var r := at[c].row;
      if !Idle(requests[c], memory[c].read) {
        if rows[r].locker.Some? {
          return true;
        }
        rows := rows[r := rows[r].(locker := Some(c))];
        memory := memory[c := memory[c].(until := |log|)];
      }
      at := at[c := Ready(r)];
      return false;
    }

    method Commit(c: nat)
      requires Inv(View()) && Caller(View(), c) && at[c].Ready?
      modifies this
      ensures View() == Next(old(View()), Steps(c)) && Inv(View()) && at[c].Done?
    {
      NextKeeps(View(), Steps(c));
      assert CallerOk(View(), c);
      var r := at[c].row;
      var row := rows[r];
      rows := rows[r := CommitRow(row, c, Written(memory[c].read, requests[c].content, row.content))];
      memory := memory[c := Remember(memory[c], row, c, |log|)];
      log := log + [c];
      at := at[c := Done(r)];
    }

    /** The request fails; its transaction leaves nothing behind. */
    method Rollback(c: nat)
      requires Inv(View()) && Caller(View(), c) && !Finished(at[c])
      modifies this
      ensures View() == Next(old(View()), Fails(c)) && Inv(View()) && at[c] == Gone
    {
      NextKeeps(View(), Fails(c));
      assert CallerOk(View(), c);
      if at[c].Ready? {
        var r := at[c].row;
        rows := rows[r := AbortRow(rows[r], c)];
      }
      at := at[c := Gone];
    }
  }
}
