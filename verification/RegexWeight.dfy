/** The expansion-weight scanner that runs before a naming pattern is compiled.

    `Scan` is the scanner as a function of the text still to be read;
    `RepeatWeight` is the one-pass loop of the service, proved equal to it. */
module RegexWeight {
  import opened Numbers
  import opened Options
  import opened Text

  // ---------------------------------------------------------------- characters

  predicate AllDecimal(s: string) {
    s != [] && forall i :: 0 <= i < |s| ==> IsDecimal(s[i])
  }

  /** `str.isdigit`. */
  predicate IsDigitString(s: string) {
    s != [] && forall i :: 0 <= i < |s| ==> IsDigit(s[i])
  }

  function DecimalValue(s: string): nat
    requires forall i :: 0 <= i < |s| ==> IsDecimal(s[i])
  {
    if s == [] then 0
    else
      assert IsDecimal(s[|s| - 1]);
      DecimalValue(s[..|s| - 1]) * 10 + UNICODE.values[s[|s| - 1]]
  }

  function Drop(s: string, k: nat): string {
    if k <= |s| then s[k..] else []
  }

  function SplitOnComma(s: string): (parts: seq<string>)
    ensures parts != []
  {
    if s == [] then [[]]
    else
      var rest := SplitOnComma(s[1..]);
      if s[0] == ',' then [[]] + rest
      else [[s[0]] + rest[0]] + rest[1..]
  }

  /** Position of the first closing brace, or the length when there is none. */
  function FindClose(s: string): (k: nat)
    ensures k <= |s|
    ensures k < |s| ==> s[k] == '}'
    ensures forall j :: 0 <= j < k ==> s[j] != '}'
  {
    if s == [] || s[0] == '}' then 0 else 1 + FindClose(s[1..])
  }

  // ---------------------------------------------------------------- the scanner

  /** The numbers among the comma-separated parts of a brace body; `None` when
      converting one of them to an integer raises. */
  function Counts(parts: seq<string>): Option<seq<nat>> {
    if parts == [] then Some([])
    else
      var p := Strip(parts[0]);
      var rest := Counts(parts[1..]);
      if rest.None? then None
      else if !IsDigitString(p) then rest
      else if AllDecimal(p) then Some([DecimalValue(p)] + rest.value)
      else None
  }

  function Largest(ns: seq<nat>): nat
    requires ns != []
  {
    if |ns| == 1 then ns[0] else Max(ns[0], Largest(ns[1..]))
  }

  /** What the scanner makes of an opening brace. */
  datatype Brace = Raises | Literal | Quantifier(factor: nat, next: nat)

  /** `s` is the text from the opening brace on; `next` is relative to it. */
  function ReadBrace(s: string): (b: Brace)
    requires s != []
    ensures b.Quantifier? ==> 0 < b.next <= |s|
  {
    var k := FindClose(s[1..]);
    if k == |s| - 1 then Literal
    else
      var body := s[1..][..k];
      var parts := SplitOnComma(body);
      var counts := Counts(parts);
      if counts.None? then Raises
      else if |parts| <= 2 && (counts.value != [] || Strip(body) == []) then
        Quantifier(if counts.value != [] then Largest(counts.value) else 1, k + 2)
      else Literal
  }

  /** The text after a character class whose members start at `s`. */
  function AfterMembers(s: string): (t: string)
    ensures |t| <= |s|
    decreases |s|
  {
    if s == [] then []
    else if s[0] == ']' then s[1..]
    else if s[0] == '\\' then AfterMembers(Drop(s, 2))
    else AfterMembers(s[1..])
  }

  /** The text after the `^` and the literal `]` that may open a class. */
  function ClassMembers(s: string): (t: string)
    ensures |t| <= |s|
  {
    var u := if s != [] && s[0] == '^' then s[1..] else s;
    if u != [] && u[0] == ']' then u[1..] else u
  }

  function Sum(ns: seq<nat>): nat {
    if ns == [] then 0 else ns[0] + Sum(ns[1..])
  }

  /** The scan between two items: the weight of each open group, of the current
      level, and of the latest item, which a quantifier may still multiply. */
  datatype State = State(stack: seq<nat>, total: nat, last: nat)

  const START := State([], 0, 0)

  datatype Move = Stuck | Move(rest: string, state: State)

  function Flushed(st: State): State {
    State(st.stack, st.total + st.last, 1)
  }

  function Opened(st: State): State {
    State(st.stack + [st.total + st.last], 0, 0)
  }

  function Closed(st: State): State {
    var last := Max(st.total + st.last, 1);
    if st.stack == [] then State([], 0, last)
    else State(st.stack[..|st.stack| - 1], st.stack[|st.stack| - 1], last)
  }

  function ReadCount(s: string, st: State): (m: Move)
    requires s != []
    ensures m.Move? ==> |m.rest| < |s|
  {
    match ReadBrace(s)
    case Raises => Stuck
    case Quantifier(factor, next) => Move(s[next..], State(st.stack, st.total, st.last * factor))
    case Literal => Move(s[1..], Flushed(st))
  }

  /** One turn of the loop: the text consumed and the state it leaves. */
  function ReadOne(s: string, st: State): (m: Move)
    requires s != []
    ensures m.Move? ==> |m.rest| < |s|
  {
    var c := s[0];
    if c == '\\' then Move(Drop(s, 2), Flushed(st))
    else if c == '[' then Move(AfterMembers(ClassMembers(s[1..])), Flushed(st))
    else if c == '(' then Move(s[1..], Opened(st))
    else if c == ')' then Move(s[1..], Closed(st))
    else if c == '{' then ReadCount(s, st)
    else Move(s[1..], Flushed(st))
  }

  /** The weight reported for `s` from the given state; `None` when the scan raises. */
  function Scan(s: string, st: State): Option<nat>
    decreases |s|
  {
    if s == [] then Some(st.total + st.last + Sum(st.stack))
    else
      var m := ReadOne(s, st);
      if m.Stuck? then None else Scan(m.rest, m.state)
  }

  lemma ScanTurn(s: string, st: State)
    requires s != []
    ensures var m := ReadOne(s, st);
      Scan(s, st) == if m.Stuck? then None else Scan(m.rest, m.state)
  {
  }

  /** The scan, unfolded once. */
  lemma ScanStep(s: string, st: State, rest: string, st': State)
    requires s != [] && ReadOne(s, st) == Move(rest, st')
    ensures Scan(s, st) == Scan(rest, st')
  {
  }

  method SumOf(stack: seq<nat>) returns (sum: nat)
    ensures sum == Sum(stack)
  {
    sum := 0;
    for i := 0 to |stack|
      invariant sum + Sum(stack[i..]) == Sum(stack)
    {
      sum := sum + stack[i];
    }
  }

  /** One turn of the scanning loop at position `i`. */
  method Turn(pattern: string, i: nat, st: State) returns (raised: bool, next: nat, st': State)
    requires i < |pattern|
    ensures raised == ReadOne(pattern[i..], st).Stuck?
    ensures !raised ==> i < next && ReadOne(pattern[i..], st) == Move(Drop(pattern, next), st')
  {
    var c := pattern[i];
    raised, next, st' := false, i + 1, st;
    assert Drop(pattern, next) == pattern[i..][1..];
    if c == '\\' {
      st' := Flushed(st);
      next := i + 2;
      assert Drop(pattern, next) == Drop(pattern[i..], 2);
    } else if c == '[' {
      st' := Flushed(st);
      next := SkipClass(pattern, i);
    } else if c == '(' {
      st' := Opened(st);
    } else if c == ')' {
      st' := Closed(st);
    } else if c == '{' {
      match ReadBrace(pattern[i..]) {
        case Raises =>
          raised := true;
        case Quantifier(factor, length) =>
          st' := State(st.stack, st.total, st.last * factor);
          next := i + length;
          assert Drop(pattern, next) == pattern[i..][length..];
        case Literal =>
          st' := Flushed(st);
      }
    } else {
      st' := Flushed(st);
    }
  }

  /** The scanning loop. Every read is in bounds and it ends on every text. */
  method RepeatWeight(pattern: string) returns (weight: Option<nat>)
    ensures weight == Scan(pattern, START)
  {
    hide Scan, ReadOne;
    var st := START;
    var i: nat := 0;
    ghost var want := Scan(pattern, START);
    while i < |pattern|
      invariant Scan(Drop(pattern, i), st) == want
      decreases |pattern| - i
    {
      assert Drop(pattern, i) == pattern[i..];
      var raised, next, st' := Turn(pattern, i, st);
      ScanTurn(Drop(pattern, i), st);
      if raised {
        return None;
      }
      i, st := next, st';
    }
    var open := SumOf(st.stack);
    var w := st.total + st.last + open;
    ScanEnd(Drop(pattern, i), st, w);
    return Some(w);
  }

  lemma ScanEnd(s: string, st: State, w: nat)
    requires s == [] && w == st.total + st.last + Sum(st.stack)
    ensures Scan(s, st) == Some(w)
  {
  }

  /** The position after the character class that opens at `start`. */
  method SkipClass(pattern: string, start: nat) returns (i: nat)
    requires start < |pattern|
    ensures start < i
    ensures Drop(pattern, i) == AfterMembers(ClassMembers(pattern[start..][1..]))
  {
    i := start + 1;
    assert Drop(pattern, i) == pattern[start..][1..];
    if i < |pattern| && pattern[i] == '^' {
      i := i + 1;
    }
    if i < |pattern| && pattern[i] == ']' {
      i := i + 1;
    }
    assert Drop(pattern, i) == ClassMembers(pattern[start..][1..]);
    i := SkipMembers(pattern, i);
  }

  /** The inner loop over the members of a character class. */
  method SkipMembers(pattern: string, start: nat) returns (i: nat)
    ensures start <= i
    ensures Drop(pattern, i) == AfterMembers(Drop(pattern, start))
  {
    i := start;
    while i < |pattern| && pattern[i] != ']'
      invariant start <= i
      invariant AfterMembers(Drop(pattern, i)) == AfterMembers(Drop(pattern, start))
      decreases |pattern| - i
    {
      ghost var s := Drop(pattern, i);
      if pattern[i] == '\\' {
        i := i + 2;
        assert Drop(pattern, i) == Drop(s, 2);
      } else {
        i := i + 1;
        assert Drop(pattern, i) == s[1..];
      }
    }
    ghost var s := Drop(pattern, i);
    i := i + 1;
    assert Drop(pattern, i) == if s == [] then [] else s[1..];
  }
}
