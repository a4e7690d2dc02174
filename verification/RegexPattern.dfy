/** Naming patterns as syntax trees, what they print as, how far their counted
    repeats unroll, and the bound the scanner's weight gives on that. */
module RegexPattern {
  import opened Numbers
  import opened Options
  import opened Text
  import opened RegexWeight
  import opened RegexBrace

  // -------------------------------------------------------------------- syntax

  /** A number as a pattern spells it, in ASCII digits. */
  type Digits = s: string | AllAscii(s) witness "0"

  predicate AllAscii(s: string) {
    s != [] && forall i :: 0 <= i < |s| ==> AsciiDigit(s[i])
  }

  datatype Mode = Greedy | Lazy | Possessive

  datatype Quant =
    | Once
    | Star(mode: Mode)
    | Plus(mode: Mode)
    | Opt(mode: Mode)
    | Exactly(m: Digits, mode: Mode)
    | AtLeast(m: Digits, mode: Mode)
    | AtMost(n: Digits, mode: Mode)
    | Between(m: Digits, n: Digits, mode: Mode)

  datatype Member = Plain(c: char) | Escaped(c: char)

  /** `Char` covers literals, the dot, the anchors and the alternation bar: all
      of them are single elements. `prefix` is what may follow a group's opening
      parenthesis, such as `?:` or `?P<name>`. */
  datatype Atom =
    | Char(c: char)
    | Esc(c: char)
    | Class(negated: bool, closeFirst: bool, members: seq<Member>)
    | Group(prefix: string, body: Items)

  datatype Item = Item(atom: Atom, quant: Quant)

  datatype Items = Nil | Cons(head: Item, tail: Items)

  // ------------------------------------------------------------------ printing

  function PrintMode(mode: Mode): string {
    match mode
    case Greedy => ""
    case Lazy => "?"
    case Possessive => "+"
  }

  function PrintQuant(q: Quant): string {
    match q
    case Once => ""
    case Star(mode) => "*" + PrintMode(mode)
    case Plus(mode) => "+" + PrintMode(mode)
    case Opt(mode) => "?" + PrintMode(mode)
    case Exactly(m, mode) => "{" + m + "}" + PrintMode(mode)
    case AtLeast(m, mode) => "{" + m + "," + "}" + PrintMode(mode)
    case AtMost(n, mode) => "{" + "," + n + "}" + PrintMode(mode)
    case Between(m, n, mode) => "{" + m + "," + n + "}" + PrintMode(mode)
  }

  function PrintMembers(ms: seq<Member>): string {
    if ms == [] then ""
    else (match ms[0] case Plain(c) => [c] case Escaped(c) => ['\\', c]) + PrintMembers(ms[1..])
  }

  function PrintAtom(a: Atom): string {
    match a
    case Char(c) => [c]
    case Esc(c) => ['\\', c]
    case Class(negated, closeFirst, members) =>
      "[" + (if negated then "^" else "") + (if closeFirst then "]" else "") + PrintMembers(members) + "]"
    case Group(prefix, body) => "(" + prefix + Print(body) + ")"
  }

  function Print(items: Items): string {
    match items
    case Nil => ""
    case Cons(h, t) => PrintAtom(h.atom) + PrintQuant(h.quant) + Print(t)
  }

  // ------------------------------------------------------------- well-formedness

  /** Characters the scanner reads as single elements wherever they stand. */
  predicate IsPlain(c: char) {
    c != '\\' && c != '[' && c != '(' && c != ')' && c != '{'
  }

  predicate IsRepeater(c: char) {
    c == '*' || c == '+' || c == '?'
  }

  /** `rest` is the text that follows in the pattern. An opening brace may stand
      for itself wherever the text up to the next closing brace is not a count. */
  ghost predicate WellFormedAtom(a: Atom, rest: string) {
    match a
    case Char(c) =>
      && (IsPlain(c) || c == '{') && !IsRepeater(c)
      && (c == '{' ==> StandsForItself(rest))
    case Esc(_) => true
    case Class(negated, closeFirst, members) =>
      && (closeFirst || members != [])
      && (forall i :: 0 <= i < |members| && members[i].Plain? ==> members[i].c != ']' && members[i].c != '\\')
      && (members != [] && !negated && !closeFirst ==> members[0] != Plain('^'))
    case Group(prefix, body) =>
      && (forall i :: 0 <= i < |prefix| ==> IsPlain(prefix[i]))
      && WellFormed(body, ")" + rest)
  }

  ghost predicate WellFormed(items: Items, rest: string) {
    match items
    case Nil => true
    case Cons(h, t) =>
      && WellFormedAtom(h.atom, PrintQuant(h.quant) + Print(t) + rest)
      && WellFormed(t, rest)
  }

  // ------------------------------------------------------- the expanded pattern

  /** The larger bound of a counted repeat; `{m,}` keeps one copy of its item for
      the loop even when `m` is zero, exactly as `*` does. */
  function Copies(q: Quant): nat {
    match q
    case Once | Star(_) | Plus(_) | Opt(_) => 1
    case Exactly(m, _) => DecimalValue(m)
    case AtLeast(m, _) => Max(DecimalValue(m), 1)
    case AtMost(n, _) => DecimalValue(n)
    case Between(m, n, _) => Max(DecimalValue(m), DecimalValue(n))
  }

  function Repeat<T>(s: seq<T>, k: nat): (r: seq<T>)
    ensures |r| == |s| * k
  {
    if k == 0 then [] else s + Repeat(s, k - 1)
  }

  /** The elements of the pattern once every counted repeat has been written out. */
  function Unroll(items: Items): seq<Atom> {
    match items
    case Nil => []
    case Cons(h, t) => UnrollItem(h) + Unroll(t)
  }

  function UnrollItem(item: Item): seq<Atom> {
    Repeat(UnrollAtom(item.atom), Copies(item.quant))
  }

  function UnrollAtom(a: Atom): seq<Atom> {
    match a
    case Group(_, body) => Unroll(body)
    case _ => [a]
  }

  // --------------------------------------------- the weight, read off the tree

  function ModeWeight(mode: Mode): nat {
    if mode.Greedy? then 0 else 1
  }

  function AtomWeight(a: Atom): nat {
    match a
    case Group(prefix, body) => Max(|prefix| + Weight(body), 1)
    case _ => 1
  }

  function Factor(q: Quant): nat {
    match q
    case Once | Star(_) | Plus(_) | Opt(_) => 1
    case Exactly(m, _) => DecimalValue(m)
    case AtLeast(m, _) => DecimalValue(m)
    case AtMost(n, _) => DecimalValue(n)
    case Between(m, n, _) => Max(DecimalValue(m), DecimalValue(n))
  }

  /** Characters of a quantifier that the scanner counts as elements of their own. */
  function Extra(q: Quant): nat {
    match q
    case Once => 0
    case Star(mode) => 1 + ModeWeight(mode)
    case Plus(mode) => 1 + ModeWeight(mode)
    case Opt(mode) => 1 + ModeWeight(mode)
    case Exactly(_, mode) => ModeWeight(mode)
    case AtLeast(_, mode) => ModeWeight(mode)
    case AtMost(_, mode) => ModeWeight(mode)
    case Between(_, _, mode) => ModeWeight(mode)
  }

  function ItemWeight(item: Item): nat {
    AtomWeight(item.atom) * Factor(item.quant) + Extra(item.quant)
  }

  function Weight(items: Items): nat {
    match items
    case Nil => 0
    case Cons(h, t) => ItemWeight(h) + Weight(t)
  }

  /** The state after an item of weight `w`, after a factor has multiplied the
      latest item, and after `n` more elements that carry no quantifier. */
  function Held(st: State, w: nat): State {
    State(st.stack, st.total + st.last, w)
  }

  function Scaled(st: State, k: nat): State {
    State(st.stack, st.total, st.last * k)
  }

  function Passed(st: State, n: nat): State {
    if n == 0 then st else State(st.stack, st.total + st.last + n - 1, 1)
  }

  function AfterItem(item: Item, st: State): State {
    Passed(Scaled(Held(st, AtomWeight(item.atom)), Factor(item.quant)), Extra(item.quant))
  }

  function After(items: Items, st: State): (r: State)
    ensures r.stack == st.stack && r.total + r.last == st.total + st.last + Weight(items)
  {
    match items
    case Nil => st
    case Cons(h, t) => After(t, AfterItem(h, st))
  }

  // ------------------------------------------------------ reading counts back

  lemma FindCloseIs(s: string, k: nat)
    requires k < |s| && s[k] == '}' && forall j :: 0 <= j < k ==> s[j] != '}'
    ensures FindClose(s) == k
  {
  }

  lemma StripDigits(s: string)
    requires s == [] || AllAscii(s)
    ensures Strip(s) == s
  {
    if s != [] {
      assert IsDecimal(s[0]) && IsDecimal(s[|s| - 1]);
    }
  }

  lemma {:induction false} SplitDigits(s: string)
    requires s == [] || AllAscii(s)
    ensures SplitOnComma(s) == [s]
  {
    if s != [] {
      assert AsciiDigit(s[0]);
      assert s[1..] == [] || AllAscii(s[1..]);
      SplitDigits(s[1..]);
      assert [s[0]] + s[1..] == s;
    }
  }

  lemma {:induction false} SplitDigitsComma(s: string, t: string)
    requires s == [] || AllAscii(s)
    requires t == [] || AllAscii(t)
    ensures SplitOnComma(s + "," + t) == [s, t]
  {
    var all := s + "," + t;
    if s == [] {
      assert all[1..] == t;
      SplitDigits(t);
    } else {
      assert AsciiDigit(s[0]);
      assert s[1..] == [] || AllAscii(s[1..]);
      assert all[1..] == s[1..] + "," + t;
      SplitDigitsComma(s[1..], t);
      assert [s[0]] + s[1..] == s;
    }
  }

  /** The scanner's reading of a brace depends on the text up to the next closing
      brace only. */
  lemma ReadBraceBody(body: string, after: string)
    requires '}' !in body
    ensures |SplitOnComma(body)| <= 2 && Counts(SplitOnComma(body)).Some? && Counts(SplitOnComma(body)).value != []
      ==> ReadBrace("{" + body + "}" + after)
          == Quantifier(Largest(Counts(SplitOnComma(body)).value), |body| + 2)
  {
    var s := "{" + body + "}" + after;
    assert s[1..] == body + "}" + after;
    FindCloseIs(s[1..], |body|);
    assert s[1..][..|body|] == body;
  }

  lemma CountsOfPart(p: string)
    requires p == [] || AllAscii(p)
    ensures Counts([p]) == Some(if p == [] then [] else [DecimalValue(p)])
  {
    StripDigits(p);
    assert [p][1..] == [];
    var none: seq<nat> := [];
    assert Counts([]) == Some(none);
    assert p != [] ==> [DecimalValue(p)] + none == [DecimalValue(p)];
  }

  lemma CountsOfParts(m: string, n: string)
    requires m == [] || AllAscii(m)
    requires n == [] || AllAscii(n)
    ensures Counts([m, n])
      == Some((if m == [] then [] else [DecimalValue(m)]) + (if n == [] then [] else [DecimalValue(n)]))
  {
    StripDigits(m);
    var parts := [m, n];
    assert parts[1..] == [n];
    CountsOfPart(n);
    assert m != [] ==> IsDigitString(m);
    assert m == [] ==> !IsDigitString(m);
    assert Counts(parts) == if m == [] then Counts([n]) else Some([DecimalValue(m)] + Counts([n]).value);
    var none: seq<nat> := [];
    assert forall x: seq<nat> :: none + x == x;
  }

  /** The number a brace of two optional numbers multiplies by. */
  function Bound(m: string, n: string): nat
    requires m == [] || AllAscii(m)
    requires n == [] || AllAscii(n)
  {
    if m == [] then DecimalValue(n)
    else if n == [] then DecimalValue(m)
    else Max(DecimalValue(m), DecimalValue(n))
  }

  lemma LargestOfTwo(m: string, n: string)
    requires m == [] || AllAscii(m)
    requires n == [] || AllAscii(n)
    requires m != [] || n != []
    ensures var cs := (if m == [] then [] else [DecimalValue(m)]) + (if n == [] then [] else [DecimalValue(n)]);
      cs != [] && |cs| <= 2 && Largest(cs) == Bound(m, n)
  {
  }

  lemma NoClose(m: string, n: string)
    requires m == [] || AllAscii(m)
    requires n == [] || AllAscii(n)
    ensures '}' !in m + "," + n
  {
    var body := m + "," + n;
    forall i | 0 <= i < |body| ensures body[i] != '}' {
      if i < |m| { assert IsDecimal(m[i]); }
      if i > |m| { assert body[i] == n[i - |m| - 1]; assert IsDecimal(n[i - |m| - 1]); }
    }
  }

  lemma BraceReadsOne(m: Digits, after: string)
    ensures ReadBrace("{" + m + "}" + after) == Quantifier(DecimalValue(m), |m| + 2)
  {
    SplitDigits(m);
    CountsOfPart(m);
    ReadBraceBody(m, after);
  }

  /** Either number may be missing, not both. */
  lemma BraceReadsTwo(m: string, n: string, after: string)
    requires m == [] || AllAscii(m)
    requires n == [] || AllAscii(n)
    requires m != [] || n != []
    ensures ReadBrace("{" + (m + "," + n) + "}" + after)
      == Quantifier(Bound(m, n), |m| + |n| + 3)
  {
    var body := m + "," + n;
    NoClose(m, n);
    SplitDigitsComma(m, n);
    CountsOfParts(m, n);
    LargestOfTwo(m, n);
    ReadBraceBody(body, after);
  }

  /** Every number has a numeral, so every count has a printed form. */
  function Numeral(k: nat): (d: Digits)
    ensures DecimalValue(d) == k
  {
    var c := (k % 10 + '0' as int) as char;
    if k < 10 then
      assert [c][..0] == [];
      [c]
    else
      var hi := Numeral(k / 10);
      assert (hi + [c])[..|hi|] == hi;
      hi + [c]
  }

  // ----------------------------------------- the scan, one piece at a time

  lemma {:induction false} ScanPlain(p: string, rest: string, st: State)
    requires forall i :: 0 <= i < |p| ==> IsPlain(p[i])
    ensures Scan(p + rest, st) == Scan(rest, Passed(st, |p|))
  {
    hide Scan;
    if p == [] {
      assert p + rest == rest;
    } else {
      var s := p + rest;
      assert s[1..] == p[1..] + rest;
      ScanStep(s, st, p[1..] + rest, Flushed(st));
      ScanPlain(p[1..], rest, Flushed(st));
    }
  }

  lemma ScanMode(mode: Mode, rest: string, st: State)
    ensures Scan(PrintMode(mode) + rest, st) == Scan(rest, Passed(st, ModeWeight(mode)))
  {
    hide Scan;
    ScanPlain(PrintMode(mode), rest, st);
  }

  lemma ScanSymbol(c: char, mode: Mode, rest: string, st: State)
    requires IsRepeater(c)
    ensures Scan([c] + PrintMode(mode) + rest, st) == Scan(rest, Passed(st, 1 + ModeWeight(mode)))
  {
    hide Scan;
    ScanPlain([c] + PrintMode(mode), rest, st);
  }

  lemma AfterBrace(body: string, tail: string)
    ensures ("{" + body + "}" + tail)[|body| + 2..] == tail
  {
  }

  lemma ScanBrace(s: string, factor: nat, next: nat, st: State)
    requires s != [] && s[0] == '{' && ReadBrace(s) == Quantifier(factor, next)
    ensures Scan(s, st) == Scan(s[next..], Scaled(st, factor))
  {
    hide Scan, ReadBrace;
    ScanStep(s, st, s[next..], Scaled(st, factor));
  }

  lemma Reassociate(text: string, mode: string, rest: string)
    ensures "{" + text + "}" + mode + rest == "{" + text + "}" + (mode + rest)
  {
  }

  lemma ScanCount(text: string, factor: nat, mode: Mode, rest: string, st: State)
    requires ReadBrace("{" + text + "}" + (PrintMode(mode) + rest)) == Quantifier(factor, |text| + 2)
    ensures Scan("{" + text + "}" + PrintMode(mode) + rest, st)
      == Scan(rest, Passed(Scaled(st, factor), ModeWeight(mode)))
  {
    hide Scan, ReadBrace;
    Reassociate(text, PrintMode(mode), rest);
    ScanMode(mode, rest, Scaled(st, factor));
    var tail := PrintMode(mode) + rest;
    AfterBrace(text, tail);
    ScanBrace("{" + text + "}" + tail, factor, |text| + 2, st);
  }

  lemma ScanTwo(m: string, n: string, mode: Mode, rest: string, st: State)
    requires m == [] || AllAscii(m)
    requires n == [] || AllAscii(n)
    requires m != [] || n != []
    ensures Scan("{" + (m + "," + n) + "}" + PrintMode(mode) + rest, st)
      == Scan(rest, Passed(Scaled(st, Bound(m, n)), ModeWeight(mode)))
  {
    hide Scan, ReadBrace;
    BraceReadsTwo(m, n, PrintMode(mode) + rest);
    ScanCount(m + "," + n, Bound(m, n), mode, rest, st);
  }

  lemma ScanOne(m: Digits, mode: Mode, rest: string, st: State)
    ensures Scan("{" + m + "}" + PrintMode(mode) + rest, st)
      == Scan(rest, Passed(Scaled(st, DecimalValue(m)), ModeWeight(mode)))
  {
    hide Scan, ReadBrace;
    BraceReadsOne(m, PrintMode(mode) + rest);
    ScanCount(m, DecimalValue(m), mode, rest, st);
  }

  lemma PrintTwo(q: Quant, m: string, n: string)
    requires match q
      case AtLeast(m', _) => m == m' && n == ""
      case AtMost(n', _) => m == "" && n == n'
      case Between(m', n', _) => m == m' && n == n'
      case _ => false
    ensures PrintQuant(q) == "{" + (m + "," + n) + "}" + PrintMode(q.mode)
  {
  }

  lemma ScanQuant(q: Quant, rest: string, st: State)
    ensures Scan(PrintQuant(q) + rest, st) == Scan(rest, Passed(Scaled(st, Factor(q)), Extra(q)))
  {
    hide Scan;
    match q
    case Once => assert PrintQuant(q) + rest == rest;
    case Star(mode) => ScanSymbol('*', mode, rest, st);
    case Plus(mode) => ScanSymbol('+', mode, rest, st);
    case Opt(mode) => ScanSymbol('?', mode, rest, st);
    case Exactly(m, mode) => ScanOne(m, mode, rest, st);
    case AtLeast(m, mode) =>
      PrintTwo(q, m, "");
      ScanTwo(m, "", mode, rest, st);
    case AtMost(n, mode) =>
      PrintTwo(q, "", n);
      ScanTwo("", n, mode, rest, st);
    case Between(m, n, mode) =>
      PrintTwo(q, m, n);
      ScanTwo(m, n, mode, rest, st);
  }

  lemma {:induction false} MembersEnd(ms: seq<Member>, rest: string)
    requires forall i :: 0 <= i < |ms| && ms[i].Plain? ==> ms[i].c != ']' && ms[i].c != '\\'
    ensures AfterMembers(PrintMembers(ms) + "]" + rest) == rest
  {
    var s := PrintMembers(ms) + "]" + rest;
    if ms == [] {
      assert s[1..] == rest;
    } else {
      MembersEnd(ms[1..], rest);
      var t := PrintMembers(ms[1..]) + "]" + rest;
      match ms[0] {
        case Plain(c) => assert s == [c] + t; assert s[1..] == t;
        case Escaped(c) => assert s == ['\\', c] + t; assert s[2..] == t;
      }
    }
  }

  lemma ClassOpens(negated: bool, closeFirst: bool, t: string)
    requires t != []
    requires !closeFirst ==> t[0] != ']' && (negated || t[0] != '^')
    ensures ClassMembers((if negated then "^" else "") + ((if closeFirst then "]" else "") + t)) == t
  {
    var u := (if closeFirst then "]" else "") + t;
    var v := (if negated then "^" else "") + u;
    assert closeFirst ==> u[1..] == t;
    assert negated ==> v[1..] == u;
    assert !negated ==> v == u;
  }

  lemma PrintClass(a: Atom, rest: string)
    requires a.Class?
    ensures PrintAtom(a) + rest
      == "[" + ((if a.negated then "^" else "") + ((if a.closeFirst then "]" else "") + (PrintMembers(a.members) + "]" + rest)))
  {
  }

  lemma ScanClass(a: Atom, rest: string, st: State)
    requires a.Class? && WellFormedAtom(a, rest)
    ensures Scan(PrintAtom(a) + rest, st) == Scan(rest, Held(st, 1))
  {
    hide Scan;
    var Class(negated, closeFirst, ms) := a;
    var t := PrintMembers(ms) + "]" + rest;
    if ms != [] && ms[0].Plain? { assert t[0] == ms[0].c; }
    ClassOpens(negated, closeFirst, t);
    MembersEnd(ms, rest);
    PrintClass(a, rest);
    ScanOpenClass((if negated then "^" else "") + ((if closeFirst then "]" else "") + t), st);
  }

  lemma ScanOpenClass(v: string, st: State)
    ensures Scan("[" + v, st) == Scan(AfterMembers(ClassMembers(v)), Held(st, 1))
  {
    hide Scan;
    var s := "[" + v;
    assert s[1..] == v;
    ScanStep(s, st, AfterMembers(ClassMembers(v)), Held(st, 1));
  }

  lemma ScanChar(c: char, rest: string, st: State)
    requires WellFormedAtom(Char(c), rest)
    ensures Scan([c] + rest, st) == Scan(rest, Held(st, 1))
  {
    hide Scan, ReadBrace, StandsForItself, CountsAt, Refused;
    var s := [c] + rest;
    assert s[1..] == rest;
    if c == '{' { BraceExactly(s); }
    ScanStep(s, st, rest, Held(st, 1));
  }

  lemma ScanEscape(c: char, rest: string, st: State)
    ensures Scan(['\\', c] + rest, st) == Scan(rest, Held(st, 1))
  {
    hide Scan;
    var s := ['\\', c] + rest;
    assert s[2..] == rest;
    ScanStep(s, st, rest, Held(st, 1));
  }

  lemma ScanOpen(content: string, st: State)
    ensures Scan("(" + content, st) == Scan(content, Opened(st))
  {
    hide Scan;
    var s := "(" + content;
    assert s[1..] == content;
    ScanStep(s, st, content, Opened(st));
  }

  lemma ScanClose(rest: string, outer: State, st: State)
    requires st.stack == Opened(outer).stack
    ensures Scan(")" + rest, st) == Scan(rest, Held(outer, Max(st.total + st.last, 1)))
  {
    hide Scan;
    var s := ")" + rest;
    assert s[1..] == rest;
    assert st.stack[..|st.stack| - 1] == outer.stack;
    ScanStep(s, st, rest, Held(outer, Max(st.total + st.last, 1)));
  }

  lemma PrintGroup(prefix: string, body: Items, rest: string)
    ensures PrintAtom(Group(prefix, body)) + rest == "(" + (prefix + (Print(body) + (")" + rest)))
  {
    hide Print, PrintMembers;
  }

  lemma {:induction false} ScanGroup(prefix: string, body: Items, rest: string, st: State)
    requires WellFormedAtom(Group(prefix, body), rest)
    ensures Scan(PrintAtom(Group(prefix, body)) + rest, st) == Scan(rest, Held(st, AtomWeight(Group(prefix, body))))
    decreases body, 2
  {
    hide Scan, Print, PrintAtom;
    var close := ")" + rest;
    PrintGroup(prefix, body, rest);
    ScanOpen(prefix + (Print(body) + close), st);
    ScanPlain(prefix, Print(body) + close, Opened(st));
    var inner := Passed(Opened(st), |prefix|);
    ScanItems(body, close, inner);
    ScanClose(rest, st, After(body, inner));
  }

  lemma {:induction false} ScanAtom(a: Atom, rest: string, st: State)
    requires WellFormedAtom(a, rest)
    ensures Scan(PrintAtom(a) + rest, st) == Scan(rest, Held(st, AtomWeight(a)))
    decreases a, 0
  {
    hide Scan;
    match a
    case Char(c) => ScanChar(c, rest, st);
    case Esc(c) => ScanEscape(c, rest, st);
    case Class(_, _, _) => ScanClass(a, rest, st);
    case Group(prefix, body) => ScanGroup(prefix, body, rest, st);
  }

  lemma Rejoin(a: string, b: string, c: string, rest: string)
    ensures a + b + c + rest == a + (b + c + rest)
    ensures b + c + rest == b + (c + rest)
  {
  }

  lemma PrintCons(h: Item, t: Items, rest: string)
    ensures Print(Cons(h, t)) + rest == PrintAtom(h.atom) + (PrintQuant(h.quant) + Print(t) + rest)
    ensures PrintQuant(h.quant) + Print(t) + rest == PrintQuant(h.quant) + (Print(t) + rest)
  {
    hide PrintAtom, PrintQuant;
    Rejoin(PrintAtom(h.atom), PrintQuant(h.quant), Print(t), rest);
  }

  /** Scanning a printed list of items, with anything after it and from any state
      of the scan, is scanning what follows from the state `After` describes. */
  lemma {:induction false} ScanItems(items: Items, rest: string, st: State)
    requires WellFormed(items, rest)
    ensures Scan(Print(items) + rest, st) == Scan(rest, After(items, st))
    decreases items, 1
  {
    hide Scan;
    match items
    case Nil => assert Print(items) + rest == rest;
    case Cons(h, t) =>
      PrintCons(h, t, rest);
      ScanAtom(h.atom, PrintQuant(h.quant) + Print(t) + rest, st);
      ScanQuant(h.quant, Print(t) + rest, Held(st, AtomWeight(h.atom)));
      ScanItems(t, rest, AfterItem(h, st));
  }
}
