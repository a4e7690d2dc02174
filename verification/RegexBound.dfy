/** How the weight reported for a pattern relates to the size of the pattern once
    its counted repeats are written out, and where that relation breaks. */
module RegexBound {
  import opened Numbers
  import opened Options
  import opened Text
  import opened RegexWeight
  import opened RegexBrace
  import opened RegexPattern

  // -------------------------------------------------------------- the estimate

  /** `{0,}` is the one quantifier whose factor is below its copies. */
  predicate IsOpenZero(q: Quant) {
    q.AtLeast? && DecimalValue(q.m) == 0
  }

  /** An item under `{0,}` that expands to more than its lazy or possessive mark weighs. */
  predicate Deficient(item: Item) {
    IsOpenZero(item.quant) && |UnrollAtom(item.atom)| > ModeWeight(item.quant.mode)
  }

  predicate SoundAtom(a: Atom) {
    a.Group? ==> Sound(a.body)
  }

  /** No item of the pattern, at any depth, is deficient. */
  predicate Sound(items: Items) {
    match items
    case Nil => true
    case Cons(h, t) => SoundAtom(h.atom) && !Deficient(h) && Sound(t)
  }

  /** The scan of a well-formed pattern is the weight of its tree: one flat pass
      recovers what the nesting of groups and repeats multiplies out to. */
  lemma ScanIsWeight(items: Items)
    requires WellFormed(items, "")
    ensures Scan(Print(items), START) == Some(Weight(items))
  {
    hide Scan;
    ScanItems(items, "", START);
    ScanEnd("", After(items, START), Weight(items));
    assert Print(items) + "" == Print(items);
  }

  lemma Scale(a: nat, b: nat, k: nat)
    requires a <= b
    ensures a * k <= b * k
  {
  }

  lemma {:induction false} AtomBound(a: Atom)
    requires SoundAtom(a)
    ensures |UnrollAtom(a)| <= AtomWeight(a)
    decreases a, 0
  {
    if a.Group? {
      WeightBound(a.body);
    }
  }

  lemma ItemBound(item: Item)
    requires |UnrollAtom(item.atom)| <= AtomWeight(item.atom)
    ensures |UnrollItem(item)| <= ItemWeight(item) <==> !Deficient(item)
  {
    if IsOpenZero(item.quant) {
      Multiples(|UnrollAtom(item.atom)|, 0, Copies(item.quant));
      Multiples(AtomWeight(item.atom), Factor(item.quant), 1);
    } else {
      Scale(|UnrollAtom(item.atom)|, AtomWeight(item.atom), Copies(item.quant));
    }
  }

  lemma {:induction false} WeightBound(items: Items)
    requires Sound(items)
    ensures |Unroll(items)| <= Weight(items)
    decreases items, 1
  {
    match items
    case Nil =>
    case Cons(h, t) =>
      AtomBound(h.atom);
      ItemBound(h);
      WeightBound(t);
  }

  /** Every item, at every depth, adds to the weight no less than it expands to. */
  predicate EachItemCovered(items: Items) {
    match items
    case Nil => true
    case Cons(h, t) =>
      && (h.atom.Group? ==> EachItemCovered(h.atom.body))
      && |UnrollItem(h)| <= ItemWeight(h)
      && EachItemCovered(t)
  }

  /** The deficient items are exactly where the weight falls short. */
  lemma {:induction false} CoveredExactly(items: Items)
    ensures EachItemCovered(items) <==> Sound(items)
  {
    match items
    case Nil =>
    case Cons(h, t) =>
      if h.atom.Group? {
        CoveredExactly(h.atom.body);
      }
      CoveredExactly(t);
      if SoundAtom(h.atom) {
        AtomBound(h.atom);
        ItemBound(h);
      }
  }

  /** The size by the counts alone: siblings add, a counted repeat multiplies by its larger
      bound, an open count by its only one, and every other quantifier counts once. */
  function Counted(items: Items): nat {
    match items
    case Nil => 0
    case Cons(h, t) => CountedAtom(h.atom) * Factor(h.quant) + Counted(t)
  }

  function CountedAtom(a: Atom): nat {
    if a.Group? then Counted(a.body) else 1
  }

  lemma {:induction false} CountedBound(items: Items)
    ensures Counted(items) <= Weight(items)
  {
    match items
    case Nil =>
    case Cons(h, t) =>
      if h.atom.Group? {
        CountedBound(h.atom.body);
      }
      Scale(CountedAtom(h.atom), AtomWeight(h.atom), Factor(h.quant));
      CountedBound(t);
  }

  /** Reckoned by the counts alone, the weight is never too low, for every well-formed
      pattern. */
  lemma WeightCoversCounts(items: Items)
    requires WellFormed(items, "")
    ensures var w := Scan(Print(items), START);
      w.Some? && Counted(items) <= w.value
  {
    hide Scan, Print;
    ScanIsWeight(items);
    CountedBound(items);
  }

  /** What the weight has over the expansion, item by item: marks, prefixes and empty
      groups add to it, an item under `{0,}` takes away what it expands to. */
  function Surplus(items: Items): int {
    match items
    case Nil => 0
    case Cons(h, t) => SurplusOf(h) + Surplus(t)
  }

  function SurplusOf(item: Item): int {
    if IsOpenZero(item.quant) then ModeWeight(item.quant.mode) - |UnrollAtom(item.atom)|
    else SurplusOfAtom(item.atom) * Factor(item.quant) + Extra(item.quant)
  }

  function SurplusOfAtom(a: Atom): int {
    match a
    case Group(prefix, body) =>
      var over := |prefix| + Surplus(body);
      if over + |Unroll(body)| < 1 then 1 - |Unroll(body)| else over
    case _ => 0
  }

  lemma Distribute(w: int, n: int, s: int, k: int)
    requires w == n + s
    ensures w * k == n * k + s * k
  {
  }

  lemma ItemAccount(item: Item)
    requires AtomWeight(item.atom) == |UnrollAtom(item.atom)| + SurplusOfAtom(item.atom)
    ensures ItemWeight(item) == |UnrollItem(item)| + SurplusOf(item)
  {
    hide AtomWeight, UnrollAtom, SurplusOfAtom, DecimalValue;
    var w, n, s, k := AtomWeight(item.atom), |UnrollAtom(item.atom)|, SurplusOfAtom(item.atom), Factor(item.quant);
    if IsOpenZero(item.quant) {
      Multiples(w, k, 1);
      Multiples(n, 0, Copies(item.quant));
    } else {
      assert Copies(item.quant) == k;
      Distribute(w, n, s, k);
    }
  }

  lemma {:induction false} Account(items: Items)
    ensures Weight(items) == |Unroll(items)| + Surplus(items)
  {
    match items
    case Nil =>
    case Cons(h, t) =>
      if h.atom.Group? {
        Account(h.atom.body);
      }
      ItemAccount(h);
      Account(t);
  }

  /** Over all well-formed patterns: the estimate holds exactly when what the marks,
      prefixes and empty groups add makes up for what the items under `{0,}` take away. */
  lemma OverEstimatesExactly(items: Items)
    requires WellFormed(items, "")
    ensures OverEstimates(items) <==> Surplus(items) >= 0
  {
    hide Scan, Print;
    ScanIsWeight(items);
    Account(items);
  }

  ghost predicate OverEstimates(items: Items) {
    var w := Scan(Print(items), START);
    w.Some? && |Unroll(items)| <= w.value
  }

  /** The scanner never raises on a well-formed pattern and never reports less than
      the pattern expands to, unless some item is deficient. */
  lemma {:induction false} WeightOverEstimates(items: Items)
    requires WellFormed(items, "") && Sound(items)
    ensures OverEstimates(items)
  {
    hide Scan, Print;
    ScanIsWeight(items);
    WeightBound(items);
  }

  /** For a pattern of one item, exactly when the estimate holds. */
  lemma LoneItemExact(a: Atom, q: Quant)
    requires WellFormed(Lone(a, q), "") && SoundAtom(a)
    ensures OverEstimates(Lone(a, q)) <==> !Deficient(Item(a, q))
  {
    hide Scan;
    var items := Lone(a, q);
    ScanIsWeight(items);
    AtomBound(a);
    ItemBound(Item(a, q));
    assert Unroll(items) == UnrollItem(Item(a, q));
    assert Weight(Nil) == 0;
  }

  // -------------------------------------------------------- unclosed groups

  /** The pattern `parts[0] ( parts[1] ( ...`, none of whose groups is closed. */
  function PrintUnclosed(parts: seq<Items>): string
    requires parts != []
  {
    if |parts| == 1 then Print(parts[0])
    else Print(parts[0]) + "(" + PrintUnclosed(parts[1..])
  }

  ghost predicate WellFormedUnclosed(parts: seq<Items>)
    requires parts != []
  {
    if |parts| == 1 then WellFormed(parts[0], "")
    else WellFormed(parts[0], "(" + PrintUnclosed(parts[1..])) && WellFormedUnclosed(parts[1..])
  }

  function TotalWeight(parts: seq<Items>): nat {
    if parts == [] then 0 else Weight(parts[0]) + TotalWeight(parts[1..])
  }

  function TotalUnrolled(parts: seq<Items>): nat {
    if parts == [] then 0 else |Unroll(parts[0])| + TotalUnrolled(parts[1..])
  }

  lemma SumPush(stack: seq<nat>, n: nat)
    ensures Sum(stack + [n]) == Sum(stack) + n
  {
    if stack != [] {
      assert (stack + [n])[1..] == stack[1..] + [n];
      SumPush(stack[1..], n);
    } else {
      assert stack + [n] == [n];
    }
  }

  lemma Append(s: string, t: string)
    ensures s + ("(" + t) == s + "(" + t
  {
  }

  lemma {:induction false} ScanUnclosed(parts: seq<Items>, st: State)
    requires parts != [] && WellFormedUnclosed(parts) && st.total == st.last == 0
    ensures var w := Scan(PrintUnclosed(parts), st);
      w.Some? && w.value == Sum(st.stack) + TotalWeight(parts)
    decreases |parts|
  {
    hide Scan, Print, WellFormed, Weight;
    var first := parts[0];
    var st' := After(first, st);
    if |parts| == 1 {
      ScanItems(first, "", st);
      assert Print(first) + "" == Print(first);
      ScanEnd("", st', Sum(st.stack) + Weight(first));
      assert TotalWeight(parts[1..]) == 0;
    } else {
      var inner := PrintUnclosed(parts[1..]);
      ScanItems(first, "(" + inner, st);
      Append(Print(first), inner);
      ScanOpen(inner, st');
      ScanUnclosed(parts[1..], Opened(st'));
      SumPush(st.stack, Weight(first));
    }
  }

  lemma {:induction false} TotalBound(parts: seq<Items>)
    requires forall i :: 0 <= i < |parts| ==> Sound(parts[i])
    ensures TotalUnrolled(parts) <= TotalWeight(parts)
  {
    if parts != [] {
      WeightBound(parts[0]);
      TotalBound(parts[1..]);
    }
  }

  /** Groups left open are still counted in full. */
  lemma UnclosedStillCounted(parts: seq<Items>)
    requires parts != [] && WellFormedUnclosed(parts)
    requires forall i :: 0 <= i < |parts| ==> Sound(parts[i])
    ensures var w := Scan(PrintUnclosed(parts), START);
      w.Some? && TotalUnrolled(parts) <= w.value
  {
    hide Scan;
    ScanUnclosed(parts, START);
    TotalBound(parts);
  }

  // -------------------------------------------------------- other malformed text

  lemma StrayClose(s: string, st: State)
    requires s != [] && s[0] == ')' && st.stack == []
    ensures ReadOne(s, st) == Move(s[1..], State([], 0, Max(st.total + st.last, 1)))
  {
    hide AfterMembers, ReadCount;
  }

  lemma {:induction false} UnopenedFrom(items: Items, rest: string, st: State)
    requires WellFormed(items, ")" + rest) && st.stack == []
    ensures Scan(Print(items) + (")" + rest), st) == Scan(rest, State([], 0, Max(st.total + st.last + Weight(items), 1)))
  {
    hide *;
    var s, st' := ")" + rest, After(items, st);
    ScanItems(items, s, st);
    StrayClose(s, st');
    assert s[1..] == rest;
    ScanStep(s, st', rest, State([], 0, Max(st'.total + st'.last, 1)));
  }

  /** A parenthesis that closes nothing makes one item of all that is before it. */
  lemma UnopenedClose(items: Items, rest: string)
    requires WellFormed(items, ")" + rest)
    ensures Scan(Print(items) + (")" + rest), START) == Scan(rest, State([], 0, Max(Weight(items), 1)))
  {
    hide Scan, Print, WellFormed, Weight;
    UnopenedFrom(items, rest, START);
  }

  lemma {:induction false} NoEnd(s: string)
    requires ']' !in s
    ensures AfterMembers(s) == []
    decreases |s|
  {
    if s != [] {
      NoEnd(if s[0] == '\\' then Drop(s, 2) else s[1..]);
    }
  }

  /** A class that is not closed takes the rest of the text as one element, and so does a
      backslash that ends it. */
  lemma UnclosedClass(v: string, st: State)
    requires ']' !in v
    ensures Scan("[" + v, st) == Some(st.total + st.last + 1 + Sum(st.stack))
    ensures Scan("\\", st) == Some(st.total + st.last + 1 + Sum(st.stack))
  {
    var s := "[" + v;
    assert s[1..] == v;
    NoEnd(ClassMembers(v));
    hide Scan;
    ScanStep(s, st, [], Flushed(st));
    ScanStep("\\", st, [], Flushed(st));
    ScanEnd([], Flushed(st), st.total + st.last + 1 + Sum(st.stack));
  }

  // ----------------------------------------------------- the compilation gate

  const MAX_PATTERN_LENGTH: nat := 500
  const MAX_REPEAT_WEIGHT: nat := 1000

  datatype Gate = TooLong | TooHeavy(weight: nat) | ScanRaised | Compile

  /** What stands between a stored pattern and the compiler. */
  method CheckPattern(pattern: string) returns (g: Gate)
    ensures g.TooLong? <==> |pattern| > 500
    ensures g.Compile? ==> forall items ::
      WellFormed(items, "") && Sound(items) && Print(items) == pattern
      ==> |Unroll(items)| <= 1000
    ensures g.TooHeavy? ==> forall items ::
      WellFormed(items, "") && Print(items) == pattern
      ==> Weight(items) == g.weight > 1000
    ensures g.ScanRaised? <==> |pattern| <= 500 && SomeBraceRefused(pattern)
    ensures g.ScanRaised? ==> !IntReads(pattern) && forall items :: WellFormed(items, "") ==> Print(items) != pattern
  {
    if |pattern| > MAX_PATTERN_LENGTH {
      return TooLong;
    }
    var weight := RepeatWeight(pattern);
    forall items | WellFormed(items, "") && Print(items) == pattern
      ensures weight == Some(Weight(items))
    {
      ScanIsWeight(items);
    }
    forall items | WellFormed(items, "") && Sound(items) && Print(items) == pattern
      ensures |Unroll(items)| <= Weight(items)
    {
      WeightBound(items);
    }
    RaisesExactly(pattern, START);
    if IntReads(pattern) {
      NeverRaises(pattern, START);
    }
    match weight
    case None => return ScanRaised;
    case Some(w) => return if w > MAX_REPEAT_WEIGHT then TooHeavy(w) else Compile;
  }

  // ------------------------------------------------------------ when it raises

  /** Every digit of the text is one that `int` converts. */
  predicate IntReads(s: string) {
    forall i :: 0 <= i < |s| && IsDigit(s[i]) ==> IsDecimal(s[i])
  }

  lemma {:induction false} StripKeeps(s: string)
    requires IntReads(s)
    ensures IntReads(Strip(s))
    decreases |s|
  {
    if s == [] {
    } else if IsSpace(s[0]) {
      StripKeeps(s[1..]);
    } else if IsSpace(s[|s| - 1]) {
      StripKeeps(s[..|s| - 1]);
    }
  }

  lemma {:induction false} SplitKeeps(s: string)
    requires IntReads(s)
    ensures forall i :: 0 <= i < |SplitOnComma(s)| ==> IntReads(SplitOnComma(s)[i])
  {
    if s != [] {
      SplitKeeps(s[1..]);
    }
  }

  /** Reading the counts raises exactly when some part is made of digits of which
      one is not one that `int` converts. */
  lemma {:induction false} CountsRaise(parts: seq<string>)
    ensures Counts(parts).None?
      <==> exists i :: 0 <= i < |parts| && IsDigitString(Strip(parts[i])) && !AllDecimal(Strip(parts[i]))
  {
    if parts != [] {
      CountsRaise(parts[1..]);
      var rest := parts[1..];
      if Counts(rest).None? {
        var j :| 0 <= j < |rest| && IsDigitString(Strip(rest[j])) && !AllDecimal(Strip(rest[j]));
        assert IsDigitString(Strip(parts[j + 1])) && !AllDecimal(Strip(parts[j + 1]));
      }
      forall i | 0 < i < |parts| ensures parts[i] == rest[i - 1] {}
    }
  }

  lemma BraceDoesNotRaise(s: string)
    requires s != [] && IntReads(s)
    ensures !ReadBrace(s).Raises?
  {
    var body := s[1..][..FindClose(s[1..])];
    var parts := SplitOnComma(body);
    SplitKeeps(body);
    forall i | 0 <= i < |parts| ensures IntReads(Strip(parts[i])) {
      StripKeeps(parts[i]);
    }
    CountsRaise(parts);
  }

  lemma MembersKeep(s: string)
    requires IntReads(s)
    ensures IntReads(AfterMembers(s))
    decreases |s|
  {
  }

  lemma ReadsOn(s: string, st: State)
    requires s != [] && IntReads(s)
    ensures ReadOne(s, st).Move? && IntReads(ReadOne(s, st).rest)
  {
    if s[0] == '{' {
      BraceDoesNotRaise(s);
    } else if s[0] == '[' {
      MembersKeep(ClassMembers(s[1..]));
    }
  }

  /** A text all of whose digits `int` converts never makes the scan raise, well-formed
      pattern or not. */
  lemma {:induction false} NeverRaises(s: string, st: State)
    requires IntReads(s)
    ensures Scan(s, st).Some?
    decreases |s|
  {
    if s != [] {
      ReadsOn(s, st);
      NeverRaises(ReadOne(s, st).rest, ReadOne(s, st).state);
    }
  }

  /** The text after the token that opens `s`: an escape, a class, a brace that counts, or
      one character. */
  ghost function Rest(s: string): (t: string)
    requires s != []
    ensures |t| < |s|
  {
    if s[0] == '\\' then Drop(s, 2)
    else if s[0] == '[' then AfterMembers(ClassMembers(s[1..]))
    else if s[0] == '{' && CountsAt(s[1..], FindClose(s[1..])) then s[FindClose(s[1..]) + 2..]
    else s[1..]
  }

  /** A brace opens here, is closed, and holds between commas digits, one of which `int`
      does not convert. */
  ghost predicate RefusedHere(s: string)
    requires s != []
  {
    s[0] == '{' && exists k: nat :: ClosesAt(s[1..], k) && Refused(s[1..][..k])
  }

  /** Some token of the text is a brace that holds a refused part. */
  ghost predicate SomeBraceRefused(s: string)
    decreases |s|
  {
    s != [] && (RefusedHere(s) || SomeBraceRefused(Rest(s)))
  }

  lemma StuckExactly(s: string, st: State)
    requires s != []
    ensures ReadOne(s, st).Stuck? <==> RefusedHere(s)
    ensures ReadOne(s, st).Move? ==> ReadOne(s, st).rest == Rest(s)
  {
    hide ReadBrace, CountsAt, Refused;
    if s[0] == '{' {
      BraceExactly(s);
      if ReadBrace(s).Quantifier? {
        BraceEnds(s);
      }
    }
  }

  lemma BraceEnds(s: string)
    requires s != [] && s[0] == '{' && ReadBrace(s).Quantifier?
    ensures ReadBrace(s).next == FindClose(s[1..]) + 2
  {
  }

  /** On every text, well-formed pattern or not, the scan raises exactly when some token is
      a brace that holds a refused part. */
  lemma {:induction false} RaisesExactly(s: string, st: State)
    ensures Scan(s, st).None? <==> SomeBraceRefused(s)
    decreases |s|
  {
    if s != [] {
      StuckExactly(s, st);
      if ReadOne(s, st).Move? {
        RaisesExactly(Rest(s), ReadOne(s, st).state);
      }
    }
  }

  // ---------------------------------------------------------- counterexamples

  /** A group under `{0,}` is reported to weigh nothing, whatever it holds; under
      `*`, which means the same, it is reported to weigh more than its content.
      Both expand to the content of the group. */
  lemma OpenZeroUnderReports(body: Items, zero: Digits)
    requires DecimalValue(zero) == 0
    requires Sound(body)
    requires WellFormed(body, ")" + PrintQuant(AtLeast(zero, Greedy))) && WellFormed(body, ")" + PrintQuant(Star(Greedy)))
    ensures var braced, starred := Lone(Group("", body), AtLeast(zero, Greedy)), Lone(Group("", body), Star(Greedy));
      var w0, w1 := Scan(Print(braced), START), Scan(Print(starred), START);
      && |Unroll(braced)| == |Unroll(starred)| == |Unroll(body)|
      && w0.Some? && w0.value == 0
      && w1.Some? && w1.value > |Unroll(body)|
  {
    hide Scan, Print, WellFormed;
    var g := Group("", body);
    var open, star := AtLeast(zero, Greedy), Star(Greedy);
    LoneWeight(g, open);
    LoneWeight(g, star);
    WeightBound(body);
    Multiples(AtomWeight(g), Factor(open), Factor(star));
    Multiples(|UnrollAtom(g)|, 0, Copies(open));
    Multiples(|UnrollAtom(g)|, 0, Copies(star));
  }

  lemma Multiples(n: nat, zero: nat, one: nat)
    ensures zero == 0 ==> n * zero == 0
    ensures one == 1 ==> n * one == n
  {
  }

  function Lone(a: Atom, q: Quant): Items {
    Cons(Item(a, q), Nil)
  }

  lemma LoneWeight(a: Atom, q: Quant)
    requires WellFormedAtom(a, PrintQuant(q))
    ensures var w := Scan(Print(Lone(a, q)), START);
      w.Some? && w.value == AtomWeight(a) * Factor(q) + Extra(q)
    ensures |Unroll(Lone(a, q))| == |UnrollAtom(a)| * Copies(q)
  {
    hide Scan;
    assert PrintQuant(q) + Print(Nil) + "" == PrintQuant(q);
    ScanIsWeight(Lone(a, q));
    assert Weight(Nil) == 0;
  }

  /** The text `a{1,(b{k}){k}` as the items it stands for. */
  function StrayBrace(k: Digits): Items {
    Cons(Item(Char('a'), Once), Cons(Item(Char('{'), Once), StrayTail(k)))
  }

  function StrayTail(k: Digits): Items {
    Cons(Item(Char('1'), Once), Cons(Item(Char(','), Once), StrayGroup(k)))
  }

  function StrayGroup(k: Digits): Items {
    Lone(Group("", Lone(Char('b'), Exactly(k, Greedy))), Exactly(k, Greedy))
  }

  /** In `a{1,(b{k}){k}` the first brace opens no count, but the scanner takes
      everything up to the next closing brace as one and loses the group with it:
      it reports `k` where the pattern expands to more than `k` times `k` elements. */
  lemma StrayBraceUnderReports(k: Digits)
    ensures Print(StrayBrace(k)) == ['a'] + StrayText(k)
    ensures !WellFormed(StrayBrace(k), "")
    ensures |Unroll(StrayBrace(k))| == 4 + DecimalValue(k) * DecimalValue(k)
    ensures Scan(Print(StrayBrace(k)), START) == Some(DecimalValue(k))
  {
    hide Scan, ReadBrace, Print, Unroll;
    StrayPrint(k);
    StraySize(k);
    StrayReading(k);
    StrayScan(k);
    StrayIllFormed(k);
  }

  lemma StrayIllFormed(k: Digits)
    ensures !WellFormed(StrayBrace(k), "")
  {
    hide ReadBrace, Print, PrintAtom, StandsForItself, CountsAt, Refused;
    StrayPrint(k);
    StrayReading(k);
    var h := Item(Char('{'), Once);
    assert "{" + (PrintQuant(Once) + Print(StrayTail(k)) + "") == StrayText(k);
    BraceExactly(StrayText(k));
    assert StrayText(k)[1..] == PrintQuant(Once) + Print(StrayTail(k)) + "";
    assert !WellFormedAtom(h.atom, PrintQuant(h.quant) + Print(StrayTail(k)) + "");
    assert !WellFormed(Cons(h, StrayTail(k)), "");
  }

  function StrayText(k: Digits): string {
    "{" + ("1," + ("(b{" + k)) + "}" + ("){" + k + "}")
  }

  lemma StrayGroupPrint(k: Digits)
    ensures Print(StrayGroup(k)) == ("(b{" + k) + "}" + ("){" + k + "}")
  {
    var q := Exactly(k, Greedy);
    var b := Lone(Char('b'), q);
    PrintLone(Char('b'), q);
    PrintLone(Group("", b), q);
    assert PrintQuant(q) == "{" + k + "}";
    assert Print(b) == "b" + ("{" + k + "}");
    assert PrintAtom(Group("", b)) == "(" + "" + Print(b) + ")";
  }

  lemma Regroup(p: string, after: string)
    ensures "{" + ("1" + ("," + (p + "}" + after))) == "{" + ("1," + p) + "}" + after
  {
  }

  lemma StrayPrint(k: Digits)
    ensures "{" + Print(StrayTail(k)) == StrayText(k)
    ensures Print(StrayBrace(k)) == ['a'] + StrayText(k)
  {
    hide Print, PrintAtom;
    StrayGroupPrint(k);
    PrintChar(',', StrayGroup(k));
    PrintChar('1', Cons(Item(Char(','), Once), StrayGroup(k)));
    Regroup("(b{" + k, "){" + k + "}");
    PrintChar('{', StrayTail(k));
    PrintChar('a', Cons(Item(Char('{'), Once), StrayTail(k)));
  }

  lemma PrintLone(a: Atom, q: Quant)
    ensures Print(Lone(a, q)) == PrintAtom(a) + PrintQuant(q)
    ensures |Unroll(Lone(a, q))| == |UnrollAtom(a)| * Copies(q)
  {
  }

  lemma PrintChar(c: char, t: Items)
    ensures Print(Cons(Item(Char(c), Once), t)) == [c] + Print(t)
    ensures |Unroll(Cons(Item(Char(c), Once), t))| == 1 + |Unroll(t)|
  {
    hide Print, Repeat;
    var h := Item(Char(c), Once);
    PrintCons(h, t, "");
    assert PrintAtom(h.atom) == [c] && PrintQuant(h.quant) == "";
    Bare(Print(Cons(h, t)), [c], Print(t));
    Multiples(|UnrollAtom(h.atom)|, 0, Copies(h.quant));
  }

  lemma Bare(s: string, c: string, t: string)
    requires s + "" == c + ("" + t + "")
    ensures s == c + t
  {
    assert s + "" == s && "" + t + "" == t;
  }

  lemma StraySize(k: Digits)
    ensures |Unroll(StrayBrace(k))| == 4 + DecimalValue(k) * DecimalValue(k)
  {
    var q := Exactly(k, Greedy);
    PrintLone(Char('b'), q);
    PrintLone(Group("", Lone(Char('b'), q)), q);
    PrintChar(',', StrayGroup(k));
    PrintChar('1', Cons(Item(Char(','), Once), StrayGroup(k)));
    PrintChar('{', StrayTail(k));
    PrintChar('a', Cons(Item(Char('{'), Once), StrayTail(k)));
  }

  lemma StrayReading(k: Digits)
    ensures ReadBrace(StrayText(k)) == Quantifier(1, |k| + 7)
  {
    var p := "(b{" + k;
    forall i | 0 <= i < |p| ensures p[i] != ',' && p[i] != '}' {
      if i >= 3 { assert p[i] == k[i - 3]; assert IsDecimal(k[i - 3]); }
    }
    NoCommas(p);
    assert SplitOnComma("," + p) == ["", p] by { assert ("," + p)[1..] == p; }
    var body := "1," + p;
    assert body[1..] == "," + p;
    assert ['1'] + "" == "1";
    var two: seq<string> := ["1", p];
    assert SplitOnComma(body) == two;
    StrayCounts(p, k);
    ReadBraceBody(body, "){" + k + "}");
  }

  lemma StrayCounts(p: string, k: Digits)
    requires p == "(b{" + k
    ensures Counts(["1", p]) == Some([1])
  {
    assert IsDecimal(k[|k| - 1]) && p[|p| - 1] == k[|k| - 1];
    assert Strip(p) == p && p[0] == '(' && !IsDigitString(p);
    var one: seq<string> := [p];
    var two: seq<string> := ["1", p];
    assert two[1..] == one && one[1..] == [];
    var none: seq<nat> := [];
    assert Counts(one) == Some(none);
    StripDigits("1");
    assert "1"[..0] == "" && DecimalValue("1") == 1;
    assert [1] + none == [1];
  }

  lemma NoCommas(s: string)
    requires ',' !in s
    ensures SplitOnComma(s) == [s]
  {
    if s != [] {
      NoCommas(s[1..]);
      assert [s[0]] + s[1..] == s;
    }
  }

  /** An element, a brace that multiplies it by one, and what remains. */
  lemma ThenBrace(text: string, length: nat, tail: string, w: nat)
    requires length <= |text| && text != "" && text[0] == '{' && ReadBrace(text) == Quantifier(1, length)
    requires text[length..] == tail && Scan(tail, Held(START, 1)) == Some(w)
    ensures Scan(['a'] + text, START) == Some(w)
  {
    hide Scan, ReadBrace;
    var st := Held(START, 1);
    ScanChar('a', text, START);
    ScanBrace(text, 1, length, st);
    assert Scaled(st, 1) == st;
  }

  lemma StrayParts(k: Digits) returns (length: nat, tail: string)
    ensures var text := StrayText(k);
      && length <= |text| && text != "" && text[0] == '{' && ReadBrace(text) == Quantifier(1, length)
      && text[length..] == tail && Scan(tail, Held(START, 1)) == Some(DecimalValue(k))
  {
    hide Scan, ReadBrace, StrayText, DecimalValue;
    StrayReading(k);
    StrayCut(k);
    StrayRest(k, Held(START, 1));
    length, tail := |k| + 7, "){" + k + "}";
  }

  lemma StrayScan(k: Digits)
    ensures Scan(['a'] + StrayText(k), START) == Some(DecimalValue(k))
  {
    hide Scan, ReadBrace, StrayText, DecimalValue;
    var length, tail := StrayParts(k);
    ThenBrace(StrayText(k), length, tail, DecimalValue(k));
  }

  lemma StrayCut(k: Digits)
    ensures |StrayText(k)| > |k| + 7 && StrayText(k)[0] == '{'
    ensures StrayText(k)[|k| + 7..] == "){" + k + "}"
  {
  }

  lemma StrayRest(k: Digits, st: State)
    requires st.stack == [] && st.total == 0 && st.last == 1
    ensures Scan("){" + k + "}", st) == Some(DecimalValue(k))
  {
    hide Scan, ReadBrace;
    var t := "{" + k + "}" + "";
    var s := "){" + k + "}";
    assert s[1..] == t;
    var st' := Closed(st);
    ScanStep(s, st, t, st');
    BraceReadsOne(k, "");
    AfterBrace(k, "");
    ScanBrace(t, DecimalValue(k), |k| + 2, st');
    ScanEnd("", Scaled(st', DecimalValue(k)), DecimalValue(k));
  }

  lemma SplitWhole(body: string)
    requires IsDigitString(body)
    ensures SplitOnComma(body) == [body] && Strip(body) == body && '}' !in body
  {
    assert forall i :: 0 <= i < |body| ==> !IsSpace(body[i]) && body[i] != ',' && body[i] != '}';
    NoCommas(body);
  }

  /** Superscript two in a count makes the scan raise, although its documentation says
      that a malformed pattern cannot. */
  lemma SuperscriptRaises()
    ensures Scan("a{\U{00B2}}", START) == None
  {
    var two: string := "\U{00B2}";
    assert two[0] as int == 178;
    OtherDigitRaises(two, "");
    assert "a{\U{00B2}}" == "a" + ("{" + two + "}" + "");
  }

  /** A count made of digits makes the scan raise if `int` does not convert one of them. */
  lemma OtherDigitRaises(body: string, after: string)
    requires IsDigitString(body) && !AllDecimal(body)
    ensures Scan("a" + ("{" + body + "}" + after), START) == None
  {
    hide Scan;
    var t := "{" + body + "}" + after;
    SplitWhole(body);
    CountsRaise([body]);
    assert IsDigitString(Strip([body][0])) && !AllDecimal(Strip([body][0]));
    ReadBraceRaises(body, after);
    ScanPlain("a", t, START);
    ScanTurn(t, Passed(START, 1));
  }

  lemma ReadBraceRaises(body: string, after: string)
    requires '}' !in body && Counts(SplitOnComma(body)).None?
    ensures ReadBrace("{" + body + "}" + after) == Raises
  {
    var s := "{" + body + "}" + after;
    assert s[1..] == body + "}" + after;
    FindCloseIs(s[1..], |body|);
    assert s[1..][..|body|] == body;
  }
}
