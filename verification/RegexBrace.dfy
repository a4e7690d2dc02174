/** What an opening brace means, said of the text alone, and the scanner's reading of it
    proved to be that. */
module RegexBrace {
  import opened Options
  import opened Numbers
  import opened Text
  import opened RegexWeight

  // ------------------------------------------------------------- braces as text

  /** `t`, the text after a brace, closes it at `k`. */
  predicate ClosesAt(t: string, k: nat) {
    k < |t| && t[k] == '}' && forall j :: 0 <= j < k ==> t[j] != '}'
  }

  /** A stretch of the body between commas, or its ends. */
  predicate Part(body: string, a: nat, b: nat) {
    && a <= b <= |body|
    && (a == 0 || body[a - 1] == ',')
    && (b == |body| || body[b] == ',')
    && forall j :: a <= j < b ==> body[j] != ','
  }

  /** Digits from `i` to `j`, and white space on either side. */
  predicate Core(p: string, i: nat, j: nat) {
    && i < j <= |p|
    && (forall k :: 0 <= k < i ==> IsSpace(p[k]))
    && (forall k :: i <= k < j ==> IsDigit(p[k]))
    && forall k :: j <= k < |p| ==> IsSpace(p[k])
  }

  ghost predicate HoldsDigits(p: string) {
    exists i: nat, j: nat :: Core(p, i, j)
  }

  /** Digits, one of which `int` does not convert. */
  ghost predicate HoldsRefused(p: string) {
    exists i: nat, j: nat, k: nat :: Core(p, i, j) && i <= k < j && !IsDecimal(p[k])
  }

  ghost predicate Counted(body: string) {
    exists a: nat, b: nat :: Part(body, a, b) && HoldsDigits(body[a..b])
  }

  ghost predicate Refused(body: string) {
    exists a: nat, b: nat :: Part(body, a, b) && HoldsRefused(body[a..b])
  }

  predicate Blank(body: string) {
    forall i :: 0 <= i < |body| ==> IsSpace(body[i])
  }

  predicate OneCommaAtMost(body: string) {
    forall i, j :: 0 <= i < j < |body| ==> !(body[i] == ',' && body[j] == ',')
  }

  /** The brace before `t` is a quantifier that ends at `k`. */
  ghost predicate CountsAt(t: string, k: nat) {
    ClosesAt(t, k) && !Refused(t[..k]) && OneCommaAtMost(t[..k]) && (Counted(t[..k]) || Blank(t[..k]))
  }

  /** The brace before `t` stands for itself. */
  ghost predicate StandsForItself(t: string) {
    (forall k :: 0 <= k < |t| ==> t[k] != '}') || exists k: nat :: LiteralTo(t, k)
  }

  ghost predicate LiteralTo(t: string, k: nat) {
    ClosesAt(t, k) && !Refused(t[..k]) && (!OneCommaAtMost(t[..k]) || (!Counted(t[..k]) && !Blank(t[..k])))
  }

  // ------------------------------------------------------------------- stripping

  /** `str.strip` takes white space away at both ends, and there only. */
  lemma {:induction false} StripExactly(s: string) returns (i: nat, j: nat)
    ensures Stripped(s, i, j) && Strip(s) == s[i..j]
    decreases |s|
  {
    hide Stripped;
    if s != [] && IsSpace(s[0]) {
      i, j := StripExactly(s[1..]);
      StrippedBehind(s, i, j);
      i, j := i + 1, j + 1;
    } else if s != [] && IsSpace(s[|s| - 1]) {
      i, j := StripExactly(s[..|s| - 1]);
      StrippedBefore(s, i, j);
    } else {
      i, j := 0, |s|;
      NothingStripped(s);
    }
  }

  /** White space before `i` and from `j` on, and neither end of what is between them. */
  predicate Stripped(s: string, i: nat, j: nat) {
    && i <= j <= |s|
    && (forall k :: 0 <= k < i ==> IsSpace(s[k]))
    && (forall k :: j <= k < |s| ==> IsSpace(s[k]))
    && (i < j ==> !IsSpace(s[i]) && !IsSpace(s[j - 1]))
  }

  lemma NothingStripped(s: string)
    requires s != [] ==> !IsSpace(s[0]) && !IsSpace(s[|s| - 1])
    ensures Stripped(s, 0, |s|) && Strip(s) == s[0..|s|]
  {
  }

  lemma StrippedBehind(s: string, i: nat, j: nat)
    requires s != [] && IsSpace(s[0]) && Stripped(s[1..], i, j)
    ensures Stripped(s, i + 1, j + 1) && s[1..][i..j] == s[i + 1..j + 1]
  {
    assert forall k :: 0 < k < |s| ==> s[k] == s[1..][k - 1];
  }

  lemma StrippedBefore(s: string, i: nat, j: nat)
    requires s != [] && IsSpace(s[|s| - 1]) && Stripped(s[..|s| - 1], i, j)
    ensures Stripped(s, i, j) && s[..|s| - 1][i..j] == s[i..j]
  {
    assert forall k :: 0 <= k < |s| - 1 ==> s[k] == s[..|s| - 1][k];
  }

  lemma CoreIsStripped(p: string, i: nat, j: nat)
    requires Core(p, i, j)
    ensures Strip(p) == p[i..j]
  {
    var a, b := StripExactly(p);
    assert IsDigit(p[i]) && IsDigit(p[j - 1]);
    CoreEnds(p, i, j, a, b);
  }

  lemma CoreEnds(p: string, i: nat, j: nat, a: nat, b: nat)
    requires Core(p, i, j) && a <= b <= |p|
    requires forall k :: 0 <= k < a ==> IsSpace(p[k])
    requires forall k :: b <= k < |p| ==> IsSpace(p[k])
    requires a < b ==> !IsSpace(p[a]) && !IsSpace(p[b - 1])
    ensures a == i && b == j
  {
    assert IsDigit(p[i]) && !IsSpace(p[i]);
    assert IsDigit(p[j - 1]) && !IsSpace(p[j - 1]);
  }

  lemma StrippedDigits(p: string)
    ensures IsDigitString(Strip(p)) <==> HoldsDigits(p)
    ensures IsDigitString(Strip(p)) && !AllDecimal(Strip(p)) <==> HoldsRefused(p)
    ensures Strip(p) == [] <==> Blank(p)
  {
    var a, b := StripExactly(p);
    var s := Strip(p);
    if IsDigitString(s) {
      forall k | a <= k < b ensures IsDigit(p[k]) {
        assert p[k] == s[k - a];
      }
      assert Core(p, a, b);
      if !AllDecimal(s) {
        var k :| 0 <= k < |s| && !IsDecimal(s[k]);
        assert !IsDecimal(p[a + k]);
      }
    }
    if HoldsDigits(p) {
      var i: nat, j: nat :| Core(p, i, j);
      CoreIsStripped(p, i, j);
    }
    if HoldsRefused(p) {
      var i: nat, j: nat, k: nat :| Core(p, i, j) && i <= k < j && !IsDecimal(p[k]);
      CoreIsStripped(p, i, j);
      assert s[k - i] == p[k];
    }
  }

  // ------------------------------------------------------------------- splitting

  function Commas(s: string): nat {
    if s == [] then 0 else (if s[0] == ',' then 1 else 0) + Commas(s[1..])
  }

  lemma {:induction false} CommasCount(s: string)
    ensures |SplitOnComma(s)| == 1 + Commas(s)
    ensures Commas(s) == 0 <==> ',' !in s
    ensures Commas(s) <= 1 <==> OneCommaAtMost(s)
  {
    if s != [] {
      var t := s[1..];
      CommasCount(t);
      assert forall i :: 1 <= i < |s| ==> s[i] == t[i - 1];
      if OneCommaAtMost(s) && s[0] == ',' {
        assert ',' !in t;
      }
      if OneCommaAtMost(t) && s[0] != ',' {
        forall i, j | 0 <= i < j < |s| ensures !(s[i] == ',' && s[j] == ',') {
        }
      }
    }
  }

  /** `n` is where the first part ends. */
  lemma {:induction false} FirstPart(s: string) returns (n: nat)
    ensures Part(s, 0, n) && SplitOnComma(s)[0] == s[..n]
  {
    if s == [] || s[0] == ',' {
      n := 0;
    } else {
      var m := FirstPart(s[1..]);
      n := m + 1;
      assert s[..n] == [s[0]] + s[1..][..m];
      assert forall j :: 1 <= j < |s| ==> s[j] == s[1..][j - 1];
    }
  }

  lemma PartShifts(c: char, t: string, a: nat, b: nat)
    requires a > 0 || c == ','
    ensures Part([c] + t, a + 1, b + 1) <==> Part(t, a, b)
    ensures Part(t, a, b) ==> ([c] + t)[a + 1..b + 1] == t[a..b]
  {
    if a <= b <= |t| {
      SliceShifts(c, t, a, b);
      PartByCommas([c] + t, a + 1, b + 1);
      PartByCommas(t, a, b);
    }
  }

  lemma SliceShifts(c: char, t: string, a: nat, b: nat)
    requires a <= b <= |t|
    ensures ([c] + t)[a + 1..b + 1] == t[a..b]
    ensures forall j :: 0 <= j < |t| ==> ([c] + t)[j + 1] == t[j]
  {
  }

  lemma PartByCommas(s: string, a: nat, b: nat)
    requires a <= b <= |s|
    ensures Part(s, a, b) <==> (a == 0 || s[a - 1] == ',') && (b == |s| || s[b] == ',') && ',' !in s[a..b]
  {
    assert forall j :: a <= j < b ==> s[j] == s[a..b][j - a];
  }

  lemma {:induction false} SplitHasParts(s: string, i: nat) returns (a: nat, b: nat)
    requires i < |SplitOnComma(s)|
    ensures Part(s, a, b) && SplitOnComma(s)[i] == s[a..b] && (i > 0 ==> a > 0)
  {
    if i == 0 {
      b := FirstPart(s);
      a := 0;
    } else {
      var t := s[1..];
      assert s == [s[0]] + t;
      var x, y := SplitHasParts(t, if s[0] == ',' then i - 1 else i);
      PartShifts(s[0], t, x, y);
      a, b := x + 1, y + 1;
    }
  }

  lemma {:induction false} PartIsSplit(s: string, a: nat, b: nat) returns (i: nat)
    requires Part(s, a, b)
    ensures i < |SplitOnComma(s)| && SplitOnComma(s)[i] == s[a..b] && (a > 0 ==> i > 0)
  {
    if a == 0 {
      var n := FirstPart(s);
      assert n == b;
      i := 0;
    } else {
      var t := s[1..];
      assert s == [s[0]] + t;
      if a > 1 {
        assert s[a - 1] == t[a - 2];
      }
      PartShifts(s[0], t, a - 1, b - 1);
      var k := PartIsSplit(t, a - 1, b - 1);
      i := if s[0] == ',' then k + 1 else k;
    }
  }

  // --------------------------------------------------------------------- counting

  lemma {:induction false} CountsExactly(parts: seq<string>)
    ensures Counts(parts).None? <==> exists i :: 0 <= i < |parts| && HoldsRefused(parts[i])
    ensures Counts(parts).Some? ==>
      (Counts(parts).value == [] <==> forall i :: 0 <= i < |parts| ==> !HoldsDigits(parts[i]))
  {
    if parts != [] {
      var rest := parts[1..];
      CountsExactly(rest);
      StrippedDigits(parts[0]);
      assert forall i :: 1 <= i < |parts| ==> parts[i] == rest[i - 1];
      if exists i :: 0 <= i < |rest| && HoldsRefused(rest[i]) {
        var j :| 0 <= j < |rest| && HoldsRefused(rest[j]);
        assert HoldsRefused(parts[j + 1]);
      }
    }
  }

  lemma SplitExactly(body: string)
    ensures Counts(SplitOnComma(body)).None? <==> Refused(body)
    ensures Counts(SplitOnComma(body)).Some? ==> (Counts(SplitOnComma(body)).value == [] <==> !Counted(body))
  {
    hide HoldsDigits, HoldsRefused, Counts, SplitOnComma;
    var parts := SplitOnComma(body);
    CountsExactly(parts);
    forall i | 0 <= i < |parts|
      ensures HoldsRefused(parts[i]) ==> Refused(body)
      ensures HoldsDigits(parts[i]) ==> Counted(body)
    {
      var a, b := SplitHasParts(body, i);
    }
    forall a: nat, b: nat | Part(body, a, b) ensures exists i :: 0 <= i < |parts| && parts[i] == body[a..b] {
      var i := PartIsSplit(body, a, b);
    }
  }

  lemma OneClose(t: string, k: nat)
    requires ClosesAt(t, k)
    ensures StandsForItself(t) <==> LiteralTo(t, k)
  {
  }

  /** A brace is a quantifier exactly when it is closed, holds one comma at most, has a part
      made of digits once stripped or is blank, and no such part is refused; it raises
      exactly when it is closed and a part is refused; and otherwise it stands for itself. */
  lemma BraceExactly(s: string)
    requires s != [] && s[0] == '{'
    ensures ReadBrace(s).Raises? <==> exists k: nat :: ClosesAt(s[1..], k) && Refused(s[1..][..k])
    ensures ReadBrace(s).Literal? <==> StandsForItself(s[1..])
    ensures forall k: nat :: CountsAt(s[1..], k) <==> ReadBrace(s).Quantifier? && ReadBrace(s).next == k + 2
  {
    hide Counts, SplitOnComma, Refused, Counted, Blank, OneCommaAtMost, Largest;
    var t := s[1..];
    var k := FindClose(t);
    if k < |t| {
      var body := t[..k];
      assert forall j: nat :: ClosesAt(t, j) <==> j == k;
      SplitExactly(body);
      CommasCount(body);
      StrippedDigits(body);
      assert |SplitOnComma(body)| <= 2 <==> OneCommaAtMost(body);
      assert StandsForItself(t) <==> LiteralTo(t, k) by { OneClose(t, k); }
    }
  }

  /** A number that a part of the body spells. */
  ghost predicate Spells(body: string, n: nat) {
    exists a: nat, b: nat, i: nat, j: nat :: Part(body, a, b) && SpelledAt(body[a..b], i, j, n)
  }

  ghost predicate SpelledAt(p: string, i: nat, j: nat, n: nat) {
    Core(p, i, j) && (forall k :: i <= k < j ==> IsDecimal(p[k])) && DecimalValue(p[i..j]) == n
  }

  lemma {:induction false} LargestExactly(ns: seq<nat>)
    requires ns != []
    ensures Largest(ns) in ns && forall i :: 0 <= i < |ns| ==> ns[i] <= Largest(ns)
  {
    if |ns| > 1 {
      LargestExactly(ns[1..]);
    }
  }

  predicate Converts(p: string, n: nat) {
    IsDigitString(Strip(p)) && AllDecimal(Strip(p)) && DecimalValue(Strip(p)) == n
  }

  lemma {:induction false} CountsAre(parts: seq<string>, n: nat)
    requires Counts(parts).Some?
    ensures n in Counts(parts).value <==> exists i :: 0 <= i < |parts| && Converts(parts[i], n)
  {
    if parts != [] {
      var rest := parts[1..];
      CountsAre(rest, n);
      assert forall i :: 1 <= i < |parts| ==> parts[i] == rest[i - 1];
      if exists i :: 0 <= i < |rest| && Converts(rest[i], n) {
        var j :| 0 <= j < |rest| && Converts(rest[j], n);
        assert Converts(parts[j + 1], n);
      }
      assert n in Counts(parts).value <==> n in Counts(rest).value || Converts(parts[0], n);
    }
  }

  lemma SpelledIsStripped(p: string, n: nat)
    ensures (exists i: nat, j: nat :: SpelledAt(p, i, j, n)) <==> Converts(p, n)
  {
    if exists i: nat, j: nat :: SpelledAt(p, i, j, n) {
      var i: nat, j: nat :| SpelledAt(p, i, j, n);
      CoreIsStripped(p, i, j);
    }
    if Converts(p, n) {
      var a, b := StripExactly(p);
      forall k | a <= k < b ensures IsDigit(p[k]) && IsDecimal(p[k]) {
        assert p[k] == Strip(p)[k - a];
      }
      assert SpelledAt(p, a, b, n);
    }
  }

  /** A quantifier multiplies by the largest number its parts spell, and by one when it is
      blank. */
  lemma FactorExactly(s: string, k: nat)
    requires s != [] && s[0] == '{' && CountsAt(s[1..], k)
    ensures ReadBrace(s).Quantifier?
    ensures var body, factor := s[1..][..k], ReadBrace(s).factor;
      if Counted(body) then Spells(body, factor) && forall n: nat :: Spells(body, n) ==> n <= factor else factor == 1
  {
    BraceExactly(s);
    var body := s[1..][..k];
    var parts := SplitOnComma(body);
    SplitExactly(body);
    hide Counts, SplitOnComma, Counted, Refused, Blank, OneCommaAtMost, Largest, Converts, Spells;
    assert FindClose(s[1..]) == k;
    if Counted(body) {
      var ns := Counts(parts).value;
      LargestExactly(ns);
      forall n: nat ensures n in ns <==> Spells(body, n) {
        CountsAre(parts, n);
        SpellsExactly(body, n);
      }
    }
  }

  lemma SpellsExactly(body: string, n: nat)
    ensures Spells(body, n) <==> exists i :: 0 <= i < |SplitOnComma(body)| && Converts(SplitOnComma(body)[i], n)
  {
    hide SpelledAt, SplitOnComma, Converts;
    if Spells(body, n) {
      var a: nat, b: nat, i: nat, j: nat :| Part(body, a, b) && SpelledAt(body[a..b], i, j, n);
      var k := PartIsSplit(body, a, b);
      SpelledIsStripped(body[a..b], n);
    }
    if exists i :: 0 <= i < |SplitOnComma(body)| && Converts(SplitOnComma(body)[i], n) {
      var k :| 0 <= k < |SplitOnComma(body)| && Converts(SplitOnComma(body)[k], n);
      var a, b := SplitHasParts(body, k);
      SpelledIsStripped(SplitOnComma(body)[k], n);
    }
  }
}
