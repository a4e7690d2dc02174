/** Characters as Python classifies them, and `str.strip`. */
module Text {
  /** White space, the characters `str.isdigit` accepts, and the digits `int` converts,
      with their values. */
  datatype Classes = Classes(spaces: set<char>, digits: set<char>, values: map<char, nat>)

  predicate LatinSpace(c: char) {
    var n := c as int;
    9 <= n <= 13 || 28 <= n <= 32 || n == 133 || n == 160
  }

  predicate AsciiDigit(c: char) {
    '0' <= c <= '9'
  }

  /** Superscript one, two and three. */
  predicate LatinSuperscript(c: char) {
    var n := c as int;
    n == 178 || n == 179 || n == 185
  }

  /** What Unicode promises of every classification, and what it says up to U+00FF. */
  ghost predicate Standard(u: Classes) {
    && (forall c :: c in u.values ==> c in u.digits && u.values[c] <= 9)
    && (forall c :: c in u.spaces ==> c !in u.digits)
    && (forall c :: c as int <= 255 ==> (c in u.spaces <==> LatinSpace(c)))
    && (forall c :: c as int <= 255 ==> (c in u.digits <==> AsciiDigit(c) || LatinSuperscript(c)))
    && (forall c :: c as int <= 255 ==> (c in u.values <==> AsciiDigit(c)))
    && forall c :: AsciiDigit(c) && c in u.values ==> u.values[c] == c as int - '0' as int
  }

  const LATIN1: Classes := Classes(
    set c: char | c as int <= 255 && LatinSpace(c),
    set c: char | c as int <= 255 && (AsciiDigit(c) || LatinSuperscript(c)),
    map c: char | AsciiDigit(c) :: c as int - '0' as int)

  type Unicode = u: Classes | Standard(u) witness LATIN1

  /** Any classification there may be: nothing more is known of it. */
  const UNICODE: Unicode

  predicate IsSpace(c: char) {
    c in UNICODE.spaces
  }

  predicate IsDigit(c: char) {
    c in UNICODE.digits
  }

  predicate IsDecimal(c: char) {
    c in UNICODE.values
  }

  function Strip(s: string): string {
    if s == [] then []
    else if IsSpace(s[0]) then Strip(s[1..])
    else if IsSpace(s[|s| - 1]) then Strip(s[..|s| - 1])
    else s
  }
}
