/** Sorting by an order given as a function, and what a sorted list is determined by. */
module Sorting {
  import opened Sequences

  ghost predicate TotalOrder<T(!new)>(leq: (T, T) -> bool) {
    && (forall x, y :: leq(x, y) || leq(y, x))
    && (forall x, y, z :: leq(x, y) && leq(y, z) ==> leq(x, z))
  }

  /** Among the elements of `s`, ties are between equals only. */
  ghost predicate NoTies<T>(leq: (T, T) -> bool, s: seq<T>) {
    forall x, y :: x in s && y in s && leq(x, y) && leq(y, x) ==> x == y
  }

  ghost predicate NoRepeats<T>(s: seq<T>) {
    forall i, j :: 0 <= i < j < |s| ==> s[i] != s[j]
  }

  ghost predicate SortedBy<T>(leq: (T, T) -> bool, s: seq<T>) {
    forall i, j :: 0 <= i < j < |s| ==> leq(s[i], s[j])
  }

  function Insert<T>(leq: (T, T) -> bool, x: T, s: seq<T>): seq<T> {
    if s == [] then [x]
    else if leq(x, s[0]) then [x] + s
    else [s[0]] + Insert(leq, x, s[1..])
  }

  function Sort<T>(leq: (T, T) -> bool, s: seq<T>): seq<T> {
    if s == [] then [] else Insert(leq, s[0], Sort(leq, s[1..]))
  }

  lemma {:induction false} InsertContents<T>(leq: (T, T) -> bool, x: T, s: seq<T>)
    ensures multiset(Insert(leq, x, s)) == multiset(s) + multiset{x}
    ensures |Insert(leq, x, s)| == |s| + 1
  {
    if s != [] && !leq(x, s[0]) {
      InsertContents(leq, x, s[1..]);
      assert s == [s[0]] + s[1..];
    }
  }

  lemma {:induction false} InsertSorted<T(!new)>(leq: (T, T) -> bool, x: T, s: seq<T>)
    requires TotalOrder(leq) && SortedBy(leq, s)
    ensures SortedBy(leq, Insert(leq, x, s))
  {
    if s != [] && !leq(x, s[0]) {
      InsertSorted(leq, x, s[1..]);
      var r := Insert(leq, x, s[1..]);
      InsertContents(leq, x, s[1..]);
      forall j | 0 <= j < |r| ensures leq(s[0], r[j]) {
        assert r[j] in multiset(r);
        assert r[j] == x || r[j] in s[1..];
      }
    }
  }

  /** Sorting permutes and orders. */
  lemma {:induction false} SortIsSorted<T(!new)>(leq: (T, T) -> bool, s: seq<T>)
    requires TotalOrder(leq)
    ensures SortedBy(leq, Sort(leq, s)) && multiset(Sort(leq, s)) == multiset(s)
  {
    if s != [] {
      SortIsSorted(leq, s[1..]);
      InsertSorted(leq, s[0], Sort(leq, s[1..]));
      InsertContents(leq, s[0], Sort(leq, s[1..]));
      assert s == [s[0]] + s[1..];
    }
  }

  lemma FirstMatches<T(!new)>(leq: (T, T) -> bool, s: seq<T>, t: seq<T>)
    requires TotalOrder(leq) && NoTies(leq, s) && s != [] && t != []
    requires SortedBy(leq, s) && SortedBy(leq, t) && multiset(s) == multiset(t)
    ensures s[0] == t[0]
  {
    FirstLeast(leq, s, t[0]);
    FirstLeast(leq, t, s[0]);
    assert t[0] in multiset(s) && s[0] in multiset(t);
  }

  lemma FirstLeast<T(!new)>(leq: (T, T) -> bool, s: seq<T>, x: T)
    requires TotalOrder(leq) && SortedBy(leq, s) && s != []
    ensures x in multiset(s) ==> leq(s[0], x)
  {
    if x in multiset(s) {
      var i :| 0 <= i < |s| && s[i] == x;
    }
  }

  lemma TailsMatch<T>(s: seq<T>, t: seq<T>)
    requires s != [] && t != [] && s[0] == t[0] && multiset(s) == multiset(t)
    ensures multiset(s[1..]) == multiset(t[1..])
  {
    HeadAndTail(s);
    HeadAndTail(t);
    assert multiset(s[1..]) == multiset(s) - multiset{s[0]};
    assert multiset(t[1..]) == multiset(t) - multiset{t[0]};
  }

  /** Under an order without ties a sorted list is determined by its contents. */
  lemma {:induction false} SortedUnique<T(!new)>(leq: (T, T) -> bool, s: seq<T>, t: seq<T>)
    requires TotalOrder(leq) && NoTies(leq, s)
    requires SortedBy(leq, s) && SortedBy(leq, t) && multiset(s) == multiset(t)
    ensures s == t
  {
    assert |s| == |multiset(s)| == |multiset(t)| == |t|;
    if s != [] {
      FirstMatches(leq, s, t);
      TailsMatch(s, t);
      SortedUnique(leq, s[1..], t[1..]);
      HeadAndTail(s);
      HeadAndTail(t);
    }
  }

  lemma SortDetermined<T(!new)>(leq: (T, T) -> bool, s: seq<T>, t: seq<T>)
    requires TotalOrder(leq) && NoTies(leq, s)
    ensures Sort(leq, s) == Sort(leq, t) <==> multiset(s) == multiset(t)
  {
    SortIsSorted(leq, s);
    SortIsSorted(leq, t);
    if multiset(s) == multiset(t) {
      forall x | x in Sort(leq, s) ensures x in s {
        assert x in multiset(s);
      }
      SortedUnique(leq, Sort(leq, s), Sort(leq, t));
    }
  }

  lemma {:induction false} CountsOnce<T>(s: seq<T>, x: T)
    requires NoRepeats(s)
    ensures multiset(s)[x] == if x in s then 1 else 0
  {
    if s != [] {
      CountsOnce(s[1..], x);
      assert s == [s[0]] + s[1..];
    }
  }

  /** Lists without repeats that hold the same elements hold them equally often. */
  lemma SameElements<T(!new)>(s: seq<T>, t: seq<T>)
    requires NoRepeats(s) && NoRepeats(t) && forall x :: x in s <==> x in t
    ensures multiset(s) == multiset(t)
  {
    forall x: T ensures multiset(s)[x] == multiset(t)[x] {
      CountsOnce(s, x);
      CountsOnce(t, x);
    }
  }

  lemma NoRepeatsByContents<T(!new)>(s: seq<T>, t: seq<T>)
    requires NoRepeats(s) && multiset(s) == multiset(t)
    ensures NoRepeats(t)
  {
    forall i, j | 0 <= i < j < |t| ensures t[i] != t[j] {
      if t[i] == t[j] {
        assert t == t[..j] + [t[j]] + t[j + 1..];
        assert t[..j][i] in multiset(t[..j]);
        assert multiset(t)[t[j]] >= 2;
        CountsOnce(s, t[j]);
        assert false;
      }
    }
  }

  /** Some element, in the arbitrary order a set is walked in. */
  method Pick<T(!new)>(elements: set<T>) returns (x: T)
    requires |elements| > 0
    ensures x in elements
  {
    x :| x in elements;
  }

  lemma SameSet<T(!new)>(a: set<T>, b: set<T>)
    requires forall x :: x in a <==> x in b
    ensures a == b
  {
  }
}
