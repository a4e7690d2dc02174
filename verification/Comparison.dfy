/** What counts as a difference between the two sides of an environment comparison:
    the normal form of a subsystem's hosts, and the dimensions compared. */
module Comparison {
  import opened Options
  import opened Sorting

  /** One host a subsystem runs on: its component type and its role there. */
  datatype Host = Host(kind: string, role: Option<string>)

  datatype Entry = Entry(host: Host, count: nat)

  // ----------------------------------------------------------------- string order

  /** Strings compare character by character, a prefix first. */
  predicate StringLeq(s: string, t: string) {
    s == "" || (t != "" && (s[0] < t[0] || (s[0] == t[0] && StringLeq(s[1..], t[1..]))))
  }

  lemma {:induction false} StringTotal(s: string, t: string)
    ensures StringLeq(s, t) || StringLeq(t, s)
    ensures StringLeq(s, t) && StringLeq(t, s) ==> s == t
  {
    if s != "" && t != "" && s[0] == t[0] {
      StringTotal(s[1..], t[1..]);
      assert s == [s[0]] + s[1..] && t == [t[0]] + t[1..];
    }
  }

  lemma {:induction false} StringTransitive(s: string, t: string, u: string)
    requires StringLeq(s, t) && StringLeq(t, u)
    ensures StringLeq(s, u)
  {
    if s != "" && s[0] == t[0] == u[0] {
      StringTransitive(s[1..], t[1..], u[1..]);
    }
  }

  lemma StringOrder()
    ensures TotalOrder(StringLeq)
    ensures forall s, t :: StringLeq(s, t) && StringLeq(t, s) ==> s == t
  {
    forall s, t
      ensures StringLeq(s, t) || StringLeq(t, s)
      ensures StringLeq(s, t) && StringLeq(t, s) ==> s == t
    {
      StringTotal(s, t);
    }
    forall s, t, u | StringLeq(s, t) && StringLeq(t, u) ensures StringLeq(s, u) {
      StringTransitive(s, t, u);
    }
  }

  // ------------------------------------------------------------------- host shapes

  function RoleText(h: Host): string {
    if h.role.Some? then h.role.value else ""
  }

  /** The sort key: type, then whether the role is absent, then the role. */
  predicate KeyLeq(x: Entry, y: Entry) {
    if x.host.kind != y.host.kind then StringLeq(x.host.kind, y.host.kind)
    else if x.host.role.None? != y.host.role.None? then y.host.role.None?
    else StringLeq(RoleText(x.host), RoleText(y.host))
  }

  /** Ties in the key are between entries for the same host: an absent role and an
      empty one cannot tie. */
  lemma KeyOrder()
    ensures TotalOrder(KeyLeq)
    ensures forall x, y :: KeyLeq(x, y) && KeyLeq(y, x) ==> x.host == y.host
  {
    StringOrder();
  }

  /** Counting one more: the host's entry grows in place, or a new one goes last. */
  function Bump(counts: seq<Entry>, h: Host): seq<Entry> {
    if counts == [] then [Entry(h, 1)]
    else if counts[0].host == h then [Entry(h, counts[0].count + 1)] + counts[1..]
    else [counts[0]] + Bump(counts[1..], h)
  }

  function Tally(hosts: seq<Host>): seq<Entry> {
    if hosts == [] then [] else Bump(Tally(hosts[..|hosts| - 1]), hosts[|hosts| - 1])
  }

  function HostShape(hosts: seq<Host>): seq<Entry> {
    Sort(KeyLeq, Tally(hosts))
  }

  function CountOf(counts: seq<Entry>, h: Host): nat {
    if counts == [] then 0 else if counts[0].host == h then counts[0].count else CountOf(counts[1..], h)
  }

  ghost predicate OneEach(counts: seq<Entry>) {
    && (forall i, j :: 0 <= i < j < |counts| ==> counts[i].host != counts[j].host)
    && (forall i :: 0 <= i < |counts| ==> counts[i].count > 0)
  }

  lemma {:induction false} BumpCounts(counts: seq<Entry>, h: Host)
    requires OneEach(counts)
    ensures OneEach(Bump(counts, h))
    ensures forall e :: e in Bump(counts, h) ==> e.host == h || exists f :: f in counts && f.host == e.host
    ensures forall g :: CountOf(Bump(counts, h), g) == CountOf(counts, g) + if g == h then 1 else 0
  {
    if counts != [] {
      var rest := counts[1..];
      BumpCounts(rest, h);
      if counts[0].host != h {
        var r := Bump(rest, h);
        forall i | 0 <= i < |r| ensures r[i].host != counts[0].host {
          assert r[i] in r;
        }
        assert Bump(counts, h)[1..] == r;
      } else {
        AbsentCounts(rest, h);
        assert Bump(counts, h)[1..] == rest;
      }
    }
  }

  lemma {:induction false} AbsentCounts(counts: seq<Entry>, h: Host)
    requires forall i :: 0 <= i < |counts| ==> counts[i].host != h
    ensures CountOf(counts, h) == 0
  {
    if counts != [] {
      AbsentCounts(counts[1..], h);
    }
  }

  lemma {:induction false} EntryIffCounted(counts: seq<Entry>, e: Entry)
    requires OneEach(counts)
    ensures e in counts <==> e.count > 0 && CountOf(counts, e.host) == e.count
  {
    if counts != [] {
      EntryIffCounted(counts[1..], e);
      if counts[0].host == e.host {
        AbsentCounts(counts[1..], e.host);
      }
      assert counts == [counts[0]] + counts[1..];
    }
  }

  /** A tally holds each host's multiplicity, once. */
  lemma {:induction false} TallyCounts(hosts: seq<Host>)
    ensures OneEach(Tally(hosts))
    ensures forall h :: CountOf(Tally(hosts), h) == multiset(hosts)[h]
  {
    if hosts != [] {
      var front, h := hosts[..|hosts| - 1], hosts[|hosts| - 1];
      TallyCounts(front);
      BumpCounts(Tally(front), h);
      assert hosts == front + [h];
    }
  }

  lemma {:induction false} TallyEntry(hosts: seq<Host>, e: Entry)
    ensures e in Tally(hosts) <==> e.count > 0 && multiset(hosts)[e.host] == e.count
  {
    TallyCounts(hosts);
    EntryIffCounted(Tally(hosts), e);
  }

  /** Two subsystems have the same shape exactly when they run on the same hosts,
      counted by type and role: whatever order the rows come in, and telling an
      absent role from an empty one. */
  lemma ShapeIsMultiset(xs: seq<Host>, ys: seq<Host>)
    ensures HostShape(xs) == HostShape(ys) <==> multiset(xs) == multiset(ys)
  {
    var s, t := Tally(xs), Tally(ys);
    KeyOrder();
    TallyCounts(xs);
    TallyCounts(ys);
    assert NoTies(KeyLeq, s);
    SortDetermined(KeyLeq, s, t);
    if multiset(xs) == multiset(ys) {
      forall e ensures e in s <==> e in t {
        TallyEntry(xs, e);
        TallyEntry(ys, e);
      }
      SameElements(s, t);
    }
    if multiset(s) == multiset(t) {
      forall h: Host ensures multiset(xs)[h] == multiset(ys)[h] {
        SameCount(s, t, h);
      }
    }
  }

  lemma SameCount(s: seq<Entry>, t: seq<Entry>, h: Host)
    requires OneEach(s) && OneEach(t) && multiset(s) == multiset(t)
    ensures CountOf(s, h) == CountOf(t, h)
  {
    var x, y := Entry(h, CountOf(s, h)), Entry(h, CountOf(t, h));
    EntryIffCounted(s, x);
    EntryIffCounted(t, x);
    EntryIffCounted(s, y);
    EntryIffCounted(t, y);
    assert x in s <==> x in multiset(s);
    assert x in t <==> x in multiset(t);
    assert y in s <==> y in multiset(s);
    assert y in t <==> y in multiset(t);
  }

  // ------------------------------------------------------------------- dimensions

  datatype Presence = Both | LeftOnly | RightOnly

  datatype Kind = PresenceDiffers | MockedDiffers | VersionDiffers | HostShapeDiffers

  /** Everything comparable about one subsystem in one environment. */
  datatype Side = Side(
    name: string, systemId: int, systemName: string,
    mocked: bool, mockNotes: Option<string>, version: Option<string>, hostShape: seq<Entry>)

  /** The dimensions that differ, in their fixed order; nothing when the caller says
      both sides are present and one is not, which the program raises as an error. */
  function DifferenceKinds(presence: Presence, left: Option<Side>, right: Option<Side>): Option<seq<Kind>> {
    if presence != Both then Some([PresenceDiffers])
    else if left.None? || right.None? then None
    else
      var l, r := left.value, right.value;
      Some(
        (if l.mocked != r.mocked then [MockedDiffers] else [])
        + (if l.version != r.version then [VersionDiffers] else [])
        + (if l.hostShape != r.hostShape then [HostShapeDiffers] else []))
  }

  function PresenceOf(inLeft: bool, inRight: bool): Presence {
    if inLeft && inRight then Both else if inLeft then LeftOnly else RightOnly
  }

  /** With the presence the service computes, the error cannot happen, nothing differs
      exactly when both sides are there and alike, and the list is the same whichever
      side is called left. */
  lemma DifferencesMeaning(left: Option<Side>, right: Option<Side>)
    requires left.Some? || right.Some?
    ensures var d := DifferenceKinds(PresenceOf(left.Some?, right.Some?), left, right);
      && d.Some?
      && d == DifferenceKinds(PresenceOf(right.Some?, left.Some?), right, left)
      && (PresenceDiffers in d.value <==> left.Some? != right.Some?)
      && (PresenceDiffers in d.value ==> |d.value| == 1)
      && (d.value == [] <==>
        left.Some? && right.Some? && left.value.mocked == right.value.mocked
        && left.value.version == right.value.version && left.value.hostShape == right.value.hostShape)
  {
  }
}
