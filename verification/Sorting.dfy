/** Sorting by an order that is total on the items at hand, and why its result is unique. */
module Sorting {

  ghost predicate Orders<T>(s: seq<T>, leq: (T, T) -> bool) {
    && (forall a, b | a in s && b in s :: leq(a, b) || leq(b, a))
    && (forall a, b | a in s && b in s && leq(a, b) && leq(b, a) :: a == b)
    && (forall a, b, c | a in s && b in s && c in s && leq(a, b) && leq(b, c) :: leq(a, c))
  }

  ghost predicate Ascending<T>(s: seq<T>, leq: (T, T) -> bool) {
    forall i, j | 0 <= i < j < |s| :: leq(s[i], s[j])
  }

  function Insert<T>(e: T, s: seq<T>, leq: (T, T) -> bool): seq<T> {
    if s == [] || leq(e, s[0]) then [e] + s else [s[0]] + Insert(e, s[1..], leq)
  }

  function Sorted<T>(s: seq<T>, leq: (T, T) -> bool): seq<T> {
    if s == [] then [] else Insert(s[0], Sorted(s[1..], leq), leq)
  }

  lemma {:induction false} SortedOne<T>(e: T, leq: (T, T) -> bool)
    ensures Sorted([e], leq) == [e]
  {
    assert [e][1..] == [];
    assert Sorted([], leq) == [] && Insert(e, [], leq) == [e] + [];
  }

  lemma {:induction false} OrdersFewer<T>(s: seq<T>, part: seq<T>, leq: (T, T) -> bool)
    requires Orders(s, leq) && forall x | x in part :: x in s
    ensures Orders(part, leq)
  {
  }

  lemma {:induction false} AscendingCons<T>(e: T, s: seq<T>, leq: (T, T) -> bool)
    requires Ascending(s, leq) && forall x | x in s :: leq(e, x)
    ensures Ascending([e] + s, leq)
  {
    var r := [e] + s;
    forall i, j | 0 <= i < j < |r| ensures leq(r[i], r[j]) {
      assert r[j] == s[j - 1] && s[j - 1] in s;
    }
  }

  lemma {:induction false} TailAscends<T>(s: seq<T>, leq: (T, T) -> bool)
    requires Ascending(s, leq) && s != []
    ensures Ascending(s[1..], leq) && forall x | x in s[1..] :: leq(s[0], x)
    ensures multiset(s) == multiset(s[1..]) + multiset{s[0]}
  {
    var rest := s[1..];
    assert forall i | 0 <= i < |rest| :: rest[i] == s[i + 1];
    assert s == [s[0]] + rest;
  }

  lemma {:induction false} LeastComesFirst<T>(e: T, s: seq<T>, leq: (T, T) -> bool)
    requires Ascending(s, leq) && Orders([e] + s, leq)
    requires s == [] || leq(e, s[0])
    ensures Ascending([e] + s, leq)
  {
    forall x | x in s ensures leq(e, x) {
      TailAscends(s, leq);
      assert s == [s[0]] + s[1..];
      assert x in [e] + s && s[0] in [e] + s && e in [e] + s;
    }
    AscendingCons(e, s, leq);
  }

  lemma {:induction false} GreaterComesLater<T>(e: T, s: seq<T>, tail: seq<T>, leq: (T, T) -> bool)
    requires Ascending(s, leq) && Orders([e] + s, leq) && s != [] && !leq(e, s[0])
    requires Ascending(tail, leq) && multiset(tail) == multiset(s[1..]) + multiset{e}
    ensures Ascending([s[0]] + tail, leq)
  {
    TailAscends(s, leq);
    assert e in [e] + s && s[0] in [e] + s;
    forall x | x in tail ensures leq(s[0], x) {
      assert x in multiset(tail);
      assert x == e || x in s[1..];
    }
    AscendingCons(s[0], tail, leq);
  }

  lemma {:induction false} InsertSorts<T>(e: T, s: seq<T>, leq: (T, T) -> bool)
    requires Ascending(s, leq) && Orders([e] + s, leq)
    ensures Ascending(Insert(e, s, leq), leq)
    ensures multiset(Insert(e, s, leq)) == multiset(s) + multiset{e}
    decreases |s|
  {
    hide Ascending, Orders;
    if s == [] || leq(e, s[0]) {
      LeastComesFirst(e, s, leq);
    } else {
      var rest := s[1..];
      TailAscends(s, leq);
      TailIn(e, s);
      OrdersFewer([e] + s, [e] + rest, leq);
      InsertSorts(e, rest, leq);
      GreaterComesLater(e, s, Insert(e, rest, leq), leq);
    }
  }

  lemma {:induction false} TailIn<T>(e: T, s: seq<T>)
    requires s != []
    ensures forall x | x in [e] + s[1..] :: x in [e] + s
  {
    assert [e] + s == [e, s[0]] + s[1..];
  }

  lemma {:induction false} SortedSorts<T>(s: seq<T>, leq: (T, T) -> bool)
    requires Orders(s, leq)
    ensures Ascending(Sorted(s, leq), leq) && multiset(Sorted(s, leq)) == multiset(s)
    ensures |Sorted(s, leq)| == |s|
    decreases |s|
  {
    if s != [] {
      var rest := s[1..];
      assert s == [s[0]] + rest;
      OrdersFewer(s, rest, leq);
      SortedSorts(rest, leq);
      var tail := Sorted(rest, leq);
      forall x | x in [s[0]] + tail ensures x in s {
        assert x == s[0] || x in multiset(tail);
      }
      OrdersFewer(s, [s[0]] + tail, leq);
      InsertSorts(s[0], tail, leq);
    }
    assert |multiset(Sorted(s, leq))| == |multiset(s)|;
  }

  /** Two ascending arrangements of the same items are equal, whichever algorithm made them. */
  lemma {:induction false} AscendingIsUnique<T>(a: seq<T>, b: seq<T>, leq: (T, T) -> bool)
    requires Orders(a, leq) && Ascending(a, leq) && Ascending(b, leq) && multiset(a) == multiset(b)
    ensures a == b
    decreases |a|
  {
    hide Orders, Ascending;
    assert |multiset(a)| == |a| && |multiset(b)| == |b|;
    if a != [] {
      TailAscends(a, leq);
      TailAscends(b, leq);
      HeadsMeet(a, b, leq);
      OrdersFewer(a, a[1..], leq);
      SameTails(a, b);
      AscendingIsUnique(a[1..], b[1..], leq);
      assert a == [a[0]] + a[1..] && b == [b[0]] + b[1..];
    }
  }

  lemma {:induction false} SameTails<T>(a: seq<T>, b: seq<T>)
    requires a != [] && b != [] && a[0] == b[0] && multiset(a) == multiset(b)
    ensures multiset(a[1..]) == multiset(b[1..])
  {
    assert a == [a[0]] + a[1..] && b == [b[0]] + b[1..];
    assert multiset(a[1..]) == multiset(a) - multiset{a[0]};
    assert multiset(b[1..]) == multiset(b) - multiset{b[0]};
  }

  lemma {:induction false} HeadsMeet<T>(a: seq<T>, b: seq<T>, leq: (T, T) -> bool)
    requires Orders(a, leq) && a != [] && b != [] && multiset(a) == multiset(b)
    requires forall x | x in a[1..] :: leq(a[0], x)
    requires forall x | x in b[1..] :: leq(b[0], x)
    ensures a[0] == b[0]
  {
    assert a[0] in multiset(b) && b[0] in multiset(a);
    assert a[0] == b[0] || (a[0] in b[1..] && b[0] in a[1..]) by {
      assert b == [b[0]] + b[1..] && a == [a[0]] + a[1..];
    }
  }

  /** Sorting does not depend on the order the items come in. */
  lemma {:induction false} SortedIsCanonical<T>(a: seq<T>, b: seq<T>, leq: (T, T) -> bool)
    requires Orders(a, leq) && multiset(a) == multiset(b)
    ensures Sorted(a, leq) == Sorted(b, leq)
  {
    forall x | x in b ensures x in a {
      assert x in multiset(b);
    }
    OrdersFewer(a, b, leq);
    SortedSorts(a, leq);
    SortedSorts(b, leq);
    forall x | x in Sorted(a, leq) ensures x in a {
      assert x in multiset(Sorted(a, leq));
    }
    OrdersFewer(a, Sorted(a, leq), leq);
    AscendingIsUnique(Sorted(a, leq), Sorted(b, leq), leq);
  }

  /** Items already in order are left as they are. */
  lemma {:induction false} AscendingIsSorted<T>(s: seq<T>, leq: (T, T) -> bool)
    requires Orders(s, leq) && Ascending(s, leq)
    ensures Sorted(s, leq) == s
  {
    SortedSorts(s, leq);
    AscendingIsUnique(s, Sorted(s, leq), leq);
  }
}
