/**
 Output policies of projected edges: which duplicates are kept, and in which order edges
 appear.  Texts are their UTF-8 encodings (RFC 3629, section 1), compared byte by byte.
 */
module EdgePolicies {
  import opened Layouts
  import opened Sorting

  type Text = seq<Byte>

  datatype Edge = Edge(source: Text, relation: Text, destination: Text)

  datatype OutputOrder = Canonical | Encounter
  datatype DuplicatePolicy = Preserve | Unique

  // ----- the byte order

  predicate TextLeq(a: Text, b: Text) {
    a == [] || (b != [] && (a[0] < b[0] || (a[0] == b[0] && TextLeq(a[1..], b[1..]))))
  }

  predicate EdgeLeq(a: Edge, b: Edge) {
    if a.source != b.source then TextLeq(a.source, b.source)
    else if a.relation != b.relation then TextLeq(a.relation, b.relation)
    else TextLeq(a.destination, b.destination)
  }

  lemma {:induction false} TextOrder(a: Text, b: Text, c: Text)
    ensures TextLeq(a, a)
    ensures TextLeq(a, b) || TextLeq(b, a)
    ensures TextLeq(a, b) && TextLeq(b, a) ==> a == b
    ensures TextLeq(a, b) && TextLeq(b, c) ==> TextLeq(a, c)
    decreases |a| + |b| + |c|
  {
    if a != [] && b != [] && c != [] {
      TextOrder(a[1..], b[1..], c[1..]);
      assert a == [a[0]] + a[1..] && b == [b[0]] + b[1..];
    } else if a != [] && b != [] {
      TextOrder(a[1..], b[1..], c);
      assert a == [a[0]] + a[1..] && b == [b[0]] + b[1..];
    } else if a != [] {
      TextOrder(a[1..], b, c);
    }
  }

  /** One text is a prefix of the other, or has the smaller byte where they first differ. */
  ghost predicate InByteOrder(a: Text, b: Text) {
    a <= b || exists k | 0 <= k < |a| && k < |b| :: a[..k] == b[..k] && a[k] < b[k]
  }

  lemma {:induction false} TextLeqIsByteOrder(a: Text, b: Text)
    ensures TextLeq(a, b) <==> InByteOrder(a, b)
    decreases |a|
  {
    if a != [] && b != [] && a[0] == b[0] {
      TextLeqIsByteOrder(a[1..], b[1..]);
      assert a == [a[0]] + a[1..] && b == [b[0]] + b[1..];
      if k :| 0 <= k < |a| && k < |b| && a[..k] == b[..k] && a[k] < b[k] {
        assert k > 0 && a[1..][..k - 1] == a[..k][1..] == b[..k][1..] == b[1..][..k - 1];
      }
      if k :| 0 <= k < |a| - 1 && k < |b| - 1 && a[1..][..k] == b[1..][..k] && a[1..][k] < b[1..][k] {
        assert a[..k + 1] == [a[0]] + a[1..][..k] && b[..k + 1] == [b[0]] + b[1..][..k];
        assert a[..k + 1] == b[..k + 1] && a[k + 1] < b[k + 1];
      }
    } else if a != [] && b != [] && a[0] < b[0] {
      assert a[..0] == b[..0];
    }
  }

  /** The first of source, relation and destination in which two edges differ decides. */
  ghost predicate EdgesInByteOrder(a: Edge, b: Edge) {
    || (a.source != b.source && InByteOrder(a.source, b.source))
    || (a.source == b.source && a.relation != b.relation && InByteOrder(a.relation, b.relation))
    || (a.source == b.source && a.relation == b.relation && InByteOrder(a.destination, b.destination))
  }

  lemma {:induction false} EdgeLeqIsByteOrder(a: Edge, b: Edge)
    ensures EdgeLeq(a, b) <==> EdgesInByteOrder(a, b)
  {
    TextLeqIsByteOrder(a.source, b.source);
    TextLeqIsByteOrder(a.relation, b.relation);
    TextLeqIsByteOrder(a.destination, b.destination);
  }

  /** The order of edges is total, so an ascending arrangement of edges is unique. */
  lemma {:induction false} EdgeOrder(a: Edge, b: Edge, c: Edge)
    ensures EdgeLeq(a, a)
    ensures EdgeLeq(a, b) || EdgeLeq(b, a)
    ensures EdgeLeq(a, b) && EdgeLeq(b, a) ==> a == b
    ensures EdgeLeq(a, b) && EdgeLeq(b, c) ==> EdgeLeq(a, c)
  {
    TextOrder(a.source, b.source, c.source);
    TextOrder(a.relation, b.relation, c.relation);
    TextOrder(a.destination, b.destination, c.destination);
  }

  lemma {:induction false} EdgesAreOrdered(s: seq<Edge>)
    ensures Orders(s, EdgeLeq)
  {
    forall a, b | a in s && b in s ensures EdgeLeq(a, b) || EdgeLeq(b, a) {
      EdgeOrder(a, b, a);
    }
    forall a, b | a in s && b in s && EdgeLeq(a, b) && EdgeLeq(b, a) ensures a == b {
      EdgeOrder(a, b, a);
    }
    forall a, b, c | a in s && b in s && c in s && EdgeLeq(a, b) && EdgeLeq(b, c) ensures EdgeLeq(a, c) {
      EdgeOrder(a, b, c);
    }
  }

  // ----- duplicates

  /** Every edge at its first occurrence. */
  function Distinct(s: seq<Edge>): seq<Edge> {
    if s == [] then [] else
      var init, last := s[..|s| - 1], s[|s| - 1];
      if last in init then Distinct(init) else Distinct(init) + [last]
  }

  function Kept(policy: DuplicatePolicy, s: seq<Edge>): seq<Edge> {
    if policy.Preserve? then s else Distinct(s)
  }

  function Members(s: seq<Edge>): set<Edge> {
    set e | e in s
  }

  lemma {:induction false} DistinctIsOnce(s: seq<Edge>)
    ensures Members(Distinct(s)) == Members(s)
    ensures forall i, j | 0 <= i < j < |Distinct(s)| :: Distinct(s)[i] != Distinct(s)[j]
    ensures |Members(s)| == |Distinct(s)| <= |s|
    decreases |s|
  {
    if s != [] {
      var init, last := s[..|s| - 1], s[|s| - 1];
      DistinctIsOnce(init);
      assert s == init + [last];
      assert Members(s) == Members(init) + {last};
      assert last in init <==> last in Members(init);
      if last in init {
        assert Members(s) == Members(init);
      } else {
        assert Members(Distinct(init) + [last]) == Members(Distinct(init)) + {last};
        assert last !in Members(Distinct(init));
      }
    } else {
      assert Members(s) == {};
    }
  }

  /** Feeding more edges only appends to what is kept. */
  lemma {:induction false} KeptAppend(policy: DuplicatePolicy, s: seq<Edge>, e: Edge)
    ensures Kept(policy, s + [e]) ==
      Kept(policy, s) + if policy.Preserve? || e !in s then [e] else []
  {
    assert (s + [e])[..|s|] == s;
  }

  /** What the whole input comes out as. */
  function Policy(order: OutputOrder, duplicates: DuplicatePolicy, s: seq<Edge>): seq<Edge> {
    if order.Encounter? then Kept(duplicates, s) else Sorted(Kept(duplicates, s), EdgeLeq)
  }

  /** The canonical output is what was kept, in byte order. */
  lemma {:induction false} CanonicalIsInByteOrder(duplicates: DuplicatePolicy, s: seq<Edge>)
    ensures var edges := Policy(Canonical, duplicates, s);
      && multiset(edges) == multiset(Kept(duplicates, s))
      && forall i, j | 0 <= i < j < |edges| :: EdgesInByteOrder(edges[i], edges[j])
  {
    hide EdgesInByteOrder, EdgeLeq, Distinct;
    var kept := Kept(duplicates, s);
    EdgesAreOrdered(kept);
    SortedSorts(kept, EdgeLeq);
    var edges := Policy(Canonical, duplicates, s);
    forall i, j | 0 <= i < j < |edges| ensures EdgesInByteOrder(edges[i], edges[j]) {
      EdgeLeqIsByteOrder(edges[i], edges[j]);
    }
  }

  /** An edge is kept where it comes first: kept edges come in the order of their first occurrences. */
  ghost predicate FirstAt(s: seq<Edge>, e: Edge, i: nat) {
    i < |s| && s[i] == e && e !in s[..i]
  }

  lemma {:induction false} DistinctKeepsFirst(s: seq<Edge>, j: nat, k: nat) returns (a: nat, b: nat)
    requires j < k < |Distinct(s)|
    ensures FirstAt(s, Distinct(s)[j], a) && FirstAt(s, Distinct(s)[k], b) && a < b
    decreases |s|
  {
    var init, last := s[..|s| - 1], s[|s| - 1];
    if k < |Distinct(init)| {
      a, b := DistinctKeepsFirst(init, j, k);
      FirstStays(s, Distinct(init)[k], b);
    } else {
      b := |s| - 1;
      DistinctIsOnce(init);
      assert Distinct(init)[j] in Members(Distinct(init));
      a := FirstOf(init, Distinct(init)[j]);
    }
    FirstStays(s, Distinct(init)[j], a);
  }

  lemma {:induction false} FirstOf(s: seq<Edge>, e: Edge) returns (i: nat)
    requires e in s
    ensures FirstAt(s, e, i)
    decreases |s|
  {
    if e in s[..|s| - 1] {
      i := FirstOf(s[..|s| - 1], e);
      FirstStays(s, e, i);
    } else {
      i := |s| - 1;
    }
  }

  lemma {:induction false} FirstStays(s: seq<Edge>, e: Edge, i: nat)
    requires s != [] && FirstAt(s[..|s| - 1], e, i)
    ensures FirstAt(s, e, i)
  {
    assert s[..|s| - 1][..i] == s[..i];
  }

  function Reversed(s: seq<Edge>): (r: seq<Edge>)
    ensures |r| == |s|
    ensures forall i | 0 <= i < |s| :: r[i] == s[|s| - 1 - i]
  {
    if s == [] then [] else [s[|s| - 1]] + Reversed(s[..|s| - 1])
  }
}
