/**
 What the role maps hold after a list of role axioms, said of the axioms alone: who named a
 property last, and what had been recorded before.
 */
module RoleLaws {
  import opened Wrappers
  import opened Layouts
  import opened Sorting
  import opened EdgePolicies
  import opened Axioms

  // ----- what single axioms name

  /** A property or the inverse of one has the name of the property. */
  predicate IsNamed(p: PropertyExpr, iri: Iri) {
    p == ObjectProperty(iri) || p == InverseOf(iri)
  }

  ghost predicate SubOf(a: Axiom, s: Iri, t: Iri) {
    a.body.SubProperty? && IsNamed(a.body.subProperty, s) && IsNamed(a.body.superProperty, t)
  }

  ghost predicate NamesSuper(a: Axiom, t: Iri) {
    exists s :: SubOf(a, s, t)
  }

  ghost predicate InversesOf(a: Axiom, x: Iri, y: Iri) {
    && a.body.InverseProperties?
    && ((IsNamed(a.body.first, x) && IsNamed(a.body.second, y)) ||
        (IsNamed(a.body.first, y) && IsNamed(a.body.second, x)))
  }

  ghost predicate NamesInverse(a: Axiom, x: Iri) {
    exists y :: InversesOf(a, x, y)
  }

  lemma {:induction false} NameIsNamed(p: PropertyExpr, iri: Iri)
    ensures PropertyName(p) == Some(iri) <==> IsNamed(p, iri)
    ensures PropertyName(p).None? <==> p.OtherProperty?
  {
  }

  // ----- the last axiom that names a property

  ghost predicate LastSuper(rbox: seq<Axiom>, n: nat, t: Iri, k: nat)
    requires n <= |rbox|
  {
    k < n && NamesSuper(rbox[k], t) && forall j | k < j < n :: !NamesSuper(rbox[j], t)
  }

  ghost predicate NoSuper(rbox: seq<Axiom>, n: nat, t: Iri)
    requires n <= |rbox|
  {
    forall j | 0 <= j < n :: !NamesSuper(rbox[j], t)
  }

  function Recorded(subroles: map<Iri, seq<Iri>>, t: Iri): seq<Iri> {
    if t in subroles then subroles[t] else []
  }

  lemma {:induction false} OneMoreRole(start: Roles, rbox: seq<Axiom>, n: nat)
    requires n < |rbox|
    ensures UpdateRoles(start, rbox[..n + 1]) == UpdateRole(UpdateRoles(start, rbox[..n]), rbox[n])
  {
    assert rbox[..n + 1][..n] == rbox[..n];
  }

  lemma {:induction false} SubroleStep(roles: Roles, a: Axiom, t: Iri)
    ensures !NamesSuper(a, t) ==>
      && (t in UpdateRole(roles, a).subroles <==> t in roles.subroles)
      && Recorded(UpdateRole(roles, a).subroles, t) == Recorded(roles.subroles, t)
    ensures forall s | SubOf(a, s, t) ::
      && t in UpdateRole(roles, a).subroles
      && Recorded(UpdateRole(roles, a).subroles, t) == [s] + Recorded(roles.subroles, s)
  {
    if a.body.SubProperty? {
      var sub, sup := a.body.subProperty, a.body.superProperty;
      if PropertyName(sub).Some? && PropertyName(sup) == Some(t) {
        assert SubOf(a, PropertyName(sub).value, t);
      }
    }
  }

  /**
   What is recorded for a property after `n` role axioms is the sub-property of the last
   axiom that named the property, followed by what was recorded for that sub-property just
   before; a property that no axiom named keeps what it had.
   */
  lemma {:induction false} SubrolesAfter(start: Roles, rbox: seq<Axiom>, n: nat, t: Iri)
    requires n <= |rbox|
    ensures NoSuper(rbox, n, t) ==>
      var after := UpdateRoles(start, rbox[..n]).subroles;
      (t in after <==> t in start.subroles) && Recorded(after, t) == Recorded(start.subroles, t)
    ensures forall k, s | 0 <= k < n && LastSuper(rbox, n, t, k) && SubOf(rbox[k], s, t) ::
      LedBy(start, rbox, n, t, k, s)
  {
    if n > 0 {
      var last := rbox[n - 1];
      SubrolesAfter(start, rbox, n - 1, t);
      OneMoreRole(start, rbox, n - 1);
      SubroleStep(UpdateRoles(start, rbox[..n - 1]), last, t);
      forall k, s | 0 <= k < n && LastSuper(rbox, n, t, k) && SubOf(rbox[k], s, t)
        ensures LedBy(start, rbox, n, t, k, s)
      {
        if k < n - 1 {
          assert LastSuper(rbox, n - 1, t, k);
          assert LedBy(start, rbox, n - 1, t, k, s);
        }
      }
    }
  }

  /** After `n` axioms `t` has the sub-property `s` of axiom `k`, and behind it what `s` had before. */
  ghost predicate LedBy(start: Roles, rbox: seq<Axiom>, n: nat, t: Iri, k: nat, s: Iri)
    requires k <= |rbox| && n <= |rbox|
  {
    var after := UpdateRoles(start, rbox[..n]).subroles;
    t in after && after[t] == [s] + Recorded(UpdateRoles(start, rbox[..k]).subroles, s)
  }

  // ----- the same without any maps in between

  /** The chain of sub-properties of a property: each one's axiom is the last one before the previous one's. */
  ghost predicate Lineage(start: map<Iri, seq<Iri>>, rbox: seq<Axiom>, n: nat, t: Iri, children: seq<Iri>)
    requires n <= |rbox|
    decreases n
  {
    || (NoSuper(rbox, n, t) && children == if t in start then start[t] else [])
    || (children != [] && exists k | 0 <= k < n ::
          && LastSuper(rbox, n, t, k) && SubOf(rbox[k], children[0], t)
          && Lineage(start, rbox, k, children[0], children[1..]))
  }

  lemma {:induction false} LastSuperExists(rbox: seq<Axiom>, n: nat, t: Iri) returns (k: nat)
    requires n <= |rbox| && !NoSuper(rbox, n, t)
    ensures LastSuper(rbox, n, t, k)
  {
    if NamesSuper(rbox[n - 1], t) {
      k := n - 1;
    } else {
      k := LastSuperExists(rbox, n - 1, t);
    }
  }

  lemma {:induction false} SubIsOne(a: Axiom, s: Iri, other: Iri, t: Iri)
    requires SubOf(a, s, t) && SubOf(a, other, t)
    ensures s == other
  {
  }

  /** The recorded sub-properties are exactly that chain. */
  lemma {:induction false} RecordedIsLineage(start: Roles, rbox: seq<Axiom>, n: nat, t: Iri, children: seq<Iri>)
    requires n <= |rbox|
    ensures Lineage(start.subroles, rbox, n, t, children) <==>
      children == Recorded(UpdateRoles(start, rbox[..n]).subroles, t)
    decreases n
  {
    hide SubOf, NamesSuper;
    SubrolesAfter(start, rbox, n, t);
    if !NoSuper(rbox, n, t) {
      var k := LastSuperExists(rbox, n, t);
      var s := SubNamed(rbox[k], t);
      assert LedBy(start, rbox, n, t, k, s);
      var before := Recorded(UpdateRoles(start, rbox[..k]).subroles, s);
      assert ([s] + before)[1..] == before;
      RecordedIsLineage(start, rbox, k, s, Recorded(UpdateRoles(start, rbox[..k]).subroles, s));
      if Lineage(start.subroles, rbox, n, t, children) {
        var j :| 0 <= j < n && LastSuper(rbox, n, t, j) && SubOf(rbox[j], children[0], t)
          && Lineage(start.subroles, rbox, j, children[0], children[1..]);
        assert j == k;
        SubIsOne(rbox[k], s, children[0], t);
        RecordedIsLineage(start, rbox, k, s, children[1..]);
        assert children == [s] + children[1..];
      }
    }
  }

  lemma {:induction false} SubNamed(a: Axiom, t: Iri) returns (s: Iri)
    requires NamesSuper(a, t)
    ensures SubOf(a, s, t)
  {
    s :| SubOf(a, s, t);
  }

  // ----- inverses

  ghost predicate LastInverse(rbox: seq<Axiom>, n: nat, x: Iri, k: nat)
    requires n <= |rbox|
  {
    k < n && NamesInverse(rbox[k], x) && forall j | k < j < n :: !NamesInverse(rbox[j], x)
  }

  ghost predicate NoInverse(rbox: seq<Axiom>, n: nat, x: Iri)
    requires n <= |rbox|
  {
    forall j | 0 <= j < n :: !NamesInverse(rbox[j], x)
  }

  lemma {:induction false} InverseStep(roles: Roles, a: Axiom, x: Iri)
    ensures var after := UpdateRole(roles, a).inverses;
      && (!NamesInverse(a, x) ==>
            && (x in after <==> x in roles.inverses)
            && (x in after ==> after[x] == roles.inverses[x]))
      && forall y | InversesOf(a, x, y) :: x in after && after[x] == y
  {
    if a.body.InverseProperties? {
      var first, second := a.body.first, a.body.second;
      if PropertyName(first) == Some(x) && PropertyName(second).Some? {
        assert InversesOf(a, x, PropertyName(second).value);
      }
      if PropertyName(second) == Some(x) && PropertyName(first).Some? {
        assert InversesOf(a, x, PropertyName(first).value);
      }
    }
  }

  /** The inverse of a property is its partner in the last axiom that named it, whichever way round. */
  lemma {:induction false} InversesAfter(start: Roles, rbox: seq<Axiom>, n: nat, x: Iri)
    requires n <= |rbox|
    ensures var after := UpdateRoles(start, rbox[..n]).inverses;
      && (NoInverse(rbox, n, x) ==>
            && (x in after <==> x in start.inverses)
            && (x in after ==> after[x] == start.inverses[x]))
      && forall k, y | 0 <= k < n && LastInverse(rbox, n, x, k) && InversesOf(rbox[k], x, y) :: x in after && after[x] == y
  {
    if n > 0 {
      InversesAfter(start, rbox, n - 1, x);
      OneMoreRole(start, rbox, n - 1);
      InverseStep(UpdateRoles(start, rbox[..n - 1]), rbox[n - 1], x);
      var after := UpdateRoles(start, rbox[..n]).inverses;
      forall k, y | 0 <= k < n && LastInverse(rbox, n, x, k) && InversesOf(rbox[k], x, y) ensures x in after && after[x] == y {
        if k < n - 1 {
          assert LastInverse(rbox, n - 1, x, k);
        }
      }
    }
  }

  // ----- axioms without names

  ghost predicate Nameless(a: Axiom) {
    || (a.body.SubProperty? && (a.body.subProperty.OtherProperty? || a.body.superProperty.OtherProperty?))
    || (a.body.InverseProperties? && (a.body.first.OtherProperty? || a.body.second.OtherProperty?))
  }

  ghost function NamelessAt(rbox: seq<Axiom>): set<nat> {
    set k | 0 <= k < |rbox| && Nameless(rbox[k])
  }

  lemma {:induction false} OneMoreNameless(rbox: seq<Axiom>)
    requires rbox != []
    ensures |NamelessAt(rbox)| == |NamelessAt(rbox[..|rbox| - 1])| + if Nameless(rbox[|rbox| - 1]) then 1 else 0
  {
    hide Nameless;
    var last := |rbox| - 1;
    assert NamelessAt(rbox) ==
      if Nameless(rbox[last]) then NamelessAt(rbox[..last]) + {last} else NamelessAt(rbox[..last]);
  }

  lemma {:induction false} NamelessIsUnnamed(a: Axiom)
    ensures UnnamedRole(a) <==> Nameless(a)
  {
  }

  /** Role axioms with a property that has no name are counted, each once. */
  lemma {:induction false} NamelessAreCounted(rbox: seq<Axiom>)
    ensures UnnamedRoles(rbox) == |NamelessAt(rbox)|
    decreases |rbox|
  {
    hide Nameless, UnnamedRole;
    if rbox != [] {
      NamelessAreCounted(rbox[..|rbox| - 1]);
      OneMoreNameless(rbox);
      NamelessIsUnnamed(rbox[|rbox| - 1]);
    } else {
      assert NamelessAt(rbox) == {};
    }
  }

  ghost function NamelessOf(s: seq<Axiom>): (all: multiset<Axiom>)
    ensures forall a :: all[a] == if Nameless(a) then multiset(s)[a] else 0
  {
    if s == [] then multiset{} else
      var last := s[|s| - 1];
      assert s == s[..|s| - 1] + [last];
      NamelessOf(s[..|s| - 1]) + if Nameless(last) then multiset{last} else multiset{}
  }

  lemma {:induction false} NamelessSize(s: seq<Axiom>)
    ensures |NamelessOf(s)| == UnnamedRoles(s)
    decreases |s|
  {
    hide Nameless, UnnamedRole;
    if s != [] {
      NamelessSize(s[..|s| - 1]);
      NamelessIsUnnamed(s[|s| - 1]);
    }
  }

  /** How many there are does not depend on the order. */
  lemma {:induction false} NamelessInAnyOrder(s: seq<Axiom>, t: seq<Axiom>)
    requires forall a | Nameless(a) :: multiset(s)[a] == multiset(t)[a]
    ensures UnnamedRoles(s) == UnnamedRoles(t)
  {
    hide Nameless, UnnamedRoles;
    NamelessSize(s);
    NamelessSize(t);
    assert NamelessOf(s) == NamelessOf(t);
  }

  // ----- the emulated hash order

  /** The table size is the least power of two, from 16 on, that is not filled beyond three quarters. */
  lemma {:induction false} CapacityIsLeast(count: nat, capacity: nat) returns (doublings: nat)
    requires capacity > 0 && (capacity % 2 == 0)
    ensures Capacity(count, capacity) == capacity * Doubled(doublings)
    ensures 4 * count <= 3 * Capacity(count, capacity)
    ensures doublings > 0 ==> 4 * count > 3 * (Capacity(count, capacity) / 2)
    decreases 2 * count - capacity
  {
    if count > capacity * 3 / 4 {
      doublings := CapacityIsLeast(count, 2 * capacity);
      assert capacity * Doubled(doublings + 1) == 2 * capacity * Doubled(doublings);
      if doublings == 0 {
        assert Capacity(count, capacity) == 2 * capacity;
      }
      doublings := doublings + 1;
    } else {
      doublings := 0;
    }
  }

  function Doubled(n: nat): nat {
    if n == 0 then 1 else 2 * Doubled(n - 1)
  }

  /** Earlier axioms lie in lower buckets; within one, hashes ascend, and within those, encodings. */
  ghost predicate InHashOrder(capacity: nat, a: Axiom, b: Axiom)
    requires capacity > 0
  {
    || a.spread % capacity < b.spread % capacity
    || (a.spread % capacity == b.spread % capacity && a.spread < b.spread)
    || (a.spread == b.spread && InByteOrder(a.canonical, b.canonical))
  }

  /** The order in which role axioms are applied. */
  lemma {:induction false} HashOrderIsByBucket(s: seq<Axiom>)
    requires Identified(s)
    ensures var ordered, capacity := HashOrder(s), Capacity(|s|, 16);
      && multiset(ordered) == multiset(s)
      && forall i, j | 0 <= i < j < |ordered| :: InHashOrder(capacity, ordered[i], ordered[j])
  {
    var capacity := Capacity(|s|, 16);
    var leq := (a, b) => HashLeq(capacity, a, b);
    HashOrders(s, capacity);
    SortedSorts(s, leq);
    var ordered := HashOrder(s);
    forall i, j | 0 <= i < j < |ordered| ensures InHashOrder(capacity, ordered[i], ordered[j]) {
      assert leq(ordered[i], ordered[j]);
      TextLeqIsByteOrder(ordered[i].canonical, ordered[j].canonical);
    }
  }

  lemma {:induction false} HashOrders(s: seq<Axiom>, capacity: nat)
    requires Identified(s) && capacity > 0
    ensures Orders(s, (a, b) => HashLeq(capacity, a, b))
  {
    var leq := (a, b) => HashLeq(capacity, a, b);
    forall x, y | x in s && y in s
      ensures leq(x, y) || leq(y, x)
      ensures leq(x, y) && leq(y, x) ==> x == y
    {
      HashIsOrder(capacity, x, y, x);
    }
    forall x, y, z | x in s && y in s && z in s && leq(x, y) && leq(y, z) ensures leq(x, z) {
      HashIsOrder(capacity, x, y, z);
    }
  }

  // ----- two sub-properties of one property

  /** Of two named sub-properties of a property only the one whose axiom comes last is recorded. */
  lemma {:induction false} TwoChildrenKeepOne(p: Iri, r: Iri, q: Iri, first: Axiom, last: Axiom)
    requires first.body == SubProperty(ObjectProperty(p), ObjectProperty(q))
    requires last.body == SubProperty(ObjectProperty(r), ObjectProperty(q)) && p != q && r != q
    ensures var roles := UpdateRoles(Roles(map[], map[]), [first, last]);
      && roles.subroles == map[q := [r]]
      && RoleEdges(roles, IriTerm(p), q, IriTerm(p))
        == [TermEdge(IriTerm(p), q, IriTerm(p)), TermEdge(IriTerm(p), r, IriTerm(p))]
  {
    assert [first, last][..1] == [first] && [first][..0] == [];
    var none := Roles(map[], map[]);
    assert UpdateRoles(none, [first]) == UpdateRole(none, first);
    assert UpdateRoles(none, [first]).subroles == map[q := [p] + []];
    assert UpdateRoles(none, [first, last]).subroles == map[q := [p] + []][q := [r] + []];
    assert [p] + [] == [p] && [r] + [] == [r];
    OneSubrole(IriTerm(p), r, IriTerm(p));
  }

  lemma {:induction false} OneSubrole(source: Term, r: Iri, destination: Term)
    ensures SubroleEdges(source, [r], destination) == [TermEdge(source, r, destination)]
  {
    assert [r][..0] == [] && SubroleEdges(source, [], destination) == [];
  }
}
