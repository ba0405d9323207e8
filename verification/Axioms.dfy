/**
 The axioms of a view as the scalar compiler sees them, and what each of them means as
 edges, once the role maps and the names of anonymous individuals are known.
 */
module Axioms {
  import opened Wrappers
  import opened Layouts
  import opened Sorting
  import opened EdgePolicies

  type Iri = Text

  datatype PropertyExpr = ObjectProperty(iri: Iri) | InverseOf(iri: Iri) | OtherProperty

  datatype Individual = Named(iri: Iri) | Anonymous(id: nat)

  /** `filler` is present when it is a named class; operands are in expression order. */
  datatype ClassExpr =
    | NamedClass(iri: Iri)
    | Restriction(property: PropertyExpr, filler: Option<Iri>)
    | Junction(operands: seq<ClassExpr>)
    | OtherClass

  /** A literal or IRI as it is rendered, and whether the rendering is reported as malformed. */
  datatype AnnotationValue = Rendered(text: Text, malformed: bool) | AnonymousValue(id: nat)

  datatype Body =
    | SubClass(sub: ClassExpr, sup: ClassExpr)
    | Equivalent(expressions: seq<ClassExpr>)
    | ClassAssertion(individual: Individual, class_: ClassExpr)
    | ObjectAssertion(property: PropertyExpr, source: Individual, target: Individual)
    | Domain(property: PropertyExpr, domain: ClassExpr)
    | Range(property: PropertyExpr, range: ClassExpr)
    | SubProperty(subProperty: PropertyExpr, superProperty: PropertyExpr)
    | InverseProperties(first: PropertyExpr, second: PropertyExpr)
    | Annotation(subject: Option<Iri>, relation: Option<Text>, value: AnnotationValue)
    | Declaration
    | OtherAxiom

  /**
   `canonical` is the canonical encoding, `spread` the spread hash, and `anonymous` the
   anonymous individuals that occur in the axiom, numbered in canonical order.
   */
  datatype Axiom = Axiom(constructor_: nat, canonical: Text, spread: nat, anonymous: set<nat>, body: Body)

  datatype Options = Options(bidirectional: bool, onlyTaxonomy: bool, includeLiterals: bool)

  datatype Roles = Roles(subroles: map<Iri, seq<Iri>>, inverses: map<Iri, Iri>)

  datatype Term = IriTerm(iri: Iri) | BlankTerm(rank: nat) | CoreBlank(id: nat) | TextTerm(text: Text)

  datatype TermEdge = TermEdge(source: Term, relation: Text, destination: Term)

  datatype Diagnostic = IgnoredShape(constructor_: nat) | SkippedAxiom(constructor_: nat) | MalformedLiteral

  // ----- role maps

  function PropertyName(p: PropertyExpr): Option<Iri> {
    if p.OtherProperty? then None else Some(p.iri)
  }

  predicate IsRole(a: Axiom) {
    a.body.SubProperty? || a.body.InverseProperties?
  }

  /** The maps keep the historical rule: prior children are read under the sub-property. */
  function UpdateRole(roles: Roles, a: Axiom): Roles {
    match a.body
    case SubProperty(sub, sup) =>
      var s, t := PropertyName(sub), PropertyName(sup);
      if s.None? || t.None? then roles else
        var prior := if s.value in roles.subroles then roles.subroles[s.value] else [];
        roles.(subroles := roles.subroles[t.value := [s.value] + prior])
    case InverseProperties(first, second) =>
      var s, t := PropertyName(first), PropertyName(second);
      if s.None? || t.None? then roles
      else roles.(inverses := roles.inverses[s.value := t.value][t.value := s.value])
    case _ => roles
  }

  predicate UnnamedRole(a: Axiom) {
    match a.body
    case SubProperty(sub, sup) => PropertyName(sub).None? || PropertyName(sup).None?
    case InverseProperties(first, second) => PropertyName(first).None? || PropertyName(second).None?
    case _ => false
  }

  function UpdateRoles(roles: Roles, rbox: seq<Axiom>): Roles {
    if rbox == [] then roles else UpdateRole(UpdateRoles(roles, rbox[..|rbox| - 1]), rbox[|rbox| - 1])
  }

  function UnnamedRoles(rbox: seq<Axiom>): nat {
    if rbox == [] then 0 else UnnamedRoles(rbox[..|rbox| - 1]) + if UnnamedRole(rbox[|rbox| - 1]) then 1 else 0
  }

  // ----- the order of a Java hash set

  function Capacity(count: nat, capacity: nat): (c: nat)
    requires capacity > 0
    ensures c > 0
    decreases 2 * count - capacity
  {
    if count > capacity * 3 / 4 then Capacity(count, 2 * capacity) else capacity
  }

  predicate CanonicalLeq(a: Axiom, b: Axiom) {
    TextLeq(a.canonical, b.canonical)
  }

  /** By bucket, then by spread hash, then by canonical encoding. */
  predicate HashLeq(capacity: nat, a: Axiom, b: Axiom)
    requires capacity > 0
  {
    var x, y := a.spread % capacity, b.spread % capacity;
    if x != y then x < y
    else if a.spread != b.spread then a.spread < b.spread
    else CanonicalLeq(a, b)
  }

  function HashOrder(s: seq<Axiom>): seq<Axiom> {
    var capacity := Capacity(|s|, 16);
    Sorted(s, (a, b) => HashLeq(capacity, a, b))
  }

  /** Canonical encodings identify axioms. */
  ghost predicate Identified(s: seq<Axiom>) {
    forall a, b | a in s && b in s && a.canonical == b.canonical :: a == b
  }

  lemma {:induction false} CanonicalOrders(s: seq<Axiom>)
    requires Identified(s)
    ensures Orders(s, CanonicalLeq)
  {
    forall a, b | a in s && b in s
      ensures CanonicalLeq(a, b) || CanonicalLeq(b, a)
      ensures CanonicalLeq(a, b) && CanonicalLeq(b, a) ==> a == b
    {
      TextOrder(a.canonical, b.canonical, a.canonical);
    }
    forall a, b, c | a in s && b in s && c in s && CanonicalLeq(a, b) && CanonicalLeq(b, c) ensures CanonicalLeq(a, c) {
      TextOrder(a.canonical, b.canonical, c.canonical);
    }
  }

  lemma {:induction false} HashIsOrder(capacity: nat, a: Axiom, b: Axiom, c: Axiom)
    requires capacity > 0
    ensures HashLeq(capacity, a, b) || HashLeq(capacity, b, a)
    ensures HashLeq(capacity, a, b) && HashLeq(capacity, b, a) ==> a.canonical == b.canonical
    ensures HashLeq(capacity, a, b) && HashLeq(capacity, b, c) ==> HashLeq(capacity, a, c)
  {
    TextOrder(a.canonical, b.canonical, c.canonical);
  }

  /** The hash order, and so the role maps, do not depend on the order in which axioms are met. */
  lemma {:induction false} HashOrderIsCanonical(a: seq<Axiom>, b: seq<Axiom>)
    requires Identified(a) && multiset(a) == multiset(b)
    ensures HashOrder(a) == HashOrder(b)
  {
    assert |multiset(a)| == |a| && |multiset(b)| == |b|;
    var capacity := Capacity(|a|, 16);
    var leq := (x, y) => HashLeq(capacity, x, y);
    forall x, y | x in a && y in a
      ensures leq(x, y) || leq(y, x)
      ensures leq(x, y) && leq(y, x) ==> x == y
    {
      HashIsOrder(capacity, x, y, x);
    }
    forall x, y, z | x in a && y in a && z in a && leq(x, y) && leq(y, z) ensures leq(x, z) {
      HashIsOrder(capacity, x, y, z);
    }
    SortedIsCanonical(a, b, leq);
  }

  // ----- what axioms emit

  datatype Emission = Emission(edges: seq<TermEdge>, ignored: nat, bag: multiset<Diagnostic>)

  const SILENCE: Emission := Emission([], 0, multiset{})

  function Plus(a: Emission, b: Emission): Emission {
    Emission(a.edges + b.edges, a.ignored + b.ignored, a.bag + b.bag)
  }

  function Edges(edges: seq<TermEdge>): Emission {
    Emission(edges, 0, multiset{})
  }

  function Ignore(a: Axiom): Emission {
    Emission([], 1, multiset{IgnoredShape(a.constructor_)})
  }

  /** What emissions depend on besides the axiom. */
  datatype Env = Env(roles: Roles, ids: map<nat, nat>, classes: set<Iri>, options: Options)

  function SubroleEdges(source: Term, subroles: seq<Iri>, destination: Term): seq<TermEdge> {
    if subroles == [] then [] else
      SubroleEdges(source, subroles[..|subroles| - 1], destination) +
      [TermEdge(source, subroles[|subroles| - 1], destination)]
  }

  function RoleEdges(roles: Roles, source: Term, relation: Iri, destination: Term): seq<TermEdge> {
    [TermEdge(source, relation, destination)] +
    SubroleEdges(source, if relation in roles.subroles then roles.subroles[relation] else [], destination) +
    if relation in roles.inverses then [TermEdge(destination, roles.inverses[relation], source)] else []
  }

  /** A restriction on a named class by a named property; only these read the role maps. */
  predicate Projects(e: ClassExpr) {
    e.Restriction? && e.filler.Some? && PropertyName(e.property).Some?
  }

  function RestrictionEdges(roles: Roles, subject: Iri, e: ClassExpr): seq<TermEdge> {
    if Projects(e)
    then RoleEdges(roles, IriTerm(subject), PropertyName(e.property).value, IriTerm(e.filler.value))
    else []
  }

  /** http://subclassof, http://superclassof and http://type. */
  const SUBCLASS_OF: Text := [104, 116, 116, 112, 58, 47, 47, 115, 117, 98, 99, 108, 97, 115, 115, 111, 102]
  const SUPERCLASS_OF: Text :=
    [104, 116, 116, 112, 58, 47, 47, 115, 117, 112, 101, 114, 99, 108, 97, 115, 115, 111, 102]
  const RDF_TYPE: Text := [104, 116, 116, 112, 58, 47, 47, 116, 121, 112, 101]

  function TaxonomyEdges(options: Options, sub: Iri, sup: Iri): seq<TermEdge> {
    [TermEdge(IriTerm(sub), SUBCLASS_OF, IriTerm(sup))] +
    if options.bidirectional then [TermEdge(IriTerm(sup), SUPERCLASS_OF, IriTerm(sub))] else []
  }

  function OrIgnore(a: Axiom, edges: seq<TermEdge>): Emission {
    if edges == [] then Ignore(a) else Edges(edges)
  }

  function EmitSubClass(a: Axiom, env: Env): Emission
    requires a.body.SubClass?
  {
    var sub, sup := a.body.sub, a.body.sup;
    if sub.NamedClass? && sup.NamedClass? then Edges(TaxonomyEdges(env.options, sub.iri, sup.iri))
    else if env.options.onlyTaxonomy then Ignore(a)
    else if sub.NamedClass? then OrIgnore(a, RestrictionEdges(env.roles, sub.iri, sup))
    else if sup.NamedClass? then OrIgnore(a, RestrictionEdges(env.roles, sup.iri, sub))
    else Ignore(a)
  }

  function EmitOperand(a: Axiom, first: Iri, operand: ClassExpr, env: Env): Emission {
    if operand.NamedClass? then Edges(TaxonomyEdges(env.options, first, operand.iri))
    else if env.options.onlyTaxonomy then SILENCE
    else OrIgnore(a, RestrictionEdges(env.roles, first, operand))
  }

  function EmitOperands(a: Axiom, first: Iri, operands: seq<ClassExpr>, env: Env): Emission {
    if operands == [] then SILENCE
    else Plus(EmitOperands(a, first, operands[..|operands| - 1], env),
              EmitOperand(a, first, operands[|operands| - 1], env))
  }

  /** Only the first two expressions count. */
  function EmitEquivalent(a: Axiom, env: Env): Emission
    requires a.body.Equivalent?
  {
    var es := a.body.expressions;
    if |es| < 2 || !es[0].NamedClass? then Ignore(a)
    else if es[1].NamedClass? then Edges(TaxonomyEdges(env.options, es[0].iri, es[1].iri))
    else if es[1].Junction? then EmitOperands(a, es[0].iri, es[1].operands, env)
    else Ignore(a)
  }

  function IndividualTerm(ids: map<nat, nat>, i: Individual): Term {
    match i
    case Named(iri) => IriTerm(iri)
    case Anonymous(id) => if id in ids then BlankTerm(ids[id]) else CoreBlank(id)
  }

  function EmitAnnotation(a: Axiom, env: Env): Emission
    requires a.body.Annotation?
  {
    var b := a.body;
    if b.subject.None? || b.subject.value !in env.classes || b.relation.None? then Ignore(a)
    else match b.value
      case Rendered(text, malformed) =>
        Emission([TermEdge(IriTerm(b.subject.value), b.relation.value, TextTerm(text))], 0,
                 if malformed then multiset{MalformedLiteral} else multiset{})
      case AnonymousValue(id) =>
        Edges([TermEdge(IriTerm(b.subject.value), b.relation.value, IndividualTerm(env.ids, Anonymous(id)))])
  }

  function EmitClassAssertion(a: Axiom): Emission
    requires a.body.ClassAssertion?
  {
    if a.body.individual.Named? && a.body.class_.NamedClass?
    then Edges([TermEdge(IriTerm(a.body.individual.iri), RDF_TYPE, IriTerm(a.body.class_.iri))])
    else Ignore(a)
  }

  /** The pinned profile fails on inverse object-property assertions. */
  predicate Raises(a: Axiom) {
    a.body.ObjectAssertion? && a.body.property.InverseOf?
  }

  function EmitObjectAssertion(a: Axiom, env: Env): Emission
    requires a.body.ObjectAssertion? && !Raises(a)
  {
    var b := a.body;
    if !b.property.ObjectProperty? then Ignore(a)
    else Edges([TermEdge(IndividualTerm(env.ids, b.source), b.property.iri, IndividualTerm(env.ids, b.target))])
  }

  function Emit(a: Axiom, env: Env): Emission {
    match a.body
    case SubClass(_, _) => EmitSubClass(a, env)
    case Equivalent(_) => EmitEquivalent(a, env)
    case Annotation(_, _, _) => EmitAnnotation(a, env)
    case ClassAssertion(_, _) => EmitClassAssertion(a)
    case ObjectAssertion(_, _, _) => if Raises(a) then SILENCE else EmitObjectAssertion(a, env)
    case _ => SILENCE
  }

  /** The axioms before the first one that raises. */
  function BeforeRaise(s: seq<Axiom>): (before: seq<Axiom>)
    ensures before <= s && forall i | 0 <= i < |before| :: !Raises(before[i])
    ensures |before| < |s| ==> Raises(s[|before|])
  {
    if s == [] || Raises(s[0]) then [] else [s[0]] + BeforeRaise(s[1..])
  }

  function EmitAll(s: seq<Axiom>, env: Env): Emission {
    if s == [] then SILENCE else Plus(EmitAll(s[..|s| - 1], env), Emit(s[|s| - 1], env))
  }

  /** Does the axiom make a lazy compilation update its role maps? */
  predicate ReadsRoles(a: Axiom, options: Options) {
    match a.body
    case SubClass(sub, sup) =>
      && !options.onlyTaxonomy && !(sub.NamedClass? && sup.NamedClass?)
      && (if sub.NamedClass? then Projects(sup) else sup.NamedClass? && Projects(sub))
    case Equivalent(es) =>
      && !options.onlyTaxonomy && |es| >= 2 && es[0].NamedClass? && es[1].Junction?
      && AnyProjects(es[1].operands)
    case _ => false
  }

  predicate AnyProjects(operands: seq<ClassExpr>) {
    operands != [] && (AnyProjects(operands[..|operands| - 1]) || Projects(operands[|operands| - 1]))
  }

  predicate AnyReads(s: seq<Axiom>, options: Options) {
    s != [] && (AnyReads(s[..|s| - 1], options) || ReadsRoles(s[|s| - 1], options))
  }

  lemma {:induction false} AnyReadsMembers(s: seq<Axiom>, options: Options)
    ensures AnyReads(s, options) <==> exists a | a in s :: ReadsRoles(a, options)
    decreases |s|
  {
    if s != [] {
      AnyReadsMembers(s[..|s| - 1], options);
    }
  }

  /** Does the axiom make a lazy compilation name the anonymous individuals? */
  predicate ReadsNames(a: Axiom, classes: set<Iri>) {
    match a.body
    case Annotation(subject, relation, value) =>
      subject.Some? && subject.value in classes && relation.Some? && value.AnonymousValue?
    case ObjectAssertion(property, source, target) =>
      property.ObjectProperty? && (source.Anonymous? || target.Anonymous?)
    case _ => false
  }

  predicate AnyNames(s: seq<Axiom>, classes: set<Iri>) {
    s != [] && (AnyNames(s[..|s| - 1], classes) || ReadsNames(s[|s| - 1], classes))
  }

  lemma {:induction false} AnyNamesMembers(s: seq<Axiom>, classes: set<Iri>)
    ensures AnyNames(s, classes) <==> exists a | a in s :: ReadsNames(a, classes)
    decreases |s|
  {
    if s != [] {
      AnyNamesMembers(s[..|s| - 1], classes);
    }
  }

  // ----- domains and ranges

  /** The named class that a domain or range axiom gives a named property. */
  function Pair(a: Axiom): Option<(Iri, Iri)> {
    match a.body
    case Domain(p, c) => if p.ObjectProperty? && c.NamedClass? then Some((p.iri, c.iri)) else None
    case Range(p, c) => if p.ObjectProperty? && c.NamedClass? then Some((p.iri, c.iri)) else None
    case _ => None
  }

  function ClassesOf(s: seq<Axiom>, property: Iri): seq<Iri> {
    if s == [] then [] else
      var last := Pair(s[|s| - 1]);
      ClassesOf(s[..|s| - 1], property) + if last.Some? && last.value.0 == property then [last.value.1] else []
  }

  function PropertiesOf(s: seq<Axiom>): seq<Iri> {
    if s == [] then [] else
      var before, last := PropertiesOf(s[..|s| - 1]), Pair(s[|s| - 1]);
      if last.None? || last.value.0 in before then before else before + [last.value.0]
  }

  function Unpaired(s: seq<Axiom>): Emission {
    if s == [] then SILENCE else
      Plus(Unpaired(s[..|s| - 1]), if Pair(s[|s| - 1]).None? then Ignore(s[|s| - 1]) else SILENCE)
  }

  function RangeEdges(roles: Roles, property: Iri, domain: Iri, ranges: seq<Iri>): seq<TermEdge> {
    if ranges == [] then [] else
      RangeEdges(roles, property, domain, ranges[..|ranges| - 1]) +
      RoleEdges(roles, IriTerm(domain), property, IriTerm(ranges[|ranges| - 1]))
  }

  function PropertyEdges(roles: Roles, property: Iri, domains: seq<Iri>, ranges: seq<Iri>): seq<TermEdge> {
    if domains == [] then [] else
      PropertyEdges(roles, property, domains[..|domains| - 1], ranges) +
      RangeEdges(roles, property, domains[|domains| - 1], ranges)
  }

  function PairedEdges(roles: Roles, properties: seq<Iri>, domains: seq<Axiom>, ranges: seq<Axiom>): seq<TermEdge> {
    if properties == [] then [] else
      var last := properties[|properties| - 1];
      PairedEdges(roles, properties[..|properties| - 1], domains, ranges) +
      PropertyEdges(roles, last, ClassesOf(domains, last), ClassesOf(ranges, last))
  }

  function Common(properties: seq<Iri>, others: seq<Iri>): seq<Iri> {
    if properties == [] then [] else
      var last := properties[|properties| - 1];
      Common(properties[..|properties| - 1], others) + if last in others then [last] else []
  }

  function EmitDomainRange(domains: seq<Axiom>, ranges: seq<Axiom>, roles: Roles): Emission {
    var shared := Sorted(Common(PropertiesOf(domains), PropertiesOf(ranges)), TextLeq);
    Plus(Plus(Unpaired(domains), Unpaired(ranges)), Edges(PairedEdges(roles, shared, domains, ranges)))
  }

  // ----- what a scan of the closure finds

  function Skipped(s: seq<Axiom>): multiset<Diagnostic> {
    if s == [] then multiset{} else
      Skipped(s[..|s| - 1]) +
      if s[|s| - 1].body.OtherAxiom? then multiset{SkippedAxiom(s[|s| - 1].constructor_)} else multiset{}
  }

  function AllAnonymous(s: seq<Axiom>): set<nat> {
    if s == [] then {} else AllAnonymous(s[..|s| - 1]) + s[|s| - 1].anonymous
  }

  /** Anonymous individuals are numbered by their rank in canonical order. */
  function BlankIds(anonymous: set<nat>): map<nat, nat> {
    map id | id in anonymous :: |Before(anonymous, id)|
  }

  function Before(anonymous: set<nat>, id: nat): set<nat> {
    set x | x in anonymous && x < id
  }
}
