/**
 Which edges the scalar compiler yields and in which order, said of the axioms of a view:
 a relation between axioms and edges, without the functions that compute emissions.
 */
module EdgeLaws {
  import opened Wrappers
  import opened Layouts
  import opened Sorting
  import opened EdgePolicies
  import opened Axioms
  import opened Compilations
  import opened RoleLaws

  // ----- what an axiom means as edges

  /** The bytes of a text in ASCII. */
  function Ascii(s: string): (bytes: Text)
    requires forall i | 0 <= i < |s| :: s[i] < 128 as char
    ensures |bytes| == |s| && forall i | 0 <= i < |s| :: bytes[i] == s[i] as nat
  {
    if s == "" then [] else Ascii(s[..|s| - 1]) + [s[|s| - 1] as nat]
  }

  lemma {:induction false} RelationNames()
    ensures SUBCLASS_OF == Ascii("http://subclassof")
    ensures SUPERCLASS_OF == Ascii("http://superclassof")
    ensures RDF_TYPE == Ascii("http://type")
  {
  }

  /** A relation holds by its own name, by every recorded sub-property, and backwards by its inverse. */
  ghost predicate RoleMeans(roles: Roles, x: Term, p: Iri, y: Term, e: TermEdge) {
    || e == TermEdge(x, p, y)
    || (p in roles.subroles && e.relation in roles.subroles[p] && e == TermEdge(x, e.relation, y))
    || (p in roles.inverses && e == TermEdge(y, roles.inverses[p], x))
  }

  ghost predicate TaxonomyMeans(bidirectional: bool, sub: Iri, sup: Iri, e: TermEdge) {
    || e == TermEdge(IriTerm(sub), Ascii("http://subclassof"), IriTerm(sup))
    || (bidirectional && e == TermEdge(IriTerm(sup), Ascii("http://superclassof"), IriTerm(sub)))
  }

  /** A restriction of a named property, or of the inverse of one, to a named class. */
  ghost predicate RestrictionMeans(roles: Roles, subject: Iri, expr: ClassExpr, e: TermEdge) {
    && expr.Restriction? && expr.filler.Some? && !expr.property.OtherProperty?
    && RoleMeans(roles, IriTerm(subject), expr.property.iri, IriTerm(expr.filler.value), e)
  }

  ghost predicate OperandMeans(env: Env, first: Iri, operand: ClassExpr, e: TermEdge) {
    || (operand.NamedClass? && TaxonomyMeans(env.options.bidirectional, first, operand.iri, e))
    || (!env.options.onlyTaxonomy && RestrictionMeans(env.roles, first, operand, e))
  }

  ghost predicate SubClassMeans(env: Env, sub: ClassExpr, sup: ClassExpr, e: TermEdge) {
    || (sub.NamedClass? && sup.NamedClass? && TaxonomyMeans(env.options.bidirectional, sub.iri, sup.iri, e))
    || (!env.options.onlyTaxonomy && sub.NamedClass? && RestrictionMeans(env.roles, sub.iri, sup, e))
    || (!env.options.onlyTaxonomy && sup.NamedClass? && RestrictionMeans(env.roles, sup.iri, sub, e))
  }

  /** Only a named class followed by a named class or a junction counts. */
  ghost predicate EquivalentMeans(env: Env, es: seq<ClassExpr>, e: TermEdge) {
    && |es| >= 2 && es[0].NamedClass?
    && (|| (es[1].NamedClass? && TaxonomyMeans(env.options.bidirectional, es[0].iri, es[1].iri, e))
        || (es[1].Junction? && exists o | o in es[1].operands :: OperandMeans(env, es[0].iri, o, e)))
  }

  /** Anonymous individuals are named by their rank among those of the closure. */
  ghost predicate TermMeans(anonymous: set<nat>, i: Individual, t: Term) {
    match i
    case Named(iri) => t == IriTerm(iri)
    case Anonymous(id) =>
      t == if id in anonymous then BlankTerm(|set x | x in anonymous && x < id|) else CoreBlank(id)
  }

  ghost predicate AnnotationMeans(env: Env, anonymous: set<nat>, body: Body, e: TermEdge)
    requires body.Annotation?
  {
    && body.subject.Some? && body.subject.value in env.classes && body.relation == Some(e.relation)
    && e.source == IriTerm(body.subject.value)
    && match body.value
       case Rendered(text, _) => e.destination == TextTerm(text)
       case AnonymousValue(id) => TermMeans(anonymous, Anonymous(id), e.destination)
  }

  ghost predicate AxiomMeans(env: Env, anonymous: set<nat>, a: Axiom, e: TermEdge) {
    match a.body
    case SubClass(sub, sup) => SubClassMeans(env, sub, sup, e)
    case Equivalent(es) => EquivalentMeans(env, es, e)
    case Annotation(_, _, _) => AnnotationMeans(env, anonymous, a.body, e)
    case ClassAssertion(i, c) =>
      i.Named? && c.NamedClass? && e == TermEdge(IriTerm(i.iri), Ascii("http://type"), IriTerm(c.iri))
    case ObjectAssertion(p, x, y) =>
      && p == ObjectProperty(e.relation)
      && TermMeans(anonymous, x, e.source) && TermMeans(anonymous, y, e.destination)
    case _ => false
  }

  // ----- the functions compute it

  lemma {:induction false} SubroleMembers(x: Term, subroles: seq<Iri>, y: Term, e: TermEdge)
    ensures e in SubroleEdges(x, subroles, y) <==> e.relation in subroles && e == TermEdge(x, e.relation, y)
    decreases |subroles|
  {
    if subroles != [] {
      SubroleMembers(x, subroles[..|subroles| - 1], y, e);
      assert subroles == subroles[..|subroles| - 1] + [subroles[|subroles| - 1]];
    }
  }

  lemma {:induction false} RoleMembers(roles: Roles, x: Term, p: Iri, y: Term, e: TermEdge)
    ensures e in RoleEdges(roles, x, p, y) <==> RoleMeans(roles, x, p, y, e)
  {
    SubroleMembers(x, if p in roles.subroles then roles.subroles[p] else [], y, e);
  }

  /** First the relation itself, then its sub-properties as recorded, then the inverse. */
  lemma {:induction false} RoleEdgesInOrder(roles: Roles, x: Term, p: Iri, y: Term)
    ensures var edges := RoleEdges(roles, x, p, y);
      var children := Recorded(roles.subroles, p);
      && |edges| == 1 + |children| + (if p in roles.inverses then 1 else 0)
      && edges[0] == TermEdge(x, p, y)
      && (forall i | 0 <= i < |children| :: edges[1 + i] == TermEdge(x, children[i], y))
      && (p in roles.inverses ==> edges[|edges| - 1] == TermEdge(y, roles.inverses[p], x))
  {
    SubrolesInOrder(x, Recorded(roles.subroles, p), y);
  }

  lemma {:induction false} SubrolesInOrder(x: Term, subroles: seq<Iri>, y: Term)
    ensures |SubroleEdges(x, subroles, y)| == |subroles|
    ensures forall i | 0 <= i < |subroles| :: SubroleEdges(x, subroles, y)[i] == TermEdge(x, subroles[i], y)
    decreases |subroles|
  {
    if subroles != [] {
      SubrolesInOrder(x, subroles[..|subroles| - 1], y);
    }
  }

  lemma {:induction false} TaxonomyMembers(options: Options, sub: Iri, sup: Iri, e: TermEdge)
    ensures e in TaxonomyEdges(options, sub, sup) <==> TaxonomyMeans(options.bidirectional, sub, sup, e)
  {
    hide Ascii, SUBCLASS_OF, SUPERCLASS_OF;
    RelationNames();
  }

  lemma {:induction false} RestrictionMembers(roles: Roles, subject: Iri, expr: ClassExpr, e: TermEdge)
    ensures e in RestrictionEdges(roles, subject, expr) <==> RestrictionMeans(roles, subject, expr, e)
  {
    hide RoleEdges, RoleMeans;
    if expr.Restriction? && expr.filler.Some? && !expr.property.OtherProperty? {
      RoleMembers(roles, IriTerm(subject), expr.property.iri, IriTerm(expr.filler.value), e);
    }
  }

  lemma {:induction false} OperandMembers(a: Axiom, env: Env, first: Iri, operand: ClassExpr, e: TermEdge)
    ensures e in EmitOperand(a, first, operand, env).edges <==> OperandMeans(env, first, operand, e)
  {
    hide TaxonomyEdges, TaxonomyMeans, RestrictionEdges, RoleMeans;
    if operand.NamedClass? {
      TaxonomyMembers(env.options, first, operand.iri, e);
    } else {
      RestrictionMembers(env.roles, first, operand, e);
    }
  }

  lemma {:induction false} OperandsMembers(a: Axiom, env: Env, first: Iri, operands: seq<ClassExpr>, e: TermEdge)
    ensures e in EmitOperands(a, first, operands, env).edges <==>
      exists o | o in operands :: OperandMeans(env, first, o, e)
    decreases |operands|
  {
    hide EmitOperand, OperandMeans;
    if operands != [] {
      var init, last := operands[..|operands| - 1], operands[|operands| - 1];
      OperandsMembers(a, env, first, init, e);
      OperandMembers(a, env, first, last, e);
      assert operands == init + [last];
    }
  }

  lemma {:induction false} SubClassMembers(a: Axiom, env: Env, e: TermEdge)
    requires a.body.SubClass?
    ensures e in EmitSubClass(a, env).edges <==> SubClassMeans(env, a.body.sub, a.body.sup, e)
  {
    hide TaxonomyEdges, TaxonomyMeans, RestrictionEdges, RoleMeans;
    var sub, sup := a.body.sub, a.body.sup;
    if sub.NamedClass? && sup.NamedClass? {
      TaxonomyMembers(env.options, sub.iri, sup.iri, e);
    } else if sub.NamedClass? {
      RestrictionMembers(env.roles, sub.iri, sup, e);
    } else if sup.NamedClass? {
      RestrictionMembers(env.roles, sup.iri, sub, e);
    }
  }

  lemma {:induction false} EquivalentMembers(a: Axiom, env: Env, e: TermEdge)
    requires a.body.Equivalent?
    ensures e in EmitEquivalent(a, env).edges <==> EquivalentMeans(env, a.body.expressions, e)
  {
    hide TaxonomyEdges, TaxonomyMeans, EmitOperands, OperandMeans;
    var es := a.body.expressions;
    if |es| >= 2 && es[0].NamedClass? {
      if es[1].NamedClass? {
        TaxonomyMembers(env.options, es[0].iri, es[1].iri, e);
      } else if es[1].Junction? {
        OperandsMembers(a, env, es[0].iri, es[1].operands, e);
      }
    }
  }

  lemma {:induction false} TermIs(anonymous: set<nat>, i: Individual, t: Term)
    ensures t == IndividualTerm(BlankIds(anonymous), i) <==> TermMeans(anonymous, i, t)
  {
    if i.Anonymous? && i.id in anonymous {
      var smaller := set x | x in anonymous && x < i.id;
      assert smaller == Before(anonymous, i.id);
    }
  }

  /** One axiom yields exactly the edges it means, unless it raises. */
  lemma {:induction false} AxiomMembers(a: Axiom, env: Env, anonymous: set<nat>, e: TermEdge)
    requires env.ids == BlankIds(anonymous) && !Raises(a)
    ensures e in Emit(a, env).edges <==> AxiomMeans(env, anonymous, a, e)
  {
    hide EmitSubClass, EmitEquivalent, SubClassMeans, EquivalentMeans, IndividualTerm, TermMeans, BlankIds, RDF_TYPE, Ascii;
    match a.body
    case SubClass(_, _) => SubClassMembers(a, env, e);
    case Equivalent(_) => EquivalentMembers(a, env, e);
    case Annotation(_, _, value) =>
      if value.AnonymousValue? {
        TermIs(anonymous, Anonymous(value.id), e.destination);
      }
    case ClassAssertion(_, _) => RelationNames();
    case ObjectAssertion(_, x, y) =>
      TermIs(anonymous, x, e.source);
      TermIs(anonymous, y, e.destination);
    case _ =>
  }

  // ----- reports

  /** A report for every axiom that yields nothing, and none otherwise; only junctions report by operand. */
  lemma {:induction false} ReportedIffSilent(a: Axiom, env: Env)
    requires a.body.SubClass? || a.body.Annotation? || a.body.ClassAssertion? || (a.body.ObjectAssertion? && !Raises(a))
    ensures var emission := Emit(a, env);
      && emission.ignored == (if emission.edges == [] then 1 else 0)
      && emission.bag[IgnoredShape(a.constructor_)] == emission.ignored
      && (forall d | d in emission.bag :: d == IgnoredShape(a.constructor_) || d == MalformedLiteral)
      && (MalformedLiteral in emission.bag <==>
            emission.edges != [] && a.body.Annotation? && a.body.value.Rendered? && a.body.value.malformed)
  {
    hide TaxonomyEdges, RestrictionEdges;
    if a.body.SubClass? && a.body.sub.NamedClass? && a.body.sup.NamedClass? {
      TaxonomyIsSomething(env.options, a.body.sub.iri, a.body.sup.iri);
    }
  }

  lemma {:induction false} TaxonomyIsSomething(options: Options, sub: Iri, sup: Iri)
    ensures TaxonomyEdges(options, sub, sup) != []
  {
  }

  ghost predicate MeansNothing(env: Env, first: Iri, operand: ClassExpr) {
    forall e :: !OperandMeans(env, first, operand, e)
  }

  /** Of a junction every operand that yields nothing is reported, unless only the taxonomy is asked for. */
  lemma {:induction false} JunctionReports(a: Axiom, first: Iri, operands: seq<ClassExpr>, env: Env)
    ensures var emission := EmitOperands(a, first, operands, env);
      && emission.ignored == (if env.options.onlyTaxonomy then 0
           else |set i | 0 <= i < |operands| && MeansNothing(env, first, operands[i])|)
      && emission.bag == multiset{}[IgnoredShape(a.constructor_) := emission.ignored]
    decreases |operands|
  {
    hide OperandMeans, EmitOperand, MeansNothing;
    var silent := set i | 0 <= i < |operands| && MeansNothing(env, first, operands[i]);
    if operands == [] {
      assert silent == {};
    } else {
      var last := |operands| - 1;
      JunctionReports(a, first, operands[..last], env);
      OperandReports(a, first, operands[last], env);
      SilentGrow(env, first, operands);
    }
  }

  lemma {:induction false} SilentGrow(env: Env, first: Iri, operands: seq<ClassExpr>)
    requires operands != []
    ensures var last := |operands| - 1;
      |set i | 0 <= i < |operands| && MeansNothing(env, first, operands[i])| ==
      |set i | 0 <= i < last && MeansNothing(env, first, operands[..last][i])| +
        if MeansNothing(env, first, operands[last]) then 1 else 0
  {
    hide MeansNothing;
    var last := |operands| - 1;
    var silent := set i | 0 <= i < |operands| && MeansNothing(env, first, operands[i]);
    var before := set i | 0 <= i < last && MeansNothing(env, first, operands[..last][i]);
    assert silent == if MeansNothing(env, first, operands[last]) then before + {last} else before;
  }

  lemma {:induction false} OperandReports(a: Axiom, first: Iri, operand: ClassExpr, env: Env)
    ensures var emission := EmitOperand(a, first, operand, env);
      && emission.ignored ==
        (if !env.options.onlyTaxonomy && MeansNothing(env, first, operand) then 1 else 0)
      && emission.bag == multiset{}[IgnoredShape(a.constructor_) := emission.ignored]
  {
    hide OperandMeans, TaxonomyEdges, RestrictionEdges;
    var emission := EmitOperand(a, first, operand, env);
    if emission.edges != [] {
      OperandMembers(a, env, first, operand, emission.edges[0]);
    } else {
      forall e ensures !OperandMeans(env, first, operand, e) {
        OperandMembers(a, env, first, operand, e);
      }
    }
    if operand.NamedClass? {
      TaxonomyIsSomething(env.options, first, operand.iri);
    }
  }

  // ----- what lazy compilations wait for

  ghost predicate NamesRelation(e: ClassExpr) {
    e.Restriction? && e.filler.Some? && !e.property.OtherProperty?
  }

  ghost predicate Restricts(a: Axiom) {
    match a.body
    case SubClass(sub, sup) => (sub.NamedClass? && NamesRelation(sup)) || (sup.NamedClass? && NamesRelation(sub))
    case Equivalent(es) =>
      |es| >= 2 && es[0].NamedClass? && es[1].Junction? && exists o | o in es[1].operands :: NamesRelation(o)
    case _ => false
  }

  /** An axiom needs the role maps when one of its edges comes from a restriction. */
  lemma {:induction false} ReadsRolesIffRestricted(a: Axiom, options: Options)
    ensures ReadsRoles(a, options) <==> !options.onlyTaxonomy && Restricts(a)
  {
    if a.body.Equivalent? && |a.body.expressions| >= 2 && a.body.expressions[1].Junction? {
      AnyProjectsMembers(a.body.expressions[1].operands);
    }
  }

  lemma {:induction false} AnyProjectsMembers(operands: seq<ClassExpr>)
    ensures AnyProjects(operands) <==> exists o | o in operands :: NamesRelation(o)
    decreases |operands|
  {
    if operands != [] {
      var init, last := operands[..|operands| - 1], operands[|operands| - 1];
      AnyProjectsMembers(init);
      assert operands == init + [last] && (Projects(last) <==> NamesRelation(last));
      assert last in operands;
    }
  }

  predicate IsBlank(t: Term) {
    t.BlankTerm? || t.CoreBlank?
  }

  /** An axiom needs the names of anonymous individuals when one of its edges has such a name. */
  lemma {:induction false} ReadsNamesIffBlank(a: Axiom, env: Env, anonymous: set<nat>)
    ensures ReadsNames(a, env.classes) <==>
      exists e :: AxiomMeans(env, anonymous, a, e) && (IsBlank(e.source) || IsBlank(e.destination))
  {
    match a.body
    case Annotation(subject, relation, value) =>
      if ReadsNames(a, env.classes) {
        var e := TermEdge(IriTerm(subject.value), relation.value, NameOf(anonymous, Anonymous(value.id)));
        assert AxiomMeans(env, anonymous, a, e);
      }
    case ObjectAssertion(p, x, y) =>
      if ReadsNames(a, env.classes) {
        var e := TermEdge(NameOf(anonymous, x), p.iri, NameOf(anonymous, y));
        assert AxiomMeans(env, anonymous, a, e);
      }
    case _ => OthersHaveNoBlanks(a, env, anonymous);
  }

  ghost function NameOf(anonymous: set<nat>, i: Individual): (t: Term)
    ensures TermMeans(anonymous, i, t) && (IsBlank(t) <==> i.Anonymous?)
  {
    match i
    case Named(iri) => IriTerm(iri)
    case Anonymous(id) => if id in anonymous then BlankTerm(|set x | x in anonymous && x < id|) else CoreBlank(id)
  }

  lemma {:induction false} OthersHaveNoBlanks(a: Axiom, env: Env, anonymous: set<nat>)
    requires !a.body.Annotation? && !a.body.ObjectAssertion?
    ensures forall e | AxiomMeans(env, anonymous, a, e) :: !IsBlank(e.source) && !IsBlank(e.destination)
  {
    hide Ascii;
  }

  // ----- the whole run: which axioms are visited, and in which order

  /** Subclasses, equivalences, annotations, class assertions, object assertions. */
  function RankOf(a: Axiom): nat {
    if a.body.SubClass? then 0
    else if a.body.Equivalent? then 1
    else if a.body.Annotation? then 2
    else if a.body.ClassAssertion? then 3
    else if a.body.ObjectAssertion? then 4
    else 5
  }

  ghost predicate IsInverseAssertion(a: Axiom) {
    a.body.ObjectAssertion? && a.body.property.InverseOf?
  }

  /** By category, and within a category by canonical encoding. */
  ghost predicate VisitedInOrder(a: Axiom, b: Axiom) {
    RankOf(a) < RankOf(b) || (RankOf(a) == RankOf(b) && InByteOrder(a.canonical, b.canonical))
  }

  ghost predicate BeforeInverses(view: View, a: Axiom) {
    forall b | b in view.closure && IsInverseAssertion(b) :: a != b && InByteOrder(a.canonical, b.canonical)
  }

  /** Annotations only on request, object assertions only up to the first inverse one. */
  ghost predicate Visited(view: View, options: Options, a: Axiom) {
    && RankOf(a) < 5
    && (a.body.Annotation? ==> options.includeLiterals)
    && (a.body.ObjectAssertion? ==> BeforeInverses(view, a))
  }

  function Copies(view: View, a: Axiom): nat {
    multiset(if a.body.Annotation? then view.root else view.closure)[a]
  }

  function Flat(env: Env, axioms: seq<Axiom>): seq<TermEdge> {
    if axioms == [] then [] else Emit(axioms[0], env).edges + Flat(env, axioms[1..])
  }

  lemma {:induction false} FlatConcat(env: Env, a: seq<Axiom>, b: seq<Axiom>)
    ensures Flat(env, a + b) == Flat(env, a) + Flat(env, b)
    decreases |a|
  {
    hide Emit;
    if a == [] {
      assert a + b == b;
    } else {
      assert (a + b)[0] == a[0] && (a + b)[1..] == a[1..] + b;
      FlatConcat(env, a[1..], b);
    }
  }

  lemma {:induction false} EmitAllIsFlat(env: Env, s: seq<Axiom>)
    ensures EmitAll(s, env).edges == Flat(env, s)
    decreases |s|
  {
    hide Emit;
    if s != [] {
      var init, last := s[..|s| - 1], s[|s| - 1];
      EmitAllIsFlat(env, init);
      FlatConcat(env, init, [last]);
      assert s == init + [last];
      assert [last][1..] == [];
    }
  }

  // ----- one category

  lemma {:induction false} SelectCopies(s: seq<Axiom>, c: Category, a: Axiom)
    ensures multiset(Select(s, c))[a] == if Has(c, a) then multiset(s)[a] else 0
    decreases |s|
  {
    hide Has;
    if s != [] {
      SelectCopies(s[..|s| - 1], c, a);
      assert s == s[..|s| - 1] + [s[|s| - 1]];
    }
  }

  /** A category holds its axioms as often as its scope does, in order of canonical encodings. */
  lemma {:induction false} CategoryInOrder(view: View, c: Category)
    requires ViewOk(view)
    ensures var ordered := InOrder(view, c);
      && (forall a :: multiset(ordered)[a] == if Has(c, a) then multiset(Scope(view, c))[a] else 0)
      && (forall i, j | 0 <= i < j < |ordered| :: InByteOrder(ordered[i].canonical, ordered[j].canonical))
      && (forall i | 0 <= i < |ordered| :: Has(c, ordered[i]))
  {
    hide Has, InByteOrder;
    var selected, ordered := Select(Scope(view, c), c), InOrder(view, c);
    SelectedIsMember(Scope(view, c), c);
    IdentifiedFewer(Scope(view, c), selected);
    CanonicalOrders(selected);
    SortedSorts(selected, CanonicalLeq);
    CategoryHas(view, c);
    forall a ensures multiset(ordered)[a] == if Has(c, a) then multiset(Scope(view, c))[a] else 0 {
      SelectCopies(Scope(view, c), c, a);
    }
    forall i, j | 0 <= i < j < |ordered| ensures InByteOrder(ordered[i].canonical, ordered[j].canonical) {
      assert CanonicalLeq(ordered[i], ordered[j]);
      TextLeqIsByteOrder(ordered[i].canonical, ordered[j].canonical);
    }
  }

  /** The object assertions before the first inverse one are those before all inverse ones. */
  lemma {:induction false} AssertionsBefore(view: View)
    requires ViewOk(view)
    ensures var calm := BeforeRaise(InOrder(view, ObjectAssertions));
      && (forall a :: multiset(calm)[a] ==
            if a.body.ObjectAssertion? && BeforeInverses(view, a) then multiset(view.closure)[a] else 0)
      && (RunRaises(view) <==> exists b | b in view.closure :: IsInverseAssertion(b))
  {
    hide InOrder, BeforeRaise, InByteOrder;
    var ordered := InOrder(view, ObjectAssertions);
    CategoryInOrder(view, ObjectAssertions);
    forall a ensures multiset(BeforeRaise(ordered))[a] ==
      if a.body.ObjectAssertion? && BeforeInverses(view, a) then multiset(view.closure)[a] else 0
    {
      AssertionBefore(view, ordered, BeforeRaise(ordered), a);
    }
    forall b | b in view.closure && IsInverseAssertion(b) ensures RunRaises(view) {
      assert multiset(ordered)[b] > 0;
      assert b in ordered;
    }
    if RunRaises(view) {
      var b := ordered[|BeforeRaise(ordered)|];
      assert b in multiset(ordered);
      assert b in view.closure;
    }
  }

  lemma {:induction false} AssertionBefore(view: View, ordered: seq<Axiom>, calm: seq<Axiom>, a: Axiom)
    requires Identified(view.closure) && calm == BeforeRaise(ordered)
    requires forall x :: multiset(ordered)[x] == if x.body.ObjectAssertion? then multiset(view.closure)[x] else 0
    requires forall i, j | 0 <= i < j < |ordered| :: InByteOrder(ordered[i].canonical, ordered[j].canonical)
    ensures multiset(calm)[a] ==
      if a.body.ObjectAssertion? && BeforeInverses(view, a) then multiset(view.closure)[a] else 0
  {
    hide BeforeRaise;
    var rest := ordered[|calm|..];
    assert ordered == calm + rest;
    assert multiset(ordered)[a] == multiset(calm)[a] + multiset(rest)[a];
    forall x | x in ordered ensures x in view.closure && x.body.ObjectAssertion? {
      assert multiset(ordered)[x] > 0;
    }
    if a in calm {
      CalmIsBefore(view, ordered, calm, a);
    }
    if a in rest {
      RestIsNotBefore(view, ordered, calm, a);
    }
  }

  lemma {:induction false} CalmIsBefore(view: View, ordered: seq<Axiom>, calm: seq<Axiom>, a: Axiom)
    requires Identified(view.closure) && calm == BeforeRaise(ordered) && a in calm
    requires forall x :: multiset(ordered)[x] == if x.body.ObjectAssertion? then multiset(view.closure)[x] else 0
    requires forall i, j | 0 <= i < j < |ordered| :: InByteOrder(ordered[i].canonical, ordered[j].canonical)
    ensures BeforeInverses(view, a) && a !in ordered[|calm|..]
  {
    hide InByteOrder;
    var i :| 0 <= i < |calm| && calm[i] == a;
    forall b | b in view.closure && IsInverseAssertion(b) ensures a != b && InByteOrder(a.canonical, b.canonical) {
      assert multiset(ordered)[b] > 0;
      var j :| 0 <= j < |ordered| && ordered[j] == b;
      assert j >= |calm|;
    }
    if a in ordered[|calm|..] {
      var j :| |calm| <= j < |ordered| && ordered[j] == a;
      var b := ordered[|calm|];
      assert Raises(b);
      assert j > |calm|;
      BetweenEquals(view, ordered, i, |calm|, j);
    }
  }

  /** What lies between two copies of an axiom is a copy too. */
  lemma {:induction false} BetweenEquals(view: View, ordered: seq<Axiom>, i: nat, k: nat, j: nat)
    requires Identified(view.closure) && i < k < j < |ordered| && ordered[i] == ordered[j]
    requires forall x :: multiset(ordered)[x] == if x.body.ObjectAssertion? then multiset(view.closure)[x] else 0
    requires forall i, j | 0 <= i < j < |ordered| :: InByteOrder(ordered[i].canonical, ordered[j].canonical)
    ensures ordered[k] == ordered[i]
  {
    hide InByteOrder;
    TextLeqIsByteOrder(ordered[i].canonical, ordered[k].canonical);
    TextLeqIsByteOrder(ordered[k].canonical, ordered[i].canonical);
    TextOrder(ordered[i].canonical, ordered[k].canonical, ordered[k].canonical);
    assert ordered[k] in multiset(ordered) && ordered[i] in multiset(ordered);
    assert ordered[k] in multiset(view.closure) && ordered[i] in multiset(view.closure);
  }

  lemma {:induction false} RestIsNotBefore(view: View, ordered: seq<Axiom>, calm: seq<Axiom>, a: Axiom)
    requires Identified(view.closure) && calm == BeforeRaise(ordered) && a in ordered[|calm|..]
    requires forall x :: multiset(ordered)[x] == if x.body.ObjectAssertion? then multiset(view.closure)[x] else 0
    requires forall i, j | 0 <= i < j < |ordered| :: InByteOrder(ordered[i].canonical, ordered[j].canonical)
    ensures !BeforeInverses(view, a)
  {
    hide InByteOrder;
    var j :| |calm| <= j < |ordered| && ordered[j] == a;
    var b := ordered[|calm|];
    assert Raises(b) && b in multiset(ordered);
    assert b in multiset(view.closure) && b in view.closure && IsInverseAssertion(b);
    assert a in multiset(ordered) && a in multiset(view.closure) && a in view.closure;
    TextLeqIsByteOrder(a.canonical, b.canonical);
    TextLeqIsByteOrder(b.canonical, a.canonical);
    TextOrder(a.canonical, b.canonical, b.canonical);
  }

  // ----- all categories

  ghost predicate Piece(axioms: seq<Axiom>, rank: nat) {
    && (forall i | 0 <= i < |axioms| :: RankOf(axioms[i]) == rank)
    && forall i, j | 0 <= i < j < |axioms| :: InByteOrder(axioms[i].canonical, axioms[j].canonical)
  }

  ghost predicate Ordered(axioms: seq<Axiom>) {
    forall i, j | 0 <= i < j < |axioms| :: VisitedInOrder(axioms[i], axioms[j])
  }

  lemma {:induction false} AddPiece(axioms: seq<Axiom>, piece: seq<Axiom>, rank: nat)
    requires Ordered(axioms) && Piece(piece, rank)
    requires forall i | 0 <= i < |axioms| :: RankOf(axioms[i]) < rank
    ensures Ordered(axioms + piece)
    ensures forall i | 0 <= i < |axioms + piece| :: RankOf((axioms + piece)[i]) <= rank
  {
    hide InByteOrder, RankOf;
  }

  lemma {:induction false} CategoryIsPiece(view: View, c: Category, rank: nat)
    requires ViewOk(view) && forall a | Has(c, a) :: RankOf(a) == rank
    ensures Piece(InOrder(view, c), rank)
  {
    hide InOrder, InByteOrder, RankOf, Has;
    CategoryInOrder(view, c);
  }

  /** The axioms of a run in the order in which they are visited. */
  ghost function Visits(view: View, options: Options): seq<Axiom> {
    InOrder(view, SubClasses) + InOrder(view, Equivalents)
    + (if options.includeLiterals then InOrder(view, Annotations) else [])
    + InOrder(view, ClassAssertions) + BeforeRaise(InOrder(view, ObjectAssertions))
  }

  lemma {:induction false} VisitsAreOrdered(view: View, options: Options)
    requires ViewOk(view)
    ensures Ordered(Visits(view, options))
  {
    hide InOrder, Ordered, BeforeRaise, ViewOk, InByteOrder;
    CategoryIsPiece(view, SubClasses, 0);
    CategoryIsPiece(view, Equivalents, 1);
    CategoryIsPiece(view, Annotations, 2);
    CategoryIsPiece(view, ClassAssertions, 3);
    CategoryIsPiece(view, ObjectAssertions, 4);
    var none: seq<Axiom> := [];
    assert Ordered(none) by { NothingIsOrdered(); }
    var visits := none + InOrder(view, SubClasses);
    AddPiece(none, InOrder(view, SubClasses), 0);
    AddPiece(visits, InOrder(view, Equivalents), 1);
    visits := visits + InOrder(view, Equivalents);
    var literals := if options.includeLiterals then InOrder(view, Annotations) else [];
    AddPiece(visits, literals, 2);
    visits := visits + literals;
    AddPiece(visits, InOrder(view, ClassAssertions), 3);
    visits := visits + InOrder(view, ClassAssertions);
    AddPiece(visits, BeforeRaise(InOrder(view, ObjectAssertions)), 4);
    assert none + InOrder(view, SubClasses) == InOrder(view, SubClasses);
  }

  lemma {:induction false} NothingIsOrdered()
    ensures Ordered([])
  {
  }

  lemma {:induction false} CopiesAdd(a: seq<Axiom>, b: seq<Axiom>, x: Axiom)
    ensures multiset(a + b)[x] == multiset(a)[x] + multiset(b)[x]
  {
  }

  lemma {:induction false} CopiesInCategory(view: View, c: Category, a: Axiom)
    requires ViewOk(view)
    ensures multiset(InOrder(view, c))[a] == if Has(c, a) then multiset(Scope(view, c))[a] else 0
  {
    hide InOrder, Has;
    CategoryInOrder(view, c);
  }

  /** Exactly the visited axioms are visited, as often as the view yields them. */
  lemma {:induction false} VisitsAreVisited(view: View, options: Options, a: Axiom)
    requires ViewOk(view)
    ensures multiset(Visits(view, options))[a] == if Visited(view, options, a) then Copies(view, a) else 0
  {
    hide InOrder, BeforeRaise, ViewOk, BeforeInverses;
    var subs, equals, classes := InOrder(view, SubClasses), InOrder(view, Equivalents), InOrder(view, ClassAssertions);
    var literals := if options.includeLiterals then InOrder(view, Annotations) else [];
    var calm := BeforeRaise(InOrder(view, ObjectAssertions));
    CopiesInCategory(view, SubClasses, a);
    CopiesInCategory(view, Equivalents, a);
    CopiesInCategory(view, Annotations, a);
    CopiesInCategory(view, ClassAssertions, a);
    AssertionCopies(view, a);
    CopiesAdd(subs, equals, a);
    CopiesAdd(subs + equals, literals, a);
    CopiesAdd(subs + equals + literals, classes, a);
    CopiesAdd(subs + equals + literals + classes, calm, a);
  }

  lemma {:induction false} AssertionCopies(view: View, a: Axiom)
    requires ViewOk(view)
    ensures multiset(BeforeRaise(InOrder(view, ObjectAssertions)))[a] ==
      if a.body.ObjectAssertion? && BeforeInverses(view, a) then multiset(view.closure)[a] else 0
  {
    hide InOrder, BeforeRaise, BeforeInverses;
    AssertionsBefore(view);
  }

  /**
   A run yields the edges of the axioms in visiting order, and then, unless an inverse
   assertion stopped it, those of domains and ranges.
   */
  lemma {:induction false} WholeIsVisits(view: View, options: Options, start: Roles)
    requires ViewOk(view)
    ensures var env := EnvOf(view, options, start);
      Whole(view, env).edges == Flat(env, Visits(view, options)) +
        if exists b | b in view.closure :: IsInverseAssertion(b) then []
        else EmitDomainRange(InOrder(view, Domains), InOrder(view, Ranges), env.roles).edges
  {
    hide InOrder, BeforeRaise, Emit, EmitAll, EmitDomainRange, FinalRoles, Names, ViewOk, RunRaises, Flat;
    var env := EnvOf(view, options, start);
    AssertionsBefore(view);
    var subs, equals, classes := InOrder(view, SubClasses), InOrder(view, Equivalents), InOrder(view, ClassAssertions);
    var literals := if options.includeLiterals then InOrder(view, Annotations) else [];
    var calm := BeforeRaise(InOrder(view, ObjectAssertions));
    EmitAllIsFlat(env, subs);
    EmitAllIsFlat(env, equals);
    EmitAllIsFlat(env, InOrder(view, Annotations));
    EmitAllIsFlat(env, classes);
    EmitAllIsFlat(env, calm);
    FlatOfNothing(env);
    FlatConcat(env, subs, equals);
    FlatConcat(env, subs + equals, literals);
    FlatConcat(env, subs + equals + literals, classes);
    FlatConcat(env, subs + equals + literals + classes, calm);
  }

  lemma {:induction false} FlatOfNothing(env: Env)
    ensures Flat(env, []) == []
  {
  }

  // ----- what the environment of a run is

  /** The role axioms and anonymous individuals of a run are those of its closure. */
  lemma {:induction false} RunEnvironment(view: View, a: Axiom, id: nat)
    ensures multiset(RoleAxioms(view.closure))[a] ==
      if a.body.SubProperty? || a.body.InverseProperties? then multiset(view.closure)[a] else 0
    ensures id in AllAnonymous(view.closure) <==> exists x | x in view.closure :: id in x.anonymous
  {
    RoleCopies(view.closure, a);
    AnonymousMembers(view.closure, id);
  }

  lemma {:induction false} RoleCopies(s: seq<Axiom>, a: Axiom)
    ensures multiset(RoleAxioms(s))[a] ==
      if a.body.SubProperty? || a.body.InverseProperties? then multiset(s)[a] else 0
    decreases |s|
  {
    if s != [] {
      RoleCopies(s[..|s| - 1], a);
      assert s == s[..|s| - 1] + [s[|s| - 1]];
    }
  }

  lemma {:induction false} AnonymousMembers(s: seq<Axiom>, id: nat)
    ensures id in AllAnonymous(s) <==> exists x | x in s :: id in x.anonymous
    decreases |s|
  {
    if s != [] {
      AnonymousMembers(s[..|s| - 1], id);
      assert s == s[..|s| - 1] + [s[|s| - 1]];
    }
  }

  /** The role axioms that a run ignores are the nameless ones of its closure, each copy once. */
  lemma {:induction false} RunIgnoresNameless(view: View)
    requires ViewOk(view)
    ensures IgnoredRoles(view) == |NamelessAt(view.closure)|
  {
    hide Nameless, UnnamedRoles, RoleAxioms, HashOrder, ViewOk;
    var roles := RoleAxioms(view.closure);
    RolesIdentified(view);
    HashOrderIsByBucket(roles);
    forall a | Nameless(a) ensures multiset(HashOrder(roles))[a] == multiset(view.closure)[a] {
      RunEnvironment(view, a, 0);
      NamelessIsRole(a);
    }
    NamelessInAnyOrder(HashOrder(roles), view.closure);
    NamelessAreCounted(view.closure);
  }

  lemma {:induction false} NamelessIsRole(a: Axiom)
    requires Nameless(a)
    ensures a.body.SubProperty? || a.body.InverseProperties?
  {
  }

  lemma {:induction false} RolesIdentified(view: View)
    requires ViewOk(view)
    ensures Identified(RoleAxioms(view.closure))
  {
    RoleAxiomsAreMembers(view.closure);
    IdentifiedFewer(view.closure, RoleAxioms(view.closure));
  }

  /** A run needs names exactly when some visited axiom does. */
  lemma {:induction false} RunReadsNamesIff(view: View, options: Options)
    requires ViewOk(view)
    ensures ViewReadsNames(view, options) <==>
      exists a :: Visited(view, options, a) && Copies(view, a) > 0 && ReadsNames(a, view.classes)
  {
    hide InOrder, BeforeRaise, Visited, ViewOk, ReadsNames, Copies;
    forall a ensures a in Visits(view, options) <==> Visited(view, options, a) && Copies(view, a) > 0 {
      VisitsAreCalm(view, options, a);
    }
    AnyNamesMembers(InOrder(view, Annotations), view.classes);
    AnyNamesMembers(BeforeRaise(InOrder(view, ObjectAssertions)), view.classes);
    forall a | a in Visits(view, options) && ReadsNames(a, view.classes)
      ensures (options.includeLiterals && a in InOrder(view, Annotations)) || a in BeforeRaise(InOrder(view, ObjectAssertions))
    {
      NamesReadIn(view, options, a);
    }
  }

  lemma {:induction false} NamesReadIn(view: View, options: Options, a: Axiom)
    requires ViewOk(view) && a in Visits(view, options) && ReadsNames(a, view.classes)
    ensures (options.includeLiterals && a in InOrder(view, Annotations)) || a in BeforeRaise(InOrder(view, ObjectAssertions))
  {
    hide InOrder, BeforeRaise, ViewOk;
    CategoryHas(view, SubClasses);
    CategoryHas(view, Equivalents);
    CategoryHas(view, ClassAssertions);
  }

  ghost predicate IsSkipped(a: Axiom, constructor_: nat) {
    a.body.OtherAxiom? && a.constructor_ == constructor_
  }

  ghost function SkippedAt(s: seq<Axiom>, constructor_: nat): set<nat> {
    set i | 0 <= i < |s| && IsSkipped(s[i], constructor_)
  }

  lemma {:induction false} OneMoreSkipped(s: seq<Axiom>, k: nat)
    requires s != []
    ensures |SkippedAt(s, k)| == |SkippedAt(s[..|s| - 1], k)| + if IsSkipped(s[|s| - 1], k) then 1 else 0
  {
    hide IsSkipped;
    var last := |s| - 1;
    assert SkippedAt(s, k) ==
      if IsSkipped(s[last], k) then SkippedAt(s[..last], k) + {last} else SkippedAt(s[..last], k);
  }

  /** Axioms of no category are reported once for each copy, under their constructors. */
  lemma {:induction false} SkippedCopies(s: seq<Axiom>, k: nat)
    ensures Skipped(s)[SkippedAxiom(k)] == |SkippedAt(s, k)|
    ensures forall d | d in Skipped(s) :: d.SkippedAxiom?
    decreases |s|
  {
    if s != [] {
      SkippedCopies(s[..|s| - 1], k);
      OneMoreSkipped(s, k);
    } else {
      assert SkippedAt(s, k) == {};
    }
  }

  // ----- domains and ranges

  /** A domain axiom, or a range axiom, of a named property and a named class. */
  ghost predicate GivesClass(a: Axiom, p: Iri, c: Iri) {
    || a.body == Domain(ObjectProperty(p), NamedClass(c))
    || a.body == Range(ObjectProperty(p), NamedClass(c))
  }

  lemma {:induction false} PairGivesClass(a: Axiom, p: Iri, c: Iri)
    ensures Pair(a) == Some((p, c)) <==> GivesClass(a, p, c)
  {
  }

  lemma {:induction false} ClassMembers(s: seq<Axiom>, p: Iri, c: Iri)
    ensures c in ClassesOf(s, p) <==> exists a | a in s :: GivesClass(a, p, c)
    decreases |s|
  {
    if s != [] {
      var init, last := s[..|s| - 1], s[|s| - 1];
      ClassMembers(init, p, c);
      PairGivesClass(last, p, c);
      assert s == init + [last];
    }
  }

  lemma {:induction false} PropertyMembers(s: seq<Axiom>, p: Iri)
    ensures p in PropertiesOf(s) <==> exists a, c | a in s :: GivesClass(a, p, c)
    ensures forall i, j | 0 <= i < j < |PropertiesOf(s)| :: PropertiesOf(s)[i] != PropertiesOf(s)[j]
    decreases |s|
  {
    if s != [] {
      var init, last := s[..|s| - 1], s[|s| - 1];
      PropertyMembers(init, p);
      if Pair(last).Some? {
        PropertyMembers(init, Pair(last).value.0);
        PairGivesClass(last, Pair(last).value.0, Pair(last).value.1);
      }
      forall c {:trigger GivesClass(last, p, c)} ensures Pair(last) == Some((p, c)) <==> GivesClass(last, p, c) {
        PairGivesClass(last, p, c);
      }
      assert s == init + [last];
    }
  }

  lemma {:induction false} CommonMembers(properties: seq<Iri>, others: seq<Iri>)
    requires forall i, j | 0 <= i < j < |properties| :: properties[i] != properties[j]
    ensures forall p :: p in Common(properties, others) <==> p in properties && p in others
    ensures forall i, j | 0 <= i < j < |Common(properties, others)| ::
      Common(properties, others)[i] != Common(properties, others)[j]
    decreases |properties|
  {
    if properties != [] {
      var init, last := properties[..|properties| - 1], properties[|properties| - 1];
      CommonMembers(init, others);
      assert properties == init + [last];
      assert last !in init;
    }
  }

  lemma {:induction false} RangeMembers(roles: Roles, p: Iri, domain: Iri, ranges: seq<Iri>, e: TermEdge)
    ensures e in RangeEdges(roles, p, domain, ranges) <==>
      exists y | y in ranges :: RoleMeans(roles, IriTerm(domain), p, IriTerm(y), e)
    decreases |ranges|
  {
    hide RoleMeans, RoleEdges;
    if ranges != [] {
      var init, last := ranges[..|ranges| - 1], ranges[|ranges| - 1];
      RangeMembers(roles, p, domain, init, e);
      RoleMembers(roles, IriTerm(domain), p, IriTerm(last), e);
      assert ranges == init + [last];
    }
  }

  ghost predicate PairMeans(roles: Roles, p: Iri, domains: seq<Iri>, ranges: seq<Iri>, e: TermEdge) {
    exists x, y | x in domains && y in ranges :: RoleMeans(roles, IriTerm(x), p, IriTerm(y), e)
  }

  lemma {:induction false} PropertyEdgeMembers(roles: Roles, p: Iri, domains: seq<Iri>, ranges: seq<Iri>, e: TermEdge)
    ensures e in PropertyEdges(roles, p, domains, ranges) <==> PairMeans(roles, p, domains, ranges, e)
    decreases |domains|
  {
    hide RoleMeans, RangeEdges;
    if domains != [] {
      var init, last := domains[..|domains| - 1], domains[|domains| - 1];
      PropertyEdgeMembers(roles, p, init, ranges, e);
      RangeMembers(roles, p, last, ranges, e);
      assert domains == init + [last];
    }
  }

  /** Every edge comes from the property that is its key, and every edge that some property means is there. */
  ghost predicate Keyed(
    roles: Roles, properties: seq<Iri>, domains: seq<Axiom>, ranges: seq<Axiom>, keys: seq<Iri>, edges: seq<TermEdge>)
  {
    && |keys| == |edges|
    && (forall i | 0 <= i < |edges| :: keys[i] in properties && PropertyMeans(roles, keys[i], domains, ranges, edges[i]))
    && (forall p, e | p in properties && PropertyMeans(roles, p, domains, ranges, e) :: e in edges)
  }

  ghost predicate PropertyMeans(roles: Roles, p: Iri, domains: seq<Axiom>, ranges: seq<Axiom>, e: TermEdge) {
    PairMeans(roles, p, ClassesOf(domains, p), ClassesOf(ranges, p), e)
  }

  lemma {:induction false} KeyedMore(
    roles: Roles, properties: seq<Iri>, last: Iri, domains: seq<Axiom>, ranges: seq<Axiom>, keys: seq<Iri>,
    edges: seq<TermEdge>, more: seq<TermEdge>)
    requires Keyed(roles, properties, domains, ranges, keys, edges)
    requires forall e :: e in more <==> PropertyMeans(roles, last, domains, ranges, e)
    ensures Keyed(roles, properties + [last], domains, ranges, keys + seq(|more|, _ => last), edges + more)
  {
    hide PropertyMeans;
    var all, bag := keys + seq(|more|, _ => last), edges + more;
    forall i | 0 <= i < |bag| ensures all[i] in properties + [last] && PropertyMeans(roles, all[i], domains, ranges, bag[i]) {
      if i >= |edges| {
        assert all[i] == last && bag[i] == more[i - |edges|];
      } else {
        assert all[i] == keys[i] && bag[i] == edges[i];
      }
    }
    forall p, e | p in properties + [last] && PropertyMeans(roles, p, domains, ranges, e) ensures e in bag {
      if p in properties {
        assert e in edges;
      }
    }
  }

  /** Every edge of the paired properties comes from one of them, in their order. */
  lemma {:induction false} PairedMembers(
    roles: Roles, properties: seq<Iri>, domains: seq<Axiom>, ranges: seq<Axiom>) returns (keys: seq<Iri>)
    ensures Keyed(roles, properties, domains, ranges, keys, PairedEdges(roles, properties, domains, ranges))
    ensures Ascending(properties, TextLeq) ==> Ascending(keys, TextLeq)
    decreases |properties|
  {
    hide PairMeans, ClassesOf, PropertyEdges, TextLeq, Ascending;
    if properties == [] {
      keys := [];
      NothingAscends();
    } else {
      var init, last := properties[..|properties| - 1], properties[|properties| - 1];
      var before := PairedMembers(roles, init, domains, ranges);
      var more := PropertyEdges(roles, last, ClassesOf(domains, last), ClassesOf(ranges, last));
      keys := before + seq(|more|, _ => last);
      forall e ensures e in more <==> PropertyMeans(roles, last, domains, ranges, e) {
        PropertyEdgeMembers(roles, last, ClassesOf(domains, last), ClassesOf(ranges, last), e);
      }
      assert properties == init + [last];
      KeyedMore(roles, init, last, domains, ranges, before, PairedEdges(roles, init, domains, ranges), more);
      if Ascending(properties, TextLeq) {
        KeysAscend(properties, before, |more|);
      }
    }
  }

  lemma {:induction false} NothingAscends()
    ensures Ascending([], TextLeq)
  {
  }

  lemma {:induction false} KeysAscend(properties: seq<Iri>, before: seq<Iri>, n: nat)
    requires properties != [] && Ascending(properties, TextLeq)
    requires forall k | 0 <= k < |before| :: before[k] in properties[..|properties| - 1]
    requires Ascending(properties[..|properties| - 1], TextLeq) ==> Ascending(before, TextLeq)
    ensures Ascending(before + seq(n, _ => properties[|properties| - 1]), TextLeq)
  {
    hide TextLeq;
    var last := properties[|properties| - 1];
    assert Ascending(properties[..|properties| - 1], TextLeq);
    TextOrder(last, last, last);
    forall p | p in properties[..|properties| - 1] ensures TextLeq(p, last) {
    }
  }

  /** Some domain and some range of the property give the edge. */
  ghost predicate DomainRangeMeans(roles: Roles, domains: seq<Axiom>, ranges: seq<Axiom>, p: Iri, e: TermEdge) {
    exists d, r, x, y | d in domains && r in ranges && GivesClass(d, p, x) && GivesClass(r, p, y) ::
      RoleMeans(roles, IriTerm(x), p, IriTerm(y), e)
  }

  lemma {:induction false} PairIsDomainRange(roles: Roles, domains: seq<Axiom>, ranges: seq<Axiom>, p: Iri, e: TermEdge)
    ensures PairMeans(roles, p, ClassesOf(domains, p), ClassesOf(ranges, p), e) <==>
      DomainRangeMeans(roles, domains, ranges, p, e)
  {
    hide RoleMeans, GivesClass, ClassesOf;
    if PairMeans(roles, p, ClassesOf(domains, p), ClassesOf(ranges, p), e) {
      var x, y :| x in ClassesOf(domains, p) && y in ClassesOf(ranges, p) && RoleMeans(roles, IriTerm(x), p, IriTerm(y), e);
      ClassMembers(domains, p, x);
      ClassMembers(ranges, p, y);
    }
    if DomainRangeMeans(roles, domains, ranges, p, e) {
      var d, r, x, y :| d in domains && r in ranges && GivesClass(d, p, x) && GivesClass(r, p, y)
        && RoleMeans(roles, IriTerm(x), p, IriTerm(y), e);
      ClassMembers(domains, p, x);
      ClassMembers(ranges, p, y);
    }
  }

  function SharedProperties(domains: seq<Axiom>, ranges: seq<Axiom>): seq<Iri> {
    Sorted(Common(PropertiesOf(domains), PropertiesOf(ranges)), TextLeq)
  }

  lemma {:induction false} SharedInOrder(domains: seq<Axiom>, ranges: seq<Axiom>)
    ensures Ascending(SharedProperties(domains, ranges), TextLeq)
    ensures forall p :: p in SharedProperties(domains, ranges) <==> p in Common(PropertiesOf(domains), PropertiesOf(ranges))
  {
    hide Common, PropertiesOf, TextLeq, PairedEdges, Unpaired;
    var shared := Common(PropertiesOf(domains), PropertiesOf(ranges));
    TextsAreOrdered(shared);
    SortedSorts(shared, TextLeq);
    forall p ensures p in SharedProperties(domains, ranges) <==> p in shared {
      assert p in multiset(SharedProperties(domains, ranges)) <==> p in multiset(shared);
    }
  }

  lemma {:induction false} DomainRangeIsPaired(domains: seq<Axiom>, ranges: seq<Axiom>, roles: Roles)
    ensures EmitDomainRange(domains, ranges, roles).edges ==
      PairedEdges(roles, SharedProperties(domains, ranges), domains, ranges)
  {
    hide Common, PropertiesOf, TextLeq, PairedEdges, Unpaired, Sorted;
    UnpairedYieldNothing(domains);
    UnpairedYieldNothing(ranges);
  }

  /** Domains and ranges yield exactly the edges they mean, property after property in byte order. */
  lemma {:induction false} DomainRangeInOrder(domains: seq<Axiom>, ranges: seq<Axiom>, roles: Roles)
    returns (keys: seq<Iri>)
    ensures var edges := EmitDomainRange(domains, ranges, roles).edges;
      && |keys| == |edges|
      && (forall i | 0 <= i < |edges| :: DomainRangeMeans(roles, domains, ranges, keys[i], edges[i]))
      && (forall p, e | DomainRangeMeans(roles, domains, ranges, p, e) :: e in edges)
      && (forall i, j | 0 <= i < j < |keys| :: InByteOrder(keys[i], keys[j]))
  {
    hide PairMeans, DomainRangeMeans, ClassesOf, PairedEdges, InByteOrder, EmitDomainRange, SharedProperties, Ascending,
      TextLeq, PropertiesOf, Common;
    var properties := SharedProperties(domains, ranges);
    SharedInOrder(domains, ranges);
    DomainRangeIsPaired(domains, ranges, roles);
    keys := PairedMembers(roles, properties, domains, ranges);
    var edges := EmitDomainRange(domains, ranges, roles).edges;
    forall p, e ensures PropertyMeans(roles, p, domains, ranges, e) <==> DomainRangeMeans(roles, domains, ranges, p, e) {
      PairIsDomainRange(roles, domains, ranges, p, e);
    }
    forall p, e | DomainRangeMeans(roles, domains, ranges, p, e) ensures e in edges {
      MeantIsShared(roles, domains, ranges, p, e);
    }
    KeysInByteOrder(keys);
  }

  lemma {:induction false} KeysInByteOrder(keys: seq<Iri>)
    requires Ascending(keys, TextLeq)
    ensures forall i, j | 0 <= i < j < |keys| :: InByteOrder(keys[i], keys[j])
  {
    forall i, j | 0 <= i < j < |keys| ensures InByteOrder(keys[i], keys[j]) {
      TextLeqIsByteOrder(keys[i], keys[j]);
    }
  }

  lemma {:induction false} MeantIsShared(roles: Roles, domains: seq<Axiom>, ranges: seq<Axiom>, p: Iri, e: TermEdge)
    requires DomainRangeMeans(roles, domains, ranges, p, e)
    ensures p in Common(PropertiesOf(domains), PropertiesOf(ranges))
  {
    hide RoleMeans, GivesClass, PropertiesOf, Common;
    PropertyMembers(domains, p);
    PropertyMembers(ranges, p);
    CommonMembers(PropertiesOf(domains), PropertiesOf(ranges));
  }

  lemma {:induction false} UnpairedYieldNothing(s: seq<Axiom>)
    ensures Unpaired(s).edges == []
    decreases |s|
  {
    if s != [] {
      UnpairedYieldNothing(s[..|s| - 1]);
    }
  }

  ghost predicate IsUnpaired(a: Axiom, constructor_: nat) {
    a.constructor_ == constructor_ && forall p, c :: !GivesClass(a, p, c)
  }

  ghost function UnpairedAt(s: seq<Axiom>, constructor_: nat): set<nat> {
    set i | 0 <= i < |s| && IsUnpaired(s[i], constructor_)
  }

  lemma {:induction false} OneMoreUnpaired(s: seq<Axiom>, k: nat)
    requires s != []
    ensures |UnpairedAt(s, k)| == |UnpairedAt(s[..|s| - 1], k)| + if IsUnpaired(s[|s| - 1], k) then 1 else 0
  {
    hide IsUnpaired;
    var last := |s| - 1;
    assert UnpairedAt(s, k) ==
      if IsUnpaired(s[last], k) then UnpairedAt(s[..last], k) + {last} else UnpairedAt(s[..last], k);
  }

  /** Domains and ranges without a named property and class are reported, each copy once. */
  lemma {:induction false} UnpairedCopies(s: seq<Axiom>, k: nat)
    ensures Unpaired(s).bag[IgnoredShape(k)] == |UnpairedAt(s, k)|
    ensures |Unpaired(s).bag| == Unpaired(s).ignored && forall d | d in Unpaired(s).bag :: d.IgnoredShape?
    decreases |s|
  {
    hide UnpairedAt;
    if s != [] {
      var last := s[|s| - 1];
      UnpairedCopies(s[..|s| - 1], k);
      OneMoreUnpaired(s, k);
      if Pair(last).Some? {
        PairGivesClass(last, Pair(last).value.0, Pair(last).value.1);
      }
      forall p, c ensures Pair(last) == Some((p, c)) <==> GivesClass(last, p, c) {
        PairGivesClass(last, p, c);
      }
    } else {
      NothingUnpaired(k);
    }
  }

  lemma {:induction false} NothingUnpaired(k: nat)
    ensures UnpairedAt([], k) == {}
  {
  }

  // ----- the edges of a run

  /** A domain axiom and a range axiom of one named property relate their classes. */
  ghost predicate ClosureRelates(roles: Roles, closure: seq<Axiom>, e: TermEdge) {
    exists d, r, p, x, y | d in closure && r in closure
      && d.body == Domain(ObjectProperty(p), NamedClass(x)) && r.body == Range(ObjectProperty(p), NamedClass(y)) ::
      RoleMeans(roles, IriTerm(x), p, IriTerm(y), e)
  }

  ghost predicate AxiomsMean(view: View, env: Env, options: Options, e: TermEdge) {
    exists a :: Visited(view, options, a) && Copies(view, a) > 0 && AxiomMeans(env, AllAnonymous(view.closure), a, e)
  }

  lemma {:induction false} FlatMembers(env: Env, anonymous: set<nat>, axioms: seq<Axiom>, e: TermEdge)
    requires env.ids == BlankIds(anonymous) && forall a | a in axioms :: !Raises(a)
    ensures e in Flat(env, axioms) <==> exists a | a in axioms :: AxiomMeans(env, anonymous, a, e)
    decreases |axioms|
  {
    hide Emit, AxiomMeans, Raises;
    if axioms != [] {
      FlatMembers(env, anonymous, axioms[1..], e);
      assert axioms == [axioms[0]] + axioms[1..];
      AxiomMembers(axioms[0], env, anonymous, e);
    }
  }

  lemma {:induction false} VisitsAreCalm(view: View, options: Options, a: Axiom)
    requires ViewOk(view)
    ensures a in Visits(view, options) <==> Visited(view, options, a) && Copies(view, a) > 0
    ensures a in Visits(view, options) ==> !Raises(a)
  {
    hide Visits, ViewOk;
    VisitsAreVisited(view, options, a);
    assert a in multiset(Visits(view, options)) <==> a in Visits(view, options);
    assert Visited(view, options, a) && Copies(view, a) > 0 && a.body.ObjectAssertion? ==> a in view.closure;
  }

  lemma {:induction false} MeansIsRelates(
    roles: Roles, closure: seq<Axiom>, domains: seq<Axiom>, ranges: seq<Axiom>, p: Iri, e: TermEdge)
    requires forall a :: a in domains <==> a in closure && a.body.Domain?
    requires forall a :: a in ranges <==> a in closure && a.body.Range?
    requires DomainRangeMeans(roles, domains, ranges, p, e)
    ensures ClosureRelates(roles, closure, e)
  {
    hide RoleMeans;
    var d, r, x, y :| d in domains && r in ranges && GivesClass(d, p, x) && GivesClass(r, p, y)
      && RoleMeans(roles, IriTerm(x), p, IriTerm(y), e);
  }

  lemma {:induction false} RelatesIsMeans(
    roles: Roles, closure: seq<Axiom>, domains: seq<Axiom>, ranges: seq<Axiom>, e: TermEdge) returns (p: Iri)
    requires forall a :: a in domains <==> a in closure && a.body.Domain?
    requires forall a :: a in ranges <==> a in closure && a.body.Range?
    requires ClosureRelates(roles, closure, e)
    ensures DomainRangeMeans(roles, domains, ranges, p, e)
  {
    hide RoleMeans, GivesClass;
    var d, r, q, x, y :| d in closure && r in closure
      && d.body == Domain(ObjectProperty(q), NamedClass(x)) && r.body == Range(ObjectProperty(q), NamedClass(y))
      && RoleMeans(roles, IriTerm(x), q, IriTerm(y), e);
    p := q;
    DomainGives(d, p, x);
    RangeGives(r, p, y);
    assert d in domains && r in ranges;
  }

  lemma {:induction false} DomainGives(a: Axiom, p: Iri, c: Iri)
    requires a.body == Domain(ObjectProperty(p), NamedClass(c))
    ensures GivesClass(a, p, c)
  {
  }

  lemma {:induction false} RangeGives(a: Axiom, p: Iri, c: Iri)
    requires a.body == Range(ObjectProperty(p), NamedClass(c))
    ensures GivesClass(a, p, c)
  {
  }

  lemma {:induction false} RelatesInOrder(view: View, roles: Roles, e: TermEdge)
    requires ViewOk(view)
    ensures e in EmitDomainRange(InOrder(view, Domains), InOrder(view, Ranges), roles).edges <==>
      ClosureRelates(roles, view.closure, e)
  {
    hide InOrder, EmitDomainRange, ClosureRelates, DomainRangeMeans, ViewOk;
    var domains, ranges := InOrder(view, Domains), InOrder(view, Ranges);
    var edges := EmitDomainRange(domains, ranges, roles).edges;
    var keys := DomainRangeInOrder(domains, ranges, roles);
    OrderedMembers(view, Domains);
    OrderedMembers(view, Ranges);
    if e in edges {
      var i :| 0 <= i < |edges| && edges[i] == e;
      MeansIsRelates(roles, view.closure, domains, ranges, keys[i], e);
    }
    if ClosureRelates(roles, view.closure, e) {
      var p := RelatesIsMeans(roles, view.closure, domains, ranges, e);
    }
  }

  /**
   The edges of a run are exactly those that some visited axiom means, and, unless an
   inverse assertion stopped it, those that a domain and a range of one property give.
   */
  lemma {:induction false} RunYieldsWhatAxiomsMean(view: View, options: Options, start: Roles, e: TermEdge)
    requires ViewOk(view)
    ensures var env := EnvOf(view, options, start);
      e in Whole(view, env).edges <==>
        || AxiomsMean(view, env, options, e)
        || ((forall b | b in view.closure :: !IsInverseAssertion(b)) && ClosureRelates(env.roles, view.closure, e))
  {
    hide Visits, Whole, Flat, EmitDomainRange, AxiomMeans, ClosureRelates, Visited, FinalRoles, ViewOk, Raises;
    var env := EnvOf(view, options, start);
    WholeIsVisits(view, options, start);
    forall a ensures a in Visits(view, options) <==> Visited(view, options, a) && Copies(view, a) > 0
      ensures a in Visits(view, options) ==> !Raises(a)
    {
      VisitsAreCalm(view, options, a);
    }
    FlatMembers(env, AllAnonymous(view.closure), Visits(view, options), e);
    RelatesInOrder(view, env.roles, e);
  }
}
