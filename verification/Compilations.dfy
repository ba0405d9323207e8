/**
 The scalar compiler, prepared eagerly or traversed lazily.

 An eager compilation scans the closure once, updates the role maps and sorts every
 category before it yields anything.  A lazy one takes each category from the view when a
 consumer reaches it, and updates the role maps and names anonymous individuals only when
 an edge first needs them, or at the end.
 */
module Compilations {
  import opened Wrappers
  import opened Sorting
  import opened EdgePolicies
  import opened Axioms

  datatype Category = SubClasses | Equivalents | ClassAssertions | ObjectAssertions | Domains | Ranges
    | SubProperties | InversePairs | Annotations

  predicate Has(c: Category, a: Axiom) {
    match c
    case SubClasses => a.body.SubClass?
    case Equivalents => a.body.Equivalent?
    case ClassAssertions => a.body.ClassAssertion?
    case ObjectAssertions => a.body.ObjectAssertion?
    case Domains => a.body.Domain?
    case Ranges => a.body.Range?
    case SubProperties => a.body.SubProperty?
    case InversePairs => a.body.InverseProperties?
    case Annotations => a.body.Annotation?
  }

  function Select(s: seq<Axiom>, c: Category): seq<Axiom> {
    if s == [] then [] else Select(s[..|s| - 1], c) + if Has(c, s[|s| - 1]) then [s[|s| - 1]] else []
  }

  function RoleAxioms(s: seq<Axiom>): seq<Axiom> {
    if s == [] then [] else RoleAxioms(s[..|s| - 1]) + if IsRole(s[|s| - 1]) then [s[|s| - 1]] else []
  }

  /** A view yields its closure in any order, and every category on request. */
  datatype View = View(closure: seq<Axiom>, root: seq<Axiom>, classes: set<Iri>, typed: Category -> seq<Axiom>)

  /** Where a category comes from: annotations from the root scope, all others from the closure. */
  function Scope(view: View, c: Category): seq<Axiom> {
    if c.Annotations? then view.root else view.closure
  }

  ghost predicate ViewOk(view: View) {
    && Identified(view.closure) && Identified(view.root)
    && forall c :: multiset(view.typed(c)) == multiset(Select(Scope(view, c), c))
  }

  /** The view yields every category whose edges are read in order of canonical encodings. */
  ghost predicate CanonicalView(view: View) {
    forall c: Category | !c.SubProperties? && !c.InversePairs? :: Ascending(view.typed(c), CanonicalLeq)
  }

  // ----- what a compilation is to compute

  function FinalRoles(view: View, start: Roles): Roles {
    UpdateRoles(start, HashOrder(RoleAxioms(view.closure)))
  }

  function IgnoredRoles(view: View): nat {
    UnnamedRoles(HashOrder(RoleAxioms(view.closure)))
  }

  function Names(view: View): map<nat, nat> {
    BlankIds(AllAnonymous(view.closure))
  }

  function EnvOf(view: View, options: Options, start: Roles): Env {
    Env(FinalRoles(view, start), Names(view), view.classes, options)
  }

  function InOrder(view: View, c: Category): seq<Axiom> {
    Sorted(Select(Scope(view, c), c), CanonicalLeq)
  }

  function EmitCategory(view: View, c: Category, env: Env): Emission {
    EmitAll(InOrder(view, c), env)
  }

  /** The edges before the object-property assertions. */
  function FirstPart(view: View, env: Env): Emission {
    var taxonomy := Plus(EmitCategory(view, SubClasses, env), EmitCategory(view, Equivalents, env));
    var literals := if env.options.includeLiterals then EmitCategory(view, Annotations, env) else SILENCE;
    Plus(Plus(taxonomy, literals), EmitCategory(view, ClassAssertions, env))
  }

  predicate RunRaises(view: View) {
    |BeforeRaise(InOrder(view, ObjectAssertions))| < |InOrder(view, ObjectAssertions)|
  }

  function Whole(view: View, env: Env): Emission {
    var assertions := EmitAll(BeforeRaise(InOrder(view, ObjectAssertions)), env);
    var part := Plus(FirstPart(view, env), assertions);
    if RunRaises(view) then part
    else Plus(part, EmitDomainRange(InOrder(view, Domains), InOrder(view, Ranges), env.roles))
  }

  // ----- categories of well-behaved views

  lemma {:induction false} SelectedIsMember(s: seq<Axiom>, c: Category)
    ensures forall a | a in Select(s, c) :: a in s
    decreases |s|
  {
    if s != [] {
      SelectedIsMember(s[..|s| - 1], c);
    }
  }

  lemma {:induction false} IdentifiedFewer(s: seq<Axiom>, part: seq<Axiom>)
    requires Identified(s) && forall a | a in part :: a in s
    ensures Identified(part)
  {
  }

  lemma {:induction false} CanonicalIsInOrder(view: View, c: Category)
    requires ViewOk(view) && Ascending(view.typed(c), CanonicalLeq)
    ensures view.typed(c) == InOrder(view, c)
  {
    var selected := Select(Scope(view, c), c);
    SelectedIsMember(Scope(view, c), c);
    IdentifiedFewer(Scope(view, c), selected);
    CanonicalOrders(selected);
    forall a | a in view.typed(c) ensures a in selected {
      assert a in multiset(view.typed(c));
    }
    OrdersFewer(selected, view.typed(c), CanonicalLeq);
    SortedIsCanonical(selected, view.typed(c), CanonicalLeq);
    AscendingIsSorted(view.typed(c), CanonicalLeq);
  }

  function Only(a: Axiom, keep: bool): seq<Axiom> {
    if keep then [a] else []
  }

  lemma {:induction false} SelectLast(s: seq<Axiom>)
    requires s != []
    ensures var init, last := s[..|s| - 1], s[|s| - 1];
      && RoleAxioms(s) == RoleAxioms(init) + Only(last, IsRole(last))
      && Select(s, SubProperties) == Select(init, SubProperties) + Only(last, last.body.SubProperty?)
      && Select(s, InversePairs) == Select(init, InversePairs) + Only(last, last.body.InverseProperties?)
  {
  }

  lemma {:induction false} RoleAxiomsAreTwoCategories(s: seq<Axiom>)
    ensures multiset(RoleAxioms(s)) == multiset(Select(s, SubProperties)) + multiset(Select(s, InversePairs))
    decreases |s|
  {
    hide RoleAxioms, Select;
    if s == [] {
      NoRoleAxioms();
    } else {
      var init, last := s[..|s| - 1], s[|s| - 1];
      RoleAxiomsAreTwoCategories(init);
      SelectLast(s);
      assert multiset(Only(last, IsRole(last))) ==
        multiset(Only(last, last.body.SubProperty?)) + multiset(Only(last, last.body.InverseProperties?));
    }
  }

  lemma {:induction false} NoRoleAxioms()
    ensures RoleAxioms([]) == [] && Select([], SubProperties) == [] && Select([], InversePairs) == []
  {
  }

  lemma {:induction false} RoleAxiomsAreMembers(s: seq<Axiom>)
    ensures forall a | a in RoleAxioms(s) :: a in s
    decreases |s|
  {
    if s != [] {
      RoleAxiomsAreMembers(s[..|s| - 1]);
    }
  }

  /** The two ways of collecting the role axioms give the same hash order. */
  lemma {:induction false} RolesFromCategories(view: View)
    requires ViewOk(view)
    ensures HashOrder(view.typed(SubProperties) + view.typed(InversePairs)) == HashOrder(RoleAxioms(view.closure))
  {
    RoleAxiomsAreTwoCategories(view.closure);
    RoleAxiomsAreMembers(view.closure);
    IdentifiedFewer(view.closure, RoleAxioms(view.closure));
    assert Scope(view, SubProperties) == view.closure && Scope(view, InversePairs) == view.closure;
    HashOrderIsCanonical(RoleAxioms(view.closure), view.typed(SubProperties) + view.typed(InversePairs));
  }

  lemma {:induction false} PlusIsAssociative(a: Emission, b: Emission, c: Emission)
    ensures Plus(Plus(a, b), c) == Plus(a, Plus(b, c))
  {
  }

  lemma {:induction false} SilenceIsNeutral(a: Emission)
    ensures Plus(a, SILENCE) == a && Plus(SILENCE, a) == a
  {
  }

  lemma {:induction false} EmitOneMore(s: seq<Axiom>, n: nat, env: Env)
    requires n < |s|
    ensures EmitAll(s[..n + 1], env) == Plus(EmitAll(s[..n], env), Emit(s[n], env))
  {
    assert s[..n + 1][..n] == s[..n];
  }

  lemma {:induction false} ReadOneMore(s: seq<Axiom>, n: nat, options: Options, classes: set<Iri>)
    requires n < |s|
    ensures AnyReads(s[..n + 1], options) <==> AnyReads(s[..n], options) || ReadsRoles(s[n], options)
    ensures AnyNames(s[..n + 1], classes) <==> AnyNames(s[..n], classes) || ReadsNames(s[n], classes)
  {
    assert s[..n + 1][..n] == s[..n];
  }

  /** Some axiom with edges of its own needs the role maps. */
  ghost predicate ViewReadsRoles(view: View, options: Options) {
    exists a | a in view.closure :: ReadsRoles(a, options)
  }

  lemma {:induction false} OrderedMembers(view: View, c: Category)
    requires ViewOk(view)
    ensures forall a :: a in InOrder(view, c) <==> a in Scope(view, c) && Has(c, a)
  {
    var selected := Select(Scope(view, c), c);
    SelectedHas(Scope(view, c), c);
    SelectedIsMember(Scope(view, c), c);
    IdentifiedFewer(Scope(view, c), selected);
    CanonicalOrders(selected);
    SortedSorts(selected, CanonicalLeq);
    forall a ensures a in InOrder(view, c) <==> a in selected {
      assert a in multiset(InOrder(view, c)) <==> a in multiset(selected);
    }
    forall a | a in Scope(view, c) && Has(c, a) ensures a in selected {
      SelectedAll(Scope(view, c), c, a);
    }
  }

  lemma {:induction false} SelectedAll(s: seq<Axiom>, c: Category, a: Axiom)
    requires a in s && Has(c, a)
    ensures a in Select(s, c)
    decreases |s|
  {
    if a != s[|s| - 1] {
      SelectedAll(s[..|s| - 1], c, a);
    }
  }

  /** Only subclass and equivalence axioms read the role maps before domains and ranges do. */
  lemma {:induction false} WhoReadsRoles(view: View, options: Options)
    requires ViewOk(view)
    ensures ViewReadsRoles(view, options) <==>
      AnyReads(InOrder(view, SubClasses), options) || AnyReads(InOrder(view, Equivalents), options)
    ensures forall c: Category | !c.SubClasses? && !c.Equivalents? ::
      !AnyReads(InOrder(view, c), options) && !AnyReads(BeforeRaise(InOrder(view, c)), options)
  {
    hide InOrder;
    OrderedMembers(view, SubClasses);
    OrderedMembers(view, Equivalents);
    AnyReadsMembers(InOrder(view, SubClasses), options);
    AnyReadsMembers(InOrder(view, Equivalents), options);
    forall c: Category | !c.SubClasses? && !c.Equivalents?
      ensures !AnyReads(InOrder(view, c), options) && !AnyReads(BeforeRaise(InOrder(view, c)), options)
    {
      OrderedMembers(view, c);
      AnyReadsMembers(InOrder(view, c), options);
      AnyReadsMembers(BeforeRaise(InOrder(view, c)), options);
      assert forall a | a in BeforeRaise(InOrder(view, c)) :: a in InOrder(view, c);
    }
  }

  /** The axioms that need the names of anonymous individuals, up to the first one that raises. */
  predicate ViewReadsNames(view: View, options: Options) {
    || (options.includeLiterals && AnyNames(InOrder(view, Annotations), view.classes))
    || AnyNames(BeforeRaise(InOrder(view, ObjectAssertions)), view.classes)
  }

  lemma {:induction false} WhoReadsNames(view: View)
    requires ViewOk(view)
    ensures forall c: Category | !c.Annotations? && !c.ObjectAssertions? ::
      !AnyNames(InOrder(view, c), view.classes)
  {
    hide InOrder;
    forall c: Category | !c.Annotations? && !c.ObjectAssertions?
      ensures !AnyNames(InOrder(view, c), view.classes)
    {
      OrderedMembers(view, c);
      AnyNamesMembers(InOrder(view, c), view.classes);
    }
  }

  // ----- the state of a compilation, as values

  datatype State = State(
    roles: Roles, rolesPrepared: bool, ids: map<nat, nat>, scanned: bool, classes: set<Iri>,
    ignored: nat, skipped: nat, bag: multiset<Diagnostic>)

  /** The state agrees with what has been emitted: each scan has left its traces once, or not at all. */
  ghost predicate StateOk(view: View, start: Roles, s: State, emitted: Emission) {
    && s.roles == (if s.rolesPrepared then FinalRoles(view, start) else start)
    && s.ids == (if s.scanned then Names(view) else map[])
    && s.ignored == emitted.ignored + (if s.rolesPrepared then IgnoredRoles(view) else 0)
    && s.skipped == (if s.scanned then |Skipped(view.closure)| else 0)
    && s.bag == emitted.bag + (if s.scanned then Skipped(view.closure) else multiset{})
  }

  lemma {:induction false} MoreIgnored(view: View, start: Roles, s: State, emitted: Emission, more: Emission)
    requires StateOk(view, start, s, emitted)
    ensures StateOk(view, start, s.(ignored := s.ignored + more.ignored, bag := s.bag + more.bag), Plus(emitted, more))
  {
    hide FinalRoles, IgnoredRoles, Names, Skipped;
    assert s.bag + more.bag == emitted.bag + more.bag + if s.scanned then Skipped(view.closure) else multiset{};
  }

  lemma {:induction false} NothingScanned(s: seq<Axiom>)
    ensures Skipped(s[..0]) == multiset{} && AllAnonymous(s[..0]) == {}
  {
  }

  lemma {:induction false} OneMoreScanned(s: seq<Axiom>, i: nat)
    requires i < |s|
    ensures AllAnonymous(s[..i + 1]) == AllAnonymous(s[..i]) + s[i].anonymous
    ensures Skipped(s[..i + 1]) == Skipped(s[..i]) +
      if s[i].body.OtherAxiom? then multiset{SkippedAxiom(s[i].constructor_)} else multiset{}
  {
    assert s[..i + 1][..i] == s[..i];
  }

  /** Gathers the role axioms of a closure in the order they are met. */
  method CollectRoles(closure: seq<Axiom>) returns (rbox: seq<Axiom>)
    ensures rbox == RoleAxioms(closure)
  {
    rbox := [];
    var i := 0;
    assert closure[..0] == [];
    while i < |closure|
      invariant 0 <= i <= |closure|
      invariant rbox == RoleAxioms(closure[..i])
    {
      assert closure[..i + 1][..i] == closure[..i];
      if IsRole(closure[i]) {
        rbox := rbox + [closure[i]];
      }
      i := i + 1;
    }
    assert closure[..i] == closure;
  }

  /** Gathers one category of a scope and sorts it by canonical encoding. */
  method SortCategory(view: View, c: Category) returns (axioms: seq<Axiom>)
    ensures axioms == InOrder(view, c)
  {
    var scope := Scope(view, c);
    var selected: seq<Axiom> := [];
    var i := 0;
    assert scope[..0] == [];
    while i < |scope|
      invariant 0 <= i <= |scope|
      invariant selected == Select(scope[..i], c)
    {
      assert scope[..i + 1][..i] == scope[..i];
      if Has(c, scope[i]) {
        selected := selected + [scope[i]];
      }
      i := i + 1;
    }
    assert scope[..i] == scope;
    axioms := Sorted(selected, CanonicalLeq);
  }

  /** The groups are the classes of every property that has any. */
  ghost predicate GroupsOf(axioms: seq<Axiom>, groups: map<Iri, seq<Iri>>) {
    forall p :: (p in groups <==> p in PropertiesOf(axioms)) && (p in groups ==> groups[p] == ClassesOf(axioms, p))
  }

  lemma {:induction false} NoClasses(s: seq<Axiom>, property: Iri)
    ensures property !in PropertiesOf(s) ==> ClassesOf(s, property) == []
    decreases |s|
  {
    if s != [] {
      NoClasses(s[..|s| - 1], property);
    }
  }

  lemma {:induction false} NothingGrouped(s: seq<Axiom>)
    ensures PropertiesOf(s[..0]) == [] && Unpaired(s[..0]) == SILENCE && GroupsOf(s[..0], map[])
  {
  }

  lemma {:induction false} GroupedLast(s: seq<Axiom>, i: nat, p: Iri)
    requires i < |s|
    ensures var pair := Pair(s[i]);
      && Unpaired(s[..i + 1]) == Plus(Unpaired(s[..i]), if pair.None? then Ignore(s[i]) else SILENCE)
      && PropertiesOf(s[..i + 1]) == (if pair.None? || pair.value.0 in PropertiesOf(s[..i])
           then PropertiesOf(s[..i]) else PropertiesOf(s[..i]) + [pair.value.0])
      && ClassesOf(s[..i + 1], p) ==
           ClassesOf(s[..i], p) + if pair.Some? && pair.value.0 == p then [pair.value.1] else []
  {
    assert s[..i + 1][..i] == s[..i];
  }

  function GroupedWith(groups: map<Iri, seq<Iri>>, pair: Option<(Iri, Iri)>): map<Iri, seq<Iri>> {
    if pair.None? then groups
    else groups[pair.value.0 := (if pair.value.0 in groups then groups[pair.value.0] else []) + [pair.value.1]]
  }

  lemma {:induction false} OneMoreGrouped(s: seq<Axiom>, i: nat, groups: map<Iri, seq<Iri>>)
    requires i < |s| && GroupsOf(s[..i], groups)
    ensures var pair := Pair(s[i]);
      && Unpaired(s[..i + 1]) == Plus(Unpaired(s[..i]), if pair.None? then Ignore(s[i]) else SILENCE)
      && PropertiesOf(s[..i + 1]) == (if pair.None? || pair.value.0 in groups
           then PropertiesOf(s[..i]) else PropertiesOf(s[..i]) + [pair.value.0])
      && GroupsOf(s[..i + 1], GroupedWith(groups, pair))
  {
    hide Pair, PropertiesOf, ClassesOf, Unpaired, Plus;
    var pair := Pair(s[i]);
    var after := GroupedWith(groups, pair);
    GroupedLast(s, i, []);
    forall p
      ensures p in after <==> p in PropertiesOf(s[..i + 1])
      ensures p in after ==> after[p] == ClassesOf(s[..i + 1], p)
    {
      GroupedLast(s, i, p);
      NoClasses(s[..i], p);
    }
  }

  /** The properties that have both, in the order their domains were met. */
  method SharedKeys(properties: seq<Iri>, ranges: map<Iri, seq<Iri>>) returns (shared: seq<Iri>)
    ensures forall others: seq<Iri> | (forall p :: p in others <==> p in ranges) :: shared == Common(properties, others)
    ensures forall p :: p in shared <==> p in properties && p in ranges
  {
    shared := [];
    var i := 0;
    assert properties[..0] == [];
    while i < |properties|
      invariant 0 <= i <= |properties|
      invariant forall others: seq<Iri> | (forall p :: p in others <==> p in ranges) ::
        shared == Common(properties[..i], others)
      invariant forall p :: p in shared <==> p in properties[..i] && p in ranges
    {
      assert properties[..i + 1][..i] == properties[..i];
      assert properties[..i + 1] == properties[..i] + [properties[i]];
      if properties[i] in ranges {
        shared := shared + [properties[i]];
      }
      i := i + 1;
    }
    assert properties[..i] == properties;
  }

  lemma {:induction false} SharedIsCommon(
    domains: seq<Axiom>, ranges: seq<Axiom>, domainGroups: map<Iri, seq<Iri>>, rangeGroups: map<Iri, seq<Iri>>,
    shared: seq<Iri>)
    requires GroupsOf(domains, domainGroups) && GroupsOf(ranges, rangeGroups)
    requires forall others: seq<Iri> | (forall p :: p in others <==> p in rangeGroups) ::
      shared == Common(PropertiesOf(domains), others)
    requires forall p :: p in shared <==> p in PropertiesOf(domains) && p in rangeGroups
    ensures shared == Common(PropertiesOf(domains), PropertiesOf(ranges))
    ensures forall p | p in Sorted(shared, TextLeq) :: p in domainGroups && p in rangeGroups
  {
    TextsAreOrdered(shared);
    SortedSorts(shared, TextLeq);
    forall p | p in Sorted(shared, TextLeq) ensures p in shared {
      assert p in multiset(Sorted(shared, TextLeq));
    }
  }

  lemma {:induction false} TextsAreOrdered(s: seq<Text>)
    ensures Orders(s, TextLeq)
  {
    forall a, b | a in s && b in s
      ensures TextLeq(a, b) || TextLeq(b, a)
      ensures TextLeq(a, b) && TextLeq(b, a) ==> a == b
    {
      TextOrder(a, b, a);
    }
    forall a, b, c | a in s && b in s && c in s && TextLeq(a, b) && TextLeq(b, c) ensures TextLeq(a, c) {
      TextOrder(a, b, c);
    }
  }

  lemma {:induction false} MoreEdges(a: Emission, some: seq<TermEdge>, more: seq<TermEdge>)
    ensures Plus(Plus(a, Edges(some)), Edges(more)) == Plus(a, Edges(some + more))
  {
  }

  lemma {:induction false} NoEdges()
    ensures Edges([]) == SILENCE
  {
  }

  class Compilation {
    const view: View
    const options: Options
    const lazy: bool
    ghost const start: Roles
    var roleState: Roles
    var rolesPrepared: bool
    var blankIds: map<nat, nat>
    var scanned: bool
    var classIris: set<Iri>
    var ignoredShapes: nat
    var skippedAxioms: nat
    var diagnostics: multiset<Diagnostic>

    /** The edges and reports of everything emitted so far. */
    ghost var emitted: Emission

    function Value(): State
      reads this
    {
      State(roleState, rolesPrepared, blankIds, scanned, classIris, ignoredShapes, skippedAxioms, diagnostics)
    }

    ghost function Goal(): Env {
      EnvOf(view, options, start)
    }

    ghost predicate Valid()
      reads this
    {
      && ViewOk(view)
      && StateOk(view, start, Value(), emitted)
      && (lazy ==> CanonicalView(view))
      && (!lazy ==> rolesPrepared && scanned && classIris == view.classes)
    }

    /** Starts without looking at the view. */
    constructor Streaming(view: View, options: Options, roles: Roles)
      requires ViewOk(view) && CanonicalView(view)
      ensures Valid() && lazy && !rolesPrepared && emitted == SILENCE
      ensures this.view == view && this.options == options && this.start == roles
    {
      this.view, this.options, this.lazy, this.start := view, options, true, roles;
      roleState, rolesPrepared, blankIds, scanned, classIris := roles, false, map[], false, {};
      ignoredShapes, skippedAxioms, diagnostics, emitted := 0, 0, multiset{}, SILENCE;
    }

    /** Scans the closure first. */
    constructor Prepared(view: View, options: Options, roles: Roles)
      requires ViewOk(view)
      ensures Valid() && !lazy && emitted == SILENCE
      ensures this.view == view && this.options == options && this.start == roles
    {
      this.view, this.options, this.lazy, this.start := view, options, false, roles;
      roleState, rolesPrepared, blankIds, scanned, classIris := roles, false, map[], false, view.classes;
      ignoredShapes, skippedAxioms, diagnostics, emitted := 0, 0, multiset{}, SILENCE;
      new;
      ScanClosure();
      var rbox := CollectRoles(view.closure);
      ApplyRoles(rbox);
    }

    /** Counts the axioms that no category holds, and names the anonymous individuals. */
    method ScanClosure()
      requires !scanned && StateOk(view, start, Value(), emitted)
      modifies this`skippedAxioms, this`diagnostics, this`blankIds, this`scanned
      ensures scanned && StateOk(view, start, Value(), emitted)
    {
      hide FinalRoles, IgnoredRoles, Skipped, AllAnonymous, BlankIds;
      var anonymous: set<nat> := {};
      var i := 0;
      NothingScanned(view.closure);
      ghost var before := diagnostics;
      while i < |view.closure|
        invariant 0 <= i <= |view.closure|
        invariant anonymous == AllAnonymous(view.closure[..i])
        invariant skippedAxioms == |Skipped(view.closure[..i])|
        invariant diagnostics == before + Skipped(view.closure[..i])
      {
        var axiom := view.closure[i];
        OneMoreScanned(view.closure, i);
        anonymous := anonymous + axiom.anonymous;
        if axiom.body.OtherAxiom? {
          skippedAxioms := skippedAxioms + 1;
          diagnostics := diagnostics + multiset{SkippedAxiom(axiom.constructor_)};
        }
        i := i + 1;
      }
      assert view.closure[..i] == view.closure;
      blankIds := BlankIds(anonymous);
      scanned := true;
    }

    /** Updates the role maps in hash order. */
    method ApplyRoles(rbox: seq<Axiom>)
      requires !rolesPrepared && StateOk(view, start, Value(), emitted)
      requires HashOrder(rbox) == HashOrder(RoleAxioms(view.closure))
      modifies this`roleState, this`ignoredShapes, this`rolesPrepared
      ensures rolesPrepared && StateOk(view, start, Value(), emitted)
    {
      hide HashOrder, Names, Skipped, RoleAxioms;
      var ordered := HashOrder(rbox);
      var i := 0;
      ghost var before := ignoredShapes;
      assert ordered[..0] == [];
      while i < |ordered|
        invariant 0 <= i <= |ordered|
        invariant roleState == UpdateRoles(start, ordered[..i])
        invariant ignoredShapes == before + UnnamedRoles(ordered[..i])
      {
        assert ordered[..i + 1][..i] == ordered[..i];
        if UnnamedRole(ordered[i]) {
          ignoredShapes := ignoredShapes + 1;
        }
        roleState := UpdateRole(roleState, ordered[i]);
        i := i + 1;
      }
      assert ordered[..i] == ordered;
      rolesPrepared := true;
    }

    method EnsureRoles()
      requires Valid()
      modifies this`roleState, this`ignoredShapes, this`rolesPrepared
      ensures Valid() && rolesPrepared && roleState == Goal().roles
    {
      hide StateOk, HashOrder;
      if !rolesPrepared {
        RolesFromCategories(view);
        ApplyRoles(view.typed(SubProperties) + view.typed(InversePairs));
      }
      RolesAreFinal(view, start, Value(), emitted);
    }

    /** Stateful calls update the role maps before they iterate. */
    method PrepareRoleState()
      requires Valid()
      modifies this`roleState, this`ignoredShapes, this`rolesPrepared
      ensures Valid() && rolesPrepared && roleState == Goal().roles
    {
      EnsureRoles();
    }

    method ScanClosureMetadata()
      requires Valid()
      modifies this`skippedAxioms, this`diagnostics, this`blankIds, this`scanned
      ensures Valid() && scanned && blankIds == Goal().ids
    {
      hide StateOk;
      if !scanned {
        ScanClosure();
      }
      RolesAreFinal(view, start, Value(), emitted);
    }

    method IndividualId(i: Individual) returns (term: Term)
      requires Valid()
      modifies this`skippedAxioms, this`diagnostics, this`blankIds, this`scanned
      ensures Valid() && term == IndividualTerm(Goal().ids, i)
      ensures scanned == (old(scanned) || i.Anonymous?)
    {
      hide StateOk, Names;
      if i.Named? {
        return IriTerm(i.iri);
      }
      if lazy && !scanned {
        ScanClosureMetadata();
      }
      RolesAreFinal(view, start, Value(), emitted);
      term := if i.id in blankIds then BlankTerm(blankIds[i.id]) else CoreBlank(i.id);
    }

    method RestrictionEdgesOf(subject: Iri, e: ClassExpr) returns (edges: seq<TermEdge>)
      requires Valid()
      modifies this`roleState, this`ignoredShapes, this`rolesPrepared
      ensures Valid() && edges == RestrictionEdges(Goal().roles, subject, e)
      ensures rolesPrepared == (old(rolesPrepared) || Projects(e))
    {
      if !Projects(e) {
        return [];
      }
      EnsureRoles();
      edges := RoleEdges(roleState, IriTerm(subject), PropertyName(e.property).value, IriTerm(e.filler.value));
    }

    // ----- one axiom

    /** Records what an axiom emitted: its reports here, its edges for the consumer. */
    method Record(more: Emission)
      requires Valid()
      modifies this`ignoredShapes, this`diagnostics, this`emitted
      ensures Valid() && emitted == Plus(old(emitted), more)
    {
      hide StateOk;
      MoreIgnored(view, start, Value(), emitted, more);
      ignoredShapes := ignoredShapes + more.ignored;
      diagnostics := diagnostics + more.bag;
      emitted := Plus(emitted, more);
    }

    /** Yields edges, or reports the axiom if there are none. */
    method YieldOrIgnore(a: Axiom, edges: seq<TermEdge>)
      requires Valid()
      modifies this`ignoredShapes, this`diagnostics, this`emitted
      ensures Valid() && emitted == Plus(old(emitted), OrIgnore(a, edges))
    {
      Record(if edges == [] then Ignore(a) else Edges(edges));
    }

    method SubclassEdges(a: Axiom)
      requires Valid() && a.body.SubClass?
      modifies this
      ensures Valid() && emitted == Plus(old(emitted), EmitSubClass(a, Goal())) && classIris == old(classIris)
      ensures rolesPrepared == (old(rolesPrepared) || ReadsRoles(a, options))
      ensures scanned == old(scanned)
    {
      hide Valid, RestrictionEdges, TaxonomyEdges, Plus;
      var sub, sup := a.body.sub, a.body.sup;
      if sub.NamedClass? && sup.NamedClass? {
        Record(Edges(TaxonomyEdges(options, sub.iri, sup.iri)));
        return;
      }
      if options.onlyTaxonomy || (!sub.NamedClass? && !sup.NamedClass?) {
        Record(Ignore(a));
        return;
      }
      var edges;
      if sub.NamedClass? {
        edges := RestrictionEdgesOf(sub.iri, sup);
      } else {
        edges := RestrictionEdgesOf(sup.iri, sub);
      }
      YieldOrIgnore(a, edges);
    }

    method OperandEdge(a: Axiom, first: Iri, operand: ClassExpr)
      requires Valid()
      modifies this
      ensures Valid() && emitted == Plus(old(emitted), EmitOperand(a, first, operand, Goal()))
      ensures classIris == old(classIris)
      ensures rolesPrepared == (old(rolesPrepared) || (!options.onlyTaxonomy && Projects(operand)))
      ensures scanned == old(scanned)
    {
      hide Valid, RestrictionEdges, TaxonomyEdges, Plus;
      if operand.NamedClass? {
        Record(Edges(TaxonomyEdges(options, first, operand.iri)));
      } else if !options.onlyTaxonomy {
        var edges := RestrictionEdgesOf(first, operand);
        YieldOrIgnore(a, edges);
      } else {
        SilenceIsNeutral(emitted);
      }
    }

    method OperandEdges(a: Axiom, first: Iri, operands: seq<ClassExpr>)
      requires Valid()
      modifies this
      ensures Valid() && emitted == Plus(old(emitted), EmitOperands(a, first, operands, Goal()))
      ensures classIris == old(classIris)
      ensures rolesPrepared == (old(rolesPrepared) || (!options.onlyTaxonomy && AnyProjects(operands)))
      ensures scanned == old(scanned)
    {
      hide Valid, EmitOperand, Plus;
      var i := 0;
      SilenceIsNeutral(emitted);
      assert operands[..0] == [];
      while i < |operands|
        invariant 0 <= i <= |operands| && Valid() && classIris == old(classIris)
        invariant emitted == Plus(old(emitted), EmitOperands(a, first, operands[..i], Goal()))
        invariant scanned == old(scanned)
        invariant rolesPrepared == (old(rolesPrepared) || (!options.onlyTaxonomy && AnyProjects(operands[..i])))
      {
        OperandEdge(a, first, operands[i]);
        assert operands[..i + 1][..i] == operands[..i];
        PlusIsAssociative(old(emitted), EmitOperands(a, first, operands[..i], Goal()),
          EmitOperand(a, first, operands[i], Goal()));
        i := i + 1;
      }
      assert operands[..i] == operands;
    }

    method EquivalentEdges(a: Axiom)
      requires Valid() && a.body.Equivalent?
      modifies this
      ensures Valid() && emitted == Plus(old(emitted), EmitEquivalent(a, Goal())) && classIris == old(classIris)
      ensures rolesPrepared == (old(rolesPrepared) || ReadsRoles(a, options))
      ensures scanned == old(scanned)
    {
      hide Valid, TaxonomyEdges, EmitOperands, Plus;
      var es := a.body.expressions;
      if |es| < 2 || !es[0].NamedClass? {
        Record(Ignore(a));
      } else if es[1].NamedClass? {
        Record(Edges(TaxonomyEdges(options, es[0].iri, es[1].iri)));
      } else if es[1].Junction? {
        OperandEdges(a, es[0].iri, es[1].operands);
      } else {
        Record(Ignore(a));
      }
    }

    method AnnotationEdge(a: Axiom)
      requires Valid() && a.body.Annotation? && classIris == view.classes
      modifies this
      ensures Valid() && emitted == Plus(old(emitted), EmitAnnotation(a, Goal())) && classIris == old(classIris)
      ensures rolesPrepared == old(rolesPrepared)
      ensures scanned == (old(scanned) || ReadsNames(a, view.classes))
    {
      hide Valid;
      var b := a.body;
      if b.subject.None? || b.subject.value !in classIris || b.relation.None? {
        Record(Ignore(a));
        return;
      }
      match b.value {
        case Rendered(text, malformed) =>
          Record(Emission([TermEdge(IriTerm(b.subject.value), b.relation.value, TextTerm(text))], 0,
                          if malformed then multiset{MalformedLiteral} else multiset{}));
        case AnonymousValue(id) =>
          var term := IndividualId(Anonymous(id));
          Record(Edges([TermEdge(IriTerm(b.subject.value), b.relation.value, term)]));
      }
    }

    method ObjectAssertionEdges(a: Axiom)
      requires Valid() && a.body.ObjectAssertion? && !Raises(a)
      modifies this
      ensures Valid() && emitted == Plus(old(emitted), EmitObjectAssertion(a, Goal())) && classIris == old(classIris)
      ensures rolesPrepared == old(rolesPrepared)
      ensures scanned == (old(scanned) || ReadsNames(a, view.classes))
    {
      hide Valid;
      if !a.body.property.ObjectProperty? {
        Record(Ignore(a));
        return;
      }
      var source := IndividualId(a.body.source);
      var target := IndividualId(a.body.target);
      Record(Edges([TermEdge(source, a.body.property.iri, target)]));
    }

    method AxiomEdges(a: Axiom)
      requires Valid() && !Raises(a) && (a.body.Annotation? ==> classIris == view.classes)
      modifies this
      ensures Valid() && emitted == Plus(old(emitted), Emit(a, Goal())) && classIris == old(classIris)
      ensures rolesPrepared == (old(rolesPrepared) || ReadsRoles(a, options))
      ensures scanned == (old(scanned) || ReadsNames(a, view.classes))
    {
      hide Valid, EmitSubClass, EmitEquivalent, EmitAnnotation, EmitObjectAssertion, Plus;
      match a.body {
        case SubClass(_, _) => SubclassEdges(a);
        case Equivalent(_) => EquivalentEdges(a);
        case Annotation(_, _, _) => AnnotationEdge(a);
        case ClassAssertion(_, _) => Record(EmitClassAssertion(a));
        case ObjectAssertion(_, _, _) => ObjectAssertionEdges(a);
        case _ => SilenceIsNeutral(emitted);
      }
    }

    // ----- whole categories

    /** The category as this compilation reads it: sorted beforehand, or as the view yields it. */
    method CategoryOf(c: Category) returns (axioms: seq<Axiom>)
      requires Valid() && !c.SubProperties? && !c.InversePairs?
      ensures axioms == InOrder(view, c)
      ensures forall i | 0 <= i < |axioms| :: Has(c, axioms[i])
    {
      hide InOrder, StateOk, Has;
      if lazy {
        axioms := view.typed(c);
        CanonicalIsInOrder(view, c);
      } else {
        axioms := SortCategory(view, c);
      }
      CategoryHas(view, c);
    }

    /** Walks one category up to its end or to the first axiom that raises. */
    method EachOf(axioms: seq<Axiom>) returns (raised: bool)
      requires Valid()
      requires forall i | 0 <= i < |axioms| :: axioms[i].body.Annotation? ==> classIris == view.classes
      modifies this
      ensures Valid() && classIris == old(classIris)
      ensures emitted == Plus(old(emitted), EmitAll(BeforeRaise(axioms), Goal()))
      ensures raised <==> |BeforeRaise(axioms)| < |axioms|
      ensures rolesPrepared == (old(rolesPrepared) || AnyReads(BeforeRaise(axioms), options))
      ensures scanned == (old(scanned) || AnyNames(BeforeRaise(axioms), view.classes))
    {
      hide Valid, Emit, Raises, Plus, BeforeRaise, EmitAll, AnyReads, ReadsRoles, AnyNames, ReadsNames;
      var i := 0;
      raised := false;
      ghost var calm := BeforeRaise(axioms);
      NothingEmitted(Goal());
      SilenceIsNeutral(emitted);
      assert calm[..0] == [];
      while i < |axioms|
        invariant 0 <= i <= |calm| && Valid() && classIris == old(classIris)
        invariant emitted == Plus(old(emitted), EmitAll(calm[..i], Goal()))
        invariant rolesPrepared == (old(rolesPrepared) || AnyReads(calm[..i], options))
        invariant scanned == (old(scanned) || AnyNames(calm[..i], view.classes))
      {
        CalmAt(axioms, i);
        if Raises(axioms[i]) {
          assert calm[..i] == calm;
          return true;
        }
        AxiomEdges(axioms[i]);
        EmitOneMore(calm, i, Goal());
        ReadOneMore(calm, i, options, view.classes);
        PlusIsAssociative(old(emitted), EmitAll(calm[..i], Goal()), Emit(calm[i], Goal()));
        i := i + 1;
      }
      assert calm[..i] == calm;
    }

    /** Walks a category that cannot raise. */
    method EachOfCategory(c: Category)
      requires Valid() && !c.SubProperties? && !c.InversePairs? && !c.ObjectAssertions?
      requires c.Annotations? ==> classIris == view.classes
      modifies this
      ensures Valid() && classIris == old(classIris)
      ensures emitted == Plus(old(emitted), EmitCategory(view, c, Goal()))
      ensures rolesPrepared == (old(rolesPrepared) || AnyReads(InOrder(view, c), options))
      ensures scanned == (old(scanned) || AnyNames(InOrder(view, c), view.classes))
    {
      hide Valid, BeforeRaise, EmitAll, InOrder, Plus;
      var axioms := CategoryOf(c);
      CalmThroughout(axioms);
      var raised := EachOf(axioms);
    }

    // ----- domains and ranges

    /** Groups named classes by named property and reports the axioms that have no such pair. */
    method GroupClasses(axioms: seq<Axiom>) returns (properties: seq<Iri>, groups: map<Iri, seq<Iri>>)
      requires Valid()
      modifies this`ignoredShapes, this`diagnostics, this`emitted
      ensures Valid() && emitted == Plus(old(emitted), Unpaired(axioms))
      ensures properties == PropertiesOf(axioms) && GroupsOf(axioms, groups)
    {
      hide Valid, Plus, Pair, GroupsOf;
      properties, groups := [], map[];
      var i := 0;
      NothingGrouped(axioms);
      SilenceIsNeutral(emitted);
      while i < |axioms|
        invariant 0 <= i <= |axioms| && Valid()
        invariant emitted == Plus(old(emitted), Unpaired(axioms[..i]))
        invariant properties == PropertiesOf(axioms[..i]) && GroupsOf(axioms[..i], groups)
      {
        var pair := Pair(axioms[i]);
        OneMoreGrouped(axioms, i, groups);
        PlusIsAssociative(old(emitted), Unpaired(axioms[..i]),
          if pair.None? then Ignore(axioms[i]) else SILENCE);
        SilenceIsNeutral(emitted);
        if pair.None? {
          Record(Ignore(axioms[i]));
        } else if pair.value.0 in groups {
          groups := groups[pair.value.0 := groups[pair.value.0] + [pair.value.1]];
        } else {
          properties := properties + [pair.value.0];
          groups := groups[pair.value.0 := [pair.value.1]];
          assert [] + [pair.value.1] == [pair.value.1];
        }
        i := i + 1;
      }
      assert axioms[..i] == axioms;
    }

    method RangeLoop(property: Iri, domain: Iri, ranges: seq<Iri>)
      requires Valid() && rolesPrepared && roleState == Goal().roles
      modifies this`ignoredShapes, this`diagnostics, this`emitted
      ensures Valid()
      ensures emitted == Plus(old(emitted), Edges(RangeEdges(Goal().roles, property, domain, ranges)))
    {
      hide Valid, Plus, RoleEdges, Edges;
      var i := 0;
      NoEdges();
      SilenceIsNeutral(emitted);
      assert ranges[..0] == [];
      while i < |ranges|
        invariant 0 <= i <= |ranges| && Valid()
        invariant emitted == Plus(old(emitted), Edges(RangeEdges(Goal().roles, property, domain, ranges[..i])))
      {
        var edges := RoleEdges(roleState, IriTerm(domain), property, IriTerm(ranges[i]));
        Record(Edges(edges));
        assert ranges[..i + 1][..i] == ranges[..i];
        MoreEdges(old(emitted), RangeEdges(Goal().roles, property, domain, ranges[..i]), edges);
        i := i + 1;
      }
      assert ranges[..i] == ranges;
    }

    method DomainLoop(property: Iri, domains: seq<Iri>, ranges: seq<Iri>)
      requires Valid() && rolesPrepared && roleState == Goal().roles
      modifies this`ignoredShapes, this`diagnostics, this`emitted
      ensures Valid()
      ensures emitted == Plus(old(emitted), Edges(PropertyEdges(Goal().roles, property, domains, ranges)))
    {
      hide Valid, Plus, RangeEdges, Edges;
      var i := 0;
      NoEdges();
      SilenceIsNeutral(emitted);
      assert domains[..0] == [];
      while i < |domains|
        invariant 0 <= i <= |domains| && Valid()
        invariant emitted == Plus(old(emitted), Edges(PropertyEdges(Goal().roles, property, domains[..i], ranges)))
      {
        RangeLoop(property, domains[i], ranges);
        assert domains[..i + 1][..i] == domains[..i];
        MoreEdges(old(emitted), PropertyEdges(Goal().roles, property, domains[..i], ranges),
          RangeEdges(Goal().roles, property, domains[i], ranges));
        i := i + 1;
      }
      assert domains[..i] == domains;
    }

    method PropertyLoop(
      properties: seq<Iri>, domains: map<Iri, seq<Iri>>, ranges: map<Iri, seq<Iri>>,
      ghost domainAxioms: seq<Axiom>, ghost rangeAxioms: seq<Axiom>)
      requires Valid() && rolesPrepared && roleState == Goal().roles
      requires forall p | p in properties :: p in domains && p in ranges
      requires GroupsOf(domainAxioms, domains) && GroupsOf(rangeAxioms, ranges)
      modifies this`ignoredShapes, this`diagnostics, this`emitted
      ensures Valid()
      ensures emitted ==
        Plus(old(emitted), Edges(PairedEdges(Goal().roles, properties, domainAxioms, rangeAxioms)))
    {
      hide Valid, Plus, PropertyEdges, ClassesOf, PropertiesOf, Edges;
      var i := 0;
      NoEdges();
      SilenceIsNeutral(emitted);
      assert properties[..0] == [];
      while i < |properties|
        invariant 0 <= i <= |properties| && Valid()
        invariant emitted ==
          Plus(old(emitted), Edges(PairedEdges(Goal().roles, properties[..i], domainAxioms, rangeAxioms)))
      {
        var p := properties[i];
        DomainLoop(p, domains[p], ranges[p]);
        assert properties[..i + 1][..i] == properties[..i];
        MoreEdges(old(emitted), PairedEdges(Goal().roles, properties[..i], domainAxioms, rangeAxioms),
          PropertyEdges(Goal().roles, p, ClassesOf(domainAxioms, p), ClassesOf(rangeAxioms, p)));
        i := i + 1;
      }
      assert properties[..i] == properties;
    }

    method DomainRangeEdges(domains: seq<Axiom>, ranges: seq<Axiom>)
      requires Valid()
      modifies this
      ensures Valid() && classIris == old(classIris) && rolesPrepared
      ensures emitted == Plus(old(emitted), EmitDomainRange(domains, ranges, Goal().roles))
    {
      hide Valid, Plus, GroupsOf, Common, PropertiesOf, Sorted, Unpaired, PairedEdges;
      EnsureRoles();
      var fromDomains, domainGroups := GroupClasses(domains);
      var fromRanges, rangeGroups := GroupClasses(ranges);
      var shared := SharedKeys(fromDomains, rangeGroups);
      SharedIsCommon(domains, ranges, domainGroups, rangeGroups, shared);
      PropertyLoop(Sorted(shared, TextLeq), domainGroups, rangeGroups, domains, ranges);
      PlusIsAssociative(old(emitted), Unpaired(domains), Unpaired(ranges));
      PlusIsAssociative(old(emitted), Plus(Unpaired(domains), Unpaired(ranges)),
        Edges(PairedEdges(Goal().roles, Sorted(shared, TextLeq), domains, ranges)));
    }

    /**
     Yields everything.  A complete run ends in the same state whichever way the
     compilation was made; a run that raises has yielded the same edges before.
     */
    method IterRawEdges() returns (raised: bool)
      requires Valid() && emitted == SILENCE
      modifies this
      ensures Ran(this, old(rolesPrepared), old(scanned))
      ensures raised <==> RunRaises(view)
      ensures roleState == if rolesPrepared then Goal().roles else start
    {
      hide Valid, AnyReads, AnyNames, ViewReadsRoles, EmitAll, InOrder, BeforeRaise, EmitDomainRange, Plus, FirstPart;
      ReadRoles();
      WhoReadsRoles(view, options);
      IterFirstPart();
      var assertions := CategoryOf(ObjectAssertions);
      raised := EachOf(assertions);
      if raised {
        ReadRoles();
        return;
      }
      var domains := CategoryOf(Domains);
      var ranges := CategoryOf(Ranges);
      DomainRangeEdges(domains, ranges);
      if lazy {
        EnsureRoles();
        ScanClosureMetadata();
      }
      ReadRoles();
    }

    lemma {:induction false} ReadRoles()
      requires Valid()
      ensures ViewOk(view)
      ensures roleState == if rolesPrepared then Goal().roles else start
      ensures !lazy ==> rolesPrepared && scanned
    {
    }

    method IterFirstPart()
      requires Valid() && emitted == SILENCE
      modifies this
      ensures Valid() && emitted == FirstPart(view, Goal())
      ensures rolesPrepared == (old(rolesPrepared) || ViewReadsRoles(view, options))
      ensures scanned == (old(scanned) ||
        (options.includeLiterals && AnyNames(InOrder(view, Annotations), view.classes)))
    {
      hide Valid, EmitCategory, Plus, InOrder, AnyReads, ViewReadsRoles, AnyNames;
      ReadRoles();
      WhoReadsRoles(view, options);
      WhoReadsNames(view);
      EachOfCategory(SubClasses);
      SilenceIsNeutral(EmitCategory(view, SubClasses, Goal()));
      EachOfCategory(Equivalents);
      if options.includeLiterals {
        ReadClasses();
        EachOfCategory(Annotations);
      } else {
        SilenceIsNeutral(emitted);
      }
      EachOfCategory(ClassAssertions);
    }

    method ReadClasses()
      requires Valid()
      modifies this`classIris
      ensures Valid() && classIris == view.classes
    {
      classIris := view.classes;
    }
  }

  lemma {:induction false} CategoryHas(view: View, c: Category)
    requires ViewOk(view)
    ensures forall i | 0 <= i < |InOrder(view, c)| :: Has(c, InOrder(view, c)[i])
  {
    var selected, ordered := Select(Scope(view, c), c), InOrder(view, c);
    SelectedIsMember(Scope(view, c), c);
    SelectedHas(Scope(view, c), c);
    IdentifiedFewer(Scope(view, c), selected);
    CanonicalOrders(selected);
    SortedSorts(selected, CanonicalLeq);
    forall i | 0 <= i < |ordered| ensures Has(c, ordered[i]) {
      assert ordered[i] in multiset(ordered);
    }
  }

  lemma {:induction false} CalmThroughout(s: seq<Axiom>)
    requires forall i | 0 <= i < |s| :: !Raises(s[i])
    ensures BeforeRaise(s) == s
  {
  }

  lemma {:induction false} CalmAt(s: seq<Axiom>, i: nat)
    requires i < |s| && i <= |BeforeRaise(s)|
    ensures Raises(s[i]) ==> i == |BeforeRaise(s)|
    ensures !Raises(s[i]) ==> i < |BeforeRaise(s)| && BeforeRaise(s)[i] == s[i]
  {
    var calm := BeforeRaise(s);
    assert i < |calm| ==> calm[i] == s[i];
  }

  lemma {:induction false} NothingEmitted(env: Env)
    ensures EmitAll([], env) == SILENCE && !AnyReads([], env.options) && !AnyNames([], env.classes)
  {
  }

  lemma {:induction false} SelectedHas(s: seq<Axiom>, c: Category)
    ensures forall a | a in Select(s, c) :: Has(c, a)
    decreases |s|
  {
    if s != [] {
      SelectedHas(s[..|s| - 1], c);
    }
  }

  lemma {:induction false} RolesAreFinal(view: View, start: Roles, s: State, emitted: Emission)
    requires StateOk(view, start, s, emitted)
    ensures s.rolesPrepared ==> s.roles == FinalRoles(view, start)
    ensures s.scanned ==> s.ids == Names(view)
  {
  }

  /**
   What a compilation is after it has yielded everything it will; `early` and `named` say
   whether its role maps and names had been prepared before.
   */
  ghost predicate Ran(c: Compilation, early: bool, named: bool)
    reads c
  {
    && c.Valid() && c.emitted == Whole(c.view, c.Goal())
    && (RunRaises(c.view) && c.lazy ==>
          && c.rolesPrepared == (early || ViewReadsRoles(c.view, c.options))
          && c.scanned == (named || ViewReadsNames(c.view, c.options)))
    && (!RunRaises(c.view) ==> c.rolesPrepared && c.scanned)
  }

  /**
   Consumed to the end, a lazy and an eager compilation yield the same edges in the same
   order and end with the same role maps, names, statistics and diagnostics.  When an
   inverse assertion stops them they have yielded the same edges, and the lazy one lacks
   exactly the traces of the updates that nothing had asked for: its role maps agree exactly
   when they were prepared early, some axiom read them before, or the update would not have
   changed them, and its names likewise.
   */
  lemma {:induction false} LazyAndEagerAgree(eager: Compilation, streaming: Compilation, early: bool, named: bool)
    requires Ran(eager, true, true) && Ran(streaming, early, named) && !eager.lazy && streaming.lazy
    requires eager.view == streaming.view && eager.options == streaming.options && eager.start == streaming.start
    ensures eager.emitted == streaming.emitted
    ensures !RunRaises(eager.view) ==>
      && eager.roleState == streaming.roleState && eager.blankIds == streaming.blankIds
      && eager.ignoredShapes == streaming.ignoredShapes && eager.skippedAxioms == streaming.skippedAxioms
      && eager.diagnostics == streaming.diagnostics
    ensures RunRaises(eager.view) ==>
      var view, options := eager.view, eager.options;
      var updated, scanned := early || ViewReadsRoles(view, options), named || ViewReadsNames(view, options);
      && (eager.roleState == streaming.roleState <==> updated || FinalRoles(view, eager.start) == eager.start)
      && (eager.blankIds == streaming.blankIds <==> scanned || Names(view) == map[])
      && eager.ignoredShapes == streaming.ignoredShapes + (if updated then 0 else IgnoredRoles(view))
      && eager.skippedAxioms == streaming.skippedAxioms + (if scanned then 0 else |Skipped(view.closure)|)
      && eager.diagnostics == streaming.diagnostics + if scanned then multiset{} else Skipped(view.closure)
  {
    hide ViewOk, CanonicalView, FinalRoles, Names, Skipped, IgnoredRoles, RunRaises, ViewReadsRoles, ViewReadsNames, Whole;
  }

  // ----- an inverse assertion stops a lazy run before its role maps are updated

  const ROLE_AXIOM: Axiom := Axiom(0, [0], 0, {}, SubProperty(ObjectProperty([1]), ObjectProperty([2])))
  const INVERSE_ASSERTION: Axiom := Axiom(1, [1], 0, {}, ObjectAssertion(InverseOf([1]), Named([3]), Named([4])))
  const STOPPING: seq<Axiom> := [ROLE_AXIOM, INVERSE_ASSERTION]
  const NO_ROLES: Roles := Roles(map[], map[])

  function StoppingView(): View {
    View(STOPPING, [], {}, (c: Category) => Select(if c.Annotations? then [] else STOPPING, c))
  }

  lemma {:induction false} StoppingSelects(c: Category)
    ensures Select(STOPPING, c) ==
      if c.SubProperties? then [ROLE_AXIOM] else if c.ObjectAssertions? then [INVERSE_ASSERTION] else []
    ensures Select([], c) == []
  {
    assert STOPPING[..1] == [ROLE_AXIOM] && [ROLE_AXIOM][..0] == [];
    assert Select([ROLE_AXIOM], c) == if c.SubProperties? then [ROLE_AXIOM] else [];
  }

  lemma {:induction false} StoppingViewIsOk()
    ensures ViewOk(StoppingView()) && CanonicalView(StoppingView())
  {
    forall c ensures |StoppingView().typed(c)| <= 1 {
      StoppingSelects(c);
    }
  }

  lemma {:induction false} StoppingViewRaises()
    ensures RunRaises(StoppingView())
  {
    StoppingSelects(ObjectAssertions);
    SortedOne(INVERSE_ASSERTION, CanonicalLeq);
  }

  lemma {:induction false} StoppingViewReadsNothing(options: Options)
    ensures !ViewReadsRoles(StoppingView(), options)
  {
  }

  lemma {:induction false} StoppingViewUpdates()
    ensures FinalRoles(StoppingView(), NO_ROLES) != NO_ROLES
  {
    var leq := (a, b) => HashLeq(Capacity(1, 16), a, b);
    SortedOne(ROLE_AXIOM, leq);
    StoppingRoles();
    assert FinalRoles(StoppingView(), NO_ROLES) == UpdateRoles(NO_ROLES, [ROLE_AXIOM]);
    assert [ROLE_AXIOM][..0] == [];
    assert UpdateRoles(NO_ROLES, [ROLE_AXIOM]) == UpdateRole(UpdateRoles(NO_ROLES, []), ROLE_AXIOM);
    assert [2] in UpdateRole(NO_ROLES, ROLE_AXIOM).subroles;
  }

  lemma {:induction false} StoppingRoles()
    ensures RoleAxioms(STOPPING) == [ROLE_AXIOM]
  {
    assert STOPPING[..1] == [ROLE_AXIOM] && [ROLE_AXIOM][..0] == [];
    assert RoleAxioms([ROLE_AXIOM]) == [] + [ROLE_AXIOM];
  }

  /** The same view, compiled eagerly and lazily, ends with different role maps. */
  method StoppedRunsDiffer(options: Options) returns (eager: Roles, streaming: Roles)
    ensures eager != streaming
  {
    hide StoppingView, ViewOk, CanonicalView, RunRaises, FinalRoles, ViewReadsRoles, Compilation.Valid, EnvOf;
    StoppingViewIsOk();
    StoppingViewRaises();
    StoppingViewReadsNothing(options);
    StoppingViewUpdates();
    var first := new Compilation.Prepared(StoppingView(), options, NO_ROLES);
    var second := new Compilation.Streaming(StoppingView(), options, NO_ROLES);
    var early, named := second.rolesPrepared, second.scanned;
    var raised := first.IterRawEdges();
    raised := second.IterRawEdges();
    LazyAndEagerAgree(first, second, early, named);
    eager, streaming := first.roleState, second.roleState;
  }
}
