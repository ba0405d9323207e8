/**
 How the ROOT rows are made: every CLOSURE row's path is followed through the ROOT manifest,
 and the selectors and scope maps of the ROOT references on it are applied to the table
 where it ends.  What is made is what the native validator of `RootPlan` expects.
 */
module RootPairing {
  import opened Wrappers
  import opened Manifests
  import opened Unfoldings
  import opened LeafPlans
  import opened LeafPaths
  import PathEnumerator
  import opened PlanChecker
  import opened RootPlan

  datatype Failure = Overwork | Overdepth | Invalid | LostCoordinate

  datatype Pairing = Paired(rows: seq<Row>, retained: set<ViewId>) | Declined | Rejected(reason: Failure)

  datatype Manifest = Manifest(graph: Graph, closure: ViewId, root: ViewId, limits: Limits)

  // ----- what one path must show

  /** The same reference, by role, source owner and token, in both views. */
  predicate PairedReference(g: Graph, closure: ViewId, root: ViewId, segment: nat) {
    && (RoleAt(g, closure, segment) == Some(BaseRole) || RoleAt(g, closure, segment) == Some(MemberRole))
    && RoleAt(g, root, segment) == RoleAt(g, closure, segment)
    && Refs(g, root)[segment].owner == Refs(g, closure)[segment].owner
    && Refs(g, root)[segment].token == Refs(g, closure)[segment].token
  }

  /** The same local segment in both views, or one that ROOT canonically lacks. */
  predicate PairedEnd(g: Graph, closure: ViewId, root: ViewId, segment: nat) {
    var role := RoleAt(g, closure, segment);
    && (role == Some(DirectRole) || role == Some(DeltaRole) || role == Some(BridgeRole))
    && if RoleAt(g, root, segment).Some? then RoleAt(g, root, segment) == role
       else MissingLocal(g, root, segment) && role == Some(if g[root].kind.Overlay? then DeltaRole else BridgeRole)
  }

  datatype Place = Place(closure: ViewId, root: ViewId)

  /** Where a path ends on both sides, if every reference on it is paired. */
  function PlaceOf(g: Graph, closure: ViewId, root: ViewId, path: Path): Option<Place>
    decreases |path|
  {
    if path == [] then None
    else if |path| == 1 then Some(Place(closure, root))
    else if !PairedReference(g, closure, root, path[0]) then None
    else PlaceOf(g, Refs(g, closure)[path[0]].source, Refs(g, root)[path[0]].source, path[1..])
  }

  /** The references of a path, outermost first. */
  function RefsDown(g: Graph, v: ViewId, path: Path): seq<Reference>
    decreases |path|
  {
    if |path| <= 1 || path[0] >= |Refs(g, v)| then [] else
      var r := Refs(g, v)[path[0]];
      [r] + RefsDown(g, r.source, path[1..])
  }

  /** The views that a path meets. */
  function MetDown(g: Graph, v: ViewId, path: Path): set<ViewId>
    decreases |path|
  {
    {v} + if |path| <= 1 || path[0] >= |Refs(g, v)| then {} else MetDown(g, Refs(g, v)[path[0]].source, path[1..])
  }

  function OverlaysDown(g: Graph, v: ViewId, path: Path): nat
    decreases |path|
  {
    OverlayIncrement(g, v) +
    if |path| <= 1 || path[0] >= |Refs(g, v)| then 0 else OverlaysDown(g, Refs(g, v)[path[0]].source, path[1..])
  }

  /** The selectors and scope maps of the references, the innermost one first. */
  function ApplyAll(g: Graph, refs: seq<Reference>, rows: seq<Row>): Option<seq<Row>>
    decreases |refs|
  {
    if refs == [] then Some(rows) else
      var last := refs[|refs| - 1];
      var applied :- ApplyPostings(ApplyScopeMap(g, rows, last.scopeMap), last.source, last.posting);
      ApplyAll(g, refs[..|refs| - 1], applied)
  }

  function Only(rows: Option<seq<Row>>): Option<Row> {
    if rows.Some? && |rows.value| == 1 then Some(rows.value[0]) else None
  }

  function SelectedAt(g: Graph, v: ViewId, path: Path, target: ViewId): Option<Row> {
    Only(ApplyAll(g, RefsDown(g, v, path), [Row(target, None, None, [], path)]))
  }

  predicate Coordinated(m: Manifest, row: Row) {
    var place := PlaceOf(m.graph, m.closure, m.root, row.path);
    && place.Some?
    && PairedEnd(m.graph, place.value.closure, place.value.root, row.path[|row.path| - 1])
    && OwnerOf(m.graph, row.view) == OwnerOf(m.graph, place.value.root)
  }

  /** The ROOT row of a CLOSURE row; there is none when a selector omits the leaf or meets another one. */
  function RootRow(m: Manifest, row: Row): Option<Row>
    requires Coordinated(m, row)
  {
    SelectedAt(m.graph, m.root, row.path, PlaceOf(m.graph, m.closure, m.root, row.path).value.root)
  }

  /** The ROOT views that the paths meet. */
  function Met(m: Manifest, rows: seq<Row>): set<ViewId> {
    if rows == [] then {m.root} else
      Met(m, rows[..|rows| - 1]) + MetDown(m.graph, m.root, rows[|rows| - 1].path)
  }

  ghost predicate RowPairs(m: Manifest, row: Row) {
    Coordinated(m, row) && !Exceeds(m.limits.depth, OverlaysDown(m.graph, m.root, row.path)) && RootRow(m, row).Some?
  }

  /** Everything that pairing needs. */
  ghost predicate Pairable(m: Manifest, closureRows: seq<Row>) {
    && |closureRows| >= 2 && OwnerOf(m.graph, m.closure) == OwnerOf(m.graph, m.root)
    && (forall i | 0 <= i < |closureRows| :: RowPairs(m, closureRows[i]))
    && AllViewsOk(m.graph, Met(m, closureRows))
    && !Exceeds(m.limits.work, WorkOf(m.graph, Met(m, closureRows)))
  }

  ghost predicate PairsRows(m: Manifest, closureRows: seq<Row>, rows: seq<Row>) {
    && |rows| == |closureRows|
    && forall i | 0 <= i < |rows| :: Coordinated(m, closureRows[i]) && RootRow(m, closureRows[i]) == Some(rows[i])
  }

  /** The reason for the answer, said of the paths alone. */
  ghost predicate Explained(m: Manifest, closureRows: seq<Row>, result: Pairing) {
    match result
    case Paired(rows, retained) => PairsRows(m, closureRows, rows) && retained == Met(m, closureRows)
    case Declined =>
      || |closureRows| < 2 || OwnerOf(m.graph, m.closure) != OwnerOf(m.graph, m.root)
      || exists i :: 0 <= i < |closureRows| && Coordinated(m, closureRows[i]) && RootRow(m, closureRows[i]).None?
    case Rejected(LostCoordinate) => exists i :: 0 <= i < |closureRows| && !Coordinated(m, closureRows[i])
    case Rejected(Invalid) => !AllViewsOk(m.graph, Met(m, closureRows))
    case Rejected(Overdepth) =>
      exists i :: 0 <= i < |closureRows| && Exceeds(m.limits.depth, OverlaysDown(m.graph, m.root, closureRows[i].path))
    case Rejected(Overwork) => Exceeds(m.limits.work, WorkOf(m.graph, Met(m, closureRows)))
  }

  predicate AllViewsOk(g: Graph, views: set<ViewId>) {
    forall v | v in views :: ValidView(g, v)
  }

  // ----- the loop over one path

  /** The views validated and charged so far, and the ROOT view of every prefix met before. */
  datatype State = State(retained: set<ViewId>, prefixes: map<Path, ViewId>, work: nat)

  function ViewAfter(g: Graph, v: ViewId, path: Path): ViewId
    decreases |path|
  {
    if path == [] then v
    else if path[0] >= |Refs(g, v)| then v
    else ViewAfter(g, Refs(g, v)[path[0]].source, path[1..])
  }

  ghost predicate StateOk(m: Manifest, s: State) {
    && m.root in s.retained
    && AllViewsOk(m.graph, s.retained)
    && (forall p | p in s.prefixes :: s.prefixes[p] == ViewAfter(m.graph, m.root, p) && s.prefixes[p] in s.retained)
    && s.work == WorkOf(m.graph, s.retained) && !Exceeds(m.limits.work, s.work)
  }

  predicate AllInRange(g: Graph, v: ViewId, path: Path)
    decreases |path|
  {
    path == [] || (path[0] < |Refs(g, v)| && AllInRange(g, Refs(g, v)[path[0]].source, path[1..]))
  }

  lemma {:induction false} OneStepFurther(g: Graph, v: ViewId, path: Path, segment: nat)
    requires AllInRange(g, v, path) && segment < |Refs(g, ViewAfter(g, v, path))|
    ensures AllInRange(g, v, path + [segment])
    ensures ViewAfter(g, v, path + [segment]) == Refs(g, ViewAfter(g, v, path))[segment].source
    decreases |path|
  {
    if path == [] {
      assert (path + [segment])[1..] == [];
    } else {
      assert (path + [segment])[1..] == path[1..] + [segment];
      OneStepFurther(g, Refs(g, v)[path[0]].source, path[1..], segment);
    }
  }

  ghost predicate ViewFails(m: Manifest, retained: set<ViewId>, v: ViewId, why: Failure) {
    || (why.Invalid? && !ValidView(m.graph, v))
    || (why.Overwork? && Exceeds(m.limits.work, WorkOf(m.graph, retained + {v})))
  }

  /** Why a path cannot be paired after the views in `retained` were charged. */
  ghost predicate PathFails(m: Manifest, row: Row, retained: set<ViewId>, why: Failure) {
    match why
    case LostCoordinate => !Coordinated(m, row)
    case Overdepth => Exceeds(m.limits.depth, OverlaysDown(m.graph, m.root, row.path))
    case Invalid => !AllViewsOk(m.graph, MetDown(m.graph, m.root, row.path))
    case Overwork => Exceeds(m.limits.work, WorkOf(m.graph, retained + MetDown(m.graph, m.root, row.path)))
  }

  lemma {:induction false} ViewFailsPath(
    m: Manifest, row: Row, retained: set<ViewId>, met: set<ViewId>, v: ViewId, why: Failure)
    requires ViewFails(m, retained + met, v, why)
    requires met + {v} <= MetDown(m.graph, m.root, row.path)
    ensures PathFails(m, row, retained, why)
  {
    hide ValidView, MetDown, WorkOf;
    LargerWork(m, retained + met + {v}, retained + MetDown(m.graph, m.root, row.path));
  }

  /** Validates a ROOT view on its first visit and charges its work. */
  method Retain(m: Manifest, v: ViewId, s: State) returns (failure: Option<Failure>, after: State)
    requires StateOk(m, s)
    ensures match failure
      case None => StateOk(m, after) && after == s.(retained := s.retained + {v}, work := after.work)
      case Some(why) => ViewFails(m, s.retained, v, why)
  {
    failure, after := None, s;
    if v in s.retained {
      assert s.retained + {v} == s.retained;
      return;
    }
    if !ValidView(m.graph, v) {
      failure := Some(Invalid);
      return;
    }
    WorkOfAdd(m.graph, s.retained, v);
    after := s.(retained := s.retained + {v}, work := s.work + m.graph[v].work);
    if Exceeds(m.limits.work, after.work) {
      failure := Some(Overwork);
    }
  }

  /** Applies the references of a path to the one row where it ends, from the inside out. */
  method SelectRow(g: Graph, refs: seq<Reference>, row: Row) returns (selected: Option<Row>)
    ensures selected == Only(ApplyAll(g, refs, [row]))
  {
    hide ApplyScopeMap, ApplyPostings;
    var rows, i := [row], |refs|;
    assert refs[..i] == refs;
    while i > 0
      invariant 0 <= i <= |refs|
      invariant ApplyAll(g, refs[..i], rows) == ApplyAll(g, refs, [row])
    {
      var r := refs[i - 1];
      assert refs[..i][..i - 1] == refs[..i - 1];
      var applied := ApplyPostings(ApplyScopeMap(g, rows, r.scopeMap), r.source, r.posting);
      if applied.None? {
        return None;
      }
      rows, i := applied.value, i - 1;
    }
    assert refs[..0] == [];
    selected := Only(Some(rows));
  }

  /** What the rest of a path still has to show is what the whole path has to show. */
  ghost predicate OnTheWay(m: Manifest, path: Path, i: nat, place: Place, refs: seq<Reference>, depth: nat, met: set<ViewId>)
    requires i < |path|
  {
    var g, rest := m.graph, path[i..];
    && AllInRange(g, m.root, path[..i]) && place.root == ViewAfter(g, m.root, path[..i])
    && PlaceOf(g, m.closure, m.root, path) == PlaceOf(g, place.closure, place.root, rest)
    && RefsDown(g, m.root, path) == refs + RefsDown(g, place.root, rest)
    && OverlaysDown(g, m.root, path) + OverlayIncrement(g, place.root) == depth + OverlaysDown(g, place.root, rest)
    && met + MetDown(g, place.root, rest) == MetDown(g, m.root, path) && place.root in met
  }

  lemma {:induction false} FurtherOnTheWay(
    m: Manifest, path: Path, i: nat, place: Place, refs: seq<Reference>, depth: nat, met: set<ViewId>)
    requires i + 1 < |path| && OnTheWay(m, path, i, place, refs, depth, met)
    requires PairedReference(m.graph, place.closure, place.root, path[i])
    ensures var c, r := Refs(m.graph, place.closure)[path[i]], Refs(m.graph, place.root)[path[i]];
      && OnTheWay(m, path, i + 1, Place(c.source, r.source), refs + [r],
           depth + OverlayIncrement(m.graph, r.source), met + {r.source})
      && met + {r.source} <= MetDown(m.graph, m.root, path)
  {
    var r := Refs(m.graph, place.root)[path[i]];
    assert path[i..][1..] == path[i + 1..];
    assert path[..i + 1] == path[..i] + [path[i]];
    OneStepFurther(m.graph, m.root, path[..i], path[i]);
  }

  lemma {:induction false} StartsOnTheWay(m: Manifest, path: Path)
    requires path != []
    ensures OnTheWay(m, path, 0, Place(m.closure, m.root), [], OverlayIncrement(m.graph, m.root), {m.root})
  {
    assert path[0..] == path && path[..0] == [];
  }

  lemma {:induction false} DepthOnTheWay(
    m: Manifest, path: Path, i: nat, place: Place, refs: seq<Reference>, depth: nat, met: set<ViewId>)
    requires i < |path| && OnTheWay(m, path, i, place, refs, depth, met)
    ensures depth <= OverlaysDown(m.graph, m.root, path)
  {
  }

  lemma {:induction false} EndOfTheWay(
    m: Manifest, path: Path, place: Place, refs: seq<Reference>, depth: nat, met: set<ViewId>)
    requires path != [] && OnTheWay(m, path, |path| - 1, place, refs, depth, met)
    ensures PlaceOf(m.graph, m.closure, m.root, path) == Some(place)
    ensures RefsDown(m.graph, m.root, path) == refs && OverlaysDown(m.graph, m.root, path) == depth
    ensures MetDown(m.graph, m.root, path) == met
  {
    assert path[|path| - 1..] == [path[|path| - 1]];
  }

  lemma {:induction false} LostOnTheWay(
    m: Manifest, path: Path, i: nat, place: Place, refs: seq<Reference>, depth: nat, met: set<ViewId>)
    requires i + 1 < |path| && OnTheWay(m, path, i, place, refs, depth, met)
    requires !PairedReference(m.graph, place.closure, place.root, path[i])
    ensures PlaceOf(m.graph, m.closure, m.root, path).None?
  {
  }

  /** The ROOT view that reference `segment` leads to: known by its prefix, or validated now. */
  method NextView(m: Manifest, s: State, prefix: Path, v: ViewId) returns (failure: Option<Failure>, after: State)
    requires StateOk(m, s) && v == ViewAfter(m.graph, m.root, prefix)
    ensures match failure
      case None => StateOk(m, after) && after.retained == s.retained + {v}
      case Some(why) => ViewFails(m, s.retained, v, why)
  {
    hide ValidView, ViewAfter;
    failure, after := None, s;
    if prefix in s.prefixes {
      assert s.retained + {v} == s.retained;
    } else {
      failure, after := Retain(m, v, s);
      after := after.(prefixes := after.prefixes[prefix := v]);
    }
  }

  /** Follows one CLOSURE path through both manifests and selects its ROOT row. */
  method PairRow(m: Manifest, closureRow: Row, s: State)
    returns (failure: Option<Failure>, row: Option<Row>, after: State)
    requires StateOk(m, s)
    ensures var path := closureRow.path;
      match failure
      case None =>
        && StateOk(m, after) && after.retained == s.retained + MetDown(m.graph, m.root, path)
        && Coordinated(m, closureRow) && row == RootRow(m, closureRow)
        && !Exceeds(m.limits.depth, OverlaysDown(m.graph, m.root, path))
      case Some(why) => PathFails(m, closureRow, s.retained, why)
  {
    hide ValidView, StateOk, OnTheWay, PairedReference, PairedEnd, ApplyAll, Only, RefsDown, MetDown, OverlaysDown,
      PlaceOf, WorkOf;
    var g, path := m.graph, closureRow.path;
    failure, row, after := None, None, s;
    if path == [] {
      NoPathIsLost(m, closureRow);
      failure := Some(LostCoordinate);
      return;
    }
    var place: Place, refs: seq<Reference>, depth: nat := Place(m.closure, m.root), [], OverlayIncrement(g, m.root);
    ghost var met := {m.root};
    RootIsRetained(m, s);
    assert s.retained + met == s.retained;
    StartsOnTheWay(m, path);
    DepthOnTheWay(m, path, 0, place, refs, depth, met);
    if Exceeds(m.limits.depth, depth) {
      failure := Some(Overdepth);
      return;
    }
    var i := 0;
    while i < |path| - 1
      invariant 0 <= i < |path| && failure.None?
      invariant StateOk(m, after) && after.retained == s.retained + met
      invariant OnTheWay(m, path, i, place, refs, depth, met)
      invariant !Exceeds(m.limits.depth, depth)
    {
      if !PairedReference(g, place.closure, place.root, path[i]) {
        LostOnTheWay(m, path, i, place, refs, depth, met);
        failure := Some(LostCoordinate);
        return;
      }
      var c, r := PairedRefs(g, place, path[i]);
      FurtherOnTheWay(m, path, i, place, refs, depth, met);
      NextIsAfter(m, path, i, place, refs, depth, met);
      failure, after := NextView(m, after, path[..i + 1], r.source);
      if failure.Some? {
        ViewFailsPath(m, closureRow, s.retained, met, r.source, failure.value);
        return;
      }
      met := met + {r.source};
      place, refs, depth := Place(c.source, r.source), refs + [r], depth + OverlayIncrement(g, r.source);
      i := i + 1;
      DepthOnTheWay(m, path, i, place, refs, depth, met);
      if Exceeds(m.limits.depth, depth) {
        failure := Some(Overdepth);
        return;
      }
    }
    EndOfTheWay(m, path, place, refs, depth, met);
    if !PairedEnd(g, place.closure, place.root, path[i])
       || OwnerOf(g, closureRow.view) != OwnerOf(g, place.root) {
      failure := Some(LostCoordinate);
      return;
    }
    row := SelectRow(g, refs, Row(place.root, None, None, [], path));
  }

  lemma {:induction false} NoPathIsLost(m: Manifest, row: Row)
    requires row.path == []
    ensures !Coordinated(m, row)
  {
  }

  lemma {:induction false} NextIsAfter(
    m: Manifest, path: Path, i: nat, place: Place, refs: seq<Reference>, depth: nat, met: set<ViewId>)
    requires i + 1 < |path| && OnTheWay(m, path, i, place, refs, depth, met)
    requires path[i] < |Refs(m.graph, place.root)|
    ensures Refs(m.graph, place.root)[path[i]].source == ViewAfter(m.graph, m.root, path[..i + 1])
  {
    assert path[..i + 1] == path[..i] + [path[i]];
    OneStepFurther(m.graph, m.root, path[..i], path[i]);
  }

  lemma {:induction false} RootIsRetained(m: Manifest, s: State)
    requires StateOk(m, s)
    ensures m.root in s.retained
  {
  }

  method PairedRefs(g: Graph, place: Place, segment: nat) returns (c: Reference, r: Reference)
    requires PairedReference(g, place.closure, place.root, segment)
    ensures segment < |Refs(g, place.closure)| && c == Refs(g, place.closure)[segment]
    ensures segment < |Refs(g, place.root)| && r == Refs(g, place.root)[segment]
  {
    c, r := Refs(g, place.closure)[segment], Refs(g, place.root)[segment];
  }

  lemma {:induction false} LargerWork(m: Manifest, small: set<ViewId>, large: set<ViewId>)
    requires small <= large
    ensures Exceeds(m.limits.work, WorkOf(m.graph, small)) ==> Exceeds(m.limits.work, WorkOf(m.graph, large))
  {
    WorkOfMonotone(m.graph, small, large);
  }

  /** Makes the ROOT rows of a CLOSURE plan. */
  method ResolveRootPair(m: Manifest, closureRows: seq<Row>) returns (result: Pairing)
    requires ValidView(m.graph, m.root)
    ensures Explained(m, closureRows, result)
    ensures result.Paired? <==> Pairable(m, closureRows)
  {
    hide ValidView, StateOk, Coordinated, RootRow, OverlaysDown, MetDown, AllViewsOk, WorkOf, Met, PairsRows, RowPairs,
      PathFails;
    if OwnerOf(m.graph, m.closure) != OwnerOf(m.graph, m.root) || |closureRows| < 2 {
      return Declined;
    }
    hide Pairable, Explained;
    var failure, s := FirstState(m);
    RootIsMet(m, closureRows);
    if failure.Some? {
      FirstFailureIsExplained(m, closureRows);
      return Rejected(Overwork);
    }
    var rows, i := [], 0;
    NoRowsPair(m, closureRows);
    while i < |closureRows|
      invariant 0 <= i <= |closureRows|
      invariant StateOk(m, s) && s.retained == Met(m, closureRows[..i])
      invariant PairsRows(m, closureRows[..i], rows)
      invariant forall k | 0 <= k < i :: RowPairs(m, closureRows[k])
    {
      var row;
      failure, row, s := PairRow(m, closureRows[i], s);
      MetGrows(m, closureRows, i);
      if failure.Some? {
        FailureIsExplained(m, closureRows, i, failure.value);
        return Rejected(failure.value);
      }
      if row.None? {
        UnselectedIsExplained(m, closureRows, i);
        return Declined;
      }
      OneMorePairs(m, closureRows, i, rows, row.value);
      rows, i := rows + [row.value], i + 1;
    }
    assert closureRows[..i] == closureRows;
    RetainedIsGood(m, s);
    result := Paired(rows, s.retained);
    AllPair(m, closureRows, rows);
  }

  lemma {:induction false} FirstFailureIsExplained(m: Manifest, closureRows: seq<Row>)
    requires Exceeds(m.limits.work, WorkOf(m.graph, {m.root})) && m.root in Met(m, closureRows)
    ensures Explained(m, closureRows, Rejected(Overwork)) && !Pairable(m, closureRows)
  {
    hide Met, WorkOf;
    LargerWork(m, {m.root}, Met(m, closureRows));
  }

  lemma {:induction false} NoRowsPair(m: Manifest, closureRows: seq<Row>)
    ensures PairsRows(m, closureRows[..0], []) && Met(m, closureRows[..0]) == {m.root}
  {
  }

  lemma {:induction false} OneMorePairs(m: Manifest, closureRows: seq<Row>, i: nat, rows: seq<Row>, row: Row)
    requires i < |closureRows| && PairsRows(m, closureRows[..i], rows)
    requires Coordinated(m, closureRows[i]) && RootRow(m, closureRows[i]) == Some(row)
    requires !Exceeds(m.limits.depth, OverlaysDown(m.graph, m.root, closureRows[i].path))
    ensures PairsRows(m, closureRows[..i + 1], rows + [row]) && RowPairs(m, closureRows[i])
  {
    hide Coordinated, RootRow, OverlaysDown;
  }

  lemma {:induction false} UnselectedIsExplained(m: Manifest, closureRows: seq<Row>, i: nat)
    requires i < |closureRows| && Coordinated(m, closureRows[i]) && RootRow(m, closureRows[i]).None?
    ensures Explained(m, closureRows, Declined) && !Pairable(m, closureRows)
  {
    hide Coordinated, RootRow, Met, ValidView, WorkOf;
  }

  lemma {:induction false} AllPair(m: Manifest, closureRows: seq<Row>, rows: seq<Row>)
    requires |closureRows| >= 2 && OwnerOf(m.graph, m.closure) == OwnerOf(m.graph, m.root)
    requires PairsRows(m, closureRows, rows) && forall k | 0 <= k < |closureRows| :: RowPairs(m, closureRows[k])
    requires AllViewsOk(m.graph, Met(m, closureRows))
    requires !Exceeds(m.limits.work, WorkOf(m.graph, Met(m, closureRows)))
    ensures Explained(m, closureRows, Paired(rows, Met(m, closureRows))) && Pairable(m, closureRows)
  {
    hide PairsRows, RowPairs, AllViewsOk, WorkOf, Met;
  }

  method FirstState(m: Manifest) returns (failure: Option<Failure>, s: State)
    requires ValidView(m.graph, m.root)
    ensures failure.None? ==> StateOk(m, s) && s.retained == {m.root}
    ensures failure.Some? ==> Exceeds(m.limits.work, WorkOf(m.graph, {m.root}))
  {
    WorkOfAdd(m.graph, {}, m.root);
    assert {} + {m.root} == {m.root};
    s := State({m.root}, map[[] := m.root], m.graph[m.root].work);
    failure := if Exceeds(m.limits.work, s.work) then Some(Overwork) else None;
  }

  lemma {:induction false} RetainedIsGood(m: Manifest, s: State)
    requires StateOk(m, s)
    ensures AllViewsOk(m.graph, s.retained) && !Exceeds(m.limits.work, WorkOf(m.graph, s.retained))
  {
  }

  lemma {:induction false} RootIsMet(m: Manifest, rows: seq<Row>)
    ensures m.root in Met(m, rows)
  {
    if rows != [] {
      RootIsMet(m, rows[..|rows| - 1]);
    }
  }

  lemma {:induction false} MetGrows(m: Manifest, rows: seq<Row>, i: nat)
    requires i < |rows|
    ensures Met(m, rows[..i + 1]) == Met(m, rows[..i]) + MetDown(m.graph, m.root, rows[i].path)
    ensures Met(m, rows[..i + 1]) <= Met(m, rows)
    decreases |rows| - i
  {
    hide MetDown;
    assert rows[..i + 1][..i] == rows[..i];
    if i + 1 < |rows| {
      MetGrows(m, rows, i + 1);
    } else {
      assert rows[..i + 1] == rows;
    }
  }

  lemma {:induction false} FailureIsExplained(m: Manifest, closureRows: seq<Row>, i: nat, why: Failure)
    requires i < |closureRows|
    requires PathFails(m, closureRows[i], Met(m, closureRows[..i]), why)
    ensures Explained(m, closureRows, Rejected(why)) && !Pairable(m, closureRows)
  {
    hide ValidView, Coordinated, RootRow, MetDown, WorkOf, Met;
    MetGrows(m, closureRows, i);
    LargerWork(m, Met(m, closureRows[..i + 1]), Met(m, closureRows));
  }
}
