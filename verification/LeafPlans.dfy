/**
 Leaf plans: the flat form of a segmented view.

 A row names one local table, the selector that applies to its roots, the chain of
 anonymous-scope maps to apply to it, innermost first, and the path of segment
 indexes that leads to it.
 */
module LeafPlans {
  import opened Wrappers
  import opened Manifests
  import opened Unfoldings

  datatype Row = Row(
    view: ViewId,
    included: Option<seq<nat>>,
    excluded: Option<seq<nat>>,
    chain: seq<ScopeMap>,
    path: seq<nat>)

  // ----- anonymous scopes

  /** The first row whose source is the scope decides; a scope without a row stays. */
  function MapScope(m: ScopeMap, s: Scope): Scope {
    if m == [] then s
    else if m[0].source == s then m[0].target
    else MapScope(m[1..], s)
  }

  /** The effect of a chain of maps, applied from first to last. */
  function Effective(chain: seq<ScopeMap>, s: Scope): Scope {
    if chain == [] then s else MapScope(chain[|chain| - 1], Effective(chain[..|chain| - 1], s))
  }

  /** A map applies to a table when it consumes the effective scope of one of its nodes. */
  predicate ScopeMapApplies(table: Table, prior: seq<ScopeMap>, m: ScopeMap) {
    exists i, j | 0 <= i < |table.nodes| && 0 <= j < |m| ::
      table.nodes[i].Some? && m[j].source == Effective(prior, table.nodes[i].value)
  }

  function ExtendChain(table: Table, prior: seq<ScopeMap>, m: ScopeMap): seq<ScopeMap> {
    if m != [] && ScopeMapApplies(table, prior, m) then prior + [m] else prior
  }

  // ----- what one reference does to the rows of its source

  function ApplyScopeMap(g: Graph, rows: seq<Row>, m: ScopeMap): (mapped: seq<Row>)
    ensures |mapped| == |rows|
    ensures forall i | 0 <= i < |rows| ::
      mapped[i] == rows[i].(chain := ExtendChain(TableOf(g, rows[i].view), rows[i].chain, m))
  {
    if rows == [] then [] else
      var last := rows[|rows| - 1];
      ApplyScopeMap(g, rows[..|rows| - 1], m) +
      [last.(chain := ExtendChain(TableOf(g, last.view), last.chain, m))]
  }

  /**
   INCLUDE keeps only the source's own rows, EXCLUDE keeps the others untouched, and
   a selector lands on the source's own rows.  There is no result when such a row
   already carries a selector: one row cannot hold two.
   */
  function ApplyPostings(rows: seq<Row>, source: ViewId, posting: Posting): Option<seq<Row>> {
    if rows == [] || posting.All? then Some(rows) else
      var kept :- ApplyPostings(rows[..|rows| - 1], source, posting);
      var last := rows[|rows| - 1];
      if last.view != source then
        Some(if posting.Include? then kept else kept + [last])
      else if last.included.Some? || last.excluded.Some? then
        None
      else if posting.Include? then
        Some(kept + [last.(included := Some(posting.ids))])
      else
        Some(kept + [last.(excluded := Some(posting.ids))])
  }

  function PrependSegment(rows: seq<Row>, segment: nat): (moved: seq<Row>)
    ensures |moved| == |rows|
    ensures forall i | 0 <= i < |rows| :: moved[i] == rows[i].(path := [segment] + rows[i].path)
  {
    if rows == [] then [] else
      var last := rows[|rows| - 1];
      PrependSegment(rows[..|rows| - 1], segment) + [last.(path := [segment] + last.path)]
  }

  function ApplyReference(g: Graph, r: Reference, segment: nat, rows: seq<Row>): Option<seq<Row>> {
    var selected :- ApplyPostings(ApplyScopeMap(g, rows, r.scopeMap), r.source, r.posting);
    Some(PrependSegment(selected, segment))
  }

  /** A row as a selector that meets it leaves it. */
  function SelectedRow(row: Row, source: ViewId, posting: Posting): Row {
    row.(included := if row.view == source && posting.Include? then Some(posting.ids) else row.included,
         excluded := if row.view == source && posting.Exclude? then Some(posting.ids) else row.excluded)
  }

  /** What a reference makes of a row it keeps. */
  function ReferredRow(g: Graph, r: Reference, segment: nat, row: Row): Row {
    SelectedRow(row, r.source, r.posting).(
      chain := ExtendChain(TableOf(g, row.view), row.chain, r.scopeMap),
      path := [segment] + row.path)
  }

  function LocalRow(g: Graph, v: ViewId): Row {
    Row(v, None, None, [], [|Refs(g, v)|])
  }

  // ----- the plan of an unfolding

  /** The rows of an unfolding: those of its references in manifest order, then its own. */
  ghost function Rows(g: Graph, keepEmpty: bool, t: Tree): Option<seq<Row>>
    requires Unfolds(g, t)
    decreases t
  {
    var rows :- KidsRows(g, keepEmpty, t.view, t.children);
    Some(rows + if HasLocalLeaf(g, keepEmpty, t.view) then [LocalRow(g, t.view)] else [])
  }

  ghost function KidsRows(g: Graph, keepEmpty: bool, v: ViewId, kids: seq<Tree>): Option<seq<Row>>
    requires KidsUnfold(g, v, kids)
    decreases kids
  {
    if kids == [] then Some([]) else
      var last := |kids| - 1;
      var prior :- KidsRows(g, keepEmpty, v, kids[..last]);
      var child :- Rows(g, keepEmpty, kids[last]);
      var applied :- ApplyReference(g, Refs(g, v)[last], last, child);
      Some(prior + applied)
  }

  // ----- lengths and shapes

  lemma {:induction false} ApplyPostingsOnOwnRows(rows: seq<Row>, source: ViewId, posting: Posting)
    requires posting.Include? ==> forall i | 0 <= i < |rows| :: rows[i].view == source
    ensures var kept := ApplyPostings(rows, source, posting);
      kept.Some? ==> |kept.value| == |rows|
    decreases |rows|
  {
    if rows != [] && !posting.All? {
      ApplyPostingsOnOwnRows(rows[..|rows| - 1], source, posting);
    }
  }

  /** A local unfolding yields the source's own leaf or nothing. */
  lemma {:induction false} LocalRows(g: Graph, keepEmpty: bool, t: Tree)
    requires Unfolds(g, t) && t.local
    ensures Rows(g, keepEmpty, t) ==
      Some(if HasLocalLeaf(g, keepEmpty, t.view) then [LocalRow(g, t.view)] else [])
  {
    assert t.children == [] && KidsRows(g, keepEmpty, t.view, t.children) == Some([]);
    assert forall rows: seq<Row> :: [] + rows == rows;
  }

  lemma {:induction false} ApplyReferenceKeepsCount(g: Graph, r: Reference, segment: nat, rows: seq<Row>)
    requires r.posting.Include? ==> forall i | 0 <= i < |rows| :: rows[i].view == r.source
    ensures var applied := ApplyReference(g, r, segment, rows);
      applied.Some? ==> |applied.value| == |rows|
  {
    ApplyPostingsOnOwnRows(ApplyScopeMap(g, rows, r.scopeMap), r.source, r.posting);
  }

  /** No reference drops a row, so a plan has exactly one row for every local leaf. */
  lemma {:induction false} RowsPerLeaf(g: Graph, keepEmpty: bool, t: Tree)
    requires Unfolds(g, t)
    ensures Rows(g, keepEmpty, t).Some? ==>
      |Rows(g, keepEmpty, t).value| == Leaves(g, keepEmpty, t)
    decreases t
  {
    KidsRowsPerLeaf(g, keepEmpty, t.view, t.children);
  }

  lemma {:induction false} KidsRowsPerLeaf(g: Graph, keepEmpty: bool, v: ViewId, kids: seq<Tree>)
    requires KidsUnfold(g, v, kids)
    ensures KidsRows(g, keepEmpty, v, kids).Some? ==>
      |KidsRows(g, keepEmpty, v, kids).value| == KidsLeaves(g, keepEmpty, kids)
    decreases kids
  {
    if kids != [] && KidsRows(g, keepEmpty, v, kids).Some? {
      var last := |kids| - 1;
      KidsRowsPerLeaf(g, keepEmpty, v, kids[..last]);
      RowsPerLeaf(g, keepEmpty, kids[last]);
      ChildRowsAreOwn(g, keepEmpty, v, kids, last);
      ApplyReferenceKeepsCount(g, Refs(g, v)[last], last, Rows(g, keepEmpty, kids[last]).value);
    }
  }

  lemma {:induction false} ChildRowsAreOwn(g: Graph, keepEmpty: bool, v: ViewId, kids: seq<Tree>, i: nat)
    requires KidsUnfold(g, v, kids) && i < |kids|
    requires Rows(g, keepEmpty, kids[i]).Some?
    ensures var rows := Rows(g, keepEmpty, kids[i]).value;
      Refs(g, v)[i].posting.Include? ==>
        forall j | 0 <= j < |rows| :: rows[j].view == Refs(g, v)[i].source
  {
    assert KeyOf(kids[i]) == ChildKey(Refs(g, v)[i]);
    if kids[i].local {
      LocalRows(g, keepEmpty, kids[i]);
    }
  }

  lemma {:induction false} KidsRowsPrefix(g: Graph, keepEmpty: bool, v: ViewId, kids: seq<Tree>, n: nat)
    requires KidsUnfold(g, v, kids) && n <= |kids|
    ensures KidsUnfold(g, v, kids[..n])
    ensures KidsRows(g, keepEmpty, v, kids[..n]).None? ==> KidsRows(g, keepEmpty, v, kids).None?
    decreases |kids|
  {
    if n == |kids| {
      assert kids[..n] == kids;
    } else {
      assert kids[..|kids| - 1][..n] == kids[..n];
      KidsRowsPrefix(g, keepEmpty, v, kids[..|kids| - 1], n);
    }
  }

  // ----- where rows come from

  predicate Bare(row: Row) {
    row.included.None? && row.excluded.None?
  }

  /** Does a reference place its selector on the target's table? */
  predicate Selects(r: Reference, target: ViewId) {
    r.posting.Include? || (r.posting.Exclude? && r.source == target)
  }

  /** Every row of a reference stems from a row of its source that the selector could meet. */
  ghost predicate Stems(g: Graph, r: Reference, segment: nat, rows: seq<Row>, row: Row) {
    exists i | 0 <= i < |rows| ::
      && row == ReferredRow(g, r, segment, rows[i])
      && (r.posting.Include? ==> rows[i].view == r.source)
      && (Selects(r, rows[i].view) ==> Bare(rows[i]))
  }

  ghost predicate KeptStems(rows: seq<Row>, source: ViewId, posting: Posting, row: Row) {
    exists i | 0 <= i < |rows| ::
      && row == SelectedRow(rows[i], source, posting)
      && (posting.Include? ==> rows[i].view == source)
      && (!posting.All? && rows[i].view == source ==> Bare(rows[i]))
  }

  lemma {:induction false} KeptRowsStem(rows: seq<Row>, source: ViewId, posting: Posting, k: nat)
    requires ApplyPostings(rows, source, posting).Some? && k < |ApplyPostings(rows, source, posting).value|
    ensures KeptStems(rows, source, posting, ApplyPostings(rows, source, posting).value[k])
    decreases |rows|
  {
    var kept := ApplyPostings(rows, source, posting).value;
    if posting.All? {
      assert kept[k] == SelectedRow(rows[k], source, posting);
    } else {
      var init, last := rows[..|rows| - 1], rows[|rows| - 1];
      var before := ApplyPostings(init, source, posting).value;
      if k < |before| {
        KeptRowsStem(init, source, posting, k);
        var i :| 0 <= i < |init|
          && before[k] == SelectedRow(init[i], source, posting)
          && (posting.Include? ==> init[i].view == source)
          && (!posting.All? && init[i].view == source ==> Bare(init[i]));
        assert rows[i] == init[i];
      } else {
        assert kept[k] == SelectedRow(rows[|rows| - 1], source, posting);
      }
    }
  }

  lemma {:induction false} ReferredRowsStem(g: Graph, r: Reference, segment: nat, rows: seq<Row>, k: nat)
    requires var applied := ApplyReference(g, r, segment, rows);
      applied.Some? && k < |applied.value|
    ensures Stems(g, r, segment, rows, ApplyReference(g, r, segment, rows).value[k])
  {
    var mapped := ApplyScopeMap(g, rows, r.scopeMap);
    KeptRowsStem(mapped, r.source, r.posting, k);
    var kept := ApplyPostings(mapped, r.source, r.posting).value;
    var i :| 0 <= i < |mapped|
      && kept[k] == SelectedRow(mapped[i], r.source, r.posting)
      && (r.posting.Include? ==> mapped[i].view == r.source)
      && (!r.posting.All? && mapped[i].view == r.source ==> Bare(mapped[i]));
    assert ApplyReference(g, r, segment, rows).value[k] == ReferredRow(g, r, segment, rows[i]);
  }
}
