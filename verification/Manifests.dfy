/**
 Encoded ontology views and the segment manifests that connect them.

 A view is known by its identity.  Its manifest is a list of references to other
 views, followed by at most one local segment over the view's own table: the
 direct segment of a plain view, the delta of an overlay or the bridge of a
 composite.  Reference `i` is segment `i` of the manifest, and the local segment,
 when there is one, is segment `|refs|`.
 */
module Manifests {
  import opened Wrappers

  type ViewId = nat
  type Owner = nat

  /** An anonymous-scope value: 32 bytes, read as one number. */
  type Scope = nat

  /** Which roots of the referenced view's own table a reference selects; positions count from one. */
  datatype Posting = All | Include(ids: seq<nat>) | Exclude(ids: seq<nat>)

  datatype ScopeRow = ScopeRow(source: Scope, target: Scope)
  type ScopeMap = seq<ScopeRow>

  /** `token` is the member token of a composite member, and 0 on an overlay base, which has none. */
  datatype Reference = Reference(
    source: ViewId, owner: Owner, posting: Posting, scopeMap: ScopeMap, token: nat)

  /**
   The local columns: for every node its anonymous scope, if it is an anonymous
   individual, and for every root the nodes it is made of.
   */
  datatype Table = Table(nodes: seq<Option<Scope>>, roots: seq<seq<nat>>)

  datatype Kind = Direct | Overlay | Composite

  /** `work` is the validation charge of the view: its buffer, posting and scope-map bytes. */
  datatype View = View(
    owner: Owner, kind: Kind, refs: seq<Reference>, local: bool, table: Table, work: nat)

  type Graph = map<ViewId, View>

  function Refs(g: Graph, v: ViewId): seq<Reference> {
    if v in g then g[v].refs else []
  }

  function TableOf(g: Graph, v: ViewId): Table {
    if v in g then g[v].table else Table([], [])
  }

  /** Overlays are the containers that the overlay-depth limit counts. */
  function OverlayIncrement(g: Graph, v: ViewId): nat {
    if v in g && g[v].kind.Overlay? then 1 else 0
  }

  /** A direct view without roots contributes a leaf only when empty leaves are retained. */
  predicate HasLocalLeaf(g: Graph, keepEmpty: bool, v: ViewId) {
    v in g && if g[v].kind.Direct? then keepEmpty || g[v].table.roots != [] else g[v].local
  }

  // ----- what the validation of one view establishes

  predicate ValidIds(ids: seq<nat>, rootCount: nat) {
    && ids != []
    && (forall i | 0 <= i < |ids| :: 1 <= ids[i] <= rootCount)
    && (forall i, j | 0 <= i < j < |ids| :: ids[i] < ids[j])
  }

  predicate ValidPosting(posting: Posting, rootCount: nat) {
    match posting
    case All => true
    case Include(ids) => ValidIds(ids, rootCount)
    case Exclude(ids) => ValidIds(ids, rootCount)
  }

  predicate ValidScopeMap(m: ScopeMap) {
    && (forall i | 0 <= i < |m| :: m[i].source != m[i].target)
    && (forall i, j | 0 <= i < j < |m| :: m[i].source < m[j].source)
  }

  predicate ValidReference(g: Graph, v: ViewId, r: Reference) {
    && r.source in g
    && r.source != v
    && r.owner == g[r.source].owner
    && ValidPosting(r.posting, |g[r.source].table.roots|)
    && ValidScopeMap(r.scopeMap)
  }

  predicate ValidFamily(view: View) {
    match view.kind
    case Direct =>
      view.refs == [] && view.local
    case Overlay =>
      && |view.refs| == 1 && !view.refs[0].posting.Include? && view.refs[0].token == 0
      && (view.local <==> view.table.roots != [])
    case Composite =>
      && |view.refs| >= 2
      && (forall i, j | 0 <= i < j < |view.refs| :: view.refs[i].token < view.refs[j].token)
      && (view.local <==> view.table.roots != [])
  }

  predicate ValidTable(table: Table) {
    forall i, j | 0 <= i < |table.roots| && 0 <= j < |table.roots[i]| ::
      table.roots[i][j] < |table.nodes|
  }

  /** The manifest part of the validation, which both languages perform. */
  predicate ValidManifest(g: Graph, v: ViewId) {
    && v in g
    && ValidFamily(g[v])
    && (forall i | 0 <= i < |g[v].refs| :: ValidReference(g, v, g[v].refs[i]))
  }

  predicate ValidView(g: Graph, v: ViewId) {
    ValidManifest(g, v) && ValidTable(g[v].table)
  }

  /** A container without a local segment has no local columns at all, not only no roots. */
  predicate EmptyWithoutLocal(g: Graph, v: ViewId) {
    v in g && (g[v].local || g[v].table == Table([], []))
  }

  // ----- public limits

  /** A limit that the owner does not publish is absent. */
  datatype Limits = Limits(work: Option<nat>, depth: Option<nat>, members: Option<nat>)

  predicate Exceeds(limit: Option<nat>, n: nat) {
    limit.Some? && n > limit.value
  }

  // ----- validation work of a set of views

  ghost function WorkOf(g: Graph, views: set<ViewId>): nat {
    if views == {} then 0 else
      var v :| v in views;
      (if v in g then g[v].work else 0) + WorkOf(g, views - {v})
  }

  lemma {:induction false} WorkOfAdd(g: Graph, views: set<ViewId>, v: ViewId)
    requires v !in views
    ensures WorkOf(g, views + {v}) == WorkOf(g, views) + if v in g then g[v].work else 0
    decreases |views|
  {
    var all := views + {v};
    var u :| u in all && WorkOf(g, all) == (if u in g then g[u].work else 0) + WorkOf(g, all - {u});
    if u == v {
      assert all - {u} == views;
    } else {
      assert all - {u} == (views - {u}) + {v};
      WorkOfAdd(g, views - {u}, v);
      WorkOfAdd(g, views - {u}, u);
      assert (views - {u}) + {u} == views;
    }
  }

  lemma {:induction false} WorkOfMonotone(g: Graph, small: set<ViewId>, large: set<ViewId>)
    requires small <= large
    ensures WorkOf(g, small) <= WorkOf(g, large)
    decreases |large - small|
  {
    if large - small == {} {
      assert small == large;
    } else {
      var v :| v in large - small;
      WorkOfAdd(g, small, v);
      assert large - (small + {v}) == (large - small) - {v};
      WorkOfMonotone(g, small + {v}, large);
    }
  }
}
