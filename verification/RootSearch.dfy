/** The search that asks, on validated columns, whether one node is reachable from another. */
module RootSearch {
  import opened Wrappers
  import opened Layouts
  import opened LayoutRoundTrip
  import opened ByteColumns
  import opened ColumnValidator

  // ----- the graph of a table

  /** A component mentions the nodes it refers to, directly or as items. */
  predicate Mentions(f: Component, v: nat) {
    match f
    case Single(leaf) => leaf == Reference(v)
    case Collection(_, items) => Reference(v) in items
  }

  /** Node identifiers count from one. */
  function FieldsOf(t: StructuralTable, u: nat): seq<Component> {
    if 1 <= u <= |t.nodes| then t.nodes[u - 1].fields else []
  }

  predicate Refers(t: StructuralTable, u: nat, v: nat) {
    exists i | 0 <= i < |FieldsOf(t, u)| :: Mentions(FieldsOf(t, u)[i], v)
  }

  predicate Walks(t: StructuralTable, p: seq<nat>) {
    p != [] && forall i | 0 <= i < |p| - 1 :: Refers(t, p[i], p[i + 1])
  }

  ghost predicate Reaches(t: StructuralTable, u: nat, v: nat) {
    exists p :: Walks(t, p) && p[0] == u && p[|p| - 1] == v
  }

  lemma {:induction false} ReachesItself(t: StructuralTable, u: nat)
    ensures Reaches(t, u, u)
  {
    assert Walks(t, [u]);
  }

  lemma {:induction false} ReachesFurther(t: StructuralTable, u: nat, v: nat, w: nat)
    requires Reaches(t, u, v) && Refers(t, v, w)
    ensures Reaches(t, u, w)
  {
    var p :| Walks(t, p) && p[0] == u && p[|p| - 1] == v;
    var q := p + [w];
    forall i | 0 <= i < |q| - 1 ensures Refers(t, q[i], q[i + 1]) {
      assert q[i] == p[i];
    }
    assert Walks(t, q);
  }

  /** A walk cannot leave a set that holds its start and every node its members refer to. */
  lemma {:induction false} ClosedSetHolds(t: StructuralTable, closed: set<nat>, p: seq<nat>)
    requires Walks(t, p) && p[0] in closed
    requires forall u, v | u in closed && Refers(t, u, v) :: v in closed
    ensures p[|p| - 1] in closed
    decreases |p|
  {
    if |p| > 1 {
      var rest := p[1..];
      assert Refers(t, p[0], p[1]);
      forall i | 0 <= i < |rest| - 1 ensures Refers(t, rest[i], rest[i + 1]) {
        assert rest[i] == p[i + 1] && rest[i + 1] == p[i + 2];
      }
      ClosedSetHolds(t, closed, rest);
    }
  }

  // ----- how a component reads from the columns

  predicate ItemReads(c: Arena, k: nat, leaf: Leaf) {
    && Rectangular(c) && k < |c.itemKinds|
    && (c.itemKinds[k] == NODE <==> leaf.Reference?)
    && (leaf.Reference? ==> c.itemValues[k] == leaf.id)
  }

  predicate FieldReads(c: Arena, k: nat, f: Component) {
    && Rectangular(c) && k < |c.fieldKinds|
    && match f
       case Single(leaf) =>
         && c.fieldKinds[k] != SET && c.fieldKinds[k] != SEQUENCE
         && (c.fieldKinds[k] == NODE <==> leaf.Reference?)
         && (leaf.Reference? ==> c.fieldValues[k] == leaf.id)
       case Collection(_, items) =>
         && (c.fieldKinds[k] == SET || c.fieldKinds[k] == SEQUENCE)
         && c.fieldLengths[k] == |items|
         && forall j | 0 <= j < |items| :: ItemReads(c, c.fieldValues[k] + j, items[j])
  }

  lemma {:induction false} ReadsWithin(a: Arena, c: Arena, k: nat, f: Component)
    requires Within(a, c) && Rectangular(c) && FieldReads(a, k, f)
    ensures FieldReads(c, k, f)
  {
    if f.Collection? {
      forall j | 0 <= j < |f.items| ensures ItemReads(c, c.fieldValues[k] + j, f.items[j]) {
        assert ItemReads(a, a.fieldValues[k] + j, f.items[j]);
      }
    }
  }

  lemma {:induction false} AppendedItemsRead(a: Arena, items: seq<Leaf>, j: nat, nodeCount: nat)
    requires Rectangular(a) && j < |items| && forall i | 0 <= i < |items| :: LeafOk(items[i], nodeCount)
    ensures ItemReads(AppendItems(a, items), |a.itemKinds| + j, items[j])
    decreases |items|
  {
    var init, last := items[..|items| - 1], items[|items| - 1];
    ItemsShape(a, init);
    ItemGrows(AppendItems(a, init), last);
    if j < |init| {
      AppendedItemsRead(a, init, j, nodeCount);
    }
  }

  lemma {:induction false} AppendedFieldReads(a: Arena, f: Component, nodeCount: nat)
    requires Rectangular(a) && ComponentOk(f, nodeCount)
    ensures FieldReads(AppendComponent(a, f), |a.fieldKinds|, f)
  {
    ComponentShape(a, f);
    if f.Collection? {
      var begun := AppendField(a, CollectionRow(a, f), []);
      ItemsShape(begun, f.items);
      forall j | 0 <= j < |f.items| ensures ItemReads(AppendItems(begun, f.items), |a.itemKinds| + j, f.items[j]) {
        assert ItemOk(f.items[j], f.isSet, nodeCount);
        AppendedItemsRead(begun, f.items, j, nodeCount);
      }
    }
  }

  lemma {:induction false} FieldsRead(fields: seq<Component>, k: nat, nodeCount: nat)
    requires FieldsOk(fields, nodeCount) && k < |fields|
    ensures FieldReads(FieldsArena(fields), k, fields[k])
    decreases |fields|
  {
    hide AppendComponent, FieldReads, ComponentOk;
    var init, last := fields[..|fields| - 1], fields[|fields| - 1];
    FieldsShape(fields);
    FieldsShape(init);
    ComponentShape(FieldsArena(init), last);
    if k < |init| {
      assert forall i | 0 <= i < |init| :: init[i] == fields[i];
      FieldsRead(init, k, nodeCount);
      ReadsWithin(FieldsArena(init), FieldsArena(fields), k, fields[k]);
    } else {
      AppendedFieldReads(FieldsArena(init), last, nodeCount);
    }
  }

  /** Row `k` belongs to node `u`, as the offsets delimit it, and reads as that node's component. */
  lemma {:induction false} NodeReads(t: StructuralTable, u: nat, k: nat)
    requires TableOk(t) && 1 <= u <= |t.nodes|
    requires Offsets(t.nodes)[u - 1] <= k < Offsets(t.nodes)[u]
    ensures k - Offsets(t.nodes)[u - 1] < |t.nodes[u - 1].fields|
    ensures FieldReads(Layout(t).arena, k, t.nodes[u - 1].fields[k - Offsets(t.nodes)[u - 1]])
  {
    NodeFieldsAt(t.nodes, u - 1);
    NodeFieldsOk(t.nodes, |t.nodes|);
    FieldsRead(NodeFields(t.nodes), k, |t.nodes|);
  }

  lemma {:induction false} NodeWidth(t: StructuralTable, u: nat)
    requires 1 <= u <= |t.nodes|
    ensures Offsets(t.nodes)[u] == Offsets(t.nodes)[u - 1] + |t.nodes[u - 1].fields|
    ensures Offsets(t.nodes)[u] <= |NodeFields(t.nodes)|
  {
    NodeFieldsAt(t.nodes, u - 1);
  }

  lemma {:induction false} MentionedIsNode(t: StructuralTable, u: nat, v: nat)
    requires TableOk(t) && Refers(t, u, v)
    ensures 1 <= v <= |t.nodes|
  {
    var i :| 0 <= i < |FieldsOf(t, u)| && Mentions(FieldsOf(t, u)[i], v);
    var f := FieldsOf(t, u)[i];
    assert ComponentOk(f, |t.nodes|);
    if f.Collection? {
      var j :| 0 <= j < |f.items| && f.items[j] == Reference(v);
      assert ItemOk(f.items[j], f.isSet, |t.nodes|);
    }
  }

  // ----- the code

  /** The buffers hold the layout of the table. */
  ghost predicate Holds(b: Buffers, t: StructuralTable) {
    TableOk(t) && Read(b) == Layout(t)
  }

  /** Validated buffers hold the one table that they store. */
  lemma {:induction false} ValidatedHolds(b: Buffers) returns (t: StructuralTable)
    requires exists stored :: Stores(b, stored)
    ensures Holds(b, t) && TableOk(t) && forall stored :: Stores(b, stored) ==> stored == t
  {
    hide Stores, Layout, TableOk, Parse;
    AcceptedIffStored(b);
    t := Parse(Read(b)).value;
    ParseIsLayout(Read(b));
  }

  /** Pushes the nodes that one component mentions. */
  method PushMentioned(b: Buffers, k: nat, stack: seq<nat>, ghost f: Component) returns (pushed: seq<nat>)
    requires FieldReads(Read(b).arena, k, f)
    ensures stack <= pushed
    ensures forall v :: v in pushed[|stack|..] <==> Mentions(f, v)
  {
    hide Column;
    pushed := stack;
    var kind := ReadUint(b.fieldKinds, k, 1);
    if kind == NODE {
      var id := ReadUint(b.fieldValues, k, 8);
      pushed := pushed + [id];
      assert pushed[|stack|..] == [id];
      return;
    }
    if kind != SET && kind != SEQUENCE {
      assert pushed[|stack|..] == [];
      return;
    }
    var start := ReadUint(b.fieldValues, k, 8);
    var length := ReadUint(b.fieldLengths, k, 8);
    ghost var c := Read(b).arena;
    var j := 0;
    assert pushed[|stack|..] == [];
    while j < length
      invariant 0 <= j <= length == |f.items|
      invariant stack <= pushed
      invariant forall v :: v in pushed[|stack|..] <==> Reference(v) in f.items[..j]
    {
      assert ItemReads(c, start + j, f.items[j]);
      var itemKind := ReadUint(b.itemKinds, start + j, 1);
      assert f.items[..j + 1] == f.items[..j] + [f.items[j]];
      if itemKind == NODE {
        var id := ReadUint(b.itemValues, start + j, 8);
        assert (pushed + [id])[|stack|..] == pushed[|stack|..] + [id];
        pushed := pushed + [id];
      }
      j := j + 1;
    }
    assert f.items[..j] == f.items;
  }

  /** Pushes every node that a node refers to. */
  method PushReferred(b: Buffers, u: nat, stack: seq<nat>, ghost t: StructuralTable) returns (pushed: seq<nat>)
    requires Holds(b, t) && 1 <= u <= |t.nodes|
    ensures stack <= pushed
    ensures forall v :: v in pushed[|stack|..] <==> Refers(t, u, v)
  {
    hide Column, FieldReads, Mentions;
    NodeWidth(t, u);
    var start := ReadUint(b.nodeFieldOffsets, u - 1, 8);
    var end := ReadUint(b.nodeFieldOffsets, u, 8);
    ghost var fields := FieldsOf(t, u);
    pushed := stack;
    var k := start;
    assert pushed[|stack|..] == [];
    while k < end
      invariant start <= k <= end && end - start == |fields|
      invariant stack <= pushed
      invariant forall v :: v in pushed[|stack|..] <==> exists i | 0 <= i < k - start :: Mentions(fields[i], v)
    {
      NodeReads(t, u, k);
      var more := PushMentioned(b, k, pushed, fields[k - start]);
      assert more[|stack|..] == pushed[|stack|..] + more[|pushed|..];
      pushed := more;
      k := k + 1;
    }
  }

  ghost function Identifiers(n: nat): (ids: set<nat>)
    ensures forall v: nat :: v in ids <==> v <= n
  {
    if n == 0 then {0} else Identifiers(n - 1) + {n}
  }

  /** What the search knows: everything stacked or visited is reachable, and nothing visited leads elsewhere. */
  ghost predicate SearchOk(t: StructuralTable, root: nat, target: nat, visited: set<nat>, stack: seq<nat>) {
    && (forall v | v in visited || v in stack :: 1 <= v <= |t.nodes| && Reaches(t, root, v))
    && (forall u, v | u in visited && Refers(t, u, v) :: v in visited || v in stack)
    && (root in visited || root in stack)
    && target !in visited
  }

  lemma {:induction false} PopVisited(
    t: StructuralTable, root: nat, target: nat, visited: set<nat>, stack: seq<nat>)
    requires SearchOk(t, root, target, visited, stack) && stack != [] && stack[|stack| - 1] in visited
    ensures SearchOk(t, root, target, visited, stack[..|stack| - 1])
  {
    hide Reaches, Refers;
    var rest := stack[..|stack| - 1];
    assert forall v | v in stack :: v in rest || v == stack[|stack| - 1];
    assert forall v | v in rest :: v in stack;
  }

  lemma {:induction false} VisitTop(
    t: StructuralTable, root: nat, target: nat, visited: set<nat>, stack: seq<nat>, pushed: seq<nat>)
    requires TableOk(t) && SearchOk(t, root, target, visited, stack)
    requires stack != [] && stack[|stack| - 1] != target
    requires var rest := stack[..|stack| - 1];
      rest <= pushed && forall v :: v in pushed[|rest|..] <==> Refers(t, stack[|stack| - 1], v)
    ensures SearchOk(t, root, target, visited + {stack[|stack| - 1]}, pushed)
  {
    hide Reaches, Refers;
    var rest, top := stack[..|stack| - 1], stack[|stack| - 1];
    assert top in stack;
    assert pushed == rest + pushed[|rest|..];
    assert forall v | v in stack :: v in rest || v == top;
    forall v | v in pushed ensures 1 <= v <= |t.nodes| && Reaches(t, root, v) {
      if v in rest {
        assert v in stack;
      } else {
        MentionedIsNode(t, top, v);
        ReachesFurther(t, root, top, v);
      }
    }
  }

  lemma {:induction false} SearchIsOver(t: StructuralTable, root: nat, target: nat, visited: set<nat>)
    requires SearchOk(t, root, target, visited, [])
    ensures !Reaches(t, root, target)
  {
    if Reaches(t, root, target) {
      var p :| Walks(t, p) && p[0] == root && p[|p| - 1] == target;
      ClosedSetHolds(t, visited, p);
    }
  }

  /** Depth-first search over the rows; identifiers outside the table reach nothing. */
  method RootReachesNode(b: Buffers, root: nat, target: nat) returns (reached: bool)
    requires exists t :: Stores(b, t)
    ensures forall t | Stores(b, t) ::
      reached <==> 1 <= root <= |t.nodes| && 1 <= target <= |t.nodes| && Reaches(t, root, target)
  {
    hide Column, Layout, TableOk, Refers, SearchOk, Stores, Holds, Reaches;
    ghost var t := ValidatedHolds(b);
    LayoutCounts(b, t);
    var nodeCount := |b.nodeTags| / 2;
    if !(0 < root <= nodeCount) || !(0 < target <= nodeCount) {
      return false;
    }
    var visited := new bool[nodeCount + 1](_ => false);
    var stack := [root];
    ghost var seen: set<nat> := {};
    StartSearch(t, root, target);
    while stack != []
      invariant fresh(visited) && visited.Length == nodeCount + 1
      invariant SearchOk(t, root, target, seen, stack)
      invariant forall v | 0 <= v <= nodeCount :: visited[v] <==> v in seen
      decreases Identifiers(nodeCount) - seen, |stack|
    {
      var top := stack[|stack| - 1];
      TopIsNode(t, root, target, seen, stack);
      var rest := stack[..|stack| - 1];
      if top == target {
        return true;
      }
      if visited[top] {
        PopVisited(t, root, target, seen, stack);
        stack := rest;
        continue;
      }
      visited[top] := true;
      var pushed := PushReferred(b, top, rest, t);
      VisitTop(t, root, target, seen, stack, pushed);
      stack := pushed;
      assert top in Identifiers(nodeCount) - seen;
      seen := seen + {top};
    }
    SearchIsOver(t, root, target, seen);
    reached := false;
  }

  lemma {:induction false} LayoutCounts(b: Buffers, t: StructuralTable)
    requires Holds(b, t)
    ensures |b.nodeTags| / 2 == |t.nodes|
  {
    ColumnCount(b.nodeTags, 2);
  }

  lemma {:induction false} StartSearch(t: StructuralTable, root: nat, target: nat)
    requires 1 <= root <= |t.nodes|
    ensures SearchOk(t, root, target, {}, [root])
  {
    ReachesItself(t, root);
  }

  lemma {:induction false} TopIsNode(
    t: StructuralTable, root: nat, target: nat, visited: set<nat>, stack: seq<nat>)
    requires SearchOk(t, root, target, visited, stack) && stack != []
    ensures 1 <= stack[|stack| - 1] <= |t.nodes| && Reaches(t, root, stack[|stack| - 1])
  {
    assert stack[|stack| - 1] in stack;
  }
}
