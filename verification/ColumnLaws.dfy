/**
 The columns in plain numbers: which rows are accepted, and what the rows of a table say.

 A row is a kind, a value and a length.  Kind 0 is nothing, 1 a node, 2 to 5 a scalar, 6 a
 set and 7 a sequence; a scalar's value is where its bytes start, a collection's where its
 items start, and both tile their arenas without gaps, in the order of the rows.
 */
module ColumnLaws {
  import opened Wrappers
  import opened Layouts
  import opened LayoutRoundTrip
  import opened ByteColumns
  import opened RootSearch

  // ----- which columns are accepted

  /** The bytes of the scalars among the first `n` rows. */
  function ScalarBytes(kinds: seq<nat>, lengths: seq<nat>, n: nat): nat
    requires n <= |kinds| && n <= |lengths|
  {
    if n == 0 then 0 else ScalarBytes(kinds, lengths, n - 1) + if 2 <= kinds[n - 1] <= 5 then lengths[n - 1] else 0
  }

  /** The items of the collections among the first `n` fields. */
  function ItemCount(c: Arena, n: nat): nat
    requires n <= |c.fieldKinds| && n <= |c.fieldLengths|
  {
    if n == 0 then 0 else ItemCount(c, n - 1) + if 6 <= c.fieldKinds[n - 1] <= 7 then c.fieldLengths[n - 1] else 0
  }

  /** A row of a single component, whose bytes start at `cursor` if it is a scalar. */
  predicate SingleFits(kind: nat, value: nat, length: nat, nodeCount: nat, cursor: nat, arena: nat) {
    || (kind == 0 && value == 0 && length == 0)
    || (kind == 1 && 1 <= value <= nodeCount && length == 0)
    || (2 <= kind <= 5 && value == cursor && cursor + length <= arena)
  }

  /** Where the scalars of item `j` start when `fields` bytes belong to the fields before it. */
  function ItemCursor(c: Arena, fields: nat, j: nat): nat
    requires j <= |c.itemKinds| == |c.itemLengths|
  {
    fields + ScalarBytes(c.itemKinds, c.itemLengths, j)
  }

  ghost predicate ItemsFit(c: Arena, from: nat, n: nat, isSet: bool, nodeCount: nat, fields: nat)
    requires Rectangular(c) && from + n <= |c.itemKinds|
  {
    forall j | from <= j < from + n ::
      && (isSet ==> c.itemKinds[j] == 1)
      && SingleFits(c.itemKinds[j], c.itemValues[j], c.itemLengths[j], nodeCount, ItemCursor(c, fields, j), |c.scalars|)
  }

  ghost predicate FieldFits(c: Arena, k: nat, nodeCount: nat)
    requires Rectangular(c) && k < |c.fieldKinds|
  {
    var kind, value, length := c.fieldKinds[k], c.fieldValues[k], c.fieldLengths[k];
    var fields, items := ScalarBytes(c.fieldKinds, c.fieldLengths, k), ItemCount(c, k);
    && items <= |c.itemKinds|
    && if kind == 6 || kind == 7
       then
         && value == items && items + length <= |c.itemKinds|
         && ItemsFit(c, items, length, kind == 6, nodeCount, fields)
       else SingleFits(kind, value, length, nodeCount, ItemCursor(c, fields, items), |c.scalars|)
  }

  ghost predicate HeadsFit(c: Columns) {
    && |c.nodeTags| < 4294967296
    && |c.nodeFieldOffsets| == |c.nodeTags| + 1
    && |c.arena.fieldValues| == |c.arena.fieldKinds| == |c.arena.fieldLengths|
    && |c.arena.itemValues| == |c.arena.itemKinds| == |c.arena.itemLengths|
    && c.nodeFieldOffsets[0] == 0 && c.nodeFieldOffsets[|c.nodeTags|] == |c.arena.fieldKinds|
    && (forall i | 0 <= i < |c.nodeTags| :: c.nodeFieldOffsets[i] <= c.nodeFieldOffsets[i + 1])
    && |c.rootIds| == |c.rootKinds|
    && forall i | 0 <= i < |c.rootKinds| :: 1 <= c.rootKinds[i] <= 3 && 1 <= c.rootIds[i] <= |c.nodeTags|
  }

  ghost predicate ColumnsFit(c: Columns) {
    && HeadsFit(c)
    && var a, n := c.arena, |c.arena.fieldKinds|;
    && (forall k | 0 <= k < n :: FieldFits(a, k, |c.nodeTags|))
    && ItemCount(a, n) == |a.itemKinds|
    && ItemCursor(a, ScalarBytes(a.fieldKinds, a.fieldLengths, n), |a.itemKinds|) == |a.scalars|
  }

  lemma {:induction false} OffsetsAscend(offsets: seq<nat>, i: nat, j: nat)
    requires forall k | 0 <= k < |offsets| - 1 :: offsets[k] <= offsets[k + 1]
    requires i <= j < |offsets|
    ensures offsets[i] <= offsets[j]
    decreases j - i
  {
    if i < j {
      OffsetsAscend(offsets, i, j - 1);
    }
  }

  lemma {:induction false} HeadsAreHeads(c: Columns)
    ensures HeadsOk(c) <==> HeadsFit(c)
  {
    if HeadsFit(c) {
      forall i, j | 0 <= i <= j < |c.nodeFieldOffsets| ensures c.nodeFieldOffsets[i] <= c.nodeFieldOffsets[j] {
        OffsetsAscend(c.nodeFieldOffsets, i, j);
      }
    }
  }

  lemma {:induction false} LeafParses(c: Arena, row: LayoutRow, nodeCount: nat, cursor: nat)
    ensures var leaf := ParseLeaf(c, row, nodeCount, cursor);
      && (leaf.Some? <==> SingleFits(row.kind, row.value, row.length, nodeCount, cursor, |c.scalars|))
      && (leaf.Some? ==> |BytesOf(leaf.value)| == if 2 <= row.kind <= 5 then row.length else 0)
  {
  }

  lemma {:induction false} OneMoreItemFits(c: Arena, from: nat, n: nat, isSet: bool, nodeCount: nat, fields: nat)
    requires Rectangular(c) && from + n <= |c.itemKinds|
    ensures n == 0 ==> ItemsFit(c, from, n, isSet, nodeCount, fields)
    ensures n > 0 ==>
      var j := from + n - 1;
      (ItemsFit(c, from, n, isSet, nodeCount, fields) <==>
        && ItemsFit(c, from, n - 1, isSet, nodeCount, fields) && (isSet ==> c.itemKinds[j] == 1)
        && SingleFits(c.itemKinds[j], c.itemValues[j], c.itemLengths[j], nodeCount, ItemCursor(c, fields, j), |c.scalars|))
  {
    hide SingleFits, ItemCursor;
  }

  lemma {:induction false} ItemsParse(c: Arena, from: nat, n: nat, isSet: bool, nodeCount: nat, fields: nat)
    requires Rectangular(c) && from + n <= |c.itemKinds|
    ensures var read := ParseItems(c, from, n, isSet, nodeCount, ItemCursor(c, fields, from));
      && (read.Some? <==> ItemsFit(c, from, n, isSet, nodeCount, fields))
      && (read.Some? ==> read.value.cursor == ItemCursor(c, fields, from + n))
  {
    hide ParseLeaf, SingleFits, ItemsFit, BytesOf;
    OneMoreItemFits(c, from, n, isSet, nodeCount, fields);
    if n > 0 {
      ItemsParse(c, from, n - 1, isSet, nodeCount, fields);
      LeafParses(c, ItemRow(c, from + n - 1), nodeCount, ItemCursor(c, fields, from + n - 1));
    }
  }

  lemma {:induction false} FieldParses(c: Arena, k: nat, nodeCount: nat, p: Progress)
    requires Rectangular(c) && k < |c.fieldKinds|
    requires p.itemCursor == ItemCount(c, k) <= |c.itemKinds|
    requires p.scalarCursor == ItemCursor(c, ScalarBytes(c.fieldKinds, c.fieldLengths, k), ItemCount(c, k))
    ensures var read := ParseField(c, k, nodeCount, p);
      && (read.Some? <==> FieldFits(c, k, nodeCount))
      && (read.Some? ==>
            && read.value.itemCursor == ItemCount(c, k + 1) <= |c.itemKinds|
            && read.value.scalarCursor ==
                 ItemCursor(c, ScalarBytes(c.fieldKinds, c.fieldLengths, k + 1), ItemCount(c, k + 1)))
  {
    hide ParseLeaf, ParseItems, ItemsFit, SingleFits;
    var fields, items := ScalarBytes(c.fieldKinds, c.fieldLengths, k), ItemCount(c, k);
    var row := FieldRow(c, k);
    if row.kind == 6 || row.kind == 7 {
      if items + row.length <= |c.itemKinds| {
        ItemsParse(c, items, row.length, row.kind == 6, nodeCount, fields);
      }
    } else {
      LeafParses(c, row, nodeCount, ItemCursor(c, fields, items));
    }
  }

  lemma {:induction false} FieldsParse(c: Arena, k: nat, nodeCount: nat)
    requires Rectangular(c) && k <= |c.fieldKinds|
    ensures var read := ParseFields(c, k, nodeCount);
      && (read.Some? <==> forall j | 0 <= j < k :: FieldFits(c, j, nodeCount))
      && (read.Some? ==>
            && read.value.itemCursor == ItemCount(c, k) <= |c.itemKinds|
            && read.value.scalarCursor ==
                 ItemCursor(c, ScalarBytes(c.fieldKinds, c.fieldLengths, k), ItemCount(c, k)))
  {
    hide ParseField, FieldFits;
    if k > 0 {
      FieldsParse(c, k - 1, nodeCount);
      if ParseFields(c, k - 1, nodeCount).Some? {
        FieldParses(c, k - 1, nodeCount, ParseFields(c, k - 1, nodeCount).value);
      }
    }
  }

  /** Columns are accepted exactly when their rows fit together. */
  lemma {:induction false} AcceptedIffFit(c: Columns)
    ensures Parse(c).Some? <==> ColumnsFit(c)
  {
    hide FieldFits, ParseFields;
    HeadsAreHeads(c);
    if HeadsFit(c) {
      FieldsParse(c.arena, |c.arena.fieldKinds|, |c.nodeTags|);
    }
  }

  // ----- what the rows of a table say

  ghost predicate SaysLeaf(kind: nat, value: nat, length: nat, scalars: seq<Byte>, leaf: Leaf) {
    match leaf
    case Nothing => kind == 0
    case Reference(id) => kind == 1 && value == id
    case Scalar(k, bytes) => 2 <= kind <= 5 && kind == k && value + length <= |scalars| && scalars[value..value + length] == bytes
  }

  ghost predicate SaysItem(c: Arena, k: nat, leaf: Leaf) {
    && Rectangular(c) && k < |c.itemKinds|
    && SaysLeaf(c.itemKinds[k], c.itemValues[k], c.itemLengths[k], c.scalars, leaf)
  }

  ghost predicate SaysField(c: Arena, k: nat, f: Component) {
    && Rectangular(c) && k < |c.fieldKinds|
    && match f
       case Single(leaf) => SaysLeaf(c.fieldKinds[k], c.fieldValues[k], c.fieldLengths[k], c.scalars, leaf)
       case Collection(isSet, items) =>
         && c.fieldKinds[k] == (if isSet then 6 else 7) && c.fieldLengths[k] == |items|
         && forall j | 0 <= j < |items| :: SaysItem(c, c.fieldValues[k] + j, items[j])
  }

  lemma {:induction false} SaysWithin(a: Arena, c: Arena, k: nat, f: Component)
    requires Within(a, c) && Rectangular(c) && SaysField(a, k, f)
    ensures SaysField(c, k, f)
  {
    if f.Collection? {
      forall j | 0 <= j < |f.items| ensures SaysItem(c, c.fieldValues[k] + j, f.items[j]) {
        assert SaysItem(a, a.fieldValues[k] + j, f.items[j]);
      }
    }
  }

  lemma {:induction false} SaysItemWithin(a: Arena, c: Arena, k: nat, leaf: Leaf)
    requires Within(a, c) && Rectangular(c) && SaysItem(a, k, leaf)
    ensures SaysItem(c, k, leaf)
  {
  }

  lemma {:induction false} AppendedItemSays(a: Arena, leaf: Leaf, nodeCount: nat)
    requires Rectangular(a) && LeafOk(leaf, nodeCount)
    ensures SaysItem(AppendItem(a, leaf), |a.itemKinds|, leaf)
  {
  }

  lemma {:induction false} AppendedItemsSay(a: Arena, items: seq<Leaf>, j: nat, nodeCount: nat)
    requires Rectangular(a) && j < |items| && forall i | 0 <= i < |items| :: LeafOk(items[i], nodeCount)
    ensures SaysItem(AppendItems(a, items), |a.itemKinds| + j, items[j])
    decreases |items|
  {
    hide SaysItem, LeafOk, AppendItem;
    var init, last := items[..|items| - 1], items[|items| - 1];
    ItemsShape(a, init);
    ItemsAreRectangular(a, init);
    ItemGrows(AppendItems(a, init), last);
    if j < |init| {
      AppendedItemsSay(a, init, j, nodeCount);
      SaysItemWithin(AppendItems(a, init), AppendItems(a, items), |a.itemKinds| + j, items[j]);
    } else {
      AppendedItemSays(AppendItems(a, init), last, nodeCount);
    }
  }

  lemma {:induction false} ItemsAreRectangular(a: Arena, items: seq<Leaf>)
    requires Rectangular(a)
    ensures Rectangular(AppendItems(a, items))
  {
    ItemsShape(a, items);
  }

  lemma {:induction false} AppendedFieldSays(a: Arena, f: Component, nodeCount: nat)
    requires Rectangular(a) && ComponentOk(f, nodeCount)
    ensures SaysField(AppendComponent(a, f), |a.fieldKinds|, f)
  {
    ComponentShape(a, f);
    if f.Collection? {
      var begun := AppendField(a, CollectionRow(a, f), []);
      ItemsShape(begun, f.items);
      forall j | 0 <= j < |f.items| ensures SaysItem(AppendItems(begun, f.items), |a.itemKinds| + j, f.items[j]) {
        assert ItemOk(f.items[j], f.isSet, nodeCount);
        AppendedItemsSay(begun, f.items, j, nodeCount);
      }
    }
  }

  lemma {:induction false} FieldsSay(fields: seq<Component>, k: nat, nodeCount: nat)
    requires FieldsOk(fields, nodeCount) && k < |fields|
    ensures SaysField(FieldsArena(fields), k, fields[k])
    decreases |fields|
  {
    hide AppendComponent, SaysField, ComponentOk;
    var init, last := fields[..|fields| - 1], fields[|fields| - 1];
    FieldsShape(fields);
    FieldsShape(init);
    ComponentShape(FieldsArena(init), last);
    if k < |init| {
      assert forall i | 0 <= i < |init| :: init[i] == fields[i];
      FieldsSay(init, k, nodeCount);
      SaysWithin(FieldsArena(init), FieldsArena(fields), k, fields[k]);
    } else {
      AppendedFieldSays(FieldsArena(init), last, nodeCount);
    }
  }

  /** Every row of a laid-out table says what its component is; offsets delimit the rows of a node. */
  lemma {:induction false} RowsSay(t: StructuralTable, u: nat, j: nat)
    requires TableOk(t) && u < |t.nodes| && j < |t.nodes[u].fields|
    ensures var c := Layout(t);
      && |c.nodeFieldOffsets| == |t.nodes| + 1
      && c.nodeFieldOffsets[u + 1] == c.nodeFieldOffsets[u] + |t.nodes[u].fields|
      && SaysField(c.arena, c.nodeFieldOffsets[u] + j, t.nodes[u].fields[j])
  {
    hide SaysField;
    NodeFieldsAt(t.nodes, u);
    NodeFieldsOk(t.nodes, |t.nodes|);
    FieldsSay(NodeFields(t.nodes), Offsets(t.nodes)[u] + j, |t.nodes|);
  }

  /** Tags and roots are columns of their own. */
  lemma {:induction false} HeadsSay(t: StructuralTable)
    ensures var c := Layout(t);
      && |c.nodeTags| == |t.nodes| && (forall i | 0 <= i < |t.nodes| :: c.nodeTags[i] == t.nodes[i].tag)
      && |c.rootKinds| == |c.rootIds| == |t.roots|
      && forall i | 0 <= i < |t.roots| :: c.rootKinds[i] == t.roots[i].kind && c.rootIds[i] == t.roots[i].id
  {
  }

  // ----- which nodes a node refers to

  /** Among the rows of node `u`, or the items of one of its collections, one names node `v`. */
  ghost predicate RowsName(c: Columns, u: nat, v: nat) {
    && 1 <= u <= |c.nodeTags| && |c.nodeFieldOffsets| == |c.nodeTags| + 1 && Rectangular(c.arena)
    && exists k | c.nodeFieldOffsets[u - 1] <= k < c.nodeFieldOffsets[u] && k < |c.arena.fieldKinds| :: FieldNames(c.arena, k, v)
  }

  ghost predicate FieldNames(a: Arena, k: nat, v: nat)
    requires Rectangular(a) && k < |a.fieldKinds|
  {
    || (a.fieldKinds[k] == 1 && a.fieldValues[k] == v)
    || (6 <= a.fieldKinds[k] <= 7 &&
        exists j | a.fieldValues[k] <= j < a.fieldValues[k] + a.fieldLengths[k] :: ItemNames(a, j, v))
  }

  ghost predicate ItemNames(a: Arena, j: nat, v: nat)
    requires Rectangular(a)
  {
    j < |a.itemKinds| && a.itemKinds[j] == 1 && a.itemValues[j] == v
  }

  lemma {:induction false} FieldNamesMentioned(a: Arena, k: nat, f: Component, v: nat)
    requires SaysField(a, k, f)
    ensures Mentions(f, v) <==> FieldNames(a, k, v)
  {
    if f.Collection? {
      var from := a.fieldValues[k];
      forall j | from <= j < from + |f.items| ensures f.items[j - from] == Reference(v) <==> ItemNames(a, j, v) {
        assert SaysItem(a, from + (j - from), f.items[j - from]);
      }
      if Reference(v) in f.items {
        var j :| 0 <= j < |f.items| && f.items[j] == Reference(v);
        assert ItemNames(a, from + j, v);
      }
    }
  }

  /** The references of a table are the node rows of its columns. */
  lemma {:induction false} RefersIffRowsName(t: StructuralTable, u: nat, v: nat)
    requires TableOk(t)
    ensures Refers(t, u, v) <==> RowsName(Layout(t), u, v)
  {
    hide Mentions, FieldNames, SaysField, TableOk, NodeFields, FieldsArena;
    HeadsSay(t);
    FieldsShape(NodeFields(t.nodes));
    if 1 <= u <= |t.nodes| {
      var c, fields := Layout(t), t.nodes[u - 1].fields;
      var from := c.nodeFieldOffsets[u - 1];
      NodeFieldsAt(t.nodes, u - 1);
      assert c.nodeFieldOffsets[u] == from + |fields|;
      forall k | from <= k < from + |fields|
        ensures k < |c.arena.fieldKinds| && (Mentions(fields[k - from], v) <==> FieldNames(c.arena, k, v))
      {
        RowsSay(t, u - 1, k - from);
        assert SaysField(c.arena, from + (k - from), fields[k - from]);
        SaysHere(c.arena, k, fields[k - from]);
        FieldNamesMentioned(c.arena, k, fields[k - from], v);
      }
      if Refers(t, u, v) {
        var j :| 0 <= j < |fields| && Mentions(fields[j], v);
        assert FieldNames(c.arena, from + j, v);
      }
      if RowsName(c, u, v) {
        var k :| from <= k < c.nodeFieldOffsets[u] && k < |c.arena.fieldKinds| && FieldNames(c.arena, k, v);
        assert FieldsOf(t, u) == fields && Mentions(FieldsOf(t, u)[k - from], v);
      }
    }
  }

  lemma {:induction false} SaysHere(a: Arena, k: nat, f: Component)
    requires SaysField(a, k, f)
    ensures k < |a.fieldKinds|
  {
  }

  // ----- bytes

  /** Values are little-endian. */
  lemma {:induction false} LittleEndian(a: Byte, rest: seq<Byte>)
    ensures Uint([a]) == a && Uint([a] + rest) == a + 256 * Uint(rest)
  {
    assert ([a] + rest)[1..] == rest && [a][1..] == [];
  }

  /** The widths of the columns in bytes. */
  lemma {:induction false} WidthsAre(b: Buffers)
    ensures WholeBuffers(b) ==>
      var c := Read(b);
      && |b.nodeTags| == 2 * |c.nodeTags| && |b.nodeFieldOffsets| == 8 * |c.nodeFieldOffsets|
      && |b.fieldKinds| == |c.arena.fieldKinds| && |b.itemKinds| == |c.arena.itemKinds|
      && |b.fieldValues| == 8 * |c.arena.fieldValues| && |b.fieldLengths| == 8 * |c.arena.fieldLengths|
      && |b.itemValues| == 8 * |c.arena.itemValues| && |b.itemLengths| == 8 * |c.arena.itemLengths|
      && |b.rootKinds| == |c.rootKinds| && |b.rootIds| == 4 * |c.rootIds| && c.arena.scalars == b.scalarBytes
  {
    hide Column;
  }
}
