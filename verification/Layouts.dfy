/**
 Structural tables and their column layout.

 A table is a list of nodes, each with a tag and a list of components, and a list of
 roots.  Its layout flattens it into columns: one row for every component, one row for
 every item of a collection, and one arena for the bytes of all scalars, in order of
 appearance.  Parsing the columns is the inverse of laying a table out.
 */
module Layouts {
  import opened Wrappers

  type Byte = b: nat | b < 256

  const NONE: nat := 0
  const NODE: nat := 1
  const TEXT: nat := 2
  const ENUM: nat := 5
  const SET: nat := 6
  const SEQUENCE: nat := 7
  const MAX_NODES: nat := 0x1_0000_0000

  /** A component that is not a collection; `kind` is text, bytes, integer or enum. */
  datatype Leaf = Nothing | Reference(id: nat) | Scalar(kind: nat, bytes: seq<Byte>)

  datatype Component = Single(leaf: Leaf) | Collection(isSet: bool, items: seq<Leaf>)

  datatype Node = Node(tag: nat, fields: seq<Component>)

  datatype Root = Root(kind: nat, id: nat)

  datatype StructuralTable = StructuralTable(nodes: seq<Node>, roots: seq<Root>)

  // ----- well-formed tables

  predicate LeafOk(leaf: Leaf, nodeCount: nat) {
    match leaf
    case Nothing => true
    case Reference(id) => 1 <= id <= nodeCount
    case Scalar(kind, _) => TEXT <= kind <= ENUM
  }

  /** The items of a canonical set are node references. */
  predicate ItemOk(leaf: Leaf, isSet: bool, nodeCount: nat) {
    LeafOk(leaf, nodeCount) && (isSet ==> leaf.Reference?)
  }

  predicate ComponentOk(f: Component, nodeCount: nat) {
    match f
    case Single(leaf) => LeafOk(leaf, nodeCount)
    case Collection(isSet, items) => forall i | 0 <= i < |items| :: ItemOk(items[i], isSet, nodeCount)
  }

  predicate FieldsOk(fields: seq<Component>, nodeCount: nat) {
    forall i | 0 <= i < |fields| :: ComponentOk(fields[i], nodeCount)
  }

  predicate RootOk(root: Root, nodeCount: nat) {
    1 <= root.kind <= 3 && 1 <= root.id <= nodeCount
  }

  predicate TableOk(t: StructuralTable) {
    && |t.nodes| < MAX_NODES
    && (forall i | 0 <= i < |t.nodes| :: FieldsOk(t.nodes[i].fields, |t.nodes|))
    && (forall i | 0 <= i < |t.roots| :: RootOk(t.roots[i], |t.nodes|))
  }

  // ----- the columns of the fields

  datatype Arena = Arena(
    fieldKinds: seq<nat>, fieldValues: seq<nat>, fieldLengths: seq<nat>,
    itemKinds: seq<nat>, itemValues: seq<nat>, itemLengths: seq<nat>,
    scalars: seq<Byte>)

  const EMPTY: Arena := Arena([], [], [], [], [], [], [])

  datatype LayoutRow = LayoutRow(kind: nat, value: nat, length: nat)

  function RowOf(leaf: Leaf, cursor: nat): LayoutRow {
    match leaf
    case Nothing => LayoutRow(NONE, 0, 0)
    case Reference(id) => LayoutRow(NODE, id, 0)
    case Scalar(kind, bytes) => LayoutRow(kind, cursor, |bytes|)
  }

  function BytesOf(leaf: Leaf): seq<Byte> {
    if leaf.Scalar? then leaf.bytes else []
  }

  function AppendField(a: Arena, row: LayoutRow, bytes: seq<Byte>): Arena {
    a.(fieldKinds := a.fieldKinds + [row.kind], fieldValues := a.fieldValues + [row.value],
       fieldLengths := a.fieldLengths + [row.length], scalars := a.scalars + bytes)
  }

  function AppendItem(a: Arena, leaf: Leaf): Arena {
    var row := RowOf(leaf, |a.scalars|);
    a.(itemKinds := a.itemKinds + [row.kind], itemValues := a.itemValues + [row.value],
       itemLengths := a.itemLengths + [row.length], scalars := a.scalars + BytesOf(leaf))
  }

  function AppendItems(a: Arena, items: seq<Leaf>): Arena {
    if items == [] then a else AppendItem(AppendItems(a, items[..|items| - 1]), items[|items| - 1])
  }

  function CollectionRow(a: Arena, f: Component): LayoutRow
    requires f.Collection?
  {
    LayoutRow(if f.isSet then SET else SEQUENCE, |a.itemKinds|, |f.items|)
  }

  function AppendComponent(a: Arena, f: Component): Arena {
    match f
    case Single(leaf) => AppendField(a, RowOf(leaf, |a.scalars|), BytesOf(leaf))
    case Collection(_, items) => AppendItems(AppendField(a, CollectionRow(a, f), []), items)
  }

  function FieldsArena(fields: seq<Component>): Arena {
    if fields == [] then EMPTY
    else AppendComponent(FieldsArena(fields[..|fields| - 1]), fields[|fields| - 1])
  }

  // ----- the columns of a table

  datatype Columns = Columns(
    nodeTags: seq<nat>, nodeFieldOffsets: seq<nat>, arena: Arena, rootKinds: seq<nat>, rootIds: seq<nat>)

  function Tags(nodes: seq<Node>): (tags: seq<nat>)
    ensures |tags| == |nodes|
    ensures forall i | 0 <= i < |nodes| :: tags[i] == nodes[i].tag
  {
    if nodes == [] then [] else Tags(nodes[..|nodes| - 1]) + [nodes[|nodes| - 1].tag]
  }

  function NodeFields(nodes: seq<Node>): seq<Component> {
    if nodes == [] then [] else NodeFields(nodes[..|nodes| - 1]) + nodes[|nodes| - 1].fields
  }

  function Offsets(nodes: seq<Node>): (offsets: seq<nat>)
    ensures |offsets| == |nodes| + 1 && offsets[0] == 0 && offsets[|nodes|] == |NodeFields(nodes)|
  {
    if nodes == [] then [0]
    else Offsets(nodes[..|nodes| - 1]) + [|NodeFields(nodes)|]
  }

  function RootKinds(roots: seq<Root>): (kinds: seq<nat>)
    ensures |kinds| == |roots|
    ensures forall i | 0 <= i < |roots| :: kinds[i] == roots[i].kind
  {
    if roots == [] then [] else RootKinds(roots[..|roots| - 1]) + [roots[|roots| - 1].kind]
  }

  function RootIds(roots: seq<Root>): (ids: seq<nat>)
    ensures |ids| == |roots|
    ensures forall i | 0 <= i < |roots| :: ids[i] == roots[i].id
  {
    if roots == [] then [] else RootIds(roots[..|roots| - 1]) + [roots[|roots| - 1].id]
  }

  function Layout(t: StructuralTable): Columns {
    Columns(Tags(t.nodes), Offsets(t.nodes), FieldsArena(NodeFields(t.nodes)), RootKinds(t.roots), RootIds(t.roots))
  }

  // ----- parsing

  /** The leaf that a row denotes when the next unread scalar byte is at `cursor`. */
  function ParseLeaf(c: Arena, row: LayoutRow, nodeCount: nat, cursor: nat): (leaf: Option<Leaf>)
    ensures leaf.Some? ==> LeafOk(leaf.value, nodeCount)
  {
    if row.kind == NONE then
      if row.value != 0 || row.length != 0 then None else Some(Nothing)
    else if row.kind == NODE then
      if row.length != 0 || !(1 <= row.value <= nodeCount) then None else Some(Reference(row.value))
    else if !(TEXT <= row.kind <= ENUM) then None
    else if row.value != cursor || cursor + row.length > |c.scalars| then None
    else Some(Scalar(row.kind, c.scalars[cursor..cursor + row.length]))
  }

  predicate Rectangular(c: Arena) {
    && |c.fieldValues| == |c.fieldKinds| && |c.fieldLengths| == |c.fieldKinds|
    && |c.itemValues| == |c.itemKinds| && |c.itemLengths| == |c.itemKinds|
  }

  function FieldRow(c: Arena, k: nat): LayoutRow
    requires Rectangular(c) && k < |c.fieldKinds|
  {
    LayoutRow(c.fieldKinds[k], c.fieldValues[k], c.fieldLengths[k])
  }

  function ItemRow(c: Arena, k: nat): LayoutRow
    requires Rectangular(c) && k < |c.itemKinds|
  {
    LayoutRow(c.itemKinds[k], c.itemValues[k], c.itemLengths[k])
  }

  datatype Items = Items(items: seq<Leaf>, cursor: nat)

  /** The `n` items from row `from` on. */
  function ParseItems(c: Arena, from: nat, n: nat, isSet: bool, nodeCount: nat, cursor: nat): Option<Items>
    requires Rectangular(c) && from + n <= |c.itemKinds|
    decreases n
  {
    if n == 0 then Some(Items([], cursor)) else
      var before :- ParseItems(c, from, n - 1, isSet, nodeCount, cursor);
      var row := ItemRow(c, from + n - 1);
      if isSet && row.kind != NODE then None else
        var leaf :- ParseLeaf(c, row, nodeCount, before.cursor);
        Some(Items(before.items + [leaf], before.cursor + |BytesOf(leaf)|))
  }

  /** The fields read so far, and the first item and scalar byte not yet read. */
  datatype Progress = Progress(fields: seq<Component>, itemCursor: nat, scalarCursor: nat)

  function ParseField(c: Arena, k: nat, nodeCount: nat, p: Progress): Option<Progress>
    requires Rectangular(c) && k < |c.fieldKinds|
  {
    var row := FieldRow(c, k);
    if row.kind == SET || row.kind == SEQUENCE then
      if row.value != p.itemCursor || p.itemCursor + row.length > |c.itemKinds| then None else
        var read :- ParseItems(c, p.itemCursor, row.length, row.kind == SET, nodeCount, p.scalarCursor);
        Some(Progress(p.fields + [Collection(row.kind == SET, read.items)],
                      p.itemCursor + row.length, read.cursor))
    else
      var leaf :- ParseLeaf(c, row, nodeCount, p.scalarCursor);
      Some(Progress(p.fields + [Single(leaf)], p.itemCursor, p.scalarCursor + |BytesOf(leaf)|))
  }

  function ParseFields(c: Arena, k: nat, nodeCount: nat): Option<Progress>
    requires Rectangular(c) && k <= |c.fieldKinds|
    decreases k
  {
    if k == 0 then Some(Progress([], 0, 0)) else
      var before :- ParseFields(c, k - 1, nodeCount);
      ParseField(c, k - 1, nodeCount, before)
  }

  predicate OffsetsOk(offsets: seq<nat>, fieldCount: nat) {
    && |offsets| > 0 && offsets[0] == 0 && offsets[|offsets| - 1] == fieldCount
    && forall i, j | 0 <= i <= j < |offsets| :: offsets[i] <= offsets[j]
  }

  function Slice(fields: seq<Component>, from: nat, to: nat): seq<Component> {
    if from <= to <= |fields| then fields[from..to] else []
  }

  function Group(tags: seq<nat>, offsets: seq<nat>, fields: seq<Component>): (nodes: seq<Node>)
    requires |offsets| == |tags| + 1
    ensures |nodes| == |tags|
    ensures forall i | 0 <= i < |tags| :: nodes[i] == Node(tags[i], Slice(fields, offsets[i], offsets[i + 1]))
    decreases |tags|
  {
    if tags == [] then [] else
      var last := |tags| - 1;
      Group(tags[..last], offsets[..last + 1], fields) +
      [Node(tags[last], Slice(fields, offsets[last], offsets[last + 1]))]
  }

  function ZipRoots(kinds: seq<nat>, ids: seq<nat>): (roots: seq<Root>)
    requires |kinds| == |ids|
    ensures |roots| == |kinds|
    ensures forall i | 0 <= i < |kinds| :: roots[i] == Root(kinds[i], ids[i])
  {
    if kinds == [] then [] else
      var last := |kinds| - 1;
      ZipRoots(kinds[..last], ids[..last]) + [Root(kinds[last], ids[last])]
  }

  predicate RootsOk(c: Columns) {
    && |c.rootIds| == |c.rootKinds|
    && forall i | 0 <= i < |c.rootKinds| :: RootOk(Root(c.rootKinds[i], c.rootIds[i]), |c.nodeTags|)
  }

  predicate HeadsOk(c: Columns) {
    && |c.nodeTags| < MAX_NODES
    && |c.nodeFieldOffsets| == |c.nodeTags| + 1
    && Rectangular(c.arena)
    && OffsetsOk(c.nodeFieldOffsets, |c.arena.fieldKinds|)
    && RootsOk(c)
  }

  /** The table that columns lay out, if there is one. */
  function Parse(c: Columns): Option<StructuralTable> {
    if !HeadsOk(c) then None else
      var p :- ParseFields(c.arena, |c.arena.fieldKinds|, |c.nodeTags|);
      if p.itemCursor != |c.arena.itemKinds| || p.scalarCursor != |c.arena.scalars| then None else
        Some(StructuralTable(
          Group(c.nodeTags, c.nodeFieldOffsets, p.fields), ZipRoots(c.rootKinds, c.rootIds)))
  }

  lemma {:induction false} ParsedCount(c: Arena, k: nat, nodeCount: nat)
    requires Rectangular(c) && k <= |c.fieldKinds| && ParseFields(c, k, nodeCount).Some?
    ensures |ParseFields(c, k, nodeCount).value.fields| == k
    decreases k
  {
    if k > 0 {
      ParsedCount(c, k - 1, nodeCount);
    }
  }
}
