/** Parsing and layout undo each other, so every accepted set of columns stands for one table. */
module LayoutRoundTrip {
  import opened Wrappers
  import opened Layouts

  /** Every column of `a` is a prefix of the same column of `c`. */
  predicate Within(a: Arena, c: Arena) {
    && a.fieldKinds <= c.fieldKinds && a.fieldValues <= c.fieldValues && a.fieldLengths <= c.fieldLengths
    && a.itemKinds <= c.itemKinds && a.itemValues <= c.itemValues && a.itemLengths <= c.itemLengths
    && a.scalars <= c.scalars
  }

  lemma {:induction false} ItemsShape(a: Arena, items: seq<Leaf>)
    ensures var r := AppendItems(a, items);
      && Within(a, r)
      && r.fieldKinds == a.fieldKinds && r.fieldValues == a.fieldValues && r.fieldLengths == a.fieldLengths
      && |r.itemKinds| == |a.itemKinds| + |items|
      && |r.itemValues| == |a.itemValues| + |items|
      && |r.itemLengths| == |a.itemLengths| + |items|
      && (Rectangular(a) ==> Rectangular(r))
    decreases |items|
  {
    if items != [] {
      ItemsShape(a, items[..|items| - 1]);
    }
  }

  lemma {:induction false} ComponentShape(a: Arena, f: Component)
    ensures var r := AppendComponent(a, f);
      && Within(a, r)
      && |r.fieldKinds| == |a.fieldKinds| + 1
      && (Rectangular(a) ==> Rectangular(r))
  {
    if f.Collection? {
      ItemsShape(AppendField(a, CollectionRow(a, f), []), f.items);
    }
  }

  lemma {:induction false} FieldsShape(fields: seq<Component>)
    ensures var r := FieldsArena(fields); Rectangular(r) && |r.fieldKinds| == |fields|
    decreases |fields|
  {
    if fields != [] {
      FieldsShape(fields[..|fields| - 1]);
      ComponentShape(FieldsArena(fields[..|fields| - 1]), fields[|fields| - 1]);
    }
  }

  // ----- parsing finds what was laid out

  lemma {:induction false} ParseLeafOfRow(c: Arena, leaf: Leaf, nodeCount: nat, before: seq<Byte>)
    requires LeafOk(leaf, nodeCount) && before + BytesOf(leaf) <= c.scalars
    ensures ParseLeaf(c, RowOf(leaf, |before|), nodeCount, |before|) == Some(leaf)
  {
    if leaf.Scalar? {
      assert c.scalars[|before|..|before| + |leaf.bytes|] == leaf.bytes;
    }
  }

  lemma {:induction false} ItemIsFound(c: Arena, before: Arena, leaf: Leaf, isSet: bool, nodeCount: nat)
    requires Rectangular(c) && Rectangular(before) && Within(AppendItem(before, leaf), c)
    requires ItemOk(leaf, isSet, nodeCount)
    ensures |before.itemKinds| < |c.itemKinds|
    ensures var row := ItemRow(c, |before.itemKinds|);
      && (isSet ==> row.kind == NODE)
      && ParseLeaf(c, row, nodeCount, |before.scalars|) == Some(leaf)
  {
    var k, row, r := |before.itemKinds|, RowOf(leaf, |before.scalars|), AppendItem(before, leaf);
    ParseLeafOfRow(c, leaf, nodeCount, before.scalars);
    assert r.itemKinds[k] == row.kind && r.itemValues[k] == row.value && r.itemLengths[k] == row.length;
    assert ItemRow(c, k) == row;
  }

  lemma {:induction false} WithinChains(a: Arena, b: Arena, c: Arena)
    requires Within(a, b) && Within(b, c)
    ensures Within(a, c)
  {
  }

  lemma {:induction false} CompleteItems(c: Arena, a: Arena, items: seq<Leaf>, isSet: bool, nodeCount: nat)
    requires Rectangular(c) && Rectangular(a) && Within(AppendItems(a, items), c)
    requires forall i | 0 <= i < |items| :: ItemOk(items[i], isSet, nodeCount)
    ensures |a.itemKinds| + |items| <= |c.itemKinds|
    ensures ParseItems(c, |a.itemKinds|, |items|, isSet, nodeCount, |a.scalars|)
      == Some(Items(items, |AppendItems(a, items).scalars|))
    decreases |items|
  {
    hide AppendItem, ParseLeaf, ItemOk, ItemRow, Within;
    ItemsShape(a, items);
    WithinCounts(AppendItems(a, items), c);
    if items != [] {
      var init, last := items[..|items| - 1], items[|items| - 1];
      var before := AppendItems(a, init);
      ItemsShape(a, init);
      ItemGrows(before, last);
      WithinChains(before, AppendItem(before, last), c);
      CompleteItems(c, a, init, isSet, nodeCount);
      ItemIsFound(c, before, last, isSet, nodeCount);
      assert init + [last] == items;
    }
  }

  lemma {:induction false} WithinCounts(a: Arena, c: Arena)
    requires Within(a, c)
    ensures |a.fieldKinds| <= |c.fieldKinds| && |a.itemKinds| <= |c.itemKinds| && |a.scalars| <= |c.scalars|
  {
  }

  lemma {:induction false} ItemGrows(a: Arena, leaf: Leaf)
    ensures var r := AppendItem(a, leaf);
      && Within(a, r) && |r.scalars| == |a.scalars| + |BytesOf(leaf)| && |r.itemKinds| == |a.itemKinds| + 1
      && (Rectangular(a) ==> Rectangular(r))
  {
  }

  lemma {:induction false} CompleteField(c: Arena, a: Arena, f: Component, nodeCount: nat, fields: seq<Component>)
    requires Rectangular(c) && Rectangular(a) && Within(AppendComponent(a, f), c) && ComponentOk(f, nodeCount)
    ensures |a.fieldKinds| < |c.fieldKinds|
    ensures var r := AppendComponent(a, f);
      ParseField(c, |a.fieldKinds|, nodeCount, Progress(fields, |a.itemKinds|, |a.scalars|))
      == Some(Progress(fields + [f], |r.itemKinds|, |r.scalars|))
  {
    ComponentShape(a, f);
    var k, r := |a.fieldKinds|, AppendComponent(a, f);
    match f
    case Single(leaf) =>
      ParseLeafOfRow(c, leaf, nodeCount, a.scalars);
      assert r.fieldKinds[k] == RowOf(leaf, |a.scalars|).kind;
      assert FieldRow(c, k) == RowOf(leaf, |a.scalars|);
    case Collection(isSet, items) =>
      var begun := AppendField(a, CollectionRow(a, f), []);
      ItemsShape(begun, items);
      CompleteItems(c, begun, items, isSet, nodeCount);
      assert begun.fieldKinds[k] == CollectionRow(a, f).kind;
      assert FieldRow(c, k) == CollectionRow(a, f);
  }

  lemma {:induction false} CompleteFields(c: Arena, fields: seq<Component>, nodeCount: nat)
    requires Rectangular(c) && Within(FieldsArena(fields), c) && FieldsOk(fields, nodeCount)
    ensures |fields| <= |c.fieldKinds|
    ensures var r := FieldsArena(fields);
      ParseFields(c, |fields|, nodeCount) == Some(Progress(fields, |r.itemKinds|, |r.scalars|))
    decreases |fields|
  {
    hide AppendComponent, ParseField, ComponentOk, Within;
    FieldsShape(fields);
    WithinCounts(FieldsArena(fields), c);
    if fields != [] {
      var init, last := fields[..|fields| - 1], fields[|fields| - 1];
      var before := FieldsArena(init);
      FieldsShape(init);
      ComponentShape(before, last);
      WithinChains(before, AppendComponent(before, last), c);
      assert forall i | 0 <= i < |init| :: init[i] == fields[i];
      CompleteFields(c, init, nodeCount);
      CompleteField(c, before, last, nodeCount, init);
      assert init + [last] == fields;
    }
  }

  // ----- what was parsed is laid out as it was found

  lemma {:induction false} RowOfParsed(c: Arena, row: LayoutRow, nodeCount: nat, before: seq<Byte>)
    requires before <= c.scalars && ParseLeaf(c, row, nodeCount, |before|).Some?
    ensures var leaf := ParseLeaf(c, row, nodeCount, |before|).value;
      RowOf(leaf, |before|) == row && before + BytesOf(leaf) <= c.scalars
  {
  }

  lemma {:induction false} ItemIsKept(c: Arena, before: Arena, isSet: bool, nodeCount: nat)
    requires Rectangular(c) && Rectangular(before) && Within(before, c) && |before.itemKinds| < |c.itemKinds|
    requires var row := ItemRow(c, |before.itemKinds|);
      && (isSet ==> row.kind == NODE)
      && ParseLeaf(c, row, nodeCount, |before.scalars|).Some?
    ensures var leaf := ParseLeaf(c, ItemRow(c, |before.itemKinds|), nodeCount, |before.scalars|).value;
      Within(AppendItem(before, leaf), c) && ItemOk(leaf, isSet, nodeCount)
  {
    RowOfParsed(c, ItemRow(c, |before.itemKinds|), nodeCount, before.scalars);
  }

  lemma {:induction false} SoundItems(c: Arena, a: Arena, n: nat, isSet: bool, nodeCount: nat)
    requires Rectangular(c) && Rectangular(a) && Within(a, c) && |a.itemKinds| + n <= |c.itemKinds|
    requires ParseItems(c, |a.itemKinds|, n, isSet, nodeCount, |a.scalars|).Some?
    ensures var read := ParseItems(c, |a.itemKinds|, n, isSet, nodeCount, |a.scalars|).value;
      && |read.items| == n
      && Within(AppendItems(a, read.items), c)
      && |AppendItems(a, read.items).scalars| == read.cursor
      && (forall i | 0 <= i < n :: ItemOk(read.items[i], isSet, nodeCount))
    decreases n
  {
    hide AppendItems, ParseLeaf, ItemOk, ItemRow, Within, Rectangular;
    if n == 0 {
      NoItems(a);
    } else {
      SoundItems(c, a, n - 1, isSet, nodeCount);
      var before := ParseItems(c, |a.itemKinds|, n - 1, isSet, nodeCount, |a.scalars|).value;
      ItemKind(c, |a.itemKinds| + n - 1);
      OneMoreItem(c, a, before.items, isSet, nodeCount);
      assert forall i | 0 <= i < n - 1 :: ItemOk(before.items[i], isSet, nodeCount);
    }
  }

  lemma {:induction false} NoItems(a: Arena)
    ensures AppendItems(a, []) == a
  {
  }

  lemma {:induction false} OneMoreItem(c: Arena, a: Arena, items: seq<Leaf>, isSet: bool, nodeCount: nat)
    requires Rectangular(c) && Rectangular(a) && Within(AppendItems(a, items), c)
    requires |a.itemKinds| + |items| < |c.itemKinds|
    requires var row := ItemRow(c, |a.itemKinds| + |items|);
      && (isSet ==> row.kind == NODE)
      && ParseLeaf(c, row, nodeCount, |AppendItems(a, items).scalars|).Some?
    ensures var before := AppendItems(a, items);
      var leaf := ParseLeaf(c, ItemRow(c, |a.itemKinds| + |items|), nodeCount, |before.scalars|).value;
      var after := AppendItems(a, items + [leaf]);
      && Within(after, c) && ItemOk(leaf, isSet, nodeCount)
      && |after.scalars| == |before.scalars| + |BytesOf(leaf)|
  {
    hide AppendItem, ParseLeaf, ItemOk, ItemRow, Within, Rectangular;
    var before := AppendItems(a, items);
    ItemsShape(a, items);
    ItemIsKept(c, before, isSet, nodeCount);
    var leaf := ParseLeaf(c, ItemRow(c, |a.itemKinds| + |items|), nodeCount, |before.scalars|).value;
    assert (items + [leaf])[..|items|] == items;
    ItemGrows(before, leaf);
  }

  lemma {:induction false} ItemKind(c: Arena, k: nat)
    requires Rectangular(c) && k < |c.itemKinds|
    ensures ItemRow(c, k).kind == c.itemKinds[k]
  {
  }

  lemma {:induction false} FieldIsKept(c: Arena, a: Arena, bytes: seq<Byte>)
    requires Rectangular(c) && Rectangular(a) && Within(a, c) && |a.fieldKinds| < |c.fieldKinds|
    requires a.scalars + bytes <= c.scalars
    ensures var r := AppendField(a, FieldRow(c, |a.fieldKinds|), bytes);
      Within(r, c) && Rectangular(r) && r.itemKinds == a.itemKinds && r.scalars == a.scalars + bytes
  {
  }

  lemma {:induction false} SoundField(c: Arena, a: Arena, nodeCount: nat, fields: seq<Component>)
    requires Rectangular(c) && Rectangular(a) && Within(a, c) && |a.fieldKinds| < |c.fieldKinds|
    requires ParseField(c, |a.fieldKinds|, nodeCount, Progress(fields, |a.itemKinds|, |a.scalars|)).Some?
    ensures var p := ParseField(c, |a.fieldKinds|, nodeCount, Progress(fields, |a.itemKinds|, |a.scalars|)).value;
      && |p.fields| == |fields| + 1 && p.fields[..|fields|] == fields
      && ComponentOk(p.fields[|fields|], nodeCount)
      && Within(AppendComponent(a, p.fields[|fields|]), c)
      && |AppendComponent(a, p.fields[|fields|]).itemKinds| == p.itemCursor
      && |AppendComponent(a, p.fields[|fields|]).scalars| == p.scalarCursor
  {
    hide AppendField, Within, ParseLeaf, ItemOk, AppendItems, ParseItems, Rectangular;
    var row := FieldRow(c, |a.fieldKinds|);
    if row.kind == SET || row.kind == SEQUENCE {
      NoBytes(a, c);
      FieldIsKept(c, a, []);
      var begun := AppendField(a, row, []);
      SoundItems(c, begun, row.length, row.kind == SET, nodeCount);
      var read := ParseItems(c, |a.itemKinds|, row.length, row.kind == SET, nodeCount, |a.scalars|).value;
      ItemsShape(begun, read.items);
      assert CollectionRow(a, Collection(row.kind == SET, read.items)) == row;
    } else {
      ScalarsWithin(a, c);
      RowOfParsed(c, row, nodeCount, a.scalars);
      FieldIsKept(c, a, BytesOf(ParseLeaf(c, row, nodeCount, |a.scalars|).value));
    }
  }

  lemma {:induction false} ScalarsWithin(a: Arena, c: Arena)
    requires Within(a, c)
    ensures a.scalars <= c.scalars
  {
  }

  lemma {:induction false} NoBytes(a: Arena, c: Arena)
    requires Within(a, c)
    ensures a.scalars + [] == a.scalars && a.scalars + [] <= c.scalars
  {
  }

  lemma {:induction false} SoundFields(c: Arena, k: nat, nodeCount: nat)
    requires Rectangular(c) && k <= |c.fieldKinds| && ParseFields(c, k, nodeCount).Some?
    ensures var p := ParseFields(c, k, nodeCount).value;
      && |p.fields| == k && FieldsOk(p.fields, nodeCount)
      && Within(FieldsArena(p.fields), c)
      && |FieldsArena(p.fields).itemKinds| == p.itemCursor
      && |FieldsArena(p.fields).scalars| == p.scalarCursor
    decreases k
  {
    hide AppendComponent, ParseField, ComponentOk, Within;
    if k > 0 {
      SoundFields(c, k - 1, nodeCount);
      var before := ParseFields(c, k - 1, nodeCount).value;
      var a := FieldsArena(before.fields);
      FieldsShape(before.fields);
      SoundField(c, a, nodeCount, before.fields);
      var p := ParseField(c, k - 1, nodeCount, before).value;
      assert FieldsArena(p.fields) == AppendComponent(a, p.fields[k - 1]);
      assert forall i | 0 <= i < k - 1 :: p.fields[i] == p.fields[..k - 1][i];
    } else {
      EmptyWithin(c);
    }
  }

  lemma {:induction false} EmptyWithin(c: Arena)
    ensures Within(EMPTY, c)
  {
  }

  // ----- nodes and their fields

  lemma {:induction false} NodeFieldsPrefix(nodes: seq<Node>, i: nat)
    requires i <= |nodes|
    ensures NodeFields(nodes[..i]) <= NodeFields(nodes)
    ensures Offsets(nodes)[i] == |NodeFields(nodes[..i])|
    decreases |nodes|
  {
    if i == |nodes| {
      assert nodes[..i] == nodes;
    } else {
      assert nodes[..|nodes| - 1][..i] == nodes[..i];
      NodeFieldsPrefix(nodes[..|nodes| - 1], i);
    }
  }

  lemma {:induction false} NodeFieldsAt(nodes: seq<Node>, i: nat)
    requires i < |nodes|
    ensures Slice(NodeFields(nodes), Offsets(nodes)[i], Offsets(nodes)[i + 1]) == nodes[i].fields
    ensures Offsets(nodes)[i] <= Offsets(nodes)[i + 1] <= |NodeFields(nodes)|
  {
    NodeFieldsPrefix(nodes, i);
    NodeFieldsPrefix(nodes, i + 1);
    assert nodes[..i + 1][..i] == nodes[..i];
    assert NodeFields(nodes[..i + 1]) == NodeFields(nodes[..i]) + nodes[i].fields;
  }

  lemma {:induction false} OffsetsAscend(nodes: seq<Node>)
    ensures OffsetsOk(Offsets(nodes), |NodeFields(nodes)|)
  {
    forall i, j | 0 <= i <= j < |nodes| + 1 ensures Offsets(nodes)[i] <= Offsets(nodes)[j] {
      NodeFieldsPrefix(nodes, i);
      NodeFieldsPrefix(nodes, j);
      NodeFieldsPrefix(nodes[..j], i);
      assert nodes[..j][..i] == nodes[..i];
    }
  }

  lemma {:induction false} OffsetsPrefix(offsets: seq<nat>)
    requires |offsets| > 1 && OffsetsOk(offsets, offsets[|offsets| - 1])
    ensures var last := |offsets| - 2;
      && OffsetsOk(offsets[..last + 1], offsets[last]) && offsets[last] <= offsets[last + 1]
      && offsets == offsets[..last + 1] + [offsets[last + 1]]
  {
    var last := |offsets| - 2;
    assert forall i | 0 <= i <= last :: offsets[..last + 1][i] == offsets[i];
  }

  /** Grouping cuts the fields where the offsets say, and laying out restores both. */
  lemma {:induction false} GroupRestores(tags: seq<nat>, offsets: seq<nat>, fields: seq<Component>)
    requires |offsets| == |tags| + 1 && OffsetsOk(offsets, offsets[|tags|]) && offsets[|tags|] <= |fields|
    ensures var nodes := Group(tags, offsets, fields);
      Tags(nodes) == tags && Offsets(nodes) == offsets && NodeFields(nodes) == fields[..offsets[|tags|]]
    decreases |tags|
  {
    if tags == [] {
      assert offsets == [0];
    } else {
      OffsetsPrefix(offsets);
      GroupRestores(tags[..|tags| - 1], offsets[..|tags|], fields);
      GroupOneMore(tags, offsets, fields);
    }
  }

  lemma {:induction false} GroupOneMore(tags: seq<nat>, offsets: seq<nat>, fields: seq<Component>)
    requires tags != [] && |offsets| == |tags| + 1
    requires offsets[|tags| - 1] <= offsets[|tags|] <= |fields|
    requires var init := Group(tags[..|tags| - 1], offsets[..|tags|], fields);
      && Tags(init) == tags[..|tags| - 1] && Offsets(init) == offsets[..|tags|]
      && NodeFields(init) == fields[..offsets[|tags| - 1]]
    ensures var nodes := Group(tags, offsets, fields);
      Tags(nodes) == tags && Offsets(nodes) == offsets && NodeFields(nodes) == fields[..offsets[|tags|]]
  {
    hide Tags, Offsets, NodeFields;
    var last := |tags| - 1;
    var init := Group(tags[..last], offsets[..last + 1], fields);
    NodeAppended(init, Node(tags[last], fields[offsets[last]..offsets[last + 1]]));
    assert fields[..offsets[last]] + fields[offsets[last]..offsets[last + 1]] == fields[..offsets[last + 1]];
    assert offsets == offsets[..last + 1] + [offsets[last + 1]];
    assert tags == tags[..last] + [tags[last]];
  }

  lemma {:induction false} NodeAppended(nodes: seq<Node>, node: Node)
    ensures Tags(nodes + [node]) == Tags(nodes) + [node.tag]
    ensures NodeFields(nodes + [node]) == NodeFields(nodes) + node.fields
    ensures Offsets(nodes + [node]) == Offsets(nodes) + [|NodeFields(nodes)| + |node.fields|]
  {
    assert (nodes + [node])[..|nodes|] == nodes;
  }

  lemma {:induction false} NodeFieldsOk(nodes: seq<Node>, nodeCount: nat)
    ensures FieldsOk(NodeFields(nodes), nodeCount) <==>
      forall i | 0 <= i < |nodes| :: FieldsOk(nodes[i].fields, nodeCount)
    decreases |nodes|
  {
    if nodes != [] {
      var init, last := nodes[..|nodes| - 1], nodes[|nodes| - 1];
      NodeFieldsOk(init, nodeCount);
      var front, back := NodeFields(init), last.fields;
      assert forall i | 0 <= i < |front| :: (front + back)[i] == front[i];
      assert forall i | 0 <= i < |back| :: (front + back)[|front| + i] == back[i];
    }
  }

  // ----- the two main theorems

  lemma {:induction false} WholeArena(a: Arena, c: Arena)
    requires Within(a, c) && Rectangular(a) && Rectangular(c)
    requires |a.fieldKinds| == |c.fieldKinds| && |a.itemKinds| == |c.itemKinds| && |a.scalars| == |c.scalars|
    ensures a == c
  {
  }

  /** What parses is the layout of a well-formed table, namely of the parsed one. */
  lemma {:induction false} ParseIsLayout(c: Columns)
    requires Parse(c).Some?
    ensures TableOk(Parse(c).value) && Layout(Parse(c).value) == c
  {
    hide FieldsArena, ParseFields, Within, NodeFields, Offsets, ComponentOk, Rectangular, Slice, RootOk;
    var n := |c.nodeTags|;
    SoundFields(c.arena, |c.arena.fieldKinds|, n);
    var p := ParseFields(c.arena, |c.arena.fieldKinds|, n).value;
    FieldsShape(p.fields);
    WholeArena(FieldsArena(p.fields), c.arena);
    var t := Parse(c).value;
    GroupRestores(c.nodeTags, c.nodeFieldOffsets, p.fields);
    assert p.fields[..|p.fields|] == p.fields;
    NodeFieldsOk(t.nodes, n);
    assert RootKinds(t.roots) == c.rootKinds && RootIds(t.roots) == c.rootIds;
  }

  /** The layout of a well-formed table parses, and yields the table again. */
  lemma {:induction false} LayoutParses(t: StructuralTable)
    requires TableOk(t)
    ensures Parse(Layout(t)) == Some(t)
  {
    hide FieldsArena, ParseFields, Within, NodeFields, Offsets, ComponentOk, Rectangular, Slice, RootOk;
    var c, n, fields := Layout(t), |t.nodes|, NodeFields(t.nodes);
    NodeFieldsOk(t.nodes, n);
    FieldsShape(fields);
    ArenaWithinItself(c.arena);
    CompleteFields(c.arena, fields, n);
    OffsetsAscend(t.nodes);
    var nodes := Group(c.nodeTags, c.nodeFieldOffsets, fields);
    forall i | 0 <= i < n ensures nodes[i] == t.nodes[i] {
      NodeFieldsAt(t.nodes, i);
    }
    assert nodes == t.nodes;
    assert ZipRoots(c.rootKinds, c.rootIds) == t.roots;
  }

  lemma {:induction false} ArenaWithinItself(a: Arena)
    ensures Within(a, a)
  {
  }

  /** Columns are accepted exactly when they are the layout of a well-formed table, and then of only one. */
  lemma {:induction false} AcceptedIffLayout(c: Columns)
    ensures Parse(c).Some? <==> exists t :: TableOk(t) && Layout(t) == c
    ensures forall s, t | TableOk(s) && TableOk(t) && Layout(s) == c && Layout(t) == c :: s == t
  {
    if Parse(c).Some? {
      ParseIsLayout(c);
    }
    forall t | TableOk(t) && Layout(t) == c ensures Parse(c) == Some(t) {
      LayoutParses(t);
    }
  }
}
