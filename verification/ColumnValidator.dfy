/** The scan that validates the columns of a view in place, without building a table. */
module ColumnValidator {
  import opened Wrappers
  import opened Layouts
  import opened LayoutRoundTrip
  import opened ByteColumns

  /** Assembles one little-endian value; each byte is added above the ones before it. */
  method ReadUint(bytes: seq<Byte>, index: nat, width: nat) returns (result: nat)
    requires width > 0 && index < |Column(bytes, width)|
    ensures result == Column(bytes, width)[index]
  {
    ColumnAt(bytes, width, index);
    var offset := index * width;
    result := 0;
    var shift := 0;
    while shift < width
      invariant 0 <= shift <= width
      invariant result == Uint(bytes[offset..offset + shift])
    {
      var b := bytes[offset + shift];
      UintAppend(bytes[offset..offset + shift], b);
      assert bytes[offset..offset + shift + 1] == bytes[offset..offset + shift] + [b];
      result := result + b * Power(shift);
      shift := shift + 1;
    }
  }

  /** Checks one component that is no collection; the result is the cursor behind its scalar. */
  method CheckLeaf(kind: nat, value: nat, length: nat, nodeCount: nat, scalars: seq<Byte>, cursor: nat)
    returns (next: Option<nat>)
    requires cursor <= |scalars|
    ensures forall c: Arena | c.scalars == scalars ::
      var leaf := ParseLeaf(c, LayoutRow(kind, value, length), nodeCount, cursor);
      && (next.Some? <==> leaf.Some?)
      && (next.Some? ==> next.value == cursor + |BytesOf(leaf.value)| <= |scalars|)
  {
    if kind == NONE {
      return if value != 0 || length != 0 then None else Some(cursor);
    }
    if kind == NODE {
      return if length != 0 || !(1 <= value <= nodeCount) then None else Some(cursor);
    }
    if kind != 2 && kind != 3 && kind != 4 && kind != 5 {
      return None;
    }
    if value != cursor || length > |scalars| - cursor {
      return None;
    }
    next := Some(cursor + length);
  }

  method CheckOffsets(bytes: seq<Byte>, fieldCount: nat) returns (ok: bool)
    requires |Column(bytes, 8)| > 0
    ensures ok <==> OffsetsOk(Column(bytes, 8), fieldCount)
  {
    ghost var offsets := Column(bytes, 8);
    ColumnCount(bytes, 8);
    var previous := 0;
    var index := 0;
    while index < |bytes| / 8
      invariant 0 <= index <= |offsets|
      invariant index > 0 ==> offsets[0] == 0 && previous == offsets[index - 1]
      invariant index == 0 ==> previous == 0
      invariant forall i, j | 0 <= i <= j < index :: offsets[i] <= offsets[j] <= fieldCount
    {
      var offset := ReadUint(bytes, index, 8);
      if (index == 0 && offset != 0) || offset < previous || offset > fieldCount {
        assert index > 0 ==> offsets[index - 1] == previous;
        return false;
      }
      previous := offset;
      index := index + 1;
    }
    ok := previous == fieldCount;
  }

  method CheckRoots(kinds: seq<Byte>, ids: seq<Byte>, nodeCount: nat) returns (ok: bool)
    requires |Column(kinds, 1)| == |Column(ids, 4)|
    ensures ok <==> forall i | 0 <= i < |Column(kinds, 1)| ::
      RootOk(Root(Column(kinds, 1)[i], Column(ids, 4)[i]), nodeCount)
  {
    ColumnCount(kinds, 1);
    var index := 0;
    while index < |kinds|
      invariant 0 <= index <= |Column(kinds, 1)|
      invariant forall i | 0 <= i < index ::
        RootOk(Root(Column(kinds, 1)[i], Column(ids, 4)[i]), nodeCount)
    {
      var kind := ReadUint(kinds, index, 1);
      var id := ReadUint(ids, index, 4);
      if kind != 1 && kind != 2 && kind != 3 {
        return false;
      }
      if !(1 <= id <= nodeCount) {
        return false;
      }
      index := index + 1;
    }
    ok := true;
  }

  lemma {:induction false} ItemsFail(c: Arena, from: nat, k: nat, n: nat, isSet: bool, nodeCount: nat, cursor: nat)
    requires Rectangular(c) && k <= n && from + n <= |c.itemKinds|
    requires ParseItems(c, from, k, isSet, nodeCount, cursor).None?
    ensures ParseItems(c, from, n, isSet, nodeCount, cursor).None?
    decreases n
  {
    if k < n {
      ItemsFail(c, from, k, n - 1, isSet, nodeCount, cursor);
    }
  }

  lemma {:induction false} FieldsFail(c: Arena, k: nat, n: nat, nodeCount: nat)
    requires Rectangular(c) && k <= n <= |c.fieldKinds| && ParseFields(c, k, nodeCount).None?
    ensures ParseFields(c, n, nodeCount).None?
    decreases n
  {
    if k < n {
      FieldsFail(c, k, n - 1, nodeCount);
    }
  }

  /** Checks the items of one collection; the result is the scalar cursor behind them. */
  method CheckItems(b: Buffers, from: nat, length: nat, isSet: bool, nodeCount: nat, cursor: nat)
    returns (next: Option<nat>)
    requires Rectangular(Read(b).arena) && from + length <= |Column(b.itemKinds, 1)|
    requires cursor <= |b.scalarBytes|
    ensures var read := ParseItems(Read(b).arena, from, length, isSet, nodeCount, cursor);
      && (next.Some? <==> read.Some?)
      && (next.Some? ==> next.value == read.value.cursor <= |b.scalarBytes|)
  {
    hide ParseLeaf, Column;
    ghost var c := Read(b).arena;
    var itemCursor := from;
    var scalarCursor := cursor;
    while itemCursor < from + length
      invariant from <= itemCursor <= from + length && scalarCursor <= |b.scalarBytes|
      invariant var read := ParseItems(c, from, itemCursor - from, isSet, nodeCount, cursor);
        read.Some? && read.value.cursor == scalarCursor
    {
      var kind := ReadUint(b.itemKinds, itemCursor, 1);
      if isSet && kind != NODE {
        ItemsFail(c, from, itemCursor + 1 - from, length, isSet, nodeCount, cursor);
        return None;
      }
      var value := ReadUint(b.itemValues, itemCursor, 8);
      var extent := ReadUint(b.itemLengths, itemCursor, 8);
      next := CheckLeaf(kind, value, extent, nodeCount, b.scalarBytes, scalarCursor);
      assert ItemRow(c, itemCursor) == LayoutRow(kind, value, extent);
      if next.None? {
        ItemsFail(c, from, itemCursor + 1 - from, length, isSet, nodeCount, cursor);
        return None;
      }
      scalarCursor := next.value;
      itemCursor := itemCursor + 1;
    }
    next := Some(scalarCursor);
  }

  /** Checks field `k` when the fields before it have been read. */
  method CheckField(b: Buffers, k: nat, nodeCount: nat, itemCursor: nat, scalarCursor: nat, ghost p: Progress)
    returns (next: Option<(nat, nat)>)
    requires Rectangular(Read(b).arena) && k < |Column(b.fieldKinds, 1)|
    requires p.itemCursor == itemCursor <= |Column(b.itemKinds, 1)|
    requires p.scalarCursor == scalarCursor <= |b.scalarBytes|
    ensures var read := ParseField(Read(b).arena, k, nodeCount, p);
      && (next.Some? <==> read.Some?)
      && (next.Some? ==>
            && next.value == (read.value.itemCursor, read.value.scalarCursor)
            && next.value.0 <= |Column(b.itemKinds, 1)| && next.value.1 <= |b.scalarBytes|)
  {
    hide ParseLeaf, ParseItems, Column;
    ColumnCount(b.itemKinds, 1);
    var itemCount := |b.itemKinds|;
    var kind := ReadUint(b.fieldKinds, k, 1);
    var value := ReadUint(b.fieldValues, k, 8);
    var length := ReadUint(b.fieldLengths, k, 8);
    assert FieldRow(Read(b).arena, k) == LayoutRow(kind, value, length);
    if kind == SET || kind == SEQUENCE {
      if value != itemCursor || length > itemCount - itemCursor {
        return None;
      }
      var behind := CheckItems(b, itemCursor, length, kind == SET, nodeCount, scalarCursor);
      if behind.None? {
        return None;
      }
      next := Some((itemCursor + length, behind.value));
    } else {
      var behind := CheckLeaf(kind, value, length, nodeCount, b.scalarBytes, scalarCursor);
      if behind.None? {
        return None;
      }
      next := Some((itemCursor, behind.value));
    }
  }

  /** Reads every field with running item and scalar cursors, which must end at the ends of their arenas. */
  method CheckFields(b: Buffers, nodeCount: nat) returns (ok: bool)
    requires Rectangular(Read(b).arena)
    ensures var c := Read(b).arena;
      var p := ParseFields(c, |c.fieldKinds|, nodeCount);
      ok <==> p.Some? && p.value.itemCursor == |c.itemKinds| && p.value.scalarCursor == |c.scalars|
  {
    hide ParseField, Column;
    ColumnCount(b.fieldKinds, 1);
    ColumnCount(b.itemKinds, 1);
    ghost var c := Read(b).arena;
    var itemCursor, scalarCursor, k := 0, 0, 0;
    ghost var p := Progress([], 0, 0);
    while k < |b.fieldKinds|
      invariant 0 <= k <= |c.fieldKinds|
      invariant ParseFields(c, k, nodeCount) == Some(p)
      invariant p.itemCursor == itemCursor <= |Column(b.itemKinds, 1)|
      invariant p.scalarCursor == scalarCursor <= |b.scalarBytes|
    {
      var next := CheckField(b, k, nodeCount, itemCursor, scalarCursor, p);
      if next.None? {
        FieldsFail(c, k + 1, |c.fieldKinds|, nodeCount);
        return false;
      }
      p := ParseField(c, k, nodeCount, p).value;
      itemCursor, scalarCursor := next.value.0, next.value.1;
      k := k + 1;
    }
    ok := itemCursor == |b.itemKinds| && scalarCursor == |b.scalarBytes|;
  }

  /** The result is the number of roots, and there is none when the columns are refused. */
  method ValidateColumnReferences(b: Buffers) returns (rootCount: Option<nat>)
    ensures rootCount.Some? <==> Parse(Read(b)).Some?
    ensures rootCount.Some? ==> rootCount.value == |Parse(Read(b)).value.roots|
  {
    hide Column, ParseFields;
    ColumnCount(b.rootKinds, 1);
    ColumnCount(b.rootIds, 4);
    ColumnCount(b.nodeTags, 2);
    ColumnCount(b.nodeFieldOffsets, 8);
    ColumnCount(b.fieldKinds, 1);
    ColumnCount(b.fieldValues, 8);
    ColumnCount(b.fieldLengths, 8);
    ColumnCount(b.itemKinds, 1);
    ColumnCount(b.itemValues, 8);
    ColumnCount(b.itemLengths, 8);
    var roots, nodes, offsets := |b.rootKinds|, |b.nodeTags| / 2, |b.nodeFieldOffsets| / 8;
    var fields, items := |b.fieldKinds|, |b.itemKinds|;
    if nodes >= MAX_NODES || |b.rootIds| / 4 != roots || offsets != nodes + 1 {
      return None;
    }
    if |b.fieldValues| / 8 != fields || |b.fieldLengths| / 8 != fields {
      return None;
    }
    if |b.itemValues| / 8 != items || |b.itemLengths| / 8 != items {
      return None;
    }
    var ok := CheckOffsets(b.nodeFieldOffsets, fields);
    if !ok {
      return None;
    }
    ok := CheckRoots(b.rootKinds, b.rootIds, nodes);
    if !ok {
      return None;
    }
    ok := CheckFields(b, nodes);
    if !ok {
      return None;
    }
    rootCount := Some(roots);
  }

  /** Accepts the buffers exactly when they store a well-formed table. */
  method ValidateBuffers(b: Buffers) returns (rootCount: Option<nat>)
    ensures rootCount.Some? <==> exists t :: Stores(b, t)
    ensures forall t :: Stores(b, t) ==> rootCount == Some(|t.roots|)
  {
    hide Column, Parse, Layout, TableOk, FitsWidths, Write, Read, Stores, Whole;
    AcceptedIffStored(b);
    var whole := CheckWidths(b);
    if !whole {
      return None;
    }
    rootCount := ValidateColumnReferences(b);
  }

  method CheckWidths(b: Buffers) returns (whole: bool)
    ensures whole <==> WholeBuffers(b)
  {
    hide Column, Whole;
    ColumnCount(b.nodeTags, 2);
    ColumnCount(b.nodeFieldOffsets, 8);
    ColumnCount(b.fieldKinds, 1);
    ColumnCount(b.fieldValues, 8);
    ColumnCount(b.fieldLengths, 8);
    ColumnCount(b.itemKinds, 1);
    ColumnCount(b.itemValues, 8);
    ColumnCount(b.itemLengths, 8);
    ColumnCount(b.rootKinds, 1);
    ColumnCount(b.rootIds, 4);
    whole := |b.nodeTags| % 2 == 0 && |b.nodeFieldOffsets| % 8 == 0 && |b.fieldValues| % 8 == 0
      && |b.fieldLengths| % 8 == 0 && |b.itemValues| % 8 == 0 && |b.itemLengths| % 8 == 0
      && |b.rootIds| % 4 == 0;
  }
}
