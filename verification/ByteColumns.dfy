/** Columns as they are stored: little-endian unsigned integers of a fixed width, end to end. */
module ByteColumns {
  import opened Wrappers
  import opened Layouts
  import opened LayoutRoundTrip

  function Power(n: nat): (p: nat)
    ensures p > 0
  {
    if n == 0 then 1 else 256 * Power(n - 1)
  }

  function Uint(bytes: seq<Byte>): nat {
    if bytes == [] then 0 else bytes[0] + 256 * Uint(bytes[1..])
  }

  function ToBytes(n: nat, width: nat): (bytes: seq<Byte>)
    ensures |bytes| == width
    decreases width
  {
    if width == 0 then [] else [n % 256] + ToBytes(n / 256, width - 1)
  }

  lemma {:induction false} UintOfBytes(n: nat, width: nat)
    requires n < Power(width)
    ensures Uint(ToBytes(n, width)) == n
    decreases width
  {
    if width > 0 {
      assert ToBytes(n, width)[1..] == ToBytes(n / 256, width - 1);
      UintOfBytes(n / 256, width - 1);
    }
  }

  lemma {:induction false} LowAndHigh(low: Byte, high: nat)
    ensures (low + 256 * high) % 256 == low && (low + 256 * high) / 256 == high
  {
  }

  lemma {:induction false} BytesOfUint(bytes: seq<Byte>)
    ensures Uint(bytes) < Power(|bytes|) && ToBytes(Uint(bytes), |bytes|) == bytes
    decreases |bytes|
  {
    if bytes != [] {
      var rest := bytes[1..];
      BytesOfUint(rest);
      LowAndHigh(bytes[0], Uint(rest));
      assert ToBytes(Uint(bytes), |bytes|) == [bytes[0]] + ToBytes(Uint(rest), |rest|);
      assert bytes == [bytes[0]] + rest;
    }
  }

  lemma {:induction false} UintAppend(bytes: seq<Byte>, b: Byte)
    ensures Uint(bytes + [b]) == Uint(bytes) + b * Power(|bytes|)
    decreases |bytes|
  {
    if bytes == [] {
      assert bytes + [b] == [b] && [b][1..] == [];
    } else {
      UintAppend(bytes[1..], b);
      assert (bytes + [b])[1..] == bytes[1..] + [b];
      assert 256 * (b * Power(|bytes| - 1)) == b * Power(|bytes|);
    }
  }

  // ----- one column

  function Column(bytes: seq<Byte>, width: nat): seq<nat>
    requires width > 0
    decreases |bytes|
  {
    if |bytes| < width then [] else [Uint(bytes[..width])] + Column(bytes[width..], width)
  }

  function ColumnBytes(values: seq<nat>, width: nat): seq<Byte> {
    if values == [] then [] else ToBytes(values[0], width) + ColumnBytes(values[1..], width)
  }

  predicate Fit(values: seq<nat>, width: nat) {
    forall i | 0 <= i < |values| :: values[i] < Power(width)
  }

  /** The bytes are a whole number of values. */
  predicate Whole(bytes: seq<Byte>, width: nat)
    requires width > 0
  {
    |bytes| == |Column(bytes, width)| * width
  }

  lemma {:induction false} WholeTail(bytes: seq<Byte>, width: nat)
    requires 0 < width <= |bytes|
    ensures Whole(bytes, width) <==> Whole(bytes[width..], width)
  {
    var n := |Column(bytes[width..], width)|;
    assert |Column(bytes, width)| == n + 1;
    assert (n + 1) * width == n * width + width;
  }

  lemma {:induction false} WholeRest(bytes: seq<Byte>, width: nat)
    requires 0 < width && |bytes| < width
    ensures Whole(bytes, width) <==> bytes == []
  {
    assert |Column(bytes, width)| * width == 0;
  }

  lemma {:induction false} ColumnCount(bytes: seq<Byte>, width: nat)
    requires width > 0
    ensures |Column(bytes, width)| == |bytes| / width
    ensures Whole(bytes, width) <==> |bytes| % width == 0
    decreases |bytes|
  {
    hide Whole;
    if |bytes| >= width {
      ColumnCount(bytes[width..], width);
      OneLess(|bytes|, width);
      WholeTail(bytes, width);
    } else {
      WholeRest(bytes, width);
      assert |bytes| / width == 0 && |bytes| % width == |bytes|;
    }
  }

  lemma {:induction false} OneLess(n: nat, width: nat)
    requires 0 < width <= n
    ensures n / width == (n - width) / width + 1 && n % width == (n - width) % width
  {
    var q, r := (n - width) / width, (n - width) % width;
    assert n == (q + 1) * width + r;
    QuotientOf(n, width, q + 1, r);
  }

  lemma {:induction false} QuotientOf(n: nat, width: nat, q: nat, r: nat)
    requires width > 0 && r < width && n == q * width + r
    ensures n / width == q && n % width == r
  {
    var p, s := n / width, n % width;
    assert n == p * width + s;
    if p < q {
      Apart(width, p, q);
    } else if q < p {
      Apart(width, q, p);
    }
  }

  lemma {:induction false} Apart(width: nat, p: nat, q: nat)
    requires p < q
    ensures p * width + width <= q * width
    decreases q
  {
    if p + 1 < q {
      Apart(width, p, q - 1);
    }
    assert q * width == (q - 1) * width + width;
  }

  lemma {:induction false} ColumnAt(bytes: seq<Byte>, width: nat, i: nat)
    requires width > 0 && i < |Column(bytes, width)|
    ensures i * width + width <= |bytes|
    ensures Column(bytes, width)[i] == Uint(bytes[i * width..i * width + width])
    decreases i
  {
    if i > 0 {
      ColumnAt(bytes[width..], width, i - 1);
      assert i * width == (i - 1) * width + width;
      assert bytes[width..][(i - 1) * width..(i - 1) * width + width] == bytes[i * width..i * width + width];
    }
  }

  /** What is written as a column reads as the same values. */
  lemma {:induction false} ColumnOfBytes(values: seq<nat>, width: nat)
    requires width > 0 && Fit(values, width)
    ensures Column(ColumnBytes(values, width), width) == values && Whole(ColumnBytes(values, width), width)
    decreases |values|
  {
    hide Whole, Power;
    var bytes := ColumnBytes(values, width);
    if values == [] {
      WholeRest(bytes, width);
    } else {
      var rest := values[1..];
      assert forall i | 0 <= i < |rest| :: rest[i] == values[i + 1];
      ColumnOfBytes(rest, width);
      UintOfBytes(values[0], width);
      assert bytes[..width] == ToBytes(values[0], width) && bytes[width..] == ColumnBytes(rest, width);
      WholeTail(bytes, width);
      assert [values[0]] + rest == values;
    }
  }

  /** What is read from a whole column writes back to the same bytes. */
  lemma {:induction false} BytesOfColumn(bytes: seq<Byte>, width: nat)
    requires width > 0 && Whole(bytes, width)
    ensures Fit(Column(bytes, width), width) && ColumnBytes(Column(bytes, width), width) == bytes
    decreases |bytes|
  {
    hide Whole, Power;
    if |bytes| < width {
      WholeRest(bytes, width);
    } else {
      var values, rest := Column(bytes, width), Column(bytes[width..], width);
      WholeTail(bytes, width);
      BytesOfColumn(bytes[width..], width);
      BytesOfUint(bytes[..width]);
      assert values == [Uint(bytes[..width])] + rest;
      assert forall i | 0 < i < |values| :: values[i] == rest[i - 1];
      assert bytes == bytes[..width] + bytes[width..];
    }
  }

  // ----- all buffers

  datatype Buffers = Buffers(
    nodeTags: seq<Byte>, nodeFieldOffsets: seq<Byte>,
    fieldKinds: seq<Byte>, fieldValues: seq<Byte>, fieldLengths: seq<Byte>,
    itemKinds: seq<Byte>, itemValues: seq<Byte>, itemLengths: seq<Byte>,
    rootKinds: seq<Byte>, rootIds: seq<Byte>, scalarBytes: seq<Byte>)

  predicate WholeBuffers(b: Buffers) {
    && Whole(b.nodeTags, 2) && Whole(b.nodeFieldOffsets, 8)
    && Whole(b.fieldKinds, 1) && Whole(b.fieldValues, 8) && Whole(b.fieldLengths, 8)
    && Whole(b.itemKinds, 1) && Whole(b.itemValues, 8) && Whole(b.itemLengths, 8)
    && Whole(b.rootKinds, 1) && Whole(b.rootIds, 4)
  }

  function Read(b: Buffers): Columns {
    Columns(
      Column(b.nodeTags, 2), Column(b.nodeFieldOffsets, 8),
      Arena(Column(b.fieldKinds, 1), Column(b.fieldValues, 8), Column(b.fieldLengths, 8),
            Column(b.itemKinds, 1), Column(b.itemValues, 8), Column(b.itemLengths, 8), b.scalarBytes),
      Column(b.rootKinds, 1), Column(b.rootIds, 4))
  }

  function Write(c: Columns): Buffers {
    Buffers(
      ColumnBytes(c.nodeTags, 2), ColumnBytes(c.nodeFieldOffsets, 8),
      ColumnBytes(c.arena.fieldKinds, 1), ColumnBytes(c.arena.fieldValues, 8), ColumnBytes(c.arena.fieldLengths, 8),
      ColumnBytes(c.arena.itemKinds, 1), ColumnBytes(c.arena.itemValues, 8), ColumnBytes(c.arena.itemLengths, 8),
      ColumnBytes(c.rootKinds, 1), ColumnBytes(c.rootIds, 4), c.arena.scalars)
  }

  /** Every value fits the width of its column. */
  predicate FitsWidths(c: Columns) {
    && Fit(c.nodeTags, 2) && Fit(c.nodeFieldOffsets, 8)
    && Fit(c.arena.fieldKinds, 1) && Fit(c.arena.fieldValues, 8) && Fit(c.arena.fieldLengths, 8)
    && Fit(c.arena.itemKinds, 1) && Fit(c.arena.itemValues, 8) && Fit(c.arena.itemLengths, 8)
    && Fit(c.rootKinds, 1) && Fit(c.rootIds, 4)
  }

  lemma {:induction false} ReadOfWrite(c: Columns)
    requires FitsWidths(c)
    ensures Read(Write(c)) == c && WholeBuffers(Write(c))
  {
    hide Column, ColumnBytes, Fit, Whole;
    ColumnOfBytes(c.nodeTags, 2);
    ColumnOfBytes(c.nodeFieldOffsets, 8);
    ColumnOfBytes(c.arena.fieldKinds, 1);
    ColumnOfBytes(c.arena.fieldValues, 8);
    ColumnOfBytes(c.arena.fieldLengths, 8);
    ColumnOfBytes(c.arena.itemKinds, 1);
    ColumnOfBytes(c.arena.itemValues, 8);
    ColumnOfBytes(c.arena.itemLengths, 8);
    ColumnOfBytes(c.rootKinds, 1);
    ColumnOfBytes(c.rootIds, 4);
  }

  lemma {:induction false} WriteOfRead(b: Buffers)
    requires WholeBuffers(b)
    ensures Write(Read(b)) == b && FitsWidths(Read(b))
  {
    hide Column, ColumnBytes, Fit, Whole;
    BytesOfColumn(b.nodeTags, 2);
    BytesOfColumn(b.nodeFieldOffsets, 8);
    BytesOfColumn(b.fieldKinds, 1);
    BytesOfColumn(b.fieldValues, 8);
    BytesOfColumn(b.fieldLengths, 8);
    BytesOfColumn(b.itemKinds, 1);
    BytesOfColumn(b.itemValues, 8);
    BytesOfColumn(b.itemLengths, 8);
    BytesOfColumn(b.rootKinds, 1);
    BytesOfColumn(b.rootIds, 4);
  }

  /** The buffers are the stored layout of a well-formed table. */
  ghost predicate Stores(b: Buffers, t: StructuralTable) {
    TableOk(t) && FitsWidths(Layout(t)) && Write(Layout(t)) == b
  }

  /** Whole buffers parse exactly when they store a table, and then they store the parsed one only. */
  lemma {:induction false} AcceptedIffStored(b: Buffers)
    ensures WholeBuffers(b) && Parse(Read(b)).Some? <==> exists t :: Stores(b, t)
    ensures forall t :: Stores(b, t) ==> WholeBuffers(b) && Parse(Read(b)) == Some(t)
  {
    hide Read, Write, FitsWidths, WholeBuffers, Parse, Layout, TableOk;
    if WholeBuffers(b) && Parse(Read(b)).Some? {
      ParseIsLayout(Read(b));
      WriteOfRead(b);
      assert Stores(b, Parse(Read(b)).value);
    }
    forall t | Stores(b, t) ensures WholeBuffers(b) && Parse(Read(b)) == Some(t) {
      ReadOfWrite(Layout(t));
      LayoutParses(t);
    }
  }
}
