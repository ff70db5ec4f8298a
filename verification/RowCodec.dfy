/** Rows as bytes: a null bitmap, then the cells that are not null (executor/row.go). */
module RowCodec {
  import opened Keys
  import opened Wire

  // ----- bits -----

  /** `(b >> k) & 1 == 1`. */
  predicate BitOf(b: nat, k: nat) {
    if k == 0 then b % 2 == 1 else BitOf(b / 2, k - 1)
  }

  /** `b | 1 << k` or `b &^ 1 << k`. */
  function WithBit(b: nat, k: nat, on: bool): nat {
    if k == 0 then b / 2 * 2 + (if on then 1 else 0) else WithBit(b / 2, k - 1, on) * 2 + b % 2
  }

  function Pow2(n: nat): nat { if n == 0 then 1 else 2 * Pow2(n - 1) }

  /** One bit changes and no other. */
  lemma {:induction false} BitOfWithBit(b: nat, k: nat, on: bool, j: nat)
    ensures BitOf(WithBit(b, k, on), j) == if j == k then on else BitOf(b, j)
  {
    if k > 0 {
      assert WithBit(b, k, on) / 2 == WithBit(b / 2, k - 1, on) && WithBit(b, k, on) % 2 == b % 2;
      if j > 0 { BitOfWithBit(b / 2, k - 1, on, j - 1); }
    } else {
      assert WithBit(b, k, on) / 2 == b / 2;
    }
  }

  lemma {:induction false} WithBitBound(b: nat, k: nat, on: bool, n: nat)
    requires k < n && b < Pow2(n)
    ensures WithBit(b, k, on) < Pow2(n)
  {
    hide WithBit;
    var half := Pow2(n - 1);
    assert Pow2(n) == 2 * half;
    if k > 0 {
      WithBitBound(b / 2, k - 1, on, n - 1);
      WithBitHigh(b, k, on);
    } else {
      WithBitLow(b, on);
    }
  }

  lemma {:induction false} WithBitHigh(b: nat, k: nat, on: bool)
    requires k > 0
    ensures WithBit(b, k, on) <= WithBit(b / 2, k - 1, on) * 2 + 1
  {}

  lemma {:induction false} WithBitLow(b: nat, on: bool)
    ensures WithBit(b, 0, on) <= b / 2 * 2 + 1
  {}

  lemma {:induction false} NoBits(k: nat)
    ensures !BitOf(0, k)
  {
    if k > 0 { NoBits(k - 1); }
  }

  predicate CheckBit(bitmap: seq<byte>, i: nat)
    requires i / 8 < |bitmap|
  {
    BitOf(bitmap[i / 8] as nat, i % 8)
  }

  method SetBit(bitmap: array<byte>, i: nat, on: bool)
    requires i / 8 < bitmap.Length
    modifies bitmap
    ensures forall j: nat :: j / 8 < bitmap.Length
              ==> CheckBit(bitmap[..], j) == if j == i then on else old(CheckBit(bitmap[..], j))
  {
    var b := bitmap[i / 8] as nat;
    assert Pow2(8) == 256 by { assert Pow2(4) == 16; }
    WithBitBound(b, i % 8, on, 8);
    bitmap[i / 8] := WithBit(b, i % 8, on) as byte;
    forall j: nat | j / 8 < bitmap.Length
      ensures CheckBit(bitmap[..], j) == if j == i then on else old(CheckBit(bitmap[..], j))
    {
      if j / 8 == i / 8 { BitOfWithBit(b, i % 8, on, j % 8); }
    }
  }

  // ----- layout -----

  function BitmapSize(columns: nat): nat { (columns + 7) / 8 }

  function Cells(values: seq<Value>): seq<byte> {
    if values == [] then [] else Cell(values[0]) + Cells(values[1..])
  }

  /** A bit for every null column, none set beyond the last column. */
  ghost predicate Marks(bitmap: seq<byte>, values: seq<Value>) {
    |bitmap| == BitmapSize(|values|)
    && forall i: nat :: i / 8 < |bitmap| ==> (CheckBit(bitmap, i) <==> i < |values| && values[i].Null?)
  }

  ghost predicate Encodes(data: seq<byte>, values: seq<Value>) {
    var n := BitmapSize(|values|);
    |data| >= n && Marks(data[..n], values) && data[n..] == Cells(values)
  }

  predicate Typed(values: seq<Value>, types: seq<DataType>) {
    |values| == |types| && forall i :: 0 <= i < |values| ==> HasType(values[i], types[i])
  }

  predicate AllSized(values: seq<Value>) { forall v <- values :: Sized(v) }

  lemma {:induction false} CellsConcat(a: seq<Value>, b: seq<Value>)
    ensures Cells(a + b) == Cells(a) + Cells(b)
  {
    if a == [] {
      assert a + b == b;
    } else {
      assert (a + b)[1..] == a[1..] + b;
      CellsConcat(a[1..], b);
    }
  }

  /** The bits of the first `n` columns are set where the value is null, and no others. */
  ghost predicate MarksUpTo(bitmap: seq<byte>, values: seq<Value>, n: nat) {
    n <= |values| && forall j: nat :: j / 8 < |bitmap| ==> (CheckBit(bitmap, j) <==> j < n && values[j].Null?)
  }

  lemma {:induction false} NothingMarked(bitmap: seq<byte>, values: seq<Value>)
    requires forall k :: 0 <= k < |bitmap| ==> bitmap[k] == 0
    ensures MarksUpTo(bitmap, values, 0)
  {
    forall k: nat ensures !BitOf(0, k) { NoBits(k); }
  }

  lemma {:induction false} CellsMore(values: seq<Value>, i: nat)
    requires i < |values|
    ensures Cells(values[..i + 1]) == Cells(values[..i]) + Cell(values[i])
            && (values[i].Null? ==> Cell(values[i]) == [])
  {
    assert values[..i + 1] == values[..i] + [values[i]];
    CellsConcat(values[..i], [values[i]]);
    assert Cells([values[i]]) == Cell(values[i]) + Cells([]);
  }

  /** Marks the next column. */
  method MarkNull(bitmap: array<byte>, ghost values: seq<Value>, i: nat, isNull: bool)
    requires i < |values| && i / 8 < bitmap.Length && MarksUpTo(bitmap[..], values, i) && isNull == values[i].Null?
    modifies bitmap
    ensures MarksUpTo(bitmap[..], values, i + 1)
  {
    hide CheckBit;
    if isNull { SetBit(bitmap, i, true); }
  }

  /** The cells of the columns that are not null, in column order. */
  ghost predicate IsCells(b: seq<byte>, values: seq<Value>) {
    if values == [] then b == []
    else exists n :: 0 <= n <= |b| && IsCell(b[..n], values[0]) && IsCells(b[n..], values[1..])
  }

  lemma {:induction false} CellsLayout(values: seq<Value>)
    ensures IsCells(Cells(values), values)
  {
    hide IsCell, Cell;
    if values != [] {
      var e, b := Cell(values[0]), Cells(values);
      CellLayout(values[0]);
      CellsLayout(values[1..]);
      assert b[..|e|] == e && b[|e|..] == Cells(values[1..]);
    }
  }

  /** The k-th bit from the right. */
  predicate BitAt(b: nat, k: nat)
    requires k < 8
  {
    b / [1, 2, 4, 8, 16, 32, 64, 128][k] % 2 == 1
  }

  lemma {:induction false} BitOfIs(b: nat, k: nat)
    requires k < 8
    ensures BitOf(b, k) <==> BitAt(b, k)
  {
    var c := b / 2;
    if k > 0 {
      BitOfIs(c, k - 1);
      assert c / 2 == b / 4 && c / 4 == b / 8 && c / 8 == b / 16 && c / 16 == b / 32 && c / 32 == b / 64
             && c / 64 == b / 128;
    }
  }

  /** A row's bytes: bit i % 8 of byte i / 8 is set exactly where column i is null; behind the bitmap come the cells. */
  lemma {:induction false} RowLayout(data: seq<byte>, values: seq<Value>)
    requires Encodes(data, values)
    ensures var n := (|values| + 7) / 8;
            && |data| >= n && IsCells(data[n..], values)
            && forall i: nat :: i < |values| ==> (BitAt(data[i / 8] as nat, i % 8) <==> values[i].Null?)
  {
    hide IsCells, Cells, BitOf, BitAt;
    CellsLayout(values);
    var n := BitmapSize(|values|);
    forall i: nat | i < |values| ensures BitAt(data[i / 8] as nat, i % 8) <==> values[i].Null? {
      assert i / 8 < n && data[..n][i / 8] == data[i / 8];
      assert CheckBit(data[..n], i) <==> values[i].Null?;
      BitOfIs(data[i / 8] as nat, i % 8);
    }
  }

  method EncodeRow(values: seq<Value>, types: seq<DataType>) returns (data: seq<byte>)
    requires Typed(values, types)
    ensures Encodes(data, values)
  {
    hide MarksUpTo, CheckBit, Cells, Cell;
    var output: seq<byte> := [];
    var bitmap := new byte[BitmapSize(|types|)](_ => 0);
    NothingMarked(bitmap[..], values);
    CellsNone(values);
    for i := 0 to |values|
      invariant output == Cells(values[..i]) && MarksUpTo(bitmap[..], values, i)
    {
      MarkNull(bitmap, values, i, values[i].Null?);
      CellsMore(values, i);
      if !values[i].Null? { output := output + Cell(values[i]); }
    }
    assert values[..|values|] == values;
    data := bitmap[..] + output;
    assert data[..bitmap.Length] == bitmap[..] && data[bitmap.Length..] == output;
    AllMarked(bitmap[..], values);
  }

  lemma {:induction false} CellsNone(values: seq<Value>)
    ensures Cells(values[..0]) == []
  {}

  lemma {:induction false} AllMarked(bitmap: seq<byte>, values: seq<Value>)
    requires MarksUpTo(bitmap, values, |values|) && |bitmap| == BitmapSize(|values|)
    ensures Marks(bitmap, values)
  {}

  // ----- reading -----

  datatype Decoded = Ok(values: seq<Value>) | Truncated

  function Then(v: seq<Value>, d: Decoded): Decoded { if d.Ok? then Ok(v + d.values) else Truncated }

  /** The columns from the i-th on, their cells at the front of `data`. */
  function DecodeFrom(bitmap: seq<byte>, types: seq<DataType>, i: nat, data: seq<byte>): (d: Decoded)
    requires i <= |types| && |bitmap| == BitmapSize(|types|)
    decreases |types| - i
  {
    if i == |types| then Ok([])
    else if CheckBit(bitmap, i) then Then([Null], DecodeFrom(bitmap, types, i + 1, data))
    else
      var p := TakeCell(types[i], data);
      if p.Short? then Truncated else Then([p.value], DecodeFrom(bitmap, types, i + 1, p.rest))
  }

  function RowOf(data: seq<byte>, types: seq<DataType>): Decoded {
    var n := BitmapSize(|types|);
    if |data| < n then Truncated else DecodeFrom(data[..n], types, 0, data[n..])
  }

  /** The columns from the i-th on, as the bitmap and the bytes have them. */
  ghost predicate ReadAs(bitmap: seq<byte>, types: seq<DataType>, i: nat, values: seq<Value>) {
    |values| + i == |types| && forall k :: 0 <= k < |values| ==> ReadAt(bitmap, types[i + k], i + k, values[k])
  }

  ghost predicate ReadAt(bitmap: seq<byte>, t: DataType, i: nat, v: Value) {
    HasType(v, t) && Sized(v) && i / 8 < |bitmap| && (v.Null? <==> CheckBit(bitmap, i))
  }

  lemma {:induction false} DecodeFromSound(bitmap: seq<byte>, types: seq<DataType>, i: nat, data: seq<byte>)
    requires i <= |types| && |bitmap| == BitmapSize(|types|)
    ensures var d := DecodeFrom(bitmap, types, i, data);
            d.Ok? ==> ReadAs(bitmap, types, i, d.values) && Cells(d.values) <= data
    decreases |types| - i
  {
    hide TakeCell, CheckBit, Cell, Sized, ReadAs, HasType, Cells;
    if i == |types| {
      NothingRead(bitmap, types);
    } else {
      var p := TakeCell(types[i], data);
      var rest := if CheckBit(bitmap, i) || p.Short? then data else p.rest;
      DecodeFromSound(bitmap, types, i + 1, rest);
      var d, e := DecodeFrom(bitmap, types, i, data), DecodeFrom(bitmap, types, i + 1, rest);
      if d.Ok? {
        TakeCellSound(types[i], data);
        var v := if CheckBit(bitmap, i) then Null else p.value;
        NullIsSized(v);
        ReadAtIs(bitmap, types[i], i, v);
        ReadOneMore(bitmap, types, i, v, e.values, data, rest);
      }
    }
  }

  lemma {:induction false} NothingRead(bitmap: seq<byte>, types: seq<DataType>)
    ensures ReadAs(bitmap, types, |types|, []) && Cells([]) == []
  {}

  lemma {:induction false} ReadOneMore(bitmap: seq<byte>, types: seq<DataType>, i: nat, v: Value, values: seq<Value>,
                                       data: seq<byte>, rest: seq<byte>)
    requires i < |types| && ReadAt(bitmap, types[i], i, v) && ReadAs(bitmap, types, i + 1, values)
    requires data == Cell(v) + rest && Cells(values) <= rest
    ensures ReadAs(bitmap, types, i, [v] + values) && Cells([v] + values) <= data
  {
    hide ReadAt, Cell;
    var all := [v] + values;
    assert all[1..] == values;
    forall k | 0 <= k < |all| ensures ReadAt(bitmap, types[i + k], i + k, all[k]) {
      if k > 0 { assert ReadAt(bitmap, types[i + 1 + (k - 1)], i + 1 + (k - 1), values[k - 1]); }
    }
  }

  lemma {:induction false} ReadAtIs(bitmap: seq<byte>, t: DataType, i: nat, v: Value)
    requires HasType(v, t) && Sized(v) && i / 8 < |bitmap| && (v.Null? <==> CheckBit(bitmap, i))
    ensures ReadAt(bitmap, t, i, v)
  {}

  lemma {:induction false} NullIsSized(v: Value)
    ensures v.Null? ==> Sized(v) && Cell(v) == [] && forall t :: HasType(v, t)
  {}

  /**
    * Whatever the bytes are: a row that is read has the declared types, is null
    * exactly where the bitmap says so, and its other cells are the bytes behind.
    */
  lemma {:induction false} DecodedSound(data: seq<byte>, types: seq<DataType>)
    ensures var n, d := (|types| + 7) / 8, RowOf(data, types);
            d.Ok? ==> |data| >= n && Typed(d.values, types) && AllSized(d.values) && Cells(d.values) <= data[n..]
                      && forall i :: 0 <= i < |types| ==> ReadAt(data[..n], types[i], i, d.values[i])
  {
    hide CheckBit, Sized, HasType, Cells, DecodeFrom;
    var n := BitmapSize(|types|);
    if |data| >= n { DecodeFromSound(data[..n], types, 0, data[n..]); }
  }

  /** The decoder: one cursor through the data. */
  method DecodeRow(data: seq<byte>, types: seq<DataType>) returns (d: Decoded)
    ensures d == RowOf(data, types)
  {
    hide TakeCell, CheckBit;
    var size := BitmapSize(|types|);
    if |data| < size {
      return Truncated;
    }
    var bitmap := data[0..size];
    var current := size;
    var output: seq<Value> := [];
    assert bitmap == data[..size];
    for i := 0 to |types|
      invariant size <= current <= |data|
      invariant RowOf(data, types) == Then(output, DecodeFrom(bitmap, types, i, data[current..]))
    {
      if CheckBit(bitmap, i) {
        ThenThen(output, [Null], DecodeFrom(bitmap, types, i + 1, data[current..]));
        output := output + [Null];
        continue;
      }
      var p := TakeCell(types[i], data[current..]);
      if p.Short? {
        return Truncated;
      }
      ThenThen(output, [p.value], DecodeFrom(bitmap, types, i + 1, p.rest));
      CellRest(types[i], data[current..]);
      output := output + [p.value];
      current := |data| - |p.rest|;
    }
    d := Ok(output);
  }

  lemma {:induction false} ThenThen(a: seq<Value>, b: seq<Value>, d: Decoded)
    ensures Then(a, Then(b, d)) == Then(a + b, d)
  {
    if d.Ok? { assert a + (b + d.values) == a + b + d.values; }
  }

  /** Reading a cell leaves a suffix of the data. */
  lemma {:induction false} CellRest(t: DataType, data: seq<byte>)
    ensures var p := TakeCell(t, data); p.Parsed? ==> p.rest == data[|data| - |p.rest|..]
  {}

  // ----- decoding undoes encoding -----

  lemma {:induction false} DecodeCells(bitmap: seq<byte>, values: seq<Value>, types: seq<DataType>, i: nat,
                                       more: seq<byte>)
    requires Typed(values, types) && Marks(bitmap, values) && i <= |values| && AllSized(values)
    ensures DecodeFrom(bitmap, types, i, Cells(values[i..]) + more) == Ok(values[i..])
    decreases |values| - i
  {
    hide TakeCell, Cell, Sized, HasType, BitOf;
    if i < |values| {
      var v, rest := values[i], values[i + 1..];
      assert values[i..] == [v] + rest && values[i..][1..] == rest && i / 8 < |bitmap|;
      DecodeCells(bitmap, values, types, i + 1, more);
      assert v in values;
      if v.Null? {
        assert Cells(values[i..]) == Cells(rest) by { CellNull(); }
      } else {
        assert Cells(values[i..]) + more == Cell(v) + (Cells(rest) + more);
        TakeCellUndoes(types[i], v, Cells(rest) + more);
      }
    }
  }

  lemma {:induction false} CellNull()
    ensures Cell(Null) == []
  {}

  /** A row comes back, whatever follows it, exactly when its texts and blobs are shorter than 2^32. */
  lemma {:induction false} RowRoundTrip(data: seq<byte>, values: seq<Value>, types: seq<DataType>, more: seq<byte>)
    requires Typed(values, types) && Encodes(data, values)
    ensures RowOf(data + more, types) == Ok(values) <==> AllSized(values)
  {
    hide Cells, DecodeFrom, CheckBit, Sized, HasType;
    var n := BitmapSize(|types|);
    var bitmap := data[..n];
    assert (data + more)[..n] == bitmap && (data + more)[n..] == Cells(values) + more;
    assert values[0..] == values;
    if AllSized(values) {
      DecodeCells(bitmap, values, types, 0, more);
    } else {
      DecodedSound(data + more, types);
    }
  }

  lemma {:induction false} CutCells(bitmap: seq<byte>, values: seq<Value>, types: seq<DataType>, i: nat, k: nat)
    requires Typed(values, types) && Marks(bitmap, values) && i <= |values| && AllSized(values)
    requires k < |Cells(values[i..])|
    ensures DecodeFrom(bitmap, types, i, Cells(values[i..])[..k]) == Truncated
    decreases |values| - i
  {
    hide TakeCell, Cell, Sized;
    if i < |values| {
      var v, rest := values[i], values[i + 1..];
      assert values[i..] == [v] + rest && values[i..][1..] == rest && i / 8 < |bitmap|;
      assert v in values;
      var all := Cells(values[i..]);
      if v.Null? {
        assert all == Cells(rest) by { CellNull(); }
        CutCells(bitmap, values, types, i + 1, k);
      } else if k < |Cell(v)| {
        assert all[..k] == Cell(v)[..k];
        TakeCellShort(types[i], v, k);
      } else {
        var j := k - |Cell(v)|;
        assert all[..k] == Cell(v) + Cells(rest)[..j];
        TakeCellUndoes(types[i], v, Cells(rest)[..j]);
        CutCells(bitmap, values, types, i + 1, j);
      }
    }
  }

  /** A row cut short anywhere is reported as such, never misread. */
  lemma {:induction false} CutRow(data: seq<byte>, values: seq<Value>, types: seq<DataType>, k: nat)
    requires Typed(values, types) && Encodes(data, values) && AllSized(values) && k < |data|
    ensures RowOf(data[..k], types) == Truncated
  {
    var n := BitmapSize(|types|);
    if k >= n {
      assert data[..k][..n] == data[..n] && data[..k][n..] == data[n..][..k - n];
      assert values[0..] == values;
      CutCells(data[..n], values, types, 0, k - n);
    }
  }
}
