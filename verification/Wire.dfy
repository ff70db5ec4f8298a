/** Length-prefixed strings and typed values on the wire (executor/row.go, catalog/encoding.go). */
module Wire {
  import opened Keys
  import opened Bytes

  type Text = seq<byte>

  datatype DataType = TypeInt | TypeFloat | TypeText | TypeBlob

  type Int64 = i: int | -0x8000_0000_0000_0000 <= i < 0x8000_0000_0000_0000
  type Bits64 = i: nat | i < 0x1_0000_0000_0000_0000

  /** One cell; a float is its bit pattern. */
  datatype Value = Null | IntV(i: Int64) | FloatV(bits: Bits64) | TextV(text: Text) | BlobV(blob: Text)

  predicate HasType(v: Value, t: DataType) {
    match v
    case Null => true
    case IntV(_) => t.TypeInt?
    case FloatV(_) => t.TypeFloat?
    case TextV(_) => t.TypeText?
    case BlobV(_) => t.TypeBlob?
  }

  // ----- int64 as uint64 -----

  function ToBits(i: Int64): Bits64 { if i < 0 then i + 0x1_0000_0000_0000_0000 else i }
  function FromBits(b: Bits64): Int64 { if b >= 0x8000_0000_0000_0000 then b - 0x1_0000_0000_0000_0000 else b }

  // ----- reading from the front of a byte string -----

  /** A value and what follows it, or not enough bytes. */
  datatype Parsed<T> = Parsed(value: T, rest: seq<byte>) | Short

  function Take(data: seq<byte>, n: nat): (p: Parsed<seq<byte>>)
    ensures p.Parsed? ==> |p.value| == n && data == p.value + p.rest
    ensures p.Short? <==> |data| < n
  {
    if |data| < n then Short else Parsed(data[..n], data[n..])
  }

  function Take16(data: seq<byte>): (p: Parsed<nat>)
    ensures p.Parsed? ==> p.value < 0x1_0000 && |p.rest| == |data| - 2
  {
    var p := Take(data, 2);
    if p.Short? then Short else Parsed(Get16(p.value), p.rest)
  }

  function Take32(data: seq<byte>): (p: Parsed<nat>)
    ensures p.Parsed? ==> p.value < 0x1_0000_0000 && |p.rest| == |data| - 4
  {
    var p := Take(data, 4);
    if p.Short? then Short else Parsed(Get32(p.value), p.rest)
  }

  function Take64(data: seq<byte>): (p: Parsed<Bits64>)
    ensures p.Parsed? ==> |p.rest| == |data| - 8
  {
    var p := Take(data, 8);
    if p.Short? then Short else Parsed(Get64(p.value), p.rest)
  }

  /** A string behind its length, which is cut to 32 bits. */
  function Str(s: Text): seq<byte> { U32(|s| % 0x1_0000_0000) + s }

  function TakeStr(data: seq<byte>): (p: Parsed<Text>)
    ensures p.Parsed? ==> |p.value| < 0x1_0000_0000 && |p.rest| == |data| - 4 - |p.value|
  {
    var n := Take32(data);
    if n.Short? then Short else Take(n.rest, n.value)
  }

  lemma {:induction false} TakeFront(a: seq<byte>, rest: seq<byte>)
    ensures Take(a + rest, |a|) == Parsed(a, rest)
  {
    assert (a + rest)[..|a|] == a && (a + rest)[|a|..] == rest;
  }

  lemma {:induction false} Take16Undoes(v: nat, rest: seq<byte>)
    requires v < 0x1_0000
    ensures Take16(U16(v) + rest) == Parsed(v, rest)
  {
    TakeFront(U16(v), rest);
    RoundTrip16(v, U16(v));
  }

  lemma {:induction false} Take32Undoes(v: nat, rest: seq<byte>)
    requires v < 0x1_0000_0000
    ensures Take32(U32(v) + rest) == Parsed(v, rest)
  {
    hide U32, Get32;
    TakeFront(U32(v), rest);
    RoundTrip32(v, U32(v));
  }

  lemma {:induction false} Take64Undoes(v: Bits64, rest: seq<byte>)
    ensures Take64(U64(v) + rest) == Parsed(v, rest)
  {
    hide U64, Get64;
    TakeFront(U64(v), rest);
    RoundTrip64(v, U64(v));
  }

  lemma {:induction false} TakeStrUndoes(s: Text, rest: seq<byte>)
    requires |s| < 0x1_0000_0000
    ensures TakeStr(Str(s) + rest) == Parsed(s, rest)
  {
    hide U32, Take32, Take;
    assert |s| % 0x1_0000_0000 == |s|;
    assert Str(s) + rest == U32(|s|) + (s + rest);
    Take32Undoes(|s|, s + rest);
    TakeFront(s, rest);
  }

  /** Any proper prefix of a string's encoding is too short. */
  lemma {:induction false} TakeStrShort(s: Text, k: nat)
    requires |s| < 0x1_0000_0000 && k < |Str(s)|
    ensures TakeStr(Str(s)[..k]).Short?
  {
    hide U32;
    assert |s| % 0x1_0000_0000 == |s|;
    if k >= 4 {
      assert Str(s)[..k] == U32(|s|) + s[..k - 4];
      Take32Undoes(|s|, s[..k - 4]);
    }
  }

  // ----- typed values -----

  /** What a non-null cell adds to the output. */
  function Cell(v: Value): seq<byte> {
    match v
    case Null => []
    case IntV(i) => U64(ToBits(i))
    case FloatV(b) => U64(b)
    case TextV(s) => Str(s)
    case BlobV(s) => Str(s)
  }

  /** A string's bytes: its length cut to 32 bits, big-endian, and then the string. */
  ghost predicate IsText(b: seq<byte>, s: Text) {
    |b| == 4 + |s| && Number(b[..4]) == |s| % 0x1_0000_0000 && b[4..] == s
  }

  /** A cell's bytes: two's complement or the bits of the float in 8 big-endian bytes, or a string. */
  ghost predicate IsCell(b: seq<byte>, v: Value) {
    match v
    case Null => b == []
    case IntV(i) => |b| == 8 && (Number(b) - i) % 0x1_0000_0000_0000_0000 == 0
    case FloatV(bits) => |b| == 8 && Number(b) == bits
    case TextV(s) => IsText(b, s)
    case BlobV(s) => IsText(b, s)
  }

  lemma {:induction false} TextLayout(s: Text)
    ensures IsText(Str(s), s)
  {
    hide U32, Number;
    BigEndian32(|s| % 0x1_0000_0000);
    assert Str(s)[..4] == U32(|s| % 0x1_0000_0000);
  }

  lemma {:induction false} CellLayout(v: Value)
    ensures IsCell(Cell(v), v)
  {
    hide U64, Number, Str, IsText;
    match v
    case Null =>
    case IntV(i) => BigEndian64(ToBits(i));
    case FloatV(b) => BigEndian64(b);
    case TextV(s) => TextLayout(s);
    case BlobV(s) => TextLayout(s);
  }

  function TakeCell(t: DataType, data: seq<byte>): (p: Parsed<Value>)
    ensures p.Parsed? ==> HasType(p.value, t) && !p.value.Null? && |p.rest| < |data|
  {
    if t.TypeInt? || t.TypeFloat? then
      var p := Take64(data);
      if p.Short? then Short else Parsed(if t.TypeInt? then IntV(FromBits(p.value)) else FloatV(p.value), p.rest)
    else
      var p := TakeStr(data);
      if p.Short? then Short else Parsed(if t.TypeText? then TextV(p.value) else BlobV(p.value), p.rest)
  }

  /** The length of a text or blob fits its length field. */
  predicate Sized(v: Value) { (v.TextV? ==> |v.text| < 0x1_0000_0000) && (v.BlobV? ==> |v.blob| < 0x1_0000_0000) }

  lemma {:induction false} TakeCellUndoes(t: DataType, v: Value, rest: seq<byte>)
    requires HasType(v, t) && !v.Null? && Sized(v)
    ensures TakeCell(t, Cell(v) + rest) == Parsed(v, rest)
  {
    hide U64, U32, Take64, TakeStr, Str;
    match v
    case IntV(i) => Take64Undoes(ToBits(i), rest);
    case FloatV(b) => Take64Undoes(b, rest);
    case TextV(s) => TakeStrUndoes(s, rest);
    case BlobV(s) => TakeStrUndoes(s, rest);
  }

  lemma {:induction false} TakeCellShort(t: DataType, v: Value, k: nat)
    requires HasType(v, t) && !v.Null? && Sized(v) && k < |Cell(v)|
    ensures TakeCell(t, Cell(v)[..k]).Short?
  {
    hide U64, U32;
    match v
    case IntV(i) => assert |Cell(v)| == 8;
    case FloatV(b) => assert |Cell(v)| == 8;
    case TextV(s) => TakeStrShort(s, k);
    case BlobV(s) => TakeStrShort(s, k);
  }

  lemma {:induction false} TakeStrSound(data: seq<byte>)
    ensures var p := TakeStr(data); p.Parsed? ==> data == Str(p.value) + p.rest
  {
    hide U32, Get32;
    if TakeStr(data).Parsed? { RoundTrip32(0, data[..4]); }
  }

  /** What is read from arbitrary bytes is what is written there. */
  lemma {:induction false} TakeCellSound(t: DataType, data: seq<byte>)
    ensures var p := TakeCell(t, data); p.Parsed? ==> Sized(p.value) && data == Cell(p.value) + p.rest
  {
    hide U64, Get64, TakeStr, Str;
    if t.TypeInt? || t.TypeFloat? {
      if |data| >= 8 { RoundTrip64(0, data[..8]); }
    } else {
      TakeStrSound(data);
    }
  }

  lemma {:induction false} TakeCellSized(t: DataType, data: seq<byte>)
    ensures TakeCell(t, data).Parsed? ==> Sized(TakeCell(t, data).value)
  {}
}
