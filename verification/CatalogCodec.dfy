/** Table and index definitions as bytes (catalog/encoding.go). */
module CatalogCodec {
  import opened Keys
  import opened Bytes
  import opened Wire

  datatype Option<T> = None | Some(value: T)
  datatype Action = Restrict | Cascade | SetNull

  datatype ColumnDef = ColumnDef(name: Text, kind: DataType, primaryKey: bool, notNull: bool, default: Option<Value>)
  datatype ForeignKeyDef = ForeignKeyDef(column: Text, refTable: Text, refColumn: Text, onDelete: Action,
      onUpdate: Action)
  datatype TableDef = TableDef(name: Text, columns: seq<ColumnDef>, keys: seq<ForeignKeyDef>, root: nat)
  datatype IndexDef = IndexDef(name: Text, table: Text, column: Text, unique: bool, root: nat)

  const TABLE_KIND: byte := 1
  const INDEX_KIND: byte := 2

  /** What any definition in memory satisfies: defaults have their column's type, roots are page ids. */
  predicate WellTyped(d: TableDef) {
    d.root < 0x1_0000_0000 && forall c <- d.columns :: c.default.Some? ==> HasType(c.default.value, c.kind)
  }

  // ----- encoding -----

  function TypeByte(t: DataType): byte {
    match t case TypeInt => 0 case TypeFloat => 1 case TypeText => 2 case TypeBlob => 3
  }

  function ActionByte(a: Action): byte {
    match a case Restrict => 0 case Cascade => 1 case SetNull => 2
  }

  function Flags(c: ColumnDef): byte {
    (if c.primaryKey then 1 else 0) + (if c.notNull then 2 else 0) + (if c.default.Some? then 4 else 0)
  }

  function EncodeDefault(d: Option<Value>): seq<byte> {
    if d.None? then [] else if d.value.Null? then [1] else [0] + Cell(d.value)
  }

  function EncodeColumn(c: ColumnDef): seq<byte> {
    Str(c.name) + ([TypeByte(c.kind), Flags(c)] + EncodeDefault(c.default))
  }

  function EncodeColumns(cs: seq<ColumnDef>): seq<byte> {
    if cs == [] then [] else EncodeColumn(cs[0]) + EncodeColumns(cs[1..])
  }

  function EncodeKey(k: ForeignKeyDef): seq<byte> {
    Str(k.column) + (Str(k.refTable) + (Str(k.refColumn) + [ActionByte(k.onDelete), ActionByte(k.onUpdate)]))
  }

  function EncodeKeys(ks: seq<ForeignKeyDef>): seq<byte> {
    if ks == [] then [] else EncodeKey(ks[0]) + EncodeKeys(ks[1..])
  }

  /** Counts are cut to 16 bits, lengths to 32. */
  function TableBytes(d: TableDef): seq<byte>
    requires d.root < 0x1_0000_0000
  {
    [TABLE_KIND] + (Str(d.name) + (U16(|d.columns| % 0x1_0000) + (EncodeColumns(d.columns)
      + (U16(|d.keys| % 0x1_0000) + (EncodeKeys(d.keys) + U32(d.root))))))
  }

  function IndexBytes(d: IndexDef): seq<byte>
    requires d.root < 0x1_0000_0000
  {
    [INDEX_KIND] + (Str(d.name) + (Str(d.table) + (Str(d.column) + ([if d.unique then 1 else 0] + U32(d.root)))))
  }

  // ----- the layout -----

  /** The byte for a type, for a rule, and the three flag bits. */
  ghost predicate IsType(b: byte, t: DataType) {
    (t.TypeInt? && b == 0) || (t.TypeFloat? && b == 1) || (t.TypeText? && b == 2) || (t.TypeBlob? && b == 3)
  }

  ghost predicate IsAction(b: byte, a: Action) {
    (a.Restrict? && b == 0) || (a.Cascade? && b == 1) || (a.SetNull? && b == 2)
  }

  ghost predicate IsFlags(b: byte, c: ColumnDef) {
    b < 8 && (b % 2 == 1 <==> c.primaryKey) && (b / 2 % 2 == 1 <==> c.notNull) && (b / 4 == 1 <==> c.default.Some?)
  }

  ghost predicate IsDefault(b: seq<byte>, d: Option<Value>) {
    if d.None? then b == []
    else if d.value.Null? then b == [1]
    else b != [] && b[0] == 0 && IsCell(b[1..], d.value)
  }

  /** A name, its type, its flags and its default. */
  ghost predicate IsColumn(b: seq<byte>, c: ColumnDef) {
    var n := 4 + |c.name|;
    |b| >= n + 2 && IsText(b[..n], c.name) && IsType(b[n], c.kind) && IsFlags(b[n + 1], c)
        && IsDefault(b[n + 2..], c.default)
  }

  ghost predicate IsColumns(b: seq<byte>, cs: seq<ColumnDef>) {
    if cs == [] then b == [] else exists n :: 0 <= n <= |b| && IsColumn(b[..n], cs[0]) && IsColumns(b[n..], cs[1..])
  }

  /** Three names and the two rules, ON DELETE first. */
  ghost predicate IsKey(b: seq<byte>, k: ForeignKeyDef) {
    var x := 4 + |k.column|;
    var y := x + 4 + |k.refTable|;
    var z := y + 4 + |k.refColumn|;
    && |b| == z + 2 && IsText(b[..x], k.column) && IsText(b[x..y], k.refTable) && IsText(b[y..z], k.refColumn)
    && IsAction(b[z], k.onDelete) && IsAction(b[z + 1], k.onUpdate)
  }

  ghost predicate IsKeys(b: seq<byte>, ks: seq<ForeignKeyDef>) {
    if ks == [] then b == [] else exists n :: 0 <= n <= |b| && IsKey(b[..n], ks[0]) && IsKeys(b[n..], ks[1..])
  }

  lemma {:induction false} ColumnLayout(c: ColumnDef)
    ensures IsColumn(EncodeColumn(c), c)
  {
    hide IsText, IsCell, Str, Cell;
    var b, n := EncodeColumn(c), 4 + |c.name|;
    TextLayout(c.name);
    TextSize(c.name);
    assert b[..n] == Str(c.name) && b[n + 2..] == EncodeDefault(c.default);
    if c.default.Some? {
      CellLayout(c.default.value);
      if !c.default.value.Null? { assert b[n + 2..][1..] == Cell(c.default.value); }
    }
  }

  lemma {:induction false} TextSize(s: Text)
    ensures |Str(s)| == 4 + |s|
  {
  }

  lemma {:induction false} ColumnsLayout(cs: seq<ColumnDef>)
    ensures IsColumns(EncodeColumns(cs), cs)
  {
    hide IsColumn, EncodeColumn;
    if cs != [] {
      var e, b := EncodeColumn(cs[0]), EncodeColumns(cs);
      ColumnLayout(cs[0]);
      ColumnsLayout(cs[1..]);
      assert b[..|e|] == e && b[|e|..] == EncodeColumns(cs[1..]);
    }
  }

  lemma {:induction false} KeyLayout(k: ForeignKeyDef)
    ensures IsKey(EncodeKey(k), k)
  {
    hide IsText, Str;
    var b := EncodeKey(k);
    TextLayout(k.column);
    TextLayout(k.refTable);
    TextLayout(k.refColumn);
    TextSize(k.column);
    TextSize(k.refTable);
    TextSize(k.refColumn);
    var x := 4 + |k.column|;
    var y := x + 4 + |k.refTable|;
    var z := y + 4 + |k.refColumn|;
    assert b[..x] == Str(k.column) && b[x..y] == Str(k.refTable) && b[y..z] == Str(k.refColumn);
  }

  lemma {:induction false} KeysLayout(ks: seq<ForeignKeyDef>)
    ensures IsKeys(EncodeKeys(ks), ks)
  {
    hide IsKey, EncodeKey;
    if ks != [] {
      var e, b := EncodeKey(ks[0]), EncodeKeys(ks);
      KeyLayout(ks[0]);
      KeysLayout(ks[1..]);
      assert b[..|e|] == e && b[|e|..] == EncodeKeys(ks[1..]);
    }
  }

  /**
    * A table definition: the byte 1, its name, its columns behind their count,
    * its foreign keys behind theirs, its root page.
    */
  ghost predicate IsTable(b: seq<byte>, d: TableDef, x: nat, y: nat) {
    var n := 5 + |d.name|;
    && n + 2 <= x && x + 2 <= y && |b| == y + 4 && b[0] == 1 && IsText(b[1..n], d.name)
    && Number(b[n..n + 2]) == |d.columns| % 0x1_0000 && IsColumns(b[n + 2..x], d.columns)
    && Number(b[x..x + 2]) == |d.keys| % 0x1_0000 && IsKeys(b[x + 2..y], d.keys)
    && Number(b[y..]) == d.root
  }

  lemma {:induction false} TableLayout(d: TableDef) returns (x: nat, y: nat)
    requires d.root < 0x1_0000_0000
    ensures IsTable(TableBytes(d), d, x, y)
  {
    hide IsText, IsColumns, IsKeys, Str, EncodeColumns, EncodeKeys, Number, U16, U32;
    var b, n := TableBytes(d), 5 + |d.name|;
    TextLayout(d.name);
    TextSize(d.name);
    ColumnsLayout(d.columns);
    KeysLayout(d.keys);
    BigEndian16(|d.columns| % 0x1_0000);
    BigEndian16(|d.keys| % 0x1_0000);
    BigEndian32(d.root);
    x := n + 2 + |EncodeColumns(d.columns)|;
    y := x + 2 + |EncodeKeys(d.keys)|;
    TablePieces(d, b, n, x, y);
  }

  lemma {:induction false} TablePieces(d: TableDef, b: seq<byte>, n: nat, x: nat, y: nat)
    requires d.root < 0x1_0000_0000 && b == TableBytes(d) && n == 1 + |Str(d.name)|
    requires x == n + 2 + |EncodeColumns(d.columns)| && y == x + 2 + |EncodeKeys(d.keys)|
    ensures |b| == y + 4 && b[0] == 1 && b[1..n] == Str(d.name) && b[n..n + 2] == U16(|d.columns| % 0x1_0000)
    ensures b[n + 2..x] == EncodeColumns(d.columns) && b[x..x + 2] == U16(|d.keys| % 0x1_0000)
    ensures b[x + 2..y] == EncodeKeys(d.keys) && b[y..] == U32(d.root)
  {
    hide Str, EncodeColumns, EncodeKeys, U16, U32;
  }

  /** An index definition: the byte 2, three names, whether it is unique, its root page. */
  ghost predicate IsIndex(b: seq<byte>, d: IndexDef) {
    var x := 5 + |d.name|;
    var y := x + 4 + |d.table|;
    var z := y + 4 + |d.column|;
    && |b| == z + 5 && b[0] == 2 && IsText(b[1..x], d.name) && IsText(b[x..y], d.table) && IsText(b[y..z], d.column)
    && (b[z] == 1 || b[z] == 0) && (b[z] == 1 <==> d.unique) && Number(b[z + 1..]) == d.root
  }

  lemma {:induction false} IndexLayout(d: IndexDef)
    requires d.root < 0x1_0000_0000
    ensures IsIndex(IndexBytes(d), d)
  {
    hide IsText, Str, Number, U32;
    var b := IndexBytes(d);
    TextLayout(d.name);
    TextLayout(d.table);
    TextLayout(d.column);
    TextSize(d.name);
    TextSize(d.table);
    TextSize(d.column);
    BigEndian32(d.root);
    var x := 5 + |d.name|;
    var y := x + 4 + |d.table|;
    var z := y + 4 + |d.column|;
    assert b[1..x] == Str(d.name) && b[x..y] == Str(d.table) && b[y..z] == Str(d.column) && b[z + 1..] == U32(d.root);
  }

  // ----- decoding -----

  /** Unknown type bytes leave the zero type. */
  function ByteType(b: byte): DataType {
    if b == 1 then TypeFloat else if b == 2 then TypeText else if b == 3 then TypeBlob else TypeInt
  }

  function ByteAction(b: byte): Action {
    if b == 1 then Cascade else if b == 2 then SetNull else Restrict
  }

  predicate GetBit(b: byte, position: nat)
    requires position < 3
  {
    (if position == 0 then b else if position == 1 then b / 2 else b / 4) % 2 == 1
  }

  function TakeDefault(t: DataType, has: bool, data: seq<byte>): (p: Parsed<Option<Value>>)
    ensures p.Parsed? ==> |p.rest| <= |data|
  {
    if !has then Parsed(None, data)
    else if data == [] then Short
    else if data[0] != 0 then Parsed(Some(Null), data[1..])
    else
      var v := TakeCell(t, data[1..]);
      if v.Short? then Short else Parsed(Some(v.value), v.rest)
  }

  function TakeColumn(data: seq<byte>): (p: Parsed<ColumnDef>)
    ensures p.Parsed? ==> |p.rest| <= |data|
  {
    var name := TakeStr(data);
    if name.Short? || |name.rest| < 2 then Short else
    var t, flags := ByteType(name.rest[0]), name.rest[1];
    var d := TakeDefault(t, GetBit(flags, 2), name.rest[2..]);
    if d.Short? then Short
    else Parsed(ColumnDef(name.value, t, GetBit(flags, 0), GetBit(flags, 1), d.value), d.rest)
  }

  function TakeColumns(n: nat, data: seq<byte>): (p: Parsed<seq<ColumnDef>>)
    ensures p.Parsed? ==> |p.rest| <= |data|
  {
    if n == 0 then Parsed([], data) else
    var c := TakeColumn(data);
    if c.Short? then Short else
    var cs := TakeColumns(n - 1, c.rest);
    if cs.Short? then Short else Parsed([c.value] + cs.value, cs.rest)
  }

  function TakeKey(data: seq<byte>): (p: Parsed<ForeignKeyDef>)
    ensures p.Parsed? ==> |p.rest| <= |data|
  {
    var a := TakeStr(data);
    if a.Short? then Short else
    var b := TakeStr(a.rest);
    if b.Short? then Short else
    var c := TakeStr(b.rest);
    if c.Short? || |c.rest| < 2 then Short
    else Parsed(ForeignKeyDef(a.value, b.value, c.value, ByteAction(c.rest[0]), ByteAction(c.rest[1])), c.rest[2..])
  }

  function TakeKeys(n: nat, data: seq<byte>): (p: Parsed<seq<ForeignKeyDef>>)
    ensures p.Parsed? ==> |p.rest| <= |data|
  {
    if n == 0 then Parsed([], data) else
    var k := TakeKey(data);
    if k.Short? then Short else
    var ks := TakeKeys(n - 1, k.rest);
    if ks.Short? then Short else Parsed([k.value] + ks.value, ks.rest)
  }

  /** Running past the end of the data is a panic in the original. */
  datatype Outcome<T> = Ok(value: T) | WrongKind | Panic

  function TableOf(data: seq<byte>): Outcome<TableDef> {
    if data == [] then Panic
    else if data[0] != TABLE_KIND then WrongKind
    else
      var name := TakeStr(data[1..]);
      if name.Short? then Panic else
      var n := Take16(name.rest);
      if n.Short? then Panic else
      var cs := TakeColumns(n.value, n.rest);
      if cs.Short? then Panic else
      var k := Take16(cs.rest);
      if k.Short? then Panic else
      var ks := TakeKeys(k.value, k.rest);
      if ks.Short? then Panic else
      var root := Take32(ks.rest);
      if root.Short? then Panic else Ok(TableDef(name.value, cs.value, ks.value, root.value))
  }

  function IndexOf(data: seq<byte>): Outcome<IndexDef> {
    if data == [] then Panic
    else if data[0] != INDEX_KIND then WrongKind
    else
      var name := TakeStr(data[1..]);
      if name.Short? then Panic else
      var table := TakeStr(name.rest);
      if table.Short? then Panic else
      var column := TakeStr(table.rest);
      if column.Short? || column.rest == [] then Panic else
      var root := Take32(column.rest[1..]);
      if root.Short? then Panic
      else Ok(IndexDef(name.value, table.value, column.value, column.rest[0] == 1, root.value))
  }

  // ----- sizes the format can hold -----

  predicate ShortText(s: Text) { |s| < 0x1_0000_0000 }

  predicate ColumnFits(c: ColumnDef) { ShortText(c.name) && (c.default.Some? ==> Sized(c.default.value)) }

  predicate KeyFits(k: ForeignKeyDef) { ShortText(k.column) && ShortText(k.refTable) && ShortText(k.refColumn) }

  predicate TableFits(d: TableDef) {
    ShortText(d.name) && |d.columns| < 0x1_0000 && |d.keys| < 0x1_0000
    && (forall c <- d.columns :: ColumnFits(c)) && (forall k <- d.keys :: KeyFits(k))
  }

  predicate IndexFits(d: IndexDef) { ShortText(d.name) && ShortText(d.table) && ShortText(d.column) }

  // ----- decoding undoes encoding -----

  lemma {:induction false} FlagsRead(c: ColumnDef)
    ensures GetBit(Flags(c), 0) == c.primaryKey && GetBit(Flags(c), 1) == c.notNull
            && GetBit(Flags(c), 2) == c.default.Some?
  {}

  lemma {:induction false} DefaultReads(t: DataType, d: Option<Value>, rest: seq<byte>)
    requires d.Some? ==> HasType(d.value, t) && Sized(d.value)
    ensures TakeDefault(t, d.Some?, EncodeDefault(d) + rest) == Parsed(d, rest)
  {
    hide TakeCell, Cell;
    if d.None? {
      assert EncodeDefault(d) + rest == rest;
    } else if d.value.Null? {
      assert ([1] + rest)[1..] == rest;
    } else {
      var data := EncodeDefault(d) + rest;
      assert data[0] == 0 && data[1..] == Cell(d.value) + rest;
      TakeCellUndoes(t, d.value, rest);
    }
  }

  lemma {:induction false} ColumnReads(c: ColumnDef, rest: seq<byte>)
    requires ColumnFits(c) && (c.default.Some? ==> HasType(c.default.value, c.kind))
    ensures TakeColumn(EncodeColumn(c) + rest) == Parsed(c, rest)
  {
    hide TakeStr, Str, TakeDefault, EncodeDefault, GetBit, Flags;
    var tail := EncodeDefault(c.default) + rest;
    var two := [TypeByte(c.kind), Flags(c)] + tail;
    assert EncodeColumn(c) + rest == Str(c.name) + two;
    TakeStrUndoes(c.name, two);
    assert two[2..] == tail;
    FlagsRead(c);
    DefaultReads(c.kind, c.default, rest);
  }

  lemma {:induction false} ColumnsRead(cs: seq<ColumnDef>, rest: seq<byte>)
    requires forall c <- cs :: ColumnFits(c) && (c.default.Some? ==> HasType(c.default.value, c.kind))
    ensures TakeColumns(|cs|, EncodeColumns(cs) + rest) == Parsed(cs, rest)
  {
    hide TakeColumn, EncodeColumn, ColumnFits;
    if cs == [] {
      assert EncodeColumns(cs) + rest == rest;
    } else {
      assert EncodeColumns(cs) + rest == EncodeColumn(cs[0]) + (EncodeColumns(cs[1..]) + rest);
      ColumnReads(cs[0], EncodeColumns(cs[1..]) + rest);
      ColumnsRead(cs[1..], rest);
      assert [cs[0]] + cs[1..] == cs;
    }
  }

  lemma {:induction false} KeyReads(k: ForeignKeyDef, rest: seq<byte>)
    requires KeyFits(k)
    ensures TakeKey(EncodeKey(k) + rest) == Parsed(k, rest)
  {
    hide TakeStr, Str;
    var two := [ActionByte(k.onDelete), ActionByte(k.onUpdate)] + rest;
    assert EncodeKey(k) + rest == Str(k.column) + (Str(k.refTable) + (Str(k.refColumn) + two));
    TakeStrUndoes(k.column, Str(k.refTable) + (Str(k.refColumn) + two));
    TakeStrUndoes(k.refTable, Str(k.refColumn) + two);
    TakeStrUndoes(k.refColumn, two);
    assert two[2..] == rest;
  }

  lemma {:induction false} KeysRead(ks: seq<ForeignKeyDef>, rest: seq<byte>)
    requires forall k <- ks :: KeyFits(k)
    ensures TakeKeys(|ks|, EncodeKeys(ks) + rest) == Parsed(ks, rest)
  {
    hide TakeKey, EncodeKey, KeyFits;
    if ks == [] {
      assert EncodeKeys(ks) + rest == rest;
    } else {
      assert EncodeKeys(ks) + rest == EncodeKey(ks[0]) + (EncodeKeys(ks[1..]) + rest);
      KeyReads(ks[0], EncodeKeys(ks[1..]) + rest);
      KeysRead(ks[1..], rest);
      assert [ks[0]] + ks[1..] == ks;
    }
  }

  lemma {:induction false} TableReads(d: TableDef)
    requires WellTyped(d) && TableFits(d)
    ensures TableOf(TableBytes(d)) == Ok(d)
  {
    hide TakeStr, Str, Take16, U16, Take32, U32, TakeColumns, EncodeColumns, TakeKeys, EncodeKeys;
    var root := U32(d.root);
    assert root == root + [];
    var keys := EncodeKeys(d.keys) + root;
    var count := U16(|d.keys|) + keys;
    var columns := EncodeColumns(d.columns) + count;
    var after := U16(|d.columns|) + columns;
    assert |d.columns| % 0x1_0000 == |d.columns| && |d.keys| % 0x1_0000 == |d.keys|;
    assert TableBytes(d) == [TABLE_KIND] + (Str(d.name) + after);
    assert ([TABLE_KIND] + (Str(d.name) + after))[1..] == Str(d.name) + after;
    TakeStrUndoes(d.name, after);
    Take16Undoes(|d.columns|, columns);
    ColumnsRead(d.columns, count);
    Take16Undoes(|d.keys|, keys);
    KeysRead(d.keys, root);
    Take32Undoes(d.root, []);
  }

  // ----- what can be decoded at all -----

  lemma {:induction false} ColumnsFit(n: nat, data: seq<byte>)
    ensures var p := TakeColumns(n, data); p.Parsed? ==> |p.value| == n && forall c <- p.value :: ColumnFits(c)
  {
    if n > 0 {
      var c := TakeColumn(data);
      ColumnFit(data);
      if c.Parsed? { ColumnsFit(n - 1, c.rest); }
    }
  }

  lemma {:induction false} ColumnFit(data: seq<byte>)
    ensures var p := TakeColumn(data); p.Parsed? ==> ColumnFits(p.value)
  {
    hide TakeStr, TakeCell;
    var name := TakeStr(data);
    if name.Parsed? && |name.rest| > 2 { TakeCellSized(ByteType(name.rest[0]), name.rest[2..][1..]); }
  }

  lemma {:induction false} KeysFit(n: nat, data: seq<byte>)
    ensures var p := TakeKeys(n, data); p.Parsed? ==> |p.value| == n && forall k <- p.value :: KeyFits(k)
  {
    hide TakeStr;
    if n > 0 {
      var k := TakeKey(data);
      if k.Parsed? { KeysFit(n - 1, k.rest); }
    }
  }

  lemma {:induction false} TableFit(data: seq<byte>)
    ensures TableOf(data).Ok? ==> TableFits(TableOf(data).value)
  {
    hide TakeStr, Take16, Take32, TakeColumns, TakeKeys, ColumnFits, KeyFits;
    if data != [] && data[0] == TABLE_KIND {
      var name := TakeStr(data[1..]);
      if name.Parsed? {
        var n := Take16(name.rest);
        if n.Parsed? {
          ColumnsFit(n.value, n.rest);
          var cs := TakeColumns(n.value, n.rest);
          if cs.Parsed? {
            var k := Take16(cs.rest);
            if k.Parsed? { KeysFit(k.value, k.rest); }
          }
        }
      }
    }
  }

  /** A table definition comes back exactly when its counts and lengths fit their fields. */
  lemma {:induction false} TableRoundTrip(d: TableDef)
    requires WellTyped(d)
    ensures TableOf(TableBytes(d)) == Ok(d) <==> TableFits(d)
  {
    hide TableOf, TableBytes, TableFits;
    TableFit(TableBytes(d));
    if TableFits(d) { TableReads(d); }
  }

  lemma {:induction false} IndexReads(d: IndexDef)
    requires d.root < 0x1_0000_0000 && IndexFits(d)
    ensures IndexOf(IndexBytes(d)) == Ok(d)
  {
    hide TakeStr, Str, Take32, U32;
    var root := U32(d.root);
    var last := [if d.unique then 1 else 0] + root;
    assert root == root + [] && last[1..] == root;
    assert ([INDEX_KIND] + (Str(d.name) + (Str(d.table) + (Str(d.column) + last))))[1..]
           == Str(d.name) + (Str(d.table) + (Str(d.column) + last));
    TakeStrUndoes(d.name, Str(d.table) + (Str(d.column) + last));
    TakeStrUndoes(d.table, Str(d.column) + last);
    TakeStrUndoes(d.column, last);
    Take32Undoes(d.root, []);
  }

  /** The same for an index definition. */
  lemma {:induction false} IndexRoundTrip(d: IndexDef)
    requires d.root < 0x1_0000_0000
    ensures IndexOf(IndexBytes(d)) == Ok(d) <==> IndexFits(d)
  {
    if IndexFits(d) {
      IndexReads(d);
    } else {
      IndexFit(IndexBytes(d));
    }
  }

  lemma {:induction false} IndexFit(data: seq<byte>)
    ensures IndexOf(data).Ok? ==> IndexFits(IndexOf(data).value)
  {
    hide TakeStr, Take32;
  }

  // ----- the loops of the encoder and the decoder -----

  lemma {:induction false} ColumnsConcat(a: seq<ColumnDef>, b: seq<ColumnDef>)
    ensures EncodeColumns(a + b) == EncodeColumns(a) + EncodeColumns(b)
  {
    if a == [] {
      assert a + b == b;
    } else {
      assert (a + b)[1..] == a[1..] + b;
      ColumnsConcat(a[1..], b);
    }
  }

  lemma {:induction false} KeysConcat(a: seq<ForeignKeyDef>, b: seq<ForeignKeyDef>)
    ensures EncodeKeys(a + b) == EncodeKeys(a) + EncodeKeys(b)
  {
    if a == [] {
      assert a + b == b;
    } else {
      assert (a + b)[1..] == a[1..] + b;
      KeysConcat(a[1..], b);
    }
  }

  method AppendColumns(buffer: seq<byte>, columns: seq<ColumnDef>) returns (b: seq<byte>)
    ensures b == buffer + EncodeColumns(columns)
  {
    hide EncodeColumn;
    b := buffer;
    for i := 0 to |columns|
      invariant b == buffer + EncodeColumns(columns[..i])
    {
      OneMoreColumn(columns, i);
      b := b + EncodeColumn(columns[i]);
    }
    assert columns[..|columns|] == columns;
  }

  method AppendKeys(buffer: seq<byte>, keys: seq<ForeignKeyDef>) returns (b: seq<byte>)
    ensures b == buffer + EncodeKeys(keys)
  {
    hide EncodeKey;
    b := buffer;
    for i := 0 to |keys|
      invariant b == buffer + EncodeKeys(keys[..i])
    {
      OneMoreKey(keys, i);
      b := b + EncodeKey(keys[i]);
    }
    assert keys[..|keys|] == keys;
  }

  method EncodeTableDef(d: TableDef) returns (buffer: seq<byte>)
    requires WellTyped(d)
    ensures buffer == TableBytes(d)
    ensures TableOf(buffer) == Ok(d) <==> TableFits(d)
  {
    hide Str, U16, U32, EncodeColumns, EncodeKeys, TableOf, TableFits;
    TableRoundTrip(d);
    buffer := [TABLE_KIND] + Str(d.name) + U16(|d.columns| % 0x1_0000);
    buffer := AppendColumns(buffer, d.columns);
    buffer := buffer + U16(|d.keys| % 0x1_0000);
    buffer := AppendKeys(buffer, d.keys);
    buffer := buffer + U32(d.root);
  }

  lemma {:induction false} OneMoreColumn(cs: seq<ColumnDef>, i: nat)
    requires i < |cs|
    ensures EncodeColumns(cs[..i + 1]) == EncodeColumns(cs[..i]) + EncodeColumn(cs[i])
  {
    assert cs[..i + 1] == cs[..i] + [cs[i]];
    ColumnsConcat(cs[..i], [cs[i]]);
    assert EncodeColumns([cs[i]]) == EncodeColumn(cs[i]);
  }

  lemma {:induction false} OneMoreKey(ks: seq<ForeignKeyDef>, i: nat)
    requires i < |ks|
    ensures EncodeKeys(ks[..i + 1]) == EncodeKeys(ks[..i]) + EncodeKey(ks[i])
  {
    assert ks[..i + 1] == ks[..i] + [ks[i]];
    KeysConcat(ks[..i], [ks[i]]);
    assert EncodeKeys([ks[i]]) == EncodeKey(ks[i]);
  }

  function Before<T>(done: seq<T>, p: Parsed<seq<T>>): Parsed<seq<T>> {
    if p.Short? then Short else Parsed(done + p.value, p.rest)
  }

  lemma {:induction false} BeforeBefore<T>(a: seq<T>, x: T, p: Parsed<seq<T>>)
    ensures Before(a, Before([x], p)) == Before(a + [x], p)
  {
    if p.Parsed? { assert a + ([x] + p.value) == a + [x] + p.value; }
  }

  lemma {:induction false} BeforeEdges<T>(done: seq<T>, p: Parsed<seq<T>>, rest: seq<byte>)
    ensures Before([], p) == p && Before(done, Parsed([], rest)) == Parsed(done, rest)
  {
    assert done + [] == done;
    if p.Parsed? { assert [] + p.value == p.value; }
  }

  method ReadColumns(n: nat, data: seq<byte>) returns (p: Parsed<seq<ColumnDef>>)
    ensures p == TakeColumns(n, data)
  {
    hide TakeColumn;
    var columns: seq<ColumnDef>, rest := [], data;
    BeforeEdges([], TakeColumns(n, data), data);
    for i := 0 to n
      invariant TakeColumns(n, data) == Before(columns, TakeColumns(n - i, rest))
    {
      var c := TakeColumn(rest);
      if c.Short? {
        return Short;
      }
      BeforeBefore(columns, c.value, TakeColumns(n - i - 1, c.rest));
      columns, rest := columns + [c.value], c.rest;
    }
    BeforeEdges(columns, TakeColumns(n, data), rest);
    p := Parsed(columns, rest);
  }

  method ReadKeys(n: nat, data: seq<byte>) returns (p: Parsed<seq<ForeignKeyDef>>)
    ensures p == TakeKeys(n, data)
  {
    hide TakeKey;
    var keys: seq<ForeignKeyDef>, rest := [], data;
    BeforeEdges([], TakeKeys(n, data), data);
    for i := 0 to n
      invariant TakeKeys(n, data) == Before(keys, TakeKeys(n - i, rest))
    {
      var k := TakeKey(rest);
      if k.Short? {
        return Short;
      }
      BeforeBefore(keys, k.value, TakeKeys(n - i - 1, k.rest));
      keys, rest := keys + [k.value], k.rest;
    }
    BeforeEdges(keys, TakeKeys(n, data), rest);
    p := Parsed(keys, rest);
  }

  /** The decoder, column by column and key by key. */
  method DecodeTableDef(data: seq<byte>) returns (o: Outcome<TableDef>)
    ensures o == TableOf(data)
  {
    hide TakeStr, Take16, Take32, TakeColumns, TakeKeys;
    if data == [] {
      return Panic;
    }
    if data[0] != TABLE_KIND {
      return WrongKind;
    }
    var name := TakeStr(data[1..]);
    if name.Short? {
      return Panic;
    }
    var n := Take16(name.rest);
    if n.Short? {
      return Panic;
    }
    var cs := ReadColumns(n.value, n.rest);
    if cs.Short? {
      return Panic;
    }
    var k := Take16(cs.rest);
    if k.Short? {
      return Panic;
    }
    var ks := ReadKeys(k.value, k.rest);
    if ks.Short? {
      return Panic;
    }
    var root := Take32(ks.rest);
    o := if root.Short? then Panic else Ok(TableDef(name.value, cs.value, ks.value, root.value));
  }
}
