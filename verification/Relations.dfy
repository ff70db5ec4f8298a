/** Tables, foreign keys and secondary indexes as values, and what it means for them to agree. */
module Relations {
  type Name = string
  /** What can be stored under a key: the bytes of an integer or a text. */
  type Key = string

  datatype Value = Null | Val(key: Key)
  type Row = seq<Value>

  datatype FKAction = Restrict | Cascade | SetNull

  /** A column of this table holds primary keys of the parent. */
  datatype ForeignKey = ForeignKey(col: nat, parent: Name, onDelete: FKAction, onUpdate: FKAction)
  datatype IndexDef = IndexDef(name: Name, col: nat)
  datatype Column = Column(notNull: bool, keyable: bool)
  datatype TableDef = TableDef(columns: seq<Column>, pk: nat, fks: seq<ForeignKey>, indexes: seq<IndexDef>)
  type Schema = map<Name, TableDef>

  type Rows = map<Key, Row>
  type Data = map<Name, Rows>
  type IndexMap = map<Key, Key>
  type Indexes = map<Name, IndexMap>

  // ----- schemas -----

  /** A numbering of the tables in which every child comes before its parents. */
  ghost predicate Ranked(s: Schema, rank: map<Name, nat>) {
    (forall t :: t in s ==> t in rank)
    && forall t, i :: t in s && 0 <= i < |s[t].fks| ==> s[t].fks[i].parent in s && rank[t] < rank[s[t].fks[i].parent]
  }

  ghost predicate TableOk(def: TableDef) {
    && def.pk < |def.columns|
    && (forall i :: 0 <= i < |def.fks| ==> def.fks[i].col < |def.columns| && def.fks[i].col != def.pk)
    && (forall i, j :: 0 <= i < j < |def.fks| ==> def.fks[i].col != def.fks[j].col)
    && (forall i :: 0 <= i < |def.indexes| ==> def.indexes[i].col < |def.columns|)
    && (forall i, j :: 0 <= i < j < |def.indexes| ==> def.indexes[i].name != def.indexes[j].name)
  }

  ghost predicate SchemaOk(s: Schema, rank: map<Name, nat>) {
    && Ranked(s, rank)
    && (forall t :: t in s ==> TableOk(s[t]))
    && (forall t, u, i, j :: t in s && u in s && t != u && 0 <= i < |s[t].indexes| && 0 <= j < |s[u].indexes|
          ==> s[t].indexes[i].name != s[u].indexes[j].name)
  }

  // ----- data -----

  ghost predicate RowOk(def: TableDef, k: Key, r: Row) {
    |r| == |def.columns| && def.pk < |r| && r[def.pk] == Val(k)
  }

  ghost predicate RowsOk(def: TableDef, rows: Rows) {
    forall k :: k in rows ==> RowOk(def, k, rows[k])
  }

  ghost predicate DataOk(s: Schema, d: Data) {
    d.Keys == s.Keys && forall t :: t in s ==> RowsOk(s[t], d[t])
  }

  /** No row of the table has the key in the column. */
  ghost predicate NoRef(rows: Rows, col: nat, v: Key) {
    forall k :: k in rows ==> col < |rows[k]| && rows[k][col] != Val(v)
  }

  /** No row refers to the key of the parent through one of the first `n` foreign keys. */
  ghost predicate NoRefUpTo(def: TableDef, rows: Rows, parent: Name, v: Key, n: nat) {
    forall i :: 0 <= i < n && i < |def.fks| && def.fks[i].parent == parent ==> NoRef(rows, def.fks[i].col, v)
  }

  ghost predicate TableNoRef(def: TableDef, rows: Rows, parent: Name, v: Key) {
    NoRefUpTo(def, rows, parent, v, |def.fks|)
  }

  /** No row of any table refers to the key of the parent. */
  ghost predicate NoRefs(s: Schema, d: Data, parent: Name, v: Key) {
    forall t :: t in s && t in d ==> TableNoRef(s[t], d[t], parent, v)
  }

  /** Every reference of one foreign key has its parent row. */
  ghost predicate FkOk(d: Data, rows: Rows, fk: ForeignKey) {
    fk.parent in d && forall k :: k in rows ==> fk.col < |rows[k]| && (rows[k][fk.col].Val? ==> rows[k][fk.col].key in d[fk.parent])
  }

  ghost predicate Integrity(s: Schema, d: Data) {
    forall t, i :: t in s && t in d && 0 <= i < |s[t].fks| ==> FkOk(d, d[t], s[t].fks[i])
  }

  // ----- what deleting may do -----

  /** The same row, some columns nulled. */
  ghost predicate RowShrinks(a: Row, b: Row) {
    |a| == |b| && forall c :: 0 <= c < |a| ==> b[c] == a[c] || b[c] == Null
  }

  ghost predicate RowsShrink(a: Rows, b: Rows) {
    forall k :: k in b ==> k in a && RowShrinks(a[k], b[k])
  }

  /** Rows gone or columns nulled, nothing else. */
  ghost predicate Shrinks(a: Data, b: Data) {
    a.Keys == b.Keys && forall t :: t in b ==> RowsShrink(a[t], b[t])
  }

  lemma {:induction false} ShrinksAgain(a: Data, b: Data, c: Data)
    requires Shrinks(a, b) && Shrinks(b, c)
    ensures Shrinks(a, c)
  {
    forall t | t in c ensures RowsShrink(a[t], c[t]) {
      assert RowsShrink(b[t], c[t]) && RowsShrink(a[t], b[t]);
      forall k | k in c[t] ensures k in a[t] && RowShrinks(a[t][k], c[t][k]) {
        assert RowShrinks(b[t][k], c[t][k]) && RowShrinks(a[t][k], b[t][k]);
      }
    }
  }

  lemma {:induction false} ShrinksSelf(a: Data)
    ensures Shrinks(a, a)
  {
  }

  lemma {:induction false} NoRefShrinks(a: Rows, b: Rows, col: nat, v: Key)
    requires NoRef(a, col, v) && RowsShrink(a, b)
    ensures NoRef(b, col, v)
  {
    forall k | k in b ensures col < |b[k]| && b[k][col] != Val(v) {
      assert RowShrinks(a[k], b[k]);
    }
  }

  lemma {:induction false} NoRefUpToShrinks(def: TableDef, a: Rows, b: Rows, parent: Name, v: Key, n: nat)
    requires NoRefUpTo(def, a, parent, v, n) && RowsShrink(a, b)
    ensures NoRefUpTo(def, b, parent, v, n)
  {
    forall i | 0 <= i < n && i < |def.fks| && def.fks[i].parent == parent ensures NoRef(b, def.fks[i].col, v) {
      NoRefShrinks(a, b, def.fks[i].col, v);
    }
  }

  /** Removing a row nobody refers to keeps integrity. */
  lemma {:induction false} RemoveKeepsIntegrity(s: Schema, rank: map<Name, nat>, d: Data, t: Name, k: Key)
    requires SchemaOk(s, rank) && DataOk(s, d) && Integrity(s, d) && t in s && k in d[t] && NoRefs(s, d, t, k)
    ensures var d' := d[t := d[t] - {k}];
            DataOk(s, d') && Integrity(s, d') && Shrinks(d, d')
  {
    hide SchemaOk, FkOk, NoRef, RowsShrink;
    var d' := d[t := d[t] - {k}];
    forall u, i | u in s && 0 <= i < |s[u].fks| ensures FkOk(d', d'[u], s[u].fks[i]) {
      var fk := s[u].fks[i];
      assert FkOk(d, d[u], fk) && TableNoRef(s[u], d[u], t, k);
      FkRemoved(d, t, k, d[u], fk);
    }
    forall u | u in d' ensures RowsShrink(d[u], d'[u]) { RemoveShrinks(d[u], k); }
  }

  /** A foreign key survives removing a row that it does not refer to, in its own table and in its parent. */
  lemma {:induction false} FkRemoved(d: Data, t: Name, k: Key, rows: Rows, fk: ForeignKey)
    requires t in d && FkOk(d, rows, fk) && (fk.parent == t ==> NoRef(rows, fk.col, k))
    ensures FkOk(d[t := d[t] - {k}], rows, fk) && FkOk(d[t := d[t] - {k}], rows - {k}, fk)
  {}

  lemma {:induction false} RemoveShrinks(rows: Rows, k: Key)
    ensures RowsShrink(rows, rows) && RowsShrink(rows, rows - {k})
  {}

  ghost function WithColumn(rows: Rows, ks: set<Key>, col: nat, v: Value): Rows {
    map k | k in rows :: if k in ks && col < |rows[k]| then rows[k][col := v] else rows[k]
  }

  ghost function WithoutKeys(rows: Rows, ks: set<Key>): Rows {
    map k | k in rows && k !in ks :: rows[k]
  }

  lemma {:induction false} WithColumnRowsOk(def: TableDef, rows: Rows, ks: set<Key>, col: nat, v: Value)
    requires RowsOk(def, rows) && col != def.pk
    ensures RowsOk(def, WithColumn(rows, ks, col, v))
    ensures WithColumn(rows, ks, col, v).Keys == rows.Keys
  {
    forall k | k in rows ensures RowOk(def, k, WithColumn(rows, ks, col, v)[k]) { assert RowOk(def, k, rows[k]); }
  }

  /** Nulling a column of some rows, not the primary key, keeps integrity. */
  lemma {:induction false} NullKeepsIntegrity(s: Schema, d: Data, t: Name, ks: set<Key>, col: nat)
    requires DataOk(s, d) && Integrity(s, d) && t in s && col != s[t].pk
    ensures var d' := d[t := WithColumn(d[t], ks, col, Null)];
            DataOk(s, d') && Integrity(s, d') && Shrinks(d, d')
  {
    hide RowsOk, FkOk, WithColumn, RowsShrink;
    var rows' := WithColumn(d[t], ks, col, Null);
    var d' := d[t := rows'];
    WithColumnRowsOk(s[t], d[t], ks, col, Null);
    forall u, i | u in s && 0 <= i < |s[u].fks| ensures FkOk(d', d'[u], s[u].fks[i]) {
      assert FkOk(d, d[u], s[u].fks[i]);
      FkNulled(d, t, ks, col, d[u], s[u].fks[i]);
    }
    forall u | u in d' ensures RowsShrink(d[u], d'[u]) { NullShrinks(d[u], ks, col); }
  }

  /** A foreign key survives nulling a column, in its own table and in its parent. */
  lemma {:induction false} FkNulled(d: Data, t: Name, ks: set<Key>, col: nat, rows: Rows, fk: ForeignKey)
    requires t in d && FkOk(d, rows, fk)
    ensures var d' := d[t := WithColumn(d[t], ks, col, Null)];
            FkOk(d', rows, fk) && FkOk(d', WithColumn(rows, ks, col, Null), fk)
  {}

  lemma {:induction false} NullShrinks(rows: Rows, ks: set<Key>, col: nat)
    ensures RowsShrink(rows, rows) && RowsShrink(rows, WithColumn(rows, ks, col, Null))
  {}

  /** Where every row with the value has been nulled or dropped, the value is gone from the column. */
  lemma {:induction false} ColumnCleared(def: TableDef, rows: Rows, ks: set<Key>, col: nat, v: Key)
    requires RowsOk(def, rows) && col < |def.columns|
    requires forall k :: k in rows && rows[k][col] == Val(v) ==> k in ks
    ensures NoRef(WithColumn(rows, ks, col, Null), col, v) && NoRef(WithoutKeys(rows, ks), col, v)
  {
    forall k | k in rows ensures RowOk(def, k, rows[k]) { }
  }

  // ----- what updating may do -----

  /** Integrity, if the parent had one more key. */
  ghost predicate FkOkPlus(d: Data, rows: Rows, fk: ForeignKey, parent: Name, extra: Key) {
    fk.parent in d && forall k :: k in rows ==>
      fk.col < |rows[k]| && (rows[k][fk.col].Val?
          ==> rows[k][fk.col].key in d[fk.parent] || (fk.parent == parent && rows[k][fk.col].key == extra))
  }

  ghost predicate IntegrityPlus(s: Schema, d: Data, parent: Name, extra: Key) {
    forall t, i :: t in s && t in d && 0 <= i < |s[t].fks| ==> FkOkPlus(d, d[t], s[t].fks[i], parent, extra)
  }

  /** The table has no foreign key to the parent. */
  ghost predicate NotChild(def: TableDef, parent: Name) {
    forall i :: 0 <= i < |def.fks| ==> def.fks[i].parent != parent
  }

  ghost predicate SameKeys(a: Data, b: Data) {
    forall t :: (t in a <==> t in b) && (t in a ==> forall k :: k in a[t] <==> k in b[t])
  }

  lemma {:induction false} FkRewritten(d: Data, d': Data, rows: Rows, fk: ForeignKey, ks: set<Key>, col: nat, w: Value,
                                       parent: Name, extra: Key)
    requires FkOkPlus(d, rows, fk, parent, extra) && fk.parent in d'
             && (forall k :: k in d[fk.parent] ==> k in d'[fk.parent])
    requires fk.col != col || (fk.parent == parent && (w == Null || w == Val(extra)))
    ensures FkOkPlus(d', WithColumn(rows, ks, col, w), fk, parent, extra)
  {
  }

  lemma {:induction false} WithNobody(rows: Rows, col: nat, w: Value)
    ensures WithColumn(rows, {}, col, w) == rows
  {
  }

  /** Rewriting a foreign key column to the extra key, or to NULL. */
  lemma {:induction false} RewriteKeepsIntegrity(s: Schema, rank: map<Name, nat>, d: Data, t: Name, j: nat,
                                                 ks: set<Key>, w: Value, parent: Name, extra: Key)
    requires SchemaOk(s, rank) && DataOk(s, d) && IntegrityPlus(s, d, parent, extra) && t in s && j < |s[t].fks|
    requires s[t].fks[j].parent == parent && (w == Null || w == Val(extra))
    ensures var d' := d[t := WithColumn(d[t], ks, s[t].fks[j].col, w)];
            DataOk(s, d') && IntegrityPlus(s, d', parent, extra) && SameKeys(d, d')
  {
    hide SchemaOk, TableOk, RowsOk, FkOkPlus, WithColumn;
    var col := s[t].fks[j].col;
    OwnColumn(s, rank, t, j, j);
    WithColumnRowsOk(s[t], d[t], ks, col, w);
    var rows' := WithColumn(d[t], ks, col, w);
    var d' := d[t := rows'];
    forall u, i | u in s && 0 <= i < |s[u].fks| ensures FkOkPlus(d', d'[u], s[u].fks[i], parent, extra) {
      var fk := s[u].fks[i];
      assert FkOkPlus(d, d[u], fk, parent, extra);
      PlusHasParent(d, d[u], fk, parent, extra);
      if u == t {
        OwnColumn(s, rank, t, i, j);
        FkRewritten(d, d', d[t], fk, ks, col, w, parent, extra);
      } else {
        WithNobody(d[u], fk.col + 1, Null);
        FkRewritten(d, d', d[u], fk, {}, fk.col + 1, Null, parent, extra);
      }
    }
  }

  lemma {:induction false} PlusHasParent(d: Data, rows: Rows, fk: ForeignKey, parent: Name, extra: Key)
    requires FkOkPlus(d, rows, fk, parent, extra)
    ensures fk.parent in d
  {
  }

  lemma {:induction false} OwnColumn(s: Schema, rank: map<Name, nat>, t: Name, i: nat, j: nat)
    requires SchemaOk(s, rank) && t in s && i < |s[t].fks| && j < |s[t].fks|
    ensures (i != j ==> s[t].fks[i].col != s[t].fks[j].col) && s[t].fks[j].col != s[t].pk
  {
    assert TableOk(s[t]);
  }

  /** A column cleared of a key stays so, whatever other columns or other values are written. */
  lemma {:induction false} NoRefRewritten(rows: Rows, col: nat, v: Key, ks: set<Key>, c: nat, w: Value)
    requires NoRef(rows, col, v) && w != Val(v)
    ensures NoRef(WithColumn(rows, ks, c, w), col, v)
  {
  }

  lemma {:induction false} NoRefUpToRewritten(def: TableDef, rows: Rows, parent: Name, v: Key, n: nat, ks: set<Key>,
                                              c: nat, w: Value)
    requires NoRefUpTo(def, rows, parent, v, n) && w != Val(v)
    ensures NoRefUpTo(def, WithColumn(rows, ks, c, w), parent, v, n)
  {
    forall i | 0 <= i < n && i < |def.fks| && def.fks[i].parent == parent
      ensures NoRef(WithColumn(rows, ks, c, w), def.fks[i].col, v)
    {
      NoRefRewritten(rows, def.fks[i].col, v, ks, c, w);
    }
  }

  /** Every reference of a row has its parent. */
  ghost predicate RowRefsOk(def: TableDef, d: Data, row: Row) {
    forall i :: 0 <= i < |def.fks| ==>
      def.fks[i].col < |row| && def.fks[i].parent in d
          && (row[def.fks[i].col].Val? ==> row[def.fks[i].col].key in d[def.fks[i].parent])
  }

  /** A new row whose parents are there keeps integrity. */
  lemma {:induction false} InsertKeepsIntegrity(s: Schema, rank: map<Name, nat>, d: Data, t: Name, k: Key, row: Row)
    requires SchemaOk(s, rank) && DataOk(s, d) && Integrity(s, d) && t in s && RowOk(s[t], k, row)
             && RowRefsOk(s[t], d, row)
    ensures DataOk(s, d[t := d[t][k := row]]) && Integrity(s, d[t := d[t][k := row]])
  {
    var d' := d[t := d[t][k := row]];
    forall u, i | u in s && 0 <= i < |s[u].fks| ensures FkOk(d', d'[u], s[u].fks[i]) {
      assert FkOk(d, d[u], s[u].fks[i]);
    }
  }

  lemma {:induction false} FkRekeyed(def: TableDef, d: Data, d': Data, u: Name, i: nat, t: Name, k: Key, k': Key)
    requires i < |def.fks| && u in d && FkOkPlus(d, d[u], def.fks[i], t, k') && (k == k' || TableNoRef(def, d[u], t, k))
    requires def.fks[i].parent in d' && forall x :: x in d[def.fks[i].parent] && (def.fks[i].parent != t || x != k) ==> x in d'[def.fks[i].parent]
    requires def.fks[i].parent == t ==> k' in d'[t]
    ensures FkOk(d', d[u], def.fks[i])
  {
    if def.fks[i].parent == t && k != k' { assert NoRef(d[u], def.fks[i].col, k); }
  }

  /** The row arrives under its new key: what was promised to the children is kept. */
  lemma {:induction false} RekeyKeepsIntegrity(s: Schema, rank: map<Name, nat>, d: Data, t: Name, k: Key, k': Key,
                                               row: Row)
    requires SchemaOk(s, rank) && DataOk(s, d) && t in s && k in d[t]
    requires IntegrityPlus(s, d, t, k') && (k == k' || NoRefs(s, d, t, k))
    requires RowOk(s[t], k', row) && RowRefsOk(s[t], d, row)
    ensures var d' := d[t := (d[t] - {k})[k' := row]];
            DataOk(s, d') && Integrity(s, d')
  {
    hide TableOk, TableNoRef, FkOkPlus;
    var d' := d[t := (d[t] - {k})[k' := row]];
    forall u, i | u in s && 0 <= i < |s[u].fks| ensures FkOk(d', d'[u], s[u].fks[i]) {
      var fk := s[u].fks[i];
      assert FkOkPlus(d, d[u], fk, t, k');
      PlusHasParent(d, d[u], fk, t, k');
      assert rank[u] < rank[fk.parent];
      FkRekeyed(s[u], d, d', u, i, t, k, k');
    }
  }

  // ----- indexes -----

  /** The index maps exactly the non-null values of the column to the keys of their rows. */
  ghost predicate IndexOk(rows: Rows, col: nat, m: IndexMap) {
    && (forall v :: v in m ==> m[v] in rows && col < |rows[m[v]]| && rows[m[v]][col] == Val(v))
    && (forall k :: k in rows && col < |rows[k]| && rows[k][col].Val? ==> rows[k][col].key in m && m[rows[k][col].key] == k)
  }

  ghost predicate IndexAt(def: TableDef, rows: Rows, ix: Indexes, i: nat)
    requires i < |def.indexes|
  {
    def.indexes[i].name in ix && IndexOk(rows, def.indexes[i].col, ix[def.indexes[i].name])
  }

  ghost predicate TableIndexed(def: TableDef, rows: Rows, ix: Indexes) {
    forall i: nat :: i < |def.indexes| ==> IndexAt(def, rows, ix, i)
  }

  ghost predicate IndexesOk(s: Schema, d: Data, ix: Indexes) {
    forall t :: t in s && t in d ==> TableIndexed(s[t], d[t], ix)
  }

  /** Every index exists, whatever it holds. */
  ghost predicate IndexesExist(s: Schema, ix: Indexes) {
    forall t, i :: t in s && 0 <= i < |s[t].indexes| ==> s[t].indexes[i].name in ix
  }

  /** There is an index on the column. */
  ghost predicate IndexedOn(def: TableDef, col: nat) { exists i: nat :: i < |def.indexes| && def.indexes[i].col == col }

  /** The value of a column can be a key: it is not NULL, and of a type that has keys. */
  ghost predicate HasKeyAt(def: TableDef, row: Row, col: nat) {
    col < |row| && row[col].Val? && col < |def.columns| && def.columns[col].keyable
  }

  /** A column with an index, of a type that has no keys: no value of it can be looked up. */
  ghost predicate Stuck(def: TableDef,
                        col: nat) { IndexedOn(def, col) && !(col < |def.columns| && def.columns[col].keyable) }

  /** The row has a key for every index. */
  ghost predicate Keyed(def: TableDef, row: Row) {
    forall i: nat :: i < |def.indexes| ==> HasKeyAt(def, row, def.indexes[i].col)
  }

  /** No row holds the value in the column. */
  ghost predicate NobodyHas(rows: Rows, col: nat, v: Value) {
    forall k :: k in rows ==> col >= |rows[k]| || rows[k][col] != v
  }

  /** No row holds a value of the new one in a column that has an index. */
  ghost predicate Unheld(def: TableDef, rows: Rows, row: Row) {
    forall i: nat :: i < |def.indexes| && def.indexes[i].col < |row|
        ==> NobodyHas(rows, def.indexes[i].col, row[def.indexes[i].col])
  }

  /** An index that is right has an entry for a value exactly where some row holds it. */
  lemma {:induction false} EntryIsHeld(rows: Rows, col: nat, m: IndexMap, v: Key)
    requires IndexOk(rows, col, m)
    ensures v in m <==> !NobodyHas(rows, col, Val(v))
  {
  }

  /** So no two rows hold the same. */
  lemma {:induction false} OnlyOneHolds(def: TableDef, rows: Rows, ix: Indexes, col: nat, j: Key, k: Key)
    requires TableIndexed(def, rows, ix) && IndexedOn(def, col) && j in rows && k in rows
    requires col < |rows[j]| && col < |rows[k]| && rows[j][col].Val? && rows[j][col] == rows[k][col]
    ensures j == k
  {
    var i: nat :| i < |def.indexes| && def.indexes[i].col == col;
    assert IndexAt(def, rows, ix, i);
  }

  ghost predicate OwnsIndex(def: TableDef, name: Name) {
    exists i :: 0 <= i < |def.indexes| && def.indexes[i].name == name
  }

  /** Only the table's own indexes have changed. */
  ghost predicate OnlyOwn(def: TableDef, a: Indexes, b: Indexes) {
    forall n :: n in a && !OwnsIndex(def, n) ==> n in b && b[n] == a[n]
  }

  lemma {:induction false} IndexEntryGone(rows: Rows, col: nat, m: IndexMap, k: Key, r: Row)
    requires k !in rows && col < |r| && r[col].Val? && IndexOk(rows[k := r], col, m)
    ensures r[col].key in m && IndexOk(rows, col, m - {r[col].key})
  {
    var v, m' := r[col].key, m - {r[col].key};
    var all := rows[k := r];
    assert k in all && all[k] == r;
    assert m[v] == k;
    forall j | j in rows && col < |rows[j]| && rows[j][col].Val?
      ensures rows[j][col].key in m' && m'[rows[j][col].key] == j
    {
      assert j in all && all[j] == rows[j];
    }
    forall x | x in m' ensures m'[x] in rows && col < |rows[m'[x]]| && rows[m'[x]][col] == Val(x) {
      assert x in m && all[m[x]][col] == Val(x);
    }
  }

  lemma {:induction false} IndexEntryNew(rows: Rows, col: nat, m: IndexMap, k: Key, r: Row)
    requires k !in rows && col < |r| && r[col].Val? && IndexOk(rows, col, m) && r[col].key !in m
    ensures IndexOk(rows[k := r], col, m[r[col].key := k])
  {
  }

  /** A row with NULL in the column may come or go without the index. */
  lemma {:induction false} IndexSkipsNull(rows: Rows, col: nat, m: IndexMap, k: Key, r: Row)
    requires k !in rows && col < |r| && r[col].Null?
    ensures IndexOk(rows[k := r], col, m) <==> IndexOk(rows, col, m)
  {
    var all := rows[k := r];
    if IndexOk(all, col, m) {
      forall j | j in rows && col < |rows[j]| && rows[j][col].Val?
        ensures rows[j][col].key in m && m[rows[j][col].key] == j
      {
        assert j in all && all[j] == rows[j];
      }
    }
  }

  /** A row replaced by one that agrees with it in the column. */
  lemma {:induction false} IndexSameColumn(rows: Rows, col: nat, m: IndexMap, k: Key, r: Row)
    requires k in rows && col < |r| && col < |rows[k]| && r[col] == rows[k][col] && IndexOk(rows, col, m)
    ensures IndexOk(rows[k := r], col, m)
  {
  }

  /** Changing one table and its own indexes leaves the indexes of the others alone. */
  lemma {:induction false} OthersIndexed(s: Schema, rank: map<Name, nat>, d: Data, ix: Indexes, t: Name, rows: Rows,
                                         ix': Indexes)
    requires SchemaOk(s, rank) && t in s && t in d && IndexesOk(s, d, ix)
    requires OnlyOwn(s[t], ix, ix')
    requires TableIndexed(s[t], rows, ix')
    ensures IndexesOk(s, d[t := rows], ix')
  {
    var d' := d[t := rows];
    forall u | u in s && u in d' ensures TableIndexed(s[u], d'[u], ix') {
      if u != t {
        assert TableIndexed(s[u], d[u], ix);
        forall i: nat | i < |s[u].indexes| ensures IndexAt(s[u], d'[u], ix', i) {
          assert IndexAt(s[u], d[u], ix, i);
          assert !OwnsIndex(s[t], s[u].indexes[i].name);
        }
      }
    }
  }
}
