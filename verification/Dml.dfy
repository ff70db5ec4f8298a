/**
  * INSERT, DELETE and UPDATE with foreign keys and secondary indexes
  * (executor/insert.go, delete.go, update.go, fk.go).
  */
module Dml {
  import opened Relations
  import opened Cascades
  import opened Outcomes
  import opened Updates

  /** encodeKeyValue: NULL and columns of other types have no key. */
  datatype EncodedKey = NoKey | KeyOf(key: Key)

  function EncodeKey(def: TableDef, col: nat, v: Value): EncodedKey
    requires col < |def.columns|
  {
    if v.Null? || !def.columns[col].keyable then NoKey else KeyOf(v.key)
  }

  /** Rows collected from a table before it is changed: they are there, each once. */
  ghost predicate Collected(def: TableDef, rows: Rows, rs: seq<Row>) {
    (forall i :: 0 <= i < |rs|
        ==> def.pk < |rs[i]| && rs[i][def.pk].Val? && rs[i][def.pk].key in rows && rows[rs[i][def.pk].key] == rs[i])
    && forall i, j :: 0 <= i < j < |rs| ==> rs[i][def.pk] != rs[j][def.pk]
  }

  /** Rows of the given width that hold the value in the column. */
  ghost predicate Matching(rs: seq<Row>, width: nat, col: nat, v: Value) {
    forall i :: 0 <= i < |rs| ==> |rs[i]| == width && col < width && rs[i][col] == v && v.Val?
  }

  /** The keys of collected rows. */
  ghost function KeysOf(def: TableDef, rs: seq<Row>): set<Key> {
    set i | 0 <= i < |rs| && def.pk < |rs[i]| && rs[i][def.pk].Val? :: rs[i][def.pk].key
  }

  class Executor {
    const schema: Schema
    ghost const rank: map<Name, nat>
    var data: Data
    var index: Indexes

    ghost predicate Valid()
      reads this
    {
      SchemaOk(schema, rank) && DataOk(schema, data) && Integrity(schema, data) && IndexesExist(schema, index)
    }

    ghost predicate Indexed()
      reads this
    {
      IndexesOk(schema, data, index)
    }

    // ----- scanning -----

    /** Every row whose column equals the value; NULL equals nothing. */
    method FindRowsMatchingValue(table: Name, col: nat, v: Value) returns (rs: seq<Row>)
      requires table in schema && table in data && TableOk(schema[table]) && RowsOk(schema[table], data[table])
      requires col < |schema[table].columns|
      ensures Collected(schema[table], data[table], rs)
      ensures Matching(rs, |schema[table].columns|, col, v)
      ensures v.Val? ==> forall k :: k in data[table] && data[table][k][col] == v ==> k in KeysOf(schema[table], rs)
    {
      hide KeysOf;
      var def, rows := schema[table], data[table];
      NoKeys(def);
      rs := [];
      var left := rows.Keys;
      while left != {}
        invariant left <= rows.Keys && Collected(def, rows, rs)
        invariant Matching(rs, |def.columns|, col, v)
        invariant forall i :: 0 <= i < |rs| ==> rs[i][def.pk].key !in left
        invariant v.Val? ==> forall k :: k in rows && k !in left && rows[k][col] == v ==> k in KeysOf(def, rs)
        decreases left
      {
        var k :| k in left;
        assert RowOk(def, k, rows[k]);
        ghost var before := rs;
        if v.Val? && rows[k][col] == v {
          rs := rs + [rows[k]];
          KeysOfMore(def, before, rows[k]);
        }
        left := left - {k};
      }
    }

    // ----- indexes of one table -----

    /** Takes a row that is gone out of every index of its table; that needs a key for each of them. */
    method IndexRemove(table: Name, key: Key, row: Row, ghost rows: Rows) returns (ok: bool)
      requires table in schema && TableOk(schema[table]) && IndexesExist(schema, index)
               && |row| == |schema[table].columns|
      modifies this`index
      ensures IndexesExist(schema, index) && OnlyOwn(schema[table], old(index), index)
      ensures ok && key !in rows && TableIndexed(schema[table], rows[key := row], old(index))
              ==> TableIndexed(schema[table], rows, index)
      ensures ok <==> LeavesAll(schema[table], row, old(index))
      ensures ok ==> Keyed(schema[table], row)
      ensures key !in rows && TableIndexed(schema[table], rows[key := row], old(index))
              ==> (ok <==> Keyed(schema[table], row))
      ensures schema[table].indexes == [] ==> ok
    {
      hide IndexOk, IndexAt, TableIndexed, Mixed, IndexesExist, OnlyOwn, TableOk, Leaves, Keyed;
      var def := schema[table];
      ghost var all := rows[key := row];
      ghost var good := key !in rows && TableIndexed(def, all, old(index));
      OwnStarts(def, index);
      LeavesKeyed(def, row, index);
      if good { LeavesIs(def, rows, index, key, row); }
      AllSame(schema, table, index);
      if good { MixedStarts(def, rows, all, index); }
      var i := 0;
      while i < |def.indexes|
        invariant 0 <= i <= |def.indexes| && IndexesExist(schema, index) && OnlyOwn(def, old(index), index)
        invariant good ==> Mixed(def, rows, all, index, i)
        invariant forall j: nat :: j < i ==> Leaves(def, row, old(index), j)
        invariant forall j: nat :: i <= j < |def.indexes| ==> SameEntry(index, old(index), def.indexes[j].name)
      {
        OwnAt(schema, table, index, i);
        var ix := def.indexes[i];
        assert SameEntry(index, old(index), def.indexes[i].name);
        var e := EncodeKey(def, ix.col, row[ix.col]);
        LeavesAt(def, row, old(index), i);
        if e.NoKey? || e.key !in index[ix.name] { return false; }
        if good {
          MixedAt(def, rows, all, index, i);
          IndexEntryGone(rows, ix.col, index[ix.name], key, row);
          MixedStep(def, rows, all, index, i, index[ix.name] - {e.key});
        }
        OwnStep(schema, table, old(index), index, i, index[ix.name] - {e.key});
        SameBeyond(def, index, old(index), i, index[ix.name] - {e.key});
        index := index[ix.name := index[ix.name] - {e.key}];
        i := i + 1;
      }
      if good { MixedEnds(def, rows, all, index); }
      return true;
    }

    /** Puts a new row into every index of its table. */
    method IndexInsert(table: Name, key: Key, row: Row, ghost rows: Rows) returns (ok: bool)
      requires table in schema && TableOk(schema[table]) && IndexesExist(schema, index)
               && |row| == |schema[table].columns|
      modifies this`index
      ensures IndexesExist(schema, index) && OnlyOwn(schema[table], old(index), index)
      ensures ok && key !in rows && TableIndexed(schema[table], rows, old(index))
              ==> TableIndexed(schema[table], rows[key := row], index)
      ensures ok <==> TakesAll(schema[table], row, old(index))
      ensures TableIndexed(schema[table], rows, old(index))
              ==> (ok <==> Keyed(schema[table], row) && Unheld(schema[table], rows, row))
    {
      hide IndexOk, IndexAt, TableIndexed, Mixed, IndexesExist, OnlyOwn, TableOk, Unheld, Keyed, Takes;
      var def := schema[table];
      ghost var all := rows[key := row];
      ghost var good := key !in rows && TableIndexed(def, rows, old(index));
      OwnStarts(def, index);
      if TableIndexed(def, rows, index) { TakesIs(def, rows, index, row); }
      AllSame(schema, table, index);
      if good { MixedStarts(def, all, rows, index); }
      var i := 0;
      while i < |def.indexes|
        invariant 0 <= i <= |def.indexes| && IndexesExist(schema, index) && OnlyOwn(def, old(index), index)
        invariant good ==> Mixed(def, all, rows, index, i)
        invariant forall j: nat :: j < i ==> Takes(def, row, old(index), j)
        invariant forall j: nat :: i <= j < |def.indexes| ==> SameEntry(index, old(index), def.indexes[j].name)
      {
        OwnAt(schema, table, index, i);
        var ix := def.indexes[i];
        assert SameEntry(index, old(index), def.indexes[i].name);
        var e := EncodeKey(def, ix.col, row[ix.col]);
        TakesAt(def, row, old(index), i);
        if e.NoKey? || e.key in index[ix.name] { return false; }
        if good {
          MixedAt(def, all, rows, index, i);
          IndexEntryNew(rows, ix.col, index[ix.name], key, row);
          MixedStep(def, all, rows, index, i, index[ix.name][e.key := key]);
        }
        OwnStep(schema, table, old(index), index, i, index[ix.name][e.key := key]);
        SameBeyond(def, index, old(index), i, index[ix.name][e.key := key]);
        index := index[ix.name := index[ix.name][e.key := key]];
        i := i + 1;
      }
      if good { MixedEnds(def, all, rows, index); }
      return true;
    }

    /** Follows a change of one column in the indexes on that column. */
    method IndexChange(table: Name, col: nat, key: Key, oldRow: Row, newRow: Row, ghost rest: Rows) returns (ok: bool)
      requires table in schema && TableOk(schema[table]) && IndexesExist(schema, index)
      requires |oldRow| == |newRow| == |schema[table].columns| && col < |newRow| && newRow == oldRow[col := newRow[col]]
      modifies this`index
      ensures IndexesExist(schema, index) && OnlyOwn(schema[table], old(index), index)
      ensures ok && key !in rest && TableIndexed(schema[table], rest[key := oldRow], old(index))
              ==> TableIndexed(schema[table], rest[key := newRow], index)
      ensures schema[table].indexes == [] ==> ok
      ensures ok <==> ChangesAll(schema[table], oldRow, newRow, col, old(index))
      ensures ok && IndexedOn(schema[table], col) ==> HasKeyAt(schema[table], oldRow, col)
      ensures key !in rest && TableIndexed(schema[table], rest[key := oldRow], old(index))
              ==> (ok <==> ChangeFits(schema[table], rest, col, oldRow, newRow))
    {
      hide IndexOk, IndexAt, TableIndexed, Mixed, IndexesExist, OnlyOwn, TableOk, Changes, ChangeFits;
      var def := schema[table];
      ghost var was, now := rest[key := oldRow], rest[key := newRow];
      ghost var good := key !in rest && TableIndexed(def, was, old(index));
      OwnStarts(def, index);
      ChangesKeyed(def, oldRow, newRow, col, index);
      if good { ChangesIs(def, rest, index, col, key, oldRow, newRow); }
      AllSame(schema, table, index);
      if good { MixedStarts(def, now, was, index); }
      var i := 0;
      while i < |def.indexes|
        invariant 0 <= i <= |def.indexes| && IndexesExist(schema, index) && OnlyOwn(def, old(index), index)
        invariant good ==> Mixed(def, now, was, index, i)
        invariant forall j: nat :: j < i ==> Changes(def, oldRow, newRow, col, old(index), j)
        invariant forall j: nat :: i <= j < |def.indexes| ==> SameEntry(index, old(index), def.indexes[j].name)
      {
        OwnAt(schema, table, index, i);
        var ix := def.indexes[i];
        assert SameEntry(index, old(index), def.indexes[i].name);
        ChangesAt(def, oldRow, newRow, col, old(index), i);
        if good { MixedAt(def, now, was, index, i); }
        if ix.col != col {
          if good {
            IndexSameColumn(was, ix.col, index[ix.name], key, newRow);
            assert was[key := newRow] == now;
            MixedStep(def, now, was, index, i, index[ix.name]);
            assert index[ix.name := index[ix.name]] == index;
          }
        } else {
          var e := EncodeKey(def, col, oldRow[col]);
          if e.NoKey? || e.key !in index[ix.name] { return false; }
          if good { IndexEntryGone(rest, col, index[ix.name], key, oldRow); }
          var m := index[ix.name] - {e.key};
          if !newRow[col].Null? {
            var f := EncodeKey(def, col, newRow[col]);
            if f.NoKey? || f.key in m {
              OwnStep(schema, table, old(index), index, i, m);
              index := index[ix.name := m];
              return false;
            }
            if good { IndexEntryNew(rest, col, m, key, newRow); }
            m := m[f.key := key];
          } else if good {
            IndexSkipsNull(rest, col, m, key, newRow);
          }
          if good { MixedStep(def, now, was, index, i, m); }
          OwnStep(schema, table, old(index), index, i, m);
          SameBeyond(def, index, old(index), i, m);
          index := index[ix.name := m];
        }
        i := i + 1;
      }
      if good { MixedEnds(def, now, was, index); }
      return true;
    }

    /** One row of UpdateColumnInRows: out of the table, changed, back in under the same key. */
    method UpdateOneRow(table: Name, col: nat, newValue: Value, oldRow: Row, ghost base: Rows, ghost done: set<Key>)
      returns (ok: bool, ghost touched: set<Key>)
      requires SchemaOk(schema, rank) && DataOk(schema, data) && IndexesExist(schema, index)
      requires table in schema && col < |schema[table].columns| && col != schema[table].pk
      requires schema[table].pk < |oldRow| && oldRow[schema[table].pk].Val?
      requires var key := oldRow[schema[table].pk].key; key !in done && key in base && base[key] == oldRow
      requires RowsOk(schema[table], base) && data[table] == WithColumn(base, done, col, newValue)
      modifies this
      ensures DataOk(schema, data) && IndexesExist(schema, index)
      ensures touched <= {oldRow[schema[table].pk].key} && (ok ==> touched == {oldRow[schema[table].pk].key})
      ensures data == old(data)[table := WithColumn(base, done + touched, col, newValue)]
      ensures ok && IndexedOn(schema[table], col) ==> HasKeyAt(schema[table], oldRow, col)
      ensures Ready(schema[table], old(Indexed()))
              && ChangeFits(schema[table], old(data)[table] - {oldRow[schema[table].pk].key}, col, oldRow,
                 oldRow[col := newValue])
              ==> ok
      ensures ok && old(Indexed()) ==> Indexed()
    {
      hide SchemaOk, TableIndexed, Integrity, IndexesExist, WithColumn, TableOk, ChangeFits, IndexedOn, HasKeyAt;
      TableIsOk(schema, rank, table);
      var def := schema[table];
      var rows := data[table];
      touched := {};
      assert done + touched == done;
      var e := EncodeKey(def, def.pk, oldRow[def.pk]);
      if e.NoKey? { return false, {}; }
      var newRow := oldRow[col := newValue];
      assert RowOk(def, e.key, oldRow) && RowOk(def, e.key, newRow);
      StillThere(base, done, col, newValue, e.key);
      ghost var rest := rows - {e.key};
      assert rest[e.key := oldRow] == rows;
      touched := {e.key};
      OneMoreChanged(base, done, col, newValue, e.key);
      assert rest[e.key := newRow] == rows[e.key := newRow];
      ghost var was := index;
      data := data[table := rows[e.key := newRow]];
      ok := IndexChange(table, col, e.key, oldRow, newRow, rest);
      if ok && old(Indexed()) {
        OthersIndexed(schema, rank, old(data), was, table, rows[e.key := newRow], index);
      }
    }

    /** Overwrites one column in the given rows and keeps the indexes on it in step. */
    method UpdateColumnInRows(table: Name, col: nat, newValue: Value,
                              rs: seq<Row>) returns (ok: bool, ghost done: set<Key>)
      requires SchemaOk(schema, rank) && DataOk(schema, data) && IndexesExist(schema, index)
      requires table in schema && col < |schema[table].columns| && col != schema[table].pk
      requires Collected(schema[table], data[table], rs)
      modifies this
      ensures DataOk(schema, data) && IndexesExist(schema, index)
      ensures done <= KeysOf(schema[table], rs) && (ok ==> done == KeysOf(schema[table], rs))
      ensures data == old(data)[table := WithColumn(old(data)[table], done, col, newValue)]
      ensures ok && old(Indexed()) ==> Indexed()
      ensures newValue.Null? && schema[table].columns[col].notNull ==> !ok && done == {}
      ensures ok && rs != [] ==> !Stuck(schema[table], col)
      ensures Ready(schema[table], old(Indexed())) && !(newValue.Null? && schema[table].columns[col].notNull)
              && RowsFit(schema[table], old(data)[table], col, newValue, rs)
              ==> ok
    {
      hide SchemaOk, DataOk, IndexesOk, Integrity, IndexesExist, WithColumn, KeysOf, ChangeFits, RowsFit, IndexedOn,
           HasKeyAt;
      var def := schema[table];
      done := {};
      TableRowsOk(schema, data, table);
      NoKeys(def);
      assert rs[..0] == [];
      WithNothing(data[table], col, newValue);
      assert old(data)[table := data[table]] == data;
      if newValue.Null? && def.columns[col].notNull { return false, {}; }
      var i := 0;
      while i < |rs|
        invariant 0 <= i <= |rs| && DataOk(schema, data) && IndexesExist(schema, index)
        invariant done == KeysOf(def, rs[..i])
        invariant data == old(data)[table := WithColumn(old(data)[table], done, col, newValue)]
        invariant old(Indexed()) ==> Indexed()
        invariant i > 0 ==> !Stuck(def, col)
      {
        if RowsFit(def, old(data)[table], col, newValue,
            rs) { RowFits1(def, old(data)[table], col, newValue, rs, i, done); }
        StuckIs(def, rs[i], col);
        assert rs[..i + 1] == rs[..i] + [rs[i]];
        KeysOfMore(def, rs[..i], rs[i]);
        KeysOfPrefix(def, rs, i);
        ghost var touched;
        ok, touched := UpdateOneRow(table, col, newValue, rs[i], old(data)[table], done);
        done := done + touched;
        if !ok { return; }
        i := i + 1;
      }
      assert rs[..i] == rs;
      ok := true;
    }

    // ----- deleting -----

    /** Tables that are no descendants of `t` are as they were. */
    ghost predicate KeptFrom(d: Data, t: Name)
      requires t in rank
      reads this
    {
      forall u :: u in d && u in rank && rank[u] >= rank[t] ==> u in data && data[u] == d[u]
    }

    /** Enforces ON DELETE for one key of the parent, table by table in any order. */
    method ApplyOnDelete(parent: Name, v: Key, ghost doom: Doom, ghost sound: bool) returns (ok: bool)
      requires Valid() && parent in schema && parent in rank && (sound ==> Indexed())
      modifies this
      ensures Valid() && Shrinks(old(data), data) && KeptFrom(old(data), parent)
      ensures ok ==> NoRefs(schema, data, parent, v) && Caused(schema, old(data), data, {(parent, v)})
      ensures Closed(schema, old(data), doom, sound) && (parent, v) in doom ==> ok && Closed(schema, data, doom, sound)
      ensures ok && old(Indexed()) ==> Indexed()
      decreases rank[parent], 1
    {
      hide SchemaOk, DataOk, Integrity, IndexesExist, Shrinks, IndexesOk, TableNoRef, Caused, Closed;
      ok := true;
      var left := schema.Keys;
      ShrinksSelf(data);
      CausedSelf(schema, data, {(parent, v)});
      while left != {}
        invariant Valid() && Shrinks(old(data), data) && KeptFrom(old(data), parent)
        invariant left <= schema.Keys && ok && Caused(schema, old(data), data, {(parent, v)})
        invariant forall t :: t in schema && t in data && t !in left ==> TableNoRef(schema[t], data[t], parent, v)
        invariant old(Indexed()) ==> Indexed()
        invariant Closed(schema, old(data), doom, sound) && (parent, v) in doom ==> Closed(schema, data, doom, sound)
        decreases left
      {
        var child :| child in left;
        ghost var d := data;
        ok := ApplyOnDeleteTo(child, parent, v, doom, sound);
        if !ok { ShrinksAgain(old(data), d, data); return; }
        Onward(schema, old(data), d, data, parent, v);
        forall t | t in schema && t in data && t !in left ensures TableNoRef(schema[t], data[t], parent, v) {
          StillNoRef(schema[t], d, data, t, parent, v);
        }
        left := left - {child};
      }
    }

    /** Enforces ON DELETE on one child table. */
    method ApplyOnDeleteTo(child: Name, parent: Name, v: Key, ghost doom: Doom, ghost sound: bool) returns (ok: bool)
      requires Valid() && parent in schema && child in schema && parent in rank && (sound ==> Indexed())
      modifies this
      ensures Valid() && Shrinks(old(data), data) && KeptFrom(old(data), parent)
      ensures ok && child in data ==> TableNoRef(schema[child], data[child], parent, v)
      ensures Closed(schema, old(data), doom, sound) && (parent, v) in doom ==> ok && Closed(schema, data, doom, sound)
      ensures ok ==> Caused(schema, old(data), data, {(parent, v)})
      ensures ok && old(Indexed()) ==> Indexed()
      decreases rank[parent], 0
    {
      hide SchemaOk, DataOk, Integrity, IndexesExist, Shrinks, IndexesOk, NoRefUpTo, RowsOk, KeysOf, WithColumn,
           WithoutKeys, Caused, Closed;
      var def := schema[child];
      TableIsOk(schema, rank, child);
      ShrinksSelf(data);
      CausedSelf(schema, data, {(parent, v)});
      NothingChecked(def, data, child, parent, v);
      var i := 0;
      while i < |def.fks|
        invariant 0 <= i <= |def.fks| && Valid() && Shrinks(old(data), data) && KeptFrom(old(data), parent)
        invariant Caused(schema, old(data), data, {(parent, v)})
        invariant child in data ==> NoRefUpTo(def, data[child], parent, v, i)
        invariant old(Indexed()) ==> Indexed()
        invariant Closed(schema, old(data), doom, sound) && (parent, v) in doom ==> Closed(schema, data, doom, sound)
      {
        var fk := def.fks[i];
        ghost var d := data;
        if fk.parent == parent {
          ok := ApplyOnDeleteFk(child, i, v, doom, sound);
          if !ok { ShrinksAgain(old(data), d, data); return; }
          Onward(schema, old(data), d, data, parent, v);
        } else {
          ShrinksSelf(data);
        }
        OneMoreChecked(def, d, data, child, parent, v, i);
        i := i + 1;
      }
      ok := true;
    }

    /** Enforces ON DELETE through one foreign key. */
    method ApplyOnDeleteFk(child: Name, i: nat, v: Key, ghost doom: Doom, ghost sound: bool) returns (ok: bool)
      requires Valid() && child in schema && i < |schema[child].fks| && schema[child].fks[i].parent in rank
      requires sound ==> Indexed()
      modifies this
      ensures Valid() && Shrinks(old(data), data) && KeptFrom(old(data), schema[child].fks[i].parent)
      ensures ok ==> child in data && NoRef(data[child], schema[child].fks[i].col, v)
      ensures ok ==> Caused(schema, old(data), data, {(schema[child].fks[i].parent, v)})
      ensures schema[child].fks[i].onDelete == Restrict && child in old(data)
              ==> data == old(data) && (ok <==> NoRef(old(data)[child], schema[child].fks[i].col, v))
      ensures Closed(schema, old(data), doom, sound) && (schema[child].fks[i].parent, v) in doom
              ==> ok && Closed(schema, data, doom, sound)
      ensures ok && old(Indexed()) ==> Indexed()
      decreases rank[schema[child].fks[i].parent], 0, 0
    {
      hide SchemaOk, DataOk, Integrity, IndexesExist, Shrinks, IndexesOk, NoRef, RowsOk, KeysOf, WithColumn,
           WithoutKeys, Caused, Collected, Closed, OnlyHolders, Doomed, RowsFit, IndexedOn;
      var def := schema[child];
      var fk := def.fks[i];
      FkIsOk(schema, rank, child, i);
      TableIsOk(schema, rank, child);
      TableRowsOk(schema, data, child);
      ShrinksSelf(data);
      var matching := FindRowsMatchingValue(child, fk.col, Val(v));
      ghost var rows, d := data[child], data;
      ColumnCleared(def, rows, KeysOf(def, matching), fk.col, v);
      CausedSelf(schema, data, {(fk.parent, v)});
      if |matching| == 0 {
        NothingMatches(def, rows, fk.col, v);
        return true;
      }
      FoundOnly(def, rows, matching, fk.col, v);
      ghost var free := Closed(schema, d, doom, sound) && (fk.parent, v) in doom;
      if free { ClosedBelow(schema, d, doom, sound, child, i, v, KeysOf(def, matching)); }
      match fk.onDelete {
        case Restrict =>
          SomeHolder(def, rows, matching, fk.col, v);
          return false;
        case Cascade =>
          ok := DeleteRowsFromTable(child, matching, doom, sound);
          if ok { CascadeCaused(schema, d, data, child, i, matching, v); }
        case SetNull =>
          ghost var done;
          FoundOnlySome(rows, fk.col, v, KeysOf(def, matching));
          NullsFit(def, rows, fk.col, v, matching);
          ReadyStill(schema, child, sound, Indexed());
          if free { ClosedNulls(schema, d, doom, sound, child, i, v, KeysOf(def, matching)); }
          ok, done := UpdateColumnInRows(child, fk.col, Null, matching);
          NullKeepsIntegrity(schema, d, child, done, fk.col);
          if ok { CausedNulls(schema, d, child, i, done, v); }
      }
    }

    /** Deletes collected rows, children first. */
    method DeleteRowsFromTable(table: Name, rs: seq<Row>, ghost doom: Doom, ghost sound: bool) returns (ok: bool)
      requires Valid() && table in schema && table in rank && table in data && Collected(schema[table], data[table], rs)
      requires sound ==> Indexed()
      modifies this
      ensures Valid() && Shrinks(old(data), data)
      ensures forall u :: u in old(data) && u in rank && rank[u] >= rank[table] && u != table
                ==> u in data && data[u] == old(data)[u]
      ensures ok ==> table in data && data[table] == WithoutKeys(old(data)[table], KeysOf(schema[table], rs))
      ensures ok ==> Caused(schema, old(data), data, Doomed(table, KeysOf(schema[table], rs)))
      ensures Closed(schema, old(data), doom, sound) && Doomed(table, KeysOf(schema[table], rs)) <= doom
              ==> ok && Closed(schema, data, doom, sound)
      ensures ok && old(Indexed()) ==> Indexed()
      decreases rank[table], 2
    {
      hide SchemaOk, DataOk, Integrity, IndexesExist, Shrinks, IndexesOk, RowsOk, KeysOf, WithoutKeys, Caused, Doomed,
           Closed;
      var def := schema[table];
      TableIsOk(schema, rank, table);
      TableRowsOk(schema, data, table);
      ShrinksSelf(data);
      WithoutNone(def, data[table]);
      assert rs[..0] == [];
      CausedSelf(schema, data, Doomed(table, KeysOf(def, rs[..0])));
      var i := 0;
      while i < |rs|
        invariant 0 <= i <= |rs| && Valid() && Shrinks(old(data), data)
        invariant forall u :: u in old(data) && u in rank && rank[u] >= rank[table] && u != table
                    ==> u in data && data[u] == old(data)[u]
        invariant table in data && data[table] == WithoutKeys(old(data)[table], KeysOf(def, rs[..i]))
        invariant Caused(schema, old(data), data, Doomed(table, KeysOf(def, rs[..i])))
        invariant old(Indexed()) ==> Indexed()
        invariant Closed(schema, old(data), doom, sound) && Doomed(table, KeysOf(def, rs)) <= doom
                  ==> Closed(schema, data, doom, sound)
      {
        ghost var d := data;
        assert rs[..i + 1] == rs[..i] + [rs[i]];
        KeysOfMore(def, rs[..i], rs[i]);
        KeysOfPrefix(def, rs, i);
        StillUnremoved(old(data)[table], KeysOf(def, rs[..i]), rs[i][def.pk].key);
        DoomedHas(table, KeysOf(def, rs), rs[i][def.pk].key);
        ok := DeleteOneRow(table, rs[i], doom, sound);
        ShrinksAgain(old(data), d, data);
        if !ok { return; }
        OneMoreDoomed(schema, old(data), d, data, table, KeysOf(def, rs[..i]), rs[i][def.pk].key);
        OneMoreRemoved(old(data)[table], KeysOf(def, rs[..i]), rs[i][def.pk].key);
        i := i + 1;
      }
      assert rs[..i] == rs;
      ok := true;
    }

    /** One row: its children, the row itself, its index entries. */
    method DeleteOneRow(table: Name, row: Row, ghost doom: Doom, ghost sound: bool) returns (ok: bool)
      requires Valid() && table in schema && table in rank && table in data && schema[table].pk < |row|
               && row[schema[table].pk].Val?
      requires row[schema[table].pk].key in data[table] && data[table][row[schema[table].pk].key] == row
      requires sound ==> Indexed()
      modifies this
      ensures Valid() && Shrinks(old(data), data)
      ensures forall u :: u in old(data) && u in rank && rank[u] >= rank[table] && u != table
                ==> u in data && data[u] == old(data)[u]
      ensures ok ==> table in data && data[table] == old(data)[table] - {row[schema[table].pk].key}
      ensures ok ==> Caused(schema, old(data), data, {(table, row[schema[table].pk].key)})
      ensures Closed(schema, old(data), doom, sound) && (table, row[schema[table].pk].key) in doom
              ==> ok && Closed(schema, data, doom, sound)
      ensures ok && old(Indexed()) ==> Indexed()
      decreases rank[table], 2, 0
    {
      hide SchemaOk, DataOk, Integrity, IndexesExist, Shrinks, TableIndexed, RowsOk, Caused, Closed, Keyed;
      var def := schema[table];
      var key := row[def.pk].key;
      ok := ApplyOnDelete(table, key, doom, sound);
      if !ok { return; }
      ghost var free := Closed(schema, data, doom, sound) && (table, key) in doom;
      if free { ClosedHas(schema, data, doom, sound, table, key); }
      TableIsOk(schema, rank, table);
      var e := EncodeKey(def, def.pk, row[def.pk]);
      if e.NoKey? { return false; }
      assert table in data && data[table] == old(data)[table];
      RowWidth(schema, data, table, key);
      ghost var d, ix := data, index;
      var rest := data[table] - {key};
      RemoveKeepsIntegrity(schema, rank, d, table, key);
      ShrinksAgain(old(data), d, d[table := rest]);
      data := data[table := rest];
      assert rest[key := row] == d[table];
      ok := IndexRemove(table, key, row, rest);
      if ok {
        CausedRemoval(schema, d, table, key);
        CausedAgain(schema, old(data), d, d[table := rest], {(table, key)}, {(table, key)});
      }
      if free { ClosedRemoval(schema, d, doom, sound, table, key); }
      if ok && old(Indexed()) {
        OthersIndexed(schema, rank, d, ix, table, rest, index);
      }
    }

    // ----- inserting -----

    /** Every foreign key of the row is NULL or names a row of its parent. */
    method VerifyFKParents(def: TableDef, row: Row) returns (ok: bool)
      requires DataOk(schema, data) && |row| == |def.columns| && TableOk(def)
      requires forall i :: 0 <= i < |def.fks| ==> def.fks[i].parent in schema && TableOk(schema[def.fks[i].parent])
      ensures ok <==> RowRefsOk(def, data, row)
    {
      var i := 0;
      while i < |def.fks|
        invariant 0 <= i <= |def.fks|
        invariant forall j :: 0 <= j < i
                    ==> (row[def.fks[j].col].Val? ==> row[def.fks[j].col].key in data[def.fks[j].parent])
      {
        var fk := def.fks[i];
        var v := row[fk.col];
        if v.Val? {
          var parentDef := schema[fk.parent];
          var rows := FindRowsMatchingValue(fk.parent, parentDef.pk, v);
          HasKey(parentDef, data[fk.parent], rows, v.key);
          if |rows| == 0 { return false; }
        }
        i := i + 1;
      }
      return true;
    }

    /** One VALUES row: constraints, foreign keys, the row, its index entries. */
    method InsertOneRow(table: Name, row: Row) returns (ok: bool, ghost added: bool)
      requires Valid() && table in schema && |row| == |schema[table].columns|
      modifies this
      ensures Valid() && table in old(data)
      ensures ok ==> added
      ensures !added ==> data == old(data)
      ensures added
              ==> schema[table].pk < |row| && row[schema[table].pk].Val?
                  && row[schema[table].pk].key !in old(data)[table]
                        && data == old(data)[table := old(data)[table][row[schema[table].pk].key := row]]
      ensures added <==> Acceptable(schema[table], old(data), table, row)
      ensures ok <==> added && TakesAll(schema[table], row, old(index))
      ensures schema[table].indexes == [] || old(Indexed())
              ==> (ok <==> added && Keyed(schema[table], row) && Unheld(schema[table], old(data)[table], row))
      ensures ok && old(Indexed()) ==> Indexed()
    {
      hide Integrity, IndexesExist, TableIndexed;
      var def := schema[table];
      TableIsOk(schema, rank, table);
      ParentsAreOk(schema, rank, table);
      var c := 0;
      while c < |def.columns|
        invariant 0 <= c <= |def.columns| && forall b :: 0 <= b < c && def.columns[b].notNull ==> row[b].Val?
      {
        if def.columns[c].notNull && row[c].Null? { return false, false; }
        c := c + 1;
      }
      var verified := VerifyFKParents(def, row);
      if !verified { return false, false; }
      var e := EncodeKey(def, def.pk, row[def.pk]);
      if e.NoKey? || e.key in data[table] { return false, false; }
      hide SchemaOk, DataOk, RowRefsOk;
      InsertKeepsIntegrity(schema, rank, data, table, e.key, row);
      ghost var rows, d, ix := data[table], data, index;
      data := data[table := data[table][e.key := row]];
      added := true;
      ok := IndexInsert(table, e.key, row, rows);
      if ok && old(Indexed()) {
        OthersIndexed(schema, rank, d, ix, table, rows[e.key := row], index);
      }
    }

    // ----- updating -----

    /** The invariants that hold even in the middle of an update. */
    ghost predicate Sound()
      reads this
    {
      SchemaOk(schema, rank) && DataOk(schema, data) && IndexesExist(schema, index)
    }

    /** Enforces ON UPDATE when a primary key changes. If it stops midway, the new key is all that may be missing. */
    method ApplyOnUpdate(parent: Name, was: Key, now: Key) returns (ok: bool)
      requires Sound() && IntegrityPlus(schema, data, parent, now) && was != now
      modifies this
      ensures Sound() && IntegrityPlus(schema, data, parent, now) && SameKeys(old(data), data)
      ensures data.Keys == old(data).Keys == schema.Keys
      ensures ok ==> NoRefs(schema, data, parent, was)
      ensures ok ==> forall u :: u in schema && u in data && u in old(data) ==> FollowedIn(schema, old(data), data, parent, was, now, u)
      ensures ok ==> AllFollowable(schema, old(data), parent, was)
      ensures ReadyAround(schema, parent, old(Indexed())) && AllFollowable(schema, old(data), parent, was)
              && AllUnclashed(schema, old(data), parent, was, now)
              ==> ok
      ensures old(Integrity(schema, data)) && !CascadesFrom(schema, old(data), parent, was) ==> Integrity(schema, data)
      ensures ReadyAround(schema, parent, old(Indexed())) && CarriedThenRefused(schema, old(data), parent, was)
              && AllUnclashed(schema, old(data), parent, was, now) && now !in old(data)[parent]
              ==> !ok && !Integrity(schema, data)
      ensures forall u :: u in schema && StaysPut(schema[u], parent) && u in data && u in old(data)
                ==> data[u] == old(data)[u]
      ensures ok && old(Indexed()) ==> Indexed()
    {
      hide SchemaOk, DataOk, Integrity, IntegrityPlus, IndexesExist, IndexesOk, TableNoRef, SameKeys, RepointAll,
           Followable, CascadesIn, NotChild, Ready, StaysPut, CarriesFirst, Swept, NoRefs, AllUnclashed, Unclashed;
      ok := true;
      var left := schema.Keys;
      SameKeysSelf(data);
      SweptStarts(schema, data, parent, was, now);
      while left != {}
        invariant Sound() && IntegrityPlus(schema, data, parent, now) && SameKeys(old(data), data)
                  && left <= schema.Keys && ok
        invariant Swept(schema, old(data), data, left, parent, was, now)
        invariant old(Integrity(schema, data)) && !CascadesFrom(schema, old(data), parent, was)
                  ==> Integrity(schema, data)
        invariant old(Indexed()) ==> Indexed()
        decreases left
      {
        var child :| child in left;
        ghost var d := data;
        NotOwnChild(schema, rank, child);
        SweptNext(schema, old(data), data, left, parent, was, now, child);
        if NotChild(schema[child], parent) { StrangerFollows(schema[child], data[child], parent, was); }
        if AllUnclashed(schema, old(data), parent, was, now) {
          UnclashedAt(schema, old(data), parent, was, now, child);
        }
        ReadyStill(schema, child, old(Indexed()), Indexed());
        ok := ApplyOnUpdateTo(child, parent, was, now);
        SameKeysAgain(old(data), d, data);
        SweptStops(schema, old(data), d, data, left, parent, was, now, child);
        if !ok { return; }
        SweptMore(schema, old(data), d, data, left, parent, was, now, child);
        left := left - {child};
      }
      SweptAll(schema, old(data), data, parent, was, now);
    }

    method ApplyOnUpdateTo(child: Name, parent: Name, was: Key, now: Key) returns (ok: bool)
      requires Sound() && IntegrityPlus(schema, data, parent, now) && was != now && child in schema
      modifies this
      ensures Sound() && IntegrityPlus(schema, data, parent, now) && SameKeys(old(data), data)
      ensures child in old(data) && child in data && data == old(data)[child := data[child]]
      ensures ok ==> TableNoRef(schema[child], data[child], parent, was)
      ensures ok ==> data[child] == RepointAll(schema[child], old(data)[child], parent, was, now, |schema[child].fks|)
      ensures ok ==> Followable(schema[child], old(data)[child], parent, was)
      ensures (Ready(schema[child], old(Indexed())) || NotChild(schema[child], parent))
              && Followable(schema[child], old(data)[child], parent, was)
              && Unclashed(schema[child], old(data)[child], parent, was, now)
              ==> ok
      ensures StaysPut(schema[child], parent) ==> data == old(data)
      ensures old(Integrity(schema, data)) && !CascadesIn(schema[child], old(data)[child], parent, was)
              ==> Integrity(schema, data)
      ensures ok && CascadesIn(schema[child], old(data)[child], parent, was) && parent in old(data)
              && now !in old(data)[parent]
              ==> !Integrity(schema, data)
      ensures !ok && TooLate(schema, old(data), child, parent, was, now, old(Indexed())) ==> !Integrity(schema, data)
      ensures ok && old(Indexed()) ==> Indexed()
    {
      hide SchemaOk, DataOk, Integrity, IntegrityPlus, IndexesExist, IndexesOk, TableNoRef, SameKeys, RowsOk, KeysOf,
           WithColumn, RepointAll, Holders, NoRef, Followable, CascadesIn, Ready, OnlyHolders, TableOk, Blocks, Clashes,
           Unclashed, TooLate, FollowsTo, StaysPut, NotChild;
      var def := schema[child];
      TableIsOk(schema, rank, child);
      TableRowsOk(schema, data, child);
      SameKeysSelf(data);
      NotOwnChild(schema, rank, child);
      FollowsStart(schema, data, child, parent, was, now);
      var i := 0;
      while i < |def.fks|
        invariant 0 <= i <= |def.fks| && Sound() && IntegrityPlus(schema, data, parent, now)
                  && SameKeys(old(data), data)
        invariant FollowsTo(schema, old(data), data, child, parent, was, now, i)
        invariant old(Indexed()) ==> Indexed()
      {
        ghost var d := data;
        if def.fks[i].parent == parent {
          ghost var ks, w;
          FollowsNext(schema, old(data), data, child, parent, was, now, i);
          ReadyStill(schema, child, old(Indexed()), Indexed());
          ok, ks, w := ApplyOnUpdateFk(child, i, was, now);
          SameKeysAgain(old(data), d, data);
          if !ok {
            FollowsStop(schema, old(data), d, data, child, parent, was, now, i, ks, w, old(Indexed()));
            return;
          }
          FollowsOne(schema, old(data), d, data, child, parent, was, now, i, ks, w);
        } else {
          FollowsSkip(schema, old(data), data, child, parent, was, now, i);
        }
        i := i + 1;
      }
      FollowsEnd(schema, old(data), data, child, parent, was, now);
      ok := true;
    }

    /** Enforces ON UPDATE through one foreign key: the column becomes the new key, or NULL, in the rows `ks`. */
    method ApplyOnUpdateFk(child: Name, i: nat, was: Key,
                           now: Key) returns (ok: bool, ghost ks: set<Key>, ghost w: Value)
      requires Sound() && child in schema && i < |schema[child].fks| && was != now
      requires IntegrityPlus(schema, data, schema[child].fks[i].parent, now)
      modifies this
      ensures Sound() && IntegrityPlus(schema, data, schema[child].fks[i].parent, now) && SameKeys(old(data), data)
      ensures child in old(data) && child in data
              && w == (if schema[child].fks[i].onUpdate == Cascade then Val(now) else Null)
      ensures data == old(data)[child := WithColumn(old(data)[child], ks, schema[child].fks[i].col, w)]
      ensures OnlyHolders(old(data)[child], schema[child].fks[i].col, was, ks)
      ensures ok
              ==> Holders(old(data)[child], schema[child].fks[i].col, was, ks)
                  && NoRef(data[child], schema[child].fks[i].col, was)
      ensures ok ==> !Blocks(schema[child], old(data)[child], schema[child].fks[i], was)
      ensures Ready(schema[child], old(Indexed()))
              && !Blocks(schema[child], old(data)[child], schema[child].fks[i], was)
              && !Clashes(schema[child], old(data)[child], schema[child].fks[i], was, now)
              ==> ok
      ensures schema[child].fks[i].onUpdate == Restrict ==> data == old(data)
      ensures old(Integrity(schema, data)) && (w == Null || NoRef(old(data)[child], schema[child].fks[i].col, was))
              ==> Integrity(schema, data)
      ensures ok && old(Indexed()) ==> Indexed()
    {
      hide SchemaOk, DataOk, Integrity, IntegrityPlus, IndexesExist, IndexesOk, NoRef, SameKeys, RowsOk, KeysOf,
           WithColumn, Holders, OnlyHolders,
           Collected, Matching, RowsFit, Stuck, IndexedOn;
      var def := schema[child];
      var fk := def.fks[i];
      FkIsOk(schema, rank, child, i);
      TableIsOk(schema, rank, child);
      TableRowsOk(schema, data, child);
      ghost var d := data;
      var matching := FindRowsMatchingValue(child, fk.col, Val(was));
      w := if fk.onUpdate == Cascade then Val(now) else Null;
      FoundHolders(def, d[child], matching, fk.col, was);
      ghost var found := KeysOf(def, matching);
      ok, ks := |matching| == 0, {};
      if |matching| > 0 {
        SomeHolder(def, d[child], matching, fk.col, was);
        NullsFit(def, d[child], fk.col, was, matching);
        if Ready(def, Indexed()) && !Stuck(def, fk.col) && !Clashes(def, d[child], fk, was, now)
            && fk.onUpdate == Cascade {
          CarriedFits(schema, d, index, child, fk.col, was, now, matching);
        }
        match fk.onUpdate {
          case Restrict =>
          case Cascade => ok, ks := UpdateColumnInRows(child, fk.col, Val(now), matching);
          case SetNull => ok, ks := UpdateColumnInRows(child, fk.col, Null, matching);
        }
      } else {
        NoKeys(def);
      }
      assert data == d[child := WithColumn(d[child], ks, fk.col, w)] by {
        WithNothing(d[child], fk.col, w);
        assert d[child := d[child]] == d;
      }
      FewerHolders(d[child], fk.col, was, found, ks);
      RewriteKeepsIntegrity(schema, rank, d, child, i, ks, w, fk.parent, now);
      if ok { HoldersRewritten(d[child], fk.col, was, ks, w); }
      if Integrity(schema, d) && (w == Null || NoRef(d[child], fk.col, was)) {
        FollowKeepsIntegrity(schema, rank, d, child, i, ks, w, was);
      }
    }

    /**
      * Moves a row's index entries to its new key and new values; its old
      * entries go first, so it is not in its own way.
      */
    method IndexReplace(table: Name, was: Key, oldRow: Row, now: Key, newRow: Row, ghost rest: Rows) returns (ok: bool)
      requires table in schema && TableOk(schema[table]) && IndexesExist(schema, index)
      requires |oldRow| == |newRow| == |schema[table].columns|
      modifies this`index
      ensures IndexesExist(schema, index) && OnlyOwn(schema[table], old(index), index)
      ensures ok && was !in rest && now !in rest && TableIndexed(schema[table], rest[was := oldRow], old(index))
              ==> TableIndexed(schema[table], rest[now := newRow], index)
      ensures schema[table].indexes == [] ==> ok
      ensures ok <==> SwapsAll(schema[table], oldRow, newRow, old(index))
      ensures was !in rest && now !in rest && TableIndexed(schema[table], rest[was := oldRow], old(index))
              ==> (ok <==> IndexesFree(schema[table], rest, oldRow, newRow))
    {
      hide IndexOk, IndexAt, TableIndexed, Mixed, IndexesExist, OnlyOwn, TableOk, Swaps, IndexesFree;
      var def := schema[table];
      ghost var a, b := rest[now := newRow], rest[was := oldRow];
      ghost var good := was !in rest && now !in rest && TableIndexed(def, b, old(index));
      OwnStarts(def, index);
      if good { SwapsIs(def, rest, index, was, oldRow, newRow); }
      AllSame(schema, table, index);
      if good { MixedStarts(def, a, b, index); }
      var i := 0;
      while i < |def.indexes|
        invariant 0 <= i <= |def.indexes| && IndexesExist(schema, index) && OnlyOwn(def, old(index), index)
        invariant good ==> Mixed(def, a, b, index, i)
        invariant forall j: nat :: j < i ==> Swaps(def, oldRow, newRow, old(index), j)
        invariant forall j: nat :: i <= j < |def.indexes| ==> SameEntry(index, old(index), def.indexes[j].name)
      {
        OwnAt(schema, table, index, i);
        var ix := def.indexes[i];
        var e := EncodeKey(def, ix.col, oldRow[ix.col]);
        var f := EncodeKey(def, ix.col, newRow[ix.col]);
        assert SameEntry(index, old(index), def.indexes[i].name);
        SwapsAt(def, oldRow, newRow, old(index), i);
        if e.NoKey? || f.NoKey? || e.key !in index[ix.name] { return false; }
        var m := index[ix.name] - {e.key};
        if f.key in m {
          OwnStep(schema, table, old(index), index, i, m);
          index := index[ix.name := m];
          return false;
        }
        if good {
          MixedAt(def, a, b, index, i);
          IndexEntryGone(rest, ix.col, index[ix.name], was, oldRow);
          IndexEntryNew(rest, ix.col, m, now, newRow);
          MixedStep(def, a, b, index, i, m[f.key := now]);
        }
        OwnStep(schema, table, old(index), index, i, m[f.key := now]);
        SameBeyond(def, index, old(index), i, m[f.key := now]);
        index := index[ix.name := m[f.key := now]];
        i := i + 1;
      }
      if good { MixedEnds(def, a, b, index); }
      return true;
    }

    /**
      * One matched row of an UPDATE whose SET clause has been applied. A failure
      * leaves a reference dangling only where a key moves to one that is not
      * there while a cascade carries it; a collision loses the row.
      */
    method UpdateOneMatch(table: Name, oldRow: Row, newRow: Row) returns (ok: bool)
      requires Valid() && table in schema && table in data && |oldRow| == |newRow| == |schema[table].columns|
      requires schema[table].pk < |oldRow| && oldRow[schema[table].pk].Val?
      requires oldRow[schema[table].pk].key in data[table] && data[table][oldRow[schema[table].pk].key] == oldRow
      modifies this
      ensures Sound() && (ok ==> Valid()) && table in old(data) && table in data
              && OtherKeysSame(schema, old(data), data, table)
      ensures ok ==> var was, now := oldRow[schema[table].pk].key, KeyAt(newRow, schema[table].pk);
                     data[table] == (old(data)[table] - {was})[now := newRow]
                         && Repointed(schema, old(data), data, table, was, now)
      ensures ok ==> Passable(schema, old(data), table, oldRow[schema[table].pk].key, newRow)
      ensures ok && old(Indexed())
              ==> IndexesFree(schema[table], old(data)[table] - {oldRow[schema[table].pk].key}, oldRow, newRow)
      ensures ReadyAround(schema, table, old(Indexed()))
              && Passable(schema, old(data), table, oldRow[schema[table].pk].key, newRow)
              && IndexesFree(schema[table], old(data)[table] - {oldRow[schema[table].pk].key}, oldRow, newRow)
              ==> ok
      ensures newRow[schema[table].pk].Null? ==> Valid() && data == old(data)
      ensures Harmless(schema, old(data), table, oldRow[schema[table].pk].key, KeyAt(newRow, schema[table].pk),
              old(Indexed()))
              ==> Valid()
      ensures !ok
              ==> data[table] == old(data)[table] || data[table] == old(data)[table] - {oldRow[schema[table].pk].key}
                      || data[table] == (old(data)[table] - {oldRow[schema[table].pk].key})[KeyAt(newRow,
                          schema[table].pk) := newRow]
      ensures ReadyAround(schema, table, old(Indexed()))
              && Colliding(schema, old(data), table, oldRow[schema[table].pk].key, newRow)
              ==> !ok && Valid() && data[table] == old(data)[table] - {oldRow[schema[table].pk].key}
      ensures ReadyAround(schema, table, old(Indexed()))
              && Stranding(schema, old(data), table, oldRow[schema[table].pk].key, newRow)
              ==> !ok && !Integrity(schema, data)
      ensures ok && old(Indexed()) ==> Indexed()
    {
      hide SchemaOk, DataOk, Integrity, IntegrityPlus, NoRefs, RowRefsOk, SameKeys, TableOk, NotChild, IndexesOk,
           IndexesExist, RowsOk, RepointAll,
           OtherKeysSame, AllFollowable, CascadesFrom, StaysPut, Followable, CascadesIn,
           CarriedThenRefused, AllUnclashed, IndexesFree;
      var def := schema[table];
      TableIsOk(schema, rank, table);
      ParentsAreOk(schema, rank, table);
      PrimaryKeyIn(def);
      SameKeysSelf(data);
      SameKeysElsewhere(schema, data, data, table, data[table]);
      var e := EncodeKey(def, def.pk, oldRow[def.pk]);
      var f := EncodeKey(def, def.pk, newRow[def.pk]);
      if e.NoKey? || f.NoKey? { return false; }
      var was, now := e.key, f.key;
      var verified := VerifyFKParents(def, newRow);
      if !verified { return false; }
      ghost var d0 := data;
      MoreThanIntegrity(schema, data, table, now);
      NotOwnChild(schema, rank, table);
      StrangerFollows(def, data[table], table, was);
      if now !in data[table] { NoneClash(schema, data, table, was, now); }
      if was != now {
        var applied := ApplyOnUpdate(table, was, now);
        SameKeysElsewhere(schema, d0, data, table, data[table]);
        if !applied {
          if now in data[table] { PlusExisting(schema, data, table, now); }
          return false;
        }
      }
      SameKeysElsewhere(schema, d0, data, table, data[table] - {was});
      SameKeysElsewhere(schema, d0, data, table, (data[table] - {was})[now := newRow]);
      RefsStillOk(def, d0, data, newRow);
      ok := Rekey(table, was, oldRow, now, newRow);
    }

    /**
      * The row leaves its old key and arrives under the new one, its index
      * entries with it. If the new key is taken, the row has left and does not
      * arrive.
      */
    method Rekey(table: Name, was: Key, oldRow: Row, now: Key, newRow: Row) returns (ok: bool)
      requires Sound() && table in schema && table in data && |oldRow| == |newRow| == |schema[table].columns|
      requires was in data[table] && data[table][was] == oldRow
      requires IntegrityPlus(schema, data, table, now) && (was == now || NoRefs(schema, data, table, was))
      requires schema[table].pk < |newRow| && newRow[schema[table].pk] == Val(now)
               && RowRefsOk(schema[table], data, newRow)
      modifies this
      ensures Valid()
      ensures now != was && now in old(data)[table] ==> !ok && data == old(data)[table := old(data)[table] - {was}]
      ensures now == was || now !in old(data)[table]
              ==> data == old(data)[table := (old(data)[table] - {was})[now := newRow]]
      ensures Ready(schema[table], old(Indexed())) && (now == was || now !in old(data)[table])
              && IndexesFree(schema[table], old(data)[table] - {was}, oldRow, newRow)
              ==> ok
      ensures ok && old(Indexed()) ==> IndexesFree(schema[table], old(data)[table] - {was}, oldRow, newRow)
      ensures ok && old(Indexed()) ==> Indexed()
    {
      hide SchemaOk, DataOk, Integrity, IntegrityPlus, NoRefs, RowRefsOk, TableOk, TableIndexed, IndexesExist,
           IndexesFree;
      TableIsOk(schema, rank, table);
      RekeyKeepsIntegrityHere(table, was, now, newRow);
      ghost var d, ix := data, index;
      var rest := data[table] - {was};
      if now in rest {
        PlusExisting(schema, d, table, now);
        RemoveKeepsIntegrity(schema, rank, d, table, was);
        data := data[table := rest];
        return false;
      }
      data := data[table := rest[now := newRow]];
      assert rest[was := oldRow] == d[table];
      ok := IndexReplace(table, was, oldRow, now, newRow, rest);
      if ok && old(Indexed()) {
        OthersIndexed(schema, rank, d, ix, table, rest[now := newRow], index);
      }
    }

    lemma {:induction false} RekeyKeepsIntegrityHere(table: Name, was: Key, now: Key, newRow: Row)
      requires SchemaOk(schema, rank) && DataOk(schema, data) && table in schema && table in data && was in data[table]
      requires IntegrityPlus(schema, data, table, now) && (was == now || NoRefs(schema, data, table, was))
      requires |newRow| == |schema[table].columns| && schema[table].pk < |newRow|
               && newRow[schema[table].pk] == Val(now)
      requires RowRefsOk(schema[table], data, newRow)
      ensures var d := data[table := (data[table] - {was})[now := newRow]];
              DataOk(schema, d) && Integrity(schema, d)
    {
      RekeyKeepsIntegrity(schema, rank, data, table, was, now, newRow);
    }

    // ----- statements -----

    /** All tables empty, all indexes empty. */
    constructor (schema: Schema, ghost rank: map<Name, nat>)
      requires SchemaOk(schema, rank)
      ensures Valid() && Indexed() && this.schema == schema && this.rank == rank
      ensures forall t :: t in schema ==> data[t] == map[]
    {
      hide SchemaOk, DataOk, Integrity, IndexesOk, IndexesExist;
      this.schema, this.rank := schema, rank;
      data := map t | t in schema :: map[];
      var names := set t, i | t in schema && 0 <= i < |schema[t].indexes| :: schema[t].indexes[i].name;
      index := map n | n in names :: map[];
      new;
      EmptyDatabase(schema, rank, data, index);
    }

    /** The rows a WHERE clause selects, collected before anything changes. */
    method CollectMatching(table: Name, where: Row -> Verdict) returns (rs: seq<Row>, failed: bool)
      requires table in schema && table in data && TableOk(schema[table]) && RowsOk(schema[table], data[table])
      ensures Collected(schema[table], data[table], rs)
      ensures !failed
              ==> forall k :: k in data[table] ==> (k in KeysOf(schema[table], rs) <==> where(data[table][k]) == Yes)
      ensures failed <==> exists k :: k in data[table] && where(data[table][k]) == Failed
    {
      var def, rows := schema[table], data[table];
      hide KeysOf;
      NoKeys(def);
      rs, failed := [], false;
      var left := rows.Keys;
      while left != {}
        invariant left <= rows.Keys && Collected(def, rows, rs) && !failed
        invariant forall i :: 0 <= i < |rs| ==> rs[i][def.pk].key !in left
        invariant forall k :: k in rows ==> (k in KeysOf(def, rs) <==> k !in left && where(rows[k]) == Yes)
        invariant forall k :: k in rows && k !in left ==> where(rows[k]) != Failed
        decreases left
      {
        var k :| k in left;
        assert RowOk(def, k, rows[k]);
        match where(rows[k]) {
          case Failed => failed := true; return;
          case No =>
          case Yes =>
            KeysOfMore(def, rs, rows[k]);
            rs := rs + [rows[k]];
        }
        left := left - {k};
      }
    }

    /** DELETE: keeps referential integrity even when it stops with an error. */
    method ExecuteDelete(table: Name, where: Row -> Verdict) returns (ok: bool)
      requires Valid()
      modifies this
      ensures Valid() && Shrinks(old(data), data)
      ensures ok ==> table in schema && table in old(data) && table in data
      ensures ok ==> forall k :: k in data[table] <==> k in old(data)[table] && where(old(data)[table][k]) != Yes
      ensures ok ==> Deleted(schema, old(data), data, table, Selected(old(data)[table], where))
      ensures table !in schema ==> !ok && data == old(data)
      ensures Deletable(schema, old(data), table, where, old(Indexed())) ==> ok
      ensures AllReady(schema, old(Indexed())) && Unmixed(schema)
              ==> (ok <==> Deletable(schema, old(data), table, where, old(Indexed())))
      ensures ok ==> NeverFails(old(data), table, where)
      ensures ok && old(Indexed()) ==> Indexed()
    {
      hide SchemaOk, DataOk, Integrity, IndexesExist, IndexesOk, Shrinks, KeysOf, TableOk, RowsOk, Caused, Doomed,
           Unobstructed, Unmixed, Ready,
           Closed;
      ShrinksSelf(data);
      if table !in schema { return false; }
      TableIsOk(schema, rank, table);
      TableRowsOk(schema, data, table);
      TableRanked(schema, rank, table);
      var rs, failed := CollectMatching(table, where);
      if failed { return false; }
      CollectedIsSelected(schema[table], data[table], rs, where);
      ghost var before, selected, sound := data, Selected(data[table], where), Indexed();
      ghost var doom := Dooming(schema, data, table, selected, sound);
      ok := DeleteRowsFromTable(table, rs, doom, sound);
      if ok && AllReady(schema, sound) && Unmixed(schema) {
        DeletedIsUnobstructed(schema, rank, before, data, table, selected, sound);
      }
    }

    /** INSERT: keeps referential integrity even when it stops with an error; the first `n` rows are there. */
    method ExecuteInsert(table: Name, values: seq<Built>) returns (ok: bool, ghost n: nat)
      requires Valid()
      requires table in schema
               ==> forall i :: 0 <= i < |values| && values[i].Built? ==> |values[i].row| == |schema[table].columns|
      modifies this
      ensures Valid() && n <= |values| && (ok ==> table in schema && n == |values|)
      ensures table !in schema ==> data == old(data)
      ensures table in schema
              ==> table in old(data)
                  && data == old(data)[table := Added(old(data)[table], schema[table].pk, values[..n])]
      ensures table in schema && (schema[table].indexes == [] || old(Indexed()))
              ==> (ok <==> forall i: nat :: i < |values| ==> Enters(schema[table], old(data), table, values, i))
      ensures table in schema && !ok && (schema[table].indexes == [] || old(Indexed()))
              ==> (n < |values| && (values[n].Unbuildable? || !Acceptable(schema[table], data, table, values[n].row)))
                  || (n > 0 && !Enters(schema[table], old(data), table, values, n - 1))
      ensures ok && old(Indexed()) ==> Indexed()
    {
      hide SchemaOk, DataOk, Integrity, IndexesExist, IndexesOk, Acceptable, Keyed, Unheld, Enters, TakesAll, Added;
      n := 0;
      if table !in schema { return false, 0; }
      TableRowsOk(schema, data, table);
      AddedNone(data, table, schema[table].pk, values);
      var i := 0;
      while i < |values|
        invariant 0 <= i <= |values| && n == i && Valid() && table in data
        invariant data == old(data)[table := Added(old(data)[table], schema[table].pk, values[..n])]
        invariant old(Indexed()) ==> Indexed()
        invariant schema[table].indexes == [] || old(Indexed())
                  ==> forall j: nat :: j < i ==> Enters(schema[table], old(data), table, values, j)
      {
        EntersIs(schema[table], old(data), table, values, i, data);
        if values[i].Unbuildable? { return false, n; }
        ghost var added;
        ok, added := InsertOneRow(table, values[i].row);
        if added {
          AddedMore(old(data), table, schema[table].pk, values, i);
          n := n + 1;
        }
        if !ok { return; }
        i := i + 1;
      }
      ok := true;
    }

    /**
      * UPDATE: keeps referential integrity whenever it succeeds, and when it
      * fails too unless a selected row's key moves to one not in the table
      * while a cascading reference holds the old one.
      */
    method ExecuteUpdate(table: Name, assignments: seq<Assignment>, where: Row -> Verdict) returns (ok: bool)
      requires Valid()
      modifies this
      ensures Sound() && (ok ==> Valid())
      ensures table !in schema ==> !ok && Valid() && data == old(data)
      ensures table in schema ==> table in old(data) && table in data && OtherKeysSame(schema, old(data), data, table)
      ensures ok ==> Updated(old(data)[table], data[table], schema[table].pk, Selected(old(data)[table], where),
              assignments)
      ensures ok ==> OthersUpdated(schema, old(data), data, table, schema[table].pk, Selected(old(data)[table], where),
              assignments)
      ensures ok
              ==> NeverFails(old(data), table, where)
                  && Updatable(schema, old(data), table, Selected(old(data)[table], where), assignments)
      ensures ok && old(Indexed())
              ==> IndexFits(schema[table], old(data)[table], Selected(old(data)[table], where), assignments)
      ensures table in schema && ReadyAround(schema, table, old(Indexed())) && NeverFails(old(data), table, where)
              && Updatable(schema, old(data), table, Selected(old(data)[table], where), assignments)
              && IndexFits(schema[table], old(data)[table], Selected(old(data)[table], where), assignments)
              ==> ok
      ensures table in schema
              && !Breakable(schema, old(data), table, Selected(old(data)[table], where), assignments, old(Indexed()))
              ==> Valid()
      ensures table in schema && ReadyAround(schema, table, old(Indexed())) && NeverFails(old(data), table, where)
              && Loses(schema, old(data), table, Selected(old(data)[table], where), assignments)
              ==> !ok && Valid() && data[table] == old(data)[table] - Selected(old(data)[table], where)
      ensures table in schema && ReadyAround(schema, table, old(Indexed())) && NeverFails(old(data), table, where)
              && MustDangle(schema, old(data), table, Selected(old(data)[table], where), assignments)
              ==> !ok && !Integrity(schema, data)
      ensures ok && old(Indexed()) ==> Indexed()
    {
      hide SchemaOk, DataOk, Integrity, IndexesExist, IndexesOk, KeysOf, TableOk, RowsOk, Progress, Lists, Updated,
           OthersUpdated, Collected,
           Repointed, SetAll, KeyAt, OtherKeysSame, Passable, Assignable, Updatable, Harmless, Breakable, ReadyAround,
               Colliding, Loses,
           MustDangle, Stranding, IndexFits, IndexesFree, IndexedUpTo;
      if table !in schema { return false; }
      TableIsOk(schema, rank, table);
      TableRowsOk(schema, data, table);
      var def := schema[table];
      ghost var before, selected, sound := data, Selected(data[table], where), Indexed();
      ProgressStarts(schema, data, table, [], assignments);
      var rs, failed := CollectMatching(table, where);
      if failed { return false; }
      CollectedIsSelected(def, data[table], rs, where);
      ProgressStarts(schema, data, table, rs, assignments);
      ghost var loses := ReadyAround(schema, table, sound) && Loses(schema, data, table, selected, assignments);
      ghost var dangles := ReadyAround(schema, table, sound) && MustDangle(schema, data, table, selected, assignments);
      if loses { LostRow(schema, data, table, rs, selected, assignments); }
      if dangles { StrandedRow(schema, data, table, rs, selected, assignments); }
      IndexedStarts(def, data[table], rs, selected, assignments);
      var i := 0;
      while i < |rs|
        invariant 0 <= i <= |rs| && Valid() && table in data
                  && Progress(schema, before, data, table, rs, i, assignments)
        invariant OtherKeysSame(schema, before, data, table) && (loses || dangles ==> i == 0 && data == before)
        invariant sound ==> Indexed() && IndexedUpTo(def, before[table], rs, i, selected, assignments)
      {
        ghost var d := data;
        StepReady(schema, rank, before, data, table, rs, i, selected, assignments, sound);
        ReadyStill(schema, table, sound, Indexed());
        HarmlessStill(schema, data, table, KeyAt(rs[i], def.pk), NewKey(rs[i], def.pk, assignments), sound, Indexed());
        StepFree(schema, before, data, table, rs, i, selected, assignments);
        var newRow, fine := Assigned(def, rs[i], assignments);
        if !fine { return false; }
        ok := UpdateOneMatch(table, rs[i], newRow);
        OtherKeysAgain(schema, before, d, data, table);
        if !ok { return; }
        ProgressStep(schema, rank, before, d, data, table, rs, i, assignments);
        if sound { FreeStep(schema, before, d, table, rs, i, selected, assignments); }
        i := i + 1;
      }
      ProgressEnds(schema, before, data, table, rs, selected, assignments);
      if sound { FreeEnds(schema, before, table, rs, selected, assignments); }
      ok := true;
    }
  }

  datatype Verdict = Yes | No | Failed
  datatype Built = Built(row: Row) | Unbuildable

  /**
    * The i-th row can go in once those before it have: a row for the table,
    * with keys for the indexes that nobody holds.
    */
  ghost predicate Enters(def: TableDef, d: Data, t: Name, values: seq<Built>, i: nat)
    requires t in d
  {
    && i < |values| && values[i].Built?
    && var rows := Added(d[t], def.pk, values[..i]);
    Acceptable(def, d[t := rows], t, values[i].row) && Keyed(def, values[i].row) && Unheld(def, rows, values[i].row)
  }

  lemma {:induction false} EntersIs(def: TableDef, d: Data, t: Name, values: seq<Built>, i: nat, cur: Data)
    requires t in d && t in cur && i < |values| && cur == d[t := Added(d[t], def.pk, values[..i])]
    ensures Enters(def, d, t, values, i)
            <==> values[i].Built? && Acceptable(def, cur, t, values[i].row) && Keyed(def, values[i].row)
                 && Unheld(def, cur[t], values[i].row)
  {}

  /** The rows with further ones put in, one after the other. */
  ghost function Added(rows: Rows, pk: nat, values: seq<Built>): Rows {
    if values == [] then rows
    else
      var last := values[|values| - 1];
      var before := Added(rows, pk, values[..|values| - 1]);
      if last.Built? && pk < |last.row| && last.row[pk].Val? then before[last.row[pk].key := last.row] else before
  }

  lemma {:induction false} AddedNone(d: Data, t: Name, pk: nat, values: seq<Built>)
    requires t in d
    ensures d[t := Added(d[t], pk, values[..0])] == d
  {}

  lemma {:induction false} AddedMore(d: Data, t: Name, pk: nat, values: seq<Built>, i: nat)
    requires t in d && i < |values| && values[i].Built? && pk < |values[i].row| && values[i].row[pk].Val?
    ensures var cur := d[t := Added(d[t], pk, values[..i])];
            d[t := Added(d[t], pk, values[..i + 1])] == cur[t := cur[t][values[i].row[pk].key := values[i].row]]
  {
    assert values[..i + 1][..i] == values[..i];
  }

  /** A row with the SET clause applied and NOT NULL checked. */
  method Assigned(def: TableDef, row: Row, assignments: seq<Assignment>) returns (r: Row, ok: bool)
    ensures r == SetAll(row, assignments) || !ok
    ensures ok <==> Assignable(def, row, assignments)
  {
    r := row;
    var i := 0;
    while i < |assignments|
      invariant 0 <= i <= |assignments| && r == SetAll(row, assignments[..i])
      invariant forall j :: 0 <= j < i ==> assignments[j].Assign? && assignments[j].col < |row|
    {
      assert assignments[i] in assignments;
      if assignments[i].BadAssignment? || assignments[i].col >= |row| { return r, false; }
      assert assignments[..i + 1][..i] == assignments[..i];
      r := r[assignments[i].col := assignments[i].value];
      i := i + 1;
    }
    assert assignments[..i] == assignments;
    var c := 0;
    while c < |row| && c < |def.columns|
      invariant 0 <= c <= |row| && forall b :: 0 <= b < c && b < |def.columns| && def.columns[b].notNull ==> r[b].Val?
    {
      if def.columns[c].notNull && r[c].Null? { return r, false; }
      c := c + 1;
    }
    ok := true;
  }

  // ----- what an update does to the tables -----

  /** The keys are those of the rows that hold the value. */
  ghost predicate Holders(rows: Rows, col: nat, v: Key, ks: set<Key>) {
    forall k :: k in rows ==> col < |rows[k]| && (k in ks <==> rows[k][col] == Val(v))
  }

  lemma {:induction false} FoundHolders(def: TableDef, rows: Rows, rs: seq<Row>, col: nat, v: Key)
    requires RowsOk(def, rows) && col < |def.columns|
    requires Collected(def, rows, rs) && Matching(rs, |def.columns|, col, Val(v))
    requires forall k :: k in rows && rows[k][col] == Val(v) ==> k in KeysOf(def, rs)
    ensures Holders(rows, col, v, KeysOf(def, rs)) && OnlyHolders(rows, col, v, KeysOf(def, rs))
    ensures |rs| == 0 ==> NoRef(rows, col, v)
  {
    forall k | k in rows ensures col < |rows[k]| && (k in KeysOf(def, rs) <==> rows[k][col] == Val(v)) {
      assert RowOk(def, k, rows[k]);
    }
  }

  lemma {:induction false} FewerHolders(rows: Rows, col: nat, v: Key, found: set<Key>, ks: set<Key>)
    requires OnlyHolders(rows, col, v, found) && ks <= found
    ensures OnlyHolders(rows, col, v, ks)
  {
  }

  lemma {:induction false} HoldersRewritten(rows: Rows, col: nat, v: Key, ks: set<Key>, w: Value)
    requires Holders(rows, col, v, ks) && w != Val(v)
    ensures NoRef(WithColumn(rows, ks, col, w), col, v)
  {
  }

  lemma {:induction false} RepointHolders(def: TableDef, rows: Rows, parent: Name, was: Key, now: Key, n: nat,
                                          ks: set<Key>, w: Value)
    requires n < |def.fks| && def.fks[n].parent == parent
             && w == if def.fks[n].onUpdate == Cascade then Val(now) else Null
    requires Holders(RepointAll(def, rows, parent, was, now, n), def.fks[n].col, was, ks)
    ensures WithColumn(RepointAll(def, rows, parent, was, now, n), ks, def.fks[n].col, w)
            == RepointAll(def, rows, parent, was, now, n + 1)
  {
    RepointMore(def, rows, parent, was, now, n, ks, w);
  }

  /** One more foreign key followed. */
  lemma {:induction false} FollowedOne(def: TableDef, rows: Rows, parent: Name, was: Key, now: Key, n: nat,
                                       ks: set<Key>, w: Value)
    requires n < |def.fks| && def.fks[n].parent == parent && was != now
             && w == if def.fks[n].onUpdate == Cascade then Val(now) else Null
    requires var mid := RepointAll(def, rows, parent, was, now, n);
             Holders(mid, def.fks[n].col, was, ks) && NoRefUpTo(def, mid, parent, was, n)
    ensures var next := RepointAll(def, rows, parent, was, now, n + 1);
            WithColumn(RepointAll(def, rows, parent, was, now, n), ks, def.fks[n].col, w) == next
                && NoRefUpTo(def, next, parent, was, n + 1)
  {
    hide RepointAll, Holders, NoRefUpTo;
    var mid := RepointAll(def, rows, parent, was, now, n);
    RepointHolders(def, rows, parent, was, now, n, ks, w);
    NoRefUpToRewritten(def, mid, parent, was, n, ks, def.fks[n].col, w);
    HoldersRewritten(mid, def.fks[n].col, was, ks, w);
    CheckedOneMore(def, RepointAll(def, rows, parent, was, now, n + 1), parent, was, n);
  }

  lemma {:induction false} FollowedNone(def: TableDef, rows: Rows, parent: Name, was: Key, now: Key, n: nat)
    requires n < |def.fks| && def.fks[n].parent != parent
             && NoRefUpTo(def, RepointAll(def, rows, parent, was, now, n), parent, was, n)
    ensures var next := RepointAll(def, rows, parent, was, now, n + 1);
            next == RepointAll(def, rows, parent, was, now, n) && NoRefUpTo(def, next, parent, was, n + 1)
  {
    hide RepointAll, NoRefUpTo;
    RepointSkip(def, rows, parent, was, now, n);
    CheckedOneMore(def, RepointAll(def, rows, parent, was, now, n + 1), parent, was, n);
  }

  /** The table has followed its first `i` foreign keys. */
  ghost predicate FollowsTo(s: Schema, a: Data, b: Data, child: Name, parent: Name, was: Key, now: Key, i: nat) {
    && child in s && child in a && child in b && i <= |s[child].fks|
    && b == a[child := RepointAll(s[child], a[child], parent, was, now, i)]
    && NoRefUpTo(s[child], b[child], parent, was, i) && FollowableUpTo(s[child], a[child], parent, was, i)
    && (StaysPut(s[child], parent) ==> b == a)
    && (Integrity(s, a) && !CascadesIn(s[child], a[child], parent, was) ==> Integrity(s, b))
  }

  lemma {:induction false} FollowsStart(s: Schema, d: Data, child: Name, parent: Name, was: Key, now: Key)
    requires child in s && child in d
    ensures FollowsTo(s, d, d, child, parent, was, now, 0)
  {
    hide RepointAll, Integrity, NoRef, StaysPut, CascadesIn;
    RepointNone(s[child], d[child], parent, was, now);
    assert d[child := d[child]] == d;
  }

  lemma {:induction false} FollowsSkip(s: Schema, a: Data, b: Data, child: Name, parent: Name, was: Key, now: Key,
                                       i: nat)
    requires FollowsTo(s, a, b, child, parent, was, now, i) && i < |s[child].fks| && s[child].fks[i].parent != parent
    ensures FollowsTo(s, a, b, child, parent, was, now, i + 1)
  {
    hide RepointAll, NoRefUpTo, FollowableUpTo, Integrity, StaysPut, CascadesIn;
    FollowedNone(s[child], a[child], parent, was, now, i);
    FollowableMore(s[child], a[child], parent, was, i);
  }

  /** The next foreign key finds its column as it was. */
  lemma {:induction false} FollowsNext(s: Schema, a: Data, b: Data, child: Name, parent: Name, was: Key, now: Key,
                                       i: nat)
    requires FollowsTo(s, a, b, child, parent, was, now, i) && i < |s[child].fks| && s[child].fks[i].parent == parent
    requires TableOk(s[child]) && RowsOk(s[child], a[child])
    ensures Blocks(s[child], b[child], s[child].fks[i], was) <==> Blocks(s[child], a[child], s[child].fks[i], was)
    ensures Clashes(s[child], b[child], s[child].fks[i], was, now)
            <==> Clashes(s[child], a[child], s[child].fks[i], was, now)
  {
    hide RepointAll, NoRefUpTo, FollowableUpTo, Integrity, TableOk, RowsOk, Blocks, Clashes, StaysPut, CascadesIn,
         NoRef;
    NextColumn(s[child], a[child], parent, was, now, i);
  }

  /** What following one more foreign key, even partly, leaves as it was. */
  lemma {:induction false} FollowsPartly(s: Schema, a: Data, b: Data, c: Data, child: Name, parent: Name, was: Key,
                                         now: Key, i: nat, w: Value)
    requires FollowsTo(s, a, b, child, parent, was, now, i) && i < |s[child].fks| && s[child].fks[i].parent == parent
    requires TableOk(s[child]) && RowsOk(s[child], a[child]) && child in c && c == b[child := c[child]]
    requires var fk := s[child].fks[i];
             && (fk.onUpdate == Restrict ==> c == b) && w == (if fk.onUpdate == Cascade then Val(now) else Null)
             && (Integrity(s, b) && (w == Null || NoRef(b[child], fk.col, was)) ==> Integrity(s, c))
    ensures c == a[child := c[child]] && (StaysPut(s[child], parent) ==> c == a)
    ensures Integrity(s, a) && !CascadesIn(s[child], a[child], parent, was) ==> Integrity(s, c)
  {
    hide RepointAll, NoRefUpTo, FollowableUpTo, Integrity, TableOk, RowsOk, Blocks, Clashes, CascadesIn, NoRef;
    NextColumn(s[child], a[child], parent, was, now, i);
    if s[child].fks[i].onUpdate == Cascade && !CascadesIn(s[child], a[child], parent, was) {
      CascadesNow(s[child], a[child], parent, was, i);
    }
  }

  lemma {:induction false} FollowsOne(s: Schema, a: Data, b: Data, c: Data, child: Name, parent: Name, was: Key,
                                      now: Key, i: nat, ks: set<Key>, w: Value)
    requires FollowsTo(s, a, b, child, parent, was, now, i) && i < |s[child].fks| && s[child].fks[i].parent == parent
    requires TableOk(s[child]) && RowsOk(s[child], a[child]) && was != now
    requires var fk := s[child].fks[i];
             && c == b[child := WithColumn(b[child], ks, fk.col, w)] && Holders(b[child], fk.col, was, ks)
             && !Blocks(s[child], b[child], fk, was)
             && (fk.onUpdate == Restrict ==> c == b) && w == (if fk.onUpdate == Cascade then Val(now) else Null)
             && (Integrity(s, b) && (w == Null || NoRef(b[child], fk.col, was)) ==> Integrity(s, c))
    ensures FollowsTo(s, a, c, child, parent, was, now, i + 1)
  {
    FollowsPartly(s, a, b, c, child, parent, was, now, i, w);
    FollowsNext(s, a, b, child, parent, was, now, i);
    hide RepointAll, NoRefUpTo, FollowableUpTo, Integrity, TableOk, RowsOk, Blocks, Clashes, StaysPut, CascadesIn,
         NoRef,
         WithColumn, Holders;
    FollowedOne(s[child], a[child], parent, was, now, i, ks, w);
    FollowableMore(s[child], a[child], parent, was, i);
  }

  lemma {:induction false} FollowsStop(s: Schema, a: Data, b: Data, c: Data, child: Name, parent: Name, was: Key,
                                       now: Key, i: nat, ks: set<Key>, w: Value, sound: bool)
    requires FollowsTo(s, a, b, child, parent, was, now, i) && i < |s[child].fks| && s[child].fks[i].parent == parent
    requires TableOk(s[child]) && RowsOk(s[child], a[child])
    requires var def := s[child];
             var fk := def.fks[i];
             && c == b[child := WithColumn(b[child], ks, fk.col, w)]
             && (!Ready(def, sound) || Blocks(def, b[child], fk, was) || Clashes(def, b[child], fk, was, now))
             && (fk.onUpdate == Restrict ==> c == b) && w == (if fk.onUpdate == Cascade then Val(now) else Null)
             && (Integrity(s, b) && (w == Null || NoRef(b[child], fk.col, was)) ==> Integrity(s, c))
    ensures c == a[child := c[child]] && (StaysPut(s[child], parent) ==> c == a)
    ensures Integrity(s, a) && !CascadesIn(s[child], a[child], parent, was) ==> Integrity(s, c)
    ensures !NotChild(s[child], parent)
            && !(Ready(s[child], sound) && Followable(s[child], a[child], parent, was)
                 && Unclashed(s[child], a[child], parent, was, now))
    ensures TooLate(s, a, child, parent, was, now, sound) ==> !Integrity(s, c)
  {
    FollowsPartly(s, a, b, c, child, parent, was, now, i, w);
    FollowsNext(s, a, b, child, parent, was, now, i);
    hide RepointAll, NoRefUpTo, FollowableUpTo, Integrity, TableOk, RowsOk, Blocks, Clashes, StaysPut, CascadesIn,
         NoRef,
         WithColumn, Ready, TooLate, Unclashed;
    FollowableMore(s[child], a[child], parent, was, i);
    if Unclashed(s[child], a[child], parent, was, now) { UnclashedOne(s[child], a[child], parent, was, now, i); }
    if Followable(s[child], a[child], parent, was) { FollowablePart(s[child], a[child], parent, was, i + 1); }
    if TooLate(s, a, child, parent, was, now, sound) {
      assert a[child := b[child]][child := c[child]] == a[child := c[child]];
      StoppedLate(s, a, c, child, parent, was, now, sound, i, ks, w);
    }
  }

  lemma {:induction false} FollowsEnd(s: Schema, a: Data, b: Data, child: Name, parent: Name, was: Key, now: Key)
    requires child in s && FollowsTo(s, a, b, child, parent, was, now, |s[child].fks|)
    requires TableOk(s[child]) && RowsOk(s[child], a[child]) && NotChild(s[child], child)
    ensures b == a[child := b[child]] && TableNoRef(s[child], b[child], parent, was)
    ensures b[child] == RepointAll(s[child], a[child], parent, was, now, |s[child].fks|)
    ensures Followable(s[child], a[child], parent, was) && (StaysPut(s[child], parent) ==> b == a)
    ensures Integrity(s, a) && !CascadesIn(s[child], a[child], parent, was) ==> Integrity(s, b)
    ensures CascadesIn(s[child], a[child], parent, was) && parent in a && now !in a[parent] ==> !Integrity(s, b)
  {
    hide RepointAll, NoRefUpTo, FollowableUpTo, Integrity, TableOk, RowsOk, StaysPut, CascadesIn, NotChild;
    if CascadesIn(s[child], a[child], parent, was) && parent in a && now !in a[parent] {
      if child == parent { StrangerFollows(s[child], a[child], parent, was); }
      CarriedDangles(s, a, child, parent, was, now);
    }
  }

  ghost predicate FollowedIn(s: Schema, a: Data, b: Data, parent: Name, was: Key, now: Key, u: Name)
    requires u in s && u in a && u in b
  {
    b[u] == RepointAll(s[u], a[u], parent, was, now, |s[u].fks|)
  }

  /** The tables in `left` wait for their turn, the others have followed. */
  ghost predicate Swept(s: Schema, a: Data, b: Data, left: set<Name>, parent: Name, was: Key, now: Key) {
    a.Keys == b.Keys == s.Keys && forall u :: u in s ==> SweptAt(s, a, b, left, parent, was, now, u)
  }

  ghost predicate SweptAt(s: Schema, a: Data, b: Data, left: set<Name>, parent: Name, was: Key, now: Key, u: Name)
    requires u in s && u in a && u in b
  {
    && (u in left || StaysPut(s[u], parent) ==> b[u] == a[u])
    && (u !in left ==> TableNoRef(s[u], b[u], parent, was) && FollowedIn(s, a, b, parent, was, now, u)
                       && Followable(s[u], a[u], parent, was))
  }

  lemma {:induction false} SweptStarts(s: Schema, a: Data, parent: Name, was: Key, now: Key)
    requires DataOk(s, a)
    ensures Swept(s, a, a, s.Keys, parent, was, now)
  {}

  lemma {:induction false} SweptNext(s: Schema, a: Data, b: Data, left: set<Name>, parent: Name, was: Key, now: Key,
                                     child: Name)
    requires Swept(s, a, b, left, parent, was, now) && child in left && left <= s.Keys
    ensures child in a && child in b && b[child] == a[child]
  {
    assert SweptAt(s, a, b, left, parent, was, now, child);
  }

  lemma {:induction false} SweptStops(s: Schema, a: Data, b: Data, c: Data, left: set<Name>, parent: Name, was: Key,
                                      now: Key, child: Name)
    requires Swept(s, a, b, left, parent, was, now) && child in s && child in c && c == b[child := c[child]]
    requires StaysPut(s[child], parent) ==> c == b
    ensures a.Keys == c.Keys == s.Keys
    ensures forall u :: u in s && StaysPut(s[u], parent) && u in c && u in a ==> c[u] == a[u]
  {
    hide StaysPut, TableNoRef, Followable, FollowedIn;
    forall u | u in s && StaysPut(s[u], parent) ensures c[u] == a[u] {
      assert SweptAt(s, a, b, left, parent, was, now, u);
    }
  }

  lemma {:induction false} SweptMore(s: Schema, a: Data, b: Data, c: Data, left: set<Name>, parent: Name, was: Key,
                                     now: Key, child: Name)
    requires Swept(s, a, b, left, parent, was, now) && child in left && left <= s.Keys && child in a && child in c
    requires c == b[child := c[child]] && b[child] == a[child] && (StaysPut(s[child], parent) ==> c == b)
    requires TableNoRef(s[child], c[child], parent, was) && Followable(s[child], a[child], parent, was)
    requires c[child] == RepointAll(s[child], a[child], parent, was, now, |s[child].fks|)
    ensures Swept(s, a, c, left - {child}, parent, was, now)
  {
    hide StaysPut, TableNoRef, Followable, RepointAll;
    forall u | u in s ensures SweptAt(s, a, c, left - {child}, parent, was, now, u) {
      assert SweptAt(s, a, b, left, parent, was, now, u);
    }
  }

  lemma {:induction false} SweptAll(s: Schema, a: Data, b: Data, parent: Name, was: Key, now: Key)
    requires Swept(s, a, b, {}, parent, was, now)
    ensures a.Keys == b.Keys == s.Keys && NoRefs(s, b, parent, was) && AllFollowable(s, a, parent, was)
    ensures forall u :: u in s && u in b && u in a ==> FollowedIn(s, a, b, parent, was, now, u)
    ensures forall u :: u in s && StaysPut(s[u], parent) && u in b && u in a ==> b[u] == a[u]
  {
    hide StaysPut, TableNoRef, Followable, RepointAll;
    forall u | u in s && u in b && u in a
      ensures TableNoRef(s[u], b[u], parent, was) && Followable(s[u], a[u], parent, was)
      ensures FollowedIn(s, a, b, parent, was, now, u) && (StaysPut(s[u], parent) ==> b[u] == a[u])
    {
      assert SweptAt(s, a, b, {}, parent, was, now, u);
    }
  }

  lemma {:induction false} CollectedLists(def: TableDef, rows: Rows, rs: seq<Row>, selected: set<Key>)
    requires Collected(def, rows, rs) && selected == KeysOf(def, rs)
    ensures Lists(rows, rs, def.pk, selected)
  {
    forall k | k in selected ensures exists j: nat :: j < |rs| && KeyAt(rs[j], def.pk) == k {
      var j :| 0 <= j < |rs| && def.pk < |rs[j]| && rs[j][def.pk].Val? && rs[j][def.pk].key == k;
      assert KeyAt(rs[j], def.pk) == k;
    }
  }

  /** A collected row whose turn has not come is still in the table. */
  lemma {:induction false} CollectedAt(s: Schema, d: Data, t: Name, rs: seq<Row>, i: nat, cur: Rows,
                                       assignments: seq<Assignment>)
    requires t in s && t in d && DataOk(s, d) && Collected(s[t], d[t], rs) && i < |rs|
    ensures var pk := s[t].pk;
            && |rs[i]| == |s[t].columns| && pk < |rs[i]| && rs[i][pk] == Val(KeyAt(rs[i], pk))
            && KeyAt(rs[i], pk) in d[t] && Untouched(rs, pk, i, KeyAt(rs[i], pk))
            && (UpdatedUpTo(d[t], cur, pk, rs, i, assignments)
               ==> KeyAt(rs[i], pk) in cur && cur[KeyAt(rs[i], pk)] == rs[i])
  {
    var key := KeyAt(rs[i], s[t].pk);
    assert RowOk(s[t], key, d[t][key]);
    forall j: nat | j < i ensures KeyAt(rs[j], s[t].pk) != key { assert rs[j][s[t].pk] != rs[i][s[t].pk]; }
  }

  /** Where the statement stands after the first `i` collected rows. */
  ghost predicate Progress(s: Schema, before: Data, cur: Data, table: Name, rs: seq<Row>, i: nat,
                           assignments: seq<Assignment>)
    requires table in s && table in before && table in cur && i <= |rs|
  {
    var pk := s[table].pk;
    && (i == 0 ==> cur == before) && OtherKeysSame(s, before, cur, table)
    && UpdatedUpTo(before[table], cur[table], pk, rs, i, assignments)
    && OthersUpTo(s, before, cur, table, pk, rs, i, assignments)
    && (forall j: nat :: j < i ==> Passed(s, before, table, rs, j, assignments))
  }

  lemma {:induction false} ProgressStarts(s: Schema, d: Data, table: Name, rs: seq<Row>, assignments: seq<Assignment>)
    requires table in s && table in d
    ensures Progress(s, d, d, table, rs, 0, assignments) && OtherKeysSame(s, d, d, table)
  {
    hide UpdatedUpTo, OthersUpTo;
    UpdateStarts(d[table], s[table].pk, rs, assignments);
    OthersStart(s, d, table, s[table].pk, rs, assignments);
  }

  /**
    * The row at hand is still there; it passes if all selected rows do, and
    * cannot break anything if none of them can.
    */
  lemma {:induction false} StepReady(s: Schema, rank: map<Name, nat>, before: Data, cur: Data, table: Name,
                                     rs: seq<Row>, i: nat, selected: set<Key>, assignments: seq<Assignment>,
                                         sound: bool)
    requires SchemaOk(s, rank) && table in s && table in before && table in cur && i < |rs|
             && Progress(s, before, cur, table, rs, i, assignments)
    requires DataOk(s, before) && Collected(s[table], before[table], rs) && selected == KeysOf(s[table], rs)
    ensures var pk := s[table].pk;
            |rs[i]| == |s[table].columns| && pk < |rs[i]| && rs[i][pk] == Val(KeyAt(rs[i], pk))
            && KeyAt(rs[i], pk) in cur[table] && cur[table][KeyAt(rs[i], pk)] == rs[i]
    ensures Updatable(s, before, table, selected, assignments)
            ==> Assignable(s[table], rs[i], assignments)
                && Passable(s, cur, table, KeyAt(rs[i], s[table].pk), SetAll(rs[i], assignments))
    ensures !Breakable(s, before, table, selected, assignments, sound) && SetAll(rs[i], assignments)[s[table].pk].Val?
            ==> Harmless(s, cur, table, KeyAt(rs[i], s[table].pk), NewKey(rs[i], s[table].pk, assignments), sound)
  {
    hide SchemaOk, DataOk, OtherKeysSame, UpdatedUpTo, OthersUpTo, Collected, KeysOf, Lists, Updatable, Breakable,
         Passable, Harmless, SetAll, KeyAt,
         Untouched, Assignable, RowRefsOk, AllFollowable;
    CollectedAt(s, before, table, rs, i, cur[table], assignments);
    CollectedAt(s, before, table, rs, 0, cur[table], assignments);
    CollectedLists(s[table], before[table], rs, selected);
    if Updatable(s, before, table, selected,
        assignments) { StepPasses(s, rank, before, cur, table, rs, i, selected, assignments); }
    if !Breakable(s, before, table, selected, assignments, sound) && SetAll(rs[i], assignments)[s[table].pk].Val? {
      if i > 0 { assert Passed(s, before, table, rs, 0, assignments); }
      StepHarmless(s, before, cur, table, rs, i, selected, assignments, sound);
    }
  }

  /** One more row updated. */
  lemma {:induction false} ProgressStep(s: Schema, rank: map<Name, nat>, before: Data, cur: Data, next: Data,
                                        table: Name, rs: seq<Row>, i: nat, assignments: seq<Assignment>)
    requires SchemaOk(s, rank) && table in s && table in before && table in cur && table in next && i < |rs|
    requires Progress(s, before, cur, table, rs, i, assignments) && DataOk(s, before)
             && Collected(s[table], before[table], rs)
    requires Assignable(s[table], rs[i], assignments)
    requires var was, now := KeyAt(rs[i], s[table].pk), NewKey(rs[i], s[table].pk, assignments);
             && Passable(s, cur, table, was, SetAll(rs[i], assignments))
             && next[table] == (cur[table] - {was})[now := SetAll(rs[i], assignments)]
             && Repointed(s, cur, next, table, was, now)
    requires OtherKeysSame(s, cur, next, table)
    ensures Progress(s, before, next, table, rs, i + 1, assignments)
  {
    hide SchemaOk, DataOk, OtherKeysSame, UpdatedUpTo, OthersUpTo, Collected, SetAll, Untouched, Assignable, RowRefsOk,
         AllFollowable, Repointed, RowFits;
    var pk, rows := s[table].pk, before[table];
    CollectedAt(s, before, table, rs, i, cur[table], assignments);
    CollectedAt(s, before, table, rs, 0, cur[table], assignments);
    OtherKeysAgain(s, before, cur, next, table);
    if i > 0 {
      assert Passed(s, before, table, rs, 0, assignments);
      FitsHasKey(s[table], before, rs[0], assignments);
      OnlyFirstMoves(rows, cur[table], pk, rs, i, assignments);
    }
    StepPassed(s, rank, before, cur, table, rs, i, assignments);
    UpdateStep(rows, cur[table], pk, rs, i, assignments);
    SameTables(s, before, cur, next, table);
    OthersStep(s, before, cur, next, table, pk, rs, i, assignments);
  }

  /** If the statement fits the indexes, so does the row at hand. */
  lemma {:induction false} StepFree(s: Schema, before: Data, cur: Data, table: Name, rs: seq<Row>, i: nat,
                                    selected: set<Key>, assignments: seq<Assignment>)
    requires table in s && table in before && table in cur && i < |rs|
             && Progress(s, before, cur, table, rs, i, assignments)
    requires DataOk(s, before) && Collected(s[table], before[table], rs) && selected == KeysOf(s[table], rs)
    ensures IndexFits(s[table], before[table], selected, assignments)
            ==> IndexesFree(s[table], cur[table] - {KeyAt(rs[i], s[table].pk)}, rs[i], SetAll(rs[i], assignments))
  {
    hide DataOk, OtherKeysSame, UpdatedUpTo, OthersUpTo, Collected, KeysOf, Lists, SetAll, KeyAt, Untouched, IndexFits,
         IndexesFree, Passed, Widths;
    CollectedAt(s, before, table, rs, i, cur[table], assignments);
    CollectedLists(s[table], before[table], rs, selected);
    WidthsThere(s, before, table);
    if IndexFits(s[table], before[table], selected, assignments) {
      StepFits(s[table], before[table], cur[table], rs, i, selected, assignments);
    }
  }

  lemma {:induction false} WidthsThere(s: Schema, d: Data, t: Name)
    requires DataOk(s, d) && t in s && t in d
    ensures Widths(d[t], |s[t].columns|)
  {
    forall k | k in d[t] ensures |d[t][k]| == |s[t].columns| { RowWidth(s, d, t, k); }
  }

  lemma {:induction false} IndexedStarts(def: TableDef, rows: Rows, rs: seq<Row>, selected: set<Key>,
                                         assignments: seq<Assignment>)
    ensures IndexedUpTo(def, rows, rs, 0, selected, assignments)
  {}

  /** A row that passed tells what held of the indexes before the statement. */
  lemma {:induction false} FreeStep(s: Schema, before: Data, cur: Data, table: Name, rs: seq<Row>, i: nat,
                                    selected: set<Key>, assignments: seq<Assignment>)
    requires table in s && table in before && table in cur && i < |rs|
             && Progress(s, before, cur, table, rs, i, assignments)
    requires DataOk(s, before) && Collected(s[table], before[table], rs) && selected == KeysOf(s[table], rs)
    requires IndexedUpTo(s[table], before[table], rs, i, selected, assignments)
    requires IndexesFree(s[table], cur[table] - {KeyAt(rs[i], s[table].pk)}, rs[i], SetAll(rs[i], assignments))
    ensures IndexedUpTo(s[table], before[table], rs, i + 1, selected, assignments)
  {
    hide DataOk, OtherKeysSame, UpdatedUpTo, OthersUpTo, Collected, KeysOf, Lists, SetAll, KeyAt, NewKey, Untouched,
         IndexesFree,
         Passed, IndexedUpTo;
    CollectedAt(s, before, table, rs, i, cur[table], assignments);
    CollectedLists(s[table], before[table], rs, selected);
    forall m: nat | m < i ensures NewKey(rs[m], s[table].pk, assignments) != KeyAt(rs[i], s[table].pk) {
      NewIsElsewhere(s, before, table, rs, m, i, selected, assignments);
    }
    IndexedStep(s[table], before[table], cur[table], rs, i, selected, assignments);
  }

  lemma {:induction false} NewIsElsewhere(s: Schema, before: Data, table: Name, rs: seq<Row>, m: nat, i: nat,
                                          selected: set<Key>, assignments: seq<Assignment>)
    requires table in s && table in before && m < i < |rs| && Lists(before[table], rs, s[table].pk, selected)
    requires Untouched(rs, s[table].pk, i, KeyAt(rs[i], s[table].pk))
    requires Passed(s, before, table, rs, m, assignments)
    ensures NewKey(rs[m], s[table].pk, assignments) != KeyAt(rs[i], s[table].pk)
  {
    hide SetAll, NewKey, RowFits, AllFollowable;
  }

  lemma {:induction false} FreeEnds(s: Schema, before: Data, table: Name, rs: seq<Row>, selected: set<Key>,
                                    assignments: seq<Assignment>)
    requires table in s && table in before && Collected(s[table], before[table], rs) && selected == KeysOf(s[table], rs)
    requires IndexedUpTo(s[table], before[table], rs, |rs|, selected, assignments)
    ensures IndexFits(s[table], before[table], selected, assignments)
  {
    hide Collected, KeysOf, Lists, IndexedUpTo, IndexFits;
    CollectedLists(s[table], before[table], rs, selected);
    IndexedAll(s[table], before[table], rs, selected, assignments);
  }

  lemma {:induction false} ProgressEnds(s: Schema, before: Data, cur: Data, table: Name, rs: seq<Row>,
                                        selected: set<Key>, assignments: seq<Assignment>)
    requires table in s && table in before && table in cur && Progress(s, before, cur, table, rs, |rs|, assignments)
    requires Collected(s[table], before[table], rs) && selected == KeysOf(s[table], rs)
    ensures Updated(before[table], cur[table], s[table].pk, selected, assignments)
    ensures OthersUpdated(s, before, cur, table, s[table].pk, selected, assignments)
            && Updatable(s, before, table, selected, assignments)
  {
    hide OtherKeysSame, UpdatedUpTo, OthersUpTo, Passed, Collected, KeysOf, Lists, Updated, OthersUpdated, Updatable;
    CollectedLists(s[table], before[table], rs, selected);
    UpdateEnds(before[table], cur[table], s[table].pk, rs, selected, assignments);
    OthersEnd(s, before, cur, table, s[table].pk, rs, selected, assignments);
    AllPassed(s, before, cur, table, rs, selected, assignments);
  }

  lemma {:induction false} LostRow(s: Schema, before: Data, table: Name, rs: seq<Row>, selected: set<Key>,
                                   assignments: seq<Assignment>)
    requires table in s && table in before && Collected(s[table], before[table], rs) && selected == KeysOf(s[table], rs)
    requires Loses(s, before, table, selected, assignments)
    ensures |rs| > 0 && selected == {KeyAt(rs[0], s[table].pk)} && Assignable(s[table], rs[0], assignments)
    ensures Colliding(s, before, table, KeyAt(rs[0], s[table].pk), SetAll(rs[0], assignments))
  {
    hide Collected, KeysOf, Lists, KeyAt, Assignable, Colliding, SetAll;
    CollectedLists(s[table], before[table], rs, selected);
    var k :| Lone(s, before, table, selected, assignments, k)
        && Colliding(s, before, table, k, SetAll(before[table][k], assignments));
    LoneFirst(s, before, table, rs, selected, assignments, k);
  }

  lemma {:induction false} StrandedRow(s: Schema, before: Data, table: Name, rs: seq<Row>, selected: set<Key>,
                                       assignments: seq<Assignment>)
    requires table in s && table in before && Collected(s[table], before[table], rs) && selected == KeysOf(s[table], rs)
    requires MustDangle(s, before, table, selected, assignments)
    ensures |rs| > 0 && Assignable(s[table], rs[0], assignments)
    ensures Stranding(s, before, table, KeyAt(rs[0], s[table].pk), SetAll(rs[0], assignments))
  {
    hide Collected, KeysOf, Lists, KeyAt, Assignable, Stranding, SetAll;
    CollectedLists(s[table], before[table], rs, selected);
    var k :| Lone(s, before, table, selected, assignments, k)
        && Stranding(s, before, table, k, SetAll(before[table][k], assignments));
    LoneFirst(s, before, table, rs, selected, assignments, k);
  }

  lemma {:induction false} FitsHasKey(def: TableDef, d: Data, row: Row, assignments: seq<Assignment>)
    requires RowFits(def, d, row, assignments)
    ensures def.pk < |row| && SetAll(row, assignments)[def.pk].Val?
  {
  }

  lemma {:induction false} SameTables(s: Schema, a: Data, b: Data, c: Data, t: Name)
    requires OtherKeysSame(s, a, b, t) && OtherKeysSame(s, b, c, t)
    ensures a.Keys == b.Keys == c.Keys
  {
  }

  // ----- when a statement must succeed -----

  /** The WHERE clause can be evaluated on every row. */
  ghost predicate NeverFails(d: Data, t: Name,
                             where: Row -> Verdict) { t in d && forall k <- d[t] :: where(d[t][k]) != Failed }

  /** The WHERE clause can be evaluated, and no refusal can be reached from the selected rows by cascades. */
  ghost predicate Deletable(s: Schema, d: Data, t: Name, where: Row -> Verdict, sound: bool) {
    t in s && NeverFails(d, t, where) && Unobstructed(s, d, t, Selected(d[t], where), sound)
  }

  /** Rows that go together with the selected ones. */
  ghost function Dooming(s: Schema, d: Data, t: Name, ks: set<Key>, sound: bool): (doom: Doom)
    ensures Unobstructed(s, d, t, ks, sound) ==> Closed(s, d, doom, sound) && Doomed(t, ks) <= doom
  {
    if Unobstructed(s, d, t, ks, sound) then
      var doom: Doom :| Closed(s, d, doom, sound) && Doomed(t, ks) <= doom;
      doom
    else {}
  }

  /** The i-th index takes the row: its value has a key that the index does not hold. */
  ghost predicate Takes(def: TableDef, row: Row, ix: Indexes, i: nat) {
    i < |def.indexes| && def.indexes[i].col < |row| && def.indexes[i].col < |def.columns| && def.indexes[i].name in ix
    && EncodeKey(def, def.indexes[i].col, row[def.indexes[i].col]).KeyOf?
    && row[def.indexes[i].col].key !in ix[def.indexes[i].name]
  }

  ghost predicate TakesAll(def: TableDef, row: Row, ix: Indexes) {
    forall i: nat :: i < |def.indexes| ==> Takes(def, row, ix, i)
  }

  lemma {:induction false} TakesAt(def: TableDef, row: Row, ix: Indexes, i: nat)
    requires TableOk(def) && i < |def.indexes| && |row| == |def.columns| && def.indexes[i].name in ix
    ensures Takes(def, row, ix, i)
            <==> HasKeyAt(def, row, def.indexes[i].col) && row[def.indexes[i].col].key !in ix[def.indexes[i].name]
  {}

  /** Indexes that are right take a row exactly when it has keys that no row holds. */
  lemma {:induction false} TakesIs(def: TableDef, rows: Rows, ix: Indexes, row: Row)
    requires TableOk(def) && TableIndexed(def, rows, ix) && |row| == |def.columns|
    ensures TakesAll(def, row, ix) <==> Keyed(def, row) && Unheld(def, rows, row)
  {
    hide IndexOk, NobodyHas;
    forall i: nat | i < |def.indexes|
      ensures Takes(def, row, ix, i)
              <==> HasKeyAt(def, row, def.indexes[i].col) && NobodyHas(rows, def.indexes[i].col, row[def.indexes[i].col])
    {
      assert IndexAt(def, rows, ix, i);
      if row[def.indexes[i].col].Val? { EntryIsHeld(rows, def.indexes[i].col, ix[def.indexes[i].name],
          row[def.indexes[i].col].key); }
    }
  }

  lemma {:induction false} AllSame(s: Schema, t: Name, ix: Indexes)
    requires t in s && TableOk(s[t]) && IndexesExist(s, ix)
    ensures forall j: nat :: j < |s[t].indexes| ==> SameEntry(ix, ix, s[t].indexes[j].name)
  {}

  /** The i-th index gives up the row's value: the value has a key, and the index has it. */
  ghost predicate Leaves(def: TableDef, row: Row, ix: Indexes, i: nat) {
    && i < |def.indexes| && HasKeyAt(def, row, def.indexes[i].col) && def.indexes[i].name in ix
    && row[def.indexes[i].col].key in ix[def.indexes[i].name]
  }

  ghost predicate LeavesAll(def: TableDef, row: Row, ix: Indexes) {
    forall i: nat :: i < |def.indexes| ==> Leaves(def, row, ix, i)
  }

  lemma {:induction false} LeavesAt(def: TableDef, row: Row, ix: Indexes, i: nat)
    requires i < |def.indexes| && def.indexes[i].name in ix
    ensures Leaves(def, row, ix, i)
            <==> HasKeyAt(def, row, def.indexes[i].col) && row[def.indexes[i].col].key in ix[def.indexes[i].name]
  {}

  lemma {:induction false} LeavesKeyed(def: TableDef, row: Row, ix: Indexes)
    ensures LeavesAll(def, row, ix) ==> Keyed(def, row)
  {
    if LeavesAll(def, row, ix) {
      forall i: nat | i < |def.indexes|
        ensures HasKeyAt(def, row, def.indexes[i].col)
      {
        assert Leaves(def, row, ix, i);
      }
    }
  }

  /** Indexes that are right give up a row exactly when it has keys. */
  lemma {:induction false} LeavesIs(def: TableDef, rows: Rows, ix: Indexes, key: Key, row: Row)
    requires key !in rows && TableIndexed(def, rows[key := row], ix)
    ensures LeavesAll(def, row, ix) <==> Keyed(def, row)
  {
    hide IndexAt, Leaves;
    forall i: nat | i < |def.indexes| ensures Leaves(def, row, ix, i) <==> HasKeyAt(def, row, def.indexes[i].col) {
      LeavesHere(def, rows, ix, key, row, i);
    }
  }

  /** The i-th index gives up the old value and then takes the new one. */
  ghost predicate Swaps(def: TableDef, oldRow: Row, newRow: Row, ix: Indexes, i: nat) {
    && Leaves(def, oldRow, ix, i) && HasKeyAt(def, newRow, def.indexes[i].col)
    && newRow[def.indexes[i].col].key !in ix[def.indexes[i].name] - {oldRow[def.indexes[i].col].key}
  }

  ghost predicate SwapsAll(def: TableDef, oldRow: Row, newRow: Row, ix: Indexes) {
    forall i: nat :: i < |def.indexes| ==> Swaps(def, oldRow, newRow, ix, i)
  }

  lemma {:induction false} SwapsAt(def: TableDef, oldRow: Row, newRow: Row, ix: Indexes, i: nat)
    requires i < |def.indexes| && def.indexes[i].name in ix
    ensures var c, m := def.indexes[i].col, ix[def.indexes[i].name];
            Swaps(def, oldRow, newRow, ix, i)
            <==> HasKeyAt(def, oldRow, c) && HasKeyAt(def, newRow, c) && oldRow[c].key in m
                 && newRow[c].key !in m - {oldRow[c].key}
  {}

  /** In an index that is right: the old value has a key, and the new one a key that no other row holds. */
  lemma {:induction false} SwapsHere(def: TableDef, rest: Rows, ix: Indexes, was: Key, oldRow: Row, newRow: Row, i: nat)
    requires was !in rest && i < |def.indexes| && IndexAt(def, rest[was := oldRow], ix, i)
    ensures var c := def.indexes[i].col;
            Swaps(def, oldRow, newRow, ix, i)
            <==> HasKeyAt(def, oldRow, c) && HasKeyAt(def, newRow, c) && NobodyHas(rest, c, newRow[c])
  {
    hide IndexOk, NobodyHas;
    var c, m := def.indexes[i].col, ix[def.indexes[i].name];
    if HasKeyAt(def, oldRow, c) && HasKeyAt(def, newRow, c) {
      IndexEntryGone(rest, c, m, was, oldRow);
      EntryIsHeld(rest, c, m - {oldRow[c].key}, newRow[c].key);
    }
  }

  lemma {:induction false} SwapsIs(def: TableDef, rest: Rows, ix: Indexes, was: Key, oldRow: Row, newRow: Row)
    requires TableOk(def) && was !in rest && TableIndexed(def, rest[was := oldRow], ix) && |newRow| == |def.columns|
    ensures SwapsAll(def, oldRow, newRow, ix) <==> IndexesFree(def, rest, oldRow, newRow)
  {
    hide NobodyHas, IndexAt, Swaps;
    forall i: nat | i < |def.indexes|
      ensures Swaps(def, oldRow, newRow, ix, i)
              <==> HasKeyAt(def, oldRow, def.indexes[i].col) && HasKeyAt(def, newRow, def.indexes[i].col)
                   && NobodyHas(rest, def.indexes[i].col, newRow[def.indexes[i].col])
    {
      SwapsHere(def, rest, ix, was, oldRow, newRow, i);
    }
  }

  /** The i-th index is on another column, or gives up the old value and takes the new one unless that is NULL. */
  ghost predicate Changes(def: TableDef, oldRow: Row, newRow: Row, col: nat, ix: Indexes, i: nat) {
    && i < |def.indexes|
    && (def.indexes[i].col == col && col < |newRow|
        ==> Leaves(def, oldRow, ix, i) && (newRow[col].Null? || Swaps(def, oldRow, newRow, ix, i)))
  }

  ghost predicate ChangesAll(def: TableDef, oldRow: Row, newRow: Row, col: nat, ix: Indexes) {
    forall i: nat :: i < |def.indexes| ==> Changes(def, oldRow, newRow, col, ix, i)
  }

  lemma {:induction false} ChangesAt(def: TableDef, oldRow: Row, newRow: Row, col: nat, ix: Indexes, i: nat)
    requires i < |def.indexes| && def.indexes[i].name in ix && col < |newRow|
    ensures var m := ix[def.indexes[i].name];
            Changes(def, oldRow, newRow, col, ix, i)
            <==> def.indexes[i].col != col
                 || (HasKeyAt(def, oldRow, col) && oldRow[col].key in m
                     && (newRow[col].Null?
                        || (HasKeyAt(def, newRow, col) && newRow[col].key !in m - {oldRow[col].key})))
  {}

  lemma {:induction false} ChangesKeyed(def: TableDef, oldRow: Row, newRow: Row, col: nat, ix: Indexes)
    requires col < |newRow|
    ensures ChangesAll(def, oldRow, newRow, col, ix) && IndexedOn(def, col) ==> HasKeyAt(def, oldRow, col)
  {
    if ChangesAll(def, oldRow, newRow, col, ix) && IndexedOn(def, col) {
      var i: nat :| i < |def.indexes| && def.indexes[i].col == col;
      assert Changes(def, oldRow, newRow, col, ix, i);
    }
  }

  lemma {:induction false} ChangesIs(def: TableDef, rest: Rows, ix: Indexes, col: nat, key: Key, oldRow: Row,
                                     newRow: Row)
    requires key !in rest && TableIndexed(def, rest[key := oldRow], ix) && col < |newRow|
    ensures ChangesAll(def, oldRow, newRow, col, ix) <==> ChangeFits(def, rest, col, oldRow, newRow)
  {
    hide NobodyHas, IndexAt, Swaps, Leaves;
    forall i: nat | i < |def.indexes| && def.indexes[i].col == col
      ensures Leaves(def, oldRow, ix, i) <==> HasKeyAt(def, oldRow, col)
      ensures Swaps(def, oldRow, newRow, ix, i)
              <==> HasKeyAt(def, oldRow, col) && HasKeyAt(def, newRow, col) && NobodyHas(rest, col, newRow[col])
    {
      SwapsHere(def, rest, ix, key, oldRow, newRow, i);
      LeavesHere(def, rest, ix, key, oldRow, i);
    }
    if ChangesAll(def, oldRow, newRow, col, ix) && IndexedOn(def, col) {
      var i: nat :| i < |def.indexes| && def.indexes[i].col == col;
      assert Changes(def, oldRow, newRow, col, ix, i);
    }
  }

  lemma {:induction false} LeavesHere(def: TableDef, rows: Rows, ix: Indexes, key: Key, row: Row, i: nat)
    requires key !in rows && i < |def.indexes| && IndexAt(def, rows[key := row], ix, i)
    ensures Leaves(def, row, ix, i) <==> HasKeyAt(def, row, def.indexes[i].col)
  {
    hide IndexOk;
    if HasKeyAt(def, row, def.indexes[i].col) {
      IndexEntryGone(rows, def.indexes[i].col, ix[def.indexes[i].name], key, row);
    }
  }

  /**
    * Where there is an index on the column, the rows have keys there, and a new
    * value is for one row and held by none.
    */
  ghost predicate RowsFit(def: TableDef, rows: Rows, col: nat, newValue: Value, rs: seq<Row>) {
    !IndexedOn(def, col)
    || ((forall i :: 0 <= i < |rs| ==> HasKeyAt(def, rs[i], col))
        && (newValue.Null? || (|rs| <= 1 && NobodyHas(rows, col, newValue))))
  }

  lemma {:induction false} RowFits1(def: TableDef, rows: Rows, col: nat, newValue: Value, rs: seq<Row>, i: nat,
                                    done: set<Key>)
    requires RowsFit(def, rows, col, newValue, rs) && i < |rs| && col < |rs[i]| && (i == 0 ==> done == {})
    ensures forall k :: ChangeFits(def, WithColumn(rows, done, col, newValue) - {k}, col, rs[i], rs[i][col := newValue])
  {
    if i == 0 { WithNothing(rows, col, newValue); }
  }

  lemma {:induction false} StuckIs(def: TableDef, row: Row, col: nat)
    ensures IndexedOn(def, col) && HasKeyAt(def, row, col) ==> !Stuck(def, col)
    ensures !IndexedOn(def, col) ==> !Stuck(def, col)
  {}

  /** References found by their value can be set to NULL, unless the column has no keys for its index. */
  lemma {:induction false} NullsFit(def: TableDef, rows: Rows, col: nat, v: Key, rs: seq<Row>)
    requires Matching(rs, |def.columns|, col, Val(v))
    ensures !Stuck(def, col) ==> RowsFit(def, rows, col, Null, rs)
  {}

  /** If the table refuses the move of the key to a new one, it is too late for what it has carried there. */
  ghost predicate TooLate(s: Schema, d: Data, child: Name, parent: Name, was: Key, now: Key, sound: bool) {
    && child in s && child in d && Ready(s[child], sound) && child != parent && parent in d && now !in d[parent]
    && Unclashed(s[child], d[child], parent, was, now)
    && exists c: nat :: CarriesFirst(s[child], d[child], parent, was, c)
  }

  lemma {:induction false} StoppedLate(s: Schema, d: Data, e: Data, child: Name, parent: Name, was: Key, now: Key,
                                       sound: bool, i: nat, ks: set<Key>, w: Value)
    requires TooLate(s, d, child, parent, was, now, sound) && TableOk(s[child]) && RowsOk(s[child], d[child])
    requires i < |s[child].fks| && s[child].fks[i].parent == parent
    requires var def, rows := s[child], d[child];
             && (!Ready(def, sound) || Blocks(def, rows, def.fks[i], was) || Clashes(def, rows, def.fks[i], was, now))
             && e == d[child := WithColumn(RepointAll(def, rows, parent, was, now, i), ks, def.fks[i].col, w)]
    ensures !Integrity(s, e)
  {
    hide RepointAll, WithColumn, Integrity, NoRef, CarriesFirst, Ready, Blocks, Clashes, TableOk, RowsOk, Unclashed;
    UnclashedOne(s[child], d[child], parent, was, now, i);
    RefusedTooLate(s, e, child, d[child], parent, was, now, i, ks, w);
  }

  lemma {:induction false} UnclashedOne(def: TableDef, rows: Rows, parent: Name, was: Key, now: Key, i: nat)
    requires Unclashed(def, rows, parent, was, now) && i < |def.fks| && def.fks[i].parent == parent
    ensures !Clashes(def, rows, def.fks[i], was, now)
  {}

  /**
    * With right indexes one row at most refers to the old key in an indexed
    * column, and it may be carried to a free one.
    */
  lemma {:induction false} CarriedFits(s: Schema, d: Data, ix: Indexes, t: Name, col: nat, was: Key, now: Key,
                                       rs: seq<Row>)
    requires t in s && t in d && RowsOk(s[t], d[t]) && Collected(s[t], d[t], rs)
             && Matching(rs, |s[t].columns|, col, Val(was))
    requires s[t].indexes != [] ==> IndexesOk(s, d, ix)
    requires !Stuck(s[t], col) && (IndexedOn(s[t], col) ==> NoRef(d[t], col, now))
    ensures RowsFit(s[t], d[t], col, Val(now), rs)
  {
    if IndexedOn(s[t], col) {
      assert TableIndexed(s[t], d[t], ix);
      if |rs| >= 2 {
        OnlyOneHolds(s[t], d[t], ix, col, rs[0][s[t].pk].key, rs[1][s[t].pk].key);
      }
    }
  }

  lemma {:induction false} ReadyStill(s: Schema, t: Name, was: bool, now: bool)
    requires was ==> now
    ensures ReadyAround(s, t, was) ==> ReadyAround(s, t, now)
    ensures t in s && Ready(s[t], was) ==> Ready(s[t], now)
  {}

  lemma {:induction false} HarmlessStill(s: Schema, d: Data, t: Name, from: Key, to: Key, was: bool, now: bool)
    requires t in d && (was ==> now)
    ensures Harmless(s, d, t, from, to, was) ==> Harmless(s, d, t, from, to, now)
  {
    ReadyStill(s, t, was, now);
  }

  lemma {:induction false} DoomedHas(t: Name, ks: set<Key>, k: Key)
    requires k in ks
    ensures (t, k) in Doomed(t, ks)
  {}

  lemma {:induction false} ClosedHas(s: Schema, d: Data, doom: Doom, sound: bool, t: Name, k: Key)
    requires Closed(s, d, doom, sound) && (t, k) in doom && t in s && t in d && k in d[t]
    ensures Ready(s[t], sound) && Keyed(s[t], d[t][k])
  {}

  /** The new value of a column is NULL, or a key that nobody else holds. */
  ghost predicate ValueFits(def: TableDef, rest: Rows, col: nat, newRow: Row)
    requires col < |newRow|
  {
    newRow[col].Null? || (HasKeyAt(def, newRow, col) && NobodyHas(rest, col, newRow[col]))
  }

  /** Where there is an index on the column, the old value has a key and the new one fits. */
  ghost predicate ChangeFits(def: TableDef, rest: Rows, col: nat, oldRow: Row, newRow: Row)
    requires col < |newRow|
  {
    IndexedOn(def, col) ==> HasKeyAt(def, oldRow, col) && ValueFits(def, rest, col, newRow)
  }

  ghost predicate SameEntry(a: Indexes, b: Indexes, n: Name) { n in a && n in b && a[n] == b[n] }

  /** NOT NULL and foreign keys hold of the row, and its key is new. */
  ghost predicate Acceptable(def: TableDef, d: Data, t: Name, row: Row) {
    && |row| == |def.columns| && def.pk < |row| && t in d
    && (forall c :: 0 <= c < |row| && def.columns[c].notNull ==> row[c].Val?)
    && RowRefsOk(def, d, row)
    && EncodeKey(def, def.pk, row[def.pk]).KeyOf? && row[def.pk].key !in d[t]
  }

  lemma {:induction false} SomeHolder(def: TableDef, rows: Rows, rs: seq<Row>, col: nat, v: Key)
    requires Collected(def, rows, rs) && |rs| > 0 && Matching(rs, |def.columns|, col, Val(v))
    ensures !NoRef(rows, col, v)
  {
    assert rows[rs[0][def.pk].key] == rs[0];
  }

  ghost function Selected(rows: Rows, where: Row -> Verdict): set<Key> { set k | k in rows && where(rows[k]) == Yes }

  lemma {:induction false} CollectedIsSelected(def: TableDef, rows: Rows, rs: seq<Row>, where: Row -> Verdict)
    requires Collected(def, rows, rs) && forall k :: k in rows ==> (k in KeysOf(def, rs) <==> where(rows[k]) == Yes)
    ensures KeysOf(def, rs) == Selected(rows, where)
  {
  }

  /** The rows found through a foreign key hold the key looked for. */
  lemma {:induction false} MatchingHold(def: TableDef, rows: Rows, rs: seq<Row>, col: nat, v: Key)
    requires Collected(def, rows, rs) && forall i :: 0 <= i < |rs| ==> col < |rs[i]| && rs[i][col] == Val(v)
    ensures forall k :: k in KeysOf(def, rs) ==> k in rows && col < |rows[k]| && rows[k][col] == Val(v)
  {
  }

  lemma {:induction false} FoundOnly(def: TableDef, rows: Rows, rs: seq<Row>, col: nat, v: Key)
    requires Collected(def, rows, rs) && |rs| > 0 && forall i :: 0 <= i < |rs| ==> col < |rs[i]| && rs[i][col] == Val(v)
    ensures OnlyHolders(rows, col, v, KeysOf(def, rs)) && KeysOf(def, rs) != {}
  {
    assert rs[0][def.pk].key in KeysOf(def, rs);
  }

  lemma {:induction false} FoundOnlySome(rows: Rows, col: nat, v: Key, ks: set<Key>)
    requires OnlyHolders(rows, col, v, ks)
    ensures forall k :: k in ks ==> k in rows && col < |rows[k]| && rows[k][col] == Val(v)
  {
  }

  lemma {:induction false} Onward(s: Schema, a: Data, b: Data, c: Data, parent: Name, v: Key)
    requires Shrinks(a, b) && Shrinks(b, c) && Caused(s, a, b, {(parent, v)}) && Caused(s, b, c, {(parent, v)})
    ensures Shrinks(a, c) && Caused(s, a, c, {(parent, v)})
  {
    ShrinksAgain(a, b, c);
    CausedAgain(s, a, b, c, {(parent, v)}, {(parent, v)});
  }

  /** Children deleted with their parent are accounted for by the parent. */
  lemma {:induction false} CascadeCaused(s: Schema, a: Data, b: Data, child: Name, i: nat, rs: seq<Row>, v: Key)
    requires child in s && child in a && child in b && i < |s[child].fks| && s[child].fks[i].onDelete == Cascade
    requires Collected(s[child], a[child], rs)
             && forall j :: 0 <= j < |rs| ==> s[child].fks[i].col < |rs[j]| && rs[j][s[child].fks[i].col] == Val(v)
    requires Caused(s, a, b, Doomed(child, KeysOf(s[child], rs)))
             && b[child] == WithoutKeys(a[child], KeysOf(s[child], rs))
    ensures Caused(s, a, b, {(s[child].fks[i].parent, v)})
  {
    hide Caused, Collected, KeysOf;
    var def, ks := s[child], KeysOf(s[child], rs);
    MatchingHold(def, a[child], rs, def.fks[i].col, v);
    forall t, k | (t, k) in Doomed(child, ks)
      ensures t in s && t in a && t in b && k in a[t] && k !in b[t]
              && RemovedFor(s[t], a[t][k], b, {(def.fks[i].parent, v)})
    {
      assert Because(def, a[child][k], Cascade, b, {(def.fks[i].parent, v)}, i);
    }
    CausedBy(s, a, b, Doomed(child, ks), {(def.fks[i].parent, v)});
  }

  lemma {:induction false} OneMoreDoomed(s: Schema, a: Data, b: Data, c: Data, t: Name, ks: set<Key>, k: Key)
    requires Shrinks(a, b) && Shrinks(b, c) && Caused(s, a, b, Doomed(t, ks)) && Caused(s, b, c, {(t, k)})
    ensures Caused(s, a, c, Doomed(t, ks + {k}))
  {
    hide Caused, Shrinks;
    var more := Doomed(t, ks + {k});
    assert (t, k) in more && Doomed(t, ks) <= more;
    CausedMore(s, b, c, {(t, k)}, more);
    CausedAgain(s, a, b, c, Doomed(t, ks), more);
  }

  lemma {:induction false} TableRanked(s: Schema, rank: map<Name, nat>, t: Name)
    requires SchemaOk(s, rank) && t in s
    ensures t in rank
  {
  }

  lemma {:induction false} EmptyDatabase(s: Schema, rank: map<Name, nat>, d: Data, ix: Indexes)
    requires SchemaOk(s, rank) && d == map t | t in s :: map[]
    requires forall t, i :: t in s && 0 <= i < |s[t].indexes|
               ==> s[t].indexes[i].name in ix && ix[s[t].indexes[i].name] == map[]
    ensures DataOk(s, d) && Integrity(s, d) && IndexesExist(s, ix) && IndexesOk(s, d, ix)
  {
    forall t | t in s && t in d ensures TableIndexed(s[t], d[t], ix) {
      forall i: nat | i < |s[t].indexes| ensures IndexAt(s[t], d[t], ix, i) { }
    }
  }

  lemma {:induction false} MoreThanIntegrity(s: Schema, d: Data, t: Name, k: Key)
    requires Integrity(s, d)
    ensures IntegrityPlus(s, d, t, k)
  {
    forall u, i | u in s && u in d && 0 <= i < |s[u].fks| ensures FkOkPlus(d, d[u], s[u].fks[i], t, k) {
      assert FkOk(d, d[u], s[u].fks[i]);
    }
  }

  lemma {:induction false} PrimaryKeyIn(def: TableDef)
    requires TableOk(def)
    ensures def.pk < |def.columns|
  {
  }

  lemma {:induction false} NotOwnChild(s: Schema, rank: map<Name, nat>, t: Name)
    requires SchemaOk(s, rank) && t in s
    ensures NotChild(s[t], t)
  {
  }

  lemma {:induction false} RefsStillOk(def: TableDef, a: Data, b: Data, row: Row)
    requires RowRefsOk(def, a, row) && SameKeys(a, b)
    ensures RowRefsOk(def, b, row)
  {
  }

  lemma {:induction false} HasKey(def: TableDef, rows: Rows, rs: seq<Row>, k: Key)
    requires RowsOk(def, rows) && def.pk < |def.columns| && Collected(def, rows, rs)
    requires forall i :: 0 <= i < |rs| ==> rs[i][def.pk] == Val(k)
    requires forall j :: j in rows && rows[j][def.pk] == Val(k) ==> j in KeysOf(def, rs)
    ensures |rs| == 0 <==> k !in rows
  {
    if k in rows { assert RowOk(def, k, rows[k]); }
    if |rs| > 0 { assert rs[0][def.pk].key in rows; }
  }

  lemma {:induction false} ParentsAreOk(s: Schema, rank: map<Name, nat>, t: Name)
    requires SchemaOk(s, rank) && t in s
    ensures forall i :: 0 <= i < |s[t].fks| ==> s[t].fks[i].parent in s && TableOk(s[s[t].fks[i].parent])
  {
  }

  lemma {:induction false} TablesThere(s: Schema, d: Data)
    requires DataOk(s, d)
    ensures forall t :: t in s <==> t in d
  {
  }

  lemma {:induction false} SameKeysSelf(d: Data)
    ensures SameKeys(d, d)
  {
  }

  lemma {:induction false} SameKeysAgain(a: Data, b: Data, c: Data)
    requires SameKeys(a, b) && SameKeys(b, c)
    ensures SameKeys(a, c)
  {
  }

  lemma {:induction false} CheckedOneMore(def: TableDef, rows: Rows, parent: Name, v: Key, i: nat)
    requires i < |def.fks| && NoRefUpTo(def, rows, parent, v, i)
    requires def.fks[i].parent == parent ==> NoRef(rows, def.fks[i].col, v)
    ensures NoRefUpTo(def, rows, parent, v, i + 1)
  {
  }

  lemma {:induction false} RowWidth(s: Schema, d: Data, t: Name, k: Key)
    requires DataOk(s, d) && t in s && t in d && k in d[t]
    ensures |d[t][k]| == |s[t].columns|
  {
    assert RowOk(s[t], k, d[t][k]);
  }

  lemma {:induction false} WithoutNone(def: TableDef, rows: Rows)
    ensures WithoutKeys(rows, KeysOf(def, [])) == rows
  {
    NoKeys(def);
  }

  lemma {:induction false} StillUnremoved(rows: Rows, ks: set<Key>, k: Key)
    requires k in rows && k !in ks
    ensures k in WithoutKeys(rows, ks) && WithoutKeys(rows, ks)[k] == rows[k]
  {
  }

  lemma {:induction false} OneMoreRemoved(rows: Rows, ks: set<Key>, k: Key)
    ensures WithoutKeys(rows, ks) - {k} == WithoutKeys(rows, ks + {k})
  {
  }

  lemma {:induction false} StillNoRef(def: TableDef, a: Data, b: Data, t: Name, parent: Name, v: Key)
    requires Shrinks(a, b) && t in b && (t in a ==> TableNoRef(def, a[t], parent, v))
    ensures TableNoRef(def, b[t], parent, v)
  {
    NoRefUpToShrinks(def, a[t], b[t], parent, v, |def.fks|);
  }

  lemma {:induction false} NothingChecked(def: TableDef, d: Data, t: Name, parent: Name, v: Key)
    ensures t in d ==> NoRefUpTo(def, d[t], parent, v, 0)
  {
  }

  lemma {:induction false} OneMoreChecked(def: TableDef, a: Data, b: Data, t: Name, parent: Name, v: Key, i: nat)
    requires Shrinks(a, b) && i < |def.fks|
    requires t in a ==> NoRefUpTo(def, a[t], parent, v, i)
    requires def.fks[i].parent == parent ==> t in b && NoRef(b[t], def.fks[i].col, v)
    ensures t in b ==> NoRefUpTo(def, b[t], parent, v, i + 1)
  {
    if t in b { NoRefUpToShrinks(def, a[t], b[t], parent, v, i); }
  }

  lemma {:induction false} FkIsOk(s: Schema, rank: map<Name, nat>, t: Name, i: nat)
    requires SchemaOk(s, rank) && t in s && i < |s[t].fks|
    ensures t in rank && s[t].fks[i].parent in s && s[t].fks[i].parent in rank && rank[t] < rank[s[t].fks[i].parent]
    ensures s[t].fks[i].col < |s[t].columns| && s[t].fks[i].col != s[t].pk
  {
  }

  lemma {:induction false} NothingMatches(def: TableDef, rows: Rows, col: nat, v: Key)
    requires NoRef(WithoutKeys(rows, KeysOf(def, [])), col, v)
    ensures NoRef(rows, col, v)
  {
    NoKeys(def);
    assert WithoutKeys(rows, {}) == rows;
  }

  lemma {:induction false} TableIsOk(s: Schema, rank: map<Name, nat>, t: Name)
    requires SchemaOk(s, rank) && t in s
    ensures TableOk(s[t])
  {
  }

  lemma {:induction false} TableRowsOk(s: Schema, d: Data, t: Name)
    requires DataOk(s, d) && t in s
    ensures t in d && RowsOk(s[t], d[t])
  {
  }

  lemma {:induction false} StillThere(base: Rows, done: set<Key>, col: nat, v: Value, k: Key)
    requires k in base && k !in done
    ensures k in WithColumn(base, done, col, v) && WithColumn(base, done, col, v)[k] == base[k]
  {
  }

  lemma {:induction false} NoKeys(def: TableDef)
    ensures KeysOf(def, []) == {}
  {
  }

  lemma {:induction false} OneMoreChanged(base: Rows, done: set<Key>, col: nat, v: Value, k: Key)
    requires k in base && k !in done && col < |base[k]|
    ensures WithColumn(base, done, col, v)[k := base[k][col := v]] == WithColumn(base, done + {k}, col, v)
  {
  }

  /** A collected row's key is not among those of the rows before it, and is among those of all. */
  lemma {:induction false} KeysOfPrefix(def: TableDef, rs: seq<Row>, i: nat)
    requires i < |rs| && def.pk < |rs[i]| && rs[i][def.pk].Val?
    requires forall j :: 0 <= j < i ==> def.pk < |rs[j]| && rs[j][def.pk] != rs[i][def.pk]
    ensures rs[i][def.pk].key !in KeysOf(def, rs[..i]) && rs[i][def.pk].key in KeysOf(def, rs)
    ensures KeysOf(def, rs[..i]) <= KeysOf(def, rs)
  {
    forall k | k in KeysOf(def, rs[..i]) ensures k in KeysOf(def, rs) {
      var j :| 0 <= j < i && def.pk < |rs[..i][j]| && rs[..i][j][def.pk].Val? && rs[..i][j][def.pk].key == k;
      assert rs[j] == rs[..i][j];
    }
  }

  lemma {:induction false} WithNothing(rows: Rows, col: nat, v: Value)
    ensures WithColumn(rows, {}, col, v) == rows
  {
  }

  /** The first `i` indexes are right for the rows `a`, the others still for `b`. */
  ghost predicate Mixed(def: TableDef, a: Rows, b: Rows, ix: Indexes, i: nat) {
    (forall j: nat :: j < i && j < |def.indexes| ==> IndexAt(def, a, ix, j))
    && (forall j: nat :: i <= j < |def.indexes| ==> IndexAt(def, b, ix, j))
  }

  lemma {:induction false} MixedAt(def: TableDef, a: Rows, b: Rows, ix: Indexes, i: nat)
    requires Mixed(def, a, b, ix, i) && i < |def.indexes|
    ensures def.indexes[i].name in ix && IndexOk(b, def.indexes[i].col, ix[def.indexes[i].name])
  {
    assert IndexAt(def, b, ix, i);
  }

  lemma {:induction false} MixedStep(def: TableDef, a: Rows, b: Rows, ix: Indexes, i: nat, m: IndexMap)
    requires TableOk(def) && Mixed(def, a, b, ix, i) && i < |def.indexes| && IndexOk(a, def.indexes[i].col, m)
    ensures Mixed(def, a, b, ix[def.indexes[i].name := m], i + 1)
  {
    var ix' := ix[def.indexes[i].name := m];
    forall j: nat | j < i ensures IndexAt(def, a, ix', j) { assert IndexAt(def, a, ix, j); }
    forall j: nat | i < j < |def.indexes| ensures IndexAt(def, b, ix', j) { assert IndexAt(def, b, ix, j); }
  }

  lemma {:induction false} MixedStarts(def: TableDef, a: Rows, b: Rows, ix: Indexes)
    requires TableIndexed(def, b, ix)
    ensures Mixed(def, a, b, ix, 0)
  {}

  lemma {:induction false} MixedEnds(def: TableDef, a: Rows, b: Rows, ix: Indexes)
    requires Mixed(def, a, b, ix, |def.indexes|)
    ensures TableIndexed(def, a, ix)
  {}

  /** The table's i-th index. */
  lemma {:induction false} OwnAt(s: Schema, t: Name, ix: Indexes, i: nat)
    requires t in s && TableOk(s[t]) && IndexesExist(s, ix) && i < |s[t].indexes|
    ensures s[t].indexes[i].name in ix && s[t].indexes[i].col < |s[t].columns|
  {}

  lemma {:induction false} OwnStarts(def: TableDef, ix: Indexes)
    ensures OnlyOwn(def, ix, ix)
  {}

  lemma {:induction false} OwnStep(s: Schema, t: Name, a: Indexes, b: Indexes, i: nat, m: IndexMap)
    requires t in s && i < |s[t].indexes| && IndexesExist(s, b) && OnlyOwn(s[t], a, b)
    ensures IndexesExist(s, b[s[t].indexes[i].name := m]) && OnlyOwn(s[t], a, b[s[t].indexes[i].name := m])
  {}

  lemma {:induction false} SameBeyond(def: TableDef, ix: Indexes, orig: Indexes, i: nat, m: IndexMap)
    requires TableOk(def) && i < |def.indexes|
             && forall j: nat :: i <= j < |def.indexes| ==> SameEntry(ix, orig, def.indexes[j].name)
    ensures forall j: nat :: i < j < |def.indexes|
              ==> SameEntry(ix[def.indexes[i].name := m], orig, def.indexes[j].name)
  {}

  lemma {:induction false} KeysOfMore(def: TableDef, rs: seq<Row>, r: Row)
    requires def.pk < |r| && r[def.pk].Val?
    ensures KeysOf(def, rs + [r]) == KeysOf(def, rs) + {r[def.pk].key}
  {
    var now := rs + [r];
    forall k ensures k in KeysOf(def, now) <==> k in KeysOf(def, rs) + {r[def.pk].key} {
      if k in KeysOf(def, rs) {
        var i :| 0 <= i < |rs| && def.pk < |rs[i]| && rs[i][def.pk].Val? && rs[i][def.pk].key == k;
        assert now[i] == rs[i];
      }
      if k == r[def.pk].key { assert now[|rs|] == r; }
    }
  }
}
