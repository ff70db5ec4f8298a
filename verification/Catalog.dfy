/** Table and index metadata: three maps in memory, one tree on disk (catalog/catalog.go). */
module Catalogs {
  import opened Keys
  import opened Bytes
  import opened Wire
  import opened CatalogCodec
  import Nodes

  type Tree = map<Text, seq<byte>>
  type Lists = map<Text, seq<Text>>

  /** The tree takes an entry only up to this size. */
  predicate Small(name: Text, bytes: seq<byte>) { Nodes.EntrySize(Nodes.Entry(name, bytes)) <= Nodes.ENTRY_CAP }

  // ----- a definition small enough for the tree fits its encoding -----

  lemma {:induction false} ColumnsSmall(cs: seq<ColumnDef>, n: nat)
    requires |EncodeColumns(cs)| <= n < 0x1_0000
    ensures |cs| <= |EncodeColumns(cs)| && forall c <- cs :: ColumnFits(c)
  {
    hide U32;
    if cs != [] { ColumnsSmall(cs[1..], n); }
  }

  lemma {:induction false} KeysSmall(ks: seq<ForeignKeyDef>, n: nat)
    requires |EncodeKeys(ks)| <= n < 0x1_0000
    ensures |ks| <= |EncodeKeys(ks)| && forall k <- ks :: KeyFits(k)
  {
    hide U32;
    if ks != [] { KeysSmall(ks[1..], n); }
  }

  lemma {:induction false} SmallTableFits(name: Text, d: TableDef)
    requires WellTyped(d) && Small(name, TableBytes(d))
    ensures TableFits(d) && TableOf(TableBytes(d)) == Ok(d) && TableBytes(d)[0] == TABLE_KIND
  {
    hide U32, U16, EncodeColumns, EncodeKeys, TableOf, ColumnFits, KeyFits;
    ColumnsSmall(d.columns, 0x1000);
    KeysSmall(d.keys, 0x1000);
    TableRoundTrip(d);
  }

  lemma {:induction false} SmallIndexFits(name: Text, d: IndexDef)
    requires d.root < 0x1_0000_0000 && Small(name, IndexBytes(d))
    ensures IndexFits(d) && IndexOf(IndexBytes(d)) == Ok(d) && IndexBytes(d)[0] == INDEX_KIND
  {
    hide U32, IndexOf;
    IndexRoundTrip(d);
  }

  // ----- what the maps and the tree have to do with each other -----

  predicate TableAt(name: Text, d: TableDef, bytes: seq<byte>) {
    d.name == name && WellTyped(d) && bytes == TableBytes(d) && Small(name, bytes)
  }

  predicate IndexAt(name: Text, d: IndexDef, bytes: seq<byte>) {
    d.name == name && d.root < 0x1_0000_0000 && bytes == IndexBytes(d) && Small(name, bytes)
  }

  /** The tree holds exactly the encodings of the tables and indexes in memory. */
  ghost predicate Mirror(tables: map<Text, TableDef>, indexes: map<Text, IndexDef>, tree: Tree) {
    && tables.Keys !! indexes.Keys
    && tree.Keys == tables.Keys + indexes.Keys
    && (forall t <- tables :: TableAt(t, tables[t], tree[t]))
    && (forall i <- indexes :: IndexAt(i, indexes[i], tree[i]))
  }

  ghost predicate Distinct(s: seq<Text>) { forall i, j :: 0 <= i < j < |s| ==> s[i] != s[j] }

  /** The names of the indexes on `t`, each once. */
  ghost predicate Exact(list: seq<Text>, indexes: map<Text, IndexDef>, t: Text) {
    Distinct(list) && forall i :: i in list <==> i in indexes && indexes[i].table == t
  }

  ghost predicate AllExact(lists: Lists, indexes: map<Text, IndexDef>) {
    forall t <- lists :: Exact(lists[t], indexes, t)
  }

  ghost predicate Owned(tables: map<Text, TableDef>, indexes: map<Text, IndexDef>) {
    forall i <- indexes :: indexes[i].table in tables
  }

  lemma {:induction false} ExactAdd(list: seq<Text>, indexes: map<Text, IndexDef>, t: Text, name: Text, d: IndexDef)
    requires Exact(list, indexes, t) && name !in indexes
    ensures Exact(if d.table == t then list + [name] else list, indexes[name := d], t)
  {}

  lemma {:induction false} ExactDrop(list: seq<Text>, indexes: map<Text, IndexDef>, t: Text, k: nat)
    requires Exact(list, indexes, t) && k < |list|
    ensures Exact(list[..k] + list[k + 1..], indexes - {list[k]}, t)
  {
    var less := list[..k] + list[k + 1..];
    forall i ensures i in less <==> i in list && i != list[k] {
      if i in list && i != list[k] {
        var j :| 0 <= j < |list| && list[j] == i;
        assert i == less[if j < k then j else j - 1];
      }
      if i in less {
        var j :| 0 <= j < |less| && less[j] == i;
        assert i == list[if j < k then j else j + 1];
      }
    }
  }

  lemma {:induction false} ExactOther(list: seq<Text>, indexes: map<Text, IndexDef>, t: Text, gone: set<Text>)
    requires Exact(list, indexes, t) && forall i <- gone :: i in indexes ==> indexes[i].table != t
    ensures Exact(list, indexes - gone, t)
  {}

  /** Two exact lists of the same indexes differ in order only. */
  lemma {:induction false} ExactUnique(a: seq<Text>, b: seq<Text>)
    requires Distinct(a) && Distinct(b) && forall x :: x in a <==> x in b
    ensures multiset(a) == multiset(b)
  {
    forall x ensures multiset(a)[x] == multiset(b)[x] {
      Once(a, x);
      Once(b, x);
    }
  }

  lemma {:induction false} Once(a: seq<Text>, x: Text)
    requires Distinct(a)
    ensures multiset(a)[x] == if x in a then 1 else 0
  {
    if a != [] {
      Once(a[1..], x);
      assert a == [a[0]] + a[1..];
    }
  }

  /** `keys` lists the keys of the tree, each once. */
  ghost predicate Enumerates(keys: seq<Text>, tree: Tree) {
    Distinct(keys) && forall k :: k in keys <==> k in tree
  }

  /** Every index belongs to a table, every table lists its indexes, and the disk mirrors memory. */
  ghost predicate Good(tables: map<Text, TableDef>, indexes: map<Text, IndexDef>, lists: Lists, tree: Tree) {
    Mirror(tables, indexes, tree) && Owned(tables, indexes) && lists.Keys == tables.Keys && AllExact(lists, indexes)
  }

  /** Listed names are indexes on that table, each once; there may be more of them. */
  ghost predicate ListsOnly(list: seq<Text>, indexes: map<Text, IndexDef>, t: Text) {
    Distinct(list) && forall i <- list :: i in indexes && indexes[i].table == t
  }

  /**
    * What holds whatever tables the indexes name: the disk mirrors memory,
    * every table has a list, and lists hold nothing false.
    */
  ghost predicate Fair(tables: map<Text, TableDef>, indexes: map<Text, IndexDef>, lists: Lists, tree: Tree) {
    Mirror(tables, indexes, tree) && tables.Keys <= lists.Keys && forall t <- lists :: ListsOnly(lists[t], indexes, t)
  }

  lemma {:induction false} GoodIsFair(tables: map<Text, TableDef>, indexes: map<Text, IndexDef>, lists: Lists,
                                      tree: Tree)
    requires Good(tables, indexes, lists, tree)
    ensures Fair(tables, indexes, lists, tree)
  {
    hide Mirror;
    forall t | t in lists ensures ListsOnly(lists[t], indexes, t) { assert Exact(lists[t], indexes, t); }
  }

  class Catalog {
    var tables: map<Text, TableDef>
    var indexes: map<Text, IndexDef>
    var tableIndexes: Lists
    var tree: Tree

    ghost predicate Valid() reads this { Good(tables, indexes, tableIndexes, tree) }

    ghost predicate Usable() reads this { Fair(tables, indexes, tableIndexes, tree) }

    constructor Empty()
      ensures Valid() && Usable() && tables == map[] && indexes == map[] && tree == map[]
    {
      tables, indexes, tableIndexes, tree := map[], map[], map[], map[];
    }

    /**
      * Rebuilds the maps from the tree of an earlier catalog, scanned in any
      * order. They come out the same; the index lists come out in the order of
      * the scan.
      */
    constructor Open(tree: Tree, keys: seq<Text>, ghost was: Catalog)
      requires was.Valid() && tree == was.tree && Enumerates(keys, tree)
      ensures Valid()
      ensures tables == was.tables && indexes == was.indexes && this.tree == tree
      ensures SameLists(tableIndexes, was.tableIndexes)
    {
      hide Good, TableOf, TableBytes, IndexOf, IndexBytes, WellTyped, Small;
      var ts: map<Text, TableDef>, ix: map<Text, IndexDef>, lists: Lists := map[], map[], map[];
      GoodParts(was.tables, was.indexes, was.tableIndexes, tree);
      PartStart(was.tables, was.indexes);
      for i := 0 to |keys|
        invariant Part(ts, ix, lists, was.tables, was.indexes, Names(keys[..i]))
      {
        var key := keys[i];
        NextKey(keys, i);
        InTree(was.tables, was.indexes, was.tableIndexes, tree, key);
        var value := tree[key];
        if value[0] == TABLE_KIND {
          var d := TableOf(value).value;
          PartTable(ts, ix, lists, was.tables, was.indexes, Names(keys[..i]), key);
          ts := ts[key := d];
          lists := if d.name in lists then lists else lists[d.name := []];
        } else if value[0] == INDEX_KIND {
          var d := IndexOf(value).value;
          PartIndex(ts, ix, lists, was.tables, was.indexes, Names(keys[..i]), key);
          ix := ix[key := d];
          lists := lists[d.table := (if d.table in lists then lists[d.table] else []) + [key]];
        }
      }
      assert keys[..|keys|] == keys;
      PartDone(ts, ix, lists, was.tables, was.indexes, was.tableIndexes, tree, keys);
      tables, indexes, tableIndexes, this.tree := ts, ix, lists, tree;
    }

    /** `root` is the page the new tree got; `room` is whether the catalog's tree has room for the entry. */
    method CreateTable(def: TableDef, root: nat, room: bool) returns (ok: bool)
      requires Usable() && WellTyped(def) && root < 0x1_0000_0000
      modifies this
      ensures Usable() && (old(Valid()) ==> Valid())
      ensures ok <==> def.name !in old(tree) && room && Small(def.name, TableBytes(def.(root := root)))
      ensures !ok ==> unchanged(this)
      ensures ok ==> tables == old(tables)[def.name := def.(root := root)] && indexes == old(indexes)
                     && tableIndexes == old(tableIndexes)[def.name := []]
    {
      hide Good, Fair, TableBytes, TableOf, TableFits;
      InMaps(tables, indexes, tableIndexes, tree, def.name);
      if def.name in tables {
        return false;
      }
      var d := def.(root := root);
      var encoded := EncodeTableDef(d);
      if def.name in tree || !room || !Small(def.name, encoded) {
        return false;
      }
      if Valid() { NewTable(tables, indexes, tableIndexes, tree, d); }
      NewTableFair(tables, indexes, tableIndexes, tree, d);
      tables, tableIndexes, tree := tables[def.name := d], tableIndexes[def.name := []], tree[def.name := encoded];
      ok := true;
    }

    /** Nothing checks that the index's table exists; if it does not, the lists no longer match the tables. */
    method CreateIndex(def: IndexDef, root: nat, room: bool) returns (ok: bool)
      requires Usable() && root < 0x1_0000_0000
      modifies this
      ensures Usable() && (old(Valid()) ==> (Valid() <==> (ok ==> def.table in tables)))
      ensures ok <==> def.name !in old(tree) && room && Small(def.name, IndexBytes(def.(root := root)))
      ensures !ok ==> unchanged(this)
      ensures ok ==> indexes == old(indexes)[def.name := def.(root := root)] && tables == old(tables)
    {
      hide Good, Fair, IndexBytes, Mirror;
      InMaps(tables, indexes, tableIndexes, tree, def.name);
      if def.name in indexes {
        return false;
      }
      var d := def.(root := root);
      var encoded := IndexBytes(d);
      if def.name in tree || !room || !Small(def.name, encoded) {
        return false;
      }
      var list := (if d.table in tableIndexes then tableIndexes[d.table] else []) + [d.name];
      if Valid() { NewIndex(tables, indexes, tableIndexes, tree, d); }
      NewIndexFair(tables, indexes, tableIndexes, tree, d);
      indexes, tableIndexes, tree := indexes[d.name := d], tableIndexes[d.table := list], tree[d.name := encoded];
      ok := true;
    }

    method DropIndex(name: Text) returns (ok: bool)
      requires Usable()
      modifies this
      ensures Usable() && (old(Valid()) ==> Valid())
      ensures tables == old(tables) && (ok <==> name in old(indexes))
      ensures indexes == old(indexes) - {name}
    {
      hide Good, Fair;
      if name !in indexes {
        assert indexes - {name} == indexes;
        return false;
      }
      var t := indexes[name].table;
      var list := if t in tableIndexes then tableIndexes[t] else [];
      var k := 0;
      while k < |list| && list[k] != name
        invariant 0 <= k <= |list| && forall j :: 0 <= j < k ==> list[j] != name
      {
        k := k + 1;
      }
      if Valid() {
        IndexListed(tables, indexes, tableIndexes, tree, name);
        LessIndex(tables, indexes, tableIndexes, tree, k, t);
      }
      if k < |list| {
        LessIndexFair(tables, indexes, tableIndexes, tree, k, t);
        tableIndexes := tableIndexes[t := list[..k] + list[k + 1..]];
      } else {
        UnlistedIndexFair(tables, indexes, tableIndexes, tree, name);
      }
      tree, indexes := tree - {name}, indexes - {name};
      ok := true;
    }

    /** A table goes together with its listed indexes, which are all of them as long as the catalog is valid. */
    method DropTable(name: Text) returns (ok: bool)
      requires Usable()
      modifies this
      ensures Usable() && (old(Valid()) ==> Valid()) && (ok <==> name in old(tables))
      ensures tables == old(tables) - {name}
      ensures ok ==> name in old(tableIndexes) && indexes == old(indexes) - Names(old(tableIndexes)[name])
      ensures !ok ==> unchanged(this)
      ensures old(Valid()) ==> indexes == Without(old(indexes), name)
    {
      hide Good, Fair, Without, Names, Mirror, Owned;
      InMaps(tables, indexes, tableIndexes, tree, name);
      if name !in tables {
        if Valid() { NoIndexes(tables, indexes, tableIndexes, tree, name); }
        assert tables - {name} == tables;
        return false;
      }
      var list := tableIndexes[name];
      if Valid() { LessTable(tables, indexes, tableIndexes, tree, name); }
      LessTableFair(tables, indexes, tableIndexes, tree, name);
      var ix, tr := RemoveAll(indexes, tree, list);
      tables, indexes, tableIndexes, tree := tables - {name}, ix, tableIndexes - {name}, tr - {name};
      ok := true;
    }
  }

  /** The indexes on a table leave the tree and the map one by one. */
  method RemoveAll(indexes: map<Text, IndexDef>, tree: Tree,
                   list: seq<Text>) returns (ix: map<Text, IndexDef>, tr: Tree)
    ensures ix == indexes - Names(list) && tr == tree - Names(list)
  {
    ix, tr := indexes, tree;
    for k := 0 to |list|
      invariant ix == indexes - Names(list[..k]) && tr == tree - Names(list[..k])
    {
      assert Names(list[..k + 1]) == Names(list[..k]) + {list[k]};
      tr, ix := tr - {list[k]}, ix - {list[k]};
    }
    assert list[..|list|] == list;
  }

  ghost function Names(s: seq<Text>): set<Text> { set x | x in s }

  ghost function Without(indexes: map<Text, IndexDef>, t: Text): map<Text, IndexDef> {
    map i | i in indexes && indexes[i].table != t :: indexes[i]
  }

  ghost function Only<V>(m: map<Text, V>, keys: set<Text>): map<Text, V> { map k | k in m && k in keys :: m[k] }

  ghost predicate SameLists(a: Lists, b: Lists) {
    a.Keys == b.Keys && forall t <- a :: multiset(a[t]) == multiset(b[t])
  }

  // ----- one step of each operation -----

  lemma {:induction false} InMaps(tables: map<Text, TableDef>, indexes: map<Text, IndexDef>, lists: Lists, tree: Tree,
                                  name: Text)
    requires Fair(tables, indexes, lists, tree)
    ensures Mirror(tables, indexes, tree) && tables.Keys <= lists.Keys
    ensures name in tables || name in indexes <==> name in tree
  {}

  lemma {:induction false} GoodParts(tables: map<Text, TableDef>, indexes: map<Text, IndexDef>, lists: Lists,
                                     tree: Tree)
    requires Good(tables, indexes, lists, tree)
    ensures Mirror(tables, indexes, tree) && Owned(tables, indexes) && lists.Keys == tables.Keys
  {}

  lemma {:induction false} NewTableFair(tables: map<Text, TableDef>, indexes: map<Text, IndexDef>, lists: Lists,
                                        tree: Tree, d: TableDef)
    requires Fair(tables, indexes, lists, tree) && d.name !in tree && WellTyped(d) && Small(d.name, TableBytes(d))
    ensures Fair(tables[d.name := d], indexes, lists[d.name := []], tree[d.name := TableBytes(d)])
  {
    hide TableBytes, Mirror;
    MirrorTable(tables, indexes, tree, d, TableBytes(d));
  }

  lemma {:induction false} NewIndexFair(tables: map<Text, TableDef>, indexes: map<Text, IndexDef>, lists: Lists,
                                        tree: Tree, d: IndexDef)
    requires Fair(tables, indexes, lists, tree) && d.name !in tree && d.root < 0x1_0000_0000
             && Small(d.name, IndexBytes(d))
    ensures var list := (if d.table in lists then lists[d.table] else []) + [d.name];
            Fair(tables, indexes[d.name := d], lists[d.table := list], tree[d.name := IndexBytes(d)])
  {
    hide IndexBytes, Mirror;
    MirrorIndex(tables, indexes, tree, d, IndexBytes(d));
    InMaps(tables, indexes, lists, tree, d.name);
    var ix := indexes[d.name := d];
    forall t | t in lists ensures ListsOnly(if d.table == t then lists[t] + [d.name] else lists[t], ix, t) {
      assert ListsOnly(lists[t], indexes, t);
    }
  }

  lemma {:induction false} LessIndexFair(tables: map<Text, TableDef>, indexes: map<Text, IndexDef>, lists: Lists,
                                         tree: Tree, k: nat, t: Text)
    requires Fair(tables, indexes, lists, tree) && t in lists && k < |lists[t]|
    ensures var name := lists[t][k];
            Fair(tables, indexes - {name}, lists[t := lists[t][..k] + lists[t][k + 1..]], tree - {name})
  {
    hide Mirror;
    var list, name := lists[t], lists[t][k];
    assert ListsOnly(list, indexes, t) && name in list;
    MirrorLess(tables, indexes, tree, {}, {name});
    assert tree - {name} - {} == tree - {name} && tables - {} == tables;
    var less := list[..k] + list[k + 1..];
    forall i | i in less ensures i in list && i != name {
      var j :| 0 <= j < |less| && less[j] == i;
      assert i == list[if j < k then j else j + 1];
    }
    forall u | u in lists && u != t
      ensures ListsOnly(lists[u], indexes - {name}, u)
    {
      assert ListsOnly(lists[u], indexes, u);
    }
  }

  lemma {:induction false} UnlistedIndexFair(tables: map<Text, TableDef>, indexes: map<Text, IndexDef>, lists: Lists,
                                             tree: Tree, name: Text)
    requires Fair(tables, indexes, lists, tree) && name in indexes
    requires indexes[name].table in lists ==> name !in lists[indexes[name].table]
    ensures Fair(tables, indexes - {name}, lists, tree - {name})
  {
    hide Mirror;
    MirrorLess(tables, indexes, tree, {}, {name});
    assert tree - {name} - {} == tree - {name} && tables - {} == tables;
    forall u | u in lists ensures ListsOnly(lists[u], indexes - {name}, u) { assert ListsOnly(lists[u], indexes, u); }
  }

  lemma {:induction false} LessTableFair(tables: map<Text, TableDef>, indexes: map<Text, IndexDef>, lists: Lists,
                                         tree: Tree, name: Text)
    requires Fair(tables, indexes, lists, tree) && name in lists && name in tables
    ensures var gone := Names(lists[name]);
            Fair(tables - {name}, indexes - gone, lists - {name}, tree - gone - {name})
  {
    hide Mirror;
    var gone := Names(lists[name]);
    assert ListsOnly(lists[name], indexes, name);
    MirrorLess(tables, indexes, tree, {name}, gone);
    forall u | u in lists && u != name
      ensures ListsOnly(lists[u], indexes - gone, u)
    {
      assert ListsOnly(lists[u], indexes, u);
    }
  }

  lemma {:induction false} IndexListed(tables: map<Text, TableDef>, indexes: map<Text, IndexDef>, lists: Lists,
                                       tree: Tree, name: Text)
    requires Good(tables, indexes, lists, tree) && name in indexes
    ensures indexes[name].table in lists && name in lists[indexes[name].table]
  {
    hide Mirror;
    assert Exact(lists[indexes[name].table], indexes, indexes[name].table);
  }

  lemma {:induction false} NoIndexes(tables: map<Text, TableDef>, indexes: map<Text, IndexDef>, lists: Lists,
                                     tree: Tree, t: Text)
    requires Good(tables, indexes, lists, tree) && t !in tables
    ensures Without(indexes, t) == indexes
  {
    hide Mirror, AllExact;
  }

  lemma {:induction false} MirrorTable(tables: map<Text, TableDef>, indexes: map<Text, IndexDef>, tree: Tree,
                                       d: TableDef, bytes: seq<byte>)
    requires Mirror(tables, indexes, tree) && d.name !in tree && TableAt(d.name, d, bytes)
    ensures Mirror(tables[d.name := d], indexes, tree[d.name := bytes])
  {
    hide TableAt, IndexAt;
  }

  lemma {:induction false} MirrorIndex(tables: map<Text, TableDef>, indexes: map<Text, IndexDef>, tree: Tree,
                                       d: IndexDef, bytes: seq<byte>)
    requires Mirror(tables, indexes, tree) && d.name !in tree && IndexAt(d.name, d, bytes)
    ensures Mirror(tables, indexes[d.name := d], tree[d.name := bytes])
  {
    hide TableAt, IndexAt;
  }

  lemma {:induction false} MirrorLess(tables: map<Text, TableDef>, indexes: map<Text, IndexDef>, tree: Tree,
                                      ts: set<Text>, ix: set<Text>)
    requires Mirror(tables, indexes, tree) && ts <= tables.Keys && ix <= indexes.Keys
    ensures Mirror(tables - ts, indexes - ix, tree - ix - ts)
  {
    hide TableAt, IndexAt;
  }

  lemma {:induction false} NewTable(tables: map<Text, TableDef>, indexes: map<Text, IndexDef>, lists: Lists, tree: Tree,
                                    d: TableDef)
    requires Good(tables, indexes, lists, tree) && d.name !in tree && WellTyped(d) && Small(d.name, TableBytes(d))
    ensures Good(tables[d.name := d], indexes, lists[d.name := []], tree[d.name := TableBytes(d)])
  {
    hide TableBytes, Mirror, Exact;
    MirrorTable(tables, indexes, tree, d, TableBytes(d));
    GoodIsFair(tables, indexes, lists, tree);
    InMaps(tables, indexes, lists, tree, d.name);
    EmptyExact(indexes, d.name);
  }

  lemma {:induction false} NewIndex(tables: map<Text, TableDef>, indexes: map<Text, IndexDef>, lists: Lists, tree: Tree,
                                    d: IndexDef)
    requires Good(tables, indexes, lists, tree) && d.name !in tree && d.root < 0x1_0000_0000
             && Small(d.name, IndexBytes(d))
    ensures var ix, tr := indexes[d.name := d], tree[d.name := IndexBytes(d)];
            var list := (if d.table in lists then lists[d.table] else []) + [d.name];
            && Mirror(tables, ix, tr)
            && (Good(tables, ix, lists[d.table := list], tr) <==> d.table in tables)
  {
    hide IndexBytes, Mirror, Exact;
    var ix := indexes[d.name := d];
    MirrorIndex(tables, indexes, tree, d, IndexBytes(d));
    GoodIsFair(tables, indexes, lists, tree);
    InMaps(tables, indexes, lists, tree, d.name);
    forall t | t in lists ensures Exact(if d.table == t then lists[t] + [d.name] else lists[t], ix, t) {
      ExactAdd(lists[t], indexes, t, d.name, d);
    }
    assert d.name in ix && ix[d.name] == d;
  }

  lemma {:induction false} LessIndex(tables: map<Text, TableDef>, indexes: map<Text, IndexDef>, lists: Lists,
                                     tree: Tree, k: nat, t: Text)
    requires Good(tables, indexes, lists, tree) && t in lists && k < |lists[t]|
    ensures var name := lists[t][k];
            Good(tables, indexes - {name}, lists[t := lists[t][..k] + lists[t][k + 1..]], tree - {name})
  {
    hide Mirror;
    var list, name := lists[t], lists[t][k];
    assert Exact(list, indexes, t) && name in list;
    MirrorLess(tables, indexes, tree, {}, {name});
    assert tree - {name} - {} == tree - {name} && tables - {} == tables;
    ExactDrop(list, indexes, t, k);
    forall u | u in lists && u != t ensures Exact(lists[u], indexes - {name}, u) {
      ExactOther(lists[u], indexes, u, {name});
    }
  }

  lemma {:induction false} ListedNames(list: seq<Text>, indexes: map<Text, IndexDef>, t: Text)
    requires Exact(list, indexes, t)
    ensures Names(list) <= indexes.Keys && indexes - Names(list) == Without(indexes, t)
    ensures forall i <- Names(list) :: i in indexes && indexes[i].table == t
  {}

  lemma {:induction false} LessTable(tables: map<Text, TableDef>, indexes: map<Text, IndexDef>, lists: Lists,
                                     tree: Tree, name: Text)
    requires Good(tables, indexes, lists, tree) && name in lists
    ensures var gone := Names(lists[name]);
            && Good(tables - {name}, indexes - gone, lists - {name}, tree - gone - {name})
            && indexes - gone == Without(indexes, name)
  {
    hide Mirror, Exact, Names, Without;
    var gone := Names(lists[name]);
    ListedNames(lists[name], indexes, name);
    MirrorLess(tables, indexes, tree, {name}, gone);
    assert Owned(tables - {name}, indexes - gone) by { WithoutOwned(tables, indexes, name); }
    forall u | u in lists && u != name ensures Exact(lists[u], indexes - gone, u) {
      ExactOther(lists[u], indexes, u, gone);
    }
  }

  lemma {:induction false} WithoutOwned(tables: map<Text, TableDef>, indexes: map<Text, IndexDef>, name: Text)
    requires Owned(tables, indexes)
    ensures Owned(tables - {name}, Without(indexes, name))
  {}

  lemma {:induction false} EmptyExact(ix: map<Text, IndexDef>, t: Text)
    requires forall i <- ix :: ix[i].table != t
    ensures Exact([], ix, t)
  {}

  // ----- reopening -----

  /** The maps so far, after the keys in `done`. */
  ghost predicate Part(ts: map<Text, TableDef>, ix: map<Text, IndexDef>, lists: Lists,
                       tables: map<Text, TableDef>, indexes: map<Text, IndexDef>, done: set<Text>)
  {
    && ts == Only(tables, done) && ix == Only(indexes, done)
    && Owned(tables, indexes)
    && (forall t <- ts :: t in lists)
    && (forall i <- ix :: ix[i].table in lists)
    && (forall t <- lists :: t in tables)
    && AllExact(lists, ix)
  }

  lemma {:induction false} PartStart(tables: map<Text, TableDef>, indexes: map<Text, IndexDef>)
    requires Owned(tables, indexes)
    ensures Part(map[], map[], map[], tables, indexes, Names([]))
  {}

  lemma {:induction false} NextKey(keys: seq<Text>, i: nat)
    requires Distinct(keys) && i < |keys|
    ensures Names(keys[..i + 1]) == Names(keys[..i]) + {keys[i]} && keys[i] !in Names(keys[..i]) && keys[i] in keys
  {}

  lemma {:induction false} OnlyOneMore<V>(m: map<Text, V>, done: set<Text>, k: Text)
    ensures Only(m, done + {k}) == if k in m then Only(m, done)[k := m[k]] else Only(m, done)
  {}

  /** What a key of the tree leads to. */
  lemma {:induction false} InTree(tables: map<Text, TableDef>, indexes: map<Text, IndexDef>, lists: Lists, tree: Tree,
                                  key: Text)
    requires Good(tables, indexes, lists, tree) && key in tree
    ensures |tree[key]| > 0 && (tree[key][0] == TABLE_KIND <==> key in tables)
            && (tree[key][0] == INDEX_KIND <==> key in indexes)
    ensures key in tables ==> TableOf(tree[key]) == Ok(tables[key]) && tables[key].name == key
    ensures key in indexes ==> IndexOf(tree[key]) == Ok(indexes[key])
  {
    hide TableOf, IndexOf, AllExact, WellTyped;
    if key in tables {
      assert TableAt(key, tables[key], tree[key]);
      SmallTableFits(key, tables[key]);
    } else {
      assert IndexAt(key, indexes[key], tree[key]);
      SmallIndexFits(key, indexes[key]);
    }
  }

  lemma {:induction false} PartTable(ts: map<Text, TableDef>, ix: map<Text, IndexDef>, lists: Lists,
                  tables: map<Text, TableDef>, indexes: map<Text, IndexDef>, done: set<Text>, k: Text)
    requires Part(ts, ix, lists, tables, indexes, done) && k in tables && k !in indexes
    ensures Part(ts[k := tables[k]], ix, if k in lists then lists else lists[k := []], tables, indexes, done + {k})
  {
    hide Only, Exact;
    OnlyOneMore(tables, done, k);
    OnlyOneMore(indexes, done, k);
    if k !in lists { EmptyExact(ix, k); }
  }

  lemma {:induction false} PartIndex(ts: map<Text, TableDef>, ix: map<Text, IndexDef>, lists: Lists,
                  tables: map<Text, TableDef>, indexes: map<Text, IndexDef>, done: set<Text>, k: Text)
    requires Part(ts, ix, lists, tables, indexes, done) && k in indexes && k !in tables && k !in done
    ensures var d := indexes[k];
            Part(ts, ix[k := d], lists[d.table := (if d.table in lists then lists[d.table] else []) + [k]], tables,
                indexes, done + {k})
  {
    hide Exact;
    var d := indexes[k];
    OnlyOneMore(tables, done, k);
    OnlyOneMore(indexes, done, k);
    var list := if d.table in lists then lists[d.table] else [];
    assert Exact(list, ix, d.table) by { if d.table !in lists { EmptyExact(ix, d.table); } }
    ExactAdd(list, ix, d.table, k, d);
    forall t | t in lists && t != d.table ensures Exact(lists[t], ix[k := d], t) { ExactAdd(lists[t], ix, t, k, d); }
  }

  lemma {:induction false} PartDone(ts: map<Text, TableDef>, ix: map<Text, IndexDef>, lists: Lists,
                 tables: map<Text, TableDef>, indexes: map<Text, IndexDef>, was: Lists, tree: Tree, keys: seq<Text>)
    requires Part(ts, ix, lists, tables, indexes, Names(keys)) && Good(tables, indexes, was, tree)
             && Enumerates(keys, tree)
    ensures ts == tables && ix == indexes && Good(tables, indexes, lists, tree) && SameLists(lists, was)
  {
    hide TableAt, IndexAt, Exact;
    assert ts == tables && ix == indexes;
    forall t | t in lists ensures multiset(lists[t]) == multiset(was[t]) {
      SameExact(lists[t], was[t], indexes, t);
    }
  }

  lemma {:induction false} SameExact(a: seq<Text>, b: seq<Text>, indexes: map<Text, IndexDef>, t: Text)
    requires Exact(a, indexes, t) && Exact(b, indexes, t)
    ensures multiset(a) == multiset(b)
  {
    ExactUnique(a, b);
  }

  // ----- an index without a table -----

  const T: Text := [116]
  const I: Text := [105]

  lemma {:induction false} ExampleSmall()
    ensures Small(I, IndexBytes(IndexDef(I, T, [], false, 1))) && Small(T, TableBytes(TableDef(T, [], [], 2)))
  {
    assert EncodeColumns([]) == [] && EncodeKeys([]) == [];
  }

  /** An index on a missing table, the table created and dropped: the index is left over, its table gone. */
  method LeftoverIndex() returns (c: Catalog, indexed: bool, created: bool, dropped: bool)
    ensures indexed && created && dropped
    ensures c.Usable() && c.tables == map[] && I in c.indexes && c.indexes[I].table == T && !c.Valid()
  {
    hide Fair, Good, Small, IndexBytes, TableBytes;
    c := new Catalog.Empty();
    ExampleSmall();
    indexed := c.CreateIndex(IndexDef(I, T, [], false, 0), 1, true);
    TreeHas(c, T);
    created := c.CreateTable(TableDef(T, [], [], 0), 2, true);
    dropped := c.DropTable(T);
    assert c.tables == map[];
    if c.Valid() { GoodParts(c.tables, c.indexes, c.tableIndexes, c.tree); }
  }

  lemma {:induction false} TreeHas(c: Catalog, name: Text)
    requires c.Usable()
    ensures name in c.tree <==> name in c.tables || name in c.indexes
  {}
}
