/**
  * When a DELETE or an UPDATE succeeds, and when one that fails may leave a
  * reference dangling (executor/fk.go, executor/update.go).
  */
module Outcomes {
  import opened Relations
  import opened Cascades
  import opened Updates

  /** The primary key has keys, and the indexes, if there are any, are right. */
  ghost predicate Ready(def: TableDef, sound: bool) {
    def.pk < |def.columns| && def.columns[def.pk].keyable && (def.indexes == [] || sound)
  }

  /** That holds of the table and of every table that refers to it. */
  ghost predicate ReadyAround(s: Schema, t: Name, sound: bool) {
    t in s && Ready(s[t], sound) && forall u :: u in s && !NotChild(s[u], t) ==> Ready(s[u], sound)
  }

  /** The rule refuses to give up a reference: RESTRICT, or SET NULL on a NOT NULL column. */
  ghost predicate Refuses(def: TableDef, fk: ForeignKey, action: FKAction) {
    action == Restrict || (action == SetNull && fk.col < |def.columns| && def.columns[fk.col].notNull)
  }

  // ----- a key that changes -----

  /** Some row holds the key and the rule refuses to let it change, or its index cannot follow. */
  ghost predicate Blocks(def: TableDef, rows: Rows, fk: ForeignKey, was: Key) {
    (Refuses(def, fk, fk.onUpdate) || Stuck(def, fk.col)) && !NoRef(rows, fk.col, was)
  }

  /** A reference carried to the new key would meet another one there, in a column with an index. */
  ghost predicate Clashes(def: TableDef, rows: Rows, fk: ForeignKey, was: Key, now: Key) {
    fk.onUpdate == Cascade && IndexedOn(def, fk.col) && !NoRef(rows, fk.col, was) && !NoRef(rows, fk.col, now)
  }

  ghost predicate Unclashed(def: TableDef, rows: Rows, parent: Name, was: Key, now: Key) {
    forall i :: 0 <= i < |def.fks| && def.fks[i].parent == parent ==> !Clashes(def, rows, def.fks[i], was, now)
  }

  ghost predicate AllUnclashed(s: Schema, d: Data, parent: Name, was: Key, now: Key) {
    forall u :: u in s && u in d ==> Unclashed(s[u], d[u], parent, was, now)
  }

  /** Nobody refers to a key that is not there. */
  lemma {:induction false} NoneClash(s: Schema, d: Data, parent: Name, was: Key, now: Key)
    requires Integrity(s, d) && parent in d && now !in d[parent]
    ensures AllUnclashed(s, d, parent, was, now)
  {
    forall u, i | u in s && u in d && 0 <= i < |s[u].fks| && s[u].fks[i].parent == parent
      ensures NoRef(d[u], s[u].fks[i].col, now)
    {
      assert FkOk(d, d[u], s[u].fks[i]);
    }
  }

  lemma {:induction false} UnclashedAt(s: Schema, d: Data, parent: Name, was: Key, now: Key, u: Name)
    requires AllUnclashed(s, d, parent, was, now) && u in s && u in d
    ensures Unclashed(s[u], d[u], parent, was, now)
  {}

  ghost predicate FollowableUpTo(def: TableDef, rows: Rows, parent: Name, was: Key, n: nat) {
    forall i :: 0 <= i < n && i < |def.fks| && def.fks[i].parent == parent ==> !Blocks(def, rows, def.fks[i], was)
  }

  ghost predicate Followable(def: TableDef, rows: Rows, parent: Name,
                             was: Key) { FollowableUpTo(def, rows, parent, was, |def.fks|) }

  /** Nothing that refers to the key refuses its change. */
  ghost predicate AllFollowable(s: Schema, d: Data, parent: Name, was: Key) {
    forall u :: u in s && u in d ==> Followable(s[u], d[u], parent, was)
  }

  /** Some row holds the key through an ON UPDATE CASCADE reference. */
  ghost predicate CascadesIn(def: TableDef, rows: Rows, parent: Name, was: Key) {
    exists i :: 0 <= i < |def.fks| && def.fks[i].parent == parent && def.fks[i].onUpdate == Cascade
        && !NoRef(rows, def.fks[i].col, was)
  }

  ghost predicate CascadesFrom(s: Schema, d: Data, parent: Name, was: Key) {
    exists u :: u in s && u in d && CascadesIn(s[u], d[u], parent, was)
  }

  /** Every reference to the parent is ON UPDATE RESTRICT, if there is any. */
  ghost predicate StaysPut(def: TableDef, parent: Name) {
    forall i :: 0 <= i < |def.fks| && def.fks[i].parent == parent ==> def.fks[i].onUpdate == Restrict
  }

  /** Only rows that hold the key. */
  ghost predicate OnlyHolders(rows: Rows, col: nat, v: Key, ks: set<Key>) {
    forall k :: k in ks ==> k in rows && col < |rows[k]| && rows[k][col] == Val(v)
  }

  lemma {:induction false} NobodyHolds(rows: Rows, col: nat, v: Key, ks: set<Key>, w: Value)
    requires NoRef(rows, col, v) && OnlyHolders(rows, col, v, ks)
    ensures WithColumn(rows, ks, col, w) == rows
  {
  }

  /** Following one foreign key, even partly, dangles only if it cascades to somebody. */
  lemma {:induction false} FollowKeepsIntegrity(s: Schema, rank: map<Name, nat>, d: Data, t: Name, i: nat, ks: set<Key>,
                                                w: Value, was: Key)
    requires SchemaOk(s, rank) && DataOk(s, d) && Integrity(s, d) && t in s && i < |s[t].fks|
    requires OnlyHolders(d[t], s[t].fks[i].col, was, ks) && (w == Null || NoRef(d[t], s[t].fks[i].col, was))
    ensures Integrity(s, d[t := WithColumn(d[t], ks, s[t].fks[i].col, w)])
  {
    hide SchemaOk, Integrity, WithColumn, OnlyHolders, NoRef;
    OwnColumn(s, rank, t, i, i);
    if w == Null {
      NullKeepsIntegrity(s, d, t, ks, s[t].fks[i].col);
    } else {
      NobodyHolds(d[t], s[t].fks[i].col, was, ks, w);
      assert d[t := d[t]] == d;
    }
  }

  lemma {:induction false} RepointColumn(def: TableDef, row: Row, parent: Name, was: Key, now: Key, n: nat, c: nat)
    requires n <= |def.fks| && (forall j :: 0 <= j < n ==> def.fks[j].col != c) && c < |row|
    ensures Repoint(def, row, parent, was, now, n)[c] == row[c]
  {
    if n > 0 { RepointColumn(def, row, parent, was, now, n - 1, c); }
  }

  /** Following the first `n` foreign keys leaves the column of the next one alone. */
  lemma {:induction false} NextColumn(def: TableDef, rows: Rows, parent: Name, was: Key, now: Key, n: nat)
    requires TableOk(def) && RowsOk(def, rows) && n < |def.fks|
    ensures NoRef(RepointAll(def, rows, parent, was, now, n), def.fks[n].col, was) <==> NoRef(rows, def.fks[n].col, was)
    ensures Blocks(def, RepointAll(def, rows, parent, was, now, n), def.fks[n], was)
            <==> Blocks(def, rows, def.fks[n], was)
    ensures Clashes(def, RepointAll(def, rows, parent, was, now, n), def.fks[n], was, now)
            <==> Clashes(def, rows, def.fks[n], was, now)
  {
    hide Repoint;
    var c, mid := def.fks[n].col, RepointAll(def, rows, parent, was, now, n);
    forall k | k in rows ensures k in mid && c < |rows[k]| && |mid[k]| == |rows[k]| && mid[k][c] == rows[k][c] {
      assert RowOk(def, k, rows[k]);
      RepointColumn(def, rows[k], parent, was, now, n, c);
    }
  }

  lemma {:induction false} RepointCascades(def: TableDef, row: Row, parent: Name, was: Key, now: Key, n: nat, i: nat)
    requires i < n <= |def.fks| && TableOk(def) && |row| == |def.columns| && def.fks[i].parent == parent
             && def.fks[i].onUpdate == Cascade
    requires def.fks[i].col < |row| && row[def.fks[i].col] == Val(was)
    ensures Repoint(def, row, parent, was, now, n)[def.fks[i].col] == Val(now)
  {
    hide Repoint;
    assert Repoint(def, row, parent, was, now, n)
           == RepointOne(def.fks[n - 1], Repoint(def, row, parent, was, now, n - 1), parent, was, now) by {
      RepointStep(def, row, parent, was, now, n);
    }
    if i == n - 1 {
      RepointColumn(def, row, parent, was, now, n - 1, def.fks[i].col);
    } else {
      RepointCascades(def, row, parent, was, now, n - 1, i);
    }
  }

  lemma {:induction false} RepointStep(def: TableDef, row: Row, parent: Name, was: Key, now: Key, n: nat)
    requires 0 < n <= |def.fks|
    ensures Repoint(def, row, parent, was, now, n)
            == RepointOne(def.fks[n - 1], Repoint(def, row, parent, was, now, n - 1), parent, was, now)
  {
  }

  /** Some row holds the key through the i-th foreign key. */
  ghost predicate HeldAt(def: TableDef, rows: Rows, i: nat, v: Key) {
    i < |def.fks| && exists k :: k in rows && def.fks[i].col < |rows[k]| && rows[k][def.fks[i].col] == Val(v)
  }

  lemma {:induction false} HeldAtIs(def: TableDef, rows: Rows, i: nat, v: Key)
    requires TableOk(def) && RowsOk(def, rows) && i < |def.fks|
    ensures HeldAt(def, rows, i, v) <==> !NoRef(rows, def.fks[i].col, v)
  {
    forall k | k in rows ensures RowOk(def, k, rows[k]) {}
  }

  /** Once the i-th foreign key, a cascade, has been followed, its holders hold the new key. */
  lemma {:induction false} Carried(def: TableDef, rows: Rows, parent: Name, was: Key, now: Key, n: nat, i: nat)
    requires TableOk(def) && RowsOk(def, rows) && i < n <= |def.fks| && HeldAt(def, rows, i, was)
    requires def.fks[i].parent == parent && def.fks[i].onUpdate == Cascade
    ensures HeldAt(def, RepointAll(def, rows, parent, was, now, n), i, now)
  {
    hide Repoint;
    var k :| k in rows && def.fks[i].col < |rows[k]| && rows[k][def.fks[i].col] == Val(was);
    assert RowOk(def, k, rows[k]);
    RepointCascades(def, rows[k], parent, was, now, n, i);
    assert k in RepointAll(def, rows, parent, was, now, n);
  }

  lemma {:induction false} StillCarried(def: TableDef, rows: Rows, i: nat, j: nat, v: Key, ks: set<Key>, w: Value)
    requires TableOk(def) && i < |def.fks| && j < |def.fks| && i != j && HeldAt(def, rows, i, v)
    ensures HeldAt(def, WithColumn(rows, ks, def.fks[j].col, w), i, v)
  {
    var k :| k in rows && def.fks[i].col < |rows[k]| && rows[k][def.fks[i].col] == Val(v);
    assert k in WithColumn(rows, ks, def.fks[j].col, w);
  }

  /** A reference to a key that is not in the parent dangles. */
  lemma {:induction false} HeldDangles(s: Schema, d: Data, t: Name, i: nat, now: Key)
    requires t in s && t in d && i < |s[t].fks| && HeldAt(s[t], d[t], i, now)
    requires s[t].fks[i].parent in d && now !in d[s[t].fks[i].parent]
    ensures !Integrity(s, d)
  {
    assert !FkOk(d, d[t], s[t].fks[i]);
  }

  /** A reference that was carried to a key not in the parent dangles. */
  lemma {:induction false} CarriedDangles(s: Schema, d: Data, t: Name, parent: Name, was: Key, now: Key)
    requires t in s && t in d && TableOk(s[t]) && RowsOk(s[t], d[t]) && t != parent && parent in d && now !in d[parent]
    requires CascadesIn(s[t], d[t], parent, was)
    ensures !Integrity(s, d[t := RepointAll(s[t], d[t], parent, was, now, |s[t].fks|)])
  {
    hide RepointAll, Integrity, HeldAt, NoRef;
    var def, rows := s[t], d[t];
    var i :| 0 <= i < |def.fks| && def.fks[i].parent == parent && def.fks[i].onUpdate == Cascade
        && !NoRef(rows, def.fks[i].col, was);
    HeldAtIs(def, rows, i, was);
    Carried(def, rows, parent, was, now, |def.fks|, i);
    HeldDangles(s, d[t := RepointAll(def, rows, parent, was, now, |def.fks|)], t, i, now);
  }

  /** The table has carried somebody to the new key before it refuses, if it does. */
  ghost predicate CarriesFirst(def: TableDef, rows: Rows, parent: Name, was: Key, i: nat) {
    && i < |def.fks| && def.fks[i].parent == parent && def.fks[i].onUpdate == Cascade && HeldAt(def, rows, i, was)
    && FollowableUpTo(def, rows, parent, was, i + 1)
  }

  /** Some table refuses, and every one that does has carried somebody first. */
  ghost predicate CarriedThenRefused(s: Schema, d: Data, parent: Name, was: Key) {
    && !AllFollowable(s, d, parent, was)
    && forall u :: u in s && u in d && !Followable(s[u], d[u], parent, was) ==> exists i: nat :: CarriesFirst(s[u], d[u], parent, was, i)
  }

  /** A refusal at the i-th foreign key comes too late for what was carried through an earlier one. */
  lemma {:induction false} RefusedTooLate(s: Schema, d: Data, t: Name, rows: Rows, parent: Name, was: Key, now: Key,
                                          i: nat, ks: set<Key>, w: Value)
    requires t in s && t in d && TableOk(s[t]) && RowsOk(s[t], rows) && i < |s[t].fks| && s[t].fks[i].parent == parent
    requires Blocks(s[t], rows, s[t].fks[i], was) && parent in d && now !in d[parent]
    requires d[t] == WithColumn(RepointAll(s[t], rows, parent, was, now, i), ks, s[t].fks[i].col, w)
    requires exists c: nat :: CarriesFirst(s[t], rows, parent, was, c)
    ensures !Integrity(s, d)
  {
    hide RepointAll, WithColumn, Integrity, HeldAt, NoRef;
    var def := s[t];
    var c: nat :| CarriesFirst(def, rows, parent, was, c);
    Carried(def, rows, parent, was, now, i, c);
    StillCarried(def, RepointAll(def, rows, parent, was, now, i), c, i, now, ks, w);
    HeldDangles(s, d, t, c, now);
  }

  lemma {:induction false} CascadesNow(def: TableDef, rows: Rows, parent: Name, was: Key, i: nat)
    requires i < |def.fks| && def.fks[i].parent == parent && def.fks[i].onUpdate == Cascade
             && !CascadesIn(def, rows, parent, was)
    ensures NoRef(rows, def.fks[i].col, was)
  {
  }

  lemma {:induction false} FollowableMore(def: TableDef, rows: Rows, parent: Name, was: Key, i: nat)
    requires i < |def.fks|
    ensures FollowableUpTo(def, rows, parent, was, i + 1)
            <==> FollowableUpTo(def, rows, parent, was, i) && (def.fks[i].parent == parent ==> !Blocks(def, rows, def.fks[i], was))
  {
  }

  lemma {:induction false} FollowablePart(def: TableDef, rows: Rows, parent: Name, was: Key, i: nat)
    requires i <= |def.fks| && Followable(def, rows, parent, was)
    ensures FollowableUpTo(def, rows, parent, was, i)
  {
  }

  /** No row through any foreign key: nothing to follow, nothing to refuse. */
  lemma {:induction false} StrangerFollows(def: TableDef, rows: Rows, parent: Name, was: Key)
    requires NotChild(def, parent)
    ensures Followable(def, rows, parent, was) && !CascadesIn(def, rows, parent, was) && StaysPut(def, parent)
  {
  }

  // ----- one row of an UPDATE -----

  /**
    * The row may take this new value: its references hold, and its key stays,
    * or is free and everything that refers to it follows.
    */
  ghost predicate Passable(s: Schema, d: Data, t: Name, was: Key, newRow: Row)
    requires t in s && t in d
  {
    && s[t].pk < |newRow| && newRow[s[t].pk].Val? && RowRefsOk(s[t], d, newRow)
    && (newRow[s[t].pk].key == was || (newRow[s[t].pk].key !in d[t] && AllFollowable(s, d, t, was)))
  }

  /**
    * A failure on the way cannot make a reference dangle: no change of key, a
    * key that exists, no cascade to carry it, or nothing that refuses it.
    */
  ghost predicate Harmless(s: Schema, d: Data, t: Name, was: Key, now: Key, sound: bool)
    requires t in d
  {
    was == now || now in d[t] || !CascadesFrom(s, d, t, was)
        || (ReadyAround(s, t, sound) && AllFollowable(s, d, t, was))
  }

  /** The row would pass, but its new key is taken. */
  ghost predicate Colliding(s: Schema, d: Data, t: Name, was: Key, newRow: Row)
    requires t in s && t in d
  {
    && s[t].pk < |newRow| && newRow[s[t].pk].Val? && RowRefsOk(s[t], d, newRow)
    && newRow[s[t].pk].key != was && newRow[s[t].pk].key in d[t] && AllFollowable(s, d, t, was)
    && AllUnclashed(s, d, t, was, newRow[s[t].pk].key)
  }

  /** The row would pass and its new key is free, but references to it are carried there and then others refuse. */
  ghost predicate Stranding(s: Schema, d: Data, t: Name, was: Key, newRow: Row)
    requires t in s && t in d
  {
    && s[t].pk < |newRow| && newRow[s[t].pk].Val? && RowRefsOk(s[t], d, newRow)
    && newRow[s[t].pk].key != was && newRow[s[t].pk].key !in d[t] && CarriedThenRefused(s, d, t, was)
  }

  /** Every table but one has the keys it had. */
  ghost predicate OtherKeysSame(s: Schema, a: Data, b: Data, table: Name) {
    a.Keys == b.Keys && forall u :: u in s && u != table && u in a ==> a[u].Keys == b[u].Keys
  }

  lemma {:induction false} OtherKeysAgain(s: Schema, a: Data, b: Data, c: Data, table: Name)
    requires OtherKeysSame(s, a, b, table) && OtherKeysSame(s, b, c, table)
    ensures OtherKeysSame(s, a, c, table)
  {
  }

  lemma {:induction false} SameKeysElsewhere(s: Schema, a: Data, b: Data, table: Name, rows: Rows)
    requires SameKeys(a, b) && table in a
    ensures OtherKeysSame(s, a, b, table) && OtherKeysSame(s, a, b[table := rows], table)
  {
    assert a.Keys == b.Keys;
    forall u | u in s && u != table && u in a ensures a[u].Keys == b[u].Keys && b[table := rows][u] == b[u] { }
  }

  /** References of a row depend on the keys of the parents only, and a table is not its own parent. */
  lemma {:induction false} RefsElsewhere(s: Schema, a: Data, b: Data, t: Name, row: Row)
    requires t in s && OtherKeysSame(s, a, b, t) && NotChild(s[t], t)
             && forall i :: 0 <= i < |s[t].fks| ==> s[t].fks[i].parent in s
    ensures RowRefsOk(s[t], a, row) <==> RowRefsOk(s[t], b, row)
  {
    forall i | 0 <= i < |s[t].fks| && s[t].fks[i].parent in a
      ensures a[s[t].fks[i].parent].Keys == b[s[t].fks[i].parent].Keys
    {
    }
  }

  /** A key that exists already makes the extra key no extra. */
  lemma {:induction false} PlusExisting(s: Schema, d: Data, t: Name, k: Key)
    requires IntegrityPlus(s, d, t, k) && t in d && k in d[t]
    ensures Integrity(s, d)
  {
    forall u, i | u in s && u in d && 0 <= i < |s[u].fks| ensures FkOk(d, d[u], s[u].fks[i]) {
      assert FkOkPlus(d, d[u], s[u].fks[i], t, k);
    }
  }

  // ----- an UPDATE statement -----

  /** The SET clause can be applied to the row: the columns exist, the values can be had, NOT NULL holds. */
  ghost predicate Assignable(def: TableDef, row: Row, assignments: seq<Assignment>) {
    && (forall a <- assignments :: a.Assign? && a.col < |row|)
    && (forall c :: 0 <= c < |row| && c < |def.columns| && def.columns[c].notNull ==> SetAll(row, assignments)[c].Val?)
  }

  /** The SET clause can be applied, the row then has a key, and its references hold. */
  ghost predicate RowFits(def: TableDef, d: Data, row: Row, assignments: seq<Assignment>) {
    && Assignable(def, row, assignments)
    && def.pk < |row| && SetAll(row, assignments)[def.pk].Val? && RowRefsOk(def, d, SetAll(row, assignments))
  }

  /**
    * The row keeps its key, or is the only one selected, and its new key is
    * free and everything that refers to it follows.
    */
  ghost predicate KeyFits(s: Schema, d: Data, table: Name, selected: set<Key>, k: Key, now: Key)
    requires table in d
  {
    now == k || (selected == {k} && now !in d[table] && AllFollowable(s, d, table, k))
  }

  /** Every selected row can be updated. */
  ghost predicate Updatable(s: Schema, d: Data, table: Name, selected: set<Key>, assignments: seq<Assignment>)
    requires table in s && table in d
  {
    forall k :: k in d[table] && k in selected
      ==> RowFits(s[table], d, d[table][k], assignments)
          && KeyFits(s, d, table, selected, k, NewKey(d[table][k], s[table].pk, assignments))
  }

  /**
    * Some selected row moves to a key not in the table while an ON UPDATE
    * CASCADE reference holds its old key and, unless indexes are wrong, another
    * reference to it refuses.
    */
  ghost predicate Breakable(s: Schema, d: Data, table: Name, selected: set<Key>, assignments: seq<Assignment>,
                            sound: bool)
    requires table in s && table in d
  {
    exists k :: k in d[table] && k in selected && s[table].pk < |d[table][k]|
        && SetAll(d[table][k], assignments)[s[table].pk].Val?
        && !Harmless(s, d, table, k, NewKey(d[table][k], s[table].pk, assignments), sound)
  }

  /** One row is selected, and the SET clause can be applied to it. */
  ghost predicate Lone(s: Schema, d: Data, table: Name, selected: set<Key>, assignments: seq<Assignment>, k: Key)
    requires table in s && table in d
  {
    k in d[table] && selected == {k} && Assignable(s[table], d[table][k], assignments)
  }

  /** It would pass if its new key were not taken. */
  ghost predicate Loses(s: Schema, d: Data, table: Name, selected: set<Key>, assignments: seq<Assignment>)
    requires table in s && table in d
  {
    exists k :: Lone(s, d, table, selected, assignments, k)
        && Colliding(s, d, table, k, SetAll(d[table][k], assignments))
  }

  /** It would pass if nothing refused, and whatever refuses has carried somebody to the new key first. */
  ghost predicate MustDangle(s: Schema, d: Data, table: Name, selected: set<Key>, assignments: seq<Assignment>)
    requires table in s && table in d
  {
    exists k :: Lone(s, d, table, selected, assignments, k)
        && Stranding(s, d, table, k, SetAll(d[table][k], assignments))
  }

  /** The j-th collected row passed: it fits, and only the first one may have changed its key. */
  ghost predicate Passed(s: Schema, d: Data, table: Name, rs: seq<Row>, j: nat, assignments: seq<Assignment>)
    requires table in s && table in d && j < |rs|
  {
    var pk := s[table].pk;
    var k, now := KeyAt(rs[j], pk), NewKey(rs[j], pk, assignments);
    RowFits(s[table], d, rs[j], assignments)
        && (now == k || (j == 0 && now !in d[table] && AllFollowable(s, d, table, k)))
  }

  /** The step at hand cannot break anything: a row after the first moves, if at all, to the key of the first. */
  lemma {:induction false} StepHarmless(s: Schema, before: Data, cur: Data, table: Name, rs: seq<Row>, i: nat,
                                        selected: set<Key>, assignments: seq<Assignment>, sound: bool)
    requires table in s && table in before && table in cur && i < |rs|
             && Lists(before[table], rs, s[table].pk, selected)
    requires UpdatedUpTo(before[table], cur[table], s[table].pk, rs, i, assignments) && (i == 0 ==> cur == before)
    requires var pk := s[table].pk; |rs[0]| == |rs[i]| && pk < |rs[0]| && rs[0][pk].Val? && rs[i][pk].Val?
    requires var pk := s[table].pk; SetAll(rs[0], assignments)[pk].Val? && SetAll(rs[i], assignments)[pk].Val?
    requires !Breakable(s, before, table, selected, assignments, sound)
    ensures Harmless(s, cur, table, KeyAt(rs[i], s[table].pk), NewKey(rs[i], s[table].pk, assignments), sound)
  {
    hide SetAll, CascadesFrom, ReadyAround, AllFollowable;
    var pk := s[table].pk;
    var was, now := KeyAt(rs[i], pk), NewKey(rs[i], pk, assignments);
    if i == 0 {
      assert was in before[table] && before[table][was] == rs[0];
    } else if was != now {
      assert Moved(cur[table], rs, pk, 0, assignments);
      SecondCollides(rs[0], rs[i], pk, assignments);
    }
  }

  /** If every selected row can be updated, so can the one at hand, in the state reached. */
  lemma {:induction false} StepPasses(s: Schema, rank: map<Name, nat>, before: Data, cur: Data, table: Name,
                                      rs: seq<Row>, i: nat, selected: set<Key>, assignments: seq<Assignment>)
    requires SchemaOk(s, rank) && table in s && table in before && table in cur && i < |rs|
             && Lists(before[table], rs, s[table].pk, selected)
    requires OtherKeysSame(s, before, cur, table) && (i == 0 ==> cur == before)
    requires Untouched(rs, s[table].pk, i, KeyAt(rs[i], s[table].pk))
    requires Updatable(s, before, table, selected, assignments)
    ensures RowFits(s[table], before, rs[i], assignments)
            && Passable(s, cur, table, KeyAt(rs[i], s[table].pk), SetAll(rs[i], assignments))
  {
    hide SetAll, AllFollowable, RowRefsOk, OtherKeysSame, TableOk;
    var pk := s[table].pk;
    var k := KeyAt(rs[i], pk);
    assert k in before[table] && before[table][k] == rs[i] && k in selected;
    assert NotChild(s[table], table);
    RefsElsewhere(s, before, cur, table, SetAll(rs[i], assignments));
    assert KeyAt(rs[0], pk) in selected && (i > 0 ==> KeyAt(rs[0], pk) != k);
  }

  /** The only row selected is the first and last one collected. */
  lemma {:induction false} LoneFirst(s: Schema, before: Data, table: Name, rs: seq<Row>, selected: set<Key>,
                                     assignments: seq<Assignment>, k: Key)
    requires table in s && table in before && Lists(before[table], rs, s[table].pk, selected)
             && Lone(s, before, table, selected, assignments, k)
    ensures |rs| > 0 && k == KeyAt(rs[0], s[table].pk) && rs[0] == before[table][k]
  {
    hide SetAll, Assignable, KeyAt;
    assert k in selected;
    var j: nat :| j < |rs| && KeyAt(rs[j], s[table].pk) == k;
    assert KeyAt(rs[0], s[table].pk) in selected;
  }

  /** A step that succeeded tells what held before the statement. */
  lemma {:induction false} StepPassed(s: Schema, rank: map<Name, nat>, before: Data, cur: Data, table: Name,
                                      rs: seq<Row>, i: nat, assignments: seq<Assignment>)
    requires SchemaOk(s, rank) && table in s && table in before && table in cur && i < |rs| && s[table].pk < |rs[i]|
    requires OtherKeysSame(s, before, cur, table) && (i == 0 ==> cur == before)
    requires Assignable(s[table], rs[i], assignments)
    requires Passable(s, cur, table, KeyAt(rs[i], s[table].pk), SetAll(rs[i], assignments))
    requires i > 0 ==> NewKey(rs[i], s[table].pk, assignments) == KeyAt(rs[i], s[table].pk)
    ensures Passed(s, before, table, rs, i, assignments)
  {
    hide SetAll, AllFollowable, RowRefsOk, OtherKeysSame, TableOk;
    assert NotChild(s[table], table);
    RefsElsewhere(s, before, cur, table, SetAll(rs[i], assignments));
  }

  /** When every row has passed, every selected row could be updated. */
  lemma {:induction false} AllPassed(s: Schema, before: Data, after: Data, table: Name, rs: seq<Row>,
                                     selected: set<Key>, assignments: seq<Assignment>)
    requires table in s && table in before && Lists(before[table], rs, s[table].pk, selected)
    requires forall j: nat :: j < |rs| ==> Passed(s, before, table, rs, j, assignments)
    requires OthersUpdated(s, before, after, table, s[table].pk, selected, assignments)
    ensures Updatable(s, before, table, selected, assignments)
  {
    hide SetAll, AllFollowable, NewKey, KeyAt, RowFits, Repointed, OthersSame;
    var pk, rows := s[table].pk, before[table];
    forall k | k in rows && k in selected
      ensures RowFits(s[table], before, rows[k], assignments)
              && KeyFits(s, before, table, selected, k, NewKey(rows[k], pk, assignments))
    {
      var j: nat :| j < |rs| && KeyAt(rs[j], pk) == k;
      assert Passed(s, before, table, rs, j, assignments) && rows[k] == rs[j];
    }
  }

  // ----- the indexes of the updated table -----

  /** The old row and the new one have keys for every index, and nobody else holds the new ones. */
  ghost predicate IndexesFree(def: TableDef, rest: Rows, oldRow: Row, newRow: Row) {
    Keyed(def, oldRow) && Keyed(def, newRow) && Unheld(def, rest, newRow)
  }

  /** Different values in every column that has an index. */
  ghost predicate Apart(def: TableDef, a: Row, b: Row) {
    forall i: nat :: i < |def.indexes| && def.indexes[i].col < |a| && def.indexes[i].col < |b|
      ==> a[def.indexes[i].col] != b[def.indexes[i].col]
  }

  ghost function Final(rows: Rows, selected: set<Key>, assignments: seq<Assignment>, k: Key): Row
    requires k in rows
  {
    if k in selected then SetAll(rows[k], assignments) else rows[k]
  }

  /** Selected rows have keys for every index before and after, and afterwards no other row has the same. */
  ghost predicate IndexFits(def: TableDef, rows: Rows, selected: set<Key>, assignments: seq<Assignment>) {
    forall k :: k in rows && k in selected ==> IndexFitsAt(def, rows, selected, assignments, k)
  }

  ghost predicate IndexFitsAt(def: TableDef, rows: Rows, selected: set<Key>, assignments: seq<Assignment>, k: Key)
    requires k in rows
  {
    && Keyed(def, rows[k]) && Keyed(def, SetAll(rows[k], assignments))
    && forall j :: j in rows && j != k ==> Apart(def, Final(rows, selected, assignments, j), SetAll(rows[k], assignments))
  }

  /**
    * A row that stays apart in the end is apart as it stands: SET gives every
    * row the same value, or leaves each its own.
    */
  lemma {:induction false} ApartNow(def: TableDef, a: Row, b: Row, assignments: seq<Assignment>)
    requires |a| == |b| && Apart(def, SetAll(a, assignments), SetAll(b, assignments))
    ensures Apart(def, a, SetAll(b, assignments))
  {
    forall i: nat | i < |def.indexes| && def.indexes[i].col < |a| && def.indexes[i].col < |b|
      ensures a[def.indexes[i].col] != SetAll(b, assignments)[def.indexes[i].col]
    {
      SetAllAt(a, b, assignments, def.indexes[i].col);
    }
  }

  /** Where the rows in the table are apart from the new one, it is free to come. */
  lemma {:induction false} ApartIsUnheld(def: TableDef, rest: Rows, row: Row)
    requires Keyed(def, row)
    ensures Unheld(def, rest, row) <==> forall x :: x in rest ==> Apart(def, rest[x], row)
  {
    if Unheld(def, rest, row) {
      forall x | x in rest ensures Apart(def, rest[x], row) {
        forall i: nat | i < |def.indexes| && def.indexes[i].col < |rest[x]| && def.indexes[i].col < |row|
          ensures rest[x][def.indexes[i].col] != row[def.indexes[i].col]
        {
          assert NobodyHas(rest, def.indexes[i].col, row[def.indexes[i].col]);
        }
      }
    } else {
      var i: nat :| i < |def.indexes| && def.indexes[i].col < |row|
          && !NobodyHas(rest, def.indexes[i].col, row[def.indexes[i].col]);
      var x :| x in rest && def.indexes[i].col < |rest[x]| && rest[x][def.indexes[i].col] == row[def.indexes[i].col];
      assert !Apart(def, rest[x], row);
    }
  }

  ghost predicate Widths(rows: Rows, n: nat) { forall k :: k in rows ==> |rows[k]| == n }

  /** If the statement fits, the row at hand is free to come, in the table as it stands. */
  lemma {:induction false} StepFits(def: TableDef, rows: Rows, cur: Rows, rs: seq<Row>, i: nat, selected: set<Key>,
                                    assignments: seq<Assignment>)
    requires i < |rs| && Lists(rows, rs, def.pk, selected) && UpdatedUpTo(rows, cur, def.pk, rs, i, assignments)
    requires Untouched(rs, def.pk, i, KeyAt(rs[i], def.pk)) && Widths(rows, |rs[i]|)
    requires IndexFits(def, rows, selected, assignments)
    ensures IndexesFree(def, cur - {KeyAt(rs[i], def.pk)}, rs[i], SetAll(rs[i], assignments))
  {
    hide SetAll, Apart, Keyed, Unheld, KeyAt, NewKey, UpdatedUpTo;
    var k, pk := KeyAt(rs[i], def.pk), def.pk;
    assert k in rows && k in selected && rows[k] == rs[i];
    assert IndexFitsAt(def, rows, selected, assignments, k);
    var rest := cur - {k};
    forall x | x in rest ensures Apart(def, rest[x], SetAll(rs[i], assignments)) {
      WhoIsThere(rows, cur, pk, rs, i, assignments, x);
      if x in rows && Untouched(rs, pk, i, x) && cur[x] == rows[x] {
        assert Apart(def, Final(rows, selected, assignments, x), SetAll(rs[i], assignments));
        if x in selected { ApartNow(def, rows[x], rs[i], assignments); }
      } else {
        var m: nat :| m < i && NewKey(rs[m], pk, assignments) == x && cur[x] == SetAll(rs[m], assignments);
        var j := KeyAt(rs[m], pk);
        assert j in rows && j in selected && rows[j] == rs[m] && j != k;
        assert Apart(def, Final(rows, selected, assignments, j), SetAll(rs[i], assignments));
      }
    }
    ApartIsUnheld(def, rest, SetAll(rs[i], assignments));
  }

  /** What the first `i` steps have shown about indexes. */
  ghost predicate IndexedUpTo(def: TableDef, rows: Rows, rs: seq<Row>, i: nat, selected: set<Key>,
                              assignments: seq<Assignment>)
    requires i <= |rs|
  {
    && (forall m: nat :: m < i ==> Keyed(def, rs[m]) && Keyed(def, SetAll(rs[m], assignments)))
    && (forall m: nat, j :: m < i && j in rows && j !in selected ==> Apart(def, rows[j], SetAll(rs[m], assignments)))
    && (forall l: nat, m: nat :: l < m < i ==> Apart(def, SetAll(rs[l], assignments), SetAll(rs[m], assignments)))
  }

  lemma {:induction false} IndexedStep(def: TableDef, rows: Rows, cur: Rows, rs: seq<Row>, i: nat, selected: set<Key>,
                                       assignments: seq<Assignment>)
    requires i < |rs| && Lists(rows, rs, def.pk, selected) && UpdatedUpTo(rows, cur, def.pk, rs, i, assignments)
    requires IndexedUpTo(def, rows, rs, i, selected, assignments) && KeyAt(rs[i], def.pk) in cur
             && cur[KeyAt(rs[i], def.pk)] == rs[i]
    requires IndexesFree(def, cur - {KeyAt(rs[i], def.pk)}, rs[i], SetAll(rs[i], assignments))
    requires forall m: nat :: m < i ==> NewKey(rs[m], def.pk, assignments) != KeyAt(rs[i], def.pk)
    ensures IndexedUpTo(def, rows, rs, i + 1, selected, assignments)
  {
    hide SetAll, Apart, Keyed, Unheld, KeyAt, NewKey, UpdatedUpTo, Lists, Untouched;
    var k, pk := KeyAt(rs[i], def.pk), def.pk;
    var rest := cur - {k};
    ApartIsUnheld(def, rest, SetAll(rs[i], assignments));
    forall j | j in rows && j !in selected ensures Apart(def, rows[j], SetAll(rs[i], assignments)) {
      StaysBehind(rows, rs, pk, i, selected, j);
      LeftAlone(rows, cur, pk, rs, i, assignments, j);
      assert j in rest && rest[j] == rows[j];
    }
    forall l: nat | l < i ensures Apart(def, SetAll(rs[l], assignments), SetAll(rs[i], assignments)) {
      HasMoved(rows, cur, pk, rs, i, assignments, l);
      var x := NewKey(rs[l], pk, assignments);
      assert x in rest && rest[x] == SetAll(rs[l], assignments);
    }
  }

  lemma {:induction false} LeftAlone(rows: Rows, cur: Rows, pk: nat, rs: seq<Row>, i: nat, assignments: seq<Assignment>,
                                     j: Key)
    requires i <= |rs| && UpdatedUpTo(rows, cur, pk, rs, i, assignments) && j in rows && Untouched(rs, pk, i, j)
    ensures j in cur && cur[j] == rows[j]
  {}

  lemma {:induction false} HasMoved(rows: Rows, cur: Rows, pk: nat, rs: seq<Row>, i: nat, assignments: seq<Assignment>,
                                    l: nat)
    requires l < i <= |rs| && UpdatedUpTo(rows, cur, pk, rs, i, assignments)
    ensures var x := NewKey(rs[l], pk, assignments); x in cur && cur[x] == SetAll(rs[l], assignments)
  {
    assert Moved(cur, rs, pk, l, assignments);
  }

  lemma {:induction false} WhoIsThere(rows: Rows, cur: Rows, pk: nat, rs: seq<Row>, i: nat,
                                      assignments: seq<Assignment>, x: Key)
    requires i <= |rs| && UpdatedUpTo(rows, cur, pk, rs, i, assignments) && x in cur
    ensures (x in rows && Untouched(rs, pk, i, x) && cur[x] == rows[x])
            || exists m: nat :: m < i && NewKey(rs[m], pk, assignments) == x && cur[x] == SetAll(rs[m], assignments)
  {
    if !(x in rows && Untouched(rs, pk, i, x)) {
      var m: nat :| m < i && NewKey(rs[m], pk, assignments) == x;
      assert Moved(cur, rs, pk, m, assignments);
    }
  }

  lemma {:induction false} StaysBehind(rows: Rows, rs: seq<Row>, pk: nat, i: nat, selected: set<Key>, j: Key)
    requires Lists(rows, rs, pk, selected) && j !in selected && i <= |rs|
    ensures Untouched(rs, pk, i, j) && (i < |rs| ==> KeyAt(rs[i], pk) in selected)
  {}

  lemma {:induction false} IndexedAll(def: TableDef, rows: Rows, rs: seq<Row>, selected: set<Key>,
                                      assignments: seq<Assignment>)
    requires Lists(rows, rs, def.pk, selected) && IndexedUpTo(def, rows, rs, |rs|, selected, assignments)
    ensures IndexFits(def, rows, selected, assignments)
  {
    hide SetAll, Keyed, KeyAt;
    forall k | k in rows && k in selected ensures IndexFitsAt(def, rows, selected, assignments, k) {
      var m: nat :| m < |rs| && KeyAt(rs[m], def.pk) == k;
      assert rows[k] == rs[m];
      forall j | j in rows && j != k
        ensures Apart(def, Final(rows, selected, assignments, j), SetAll(rows[k], assignments))
      {
        if j in selected {
          var l: nat :| l < |rs| && KeyAt(rs[l], def.pk) == j;
          assert rows[j] == rs[l] && (l < m || m < l);
          ApartBoth(def, SetAll(rs[l], assignments), SetAll(rs[m], assignments));
        }
      }
    }
  }

  lemma {:induction false} ApartBoth(def: TableDef, a: Row, b: Row)
    ensures Apart(def, a, b) <==> Apart(def, b, a)
  {}

  // ----- a row that is deleted -----

  /** The row's i-th foreign key refers to a row on its way out. */
  ghost predicate RefersTo(def: TableDef, row: Row, i: nat, doom: Doom) {
    i < |def.fks| && def.fks[i].col < |row| && row[def.fks[i].col].Val?
        && (def.fks[i].parent, row[def.fks[i].col].key) in doom
  }

  /** The i-th foreign key of a row that refers to a doomed one lets go of it. */
  ghost predicate LetsGo(def: TableDef, i: nat, doomed: bool, sound: bool)
    requires i < |def.fks|
  {
    var fk := def.fks[i];
    && Ready(def, sound) && !Refuses(def, fk, fk.onDelete) && (fk.onDelete == Cascade ==> doomed)
    && (fk.onDelete == SetNull && IndexedOn(def, fk.col) ==> !Stuck(def, fk.col) && !doomed)
  }

  /**
    * Whatever refers to a doomed row lets it go, what is cascaded to is doomed as
    * well, and every doomed row has a key for every index and keeps it to the end.
    */
  ghost predicate Closed(s: Schema, d: Data, doom: Doom, sound: bool) {
    && (forall t, k, i: nat :: t in s && t in d && k in d[t] && RefersTo(s[t], d[t][k], i, doom)
          ==> LetsGo(s[t], i, (t, k) in doom, sound))
    && (forall t, k :: (t, k) in doom && t in s && t in d && k in d[t] ==> Ready(s[t], sound) && Keyed(s[t], d[t][k]))
  }

  /** No refusal can be reached from these rows by cascades. */
  ghost predicate Unobstructed(s: Schema, d: Data, t: Name, ks: set<Key>, sound: bool) {
    exists doom: Doom :: Closed(s, d, doom, sound) && Doomed(t, ks) <= doom
  }

  /** A row that is taken away. */
  lemma {:induction false} ClosedRemoval(s: Schema, d: Data, doom: Doom, sound: bool, t: Name, k: Key)
    requires Closed(s, d, doom, sound) && t in d
    ensures Closed(s, d[t := d[t] - {k}], doom, sound)
  {
    hide LetsGo, Keyed, Ready;
    var b := d[t := d[t] - {k}];
    forall u, j, i: nat | u in s && u in b && j in b[u] && RefersTo(s[u], b[u][j], i, doom)
      ensures LetsGo(s[u], i, (u, j) in doom, sound)
    {
      assert j in d[u] && b[u][j] == d[u][j];
    }
    forall u, j | (u, j) in doom && u in s && u in b && j in b[u] ensures Ready(s[u], sound) && Keyed(s[u], b[u][j]) {
      assert j in d[u] && b[u][j] == d[u][j];
    }
  }

  /** References to a doomed row that are set to NULL. */
  lemma {:induction false} ClosedNulls(s: Schema, d: Data, doom: Doom, sound: bool, t: Name, i: nat, v: Key,
                                       ks: set<Key>)
    requires Closed(s, d, doom, sound) && t in s && t in d && i < |s[t].fks| && s[t].fks[i].onDelete == SetNull
    requires OnlyHolders(d[t], s[t].fks[i].col, v, ks) && (s[t].fks[i].parent, v) in doom
    ensures Closed(s, d[t := WithColumn(d[t], ks, s[t].fks[i].col, Null)], doom, sound)
  {
    hide LetsGo, Keyed, Ready;
    var col := s[t].fks[i].col;
    var b := d[t := WithColumn(d[t], ks, col, Null)];
    forall u, j, n: nat | u in s && u in b && j in b[u] && RefersTo(s[u], b[u][j], n, doom)
      ensures LetsGo(s[u], n, (u, j) in doom, sound)
    {
      assert RefersTo(s[u], d[u][j], n, doom);
    }
    forall u, j | (u, j) in doom && u in s && u in b && j in b[u] ensures Ready(s[u], sound) && Keyed(s[u], b[u][j]) {
      if u == t && j in ks {
        assert RefersTo(s[t], d[t][j], i, doom);
        NulledStaysKeyed(s[t], i, sound, d[t][j]);
      }
    }
  }

  lemma {:induction false} NulledStaysKeyed(def: TableDef, i: nat, sound: bool, row: Row)
    requires i < |def.fks| && def.fks[i].onDelete == SetNull && LetsGo(def, i, true, sound)
    requires Keyed(def, row) && def.fks[i].col < |row|
    ensures Keyed(def, row[def.fks[i].col := Null])
  {
    forall n: nat | n < |def.indexes| ensures HasKeyAt(def, row[def.fks[i].col := Null], def.indexes[n].col) {
      assert HasKeyAt(def, row, def.indexes[n].col);
      assert IndexedOn(def, def.indexes[n].col);
    }
  }

  /** The rows found through a foreign key to a doomed row: the rule lets go, and if it cascades they are doomed. */
  lemma {:induction false} ClosedBelow(s: Schema, d: Data, doom: Doom, sound: bool, t: Name, i: nat, v: Key,
                                       ks: set<Key>)
    requires Closed(s, d, doom, sound) && t in s && t in d && i < |s[t].fks| && (s[t].fks[i].parent, v) in doom
    requires OnlyHolders(d[t], s[t].fks[i].col, v, ks) && ks != {}
    ensures exists doomed: bool :: LetsGo(s[t], i, doomed, sound)
    ensures s[t].fks[i].onDelete == Cascade ==> Doomed(t, ks) <= doom
  {
    forall k | k in ks ensures LetsGo(s[t], i, (t, k) in doom, sound) {
      assert RefersTo(s[t], d[t][k], i, doom);
    }
    var k :| k in ks;
    assert LetsGo(s[t], i, (t, k) in doom, sound);
  }

  /** The keys of every table are there, and its indexes right. */
  ghost predicate AllReady(s: Schema, sound: bool) { forall t <- s :: Ready(s[t], sound) }

  /** No table has a cascading ON DELETE rule beside one that refuses, or that sets a column with an index to NULL. */
  ghost predicate Unmixed(s: Schema) {
    forall t, i: nat, j: nat :: t in s && i < |s[t].fks| && j < |s[t].fks| && s[t].fks[i].onDelete == Cascade
      ==> !Refuses(s[t], s[t].fks[j], s[t].fks[j].onDelete)
          && !(s[t].fks[j].onDelete == SetNull && IndexedOn(s[t], s[t].fks[j].col))
  }

  /** Tables above the given one, and beside it, are as they were. */
  ghost predicate AboveKept(rank: map<Name, nat>, a: Data, b: Data, table: Name)
    requires table in rank
  {
    forall u :: u in a && u in rank && rank[u] >= rank[table] && u != table ==> u in b && b[u] == a[u]
  }

  ghost function GoneRows(a: Data,
                          b: Data): Doom { set t, k | t in a && k in a[t] && (t in b ==> k !in b[t]) :: (t, k) }

  /** One reference to a row that a successful delete took away: the rule let go. */
  lemma {:induction false} LetGoOf(s: Schema, rank: map<Name, nat>, a: Data, b: Data, table: Name, ks: set<Key>,
                                   t: Name, k: Key, i: nat)
    requires SchemaOk(s, rank) && Deleted(s, a, b, table, ks) && Unmixed(s) && table in rank
             && AboveKept(rank, a, b, table)
    requires t in s && t in a && k in a[t] && RefersTo(s[t], a[t][k], i, GoneRows(a, b))
    ensures !Refuses(s[t], s[t].fks[i], s[t].fks[i].onDelete)
    ensures s[t].fks[i].onDelete == Cascade ==> (t, k) in GoneRows(a, b)
    ensures s[t].fks[i].onDelete == SetNull && IndexedOn(s[t], s[t].fks[i].col)
            ==> !Stuck(s[t], s[t].fks[i].col) && (t, k) !in GoneRows(a, b)
  {
    hide SchemaOk, DataOk, Integrity, Gone, Caused, Keyed, IndexedOn, Stuck;
    ForeignKeyFacts(s, rank, t, i);
    var fk, row := s[t].fks[i], a[t][k];
    assert a.Keys == b.Keys;
    assert row[fk.col].key !in b[fk.parent];
    assert t != table;
    assert RowCaused(s, a, b, Doomed(table, ks), t, k) by { CausedAt(s, a, b, Doomed(table, ks), t, k); }
    if k in b[t] {
      MustBeNull(s, a, b, t, k, i);
      var j: nat :| Because(s[t], row, SetNull, b, Doomed(table, ks), j) && s[t].fks[j].col == fk.col;
    } else {
      var j: nat :| Because(s[t], row, Cascade, b, Doomed(table, ks), j);
    }
  }

  lemma {:induction false} CausedAt(s: Schema, a: Data, b: Data, doom: Doom, t: Name, k: Key)
    requires Caused(s, a, b, doom) && t in s && t in a && t in b && k in a[t]
    ensures RowCaused(s, a, b, doom, t, k)
  {
    hide RowCaused;
  }

  /** Where no table mixes cascades and refusals, a delete that succeeded was free to. */
  lemma {:induction false} DeletedIsUnobstructed(s: Schema, rank: map<Name, nat>, a: Data, b: Data, table: Name,
                                                 ks: set<Key>, sound: bool)
    requires SchemaOk(s, rank) && Deleted(s, a, b, table, ks) && AllReady(s, sound) && Unmixed(s) && table in rank
             && AboveKept(rank, a, b, table)
    requires table in a && forall k <- ks :: k in a[table]
    ensures Unobstructed(s, a, table, ks, sound)
  {
    hide SchemaOk, DataOk, Integrity, Caused, Shrinks, Ready, Refuses, Keyed, IndexedOn, Stuck, RemovedFor, NulledFor;
    var doom := GoneRows(a, b);
    forall t, k, i: nat | t in s && t in a && k in a[t] && RefersTo(s[t], a[t][k], i, doom)
      ensures LetsGo(s[t], i, (t, k) in doom, sound)
    {
      LetGoOf(s, rank, a, b, table, ks, t, k, i);
    }
    forall t, k | (t, k) in doom && t in s && t in a && k in a[t] ensures Ready(s[t], sound) && Keyed(s[t], a[t][k]) {
      assert a.Keys == b.Keys by { assert Shrinks(a, b); SameTablesShrunk(a, b); }
      CausedAt(s, a, b, Doomed(table, ks), t, k);
    }
    assert Closed(s, a, doom, sound) && Doomed(table, ks) <= doom;
  }

  lemma {:induction false} SameTablesShrunk(a: Data, b: Data)
    requires Shrinks(a, b)
    ensures a.Keys == b.Keys
  {}

  /** The converse for RESTRICT: a row that refers through it to a row that was deleted was itself deleted. */
  lemma {:induction false} RestrictedGo(s: Schema, rank: map<Name, nat>, a: Data, b: Data, table: Name, ks: set<Key>,
                                        t: Name, k: Key, i: nat)
    requires SchemaOk(s, rank) && Deleted(s, a, b, table, ks) && t in s && t in a && k in a[t]
    requires i < |s[t].fks| && s[t].fks[i].onDelete == Restrict && s[t].fks[i].col < |a[t][k]|
             && a[t][k][s[t].fks[i].col].Val?
    requires s[t].fks[i].parent in b && a[t][k][s[t].fks[i].col].key !in b[s[t].fks[i].parent]
    ensures t in b && k !in b[t]
  {
    hide SchemaOk, DataOk, Integrity, Gone;
    var doom := Doomed(table, ks);
    assert t in b;
    if k in b[t] {
      MustBeNull(s, a, b, t, k, i);
      assert RowCaused(s, a, b, doom, t, k);
      var j: nat :| Because(s[t], a[t][k], SetNull, b, doom, j) && s[t].fks[j].col == s[t].fks[i].col;
      ForeignKeyFacts(s, rank, t, i);
    }
  }
}
