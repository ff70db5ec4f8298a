/** What a cascading delete takes away, and that the order of the cascade does not matter (executor/fk.go). */
module Cascades {
  import opened Relations

  /** Rows on their way out: a table and a key. */
  type Doom = set<(Name, Key)>

  ghost function Doomed(t: Name, ks: set<Key>): Doom { set k | k in ks :: (t, k) }

  ghost predicate Gone(b: Data, doom: Doom, t: Name, p: Key) { (t, p) in doom || (t in b && p !in b[t]) }

  /** The row's i-th foreign key, of this action, refers to a row that is gone. */
  ghost predicate Because(def: TableDef, row: Row, action: FKAction, b: Data, doom: Doom, i: nat) {
    && i < |def.fks| && def.fks[i].onDelete == action
    && def.fks[i].col < |row| && row[def.fks[i].col].Val?
    && Gone(b, doom, def.fks[i].parent, row[def.fks[i].col].key)
  }

  ghost predicate RemovedFor(def: TableDef, row: Row, b: Data, doom: Doom) {
    exists i: nat :: Because(def, row, Cascade, b, doom, i)
  }

  /** A column set to NULL by rule, which may not be NOT NULL, nor lack keys for its index. */
  ghost predicate NulledFor(def: TableDef, row: Row, c: nat, b: Data, doom: Doom) {
    !(c < |def.columns| && def.columns[c].notNull) && !Stuck(def, c)
        && exists i: nat :: Because(def, row, SetNull, b, doom, i) && def.fks[i].col == c
  }

  /**
    * One row of `a`: if it is gone it was doomed or cascaded to and had a key for
    * every index; a column changed only where it was set to NULL by rule.
    */
  ghost predicate RowCaused(s: Schema, a: Data, b: Data, doom: Doom, t: Name, k: Key)
    requires t in s && t in a && t in b && k in a[t]
  {
    if k !in b[t] then ((t, k) in doom || RemovedFor(s[t], a[t][k], b, doom)) && Keyed(s[t], a[t][k])
    else forall c: nat :: c < |a[t][k]| && c < |b[t][k]| && b[t][k][c] != a[t][k][c] ==> NulledFor(s[t], a[t][k], c, b, doom)
  }

  /** Nothing changed from `a` to `b` without cause. */
  ghost predicate Caused(s: Schema, a: Data, b: Data, doom: Doom) {
    forall t, k :: t in s && t in a && t in b && k in a[t] ==> RowCaused(s, a, b, doom, t, k)
  }

  lemma {:induction false} CausedSelf(s: Schema, a: Data, doom: Doom)
    ensures Caused(s, a, a, doom)
  {}

  lemma {:induction false} StillGone(b: Data, c: Data, doom: Doom, more: Doom, t: Name, p: Key)
    requires Shrinks(b, c) && Gone(b, doom, t, p) && doom <= more
    ensures Gone(c, more, t, p)
  {
    if t in b && p !in b[t] { assert RowsShrink(b[t], c[t]); }
  }

  lemma {:induction false} StillRemovedFor(def: TableDef, row: Row, b: Data, c: Data, doom: Doom, more: Doom)
    requires RemovedFor(def, row, b, doom) && Shrinks(b, c) && doom <= more
    ensures RemovedFor(def, row, c, more)
  {
    hide Shrinks, Gone;
    var i: nat :| Because(def, row, Cascade, b, doom, i);
    StillGone(b, c, doom, more, def.fks[i].parent, row[def.fks[i].col].key);
    assert Because(def, row, Cascade, c, more, i);
  }

  lemma {:induction false} StillNulledFor(def: TableDef, row: Row, col: nat, b: Data, c: Data, doom: Doom, more: Doom)
    requires NulledFor(def, row, col, b, doom) && Shrinks(b, c) && doom <= more
    ensures NulledFor(def, row, col, c, more)
  {
    hide Shrinks, Gone;
    var i: nat :| Because(def, row, SetNull, b, doom, i) && def.fks[i].col == col;
    StillGone(b, c, doom, more, def.fks[i].parent, row[def.fks[i].col].key);
    assert Because(def, row, SetNull, c, more, i);
  }

  /** A cause seen from a row with some columns nulled is one seen from the row itself. */
  lemma {:induction false} EarlierRow(def: TableDef, early: Row, late: Row, c: Data, doom: Doom)
    requires RowShrinks(early, late)
    ensures RemovedFor(def, late, c, doom) ==> RemovedFor(def, early, c, doom)
    ensures forall col: nat :: NulledFor(def, late, col, c, doom) ==> NulledFor(def, early, col, c, doom)
  {
    hide Gone;
    if RemovedFor(def, late, c, doom) {
      var i: nat :| Because(def, late, Cascade, c, doom, i);
      assert Because(def, early, Cascade, c, doom, i);
    }
    forall col: nat | NulledFor(def, late, col, c, doom) ensures NulledFor(def, early, col, c, doom) {
      var i: nat :| Because(def, late, SetNull, c, doom, i) && def.fks[i].col == col;
      assert Because(def, early, SetNull, c, doom, i);
    }
  }

  lemma {:induction false} KeyedBefore(def: TableDef, early: Row, late: Row)
    requires RowShrinks(early, late) && Keyed(def, late)
    ensures Keyed(def, early)
  {
    forall i: nat | i < |def.indexes| ensures HasKeyAt(def, early, def.indexes[i].col) {
      assert HasKeyAt(def, late, def.indexes[i].col);
    }
  }

  lemma {:induction false} RowCausedAgain(s: Schema, a: Data, b: Data, c: Data, doom: Doom, more: Doom, t: Name, k: Key)
    requires Shrinks(a, b) && Shrinks(b, c) && doom <= more
    requires t in s && t in a && t in b && t in c && k in a[t]
    requires RowCaused(s, a, b, doom, t, k) && (k in b[t] ==> RowCaused(s, b, c, more, t, k))
    ensures RowCaused(s, a, c, more, t, k)
  {
    hide RemovedFor, NulledFor, Keyed;
    assert RowsShrink(a[t], b[t]) && RowsShrink(b[t], c[t]);
    var row := a[t][k];
    if k in b[t] && k !in c[t] { KeyedBefore(s[t], row, b[t][k]); }
    if k !in b[t] {
      if RemovedFor(s[t], row, b, doom) { StillRemovedFor(s[t], row, b, c, doom, more); }
    } else {
      EarlierRow(s[t], row, b[t][k], c, more);
      forall col: nat | col < |row| && NulledFor(s[t], row, col, b, doom) ensures NulledFor(s[t], row, col, c, more) {
        StillNulledFor(s[t], row, col, b, c, doom, more);
      }
    }
  }

  lemma {:induction false} CausedAgain(s: Schema, a: Data, b: Data, c: Data, doom: Doom, more: Doom)
    requires Shrinks(a, b) && Shrinks(b, c) && Caused(s, a, b, doom) && Caused(s, b, c, more) && doom <= more
    ensures Caused(s, a, c, more)
  {
    hide RowCaused;
    forall t, k | t in s && t in a && t in c && k in a[t] ensures RowCaused(s, a, c, more, t, k) {
      assert t in b;
      RowCausedAgain(s, a, b, c, doom, more, t, k);
    }
  }

  lemma {:induction false} CausedMore(s: Schema, a: Data, b: Data, doom: Doom, more: Doom)
    requires Shrinks(a, b) && Caused(s, a, b, doom) && doom <= more
    ensures Caused(s, a, b, more)
  {
    hide RowCaused;
    ShrinksSelf(b);
    CausedSelf(s, b, more);
    CausedAgain(s, a, b, b, doom, more);
  }

  lemma {:induction false} CausedRemoval(s: Schema, a: Data, t: Name, k: Key)
    requires t in s && t in a && k in a[t] && Keyed(s[t], a[t][k])
    ensures Caused(s, a, a[t := a[t] - {k}], {(t, k)})
  {}

  lemma {:induction false} CausedNulls(s: Schema, a: Data, t: Name, i: nat, ks: set<Key>, v: Key)
    requires t in s && t in a && i < |s[t].fks| && s[t].fks[i].onDelete == SetNull
    requires forall k :: k in ks && k in a[t] ==> s[t].fks[i].col < |a[t][k]| && a[t][k][s[t].fks[i].col] == Val(v)
    requires !(s[t].fks[i].col < |s[t].columns| && s[t].columns[s[t].fks[i].col].notNull)
             && !Stuck(s[t], s[t].fks[i].col)
    ensures Caused(s, a, a[t := WithColumn(a[t], ks, s[t].fks[i].col, Null)], {(s[t].fks[i].parent, v)})
  {
    var fk := s[t].fks[i];
    var b, doom := a[t := WithColumn(a[t], ks, fk.col, Null)], {(fk.parent, v)};
    forall u, k | u in s && u in a && u in b && k in a[u] ensures RowCaused(s, a, b, doom, u, k) {
      if u == t && k in ks { assert Because(s[t], a[t][k], SetNull, b, doom, i); }
    }
  }

  /** Rows that were doomed because they refer to other doomed rows are accounted for by those. */
  lemma {:induction false} CausedBy(s: Schema, a: Data, b: Data, doom: Doom, root: Doom)
    requires Caused(s, a, b, doom)
    requires forall t, k :: (t, k) in doom
               ==> t in s && t in a && t in b && k in a[t] && k !in b[t] && RemovedFor(s[t], a[t][k], b, root)
    ensures Caused(s, a, b, root)
  {
    forall t, k | t in s && t in a && t in b && k in a[t] ensures RowCaused(s, a, b, root, t, k) {
      RowCausedBy(s, a, b, doom, root, t, k);
    }
  }

  lemma {:induction false} RowCausedBy(s: Schema, a: Data, b: Data, doom: Doom, root: Doom, t: Name, k: Key)
    requires t in s && t in a && t in b && k in a[t] && RowCaused(s, a, b, doom, t, k)
    requires forall u, j :: (u, j) in doom
               ==> u in s && u in a && u in b && j in a[u] && j !in b[u] && RemovedFor(s[u], a[u][j], b, root)
    ensures RowCaused(s, a, b, root, t, k)
  {
    hide RemovedFor, NulledFor, Keyed;
    var row := a[t][k];
    if RemovedFor(s[t], row, b, doom) { ForRoot(s[t], row, b, doom, root); }
    forall c: nat | NulledFor(s[t], row, c, b, doom)
      ensures NulledFor(s[t], row, c, b, root)
    {
      NulledForRoot(s[t], row, c, b, doom, root);
    }
  }

  lemma {:induction false} ForRoot(def: TableDef, row: Row, b: Data, doom: Doom, root: Doom)
    requires RemovedFor(def, row, b, doom) && forall u, j :: (u, j) in doom ==> u in b && j !in b[u]
    ensures RemovedFor(def, row, b, root)
  {
    var i: nat :| Because(def, row, Cascade, b, doom, i);
    assert Because(def, row, Cascade, b, root, i);
  }

  lemma {:induction false} NulledForRoot(def: TableDef, row: Row, c: nat, b: Data, doom: Doom, root: Doom)
    requires NulledFor(def, row, c, b, doom) && forall u, j :: (u, j) in doom ==> u in b && j !in b[u]
    ensures NulledFor(def, row, c, b, root)
  {
    var i: nat :| Because(def, row, SetNull, b, doom, i) && def.fks[i].col == c;
    assert Because(def, row, SetNull, b, root, i);
  }

  // ----- the result is the only one -----

  /**
    * `b` is `a` after the rows `ks` of the table were deleted: they are gone,
    * nothing else changed without cause, nothing dangles.
    */
  ghost predicate Deleted(s: Schema, a: Data, b: Data, table: Name, ks: set<Key>) {
    && DataOk(s, b) && Integrity(s, b) && Shrinks(a, b)
    && Caused(s, a, b, Doomed(table, ks))
    && table in b && forall k <- ks :: k !in b[table]
  }

  lemma {:induction false} ForeignKeyFacts(s: Schema, rank: map<Name, nat>, t: Name, i: nat)
    requires SchemaOk(s, rank) && t in s && i < |s[t].fks|
    ensures t in rank && s[t].fks[i].parent in s && s[t].fks[i].parent in rank && rank[t] < rank[s[t].fks[i].parent]
    ensures forall j: nat :: j < |s[t].fks| && s[t].fks[j].col == s[t].fks[i].col ==> j == i
  {
    assert TableOk(s[t]);
  }

  /** A surviving row whose parent is gone has had the reference nulled. */
  lemma {:induction false} MustBeNull(s: Schema, a: Data, c: Data, t: Name, k: Key, i: nat)
    requires Integrity(s, c) && Shrinks(a, c) && t in s && t in a && t in c && k in a[t] && k in c[t]
    requires i < |s[t].fks| && s[t].fks[i].col < |a[t][k]|
    requires a[t][k][s[t].fks[i].col].Val? && s[t].fks[i].parent in c
             && a[t][k][s[t].fks[i].col].key !in c[s[t].fks[i].parent]
    ensures s[t].fks[i].col < |c[t][k]| && c[t][k][s[t].fks[i].col] == Null
  {
    assert FkOk(c, c[t], s[t].fks[i]);
    assert RowsShrink(a[t], c[t]);
    assert RowShrinks(a[t][k], c[t][k]);
  }

  ghost predicate SameAbove(s: Schema, rank: map<Name, nat>, b: Data, c: Data, t: Name)
    requires forall u <- s :: u in rank
    requires t in s
  {
    forall u :: u in s && rank[u] > rank[t] && u in b && u in c ==> b[u] == c[u]
  }

  /** The parent that one outcome lost is gone in every outcome with the same parents. */
  lemma {:induction false} GoneInBoth(s: Schema, rank: map<Name, nat>, a: Data, b: Data, c: Data, table: Name,
                                      ks: set<Key>, t: Name, row: Row, action: FKAction, i: nat)
    requires SchemaOk(s, rank) && t in s && RanksOk(s, rank) && SameAbove(s, rank, b, c, t)
    requires Deleted(s, a, b, table, ks) && Deleted(s, a, c, table, ks)
    requires Because(s[t], row, action, b, Doomed(table, ks), i)
    ensures s[t].fks[i].parent in c && row[s[t].fks[i].col].key !in c[s[t].fks[i].parent]
  {
    hide Integrity, Caused, Shrinks;
    ForeignKeyFacts(s, rank, t, i);
    var p, key := s[t].fks[i].parent, row[s[t].fks[i].col].key;
    assert p in b && p in c;
    assert key !in b[p];
  }

  ghost predicate RanksOk(s: Schema, rank: map<Name, nat>) { forall u <- s :: u in rank }

  /** A row that lost a parent of a cascading key in one outcome cannot survive in an outcome with the same parents. */
  lemma {:induction false} CannotSurvive(s: Schema, rank: map<Name, nat>, a: Data, b: Data, c: Data, table: Name,
                                         ks: set<Key>, t: Name, k: Key)
    requires SchemaOk(s, rank) && t in s && RanksOk(s, rank) && SameAbove(s, rank, b, c, t)
    requires Deleted(s, a, b, table, ks) && Deleted(s, a, c, table, ks)
    requires t in a && t in b && t in c && k in a[t] && k !in b[t]
    ensures k !in c[t]
  {
    hide SchemaOk, DataOk, Integrity, Shrinks, SameAbove, Gone;
    var doom, row := Doomed(table, ks), a[t][k];
    assert RowCaused(s, a, b, doom, t, k);
    if k in c[t] && (t, k) !in doom {
      var i: nat :| Because(s[t], row, Cascade, b, doom, i);
      GoneInBoth(s, rank, a, b, c, table, ks, t, row, Cascade, i);
      MustBeNull(s, a, c, t, k, i);
      assert RowCaused(s, a, c, doom, t, k);
      var j: nat :| Because(s[t], row, SetNull, c, doom, j) && s[t].fks[j].col == s[t].fks[i].col;
      ForeignKeyFacts(s, rank, t, i);
    }
  }

  /** The same for a column that was nulled. */
  lemma {:induction false} CannotKeep(s: Schema, rank: map<Name, nat>, a: Data, b: Data, c: Data, table: Name,
                                      ks: set<Key>, t: Name, k: Key, col: nat)
    requires SchemaOk(s, rank) && t in s && RanksOk(s, rank) && SameAbove(s, rank, b, c, t)
    requires Deleted(s, a, b, table, ks) && Deleted(s, a, c, table, ks)
    requires t in a && t in b && t in c && k in a[t] && k in b[t] && k in c[t]
    requires col < |a[t][k]| && col < |b[t][k]| && b[t][k][col] != a[t][k][col]
    ensures col < |c[t][k]| && b[t][k][col] == c[t][k][col] == Null
  {
    hide SchemaOk, DataOk, Integrity, SameAbove, Gone;
    var doom, row := Doomed(table, ks), a[t][k];
    assert RowCaused(s, a, b, doom, t, k);
    var i: nat :| Because(s[t], row, SetNull, b, doom, i) && s[t].fks[i].col == col;
    GoneInBoth(s, rank, a, b, c, table, ks, t, row, SetNull, i);
    MustBeNull(s, a, c, t, k, i);
    assert RowsShrink(a[t], b[t]);
  }

  lemma {:induction false} SameRow(s: Schema, rank: map<Name, nat>, a: Data, b: Data, c: Data, table: Name,
                                   ks: set<Key>, t: Name, k: Key)
    requires SchemaOk(s, rank) && t in s && RanksOk(s, rank) && SameAbove(s, rank, b, c, t)
             && SameAbove(s, rank, c, b, t)
    requires Deleted(s, a, b, table, ks) && Deleted(s, a, c, table, ks)
    requires t in a && t in b && t in c && k in a[t] && k in b[t] && k in c[t]
    ensures b[t][k] == c[t][k]
  {
    hide SchemaOk, Deleted, SameAbove, RanksOk;
    assert |b[t][k]| == |a[t][k]| == |c[t][k]|
           by { SameWidth(s, a, b, table, ks, t, k); SameWidth(s, a, c, table, ks, t, k); }
    forall col: nat | col < |a[t][k]| ensures b[t][k][col] == c[t][k][col] {
      if b[t][k][col] != a[t][k][col] {
        CannotKeep(s, rank, a, b, c, table, ks, t, k, col);
      } else if c[t][k][col] != a[t][k][col] {
        CannotKeep(s, rank, a, c, b, table, ks, t, k, col);
      }
    }
  }

  lemma {:induction false} SameWidth(s: Schema, a: Data, b: Data, table: Name, ks: set<Key>, t: Name, k: Key)
    requires Deleted(s, a, b, table, ks) && t in a && t in b && k in a[t] && k in b[t]
    ensures |b[t][k]| == |a[t][k]|
  {
    assert RowsShrink(a[t], b[t]);
  }

  lemma {:induction false} SameTable(s: Schema, rank: map<Name, nat>, a: Data, b: Data, c: Data, table: Name,
                                     ks: set<Key>, t: Name, top: nat)
    requires SchemaOk(s, rank) && Deleted(s, a, b, table, ks) && Deleted(s, a, c, table, ks)
    requires t in s && t in b && t in c && RanksOk(s, rank) && forall u :: u in s ==> rank[u] <= top
    ensures b[t] == c[t]
    decreases top - rank[t]
  {
    hide SchemaOk, DataOk, Integrity, Caused;
    assert t in a && RowsShrink(a[t], b[t]) && RowsShrink(a[t], c[t]);
    forall u | u in s && rank[u] > rank[t] && u in b && u in c ensures b[u] == c[u] {
      SameTable(s, rank, a, b, c, table, ks, u, top);
    }
    assert SameAbove(s, rank, b, c, t) && SameAbove(s, rank, c, b, t);
    forall k | k in a[t] ensures k in b[t] <==> k in c[t] {
      if k !in b[t] { CannotSurvive(s, rank, a, b, c, table, ks, t, k); }
      if k !in c[t] { CannotSurvive(s, rank, a, c, b, table, ks, t, k); }
    }
    forall k | k in b[t] ensures b[t][k] == c[t][k] {
      SameRow(s, rank, a, b, c, table, ks, t, k);
    }
  }

  lemma {:induction false} TopRank(s: Schema, rank: map<Name, nat>, left: set<Name>) returns (top: nat)
    requires forall t <- left :: t in rank
    ensures forall t <- left :: rank[t] <= top
  {
    top := 0;
    if left != {} {
      var t :| t in left;
      top := TopRank(s, rank, left - {t});
      if rank[t] > top { top := rank[t]; }
    }
  }

  /** Whatever order the cascade visits tables and rows in, a delete that succeeds leaves the same database. */
  lemma {:induction false} DeleteDetermined(s: Schema, rank: map<Name, nat>, a: Data, b: Data, c: Data, table: Name,
                                            ks: set<Key>)
    requires SchemaOk(s, rank) && Deleted(s, a, b, table, ks) && Deleted(s, a, c, table, ks)
    ensures b == c
  {
    hide SchemaOk, Integrity, Caused;
    RanksAll(s, rank);
    var top := TopRank(s, rank, s.Keys);
    forall t | t in s ensures t in b && t in c && b[t] == c[t] {
      SameTable(s, rank, a, b, c, table, ks, t, top);
    }
  }

  lemma {:induction false} RanksAll(s: Schema, rank: map<Name, nat>)
    requires SchemaOk(s, rank)
    ensures RanksOk(s, rank)
  {}
}
