/** What an UPDATE does to its own table and to the tables that refer to it (executor/update.go, executor/fk.go). */
module Updates {
  import opened Relations

  datatype Assignment = Assign(col: nat, value: Value) | BadAssignment

  /** A row with the SET clause applied, from left to right. */
  function SetAll(row: Row, assignments: seq<Assignment>): (r: Row)
    ensures |r| == |row|
  {
    if assignments == [] then row
    else
      var r, a := SetAll(row, assignments[..|assignments| - 1]), assignments[|assignments| - 1];
      if a.Assign? && a.col < |r| then r[a.col := a.value] else r
  }

  /** A column holds what was last assigned to it, or what it held. */
  lemma {:induction false} SetAllLast(row: Row, assignments: seq<Assignment>, c: nat)
    requires c < |row|
    ensures (forall a <- assignments :: a.Assign? ==> a.col != c) ==> SetAll(row, assignments)[c] == row[c]
    ensures forall j :: 0 <= j < |assignments| && assignments[j].Assign? && assignments[j].col == c
                        && (forall k :: j < k < |assignments| && assignments[k].Assign? ==> assignments[k].col != c)
              ==> SetAll(row, assignments)[c] == assignments[j].value
  {
    if assignments != [] {
      var n := |assignments| - 1;
      var less := assignments[..n];
      SetAllLast(row, less, c);
      assert assignments[n] in assignments && forall a <- less :: a in assignments;
      forall j | 0 <= j < |assignments| && assignments[j].Assign? && assignments[j].col == c
                 && (forall k :: j < k < |assignments| && assignments[k].Assign? ==> assignments[k].col != c)
        ensures SetAll(row, assignments)[c] == assignments[j].value
      {
        if j < n { assert less[j] == assignments[j]; }
      }
    }
  }

  /** Each column is assigned the same value in every row, or in none. */
  lemma {:induction false} SetAllAt(a: Row, b: Row, assignments: seq<Assignment>, c: nat)
    requires |a| == |b| && c < |a|
    ensures var x, y := SetAll(a, assignments)[c], SetAll(b, assignments)[c];
            x == y || (x == a[c] && y == b[c])
  {
    if assignments != [] { SetAllAt(a, b, assignments[..|assignments| - 1], c); }
  }

  ghost function KeyAt(row: Row, pk: nat): Key { if pk < |row| && row[pk].Val? then row[pk].key else "" }

  ghost function NewKey(row: Row, pk: nat, assignments: seq<Assignment>): Key { KeyAt(SetAll(row, assignments), pk) }

  // ----- the updated table -----

  /** None of the first `i` collected rows has this key. */
  ghost predicate Untouched(rs: seq<Row>, pk: nat, i: nat, k: Key)
    requires i <= |rs|
  {
    forall j: nat :: j < i ==> KeyAt(rs[j], pk) != k
  }

  ghost predicate Moved(cur: Rows, rs: seq<Row>, pk: nat, j: nat, assignments: seq<Assignment>)
    requires j < |rs|
  {
    var now := NewKey(rs[j], pk, assignments);
    now in cur && cur[now] == SetAll(rs[j], assignments)
  }

  /** The table after the first `i` collected rows have been rewritten. */
  ghost predicate UpdatedUpTo(rows: Rows, cur: Rows, pk: nat, rs: seq<Row>, i: nat, assignments: seq<Assignment>)
    requires i <= |rs|
  {
    && (forall k :: k in rows && Untouched(rs, pk, i, k) ==> k in cur && cur[k] == rows[k])
    && (forall j: nat :: j < i ==> Moved(cur, rs, pk, j, assignments))
    && (forall k :: k in cur ==> (k in rows && Untouched(rs, pk, i, k)) || Arrived(rs, pk, i, assignments, k))
    && (forall j: nat :: j < i ==> !(NewKey(rs[j], pk, assignments) in rows && Untouched(rs, pk, i, NewKey(rs[j], pk, assignments))))
    && (forall j: nat, m: nat :: j < m < i ==> NewKey(rs[j], pk, assignments) != NewKey(rs[m], pk, assignments))
  }

  /** One of the first `i` collected rows now has this key. */
  ghost predicate Arrived(rs: seq<Row>, pk: nat, i: nat, assignments: seq<Assignment>, k: Key)
    requires i <= |rs|
  {
    exists j: nat :: j < i && NewKey(rs[j], pk, assignments) == k
  }

  lemma {:induction false} UpdateStarts(rows: Rows, pk: nat, rs: seq<Row>, assignments: seq<Assignment>)
    ensures UpdatedUpTo(rows, rows, pk, rs, 0, assignments)
  {}

  lemma {:induction false} UntouchedMore(rs: seq<Row>, pk: nat, i: nat, k: Key)
    requires i < |rs|
    ensures Untouched(rs, pk, i + 1, k) <==> Untouched(rs, pk, i, k) && KeyAt(rs[i], pk) != k
  {}

  lemma {:induction false} ArrivedMore(rs: seq<Row>, pk: nat, i: nat, assignments: seq<Assignment>, k: Key)
    requires i < |rs|
    ensures Arrived(rs, pk, i + 1, assignments, k)
            <==> Arrived(rs, pk, i, assignments, k) || NewKey(rs[i], pk, assignments) == k
  {}

  lemma {:induction false} UpdateStep(rows: Rows, cur: Rows, pk: nat, rs: seq<Row>, i: nat,
                                      assignments: seq<Assignment>)
    requires i < |rs| && UpdatedUpTo(rows, cur, pk, rs, i, assignments)
    requires KeyAt(rs[i], pk) in rows && Untouched(rs, pk, i, KeyAt(rs[i], pk))
    requires var was, now := KeyAt(rs[i], pk), NewKey(rs[i], pk, assignments); now == was || now !in cur
    ensures var was, now := KeyAt(rs[i], pk), NewKey(rs[i], pk, assignments);
            UpdatedUpTo(rows, (cur - {was})[now := SetAll(rs[i], assignments)], pk, rs, i + 1, assignments)
  {
    hide KeyAt, NewKey, SetAll, Untouched, Arrived;
    var was, now := KeyAt(rs[i], pk), NewKey(rs[i], pk, assignments);
    var after := (cur - {was})[now := SetAll(rs[i], assignments)];
    forall k
      ensures Untouched(rs, pk, i + 1, k) <==> Untouched(rs, pk, i, k) && was != k
    {
      UntouchedMore(rs, pk, i, k);
    }
    forall k ensures Arrived(rs, pk, i + 1, assignments, k) <==> Arrived(rs, pk, i, assignments, k) || now == k {
      ArrivedMore(rs, pk, i, assignments, k);
    }
    forall j: nat | j < i
      ensures NewKey(rs[j], pk, assignments) != was && NewKey(rs[j], pk, assignments) != now
              && Moved(after, rs, pk, j, assignments)
    {
      assert Moved(cur, rs, pk, j, assignments);
    }
    assert Moved(after, rs, pk, i, assignments);
    forall k | k in rows && Untouched(rs, pk, i + 1, k) ensures k in after && after[k] == rows[k] {}
    forall k | k in after && !Arrived(rs, pk, i + 1, assignments, k) ensures k in rows && Untouched(rs, pk, i + 1, k) {
      ArrivedMore(rs, pk, i, assignments, k);
      assert k in cur && k != was;
    }
    forall j: nat | j < i + 1
      ensures !(NewKey(rs[j], pk, assignments) in rows && Untouched(rs, pk, i + 1, NewKey(rs[j], pk, assignments)))
    {
      if j == i { assert now !in rows || !Untouched(rs, pk, i + 1, now); }
    }
  }

  /**
    * The updated table: unselected rows as they were, selected rows rewritten
    * under their new keys, no two of them merged.
    */
  ghost predicate Updated(rows: Rows, cur: Rows, pk: nat, selected: set<Key>, assignments: seq<Assignment>) {
    && (forall k :: k in rows && k !in selected ==> k in cur && cur[k] == rows[k])
    && (forall k :: k in rows && k in selected ==> RowMoved(rows, cur, pk, k, assignments))
    && (forall k :: k in cur ==> (k in rows && k !in selected) || exists j :: j in rows && j in selected && NewKey(rows[j], pk, assignments) == k)
    && (forall j, k :: j in rows && k in rows && j in selected && k in selected && j != k
          ==> NewKey(rows[j], pk, assignments) != NewKey(rows[k], pk, assignments))
  }

  ghost predicate RowMoved(rows: Rows, cur: Rows, pk: nat, k: Key, assignments: seq<Assignment>)
    requires k in rows
  {
    var now := NewKey(rows[k], pk, assignments);
    now in cur && cur[now] == SetAll(rows[k], assignments)
  }

  /** The collected rows are those of the table, one for each selected key. */
  ghost predicate Lists(rows: Rows, rs: seq<Row>, pk: nat, selected: set<Key>) {
    && (forall j: nat :: j < |rs| ==> KeyAt(rs[j], pk) in selected && KeyAt(rs[j], pk) in rows && rows[KeyAt(rs[j], pk)] == rs[j])
    && (forall k :: k in selected ==> exists j: nat :: j < |rs| && KeyAt(rs[j], pk) == k)
  }

  lemma {:induction false} SelectedIsTouched(rows: Rows, rs: seq<Row>, pk: nat, selected: set<Key>, k: Key)
    requires Lists(rows, rs, pk, selected)
    ensures k in selected <==> !Untouched(rs, pk, |rs|, k)
  {}

  lemma {:induction false} UpdateEnds(rows: Rows, cur: Rows, pk: nat, rs: seq<Row>, selected: set<Key>,
                                      assignments: seq<Assignment>)
    requires UpdatedUpTo(rows, cur, pk, rs, |rs|, assignments) && Lists(rows, rs, pk, selected)
    ensures Updated(rows, cur, pk, selected, assignments)
  {
    hide NewKey, SetAll, KeyAt, Untouched, UpdatedUpTo, Lists, RowMoved;
    forall k | k in rows && k !in selected
      ensures k in cur && cur[k] == rows[k]
    {
      UpdateLeaves(rows, cur, pk, rs, selected, assignments, k);
    }
    forall k | k in rows && k in selected
      ensures RowMoved(rows, cur, pk, k, assignments)
    {
      UpdateMoves(rows, cur, pk, rs, selected, assignments, k);
    }
    forall k | k in cur && !(k in rows && k !in selected)
      ensures exists j :: j in rows && j in selected && NewKey(rows[j], pk, assignments) == k
    {
      UpdateBrings(rows, cur, pk, rs, selected, assignments, k);
    }
    forall a, b | a in rows && b in rows && a in selected && b in selected && a != b
      ensures NewKey(rows[a], pk, assignments) != NewKey(rows[b], pk, assignments)
    {
      UpdateApart(rows, cur, pk, rs, selected, assignments, a, b);
    }
  }

  lemma {:induction false} UpdateLeaves(rows: Rows, cur: Rows, pk: nat, rs: seq<Row>, selected: set<Key>,
                                        assignments: seq<Assignment>, k: Key)
    requires UpdatedUpTo(rows, cur, pk, rs, |rs|, assignments) && Lists(rows, rs, pk, selected) && k in rows
             && k !in selected
    ensures k in cur && cur[k] == rows[k]
  {
    hide NewKey, SetAll, KeyAt, Untouched, Lists;
    SelectedIsTouched(rows, rs, pk, selected, k);
  }

  lemma {:induction false} UpdateMoves(rows: Rows, cur: Rows, pk: nat, rs: seq<Row>, selected: set<Key>,
                                       assignments: seq<Assignment>, k: Key)
    requires UpdatedUpTo(rows, cur, pk, rs, |rs|, assignments) && Lists(rows, rs, pk, selected) && k in rows
             && k in selected
    ensures RowMoved(rows, cur, pk, k, assignments)
  {
    hide NewKey, SetAll, KeyAt, Untouched;
    var j: nat :| j < |rs| && KeyAt(rs[j], pk) == k;
    assert Moved(cur, rs, pk, j, assignments);
  }

  lemma {:induction false} UpdateBrings(rows: Rows, cur: Rows, pk: nat, rs: seq<Row>, selected: set<Key>,
                                        assignments: seq<Assignment>, k: Key)
    requires UpdatedUpTo(rows, cur, pk, rs, |rs|, assignments) && Lists(rows, rs, pk, selected) && k in cur
             && !(k in rows && k !in selected)
    ensures exists j :: j in rows && j in selected && NewKey(rows[j], pk, assignments) == k
  {
    hide NewKey, SetAll, KeyAt, Untouched;
    SelectedIsTouched(rows, rs, pk, selected, k);
    var j: nat :| j < |rs| && NewKey(rs[j], pk, assignments) == k;
    assert rows[KeyAt(rs[j], pk)] == rs[j];
  }

  lemma {:induction false} UpdateApart(rows: Rows, cur: Rows, pk: nat, rs: seq<Row>, selected: set<Key>,
                                       assignments: seq<Assignment>, a: Key, b: Key)
    requires UpdatedUpTo(rows, cur, pk, rs, |rs|, assignments) && Lists(rows, rs, pk, selected)
    requires a in rows && b in rows && a in selected && b in selected && a != b
    ensures NewKey(rows[a], pk, assignments) != NewKey(rows[b], pk, assignments)
  {
    hide NewKey, SetAll, KeyAt, Untouched;
    var j: nat :| j < |rs| && KeyAt(rs[j], pk) == a;
    var m: nat :| m < |rs| && KeyAt(rs[m], pk) == b;
    assert rows[a] == rs[j] && rows[b] == rs[m];
    assert j < m || m < j;
  }

  // ----- the tables that refer to it -----

  /** What becomes of the row's first `n` foreign keys when the parent's key changes. */
  ghost function Repoint(def: TableDef, row: Row, parent: Name, was: Key, now: Key, n: nat): (r: Row)
    requires n <= |def.fks|
    ensures |r| == |row|
  {
    if n == 0 then row
    else RepointOne(def.fks[n - 1], Repoint(def, row, parent, was, now, n - 1), parent, was, now)
  }

  ghost function RepointOne(fk: ForeignKey, row: Row, parent: Name, was: Key, now: Key): (r: Row)
    ensures |r| == |row|
  {
    if fk.parent == parent && fk.col < |row| && row[fk.col] == Val(was)
    then row[fk.col := if fk.onUpdate == Cascade then Val(now) else Null]
    else row
  }

  ghost function RepointAll(def: TableDef, rows: Rows, parent: Name, was: Key, now: Key, n: nat): Rows
    requires n <= |def.fks|
  {
    map k | k in rows :: Repoint(def, rows[k], parent, was, now, n)
  }

  lemma {:induction false} RepointNone(def: TableDef, rows: Rows, parent: Name, was: Key, now: Key)
    ensures RepointAll(def, rows, parent, was, now, 0) == rows
  {}

  /** One more foreign key, carried out on the whole table. */
  lemma {:induction false} RepointMore(def: TableDef, rows: Rows, parent: Name, was: Key, now: Key, n: nat,
                                       ks: set<Key>, w: Value)
    requires n < |def.fks| && def.fks[n].parent == parent
             && w == if def.fks[n].onUpdate == Cascade then Val(now) else Null
    requires var mid := RepointAll(def, rows, parent, was, now, n);
             forall k :: k in mid ==> def.fks[n].col < |mid[k]| && (k in ks <==> mid[k][def.fks[n].col] == Val(was))
    ensures WithColumn(RepointAll(def, rows, parent, was, now, n), ks, def.fks[n].col, w)
            == RepointAll(def, rows, parent, was, now, n + 1)
  {
    var mid := RepointAll(def, rows, parent, was, now, n);
    forall k | k in rows
      ensures WithColumn(mid, ks, def.fks[n].col, w)[k] == Repoint(def, rows[k], parent, was, now, n + 1)
    {
      assert k in mid;
    }
  }

  lemma {:induction false} RepointSkip(def: TableDef, rows: Rows, parent: Name, was: Key, now: Key, n: nat)
    requires n < |def.fks| && def.fks[n].parent != parent
    ensures RepointAll(def, rows, parent, was, now, n + 1) == RepointAll(def, rows, parent, was, now, n)
  {}

  /** Every table but the updated one, after one of its keys changed. */
  ghost predicate Repointed(s: Schema, a: Data, b: Data, parent: Name, was: Key, now: Key) {
    forall u :: u in s && u != parent && u in a && u in b
      ==> b[u] == if was == now then a[u] else RepointAll(s[u], a[u], parent, was, now, |s[u].fks|)
  }

  ghost predicate OthersSame(s: Schema, a: Data, b: Data, table: Name) {
    forall u :: u in s && u != table && u in a && u in b ==> b[u] == a[u]
  }

  /**
    * The other tables after an update: as they were if no selected row changes
    * its key; otherwise one row was selected, and its references followed it.
    */
  ghost predicate OthersUpdated(s: Schema, a: Data, b: Data, table: Name, pk: nat, selected: set<Key>,
                                assignments: seq<Assignment>)
    requires table in a
  {
    && ((forall k :: k in a[table] && k in selected ==> NewKey(a[table][k], pk, assignments) == k)
       ==> OthersSame(s, a, b, table))
    && (forall k :: k in a[table] && k in selected && NewKey(a[table][k], pk, assignments) != k
          ==> selected == {k} && Repointed(s, a, b, table, k, NewKey(a[table][k], pk, assignments)))
  }

  ghost predicate OthersUpTo(s: Schema, a: Data, b: Data, table: Name, pk: nat, rs: seq<Row>, i: nat,
                             assignments: seq<Assignment>)
    requires i <= |rs|
  {
    && ((forall j: nat :: j < i ==> NewKey(rs[j], pk, assignments) == KeyAt(rs[j], pk)) ==> OthersSame(s, a, b, table))
    && (forall j: nat :: j < i && NewKey(rs[j], pk, assignments) != KeyAt(rs[j], pk)
          ==> i == 1 && Repointed(s, a, b, table, KeyAt(rs[j], pk), NewKey(rs[j], pk, assignments)))
  }

  /** If any row changes its key, every row gets that key: so a second one collides. */
  lemma {:induction false} SecondCollides(a: Row, b: Row, pk: nat, assignments: seq<Assignment>)
    requires |a| == |b| && pk < |a| && a[pk].Val? && b[pk].Val? && SetAll(a, assignments)[pk].Val?
             && SetAll(b, assignments)[pk].Val?
    requires NewKey(a, pk, assignments) != KeyAt(a, pk) || NewKey(b, pk, assignments) != KeyAt(b, pk)
    ensures NewKey(a, pk, assignments) == NewKey(b, pk, assignments)
  {
    SetAllAt(a, b, assignments, pk);
  }

  /** A step after the first changes no key, if it succeeds. */
  lemma {:induction false} OnlyFirstMoves(rows: Rows, cur: Rows, pk: nat, rs: seq<Row>, i: nat,
                                          assignments: seq<Assignment>)
    requires 0 < i < |rs| && UpdatedUpTo(rows, cur, pk, rs, i, assignments)
    requires KeyAt(rs[i], pk) in rows && Untouched(rs, pk, i, KeyAt(rs[i], pk))
    requires |rs[0]| == |rs[i]| && pk < |rs[0]| && rs[0][pk].Val? && rs[i][pk].Val?
    requires SetAll(rs[0], assignments)[pk].Val? && SetAll(rs[i], assignments)[pk].Val?
    requires var was, now := KeyAt(rs[i], pk), NewKey(rs[i], pk, assignments); now == was || now !in cur
    ensures NewKey(rs[i], pk, assignments) == KeyAt(rs[i], pk) && NewKey(rs[0], pk, assignments) == KeyAt(rs[0], pk)
  {
    hide SetAll, KeyAt;
    assert Moved(cur, rs, pk, 0, assignments);
    if NewKey(rs[i], pk, assignments) != KeyAt(rs[i], pk) || NewKey(rs[0], pk, assignments) != KeyAt(rs[0], pk) {
      SecondCollides(rs[0], rs[i], pk, assignments);
    }
  }

  lemma {:induction false} OthersStart(s: Schema, a: Data, table: Name, pk: nat, rs: seq<Row>,
                                       assignments: seq<Assignment>)
    ensures OthersUpTo(s, a, a, table, pk, rs, 0, assignments)
  {}

  lemma {:induction false} OthersStep(s: Schema, a: Data, b: Data, c: Data, table: Name, pk: nat, rs: seq<Row>, i: nat,
                                      assignments: seq<Assignment>)
    requires i < |rs| && OthersUpTo(s, a, b, table, pk, rs, i, assignments) && a.Keys == b.Keys == c.Keys
    requires Repointed(s, b, c, table, KeyAt(rs[i], pk), NewKey(rs[i], pk, assignments))
    requires i > 0
             ==> NewKey(rs[i], pk, assignments) == KeyAt(rs[i], pk)
                 && NewKey(rs[0], pk, assignments) == KeyAt(rs[0], pk)
    ensures OthersUpTo(s, a, c, table, pk, rs, i + 1, assignments)
  {
    hide KeyAt, NewKey;
    if i == 0 {
      assert OthersSame(s, a, b, table);
    }
  }

  lemma {:induction false} OthersEnd(s: Schema, a: Data, b: Data, table: Name, pk: nat, rs: seq<Row>,
                                     selected: set<Key>, assignments: seq<Assignment>)
    requires table in a && OthersUpTo(s, a, b, table, pk, rs, |rs|, assignments) && Lists(a[table], rs, pk, selected)
    ensures OthersUpdated(s, a, b, table, pk, selected, assignments)
  {
    hide KeyAt, NewKey, Repointed, OthersSame;
    var rows := a[table];
    if forall k :: k in rows && k in selected ==> NewKey(rows[k], pk, assignments) == k {
      forall j: nat | j < |rs| ensures NewKey(rs[j], pk, assignments) == KeyAt(rs[j], pk) {
        assert rows[KeyAt(rs[j], pk)] == rs[j];
      }
    }
    forall k | k in rows && k in selected && NewKey(rows[k], pk, assignments) != k
      ensures selected == {k} && Repointed(s, a, b, table, k, NewKey(rows[k], pk, assignments))
    {
      var j: nat :| j < |rs| && KeyAt(rs[j], pk) == k;
      assert rows[k] == rs[j];
      forall x | x in selected ensures x == k {
        var m: nat :| m < |rs| && KeyAt(rs[m], pk) == x;
      }
    }
  }
}
