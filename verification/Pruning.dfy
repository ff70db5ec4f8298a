/** Column pruning (planner/optimizer.go). */
module Pruning {
  import opened Planner

  /** Names any operator of the plan looks up. */
  function Referenced(p: Plan): set<Name> {
    match p
    case Scan(_, _) => {}
    case Filter(child, pred) => ExprNames(pred) + Referenced(child)
    case Project(child, exprs) => ArgNames(exprs) + Referenced(child)
    case Join(l, r, c) => (if c.On? then ExprNames(c.expr) else {}) + Referenced(l) + Referenced(r)
  }

  function Kept(columns: seq<Column>, names: set<Name>): seq<Column> {
    if columns == [] then []
    else (if columns[0].primaryKey || columns[0].name in names then [columns[0]] else []) + Kept(columns[1..], names)
  }

  function PruneScans(p: Plan, names: set<Name>): Plan {
    match p
    case Scan(t, columns) =>
      var kept := Kept(columns, names);
      Scan(t, if kept == [] && columns != [] then [columns[0]] else kept)
    case Filter(child, pred) => Filter(PruneScans(child, names), pred)
    case Project(child, exprs) => Project(PruneScans(child, names), exprs)
    case Join(l, r, c) => Join(PruneScans(l, names), PruneScans(r, names), c)
  }

  /** Columns nobody looks up are dropped from the scans, unless a star wants them all. */
  function ColumnPruning(p: Plan): Plan {
    if "*" in Referenced(p) then p else PruneScans(p, Referenced(p))
  }

  /** A plan cut down: the same operators, and scans that keep only what is wanted. */
  ghost predicate CutDown(p: Plan, q: Plan, names: set<Name>) {
    match p
    case Scan(t, columns) => q.Scan? && q.table == t && Wanted(columns, q.columns, names)
    case Filter(child, pred) => q.Filter? && q.pred == pred && CutDown(child, q.child, names)
    case Project(child, exprs) => q.Project? && q.exprs == exprs && CutDown(child, q.child, names)
    case Join(l, r, c) => q.Join? && q.condition == c && CutDown(l, q.left, names) && CutDown(r, q.right, names)
  }

  /** The primary key and the columns of these names, in their order; the first column if there are none. */
  ghost predicate Wanted(columns: seq<Column>, kept: seq<Column>, names: set<Name>) {
    if (forall c <- columns :: !c.primaryKey && c.name !in names) && columns != [] then kept == [columns[0]]
    else exists at: seq<nat> :: Picks(columns, kept, names, at)
  }

  ghost predicate Picks(columns: seq<Column>, kept: seq<Column>, names: set<Name>, at: seq<nat>) {
    && |at| == |kept| && (forall k :: 0 <= k < |at| ==> at[k] < |columns| && kept[k] == columns[at[k]])
    && (forall j, k :: 0 <= j < k < |at| ==> at[j] < at[k])
    && (forall i: nat :: i < |columns| ==> (columns[i].primaryKey || columns[i].name in names <==> i in at))
  }

  lemma {:induction false} KeptPicks(columns: seq<Column>, names: set<Name>) returns (at: seq<nat>)
    ensures Picks(columns, Kept(columns, names), names, at)
  {
    if columns == [] {
      at := [];
    } else {
      var rest := KeptPicks(columns[1..], names);
      var wanted := columns[0].primaryKey || columns[0].name in names;
      var head: seq<nat> := if wanted then [0] else [];
      var moved := seq(|rest|, k requires 0 <= k < |rest| => rest[k] + 1);
      at := head + moved;
      PicksMore(columns, names, rest, head, moved);
    }
  }

  lemma {:induction false} PicksMore(columns: seq<Column>, names: set<Name>, rest: seq<nat>, head: seq<nat>,
                                     moved: seq<nat>)
    requires Shifted(columns, names, rest, head, moved)
    ensures Picks(columns, Kept(columns, names), names, head + moved)
  {
    hide Picks, Shifted;
    var at, kept := head + moved, Kept(columns, names);
    assert |at| == |kept| && (forall k :: 0 <= k < |at| ==> at[k] < |columns| && kept[k] == columns[at[k]]) by {
      PicksColumns(columns, names, rest, head, moved);
    }
    assert forall j, k :: 0 <= j < k < |at| ==> at[j] < at[k] by { PicksInOrder(columns, names, rest, head, moved); }
    forall i: nat | i < |columns| ensures columns[i].primaryKey || columns[i].name in names <==> i in at {
      PicksWhich(columns, names, rest, head, moved, i);
    }
    PicksAll(columns, kept, names, at);
  }

  lemma {:induction false} PicksAll(columns: seq<Column>, kept: seq<Column>, names: set<Name>, at: seq<nat>)
    requires |at| == |kept| && (forall k :: 0 <= k < |at| ==> at[k] < |columns| && kept[k] == columns[at[k]])
    requires forall j, k :: 0 <= j < k < |at| ==> at[j] < at[k]
    requires forall i: nat :: i < |columns| ==> (columns[i].primaryKey || columns[i].name in names <==> i in at)
    ensures Picks(columns, kept, names, at)
  {}

  ghost predicate Shifted(columns: seq<Column>, names: set<Name>, rest: seq<nat>, head: seq<nat>, moved: seq<nat>) {
    && columns != [] && Picks(columns[1..], Kept(columns[1..], names), names, rest) && |moved| == |rest|
    && head == (if columns[0].primaryKey || columns[0].name in names then [0] else [])
    && forall k :: 0 <= k < |rest| ==> moved[k] == rest[k] + 1
  }

  lemma {:induction false} PicksColumns(columns: seq<Column>, names: set<Name>, rest: seq<nat>, head: seq<nat>,
                                        moved: seq<nat>)
    requires Shifted(columns, names, rest, head, moved)
    ensures var at, kept := head + moved, Kept(columns, names);
            |at| == |kept| && forall k :: 0 <= k < |at| ==> at[k] < |columns| && kept[k] == columns[at[k]]
  {
    var at, kept, less := head + moved, Kept(columns, names), Kept(columns[1..], names);
    forall k | 0 <= k < |at| ensures at[k] < |columns| && kept[k] == columns[at[k]] {
      if k >= |head| {
        var j := k - |head|;
        assert at[k] == rest[j] + 1 && kept[k] == less[j] && less[j] == columns[1..][rest[j]];
      }
    }
  }

  lemma {:induction false} PicksInOrder(columns: seq<Column>, names: set<Name>, rest: seq<nat>, head: seq<nat>,
                                        moved: seq<nat>)
    requires Shifted(columns, names, rest, head, moved)
    ensures var at := head + moved; forall j, k :: 0 <= j < k < |at| ==> at[j] < at[k]
  {
    hide Kept;
    var at := head + moved;
    forall j, k | 0 <= j < k < |at| ensures at[j] < at[k] {
      assert at[k] == rest[k - |head|] + 1;
      if j >= |head| { assert at[j] == rest[j - |head|] + 1; }
    }
  }

  lemma {:induction false} PicksWhich(columns: seq<Column>, names: set<Name>, rest: seq<nat>, head: seq<nat>,
                                      moved: seq<nat>, i: nat)
    requires Shifted(columns, names, rest, head, moved) && i < |columns|
    ensures columns[i].primaryKey || columns[i].name in names <==> i in head + moved
  {
    hide Kept;
    var at := head + moved;
    if i == 0 {
      assert head == [0] ==> at[0] == 0;
    } else {
      assert columns[1..][i - 1] == columns[i];
      if i - 1 in rest {
        var k :| 0 <= k < |rest| && rest[k] == i - 1;
        assert at[|head| + k] == i;
      }
      if i in at {
        var k :| 0 <= k < |at| && at[k] == i;
        assert rest[k - |head|] == i - 1;
      }
    }
  }

  lemma {:induction false} KeptNone(columns: seq<Column>, names: set<Name>)
    ensures Kept(columns, names) == [] <==> forall c <- columns :: !c.primaryKey && c.name !in names
  {
    if columns != [] {
      KeptNone(columns[1..], names);
      assert columns[0] in columns && forall c <- columns[1..] :: c in columns;
      assert columns == [columns[0]] + columns[1..];
    }
  }

  /** What pruning makes of a plan, for any set of names. */
  lemma {:induction false} PruneCuts(p: Plan, names: set<Name>)
    ensures CutDown(p, PruneScans(p, names), names)
  {
    match p
    case Scan(t, columns) =>
      KeptNone(columns, names);
      var at := KeptPicks(columns, names);
    case Filter(child, _) => PruneCuts(child, names);
    case Project(child, _) => PruneCuts(child, names);
    case Join(l, r, _) => PruneCuts(l, names); PruneCuts(r, names);
  }

  /** Column pruning keeps exactly the primary keys and the columns somebody looks up, unless a star wants them all. */
  lemma {:induction false} PruningCuts(p: Plan)
    ensures if "*" in Referenced(p) then ColumnPruning(p) == p else CutDown(p, ColumnPruning(p), Referenced(p))
  {
    PruneCuts(p, Referenced(p));
  }

  // ----- rows that agree on the names looked up -----

  ghost predicate SameNames(names: set<Name>, c: seq<Column>, c': seq<Column>) {
    forall n <- names :: HasName(c, n) <==> HasName(c', n)
  }

  ghost predicate Agree(names: set<Name>, c: seq<Column>, row: Row, c': seq<Column>, row': Row) {
    |row| == |c| && |row'| == |c'|
    && forall n <- names :: HasName(c, n) && HasName(c', n) ==> At(c, row, n) == At(c', row', n)
  }

  ghost function At(c: seq<Column>, row: Row, n: Name): Datum {
    var i := FindColumn(c, n);
    if i < |row| then row[i] else NullD
  }

  ghost predicate AllAgree(names: set<Name>, c: seq<Column>, rows: seq<Row>, c': seq<Column>, rows': seq<Row>) {
    |rows| == |rows'| && forall i :: 0 <= i < |rows| ==> Agree(names, c, rows[i], c', rows'[i])
  }

  ghost predicate Related(names: set<Name>, c: seq<Column>, r: Result, c': seq<Column>, r': Result) {
    SameNames(names, c, c') && (r.Failure? <==> r'.Failure?) && (r.Rows? ==> AllAgree(names, c, r.rows, c', r'.rows))
  }

  lemma {:induction false} Found(c: seq<Column>, n: Name)
    ensures HasName(c, n) <==> FindColumn(c, n) < |c|
  {
    FindInLeft(c, [], n);
  }

  lemma {:induction false} EvalAgrees(m: Meaning, e: Expr, names: set<Name>, c: seq<Column>, row: Row, c': seq<Column>,
                                      row': Row)
    requires ExprNames(e) <= names && SameNames(names, c, c') && Agree(names, c, row, c', row')
    ensures Eval(m, e, row, c) == Eval(m, e, row', c')
  {
    match e
    case ColumnRef(_, n) =>
      assert n in names;
      Found(c, n);
      Found(c', n);
    case Binary(_, a, b) => EvalAgrees(m, a, names, c, row, c', row'); EvalAgrees(m, b, names, c, row, c', row');
    case Unary(_, x) => EvalAgrees(m, x, names, c, row, c', row');
    case Literal(_, _) =>
    case FuncCall(_, _) =>
    case Star =>
  }

  lemma {:induction false} KeepRelated(m: Meaning, e: Expr, names: set<Name>, c: seq<Column>, rows: seq<Row>,
                                       c': seq<Column>, rows': seq<Row>)
    requires ExprNames(e) <= names && SameNames(names, c, c') && AllAgree(names, c, rows, c', rows')
    ensures Related(names, c, Keep(m, e, rows, c), c', Keep(m, e, rows', c'))
  {
    if rows != [] {
      assert Agree(names, c, rows[0], c', rows'[0]);
      EvalAgrees(m, e, names, c, rows[0], c', rows'[0]);
      forall i | 0 <= i < |rows[1..]| ensures Agree(names, c, rows[1..][i], c', rows'[1..][i]) {
        assert Agree(names, c, rows[i + 1], c', rows'[i + 1]);
      }
      KeepRelated(m, e, names, c, rows[1..], c', rows'[1..]);
    }
  }

  lemma {:induction false} JoinedAgree(names: set<Name>, lc: seq<Column>, l: Row, lc': seq<Column>, l': Row,
                                       rc: seq<Column>, r: Row, rc': seq<Column>, r': Row)
    requires SameNames(names, lc, lc') && SameNames(names, rc, rc') && Agree(names, lc, l, lc', l')
             && Agree(names, rc, r, rc', r')
    ensures Agree(names, lc + rc, l + r, lc' + rc', l' + r')
  {
    forall n | n in names && HasName(lc + rc, n) && HasName(lc' + rc', n)
      ensures At(lc + rc, l + r, n) == At(lc' + rc', l' + r', n)
    {
      FindInLeft(lc, rc, n);
      FindInLeft(lc', rc', n);
      Found(rc, n);
      Found(rc', n);
      Found(lc + rc, n);
      Found(lc' + rc', n);
    }
  }

  lemma {:induction false} JoinedNames(names: set<Name>, lc: seq<Column>, lc': seq<Column>, rc: seq<Column>,
                                       rc': seq<Column>)
    requires SameNames(names, lc, lc') && SameNames(names, rc, rc')
    ensures SameNames(names, lc + rc, lc' + rc')
  {
    forall n | n in names ensures HasName(lc + rc, n) <==> HasName(lc' + rc', n) {
      FindInLeft(lc, rc, n);
      FindInLeft(lc', rc', n);
      Found(rc, n);
      Found(rc', n);
      Found(lc + rc, n);
      Found(lc' + rc', n);
    }
  }

  lemma {:induction false} AgreeConcat(names: set<Name>, c: seq<Column>, a: seq<Row>, b: seq<Row>, c': seq<Column>,
                                       a': seq<Row>, b': seq<Row>)
    requires AllAgree(names, c, a, c', a') && AllAgree(names, c, b, c', b')
    ensures AllAgree(names, c, a + b, c', a' + b')
  {
    forall i | 0 <= i < |a + b| ensures Agree(names, c, (a + b)[i], c', (a' + b')[i]) {
      if i < |a| { assert Agree(names, c, a[i], c', a'[i]); }
          else { assert Agree(names, c, b[i - |a|], c', b'[i - |a|]); }
    }
  }

  lemma {:induction false} PairAgree(names: set<Name>, lc: seq<Column>, l: Row, lc': seq<Column>, l': Row,
                                     rc: seq<Column>, rs: seq<Row>, rc': seq<Column>, rs': seq<Row>)
    requires SameNames(names, lc, lc') && SameNames(names, rc, rc') && Agree(names, lc, l, lc', l')
             && AllAgree(names, rc, rs, rc', rs')
    ensures AllAgree(names, lc + rc, Pair(l, rs), lc' + rc', Pair(l', rs'))
  {
    if rs != [] {
      assert Agree(names, rc, rs[0], rc', rs'[0]);
      JoinedAgree(names, lc, l, lc', l', rc, rs[0], rc', rs'[0]);
      forall i | 0 <= i < |rs[1..]| ensures Agree(names, rc, rs[1..][i], rc', rs'[1..][i]) {
        assert Agree(names, rc, rs[i + 1], rc', rs'[i + 1]);
      }
      PairAgree(names, lc, l, lc', l', rc, rs[1..], rc', rs'[1..]);
      AgreeConcat(names, lc + rc, [l + rs[0]], Pair(l, rs[1..]), lc' + rc', [l' + rs'[0]], Pair(l', rs'[1..]));
    }
  }

  lemma {:induction false} ProductAgree(names: set<Name>, lc: seq<Column>, ls: seq<Row>, lc': seq<Column>,
                                        ls': seq<Row>, 
                                        rc: seq<Column>, rs: seq<Row>, rc': seq<Column>, rs': seq<Row>)
    requires SameNames(names, lc, lc') && SameNames(names, rc, rc') && AllAgree(names, lc, ls, lc', ls')
             && AllAgree(names, rc, rs, rc', rs')
    ensures AllAgree(names, lc + rc, Product(ls, rs), lc' + rc', Product(ls', rs'))
  {
    if ls != [] {
      assert Agree(names, lc, ls[0], lc', ls'[0]);
      PairAgree(names, lc, ls[0], lc', ls'[0], rc, rs, rc', rs');
      forall i | 0 <= i < |ls[1..]| ensures Agree(names, lc, ls[1..][i], lc', ls'[1..][i]) {
        assert Agree(names, lc, ls[i + 1], lc', ls'[i + 1]);
      }
      ProductAgree(names, lc, ls[1..], lc', ls'[1..], rc, rs, rc', rs');
      AgreeConcat(names, lc + rc, Pair(ls[0], rs), Product(ls[1..], rs), lc' + rc', Pair(ls'[0], rs'),
          Product(ls'[1..], rs'));
    }
  }

  // ----- scans -----

  lemma {:induction false} KeptNames(columns: seq<Column>, names: set<Name>, n: Name)
    ensures n in names ==> (HasName(columns, n) <==> HasName(Kept(columns, names), n))
    ensures Kept(columns, names) == [] && n in names ==> !HasName(columns, n)
  {
    if columns != [] {
      var kept, rest := Kept(columns, names), Kept(columns[1..], names);
      KeptNames(columns[1..], names, n);
      HeadName(columns, n);
      if kept != rest {
        assert kept == [columns[0]] + rest;
        HeadName(kept, n);
        assert kept[1..] == rest;
      }
    }
  }

  lemma {:induction false} HeadName(columns: seq<Column>, n: Name)
    requires columns != []
    ensures HasName(columns, n) <==> columns[0].name == n || HasName(columns[1..], n)
  {
    if HasName(columns[1..], n) {
      var i :| 0 <= i < |columns[1..]| && columns[1..][i].name == n;
      assert columns[i + 1].name == n;
    }
    if HasName(columns, n) && columns[0].name != n {
      var i :| 0 <= i < |columns| && columns[i].name == n;
      assert columns[1..][i - 1].name == n;
    }
  }

  /** The value found under a name in a scanned row is the stored one, whatever else is scanned. */
  lemma {:induction false} PickAt(stored: seq<Column>, row: Row, columns: seq<Column>, n: Name)
    requires HasName(columns, n)
    ensures At(columns, Pick(stored, row, columns), n) == At(stored, row, n)
  {
    HeadName(columns, n);
    if columns[0].name != n {
      PickAt(stored, row, columns[1..], n);
      PickWide(stored, row, columns[1..]);
      Found(columns[1..], n);
    }
  }

  lemma {:induction false} PickAllAgree(names: set<Name>, stored: seq<Column>, rows: seq<Row>, c: seq<Column>,
                                        c': seq<Column>)
    ensures AllAgree(names, c, PickAll(stored, rows, c), c', PickAll(stored, rows, c'))
  {
    if rows != [] {
      PickWide(stored, rows[0], c);
      PickWide(stored, rows[0], c');
      forall n | n in names && HasName(c, n) && HasName(c', n)
        ensures At(c, Pick(stored, rows[0], c), n) == At(c', Pick(stored, rows[0], c'), n)
      {
        PickAt(stored, rows[0], c, n);
        PickAt(stored, rows[0], c', n);
      }
      PickAllAgree(names, stored, rows[1..], c, c');
      AgreeConcat(names, c, [Pick(stored, rows[0], c)], PickAll(stored, rows[1..], c),
                  c', [Pick(stored, rows[0], c')], PickAll(stored, rows[1..], c'));
    }
  }

  // ----- projections -----

  lemma {:induction false} ProjectRowSame(m: Meaning, exprs: seq<Expr>, names: set<Name>, c: seq<Column>, row: Row,
                                          c': seq<Column>, row': Row)
    requires ArgNames(exprs) <= names && SameNames(names, c, c') && Agree(names, c, row, c', row')
    ensures ProjectRow(m, exprs, row, c) == ProjectRow(m, exprs, row', c')
  {
    if exprs != [] {
      EvalAgrees(m, exprs[0], names, c, row, c', row');
      ProjectRowSame(m, exprs[1..], names, c, row, c', row');
    }
  }

  lemma {:induction false} ProjectAllSame(m: Meaning, exprs: seq<Expr>, names: set<Name>, c: seq<Column>,
                                          rows: seq<Row>, c': seq<Column>, rows': seq<Row>)
    requires ArgNames(exprs) <= names && SameNames(names, c, c') && AllAgree(names, c, rows, c', rows')
    ensures ProjectAll(m, exprs, rows, c) == ProjectAll(m, exprs, rows', c')
  {
    if rows != [] {
      assert Agree(names, c, rows[0], c', rows'[0]);
      ProjectRowSame(m, exprs, names, c, rows[0], c', rows'[0]);
      forall i | 0 <= i < |rows[1..]| ensures Agree(names, c, rows[1..][i], c', rows'[1..][i]) {
        assert Agree(names, c, rows[i + 1], c', rows'[i + 1]);
      }
      ProjectAllSame(m, exprs, names, c, rows[1..], c', rows'[1..]);
    }
  }

  lemma {:induction false} ProjectAllWide(m: Meaning, exprs: seq<Expr>, rows: seq<Row>, columns: seq<Column>)
    ensures var r := ProjectAll(m, exprs, rows, columns); r.Rows? ==> Wide(r.rows, |exprs|)
  {
    if rows != [] {
      ProjectRowWide(m, exprs, rows[0], columns);
      ProjectAllWide(m, exprs, rows[1..], columns);
    }
  }

  // ----- the pass -----

  lemma {:induction false} PruneRelated(m: Meaning, db: Database, p: Plan, names: set<Name>)
    requires Referenced(p) <= names
    ensures Related(names, OutputColumns(p), Run(m, db, p), OutputColumns(PruneScans(p, names)),
            Run(m, db, PruneScans(p, names)))
  {
    match p
    case Scan(t, columns) =>
      var c' := PruneScans(p, names).columns;
      forall n | n in names ensures HasName(columns, n) <==> HasName(c', n) {
        KeptNames(columns, names, n);
        if Kept(columns, names) == [] && columns != [] { HeadName(columns, n); HeadName(c', n); }
      }
      if t in db { PickAllAgree(names, db[t].columns, db[t].rows, columns, c'); }
    case Filter(child, pred) =>
      PruneRelated(m, db, child, names);
      var a, b := Run(m, db, child), Run(m, db, PruneScans(child, names));
      if a.Rows? { KeepRelated(m, pred, names, OutputColumns(child), a.rows, OutputColumns(PruneScans(child, names)),
          b.rows); }
    case Join(l, r, c) =>
      PruneRelated(m, db, l, names);
      PruneRelated(m, db, r, names);
      PruneJoin(m, db, l, r, c, names);
    case Project(child, exprs) =>
      PruneRelated(m, db, child, names);
      var a, b := Run(m, db, child), Run(m, db, PruneScans(child, names));
      if a.Rows? {
        ProjectAllSame(m, exprs, names, OutputColumns(child), a.rows, OutputColumns(PruneScans(child, names)), b.rows);
        ProjectAllWide(m, exprs, a.rows, OutputColumns(child));
      }
  }

  lemma {:induction false} PruneJoin(m: Meaning, db: Database, l: Plan, r: Plan, c: Condition, names: set<Name>)
    requires c.On? ==> ExprNames(c.expr) <= names
    requires Related(names, OutputColumns(l), Run(m, db, l), OutputColumns(PruneScans(l, names)),
             Run(m, db, PruneScans(l, names)))
    requires Related(names, OutputColumns(r), Run(m, db, r), OutputColumns(PruneScans(r, names)),
             Run(m, db, PruneScans(r, names)))
    ensures var p := Join(l, r, c);
            Related(names, OutputColumns(p), Run(m, db, p), OutputColumns(PruneScans(p, names)),
                Run(m, db, PruneScans(p, names)))
  {
    var l', r' := PruneScans(l, names), PruneScans(r, names);
    var a, b, a', b' := Run(m, db, l), Run(m, db, r), Run(m, db, l'), Run(m, db, r');
    var lc, rc, lc', rc' := OutputColumns(l), OutputColumns(r), OutputColumns(l'), OutputColumns(r');
    JoinedNames(names, lc, lc', rc, rc');
    if a.Rows? && b.Rows? {
      ProductAgree(names, lc, a.rows, lc', a'.rows, rc, b.rows, rc', b'.rows);
      if c.On? { KeepRelated(m, c.expr, names, lc + rc, Product(a.rows, b.rows), lc' + rc',
          Product(a'.rows, b'.rows)); }
    }
  }

  /** Under a projection, column pruning changes nothing: not the rows, not their order, not whether the plan fails. */
  lemma {:induction false} PruningPreserves(m: Meaning, db: Database, p: Plan)
    requires p.Project?
    ensures Run(m, db, ColumnPruning(p)) == Run(m, db, p)
  {
    var names := Referenced(p);
    if "*" !in names {
      PruneRelated(m, db, p.child, names);
      var a, b := Run(m, db, p.child), Run(m, db, PruneScans(p.child, names));
      if a.Rows? {
        ProjectAllSame(m, p.exprs, names, OutputColumns(p.child), a.rows, OutputColumns(PruneScans(p.child, names)),
            b.rows);
      }
    }
  }
}
