/** Predicate pushdown and column names that both sides of a join have (planner/optimizer.go). */
module Ambiguity {
  import opened Planner
  import Operators
  import Pruning

  // ----- one example -----

  const ID := Column("id", true)
  const TWO_TABLES: Database := map["a" := Stored([ID], [[Scalar(1)]]), "b" := Stored([ID], [[Scalar(2)]])]
  const EQUAL_TO_TWO := Binary("=", ColumnRef("b", "id"), Literal("integer", "2"))

  function Equality(): Meaning {
    Meaning((k, t) => Ok(Scalar(2)), (op, x, y) => Ok(BoolD(x == y)), (op, x) => Err)
  }

  lemma {:induction false} ScanOne(m: Meaning, t: Name, n: int)
    requires t in TWO_TABLES && TWO_TABLES[t] == Stored([ID], [[Scalar(n)]])
    ensures Run(m, TWO_TABLES, Scan(t, [ID])) == Rows([[Scalar(n)]])
  {
    assert [ID][1..] == [] && [[Scalar(n)]][1..] == [];
    assert FindColumn([ID], "id") == 0;
    assert Pick([ID], [Scalar(n)], [ID]) == [Scalar(n)];
    assert PickAll([ID], [[Scalar(n)]], [ID]) == [[Scalar(n)]];
  }

  lemma {:induction false} KeepOne(m: Meaning, e: Expr, row: Row, columns: seq<Column>, keep: bool)
    requires Eval(m, e, row, columns) == Ok(BoolD(keep))
    ensures Keep(m, e, [row], columns) == Rows(if keep then [row] else [])
  {
    assert [row][1..] == [];
  }

  /**
    * Two tables with a column of the same name: above the join the name means
    * the left column, below it the right one, and the pushed filter keeps a row
    * that the filter dropped.
    */
  lemma {:induction false} AmbiguousNameBreaksPushdown()
    ensures var p := Filter(Join(Scan("a", [ID]), Scan("b", [ID]), Always), EQUAL_TO_TWO);
            && Run(Equality(), TWO_TABLES, p) == Rows([])
            && Run(Equality(), TWO_TABLES, PredicatePushdown(p)) == Rows([[Scalar(1), Scalar(2)]])
  {
    var m, a, b := Equality(), Scan("a", [ID]), Scan("b", [ID]);
    var l: Row, r: Row := [Scalar(1)], [Scalar(2)];
    ScanOne(m, "a", 1);
    ScanOne(m, "b", 2);
    assert l + r == [Scalar(1), Scalar(2)] && [l][1..] == [] && [r][1..] == [];
    assert Pair(l, [r]) == [l + r];
    assert Product([l], [r]) == [l + r];
    var j := Join(a, b, Always);
    assert Run(m, TWO_TABLES, j) == Rows([l + r]) && OutputColumns(j) == [ID] + [ID];
    assert FindColumn([ID] + [ID], "id") == 0 && FindColumn([ID], "id") == 0;
    KeepOne(m, EQUAL_TO_TWO, l + r, [ID] + [ID], false);
    KeepOne(m, EQUAL_TO_TWO, r, [ID], true);
    assert ExprTables(EQUAL_TO_TWO) == {"b"};
    assert "b" !in PlanTables(a) && PlanTables(b) == {"b"};
    assert PushFilter(Join(a, b, Always), EQUAL_TO_TWO) == Join(a, Filter(b, EQUAL_TO_TWO), Always);
    assert PredicatePushdown(a) == a && PredicatePushdown(b) == b;
    assert PredicatePushdown(Join(a, b, Always)) == Join(a, b, Always);
  }

  // ----- in general -----

  /** Every operator asks whether its operands are true or one. */
  function Truthy(d: Datum): bool { d == Scalar(1) || d == BoolD(true) }

  function AllTrue(): Meaning {
    Meaning((k, t) => Ok(Scalar(1)), (op, x, y) => Ok(BoolD(Truthy(x) && Truthy(y))), (op, x) => Ok(BoolD(Truthy(x))))
  }

  /** Only literals, columns and operators. */
  predicate Plain(e: Expr) {
    match e
    case Binary(_, l, r) => Plain(l) && Plain(r)
    case Unary(_, x) => Plain(x)
    case Literal(_, _) => true
    case ColumnRef(_, _) => true
    case FuncCall(_, _) => false
    case Star => false
  }

  ghost predicate NotNull(row: Row) { forall d <- row :: !d.NullD? }

  ghost predicate Finds(columns: seq<Column>, row: Row, names: set<Name>) {
    |row| == |columns| && NotNull(row) && forall n <- names :: FindColumn(columns, n) < |columns|
  }

  /** Under that meaning a predicate holds exactly when every column it looks up is true. */
  lemma {:induction false} EvalAllTrue(e: Expr, row: Row, columns: seq<Column>)
    requires Plain(e) && Finds(columns, row, ExprNames(e))
    ensures var o := Eval(AllTrue(), e, row, columns);
            o.Ok? && !o.d.NullD? && (Truthy(o.d) <==> forall n <- ExprNames(e) :: Truthy(row[FindColumn(columns, n)]))
  {
    match e
    case ColumnRef(_, c) => assert FindColumn(columns, c) < |columns|;
    case Binary(_, a, b) => EvalAllTrue(a, row, columns); EvalAllTrue(b, row, columns);
    case Unary(_, x) => EvalAllTrue(x, row, columns);
    case Literal(_, _) =>
  }

  function Repeat(d: Datum, n: nat): Row { seq(n, i => d) }

  lemma {:induction false} PickRepeats(d: Datum, stored: seq<Column>, columns: seq<Column>)
    requires forall c <- columns :: c in stored
    ensures Pick(stored, Repeat(d, |stored|), columns) == Repeat(d, |columns|)
  {
    if columns != [] {
      var c, rest := columns[0], columns[1..];
      assert forall x <- rest :: x in columns;
      PickRepeats(d, stored, rest);
      assert HasName(stored, c.name) by {
        assert columns[0] in stored;
        var i :| 0 <= i < |stored| && stored[i] == c;
        assert stored[i].name == c.name;
      }
      Pruning.Found(stored, c.name);
      assert Repeat(d, |columns|) == [d] + Repeat(d, |rest|);
    }
  }

  lemma {:induction false} ScanRepeats(m: Meaning, db: Database, t: Name, columns: seq<Column>, d: Datum)
    requires t in db && db[t] == Stored(columns, [Repeat(d, |columns|)])
    ensures Run(m, db, Scan(t, columns)) == Rows([Repeat(d, |columns|)])
  {
    PickRepeats(d, columns, columns);
    var row := Repeat(d, |columns|);
    assert [row][1..] == [];
    assert PickAll(columns, [row], columns) == [row];
  }

  lemma {:induction false} OneRowJoin(m: Meaning, db: Database, l: Plan, r: Plan, x: Row, y: Row)
    requires Run(m, db, l) == Rows([x]) && Run(m, db, r) == Rows([y])
    ensures Run(m, db, Join(l, r, Always)) == Rows([x + y])
  {
    assert [x][1..] == [] && [y][1..] == [];
    assert Pair(x, [y]) == [x + y];
    assert Product([x], [y]) == [x + y];
  }

  /**
    * The condition under which a filter may move to the right side of a join is
    * needed: as soon as the left side has a column of one of the names the
    * filter looks up, some database and some meaning of the operators make the
    * moved filter keep a row that the original drops, and nothing fails.
    */
  lemma {:induction false} PushRightNeedsDistinctNames(a: Name, ac: seq<Column>, b: Name, bc: seq<Column>, pred: Expr,
                                                       n: Name)
    returns (m: Meaning, db: Database)
    requires a != b && ExprTables(pred) == {b} && Plain(pred) && (pred.Binary? || pred.Unary?)
    requires forall k <- ExprNames(pred) :: HasName(bc, k)
    requires n in ExprNames(pred) && HasName(ac, n)
    ensures var p := Filter(Join(Scan(a, ac), Scan(b, bc), Always), pred);
            && Run(m, db, p) == Rows([])
            && Run(m, db, PredicatePushdown(p)) == Rows([Repeat(Scalar(0), |ac|) + Repeat(Scalar(1), |bc|)])
  {
    hide Eval, Keep, Product, Pair, PickAll, Repeat, ExprNames, Finds;
    m := AllTrue();
    var x, y := Repeat(Scalar(0), |ac|), Repeat(Scalar(1), |bc|);
    db := map[a := Stored(ac, [x]), b := Stored(bc, [y])];
    var l, r := Scan(a, ac), Scan(b, bc);
    ScanRepeats(m, db, a, ac, Scalar(0));
    ScanRepeats(m, db, b, bc, Scalar(1));
    EvalBehindZeros(ac, bc, pred, n);
    EvalOnes(bc, pred);
    RunFilterOne(m, db, Join(l, r, Always), pred, x + y, false) by { OneRowJoin(m, db, l, r, x, y); }
    RunFilterOne(m, db, r, pred, y, true);
    OneRowJoin(m, db, l, Filter(r, pred), x, y);
    assert b !in PlanTables(l) && PlanTables(r) == {b};
    assert PushFilter(Join(l, r, Always), pred) == Join(l, Filter(r, pred), Always);
    assert PredicatePushdown(Join(l, r, Always)) == Join(l, r, Always);
  }

  lemma {:induction false} RunFilterOne(m: Meaning, db: Database, p: Plan, pred: Expr, row: Row, keep: bool)
    requires Run(m, db, p) == Rows([row]) && Eval(m, pred, row, OutputColumns(p)) == Ok(BoolD(keep))
    ensures Run(m, db, Filter(p, pred)) == Rows(if keep then [row] else [])
  {
    KeepOne(m, pred, row, OutputColumns(p), keep);
  }

  /** The predicate is true of a row of ones. */
  lemma {:induction false} EvalOnes(bc: seq<Column>, pred: Expr)
    requires Plain(pred) && (pred.Binary? || pred.Unary?)
    requires forall k <- ExprNames(pred) :: HasName(bc, k)
    ensures Eval(AllTrue(), pred, Repeat(Scalar(1), |bc|), bc) == Ok(BoolD(true))
  {
    forall k | k in ExprNames(pred) ensures FindColumn(bc, k) < |bc| { Pruning.Found(bc, k); }
    TopIsBool(pred, Repeat(Scalar(1), |bc|), bc);
    EvalAllTrue(pred, Repeat(Scalar(1), |bc|), bc);
  }

  /** It is false of the same row behind a row of zeros that hides one of its names. */
  lemma {:induction false} EvalBehindZeros(ac: seq<Column>, bc: seq<Column>, pred: Expr, n: Name)
    requires Plain(pred) && (pred.Binary? || pred.Unary?)
    requires forall k <- ExprNames(pred) :: HasName(bc, k)
    requires n in ExprNames(pred) && HasName(ac, n)
    ensures Eval(AllTrue(), pred, Repeat(Scalar(0), |ac|) + Repeat(Scalar(1), |bc|), ac + bc) == Ok(BoolD(false))
  {
    var row, columns := Repeat(Scalar(0), |ac|) + Repeat(Scalar(1), |bc|), ac + bc;
    forall k | k in ExprNames(pred) ensures FindColumn(columns, k) < |columns| {
      FindInLeft(ac, bc, k);
      Pruning.Found(bc, k);
    }
    assert Finds(columns, row, ExprNames(pred));
    FindInLeft(ac, bc, n);
    EvalOneFalse(row, columns, pred, n);
  }

  lemma {:induction false} EvalOneFalse(row: Row, columns: seq<Column>, pred: Expr, n: Name)
    requires Plain(pred) && (pred.Binary? || pred.Unary?) && Finds(columns, row, ExprNames(pred))
    requires n in ExprNames(pred) && !Truthy(row[FindColumn(columns, n)])
    ensures Eval(AllTrue(), pred, row, columns) == Ok(BoolD(false))
  {
    TopIsBool(pred, row, columns);
    EvalAllTrue(pred, row, columns);
  }

  lemma {:induction false} TopIsBool(pred: Expr, row: Row, columns: seq<Column>)
    requires (pred.Binary? || pred.Unary?) && Plain(pred) && Finds(columns, row, ExprNames(pred))
    ensures Eval(AllTrue(), pred, row, columns).Ok? && Eval(AllTrue(), pred, row, columns).d.BoolD?
  {
    if pred.Binary? {
      EvalAllTrue(pred.left, row, columns);
      EvalAllTrue(pred.right, row, columns);
    } else {
      EvalAllTrue(pred.operand, row, columns);
    }
  }

  // ----- filters that cannot be evaluated where they move to -----

  /**
    * The same for the left side: as soon as the filter looks up a name that only
    * the right side has, some database makes the moved filter fail where the
    * original returns its row.
    */
  lemma {:induction false} PushLeftNeedsItsNames(a: Name, ac: seq<Column>, b: Name, bc: seq<Column>, pred: Expr,
                                                 n: Name)
    returns (m: Meaning, db: Database)
    requires a != b && ExprTables(pred) == {a} && Plain(pred) && (pred.Binary? || pred.Unary?)
    requires forall k <- ExprNames(pred) :: HasName(ac, k) || HasName(bc, k)
    requires n in ExprNames(pred) && !HasName(ac, n)
    ensures var p := Filter(Join(Scan(a, ac), Scan(b, bc), Always), pred);
            && Run(m, db, p) == Rows([Repeat(Scalar(1), |ac|) + Repeat(Scalar(1), |bc|)])
            && Run(m, db, PredicatePushdown(p)) == Failure
  {
    hide Eval, Keep, Product, Pair, PickAll, Repeat, ExprNames, Finds;
    m := AllTrue();
    var x, y := Repeat(Scalar(1), |ac|), Repeat(Scalar(1), |bc|);
    db := map[a := Stored(ac, [x]), b := Stored(bc, [y])];
    var l, r := Scan(a, ac), Scan(b, bc);
    ScanRepeats(m, db, a, ac, Scalar(1));
    ScanRepeats(m, db, b, bc, Scalar(1));
    EvalOnesJoined(ac, bc, pred);
    RunFilterOne(m, db, Join(l, r, Always), pred, x + y, true) by { OneRowJoin(m, db, l, r, x, y); }
    if Eval(m, pred, x, ac).Ok? { CleanFinds(m, pred, x, ac); }
    FilterOneFails(m, db, l, pred, x);
    assert PlanTables(l) == {a};
    assert PushFilter(Join(l, r, Always), pred) == Join(Filter(l, pred), r, Always);
    assert PredicatePushdown(Join(l, r, Always)) == Join(l, r, Always);
  }

  lemma {:induction false} FilterOneFails(m: Meaning, db: Database, p: Plan, pred: Expr, row: Row)
    requires Run(m, db, p) == Rows([row]) && Eval(m, pred, row, OutputColumns(p)).Err?
    ensures Run(m, db, Filter(p, pred)) == Failure
  {
    assert [row][0] == row;
  }

  lemma {:induction false} EvalOnesJoined(ac: seq<Column>, bc: seq<Column>, pred: Expr)
    requires Plain(pred) && (pred.Binary? || pred.Unary?)
    requires forall k <- ExprNames(pred) :: HasName(ac, k) || HasName(bc, k)
    ensures Eval(AllTrue(), pred, Repeat(Scalar(1), |ac|) + Repeat(Scalar(1), |bc|), ac + bc) == Ok(BoolD(true))
  {
    var columns := ac + bc;
    forall k | k in ExprNames(pred) ensures HasName(columns, k) {
      FindInLeft(ac, bc, k);
      Pruning.Found(bc, k);
      Pruning.Found(columns, k);
    }
    assert Repeat(Scalar(1), |ac|) + Repeat(Scalar(1), |bc|) == Repeat(Scalar(1), |columns|);
    EvalOnes(columns, pred);
  }

  const NO_PARTNERS: Database := map["a" := Stored([ID], [[Scalar(2)]]), "b" := Stored([ID], [])]
  const LEFT_IS_TWO := Binary("=", ColumnRef("a", "id"), Literal("integer", "2"))
  const NO_MEANING := Meaning((k, t) => Err, (op, x, y) => Err, (op, x) => Err)

  /**
    * Nothing to join with on the right: the original never evaluates the filter,
    * the moved one fails, as a plan and as the iterators carry it out.
    */
  lemma {:induction false} EmptySideHidesError()
    ensures var p := Filter(Join(Scan("a", [ID]), Scan("b", [ID]), Always), LEFT_IS_TWO);
            && PushdownSafe(p) && Run(NO_MEANING, NO_PARTNERS, p) == Rows([])
            && Run(NO_MEANING, NO_PARTNERS, PredicatePushdown(p)) == Failure
            && Operators.AsResult(Operators.Whole(Operators.TreeOf(NO_MEANING, NO_PARTNERS, p))) == Rows([])
            && Operators.AsResult(Operators.Whole(Operators.TreeOf(NO_MEANING, NO_PARTNERS, PredicatePushdown(p))))
               == Failure
  {
    var m, db := NO_MEANING, NO_PARTNERS;
    var l, r := Scan("a", [ID]), Scan("b", [ID]);
    var j := Join(l, r, Always);
    var p := Filter(j, LEFT_IS_TWO);
    assert Run(m, db, l) == Rows([[Scalar(2)]]) by {
      assert [ID][1..] == [] && [[Scalar(2)]][1..] == [] && FindColumn([ID], "id") == 0;
      assert Pick([ID], [Scalar(2)], [ID]) == [Scalar(2)];
      assert PickAll([ID], [[Scalar(2)]], [ID]) == [[Scalar(2)]];
    }
    assert Run(m, db, r) == Rows([]) && Product([[Scalar(2)]], []) == [] by { assert [[Scalar(2)]][1..] == []; }
    assert Run(m, db, j) == Rows([]);
    FilterOneFails(m, db, l, LEFT_IS_TWO, [Scalar(2)]);
    assert ExprTables(LEFT_IS_TWO) == {"a"} && PlanTables(l) == {"a"};
    assert PushFilter(j, LEFT_IS_TWO) == Join(Filter(l, LEFT_IS_TWO), r, Always);
    assert PredicatePushdown(l) == l && PredicatePushdown(r) == r && PredicatePushdown(j) == j;
    assert Operators.LeftDeep(Operators.TreeOf(m, db, j));
    Operators.LeftDeepRuns(m, db, p);
    MovedFilterBreaks(l, r);
  }

  lemma {:induction false} MovedFilterBreaks(l: Plan, r: Plan)
    requires l == Scan("a", [ID]) && r.Scan? && Run(NO_MEANING, NO_PARTNERS, l) == Rows([[Scalar(2)]])
    ensures Operators.Whole(Operators.TreeOf(NO_MEANING, NO_PARTNERS, Join(Filter(l, LEFT_IS_TWO), r, Always)))
            == Operators.BREAK
  {
    var t := Operators.TreeOf(NO_MEANING, NO_PARTNERS, Join(Filter(l, LEFT_IS_TWO), r, Always));
    ErrorAtOnce(NO_MEANING, [Scalar(2)]);
    assert Operators.TreeOf(NO_MEANING, NO_PARTNERS, l) == Operators.Leaf(Operators.Rest([[Scalar(2)]], false));
    var leaf := Operators.Leaf(Operators.Rest([[Scalar(2)]], false));
    assert OutputColumns(l) == [ID];
    assert Operators.TreeOf(NO_MEANING, NO_PARTNERS, Filter(l, LEFT_IS_TWO))
           == Operators.Via(NO_MEANING, Operators.Where(LEFT_IS_TWO, [ID]), leaf);
    assert t.left == Operators.TreeOf(NO_MEANING, NO_PARTNERS, Filter(l, LEFT_IS_TWO));
    assert Operators.Opens(leaf) && Operators.Whole(leaf) == Operators.Rest([[Scalar(2)]], false);
    assert Operators.Whole(t.left) == Operators.BREAK;
    Operators.NestEdges(t);
  }

  lemma {:induction false} ErrorAtOnce(m: Meaning, row: Row)
    requires m == NO_MEANING
    ensures Operators.Through(m, Operators.Where(LEFT_IS_TWO, [ID]), Operators.Rest([row], false)) == Operators.BREAK
  {
    assert Eval(m, Literal("integer", "2"), row, [ID]) == Err;
  }
}
