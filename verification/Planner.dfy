/**
  * Logical plans, what they mean, and the rewrites of the optimizer
  * (planner/optimizer.go, executor/filter.go, executor/join.go).
  */
module Planner {
  type Name = string

  datatype Datum = NullD | BoolD(b: bool) | Scalar(n: int)
  datatype Outcome = Ok(d: Datum) | Err

  datatype Expr =
    | Literal(kind: string, text: string)
    | ColumnRef(table: Name, column: Name)
    | Binary(op: string, left: Expr, right: Expr)
    | Unary(op: string, operand: Expr)
    | FuncCall(name: Name, args: seq<Expr>)
    | Star

  datatype Column = Column(name: Name, primaryKey: bool)

  datatype Plan =
    | Scan(table: Name, columns: seq<Column>)
    | Filter(child: Plan, pred: Expr)
    | Join(left: Plan, right: Plan, condition: Condition)
    | Project(child: Plan, exprs: seq<Expr>)

  datatype Condition = Always | On(expr: Expr)

  type Row = seq<Datum>

  /** Meanings of literals and operators; the rewrites must not depend on them. */
  datatype Meaning = Meaning(lit: (string, string) -> Outcome, bin: (string, Datum, Datum) -> Outcome,
      un: (string, Datum) -> Outcome)

  // ----- expressions -----

  /** The first column of that name; the table qualifier plays no part. */
  function FindColumn(columns: seq<Column>, name: Name): (i: nat)
    ensures i <= |columns| && (i < |columns| ==> columns[i].name == name)
    ensures forall k :: 0 <= k < i ==> columns[k].name != name
  {
    if columns == [] then 0
    else if columns[0].name == name then 0
    else 1 + FindColumn(columns[1..], name)
  }

  function Eval(m: Meaning, e: Expr, row: Row, columns: seq<Column>): Outcome {
    match e
    case Literal(kind, text) => m.lit(kind, text)
    case ColumnRef(_, column) =>
      var i := FindColumn(columns, column);
      if i < |columns| && i < |row| then Ok(row[i]) else Err
    case Binary(op, l, r) =>
      var a := Eval(m, l, row, columns);
      if a.Err? then Err else
      var b := Eval(m, r, row, columns);
      if b.Err? then Err
      else if a.d.NullD? || b.d.NullD? then Ok(NullD)
      else m.bin(op, a.d, b.d)
    case Unary(op, x) =>
      var a := Eval(m, x, row, columns);
      if a.Err? then Err else m.un(op, a.d)
    case FuncCall(_, _) => Err
    case Star => Err
  }

  // ----- plans -----

  /** A table as stored. */
  datatype Stored = Stored(columns: seq<Column>, rows: seq<Row>)
  type Database = map<Name, Stored>

  datatype Result = Rows(rows: seq<Row>) | Failure

  function OutputColumns(p: Plan): seq<Column> {
    match p
    case Scan(_, columns) => columns
    case Filter(child, _) => OutputColumns(child)
    case Join(l, r, _) => OutputColumns(l) + OutputColumns(r)
    case Project(_, exprs) => seq(|exprs|, i => Column("", false))
  }

  /** The stored row cut down to the wanted columns. */
  function Pick(stored: seq<Column>, row: Row, columns: seq<Column>): Row {
    if columns == [] then []
    else
      var i := FindColumn(stored, columns[0].name);
      [if i < |row| then row[i] else NullD] + Pick(stored, row, columns[1..])
  }

  function PickAll(stored: seq<Column>, rows: seq<Row>, columns: seq<Column>): seq<Row> {
    if rows == [] then [] else [Pick(stored, rows[0], columns)] + PickAll(stored, rows[1..], columns)
  }

  function Keep(m: Meaning, e: Expr, rows: seq<Row>, columns: seq<Column>): Result {
    if rows == [] then Rows([]) else
    var o := Eval(m, e, rows[0], columns);
    var rest := Keep(m, e, rows[1..], columns);
    if o.Err? || rest.Failure? then Failure
    else if o.d == BoolD(true) then Rows([rows[0]] + rest.rows)
    else rest
  }

  function Pair(l: Row, rights: seq<Row>): seq<Row> {
    if rights == [] then [] else [l + rights[0]] + Pair(l, rights[1..])
  }

  function Product(lefts: seq<Row>, rights: seq<Row>): seq<Row> {
    if lefts == [] then [] else Pair(lefts[0], rights) + Product(lefts[1..], rights)
  }

  /** What Project stores: a boolean has no column type and becomes NULL. */
  function ToValue(d: Datum): Datum { if d.BoolD? then NullD else d }

  function ProjectRow(m: Meaning, exprs: seq<Expr>, row: Row, columns: seq<Column>): Result {
    if exprs == [] then Rows([[]]) else
    var o := Eval(m, exprs[0], row, columns);
    var rest := ProjectRow(m, exprs[1..], row, columns);
    if o.Err? || rest.Failure? || |rest.rows| != 1 then Failure
    else Rows([[ToValue(o.d)] + rest.rows[0]])
  }

  function ProjectAll(m: Meaning, exprs: seq<Expr>, rows: seq<Row>, columns: seq<Column>): Result {
    if rows == [] then Rows([]) else
    var r := ProjectRow(m, exprs, rows[0], columns);
    var rest := ProjectAll(m, exprs, rows[1..], columns);
    if r.Failure? || rest.Failure? then Failure else Rows(r.rows + rest.rows)
  }

  /** The rows a plan yields, in order; a plan fails if any of its operators fails on any row it sees. */
  function Run(m: Meaning, db: Database, p: Plan): Result {
    match p
    case Scan(table, columns) =>
      if table in db then Rows(PickAll(db[table].columns, db[table].rows, columns)) else Failure
    case Filter(child, pred) =>
      var c := Run(m, db, child);
      if c.Failure? then Failure else Keep(m, pred, c.rows, OutputColumns(child))
    case Join(l, r, condition) =>
      var a, b := Run(m, db, l), Run(m, db, r);
      if a.Failure? || b.Failure? then Failure
      else if condition.Always? then Rows(Product(a.rows, b.rows))
      else Keep(m, condition.expr, Product(a.rows, b.rows), OutputColumns(l) + OutputColumns(r))
    case Project(child, exprs) =>
      var c := Run(m, db, child);
      if c.Failure? then Failure else ProjectAll(m, exprs, c.rows, OutputColumns(child))
  }

  // ----- predicate pushdown -----

  function ExprTables(e: Expr): set<Name> {
    match e
    case ColumnRef(t, _) => if t == "" then {} else {t}
    case Binary(_, l, r) => ExprTables(l) + ExprTables(r)
    case Unary(_, x) => ExprTables(x)
    case FuncCall(_, args) => ArgTables(args)
    case Literal(_, _) => {}
    case Star => {}
  }

  function ArgTables(args: seq<Expr>): set<Name> {
    if args == [] then {} else ExprTables(args[0]) + ArgTables(args[1..])
  }

  function PlanTables(p: Plan): set<Name> {
    match p
    case Scan(t, _) => {t}
    case Filter(c, _) => PlanTables(c)
    case Join(l, r, _) => PlanTables(l) + PlanTables(r)
    case Project(c, _) => PlanTables(c)
  }

  /** One filter directly above a join moves to the side that all its qualified columns come from. */
  function PushFilter(child: Plan, pred: Expr): Plan {
    if !child.Join? || ExprTables(pred) == {} then Filter(child, pred)
    else if ExprTables(pred) <= PlanTables(child.left) then Join(Filter(child.left, pred), child.right, child.condition)
    else if ExprTables(pred) <= PlanTables(child.right)
        then Join(child.left, Filter(child.right, pred), child.condition)
    else Filter(child, pred)
  }

  function PredicatePushdown(p: Plan): Plan {
    match p
    case Filter(child, pred) => PushFilter(PredicatePushdown(child), pred)
    case Join(l, r, c) => Join(PredicatePushdown(l), PredicatePushdown(r), c)
    case Project(child, exprs) => Project(PredicatePushdown(child), exprs)
    case Scan(_, _) => p
  }

  /** Column names an expression looks up. */
  function ExprNames(e: Expr): set<Name> {
    match e
    case ColumnRef(_, c) => {c}
    case Binary(_, l, r) => ExprNames(l) + ExprNames(r)
    case Unary(_, x) => ExprNames(x)
    case FuncCall(_, args) => ArgNames(args)
    case Literal(_, _) => {}
    case Star => {"*"}
  }

  function ArgNames(args: seq<Expr>): set<Name> {
    if args == [] then {} else ExprNames(args[0]) + ArgNames(args[1..])
  }

  ghost predicate HasName(columns: seq<Column>, n: Name) { exists i :: 0 <= i < |columns| && columns[i].name == n }

  /** Filters that move to the right side of a join look up no name that the left side has. */
  ghost predicate PushSafe(child: Plan, pred: Expr) {
    child.Join? && ExprTables(pred) != {} && !(ExprTables(pred) <= PlanTables(child.left))
        && ExprTables(pred) <= PlanTables(child.right)
    ==> forall n <- ExprNames(pred) :: !HasName(OutputColumns(child.left), n)
  }

  /** That holds of every push the rewrite makes. */
  ghost predicate PushdownSafe(p: Plan) {
    match p
    case Filter(child, pred) => PushdownSafe(child) && PushSafe(PredicatePushdown(child), pred)
    case Join(l, r, _) => PushdownSafe(l) && PushdownSafe(r)
    case Project(child, _) => PushdownSafe(child)
    case Scan(_, _) => true
  }

  // ----- rows without failures -----

  /** The same plan, rows on which something fails left out. */
  function Select(m: Meaning, e: Expr, rows: seq<Row>, columns: seq<Column>): seq<Row> {
    if rows == [] then []
    else (if Eval(m, e, rows[0], columns) == Ok(BoolD(true)) then [rows[0]] else []) + Select(m, e, rows[1..], columns)
  }

  function ProjectSome(m: Meaning, exprs: seq<Expr>, rows: seq<Row>, columns: seq<Column>): seq<Row> {
    if rows == [] then [] else
    var r := ProjectRow(m, exprs, rows[0], columns);
    (if r.Failure? then [] else r.rows) + ProjectSome(m, exprs, rows[1..], columns)
  }

  function Yield(m: Meaning, db: Database, p: Plan): seq<Row> {
    match p
    case Scan(table, columns) => if table in db then PickAll(db[table].columns, db[table].rows, columns) else []
    case Filter(child, pred) => Select(m, pred, Yield(m, db, child), OutputColumns(child))
    case Join(l, r, condition) =>
      var all := Product(Yield(m, db, l), Yield(m, db, r));
      if condition.Always? then all else Select(m, condition.expr, all, OutputColumns(l) + OutputColumns(r))
    case Project(child, exprs) => ProjectSome(m, exprs, Yield(m, db, child), OutputColumns(child))
  }

  lemma {:induction false} KeepIsSelect(m: Meaning, e: Expr, rows: seq<Row>, columns: seq<Column>)
    requires Keep(m, e, rows, columns).Rows?
    ensures Keep(m, e, rows, columns).rows == Select(m, e, rows, columns)
  {
    if rows != [] { KeepIsSelect(m, e, rows[1..], columns); }
  }

  lemma {:induction false} ProjectAllIsSome(m: Meaning, exprs: seq<Expr>, rows: seq<Row>, columns: seq<Column>)
    requires ProjectAll(m, exprs, rows, columns).Rows?
    ensures ProjectAll(m, exprs, rows, columns).rows == ProjectSome(m, exprs, rows, columns)
  {
    if rows != [] { ProjectAllIsSome(m, exprs, rows[1..], columns); }
  }

  lemma {:induction false} RunIsYield(m: Meaning, db: Database, p: Plan)
    requires Run(m, db, p).Rows?
    ensures Run(m, db, p).rows == Yield(m, db, p)
  {
    match p
    case Scan(_, _) =>
    case Filter(child, pred) =>
      RunIsYield(m, db, child);
      KeepIsSelect(m, pred, Yield(m, db, child), OutputColumns(child));
    case Join(l, r, condition) =>
      RunIsYield(m, db, l);
      RunIsYield(m, db, r);
      if condition.On? {
        KeepIsSelect(m, condition.expr, Product(Yield(m, db, l), Yield(m, db, r)), OutputColumns(l) + OutputColumns(r));
      }
    case Project(child, exprs) =>
      RunIsYield(m, db, child);
      ProjectAllIsSome(m, exprs, Yield(m, db, child), OutputColumns(child));
  }

  // ----- widths -----

  ghost predicate Wide(rows: seq<Row>, n: nat) { forall r <- rows :: |r| == n }

  lemma {:induction false} PickWide(stored: seq<Column>, row: Row, columns: seq<Column>)
    ensures |Pick(stored, row, columns)| == |columns|
  {
    if columns != [] { PickWide(stored, row, columns[1..]); }
  }

  lemma {:induction false} PickAllWide(stored: seq<Column>, rows: seq<Row>, columns: seq<Column>)
    ensures Wide(PickAll(stored, rows, columns), |columns|)
  {
    if rows != [] {
      PickWide(stored, rows[0], columns);
      PickAllWide(stored, rows[1..], columns);
    }
  }

  lemma {:induction false} SelectWide(m: Meaning, e: Expr, rows: seq<Row>, columns: seq<Column>, n: nat)
    requires Wide(rows, n)
    ensures Wide(Select(m, e, rows, columns), n)
  {
    if rows != [] {
      assert rows[0] in rows && forall r <- rows[1..] :: r in rows;
      SelectWide(m, e, rows[1..], columns, n);
    }
  }

  lemma {:induction false} PairWide(l: Row, rights: seq<Row>, n: nat)
    requires Wide(rights, n)
    ensures Wide(Pair(l, rights), |l| + n)
  {
    if rights != [] {
      assert rights[0] in rights && forall r <- rights[1..] :: r in rights;
      PairWide(l, rights[1..], n);
    }
  }

  lemma {:induction false} ProductWide(lefts: seq<Row>, rights: seq<Row>, k: nat, n: nat)
    requires Wide(lefts, k) && Wide(rights, n)
    ensures Wide(Product(lefts, rights), k + n)
  {
    if lefts != [] {
      assert lefts[0] in lefts && forall r <- lefts[1..] :: r in lefts;
      PairWide(lefts[0], rights, n);
      ProductWide(lefts[1..], rights, k, n);
    }
  }

  lemma {:induction false} ProjectRowWide(m: Meaning, exprs: seq<Expr>, row: Row, columns: seq<Column>)
    ensures var r := ProjectRow(m, exprs, row, columns); r.Rows? ==> |r.rows| == 1 && |r.rows[0]| == |exprs|
  {
    if exprs != [] { ProjectRowWide(m, exprs[1..], row, columns); }
  }

  lemma {:induction false} ProjectSomeWide(m: Meaning, exprs: seq<Expr>, rows: seq<Row>, columns: seq<Column>)
    ensures Wide(ProjectSome(m, exprs, rows, columns), |exprs|)
  {
    if rows != [] {
      ProjectRowWide(m, exprs, rows[0], columns);
      ProjectSomeWide(m, exprs, rows[1..], columns);
    }
  }

  /** Every row a plan yields has a value for every column the plan announces. */
  lemma {:induction false} YieldWide(m: Meaning, db: Database, p: Plan)
    ensures Wide(Yield(m, db, p), |OutputColumns(p)|)
  {
    match p
    case Scan(table, columns) =>
      if table in db { PickAllWide(db[table].columns, db[table].rows, columns); }
    case Filter(child, pred) =>
      YieldWide(m, db, child);
      SelectWide(m, pred, Yield(m, db, child), OutputColumns(child), |OutputColumns(child)|);
    case Join(l, r, condition) =>
      YieldWide(m, db, l);
      YieldWide(m, db, r);
      var all, columns := Product(Yield(m, db, l), Yield(m, db, r)), OutputColumns(l) + OutputColumns(r);
      ProductWide(Yield(m, db, l), Yield(m, db, r), |OutputColumns(l)|, |OutputColumns(r)|);
      if condition.On? { SelectWide(m, condition.expr, all, columns, |columns|); }
    case Project(child, exprs) =>
      ProjectSomeWide(m, exprs, Yield(m, db, child), OutputColumns(child));
  }

  // ----- looking up names in one side of a join -----

  lemma {:induction false} FindInLeft(lc: seq<Column>, rc: seq<Column>, n: Name)
    ensures FindColumn(lc + rc, n) == if HasName(lc, n) then FindColumn(lc, n) else |lc| + FindColumn(rc, n)
    ensures HasName(lc, n) <==> FindColumn(lc, n) < |lc|
  {
    if lc == [] {
      assert lc + rc == rc;
    } else {
      assert (lc + rc)[1..] == lc[1..] + rc;
      FindInLeft(lc[1..], rc, n);
      if lc[0].name != n && HasName(lc, n) {
        var i :| 0 <= i < |lc| && lc[i].name == n;
        assert lc[1..][i - 1].name == n;
      }
      if HasName(lc[1..], n) {
        var i :| 0 <= i < |lc[1..]| && lc[1..][i].name == n;
        assert lc[i + 1].name == n;
      }
      if lc[0].name == n { assert HasName(lc, n); }
    }
  }

  /** An expression whose names are all on the left means the same over the left row alone. */
  lemma {:induction false} EvalLeft(m: Meaning, e: Expr, l: Row, r: Row, lc: seq<Column>, rc: seq<Column>)
    requires |l| == |lc| && forall n <- ExprNames(e) :: HasName(lc, n)
    ensures Eval(m, e, l + r, lc + rc) == Eval(m, e, l, lc)
  {
    match e
    case ColumnRef(_, c) => FindInLeft(lc, rc, c);
    case Binary(_, a, b) => EvalLeft(m, a, l, r, lc, rc); EvalLeft(m, b, l, r, lc, rc);
    case Unary(_, x) => EvalLeft(m, x, l, r, lc, rc);
    case Literal(_, _) =>
    case FuncCall(_, _) =>
    case Star =>
  }

  /** An expression none of whose names is on the left means the same over the right row alone. */
  lemma {:induction false} EvalRight(m: Meaning, e: Expr, l: Row, r: Row, lc: seq<Column>, rc: seq<Column>)
    requires |l| == |lc| && forall n <- ExprNames(e) :: !HasName(lc, n)
    ensures Eval(m, e, l + r, lc + rc) == Eval(m, e, r, rc)
  {
    match e
    case ColumnRef(_, c) => FindInLeft(lc, rc, c);
    case Binary(_, a, b) => EvalRight(m, a, l, r, lc, rc); EvalRight(m, b, l, r, lc, rc);
    case Unary(_, x) => EvalRight(m, x, l, r, lc, rc);
    case Literal(_, _) =>
    case FuncCall(_, _) =>
    case Star =>
  }

  lemma {:induction false} SelectConcat(m: Meaning, e: Expr, a: seq<Row>, b: seq<Row>, columns: seq<Column>)
    ensures Select(m, e, a + b, columns) == Select(m, e, a, columns) + Select(m, e, b, columns)
  {
    if a == [] {
      assert a + b == b;
    } else {
      assert (a + b)[1..] == a[1..] + b;
      SelectConcat(m, e, a[1..], b, columns);
    }
  }

  lemma {:induction false} PairAllOrNone(m: Meaning, e: Expr, l: Row, rights: seq<Row>, lc: seq<Column>,
                                         rc: seq<Column>)
    requires |l| == |lc| && forall n <- ExprNames(e) :: HasName(lc, n)
    ensures Select(m, e, Pair(l, rights), lc + rc) == if Eval(m, e, l, lc) == Ok(BoolD(true)) then Pair(l, rights)
            else []
  {
    if rights != [] {
      EvalLeft(m, e, l, rights[0], lc, rc);
      PairAllOrNone(m, e, l, rights[1..], lc, rc);
      assert Pair(l, rights)[1..] == Pair(l, rights[1..]);
    }
  }

  lemma {:induction false} SelectFirst(m: Meaning, e: Expr, rows: seq<Row>, columns: seq<Column>)
    requires rows != []
    ensures var rest := Select(m, e, rows[1..], columns);
            Select(m, e, rows, columns) == if Eval(m, e, rows[0], columns) == Ok(BoolD(true)) then [rows[0]] + rest
                else rest
  {
    hide Eval;
  }

  lemma {:induction false} ProductOne(l: Row, lefts: seq<Row>, rights: seq<Row>)
    ensures Product([l] + lefts, rights) == Pair(l, rights) + Product(lefts, rights)
  {
    assert ([l] + lefts)[1..] == lefts;
  }

  lemma {:induction false} SelectLeft(m: Meaning, e: Expr, lefts: seq<Row>, rights: seq<Row>, lc: seq<Column>,
                                      rc: seq<Column>)
    requires Wide(lefts, |lc|) && forall n <- ExprNames(e) :: HasName(lc, n)
    ensures Select(m, e, Product(lefts, rights), lc + rc) == Product(Select(m, e, lefts, lc), rights)
  {
    hide Eval, Pair, HasName, ExprNames, Select, Product;
    if lefts == [] {
      SelectNone(m, e, rights, lc, lc + rc);
    } else {
      assert lefts[0] in lefts && forall r <- lefts[1..] :: r in lefts;
      assert lefts == [lefts[0]] + lefts[1..];
      ProductOne(lefts[0], lefts[1..], rights);
      SelectConcat(m, e, Pair(lefts[0], rights), Product(lefts[1..], rights), lc + rc);
      PairAllOrNone(m, e, lefts[0], rights, lc, rc);
      SelectLeft(m, e, lefts[1..], rights, lc, rc);
      SelectFirst(m, e, lefts, lc);
      ProductOne(lefts[0], Select(m, e, lefts[1..], lc), rights);
    }
  }

  lemma {:induction false} SelectNone(m: Meaning, e: Expr, rights: seq<Row>, lc: seq<Column>, columns: seq<Column>)
    ensures Select(m, e, Product([], rights), columns) == Product(Select(m, e, [], lc), rights)
  {
  }

  lemma {:induction false} PairSelected(m: Meaning, e: Expr, l: Row, rights: seq<Row>, lc: seq<Column>, rc: seq<Column>)
    requires |l| == |lc| && forall n <- ExprNames(e) :: !HasName(lc, n)
    ensures Select(m, e, Pair(l, rights), lc + rc) == Pair(l, Select(m, e, rights, rc))
  {
    if rights != [] {
      EvalRight(m, e, l, rights[0], lc, rc);
      PairSelected(m, e, l, rights[1..], lc, rc);
      assert Pair(l, rights)[1..] == Pair(l, rights[1..]);
      var rest := Select(m, e, rights[1..], rc);
      if Eval(m, e, rights[0], rc) == Ok(BoolD(true)) {
        assert ([rights[0]] + rest)[1..] == rest;
      } else {
        assert [] + rest == rest;
      }
    }
  }

  lemma {:induction false} SelectRight(m: Meaning, e: Expr, lefts: seq<Row>, rights: seq<Row>, lc: seq<Column>,
                                       rc: seq<Column>)
    requires Wide(lefts, |lc|) && forall n <- ExprNames(e) :: !HasName(lc, n)
    ensures Select(m, e, Product(lefts, rights), lc + rc) == Product(lefts, Select(m, e, rights, rc))
  {
    if lefts != [] {
      assert lefts[0] in lefts && forall r <- lefts[1..] :: r in lefts;
      SelectConcat(m, e, Pair(lefts[0], rights), Product(lefts[1..], rights), lc + rc);
      PairSelected(m, e, lefts[0], rights, lc, rc);
      SelectRight(m, e, lefts[1..], rights, lc, rc);
    }
  }

  lemma {:induction false} SelectTwice(m: Meaning, e: Expr, f: Expr, rows: seq<Row>, columns: seq<Column>)
    ensures Select(m, e, Select(m, f, rows, columns), columns) == Select(m, f, Select(m, e, rows, columns), columns)
  {
    if rows != [] {
      var r, rest := rows[0], rows[1..];
      SelectTwice(m, e, f, rest, columns);
      SelectOne(m, e, r, columns);
      SelectOne(m, f, r, columns);
      SelectConcat(m, e, if Eval(m, f, r, columns) == Ok(BoolD(true)) then [r]
          else [], Select(m, f, rest, columns), columns);
      SelectConcat(m, f, if Eval(m, e, r, columns) == Ok(BoolD(true)) then [r]
          else [], Select(m, e, rest, columns), columns);
    }
  }

  lemma {:induction false} SelectOne(m: Meaning, e: Expr, r: Row, columns: seq<Column>)
    ensures Select(m, e, [r], columns) == if Eval(m, e, r, columns) == Ok(BoolD(true)) then [r] else []
  {
    assert [r][1..] == [];
  }

  // ----- pushdown keeps the rows -----

  /** The predicate can be evaluated on every row. */
  ghost predicate Clean(m: Meaning, e: Expr, rows: seq<Row>, columns: seq<Column>) {
    forall r <- rows :: Eval(m, e, r, columns).Ok?
  }

  lemma {:induction false} KeepWhenClean(m: Meaning, e: Expr, rows: seq<Row>, columns: seq<Column>)
    ensures Keep(m, e, rows, columns).Rows? <==> Clean(m, e, rows, columns)
    ensures Clean(m, e, rows, columns) ==> Keep(m, e, rows, columns) == Rows(Select(m, e, rows, columns))
  {
    if rows != [] {
      KeepWhenClean(m, e, rows[1..], columns);
      assert rows[0] in rows && forall r <- rows :: r == rows[0] || r in rows[1..];
      if Clean(m, e, rows, columns) { KeepIsSelect(m, e, rows, columns); }
    }
  }

  lemma {:induction false} SelectSubset(m: Meaning, e: Expr, rows: seq<Row>, columns: seq<Column>)
    ensures forall r <- Select(m, e, rows, columns) :: r in rows
  {
    if rows != [] { SelectSubset(m, e, rows[1..], columns); }
  }

  lemma {:induction false} PairHas(l: Row, rights: seq<Row>, x: Row)
    ensures x in Pair(l, rights) <==> exists r :: r in rights && x == l + r
  {
    if rights != [] {
      PairHas(l, rights[1..], x);
      assert Pair(l, rights) == [l + rights[0]] + Pair(l, rights[1..]);
      assert rights[0] in rights && forall r <- rights :: r == rights[0] || r in rights[1..];
    }
  }

  lemma {:induction false} ProductHas(lefts: seq<Row>, rights: seq<Row>, x: Row)
    ensures x in Product(lefts, rights) <==> exists l, r :: l in lefts && r in rights && x == l + r
  {
    if lefts != [] {
      PairHas(lefts[0], rights, x);
      ProductHas(lefts[1..], rights, x);
      assert lefts[0] in lefts && forall l <- lefts :: l == lefts[0] || l in lefts[1..];
    }
  }

  lemma {:induction false} ProductMonotone(lefts: seq<Row>, rights: seq<Row>, fewerLefts: seq<Row>,
                                           fewerRights: seq<Row>)
    requires (forall l <- fewerLefts :: l in lefts) && (forall r <- fewerRights :: r in rights)
    ensures forall x <- Product(fewerLefts, fewerRights) :: x in Product(lefts, rights)
  {
    forall x | x in Product(fewerLefts, fewerRights) ensures x in Product(lefts, rights) {
      ProductHas(fewerLefts, fewerRights, x);
      ProductHas(lefts, rights, x);
    }
  }

  /** Only an expression all of whose names are found can be evaluated. */
  lemma {:induction false} CleanFinds(m: Meaning, e: Expr, row: Row, columns: seq<Column>)
    requires Eval(m, e, row, columns).Ok?
    ensures forall n <- ExprNames(e) :: HasName(columns, n)
  {
    match e
    case ColumnRef(_, c) => FindInLeft(columns, [], c);
    case Binary(_, a, b) => CleanFinds(m, a, row, columns); CleanFinds(m, b, row, columns);
    case Unary(_, x) => CleanFinds(m, x, row, columns);
    case Literal(_, _) =>
  }

  /** The rows of the side a filter moves to. */
  ghost predicate MoveClean(m: Meaning, db: Database, child: Plan, pred: Expr) {
    child.Join? && ExprTables(pred) != {} ==>
      if ExprTables(pred) <= PlanTables(child.left) then Clean(m, pred, Yield(m, db, child.left), OutputColumns(child.left))
      else ExprTables(pred) <= PlanTables(child.right) ==> Clean(m, pred, Yield(m, db, child.right), OutputColumns(child.right))
  }

  /** Every filter that moves can be evaluated on every row of the side it moves to. */
  ghost predicate MovesClean(m: Meaning, db: Database, p: Plan) {
    match p
    case Filter(child, pred) => MovesClean(m, db, child) && MoveClean(m, db, PredicatePushdown(child), pred)
    case Join(l, r, _) => MovesClean(m, db, l) && MovesClean(m, db, r)
    case Project(child, _) => MovesClean(m, db, child)
    case Scan(_, _) => true
  }

  /** Moving a filter to the left: what it sees there is what it saw above. */
  lemma {:induction false} MoveLeft(m: Meaning, pred: Expr, lefts: seq<Row>, rights: seq<Row>, lc: seq<Column>,
                                    rc: seq<Column>)
    requires Wide(lefts, |lc|) && Clean(m, pred, lefts, lc)
    ensures Select(m, pred, Product(lefts, rights), lc + rc) == Product(Select(m, pred, lefts, lc), rights)
  {
    if lefts != [] {
      assert lefts[0] in lefts;
      CleanFinds(m, pred, lefts[0], lc);
      SelectLeft(m, pred, lefts, rights, lc, rc);
    }
  }

  /** A filter that is not pushed stays where it is. */
  ghost predicate Moves(child: Plan, pred: Expr) {
    child.Join? && ExprTables(pred) != {}
        && (ExprTables(pred) <= PlanTables(child.left) || ExprTables(pred) <= PlanTables(child.right))
  }

  lemma {:induction false} JoinRuns(m: Meaning, db: Database, j: Plan)
    requires j.Join? && Run(m, db, j).Rows?
    ensures Run(m, db, j.left) == Rows(Yield(m, db, j.left)) && Run(m, db, j.right) == Rows(Yield(m, db, j.right))
    ensures var all := Product(Yield(m, db, j.left), Yield(m, db, j.right));
            j.condition.On? ==> Clean(m, j.condition.expr, all, OutputColumns(j.left) + OutputColumns(j.right))
  {
    RunIsYield(m, db, j.left);
    RunIsYield(m, db, j.right);
    if j.condition.On? {
      KeepWhenClean(m, j.condition.expr, Product(Yield(m, db, j.left), Yield(m, db, j.right)),
          OutputColumns(j.left) + OutputColumns(j.right));
    }
  }

  /** A join of fewer rows does not fail where the join of all did not. */
  lemma {:induction false} FewerRun(m: Meaning, c: Condition, columns: seq<Column>, all: seq<Row>, fewer: seq<Row>)
    requires (c.On? ==> Clean(m, c.expr, all, columns)) && forall x <- fewer :: x in all
    ensures c.On? ==> Keep(m, c.expr, fewer, columns) == Rows(Select(m, c.expr, fewer, columns))
  {
    if c.On? { KeepWhenClean(m, c.expr, fewer, columns); }
  }

  lemma {:induction false} PushedLeft(m: Meaning, db: Database, j: Plan, pred: Expr)
    requires j.Join? && Run(m, db, Filter(j, pred)).Rows? && Clean(m, pred, Yield(m, db, j.left), OutputColumns(j.left))
    ensures Run(m, db, Join(Filter(j.left, pred), j.right, j.condition)) == Run(m, db, Filter(j, pred))
  {
    hide Run, Yield;
    var l, r, lc, rc := Yield(m, db, j.left), Yield(m, db, j.right), OutputColumns(j.left), OutputColumns(j.right);
    FilterRuns(m, db, j, pred);
    JoinRuns(m, db, j);
    YieldWide(m, db, j.left);
    MoveLeft(m, pred, l, r, lc, rc);
    KeepWhenClean(m, pred, l, lc);
    SelectSubset(m, pred, l, lc);
    ProductMonotone(l, r, Select(m, pred, l, lc), r);
    FewerRun(m, j.condition, lc + rc, Product(l, r), Product(Select(m, pred, l, lc), r));
    JoinYields(m, db, j);
    JoinResult(m, db, Filter(j.left, pred), j.right, j.condition, Select(m, pred, l, lc), r);
    FilterResult(m, db, j.left, pred);
    if j.condition.On? { SelectTwice(m, pred, j.condition.expr, Product(l, r), lc + rc); }
  }

  lemma {:induction false} PushedRight(m: Meaning, db: Database, j: Plan, pred: Expr)
    requires j.Join? && Run(m, db, Filter(j, pred)).Rows?
             && Clean(m, pred, Yield(m, db, j.right), OutputColumns(j.right))
    requires forall n <- ExprNames(pred) :: !HasName(OutputColumns(j.left), n)
    ensures Run(m, db, Join(j.left, Filter(j.right, pred), j.condition)) == Run(m, db, Filter(j, pred))
  {
    hide Run, Yield;
    var l, r, lc, rc := Yield(m, db, j.left), Yield(m, db, j.right), OutputColumns(j.left), OutputColumns(j.right);
    FilterRuns(m, db, j, pred);
    JoinRuns(m, db, j);
    YieldWide(m, db, j.left);
    SelectRight(m, pred, l, r, lc, rc);
    KeepWhenClean(m, pred, r, rc);
    SelectSubset(m, pred, r, rc);
    ProductMonotone(l, r, l, Select(m, pred, r, rc));
    FewerRun(m, j.condition, lc + rc, Product(l, r), Product(l, Select(m, pred, r, rc)));
    JoinYields(m, db, j);
    JoinResult(m, db, j.left, Filter(j.right, pred), j.condition, l, Select(m, pred, r, rc));
    FilterResult(m, db, j.right, pred);
    if j.condition.On? { SelectTwice(m, pred, j.condition.expr, Product(l, r), lc + rc); }
  }

  lemma {:induction false} FilterRuns(m: Meaning, db: Database, p: Plan, pred: Expr)
    requires Run(m, db, Filter(p, pred)).Rows?
    ensures Run(m, db, p).Rows?
            && Run(m, db, Filter(p, pred)) == Rows(Select(m, pred, Yield(m, db, p), OutputColumns(p)))
  {
    RunIsYield(m, db, p);
    RunIsYield(m, db, Filter(p, pred));
  }

  lemma {:induction false} FilterResult(m: Meaning, db: Database, p: Plan, pred: Expr)
    requires Run(m, db, p) == Rows(Yield(m, db, p))
    ensures Run(m, db, Filter(p, pred)) == Keep(m, pred, Yield(m, db, p), OutputColumns(p))
  {}

  lemma {:induction false} JoinYields(m: Meaning, db: Database, j: Plan)
    requires j.Join?
    ensures var all := Product(Yield(m, db, j.left), Yield(m, db, j.right));
            Yield(m, db, j) == if j.condition.Always? then all
                else Select(m, j.condition.expr, all, OutputColumns(j.left) + OutputColumns(j.right))
    ensures OutputColumns(j) == OutputColumns(j.left) + OutputColumns(j.right)
  {}

  lemma {:induction false} JoinResult(m: Meaning, db: Database, l: Plan, r: Plan, c: Condition, a: seq<Row>,
                                      b: seq<Row>)
    ensures Run(m, db, l) == Rows(a) && Run(m, db, r) == Rows(b) ==>
      Run(m, db, Join(l, r, c)) == if c.Always? then Rows(Product(a, b))
          else Keep(m, c.expr, Product(a, b), OutputColumns(l) + OutputColumns(r))
  {}

  /** A plan that fails for another reason than the condition of a join at its top. */
  ghost predicate Broken(m: Meaning, db: Database, p: Plan) {
    if p.Join? then Run(m, db, p.left).Failure? || Run(m, db, p.right).Failure? else Run(m, db, p).Failure?
  }

  lemma {:induction false} BrokenFails(m: Meaning, db: Database, p: Plan)
    requires Broken(m, db, p)
    ensures Run(m, db, p).Failure?
  {}

  /** One push changes nothing if and only if the moved filter can be evaluated where it moves to. */
  lemma {:induction false} PushFilterRuns(m: Meaning, db: Database, child: Plan, pred: Expr)
    requires PushSafe(child, pred) && Run(m, db, Filter(child, pred)).Rows?
    ensures !MoveClean(m, db, child, pred) ==> Broken(m, db, PushFilter(child, pred))
    ensures MoveClean(m, db, child, pred) ==> Run(m, db, PushFilter(child, pred)) == Run(m, db, Filter(child, pred))
    ensures OutputColumns(PushFilter(child, pred)) == OutputColumns(child)
  {
    hide Run, Yield;
    if Moves(child, pred) {
      FilterRuns(m, db, child, pred);
      JoinRuns(m, db, child);
      if ExprTables(pred) <= PlanTables(child.left) {
        FilterFails(m, db, child.left, pred);
        if MoveClean(m, db, child, pred) { PushedLeft(m, db, child, pred); }
      } else {
        FilterFails(m, db, child.right, pred);
        if MoveClean(m, db, child, pred) { PushedRight(m, db, child, pred); }
      }
    }
  }

  lemma {:induction false} FilterFails(m: Meaning, db: Database, side: Plan, pred: Expr)
    requires Run(m, db, side) == Rows(Yield(m, db, side))
    ensures !Clean(m, pred, Yield(m, db, side), OutputColumns(side)) ==> Run(m, db, Filter(side, pred)).Failure?
  {
    KeepWhenClean(m, pred, Yield(m, db, side), OutputColumns(side));
  }

  lemma {:induction false} PushdownRuns(m: Meaning, db: Database, p: Plan)
    requires PushdownSafe(p) && Run(m, db, p).Rows?
    ensures !MovesClean(m, db, p) ==> Broken(m, db, PredicatePushdown(p))
    ensures MovesClean(m, db, p) ==> Run(m, db, PredicatePushdown(p)) == Run(m, db, p)
    ensures OutputColumns(PredicatePushdown(p)) == OutputColumns(p)
  {
    match p
    case Filter(child, pred) =>
      PushdownRuns(m, db, child);
      var now := PredicatePushdown(child);
      if MovesClean(m, db, child) {
        assert Run(m, db, Filter(now, pred)) == Run(m, db, p);
        PushFilterRuns(m, db, now, pred);
      } else {
        PushFilterBroken(m, db, now, pred);
      }
      PushFilterColumns(now, pred);
    case Join(l, r, _) =>
      PushdownRuns(m, db, l);
      PushdownRuns(m, db, r);
      if !MovesClean(m, db, l) { BrokenFails(m, db, PredicatePushdown(l)); }
      if !MovesClean(m, db, r) { BrokenFails(m, db, PredicatePushdown(r)); }
    case Project(child, _) =>
      PushdownRuns(m, db, child);
      if !MovesClean(m, db, child) { BrokenFails(m, db, PredicatePushdown(child)); }
    case Scan(_, _) =>
  }

  lemma {:induction false} PushFilterColumns(child: Plan, pred: Expr)
    ensures OutputColumns(PushFilter(child, pred)) == OutputColumns(child)
  {}

  lemma {:induction false} PushFilterBroken(m: Meaning, db: Database, child: Plan, pred: Expr)
    requires Broken(m, db, child)
    ensures Broken(m, db, PushFilter(child, pred))
  {
    BrokenFails(m, db, child);
  }

  /**
    * On a plan that does not fail, predicate pushdown returns the same rows in
    * the same order if and only if every filter it moves can be evaluated on
    * every row of the side it moves to. Filters that move right must look up no
    * name that the left side has.
    */
  lemma {:induction false} PushdownPreserves(m: Meaning, db: Database, p: Plan)
    requires PushdownSafe(p) && Run(m, db, p).Rows?
    ensures Run(m, db, PredicatePushdown(p)) == Run(m, db, p) <==> MovesClean(m, db, p)
    ensures Run(m, db, PredicatePushdown(p)) == Run(m, db, p) || Run(m, db, PredicatePushdown(p)) == Failure
  {
    PushdownRuns(m, db, p);
    if !MovesClean(m, db, p) { BrokenFails(m, db, PredicatePushdown(p)); }
  }
}
