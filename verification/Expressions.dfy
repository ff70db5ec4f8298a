/**
  * What expressions over integers evaluate to, and what filters and projections
  * make of stored rows (executor/filter.go).
  */
module Expressions {
  import opened Planner
  import Operators

  // ----- integers of 64 bits -----

  const TWO_63: int := 0x8000_0000_0000_0000
  const TWO_53: int := 0x20_0000_0000_0000

  predicate Int64(n: int) { -TWO_63 <= n < TWO_63 }

  /** What is left of a result in 64 bits. */
  function Wrapped(n: int): (w: int)
    ensures Int64(w) && (w - n) % (2 * TWO_63) == 0 && (Int64(n) ==> w == n)
  {
    (n + TWO_63) % (2 * TWO_63) - TWO_63
  }

  /** Division and remainder towards zero. */
  function Quotient(a: int, b: int): int
    requires b != 0
  {
    var q := Size(a) / Size(b);
    if a < 0 <==> b < 0 then q else -q
  }

  function Remainder(a: int, b: int): (r: int)
    requires b != 0
    ensures a == Quotient(a, b) * b + r && Size(r) < Size(b) && (r == 0 || (r < 0 <==> a < 0))
  {
    var m, n := Size(a), Size(b);
    assert m == m / n * n + m % n;
    if a < 0 then -(m % n) else m % n
  }

  function Size(n: int): nat { if n < 0 then -n else n }

  /** The nearest multiple of the unit, halves to even. */
  function Nearest(n: nat, unit: nat): nat
    requires unit >= 1
  {
    Up(n / unit, n % unit, unit) * unit
  }

  function Up(q: nat, r: nat, unit: nat): (u: nat)
    ensures q <= u <= q + 1
  {
    if 2 * r > unit || (2 * r == unit && q % 2 == 1) then q + 1 else q
  }

  /** Comparisons go through float64: 53 bits. */
  function Rounded(n: nat, unit: nat): nat
    requires unit >= 1
    decreases n / unit
  {
    if n < TWO_53 * unit then Nearest(n, unit)
    else assert n / (2 * unit) < n / unit by { Halved(n, unit); } Rounded(n, 2 * unit)
  }

  lemma {:induction false} Halved(n: nat, unit: nat)
    requires unit >= 1 && n >= TWO_53 * unit
    ensures n / (2 * unit) < n / unit
  {
    var q := n / (2 * unit);
    assert n >= q * (2 * unit);
    assert q * (2 * unit) == (2 * q) * unit;
    Divides(n, unit, 2 * q);
    Divides(n, unit, TWO_53);
  }

  lemma {:induction false} Divides(n: nat, unit: nat, q: nat)
    requires unit >= 1 && n >= q * unit
    ensures n / unit >= q
  {
    var d := n / unit;
    assert n < (d + 1) * unit;
    if d + 1 <= q { NotAbove(d + 1, q, unit); }
  }

  lemma {:induction false} NotAbove(a: nat, b: nat, unit: nat)
    requires a <= b
    ensures a * unit <= b * unit
  {}

  function Float(n: int): int { if n < 0 then 0 - Rounded(-n, 1) else Rounded(n, 1) }

  /** Up to 2^53 a float64 holds every integer; from there on two of them can become one. */
  lemma {:induction false} FloatExact(n: int)
    ensures -TWO_53 <= n <= TWO_53 ==> Float(n) == n
    ensures Float(TWO_53 + 1) == Float(TWO_53)
  {
    var n: nat := TWO_53 + 1;
    assert Rounded(n, 1) == Rounded(n, 2);
    assert n / 2 == 0x10_0000_0000_0000 && n % 2 == 1 && n < TWO_53 * 2;
    assert Rounded(n, 2) == n / 2 * 2;
    assert Rounded(TWO_53, 1) == Rounded(TWO_53, 2);
  }

  lemma {:induction false} NearestGrows(a: nat, b: nat, unit: nat)
    requires unit >= 1 && a <= b
    ensures Nearest(a, unit) <= Nearest(b, unit) && b / unit * unit <= Nearest(b, unit)
  {
    hide Up;
    Divides(b, unit, a / unit);
    if a / unit == b / unit { SameUp(a, b, unit); }
    NotAbove(Up(a / unit, a % unit, unit), Up(b / unit, b % unit, unit), unit);
    NotAbove(b / unit, Up(b / unit, b % unit, unit), unit);
  }

  lemma {:induction false} SameUp(a: nat, b: nat, unit: nat)
    requires unit >= 1 && a <= b && a / unit == b / unit
    ensures Up(a / unit, a % unit, unit) <= Up(b / unit, b % unit, unit)
  {
    assert a == a / unit * unit + a % unit && b == b / unit * unit + b % unit;
  }

  lemma {:induction false} NearestBelow(n: nat, unit: nat, top: nat)
    requires unit >= 1 && n < top * unit
    ensures Nearest(n, unit) <= top * unit
  {
    hide Up;
    var q := n / unit;
    if q >= top { NotAbove(top, q, unit); }
    NotAbove(Up(q, n % unit, unit), top, unit);
  }

  lemma {:induction false} RoundedAbove(n: nat, unit: nat)
    requires unit >= 1 && n >= TWO_53 * unit
    ensures Rounded(n, 2 * unit) >= TWO_53 * unit
    decreases n / unit
  {
    if n < TWO_53 * (2 * unit) {
      Divides(n, 2 * unit, TWO_53 / 2);
      NotAbove(TWO_53 / 2, n / (2 * unit), 2 * unit);
      NearestGrows(n, n, 2 * unit);
    } else {
      Halved(n, unit);
      RoundedAbove(n, 2 * unit);
    }
  }

  /** Rounding keeps the order. */
  lemma {:induction false} RoundedGrows(a: nat, b: nat, unit: nat)
    requires unit >= 1 && a <= b
    ensures Rounded(a, unit) <= Rounded(b, unit)
    decreases b / unit
  {
    if b < TWO_53 * unit {
      NearestGrows(a, b, unit);
    } else {
      Halved(b, unit);
      if a < TWO_53 * unit {
        NearestBelow(a, unit, TWO_53);
        RoundedAbove(b, unit);
      } else {
        RoundedGrows(a, b, 2 * unit);
      }
    }
  }

  lemma {:induction false} FloatGrows(x: int, y: int)
    requires x <= y
    ensures Float(x) <= Float(y)
  {
    hide Rounded;
    if x >= 0 { RoundedGrows(x, y, 1); } else if y < 0 { RoundedGrows(-y, -x, 1); }
  }

  /** Comparing as floats is comparing, unless two different numbers become one. */
  lemma {:induction false} ComparesRight(x: int, y: int)
    ensures (forall op :: Comparison(op) ==> (Compares(op, Float(x), Float(y)) <==> Compares(op, x, y)))
            <==> x == y || Float(x) != Float(y)
    ensures -TWO_53 <= x <= TWO_53 && -TWO_53 <= y <= TWO_53 ==> x == y || Float(x) != Float(y)
  {
    hide Float;
    if x <= y { FloatGrows(x, y); } else { FloatGrows(y, x); }
    FloatExact(x);
    FloatExact(y);
    assert Comparison("=") && (Compares("=", Float(x), Float(y)) <==> Float(x) == Float(y))
           && (Compares("=", x, y) <==> x == y);
  }

  // ----- literals and operators -----

  /** The value of a decimal literal, if it has one in 64 bits. */
  function Digits(s: string): (r: Option<nat>) {
    if s == [] then None
    else
      var c := s[|s| - 1];
      if !('0' <= c <= '9') then None
      else if |s| == 1 then Some((c as int - '0' as int) as nat)
      else
        var high := Digits(s[..|s| - 1]);
        if high.None? then None else Some(high.value * 10 + (c as int - '0' as int) as nat)
  }

  datatype Option<T> = None | Some(value: T)

  function ParseInt(s: string): (r: Option<int>)
    ensures r.Some? ==> Int64(r.value)
  {
    var d := if s != [] && (s[0] == '-' || s[0] == '+') then Digits(s[1..]) else Digits(s);
    if d.None? then None
    else
      var n: int := if s[0] == '-' then 0 - d.value else d.value;
      if Int64(n) then Some(n) else None
  }

  /** A number in decimal, without leading zeros. */
  function Decimal(n: nat): string {
    if n < 10 then ['0' + n as char] else Decimal(n / 10) + ['0' + (n % 10) as char]
  }

  lemma {:induction false} DigitsOfDecimal(n: nat)
    ensures Decimal(n) != [] && '0' <= Decimal(n)[0] <= '9' && Digits(Decimal(n)) == Some(n)
  {
    if n >= 10 {
      DigitsOfDecimal(n / 10);
      var s, high := Decimal(n), Decimal(n / 10);
      assert s[..|s| - 1] == high && s[|s| - 1] == '0' + (n % 10) as char;
    }
  }

  ghost predicate Writes(s: string, n: int) { ParseInt(s) == if Int64(n) then Some(n) else None }

  /** A literal of 64 bits means the number it writes, a minus sign its opposite; a larger one has no value. */
  lemma {:induction false} ParseDecimal(n: nat)
    ensures Writes(Decimal(n), n) && Writes("-" + Decimal(n), 0 - n)
  {
    hide Digits, Decimal;
    DigitsOfDecimal(n);
    assert ("-" + Decimal(n))[1..] == Decimal(n);
  }

  predicate Comparison(op: string) { op in ["=", "!=", "<", ">", "<=", ">="] }

  /** The relation a comparison stands for. */
  predicate Compares(op: string, x: int, y: int) {
    match op
    case "=" => x == y
    case "!=" => x != y
    case "<" => x < y
    case ">" => x > y
    case "<=" => x <= y
    case ">=" => x >= y
    case _ => false
  }

  /** Operators on two values that are not NULL; comparing values of different kinds is left to `mixed`. */
  function Binary2(mixed: (string, Datum, Datum) -> Outcome, op: string, a: Datum, b: Datum): Outcome {
    if op == "AND" then if a.BoolD? && b.BoolD? then Ok(BoolD(a.b && b.b)) else Err
    else if op == "OR" then if a.BoolD? && b.BoolD? then Ok(BoolD(a.b || b.b)) else Err
    else if Comparison(op) then
      if a.Scalar? && b.Scalar? then Ok(BoolD(Compares(op, Float(a.n), Float(b.n)))) else mixed(op, a, b)
    else if !a.Scalar? || !b.Scalar? then Err
    else if op == "+" then Ok(Scalar(Wrapped(a.n + b.n)))
    else if op == "-" then Ok(Scalar(Wrapped(a.n - b.n)))
    else if op == "*" then Ok(Scalar(Wrapped(a.n * b.n)))
    else if op == "/" then if b.n == 0 then Err else Ok(Scalar(Wrapped(Quotient(a.n, b.n))))
    else if op == "%" then if b.n == 0 then Err else Ok(Scalar(Remainder(a.n, b.n)))
    else Err
  }

  /** NOT needs a boolean and minus a number: NULL is neither. */
  function Unary1(op: string, a: Datum): Outcome {
    if op == "NOT" && a.BoolD? then Ok(BoolD(!a.b))
    else if op == "-" && a.Scalar? then Ok(Scalar(Wrapped(-a.n)))
    else Err
  }

  function Literal0(other: (string, string) -> Outcome, kind: string, text: string): Outcome {
    if kind == "integer" then
      var n := ParseInt(text);
      if n.None? then Err else Ok(Scalar(n.value))
    else if kind == "null" then Ok(NullD)
    else other(kind, text)
  }

  /** The meaning of integers, booleans and NULL; `other` literals and `mixed` comparisons may mean anything. */
  function Sql(other: (string, string) -> Outcome, mixed: (string, Datum, Datum) -> Outcome): Meaning {
    Meaning((kind, text) => Literal0(other, kind, text), (op, a, b) => Binary2(mixed, op, a, b),
        (op, a) => Unary1(op, a))
  }

  ghost predicate IsSql(m: Meaning) {
    exists other: (string, string) -> Outcome, mixed: (string, Datum, Datum) -> Outcome :: m == Sql(other, mixed)
  }

  // ----- rows of a filter and of a projection -----

  /** The rows that satisfy a condition, in order. */
  function Sifted(rows: seq<Row>, keep: Row -> bool): (r: seq<Row>)
    ensures forall x :: x in r <==> x in rows && keep(x)
  {
    if rows == [] then [] else (if keep(rows[0]) then [rows[0]] else []) + Sifted(rows[1..], keep)
  }

  lemma {:induction false} KeepSifts(m: Meaning, e: Expr, rows: seq<Row>, columns: seq<Column>, keep: Row -> bool)
    requires forall r <- rows :: Eval(m, e, r, columns).Ok? && (Eval(m, e, r, columns).d == BoolD(true) <==> keep(r))
    ensures Keep(m, e, rows, columns) == Rows(Sifted(rows, keep))
  {
    hide Eval;
    if rows != [] {
      assert rows[0] in rows && forall r <- rows[1..] :: r in rows;
      KeepSifts(m, e, rows[1..], columns, keep);
    }
  }

  /** A column of integers and NULLs. */
  ghost predicate IntegerColumn(rows: seq<Row>, columns: seq<Column>, i: nat) {
    i < |columns| && forall r: Row <- rows :: |r| == |columns| && (r[i].Scalar? || r[i].NullD?)
  }

  /** The first column of its name, so that the name means it. */
  ghost predicate Named(columns: seq<Column>, i: nat, name: Name) {
    i < |columns| && columns[i].name == name && forall k :: 0 <= k < i ==> columns[k].name != name
  }

  lemma {:induction false} FindsNamed(columns: seq<Column>, i: nat, name: Name)
    requires Named(columns, i, name)
    ensures FindColumn(columns, name) == i
  {
    var k := FindColumn(columns, name);
  }

  lemma {:induction false} EvalColumn(m: Meaning, table: Name, name: Name, row: Row, columns: seq<Column>, i: nat)
    requires Named(columns, i, name) && |row| == |columns|
    ensures Eval(m, ColumnRef(table, name), row, columns) == Ok(row[i])
  {
    FindsNamed(columns, i, name);
  }

  lemma {:induction false} EvalInteger(m: Meaning, text: string, row: Row, columns: seq<Column>)
    requires IsSql(m) && ParseInt(text).Some?
    ensures Eval(m, Literal("integer", text), row, columns) == Ok(Scalar(ParseInt(text).value))
  {
  }

  /** One comparison of a column with a number, on one row. */
  lemma {:induction false} EvalCompare(m: Meaning, op: string, table: Name, name: Name, text: string, row: Row,
                                       columns: seq<Column>, i: nat)
    requires IsSql(m) && Comparison(op) && ParseInt(text).Some? && Named(columns, i, name) && |row| == |columns|
    requires row[i].Scalar? || row[i].NullD?
    ensures var n := ParseInt(text).value;
            && Eval(m, Binary(op, ColumnRef(table, name), Literal("integer", text)), row, columns)
               == (if row[i].NullD? then Ok(NullD) else Ok(BoolD(Compares(op, Float(row[i].n), Float(n)))))
            && Eval(m, Binary(op, Literal("integer", text), ColumnRef(table, name)), row, columns)
               == (if row[i].NullD? then Ok(NullD) else Ok(BoolD(Compares(op, Float(n), Float(row[i].n)))))
  {
    hide ParseInt, Float;
    EvalColumn(m, table, name, row, columns, i);
    EvalInteger(m, text, row, columns);
  }

  /** The rows whose number compares so. */
  function Meets(op: string, i: nat, n: int): Row -> bool {
    (r: Row) => i < |r| && r[i].Scalar? && Compares(op, Float(r[i].n), Float(n))
  }

  /**
    * WHERE c < n, or any other comparison: exactly the rows whose value is not
    * NULL and compares so, as float64 values, in their order.
    */
  lemma {:induction false} FilterCompares(m: Meaning, op: string, table: Name, name: Name, text: string, rows: seq<Row>,
                                          columns: seq<Column>, i: nat)
    requires IsSql(m) && Comparison(op) && ParseInt(text).Some? && Named(columns, i, name)
             && IntegerColumn(rows, columns, i)
    ensures Keep(m, Binary(op, ColumnRef(table, name), Literal("integer", text)), rows, columns)
         == Rows(Sifted(rows, Meets(op, i, ParseInt(text).value)))
  {
    hide ParseInt, Float, Eval, Keep;
    var e, keep := Binary(op, ColumnRef(table, name), Literal("integer", text)), Meets(op, i, ParseInt(text).value);
    forall r | r in rows ensures Eval(m, e, r, columns).Ok? && (Eval(m, e, r, columns).d == BoolD(true) <==> keep(r)) {
      EvalCompare(m, op, table, name, text, r, columns, i);
    }
    KeepSifts(m, e, rows, columns, keep);
  }

  /** Compared with NULL, on either side, no row is kept, and nothing fails. */
  lemma {:induction false} FilterNull(m: Meaning, op: string, table: Name, name: Name, text: string, rows: seq<Row>,
                                      columns: seq<Column>, i: nat)
    requires IsSql(m) && Named(columns, i, name) && IntegerColumn(rows, columns, i)
    ensures Keep(m, Binary(op, ColumnRef(table, name), Literal("null", text)), rows, columns) == Rows([])
    ensures Keep(m, Binary(op, Literal("null", text), ColumnRef(table, name)), rows, columns) == Rows([])
  {
    hide Keep;
    var c, l := ColumnRef(table, name), Literal("null", text);
    forall r | r in rows
      ensures Eval(m, Binary(op, c, l), r, columns) == Ok(NullD) && Eval(m, Binary(op, l, c), r, columns) == Ok(NullD)
    {
      EvalColumn(m, table, name, r, columns, i);
      assert Eval(m, l, r, columns) == Ok(NullD);
    }
    KeepSifts(m, Binary(op, c, l), rows, columns, (r: Row) => false);
    KeepSifts(m, Binary(op, l, c), rows, columns, (r: Row) => false);
    SiftedNone(rows);
  }

  lemma {:induction false} SiftedNone(rows: seq<Row>)
    ensures Sifted(rows, (r: Row) => false) == []
  {
    if rows != [] { SiftedNone(rows[1..]); }
  }

  lemma {:induction false} EvalLogic(m: Meaning, a: Expr, b: Expr, row: Row, columns: seq<Column>, p: bool, q: bool)
    requires IsSql(m) && Eval(m, a, row, columns) == Ok(BoolD(p)) && Eval(m, b, row, columns) == Ok(BoolD(q))
    ensures Eval(m, Binary("AND", a, b), row, columns) == Ok(BoolD(p && q))
    ensures Eval(m, Binary("OR", a, b), row, columns) == Ok(BoolD(p || q))
    ensures Eval(m, Unary("NOT", a), row, columns) == Ok(BoolD(!p))
  {}

  /** The rows for which both conditions hold, for AND; either, for OR; not, for NOT. */
  lemma {:induction false} FilterLogic(m: Meaning, a: Expr, b: Expr, rows: seq<Row>, columns: seq<Column>,
                                       p: Row -> bool, q: Row -> bool)
    requires IsSql(m)
    requires forall r <- rows :: Eval(m, a, r, columns) == Ok(BoolD(p(r))) && Eval(m, b, r, columns) == Ok(BoolD(q(r)))
    ensures Keep(m, Binary("AND", a, b), rows, columns) == Rows(Sifted(rows, (r: Row) => p(r) && q(r)))
    ensures Keep(m, Binary("OR", a, b), rows, columns) == Rows(Sifted(rows, (r: Row) => p(r) || q(r)))
    ensures Keep(m, Unary("NOT", a), rows, columns) == Rows(Sifted(rows, (r: Row) => !p(r)))
  {
    hide Keep, Eval, IsSql;
    forall r | r in rows
      ensures Eval(m, Binary("AND", a, b), r, columns) == Ok(BoolD(p(r) && q(r)))
      ensures Eval(m, Binary("OR", a, b), r, columns) == Ok(BoolD(p(r) || q(r)))
      ensures Eval(m, Unary("NOT", a), r, columns) == Ok(BoolD(!p(r)))
    {
      EvalLogic(m, a, b, r, columns, p(r), q(r));
    }
    KeepSifts(m, Binary("AND", a, b), rows, columns, (r: Row) => p(r) && q(r));
    KeepSifts(m, Binary("OR", a, b), rows, columns, (r: Row) => p(r) || q(r));
    KeepSifts(m, Unary("NOT", a), rows, columns, (r: Row) => !p(r));
  }

  // ----- projections -----

  /** What a projected column holds: the value, but for a boolean, which has no column type and becomes NULL. */
  ghost predicate Stores(d: Datum, x: Datum) { if d.BoolD? then x == NullD else x == d }

  ghost predicate ProjectsTo(m: Meaning, exprs: seq<Expr>, row: Row, columns: seq<Column>, out: Row) {
    |out| == |exprs| && forall j :: 0 <= j < |exprs| ==> StoresAt(m, exprs[j], row, columns, out[j])
  }

  ghost predicate StoresAt(m: Meaning, e: Expr, row: Row, columns: seq<Column>, x: Datum) {
    Eval(m, e, row, columns).Ok? && Stores(Eval(m, e, row, columns).d, x)
  }

  lemma {:induction false} ProjectRowHolds(m: Meaning, exprs: seq<Expr>, row: Row, columns: seq<Column>)
    requires forall e <- exprs :: Eval(m, e, row, columns).Ok?
    ensures var r := ProjectRow(m, exprs, row, columns);
            r.Rows? && |r.rows| == 1 && ProjectsTo(m, exprs, row, columns, r.rows[0])
  {
    hide Eval;
    if exprs != [] {
      assert exprs[0] in exprs && forall e <- exprs[1..] :: e in exprs;
      ProjectRowHolds(m, exprs[1..], row, columns);
      var rest, all := ProjectRow(m, exprs[1..], row, columns).rows[0], ProjectRow(m, exprs, row, columns).rows[0];
      assert StoresAt(m, exprs[0], row, columns, all[0]);
      forall j | 0 < j < |exprs| ensures StoresAt(m, exprs[j], row, columns, all[j]) {
        assert exprs[1..][j - 1] == exprs[j] && all[j] == rest[j - 1];
        assert StoresAt(m, exprs[1..][j - 1], row, columns, rest[j - 1]);
      }
    }
  }

  /** SELECT e1, e2, ..: one row for each row, in order, each column the value of its expression. */
  lemma {:induction false} ProjectHolds(m: Meaning, exprs: seq<Expr>, rows: seq<Row>, columns: seq<Column>)
    requires forall r <- rows, e <- exprs :: Eval(m, e, r, columns).Ok?
    ensures var p := ProjectAll(m, exprs, rows, columns);
            p.Rows? && |p.rows| == |rows| && forall k :: 0 <= k < |rows| ==> ProjectsTo(m, exprs, rows[k], columns, p.rows[k])
  {
    hide Eval, ProjectRow, ProjectsTo;
    if rows != [] {
      assert rows[0] in rows && forall r <- rows[1..] :: r in rows;
      ProjectRowHolds(m, exprs, rows[0], columns);
      ProjectHolds(m, exprs, rows[1..], columns);
      var p, rest := ProjectAll(m, exprs, rows, columns).rows, ProjectAll(m, exprs, rows[1..], columns).rows;
      forall k | 0 < k < |rows| ensures ProjectsTo(m, exprs, rows[k], columns, p[k]) {
        assert rows[1..][k - 1] == rows[k] && p[k] == rest[k - 1];
      }
    }
  }

  /** The value of an arithmetic operator, if it has one. */
  function Arithmetic(op: string, x: int, y: int): Option<int> {
    match op
    case "+" => Some(Wrapped(x + y))
    case "-" => Some(Wrapped(x - y))
    case "*" => Some(Wrapped(x * y))
    case "/" => if y == 0 then None else Some(Wrapped(Quotient(x, y)))
    case "%" => if y == 0 then None else Some(Remainder(x, y))
    case _ => None
  }

  lemma {:induction false} EvalArithmetic(m: Meaning, op: string, table: Name, name: Name, text: string, row: Row,
                                          columns: seq<Column>, i: nat)
    requires IsSql(m) && ParseInt(text).Some? && Named(columns, i, name) && |row| == |columns|
    requires op in ["+", "-", "*", "/", "%"] && (row[i].Scalar? || row[i].NullD?)
    ensures var e, n := Binary(op, ColumnRef(table, name), Literal("integer", text)), ParseInt(text).value;
            Eval(m, e, row, columns)
            == if row[i].NullD? then Ok(NullD)
               else if Arithmetic(op, row[i].n, n).None? then Err else Ok(Scalar(Arithmetic(op, row[i].n, n).value))
  {
    hide ParseInt, Wrapped, Quotient, Remainder;
    EvalColumn(m, table, name, row, columns, i);
    EvalInteger(m, text, row, columns);
  }

  /** SELECT c - n, and the other operators: NULL where the value is, and otherwise the result in 64 bits. */
  lemma {:induction false} ProjectComputes(m: Meaning, op: string, table: Name, name: Name, text: string,
                                           rows: seq<Row>, columns: seq<Column>, i: nat)
    requires IsSql(m) && ParseInt(text).Some? && Named(columns, i, name) && IntegerColumn(rows, columns, i)
    requires op in ["+", "-", "*", "/", "%"] && (op in ["/", "%"] ==> ParseInt(text).value != 0)
    ensures var p := ProjectAll(m, [Binary(op, ColumnRef(table, name), Literal("integer", text))], rows, columns);
            && p.Rows? && |p.rows| == |rows|
            && forall k :: 0 <= k < |rows| ==>
                 p.rows[k] == [if rows[k][i].NullD? then NullD
                     else Scalar(Arithmetic(op, rows[k][i].n, ParseInt(text).value).value)]
  {
    hide ParseInt, Wrapped, Quotient, Remainder, Eval, ProjectAll;
    var e, n := Binary(op, ColumnRef(table, name), Literal("integer", text)), ParseInt(text).value;
    forall r | r in rows ensures Eval(m, e, r, columns).Ok? { EvalArithmetic(m, op, table, name, text, r, columns, i); }
    ProjectHolds(m, [e], rows, columns);
    var p := ProjectAll(m, [e], rows, columns).rows;
    forall k | 0 <= k < |rows|
      ensures p[k] == [if rows[k][i].NullD? then NullD else Scalar(Arithmetic(op, rows[k][i].n, n).value)]
    {
      assert rows[k] in rows;
      EvalArithmetic(m, op, table, name, text, rows[k], columns, i);
      assert ProjectsTo(m, [e], rows[k], columns, p[k]) && StoresAt(m, [e][0], rows[k], columns, p[k][0]);
    }
  }

  // ----- stored tables -----

  /** The columns of a table have different names, and its rows their width. */
  ghost predicate Sound(s: Stored) {
    Wide(s.rows, |s.columns|) && forall i, j :: 0 <= i < j < |s.columns| ==> s.columns[i].name != s.columns[j].name
  }

  lemma {:induction false} PickRest(stored: seq<Column>, row: Row, k: nat)
    requires |row| == |stored| && k <= |stored|
             && forall i, j :: 0 <= i < j < |stored| ==> stored[i].name != stored[j].name
    ensures Pick(stored, row, stored[k..]) == row[k..]
    decreases |stored| - k
  {
    if k < |stored| {
      assert stored[k..][0] == stored[k] && stored[k..][1..] == stored[k + 1..];
      FindsNamed(stored, k, stored[k].name);
      PickRest(stored, row, k + 1);
    }
  }

  lemma {:induction false} PickWhole(stored: seq<Column>, rows: seq<Row>)
    requires Wide(rows, |stored|) && forall i, j :: 0 <= i < j < |stored| ==> stored[i].name != stored[j].name
    ensures PickAll(stored, rows, stored) == rows
  {
    if rows != [] {
      assert rows[0] in rows && forall r <- rows[1..] :: r in rows;
      PickRest(stored, rows[0], 0);
      assert stored[0..] == stored && rows[0][0..] == rows[0];
      PickWhole(stored, rows[1..]);
    }
  }

  /** SELECT * FROM t: the stored rows. */
  lemma {:induction false} ScanReturns(m: Meaning, db: Database, table: Name)
    requires table in db && Sound(db[table])
    ensures Run(m, db, Scan(table, db[table].columns)) == Rows(db[table].rows)
  {
    PickWhole(db[table].columns, db[table].rows);
  }

  /** SELECT * FROM t WHERE c < n, over any stored table: by the plan, and by the iterators built for it. */
  method SelectWhere(m: Meaning, db: Database, table: Name, op: string, name: Name, text: string,
                     i: nat) returns (res: Result)
    requires IsSql(m) && table in db && Sound(db[table]) && Comparison(op) && ParseInt(text).Some?
    requires Named(db[table].columns, i, name) && IntegerColumn(db[table].rows, db[table].columns, i)
    ensures var p := Filter(Scan(table, db[table].columns),
            Binary(op, ColumnRef(table, name), Literal("integer", text)));
            res == Run(m, db, p) == Rows(Sifted(db[table].rows, Meets(op, i, ParseInt(text).value)))
  {
    hide ParseInt, Keep, Sifted, Meets;
    var s := db[table];
    var scan := Scan(table, s.columns);
    var p := Filter(scan, Binary(op, ColumnRef(table, name), Literal("integer", text)));
    ScanReturns(m, db, table);
    FilterCompares(m, op, table, name, text, s.rows, s.columns, i);
    assert Operators.LeftDeep(Operators.TreeOf(m, db, scan));
    Operators.SteadyIsLeftDeep(Operators.TreeOf(m, db, p));
    res := Operators.RunPlan(m, db, p);
  }

  // ----- joins -----

  lemma {:induction false} OneLess(i: nat, n: nat)
    requires i > 0
    ensures i * n == n + (i - 1) * n
  {}

  lemma {:induction false} ProductSize(lefts: seq<Row>, rights: seq<Row>)
    ensures |Product(lefts, rights)| == |lefts| * |rights|
  {
    if lefts != [] {
      PairAt(lefts[0], rights, 0);
      ProductSize(lefts[1..], rights);
      OneLess(|lefts|, |rights|);
    }
  }

  /** Every left row in order, each beside every right row in order. */
  lemma {:induction false} ProductAt(lefts: seq<Row>, rights: seq<Row>, i: nat, j: nat)
    requires i < |lefts| && j < |rights|
    ensures |Product(lefts, rights)| == |lefts| * |rights|
    ensures i * |rights| + j < |Product(lefts, rights)|
            && Product(lefts, rights)[i * |rights| + j] == lefts[i] + rights[j]
  {
    hide Pair;
    ProductSize(lefts, rights);
    var at := i * |rights| + j;
    PairAt(lefts[0], rights, j);
    if i > 0 {
      OneLess(i, |rights|);
      ProductAt(lefts[1..], rights, i - 1, j);
      var all, front, more := Product(lefts, rights), Pair(lefts[0], rights), Product(lefts[1..], rights);
      assert all == front + more && |front| == |rights|;
      assert all[at] == more[at - |rights|];
    }
  }

  lemma {:induction false} PairAt(l: Row, rights: seq<Row>, j: nat)
    ensures |Pair(l, rights)| == |rights| && (j < |rights| ==> Pair(l, rights)[j] == l + rights[j])
  {
    if rights != [] { PairAt(l, rights[1..], if j > 0 then j - 1 else 0); }
  }

  /** The rows in which two numbers compare so. */
  function Related(op: string, i: nat, j: nat): Row -> bool {
    (r: Row) => i < |r| && j < |r| && r[i].Scalar? && r[j].Scalar? && Compares(op, Float(r[i].n), Float(r[j].n))
  }

  /** WHERE a = b, or ON a = b, or any other comparison of two columns. */
  lemma {:induction false} FilterColumns(m: Meaning, op: string, t: Name, a: Name, u: Name, b: Name, rows: seq<Row>,
                                         columns: seq<Column>, i: nat, j: nat)
    requires IsSql(m) && Comparison(op) && Named(columns, i, a) && Named(columns, j, b)
    requires IntegerColumn(rows, columns, i) && IntegerColumn(rows, columns, j)
    ensures Keep(m, Binary(op, ColumnRef(t, a), ColumnRef(u, b)), rows, columns)
            == Rows(Sifted(rows, Related(op, i, j)))
  {
    hide Float, Keep, Sifted;
    var e, keep := Binary(op, ColumnRef(t, a), ColumnRef(u, b)), Related(op, i, j);
    forall r | r in rows ensures Eval(m, e, r, columns).Ok? && (Eval(m, e, r, columns).d == BoolD(true) <==> keep(r)) {
      EvalColumn(m, t, a, r, columns, i);
      EvalColumn(m, u, b, r, columns, j);
    }
    KeepSifts(m, e, rows, columns, keep);
  }

  lemma {:induction false} ProductIntegers(lefts: seq<Row>, rights: seq<Row>, c: seq<Column>, d: seq<Column>, i: nat)
    requires Wide(lefts, |c|) && Wide(rights, |d|)
    requires IntegerColumn(lefts, c, i) || (i >= |c| && IntegerColumn(rights, d, i - |c|))
    ensures IntegerColumn(Product(lefts, rights), c + d, i)
  {
    forall x: Row | x in Product(lefts, rights) ensures |x| == |c + d| && (x[i].Scalar? || x[i].NullD?) {
      var l, r := FromPair(lefts, rights, x);
    }
  }

  lemma {:induction false} FromPair(lefts: seq<Row>, rights: seq<Row>, x: Row) returns (l: Row, r: Row)
    requires x in Product(lefts, rights)
    ensures l in lefts && r in rights && x == l + r
  {
    if x in Pair(lefts[0], rights) {
      l := lefts[0];
      r := FromRight(l, rights, x);
    } else {
      l, r := FromPair(lefts[1..], rights, x);
    }
  }

  lemma {:induction false} FromRight(l: Row, rights: seq<Row>, x: Row) returns (r: Row)
    requires x in Pair(l, rights)
    ensures r in rights && x == l + r
  {
    if x == l + rights[0] { r := rights[0]; } else { r := FromRight(l, rights[1..], x); }
  }

  /** SELECT * FROM t JOIN u ON a = b: by the plan, and by the iterators built for it. */
  method SelectJoin(m: Meaning, db: Database, t: Name, u: Name, op: string, a: Name, b: Name, i: nat, j: nat)
    returns (res: Result)
    requires IsSql(m) && t in db && u in db && Sound(db[t]) && Sound(db[u]) && Comparison(op)
    requires Named(db[t].columns + db[u].columns, i, a) && Named(db[t].columns + db[u].columns, |db[t].columns| + j, b)
    requires IntegerColumn(db[t].rows, db[t].columns, i) && IntegerColumn(db[u].rows, db[u].columns, j)
    ensures var p := Join(Scan(t, db[t].columns), Scan(u, db[u].columns),
            On(Binary(op, ColumnRef(t, a), ColumnRef(u, b))));
            res == Run(m, db, p)
            == Rows(Sifted(Product(db[t].rows, db[u].rows), Related(op, i, |db[t].columns| + j)))
  {
    hide Keep, Sifted, Related, Product, IntegerColumn, Named;
    var c, d := db[t].columns, db[u].columns;
    var p := Join(Scan(t, c), Scan(u, d), On(Binary(op, ColumnRef(t, a), ColumnRef(u, b))));
    ScanReturns(m, db, t);
    ScanReturns(m, db, u);
    ProductIntegers(db[t].rows, db[u].rows, c, d, i);
    ProductIntegers(db[t].rows, db[u].rows, c, d, |c| + j);
    FilterColumns(m, op, t, a, u, b, Product(db[t].rows, db[u].rows), c + d, i, |c| + j);
    assert Operators.LeftDeep(Operators.TreeOf(m, db, p));
    Operators.SteadyIsLeftDeep(Operators.TreeOf(m, db, p));
    res := Operators.RunPlan(m, db, p);
  }

  // ----- beyond 53 bits -----

  const A_AND_B := [Column("a", true), Column("b", false)]

  /** WHERE a = b keeps the row in which a is 9007199254740992 and b is 9007199254740993. */
  lemma {:induction false} BigIntegersMeet(m: Meaning)
    requires IsSql(m)
    ensures Keep(m, Binary("=", ColumnRef("t", "a"), ColumnRef("t", "b")), [[Scalar(TWO_53), Scalar(TWO_53 + 1)]],
            A_AND_B)
         == Rows([[Scalar(TWO_53), Scalar(TWO_53 + 1)]])
  {
    hide Float;
    var row: Row := [Scalar(TWO_53), Scalar(TWO_53 + 1)];
    EvalColumn(m, "t", "a", row, A_AND_B, 0);
    EvalColumn(m, "t", "b", row, A_AND_B, 1);
    FloatExact(0);
    assert [row][1..] == [];
  }
}
