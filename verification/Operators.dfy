/**
  * The iterators that carry plans out: scan, filter, projection and nested-loop
  * join (executor/filter.go, project.go, join.go).
  */
module Operators {
  import opened Planner

  /** What one call of Next hands over. */
  datatype Fetch = Got(row: Row) | Broke | Eof

  /** What an iterator has still to hand over: rows, and then the end or a failure. */
  datatype Rest = Rest(rows: seq<Row>, breaks: bool)

  const END := Rest([], false)
  const BREAK := Rest([], true)

  function Cons(row: Row, r: Rest): Rest { Rest([row] + r.rows, r.breaks) }

  /** One after the other, the second only if the first does not fail. */
  function Then(a: Rest, b: Rest): Rest { if a.breaks then a else Rest(a.rows + b.rows, b.breaks) }

  function AsResult(r: Rest): Result { if r.breaks then Failure else Rows(r.rows) }

  // ----- what is done to each row -----

  datatype Step = Emit(row: Row) | Skip | Fail

  /** Nothing; a predicate; a list of expressions. */
  datatype Stage = Pass | Where(pred: Expr, columns: seq<Column>) | Shape(exprs: seq<Expr>, columns: seq<Column>)

  function Apply(m: Meaning, stage: Stage, row: Row): Step {
    match stage
    case Pass => Emit(row)
    case Where(pred, columns) =>
      var o := Eval(m, pred, row, columns);
      if o.Err? then Fail else if o.d == BoolD(true) then Emit(row) else Skip
    case Shape(exprs, columns) =>
      var r := ProjectRow(m, exprs, row, columns);
      if r.Rows? && |r.rows| == 1 then Emit(r.rows[0]) else Fail
  }

  function Through(m: Meaning, stage: Stage, r: Rest): Rest
    decreases |r.rows|
  {
    if r.rows == [] then r
    else
      var rest := Through(m, stage, Rest(r.rows[1..], r.breaks));
      match Apply(m, stage, r.rows[0])
      case Emit(row) => Cons(row, rest)
      case Skip => rest
      case Fail => BREAK
  }

  lemma {:induction false} ThroughCons(m: Meaning, stage: Stage, row: Row, r: Rest)
    ensures Through(m, stage, Cons(row, r))
         == match Apply(m, stage, row)
            case Emit(x) => Cons(x, Through(m, stage, r))
            case Skip => Through(m, stage, r)
            case Fail => BREAK
  {
    hide Apply;
    assert Cons(row, r).rows[1..] == r.rows;
  }

  // ----- joins -----

  function Pairs(l: Row, r: Rest): Rest { Rest(Pair(l, r.rows), r.breaks) }

  /** Every left row with the same right side. */
  function Crossed(lefts: Rest, right: Rest): Rest
    decreases |lefts.rows|
  {
    if lefts.rows == [] then lefts
    else Then(Pairs(lefts.rows[0], right), Crossed(Rest(lefts.rows[1..], lefts.breaks), right))
  }

  /**
    * A join in the middle of a left row: the rest of the right side, then the
    * other left rows with the right side as it reopens.
    */
  function Joined(m: Meaning, stage: Stage, leftRow: Row, ahead: Rest, lefts: Rest, again: Rest): Rest {
    Through(m, stage, Then(Pairs(leftRow, ahead), Crossed(lefts, again)))
  }

  lemma {:induction false} NextRight(m: Meaning, stage: Stage, leftRow: Row, row: Row, ahead: Rest, lefts: Rest,
                                     again: Rest)
    ensures Joined(m, stage, leftRow, Cons(row, ahead), lefts, again)
         == match Apply(m, stage, leftRow + row)
            case Emit(x) => Cons(x, Joined(m, stage, leftRow, ahead, lefts, again))
            case Skip => Joined(m, stage, leftRow, ahead, lefts, again)
            case Fail => BREAK
  {
    hide Apply, Through, Crossed;
    var a, b := Pairs(leftRow, ahead), Crossed(lefts, again);
    assert Cons(row, ahead).rows[1..] == ahead.rows;
    assert Pairs(leftRow, Cons(row, ahead)) == Cons(leftRow + row, a);
    assert Then(Cons(leftRow + row, a), b) == Cons(leftRow + row, Then(a, b)) by {
      assert [leftRow + row] + a.rows + b.rows == [leftRow + row] + (a.rows + b.rows);
    }
    ThroughCons(m, stage, leftRow + row, Then(a, b));
  }

  lemma {:induction false} RightBreaks(m: Meaning, stage: Stage, leftRow: Row, lefts: Rest, again: Rest)
    ensures Joined(m, stage, leftRow, BREAK, lefts, again) == BREAK
  {
    hide Apply, Crossed;
  }

  /** The right side is at its end: the next left row sees it reopened. */
  lemma {:induction false} NextLeft(m: Meaning, stage: Stage, leftRow: Row, row: Row, lefts: Rest, again: Rest)
    ensures Joined(m, stage, leftRow, END, Cons(row, lefts), again) == Joined(m, stage, row, again, lefts, again)
  {
    hide Apply, Through;
    assert Cons(row, lefts).rows[1..] == lefts.rows;
    var c := Then(Pairs(row, again), Crossed(lefts, again));
    assert Pairs(leftRow, END) == END;
    assert Crossed(Cons(row, lefts), again) == c;
    assert [] + c.rows == c.rows;
  }

  lemma {:induction false} LeftEnds(m: Meaning, stage: Stage, leftRow: Row, again: Rest)
    ensures Joined(m, stage, leftRow, END, END, again) == END && Joined(m, stage, leftRow, END, BREAK, again) == BREAK
  {
    hide Apply;
  }

  // ----- trees of operators, as values -----

  datatype Tree =
    | Leaf(content: Rest)
    | Via(m: Meaning, stage: Stage, input: Tree)
    | Nest(m: Meaning, stage: Stage, left: Tree, right: Tree)

  /** No join anywhere: the iterator starts again whenever it is opened. */
  predicate Steady(t: Tree) {
    match t
    case Leaf(_) => true
    case Via(_, _, input) => Steady(input)
    case Nest(_, _, _, _) => false
  }

  /** The right side of every join is steady. */
  predicate LeftDeep(t: Tree) {
    match t
    case Leaf(_) => true
    case Via(_, _, input) => LeftDeep(input)
    case Nest(_, _, l, r) => LeftDeep(l) && Steady(r)
  }

  /** The right side of every join is left-deep, and may so hold joins. */
  predicate Bushy(t: Tree) {
    match t
    case Leaf(_) => true
    case Via(_, _, input) => Bushy(input)
    case Nest(_, _, l, r) => Bushy(l) && LeftDeep(r)
  }

  lemma {:induction false} SteadyIsLeftDeep(t: Tree)
    ensures (Steady(t) ==> LeftDeep(t)) && (LeftDeep(t) ==> Bushy(t))
  {
    match t
    case Leaf(_) =>
    case Via(_, _, input) => SteadyIsLeftDeep(input);
    case Nest(_, _, l, r) => SteadyIsLeftDeep(l); SteadyIsLeftDeep(r);
  }

  /** What a tree hands over when opened for the first time. */
  function Whole(t: Tree): Rest
    decreases t, 0
  {
    match t
    case Leaf(content) => content
    case Via(m, stage, input) => if Opens(input) then Through(m, stage, Whole(input)) else BREAK
    case Nest(m, stage, l, r) =>
      var lefts := Whole(l);
      if lefts == BREAK || !Opens(l) || !Opens(r) then BREAK
      else if lefts.rows == [] then END
      else Joined(m, stage, lefts.rows[0], Whole(r), Rest(lefts.rows[1..], lefts.breaks), Again(r))
  }

  /** Whether opening it for the first time succeeds; a join fetches its first left row on opening. */
  predicate Opens(t: Tree)
    decreases t, 0
  {
    match t
    case Leaf(_) => true
    case Via(_, _, input) => Opens(input)
    case Nest(_, _, l, r) => Opens(l) && Opens(r) && Whole(l) != BREAK
  }

  /** What it hands over when opened again after it was drained: all over, or nothing if there is a join in it. */
  function Again(t: Tree): Rest
    decreases t, 1
  {
    if Steady(t) then Whole(t) else END
  }

  lemma {:induction false} SteadyOpens(t: Tree)
    requires Steady(t)
    ensures Opens(t)
  {
    if t.Via? { SteadyOpens(t.input); }
  }

  lemma {:induction false} AgainVia(t: Tree)
    requires t.Via?
    ensures Again(t) == Through(t.m, t.stage, Again(t.input)) && (Steady(t) ==> Again(t) == Whole(t))
  {
    if Steady(t.input) { SteadyOpens(t.input); }
  }

  /** A join opened for the first time, or again. */
  lemma {:induction false} NestEdges(t: Tree)
    requires t.Nest?
    ensures Again(t) == END && !Steady(t)
    ensures Opens(t) <==> Opens(t.left) && Opens(t.right) && Whole(t.left) != BREAK
    ensures !Opens(t) ==> Whole(t) == BREAK
    ensures Opens(t) && Whole(t.left) == END ==> Whole(t) == END
  {
    hide Joined;
  }

  lemma {:induction false} NestFirst(t: Tree, row: Row, lefts: Rest)
    requires t.Nest? && Opens(t) && Whole(t.left) == Cons(row, lefts)
    ensures Whole(t) == Joined(t.m, t.stage, row, Whole(t.right), lefts, Again(t.right))
  {
    hide Joined;
    assert Cons(row, lefts).rows[1..] == lefts.rows;
  }

  // ----- the iterators -----

  datatype Kind =
    | TableScan(content: Rest)
    | OneInput(m: Meaning, stage: Stage, input: Operator)
    | NestedLoopJoin(m: Meaning, stage: Stage, left: Operator, right: Operator)

  class Operator {
    const kind: Kind
    /** Where a scan stands. */
    var at: nat
    /** A join's current left row, and whether it has come to its end. */
    var leftRow: Row
    var done: bool
    /** The operators of this tree, and the tree as a value. */
    ghost const repr: set<Operator>
    ghost const tree: Tree

    /** The operators make up the tree and are all different ones; none of this ever changes. */
    ghost predicate Shaped()
      decreases tree
    {
      match kind
      case TableScan(content) => tree == Leaf(content) && repr == {this}
      case OneInput(m, stage, input) =>
        tree == Via(m, stage, input.tree) && input.Shaped() && this !in input.repr && repr == {this} + input.repr
      case NestedLoopJoin(m, stage, left, right) =>
        && tree == Nest(m, stage, left.tree, right.tree) && left.Shaped() && right.Shaped()
        && this !in left.repr && this !in right.repr && left.repr !! right.repr
        && repr == {this} + left.repr + right.repr
    }

    constructor Scan(content: Rest)
      ensures fresh(this) && Shaped() && tree == Leaf(content) && repr == {this} && Fresh()
    {
      kind, at, leftRow, done, repr, tree := TableScan(content), 0, [], false, {this}, Leaf(content);
    }

    constructor Wrap(m: Meaning, stage: Stage, input: Operator)
      requires input.Shaped() && input.Fresh()
      ensures Shaped() && tree == Via(m, stage, input.tree) && repr == {this} + input.repr && Fresh()
    {
      kind, at, leftRow, done := OneInput(m, stage, input), 0, [], false;
      repr, tree := {this} + input.repr, Via(m, stage, input.tree);
    }

    constructor NewNestedLoopJoin(m: Meaning, stage: Stage, left: Operator, right: Operator)
      requires left.Shaped() && right.Shaped() && left.Fresh() && right.Fresh() && left.repr !! right.repr
      ensures Shaped() && tree == Nest(m, stage, left.tree, right.tree) && repr == {this} + left.repr + right.repr
              && Fresh()
    {
      kind, at, leftRow, done := NestedLoopJoin(m, stage, left, right), 0, [], false;
      repr, tree := {this} + left.repr + right.repr, Nest(m, stage, left.tree, right.tree);
    }

    /** No join in the tree has come to its end. */
    ghost predicate Fresh()
      requires Shaped()
      reads repr
      decreases tree
    {
      match kind
      case TableScan(_) => true
      case OneInput(_, _, input) => input.Fresh()
      case NestedLoopJoin(_, _, left, right) => !done && left.Fresh() && right.Fresh()
    }

    /** Drained before: every join in the tree has come to its end without a failure on its left side. */
    ghost predicate Spent()
      requires Shaped()
      reads repr
      decreases tree
    {
      match kind
      case TableScan(_) => true
      case OneInput(_, _, input) => input.Spent()
      case NestedLoopJoin(_, _, left, right) => done && left.Spent() && right.Spent() && !Again(left.tree).breaks
    }

    /** What Next has still to hand over. */
    ghost function Ahead(): Rest
      requires Shaped()
      reads repr
      decreases tree
    {
      match kind
      case TableScan(content) => if at <= |content.rows| then Rest(content.rows[at..], content.breaks) else END
      case OneInput(m, stage, input) => Through(m, stage, input.Ahead())
      case NestedLoopJoin(m, stage, left, right) =>
        if done then END else Joined(m, stage, leftRow, right.Ahead(), left.Ahead(), Again(right.tree))
    }

    /** Opened, and no failure since. */
    ghost predicate Running()
      requires Shaped()
      reads repr
      decreases tree
    {
      && (Steady(tree) ==> Ahead().breaks == Whole(tree).breaks)
      && match kind
         case TableScan(content) => at <= |content.rows|
         case OneInput(_, _, input) => input.Running()
         case NestedLoopJoin(_, _, left, right) => left.Running() && right.Running() && (done && LeftDeep(tree) ==> Spent())
    }

    lemma {:induction false} SteadyIsSpent()
      requires Shaped() && Steady(tree)
      ensures Spent()
      decreases tree
    {
      if kind.OneInput? { kind.input.SteadyIsSpent(); }
    }

    /** A join in terms of its sides. */
    lemma {:induction false} Sides()
      requires Shaped() && kind.NestedLoopJoin?
      ensures Fresh() <==> !done && kind.left.Fresh() && kind.right.Fresh()
      ensures Spent() <==> done && kind.left.Spent() && kind.right.Spent() && !Again(kind.left.tree).breaks
      ensures Running() <==> kind.left.Running() && kind.right.Running() && (done && LeftDeep(tree) ==> Spent())
      ensures Ahead() == if done then END
              else Joined(kind.m, kind.stage, leftRow, kind.right.Ahead(), kind.left.Ahead(), Again(kind.right.tree))
      ensures tree == Nest(kind.m, kind.stage, kind.left.tree, kind.right.tree) && kind.left.Shaped()
              && kind.right.Shaped()
      ensures this !in kind.left.repr && this !in kind.right.repr && kind.left.repr !! kind.right.repr
      ensures repr == {this} + kind.left.repr + kind.right.repr
    {
      hide Joined, Again;
    }

    /** Only a tree without joins is both. */
    lemma {:induction false} FreshAndSpent()
      requires Shaped() && Fresh() && Spent()
      ensures Steady(tree)
      decreases tree
    {
      if kind.OneInput? { kind.input.FreshAndSpent(); }
    }

    /** What opening leads to: the whole the first time, what is left of it once it was drained. */
    ghost function Start(): Rest
      requires Shaped()
      reads repr
    {
      if Spent() then Again(tree) else Whole(tree)
    }

    lemma {:induction false} FreshStart()
      requires Shaped() && Fresh()
      ensures Start() == Whole(tree) && (Spent() ==> Opens(tree))
    {
      if Spent() {
        FreshAndSpent();
        SteadyOpens(tree);
      }
    }

    method Open() returns (ok: bool)
      requires Shaped() && Bushy(tree) && (Fresh() || Spent())
      modifies repr
      ensures ok <==> old(Spent()) || Opens(tree)
      ensures ok ==> Running() && Ahead() == old(Start())
      ensures !ok ==> old(Start()) == BREAK
      ensures old(Spent()) ==> Spent()
      decreases tree, 1
    {
      hide Whole, Through, Joined;
      match kind {
        case TableScan(content) => ok := OpenScan();
        case OneInput(_, _, input) => ok := OpenInput();
        case NestedLoopJoin(_, _, _, _) => ok := OpenJoin();
      }
    }

    method OpenScan() returns (ok: bool)
      requires Shaped() && kind.TableScan?
      modifies this
      ensures ok && Running() && Ahead() == old(Start()) && Spent()
    {
      at := 0;
      assert kind.content.rows[0..] == kind.content.rows;
      ok := true;
    }

    method OpenInput() returns (ok: bool)
      requires Shaped() && Bushy(tree) && kind.OneInput? && (Fresh() || Spent())
      modifies repr
      ensures ok <==> old(Spent()) || Opens(tree)
      ensures ok ==> Running() && Ahead() == old(Start())
      ensures !ok ==> old(Start()) == BREAK
      ensures old(Spent()) ==> Spent()
      decreases tree, 0
    {
      hide Through, Joined, Again;
      AgainVia(tree);
      ok := kind.input.Open();
    }

    method OpenSides() returns (ok: bool)
      requires Shaped() && Bushy(tree) && kind.NestedLoopJoin?
      requires (kind.left.Fresh() || kind.left.Spent()) && (kind.right.Fresh() || kind.right.Spent())
      modifies kind.left.repr, kind.right.repr
      ensures ok <==>
        (old(kind.left.Spent()) || Opens(kind.left.tree)) && (old(kind.right.Spent()) || Opens(kind.right.tree))
      ensures ok ==> kind.left.Running() && kind.left.Ahead() == old(kind.left.Start())
      ensures ok ==> kind.right.Running() && kind.right.Ahead() == old(kind.right.Start())
      ensures (old(kind.left.Spent()) ==> kind.left.Spent()) && (old(kind.right.Spent()) ==> kind.right.Spent())
      decreases tree, 0, 0
    {
      hide Again, Whole, Opens, Operator.Fresh, Operator.Spent, Operator.Running, Operator.Ahead, Operator.Shaped,
           Operator.Start;
      Sides();
      SteadyIsLeftDeep(kind.right.tree);
      ok := kind.left.Open();
      if !ok { return; }
      ok := kind.right.Open();
    }

    method OpenJoin() returns (ok: bool)
      requires Shaped() && Bushy(tree) && kind.NestedLoopJoin? && (Fresh() || Spent())
      modifies repr
      ensures ok <==> old(Spent()) || Opens(tree)
      ensures ok ==> Running() && Ahead() == old(Start())
      ensures !ok ==> old(Start()) == BREAK
      ensures old(Spent()) ==> Spent()
      decreases tree, 0
    {
      hide Through, Joined, Again, Whole, Opens, Operator.Fresh, Operator.Spent, Operator.Running, Operator.Ahead,
           Operator.Shaped;
      var left, right := kind.left, kind.right;
      Sides();
      NestEdges(tree);
      SteadyIsLeftDeep(right.tree);
      ghost var again := Spent();
      if Fresh() { FreshStart(); left.FreshStart(); right.FreshStart(); }
      ok := OpenSides();
      if !ok { return; }
      var f := left.Next();
      match f {
        case Eof =>
          if LeftDeep(tree) { right.SteadyIsSpent(); }
          left.EndedQuietly();
          done := true;
        case Broke => ok := false;
        case Got(row) =>
          if !again { NestFirst(tree, row, left.Ahead()); }
          leftRow := row;
      }
      Sides();
    }

    /** At its end, a tree that would start again holds no failure. */
    lemma {:induction false} EndedQuietly()
      requires Shaped() && Running() && Ahead() == END
      ensures !Again(tree).breaks
    {
      hide Whole;
    }

    method Next() returns (f: Fetch)
      requires Shaped() && Bushy(tree) && Running()
      modifies repr
      ensures f.Broke? ==> old(Ahead()) == BREAK
      ensures f.Got? ==> Running() && old(Ahead()) == Cons(f.row, Ahead())
      ensures f.Eof? ==> Running() && old(Ahead()) == Ahead() == END && (LeftDeep(tree) ==> Spent())
      ensures old(Spent()) && !f.Broke? ==> Spent()
      decreases tree, 1
    {
      hide Whole, Through, Joined;
      match kind {
        case TableScan(content) => f := NextScan();
        case OneInput(_, _, input) => f := NextInput();
        case NestedLoopJoin(_, _, _, _) => f := NextJoin();
      }
    }

    method NextScan() returns (f: Fetch)
      requires Shaped() && Running() && kind.TableScan?
      modifies this
      ensures f.Broke? ==> old(Ahead()) == BREAK
      ensures f.Got? ==> Running() && old(Ahead()) == Cons(f.row, Ahead())
      ensures f.Eof? ==> Running() && old(Ahead()) == Ahead() == END
    {
      var content := kind.content;
      if at == |content.rows| { return if content.breaks then Broke else Eof; }
      f := Got(content.rows[at]);
      assert content.rows[at..] == [content.rows[at]] + content.rows[at + 1..];
      at := at + 1;
    }

    method NextInput() returns (f: Fetch)
      requires Shaped() && Bushy(tree) && Running() && kind.OneInput?
      modifies repr
      ensures f.Broke? ==> old(Ahead()) == BREAK
      ensures f.Got? ==> Running() && old(Ahead()) == Cons(f.row, Ahead())
      ensures f.Eof? ==> Running() && old(Ahead()) == Ahead() == END && (LeftDeep(tree) ==> Spent())
      ensures old(Spent()) && !f.Broke? ==> Spent()
      decreases tree, 0
    {
      hide Through, Whole;
      var m, stage, input := kind.m, kind.stage, kind.input;
      while true
        invariant input.Running() && Ahead() == old(Ahead()) && (old(Spent()) ==> Spent())
        decreases |input.Ahead().rows|
      {
        f := input.Next();
        ThroughEdges(m, stage);
        if !f.Got? { return; }
        ThroughCons(m, stage, f.row, input.Ahead());
        var s := Computed(m, stage, f.row);
        match s {
          case Emit(row) => return Got(row);
          case Skip =>
          case Fail => return Broke;
        }
      }
    }

    /** The right side is at its end: on to the next left row, the right side reopened for it. */
    method AdvanceLeft() returns (f: Fetch)
      requires Shaped() && Bushy(tree) && Running() && kind.NestedLoopJoin?
      requires !done && kind.right.Ahead() == END && kind.right.Spent()
      modifies repr
      ensures f.Broke? ==> old(Ahead()) == BREAK
      ensures f.Got?
              ==> Running() && !done && Ahead() == old(Ahead())
                  && |kind.left.Ahead().rows| < |old(kind.left.Ahead()).rows|
      ensures f.Eof? ==> Running() && done && old(Ahead()) == Ahead() == END && (LeftDeep(tree) ==> Spent())
      decreases tree, 0, 0
    {
      hide Through, Joined, Whole, Again, Operator.Fresh, Operator.Spent, Operator.Running, Operator.Ahead,
           Operator.Shaped;
      var m, stage, left, right := kind.m, kind.stage, kind.left, kind.right;
      Sides();
      SteadyIsLeftDeep(right.tree);
      LeftEnds(m, stage, leftRow, Again(right.tree));
      f := left.Next();
      if f.Broke? { return; }
      if f.Eof? {
        left.EndedQuietly();
        done := true;
        Sides();
        return;
      }
      NextLeft(m, stage, leftRow, f.row, left.Ahead(), Again(right.tree));
      leftRow := f.row;
      var ok := right.Open();
      Sides();
    }

    method NextJoin() returns (f: Fetch)
      requires Shaped() && Bushy(tree) && Running() && kind.NestedLoopJoin?
      modifies repr
      ensures f.Broke? ==> old(Ahead()) == BREAK
      ensures f.Got? ==> Running() && old(Ahead()) == Cons(f.row, Ahead())
      ensures f.Eof? ==> Running() && old(Ahead()) == Ahead() == END && (LeftDeep(tree) ==> Spent())
      ensures old(Spent()) && !f.Broke? ==> Spent()
      decreases tree, 0
    {
      hide Through, Joined, Whole, Again, Operator.Fresh, Operator.Spent, Operator.Running, Operator.Ahead,
           Operator.Shaped;
      var m, stage, left, right := kind.m, kind.stage, kind.left, kind.right;
      Sides();
      SteadyIsLeftDeep(right.tree);
      while !done
        invariant Running() && Ahead() == old(Ahead()) && (old(Spent()) ==> Spent())
        decreases !done, |left.Ahead().rows|, |right.Ahead().rows|
      {
        Sides();
        f := right.Next();
        if f.Broke? {
          RightBreaks(m, stage, leftRow, left.Ahead(), Again(right.tree));
          return;
        }
        if f.Eof? {
          Sides();
          f := AdvanceLeft();
          if !f.Got? { return; }
          Sides();
        } else {
          NextRight(m, stage, leftRow, f.row, right.Ahead(), left.Ahead(), Again(right.tree));
          Sides();
          var s := Computed(m, stage, leftRow + f.row);
          match s {
            case Emit(row) => return Got(row);
            case Skip =>
            case Fail => return Broke;
          }
        }
      }
      Sides();
      f := Eof;
    }
  }

  lemma {:induction false} ThroughEdges(m: Meaning, stage: Stage)
    ensures Through(m, stage, END) == END && Through(m, stage, BREAK) == BREAK
  {
    hide Apply;
  }

  /** One row through a stage; a projection evaluates its expressions from left to right. */
  method Computed(m: Meaning, stage: Stage, row: Row) returns (s: Step)
    ensures s == Apply(m, stage, row)
  {
    match stage {
      case Pass => s := Emit(row);
      case Where(pred, columns) =>
        var o := Eval(m, pred, row, columns);
        s := if o.Err? then Fail else if o.d == BoolD(true) then Emit(row) else Skip;
      case Shape(exprs, columns) => s := Projected(m, exprs, row, columns);
    }
  }

  method Projected(m: Meaning, exprs: seq<Expr>, row: Row, columns: seq<Column>) returns (s: Step)
    ensures s == Apply(m, Shape(exprs, columns), row)
  {
    hide Eval, ProjectRow;
    var output: Row := [];
    var i := 0;
    assert exprs[0..] == exprs;
    NothingProjected(m, exprs, row, columns);
    while i < |exprs|
      invariant 0 <= i <= |exprs|
      invariant ProjectRow(m, exprs, row, columns) == Prefixed(output, ProjectRow(m, exprs[i..], row, columns))
    {
      var o := Eval(m, exprs[i], row, columns);
      OneProjected(m, exprs, row, columns, i, output);
      if o.Err? { return Fail; }
      output := output + [ToValue(o.d)];
      i := i + 1;
    }
    AllProjected(m, row, columns);
    assert exprs[i..] == [] && output + [] == output;
    return Emit(output);
  }

  ghost function Prefixed(output: Row, r: Result): Result {
    if r.Rows? && |r.rows| == 1 then Rows([output + r.rows[0]]) else r
  }

  lemma {:induction false} NothingProjected(m: Meaning, exprs: seq<Expr>, row: Row, columns: seq<Column>)
    ensures var r := ProjectRow(m, exprs, row, columns); Prefixed([], r) == r
  {
    ProjectRowWide(m, exprs, row, columns);
    var r := ProjectRow(m, exprs, row, columns);
    if r.Rows? { assert [] + r.rows[0] == r.rows[0]; }
  }

  lemma {:induction false} OneProjected(m: Meaning, exprs: seq<Expr>, row: Row, columns: seq<Column>, i: nat,
                                        output: Row)
    requires i < |exprs|
    ensures var o, rest := Eval(m, exprs[i], row, columns), ProjectRow(m, exprs[i + 1..], row, columns);
            Prefixed(output, ProjectRow(m, exprs[i..], row, columns)) == if o.Err? then Failure
                else Prefixed(output + [ToValue(o.d)], rest)
  {
    hide Eval;
    ProjectRowWide(m, exprs[i + 1..], row, columns);
    assert exprs[i..][1..] == exprs[i + 1..];
    var o, rest := Eval(m, exprs[i], row, columns), ProjectRow(m, exprs[i + 1..], row, columns);
    if o.Ok? && rest.Rows? {
      assert output + ([ToValue(o.d)] + rest.rows[0]) == output + [ToValue(o.d)] + rest.rows[0];
    }
  }

  lemma {:induction false} AllProjected(m: Meaning, row: Row, columns: seq<Column>)
    ensures ProjectRow(m, [], row, columns) == Rows([[]])
  {}

  // ----- draining -----

  /** Rows already handed over, and what is still to come. */
  function After(rows: seq<Row>, r: Rest): Rest { Rest(rows + r.rows, r.breaks) }

  lemma {:induction false} AfterRows(rows: seq<Row>, row: Row, r: Rest)
    ensures After([], r) == r && After(rows, Cons(row, r)) == After(rows + [row], r)
    ensures AsResult(After(rows, END)) == Rows(rows) && AsResult(After(rows, BREAK)) == Failure
  {
    assert [] + r.rows == r.rows && rows + ([row] + r.rows) == rows + [row] + r.rows && rows + [] == rows;
  }

  /** Opens an operator and calls Next until the end or the first failure. */
  method CollectRows(op: Operator) returns (r: Result)
    requires op.Shaped() && Bushy(op.tree) && (op.Fresh() || op.Spent())
    modifies op.repr
    ensures r == AsResult(old(op.Start()))
    ensures r.Rows? && LeftDeep(op.tree) ==> op.Spent()
  {
    hide Whole, Again, After, AsResult, Operator.Fresh, Operator.Spent, Operator.Running, Operator.Ahead,
         Operator.Shaped,
         Operator.Start, Opens, Bushy, LeftDeep;
    var ok := op.Open();
    var rows: seq<Row> := [];
    AfterRows(rows, [], BREAK);
    if !ok { return Failure; }
    ghost var all := op.Ahead();
    AfterRows(rows, [], all);
    while true
      invariant op.Running() && all == After(rows, op.Ahead())
      decreases |op.Ahead().rows|
    {
      var f := op.Next();
      AfterRows(rows, if f.Got? then f.row else [], op.Ahead());
      match f {
        case Broke => return Failure;
        case Eof => return Rows(rows);
        case Got(row) => rows := rows + [row];
      }
    }
  }

  /**
    * Drained, and drained again any number of times: a tree without joins gives
    * the same rows every time, one with a join in it nothing any more.
    */
  method DrainAgain(op: Operator, times: nat) returns (first: Result, later: seq<Result>)
    requires op.Shaped() && LeftDeep(op.tree) && op.Fresh()
    modifies op.repr
    ensures first == AsResult(Whole(op.tree))
    ensures first.Rows? ==> |later| == times && forall r <- later :: r == if Steady(op.tree) then first else Rows([])
  {
    hide Whole, Operator.Fresh, Operator.Spent, Operator.Shaped;
    SteadyIsLeftDeep(op.tree);
    op.FreshStart();
    first := CollectRows(op);
    later := [];
    if first.Failure? { return; }
    while |later| < times
      invariant op.Spent() && |later| <= times
      invariant forall r <- later :: r == if Steady(op.tree) then first else Rows([])
    {
      var r := CollectRows(op);
      later := later + [r];
    }
  }

  // ----- the iterators carry out the plan -----

  function StageOf(c: Condition, columns: seq<Column>): Stage { if c.Always? then Pass else Where(c.expr, columns) }

  /** The operators for a plan, as a value. */
  function TreeOf(m: Meaning, db: Database, p: Plan): Tree {
    match p
    case Scan(table, columns) =>
      Leaf(if table in db then Rest(PickAll(db[table].columns, db[table].rows, columns), false) else BREAK)
    case Filter(child, pred) => Via(m, Where(pred, OutputColumns(child)), TreeOf(m, db, child))
    case Join(l, r, c) => Nest(m, StageOf(c, OutputColumns(l) + OutputColumns(r)), TreeOf(m, db, l), TreeOf(m, db, r))
    case Project(child, exprs) => Via(m, Shape(exprs, OutputColumns(child)), TreeOf(m, db, child))
  }

  method Build(m: Meaning, db: Database, p: Plan) returns (op: Operator)
    ensures op.Shaped() && op.Fresh() && op.tree == TreeOf(m, db, p) && fresh(op.repr)
  {
    if p.Scan? {
      var content := if p.table in db then Rest(PickAll(db[p.table].columns, db[p.table].rows, p.columns), false)
          else BREAK;
      op := new Operator.Scan(content);
    } else if p.Filter? {
      var input := Build(m, db, p.child);
      op := new Operator.Wrap(m, Where(p.pred, OutputColumns(p.child)), input);
    } else if p.Project? {
      var input := Build(m, db, p.child);
      op := new Operator.Wrap(m, Shape(p.exprs, OutputColumns(p.child)), input);
    } else {
      var left := Build(m, db, p.left);
      var right := Build(m, db, p.right);
      var stage := StageOf(p.condition, OutputColumns(p.left) + OutputColumns(p.right));
      op := new Operator.NewNestedLoopJoin(m, stage, left, right);
    }
  }

  /** The rows that pass the condition. */
  function KeepOn(m: Meaning, c: Condition, rows: seq<Row>, columns: seq<Column>): Result {
    if c.Always? then Rows(rows) else Keep(m, c.expr, rows, columns)
  }

  lemma {:induction false} ThroughKeeps(m: Meaning, c: Condition, rows: seq<Row>, columns: seq<Column>)
    ensures AsResult(Through(m, StageOf(c, columns), Rest(rows, false))) == KeepOn(m, c, rows, columns)
    decreases |rows|
  {
    hide Eval;
    if rows != [] {
      var stage, rest := StageOf(c, columns), Rest(rows[1..], false);
      ThroughKeeps(m, c, rows[1..], columns);
      assert [rows[0]] + rows[1..] == rows;
      assert Cons(rows[0], rest) == Rest(rows, false);
      ThroughCons(m, stage, rows[0], rest);
    }
  }

  lemma {:induction false} ThroughProjects(m: Meaning, exprs: seq<Expr>, rows: seq<Row>, columns: seq<Column>)
    ensures AsResult(Through(m, Shape(exprs, columns), Rest(rows, false))) == ProjectAll(m, exprs, rows, columns)
    decreases |rows|
  {
    hide ProjectRow;
    if rows != [] {
      var rest := Rest(rows[1..], false);
      ThroughProjects(m, exprs, rows[1..], columns);
      ProjectRowWide(m, exprs, rows[0], columns);
      assert [rows[0]] + rows[1..] == rows;
      assert Cons(rows[0], rest) == Rest(rows, false);
      ThroughCons(m, Shape(exprs, columns), rows[0], rest);
    }
  }

  /**
    * Rows the iterators pair up: all of them, or with a right side that does
    * not restart only those of the first left row.
    */
  function Paired(lefts: seq<Row>, rights: seq<Row>, restarts: bool): seq<Row> {
    if restarts then Product(lefts, rights) else if lefts == [] then [] else Pair(lefts[0], rights)
  }

  lemma {:induction false} CrossedRows(lefts: seq<Row>, rights: seq<Row>)
    ensures Crossed(Rest(lefts, false), Rest(rights, false)) == Rest(Product(lefts, rights), false)
    ensures Crossed(Rest(lefts, false), END) == END
    decreases |lefts|
  {
    if lefts != [] {
      CrossedRows(lefts[1..], rights);
      assert Pair(lefts[0], []) == [];
    }
  }

  /** A join of two sides that do not fail. */
  lemma {:induction false} NestYields(t: Tree, lefts: seq<Row>, rights: seq<Row>)
    requires t.Nest? && Opens(t.left) && Opens(t.right) && Whole(t.left) == Rest(lefts, false)
             && Whole(t.right) == Rest(rights, false)
    ensures Opens(t) && Whole(t) == Through(t.m, t.stage, Rest(Paired(lefts, rights, Steady(t.right)), false))
  {
    hide Through, Crossed, Product, Pair;
    NestEdges(t);
    if lefts == [] {
      ThroughEdges(t.m, t.stage);
      NoProduct(rights);
    } else {
      var rest := Rest(lefts[1..], false);
      assert Cons(lefts[0], rest) == Rest(lefts, false) by { assert [lefts[0]] + lefts[1..] == lefts; }
      NestFirst(t, lefts[0], rest);
      CrossedRows(lefts[1..], rights);
      ProductStep(lefts, rights);
    }
  }

  lemma {:induction false} NoProduct(rights: seq<Row>)
    ensures Product([], rights) == []
  {}

  lemma {:induction false} ProductStep(lefts: seq<Row>, rights: seq<Row>)
    requires lefts != []
    ensures Product(lefts, rights) == Pair(lefts[0], rights) + Product(lefts[1..], rights)
    ensures Pair(lefts[0], rights) + [] == Pair(lefts[0], rights)
  {}

  /** The operators of a left-deep plan that does not fail hand over its rows. */
  lemma {:induction false} LeftDeepRuns(m: Meaning, db: Database, p: Plan)
    requires LeftDeep(TreeOf(m, db, p)) && Run(m, db, p).Rows?
    ensures Opens(TreeOf(m, db, p)) && Whole(TreeOf(m, db, p)) == Rest(Run(m, db, p).rows, false)
  {
    hide Through, Keep, ProjectAll, Product;
    match p
    case Scan(_, _) =>
    case Filter(child, pred) =>
      LeftDeepRuns(m, db, child);
      ThroughKeeps(m, On(pred), Run(m, db, child).rows, OutputColumns(child));
    case Project(child, exprs) =>
      LeftDeepRuns(m, db, child);
      ThroughProjects(m, exprs, Run(m, db, child).rows, OutputColumns(child));
    case Join(l, r, c) =>
      SteadyIsLeftDeep(TreeOf(m, db, r));
      LeftDeepRuns(m, db, l);
      LeftDeepRuns(m, db, r);
      NestYields(TreeOf(m, db, p), Run(m, db, l).rows, Run(m, db, r).rows);
      ThroughKeeps(m, c, Product(Run(m, db, l).rows, Run(m, db, r).rows), OutputColumns(l) + OutputColumns(r));
  }

  /**
    * Builds the operators of a plan and drains them. Where every join has a
    * right side without joins and the plan does not fail, they give its rows.
    */
  method RunPlan(m: Meaning, db: Database, p: Plan) returns (res: Result)
    requires Bushy(TreeOf(m, db, p))
    ensures res == AsResult(Whole(TreeOf(m, db, p)))
    ensures LeftDeep(TreeOf(m, db, p)) && Run(m, db, p).Rows? ==> res == Run(m, db, p)
  {
    hide Whole, TreeOf, Run;
    var op := Build(m, db, p);
    op.FreshStart();
    res := CollectRows(op);
    if LeftDeep(TreeOf(m, db, p)) && Run(m, db, p).Rows? { LeftDeepRuns(m, db, p); }
  }

  lemma {:induction false} KeepConcat(m: Meaning, c: Condition, a: seq<Row>, b: seq<Row>, columns: seq<Column>)
    ensures var x, y := KeepOn(m, c, a, columns), KeepOn(m, c, b, columns);
            KeepOn(m, c, a + b, columns) == if x.Failure? || y.Failure? then Failure else Rows(x.rows + y.rows)
  {
    hide Eval;
    if c.On? {
      if a == [] {
        assert a + b == b;
        var y := Keep(m, c.expr, b, columns);
        if y.Rows? { assert [] + y.rows == y.rows; }
      } else {
        assert (a + b)[1..] == a[1..] + b && (a + b)[0] == a[0];
        KeepConcat(m, c, a[1..], b, columns);
        var x, y := Keep(m, c.expr, a[1..], columns), Keep(m, c.expr, b, columns);
        if x.Rows? && y.Rows? { assert [a[0]] + (x.rows + y.rows) == [a[0]] + x.rows + y.rows; }
      }
    }
  }

  /** What the left rows after the first contribute to the plan is lost, unless it is nothing or the first one fails. */
  lemma {:induction false} PairedAgree(m: Meaning, c: Condition, lefts: seq<Row>, rights: seq<Row>, restarts: bool,
                                       columns: seq<Column>)
    ensures KeepOn(m, c, Paired(lefts, rights, restarts), columns) == KeepOn(m, c, Product(lefts, rights), columns) <==>
            restarts || lefts == [] || KeepOn(m, c, Pair(lefts[0], rights), columns).Failure?
            || KeepOn(m, c, Product(lefts[1..], rights), columns) == Rows([])
  {
    hide KeepOn, Pair, Product;
    if lefts == [] {
      NoProduct(rights);
    } else {
      ProductStep(lefts, rights);
      KeepConcat(m, c, Pair(lefts[0], rights), Product(lefts[1..], rights), columns);
    }
  }

  /**
    * A join whose right side may hold joins: its iterators give the rows of the
    * plan exactly when the right side holds none, or the left rows after the
    * first contribute neither a row nor a failure, or the first fails already.
    */
  method RunJoin(m: Meaning, db: Database, l: Plan, r: Plan, c: Condition) returns (res: Result)
    requires LeftDeep(TreeOf(m, db, l)) && LeftDeep(TreeOf(m, db, r)) && Run(m, db, l).Rows? && Run(m, db, r).Rows?
    ensures var lefts, rights, columns := Run(m, db, l).rows, Run(m, db, r).rows, OutputColumns(l) + OutputColumns(r);
            && res == KeepOn(m, c, Paired(lefts, rights, Steady(TreeOf(m, db, r))), columns)
            && (res == Run(m, db, Join(l, r, c)) <==>
                  Steady(TreeOf(m, db, r)) || lefts == [] || KeepOn(m, c, Pair(lefts[0], rights), columns).Failure?
                  || KeepOn(m, c, Product(lefts[1..], rights), columns) == Rows([]))
  {
    hide Whole, Through, Keep, Product, Pair, Paired;
    var lefts, rights, columns := Run(m, db, l).rows, Run(m, db, r).rows, OutputColumns(l) + OutputColumns(r);
    SteadyIsLeftDeep(TreeOf(m, db, l));
    res := RunPlan(m, db, Join(l, r, c));
    LeftDeepRuns(m, db, l);
    LeftDeepRuns(m, db, r);
    NestYields(TreeOf(m, db, Join(l, r, c)), lefts, rights);
    ThroughKeeps(m, c, Paired(lefts, rights, Steady(TreeOf(m, db, r))), columns);
    PairedAgree(m, c, lefts, rights, Steady(TreeOf(m, db, r)), columns);
  }

  // ----- rows lost -----

  const KEY := [Column("id", true)]
  const THREE: Database := map["a" := Stored(KEY, [[Scalar(1)], [Scalar(2)]]), "b" := Stored(KEY, [[Scalar(3)]]),
      "c" := Stored(KEY, [[Scalar(4)]])]
  const BOTH := Join(Scan("b", KEY), Scan("c", KEY), Always)

  lemma {:induction false} PickKey(rows: seq<Row>)
    requires Wide(rows, 1)
    ensures PickAll(KEY, rows, KEY) == rows
    decreases |rows|
  {
    if rows != [] {
      assert rows[0] in rows && forall r <- rows[1..] :: r in rows;
      PickKey(rows[1..]);
      assert KEY[1..] == [] && FindColumn(KEY, "id") == 0;
      assert Pick(KEY, rows[0], KEY) == [rows[0][0]] + [] == rows[0];
      assert [rows[0]] + rows[1..] == rows;
    }
  }

  lemma {:induction false} ScanThree(m: Meaning)
    ensures Run(m, THREE, Scan("a", KEY)) == Rows([[Scalar(1)], [Scalar(2)]])
    ensures Run(m, THREE, Scan("b", KEY)) == Rows([[Scalar(3)]]) && Run(m, THREE, Scan("c", KEY)) == Rows([[Scalar(4)]])
  {
    PickKey([[Scalar(1)], [Scalar(2)]]);
    PickKey([[Scalar(3)]]);
    PickKey([[Scalar(4)]]);
  }

  lemma {:induction false} ProductOfTwo(a: Row, b: Row, c: Row)
    ensures Pair(a, [c]) == [a + c] && Product([a], [c]) == [a + c] && Product([a, b], [c]) == [a + c, b + c]
  {
    assert [c][1..] == [] && [a][1..] == [] && [b][1..] == [] && [a, b][1..] == [b];
    assert Pair(b, [c]) == [b + c];
    assert Product([], [c]) == [];
    assert Product([b], [c]) == [b + c];
  }

  lemma {:induction false} RunBoth(m: Meaning)
    ensures Run(m, THREE, BOTH) == Rows([[Scalar(3), Scalar(4)]])
    ensures LeftDeep(TreeOf(m, THREE, BOTH)) && !Steady(TreeOf(m, THREE, BOTH))
  {
    hide PickAll;
    ScanThree(m);
    ProductOfTwo([Scalar(3)], [], [Scalar(4)]);
    assert [Scalar(3)] + [Scalar(4)] == [Scalar(3), Scalar(4)];
  }

  /** One row on each side: joined the first time, nothing when the same join is opened again. */
  method ReopenedJoinIsEmpty(m: Meaning) returns (first: Result, later: seq<Result>)
    ensures first == Rows([[Scalar(3), Scalar(4)]]) && later == [Rows([])]
  {
    hide Whole, TreeOf, Run;
    RunBoth(m);
    var op := Build(m, THREE, BOTH);
    LeftDeepRuns(m, THREE, BOTH);
    first, later := DrainAgain(op, 1);
    assert later[0] in later;
  }

  /** A join over a join: the second left row finds the right side spent, and its row is lost. */
  method NestedJoinLosesRow(m: Meaning) returns (res: Result)
    ensures res == Rows([[Scalar(1), Scalar(3), Scalar(4)]])
    ensures Run(m, THREE, Join(Scan("a", KEY), BOTH, Always))
            == Rows([[Scalar(1), Scalar(3), Scalar(4)], [Scalar(2), Scalar(3), Scalar(4)]])
  {
    hide PickAll;
    ScanThree(m);
    RunBoth(m);
    var a, b, r: Row := [Scalar(1)], [Scalar(2)], [Scalar(3), Scalar(4)];
    ProductOfTwo(a, b, r);
    assert a + r == [Scalar(1), Scalar(3), Scalar(4)] && b + r == [Scalar(2), Scalar(3), Scalar(4)];
    res := RunJoin(m, THREE, Scan("a", KEY), BOTH, Always);
  }
}
