/**
  * Runs of statements, and a failed UPDATE (executor/insert.go,
  * executor/update.go, executor/delete.go, executor/fk.go).
  */
module DmlTheorems {
  import opened Relations
  import Cascades
  import opened Outcomes
  import opened Updates
  import opened Dml

  datatype Statement =
    | Insert(table: Name, values: seq<Built>)
    | Delete(table: Name, where: Row -> Verdict)
    | Update(table: Name, assignments: seq<Assignment>, where: Row -> Verdict)

  /** Rows built for an INSERT have the width of their table. */
  ghost predicate WellBuilt(s: Schema, st: Statement) {
    st.Insert? && st.table in s ==> forall v <- st.values :: v.Built? ==> |v.row| == |s[st.table].columns|
  }

  /** The first `n` rows are there, all of them exactly when, indexes being right, every one can go in. */
  ghost predicate InsertedUpTo(def: TableDef, a: Data, b: Data, t: Name, values: seq<Built>, ok: bool, n: nat,
                               sound: bool) {
    && t in a && n <= |values| && (ok ==> n == |values|) && b == a[t := Added(a[t], def.pk, values[..n])]
    && (def.indexes == [] || sound ==> (ok <==> forall i: nat :: i < |values| ==> Enters(def, a, t, values, i)))
  }

  ghost predicate Inserts(s: Schema, a: Data, b: Data, st: Statement, ok: bool, sound: bool)
    requires st.Insert? && st.table in s
  {
    exists n: nat :: InsertedUpTo(s[st.table], a, b, st.table, st.values, ok, n, sound)
  }

  ghost predicate Deletes(s: Schema, a: Data, b: Data, st: Statement, ok: bool, sound: bool)
    requires st.Delete? && st.table in s
  {
    && Shrinks(a, b) && st.table in a
    && (ok ==> NeverFails(a, st.table, st.where) && Cascades.Deleted(s, a, b, st.table, Selected(a[st.table], st.where)))
    && (Deletable(s, a, st.table, st.where, sound) ==> ok)
    && (AllReady(s, sound) && Unmixed(s) ==> (ok <==> Deletable(s, a, st.table, st.where, sound)))
  }

  ghost predicate UpdateOk(s: Schema, a: Data, b: Data, t: Name, selected: set<Key>, assignments: seq<Assignment>,
                           ok: bool, evaluated: bool, sound: bool)
    requires t in s && t in a && t in b
  {
    && (ok ==> Updated(a[t], b[t], s[t].pk, selected, assignments) && OthersUpdated(s, a, b, t, s[t].pk, selected, assignments))
    && (ok ==> evaluated && Updatable(s, a, t, selected, assignments))
    && (ok && sound ==> IndexFits(s[t], a[t], selected, assignments))
    && (evaluated && ReadyAround(s, t, sound) && Updatable(s, a, t, selected, assignments)
            && IndexFits(s[t], a[t], selected, assignments)
        ==> ok)
    && (!Breakable(s, a, t, selected, assignments, sound) ==> Integrity(s, b))
    && (evaluated && ReadyAround(s, t, sound) && MustDangle(s, a, t, selected, assignments) ==> !ok && !Integrity(s, b))
    && (evaluated && ReadyAround(s, t, sound) && Loses(s, a, t, selected, assignments)
       ==> !ok && b[t] == a[t] - selected)
  }

  ghost predicate Changes(s: Schema, a: Data, b: Data, st: Statement, ok: bool, sound: bool)
    requires st.Update? && st.table in s
  {
    && st.table in a && st.table in b && OtherKeysSame(s, a, b, st.table)
    && UpdateOk(s, a, b, st.table, Selected(a[st.table], st.where), st.assignments, ok,
       NeverFails(a, st.table, st.where), sound)
  }

  /** What one statement does to the data, and whether it succeeds; `sound` says that the indexes are right. */
  ghost predicate Does(s: Schema, a: Data, b: Data, st: Statement, ok: bool, sound: bool) {
    if st.table !in s then !ok && a == b
    else match st
      case Insert(_, _) => Inserts(s, a, b, st, ok, sound)
      case Delete(_, _) => Deletes(s, a, b, st, ok, sound)
      case Update(_, _, _) => Changes(s, a, b, st, ok, sound)
  }

  /** One statement. Only a failing UPDATE may leave a reference dangling. */
  method Execute(e: Executor, st: Statement) returns (ok: bool)
    requires e.Valid() && WellBuilt(e.schema, st)
    modifies e
    ensures e.Sound() && (ok || !st.Update? ==> e.Valid())
    ensures Does(e.schema, old(e.data), e.data, st, ok, old(e.Indexed()))
    ensures ok && old(e.Indexed()) ==> e.Indexed()
  {
    hide SchemaOk, DataOk, Integrity, IndexesExist, IndexesOk, Updated, OthersUpdated, Cascades.Deleted, Shrinks,
         Acceptable, Updatable, Breakable,
         ReadyAround, OtherKeysSame, Deletable, NeverFails, Loses, MustDangle, Added, Enters, IndexFits, AllReady,
             Unmixed;
    if st.table in e.schema { TableRowsOk(e.schema, e.data, st.table); }
    match st {
      case Insert(t, values) =>
        ghost var n;
        ok, n := e.ExecuteInsert(t, values);
        if t in e.schema { assert InsertedUpTo(e.schema[t], old(e.data), e.data, t, values, ok, n, old(e.Indexed())); }
      case Delete(t, where) => ok := e.ExecuteDelete(t, where);
      case Update(t, assignments, where) => ok := e.ExecuteUpdate(t, assignments, where);
    }
  }

  /** A state on the way: the rows, and whether the indexes are right. */
  datatype Stage = Stage(data: Data, sound: bool)

  /** The i-th statement led from the i-th state to the next; where it succeeded, indexes that were right still are. */
  ghost predicate StepAt(s: Schema, trace: seq<Stage>, statements: seq<Statement>, oks: seq<bool>, i: nat) {
    && i < |statements| && i < |oks| && i + 1 < |trace|
    && Does(s, trace[i].data, trace[i + 1].data, statements[i], oks[i], trace[i].sound)
    && (oks[i] && trace[i].sound ==> trace[i + 1].sound)
  }

  /** The last statement was an UPDATE that failed. */
  ghost predicate Stopped(statements: seq<Statement>, oks: seq<bool>) {
    0 < |oks| <= |statements| && statements[|oks| - 1].Update? && !oks[|oks| - 1]
  }

  /**
    * Statements one after the other, past failing INSERTs and DELETEs, up to an
    * UPDATE that fails. The states in between are related statement by
    * statement; references and indexes stay right.
    */
  method RunAll(e: Executor, statements: seq<Statement>) returns (oks: seq<bool>, ghost trace: seq<Stage>)
    requires e.Valid() && forall st <- statements :: WellBuilt(e.schema, st)
    modifies e
    ensures |oks| <= |statements| && (|oks| == |statements| || Stopped(statements, oks))
    ensures |trace| == |oks| + 1 && trace[0] == Stage(old(e.data), old(e.Indexed()))
            && trace[|oks|] == Stage(e.data, e.Indexed())
    ensures forall i: nat :: i < |oks| ==> StepAt(e.schema, trace, statements, oks, i)
    ensures e.Sound() && (!Stopped(statements, oks) ==> e.Valid())
    ensures (forall i :: 0 <= i < |oks| ==> oks[i]) && old(e.Indexed()) ==> e.Indexed()
  {
    hide SchemaOk, DataOk, Integrity, IndexesExist, IndexesOk, Does, WellBuilt;
    oks, trace := [], [Stage(e.data, e.Indexed())];
    while |oks| < |statements|
      invariant |oks| <= |statements| && e.Valid() && !Stopped(statements, oks)
      invariant |trace| == |oks| + 1 && trace[0] == Stage(old(e.data), old(e.Indexed()))
                && trace[|oks|] == Stage(e.data, e.Indexed())
      invariant forall i: nat :: i < |oks| ==> StepAt(e.schema, trace, statements, oks, i)
      invariant (forall i :: 0 <= i < |oks| ==> oks[i]) && old(e.Indexed()) ==> e.Indexed()
      decreases |statements| - |oks|
    {
      var st := statements[|oks|];
      assert st in statements;
      var ok := Execute(e, st);
      ghost var n, was := |oks|, oks;
      OneMoreStep(e.schema, trace, statements, oks, Stage(e.data, e.Indexed()), ok);
      oks, trace := oks + [ok], trace + [Stage(e.data, e.Indexed())];
      assert oks[n] == ok && forall i :: 0 <= i < n ==> oks[i] == was[i];
      if !ok && st.Update? { return; }
    }
  }

  lemma {:induction false} OneMoreStep(s: Schema, trace: seq<Stage>, statements: seq<Statement>, oks: seq<bool>,
                                       d: Stage, 
                                       ok: bool)
    requires |oks| < |statements| && |trace| == |oks| + 1
             && forall i: nat :: i < |oks| ==> StepAt(s, trace, statements, oks, i)
    requires Does(s, trace[|oks|].data, d.data, statements[|oks|], ok, trace[|oks|].sound)
    requires ok && trace[|oks|].sound ==> d.sound
    ensures forall i: nat :: i < |oks| + 1 ==> StepAt(s, trace + [d], statements, oks + [ok], i)
  {
    hide Does;
    forall i: nat | i < |oks| + 1 ensures StepAt(s, trace + [d], statements, oks + [ok], i) {
      if i < |oks| { assert StepAt(s, trace, statements, oks, i); }
    }
  }

  // ----- an UPDATE that strands a reference -----

  const ID := Column(true, true)
  const REF := Column(false, true)
  const PARENT := TableDef([ID], 0, [], [])
  /** Two references to the parent: one follows a change of its key, the other refuses it. */
  const CHILD := TableDef([ID, REF, REF], 0,
      [ForeignKey(1, "p", Cascade, Cascade), ForeignKey(2, "p", Restrict, Restrict)], [])

  const TWO_TABLES: Schema := map["p" := PARENT, "c" := CHILD]
  const RANKS: map<Name, nat> := map["c" := 0, "p" := 1]
  const FAMILY: Data := map["p" := map["1" := [Val("1")]], "c" := map["x" := [Val("x"), Val("1"), Val("1")]]]

  lemma {:induction false} ExampleSchema()
    ensures SchemaOk(TWO_TABLES, RANKS) && forall sound :: ReadyAround(TWO_TABLES, "p", sound)
  {
    hide TableOk;
    forall t | t in TWO_TABLES ensures (t == "p" && TWO_TABLES[t] == PARENT) || (t == "c" && TWO_TABLES[t] == CHILD) {}
    assert TableOk(PARENT) by { ParentOk(); }
    assert TableOk(CHILD) by { ChildOk(); }
  }

  lemma {:induction false} ParentOk()
    ensures TableOk(PARENT)
  {}

  lemma {:induction false} ChildOk()
    ensures TableOk(CHILD)
  {}

  lemma {:induction false} ParentFits(d: Data)
    requires "p" in d && d["p"] == map[]
    ensures Acceptable(PARENT, d, "p", [Val("1")]) && Keyed(PARENT, [Val("1")])
  {}

  lemma {:induction false} ChildFits(d: Data)
    requires "p" in d && "1" in d["p"] && "c" in d && d["c"] == map[]
    ensures Acceptable(CHILD, d, "c", [Val("x"), Val("1"), Val("1")]) && Keyed(CHILD, [Val("x"), Val("1"), Val("1")])
  {}

  lemma {:induction false} OneAdded(d: Data, t: Name, row: Row)
    requires t in d && d[t] == map[] && row != [] && row[0].Val?
    ensures var values := [Built(row)];
            d[t := Added(d[t], 0, values[..1])] == d[t := map[row[0].key := row]]
                && d[t := Added(d[t], 0, values[..0])] == d
  {
    var values := [Built(row)];
    assert values[..1] == values && values[..0] == [] && values[..|values| - 1] == [];
    assert Added(map[], 0, []) == map[];
  }

  /** One INSERT of an acceptable row, with keys for the indexes, into its empty table. */
  method Fill(e: Executor, t: Name, row: Row)
    requires e.Valid() && t in e.schema && t in e.data && e.data[t] == map[] && e.schema[t].pk == 0
             && e.Indexed() && Keyed(e.schema[t], row)
    requires |row| == |e.schema[t].columns| && row != [] && row[0].Val? && Acceptable(e.schema[t], e.data, t, row)
    modifies e
    ensures e.Valid() && e.Indexed() && t in old(e.data) && e.data == old(e.data)[t := map[row[0].key := row]]
  {
    hide SchemaOk, DataOk, Integrity, IndexesExist, IndexesOk, Acceptable, Added;
    var values := [Built(row)];
    OneAdded(e.data, t, row);
    assert Enters(e.schema[t], e.data, t, values, 0);
    var ok, n := e.ExecuteInsert(t, values);
  }

  /** A parent and a child that refers to it twice. */
  method Example() returns (e: Executor)
    ensures fresh(e) && e.Valid() && e.schema == TWO_TABLES && e.data == FAMILY
  {
    hide SchemaOk, DataOk, Integrity, IndexesExist, IndexesOk, Acceptable, ReadyAround;
    ExampleSchema();
    e := new Executor(TWO_TABLES, RANKS);
    TablesThere(e.schema, e.data);
    ParentFits(e.data);
    Fill(e, "p", [Val("1")]);
    ChildFits(e.data);
    Fill(e, "c", [Val("x"), Val("1"), Val("1")]);
    FamilyIs(e.data);
  }

  lemma {:induction false} FamilyIs(d: Data)
    requires (forall t :: t in d <==> t in TWO_TABLES) && d["p"] == FAMILY["p"] && d["c"] == FAMILY["c"]
    ensures d == FAMILY
  {
    forall t ensures t in d <==> t in FAMILY { assert t in TWO_TABLES <==> t == "p" || t == "c"; }
  }

  lemma {:induction false} ChildCarries()
    ensures CarriesFirst(CHILD, FAMILY["c"], "p", "1", 0) && !Followable(CHILD, FAMILY["c"], "p", "1")
  {
    var rows := FAMILY["c"];
    assert rows["x"] == [Val("x"), Val("1"), Val("1")] && "x" in rows;
    assert HeldAt(CHILD, rows, 0, "1");
    assert !NoRef(rows, 2, "1");
    assert Refuses(CHILD, CHILD.fks[1], Restrict) && CHILD.fks[1].parent == "p";
    assert Blocks(CHILD, rows, CHILD.fks[1], "1");
  }

  lemma {:induction false} FamilyStrands()
    ensures CarriedThenRefused(TWO_TABLES, FAMILY, "p", "1")
  {
    hide CarriesFirst, Followable;
    ChildCarries();
    StrangerFollows(PARENT, FAMILY["p"], "p", "1");
    assert "c" in TWO_TABLES && TWO_TABLES["c"] == CHILD;
    forall u | u in TWO_TABLES && u in FAMILY && !Followable(TWO_TABLES[u], FAMILY[u], "p", "1")
      ensures exists i: nat :: CarriesFirst(TWO_TABLES[u], FAMILY[u], "p", "1", i)
    {
      assert u == "c";
    }
  }

  lemma {:induction false} FamilyDangles(where: Row -> Verdict)
    requires where([Val("1")]) == Yes
    ensures NeverFails(FAMILY, "p", where) && Selected(FAMILY["p"], where) == {"1"}
    ensures MustDangle(TWO_TABLES, FAMILY, "p", {"1"}, [Assign(0, Val("2"))])
  {
    hide CarriedThenRefused;
    var set2, row: Row := [Assign(0, Val("2"))], [Val("1")];
    assert FAMILY["p"] == map["1" := row] && TWO_TABLES["p"] == PARENT;
    assert set2[..0] == [] && SetAll(row, []) == row;
    assert SetAll(row, set2) == [Val("2")];
    FamilyStrands();
    assert Lone(TWO_TABLES, FAMILY, "p", {"1"}, set2, "1");
    assert Stranding(TWO_TABLES, FAMILY, "p", "1", SetAll(row, set2));
  }

  /**
    * UPDATE p SET id = 2: the child's first reference follows, its second one
    * refuses. The statement fails, and the first reference dangles.
    */
  method FailedUpdateDangles() returns (e: Executor, ok: bool)
    ensures !ok && e.schema == TWO_TABLES && e.Sound() && !Integrity(e.schema, e.data)
  {
    hide SchemaOk, DataOk, Integrity, IndexesExist, IndexesOk, Updatable, Breakable, Updated, OthersUpdated,
         OtherKeysSame, Loses, MustDangle,
         ReadyAround, NeverFails, Selected;
    e := Example();
    ExampleSchema();
    var where := (row: Row) => Yes;
    FamilyDangles(where);
    ok := e.ExecuteUpdate("p", [Assign(0, Val("2"))], where);
  }

  // ----- an UPDATE that collides -----

  const ONE_TABLE: Schema := map["p" := PARENT]
  const TWO_ROWS := [Built([Val("1")]), Built([Val("2")])]

  lemma {:induction false} OneTableOk()
    ensures SchemaOk(ONE_TABLE, map["p" := 0]) && forall sound :: ReadyAround(ONE_TABLE, "p", sound)
  {
    forall t | t in ONE_TABLE ensures t == "p" && ONE_TABLE[t] == PARENT {}
  }

  lemma {:induction false} TwoRowsAdded()
    ensures Added(map[], 0, TWO_ROWS[..0]) == map[]
    ensures Added(map[], 0, TWO_ROWS[..1]) == map["1" := [Val("1")]]
    ensures Added(map[], 0, TWO_ROWS[..2]) == map["1" := [Val("1")], "2" := [Val("2")]]
  {
    assert TWO_ROWS[..1][..0] == [] && TWO_ROWS[..0] == [] && TWO_ROWS[..2][..1] == TWO_ROWS[..1];
    assert TWO_ROWS[..1][0] == Built([Val("1")]) && TWO_ROWS[..2][1] == Built([Val("2")]);
  }

  lemma {:induction false} TwoRowsFit(d: Data, n: nat)
    requires n < 2 && "p" in d && d["p"] == Added(map[], 0, TWO_ROWS[..n])
    ensures Acceptable(PARENT, d, "p", TWO_ROWS[n].row)
  {
    TwoRowsAdded();
  }

  lemma {:induction false} TwoRowsEnter(d: Data)
    requires "p" in d && d["p"] == map[]
    ensures forall i: nat :: i < 2 ==> Enters(PARENT, d, "p", TWO_ROWS, i)
  {
    hide Added, Acceptable;
    forall i: nat | i < 2 ensures Enters(PARENT, d, "p", TWO_ROWS, i) {
      TwoRowsFit(d["p" := Added(map[], 0, TWO_ROWS[..i])], i);
    }
  }

  lemma {:induction false} TwoRowsLose(d: Data, where: Row -> Verdict)
    requires "p" in d && d["p"] == map["1" := [Val("1")], "2" := [Val("2")]]
    requires where([Val("1")]) == Yes && where([Val("2")]) == No
    ensures NeverFails(d, "p", where) && Selected(d["p"], where) == {"1"}
    ensures Loses(ONE_TABLE, d, "p", {"1"}, [Assign(0, Val("2"))])
    ensures d["p"] - {"1"} == map["2" := [Val("2")]]
  {
    var set2 := [Assign(0, Val("2"))];
    var row: Row := [Val("1")];
    assert set2[..0] == [] && SetAll(row, []) == row;
    assert SetAll(row, set2) == [Val("2")];
    StrangerFollows(PARENT, d["p"], "p", "1");
    assert ONE_TABLE["p"] == PARENT && forall u :: u in ONE_TABLE ==> u == "p";
    assert AllFollowable(ONE_TABLE, d, "p", "1");
    assert "1" in d["p"] && d["p"]["1"] == row;
    assert Colliding(ONE_TABLE, d, "p", "1", SetAll(row, set2));
    assert Assignable(ONE_TABLE["p"], row, set2);
  }

  /**
    * UPDATE p SET id = 2 WHERE id = 1, in a table that has both rows: the
    * statement fails, and the row it was to change is gone.
    */
  method CollidingUpdateLosesRow() returns (e: Executor, ok: bool)
    ensures !ok && e.Valid() && e.schema == ONE_TABLE && "p" in e.data && e.data["p"] == map["2" := [Val("2")]]
  {
    hide SchemaOk, DataOk, Integrity, IndexesExist, IndexesOk, Acceptable, Updatable, Breakable, Updated, OthersUpdated,
         OtherKeysSame, Added, Loses,
         ReadyAround, NeverFails, Selected;
    OneTableOk();
    TwoRowsAdded();
    e := new Executor(ONE_TABLE, map["p" := 0]);
    TablesThere(e.schema, e.data);
    TwoRowsEnter(e.data);
    var inserted, n := e.ExecuteInsert("p", TWO_ROWS);
    assert inserted;
    var where := (row: Row) => if row == [Val("1")] then Yes else No;
    TwoRowsLose(e.data, where);
    ok := e.ExecuteUpdate("p", [Assign(0, Val("2"))], where);
  }

  // ----- a row that can no longer be deleted -----

  /** An indexed reference that is set to NULL when the parent goes. */
  const LINKED := TableDef([ID, REF], 0, [ForeignKey(1, "p", SetNull, Restrict)], [IndexDef("by_ref", 1)])
  const LINKED_TABLES: Schema := map["p" := PARENT, "c" := LINKED]
  const LINK: Data := map["p" := map["1" := [Val("1")]], "c" := map["x" := [Val("x"), Val("1")]]]

  lemma {:induction false} LinkedOk()
    ensures TableOk(LINKED) && Ready(LINKED, true) && Ready(PARENT, true) && !Stuck(LINKED, 1)
  {}

  lemma {:induction false} LinkedSchema()
    ensures SchemaOk(LINKED_TABLES, RANKS)
  {
    hide TableOk;
    forall t | t in LINKED_TABLES ensures (t == "p" && LINKED_TABLES[t] == PARENT)
        || (t == "c" && LINKED_TABLES[t] == LINKED) {}
    assert TableOk(PARENT) by { ParentOk(); }
    assert TableOk(LINKED) by { LinkedOk(); }
  }

  lemma {:induction false} LinkFits(d: Data)
    requires "p" in d && "1" in d["p"] && "c" in d && d["c"] == map[]
    ensures Acceptable(LINKED, d, "c", [Val("x"), Val("1")]) && Keyed(LINKED, [Val("x"), Val("1")])
  {}

  /** Nothing is in the way of the parent. */
  lemma {:induction false} ParentMayGo(where: Row -> Verdict)
    requires where([Val("1")]) == Yes
    ensures Deletable(LINKED_TABLES, LINK, "p", where, true) && Selected(LINK["p"], where) == {"1"}
  {
    hide Ready, Stuck;
    LinkedOk();
    var doom: Cascades.Doom := {("p", "1")};
    assert LINK["p"] == map["1" := [Val("1")]] && LINKED_TABLES["p"] == PARENT && LINKED_TABLES["c"] == LINKED;
    assert !Refuses(LINKED, LINKED.fks[0], SetNull);
    forall t, k, i: nat | t in LINKED_TABLES && t in LINK && k in LINK[t]
        && RefersTo(LINKED_TABLES[t], LINK[t][k], i, doom)
      ensures LetsGo(LINKED_TABLES[t], i, (t, k) in doom, true)
    {
      assert t == "c" && i == 0;
    }
    assert Closed(LINKED_TABLES, LINK, doom, true);
    assert Cascades.Doomed("p", {"1"}) <= doom;
  }

  /** The child stays, without its reference, and so without a key for the index. */
  lemma {:induction false} ChildIsLeft(d: Data)
    requires Cascades.Deleted(LINKED_TABLES, LINK, d, "p", {"1"})
    ensures "c" in d && "x" in d["c"] && !Keyed(LINKED, d["c"]["x"])
  {
    hide Integrity, DataOk;
    assert LINKED_TABLES["c"] == LINKED && LINK["c"]["x"] == [Val("x"), Val("1")] && "x" in LINK["c"];
    assert LINK.Keys == d.Keys;
    assert Cascades.RowCaused(LINKED_TABLES, LINK, d, Cascades.Doomed("p", {"1"}), "c", "x");
    Cascades.MustBeNull(LINKED_TABLES, LINK, d, "c", "x", 0);
    assert LINKED.indexes[0].col == 1;
  }

  /** Whatever was deleted had a key for every index. */
  lemma {:induction false} DeletedHadKeys(s: Schema, a: Data, b: Data, t: Name, ks: set<Key>, k: Key)
    requires Cascades.Deleted(s, a, b, t, ks) && t in s && t in a && k in ks && k in a[t]
    ensures Keyed(s[t], a[t][k])
  {
    assert Cascades.RowCaused(s, a, b, Cascades.Doomed(t, ks), t, k);
  }

  /**
    * DELETE FROM p sets the reference of the child to NULL. DELETE FROM c then
    * fails: the index asks for a key of the child, and NULL has none.
    */
  method NulledChildStays() returns (e: Executor, first: bool, second: bool)
    ensures first && !second && e.Valid() && e.schema == LINKED_TABLES
  {
    hide SchemaOk, DataOk, Integrity, IndexesExist, IndexesOk, Acceptable, Keyed, Cascades.Deleted, Deletable,
         NeverFails,
         Shrinks, AllReady, Unmixed, Selected;
    LinkedSchema();
    e := new Executor(LINKED_TABLES, RANKS);
    TablesThere(e.schema, e.data);
    ParentFits(e.data);
    Fill(e, "p", [Val("1")]);
    LinkFits(e.data);
    Fill(e, "c", [Val("x"), Val("1")]);
    LinkIs(e.data);
    var where := (row: Row) => Yes;
    ParentMayGo(where);
    first := e.ExecuteDelete("p", where);
    ghost var d := e.data;
    ChildIsLeft(d);
    second := e.ExecuteDelete("c", where);
    if second {
      AllSelected(d["c"], where);
      DeletedHadKeys(LINKED_TABLES, d, e.data, "c", Selected(d["c"], where), "x");
    }
  }

  lemma {:induction false} AllSelected(rows: Rows, where: Row -> Verdict)
    requires forall row :: where(row) == Yes
    ensures Selected(rows, where) == rows.Keys
  {}

  lemma {:induction false} LinkIs(d: Data)
    requires (forall t :: t in d <==> t in LINKED_TABLES) && d["p"] == LINK["p"] && d["c"] == LINK["c"]
    ensures d == LINK
  {
    forall t ensures t in d <==> t in LINK { assert t in LINKED_TABLES <==> t == "p" || t == "c"; }
  }
}
