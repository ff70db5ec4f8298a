/**
  * Strict two-phase locking: transactions touch tables only under the lock the
  * executor takes, and give locks back only when they end (txn/txn.go,
  * executor/scan.go, executor/executor.go).
  */
module Serializability {
  import opened Locks

  datatype Event<A> = Access(txn: TxnId, table: Table, mode: Mode, action: A) | End(txn: TxnId)

  type History<A> = seq<Event<A>>

  predicate Conflict<A>(x: Event<A>, y: Event<A>) {
    x.Access? && y.Access? && x.txn != y.txn && x.table == y.table && (x.mode == Exclusive || y.mode == Exclusive)
  }

  // ----- what a history does -----

  /** Tables, and what every transaction has read so far. */
  datatype World<V, L> = World(tables: map<Table, V>, locals: map<TxnId, L>)

  /** An access reads its table and what its transaction knows; it changes the table only in exclusive mode. */
  function Do<A, V, L>(w: World<V, L>, e: Event<A>, f: (A, V, L) -> (V, L)): World<V, L> {
    if e.Access? && e.table in w.tables && e.txn in w.locals then
      var (v, l) := f(e.action, w.tables[e.table], w.locals[e.txn]);
      World(if e.mode == Exclusive then w.tables[e.table := v] else w.tables, w.locals[e.txn := l])
    else w
  }

  function Play<A, V, L>(w: World<V, L>, h: History<A>, f: (A, V, L) -> (V, L)): World<V, L>
    decreases |h|
  {
    if h == [] then w else Play(Do(w, h[0], f), h[1..], f)
  }

  lemma {:induction false} PlayConcat<A, V, L>(w: World<V, L>, a: History<A>, b: History<A>, f: (A, V, L) -> (V, L))
    ensures Play(w, a + b, f) == Play(Play(w, a, f), b, f)
    decreases |a|
  {
    if a == [] {
      assert a + b == b;
    } else {
      assert (a + b)[1..] == a[1..] + b;
      PlayConcat(Do(w, a[0], f), a[1..], b, f);
    }
  }

  /** Accesses of different transactions that do not conflict may change places. */
  lemma {:induction false} Swap<A, V, L>(w: World<V, L>, x: Event<A>, y: Event<A>, f: (A, V, L) -> (V, L))
    requires x.txn != y.txn && !Conflict(x, y)
    ensures Do(Do(w, x, f), y, f) == Do(Do(w, y, f), x, f)
  {
  }

  lemma {:induction false} MoveFront<A, V, L>(w: World<V, L>, h: History<A>, e: Event<A>, f: (A, V, L) -> (V, L))
    requires forall x <- h :: x.txn != e.txn && !Conflict(x, e)
    ensures Play(w, h + [e], f) == Play(w, [e] + h, f)
    decreases |h|
  {
    if h == [] {
      assert h + [e] == [e] + h;
    } else {
      assert h[0] in h && forall x <- h[1..] :: x in h;
      assert (h + [e])[1..] == h[1..] + [e] && ([e] + h[1..])[1..] == h[1..] && ([e] + h)[1..] == h;
      MoveFront(Do(w, h[0], f), h[1..], e, f);
      Swap(w, h[0], e, f);
    }
  }

  // ----- one transaction's part of a history -----

  function Only<A>(h: History<A>, t: TxnId): History<A> {
    if h == [] then [] else Only(h[..|h| - 1], t) + if h[|h| - 1].txn == t then [h[|h| - 1]] else []
  }

  function Without<A>(h: History<A>, t: TxnId): History<A> {
    if h == [] then [] else Without(h[..|h| - 1], t) + if h[|h| - 1].txn == t then [] else [h[|h| - 1]]
  }

  /** `x` comes before `y` in the history. */
  ghost predicate Precedes<A>(h: History<A>, x: Event<A>, y: Event<A>) {
    exists i, j :: 0 <= i < j < |h| && h[i] == x && h[j] == y
  }

  lemma {:induction false} WithoutHas<A(!new)>(h: History<A>, t: TxnId, x: Event<A>)
    ensures x in Without(h, t) <==> x in h && x.txn != t
    ensures x in Only(h, t) <==> x in h && x.txn == t
  {
    if h != [] {
      WithoutHas(h[..|h| - 1], t, x);
      assert h == h[..|h| - 1] + [h[|h| - 1]];
    }
  }

  lemma {:induction false} WithoutPrecedes<A(!new)>(h: History<A>, t: TxnId, x: Event<A>, y: Event<A>)
    requires Precedes(Without(h, t), x, y)
    ensures Precedes(h, x, y)
  {
    if h != [] {
      var n := |h| - 1;
      var g, last := Without(h[..n], t), h[n];
      var i, j :| 0 <= i < j < |Without(h, t)| && Without(h, t)[i] == x && Without(h, t)[j] == y;
      if j < |g| {
        assert g[i] == x && g[j] == y;
        WithoutPrecedes(h[..n], t, x, y);
        var a, b :| 0 <= a < b < |h[..n]| && h[..n][a] == x && h[..n][b] == y;
        assert h[a] == x && h[b] == y;
      } else {
        assert g[i] == x && y == last;
        WithoutHas(h[..n], t, x);
        var a :| 0 <= a < |h[..n]| && h[..n][a] == x;
        assert h[a] == x && h[n] == y;
      }
    }
  }

  /** Nothing before an event of `t` stands in its way. */
  ghost predicate Free<A(!new)>(h: History<A>, t: TxnId) {
    forall x, y {:trigger Precedes(h, x, y)} :: Precedes(h, x, y) && y.txn == t ==> !Conflict(x, y)
  }

  lemma {:induction false} PrefixPrecedes<A(!new)>(h: History<A>, n: nat, x: Event<A>, y: Event<A>)
    requires n <= |h| && Precedes(h[..n], x, y)
    ensures Precedes(h, x, y)
  {
    var i, j :| 0 <= i < j < |h[..n]| && h[..n][i] == x && h[..n][j] == y;
    assert h[i] == x && h[j] == y;
  }

  /** A transaction that nothing stands in the way of may be played first. */
  lemma {:induction false} PlayFirst<A(!new), V, L>(w: World<V, L>, h: History<A>, t: TxnId, f: (A, V, L) -> (V, L))
    requires Free(h, t)
    ensures Play(w, h, f) == Play(w, Only(h, t) + Without(h, t), f)
  {
    if h != [] {
      var n := |h| - 1;
      var g, e := h[..n], h[n];
      var a, b := Only(g, t), Without(g, t);
      assert h == g + [e];
      forall x, y | Precedes(g, x, y) && y.txn == t ensures !Conflict(x, y) { PrefixPrecedes(h, n, x, y); }
      PlayFirst(w, g, t, f);
      PlayConcat(w, g, [e], f);
      PlayConcat(w, a + b, [e], f);
      PlayConcat(w, a, b, f);
      if e.txn == t {
        forall x | x in b ensures x.txn != e.txn && !Conflict(x, e) {
          WithoutHas(g, t, x);
          var i :| 0 <= i < |g| && g[i] == x;
          assert h[i] == x && h[n] == e;
          assert Precedes(h, x, e);
        }
        MoveFront(Play(w, a, f), b, e, f);
        PlayConcat(Play(w, a, f), b, [e], f);
        PlayConcat(Play(w, a, f), [e], b, f);
        PlayConcat(w, a, [e], f);
        PlayConcat(w, a + [e], b, f);
        assert Only(h, t) == a + [e] && Without(h, t) == b + [];
        assert b + [] == b;
      } else {
        assert Only(h, t) == a + [] && a + [] == a && Without(h, t) == b + [e];
        assert a + (b + [e]) == (a + b) + [e];
      }
    }
  }

  // ----- serial histories -----

  /** All of the first transaction, then all of the second, and so on. */
  function Serial<A>(h: History<A>, order: seq<TxnId>): History<A> {
    if order == [] then [] else Only(h, order[0]) + Serial(h, order[1..])
  }

  ghost predicate Earlier(order: seq<TxnId>, t: TxnId, u: TxnId) {
    exists i, j :: 0 <= i < j < |order| && order[i] == t && order[j] == u
  }

  /** Conflicting accesses stand in the order of their transactions. */
  ghost predicate Respects<A(!new)>(h: History<A>, order: seq<TxnId>) {
    forall x, y {:trigger Precedes(h, x, y)} :: Precedes(h, x, y) && Conflict(x, y) ==> Earlier(order, x.txn, y.txn)
  }

  ghost predicate DistinctTxns(order: seq<TxnId>) {
    forall i, j :: 0 <= i < j < |order| ==> order[i] != order[j]
  }

  lemma {:induction false} OnlyWithout<A>(h: History<A>, t: TxnId, u: TxnId)
    requires t != u
    ensures Only(Without(h, t), u) == Only(h, u)
  {
    if h != [] {
      var n := |h| - 1;
      OnlyWithout(h[..n], t, u);
      if h[n].txn != t {
        assert Without(h, t)[..|Without(h, t)| - 1] == Without(h[..n], t);
      } else {
        assert Without(h, t) == Without(h[..n], t) + [] && Without(h[..n], t) + [] == Without(h[..n], t);
        assert Only(h, u) == Only(h[..n], u) + [];
      }
    }
  }

  lemma {:induction false} SerialWithout<A>(h: History<A>, t: TxnId, order: seq<TxnId>)
    requires t !in order
    ensures Serial(Without(h, t), order) == Serial(h, order)
  {
    if order != [] {
      OnlyWithout(h, t, order[0]);
      SerialWithout(h, t, order[1..]);
    }
  }

  lemma {:induction false} FirstIsFree<A(!new)>(h: History<A>, order: seq<TxnId>)
    requires order != [] && Respects(h, order) && DistinctTxns(order)
    ensures Free(h, order[0])
  {
    forall x, y | Precedes(h, x, y) && y.txn == order[0] ensures !Conflict(x, y) {
    }
  }

  lemma {:induction false} RestRespects<A(!new)>(h: History<A>, order: seq<TxnId>)
    requires order != [] && Respects(h, order) && DistinctTxns(order)
    ensures Respects(Without(h, order[0]), order[1..])
  {
    var t := order[0];
    forall x, y | Precedes(Without(h, t), x, y) && Conflict(x, y) ensures Earlier(order[1..], x.txn, y.txn) {
      WithoutPrecedes(h, t, x, y);
      var a, b :| 0 <= a < b < |Without(h, t)| && Without(h, t)[a] == x && Without(h, t)[b] == y;
      assert x in Without(h, t) && y in Without(h, t);
      WithoutHas(h, t, x);
      var i, j :| 0 <= i < j < |order| && order[i] == x.txn && order[j] == y.txn;
      assert order[1..][i - 1] == x.txn && order[1..][j - 1] == y.txn;
    }
  }

  /** A history that respects an order of its transactions does the same as running them one by one in that order. */
  lemma {:induction false} SerialEquivalent<A(!new), V,
      L>(w: World<V, L>, h: History<A>, order: seq<TxnId>, f: (A, V, L) -> (V, L))
    requires Respects(h, order) && DistinctTxns(order) && forall e <- h :: e.txn in order
    ensures Play(w, h, f) == Play(w, Serial(h, order), f)
    decreases |order|
  {
    if order != [] {
      var t, g := order[0], Without(h, order[0]);
      FirstIsFree(h, order);
      PlayFirst(w, h, t, f);
      PlayConcat(w, Only(h, t), g, f);
      RestRespects(h, order);
      forall e | e in g ensures e.txn in order[1..] {
        WithoutHas(h, t, e);
        var i :| 0 <= i < |order| && order[i] == e.txn;
        assert order[1..][i - 1] == e.txn;
      }
      SerialEquivalent(Play(w, Only(h, t), f), g, order[1..], f);
      SerialWithout(h, t, order[1..]);
      PlayConcat(w, Only(h, t), Serial(h, order[1..]), f);
    }
  }

  // ----- runs of the system -----

  /** A lock a transaction was told it has, at once or when it was let in. */
  datatype Grant = Grant(txn: TxnId, table: Table, mode: Mode)

  datatype System<A> = System(locks: map<Table, Entry>, granted: set<Grant>, ended: set<TxnId>, history: History<A>)

  /** ReleaseAll is not atomic: a transaction ends, then gives back its tables one at a time. */
  datatype Step<A> =
    | Ask(txn: TxnId, table: Table, mode: Mode)
    | Use(txn: TxnId, table: Table, mode: Mode, action: A)
    | Finish(txn: TxnId)
    | GiveBack(txn: TxnId, table: Table)

  ghost predicate Suffices(held: Mode, needed: Mode) { needed == Exclusive ==> held == Exclusive }

  /** A transaction uses a table once it was granted a lock that suffices; nobody looks the lock up again. */
  ghost predicate Enabled<A>(s: System<A>, step: Step<A>) {
    match step
    case Ask(t, _, _) => t !in s.ended
    case Use(t, table, mode, _) =>
      t !in s.ended && exists g :: g in s.granted && g.txn == t && g.table == table && Suffices(g.mode, mode)
    case Finish(t) => t !in s.ended
    case GiveBack(t, _) => t in s.ended
  }

  /** The requests at the head of the queue that a release lets in. */
  ghost function LetIn(e: Entry, t: TxnId, table: Table): set<Grant> {
    set i | 0 <= i < Admitted(e.holders - {t}, e.waiters) :: Grant(e.waiters[i].txn, table, e.waiters[i].mode)
  }

  ghost function Next<A>(s: System<A>, step: Step<A>): System<A> {
    match step
    case Ask(t, table, mode) =>
      var e := EntryOf(s.locks, table);
      s.(locks := s.locks[table := Requested(e, t, mode)],
         granted := if CanGrant(e.holders, mode) then s.granted + {Grant(t, table, mode)} else s.granted)
    case Use(t, table, mode, action) => s.(history := s.history + [Access(t, table, mode, action)])
    case Finish(t) => s.(ended := s.ended + {t}, history := s.history + [End(t)])
    case GiveBack(t, table) =>
      if table !in s.locks then s
      else s.(locks := s.locks[table := Released(s.locks[table], t)],
          granted := s.granted + LetIn(s.locks[table], t, table))
  }

  ghost function After<A>(steps: seq<Step<A>>): System<A> {
    if steps == [] then System(map[], {}, {}, []) else Next(After(steps[..|steps| - 1]), steps[|steps| - 1])
  }

  ghost predicate Legal<A>(steps: seq<Step<A>>) {
    steps == [] || (Legal(steps[..|steps| - 1]) && Enabled(After(steps[..|steps| - 1]), steps[|steps| - 1]))
  }

  /** The lock an access was made under is still held, unless its transaction has ended. */
  ghost predicate Covered<A>(s: System<A>, e: Event<A>) {
    e.Access? ==> e.txn in s.ended || (Holds(s.locks, e.txn, e.table) && Suffices(s.locks[e.table].holders[e.txn], e.mode))
  }

  /** What a running transaction was granted it holds. */
  ghost predicate Kept<A>(s: System<A>, g: Grant) {
    g.txn in s.ended || (Holds(s.locks, g.txn, g.table) && Suffices(s.locks[g.table].holders[g.txn], g.mode))
  }

  ghost predicate Locked<A(!new)>(s: System<A>) {
    LocksOk(s.locks) && (forall g <- s.granted :: Kept(s, g)) && forall e <- s.history :: Covered(s, e)
  }

  /** After its end a transaction is not heard of again. */
  ghost predicate EndsLast<A>(h: History<A>) {
    forall i, j :: 0 <= i < j < |h| && h[i].End? ==> h[j].txn != h[i].txn
  }

  /** Between conflicting accesses the first transaction ends. */
  ghost predicate EndsBetween<A>(h: History<A>) {
    forall i, j :: 0 <= i < j < |h| && Conflict(h[i], h[j]) ==> exists k :: i < k < j && h[k] == End(h[i].txn)
  }

  ghost predicate Invariant<A(!new)>(s: System<A>) {
    Locked(s) && EndsLast(s.history) && EndsBetween(s.history)
    && forall t :: t in s.ended <==> End(t) in s.history
  }

  lemma {:induction false} AskKeeps<A(!new)>(s: System<A>, t: TxnId, table: Table, mode: Mode)
    requires Locked(s)
    ensures Locked(Next(s, Ask(t, table, mode)))
  {
    var s' := Next(s, Ask(t, table, mode));
    var e := EntryOf(s.locks, table);
    RequestedOk(e, t, mode);
    forall g | g in s'.granted ensures Kept(s', g) {
      if g in s.granted {
        assert Kept(s, g);
        if g.txn !in s.ended && g.table == table && g.txn == t && CanGrant(e.holders, mode) {
          assert e.holders[t] == Shared && mode == Shared;
        }
      }
    }
    forall x | x in s.history ensures Covered(s', x) {
      assert Covered(s, x);
      if x.Access? && x.txn !in s.ended && x.table == table && x.txn == t && CanGrant(e.holders, mode) {
        assert e.holders[t] == Shared && mode == Shared;
      }
    }
  }

  lemma {:induction false} AdmittedKeep(holders: map<TxnId, Mode>, ws: seq<Waiter>, u: TxnId)
    requires u in holders && Compatible(holders)
    ensures var n := Admitted(holders, ws);
            u in WithAll(holders, ws[..n]) && WithAll(holders, ws[..n])[u] == holders[u]
    decreases |ws|
  {
    var n := Admitted(holders, ws);
    if n > 0 {
      var w := ws[0];
      assert ws[..n][1..] == ws[1..][..n - 1] && ws[..n][0] == w;
      AdmittedKeep(holders[w.txn := w.mode], ws[1..], u);
    } else {
      assert ws[..0] == [];
    }
  }

  /** A request that is let in holds in the mode it asked for. */
  lemma {:induction false} LetInHolds(e: Entry, t: TxnId, i: nat)
    requires i < Admitted(e.holders - {t}, e.waiters)
    ensures e.waiters[i].txn in Released(e, t).holders && Released(e, t).holders[e.waiters[i].txn] == e.waiters[i].mode
  {
    var rest := e.holders - {t};
    var n := Admitted(rest, e.waiters);
    AdmittedIs(rest, e.waiters);
    var ws := e.waiters[..n];
    assert forall j :: 0 <= j < n ==> ws[j] == e.waiters[j];
    WithAllModes(rest, ws);
    assert ws[i] == e.waiters[i];
  }

  /** A holder that stays, stays in its mode. */
  lemma {:induction false} StaysHolding(e: Entry, t: TxnId, u: TxnId)
    requires EntryOk(e) && u in e.holders && u != t
    ensures u in Released(e, t).holders && Released(e, t).holders[u] == e.holders[u]
  {
    AdmittedKeep(e.holders - {t}, e.waiters, u);
  }

  lemma {:induction false} GiveBackKeeps<A(!new)>(s: System<A>, t: TxnId, table: Table)
    requires Locked(s) && t in s.ended
    ensures Locked(Next(s, GiveBack(t, table)))
  {
    hide Released, EntryOk, Admitted;
    if table in s.locks {
      var s' := Next(s, GiveBack(t, table));
      var e := s.locks[table];
      ReleasedOk(e, t);
      forall g | g in s'.granted ensures Kept(s', g) {
        if g in s.granted {
          assert Kept(s, g);
          if g.txn !in s.ended && g.table == table { StaysHolding(e, t, g.txn); }
        } else {
          var i :| 0 <= i < Admitted(e.holders - {t}, e.waiters)
              && g == Grant(e.waiters[i].txn, table, e.waiters[i].mode);
          LetInHolds(e, t, i);
        }
      }
      forall x | x in s.history ensures Covered(s', x) {
        assert Covered(s, x);
        if x.Access? && x.txn !in s.ended && x.table == table { StaysHolding(e, t, x.txn); }
      }
    }
  }

  /** A new access conflicts only with transactions that have ended. */
  lemma {:induction false} UseKeeps<A(!new)>(s: System<A>, step: Step<A>)
    requires Invariant(s) && step.Use? && Enabled(s, step)
    ensures Invariant(Next(s, step))
  {
    var h, e := s.history, Access(step.txn, step.table, step.mode, step.action);
    var h' := h + [e];
    var s' := Next(s, step);
    forall x | x in h' ensures Covered(s', x) { if x in h { assert Covered(s, x); } }
    forall i, j | 0 <= i < j < |h'| && h'[i].End? ensures h'[j].txn != h'[i].txn {
      if j == |h| { assert h[i] in h && End(h[i].txn) in h; }
    }
    forall i, j | 0 <= i < j < |h'| && Conflict(h'[i], h'[j]) ensures exists k :: i < k < j && h'[k] == End(h'[i].txn) {
      if j == |h| {
        assert h[i] in h && Covered(s, h[i]);
        assert EntryOk(s.locks[e.table]);
        assert h[i].txn in s.ended;
        var k :| 0 <= k < |h| && h[k] == End(h[i].txn);
        assert i < k && h'[k] == End(h'[i].txn);
      } else {
        var k :| i < k < j && h[k] == End(h[i].txn);
        assert h'[k] == End(h'[i].txn);
      }
    }
  }

  lemma {:induction false} FinishKeeps<A(!new)>(s: System<A>, step: Step<A>)
    requires Invariant(s) && step.Finish? && Enabled(s, step)
    ensures Invariant(Next(s, step))
  {
    var h, e := s.history, End(step.txn);
    var h' := h + [e];
    var s' := Next(s, step);
    forall x | x in h' ensures Covered(s', x) { if x in h { assert Covered(s, x); } }
    forall i, j | 0 <= i < j < |h'| && h'[i].End? ensures h'[j].txn != h'[i].txn {
      if j == |h| { assert h[i] in h && End(h[i].txn) in h; }
    }
    forall i, j | 0 <= i < j < |h'| && Conflict(h'[i], h'[j]) ensures exists k :: i < k < j && h'[k] == End(h'[i].txn) {
      var k :| i < k < j && h[k] == End(h[i].txn);
      assert h'[k] == End(h'[i].txn);
    }
  }

  /**
    * Every reachable state: locks are sound, and conflicting accesses have the
    * end of the first transaction between them.
    */
  lemma {:induction false} Reachable<A(!new)>(steps: seq<Step<A>>)
    requires Legal(steps)
    ensures Invariant(After(steps))
  {
    if steps != [] {
      var n := |steps| - 1;
      Reachable(steps[..n]);
      var s, step := After(steps[..n]), steps[n];
      match step
      case Ask(t, table, mode) => AskKeeps(s, t, table, mode);
      case Use(_, _, _, _) => UseKeeps(s, step);
      case Finish(_) => FinishKeeps(s, step);
      case GiveBack(t, table) => GiveBackKeeps(s, t, table);
    }
  }

  /** Transactions in the order in which they ended. */
  ghost function EndOrder<A>(h: History<A>): seq<TxnId> {
    if h == [] then [] else EndOrder(h[..|h| - 1]) + if h[|h| - 1].End? then [h[|h| - 1].txn] else []
  }

  lemma {:induction false} EndOrderHas<A>(h: History<A>, t: TxnId)
    ensures t in EndOrder(h) <==> End(t) in h
  {
    if h != [] {
      EndOrderHas(h[..|h| - 1], t);
      assert h == h[..|h| - 1] + [h[|h| - 1]];
    }
  }

  lemma {:induction false} EndOrderDistinct<A(!new)>(h: History<A>)
    requires EndsLast(h)
    ensures DistinctTxns(EndOrder(h))
  {
    if h != [] {
      var n := |h| - 1;
      assert EndsLast(h[..n]);
      EndOrderDistinct(h[..n]);
      if h[n].End? {
        EndOrderHas(h[..n], h[n].txn);
      }
    }
  }

  /** Where the first transaction ends before an access of the second, it ends before the second does. */
  lemma {:induction false} EndsEarlier<A(!new)>(h: History<A>, k: nat, j: nat)
    requires EndsLast(h) && k < j < |h| && h[k].End? && End(h[j].txn) in h && h[j].Access?
    ensures Earlier(EndOrder(h), h[k].txn, h[j].txn)
  {
    hide Earlier, EndOrder;
    var n := |h| - 1;
    var g, last := h[..n], h[n];
    EndsLastLess(h);
    EndOrderMore(h);
    var more := if last.End? then [last.txn] else [];
    if End(h[j].txn) in g {
      var m :| 0 <= m < n && g[m] == End(h[j].txn);
      assert h[m] == End(h[j].txn);
      EndIsAfter(h, m, j);
      EndsEarlier(g, k, j);
    } else {
      assert last == End(h[j].txn);
      assert g[k] in g && g[k] == End(h[k].txn);
      EndOrderHas(g, h[k].txn);
      assert h[j].txn in more;
    }
    EarlierAppend(EndOrder(g), more, h[k].txn, h[j].txn);
  }

  lemma {:induction false} EndsLastLess<A(!new)>(h: History<A>)
    requires EndsLast(h) && h != []
    ensures EndsLast(h[..|h| - 1])
  {}

  lemma {:induction false} EndOrderMore<A>(h: History<A>)
    requires h != []
    ensures EndOrder(h) == EndOrder(h[..|h| - 1]) + if h[|h| - 1].End? then [h[|h| - 1].txn] else []
  {}

  lemma {:induction false} EndIsAfter<A(!new)>(h: History<A>, m: nat, j: nat)
    requires EndsLast(h) && m < |h| && j < |h| && h[m] == End(h[j].txn) && h[j].Access?
    ensures j < m
  {}

  lemma {:induction false} EarlierAppend(a: seq<TxnId>, b: seq<TxnId>, t: TxnId, u: TxnId)
    requires Earlier(a, t, u) || (t in a && u in b)
    ensures Earlier(a + b, t, u)
  {
    if Earlier(a, t, u) {
      var i, j :| 0 <= i < j < |a| && a[i] == t && a[j] == u;
      assert (a + b)[i] == t && (a + b)[j] == u;
    } else {
      var i :| 0 <= i < |a| && a[i] == t;
      var j :| 0 <= j < |b| && b[j] == u;
      assert (a + b)[i] == t && (a + b)[|a| + j] == u;
    }
  }

  lemma {:induction false} DistinctAppend(a: seq<TxnId>, b: seq<TxnId>)
    requires DistinctTxns(a) && DistinctTxns(b) && forall t <- b :: t !in a
    ensures DistinctTxns(a + b)
  {
    var c := a + b;
    forall i, j | 0 <= i < j < |c| ensures c[i] != c[j] {
      if i < |a| <= j { assert c[i] in a && c[j] in b; }
    }
  }

  /** Of two accesses in conflict the first one's transaction ends first, or alone. */
  lemma {:induction false} ConflictsInOrder<A(!new)>(h: History<A>, running: seq<TxnId>, x: Event<A>, y: Event<A>)
    requires EndsLast(h) && EndsBetween(h) && Precedes(h, x, y) && Conflict(x, y)
             && (y.txn in EndOrder(h) || y.txn in running)
    ensures Earlier(EndOrder(h) + running, x.txn, y.txn)
  {
    hide EndOrder, Earlier, EndsLast;
    var i, j :| 0 <= i < j < |h| && h[i] == x && h[j] == y;
    var k :| i < k < j && h[k] == End(h[i].txn);
    assert h[k] in h;
    EndOrderHas(h, x.txn);
    EndOrderHas(h, y.txn);
    if End(y.txn) in h { EndsEarlier(h, k, j); }
    EarlierAppend(EndOrder(h), running, x.txn, y.txn);
  }

  /**
    * Every run is conflict-serializable in the order in which transactions end:
    * tables and all that transactions have read come out as if they had run one
    * after the other, those still running last, in any order.
    */
  lemma {:induction false} TwoPhaseLockingSerializes<A(!new), V, L>(steps: seq<Step<A>>, running: seq<TxnId>,
                                                                    w: World<V, L>, f: (A, V, L) -> (V, L))
    requires Legal(steps) && DistinctTxns(running)
    requires forall t <- running :: t !in After(steps).ended
    requires forall e <- After(steps).history :: e.txn in After(steps).ended || e.txn in running
    ensures var h := After(steps).history;
            Play(w, h, f) == Play(w, Serial(h, EndOrder(h) + running), f)
  {
    var h := After(steps).history;
    var order := EndOrder(h) + running;
    Reachable(steps);
    forall t ensures t in EndOrder(h) <==> t in After(steps).ended { EndOrderHas(h, t); }
    EndOrderDistinct(h);
    DistinctAppend(EndOrder(h), running);
    forall x, y | Precedes(h, x, y) && Conflict(x, y)
      ensures Earlier(order, x.txn, y.txn)
    {
      ConflictsInOrder(h, running, x, y);
    }
    SerialEquivalent(w, h, order, f);
  }
}
