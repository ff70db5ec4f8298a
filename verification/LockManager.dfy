/** Table locks with a FIFO queue per table (txn/lock_manager.go). */
module Locks {
  type TxnId = nat
  type Table = string

  datatype Mode = Shared | Exclusive
  datatype Waiter = Waiter(txn: TxnId, mode: Mode)
  datatype Entry = Entry(holders: map<TxnId, Mode>, waiters: seq<Waiter>)

  // ----- one table -----

  predicate CanGrant(holders: map<TxnId, Mode>, mode: Mode) {
    holders == map[] || (mode == Shared && forall t :: t in holders ==> holders[t] == Shared)
  }

  /** Several holders only if all of them share. */
  ghost predicate Compatible(holders: map<TxnId, Mode>) {
    forall t, u :: t in holders && u in holders && t != u ==> holders[t] == Shared
  }

  /** Nobody waits who could be let in. */
  ghost predicate NoLostWakeup(e: Entry) {
    e.waiters != [] ==> !CanGrant(e.holders, e.waiters[0].mode)
  }

  ghost predicate EntryOk(e: Entry) {
    Compatible(e.holders) && NoLostWakeup(e)
  }

  /** Acquire on one table: granted at once, or queued. */
  function Requested(e: Entry, t: TxnId, mode: Mode): Entry {
    if CanGrant(e.holders, mode) then e.(holders := e.holders[t := mode])
    else e.(waiters := e.waiters + [Waiter(t, mode)])
  }

  /** How many waiters, from the front, are let in. */
  function Admitted(holders: map<TxnId, Mode>, waiters: seq<Waiter>): (n: nat)
    ensures n <= |waiters|
    decreases |waiters|
  {
    if waiters == [] || !CanGrant(holders, waiters[0].mode) then 0
    else 1 + Admitted(holders[waiters[0].txn := waiters[0].mode], waiters[1..])
  }

  function WithAll(holders: map<TxnId, Mode>, ws: seq<Waiter>): map<TxnId, Mode>
    decreases |ws|
  {
    if ws == [] then holders else WithAll(holders[ws[0].txn := ws[0].mode], ws[1..])
  }

  /** Release on one table: the holder goes, the admitted waiters become holders. */
  function Released(e: Entry, t: TxnId): Entry {
    var rest := e.holders - {t};
    var n := Admitted(rest, e.waiters);
    Entry(WithAll(rest, e.waiters[..n]), e.waiters[n..])
  }

  lemma {:induction false} RequestedOk(e: Entry, t: TxnId, mode: Mode)
    requires EntryOk(e)
    ensures EntryOk(Requested(e, t, mode))
  {
    if !CanGrant(e.holders, mode) && e.waiters == [] {
      assert (e.waiters + [Waiter(t, mode)])[0] == Waiter(t, mode);
    }
  }

  lemma {:induction false} AdmittedOk(holders: map<TxnId, Mode>, waiters: seq<Waiter>)
    requires Compatible(holders)
    ensures var n := Admitted(holders, waiters);
            EntryOk(Entry(WithAll(holders, waiters[..n]), waiters[n..]))
    decreases |waiters|
  {
    var n := Admitted(holders, waiters);
    if n > 0 {
      var w := waiters[0];
      AdmittedOk(holders[w.txn := w.mode], waiters[1..]);
      assert waiters[..n][1..] == waiters[1..][..n - 1] && waiters[n..] == waiters[1..][n - 1..];
    } else {
      assert waiters[..0] == [] && waiters[0..] == waiters;
    }
  }

  lemma {:induction false} ReleasedOk(e: Entry, t: TxnId)
    requires EntryOk(e)
    ensures EntryOk(Released(e, t))
  {
    AdmittedOk(e.holders - {t}, e.waiters);
  }

  lemma {:induction false} WithAllHolds(holders: map<TxnId, Mode>, ws: seq<Waiter>, u: TxnId)
    ensures u in WithAll(holders, ws) <==> u in holders || exists i :: 0 <= i < |ws| && ws[i].txn == u
    ensures (forall i :: 0 <= i < |ws| ==> ws[i].txn != u) && u in holders ==> WithAll(holders, ws)[u] == holders[u]
    decreases |ws|
  {
    if ws != [] {
      WithAllHolds(holders[ws[0].txn := ws[0].mode], ws[1..], u);
      if i :| 0 <= i < |ws| && ws[i].txn == u {
        if i > 0 { assert ws[1..][i - 1].txn == u; }
      }
      if i :| 0 <= i < |ws[1..]| && ws[1..][i].txn == u { assert ws[i + 1].txn == u; }
      assert forall i :: 0 <= i < |ws[1..]| ==> ws[1..][i] == ws[i + 1];
    }
  }

  predicate AllShare(holders: map<TxnId, Mode>) { forall t :: t in holders ==> holders[t] == Shared }

  /** Requests to share at the front of the queue. */
  function SharedRun(waiters: seq<Waiter>): (n: nat)
    ensures n <= |waiters|
    ensures forall i :: 0 <= i < n ==> waiters[i].mode == Shared
    ensures n < |waiters| ==> waiters[n].mode == Exclusive
  {
    if waiters == [] || waiters[0].mode == Exclusive then 0
    else
      var r := SharedRun(waiters[1..]);
      assert forall i :: 0 <= i < 1 + r ==> waiters[i].mode == Shared by {
        forall i | 0 <= i < 1 + r ensures waiters[i].mode == Shared {
          if i > 0 { assert waiters[i] == waiters[1..][i - 1]; }
        }
      }
      1 + r
  }

  /**
    * Who is let in: a writer at the head alone and only when nobody holds;
    * readers at the head together, when all holders share.
    */
  lemma {:induction false} AdmittedIs(holders: map<TxnId, Mode>, waiters: seq<Waiter>)
    ensures Admitted(holders, waiters)
         == if waiters == [] then 0
            else if waiters[0].mode == Exclusive then (if holders == map[] then 1 else 0)
            else if AllShare(holders) then SharedRun(waiters) else 0
    decreases |waiters|
  {
    if waiters != [] && CanGrant(holders, waiters[0].mode) {
      var w := waiters[0];
      var now := holders[w.txn := w.mode];
      assert now[w.txn] == w.mode && w.txn in now && now != map[];
      AdmittedIs(now, waiters[1..]);
    }
  }

  /**
    * The transaction's own request is about to be let in: it is the writer at
    * the head and nobody else holds, or it is among the readers at the head and
    * all others share.
    */
  ghost predicate WaitsItself(e: Entry, t: TxnId) {
    e.waiters != []
    && if e.waiters[0].mode == Exclusive then e.waiters[0].txn == t && forall u :: u in e.holders ==> u == t
       else AllShare(e.holders - {t}) && exists i :: 0 <= i < SharedRun(e.waiters) && e.waiters[i].txn == t
  }

  /** The admitted waiters hold in the modes they asked for. */
  lemma {:induction false} WithAllModes(holders: map<TxnId, Mode>, ws: seq<Waiter>)
    requires |ws| <= 1 || forall i :: 0 <= i < |ws| ==> ws[i].mode == Shared
    ensures forall i :: 0 <= i < |ws|
              ==> ws[i].txn in WithAll(holders, ws) && WithAll(holders, ws)[ws[i].txn] == ws[i].mode
    decreases |ws|
  {
    if ws != [] {
      var now, rest := holders[ws[0].txn := ws[0].mode], ws[1..];
      WithAllModes(now, rest);
      WithAllHolds(now, rest, ws[0].txn);
      forall i | 0 <= i < |ws|
        ensures ws[i].txn in WithAll(holders, ws) && WithAll(holders, ws)[ws[i].txn] == ws[i].mode
      {
        if i > 0 {
          assert rest[i - 1] == ws[i];
        } else if k :| 0 <= k < |rest| && rest[k].txn == ws[0].txn {
          assert rest[k] == ws[k + 1];
        }
      }
    }
  }

  /** What a release leads to: who goes, who is let in and in which mode, who goes on waiting. */
  ghost predicate HandedOver(e: Entry, t: TxnId, after: Entry, n: nat) {
    && n <= |e.waiters| && after.waiters == e.waiters[n..]
    && n == (if e.waiters == [] then 0
             else if e.waiters[0].mode == Exclusive then (if forall u :: u in e.holders ==> u == t then 1 else 0)
             else if AllShare(e.holders - {t}) then SharedRun(e.waiters) else 0)
    && (forall i :: 0 <= i < n ==> e.waiters[i].txn in after.holders && after.holders[e.waiters[i].txn] == e.waiters[i].mode)
    && (forall u :: u in after.holders ==> (u in e.holders && u != t) || exists i :: 0 <= i < n && e.waiters[i].txn == u)
    && (forall u :: u in e.holders && u != t && (forall i :: 0 <= i < n ==> e.waiters[i].txn != u)
          ==> u in after.holders && after.holders[u] == e.holders[u])
  }

  lemma {:induction false} ReleasedIs(e: Entry, t: TxnId) returns (n: nat)
    ensures HandedOver(e, t, Released(e, t), n)
  {
    var rest := e.holders - {t};
    n := Admitted(rest, e.waiters);
    AdmittedIs(rest, e.waiters);
    NobodyElse(e, t);
    var ws := e.waiters[..n];
    assert forall i :: 0 <= i < n ==> ws[i] == e.waiters[i];
    WithAllModes(rest, ws);
    forall u
      ensures u in WithAll(rest, ws) <==> u in rest || exists i :: 0 <= i < n && e.waiters[i].txn == u
      ensures (forall i :: 0 <= i < n ==> e.waiters[i].txn != u) && u in rest ==> WithAll(rest, ws)[u] == rest[u]
    {
      WithAllHolds(rest, ws, u);
    }
  }

  lemma {:induction false} Handing(e: Entry, t: TxnId) returns (n: nat)
    ensures HandedOver(e, t, Released(e, t), n)
  {
    hide HandedOver, Released;
    n := ReleasedIs(e, t);
  }

  lemma {:induction false} NobodyElse(e: Entry, t: TxnId)
    ensures e.holders - {t} == map[] <==> forall u :: u in e.holders ==> u == t
  {
    var rest := e.holders - {t};
    if rest == map[] {
      forall u | u in e.holders ensures u == t { assert u != t ==> u in rest; }
    } else {
      var u :| u in rest;
      assert u in e.holders && u != t;
    }
  }

  /** A transaction that releases a table holds it no longer, if and only if it is not itself next in the queue. */
  lemma {:induction false} ReleaseLetsGo(e: Entry, t: TxnId)
    ensures t !in Released(e, t).holders <==> !WaitsItself(e, t)
  {
    var rest := e.holders - {t};
    var n := Admitted(rest, e.waiters);
    WithAllHolds(rest, e.waiters[..n], t);
    AdmittedIs(rest, e.waiters);
    assert forall i :: 0 <= i < n ==> e.waiters[..n][i] == e.waiters[i];
    NobodyElse(e, t);
  }

  /** A reader that asks to write, is aborted while it waits and releases, ends up with the exclusive lock. */
  lemma {:induction false} UpgradeComesBack()
    ensures var e := Requested(Requested(Entry(map[], []), 1, Shared), 1, Exclusive);
            Released(e, 1).holders == map[1 := Exclusive]
  {
    var e := Requested(Requested(Entry(map[], []), 1, Shared), 1, Exclusive);
    assert Requested(Entry(map[], []), 1, Shared) == Entry(map[1 := Shared], []);
    var h: map<TxnId, Mode> := map[1 := Shared];
    assert 1 in h && h != map[] && !CanGrant(h, Exclusive);
    var w := Waiter(1, Exclusive);
    assert e.waiters == [] + [w];
    assert e.waiters[1..] == [];
    assert e.holders - {1} == map[];
    assert [w][1..] == [];
    assert Admitted(map[], [w]) == 1 + Admitted(map[1 := Exclusive], []);
    assert e.waiters[..1] == [w];
    assert WithAll(map[], [w]) == WithAll(map[1 := Exclusive], []);
  }

  /** The granting loop of Release. */
  method GrantWaiters(rest: map<TxnId, Mode>,
                      waiters: seq<Waiter>) returns (holders: map<TxnId, Mode>, remaining: seq<Waiter>)
    ensures var n := Admitted(rest, waiters);
            holders == WithAll(rest, waiters[..n]) && remaining == waiters[n..]
  {
    ghost var n := Admitted(rest, waiters);
    holders, remaining := rest, [];
    var stopGranting := false;
    var i := 0;
    assert waiters[0..] == waiters && waiters[..n] == waiters[0..n];
    while i < |waiters|
      invariant 0 <= i <= |waiters|
      invariant !stopGranting ==> remaining == [] && n == i + Admitted(holders, waiters[i..])
      invariant !stopGranting ==> WithAll(rest, waiters[..n]) == WithAll(holders, waiters[i..n])
      invariant stopGranting ==> n <= i && remaining == waiters[n..i] && holders == WithAll(rest, waiters[..n])
    {
      var w := waiters[i];
      assert waiters[i..][0] == w && waiters[i..][1..] == waiters[i + 1..];
      if !stopGranting && CanGrant(holders, w.mode) {
        assert waiters[i..n][0] == w && waiters[i..n][1..] == waiters[i + 1..n];
        holders := holders[w.txn := w.mode];
        if w.mode == Exclusive {
          stopGranting := true;
          AdmitsNoMore(holders, w.txn, waiters[i + 1..]);
          assert waiters[i + 1..n] == [];
        }
      } else {
        if !stopGranting { assert n == i && waiters[i..n] == []; }
        stopGranting := true;
        remaining := remaining + [w];
      }
      i := i + 1;
    }
    assert waiters[i..] == [];
    if !stopGranting { assert waiters[i..n] == []; }
  }

  // ----- the manager -----

  function EntryOf(locks: map<Table, Entry>, table: Table): Entry {
    if table in locks then locks[table] else Entry(map[], [])
  }

  ghost predicate LocksOk(locks: map<Table, Entry>) {
    forall table :: table in locks ==> EntryOk(locks[table])
  }

  ghost predicate Holds(locks: map<Table, Entry>, t: TxnId, table: Table) {
    table in locks && t in locks[table].holders
  }

  ghost predicate WaitsFor(locks: map<Table, Entry>, t: TxnId, table: Table) {
    table in locks && exists i :: 0 <= i < |locks[table].waiters| && locks[table].waiters[i].txn == t
  }

  class LockManager {
    var locks: map<Table, Entry>

    ghost predicate Valid()
      reads this
    {
      LocksOk(locks)
    }

    constructor ()
      ensures Valid() && locks == map[]
    {
      locks := map[];
    }

    /**
      * Grants the lock, recorded in the mode asked for, or puts the request at the
      * end of the queue; a queued caller blocks until a release lets it in. An
      * exclusive lock that was granted keeps everybody out.
      */
    method Acquire(t: TxnId, table: Table, mode: Mode) returns (granted: bool)
      requires Valid()
      modifies this
      ensures Valid() && locks == old(locks)[table := Requested(EntryOf(old(locks), table), t, mode)]
      ensures var e := EntryOf(old(locks), table);
              && (granted <==> e.holders == map[] || (mode == Shared && forall u :: u in e.holders ==> e.holders[u] == Shared))
              && (granted ==> locks == old(locks)[table := Entry(e.holders[t := mode], e.waiters)])
              && (!granted ==> locks == old(locks)[table := Entry(e.holders, e.waiters + [Waiter(t, mode)])])
      ensures granted && mode == Exclusive ==> forall m: Mode :: !CanGrant(locks[table].holders, m)
    {
      var e := EntryOf(locks, table);
      RequestedOk(e, t, mode);
      granted := CanGrant(e.holders, mode);
      if granted {
        locks := locks[table := e.(holders := e.holders[t := mode])];
        if mode == Exclusive { ExclusiveExcludes(locks[table].holders, t); }
      } else {
        locks := locks[table := e.(waiters := e.waiters + [Waiter(t, mode)])];
      }
    }

    /** Removes the holder and lets waiters in, first come first served, up to the first that has to go on waiting. */
    method Release(t: TxnId, table: Table) returns (ghost n: nat)
      requires Valid()
      modifies this
      ensures Valid()
      ensures locks == if table in old(locks) then old(locks)[table := Released(old(locks)[table], t)] else old(locks)
      ensures table in old(locks) ==> HandedOver(old(locks)[table], t, locks[table], n)
    {
      hide HandedOver, EntryOk, Admitted, WithAll;
      n := 0;
      if table !in locks { return; }
      var e := locks[table];
      var holders, remaining := GrantWaiters(e.holders - {t}, e.waiters);
      ReleasedOk(e, t);
      n := Handing(e, t);
      locks := locks[table := Entry(holders, remaining)];
    }

    /** Releases every table the transaction holds, one after the other. */
    method ReleaseAll(t: TxnId)
      requires Valid()
      modifies this
      ensures Valid() && locks.Keys == old(locks).Keys
      ensures forall table :: table in locks ==>
        locks[table] == if t in old(locks)[table].holders then Released(old(locks)[table], t) else old(locks)[table]
    {
      hide HandedOver, EntryOk, Released;
      var tables := set table | table in locks && t in locks[table].holders;
      ghost var all := tables;
      while tables != {}
        invariant Valid() && locks.Keys == old(locks).Keys && tables <= all
        invariant forall table :: table in locks ==>
          locks[table] == if table in all && table !in tables then Released(old(locks)[table], t) else old(locks)[table]
        decreases tables
      {
        var table :| table in tables;
        ghost var n := Release(t, table);
        tables := tables - {table};
      }
    }
  }

  lemma {:induction false} ExclusiveExcludes(holders: map<TxnId, Mode>, t: TxnId)
    requires t in holders && holders[t] == Exclusive
    ensures forall m: Mode :: !CanGrant(holders, m)
  {
    assert holders != map[];
  }

  lemma {:induction false} AdmitsNoMore(holders: map<TxnId, Mode>, t: TxnId, ws: seq<Waiter>)
    requires t in holders && holders[t] == Exclusive
    ensures Admitted(holders, ws) == 0
  {
  }
}
