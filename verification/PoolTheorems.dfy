/** What the cache promises over whole runs. */
module PoolTheorems {
  import opened Recovery
  import opened BufferPools

  ghost function Contents(pool: BufferPool): map<PageId, Image>
    requires pool.Valid()
    reads pool
  {
    map p | p in pool.disk :: pool.Content(p)
  }

  /** At any moment of any run: stop here, recover, and only ended transactions are left. */
  lemma {:induction false} CrashAnywhere(pool: BufferPool)
    requires pool.Valid() && pool.logging && LosersLast(pool.log, Active(pool.log))
    ensures Recovered(pool.disk, pool.log) == Winners(pool.start, pool.log, Active(pool.log))
  {
    RedoIsCrashDisk(pool.start, pool.log);
    RecoveryCorrect(pool.start, pool.log, pool.disk);
  }

  /** The moment between logging a page and writing it is no different. */
  lemma {:induction false} CrashBetween(pool: BufferPool, r: Record)
    requires pool.Valid() && pool.logging && r.Update? && r.page in pool.disk && r.before == pool.disk[r.page]
    requires LosersLast(pool.log + [r], Active(pool.log + [r]))
    ensures Recovered(pool.disk, pool.log + [r]) == Winners(pool.start, pool.log + [r], Active(pool.log + [r]))
  {
    LogThenWrite(pool.start, pool.log, pool.disk, r);
    RecoveryCorrect(pool.start, pool.log + [r], pool.disk);
  }

  // ----- runs of clients -----

  datatype Action = Fetch(page: PageId) | Put(page: PageId, data: Image) | Unpin(page: PageId, dirty: bool) | Flush

  /** A pool as a value: what can be seen of it between two calls. */
  datatype Moment = Moment(tables: Tables, disk: Disk, log: Log, unmarked: set<PageId>)

  ghost function Now(pool: BufferPool): Moment
    reads pool
  {
    Moment(pool.Cached(), pool.disk, pool.log, pool.unmarked)
  }

  ghost function Seen(v: Moment): map<PageId, Image> { map p | p in v.disk :: View(v.tables, v.disk, p) }

  lemma {:induction false} SeenNow(pool: BufferPool)
    requires pool.Valid()
    ensures Seen(Now(pool)) == Contents(pool)
  {}

  /** A client may write to what it has pinned, and may not hide a write when giving the last pin back. */
  ghost predicate Allowed(v: Moment, a: Action) {
    match a
    case Fetch(_) => true
    case Put(p, _) => p in v.tables.frames && v.tables.frames[p].pinCount > 0
    case Unpin(p, dirty) => p in v.unmarked && !dirty ==> p in v.tables.frames && v.tables.frames[p].pinCount > 1
    case Flush => true
  }

  ghost predicate AllPinned(t: Tables) { forall q :: q in t.frames ==> t.frames[q].pinCount > 0 }

  /**
    * Fetching: nothing happens when every frame is pinned; otherwise the page,
    * if there is one, is pinned once more and comes first.
    */
  ghost predicate AfterFetch(capacity: nat, v: Moment, p: PageId, w: Moment) {
    var f, g := v.tables.frames, w.tables.frames;
    && w.unmarked == v.unmarked
    && (p !in f && |v.tables.lru| >= capacity && AllPinned(v.tables) ==> w == v)
    && (p in f || (p in v.disk && !(|v.tables.lru| >= capacity && AllPinned(v.tables))) ==>
          p in g && g[p].pinCount == (if p in f then f[p].pinCount + 1 else 1) && w.tables.lru != []
              && w.tables.lru[0] == p)
    && (p !in f && p !in v.disk ==> p !in g)
    && (forall q :: q in g && q != p ==> q in f && g[q] == f[q])
    && (forall q :: q in f && q != p && q !in g ==> f[q].pinCount == 0)
    && (forall q :: q in w.tables.owner ==> q in v.tables.owner && w.tables.owner[q] == v.tables.owner[q])
    && (forall q :: q in v.disk && q in w.disk && w.disk[q] != v.disk[q] ==> q in f && f[q].dirty && q !in g && w.disk[q] == f[q].data)
    && (|v.tables.lru| < capacity ==> f.Keys <= g.Keys && w.disk == v.disk)
    && |w.tables.lru| <= |v.tables.lru| + 1
    && (p in g ==> Recency(f, v.tables.lru, w.tables.lru, p, capacity))
  }

  ghost predicate AfterPut(v: Moment, p: PageId, data: Image, w: Moment) {
    p in v.tables.frames
    && w == v.(tables := v.tables.(frames := v.tables.frames[p := v.tables.frames[p].(data := data)]),
       unmarked := v.unmarked + {p})
  }

  ghost predicate AfterUnpin(t: TxnId, v: Moment, p: PageId, dirty: bool, w: Moment) {
    if p in v.tables.frames && p in v.tables.clean then
      w == v.(tables := Unpinned(v.tables, p, dirty, t), unmarked := if dirty then v.unmarked - {p} else v.unmarked)
    else w == v
  }

  /** Flushing: no frame is dirty, and the disk holds what clients see, but for writes not yet announced. */
  ghost predicate AfterFlush(v: Moment, w: Moment) {
    && w.unmarked == v.unmarked && w.tables.frames.Keys == v.tables.frames.Keys && w.tables.lru == v.tables.lru
    && (forall q :: q in w.tables.frames ==> w.tables.frames[q] == v.tables.frames[q].(dirty := false))
    && (forall q :: q in v.disk && q in w.disk && q !in v.unmarked ==> w.disk[q] == View(v.tables, v.disk, q))
  }

  /** What the client remembers after an action that was carried out. */
  function Marked(marks: set<PageId>, a: Action, cached: bool): set<PageId> {
    if a.Put? then marks + {a.page} else if a.Unpin? && a.dirty && cached then marks - {a.page} else marks
  }

  /** One step of transaction `t`: what each action does, and that only a write changes what clients see. */
  ghost predicate Step(capacity: nat, t: TxnId, v: Moment, a: Action, w: Moment) {
    && w.disk.Keys == v.disk.Keys && w.unmarked == Marked(v.unmarked, a, a.Unpin? && a.page in v.tables.frames)
    && Seen(w) == (if a.Put? then Seen(v)[a.page := a.data] else Seen(v))
    && (match a
        case Fetch(p) => AfterFetch(capacity, v, p, w)
        case Put(p, d) => AfterPut(v, p, d, w)
        case Unpin(p, dirty) => AfterUnpin(t, v, p, dirty, w)
        case Flush => AfterFlush(v, w))
  }

  method DoFetch(pool: BufferPool, p: PageId)
    requires pool.Valid()
    modifies pool
    ensures pool.Valid() && pool.currentTxnID == old(pool.currentTxnID) && SamePages(pool.disk, old(pool.disk))
    ensures forall q :: q in pool.disk ==> pool.Content(q) == old(pool.Content(q))
    ensures AfterFetch(pool.capacity, old(Now(pool)), p, Now(pool))
  {
    hide BufferPool.Valid, BufferPool.Content;
    var r := pool.FetchPage(p);
  }

  method DoUnpin(pool: BufferPool, p: PageId, dirty: bool)
    requires pool.Valid() && Allowed(Now(pool), Unpin(p, dirty))
    modifies pool
    ensures pool.Valid() && pool.currentTxnID == old(pool.currentTxnID) && pool.disk == old(pool.disk)
    ensures forall q :: q in pool.disk ==> pool.Content(q) == old(pool.Content(q))
    ensures AfterUnpin(pool.currentTxnID, old(Now(pool)), p, dirty, Now(pool))
    ensures pool.unmarked == Marked(old(pool.unmarked), Unpin(p, dirty), p in old(pool.frames))
  {
    hide BufferPool.Valid, BufferPool.Content, Unpinned;
    var ok := pool.UnpinPage(p, dirty);
  }

  method DoFlush(pool: BufferPool)
    requires pool.Valid()
    modifies pool
    ensures pool.Valid() && pool.currentTxnID == old(pool.currentTxnID) && SamePages(pool.disk, old(pool.disk))
    ensures forall q :: q in pool.disk ==> pool.Content(q) == old(pool.Content(q))
    ensures AfterFlush(old(Now(pool)), Now(pool))
  {
    hide BufferPool.Valid, View;
    pool.FlushAll();
  }

  /** One action the client is allowed, carried out. */
  method Act(pool: BufferPool, a: Action)
    requires pool.Valid() && Allowed(Now(pool), a)
    modifies pool
    ensures pool.Valid() && pool.currentTxnID == old(pool.currentTxnID)
    ensures Step(pool.capacity, pool.currentTxnID, old(Now(pool)), a, Now(pool))
  {
    hide BufferPool.Valid, View, AfterFetch, AfterFlush, AfterUnpin, Seen;
    SeenNow(pool);
    match a {
      case Fetch(p) =>
        DoFetch(pool, p);
        assert pool.unmarked == old(pool.unmarked) by { FetchUnmarked(pool.capacity, old(Now(pool)), p, Now(pool)); }
      case Put(p, d) => pool.Write(p, d);
      case Unpin(p, dirty) => DoUnpin(pool, p, dirty);
      case Flush =>
        DoFlush(pool);
        assert pool.unmarked == old(pool.unmarked) by { FlushUnmarked(old(Now(pool)), Now(pool)); }
    }
    SeenNow(pool);
  }

  lemma {:induction false} FetchUnmarked(capacity: nat, v: Moment, p: PageId, w: Moment)
    requires AfterFetch(capacity, v, p, w)
    ensures w.unmarked == v.unmarked
  {}

  lemma {:induction false} FlushUnmarked(v: Moment, w: Moment)
    requires AfterFlush(v, w)
    ensures w.unmarked == v.unmarked
  {}

  /** Whether the client follows the rules; `marks` are the pages it has written to and not yet announced. */
  method Permit(pool: BufferPool, marks: set<PageId>, a: Action) returns (ok: bool)
    requires marks == pool.unmarked
    ensures ok <==> Allowed(Now(pool), a)
  {
    match a {
      case Fetch(_) => ok := true;
      case Put(p, _) => ok := p in pool.frames && pool.frames[p].pinCount > 0;
      case Unpin(p, dirty) => ok := p !in marks || dirty || (p in pool.frames && pool.frames[p].pinCount > 1);
      case Flush => ok := true;
    }
  }

  ghost predicate StepAt(capacity: nat, t: TxnId, acts: seq<Action>, trace: seq<Moment>, i: nat)
    requires i < |acts| && |trace| == |acts| + 1
  {
    if Allowed(trace[i], acts[i]) then Step(capacity, t, trace[i], acts[i], trace[i + 1]) else trace[i + 1] == trace[i]
  }

  /** A run: from moment to moment, every action the client was allowed was carried out, and the others were skipped. */
  ghost predicate Traced(capacity: nat, t: TxnId, acts: seq<Action>, trace: seq<Moment>) {
    |trace| == |acts| + 1 && forall i: nat :: i < |acts| ==> StepAt(capacity, t, acts, trace, i)
  }

  /** The writes of a run. */
  ghost function Puts(acts: seq<Action>, trace: seq<Moment>): seq<PageWrite>
    requires |trace| == |acts| + 1
  {
    if acts == [] then [] else
    var n := |acts| - 1;
    Puts(acts[..n], trace[..n + 1])
      + (if acts[n].Put? && Allowed(trace[n], acts[n]) then [PageWrite(acts[n].page, acts[n].data)] else [])
  }

  lemma {:induction false} TracedMore(capacity: nat, t: TxnId, acts: seq<Action>, trace: seq<Moment>, a: Action,
                                      w: Moment)
    requires Traced(capacity, t, acts, trace)
    requires var v := trace[|acts|]; if Allowed(v, a) then Step(capacity, t, v, a, w) else w == v
    ensures Traced(capacity, t, acts + [a], trace + [w])
  {
    hide Step, Allowed;
    forall i: nat | i < |acts| + 1 ensures StepAt(capacity, t, acts + [a], trace + [w], i) {
      if i < |acts| { assert StepAt(capacity, t, acts, trace, i); }
    }
  }

  /** Every page is what clients last wrote to it, whatever was cached, flushed or evicted meanwhile. */
  lemma {:induction false} SeenIsWritten(capacity: nat, t: TxnId, acts: seq<Action>, trace: seq<Moment>)
    requires Traced(capacity, t, acts, trace)
    ensures Seen(trace[|acts|]) == Written(Seen(trace[0]), Puts(acts, trace))
  {
    hide Seen, AfterFetch, AfterPut, AfterUnpin, AfterFlush, Written;
    var start := Seen(trace[0]);
    if acts == [] {
      WrittenNone(start);
    } else {
      var n := |acts| - 1;
      TracedLess(capacity, t, acts, trace);
      SeenIsWritten(capacity, t, acts[..n], trace[..n + 1]);
      assert StepAt(capacity, t, acts, trace, n);
      var before, a := Puts(acts[..n], trace[..n + 1]), acts[n];
      if a.Put? && Allowed(trace[n], a) {
        WrittenConcat(start, before, [PageWrite(a.page, a.data)]);
        WrittenOne(Written(start, before), PageWrite(a.page, a.data));
      } else {
        assert before + [] == before;
      }
    }
  }

  lemma {:induction false} WrittenNone(disk: Disk)
    ensures Written(disk, []) == disk
  {}

  lemma {:induction false} TracedLess(capacity: nat, t: TxnId, acts: seq<Action>, trace: seq<Moment>)
    requires Traced(capacity, t, acts, trace) && acts != []
    ensures Traced(capacity, t, acts[..|acts| - 1], trace[..|acts|])
  {
    hide Step, Allowed;
    var less, tr := acts[..|acts| - 1], trace[..|acts|];
    forall i: nat | i < |less| ensures StepAt(capacity, t, less, tr, i) {
      assert StepAt(capacity, t, acts, trace, i);
    }
  }

  /**
    * Any run of a client that remembers its own writes: each allowed action
    * takes its step, and pages are what was last written.
    */
  method Play(pool: BufferPool, marks: set<PageId>,
              acts: seq<Action>) returns (ghost trace: seq<Moment>, after: set<PageId>)
    requires pool.Valid() && marks == pool.unmarked
    modifies pool
    ensures pool.Valid() && pool.currentTxnID == old(pool.currentTxnID) && after == pool.unmarked
    ensures |trace| == |acts| + 1 && Traced(pool.capacity, pool.currentTxnID, acts, trace)
    ensures trace[0] == old(Now(pool)) && trace[|acts|] == Now(pool)
    ensures Contents(pool) == Written(old(Contents(pool)), Puts(acts, trace))
  {
    hide BufferPool.Valid, Contents, Allowed, Puts, Written, Seen, Traced, AfterFetch, AfterFlush, AfterUnpin, AfterPut;
    SeenNow(pool);
    trace, after := [Now(pool)], marks;
    TracedNone(pool.capacity, pool.currentTxnID, trace);
    var i := 0;
    assert acts[..0] == [];
    while i < |acts|
      invariant 0 <= i <= |acts| && |trace| == i + 1 && pool.Valid() && after == pool.unmarked
      invariant pool.currentTxnID == old(pool.currentTxnID)
      invariant Traced(pool.capacity, pool.currentTxnID, acts[..i], trace)
      invariant trace[0] == old(Now(pool)) && trace[i] == Now(pool)
    {
      var a := acts[i];
      var allowed := Permit(pool, after, a);
      assert acts[..i + 1] == acts[..i] + [a];
      if allowed {
        var cached := a.Unpin? && a.page in pool.frames;
        Act(pool, a);
        after := Marked(after, a, cached);
      }
      TracedMore(pool.capacity, pool.currentTxnID, acts[..i], trace, a, Now(pool));
      trace := trace + [Now(pool)];
      i := i + 1;
    }
    assert acts[..i] == acts;
    SeenNow(pool);
    SeenIsWritten(pool.capacity, pool.currentTxnID, acts, trace);
  }

  lemma {:induction false} TracedNone(capacity: nat, t: TxnId, trace: seq<Moment>)
    requires |trace| == 1
    ensures Traced(capacity, t, [], trace)
  {}

  // ----- rollback -----

  /** Nothing cached differs from the disk, and nobody is in the middle of a write. */
  ghost predicate Quiet(pool: BufferPool)
    requires pool.Valid()
    reads pool
  {
    pool.unmarked == {} && pool.dirtyTxn == map[]
  }

  lemma {:induction false} QuietContents(pool: BufferPool)
    requires pool.Valid() && Quiet(pool)
    ensures Contents(pool) == pool.disk
  {
    forall p | p in pool.disk ensures pool.Content(p) == pool.disk[p] {
      assert PageOk(pool.Cached(), pool.disk, pool.unmarked, p);
    }
  }

  /** No dirty page left the cache in the course of a run. */
  ghost predicate NoDirtyEvicted(trace: seq<Moment>) {
    forall i: nat :: i + 1 < |trace| ==> StayAt(trace, i)
  }

  ghost predicate StayAt(trace: seq<Moment>, i: nat)
    requires i + 1 < |trace|
  {
    DirtyStay(trace[i].tables, trace[i + 1].tables)
  }

  ghost predicate DirtyStay(t: Tables, u: Tables) { forall q :: q in t.frames && t.frames[q].dirty ==> q in u.frames }

  ghost predicate NoFlush(acts: seq<Action>) { forall a <- acts :: !a.Flush? }

  /** Without a flush, the disk changes only by evicting a dirty page. */
  lemma {:induction false} DiskKept(capacity: nat, t: TxnId, acts: seq<Action>, trace: seq<Moment>)
    requires Traced(capacity, t, acts, trace) && NoFlush(acts) && NoDirtyEvicted(trace)
    ensures trace[|acts|].disk == trace[0].disk
  {
    hide Seen;
    if acts != [] {
      var n := |acts| - 1;
      TracedLess(capacity, t, acts, trace);
      var less := trace[..n + 1];
      forall i: nat | i + 1 < |less| ensures StayAt(less, i) { assert StayAt(trace, i); }
      DiskKept(capacity, t, acts[..n], trace[..n + 1]);
      assert StepAt(capacity, t, acts, trace, n) && acts[n] in acts && StayAt(trace, n);
      StepKeepsDisk(capacity, t, trace[n], acts[n], trace[n + 1]);
    }
  }

  lemma {:induction false} StepKeepsDisk(capacity: nat, t: TxnId, v: Moment, a: Action, w: Moment)
    requires !a.Flush? && DirtyStay(v.tables, w.tables)
             && (if Allowed(v, a) then Step(capacity, t, v, a, w) else w == v)
    ensures w.disk == v.disk
  {
    hide Seen;
    if a.Fetch? {
      forall q | q in v.disk ensures w.disk[q] == v.disk[q] {}
    }
  }

  /** With a free frame for every action, nothing is evicted at all. */
  lemma {:induction false} RoomForAll(capacity: nat, t: TxnId, acts: seq<Action>, trace: seq<Moment>)
    requires Traced(capacity, t, acts, trace) && NoFlush(acts) && |trace[0].tables.lru| + |acts| <= capacity
    ensures NoDirtyEvicted(trace) && |trace[|acts|].tables.lru| <= |trace[0].tables.lru| + |acts|
  {
    hide Seen;
    if acts != [] {
      var n := |acts| - 1;
      TracedLess(capacity, t, acts, trace);
      RoomForAll(capacity, t, acts[..n], trace[..n + 1]);
      assert StepAt(capacity, t, acts, trace, n) && acts[n] in acts;
      StepRoom(capacity, t, trace[n], acts[n], trace[n + 1]);
      forall i: nat | i + 1 < |trace| ensures StayAt(trace, i) {
        if i < n { assert StayAt(trace[..n + 1], i); }
      }
    }
  }

  lemma {:induction false} StepRoom(capacity: nat, t: TxnId, v: Moment, a: Action, w: Moment)
    requires !a.Flush? && |v.tables.lru| < capacity && (if Allowed(v, a) then Step(capacity, t, v, a, w) else w == v)
    ensures DirtyStay(v.tables, w.tables) && |w.tables.lru| <= |v.tables.lru| + 1
  {
    hide Seen;
  }

  ghost predicate OwnedBy(v: Moment, t: TxnId) { forall q :: q in v.tables.owner ==> v.tables.owner[q] == t }

  /** What a transaction dirties on a quiet pool is its own. */
  lemma {:induction false} OnlyOwner(capacity: nat, t: TxnId, acts: seq<Action>, trace: seq<Moment>)
    requires Traced(capacity, t, acts, trace) && NoFlush(acts) && OwnedBy(trace[0], t)
    ensures OwnedBy(trace[|acts|], t)
  {
    hide Seen;
    if acts != [] {
      var n := |acts| - 1;
      TracedLess(capacity, t, acts, trace);
      OnlyOwner(capacity, t, acts[..n], trace[..n + 1]);
      assert StepAt(capacity, t, acts, trace, n) && acts[n] in acts;
      StepOwner(capacity, t, trace[n], acts[n], trace[n + 1]);
    }
  }

  lemma {:induction false} StepOwner(capacity: nat, t: TxnId, v: Moment, a: Action, w: Moment)
    requires !a.Flush? && OwnedBy(v, t) && (if Allowed(v, a) then Step(capacity, t, v, a, w) else w == v)
    ensures OwnedBy(w, t)
  {
    hide Seen;
  }

  /**
    * A transaction on a quiet pool does anything but flush and is rolled back.
    * Before the rollback its writes are seen; after it every page it announced
    * as dirty and that is still cached is as on disk, and no other page changed.
    * If no dirty page was evicted and no write left unannounced, everything is
    * as it was at the beginning; room in the cache for the whole run suffices
    * for the first.
    */
  method BeginPlayRollback(pool: BufferPool, t: TxnId, acts: seq<Action>) returns (ghost trace: seq<Moment>)
    requires pool.Valid() && Quiet(pool) && NoFlush(acts)
    modifies pool
    ensures pool.Valid() && forall q :: q in pool.dirtyTxn ==> pool.dirtyTxn[q] != t
    ensures |trace| == |acts| + 1 && Traced(pool.capacity, t, acts, trace) && trace[0] == old(Now(pool))
    ensures var end := trace[|acts|];
            && Seen(end) == Written(old(Contents(pool)), Puts(acts, trace))
            && pool.disk == end.disk && pool.unmarked == end.unmarked
            && (forall q :: q in pool.disk ==> pool.Content(q) == if q in end.tables.owner then pool.disk[q] else Seen(end)[q])
            && (end.unmarked == {}
               ==> Quiet(pool) && (Contents(pool) == old(Contents(pool)) <==> end.disk == old(pool.disk)))
            && (end.unmarked == {} && NoDirtyEvicted(trace) ==> Contents(pool) == old(Contents(pool)))
    ensures |old(pool.lru)| + |acts| <= pool.capacity ==> NoDirtyEvicted(trace)
  {
    hide TablesOk, Chained, Redo, View, Traced, Puts, Written;
    QuietContents(pool);
    SeenNow(pool);
    pool.SetTxnID(t);
    SeenNow(pool);
    var marks;
    trace, marks := Play(pool, {}, acts);
    SeenNow(pool);
    OnlyOwner(pool.capacity, t, acts, trace);
    if NoDirtyEvicted(trace) { DiskKept(pool.capacity, t, acts, trace); }
    if |trace[0].tables.lru| + |acts| <= pool.capacity { RoomForAll(pool.capacity, t, acts, trace); }
    pool.RollbackTxn(t);
    if pool.unmarked == {} { RolledBack(pool); }
  }

  lemma {:induction false} RolledBack(pool: BufferPool)
    requires pool.Valid() && pool.unmarked == {} && forall q :: q !in pool.dirtyTxn
    ensures Quiet(pool) && Contents(pool) == pool.disk
  {
    assert pool.dirtyTxn == map[];
    QuietContents(pool);
  }

  // ----- pins -----

  ghost function Count(acts: seq<Action>, p: PageId, fetch: bool): nat {
    if acts == [] then 0
    else
      var a := acts[|acts| - 1];
      Count(acts[..|acts| - 1], p, fetch)
      + if (if fetch then a.Fetch? else a.Unpin?) && a.page == p then 1 else 0
  }

  /** The page is cached, and pinned whenever a pin is given back. */
  ghost predicate PinnedAt(acts: seq<Action>, trace: seq<Moment>, p: PageId, i: nat)
    requires i <= |acts| && |trace| == |acts| + 1
  {
    p in trace[i].tables.frames && p in trace[i].tables.clean
    && (i < |acts| && acts[i].Unpin? && acts[i].page == p
       ==> Allowed(trace[i], acts[i]) && trace[i].tables.frames[p].pinCount > 0)
  }

  /**
    * Over any run every fetch of a page adds one pin and every unpin takes one:
    * as many of each leave the count as it was.
    */
  lemma {:induction false} PinsBalance(capacity: nat, t: TxnId, acts: seq<Action>, trace: seq<Moment>, p: PageId)
    requires |trace| == |acts| + 1 && Traced(capacity, t, acts, trace)
    requires PinnedAt(acts, trace, p, 0) && PinnedAt(acts, trace, p, |acts|)
    requires forall i: nat :: i <= |acts| ==> PinnedAt(acts, trace, p, i)
    ensures trace[|acts|].tables.frames[p].pinCount + Count(acts, p, false)
         == trace[0].tables.frames[p].pinCount + Count(acts, p, true)
  {
    hide Seen;
    if acts != [] {
      var n := |acts| - 1;
      var less, tr := acts[..n], trace[..|acts|];
      TracedLess(capacity, t, acts, trace);
      forall i: nat | i <= n ensures PinnedAt(less, tr, p, i) { assert PinnedAt(acts, trace, p, i); }
      PinsBalance(capacity, t, less, tr, p);
      assert PinnedAt(acts, trace, p, n) && PinnedAt(acts, trace, p, n + 1);
      assert StepAt(capacity, t, acts, trace, n);
      PinStep(capacity, t, trace[n], acts[n], trace[n + 1], p);
    }
  }

  /** One action and the pins of one page. */
  lemma {:induction false} PinStep(capacity: nat, t: TxnId, v: Moment, a: Action, w: Moment, p: PageId)
    requires p in v.tables.frames && p in v.tables.clean && p in w.tables.frames
    requires if Allowed(v, a) then Step(capacity, t, v, a, w) else v == w && !(a.Unpin? && a.page == p)
    ensures a.Unpin? && a.page == p && v.tables.frames[p].pinCount > 0
            ==> w.tables.frames[p].pinCount == v.tables.frames[p].pinCount - 1
    ensures a.Fetch? && a.page == p ==> w.tables.frames[p].pinCount == v.tables.frames[p].pinCount + 1
    ensures !(a.Fetch? || a.Unpin?) || a.page != p ==> w.tables.frames[p].pinCount == v.tables.frames[p].pinCount
  {
    hide Seen, View, Recency;
  }

  /**
    * A cached page fetched `n` times and given back `n` times: its pins are as
    * they were, and nothing has changed on the way.
    */
  method HoldAndLetGo(pool: BufferPool, p: PageId, n: nat)
    requires pool.Valid() && p in pool.frames && p !in pool.unmarked
    modifies pool
    ensures pool.Valid() && p in pool.frames && pool.frames[p].pinCount == old(pool.frames)[p].pinCount
    ensures Contents(pool) == old(Contents(pool))
  {
    hide BufferPool.Valid, View, Recency, BufferPool.Content;
    var i := 0;
    while i < n
      invariant 0 <= i <= n && pool.Valid() && p in pool.frames && p !in pool.unmarked
                && Contents(pool) == old(Contents(pool))
      invariant pool.frames[p].pinCount == old(pool.frames)[p].pinCount + i
    {
      var r := pool.FetchPage(p);
      i := i + 1;
    }
    while i > 0
      invariant 0 <= i <= n && pool.Valid() && p in pool.frames && p !in pool.unmarked
                && Contents(pool) == old(Contents(pool))
      invariant pool.frames[p].pinCount == old(pool.frames)[p].pinCount + i
    {
      var ok := pool.UnpinPage(p, false);
      i := i - 1;
    }
  }

  // ----- a rollback that comes too late -----

  lemma {:induction false} OnlyFirst(pool: BufferPool, p: PageId, q: PageId)
    requires pool.Valid() && |pool.lru| == 1 && pool.lru[0] == p && p != q
    ensures q !in pool.frames && q !in pool.dirtyTxn
  {
    assert PageOk(pool.Cached(), pool.disk, pool.unmarked, q);
  }

  const TWO_PAGES: Disk := map[0 := [0], 1 := [0]]

  lemma {:induction false} PagesOf(pool: BufferPool)
    requires pool.Valid() && pool.frames == map[] && pool.disk == TWO_PAGES
    ensures Contents(pool) == TWO_PAGES
  {}

  /** Transaction 7 has written page 0 and given it back; there is room for no other page. */
  method WriteFirstPage() returns (pool: BufferPool, ghost begin: map<PageId, Image>)
    ensures fresh(pool) && pool.Valid() && pool.capacity == 1 && SamePages(pool.disk, TWO_PAGES) && begin == TWO_PAGES
    ensures |pool.lru| == 1 && 0 in pool.frames && pool.frames[0].pinCount == 0 && 1 !in pool.frames
    ensures 0 in pool.disk && pool.Content(0) == [1]
  {
    hide TablesOk, Chained, Redo, View, BufferPool.Valid;
    pool := new BufferPool(1, TWO_PAGES, true);
    PagesOf(pool);
    begin := Contents(pool);
    pool.SetTxnID(7);
    var r := pool.FetchPage(0);
    pool.Write(0, [1]);
    var ok := pool.UnpinPage(0, true);
    OnlyFirst(pool, 0, 1);
  }

  /**
    * Room for one page: a transaction writes page 0, gives it back and fetches
    * page 1, for which page 0 goes to disk. The rollback does not bring back
    * what page 0 held at the beginning.
    */
  method EvictedWriteStays() returns (pool: BufferPool, ghost begin: map<PageId, Image>)
    ensures pool.Valid() && 0 in begin && begin[0] == [0] && 0 in pool.disk && pool.Content(0) == [1]
    ensures forall q :: q in pool.dirtyTxn ==> pool.dirtyTxn[q] != 7
  {
    hide TablesOk, Chained, Redo, View, BufferPool.Valid;
    pool, begin := WriteFirstPage();
    var r := pool.FetchPage(1);
    OnlyFirst(pool, 1, 0);
    pool.RollbackTxn(7);
  }
}
