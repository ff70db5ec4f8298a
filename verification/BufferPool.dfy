/** The page cache: pinning, eviction, write-ahead logging and rollback (storage/buffer_pool.go). */
module BufferPools {
  import opened Recovery

  datatype Frame = Frame(data: Image, dirty: bool, pinCount: nat)

  datatype FetchResult = Fetched | AllPinned | NoSuchPage

  /** Everything the log has to say is chained, and pages it does not mention are untouched: recovery can start here. */
  ghost predicate Crashable(start: Disk, log: Log, disk: Disk) {
    Chained(start, log) && CrashDisk(start, log, disk)
  }

  ghost predicate SamePages(a: Disk, b: Disk) { forall p :: p in a <==> p in b }

  ghost predicate Distinct(s: seq<PageId>) {
    forall i, j :: 0 <= i < j < |s| ==> s[i] != s[j]
  }

  lemma {:induction false} RemoveAt(s: seq<PageId>, i: nat)
    requires Distinct(s) && i < |s|
    ensures var r := s[..i] + s[i + 1..];
            Distinct(r) && forall p :: p in r <==> p in s && p != s[i]
  {
    var r := s[..i] + s[i + 1..];
    forall p ensures p in r <==> p in s && p != s[i] {
      if p in s && p != s[i] {
        var k :| 0 <= k < |s| && s[k] == p;
        assert r[if k < i then k else k - 1] == p;
      }
      if p in r {
        var k :| 0 <= k < |r| && r[k] == p;
        assert p == s[if k < i then k else k + 1];
      }
    }
  }

  lemma {:induction false} PushFront(s: seq<PageId>, p: PageId)
    requires Distinct(s) && p !in s
    ensures Distinct([p] + s) && forall q :: q in [p] + s <==> q == p || q in s
  {
  }

  /** The cache's tables as one value. */
  datatype Tables = Tables(frames: map<PageId, Frame>, lru: seq<PageId>, clean: map<PageId, Image>,
                           before: map<PageId, Image>, owner: map<PageId, TxnId>)

  /** What holds of one page: its tables agree with one another and with the disk. */
  ghost predicate PageOk(t: Tables, disk: Disk, unmarked: set<PageId>, p: PageId) {
    && (p in t.lru <==> p in t.frames)
    && (p in t.clean <==> p in t.frames)
    && (p in t.before <==> p in t.frames && t.frames[p].dirty)
    && (p in t.owner <==> p in t.frames && t.frames[p].dirty)
    && (p in t.frames ==> p in disk && t.clean[p] == disk[p])
    && (p in t.before ==> t.before[p] == disk[p])
    && (p in t.frames && !t.frames[p].dirty && p !in unmarked ==> t.frames[p].data == disk[p])
    && (p in unmarked ==> p in t.frames && t.frames[p].pinCount > 0)
  }

  ghost predicate TablesOk(t: Tables, disk: Disk, unmarked: set<PageId>) {
    Distinct(t.lru) && forall p {:trigger PageOk(t, disk, unmarked, p)} :: PageOk(t, disk, unmarked, p)
  }

  ghost function View(t: Tables, disk: Disk, p: PageId): Image
    requires p in disk
  {
    if p in t.frames then t.frames[p].data else disk[p]
  }

  ghost function Dropped(t: Tables, i: nat): Tables
    requires i < |t.lru|
  {
    var p := t.lru[i];
    Tables(t.frames - {p}, t.lru[..i] + t.lru[i + 1..], t.clean - {p}, t.before - {p}, t.owner - {p})
  }

  /** Dropping an unpinned page whose bytes are on disk. */
  lemma {:induction false} DropKeeps(t: Tables, disk: Disk, unmarked: set<PageId>, i: nat, disk': Disk)
    requires TablesOk(t, disk, unmarked) && i < |t.lru| && t.lru[i] in t.frames && t.frames[t.lru[i]].pinCount == 0
    requires disk' == disk[t.lru[i] := t.frames[t.lru[i]].data]
    ensures TablesOk(Dropped(t, i), disk', unmarked)
    ensures forall p :: p in disk' ==> p in disk && View(Dropped(t, i), disk', p) == View(t, disk, p)
  {
    RemoveAt(t.lru, i);
    assert PageOk(t, disk, unmarked, t.lru[i]);
    forall p ensures PageOk(Dropped(t, i), disk', unmarked, p) { assert PageOk(t, disk, unmarked, p); }
  }

  ghost function Fronted(t: Tables, i: nat, pins: nat): Tables
    requires i < |t.lru| && t.lru[i] in t.frames
  {
    t.(frames := t.frames[t.lru[i] := t.frames[t.lru[i]].(pinCount := pins)],
        lru := [t.lru[i]] + (t.lru[..i] + t.lru[i + 1..]))
  }

  lemma {:induction false} MoveFrontKeeps(t: Tables, disk: Disk, unmarked: set<PageId>, i: nat, pins: nat)
    requires TablesOk(t, disk, unmarked) && i < |t.lru| && t.lru[i] in t.frames && pins > 0
    ensures TablesOk(Fronted(t, i, pins), disk, unmarked)
    ensures forall q :: q in disk ==> View(Fronted(t, i, pins), disk, q) == View(t, disk, q)
  {
    RemoveAt(t.lru, i);
    PushFront(t.lru[..i] + t.lru[i + 1..], t.lru[i]);
    forall q ensures PageOk(Fronted(t, i, pins), disk, unmarked, q) { assert PageOk(t, disk, unmarked, q); }
  }

  ghost function Loaded(t: Tables, disk: Disk, p: PageId): Tables
    requires p in disk
  {
    Tables(t.frames[p := Frame(disk[p], false, 1)], [p] + t.lru, t.clean[p := disk[p]], t.before, t.owner)
  }

  /** Loading a page that is not cached. */
  lemma {:induction false} LoadKeeps(t: Tables, disk: Disk, unmarked: set<PageId>, p: PageId)
    requires TablesOk(t, disk, unmarked) && p in disk && p !in t.frames
    ensures TablesOk(Loaded(t, disk, p), disk, unmarked)
    ensures forall q :: q in disk ==> View(Loaded(t, disk, p), disk, q) == View(t, disk, q)
  {
    assert PageOk(t, disk, unmarked, p);
    PushFront(t.lru, p);
    forall q ensures PageOk(Loaded(t, disk, p), disk, unmarked, q) { assert PageOk(t, disk, unmarked, q); }
  }

  /** The least recently fetched page without a pin. */
  ghost predicate Victim(frames: map<PageId, Frame>, lru: seq<PageId>, i: nat) {
    && i < |lru| && lru[i] in frames && frames[lru[i]].pinCount == 0
    && forall k :: i < k < |lru| ==> lru[k] in frames && frames[lru[k]].pinCount > 0
  }

  /** The page fetched comes first; the others keep their order, but for the victim that had to make room. */
  ghost predicate Recency(frames: map<PageId, Frame>, before: seq<PageId>, after: seq<PageId>, p: PageId,
                          capacity: nat) {
    if p in frames then exists i: nat :: i < |before| && before[i] == p && after == [p] + (before[..i] + before[i + 1..])
    else if |before| < capacity then after == [p] + before
    else exists i: nat :: Victim(frames, before, i) && after == [p] + (before[..i] + before[i + 1..])
  }

  /** Unpinning; the first time a page becomes dirty its clean snapshot becomes the before-image. */
  ghost function Unpinned(t: Tables, p: PageId, dirty: bool, txn: TxnId): Tables
    requires p in t.frames && p in t.clean
  {
    var f := t.frames[p];
    var pins := if f.pinCount > 0 then f.pinCount - 1 else 0;
    if dirty && !f.dirty then
      t.(frames := t.frames[p := Frame(f.data, true, pins)], before := t.before[p := t.clean[p]],
          owner := t.owner[p := txn])
    else
      t.(frames := t.frames[p := Frame(f.data, f.dirty, pins)])
  }

  lemma {:induction false} UnpinKeeps(t: Tables, disk: Disk, unmarked: set<PageId>, p: PageId, dirty: bool, txn: TxnId)
    requires TablesOk(t, disk, unmarked) && p in t.frames
    requires p in unmarked && !dirty ==> t.frames[p].pinCount > 1
    ensures p in t.clean
    ensures TablesOk(Unpinned(t, p, dirty, txn), disk, if dirty then unmarked - {p} else unmarked)
    ensures forall q :: q in disk ==> View(Unpinned(t, p, dirty, txn), disk, q) == View(t, disk, q)
  {
    assert PageOk(t, disk, unmarked, p);
    var now := if dirty then unmarked - {p} else unmarked;
    forall q ensures PageOk(Unpinned(t, p, dirty, txn), disk, now, q) { assert PageOk(t, disk, unmarked, q); }
  }

  /** A dirty page written back and clean again. */
  ghost function Cleaned(t: Tables, p: PageId): Tables
    requires p in t.frames
  {
    t.(frames := t.frames[p := t.frames[p].(dirty := false)], clean := t.clean[p := t.frames[p].data],
       before := t.before - {p}, owner := t.owner - {p})
  }

  lemma {:induction false} CleanKeeps(t: Tables, disk: Disk, unmarked: set<PageId>, p: PageId)
    requires TablesOk(t, disk, unmarked) && p in t.frames
    ensures p in disk
    ensures var disk' := disk[p := t.frames[p].data];
            TablesOk(Cleaned(t, p), disk', unmarked) && forall q :: q in disk ==> View(Cleaned(t, p), disk', q) == View(t, disk, q)
  {
    assert PageOk(t, disk, unmarked, p);
    var disk' := disk[p := t.frames[p].data];
    forall q ensures PageOk(Cleaned(t, p), disk', unmarked, q) { assert PageOk(t, disk, unmarked, q); }
  }

  /** A dirty page put back to its before-image. */
  ghost function Restored(t: Tables, p: PageId): Tables
    requires p in t.frames && p in t.before
  {
    t.(frames := t.frames[p := Frame(t.before[p], false, t.frames[p].pinCount)], clean := t.clean[p := t.before[p]],
       before := t.before - {p}, owner := t.owner - {p})
  }

  lemma {:induction false} RestoreKeeps(t: Tables, disk: Disk, unmarked: set<PageId>, p: PageId)
    requires TablesOk(t, disk, unmarked) && p in t.before
    ensures p in t.frames && p in disk
    ensures TablesOk(Restored(t, p), disk, unmarked)
    ensures forall q :: q in disk ==> View(Restored(t, p), disk, q) == if q == p then disk[p] else View(t, disk, q)
  {
    assert PageOk(t, disk, unmarked, p);
    forall q ensures PageOk(Restored(t, p), disk, unmarked, q) { assert PageOk(t, disk, unmarked, q); }
  }

  /** Logging a page image before writing it: both moments are fit for a crash. */
  lemma {:induction false} LogThenWrite(start: Disk, log: Log, disk: Disk, r: Record)
    requires Chained(start, log) && Redo(start, log) == disk && r.Update? && r.page in disk && r.before == disk[r.page]
    requires SamePages(disk, start)
    ensures Chained(start, log + [r]) && Redo(start, log + [r]) == disk[r.page := r.after]
    ensures Crashable(start, log + [r], disk) && Crashable(start, log + [r], disk[r.page := r.after])
  {
    assert Init(log + [r]) == log && Tail(log + [r]) == r;
    RedoIsCrashDisk(start, log);
    assert forall q <- log :: q in log + [r];
    assert r in log + [r];
  }

  lemma {:induction false} RedoIsCrashDisk(start: Disk, log: Log)
    requires Chained(start, log)
    ensures CrashDisk(start, log, Redo(start, log))
  {
    ChainedPages(start, log);
    forall p | p in start && (forall r <- log :: r.Update? ==> r.page != p) ensures Redo(start, log)[p] == start[p] {
      RedoUnmentioned(start, log, p);
    }
  }

  lemma {:induction false} RedoUnmentioned(start: Disk, log: Log, p: PageId)
    requires p in start && forall r <- log :: r.Update? ==> r.page != p
    ensures Redo(start, log)[p] == start[p]
  {
    if log != [] {
      assert Tail(log) in log && forall r <- Init(log) :: r in log;
      RedoUnmentioned(start, Init(log), p);
    }
  }

  /** Records of other kinds leave chain and disk alone. */
  lemma {:induction false} LogOther(start: Disk, log: Log, r: Record)
    requires Chained(start, log) && !r.Update?
    ensures Chained(start, log + [r]) && Redo(start, log + [r]) == Redo(start, log)
  {
    assert Init(log + [r]) == log && Tail(log + [r]) == r;
  }

  lemma {:induction false} ActiveUpdate(log: Log, r: Record)
    requires r.Update?
    ensures Active(log + [r]) == Active(log)
  {
    assert Init(log + [r]) == log && Tail(log + [r]) == r;
  }

  class BufferPool {
    const capacity: nat
    /** Whether a log is wired in. */
    const logging: bool
    var frames: map<PageId, Frame>
    /** Most recently fetched first. */
    var lru: seq<PageId>
    var currentTxnID: TxnId
    var cleanSnapshots: map<PageId, Image>
    var beforeImages: map<PageId, Image>
    var dirtyTxn: map<PageId, TxnId>
    /** The pager's file and the log file. */
    var disk: Disk
    var log: Log
    ghost const start: Disk
    /** Pages a client has written to and not yet unpinned as dirty. */
    ghost var unmarked: set<PageId>

    ghost function Cached(): Tables
      reads this
    {
      Tables(frames, lru, cleanSnapshots, beforeImages, dirtyTxn)
    }

    ghost predicate CacheOk()
      reads this
    {
      capacity >= 1 && TablesOk(Cached(), disk, unmarked)
    }

    ghost predicate LogOk()
      reads this
    {
      SamePages(disk, start) && (logging ==> Chained(start, log) && Redo(start, log) == disk)
    }

    ghost predicate Valid()
      reads this
    {
      CacheOk() && LogOk()
    }

    /** What clients see of a page, cached or not. */
    ghost function Content(p: PageId): Image
      requires p in disk && Valid()
      reads this
    {
      View(Cached(), disk, p)
    }

    constructor (capacity: nat, disk: Disk, logging: bool)
      requires capacity >= 1
      ensures Valid() && frames == map[] && lru == [] && this.disk == disk && log == [] && start == disk
              && unmarked == {}
      ensures this.capacity == capacity && this.logging == logging
    {
      this.capacity, this.logging := capacity, logging;
      frames, lru, currentTxnID := map[], [], 0;
      cleanSnapshots, beforeImages, dirtyTxn := map[], map[], map[];
      this.disk, log, start, unmarked := disk, [], disk, {};
    }

    method SetTxnID(t: TxnId)
      requires Valid()
      modifies this`currentTxnID
      ensures Valid() && currentTxnID == t
    {
      currentTxnID := t;
    }

    /** The transaction manager writes its records to the same log. */
    method LogRecord(r: Record)
      requires Valid() && !r.Update?
      modifies this`log
      ensures Valid() && log == old(log) + [r]
      ensures forall q :: q in disk ==> Content(q) == old(Content(q))
    {
      if logging { LogOther(start, log, r); }
      log := log + [r];
    }

    /** Logs the page image about to be written to disk. */
    method WriteWALUpdate(p: PageId, after: Image)
      requires Valid() && p in frames && frames[p].dirty
      modifies this`log
      ensures p in dirtyTxn && p in disk
      ensures logging ==> log == old(log) + [Update(dirtyTxn[p], p, disk[p], after)]
      ensures !logging ==> log == old(log)
      ensures Active(log) == Active(old(log))
      ensures logging ==> Crashable(start, log, disk)
      ensures logging ==> Chained(start, log) && Redo(start, log) == disk[p := after]
    {
      assert PageOk(Cached(), disk, unmarked, p);
      if !logging { return; }
      var before := beforeImages[p];
      var r := Update(dirtyTxn[p], p, before, after);
      LogThenWrite(start, log, disk, r);
      ActiveUpdate(log, r);
      log := log + [r];
    }

    /** The least recently fetched page without a pin: its place in `lru`, or none. */
    method FindVictim() returns (i: int)
      requires Valid() && lru != []
      ensures -1 <= i < |lru|
      ensures forall k :: 0 <= k < |lru| ==> lru[k] in frames
      ensures i >= 0 ==> frames[lru[i]].pinCount == 0
      ensures forall k :: i < k < |lru| ==> frames[lru[k]].pinCount != 0
    {
      forall k | 0 <= k < |lru| ensures lru[k] in frames { assert PageOk(Cached(), disk, unmarked, lru[k]); }
      i := |lru| - 1;
      while i >= 0 && frames[lru[i]].pinCount != 0
        invariant -1 <= i < |lru|
        invariant forall k :: i < k < |lru| ==> frames[lru[k]].pinCount != 0
      {
        i := i - 1;
      }
    }

    /** Drops an unpinned page, writing it back first if it is dirty. */
    method Evict(i: nat)
      requires Valid() && i < |lru| && lru[i] in frames && frames[lru[i]].pinCount == 0
      modifies this
      ensures Valid() && unmarked == old(unmarked) && currentTxnID == old(currentTxnID)
              && Active(log) == Active(old(log))
      ensures var p := old(lru)[i];
              && frames == old(frames) - {p} && lru == old(lru)[..i] + old(lru)[i + 1..]
              && disk == (if old(frames)[p].dirty then old(disk)[p := old(frames)[p].data] else old(disk))
      ensures SamePages(disk, old(disk))
      ensures forall q :: q in dirtyTxn ==> q in old(dirtyTxn) && dirtyTxn[q] == old(dirtyTxn)[q]
      ensures forall p :: p in disk ==> Content(p) == old(Content(p))
    {
      hide TablesOk, Chained, Redo, View, Active, Crashable;
      VictimIs(i);
      ghost var t, d := Cached(), disk;
      var p := lru[i];
      var f := frames[p];
      if f.dirty {
        WriteWALUpdate(p, f.data);
        disk := disk[p := f.data];
      }
      DropKeeps(t, d, unmarked, i, disk);
      lru, frames, beforeImages, dirtyTxn, cleanSnapshots :=
        lru[..i] + lru[i + 1..], frames - {p}, beforeImages - {p}, dirtyTxn - {p}, cleanSnapshots - {p};
      assert Cached() == Dropped(t, i);
    }

    /** Pins a page, loading it and making room for it when needed. */
    method FetchPage(p: PageId) returns (r: FetchResult)
      requires Valid()
      modifies this
      ensures Valid() && unmarked == old(unmarked) && currentTxnID == old(currentTxnID) && SamePages(disk, old(disk))
      ensures Active(log) == Active(old(log))
      ensures forall q :: q in disk ==> Content(q) == old(Content(q))
      ensures r.Fetched?
              ==> p in frames && p in disk
                  && frames[p].pinCount == (if p in old(frames) then old(frames)[p].pinCount + 1 else 1)
      ensures r.Fetched? ==> lru != [] && lru[0] == p
      ensures r.AllPinned? <==>
        p !in old(frames) && |old(lru)| >= capacity && forall q :: q in old(frames) ==> old(frames)[q].pinCount > 0
      ensures r.NoSuchPage? <==> p !in old(frames) && p !in old(disk) && !r.AllPinned?
      ensures forall q :: q in frames && q != p ==> q in old(frames) && frames[q] == old(frames)[q]
      ensures forall q :: q in old(frames) && q != p && q !in frames ==> old(frames)[q].pinCount == 0
      ensures forall q :: q in dirtyTxn ==> q in old(dirtyTxn) && dirtyTxn[q] == old(dirtyTxn)[q]
      ensures forall q :: q in old(disk) && disk[q] != old(disk)[q] ==>
        q in old(frames) && old(frames)[q].dirty && q !in frames && disk[q] == old(frames)[q].data
      ensures r.AllPinned? ==> Cached() == old(Cached()) && disk == old(disk) && log == old(log)
      ensures r.NoSuchPage? ==> p !in frames
      ensures |old(lru)| < capacity ==> old(frames).Keys <= frames.Keys && disk == old(disk)
      ensures |lru| <= |old(lru)| + 1 && (|old(lru)| >= capacity ==> |lru| <= |old(lru)|)
      ensures r.Fetched? ==> Recency(old(frames), old(lru), lru, p, capacity)
    {
      hide TablesOk, Chained, Redo, View, Active, Crashable, Recency;
      if p in frames {
        Hit(p);
        return Fetched;
      }
      ghost var f, order := frames, lru;
      FirstOf(f, order, p, capacity);
      if |lru| >= capacity {
        var i := FindVictim();
        if i < 0 {
          AllAreInLru();
          return AllPinned;
        }
        NotAllPinned(i);
        EvictedFor(f, order, p, capacity, i);
        Evict(i);
      }
      if p !in disk {
        return NoSuchPage;
      }
      LoadKeeps(Cached(), disk, unmarked, p);
      frames, lru, cleanSnapshots := frames[p := Frame(disk[p], false, 1)], [p] + lru, cleanSnapshots[p := disk[p]];
      return Fetched;
    }

    /** A page that is cached already moves to the front. */
    method Hit(p: PageId)
      requires Valid() && p in frames
      modifies this`frames, this`lru
      ensures Valid() && lru != [] && lru[0] == p
      ensures frames == old(frames)[p := old(frames)[p].(pinCount := old(frames)[p].pinCount + 1)]
              && |lru| == |old(lru)| && Recency(old(frames), old(lru), lru, p, capacity)
      ensures forall q :: q in disk ==> Content(q) == old(Content(q))
      ensures p in disk
    {
      assert PageOk(Cached(), disk, unmarked, p);
      hide TablesOk, Chained, Redo;
      var i := 0;
      while lru[i] != p
        invariant 0 <= i < |lru| && p in lru[i..]
        decreases |lru| - i
      {
        i := i + 1;
      }
      MoveFrontKeeps(Cached(), disk, unmarked, i, frames[p].pinCount + 1);
      frames, lru := frames[p := frames[p].(pinCount := frames[p].pinCount + 1)], [p] + (lru[..i] + lru[i + 1..]);
    }

    lemma {:induction false} FirstOf(f: map<PageId, Frame>, order: seq<PageId>, p: PageId, room: nat)
      requires p !in f
      ensures |order| < room ==> Recency(f, order, [p] + order, p, room)
    {
    }

    lemma {:induction false} EvictedFor(f: map<PageId, Frame>, order: seq<PageId>, p: PageId, room: nat, i: nat)
      requires p !in f && |order| >= room && Victim(f, order, i)
      ensures Recency(f, order, [p] + (order[..i] + order[i + 1..]), p, room)
    {
    }

    lemma {:induction false} AllAreInLru()
      requires Valid()
      ensures forall q :: q in frames ==> q in lru
    {
      forall q | q in frames ensures q in lru { assert PageOk(Cached(), disk, unmarked, q); }
    }

    lemma {:induction false} NotAllPinned(i: nat)
      requires i < |lru| && lru[i] in frames && frames[lru[i]].pinCount == 0
      ensures exists q :: q in frames && frames[q].pinCount == 0
    {
    }

    /** A client changes the bytes of a page it has pinned. */
    method Write(p: PageId, data: Image)
      requires Valid() && p in frames && frames[p].pinCount > 0
      modifies this`frames, this`unmarked
      ensures Valid() && frames == old(frames)[p := old(frames)[p].(data := data)] && unmarked == old(unmarked) + {p}
      ensures p in disk && forall q :: q in disk ==> Content(q) == if q == p then data else old(Content(q))
    {
      ghost var t, u := Cached(), unmarked;
      frames := frames[p := frames[p].(data := data)];
      unmarked := unmarked + {p};
      forall q ensures PageOk(Cached(), disk, unmarked, q) { assert PageOk(t, disk, u, q); }
      assert PageOk(t, disk, u, p);
    }

    /**
      * Gives a pin back. A client that wrote to the page says so with `dirty`;
      * saying no is only allowed while somebody else still holds a pin.
      */
    method UnpinPage(p: PageId, dirty: bool) returns (ok: bool)
      requires Valid()
      requires p in unmarked && !dirty ==> p in frames && frames[p].pinCount > 1
      modifies this`frames, this`beforeImages, this`dirtyTxn, this`unmarked
      ensures Valid() && (ok <==> p in old(frames))
      ensures forall q :: q in disk ==> Content(q) == old(Content(q))
      ensures ok ==> unmarked == if dirty then old(unmarked) - {p} else old(unmarked)
      ensures ok
              ==> p in disk && p in old(cleanSnapshots) && Cached() == Unpinned(old(Cached()), p, dirty, currentTxnID)
      ensures !ok ==> Cached() == old(Cached()) && unmarked == old(unmarked)
      ensures ok ==> var f := old(frames)[p];
                     && frames == old(frames)[p := Frame(f.data, f.dirty
                        || dirty, if f.pinCount == 0 then 0 else f.pinCount - 1)]
                     && (dirty && !f.dirty ==> beforeImages == old(beforeImages)[p := disk[p]]
                                               && dirtyTxn == old(dirtyTxn)[p := currentTxnID])
                     && (!dirty || f.dirty ==> beforeImages == old(beforeImages) && dirtyTxn == old(dirtyTxn))
    {
      if p !in frames { return false; }
      assert PageOk(Cached(), disk, unmarked, p);
      hide TablesOk, Chained, Redo;
      UnpinKeeps(Cached(), disk, unmarked, p, dirty, currentTxnID);
      var f := frames[p];
      var pins := if f.pinCount > 0 then f.pinCount - 1 else 0;
      ghost var u := if dirty then unmarked - {p} else unmarked;
      if dirty && !f.dirty {
        frames, beforeImages, dirtyTxn, unmarked :=
          frames[p := Frame(f.data, true, pins)], beforeImages[p := cleanSnapshots[p]], dirtyTxn[p := currentTxnID], u;
      } else {
        frames, unmarked := frames[p := Frame(f.data, f.dirty, pins)], u;
      }
      return true;
    }

    /** Writes one dirty page back, log first, and marks it clean. */
    method FlushPage(p: PageId)
      requires Valid() && p in frames && frames[p].dirty
      modifies this
      ensures Valid() && unmarked == old(unmarked) && currentTxnID == old(currentTxnID) && lru == old(lru)
      ensures Active(log) == Active(old(log))
      ensures p in old(disk) && disk == old(disk)[p := old(frames)[p].data]
      ensures frames == old(frames)[p := old(frames)[p].(dirty := false)]
      ensures forall q :: q in disk ==> q in old(disk) && Content(q) == old(Content(q))
    {
      hide TablesOk, Chained, Redo, View, Active, Crashable;
      CleanKeeps(Cached(), disk, unmarked, p);
      var data := frames[p].data;
      ghost var t := Cached();
      WriteWALUpdate(p, data);
      disk, frames, cleanSnapshots, beforeImages, dirtyTxn :=
        disk[p := data], frames[p := frames[p].(dirty := false)], cleanSnapshots[p := data], beforeImages - {p},
            dirtyTxn - {p};
      assert Cached() == Cleaned(t, p);
    }

    /** Writes every dirty page back, in any order. */
    method FlushAll()
      requires Valid()
      modifies this
      ensures Valid() && unmarked == old(unmarked) && SamePages(disk, old(disk)) && frames.Keys == old(frames).Keys
      ensures currentTxnID == old(currentTxnID) && Active(log) == Active(old(log))
      ensures forall q :: q in disk ==> Content(q) == old(Content(q))
      ensures forall q :: q in frames ==> frames[q] == old(frames)[q].(dirty := false)
      ensures lru == old(lru)
      ensures forall q :: q in disk && q !in unmarked ==> disk[q] == old(Content(q))
    {
      hide TablesOk, Chained, Redo, View;
      var left := frames.Keys;
      while left != {}
        invariant Valid() && unmarked == old(unmarked) && SamePages(disk, old(disk)) && frames.Keys == old(frames).Keys
        invariant currentTxnID == old(currentTxnID) && Active(log) == Active(old(log))
        invariant forall q :: q in disk ==> Content(q) == old(Content(q))
        invariant left <= frames.Keys && lru == old(lru)
        invariant forall q :: q in frames
                    ==> frames[q] == if q in left then old(frames)[q] else old(frames)[q].(dirty := false)
        decreases left
      {
        var p :| p in left;
        if frames[p].dirty { FlushPage(p); }
        left := left - {p};
      }
      AllClean();
    }

    lemma {:induction false} AllClean()
      requires Valid() && forall q :: q in frames ==> !frames[q].dirty
      ensures forall q :: q in disk && q !in unmarked ==> disk[q] == Content(q)
    {
      forall q | q in disk && q !in unmarked
        ensures disk[q] == Content(q)
      {
        assert PageOk(Cached(), disk, unmarked, q);
      }
    }

    /** Puts every page the transaction dirtied back to its before-image. */
    method RollbackTxn(t: TxnId)
      requires Valid()
      modifies this`frames, this`cleanSnapshots, this`beforeImages, this`dirtyTxn
      ensures Valid() && frames.Keys == old(frames).Keys
      ensures forall q :: q in frames ==>
        if q in old(dirtyTxn) && old(dirtyTxn)[q] == t then frames[q].pinCount == old(frames)[q].pinCount
            && !frames[q].dirty
        else frames[q] == old(frames)[q]
      ensures forall q :: q in dirtyTxn ==> dirtyTxn[q] != t
      ensures forall q :: q in dirtyTxn <==> q in old(dirtyTxn) && old(dirtyTxn)[q] != t
      ensures forall q :: q in disk ==>
        Content(q) == if q in old(dirtyTxn) && old(dirtyTxn)[q] == t then disk[q] else old(Content(q))
    {
      hide TablesOk, Chained, Redo, View;
      var left := dirtyTxn.Keys;
      while left != {}
        invariant Valid() && frames.Keys == old(frames).Keys
        invariant left <= dirtyTxn.Keys <= old(dirtyTxn).Keys
        invariant forall q :: q in frames ==>
          if q in old(dirtyTxn) && old(dirtyTxn)[q] == t && q !in left
          then frames[q].pinCount == old(frames)[q].pinCount && !frames[q].dirty
          else frames[q] == old(frames)[q]
        invariant forall q :: q in dirtyTxn ==> dirtyTxn[q] == old(dirtyTxn)[q] && (q in left || dirtyTxn[q] != t)
        invariant forall q :: q in old(dirtyTxn) && (q in left || old(dirtyTxn)[q] != t) ==> q in dirtyTxn
        invariant forall q :: q in disk ==>
          Content(q) == if q in old(dirtyTxn) && old(dirtyTxn)[q] == t && q !in left then disk[q] else old(Content(q))
        decreases left
      {
        var p :| p in left;
        left := left - {p};
        if dirtyTxn[p] == t { RestorePage(p); }
      }
    }

    method RestorePage(p: PageId)
      requires Valid() && p in dirtyTxn
      modifies this`frames, this`cleanSnapshots, this`beforeImages, this`dirtyTxn
      ensures Valid() && frames.Keys == old(frames).Keys && dirtyTxn == old(dirtyTxn) - {p}
      ensures p in frames && frames == old(frames)[p := Frame(frames[p].data, false, old(frames)[p].pinCount)]
      ensures forall q :: q in disk ==> Content(q) == if q == p then disk[p] else old(Content(q))
    {
      assert PageOk(Cached(), disk, unmarked, p);
      hide TablesOk, Chained, Redo;
      RestoreKeeps(Cached(), disk, unmarked, p);
      var image := beforeImages[p];
      ghost var t := Cached();
      frames, cleanSnapshots, beforeImages, dirtyTxn :=
        frames[p := Frame(image, false, frames[p].pinCount)], cleanSnapshots[p := image], beforeImages - {p},
            dirtyTxn - {p};
      assert Cached() == Restored(t, p);
    }

    lemma {:induction false} VictimIs(i: nat)
      requires Valid() && i < |lru|
      ensures lru[i] in frames && lru[i] in disk
      ensures frames[lru[i]].pinCount == 0 && !frames[lru[i]].dirty ==> disk[lru[i] := frames[lru[i]].data] == disk
    {
      assert PageOk(Cached(), disk, unmarked, lru[i]);
    }
  }
}
