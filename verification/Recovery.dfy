/** Crash recovery: redo everything, then undo the transactions that never ended (wal/recovery.go). */
module Recovery {
  import opened Keys

  type PageId = nat
  type TxnId = nat
  type Image = seq<byte>
  type Disk = map<PageId, Image>

  datatype Record =
    | Begin(txn: TxnId)
    | Commit(txn: TxnId)
    | Abort(txn: TxnId)
    | Update(txn: TxnId, page: PageId, before: Image, after: Image)

  type Log = seq<Record>

  function Init(log: Log): Log
    requires log != []
  {
    log[..|log| - 1]
  }

  function Tail(log: Log): Record
    requires log != []
  {
    log[|log| - 1]
  }

  // ----- what the log says -----

  /** The disk after all updates of the log. */
  ghost function Redo(disk: Disk, log: Log): (r: Disk)
    ensures disk.Keys <= r.Keys
  {
    if log == [] then disk
    else if Tail(log).Update? then Redo(disk, Init(log))[Tail(log).page := Tail(log).after]
    else Redo(disk, Init(log))
  }

  /** Transactions begun and neither committed nor aborted. */
  ghost function Active(log: Log): set<TxnId> {
    if log == [] then {}
    else match Tail(log)
      case Begin(t) => Active(Init(log)) + {t}
      case Commit(t) => Active(Init(log)) - {t}
      case Abort(t) => Active(Init(log)) - {t}
      case Update(_, _, _, _) => Active(Init(log))
  }

  predicate LoserUpdate(r: Record, losers: set<TxnId>) { r.Update? && r.txn in losers }
  predicate WinnerUpdate(r: Record, losers: set<TxnId>) { r.Update? && r.txn !in losers }

  /** Before-images of the losers written back, last update first. */
  ghost function Undo(disk: Disk, log: Log, losers: set<TxnId>): Disk
    decreases |log|
  {
    if log == [] then disk
    else Undo(if LoserUpdate(Tail(log), losers) then disk[Tail(log).page := Tail(log).before]
        else disk, Init(log), losers)
  }

  /** What recovery makes of a disk and a log. */
  ghost function Recovered(disk: Disk, log: Log): Disk {
    Undo(Redo(disk, log), log, Active(log))
  }

  /** What it should be: the updates of the other transactions alone. */
  ghost function Winners(disk: Disk, log: Log, losers: set<TxnId>): Disk {
    if log == [] then disk
    else if WinnerUpdate(Tail(log), losers) then Winners(disk, Init(log), losers)[Tail(log).page := Tail(log).after]
    else Winners(disk, Init(log), losers)
  }

  /** Every before-image is what the updates so far have made of the page. */
  ghost predicate Chained(start: Disk, log: Log) {
    log == []
    || (Chained(start, Init(log))
        && (Tail(log).Update?
           ==> Tail(log).page in start && Redo(start, Init(log))[Tail(log).page] == Tail(log).before))
  }

  // ----- exactly when recovery is right -----

  /**
    * Of one page: no loser touched it; or the first loser found `before`, and
    * `later` is the last winner's image since.
    */
  datatype Trace = Untouched | Touched(before: Image, later: Later)
  datatype Later = NoWinner | Winner(image: Image)

  /** Read off the log from left to right. */
  ghost function TraceOf(log: Log, losers: set<TxnId>, p: PageId): Trace {
    if log == [] then Untouched
    else
      var t := TraceOf(Init(log), losers, p);
      var r := Tail(log);
      if !r.Update? || r.page != p then t
      else if r.txn in losers then (if t.Untouched? then Touched(r.before, NoWinner) else t)
      else (if t.Touched? then Touched(t.before, Winner(r.after)) else t)
  }

  /** No winner wrote the page after a loser did, or it wrote what the loser had found. */
  ghost predicate Undoable(t: Trace) {
    t.Touched? && t.later.Winner? ==> t.later.image == t.before
  }

  lemma {:induction false} RedoKeys(disk: Disk, log: Log)
    requires forall r <- log :: r.Update? ==> r.page in disk
    ensures Redo(disk, log).Keys == disk.Keys
  {
    if log != [] {
      assert Tail(log) in log && forall r <- Init(log) :: r in log;
      RedoKeys(disk, Init(log));
    }
  }

  lemma {:induction false} ChainedPages(start: Disk, log: Log)
    requires Chained(start, log)
    ensures forall r <- log :: r.Update? ==> r.page in start
    ensures Redo(start, log).Keys == start.Keys
  {
    if log != [] {
      ChainedPages(start, Init(log));
      assert log == Init(log) + [Tail(log)];
    }
  }

  /** What undoing does to one page: the image the first loser found, if any loser touched it. */
  lemma {:induction false} UndoPage(disk: Disk, log: Log, losers: set<TxnId>, p: PageId)
    requires p in disk
    ensures p in Undo(disk, log, losers)
    ensures var t := TraceOf(log, losers, p);
            Undo(disk, log, losers)[p] == if t.Touched? then t.before else disk[p]
    decreases |log|
  {
    if log != [] {
      var r := Tail(log);
      UndoPage(if LoserUpdate(r, losers) then disk[r.page := r.before] else disk, Init(log), losers, p);
    }
  }

  lemma {:induction false} UndoKeys(disk: Disk, log: Log, losers: set<TxnId>)
    requires forall r <- log :: r.Update? ==> r.page in disk
    ensures Undo(disk, log, losers).Keys == disk.Keys
    decreases |log|
  {
    if log != [] {
      var r := Tail(log);
      assert r in log && forall r <- Init(log) :: r in log;
      UndoKeys(if LoserUpdate(r, losers) then disk[r.page := r.before] else disk, Init(log), losers);
    }
  }

  /** What the winners alone make of one page, against the trace. */
  lemma {:induction false} WinnersPage(start: Disk, log: Log, losers: set<TxnId>, p: PageId)
    requires Chained(start, log) && p in start
    ensures p in Winners(start, log, losers) && p in Redo(start, log)
    ensures match TraceOf(log, losers, p)
            case Untouched => Winners(start, log, losers)[p] == Redo(start, log)[p]
            case Touched(b, NoWinner) => Winners(start, log, losers)[p] == b
            case Touched(b, Winner(x)) => Winners(start, log, losers)[p] == x
  {
    if log != [] {
      WinnersPage(start, Init(log), losers, p);
      ChainedPages(start, log);
      ChainedPages(start, Init(log));
    }
  }

  lemma {:induction false} WinnersKeys(start: Disk, log: Log, losers: set<TxnId>)
    requires forall r <- log :: r.Update? ==> r.page in start
    ensures Winners(start, log, losers).Keys == start.Keys
  {
    if log != [] {
      assert Tail(log) in log && forall r <- Init(log) :: r in log;
      WinnersKeys(start, Init(log), losers);
    }
  }

  /** A disk the crash left behind: pages the log does not mention are as they were at the start. */
  ghost predicate CrashDisk(start: Disk, log: Log, disk: Disk) {
    disk.Keys == start.Keys
    && forall p :: p in start && (forall r <- log :: r.Update? ==> r.page != p) ==> disk[p] == start[p]
  }

  /** Redo does not depend on how much of the log had reached the disk. */
  lemma {:induction false} RedoPage(d1: Disk, d2: Disk, log: Log, p: PageId)
    requires p in d1 && p in d2
    requires (forall r <- log :: r.Update? ==> r.page != p) ==> d1[p] == d2[p]
    ensures p in Redo(d1, log) && p in Redo(d2, log) && Redo(d1, log)[p] == Redo(d2, log)[p]
  {
    if log != [] && !(Tail(log).Update? && Tail(log).page == p) {
      assert log == Init(log) + [Tail(log)];
      RedoPage(d1, d2, Init(log), p);
    }
  }

  lemma {:induction false} RedoAnyDisk(start: Disk, log: Log, disk: Disk)
    requires Chained(start, log) && CrashDisk(start, log, disk)
    ensures Redo(disk, log) == Redo(start, log)
  {
    ChainedPages(start, log);
    RedoKeys(disk, log);
    RedoKeys(start, log);
    forall p | p in start ensures p in Redo(disk, log) && Redo(disk, log)[p] == Redo(start, log)[p] {
      RedoPage(disk, start, log, p);
    }
  }

  /**
    * Recovery leaves exactly the updates of the transactions that ended, if and
    * only if on every page the last winner behind a loser, if any, wrote what the
    * first loser had found.
    */
  lemma {:induction false} RecoveryExact(start: Disk, log: Log, disk: Disk)
    requires Chained(start, log) && CrashDisk(start, log, disk)
    ensures Recovered(disk, log) == Winners(start, log, Active(log)) <==>
            forall p :: p in start ==> Undoable(TraceOf(log, Active(log), p))
  {
    var losers := Active(log);
    var redone := Redo(disk, log);
    RedoAnyDisk(start, log, disk);
    ChainedPages(start, log);
    UndoKeys(redone, log, losers);
    WinnersKeys(start, log, losers);
    forall p | p in start
      ensures Recovered(disk, log)[p] == Winners(start, log, losers)[p] <==> Undoable(TraceOf(log, losers, p))
    {
      UndoPage(redone, log, losers, p);
      WinnersPage(start, log, losers, p);
    }
  }

  /** No transaction that ended updates a page after one that did not. */
  ghost predicate LosersLast(log: Log, losers: set<TxnId>) {
    forall i, j :: 0 <= i < j < |log| && LoserUpdate(log[i], losers) && WinnerUpdate(log[j], losers)
        ==> log[i].page != log[j].page
  }

  lemma {:induction false} LosersLastTrace(log: Log, losers: set<TxnId>, p: PageId)
    requires LosersLast(log, losers)
    ensures var t := TraceOf(log, losers, p);
            && (t.Touched? ==> t.later.NoWinner?)
            && (t.Touched? <==> exists i :: 0 <= i < |log| && LoserUpdate(log[i], losers) && log[i].page == p)
  {
    if log != [] {
      assert LosersLast(Init(log), losers);
      LosersLastTrace(Init(log), losers, p);
      var t := TraceOf(Init(log), losers, p);
      if t.Touched? {
        var i :| 0 <= i < |Init(log)| && LoserUpdate(Init(log)[i], losers) && Init(log)[i].page == p;
        assert LoserUpdate(log[i], losers) && log[i].page == p;
      }
      if LoserUpdate(Tail(log), losers) && Tail(log).page == p {
        assert LoserUpdate(log[|log| - 1], losers);
      }
    }
  }

  predicate Ends(r: Record, t: TxnId) { r == Commit(t) || r == Abort(t) }

  /** A transaction begins once, before anything else it does. */
  ghost predicate BeginsFirst(log: Log) {
    forall i, j :: 0 <= i < |log| && 0 <= j < |log| && log[i].Begin? && log[i].txn == log[j].txn ==> i <= j
  }

  /**
    * A page updated by one transaction is updated by another only after the
    * first has ended: what exclusive locks held to the end give.
    */
  ghost predicate Strict(log: Log) {
    forall i, j :: 0 <= i < j < |log| && log[i].Update? && log[j].Update? && log[i].page == log[j].page
        && log[i].txn != log[j].txn
      ==> exists e :: i < e < j && Ends(log[e], log[i].txn)
  }

  /** Where an active transaction began; it has not ended since. */
  lemma {:induction false} ActiveSince(log: Log, t: TxnId) returns (b: nat)
    requires t in Active(log)
    ensures b < |log| && log[b] == Begin(t) && forall e :: b < e < |log| ==> !Ends(log[e], t)
  {
    if Tail(log) == Begin(t) {
      b := |log| - 1;
    } else {
      b := ActiveSince(Init(log), t);
      forall e | b < e < |log| ensures !Ends(log[e], t) {
        if e < |Init(log)| { assert Init(log)[e] == log[e]; }
      }
    }
  }

  /** The active transactions are those that began and have not ended since. */
  lemma {:induction false} ActiveIs(log: Log, t: TxnId, b: nat)
    requires b < |log| && log[b] == Begin(t) && forall e :: b < e < |log| ==> !Ends(log[e], t)
    ensures t in Active(log)
  {
    if b < |log| - 1 {
      assert Init(log)[b] == log[b] && !Ends(Tail(log), t);
      ActiveIs(Init(log), t, b);
    }
  }

  lemma {:induction false} StrictLosersLast(log: Log)
    requires BeginsFirst(log) && Strict(log)
    ensures LosersLast(log, Active(log))
  {
    forall i, j | 0 <= i < j < |log| && LoserUpdate(log[i], Active(log)) && WinnerUpdate(log[j], Active(log))
      ensures log[i].page != log[j].page
    {
      if log[i].page == log[j].page {
        var e :| i < e < j && Ends(log[e], log[i].txn);
        var b := ActiveSince(log, log[i].txn);
      }
    }
  }

  /** If losers come last, recovery is right on whatever the crash left. */
  lemma {:induction false} RecoveryCorrect(start: Disk, log: Log, disk: Disk)
    requires Chained(start, log) && CrashDisk(start, log, disk) && LosersLast(log, Active(log))
    ensures Recovered(disk, log) == Winners(start, log, Active(log))
  {
    forall p | p in start ensures Undoable(TraceOf(log, Active(log), p)) {
      LosersLastTrace(log, Active(log), p);
    }
    RecoveryExact(start, log, disk);
  }

  // ----- recovery itself interrupted -----

  /** Page writes in the order recovery makes them. */
  datatype PageWrite = PageWrite(page: PageId, image: Image)

  ghost function RedoWrites(log: Log): seq<PageWrite> {
    if log == [] then []
    else RedoWrites(Init(log)) + if Tail(log).Update? then [PageWrite(Tail(log).page, Tail(log).after)] else []
  }

  ghost function UndoWrites(log: Log, losers: set<TxnId>): seq<PageWrite> {
    if log == [] then []
    else (if LoserUpdate(Tail(log), losers) then [PageWrite(Tail(log).page, Tail(log).before)]
        else []) + UndoWrites(Init(log), losers)
  }

  ghost function RecoveryWrites(log: Log): seq<PageWrite> {
    RedoWrites(log) + UndoWrites(log, Active(log))
  }

  ghost function Written(disk: Disk, ws: seq<PageWrite>): Disk
    decreases |ws|
  {
    if ws == [] then disk else Written(disk[ws[0].page := ws[0].image], ws[1..])
  }

  lemma {:induction false} WrittenConcat(disk: Disk, a: seq<PageWrite>, b: seq<PageWrite>)
    ensures Written(disk, a + b) == Written(Written(disk, a), b)
    decreases |a|
  {
    if a == [] {
      assert a + b == b;
    } else {
      assert (a + b)[1..] == a[1..] + b;
      WrittenConcat(disk[a[0].page := a[0].image], a[1..], b);
    }
  }

  lemma {:induction false} RedoIsWritten(disk: Disk, log: Log)
    ensures Written(disk, RedoWrites(log)) == Redo(disk, log)
  {
    if log != [] {
      RedoIsWritten(disk, Init(log));
      if Tail(log).Update? {
        var w := PageWrite(Tail(log).page, Tail(log).after);
        WrittenConcat(disk, RedoWrites(Init(log)), [w]);
        WrittenOne(Redo(disk, Init(log)), w);
      } else {
        assert RedoWrites(log) == RedoWrites(Init(log));
      }
    }
  }

  lemma {:induction false} WrittenOne(disk: Disk, w: PageWrite)
    ensures Written(disk, [w]) == disk[w.page := w.image]
  {
    assert [w][1..] == [];
  }

  lemma {:induction false} UndoIsWritten(disk: Disk, log: Log, losers: set<TxnId>)
    ensures Written(disk, UndoWrites(log, losers)) == Undo(disk, log, losers)
    decreases |log|
  {
    if log != [] {
      var r := Tail(log);
      UndoIsWritten(if LoserUpdate(r, losers) then disk[r.page := r.before] else disk, Init(log), losers);
      if LoserUpdate(r, losers) {
        var w := PageWrite(r.page, r.before);
        WrittenConcat(disk, [w], UndoWrites(Init(log), losers));
        WrittenOne(disk, w);
      } else {
        assert UndoWrites(log, losers) == UndoWrites(Init(log), losers);
      }
    }
  }

  /** The list of writes is all that recovery does to the disk. */
  lemma {:induction false} RecoveryIsWrites(disk: Disk, log: Log)
    ensures Written(disk, RecoveryWrites(log)) == Recovered(disk, log)
  {
    WrittenConcat(disk, RedoWrites(log), UndoWrites(log, Active(log)));
    RedoIsWritten(disk, log);
    UndoIsWritten(Redo(disk, log), log, Active(log));
  }

  ghost predicate WritesLogged(ws: seq<PageWrite>, log: Log) {
    forall w <- ws :: exists r :: r in log && r.Update? && r.page == w.page
  }

  lemma {:induction false} RedoWritesLogged(log: Log, all: Log)
    requires forall r <- log :: r in all
    ensures WritesLogged(RedoWrites(log), all)
  {
    if log != [] {
      assert Tail(log) in log && forall r <- Init(log) :: r in log;
      RedoWritesLogged(Init(log), all);
    }
  }

  lemma {:induction false} UndoWritesLogged(log: Log, losers: set<TxnId>, all: Log)
    requires forall r <- log :: r in all
    ensures WritesLogged(UndoWrites(log, losers), all)
  {
    if log != [] {
      assert Tail(log) in log && forall r <- Init(log) :: r in log;
      UndoWritesLogged(Init(log), losers, all);
    }
  }

  lemma {:induction false} WrittenStaysCrashDisk(start: Disk, log: Log, disk: Disk, ws: seq<PageWrite>)
    requires CrashDisk(start, log, disk) && Chained(start, log) && WritesLogged(ws, log)
    ensures CrashDisk(start, log, Written(disk, ws))
    decreases |ws|
  {
    if ws != [] {
      ChainedPages(start, log);
      assert ws[0] in ws && forall w <- ws[1..] :: w in ws;
      var r :| r in log && r.Update? && r.page == ws[0].page;
      WrittenStaysCrashDisk(start, log, disk[ws[0].page := ws[0].image], ws[1..]);
    }
  }

  /** Stopped after any number of page writes and started again on the same log, recovery ends on the same disk. */
  lemma {:induction false} RecoveryRestarts(start: Disk, log: Log, disk: Disk, k: nat)
    requires Chained(start, log) && CrashDisk(start, log, disk) && k <= |RecoveryWrites(log)|
    ensures Recovered(Written(disk, RecoveryWrites(log)[..k]), log) == Recovered(disk, log)
  {
    var ws := RecoveryWrites(log);
    RedoWritesLogged(log, log);
    UndoWritesLogged(log, Active(log), log);
    assert WritesLogged(ws[..k], log) by {
      forall w | w in ws[..k] ensures w in RedoWrites(log) || w in UndoWrites(log, Active(log)) { assert w in ws; }
    }
    WrittenStaysCrashDisk(start, log, disk, ws[..k]);
    RedoAnyDisk(start, log, disk);
    RedoAnyDisk(start, log, Written(disk, ws[..k]));
  }

  // ----- the ABORT records recovery appends -----

  /** One ABORT record for each loser, and no other record. */
  ghost predicate AbortsFor(aborts: Log, losers: set<TxnId>) {
    && (forall r <- aborts :: r.Abort? && r.txn in losers)
    && (forall t <- losers :: Abort(t) in aborts)
    && (forall i, j :: 0 <= i < j < |aborts| ==> aborts[i] != aborts[j])
  }

  lemma {:induction false} AfterAborts(disk: Disk, log: Log, aborts: Log)
    requires forall r <- aborts :: r.Abort?
    ensures Redo(disk, log + aborts) == Redo(disk, log)
    ensures forall t :: t in Active(log + aborts) <==> t in Active(log) && Abort(t) !in aborts
  {
    if aborts == [] {
      assert log + aborts == log;
    } else {
      assert Init(log + aborts) == log + Init(aborts) && Tail(log + aborts) == Tail(aborts);
      assert Tail(aborts) in aborts && forall r <- Init(aborts) :: r in aborts;
      assert aborts == Init(aborts) + [Tail(aborts)];
      AfterAborts(disk, log, Init(aborts));
    }
  }

  lemma {:induction false} UndoNothing(disk: Disk, log: Log)
    ensures Undo(disk, log, {}) == disk
    decreases |log|
  {
    if log != [] { UndoNothing(disk, Init(log)); }
  }

  /** The after-image of the last update of a page, or what the page held at the start. */
  ghost function LastImage(start: Disk, log: Log, p: PageId): Image
    requires p in start
  {
    if log == [] then start[p]
    else if Tail(log).Update? && Tail(log).page == p then Tail(log).after
    else LastImage(start, Init(log), p)
  }

  lemma {:induction false} LastImageIsRedo(start: Disk, log: Log, p: PageId)
    requires p in start
    ensures Redo(start, log)[p] == LastImage(start, log, p)
  {
    if log != [] { LastImageIsRedo(start, Init(log), p); }
  }

  /** The losers whose ABORT record had not reached the log. */
  ghost function StillActive(log: Log, aborts: Log): set<TxnId> { set t | t in Active(log) && Abort(t) !in aborts }

  /** What redoing everything and undoing these transactions leaves on a page. */
  ghost function LeftBehind(start: Disk, log: Log, still: set<TxnId>, p: PageId): Image
    requires p in start
  {
    var t := TraceOf(log, still, p);
    if t.Touched? then t.before else LastImage(start, log, p)
  }

  /** Undoing only some of the losers leaves on the page what the winners left. */
  ghost predicate SomeSuffice(start: Disk, log: Log, losers: set<TxnId>, still: set<TxnId>, p: PageId)
    requires p in start
  {
    match TraceOf(log, losers, p)
    case Untouched => true
    case Touched(b, NoWinner) => LeftBehind(start, log, still, p) == b
    case Touched(_, Winner(x)) => LeftBehind(start, log, still, p) == x
  }

  lemma {:induction false} FewerTouch(log: Log, losers: set<TxnId>, still: set<TxnId>, p: PageId)
    requires still <= losers && TraceOf(log, losers, p).Untouched?
    ensures TraceOf(log, still, p).Untouched?
  {
    if log != [] { FewerTouch(Init(log), losers, still, p); }
  }

  lemma {:induction false} UndoPastAborts(disk: Disk, log: Log, aborts: Log, losers: set<TxnId>)
    requires forall r <- aborts :: r.Abort?
    ensures Undo(disk, log + aborts, losers) == Undo(disk, log, losers)
  {
    if aborts == [] {
      assert log + aborts == log;
    } else {
      assert Init(log + aborts) == log + Init(aborts) && Tail(log + aborts) == Tail(aborts);
      assert Tail(aborts) in aborts && forall r <- Init(aborts) :: r in aborts;
      UndoPastAborts(disk, log, Init(aborts), losers);
    }
  }

  /**
    * A transaction whose ABORT record is in the log is no loser any more: a
    * second recovery redoes its updates and does not undo them. After a crash
    * with any of those records written, it still ends right if and only if
    * undoing the others alone does; with all of them written it undoes nothing.
    */
  lemma {:induction false} RerunAfterAborts(start: Disk, log: Log, aborts: Log, disk: Disk)
    requires Chained(start, log) && CrashDisk(start, log, disk) && forall r <- aborts :: r.Abort?
    ensures Recovered(disk, log + aborts) == Undo(Redo(start, log), log, StillActive(log, aborts))
    ensures Recovered(disk, log + aborts) == Winners(start, log, Active(log)) <==>
            forall p :: p in start ==> SomeSuffice(start, log, Active(log), StillActive(log, aborts), p)
    ensures AbortsFor(aborts, Active(log)) ==> Recovered(disk, log + aborts) == Redo(start, log)
  {
    hide Recovered, SomeSuffice, LeftBehind;
    var losers, still, redone := Active(log), StillActive(log, aborts), Redo(start, log);
    RerunIsUndo(start, log, aborts, disk);
    ChainedPages(start, log);
    UndoKeys(redone, log, still);
    WinnersKeys(start, log, losers);
    forall p | p in start
      ensures Undo(redone, log, still)[p] == Winners(start, log, losers)[p]
              <==> SomeSuffice(start, log, losers, still, p)
    {
      RerunPage(start, log, losers, still, p);
    }
    if AbortsFor(aborts, losers) {
      assert still == {};
      UndoNothing(redone, log);
    }
  }

  lemma {:induction false} RerunIsUndo(start: Disk, log: Log, aborts: Log, disk: Disk)
    requires Chained(start, log) && CrashDisk(start, log, disk) && forall r <- aborts :: r.Abort?
    ensures Recovered(disk, log + aborts) == Undo(Redo(start, log), log, StillActive(log, aborts))
  {
    AfterAborts(disk, log, aborts);
    assert Active(log + aborts) == StillActive(log, aborts);
    RedoAnyDisk(start, log, disk);
    UndoPastAborts(Redo(start, log), log, aborts, StillActive(log, aborts));
  }

  lemma {:induction false} RerunPage(start: Disk, log: Log, losers: set<TxnId>, still: set<TxnId>, p: PageId)
    requires Chained(start, log) && p in start && still <= losers
    ensures p in Undo(Redo(start, log), log, still) && p in Winners(start, log, losers)
    ensures Undo(Redo(start, log), log, still)[p] == Winners(start, log, losers)[p]
            <==> SomeSuffice(start, log, losers, still, p)
  {
    WinnersPage(start, log, losers, p);
    LastImageIsRedo(start, log, p);
    UndoPage(Redo(start, log), log, still, p);
    if TraceOf(log, losers, p).Untouched? { FewerTouch(log, losers, still, p); }
  }

  /** One transaction, one update, a crash: the second recovery brings the update back. */
  lemma {:induction false} RerunResurrects()
    ensures var start: Disk := map[1 := [0]];
            var log: Log := [Begin(7), Update(7, 1, [0], [1])];
            && Chained(start, log) && CrashDisk(start, log, start)
            && Recovered(start, log) == start
            && Recovered(Recovered(start, log), log + [Abort(7)]) == map[1 := [1]]
  {
    var start: Disk := map[1 := [0]];
    var log: Log := [Begin(7), Update(7, 1, [0], [1])];
    assert Init(log) == [Begin(7)] && Init(Init(log)) == [];
    assert Redo(start, Init(log)) == start;
    assert Chained(start, Init(log));
    assert Active(Init(log)) == {7} && Active(log) == {7};
    RecoveryCorrect(start, log, start);
    assert Winners(start, Init(log), {7}) == start;
    assert Winners(start, log, {7}) == start;
    RerunAfterAborts(start, log, [Abort(7)], start);
    assert Redo(start, log) == map[1 := [1]];
  }

  // ----- the passes as the source runs them -----

  /** The pager as recovery sees it: pages that exist can be overwritten. */
  class PageWriter {
    var disk: Disk

    constructor (disk: Disk)
      ensures this.disk == disk
    {
      this.disk := disk;
    }

    method WritePage(page: PageId, image: Image) returns (ok: bool)
      modifies this
      ensures ok <==> page in old(disk)
      ensures disk == if ok then old(disk)[page := image] else old(disk)
    {
      ok := page in disk;
      if ok { disk := disk[page := image]; }
    }
  }

  ghost predicate PagesExist(log: Log, disk: Disk) {
    forall r <- log :: r.Update? ==> r.page in disk
  }

  /** Forward pass: redoes every update and collects the transactions still active at the end. */
  method AnalysisPass(records: Log, writer: PageWriter) returns (active: set<TxnId>, ok: bool)
    modifies writer
    ensures ok <==> PagesExist(records, old(writer.disk))
    ensures ok ==> writer.disk == Redo(old(writer.disk), records) && active == Active(records)
    ensures writer.disk.Keys == old(writer.disk).Keys
  {
    active, ok := {}, true;
    var i := 0;
    while i < |records|
      invariant 0 <= i <= |records| && ok
      invariant PagesExist(records[..i], old(writer.disk))
      invariant writer.disk == Redo(old(writer.disk), records[..i]) && active == Active(records[..i])
      invariant writer.disk.Keys == old(writer.disk).Keys
    {
      var r := records[i];
      assert Init(records[..i + 1]) == records[..i] && Tail(records[..i + 1]) == r;
      assert r in records;
      match r {
        case Abort(t) => active := active - {t};
        case Begin(t) => active := active + {t};
        case Commit(t) => active := active - {t};
        case Update(_, page, _, after) =>
          ok := writer.WritePage(page, after);
          if !ok { return; }
      }
      i := i + 1;
    }
    assert records[..i] == records;
  }

  /** Backward pass: writes the before-images of the active transactions, newest first; returns the ABORT records. */
  method UndoPass(records: Log, active: set<TxnId>, writer: PageWriter) returns (aborts: Log, ok: bool)
    modifies writer
    ensures PagesExist(records, old(writer.disk)) ==> ok
    ensures ok ==> writer.disk == Undo(old(writer.disk), records, active) && AbortsFor(aborts, active)
  {
    aborts, ok := [], true;
    var i := |records|;
    assert records[..i] == records;
    while i > 0
      invariant 0 <= i <= |records| && ok
      invariant writer.disk.Keys == old(writer.disk).Keys
      invariant Undo(writer.disk, records[..i], active) == Undo(old(writer.disk), records, active)
    {
      i := i - 1;
      var r := records[i];
      assert Init(records[..i + 1]) == records[..i] && Tail(records[..i + 1]) == r && r in records;
      if r.Update? && r.txn in active {
        ok := writer.WritePage(r.page, r.before);
        if !ok { return; }
      }
    }
    var left := active;
    while left != {}
      invariant left <= active && AbortsFor(aborts, active - left)
      decreases left
    {
      var t :| t in left;
      aborts := aborts + [Abort(t)];
      left := left - {t};
    }
    assert active - left == active;
  }

  /** Both passes; on success the caller truncates the log. */
  method Recover(records: Log, writer: PageWriter) returns (ok: bool, appended: Log)
    modifies writer
    ensures ok <==> PagesExist(records, old(writer.disk))
    ensures ok ==> writer.disk == Recovered(old(writer.disk), records) && AbortsFor(appended, Active(records))
  {
    var active;
    appended := [];
    active, ok := AnalysisPass(records, writer);
    if !ok { return; }
    var undone;
    appended, undone := UndoPass(records, active, writer);
  }
}
