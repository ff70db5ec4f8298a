/** Leaf pages as bytes: header, slots growing up, data growing down (storage/btree_node.go). */
module LeafLayout {
  import opened Keys
  import opened Nodes
  import opened Bytes

  const LEAF_TYPE: byte := 1

  ghost function Slot(d: seq<byte>, i: nat): seq<byte>
    requires SLOT_START + 8 * i + 8 <= |d|
  {
    d[SLOT_START + 8 * i..SLOT_START + 8 * i + 8]
  }

  function SlotBytes(ko: nat, kl: nat, vo: nat, vl: nat): (s: seq<byte>)
    requires ko < 0x1_0000 && kl < 0x1_0000 && vo < 0x1_0000 && vl < 0x1_0000
    ensures |s| == 8
  {
    U16(ko) + U16(kl) + U16(vo) + U16(vl)
  }

  lemma {:induction false} SlotFields(ko: nat, kl: nat, vo: nat, vl: nat)
    requires ko < 0x1_0000 && kl < 0x1_0000 && vo < 0x1_0000 && vl < 0x1_0000
    ensures var s := SlotBytes(ko, kl, vo, vl);
            Get16(s[0..2]) == ko && Get16(s[2..4]) == kl && Get16(s[4..6]) == vo && Get16(s[6..8]) == vl
  {
    var s := SlotBytes(ko, kl, vo, vl);
    assert s[0..2] == U16(ko) && s[2..4] == U16(kl) && s[4..6] == U16(vo) && s[6..8] == U16(vl);
  }

  /** The eight bytes `s` point at the entry, which lies at or above `free`. */
  ghost predicate PointsTo(d: seq<byte>, s: seq<byte>, e: Entry, free: nat) {
    |s| == 8
    && (var ko, kl, vo, vl := Get16(s[0..2]), Get16(s[2..4]), Get16(s[4..6]), Get16(s[6..8]);
        && free <= ko && ko + kl <= |d| && kl == |e.key| && d[ko..ko + kl] == e.key
        && free <= vo && vo + vl <= |d| && vl == |e.value| && d[vo..vo + vl] == e.value)
  }

  ghost predicate SlotHolds(d: seq<byte>, i: nat, e: Entry, free: nat)
    requires SLOT_START + 8 * i + 8 <= |d|
  {
    PointsTo(d, Slot(d, i), e, free)
  }

  /** The bytes of a leaf with this content. */
  ghost predicate HoldsLeaf(d: seq<byte>, pg: Page) {
    |d| == PAGE_SIZE && pg.Leaf? && d[0] == LEAF_TYPE
    && Get16(d[1..3]) == |pg.entries|
    && Get16(d[3..5]) == pg.free
    && Get32(d[5..9]) == pg.next
    && SLOT_START + 8 * |pg.entries| <= pg.free <= PAGE_SIZE
    && forall i :: 0 <= i < |pg.entries| ==> SlotHolds(d, i, pg.entries[i], pg.free)
  }

  // ----- inserting -----

  /** insertLeafEntry, write by write. */
  ghost function Inserted(d: seq<byte>, n: nat, free: nat, e: Entry, slot: nat): (r: seq<byte>)
    requires |d| == PAGE_SIZE && slot <= n && free <= PAGE_SIZE
    requires SLOT_START + 8 * (n + 1) + |e.key| + |e.value| <= free
    ensures |r| == PAGE_SIZE
  {
    var iv := free - |e.value|;
    var ik := iv - |e.key|;
    var sb := SLOT_START + 8 * slot;
    var d1 := Patch(d, iv, e.value);
    var d2 := Patch(d1, ik, e.key);
    var d3 := Patch(d2, 3, U16(ik));
    var d4 := Patch(d3, sb + 8, d3[sb..SLOT_START + 8 * n]);
    var d5 := Patch(d4, sb, SlotBytes(ik, |e.key|, iv, |e.value|));
    Patch(d5, 1, U16(n + 1))
  }

  /** What insertLeafEntry leaves alone. */
  lemma {:induction false} InsertedKeeps(d: seq<byte>, n: nat, free: nat, e: Entry, slot: nat, x: nat, y: nat)
    requires |d| == PAGE_SIZE && slot <= n && free <= PAGE_SIZE
             && SLOT_START + 8 * (n + 1) + |e.key| + |e.value| <= free
    requires x <= y <= PAGE_SIZE
    requires y <= 1 || (5 <= x && y <= SLOT_START + 8 * slot) || free <= x
    ensures Inserted(d, n, free, e, slot)[x..y] == d[x..y]
  {
    hide Patch, U16, SlotBytes;
    var iv := free - |e.value|;
    var ik := iv - |e.key|;
    var sb := SLOT_START + 8 * slot;
    var d1 := Patch(d, iv, e.value);
    var d2 := Patch(d1, ik, e.key);
    var d3 := Patch(d2, 3, U16(ik));
    var d4 := Patch(d3, sb + 8, d3[sb..SLOT_START + 8 * n]);
    var d5 := Patch(d4, sb, SlotBytes(ik, |e.key|, iv, |e.value|));
    PatchOutside(d, iv, e.value, x, y);
    PatchOutside(d1, ik, e.key, x, y);
    PatchOutside(d2, 3, U16(ik), x, y);
    PatchOutside(d3, sb + 8, d3[sb..SLOT_START + 8 * n], x, y);
    PatchOutside(d4, sb, SlotBytes(ik, |e.key|, iv, |e.value|), x, y);
    PatchOutside(d5, 1, U16(n + 1), x, y);
  }

  /** What insertLeafEntry writes: the count, the free pointer, the slot, key and value. */
  lemma {:induction false} InsertedWrites(d: seq<byte>, n: nat, free: nat, e: Entry, slot: nat)
    requires |d| == PAGE_SIZE && slot <= n && free <= PAGE_SIZE
             && SLOT_START + 8 * (n + 1) + |e.key| + |e.value| <= free
    ensures var r, iv, ik := Inserted(d, n, free, e, slot), free - |e.value|, free - |e.value| - |e.key|;
            && r[1..3] == U16(n + 1) && r[3..5] == U16(ik)
            && Slot(r, slot) == SlotBytes(ik, |e.key|, iv, |e.value|)
            && r[ik..iv] == e.key && r[iv..free] == e.value
  {
    hide Patch, U16, SlotBytes;
    var iv := free - |e.value|;
    var ik := iv - |e.key|;
    var sb := SLOT_START + 8 * slot;
    var sl := SlotBytes(ik, |e.key|, iv, |e.value|);
    var d1 := Patch(d, iv, e.value);
    var d2 := Patch(d1, ik, e.key);
    var d3 := Patch(d2, 3, U16(ik));
    var moved := d3[sb..SLOT_START + 8 * n];
    var d4 := Patch(d3, sb + 8, moved);
    var d5 := Patch(d4, sb, sl);
    PatchInside(d5, 1, U16(n + 1));
    PatchInside(d2, 3, U16(ik));
    PatchOutside(d3, sb + 8, moved, 3, 5);
    PatchOutside(d4, sb, sl, 3, 5);
    PatchOutside(d5, 1, U16(n + 1), 3, 5);
    PatchInside(d4, sb, sl);
    PatchOutside(d5, 1, U16(n + 1), sb, sb + 8);
    PatchInside(d, iv, e.value);
    PatchOutside(d1, ik, e.key, iv, free);
    PatchInside(d1, ik, e.key);
    HighKept(d2, n, ik, slot, sl, moved, ik, iv);
    HighKept(d2, n, ik, slot, sl, moved, iv, free);
  }

  /** The last writes stay below the data. */
  lemma {:induction false} HighKept(d2: seq<byte>, n: nat, ik: nat, slot: nat, sl: seq<byte>, moved: seq<byte>, x: nat,
                                    y: nat)
    requires |d2| == PAGE_SIZE && slot <= n && SLOT_START + 8 * (n + 1) <= ik <= x <= y <= PAGE_SIZE
    requires |sl| == 8 && |moved| == 8 * (n - slot)
    ensures Patch(Patch(Patch(Patch(d2, 3, U16(ik)), SLOT_START + 8 * slot + 8, moved), SLOT_START + 8 * slot, sl), 1,
            U16(n + 1))[x..y] == d2[x..y]
  {
    hide Patch, U16;
    var sb := SLOT_START + 8 * slot;
    var d3 := Patch(d2, 3, U16(ik));
    var d4 := Patch(d3, sb + 8, moved);
    var d5 := Patch(d4, sb, sl);
    PatchOutside(d2, 3, U16(ik), x, y);
    PatchOutside(d3, sb + 8, moved, x, y);
    PatchOutside(d4, sb, sl, x, y);
    PatchOutside(d5, 1, U16(n + 1), x, y);
  }

  /** Slots behind the new one moved up by one. */
  lemma {:induction false} InsertedShifts(d: seq<byte>, n: nat, free: nat, e: Entry, slot: nat, j: nat)
    requires |d| == PAGE_SIZE && slot <= n && free <= PAGE_SIZE
             && SLOT_START + 8 * (n + 1) + |e.key| + |e.value| <= free
    requires slot <= j < n
    ensures Slot(Inserted(d, n, free, e, slot), j + 1) == Slot(d, j)
  {
    hide Patch, U16, SlotBytes;
    var iv := free - |e.value|;
    var ik := iv - |e.key|;
    var sb := SLOT_START + 8 * slot;
    var sl := SlotBytes(ik, |e.key|, iv, |e.value|);
    var d1 := Patch(d, iv, e.value);
    var d2 := Patch(d1, ik, e.key);
    var d3 := Patch(d2, 3, U16(ik));
    var moved := d3[sb..SLOT_START + 8 * n];
    var d4 := Patch(d3, sb + 8, moved);
    var d5 := Patch(d4, sb, sl);
    var x := SLOT_START + 8 * j;
    PatchOutside(d5, 1, U16(n + 1), x + 8, x + 16);
    PatchOutside(d4, sb, sl, x + 8, x + 16);
    PatchPart(d3, sb + 8, moved, x + 8, x + 16);
    SliceOfSlice(d3, sb, SLOT_START + 8 * n, x - sb, x - sb + 8);
    PatchOutside(d2, 3, U16(ik), x, x + 8);
    PatchOutside(d1, ik, e.key, x, x + 8);
    PatchOutside(d, iv, e.value, x, x + 8);
  }

  lemma {:induction false} PointsStill(d: seq<byte>, r: seq<byte>, s: seq<byte>, e: Entry, free: nat, free': nat)
    requires |d| == |r| == PAGE_SIZE && free' <= free <= PAGE_SIZE && r[free..PAGE_SIZE] == d[free..PAGE_SIZE]
    requires PointsTo(d, s, e, free)
    ensures PointsTo(r, s, e, free')
  {
    var ko, kl, vo, vl := Get16(s[0..2]), Get16(s[2..4]), Get16(s[4..6]), Get16(s[6..8]);
    SameHigh(d, r, free, ko, kl);
    SameHigh(d, r, free, vo, vl);
  }

  lemma {:induction false} SameHigh(d: seq<byte>, r: seq<byte>, free: nat, o: nat, l: nat)
    requires |d| == |r| == PAGE_SIZE && free <= o && o + l <= PAGE_SIZE && r[free..PAGE_SIZE] == d[free..PAGE_SIZE]
    ensures r[o..o + l] == d[o..o + l]
  {
    SliceOfSlice(r, free, PAGE_SIZE, o - free, o + l - free);
    SliceOfSlice(d, free, PAGE_SIZE, o - free, o + l - free);
  }

  lemma {:induction false} InsertedSlot(d: seq<byte>, pg: Page, e: Entry, slot: nat, i: nat)
    requires HoldsLeaf(d, pg) && LeafRoom(pg) && slot <= |pg.entries| && EntrySize(e) <= Available(pg)
    requires i <= |pg.entries|
    ensures var pg' := InsertLeafEntry(pg, e, slot);
            SlotHolds(Inserted(d, |pg.entries|, pg.free, e, slot), i, pg'.entries[i], pg'.free)
  {
    hide Inserted, EntriesSize, PointsTo;
    var n, free := |pg.entries|, pg.free;
    var r := Inserted(d, n, free, e, slot);
    InsertedKeeps(d, n, free, e, slot, free, PAGE_SIZE);
    if i < slot {
      InsertedKeeps(d, n, free, e, slot, SLOT_START + 8 * i, SLOT_START + 8 * i + 8);
      assert SlotHolds(d, i, pg.entries[i], free);
      PointsStill(d, r, Slot(d, i), pg.entries[i], free, free - |e.value| - |e.key|);
    } else if i == slot {
      NewSlotHolds(d, n, free, e, slot);
    } else {
      InsertedShifts(d, n, free, e, slot, i - 1);
      assert SlotHolds(d, i - 1, pg.entries[i - 1], free);
      PointsStill(d, r, Slot(d, i - 1), pg.entries[i - 1], free, free - |e.value| - |e.key|);
    }
  }

  lemma {:induction false} NewSlotHolds(d: seq<byte>, n: nat, free: nat, e: Entry, slot: nat)
    requires |d| == PAGE_SIZE && slot <= n && free <= PAGE_SIZE
             && SLOT_START + 8 * (n + 1) + |e.key| + |e.value| <= free
    ensures SlotHolds(Inserted(d, n, free, e, slot), slot, e, free - |e.value| - |e.key|)
  {
    hide Inserted;
    var iv := free - |e.value|;
    InsertedWrites(d, n, free, e, slot);
    SlotFields(iv - |e.key|, |e.key|, iv, |e.value|);
  }

  /** On bytes, inserting is inserting: a page that has room holds exactly one entry more. */
  lemma {:induction false} InsertedHolds(d: seq<byte>, pg: Page, e: Entry, slot: nat)
    requires HoldsLeaf(d, pg) && LeafRoom(pg) && slot <= |pg.entries| && EntrySize(e) <= Available(pg)
    ensures HoldsLeaf(Inserted(d, |pg.entries|, pg.free, e, slot), InsertLeafEntry(pg, e, slot))
  {
    hide Inserted, EntriesSize, SlotHolds;
    var n, free := |pg.entries|, pg.free;
    var r, pg' := Inserted(d, n, free, e, slot), InsertLeafEntry(pg, e, slot);
    InsertedWrites(d, n, free, e, slot);
    InsertedKeeps(d, n, free, e, slot, 0, 1);
    InsertedKeeps(d, n, free, e, slot, 5, 9);
    assert r[0] == r[0..1][0] == d[0..1][0];
    RoundTrip16(n + 1, r[1..3]);
    RoundTrip16(pg'.free, r[3..5]);
    forall i | 0 <= i < n + 1 ensures SlotHolds(r, i, pg'.entries[i], pg'.free) {
      InsertedSlot(d, pg, e, slot, i);
    }
  }

  // ----- deleting -----

  /** deleteLeafEntry: the slots behind close up, the data stays. */
  ghost function Removed(d: seq<byte>, n: nat, slot: nat): (r: seq<byte>)
    requires |d| == PAGE_SIZE && slot < n && SLOT_START + 8 * n <= PAGE_SIZE
    ensures |r| == PAGE_SIZE
  {
    var sb := SLOT_START + 8 * slot;
    Patch(Patch(d, sb, d[sb + 8..SLOT_START + 8 * n]), 1, U16(n - 1))
  }

  lemma {:induction false} RemovedKeeps(d: seq<byte>, n: nat, slot: nat, x: nat, y: nat)
    requires |d| == PAGE_SIZE && slot < n && SLOT_START + 8 * n <= PAGE_SIZE
    requires x <= y <= PAGE_SIZE && (y <= 1 || (3 <= x && y <= SLOT_START + 8 * slot) || SLOT_START + 8 * n <= x)
    ensures Removed(d, n, slot)[x..y] == d[x..y]
  {
    hide Patch, U16;
    var sb := SLOT_START + 8 * slot;
    var moved := d[sb + 8..SLOT_START + 8 * n];
    PatchOutside(d, sb, moved, x, y);
    PatchOutside(Patch(d, sb, moved), 1, U16(n - 1), x, y);
  }

  lemma {:induction false} RemovedShifts(d: seq<byte>, n: nat, slot: nat, i: nat)
    requires |d| == PAGE_SIZE && slot <= i < n - 1 && SLOT_START + 8 * n <= PAGE_SIZE
    ensures Slot(Removed(d, n, slot), i) == Slot(d, i + 1)
    ensures Removed(d, n, slot)[1..3] == U16(n - 1)
  {
    hide Patch, U16;
    var sb, x := SLOT_START + 8 * slot, SLOT_START + 8 * i;
    var moved := d[sb + 8..SLOT_START + 8 * n];
    var d1 := Patch(d, sb, moved);
    PatchInside(d1, 1, U16(n - 1));
    PatchOutside(d1, 1, U16(n - 1), x, x + 8);
    PatchPart(d, sb, moved, x, x + 8);
    SliceOfSlice(d, sb + 8, SLOT_START + 8 * n, x - sb, x - sb + 8);
  }

  lemma {:induction false} RemovedSlot(d: seq<byte>, pg: Page, slot: nat, i: nat)
    requires HoldsLeaf(d, pg) && LeafRoom(pg) && slot < |pg.entries| && i < |pg.entries| - 1
    ensures SlotHolds(Removed(d, |pg.entries|, slot), i, DeleteLeafEntry(pg, slot).entries[i], pg.free)
  {
    hide Removed, EntriesSize, PointsTo;
    var n := |pg.entries|;
    var r := Removed(d, n, slot);
    RemovedKeeps(d, n, slot, pg.free, PAGE_SIZE);
    if i < slot {
      RemovedKeeps(d, n, slot, SLOT_START + 8 * i, SLOT_START + 8 * i + 8);
      assert SlotHolds(d, i, pg.entries[i], pg.free);
      PointsStill(d, r, Slot(d, i), pg.entries[i], pg.free, pg.free);
    } else {
      RemovedShifts(d, n, slot, i);
      assert SlotHolds(d, i + 1, pg.entries[i + 1], pg.free);
      PointsStill(d, r, Slot(d, i + 1), pg.entries[i + 1], pg.free, pg.free);
    }
  }

  /** On bytes, deleting is deleting: the slots close up, nothing else moves. */
  lemma {:induction false} RemovedHolds(d: seq<byte>, pg: Page, slot: nat)
    requires HoldsLeaf(d, pg) && LeafRoom(pg) && slot < |pg.entries|
    ensures HoldsLeaf(Removed(d, |pg.entries|, slot), DeleteLeafEntry(pg, slot))
  {
    var n := |pg.entries|;
    var r, pg' := Removed(d, n, slot), DeleteLeafEntry(pg, slot);
    PatchInside(Patch(d, SLOT_START + 8 * slot, d[SLOT_START + 8 * slot + 8..SLOT_START + 8 * n]), 1, U16(n - 1));
    hide Removed, EntriesSize, SlotHolds;
    RemovedKeeps(d, n, slot, 0, 1);
    RemovedKeeps(d, n, slot, 3, 5);
    RemovedKeeps(d, n, slot, 5, 9);
    assert r[0] == r[0..1][0] == d[0..1][0];
    RoundTrip16(n - 1, r[1..3]);
    forall i | 0 <= i < n - 1 ensures SlotHolds(r, i, pg'.entries[i], pg.free) {
      RemovedSlot(d, pg, slot, i);
    }
  }

  lemma {:induction false} SiblingHolds(d: seq<byte>, pg: Page, next: PageId)
    requires HoldsLeaf(d, pg) && next < 0x1_0000_0000
    ensures HoldsLeaf(Patch(d, 5, U32(next)), pg.(next := next))
  {
    var r := Patch(d, 5, U32(next));
    PatchInside(d, 5, U32(next));
    RoundTrip32(next, U32(next));
    PatchOutside(d, 5, U32(next), 1, 3);
    PatchOutside(d, 5, U32(next), 3, 5);
    PatchAt(d, 5, U32(next), 0);
    PatchOutside(d, 5, U32(next), pg.free, PAGE_SIZE);
    hide PointsTo;
    forall i | 0 <= i < |pg.entries| ensures SlotHolds(r, i, pg.entries[i], pg.free) {
      assert SlotHolds(d, i, pg.entries[i], pg.free);
      PatchOutside(d, 5, U32(next), SLOT_START + 8 * i, SLOT_START + 8 * i + 8);
      PointsStill(d, r, Slot(d, i), pg.entries[i], pg.free, pg.free);
    }
  }

  /** Adding one entry behind all others to a packed page keeps it packed. */
  lemma {:induction false} AppendOne(a: seq<Entry>, e: Entry, b: seq<Entry>, next: PageId)
    requires EntriesSize(a + [e] + b) <= PAGE_SIZE - SLOT_START
    ensures var pg := RebuildLeaf(a, next);
            && LeafRoom(pg) && EntrySize(e) <= Available(pg)
            && InsertLeafEntry(pg, e, |a|) == RebuildLeaf(a + [e], next)
  {
    EntriesSizeConcat(a + [e], b);
    EntriesSizeConcat(a, [e]);
    assert [e][1..] == [];
    assert a[..|a|] == a && a[|a|..] == [];
  }

  /** Adding the next entry of a list to a page that holds the list so far. */
  lemma {:induction false} AppendStep(es: seq<Entry>, i: nat, next: PageId)
    requires i < |es| && EntriesSize(es) <= PAGE_SIZE - SLOT_START
    ensures var pg := RebuildLeaf(es[..i], next);
            && LeafRoom(pg) && EntrySize(es[i]) <= Available(pg)
            && InsertLeafEntry(pg, es[i], i) == RebuildLeaf(es[..i + 1], next)
  {
    hide EntriesSize;
    assert es == es[..i] + [es[i]] + es[i + 1..];
    AppendOne(es[..i], es[i], es[i + 1..], next);
    assert es[..i + 1] == es[..i] + [es[i]];
  }
}
