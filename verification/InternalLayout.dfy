/** Internal pages as bytes: header, children, key slots, and keys growing down (storage/btree_node.go). */
module InternalLayout {
  import opened Keys
  import opened Nodes
  import opened Bytes

  const INTERNAL_TYPE: byte := 2

  function KeyBytes(ks: seq<Key>): nat { KeysSize(ks) - 8 * |ks| }

  ghost function Child(d: seq<byte>, i: nat): seq<byte>
    requires 5 + 4 * i + 4 <= |d|
  {
    d[5 + 4 * i..5 + 4 * i + 4]
  }

  /** Key slot `i` of a page with `n` keys: the slots start behind the `n + 1` children. */
  ghost function KeySlot(d: seq<byte>, n: nat, i: nat): seq<byte>
    requires 9 + 4 * n + 4 * i + 4 <= |d|
  {
    d[9 + 4 * n + 4 * i..9 + 4 * n + 4 * i + 4]
  }

  ghost predicate KeyPointsTo(d: seq<byte>, s: seq<byte>, k: Key, free: nat) {
    |s| == 4
    && (var ko, kl := Get16(s[0..2]), Get16(s[2..4]);
        free <= ko && ko + kl <= |d| && kl == |k| && d[ko..ko + kl] == k)
  }

  ghost predicate KeySlotHolds(d: seq<byte>, n: nat, i: nat, k: Key, free: nat)
    requires 9 + 4 * n + 4 * i + 4 <= |d|
  {
    KeyPointsTo(d, KeySlot(d, n, i), k, free)
  }

  ghost predicate ChildHolds(d: seq<byte>, i: nat, c: PageId)
    requires 5 + 4 * i + 4 <= |d|
  {
    Get32(Child(d, i)) == c
  }

  /**
    * The bytes of an internal page with this content: always compact, the free
    * pointer is the page size less all key bytes.
    */
  ghost predicate HoldsInternal(d: seq<byte>, pg: Page) {
    |d| == PAGE_SIZE && InternalRoom(pg) && d[0] == INTERNAL_TYPE
    && Get16(d[1..3]) == |pg.keys|
    && Get16(d[3..5]) == PAGE_SIZE - KeyBytes(pg.keys)
    && (forall i :: 0 <= i < |pg.children| ==> ChildHolds(d, i, pg.children[i]))
    && (forall i :: 0 <= i < |pg.keys| ==> KeySlotHolds(d, |pg.keys|, i, pg.keys[i], PAGE_SIZE - KeyBytes(pg.keys)))
  }

  // ----- inserting -----

  /** The slots and children moved apart: first three writes of insertInternalEntry. */
  ghost function Spread(d: seq<byte>, n: nat, slot: nat): (r: seq<byte>)
    requires |d| == PAGE_SIZE && slot <= n && 9 + 8 * (n + 1) <= PAGE_SIZE
    ensures |r| == PAGE_SIZE
  {
    var base := 9 + 4 * n;
    var c1 := Patch(d, base + 8 + 4 * slot, d[base + 4 * slot..base + 4 * n]);
    var c2 := Patch(c1, base + 4, c1[base..base + 4 * slot]);
    Patch(c2, 13 + 4 * slot, c2[9 + 4 * slot..base])
  }

  /** insertInternalEntry, write by write. */
  ghost function Inserted(d: seq<byte>, n: nat, free: nat, key: Key, slot: nat, right: PageId): (r: seq<byte>)
    requires |d| == PAGE_SIZE && slot <= n && free <= PAGE_SIZE && 9 + 8 * (n + 1) + |key| <= free
             && right < 0x1_0000_0000
    ensures |r| == PAGE_SIZE
  {
    var base, at := 9 + 4 * n, free - |key|;
    var c3 := Spread(d, n, slot);
    var c4 := Patch(c3, 9 + 4 * slot, U32(right));
    var c5 := Patch(c4, base + 4 + 4 * slot, U16(at) + U16(|key|));
    var c6 := Patch(c5, at, key);
    var c7 := Patch(c6, 3, U16(at));
    Patch(c7, 1, U16(n + 1))
  }

  lemma {:induction false} SpreadKeeps(d: seq<byte>, n: nat, slot: nat, x: nat, y: nat)
    requires |d| == PAGE_SIZE && slot <= n && 9 + 8 * (n + 1) <= PAGE_SIZE
    requires x <= y <= PAGE_SIZE && (y <= 9 + 4 * slot || 9 + 8 * (n + 1) <= x)
    ensures Spread(d, n, slot)[x..y] == d[x..y]
  {
    hide Patch;
    var base := 9 + 4 * n;
    var m1 := d[base + 4 * slot..base + 4 * n];
    var c1 := Patch(d, base + 8 + 4 * slot, m1);
    var m2 := c1[base..base + 4 * slot];
    var c2 := Patch(c1, base + 4, m2);
    PatchOutside(d, base + 8 + 4 * slot, m1, x, y);
    PatchOutside(c1, base + 4, m2, x, y);
    PatchOutside(c2, 13 + 4 * slot, c2[9 + 4 * slot..base], x, y);
  }

  /** A child behind the slot stands one further. */
  lemma {:induction false} SpreadChild(d: seq<byte>, n: nat, slot: nat, j: nat)
    requires |d| == PAGE_SIZE && slot < j <= n && 9 + 8 * (n + 1) <= PAGE_SIZE
    ensures Child(Spread(d, n, slot), j + 1) == Child(d, j)
  {
    hide Patch;
    var base, x := 9 + 4 * n, 5 + 4 * j;
    var m1 := d[base + 4 * slot..base + 4 * n];
    var c1 := Patch(d, base + 8 + 4 * slot, m1);
    var m2 := c1[base..base + 4 * slot];
    var c2 := Patch(c1, base + 4, m2);
    var m3 := c2[9 + 4 * slot..base];
    PatchPart(c2, 13 + 4 * slot, m3, x + 4, x + 8);
    SliceOfSlice(c2, 9 + 4 * slot, base, x - 9 - 4 * slot, x - 5 - 4 * slot);
    PatchOutside(d, base + 8 + 4 * slot, m1, x, x + 4);
    PatchOutside(c1, base + 4, m2, x, x + 4);
  }

  /** A key slot before the new one only makes way for the longer child array. */
  lemma {:induction false} SpreadLow(d: seq<byte>, n: nat, slot: nat, j: nat)
    requires |d| == PAGE_SIZE && j < slot <= n && 9 + 8 * (n + 1) <= PAGE_SIZE
    ensures KeySlot(Spread(d, n, slot), n + 1, j) == KeySlot(d, n, j)
  {
    hide Patch;
    var base := 9 + 4 * n;
    var x := base + 4 * j;
    var m1 := d[base + 4 * slot..base + 4 * n];
    var c1 := Patch(d, base + 8 + 4 * slot, m1);
    var m2 := c1[base..base + 4 * slot];
    var c2 := Patch(c1, base + 4, m2);
    PatchOutside(c2, 13 + 4 * slot, c2[9 + 4 * slot..base], x + 4, x + 8);
    PatchPart(c1, base + 4, m2, x + 4, x + 8);
    SliceOfSlice(c1, base, base + 4 * slot, 4 * j, 4 * j + 4);
    PatchOutside(d, base + 8 + 4 * slot, m1, x, x + 4);
  }

  /** A key slot behind the new one moves up by two. */
  lemma {:induction false} SpreadHigh(d: seq<byte>, n: nat, slot: nat, j: nat)
    requires |d| == PAGE_SIZE && slot <= j < n && 9 + 8 * (n + 1) <= PAGE_SIZE
    ensures KeySlot(Spread(d, n, slot), n + 1, j + 1) == KeySlot(d, n, j)
  {
    hide Patch;
    var base := 9 + 4 * n;
    var x := base + 4 * j;
    var m1 := d[base + 4 * slot..base + 4 * n];
    var c1 := Patch(d, base + 8 + 4 * slot, m1);
    var m2 := c1[base..base + 4 * slot];
    var c2 := Patch(c1, base + 4, m2);
    PatchOutside(c2, 13 + 4 * slot, c2[9 + 4 * slot..base], x + 8, x + 12);
    PatchOutside(c1, base + 4, m2, x + 8, x + 12);
    PatchPart(d, base + 8 + 4 * slot, m1, x + 8, x + 12);
    SliceOfSlice(d, base + 4 * slot, base + 4 * n, 4 * j - 4 * slot, 4 * j - 4 * slot + 4);
  }

  /** The rest of insertInternalEntry writes the header, one child, one slot and the key. */
  lemma {:induction false} InsertedKeeps(d: seq<byte>, n: nat, free: nat, key: Key, slot: nat, right: PageId, x: nat,
                                         y: nat)
    requires |d| == PAGE_SIZE && slot <= n && free <= PAGE_SIZE && 9 + 8 * (n + 1) + |key| <= free
             && right < 0x1_0000_0000
    requires x <= y <= PAGE_SIZE
    requires y <= 1 || (5 <= x && y <= 9 + 4 * slot) || (13 + 4 * slot <= x && y <= 13 + 4 * n + 4 * slot)
          || (17 + 4 * n + 4 * slot <= x && y <= free - |key|) || free <= x
    ensures Inserted(d, n, free, key, slot, right)[x..y] == Spread(d, n, slot)[x..y]
  {
    hide Spread, Patch, U16, U32;
    var base, at := 9 + 4 * n, free - |key|;
    var c3 := Spread(d, n, slot);
    var c4 := Patch(c3, 9 + 4 * slot, U32(right));
    var c5 := Patch(c4, base + 4 + 4 * slot, U16(at) + U16(|key|));
    var c6 := Patch(c5, at, key);
    var c7 := Patch(c6, 3, U16(at));
    PatchOutside(c3, 9 + 4 * slot, U32(right), x, y);
    PatchOutside(c4, base + 4 + 4 * slot, U16(at) + U16(|key|), x, y);
    PatchOutside(c5, at, key, x, y);
    PatchOutside(c6, 3, U16(at), x, y);
    PatchOutside(c7, 1, U16(n + 1), x, y);
  }

  lemma {:induction false} InsertedWrites(d: seq<byte>, n: nat, free: nat, key: Key, slot: nat, right: PageId)
    requires |d| == PAGE_SIZE && slot <= n && free <= PAGE_SIZE && 9 + 8 * (n + 1) + |key| <= free
             && right < 0x1_0000_0000
    ensures var r, at := Inserted(d, n, free, key, slot, right), free - |key|;
            && r[1..3] == U16(n + 1) && r[3..5] == U16(at)
            && Child(r, slot + 1) == U32(right)
            && KeySlot(r, n + 1, slot) == U16(at) + U16(|key|)
            && r[at..free] == key
  {
    hide Spread, Patch, U16, U32;
    var base, at := 9 + 4 * n, free - |key|;
    var c3 := Spread(d, n, slot);
    var c4 := Patch(c3, 9 + 4 * slot, U32(right));
    var sl := U16(at) + U16(|key|);
    var ks := base + 4 + 4 * slot;
    var c5 := Patch(c4, ks, sl);
    var c6 := Patch(c5, at, key);
    var c7 := Patch(c6, 3, U16(at));
    PatchInside(c7, 1, U16(n + 1));
    PatchInside(c6, 3, U16(at));
    PatchOutside(c7, 1, U16(n + 1), 3, 5);
    PatchInside(c5, at, key);
    HeaderWrites(c6, n, at, at, free);
    PatchInside(c4, ks, sl);
    PatchOutside(c5, at, key, ks, ks + 4);
    HeaderWrites(c6, n, at, ks, ks + 4);
    PatchInside(c3, 9 + 4 * slot, U32(right));
    PatchOutside(c4, ks, sl, 9 + 4 * slot, 13 + 4 * slot);
    PatchOutside(c5, at, key, 9 + 4 * slot, 13 + 4 * slot);
    HeaderWrites(c6, n, at, 9 + 4 * slot, 13 + 4 * slot);
  }

  lemma {:induction false} HeaderWrites(c6: seq<byte>, n: nat, at: nat, x: nat, y: nat)
    requires |c6| == PAGE_SIZE && n + 1 < 0x1_0000 && at < 0x1_0000 && 5 <= x <= y <= PAGE_SIZE
    ensures Patch(Patch(c6, 3, U16(at)), 1, U16(n + 1))[x..y] == c6[x..y]
  {
    PatchOutside(c6, 3, U16(at), x, y);
    PatchOutside(Patch(c6, 3, U16(at)), 1, U16(n + 1), x, y);
  }

  lemma {:induction false} KeyPointsStill(d: seq<byte>, r: seq<byte>, s: seq<byte>, k: Key, free: nat, free': nat)
    requires |d| == |r| == PAGE_SIZE && free' <= free <= PAGE_SIZE && r[free..PAGE_SIZE] == d[free..PAGE_SIZE]
    requires KeyPointsTo(d, s, k, free)
    ensures KeyPointsTo(r, s, k, free')
  {
    var ko, kl := Get16(s[0..2]), Get16(s[2..4]);
    SliceOfSlice(r, free, PAGE_SIZE, ko - free, ko + kl - free);
    SliceOfSlice(d, free, PAGE_SIZE, ko - free, ko + kl - free);
  }

  lemma {:induction false} InsertedChildBytes(d: seq<byte>, n: nat, free: nat, key: Key, slot: nat, right: PageId,
                                              i: nat)
    requires |d| == PAGE_SIZE && slot <= n && free <= PAGE_SIZE && 9 + 8 * (n + 1) + |key| <= free
             && right < 0x1_0000_0000
    requires i <= n + 1
    ensures Child(Inserted(d, n, free, key, slot, right), i)
         == if i <= slot then Child(d, i) else if i == slot + 1 then U32(right) else Child(d, i - 1)
  {
    hide Inserted, Spread, U32;
    var x := 5 + 4 * i;
    if i <= slot {
      InsertedKeeps(d, n, free, key, slot, right, x, x + 4);
      SpreadKeeps(d, n, slot, x, x + 4);
    } else if i == slot + 1 {
      InsertedWrites(d, n, free, key, slot, right);
    } else {
      InsertedKeeps(d, n, free, key, slot, right, x, x + 4);
      SpreadChild(d, n, slot, i - 1);
    }
  }

  lemma {:induction false} InsertedAt<T>(s: seq<T>, k: nat, v: T, i: nat)
    requires k <= |s| && i <= |s|
    ensures (s[..k] + [v] + s[k..])[i] == if i < k then s[i] else if i == k then v else s[i - 1]
  {
  }

  lemma {:induction false} InsertedChild(d: seq<byte>, pg: Page, key: Key, slot: nat, right: PageId, i: nat)
    requires HoldsInternal(d, pg) && slot <= |pg.keys| && right < 0x1_0000_0000
    requires InternalLiveBytes(pg.keys) + |key| + 8 <= PAGE_SIZE && i <= |pg.keys| + 1
    ensures ChildHolds(Inserted(d, |pg.keys|, PAGE_SIZE - KeyBytes(pg.keys), key, slot, right), i,
                       InsertInternalEntry(pg, key, slot, right).children[i])
  {
    hide Inserted, KeysSize, Child, Get32, U32, KeySlotHolds;
    InsertedChildBytes(d, |pg.keys|, PAGE_SIZE - KeyBytes(pg.keys), key, slot, right, i);
    InsertedAt(pg.children, slot + 1, right, i);
    RoundTrip32(right, U32(right));
    if i <= slot {
      assert ChildHolds(d, i, pg.children[i]);
    } else if i > slot + 1 {
      assert ChildHolds(d, i - 1, pg.children[i - 1]);
    }
  }

  lemma {:induction false} InsertedKeySlot(d: seq<byte>, pg: Page, key: Key, slot: nat, right: PageId, i: nat)
    requires HoldsInternal(d, pg) && slot <= |pg.keys| && right < 0x1_0000_0000
    requires InternalLiveBytes(pg.keys) + |key| + 8 <= PAGE_SIZE && i <= |pg.keys|
    ensures var free := PAGE_SIZE - KeyBytes(pg.keys);
            KeySlotHolds(Inserted(d, |pg.keys|, free, key, slot, right), |pg.keys| + 1, i,
                         InsertInternalEntry(pg, key, slot, right).keys[i], free - |key|)
  {
    hide Inserted, Spread, KeysSize, KeyPointsTo, KeySlot, Child, Get16, Get32, ChildHolds;
    var n, free := |pg.keys|, PAGE_SIZE - KeyBytes(pg.keys);
    var r := Inserted(d, n, free, key, slot, right);
    InsertedKeeps(d, n, free, key, slot, right, free, PAGE_SIZE);
    SpreadKeeps(d, n, slot, free, PAGE_SIZE);
    InsertedAt(pg.keys, slot, key, i);
    if i == slot {
      NewKeySlot(d, n, free, key, slot, right);
    } else {
      var j := if i < slot then i else i - 1;
      InsertedKeySlotBytes(d, n, free, key, slot, right, i);
      assert KeySlotHolds(d, n, j, pg.keys[j], free);
      KeyPointsStill(d, r, KeySlot(d, n, j), pg.keys[j], free, free - |key|);
    }
  }

  lemma {:induction false} InsertedKeySlotBytes(d: seq<byte>, n: nat, free: nat, key: Key, slot: nat, right: PageId,
                                                i: nat)
    requires |d| == PAGE_SIZE && slot <= n && free <= PAGE_SIZE && 9 + 8 * (n + 1) + |key| <= free
             && right < 0x1_0000_0000
    requires i <= n && i != slot
    ensures KeySlot(Inserted(d, n, free, key, slot, right), n + 1, i) == KeySlot(d, n, if i < slot then i else i - 1)
  {
    hide Inserted, Spread;
    var x := 9 + 4 * (n + 1) + 4 * i;
    InsertedKeeps(d, n, free, key, slot, right, x, x + 4);
    if i < slot {
      SpreadLow(d, n, slot, i);
    } else {
      SpreadHigh(d, n, slot, i - 1);
    }
  }

  lemma {:induction false} NewKeySlot(d: seq<byte>, n: nat, free: nat, key: Key, slot: nat, right: PageId)
    requires |d| == PAGE_SIZE && slot <= n && free <= PAGE_SIZE && 9 + 8 * (n + 1) + |key| <= free
             && right < 0x1_0000_0000
    ensures KeySlotHolds(Inserted(d, n, free, key, slot, right), n + 1, slot, key, free - |key|)
  {
    hide Inserted;
    var at := free - |key|;
    InsertedWrites(d, n, free, key, slot, right);
    var s := U16(at) + U16(|key|);
    assert s[0..2] == U16(at) && s[2..4] == U16(|key|);
    RoundTrip16(at, U16(at));
    RoundTrip16(|key|, U16(|key|));
  }

  /** On bytes, inserting a separator and its right child is just that, and the page stays compact. */
  lemma {:induction false} InsertedHolds(d: seq<byte>, pg: Page, key: Key, slot: nat, right: PageId)
    requires HoldsInternal(d, pg) && slot <= |pg.keys| && right < 0x1_0000_0000
    requires InternalLiveBytes(pg.keys) + |key| + 8 <= PAGE_SIZE
    ensures HoldsInternal(Inserted(d, |pg.keys|, PAGE_SIZE - KeyBytes(pg.keys), key, slot, right),
                          InsertInternalEntry(pg, key, slot, right))
  {
    hide Inserted, KeysSize, ChildHolds, KeySlotHolds;
    var n, free := |pg.keys|, PAGE_SIZE - KeyBytes(pg.keys);
    var r, pg' := Inserted(d, n, free, key, slot, right), InsertInternalEntry(pg, key, slot, right);
    InsertedFree(pg, key, slot, right);
    InsertedHeader(d, n, free, key, slot, right);
    forall i | 0 <= i < |pg'.children| ensures ChildHolds(r, i, pg'.children[i]) {
      InsertedChild(d, pg, key, slot, right, i);
    }
    forall i | 0 <= i < |pg'.keys| ensures KeySlotHolds(r, n + 1, i, pg'.keys[i], free - |key|) {
      InsertedKeySlot(d, pg, key, slot, right, i);
    }
  }

  lemma {:induction false} InsertedFree(pg: Page, key: Key, slot: nat, right: PageId)
    requires InternalRoom(pg) && slot <= |pg.keys| && InternalLiveBytes(pg.keys) + |key| + 8 <= PAGE_SIZE
    ensures KeyBytes(InsertInternalEntry(pg, key, slot, right).keys) == KeyBytes(pg.keys) + |key|
    ensures |InsertInternalEntry(pg, key, slot, right).keys| == |pg.keys| + 1
  {
    KeysSizeInsert(pg.keys[..slot], key, pg.keys[slot..]);
    assert pg.keys == pg.keys[..slot] + pg.keys[slot..];
  }

  lemma {:induction false} InsertedHeader(d: seq<byte>, n: nat, free: nat, key: Key, slot: nat, right: PageId)
    requires |d| == PAGE_SIZE && slot <= n && free <= PAGE_SIZE && 9 + 8 * (n + 1) + |key| <= free
             && right < 0x1_0000_0000
    ensures var r := Inserted(d, n, free, key, slot, right);
            r[0] == d[0] && Get16(r[1..3]) == n + 1 && Get16(r[3..5]) == free - |key|
  {
    hide Inserted, Spread;
    var r := Inserted(d, n, free, key, slot, right);
    InsertedWrites(d, n, free, key, slot, right);
    InsertedKeeps(d, n, free, key, slot, right, 0, 1);
    SpreadKeeps(d, n, slot, 0, 1);
    assert r[0] == r[0..1][0] == d[0..1][0];
    RoundTrip16(n + 1, r[1..3]);
    RoundTrip16(free - |key|, r[3..5]);
  }

  lemma {:induction false} HeaderHolds(d: seq<byte>, pg: Page)
    requires HoldsInternal(d, pg)
    ensures |d| == PAGE_SIZE && InternalRoom(pg) && |pg.children| == |pg.keys| + 1
    ensures Get16(d[1..3]) == |pg.keys| && Get16(d[3..5]) == PAGE_SIZE - KeyBytes(pg.keys)
    ensures 9 + 8 * |pg.keys| <= PAGE_SIZE - KeyBytes(pg.keys)
    ensures forall i :: 0 <= i < |pg.children| ==> pg.children[i] < 0x1_0000_0000
  {
    forall i | 0 <= i < |pg.children| ensures pg.children[i] < 0x1_0000_0000 {
      assert ChildHolds(d, i, pg.children[i]);
    }
  }

  /** An internal page with no keys yet and its first child. */
  lemma {:induction false} NewHolds(z: seq<byte>, child: PageId)
    requires |z| == PAGE_SIZE && z[0] == INTERNAL_TYPE && z[1..3] == [0, 0] && child < 0x1_0000_0000
    ensures HoldsInternal(Patch(Patch(z, 3, U16(PAGE_SIZE)), 5, U32(child)), Internal([], [child]))
  {
    var y := Patch(z, 3, U16(PAGE_SIZE));
    var d := Patch(y, 5, U32(child));
    PatchInside(z, 3, U16(PAGE_SIZE));
    PatchOutside(y, 5, U32(child), 3, 5);
    PatchOutside(z, 3, U16(PAGE_SIZE), 1, 3);
    PatchOutside(y, 5, U32(child), 1, 3);
    PatchInside(y, 5, U32(child));
    RoundTrip16(PAGE_SIZE, d[3..5]);
    RoundTrip32(child, U32(child));
    PatchAt(z, 3, U16(PAGE_SIZE), 0);
    PatchAt(y, 5, U32(child), 0);
    assert ChildHolds(d, 0, child);
  }

  /** Adding the next key and child of a list to a page that holds the list so far. */
  lemma {:induction false} AppendStep(ks: seq<Key>, cs: seq<PageId>, i: nat)
    requires |cs| == |ks| + 1 && i < |ks| && InternalLiveBytes(ks) <= PAGE_SIZE
    ensures var pg := Internal(ks[..i], cs[..i + 1]);
            && InternalRoom(pg) && InternalLiveBytes(pg.keys) + |ks[i]| + 8 <= PAGE_SIZE
            && InsertInternalEntry(pg, ks[i], i, cs[i + 1]) == Internal(ks[..i + 1], cs[..i + 2])
  {
    assert ks == ks[..i + 1] + ks[i + 1..];
    KeysSizeConcat(ks[..i + 1], ks[i + 1..]);
    assert ks[..i + 1] == ks[..i] + [ks[i]];
    KeysSizeConcat(ks[..i], [ks[i]]);
    assert [ks[i]][1..] == [];
    var pg := Internal(ks[..i], cs[..i + 1]);
    assert pg.keys[..i] + [ks[i]] + pg.keys[i..] == ks[..i + 1];
    assert pg.children[..i + 1] + [cs[i + 1]] + pg.children[i + 1..] == cs[..i + 2];
  }
}
