/** A node wrapping the bytes of its page; every operation works on the bytes in place (storage/btree_node.go). */
module SlottedPage {
  import opened Keys
  import opened Nodes
  import opened Bytes
  import L = LeafLayout
  import I = InternalLayout

  /** `copy(a[off:], b)`; as `b` is a value, overlapping moves read before they write. */
  method CopyIn(a: array<byte>, off: nat, b: seq<byte>)
    requires off + |b| <= a.Length
    modifies a
    ensures a[..] == Patch(old(a[..]), off, b)
  {
    for i := 0 to |b|
      invariant forall x :: 0 <= x < a.Length ==> a[x] == if off <= x < off + i then b[x - off] else old(a[x])
    {
      a[off + i] := b[i];
    }
    assert forall x :: 0 <= x < a.Length ==> a[..][x] == Patch(old(a[..]), off, b)[x] by {
      forall x | 0 <= x < a.Length ensures a[..][x] == Patch(old(a[..]), off, b)[x] {
        PatchAt(old(a[..]), off, b, x);
      }
    }
  }

  /** `copy(a[dst:], a[src:end])`. */
  method CopyWithin(a: array<byte>, dst: nat, src: nat, end: nat)
    requires src <= end <= a.Length && dst + (end - src) <= a.Length
    modifies a
    ensures a[..] == Patch(old(a[..]), dst, old(a[..])[src..end])
  {
    var moved := a[src..end];
    assert moved == a[..][src..end];
    CopyIn(a, dst, moved);
  }

  method PutUint16(a: array<byte>, off: nat, v: nat)
    requires off + 2 <= a.Length && v < 0x1_0000
    modifies a
    ensures a[..] == Patch(old(a[..]), off, U16(v))
  {
    CopyIn(a, off, U16(v));
  }

  function GetUint16(a: array<byte>, off: nat): (v: nat)
    requires off + 2 <= a.Length
    reads a
    ensures v == Get16(a[..][off..off + 2])
  {
    assert a[..][off..off + 2] == [a[off], a[off + 1]];
    a[off] as nat * 256 + a[off + 1] as nat
  }

  function GetUint32(a: array<byte>, off: nat): nat
    requires off + 4 <= a.Length
    reads a
  {
    GetUint16(a, off) * 0x1_0000 + GetUint16(a, off + 2)
  }

  lemma {:induction false} ReadsAre(a: array<byte>, off: nat)
    requires off + 4 <= a.Length
    ensures GetUint32(a, off) == Get32(a[..][off..off + 4])
  {
    var s := a[..][off..off + 4];
    assert s[..2] == a[..][off..off + 2] && s[2..] == a[..][off + 2..off + 4];
  }

  lemma {:induction false} NewLeafBytes(z: seq<byte>)
    requires |z| == PAGE_SIZE && z[0] == L.LEAF_TYPE && z[1..3] == [0, 0] && z[5..7] == [0, 0] && z[7..9] == [0, 0]
    ensures L.HoldsLeaf(Patch(z, 3, U16(PAGE_SIZE)), RebuildLeaf([], 0))
  {
    var d := Patch(z, 3, U16(PAGE_SIZE));
    PatchInside(z, 3, U16(PAGE_SIZE));
    PatchOutside(z, 3, U16(PAGE_SIZE), 1, 3);
    PatchOutside(z, 3, U16(PAGE_SIZE), 5, 9);
    RoundTrip16(PAGE_SIZE, d[3..5]);
    assert d[5..9][..2] == z[5..7] && d[5..9][2..] == z[7..9];
  }

  /** The value, the key below it and the new free pointer. */
  method WriteData(a: array<byte>, e: Entry, insertKey: nat, insertValue: nat)
    requires a.Length == PAGE_SIZE && 5 <= insertKey && insertKey + |e.key| == insertValue
             && insertValue + |e.value| <= PAGE_SIZE
    modifies a
    ensures a[..] == Patch(Patch(Patch(old(a[..]), insertValue, e.value), insertKey, e.key), 3, U16(insertKey))
  {
    hide Patch, U16;
    CopyIn(a, insertValue, e.value);
    CopyIn(a, insertKey, e.key);
    PutUint16(a, 3, insertKey);
  }

  /** The slots behind move up, the new slot and the new count are written. */
  method WriteSlot(a: array<byte>, slotByte: nat, end: nat, slot: seq<byte>, count: nat)
    requires a.Length == PAGE_SIZE && slotByte <= end && end + 8 <= PAGE_SIZE && |slot| == 8 && count < 0x1_0000
    modifies a
    ensures var d := old(a[..]);
            a[..] == Patch(Patch(Patch(d, slotByte + 8, d[slotByte..end]), slotByte, slot), 1, U16(count))
  {
    hide Patch, U16;
    CopyWithin(a, slotByte + 8, slotByte, end);
    CopyIn(a, slotByte, slot);
    PutUint16(a, 1, count);
  }

  class Node {
    const data: array<byte>

    /** The page holds this leaf. */
    ghost predicate HasLeaf(pg: Page)
      reads this, data
    {
      data.Length == PAGE_SIZE && L.HoldsLeaf(data[..], pg)
    }

    /** The page holds this internal node. */
    ghost predicate HasInternal(pg: Page)
      reads this, data
    {
      data.Length == PAGE_SIZE && I.HoldsInternal(data[..], pg)
    }

    /** makeNewLeafHeader. */
    constructor NewLeaf()
      ensures fresh(data) && HasLeaf(Nodes.RebuildLeaf([], 0))
    {
      data := new byte[PAGE_SIZE](_ => 0);
      new;
      data[0] := L.LEAF_TYPE;
      ghost var z := data[..];
      assert z[0] == L.LEAF_TYPE && z[1..3] == [0, 0] && z[5..7] == [0, 0] && z[7..9] == [0, 0];
      PutUint16(data, 3, PAGE_SIZE);
      NewLeafBytes(z);
    }

    /** makeNewInternalHeader with its first child. */
    constructor NewInternal(child: PageId)
      requires child < 0x1_0000_0000
      ensures fresh(data) && HasInternal(Internal([], [child]))
    {
      data := new byte[PAGE_SIZE](_ => 0);
      new;
      data[0] := I.INTERNAL_TYPE;
      ghost var z := data[..];
      assert z[0] == I.INTERNAL_TYPE && z[1] == 0 && z[2] == 0;
      assert z[1..3] == [z[1], z[2]];
      PutUint16(data, 3, PAGE_SIZE);
      CopyIn(data, 5, U32(child));
      I.NewHolds(z, child);
    }

    // ----- leaves -----

    method LeafEntry(i: nat, ghost pg: Page) returns (e: Entry)
      requires HasLeaf(pg) && i < |pg.entries|
      ensures e == pg.entries[i]
    {
      ghost var d := data[..];
      assert L.SlotHolds(d, i, pg.entries[i], pg.free);
      hide L.HoldsLeaf;
      var off := SLOT_START + i * 8;
      SlotReads(d, i);
      ReadsAre(data, off);
      ReadsAre(data, off + 4);
      var keyOffset, keyLen := GetUint16(data, off), GetUint16(data, off + 2);
      var valueOffset, valueLen := GetUint16(data, off + 4), GetUint16(data, off + 6);
      assert data[keyOffset..keyOffset + keyLen] == d[keyOffset..keyOffset + keyLen];
      assert data[valueOffset..valueOffset + valueLen] == d[valueOffset..valueOffset + valueLen];
      e := Entry(data[keyOffset..keyOffset + keyLen], data[valueOffset..valueOffset + valueLen]);
    }

    method InsertLeafEntry(e: Entry, slotIndex: nat, ghost pg: Page)
      requires HasLeaf(pg) && LeafRoom(pg) && slotIndex <= |pg.entries| && EntrySize(e) <= Available(pg)
      modifies data
      ensures HasLeaf(Nodes.InsertLeafEntry(pg, e, slotIndex))
    {
      hide L.HoldsLeaf, Patch, U16, Get16, Get32, L.SlotBytes, EntriesSize;
      ghost var d := data[..];
      LeafHeader(d, pg);
      var keyCount := GetUint16(data, 1);
      var free := GetUint16(data, 3);
      var insertValue := free - |e.value|;
      var insertKey := insertValue - |e.key|;
      var slotByte := SLOT_START + slotIndex * 8;
      WriteData(data, e, insertKey, insertValue);
      WriteSlot(data, slotByte, SLOT_START + keyCount * 8, L.SlotBytes(insertKey, |e.key|, insertValue, |e.value|),
          keyCount + 1);
      L.InsertedHolds(d, pg, e, slotIndex);
    }

    method DeleteLeafEntry(slotIndex: nat, ghost pg: Page)
      requires HasLeaf(pg) && LeafRoom(pg) && slotIndex < |pg.entries|
      modifies data
      ensures HasLeaf(Nodes.DeleteLeafEntry(pg, slotIndex))
    {
      hide L.HoldsLeaf, Patch, U16, Get16, Get32, EntriesSize;
      ghost var d := data[..];
      LeafHeader(d, pg);
      var keyCount := GetUint16(data, 1);
      var slotByte := SLOT_START + slotIndex * 8;
      CopyWithin(data, slotByte, slotByte + 8, SLOT_START + keyCount * 8);
      PutUint16(data, 1, keyCount - 1);
      L.RemovedHolds(d, pg, slotIndex);
    }

    method SetRightSibling(next: PageId, ghost pg: Page)
      requires HasLeaf(pg) && next < 0x1_0000_0000
      modifies data
      ensures HasLeaf(pg.(next := next))
    {
      hide L.HoldsLeaf, Patch, U32;
      ghost var d := data[..];
      CopyIn(data, 5, U32(next));
      L.SiblingHolds(d, pg, next);
    }

    method RightSibling(ghost pg: Page) returns (next: PageId)
      requires HasLeaf(pg)
      ensures next == pg.next && next < 0x1_0000_0000
    {
      ReadsAre(data, 5);
      next := GetUint32(data, 5);
    }

    method LeafEntries(ghost pg: Page) returns (es: seq<Entry>)
      requires HasLeaf(pg)
      ensures es == pg.entries
    {
      hide L.HoldsLeaf;
      LeafHeader(data[..], pg);
      var n := GetUint16(data, 1);
      es := [];
      for i := 0 to n
        invariant es == pg.entries[..i]
      {
        var e := LeafEntry(i, pg);
        es := es + [e];
      }
    }

    /** leafLiveBytes: the header, the slots and the data they point at. */
    method LeafLiveBytes(ghost pg: Page) returns (total: nat)
      requires HasLeaf(pg)
      ensures total == Nodes.LeafLiveBytes(pg.entries)
    {
      hide L.HoldsLeaf;
      LeafHeader(data[..], pg);
      var n := GetUint16(data, 1);
      total := SLOT_START + n * 8;
      for i := 0 to n
        invariant total == SLOT_START + n * 8 + DataBytes(pg.entries[..i])
      {
        var e := LeafEntry(i, pg);
        EntriesGrow(pg.entries, i);
        total := total + |e.key| + |e.value|;
      }
      assert pg.entries[..n] == pg.entries;
    }

    /** rebuildLeaf: exactly these entries, packed, under the old right sibling. */
    method RebuildLeaf(es: seq<Entry>, ghost pg: Page)
      requires HasLeaf(pg) && EntriesSize(es) <= PAGE_SIZE - SLOT_START
      modifies data
      ensures HasLeaf(Nodes.RebuildLeaf(es, pg.next))
    {
      hide L.HoldsLeaf, EntriesSize;
      var sibling := RightSibling(pg);
      var temp := new Node.NewLeaf();
      assert es[..0] == [];
      for i := 0 to |es|
        invariant fresh(temp) && fresh(temp.data) && temp.data != data && temp.HasLeaf(Nodes.RebuildLeaf(es[..i], 0))
        invariant unchanged(data)
      {
        L.AppendStep(es, i, 0);
        temp.InsertLeafEntry(es[i], i, Nodes.RebuildLeaf(es[..i], 0));
      }
      assert es[..|es|] == es;
      CopyAll(data, temp.data);
      SetRightSibling(sibling, Nodes.RebuildLeaf(es, 0));
    }

    /** compactLeaf: the same entries, the dead bytes gone. */
    method CompactLeaf(ghost pg: Page)
      requires HasLeaf(pg) && LeafRoom(pg)
      modifies data
      ensures HasLeaf(Nodes.RebuildLeaf(pg.entries, pg.next))
    {
      var es := LeafEntries(pg);
      RebuildLeaf(es, pg);
    }

    // ----- internal pages -----

    method ChildPageID(i: nat, ghost pg: Page) returns (c: PageId)
      requires HasInternal(pg) && i < |pg.children|
      ensures c == pg.children[i] && c < 0x1_0000_0000
    {
      assert I.ChildHolds(data[..], i, pg.children[i]);
      I.HeaderHolds(data[..], pg);
      hide I.HoldsInternal;
      ReadsAre(data, 5 + i * 4);
      c := GetUint32(data, 5 + i * 4);
    }

    method InternalKey(i: nat, ghost pg: Page) returns (k: Key)
      requires HasInternal(pg) && i < |pg.keys|
      ensures k == pg.keys[i]
    {
      hide I.HoldsInternal, KeysSize;
      ghost var d := data[..];
      I.HeaderHolds(d, pg);
      KeySlotReads(d, pg, i);
      var keyCount := GetUint16(data, 1);
      var offset := 5 + (keyCount + 1) * 4 + i * 4;
      var keyOffset := GetUint16(data, offset);
      var keyLen := GetUint16(data, offset + 2);
      assert data[keyOffset..keyOffset + keyLen] == d[keyOffset..keyOffset + keyLen];
      k := data[keyOffset..keyOffset + keyLen];
    }

    method InsertInternalEntry(key: Key, slotIndex: nat, rightChildID: PageId, ghost pg: Page)
      requires HasInternal(pg) && slotIndex <= |pg.keys| && rightChildID < 0x1_0000_0000
      requires InternalLiveBytes(pg.keys) + |key| + 8 <= PAGE_SIZE
      modifies data
      ensures HasInternal(Nodes.InsertInternalEntry(pg, key, slotIndex, rightChildID))
    {
      hide I.HoldsInternal, Patch, U16, U32, Get16, Get32, KeysSize;
      ghost var d := data[..];
      I.HeaderHolds(d, pg);
      var keyCount := GetUint16(data, 1);
      var free := GetUint16(data, 3);
      var insertKeyIndex := free - |key|;
      SpreadOut(data, keyCount, slotIndex);
      WriteEntry(data, keyCount, slotIndex, rightChildID, insertKeyIndex, key);
      I.InsertedHolds(d, pg, key, slotIndex, rightChildID);
    }

    /** rebuildInternal: exactly these keys and children, packed. */
    method RebuildInternal(keys: seq<Key>, children: seq<PageId>)
      requires |children| == |keys| + 1 && InternalLiveBytes(keys) <= PAGE_SIZE && data.Length == PAGE_SIZE
      requires forall i :: 0 <= i < |children| ==> children[i] < 0x1_0000_0000
      modifies data
      ensures HasInternal(Internal(keys, children))
    {
      hide I.HoldsInternal, KeysSize;
      var temp := new Node.NewInternal(children[0]);
      assert keys[..0] == [] && children[..1] == [children[0]];
      for i := 0 to |keys|
        invariant fresh(temp) && fresh(temp.data) && temp.data != data
        invariant temp.HasInternal(Internal(keys[..i], children[..i + 1]))
      {
        I.AppendStep(keys, children, i);
        temp.InsertInternalEntry(keys[i], i, children[i + 1], Internal(keys[..i], children[..i + 1]));
      }
      assert keys[..|keys|] == keys && children[..|keys| + 1] == children;
      CopyAll(data, temp.data);
    }

    method KeptParts(separatorKeyIndex: nat, childIndex: nat,
                     ghost pg: Page) returns (keys: seq<Key>, children: seq<PageId>)
      requires HasInternal(pg) && separatorKeyIndex < |pg.keys| && childIndex <= |pg.keys|
      ensures keys == Without(pg.keys, separatorKeyIndex) && children == Without(pg.children, childIndex)
    {
      hide I.HoldsInternal, KeysSize, Without;
      I.HeaderHolds(data[..], pg);
      var oldCount := GetUint16(data, 1);
      keys, children := [], [];
      WithoutNone(pg.keys, separatorKeyIndex);
      WithoutNone(pg.children, childIndex);
      for i := 0 to oldCount
        invariant keys == Without(pg.keys[..i], separatorKeyIndex)
        invariant children == Without(pg.children[..i], childIndex)
      {
        if i != separatorKeyIndex {
          var k := InternalKey(i, pg);
          keys := keys + [k];
        }
        if i != childIndex {
          var c := ChildPageID(i, pg);
          children := children + [c];
        }
        WithoutNext(pg.keys, separatorKeyIndex, i);
        WithoutNext(pg.children, childIndex, i);
      }
      if oldCount != childIndex {
        var c := ChildPageID(oldCount, pg);
        children := children + [c];
      }
      WithoutNext(pg.children, childIndex, oldCount);
      assert pg.keys[..oldCount] == pg.keys && pg.children[..oldCount + 1] == pg.children;
    }

    /** deleteInternalEntry: the page without one separator and one child. */
    method DeleteInternalEntry(separatorKeyIndex: nat, childIndex: nat, ghost pg: Page)
      requires HasInternal(pg) && separatorKeyIndex < |pg.keys| && childIndex <= |pg.keys|
      modifies data
      ensures HasInternal(Nodes.DeleteInternalEntry(pg, separatorKeyIndex, childIndex))
    {
      hide I.HoldsInternal, KeysSize, Without;
      I.HeaderHolds(data[..], pg);
      var keys, children := KeptParts(separatorKeyIndex, childIndex, pg);
      DeletedFits(pg, separatorKeyIndex, childIndex);
      RebuildInternal(keys, children);
    }

    method ReplacedParts(i: nat, newKey: Key, ghost pg: Page) returns (keys: seq<Key>, children: seq<PageId>)
      requires HasInternal(pg) && i < |pg.keys|
      ensures keys == pg.keys[i := newKey] && children == pg.children
    {
      hide I.HoldsInternal, KeysSize;
      I.HeaderHolds(data[..], pg);
      var keyCount := GetUint16(data, 1);
      keys, children := [], [];
      for j := 0 to keyCount
        invariant keys == pg.keys[i := newKey][..j]
      {
        if j == i {
          keys := keys + [newKey];
        } else {
          var k := InternalKey(j, pg);
          keys := keys + [k];
        }
      }
      for j := 0 to keyCount + 1
        invariant children == pg.children[..j]
      {
        var c := ChildPageID(j, pg);
        children := children + [c];
      }
    }

    /** replaceInternalKey: the caller has to know that the new key fits; the page is not asked. */
    method ReplaceInternalKey(i: nat, newKey: Key, ghost pg: Page)
      requires HasInternal(pg) && i < |pg.keys|
      requires InternalLiveBytes(pg.keys) - |pg.keys[i]| + |newKey| <= PAGE_SIZE
      modifies data
      ensures HasInternal(Nodes.ReplaceInternalKey(pg, i, newKey))
    {
      hide I.HoldsInternal, KeysSize;
      I.HeaderHolds(data[..], pg);
      var keys, children := ReplacedParts(i, newKey, pg);
      assert Nodes.ReplaceInternalKey(pg, i, newKey) == Internal(keys, children);
      RebuildInternal(keys, children);
    }
  }

  lemma {:induction false} LeafHeader(d: seq<byte>, pg: Page)
    requires L.HoldsLeaf(d, pg)
    ensures |d| == PAGE_SIZE && pg.Leaf? && Get16(d[1..3]) == |pg.entries| && Get16(d[3..5]) == pg.free
            && Get32(d[5..9]) == pg.next
    ensures SLOT_START + 8 * |pg.entries| <= pg.free <= PAGE_SIZE
  {
  }

  lemma {:induction false} SlotReads(d: seq<byte>, i: nat)
    requires SLOT_START + 8 * i + 8 <= |d|
    ensures var s, off := L.Slot(d, i), SLOT_START + i * 8;
            && s[0..2] == d[off..off + 2] && s[2..4] == d[off + 2..off + 4]
            && s[4..6] == d[off + 4..off + 6] && s[6..8] == d[off + 6..off + 8]
  {
    var off := SLOT_START + i * 8;
    SliceOfSlice(d, off, off + 8, 0, 2);
    SliceOfSlice(d, off, off + 8, 2, 4);
    SliceOfSlice(d, off, off + 8, 4, 6);
    SliceOfSlice(d, off, off + 8, 6, 8);
  }

  /** The two halves of a key slot say where the key is. */
  lemma {:induction false} KeySlotReads(d: seq<byte>, pg: Page, i: nat)
    requires I.HoldsInternal(d, pg) && i < |pg.keys|
    ensures var offset := 5 + (|pg.keys| + 1) * 4 + i * 4;
            && offset + 4 <= |d| == PAGE_SIZE
            && (var ko, kl := Get16(d[offset..offset + 2]), Get16(d[offset + 2..offset + 4]);
                ko + kl <= PAGE_SIZE && d[ko..ko + kl] == pg.keys[i])
  {
    hide KeysSize, Get16, Get32;
    var n := |pg.keys|;
    assert I.KeySlotHolds(d, n, i, pg.keys[i], PAGE_SIZE - I.KeyBytes(pg.keys));
    var offset := 9 + 4 * n + 4 * i;
    SliceOfSlice(d, offset, offset + 4, 0, 2);
    SliceOfSlice(d, offset, offset + 4, 2, 4);
  }

  lemma {:induction false} EntriesGrow(es: seq<Entry>, i: nat)
    requires i < |es|
    ensures DataBytes(es[..i + 1]) == DataBytes(es[..i]) + |es[i].key| + |es[i].value|
  {
    assert es[..i + 1] == es[..i] + [es[i]];
    EntriesSizeConcat(es[..i], [es[i]]);
    assert [es[i]][1..] == [];
  }

  /** A list without its element `k`. */
  function Without<T>(s: seq<T>, k: nat): seq<T> {
    if k < |s| then s[..k] + s[k + 1..] else s
  }

  lemma {:induction false} DeletedFits(pg: Page, sep: nat, child: nat)
    requires InternalRoom(pg) && sep < |pg.keys| && child <= |pg.keys|
    requires forall i :: 0 <= i < |pg.children| ==> pg.children[i] < 0x1_0000_0000
    ensures Nodes.DeleteInternalEntry(pg, sep, child) == Internal(Without(pg.keys, sep), Without(pg.children, child))
    ensures InternalRoom(Internal(Without(pg.keys, sep), Without(pg.children, child)))
    ensures forall i :: 0 <= i < |Without(pg.children, child)| ==> Without(pg.children, child)[i] < 0x1_0000_0000
  {
    var r := Nodes.DeleteInternalEntry(pg, sep, child);
  }

  lemma {:induction false} WithoutNone<T>(s: seq<T>, k: nat)
    ensures Without(s[..0], k) == []
  {
  }

  lemma {:induction false} WithoutNext<T>(s: seq<T>, k: nat, i: nat)
    requires i < |s|
    ensures Without(s[..i + 1], k) == Without(s[..i], k) + (if i == k then [] else [s[i]])
  {
    var a, b := s[..i], s[..i + 1];
    assert b == a + [s[i]];
    if k < i {
      assert b[k + 1..] == a[k + 1..] + [s[i]] && b[..k] == a[..k];
    } else if k == i {
      assert b[..k] == a && b[k + 1..] == [];
    }
  }

  /** `copy(a, b)` for two pages. */
  method CopyAll(a: array<byte>, b: array<byte>)
    requires a.Length == b.Length && a != b
    modifies a
    ensures a[..] == b[..]
  {
    CopyIn(a, 0, b[..]);
  }

  /** Children and key slots moved apart, in the order of the source. */
  method SpreadOut(a: array<byte>, n: nat, slot: nat)
    requires a.Length == PAGE_SIZE && slot <= n && 9 + 8 * (n + 1) <= PAGE_SIZE
    modifies a
    ensures a[..] == I.Spread(old(a[..]), n, slot)
  {
    hide Patch;
    var slotsBase := 5 + (n + 1) * 4;
    CopyWithin(a, slotsBase + 4 + (slot + 1) * 4, slotsBase + slot * 4, slotsBase + n * 4);
    CopyWithin(a, slotsBase + 4, slotsBase, slotsBase + slot * 4);
    CopyWithin(a, 5 + (slot + 2) * 4, 5 + (slot + 1) * 4, 5 + (n + 1) * 4);
  }

  method WriteEntry(a: array<byte>, n: nat, slot: nat, right: PageId, at: nat, key: Key)
    requires a.Length == PAGE_SIZE && slot <= n && 9 + 8 * (n + 1) <= at && at + |key| <= PAGE_SIZE
             && right < 0x1_0000_0000
    modifies a
    ensures a[..] == Patch(Patch(Patch(Patch(Patch(old(a[..]), 9 + 4 * slot, U32(right)),
                                             13 + 4 * n + 4 * slot, U16(at) + U16(|key|)), at, key), 3, U16(at)), 1,
                                                 U16(n + 1))
  {
    hide Patch, U16, U32;
    CopyIn(a, 5 + (slot + 1) * 4, U32(right));
    CopyIn(a, 5 + (n + 1) * 4 + 4 + slot * 4, U16(at) + U16(|key|));
    CopyIn(a, at, key);
    PutUint16(a, 3, at);
    PutUint16(a, 1, n + 1);
  }
}
