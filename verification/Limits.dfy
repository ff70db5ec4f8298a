/** Inputs at the edge: bounds of the B+ tree that cannot be relaxed (storage/btree.go). */
module Limits {
  import opened Keys
  import opened Nodes
  import opened Balance
  import opened Routing
  import opened Search
  import opened BTrees

  function Filled(n: nat): seq<byte> { seq(n, i => 0) }

  /** An entry of a one-byte key that takes `size` bytes of its leaf, slot included. */
  function Sized(k: byte, size: nat): (e: Entry)
    requires size >= 9
    ensures EntrySize(e) == size
  {
    Entry([k], Filled(size - 9))
  }

  const FULL_LEAF := [Sized(1, 1021), Sized(2, 1022), Sized(3, 1022), Sized(4, 1022)]

  lemma {:induction false} FourSizes(a: Entry, b: Entry, c: Entry, d: Entry)
    ensures EntriesSize([a, b, c, d]) == EntrySize(a) + EntrySize(b) + EntrySize(c) + EntrySize(d)
    ensures EntriesSize([a]) == EntrySize(a) && EntriesSize([a, b]) == EntrySize(a) + EntrySize(b)
    ensures EntriesSize([b, c, d]) == EntrySize(b) + EntrySize(c) + EntrySize(d)
  {
    assert [a, b, c, d] == [a] + [b] + [c] + [d] && [b, c, d] == [b] + [c] + [d] && [a, b] == [a] + [b];
    EntriesSizeConcat([a] + [b] + [c], [d]);
    EntriesSizeConcat([a] + [b], [c]);
    EntriesSizeConcat([a], [b]);
    EntriesSizeConcat([b] + [c], [d]);
    EntriesSizeConcat([b], [c]);
  }

  lemma {:induction false} FullLeafSizes()
    ensures EntriesSize(FULL_LEAF) == PAGE_SIZE - SLOT_START
    ensures EntriesSize(FULL_LEAF[..1]) == 1021 && EntriesSize(FULL_LEAF[..2]) == 2043
            && EntriesSize(FULL_LEAF[..3]) == 3065
    ensures EntriesSize(FULL_LEAF[1..]) == 3066
  {
    var a, b, c, d := Sized(1, 1021), Sized(2, 1022), Sized(3, 1022), Sized(4, 1022);
    FourSizes(a, b, c, d);
    assert FULL_LEAF == [a, b, c, d];
    assert FULL_LEAF[1..] == [b, c, d] && FULL_LEAF[..1] == [a] && FULL_LEAF[..2] == [a, b]
           && FULL_LEAF[..3] == [a, b] + [c];
    EntriesSizeConcat([a, b], [c]);
    EntriesSizeSingle(c);
  }

  lemma {:induction false} OrderedBytes(a: byte, b: byte)
    requires a < b
    ensures Lt([a], [b]) && !Lt([b], [a])
  {
    LtIsLess([a], [b]);
    LtIsLess([b], [a]);
  }

  /**
    * The bound of 1021 bytes on which an insert after a split relies is tight:
    * this full leaf is cut behind its first entry, and a further entry of 1022
    * bytes, whose key belongs to the right half, fits neither before nor after.
    */
  lemma {:induction false} BoundIsTight()
    ensures Half(FULL_LEAF, [5]) == FULL_LEAF[1..] && Refused(FULL_LEAF, [5], 1022)
  {
    FullLeafSizes();
    OrderedBytes(2, 5);
    var a, b := FULL_LEAF[..1], FULL_LEAF[1..];
    assert a + b == FULL_LEAF && b[0] == Sized(2, 1022);
    HalfIs(a, b, [5]);
  }

  lemma {:induction false} PlacedLast(k: nat)
    requires k < |FULL_LEAF|
    ensures Placed(FULL_LEAF[..k], FULL_LEAF[k]) == FULL_LEAF[..k + 1]
  {
    forall e | e in FULL_LEAF[..k] ensures Lt(e.key, FULL_LEAF[k].key) {
      var i :| 0 <= i < k && e == FULL_LEAF[i];
      OrderedBytes((i + 1) as byte, (k + 1) as byte);
    }
    PlacedIs(FULL_LEAF[..k], FULL_LEAF[k], []);
    assert FULL_LEAF[..k] + [] == FULL_LEAF[..k];
    assert FULL_LEAF[..k] + [FULL_LEAF[k]] + [] == FULL_LEAF[..k + 1];
  }

  lemma {:induction false} PrefixFits(k: nat)
    requires k < |FULL_LEAF|
    ensures EntrySize(FULL_LEAF[k]) <= PAGE_SIZE - LeafLiveBytes(FULL_LEAF[..k])
    ensures !Refused(FULL_LEAF[..k], FULL_LEAF[k].key, EntrySize(FULL_LEAF[k]))
  {
    FullLeafSizes();
    assert FULL_LEAF[..0] == [];
  }

  /** The first entries of the full leaf as a map. */
  ghost function Firsts(k: nat): (m: map<Key, Value>)
    requires k <= |FULL_LEAF|
    ensures |m| == k && forall key :: key in m ==> |key| == 1 && key[0] as int <= k
    ensures forall i :: 0 <= i < k ==> FULL_LEAF[i].key in m && m[FULL_LEAF[i].key] == FULL_LEAF[i].value
  {
    if k == 0 then map[] else Firsts(k - 1)[FULL_LEAF[k - 1].key := FULL_LEAF[k - 1].value]
  }

  /** A tree of one leaf that holds the first entries. */
  ghost predicate Holding(t: BTree, k: nat)
    requires k <= |FULL_LEAF|
    reads t, t.pager
  {
    t.Valid() && |t.levels| == 1 && t.Contents() == Firsts(k) && t.LeafEntries([5]) == FULL_LEAF[..k]
  }

  method AddNext(t: BTree, k: nat)
    requires k < |FULL_LEAF| && Holding(t, k)
    modifies t, t.pager
    ensures Holding(t, k + 1)
  {
    hide Refused, Placed, BTree.Valid, BTree.Contents, EntriesSize, BTree.LeafEntries, BTree.Sequence, EntriesWithin;
    var e := FULL_LEAF[k];
    PrefixFits(k);
    PlacedLast(k);
    LoneLeaf(t, e.key);
    var out := t.Insert(e.key, e.value);
    LoneLeaf(t, e.key);
  }

  method EmptyTree() returns (t: BTree)
    ensures fresh(t) && fresh(t.pager) && Holding(t, 0)
  {
    hide BTree.Valid, BTree.Contents, Firsts;
    t := new BTree();
    FirstsNone();
  }

  method FullTree() returns (t: BTree)
    ensures fresh(t) && fresh(t.pager) && Holding(t, 4)
  {
    hide Holding;
    t := EmptyTree();
    for k := 0 to 4
      invariant fresh(t) && fresh(t.pager) && Holding(t, k)
    {
      AddNext(t, k);
    }
  }

  /** The tree refuses a new entry far below the cap: four inserts and a fifth. */
  method RefusedBelowTheCap() returns (t: BTree, r: InsertResult)
    ensures t.Valid() && r == EntryTooLarge && EntrySize(Sized(5, 1022)) <= ENTRY_CAP
    ensures t.Contents() == Firsts(4) && [5] !in Firsts(4)
  {
    hide Refused, Placed, BTree.Valid, BTree.Contents, EntriesSize, BTree.LeafEntries, Firsts, EntriesWithin;
    t := FullTree();
    BoundIsTight();
    assert FULL_LEAF[..4] == FULL_LEAF;
    var e := Sized(5, 1022);
    r := t.Insert(e.key, e.value);
  }

  lemma {:induction false} FirstsNone()
    ensures Firsts(0) == map[] && FULL_LEAF[..0] == []
  {}

  /** In a tree of one leaf every key leads there. */
  lemma {:induction false} LoneLeaf(t: BTree, key: Key)
    requires |t.levels| == 1
    ensures t.LeafEntries(key) == t.LeafEntries([5])
  {}

  lemma {:induction false} EntriesSizeSingle(e: Entry)
    ensures EntriesSize([e]) == EntrySize(e)
  {
    assert [e][1..] == [];
  }

  /** A key of `n` bytes that starts with `k`. */
  function Long(k: byte, n: nat): (key: Key)
    requires n >= 1
    ensures |key| == n
  {
    [k] + Filled(n - 1)
  }

  lemma {:induction false} LongOrder(a: byte, m: nat, b: byte, n: nat)
    requires a < b && m >= 1 && n >= 1
    ensures Lt(Long(a, m), Long(b, n))
  {
    LtIsLess(Long(a, m), Long(b, n));
  }

  const ONE_KEY := Internal([Long(1, 1354)], [4, 5])
  const SEPARATOR := Long(2, 1354)
  const UNDERFULL := Internal([Long(3, 1010), Long(4, 1010)], [1, 2, 3])

  lemma {:induction false} NodeSizes()
    ensures InternalFits(UNDERFULL) && InternalLiveBytes(UNDERFULL.keys) == 2045
    ensures InternalFits(ONE_KEY) && InternalLiveBytes(ONE_KEY.keys) == 1371
  {
    var k, l, one := Long(3, 1010), Long(4, 1010), Long(1, 1354);
    KeysSizeSingle(k);
    KeysSizeSingle(l);
    KeysSizeSingle(one);
    assert [k, l] == [k] + [l];
    KeysSizeConcat([k], [l]);
  }

  /**
    * With keys of different lengths the forced rotation can pick a sibling with
    * a single key, which is then left with none. The nodes are in order: the
    * sibling's key, the separator, the keys of the underfull node.
    */
  method ForcedDonorWithOneKey() returns (act: Action)
    ensures act.BorrowLeft? && |ONE_KEY.keys| == 1 && InternalFits(ONE_KEY) && InternalFits(UNDERFULL)
    ensures Ascending(ONE_KEY.keys + [SEPARATOR] + UNDERFULL.keys) && |SEPARATOR| + 8 <= ENTRY_CAP
    ensures DeleteInternalEntry(ONE_KEY, 0, 1).keys == []
  {
    NodeSizes();
    LongOrder(1, 1354, 2, 1354);
    LongOrder(1, 1354, 3, 1010);
    LongOrder(1, 1354, 4, 1010);
    LongOrder(2, 1354, 3, 1010);
    LongOrder(2, 1354, 4, 1010);
    LongOrder(3, 1010, 4, 1010);
    act := ChooseForInternal(UNDERFULL, Some(ONE_KEY), None, SEPARATOR, [], 0);
  }

  const FULL_PARENT := Internal([Long(1, 1010), Long(2, 1010), Long(3, 1010), Long(4, 1010)], [1, 2, 3, 4, 5])

  /**
    * A parent in order that fits its page, and a longer separator within the
    * cap that keeps the order but not the fit.
    */
  lemma {:induction false} ReplacementOverflows()
    ensures InternalFits(FULL_PARENT) && Ascending(NodeKeys(FULL_PARENT)) && |Long(1, 1354)| + 8 <= ENTRY_CAP
    ensures var after := ReplaceInternalKey(FULL_PARENT, 0, Long(1, 1354));
            Ascending(NodeKeys(after)) && !InternalRoom(after)
  {
    var a, b, c, d := Long(1, 1010), Long(2, 1010), Long(3, 1010), Long(4, 1010);
    KeysSizeSingle(a);
    KeysSizeSingle(b);
    KeysSizeSingle(c);
    KeysSizeSingle(d);
    assert [a, b, c, d] == [a] + [b] + [c] + [d];
    KeysSizeConcat([a], [b]);
    KeysSizeConcat([a] + [b], [c]);
    KeysSizeConcat([a] + [b] + [c], [d]);
    FourAscend(1010);
    FourAscend(1354);
    assert FULL_PARENT.keys[0 := Long(1, 1354)] == [Long(1, 1354), b, c, d];
  }

  lemma {:induction false} FourAscend(n: nat)
    requires n >= 1
    ensures Ascending([Long(1, n), Long(2, 1010), Long(3, 1010), Long(4, 1010)])
  {
    LongOrder(1, n, 2, 1010);
    LongOrder(1, n, 3, 1010);
    LongOrder(1, n, 4, 1010);
    LongOrder(2, 1010, 3, 1010);
    LongOrder(2, 1010, 4, 1010);
    LongOrder(3, 1010, 4, 1010);
  }

  lemma {:induction false} KeysSizeSingle(k: Key)
    ensures KeysSize([k]) == |k| + 8
  {
    assert [k][1..] == [];
    assert KeysSize([k][1..]) == 0;
  }
}
