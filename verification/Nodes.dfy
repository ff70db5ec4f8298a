/**
  * B+ tree nodes by content: what one 4096-byte page holds once its bytes are
  * read (storage/btree_node.go). The byte layout itself is in SlottedPage.
  */
module Nodes {
  import opened Keys

  type PageId = nat
  type Value = seq<byte>

  const PAGE_SIZE: nat := 4096
  const SLOT_START: nat := 9
  const ENTRY_CAP: nat := (PAGE_SIZE - SLOT_START) / 3

  datatype Entry = Entry(key: Key, value: Value)

  /**
    * `Leaf.free` is the free-space pointer: it only moves down until the page is
    * rebuilt, so deleted entries leave dead bytes between it and the live data.
    * Internal pages never hold dead bytes, their free pointer is implied.
    */
  datatype Page =
    | Free(link: PageId)
    | Leaf(entries: seq<Entry>, next: PageId, free: int)
    | Internal(keys: seq<Key>, children: seq<PageId>)

  function EntrySize(e: Entry): nat { |e.key| + |e.value| + 8 }

  /** Bytes of the entries, slots included. */
  function EntriesSize(es: seq<Entry>): (n: nat)
    ensures n >= 8 * |es|
  {
    if es == [] then 0 else EntrySize(es[0]) + EntriesSize(es[1..])
  }

  function KeysSize(ks: seq<Key>): (n: nat)
    ensures n >= 8 * |ks|
  {
    if ks == [] then 0 else |ks[0]| + 8 + KeysSize(ks[1..])
  }

  function LeafLiveBytes(es: seq<Entry>): nat { SLOT_START + EntriesSize(es) }

  function InternalLiveBytes(ks: seq<Key>): nat { 9 + KeysSize(ks) }

  function DataBytes(es: seq<Entry>): nat { EntriesSize(es) - 8 * |es| }

  /** The gap between the slot array and the data. */
  function Available(pg: Page): int
    requires pg.Leaf?
  {
    pg.free - (SLOT_START + 8 * |pg.entries|)
  }

  lemma {:induction false} EntriesSizeConcat(a: seq<Entry>, b: seq<Entry>)
    ensures EntriesSize(a + b) == EntriesSize(a) + EntriesSize(b)
  {
    if a == [] {
      assert a + b == b;
    } else {
      assert (a + b)[1..] == a[1..] + b;
      EntriesSizeConcat(a[1..], b);
    }
  }

  lemma {:induction false} KeysSizeConcat(a: seq<Key>, b: seq<Key>)
    ensures KeysSize(a + b) == KeysSize(a) + KeysSize(b)
  {
    if a == [] {
      assert a + b == b;
    } else {
      assert (a + b)[1..] == a[1..] + b;
      KeysSizeConcat(a[1..], b);
    }
  }

  /** The slots fit below the free pointer and the live data above it. */
  predicate LeafRoom(pg: Page) {
    pg.Leaf? && SLOT_START + 8 * |pg.entries| <= pg.free <= PAGE_SIZE - DataBytes(pg.entries)
  }

  /** As many children as separators plus one, all within the page. */
  predicate InternalRoom(pg: Page) {
    pg.Internal? && |pg.children| == |pg.keys| + 1 && InternalLiveBytes(pg.keys) <= PAGE_SIZE
  }

  /** A leaf of a tree: no entry is over the cap. */
  predicate LeafFits(pg: Page) {
    LeafRoom(pg) && forall e <- pg.entries :: EntrySize(e) <= ENTRY_CAP
  }

  /** An internal page of a tree: no separator is over the cap. */
  predicate InternalFits(pg: Page) {
    InternalRoom(pg) && forall k <- pg.keys :: |k| + 8 <= ENTRY_CAP
  }

  // ----- leaf operations -----

  function RebuildLeaf(es: seq<Entry>, next: PageId): (pg: Page)
    ensures EntriesSize(es) <= PAGE_SIZE - SLOT_START ==> LeafRoom(pg)
    ensures EntriesSize(es) <= PAGE_SIZE - SLOT_START && (forall e <- es :: EntrySize(e) <= ENTRY_CAP) ==> LeafFits(pg)
    ensures pg.Leaf? && Available(pg) == PAGE_SIZE - LeafLiveBytes(es)
  {
    Leaf(es, next, PAGE_SIZE - DataBytes(es))
  }

  function InsertLeafEntry(pg: Page, e: Entry, slot: nat): (r: Page)
    requires LeafRoom(pg) && slot <= |pg.entries| && EntrySize(e) <= Available(pg)
    ensures LeafRoom(r)
    ensures LeafFits(pg) && EntrySize(e) <= ENTRY_CAP ==> LeafFits(r)
  {
    EntriesSizeInsert(pg.entries[..slot], e, pg.entries[slot..]);
    assert pg.entries == pg.entries[..slot] + pg.entries[slot..];
    Leaf(pg.entries[..slot] + [e] + pg.entries[slot..], pg.next, pg.free - |e.key| - |e.value|)
  }

  lemma {:induction false} EntriesSizeInsert(a: seq<Entry>, e: Entry, b: seq<Entry>)
    ensures EntriesSize(a + [e] + b) == EntriesSize(a + b) + EntrySize(e)
  {
    EntriesSizeConcat(a + [e], b);
    EntriesSizeConcat(a, [e]);
    EntriesSizeConcat(a, b);
    assert [e][1..] == [];
  }

  lemma {:induction false} KeysSizeInsert(a: seq<Key>, k: Key, b: seq<Key>)
    ensures KeysSize(a + [k] + b) == KeysSize(a + b) + |k| + 8
  {
    KeysSizeConcat(a + [k], b);
    KeysSizeConcat(a, [k]);
    KeysSizeConcat(a, b);
    assert [k][1..] == [];
  }

  function DeleteLeafEntry(pg: Page, slot: nat): (r: Page)
    requires LeafRoom(pg) && slot < |pg.entries|
    ensures LeafRoom(r)
    ensures LeafFits(pg) ==> LeafFits(r)
    ensures LeafLiveBytes(r.entries) == LeafLiveBytes(pg.entries) - EntrySize(pg.entries[slot])
  {
    EntriesSizeInsert(pg.entries[..slot], pg.entries[slot], pg.entries[slot + 1..]);
    assert pg.entries == pg.entries[..slot] + [pg.entries[slot]] + pg.entries[slot + 1..];
    Leaf(pg.entries[..slot] + pg.entries[slot + 1..], pg.next, pg.free)
  }

  // ----- internal operations -----

  function InsertInternalEntry(pg: Page, key: Key, slot: nat, right: PageId): (r: Page)
    requires InternalRoom(pg) && slot <= |pg.keys| && InternalLiveBytes(pg.keys) + |key| + 8 <= PAGE_SIZE
    ensures InternalRoom(r)
    ensures InternalFits(pg) && |key| + 8 <= ENTRY_CAP ==> InternalFits(r)
  {
    KeysSizeInsert(pg.keys[..slot], key, pg.keys[slot..]);
    assert pg.keys == pg.keys[..slot] + pg.keys[slot..];
    Internal(pg.keys[..slot] + [key] + pg.keys[slot..],
             pg.children[..slot + 1] + [right] + pg.children[slot + 1..])
  }

  function DeleteInternalEntry(pg: Page, sep: nat, child: nat): (r: Page)
    requires InternalRoom(pg) && sep < |pg.keys| && child <= |pg.keys|
    ensures InternalRoom(r)
    ensures InternalFits(pg) ==> InternalFits(r)
    ensures InternalLiveBytes(r.keys) == InternalLiveBytes(pg.keys) - |pg.keys[sep]| - 8
  {
    KeysSizeInsert(pg.keys[..sep], pg.keys[sep], pg.keys[sep + 1..]);
    assert pg.keys == pg.keys[..sep] + [pg.keys[sep]] + pg.keys[sep + 1..];
    Internal(pg.keys[..sep] + pg.keys[sep + 1..], pg.children[..child] + pg.children[child + 1..])
  }

  /** Rebuilds the page with one separator changed; nothing checks that it still fits. */
  function ReplaceInternalKey(pg: Page, i: nat, key: Key): (r: Page)
    requires InternalRoom(pg) && i < |pg.keys|
    ensures InternalRoom(r) <==> InternalLiveBytes(pg.keys) - |pg.keys[i]| + |key| <= PAGE_SIZE
    ensures InternalFits(pg) && |key| + 8 <= ENTRY_CAP ==> (InternalFits(r) <==> InternalRoom(r))
    ensures r.Internal? && InternalLiveBytes(r.keys) == InternalLiveBytes(pg.keys) - |pg.keys[i]| + |key|
  {
    KeysSizeInsert(pg.keys[..i], pg.keys[i], pg.keys[i + 1..]);
    KeysSizeInsert(pg.keys[..i], key, pg.keys[i + 1..]);
    assert pg.keys == pg.keys[..i] + [pg.keys[i]] + pg.keys[i + 1..];
    assert pg.keys[i := key] == pg.keys[..i] + [key] + pg.keys[i + 1..];
    Internal(pg.keys[i := key], pg.children)
  }
}
