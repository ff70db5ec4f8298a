/** How an underfull node is repaired (the decisions of rebalanceLeaf and rebalanceInternal). */
module Balance {
  import opened Keys
  import opened Nodes

  datatype Option<T> = None | Some(value: T)

  datatype Action = BorrowLeft | BorrowRight | MergeLeft | MergeRight

  const HALF_PAGE: nat := PAGE_SIZE / 2

  /** A leaf can give an entry away and stay at least half full. */
  predicate LendsLast(pg: Option<Page>) {
    pg.Some? && pg.value.Leaf? && pg.value.entries != []
    && LeafLiveBytes(pg.value.entries) - EntrySize(pg.value.entries[|pg.value.entries| - 1]) >= HALF_PAGE
  }

  predicate LendsFirst(pg: Option<Page>) {
    pg.Some? && pg.value.Leaf? && pg.value.entries != []
    && LeafLiveBytes(pg.value.entries) - EntrySize(pg.value.entries[0]) >= HALF_PAGE
  }

  /** The two leaves fit in one page, the header counted once. */
  predicate LeavesFit(leaf: Page, pg: Option<Page>) {
    leaf.Leaf? && pg.Some? && pg.value.Leaf?
    && LeafLiveBytes(leaf.entries) + LeafLiveBytes(pg.value.entries) - SLOT_START <= PAGE_SIZE
  }

  /** A sibling leaf with at least one entry. */
  predicate Stocked(pg: Option<Page>) {
    pg.Some? ==> LeafFits(pg.value) && pg.value.entries != []
  }

  lemma {:induction false} EntriesFew(es: seq<Entry>)
    requires es != [] && forall e <- es :: EntrySize(e) <= ENTRY_CAP
    ensures |es| == 1 ==> EntriesSize(es) == EntrySize(es[0]) <= ENTRY_CAP
  {
    assert es[0] in es;
    if |es| == 1 { assert es[1..] == []; }
  }

  lemma {:induction false} DonorKeepsOne(leaf: Page, pg: Page)
    requires LeafFits(leaf) && LeafLiveBytes(leaf.entries) < HALF_PAGE && LeafFits(pg) && pg.entries != []
    requires LendsLast(Some(pg)) || LendsFirst(Some(pg)) || !LeavesFit(leaf, Some(pg))
    ensures |pg.entries| >= 2
  {
    EntriesFew(pg.entries);
  }

  /**
    * Borrow from a sibling that stays half full, the fuller one first; else merge
    * if that fits, left first; else borrow anyway. A donor always keeps an entry.
    */
  method ChooseForLeaf(leaf: Page, left: Option<Page>, right: Option<Page>) returns (act: Action)
    requires LeafFits(leaf) && LeafLiveBytes(leaf.entries) < HALF_PAGE
    requires (left.Some? || right.Some?) && Stocked(left) && Stocked(right)
    ensures act.BorrowLeft? ==> left.Some? && |left.value.entries| >= 2
    ensures act.BorrowRight? ==> right.Some? && |right.value.entries| >= 2
    ensures act.MergeLeft? <==> !LendsLast(left) && !LendsFirst(right) && LeavesFit(leaf, left)
    ensures act.MergeRight?
            <==> !LendsLast(left) && !LendsFirst(right) && !LeavesFit(leaf, left) && LeavesFit(leaf, right)
    ensures act.BorrowLeft? ==> LendsLast(left) || !LendsFirst(right)
    ensures act.BorrowRight? ==> LendsFirst(right) || !LendsLast(left)
    ensures left.Some? && right.Some? && (LendsLast(left) <==> LendsFirst(right))
            && (act.BorrowLeft? || act.BorrowRight?)
            ==> (act.BorrowRight? <==> LeafLiveBytes(right.value.entries) > LeafLiveBytes(left.value.entries))
  {
    var canLendLeft := LendsLast(left);
    var canLendRight := LendsFirst(right);
    if left.Some? && (canLendLeft || !LeavesFit(leaf, left)) { DonorKeepsOne(leaf, left.value); }
    if right.Some? && (canLendRight || !LeavesFit(leaf, right)) { DonorKeepsOne(leaf, right.value); }
    if canLendLeft || canLendRight {
      if canLendLeft && canLendRight {
        act := if LeafLiveBytes(right.value.entries) > LeafLiveBytes(left.value.entries) then BorrowRight
            else BorrowLeft;
      } else {
        act := if canLendLeft then BorrowLeft else BorrowRight;
      }
    } else if LeavesFit(leaf, left) {
      act := MergeLeft;
    } else if LeavesFit(leaf, right) {
      act := MergeRight;
    } else if left.Some? && (right.None? || LeafLiveBytes(left.value.entries) >= LeafLiveBytes(right.value.entries)) {
      act := BorrowLeft;
    } else {
      act := BorrowRight;
    }
  }

  /** The tests mean what they are for: half a page must be left without the entry, and the joined leaf must fit. */
  lemma {:induction false} LeafTestsAre(leaf: Page, pg: Page)
    requires leaf.Leaf? && pg.Leaf? && pg.entries != []
    ensures LendsLast(Some(pg)) <==> LeafLiveBytes(pg.entries[..|pg.entries| - 1]) >= HALF_PAGE
    ensures LendsFirst(Some(pg)) <==> LeafLiveBytes(pg.entries[1..]) >= HALF_PAGE
    ensures LeavesFit(leaf, Some(pg)) <==> LeafLiveBytes(pg.entries + leaf.entries) <= PAGE_SIZE
  {
    var n := |pg.entries| - 1;
    assert pg.entries == pg.entries[..n] + [pg.entries[n]];
    EntriesSizeConcat(pg.entries[..n], [pg.entries[n]]);
    assert [pg.entries[n]][1..] == [];
    EntriesSizeConcat(pg.entries, leaf.entries);
  }

  // ----- internal nodes -----

  predicate OneLength(ks: seq<Key>, n: nat) { forall k <- ks :: |k| == n }

  predicate LendsLastKey(pg: Option<Page>) {
    pg.Some? && pg.value.Internal? && pg.value.keys != []
    && InternalLiveBytes(pg.value.keys) - (|pg.value.keys[|pg.value.keys| - 1]| + 8) >= HALF_PAGE
  }

  predicate LendsFirstKey(pg: Option<Page>) {
    pg.Some? && pg.value.Internal? && pg.value.keys != []
    && InternalLiveBytes(pg.value.keys) - (|pg.value.keys[0]| + 8) >= HALF_PAGE
  }

  /** The two nodes and the separator between them fit in one page. */
  predicate NodesFit(node: Page, pg: Option<Page>, sep: Key) {
    node.Internal? && pg.Some? && pg.value.Internal?
    && InternalLiveBytes(node.keys) + InternalLiveBytes(pg.value.keys) + |sep| - 1 <= PAGE_SIZE
  }

  predicate Keyed(pg: Option<Page>, n: nat) {
    pg.Some? ==> InternalFits(pg.value) && pg.value.keys != [] && OneLength(pg.value.keys, n)
  }

  /** With keys of one length an underfull node, one separator and one more key always fit in a page. */
  lemma {:induction false} ThreeFit(ks: seq<Key>, n: nat)
    requires OneLength(ks, n) && InternalLiveBytes(ks) < HALF_PAGE && n + 8 <= ENTRY_CAP
    ensures InternalLiveBytes(ks) + 2 * (n + 8) <= PAGE_SIZE
  {
    KeysFew(ks, n);
  }

  lemma {:induction false} KeysFew(ks: seq<Key>, n: nat)
    requires OneLength(ks, n)
    ensures |ks| == 0 ==> KeysSize(ks) == 0
    ensures |ks| == 1 ==> KeysSize(ks) == n + 8
    ensures |ks| >= 2 ==> KeysSize(ks) >= 2 * (n + 8)
  {
    if |ks| >= 1 { assert ks[0] in ks; }
    if |ks| == 1 { assert ks[1..] == []; }
    if |ks| >= 2 {
      assert ks[1] in ks && ks[1..][0] == ks[1];
      assert KeysSize(ks[1..]) == |ks[1]| + 8 + KeysSize(ks[1..][1..]);
    }
  }

  lemma {:induction false} NodeDonorKeepsOne(node: Page, pg: Page, sep: Key, n: nat)
    requires InternalFits(node) && OneLength(node.keys, n) && InternalLiveBytes(node.keys) < HALF_PAGE
    requires Keyed(Some(pg), n) && |sep| == n && n + 8 <= ENTRY_CAP
    requires LendsLastKey(Some(pg)) || LendsFirstKey(Some(pg)) || !NodesFit(node, Some(pg), sep)
    ensures |pg.keys| >= 2
  {
    ThreeFit(node.keys, n);
    KeysFew(pg.keys, n);
    assert pg.keys[0] in pg.keys;
  }

  predicate Within(pg: Option<Page>) { pg.Some? ==> InternalFits(pg.value) && pg.value.keys != [] }

  /** All keys around have the same length. */
  ghost predicate OneLengthAround(node: Page, left: Option<Page>, right: Option<Page>, sepLeft: Key, sepRight: Key,
                                  n: nat) {
    node.Internal? && OneLength(node.keys, n) && n + 8 <= ENTRY_CAP && Keyed(left, n) && Keyed(right, n)
    && (left.Some? ==> |sepLeft| == n) && (right.Some? ==> |sepRight| == n)
  }

  /** Rotate from a sibling that stays half full; else merge if that fits; else rotate anyway. */
  method ChooseForInternal(node: Page, left: Option<Page>, right: Option<Page>, sepLeft: Key, sepRight: Key,
                           ghost n: nat)
    returns (act: Action)
    requires InternalFits(node) && InternalLiveBytes(node.keys) < HALF_PAGE
    requires (left.Some? || right.Some?) && Within(left) && Within(right)
    ensures act.BorrowLeft?
            ==> left.Some? && (OneLengthAround(node, left, right, sepLeft, sepRight, n) ==> |left.value.keys| >= 2)
    ensures act.BorrowRight?
            ==> right.Some? && (OneLengthAround(node, left, right, sepLeft, sepRight, n) ==> |right.value.keys| >= 2)
    ensures act.MergeLeft? <==> !LendsLastKey(left) && !LendsFirstKey(right) && NodesFit(node, left, sepLeft)
    ensures act.MergeRight? <==>
      !LendsLastKey(left) && !LendsFirstKey(right) && !NodesFit(node, left, sepLeft) && NodesFit(node, right, sepRight)
    ensures act.BorrowLeft? ==> LendsLastKey(left) || !LendsFirstKey(right)
    ensures act.BorrowRight? ==> LendsFirstKey(right) || !LendsLastKey(left)
    ensures left.Some? && right.Some? && (LendsLastKey(left) <==> LendsFirstKey(right))
            && (act.BorrowLeft? || act.BorrowRight?)
            ==> (act.BorrowRight?
                 <==> InternalLiveBytes(right.value.keys) > InternalLiveBytes(left.value.keys)
                      || (!LendsLastKey(left)
                          && InternalLiveBytes(right.value.keys) == InternalLiveBytes(left.value.keys)))
  {
    var canLendLeft := LendsLastKey(left);
    var canLendRight := LendsFirstKey(right);
    if OneLengthAround(node, left, right, sepLeft, sepRight, n) {
      if left.Some?
          && (canLendLeft || !NodesFit(node, left, sepLeft)) { NodeDonorKeepsOne(node, left.value, sepLeft, n); }
      if right.Some?
          && (canLendRight || !NodesFit(node, right, sepRight)) { NodeDonorKeepsOne(node, right.value, sepRight, n); }
    }
    if canLendLeft || canLendRight {
      if canLendRight && (!canLendLeft || InternalLiveBytes(right.value.keys) > InternalLiveBytes(left.value.keys)) {
        act := BorrowRight;
      } else {
        act := BorrowLeft;
      }
    } else if NodesFit(node, left, sepLeft) {
      act := MergeLeft;
    } else if NodesFit(node, right, sepRight) {
      act := MergeRight;
    } else if right.Some? && (left.None? || InternalLiveBytes(right.value.keys) >= InternalLiveBytes(left.value.keys)) {
      act := BorrowRight;
    } else {
      act := BorrowLeft;
    }
  }

  /** The same for nodes: half a page without the key, and the two nodes around their separator. */
  lemma {:induction false} NodeTestsAre(node: Page, pg: Page, sep: Key)
    requires node.Internal? && pg.Internal? && pg.keys != []
    ensures LendsLastKey(Some(pg)) <==> InternalLiveBytes(pg.keys[..|pg.keys| - 1]) >= HALF_PAGE
    ensures LendsFirstKey(Some(pg)) <==> InternalLiveBytes(pg.keys[1..]) >= HALF_PAGE
    ensures NodesFit(node, Some(pg), sep) <==> InternalLiveBytes(pg.keys + [sep] + node.keys) <= PAGE_SIZE
  {
    var n := |pg.keys| - 1;
    assert pg.keys == pg.keys[..n] + [pg.keys[n]];
    KeysSizeConcat(pg.keys[..n], [pg.keys[n]]);
    assert [pg.keys[n]][1..] == [];
    KeysSizeInsert(pg.keys, sep, node.keys);
    KeysSizeConcat(pg.keys, node.keys);
  }

  // ----- pages after an entry has moved -----

  /** An underfull leaf, compacted, can take one more entry. */
  lemma {:induction false} RoomForOne(l: Page, e: Entry)
    requires LeafFits(l) && LeafLiveBytes(l.entries) < HALF_PAGE && EntrySize(e) <= ENTRY_CAP
    ensures var c := RebuildLeaf(l.entries, l.next);
            LeafFits(c) && LeafRoom(c) && c.entries == l.entries && c.next == l.next && EntrySize(e) <= Available(c)
  {
  }

  lemma {:induction false} InsertLast(c: Page, e: Entry)
    requires LeafRoom(c) && EntrySize(e) <= Available(c)
    ensures InsertLeafEntry(c, e, |c.entries|).entries == c.entries + [e]
    ensures InsertLeafEntry(c, e, |c.entries|).next == c.next
  {
    assert c.entries[..|c.entries|] == c.entries && c.entries[|c.entries|..] == [];
  }

  lemma {:induction false} DeleteFirst(r: Page)
    requires LeafRoom(r) && r.entries != []
    ensures DeleteLeafEntry(r, 0).entries == r.entries[1..] && DeleteLeafEntry(r, 0).next == r.next
  {
  }

  /** The first entry of the right leaf appended to the left one, which is compacted first. */
  lemma {:induction false} BorrowedRight(l: Page, r: Page)
    requires LeafFits(l) && LeafFits(r) && LeafLiveBytes(l.entries) < HALF_PAGE && |r.entries| >= 2
    ensures var c := RebuildLeaf(l.entries, l.next);
            && LeafFits(c) && LeafRoom(c) && c.entries == l.entries && EntrySize(r.entries[0]) <= Available(c)
            && (var l', r' := InsertLeafEntry(c, r.entries[0], |l.entries|), DeleteLeafEntry(r, 0);
                && LeafFits(l') && l'.entries != [] && l'.next == l.next && LeafFits(r') && r'.entries != []
                && r'.next == r.next
                && r'.entries[0] == r.entries[1]
                && l.entries + r.entries == l'.entries + r'.entries)
  {
    assert r.entries[0] in r.entries;
    RoomForOne(l, r.entries[0]);
    InsertLast(RebuildLeaf(l.entries, l.next), r.entries[0]);
    DeleteFirst(r);
    hide *;
    MoveFirst(l.entries, r.entries);
  }

  lemma {:induction false} MoveFirst(a: seq<Entry>, b: seq<Entry>)
    requires |b| >= 2
    ensures a + b == (a + [b[0]]) + b[1..] && b[1..] != [] && b[1..][0] == b[1]
  {
  }

  /** The last entry of the left leaf put in front of the right one, which is compacted first. */
  lemma {:induction false} BorrowedLeft(l: Page, r: Page)
    requires LeafFits(l) && LeafFits(r) && LeafLiveBytes(r.entries) < HALF_PAGE && |l.entries| >= 2
    ensures var c, last := RebuildLeaf(r.entries, r.next), l.entries[|l.entries| - 1];
            && LeafFits(c) && LeafRoom(c) && EntrySize(last) <= Available(c)
            && (var l', r' := DeleteLeafEntry(l, |l.entries| - 1), InsertLeafEntry(c, last, 0);
                && LeafFits(l') && l'.entries != [] && l'.next == l.next && LeafFits(r') && r'.entries != []
                && r'.next == r.next
                && r'.entries[0] == last
                && l.entries + r.entries == l'.entries + r'.entries)
  {
    hide EntriesSize, RebuildLeaf;
    var n := |l.entries| - 1;
    assert l.entries[n] in l.entries;
    RoomForOne(r, l.entries[n]);
    var c := RebuildLeaf(r.entries, r.next);
    assert DeleteLeafEntry(l, n).entries == l.entries[..n];
    assert l.entries == l.entries[..n] + [l.entries[n]];
    assert r.entries[..0] == [] && r.entries[0..] == r.entries;
    assert InsertLeafEntry(c, l.entries[n], 0).entries == [l.entries[n]] + r.entries;
  }

  lemma {:induction false} MergedLeafFits(l: Page, r: Page, next: PageId)
    requires LeafFits(l) && LeafFits(r) && LeafLiveBytes(l.entries) + LeafLiveBytes(r.entries) - SLOT_START <= PAGE_SIZE
    ensures LeafFits(RebuildLeaf(l.entries + r.entries, next))
  {
    EntriesSizeConcat(l.entries, r.entries);
  }
}
