/** Where a key belongs, computed from the pages alone, and when its leaf cannot take it (storage/btree.go). */
module Routing {
  import opened Keys
  import opened Nodes
  import opened Levels
  import opened Trees
  import opened Search

  // ----- the leaf of a key -----

  /** The child after the last separator that is at most the key. */
  ghost function ChildIndex(ks: seq<Key>, key: Key): (i: nat)
    ensures i <= |ks|
  {
    if ks == [] || Lt(key, ks[0]) then 0 else 1 + ChildIndex(ks[1..], key)
  }

  lemma {:induction false} ChildIndexIs(ks: seq<Key>, key: Key, i: nat)
    requires i <= |ks| && AtMost(ks[..i], key) && Above(ks[i..], key)
    ensures ChildIndex(ks, key) == i
  {
    if i > 0 {
      assert ks[0] in ks[..i] && ks[1..][..i - 1] == ks[..i][1..] && ks[1..][i - 1..] == ks[i..];
      assert forall k <- ks[1..][..i - 1] :: k in ks[..i];
      ChildIndexIs(ks[1..], key, i - 1);
    } else if ks != [] {
      assert ks[0] in ks[i..];
    }
  }

  /** The page reached after `depth` steps down. */
  ghost function PageBelow(pages: Pages, id: PageId, key: Key, depth: nat): PageId
    decreases depth
  {
    if depth == 0 || id !in pages || !pages[id].Internal? then id
    else
      var i := ChildIndex(pages[id].keys, key);
      if i < |pages[id].children| then PageBelow(pages, pages[id].children[i], key, depth - 1) else id
  }

  /** Rewriting a leaf moves no key to another leaf. */
  lemma {:induction false} PageBelowKept(pages: Pages, x: PageId, leaf: Page, id: PageId, key: Key, depth: nat)
    requires x in pages && pages[x].Leaf? && leaf.Leaf?
    ensures PageBelow(pages[x := leaf], id, key, depth) == PageBelow(pages, id, key, depth)
    decreases depth
  {
    if depth > 0 && id in pages && pages[id].Internal? {
      var i := ChildIndex(pages[id].keys, key);
      if i < |pages[id].children| { PageBelowKept(pages, x, leaf, pages[id].children[i], key, depth - 1); }
    }
  }

  lemma {:induction false} RouteReaches(pages: Pages, ls: seq<seq<Token>>, spots: seq<Spot>, key: Key, k: nat)
    requires Route(pages, ls, spots, key) && k < |spots|
    ensures PageBelow(pages, spots[k].id, key, |spots| - 1 - k) == spots[|spots| - 1].id
    decreases |spots| - k
  {
    hide Expand, Strings, Guarded;
    if k + 1 < |spots| {
      var a := spots[k];
      assert StepAt(pages, spots, k);
      assert a in spots[..|spots| - 1];
      ChildIndexIs(pages[a.id].keys, key, a.child);
      RouteReaches(pages, ls, spots, key, k + 1);
    }
  }

  /** The descent ends where the pages say. */
  lemma {:induction false} RouteLeaf(pages: Pages, ls: seq<seq<Token>>, up: seq<Spot>, here: Spot, key: Key,
                                     root: PageId)
    requires Route(pages, ls, up + [here], key) && ls != [] && ls[0] == [P(root)]
    ensures here.id == PageBelow(pages, root, key, |ls| - 1)
  {
    hide Expand, Guarded, PageBelow;
    var spots := up + [here];
    RouteReaches(pages, ls, spots, key, 0);
    assert ls[0] == SpotString(spots[0]) by { StringsAt(spots, 0); }
    var s := spots[0];
    assert s.left + [P(s.id)] + s.right == [P(root)];
    assert |s.left| == 0 && (s.left + [P(s.id)] + s.right)[0] == P(s.id);
    assert |ls| == |spots| by { RouteEnd(pages, ls, up, here, key); }
  }

  // ----- what the leaf does with an entry -----

  /** Where the split loop cuts: behind the last entry that keeps the left part below `half`. */
  ghost function Cut(es: seq<Entry>, half: int): (m: nat)
    ensures m <= |es|
  {
    if es == [] || EntrySize(es[0]) >= half then 0 else 1 + Cut(es[1..], half - EntrySize(es[0]))
  }

  lemma {:induction false} CutIs(a: seq<Entry>, b: seq<Entry>, half: int)
    requires b != [] && EntriesSize(a) < half <= EntriesSize(a) + EntrySize(b[0])
    ensures Cut(a + b, half) == |a|
  {
    if a == [] {
      assert a + b == b;
    } else {
      assert (a + b)[1..] == a[1..] + b;
      CutIs(a[1..], b, half - EntrySize(a[0]));
    }
  }

  /** The half of a split leaf that the key belongs to. */
  ghost function Half(es: seq<Entry>, key: Key): seq<Entry> {
    var m := Cut(es, EntriesSize(es) / 2);
    if m < |es| && Lt(key, es[m].key) then es[..m] else es[m..]
  }

  /** The leaf has no room for so many bytes, not even compacted, and neither has the half the key belongs to. */
  ghost predicate Refused(es: seq<Entry>, key: Key, needed: nat) {
    needed > PAGE_SIZE - LeafLiveBytes(es) && needed > PAGE_SIZE - LeafLiveBytes(Half(es, key))
  }

  lemma {:induction false} HalfIs(a: seq<Entry>, b: seq<Entry>, key: Key)
    requires b != [] && EntriesSize(a) < EntriesSize(a + b) / 2 <= EntriesSize(a) + EntrySize(b[0])
    ensures Half(a + b, key) == if Lt(key, b[0].key) then a else b
  {
    CutIs(a, b, EntriesSize(a + b) / 2);
    assert (a + b)[..|a|] == a && (a + b)[|a|..] == b && (a + b)[|a|] == b[0];
  }

  /** The gap never exceeds what compacting would free. */
  lemma {:induction false} GapWithin(pg: Page)
    requires LeafRoom(pg)
    ensures pg.Leaf? && Available(pg) <= PAGE_SIZE - LeafLiveBytes(pg.entries)
  {}

  /** The entry put in its place. */
  ghost function Placed(es: seq<Entry>, e: Entry): seq<Entry> {
    if es == [] || !Lt(es[0].key, e.key) then [e] + es else [es[0]] + Placed(es[1..], e)
  }

  lemma {:induction false} PlacedIs(a: seq<Entry>, e: Entry, b: seq<Entry>)
    requires AllBelow(a, e.key) && AllNotBelow(b, e.key)
    ensures Placed(a + b, e) == a + [e] + b
  {
    if a == [] {
      assert a + b == b && a + [e] + b == [e] + b;
      if b != [] { assert b[0] in b; }
    } else {
      assert a[0] in a && (forall x <- a[1..] :: x in a) && (a + b)[1..] == a[1..] + b;
      PlacedIs(a[1..], e, b);
      assert [a[0]] + (a[1..] + [e] + b) == a + [e] + b;
    }
  }
}
