/** Range scans: a cursor over the chain of leaves (Scan and leafIterator of storage/btree.go). */
module Scans {
  import opened Keys
  import opened Nodes
  import opened Levels
  import opened Trees
  import opened Search
  import opened LeafMoves
  import opened Shrink
  import opened Balance
  import opened Pagers
  import opened BTrees

  // ----- what a scan is meant to yield -----

  ghost predicate InRange(k: Key, start: Option<Key>, end: Option<Key>) {
    (start.Some? ==> !Lt(k, start.value)) && (end.Some? ==> Lt(k, end.value))
  }

  /** The entries of a string within the range, in the order of the string. */
  ghost function Select(s: seq<Token>, start: Option<Key>, end: Option<Key>): seq<Entry> {
    if s == [] then []
    else (if s[0].E? && InRange(s[0].entry.key, start, end) then [s[0].entry] else []) + Select(s[1..], start, end)
  }

  lemma {:induction false} SelectConcat(a: seq<Token>, b: seq<Token>, start: Option<Key>, end: Option<Key>)
    ensures Select(a + b, start, end) == Select(a, start, end) + Select(b, start, end)
  {
    if a == [] {
      assert a + b == b;
    } else {
      assert (a + b)[1..] == a[1..] + b;
      SelectConcat(a[1..], b, start, end);
    }
  }

  lemma {:induction false} SelectNone(s: seq<Token>, start: Option<Key>, end: Option<Key>)
    requires forall t <- s :: t.E? ==> !InRange(t.entry.key, start, end)
    ensures Select(s, start, end) == []
  {
    if s != [] {
      assert s[0] in s && forall t <- s[1..] :: t in s;
      SelectNone(s[1..], start, end);
    }
  }

  /** A start that every entry passes does not matter. */
  lemma {:induction false} SelectFrom(s: seq<Token>, start: Option<Key>, end: Option<Key>)
    requires forall t <- s :: t.E? ==> InRange(t.entry.key, start, None)
    ensures Select(s, start, end) == Select(s, None, end)
  {
    if s != [] {
      assert s[0] in s && forall t <- s[1..] :: t in s;
      SelectFrom(s[1..], start, end);
    }
  }

  lemma {:induction false} SelectHas(s: seq<Token>, start: Option<Key>, end: Option<Key>, e: Entry)
    ensures e in Select(s, start, end) <==> E(e) in s && InRange(e.key, start, end)
  {
    if s != [] {
      SelectHas(s[1..], start, end, e);
      assert s == [s[0]] + s[1..];
    }
  }

  ghost predicate SortedEntries(es: seq<Entry>) {
    forall i, j {:trigger Lt(es[i].key, es[j].key)} :: 0 <= i < j < |es| ==> Lt(es[i].key, es[j].key)
  }

  lemma {:induction false} SelectSorted(s: seq<Token>, start: Option<Key>, end: Option<Key>)
    requires Ordered(s)
    ensures SortedEntries(Select(s, start, end))
  {
    if s != [] {
      assert s == [s[0]] + s[1..];
      OrderedConcat([s[0]], s[1..]);
      SelectSorted(s[1..], start, end);
      var rest := Select(s[1..], start, end);
      if s[0].E? && InRange(s[0].entry.key, start, end) {
        forall j | 0 <= j < |rest| ensures Lt(s[0].entry.key, rest[j].key) {
          assert rest[j] in rest;
          SelectHas(s[1..], start, end, rest[j]);
          assert s[0] in [s[0]] && Precedes(s[0], E(rest[j]));
        }
        assert forall i, j {:trigger Lt(([s[0].entry] + rest)[i].key, ([s[0].entry] + rest)[j].key)} ::
          0 <= i < j < |rest| + 1 ==> Lt(([s[0].entry] + rest)[i].key, ([s[0].entry] + rest)[j].key) by {
          forall i, j | 0 <= i < j < |rest| + 1 ensures Lt(([s[0].entry] + rest)[i].key, ([s[0].entry] + rest)[j].key) {
            if i > 0 { assert Lt(rest[i - 1].key, rest[j - 1].key); }
          }
        }
      } else {
        assert [] + rest == rest;
      }
    }
  }

  /** In an ordered string, having an entry is the same as mapping its key to its value. */
  lemma {:induction false} EntryIsMapping(s: seq<Token>, e: Entry)
    requires Ordered(s)
    ensures E(e) in s <==> e.key in MapOf(s) && MapOf(s)[e.key] == e.value
  {
    if s != [] {
      assert s == [s[0]] + s[1..];
      OrderedConcat([s[0]], s[1..]);
      EntryIsMapping(s[1..], e);
      MapHas(s[1..], e.key);
      if s[0].E? && s[0].entry.key == e.key && e.key in MapOf(s[1..]) {
        var d :| E(d) in s[1..] && d.key == e.key;
        assert s[0] in [s[0]] && Precedes(s[0], E(d));
        LtTotal(e.key, e.key);
        assert false;
      }
    }
  }

  // ----- moving along the leaves -----

  /** How many tokens stand before the first page. */
  ghost function PagesAt(s: seq<Token>): (n: nat)
    ensures n <= |s|
  {
    if s == [] || s[0].P? then 0 else 1 + PagesAt(s[1..])
  }

  lemma {:induction false} FirstPageAt(s: seq<Token>, end: PageId)
    ensures var n := PagesAt(s);
            && (forall t <- s[..n] :: !t.P?)
            && FirstPage(s, end) == (if n == |s| then end else if s[n].P? then s[n].id else end)
            && (n < |s| ==> s[n].P?)
  {
    if s != [] && !s[0].P? {
      FirstPageAt(s[1..], end);
      var n := PagesAt(s[1..]);
      assert s[..n + 1] == [s[0]] + s[1..][..n];
    }
  }

  lemma {:induction false} ExpandSeparators(pages: Pages, s: seq<Token>)
    requires forall t <- s :: !t.P?
    ensures Expand(pages, s) == s
  {
    if s != [] {
      assert s[0] in s && forall t <- s[1..] :: t in s;
      ExpandSeparators(pages, s[1..]);
      assert s == [s[0]] + s[1..];
    }
  }

  /** The spot of the next leaf, when there is one. */
  ghost function NextSpot(s: Spot): Spot
    requires PagesAt(s.right) < |s.right| && s.right[PagesAt(s.right)].P?
  {
    var n := PagesAt(s.right);
    Spot(s.left + [P(s.id)] + s.right[..n], s.right[n].id, s.right[n + 1..], 0)
  }

  lemma {:induction false} NextSpotIs(s: Spot)
    requires PagesAt(s.right) < |s.right| && s.right[PagesAt(s.right)].P?
    ensures SpotString(NextSpot(s)) == SpotString(s)
    ensures FirstPage(s.right, 0) == NextSpot(s).id && |NextSpot(s).right| < |s.right|
  {
    var n := PagesAt(s.right);
    FirstPageAt(s.right, 0);
    assert s.right == s.right[..n] + [s.right[n]] + s.right[n + 1..];
  }

  /** Pages and separators only: true of every level above the entries. */
  ghost predicate Plain(s: seq<Token>) { forall t <- s :: !t.E? }

  lemma {:induction false} AfterPlain(ks: seq<Key>, cs: seq<PageId>)
    requires |ks| == |cs|
    ensures Plain(After(ks, cs))
  {
    if ks != [] { AfterPlain(ks[1..], cs[1..]); }
  }

  lemma {:induction false} ExpandPlain(pages: Pages, s: seq<Token>)
    requires Plain(s) && Internals(pages, s, 0)
    ensures Plain(Expand(pages, s))
  {
    if s != [] {
      assert s[0] in s && forall t <- s[1..] :: t in s;
      ExpandPlain(pages, s[1..]);
      if s[0].P? {
        var Internal(ks, cs) := pages[s[0].id];
        AfterPlain(ks, cs[1..]);
      }
    }
  }

  lemma {:induction false} LevelPlain(pages: Pages, ls: seq<seq<Token>>, thin: PageId, k: nat)
    requires Shape(pages, ls, thin) && k < |ls| && Plain(ls[0])
    ensures Plain(ls[k])
  {
    if k > 0 {
      LevelPlain(pages, ls, thin, k - 1);
      assert ExpandsAt(pages, ls, k - 1);
      ExpandPlain(pages, ls[k - 1]);
    }
  }

  /** Crossing to the next leaf passes separators only. */
  lemma {:induction false} CrossOver(pages: Pages, s: Spot, end: Option<Key>)
    requires PagesAt(s.right) < |s.right| && s.right[PagesAt(s.right)].P? && Plain(s.right)
    ensures Select(Expand(pages, s.right), None, end)
         == Select(PageString(pages, NextSpot(s).id) + Expand(pages, NextSpot(s).right), None, end)
  {
    var n := PagesAt(s.right);
    var sep, x, rest := s.right[..n], s.right[n].id, s.right[n + 1..];
    FirstPageAt(s.right, 0);
    assert s.right == sep + [P(x)] + rest;
    ExpandAround(pages, sep, x, rest);
    assert Plain(sep);
    ExpandSeparators(pages, sep);
    SelectNone(sep, None, end);
    Associate(sep, PageString(pages, x), Expand(pages, rest), []);
    SelectSkip(sep, PageString(pages, x), Expand(pages, rest), end);
  }

  lemma {:induction false} SelectSkip(sep: seq<Token>, a: seq<Token>, b: seq<Token>, end: Option<Key>)
    requires Select(sep, None, end) == []
    ensures Select(sep + a + b, None, end) == Select(a + b, None, end)
  {
    assert sep + a + b == sep + (a + b);
    SelectConcat(sep, a + b, None, end);
  }

  /** After the last leaf nothing is left to read. */
  lemma {:induction false} NothingLeft(pages: Pages, s: Spot, end: Option<Key>)
    requires Plain(s.right) && FirstPage(s.right, 0) == 0 && P(0) !in s.right
    ensures Select(Expand(pages, s.right), None, end) == [] && PagesAt(s.right) == |s.right|
  {
    FirstPageAt(s.right, 0);
    assert s.right[..|s.right|] == s.right;
    ExpandSeparators(pages, s.right);
    SelectNone(s.right, None, end);
  }

  /** The first entry not below the end of the range ends the scan. */
  lemma {:induction false} PastEnd(es: seq<Entry>, slot: nat, r: seq<Token>, end: Key)
    requires slot < |es| && !Lt(es[slot].key, end) && Ordered(EntryString(es[slot..]) + r)
    ensures Select(EntryString(es[slot..]) + r, None, Some(end)) == []
  {
    var s := EntryString(es[slot..]) + r;
    assert s[0] == E(es[slot]) && s == [s[0]] + s[1..];
    OrderedConcat([s[0]], s[1..]);
    forall t | t in s && t.E? ensures !Lt(t.entry.key, end) {
      if t != s[0] {
        assert t in s[1..] && s[0] in [s[0]] && Precedes(s[0], t);
        LtTransitive(es[slot].key, t.entry.key, end);
      }
    }
    SelectNone(s, None, Some(end));
  }

  /** Everything left of where a scan starts is outside the range. */
  lemma {:induction false} ScanStart(pages: Pages, at: Spot, start: Option<Key>, end: Option<Key>, first: nat)
    requires Guarded(at, if start.Some? then start.value else []) && Ordered(Expand(pages, SpotString(at)))
    requires at.id in pages && pages[at.id].Leaf? && first <= |pages[at.id].entries|
    requires start.None? ==> first == 0
    requires start.Some?
             ==> AllBelow(pages[at.id].entries[..first], start.value)
                 && AllNotBelow(pages[at.id].entries[first..], start.value)
    ensures Select(Expand(pages, SpotString(at)), start, end)
         == Select(EntryString(pages[at.id].entries[first..]) + Expand(pages, at.right), None, end)
  {
    var key := if start.Some? then start.value else [];
    var es, l, r := pages[at.id].entries, Expand(pages, at.left), Expand(pages, at.right);
    LeafBounds(pages, at, key);
    assert es == es[..first] + es[first..];
    EntryStringConcat(es[..first], es[first..]);
    RegroupScan(l, EntryString(es[..first]), EntryString(es[first..]), r);
    SelectConcat(l + EntryString(es[..first]), EntryString(es[first..]) + r, start, end);
    BeforeStart(l, es[..first], start, end);
    BehindStart(es[first..], r, start, end);
  }

  lemma {:induction false} RegroupScan(l: seq<Token>, a: seq<Token>, b: seq<Token>, r: seq<Token>)
    ensures l + (a + b) + r == (l + a) + (b + r)
  {
  }

  lemma {:induction false} BeforeStart(l: seq<Token>, a: seq<Entry>, start: Option<Key>, end: Option<Key>)
    requires forall t <- l :: !t.P? ==> Lt(TokenKey(t), if start.Some? then start.value else []) || t.K?
    requires if start.Some? then AllBelow(a, start.value) else a == []
    ensures Select(l + EntryString(a), start, end) == []
  {
    forall t: Token | t in l + EntryString(a) && t.E? ensures !InRange(t.entry.key, start, end) {
      LtEmpty(t.entry.key);
      EntryStringHas(a, t);
    }
    SelectNone(l + EntryString(a), start, end);
  }

  lemma {:induction false} BehindStart(b: seq<Entry>, r: seq<Token>, start: Option<Key>, end: Option<Key>)
    requires forall t <- r :: !t.P? ==> Lt(if start.Some? then start.value else [], TokenKey(t))
    requires start.Some? ==> AllNotBelow(b, start.value)
    ensures Select(EntryString(b) + r, start, end) == Select(EntryString(b) + r, None, end)
  {
    forall t: Token | t in EntryString(b) + r && t.E? ensures InRange(t.entry.key, start, None) {
      EntryStringHas(b, t);
      if start.Some? { LtTotal(t.entry.key, start.value); }
    }
    SelectFrom(EntryString(b) + r, start, end);
  }

  lemma {:induction false} LtEmpty(k: Key)
    ensures !Lt(k, [])
  {
    LtIsLess(k, []);
  }

  lemma {:induction false} ReadOne(e: Entry, es: seq<Entry>, r: seq<Token>, end: Option<Key>)
    ensures Select(EntryString([e] + es) + r, None, end)
         == (if end.None? || Lt(e.key, end.value) then [e] else []) + Select(EntryString(es) + r, None, end)
  {
    EntryStringConcat([e], es);
    EntryStringOne(e);
    assert EntryString([e] + es) + r == [E(e)] + (EntryString(es) + r);
    SelectConcat([E(e)], EntryString(es) + r, None, end);
    assert [E(e)][1..] == [];
  }

  /** What is left of an ordered tree behind a position in one of its leaves is ordered. */
  lemma {:induction false} UnreadAfter(pages: Pages, here: Spot, slot: nat)
    requires here.id in pages && pages[here.id].Leaf? && slot <= |pages[here.id].entries|
    requires Ordered(Expand(pages, SpotString(here)))
    ensures Ordered(EntryString(pages[here.id].entries[slot..]) + Expand(pages, here.right))
  {
    hide Expand, EntryString, Ordered;
    var es, l, r := pages[here.id].entries, Expand(pages, here.left), Expand(pages, here.right);
    ExpandAround(pages, here.left, here.id, here.right);
    assert es == es[..slot] + es[slot..];
    EntryStringConcat(es[..slot], es[slot..]);
    var before, after := l + EntryString(es[..slot]), EntryString(es[slot..]) + r;
    assert l + (EntryString(es[..slot]) + EntryString(es[slot..])) + r == before + after;
    OrderedConcat(before, after);
  }


  class LeafIterator {
    const tree: BTree
    var pageID: PageId
    var slot: nat
    var end: Option<Key>
    var closed: bool
    /** The pages this cursor keeps pinned. */
    var pins: multiset<PageId>
    ghost var here: Spot

    ghost predicate Valid()
      reads this, tree, tree.pager
    {
      && tree.Valid()
      && pins == (if closed then multiset{} else multiset{pageID})
      && (!closed ==> AtLeaf(tree.pager.pages, Last(tree.levels), here, pageID, slot))
    }

    ghost predicate AtLeaf(pages: Pages, level: seq<Token>, at: Spot, id: PageId, slot: nat) {
      level == SpotString(at) && at.id == id && id in pages && pages[id].Leaf? && slot <= |pages[id].entries|
    }

    /** What the cursor has still to yield. */
    ghost function Pending(): seq<Entry>
      requires Valid()
      reads this, tree, tree.pager
    {
      if closed then []
      else Select(EntryString(tree.pager.pages[pageID].entries[slot..]) + Expand(tree.pager.pages, here.right), None,
          end)
    }

    /** Positions a cursor on the first entry of the range; it holds one pin. */
    constructor Scan(t: BTree, start: Option<Key>, end: Option<Key>)
      requires t.Valid()
      ensures tree == t && Valid() && !closed && pins == multiset{pageID} && this.end == end
      ensures Pending() == Select(t.Sequence(), start, end)
    {
      hide Shape, Count, FreeChain, Expand, EntryString, Select, SpotString, Route, Ordered;
      var key := if start.Some? then start.value else [];
      var leaf, path, up, at := t.FindLeaf(key);
      var first: nat := 0;
      if start.Some? {
        first := BinarySearchKeys(t.pager.pages[leaf], start.value, true);
      }
      RouteEnd(t.pager.pages, t.levels, up, at, key);
      ShapeParts(t.pager.pages, t.levels, 0);
      ScanStart(t.pager.pages, at, start, end, first);
      tree := t;
      pageID, slot, this.end, closed, pins, here := leaf, first, end, false, multiset{leaf}, at;
    }

    method Close()
      requires Valid()
      modifies this
      ensures Valid() && closed && pins == multiset{} && Pending() == [] && end == old(end)
    {
      if !closed {
        pins := pins - multiset{pageID};
        closed := true;
      }
    }

    /** At the end of a leaf: what the sibling pointer says is what the tree says. */
    lemma {:induction false} AtEnd()
      requires Valid() && !closed && slot == |tree.pager.pages[pageID].entries|
      ensures var pages := tree.pager.pages;
              var next := pages[pageID].next;
              && (next == 0 ==> Pending() == [])
              && (next != 0 ==>
                    && PagesAt(here.right) < |here.right| && here.right[PagesAt(here.right)].P?
                    && AtLeaf(pages, Last(tree.levels), NextSpot(here), next, 0)
                    && |NextSpot(here).right| < |here.right|
                    && Select(EntryString(pages[next].entries[0..]) + Expand(pages, NextSpot(here).right), None, end)
                       == Pending())
    {
      var pages := tree.pager.pages;
      var level := Last(tree.levels);
      assert tree.levels[0] == [P(tree.rootPageID)] && Plain(tree.levels[0]);
      LevelPlain(pages, tree.levels, 0, |tree.levels| - 1);
      SpotLinks(pages, here);
      assert forall t <- here.right :: t in level;
      assert EntryString(pages[pageID].entries[slot..]) == [];
      assert [] + Expand(pages, here.right) == Expand(pages, here.right);
      FirstPageAt(here.right, 0);
      if pages[pageID].next == 0 {
        NothingLeft(pages, here, end);
      } else {
        NextSpotIs(here);
        CrossOver(pages, here, end);
        var next := NextSpot(here).id;
        assert P(next) in SpotString(NextSpot(here));
        assert pages[next].entries[0..] == pages[next].entries;
      }
    }

    /** Within a leaf: the entry at the slot comes first. */
    lemma {:induction false} AtEntry()
      requires Valid() && !closed && slot < |tree.pager.pages[pageID].entries|
      ensures var es, r := tree.pager.pages[pageID].entries, Expand(tree.pager.pages, here.right);
              && (end.Some? && !Lt(es[slot].key, end.value) ==> Pending() == [])
              && (end.None? || Lt(es[slot].key, end.value) ==>
                    Pending() == [es[slot]] + Select(EntryString(es[slot + 1..]) + r, None, end))
    {
      hide Shape, Count, FreeChain, Expand, EntryString, Ordered, Select;
      var es, r := tree.pager.pages[pageID].entries, Expand(tree.pager.pages, here.right);
      UnreadOrdered();
      assert es[slot..] == [es[slot]] + es[slot + 1..];
      ReadOne(es[slot], es[slot + 1..], r, end);
      if end.Some? && !Lt(es[slot].key, end.value) { PastEnd(es, slot, r, end.value); }
    }

    lemma {:induction false} UnreadOrdered()
      requires Valid() && !closed
      ensures Ordered(EntryString(tree.pager.pages[pageID].entries[slot..]) + Expand(tree.pager.pages, here.right))
    {
      hide Count, FreeChain, Expand, EntryString, Ordered;
      UnreadAfter(tree.pager.pages, here, slot);
    }

    /** Leaves exhausted leaves behind: the old one is unpinned once the next one is pinned. */
    method SkipExhausted()
      requires Valid() && !closed
      modifies this
      ensures Valid() && end == old(end) && Pending() == old(Pending())
      ensures closed ==> old(Pending()) == []
      ensures !closed ==> slot < |tree.pager.pages[pageID].entries|
    {
      hide Shape, Count, FreeChain, Expand, EntryString, Select, SpotString, NextSpot, PagesAt, BTree.Valid, Last;
      while slot >= |tree.pager.pages[pageID].entries|
        invariant Valid() && !closed && end == old(end) && Pending() == old(Pending())
        decreases |here.right|
      {
        var next := tree.pager.pages[pageID].next;
        AtEnd();
        if next == 0 {
          Close();
          return;
        }
        pins, pageID, slot, here := pins + multiset{next} - multiset{pageID}, next, 0, NextSpot(here);
      }
    }

    /** Yields the next entry of the range, or closes the cursor when there is none. */
    method Next() returns (r: Option<Entry>)
      requires Valid()
      modifies this
      ensures Valid() && end == old(end)
      ensures old(Pending()) == [] ==> r.None? && closed && Pending() == []
      ensures old(Pending()) != [] ==> r == Some(old(Pending())[0]) && Pending() == old(Pending())[1..] && !closed
    {
      hide Shape, Count, FreeChain, Expand, EntryString, Select, SpotString;
      if closed { return None; }
      SkipExhausted();
      if closed { return None; }
      var e := tree.pager.pages[pageID].entries[slot];
      AtEntry();
      if end.Some? {
        var c := Compare(e.key, end.value);
        if c >= 0 {
          Close();
          return None;
        }
      }
      slot := slot + 1;
      return Some(e);
    }
  }

  /** Reads a whole range: exactly the entries of the map within it, in increasing key order. */
  method Drain(t: BTree, start: Option<Key>, end: Option<Key>) returns (es: seq<Entry>)
    requires t.Valid()
    ensures SortedEntries(es)
    ensures forall e :: e in es <==> e.key in t.Contents() && t.Contents()[e.key] == e.value && InRange(e.key, start, end)
  {
    hide *;
    var it := new LeafIterator.Scan(t, start, end);
    ghost var all, rest := it.Pending(), it.Pending();
    es := [];
    assert all == es + rest;
    while true
      invariant it.Valid() && it.tree == t && rest == it.Pending() && all == es + rest
      decreases |rest|
    {
      var r := it.Next();
      if r.None? { break; }
      assert es + rest == es + [r.value] + rest[1..];
      es, rest := es + [r.value], rest[1..];
    }
    assert es == all;
    SelectIsRange(t, start, end);
  }

  lemma {:induction false} SelectIsRange(t: BTree, start: Option<Key>, end: Option<Key>)
    requires t.Valid()
    ensures t.levels != []
    ensures var es := Select(t.Sequence(), start, end);
            && SortedEntries(es)
            && forall e :: e in es <==> e.key in t.Contents() && t.Contents()[e.key] == e.value && InRange(e.key, start, end)
  {
    SelectSorted(t.Sequence(), start, end);
    var es := Select(t.Sequence(), start, end);
    forall e
      ensures e in es <==> e.key in t.Contents() && t.Contents()[e.key] == e.value && InRange(e.key, start, end)
    {
      SelectHas(t.Sequence(), start, end, e);
      EntryIsMapping(t.Sequence(), e);
    }
  }
}
