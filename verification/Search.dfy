/** Searching one node, and choosing where to split one (storage/btree.go). */
module Search {
  import opened Keys
  import opened Nodes
  import opened Levels
  import opened Trees

  function EntryKeys(es: seq<Entry>): (ks: seq<Key>)
    ensures |ks| == |es| && forall i :: 0 <= i < |es| ==> ks[i] == es[i].key
  {
    seq(|es|, i requires 0 <= i < |es| => es[i].key)
  }

  function NodeKeys(node: Page): seq<Key> {
    if node.Leaf? then EntryKeys(node.entries) else if node.Internal? then node.keys else []
  }

  ghost predicate Ascending(ks: seq<Key>) {
    forall i, j {:trigger Lt(ks[i], ks[j])} :: 0 <= i < j < |ks| ==> Lt(ks[i], ks[j])
  }

  ghost predicate AllBelow(es: seq<Entry>, key: Key) { forall e <- es :: Lt(e.key, key) }
  ghost predicate AllNotBelow(es: seq<Entry>, key: Key) { forall e <- es :: !Lt(e.key, key) }
  ghost predicate AllAbove(es: seq<Entry>, key: Key) { forall e <- es :: Lt(key, e.key) }

  /** What one comparison says about the keys on either side of it. */
  lemma {:induction false} AscendingSplit(ks: seq<Key>, mid: nat, key: Key)
    requires Ascending(ks) && mid < |ks|
    ensures Lt(ks[mid], key) ==> forall i :: 0 <= i <= mid ==> Lt(ks[i], key)
    ensures !Lt(ks[mid], key) ==> forall i :: mid <= i < |ks| ==> !Lt(ks[i], key)
    ensures !Lt(key, ks[mid]) ==> forall i :: 0 <= i <= mid ==> !Lt(key, ks[i])
    ensures Lt(key, ks[mid]) ==> forall i :: mid <= i < |ks| ==> Lt(key, ks[i])
  {
    forall i | 0 <= i < |ks|
      ensures i <= mid && Lt(ks[mid], key) ==> Lt(ks[i], key)
      ensures i <= mid && !Lt(key, ks[mid]) ==> !Lt(key, ks[i])
      ensures mid <= i && !Lt(ks[mid], key) ==> !Lt(ks[i], key)
      ensures mid <= i && Lt(key, ks[mid]) ==> Lt(key, ks[i])
    {
      LtTransitive(ks[i], ks[mid], key);
      LtTransitive(key, ks[mid], ks[i]);
      LtTotal(ks[i], key);
      if i < mid { assert Lt(ks[i], ks[mid]); }
      if mid < i { assert Lt(ks[mid], ks[i]); }
    }
  }

  /** In a leaf: the first key not below `key`. In an internal node: the first key above it. */
  method BinarySearchKeys(node: Page, key: Key, leaf: bool) returns (low: nat)
    requires if leaf then node.Leaf? else node.Internal?
    requires Ascending(NodeKeys(node))
    ensures leaf
            ==> low <= |node.entries| && AllBelow(node.entries[..low], key) && AllNotBelow(node.entries[low..], key)
    ensures !leaf ==> low <= |node.keys| && AtMost(node.keys[..low], key) && Above(node.keys[low..], key)
  {
    var ks := NodeKeys(node);
    low := 0;
    var high: int := |ks| - 1;
    while low <= high
      invariant low <= high + 1 <= |ks|
      invariant forall i :: 0 <= i < low ==> if leaf then Lt(ks[i], key) else !Lt(key, ks[i])
      invariant forall i :: high < i < |ks| ==> if leaf then !Lt(ks[i], key) else Lt(key, ks[i])
      decreases high + 1 - low
    {
      var mid := low + (high - low) / 2;
      var comparison := Compare(ks[mid], key);
      AscendingSplit(ks, mid, key);
      if leaf {
        if comparison < 0 { low := mid + 1; } else { high := mid - 1; }
      } else {
        if comparison <= 0 { low := mid + 1; } else { high := mid - 1; }
      }
    }
  }

  lemma {:induction false} AfterAt(ks: seq<Key>, cs: seq<PageId>, i: nat)
    requires |ks| == |cs| && i < |ks|
    ensures |After(ks, cs)| == 2 * |ks|
    ensures After(ks, cs)[2 * i] == K(ks[i])
  {
    if |ks| > 1 {
      AfterAt(ks[1..], cs[1..], if i > 0 then i - 1 else 0);
    }
  }

  lemma {:induction false} NodeAscending(ks: seq<Key>, cs: seq<PageId>)
    requires |cs| == |ks| + 1 && Ordered(NodeString(ks, cs))
    ensures Ascending(ks)
  {
    OrderedConcat([P(cs[0])], After(ks, cs[1..]));
    forall i, j | 0 <= i < j < |ks| ensures Lt(ks[i], ks[j]) {
      AfterAt(ks, cs[1..], i);
      AfterAt(ks, cs[1..], j);
      assert Precedes(After(ks, cs[1..])[2 * i], After(ks, cs[1..])[2 * j]);
    }
  }

  lemma {:induction false} EntryStringAt(es: seq<Entry>, i: nat)
    requires i < |es|
    ensures |EntryString(es)| == |es| && EntryString(es)[i] == E(es[i])
  {
    if |es| > 1 { EntryStringAt(es[1..], if i > 0 then i - 1 else 0); }
  }

  lemma {:induction false} LeafAscending(es: seq<Entry>)
    requires Ordered(EntryString(es))
    ensures Ascending(EntryKeys(es))
  {
    forall i, j | 0 <= i < j < |es| ensures Lt(es[i].key, es[j].key) {
      EntryStringAt(es, i);
      EntryStringAt(es, j);
      assert Precedes(EntryString(es)[i], EntryString(es)[j]);
    }
  }

  /** The keys of any page standing in an ordered tree ascend. */
  lemma {:induction false} PageAscending(pages: Pages, s: Spot)
    requires Ordered(Expand(pages, SpotString(s)))
    requires s.id in pages && (pages[s.id].Leaf? || InternalFits(pages[s.id]))
    ensures Ordered(PageString(pages, s.id))
    ensures Ascending(NodeKeys(pages[s.id]))
  {
    ExpandAround(pages, s.left, s.id, s.right);
    OrderedConcat(Expand(pages, s.left) + PageString(pages, s.id), Expand(pages, s.right));
    OrderedConcat(Expand(pages, s.left), PageString(pages, s.id));
    match pages[s.id]
    case Leaf(es, _, _) => LeafAscending(es);
    case Internal(ks, cs) => NodeAscending(ks, cs);
  }

  /** A key leads to one child only. */
  lemma {:induction false} UpperIsUnique(ks: seq<Key>, key: Key, i: nat, j: nat)
    requires i <= |ks| && j <= |ks|
    requires AtMost(ks[..i], key) && Above(ks[i..], key)
    requires AtMost(ks[..j], key) && Above(ks[j..], key)
    ensures i == j
  {
    if i < |ks| { UpperMeans(ks, key, i, i); UpperMeans(ks, key, j, i); }
    if j < |ks| { UpperMeans(ks, key, i, j); UpperMeans(ks, key, j, j); }
  }

  lemma {:induction false} UpperMeans(ks: seq<Key>, key: Key, i: nat, k: nat)
    requires i <= |ks| && k < |ks| && AtMost(ks[..i], key) && Above(ks[i..], key)
    ensures k < i <==> !Lt(key, ks[k])
  {
    if k < i { assert ks[k] in ks[..i]; } else { assert ks[k] in ks[i..]; }
  }

  lemma {:induction false} EntryStringAround(a: seq<Entry>, e: Entry, b: seq<Entry>)
    ensures EntryString(a + [e] + b) == EntryString(a) + [E(e)] + EntryString(b)
  {
    EntryStringConcat(a + [e], b);
    EntryStringConcat(a, [e]);
    EntryStringOne(e);
  }

  lemma {:induction false} BelowMiss(es: seq<Entry>, key: Key)
    requires AllBelow(es, key) || AllAbove(es, key)
    ensures key !in MapOf(EntryString(es))
  {
    MapHas(EntryString(es), key);
    LtTotal(key, key);
    if key in MapOf(EntryString(es)) {
      var e :| E(e) in EntryString(es) && e.key == key;
      EntryStringHas(es, E(e));
    }
  }

  /** In ordered entries everything behind the first one not below a key is above it. */
  lemma {:induction false} CutAt(a: seq<Entry>, x: Entry, b: seq<Entry>, key: Key)
    requires Ordered(EntryString(a + [x] + b)) && !Lt(x.key, key)
    ensures AllAbove(b, x.key) && AllAbove(b, key)
    ensures x.key != key ==> Lt(key, x.key)
  {
    EntryStringAround(a, x, b);
    OrderedConcat(EntryString(a) + [E(x)], EntryString(b));
    assert E(x) in EntryString(a) + [E(x)];
    LtTotal(key, x.key);
    forall e | e in b ensures Lt(x.key, e.key) && Lt(key, e.key) {
      EntryStringHas(b, E(e));
      assert Precedes(E(x), E(e));
      LtTransitive(key, x.key, e.key);
    }
  }

  /** Searching ordered entries finds exactly the keys of the map they stand for. */
  lemma {:induction false} EntriesHold(a: seq<Entry>, b: seq<Entry>, key: Key)
    requires Ordered(EntryString(a + b)) && AllBelow(a, key) && AllNotBelow(b, key)
    ensures key in MapOf(EntryString(a + b)) <==> b != [] && b[0].key == key
    ensures b != [] && b[0].key == key ==> MapOf(EntryString(a + b))[key] == b[0].value
  {
    hide EntryString, MapOf, Ordered;
    if b == [] {
      assert a + b == a;
      BelowMiss(a, key);
    } else {
      assert b[0] in b && a + b == a + [b[0]] + b[1..];
      EntriesHoldAt(a, b[0], b[1..], key);
    }
  }

  lemma {:induction false} EntriesHoldAt(a: seq<Entry>, e: Entry, c: seq<Entry>, key: Key)
    requires Ordered(EntryString(a + [e] + c)) && AllBelow(a, key) && !Lt(e.key, key)
    ensures key in MapOf(EntryString(a + [e] + c)) <==> e.key == key
    ensures e.key == key ==> MapOf(EntryString(a + [e] + c))[key] == e.value
  {
    hide EntryString, MapOf, Ordered;
    CutAt(a, e, c, key);
    if e.key == key {
      EntryStringAround(a, e, c);
      EntriesHit(EntryString(a), e, c);
    } else {
      EntryStringConcat(a, [e] + c);
      assert a + ([e] + c) == a + [e] + c;
      MapConcat(EntryString(a), EntryString([e] + c));
      BelowMiss(a, key);
      BelowMiss([e] + c, key);
    }
  }

  lemma {:induction false} EntriesHit(a: seq<Token>, e: Entry, es: seq<Entry>)
    requires AllAbove(es, e.key)
    ensures MapOf(a + [E(e)] + EntryString(es)) == MapOf(a + EntryString(es))[e.key := e.value]
  {
    forall t | t in EntryString(es) ensures t.E? && Lt(e.key, t.entry.key) {
      EntryStringHas(es, t);
    }
    MapInsert(a, e, EntryString(es));
  }

  /** The leaf a key leads to decides whether the whole string holds the key. */
  lemma {:induction false} LeafDecides(pages: Pages, here: Spot, key: Key, slot: nat)
    requires Guarded(here, key) && Ordered(Expand(pages, SpotString(here)))
    requires here.id in pages && pages[here.id].Leaf? && slot <= |pages[here.id].entries|
    requires AllBelow(pages[here.id].entries[..slot], key) && AllNotBelow(pages[here.id].entries[slot..], key)
    ensures var es := pages[here.id].entries;
            var all := MapOf(Expand(pages, SpotString(here)));
            && (key in all <==> slot < |es| && es[slot].key == key)
            && (slot < |es| && es[slot].key == key ==> all[key] == es[slot].value)
  {
    var es := pages[here.id].entries;
    LeafBounds(pages, here, key);
    PageAscending(pages, here);
    MapAround(Expand(pages, here.left), EntryString(es), Expand(pages, here.right), key);
    assert es == es[..slot] + es[slot..];
    EntriesHold(es[..slot], es[slot..], key);
  }

  // ----- byte-weighted midpoints -----

  lemma {:induction false} EntriesPrefix(es: seq<Entry>, i: nat)
    requires i < |es|
    ensures EntriesSize(es[..i + 1]) == EntriesSize(es[..i]) + EntrySize(es[i])
  {
    assert es[..i + 1] == es[..i] + [es[i]];
    EntriesSizeConcat(es[..i], [es[i]]);
    assert [es[i]][1..] == [];
  }

  lemma {:induction false} KeysPrefix(ks: seq<Key>, i: nat)
    requires i < |ks|
    ensures KeysSize(ks[..i + 1]) == KeysSize(ks[..i]) + |ks[i]| + 8
  {
    assert ks[..i + 1] == ks[..i] + [ks[i]];
    KeysSizeConcat(ks[..i], [ks[i]]);
    assert [ks[i]][1..] == [];
  }

  /**
    * Where a leaf that cannot take another entry is split: the last point whose
    * left part stays below half the bytes. Both clamps are dead code then, and
    * both halves are non-empty.
    */
  method LeafMidpoint(es: seq<Entry>) returns (midpoint: nat)
    requires forall e <- es :: EntrySize(e) <= ENTRY_CAP
    requires EntriesSize(es) > PAGE_SIZE - SLOT_START - ENTRY_CAP
    ensures 1 <= midpoint < |es|
    ensures EntriesSize(es[..midpoint]) < EntriesSize(es) / 2
    ensures EntriesSize(es[..midpoint]) + EntrySize(es[midpoint]) >= EntriesSize(es) / 2
    ensures EntriesSize(es[..midpoint]) + EntriesSize(es[midpoint..]) == EntriesSize(es)
  {
    var total := EntriesSize(es);
    var mid, acc := 0, 0;
    while mid < |es| && acc + EntrySize(es[mid]) < total / 2
      invariant 0 <= mid <= |es|
      invariant acc == EntriesSize(es[..mid])
      invariant mid == 0 || acc < total / 2
    {
      EntriesPrefix(es, mid);
      acc := acc + EntrySize(es[mid]);
      mid := mid + 1;
    }
    assert es[..|es|] == es;
    assert es != [] ==> es[0] in es;
    mid := if mid == 0 then 1 else mid;
    mid := if mid == |es| then |es| - 1 else mid;
    assert es == es[..mid] + es[mid..];
    EntriesSizeConcat(es[..mid], es[mid..]);
    midpoint := mid;
  }

  /** The separator that moves up when an overfull internal node is split; again no clamp fires. */
  method InternalMidpoint(ks: seq<Key>) returns (midpoint: nat)
    requires forall k <- ks :: |k| + 8 <= ENTRY_CAP
    requires KeysSize(ks) > PAGE_SIZE - 9
    ensures 1 <= midpoint < |ks| - 1
    ensures KeysSize(ks[..midpoint]) <= KeysSize(ks) / 2
    ensures KeysSize(ks[..midpoint]) + |ks[midpoint]| + 8 > KeysSize(ks) / 2
    ensures KeysSize(ks[..midpoint]) + |ks[midpoint]| + 8 + KeysSize(ks[midpoint + 1..]) == KeysSize(ks)
  {
    var count := |ks|;
    var total := KeysSize(ks);
    var mid, acc := 0, 0;
    while mid < count && acc + |ks[mid]| + 8 <= total / 2
      invariant 0 <= mid <= count
      invariant acc == KeysSize(ks[..mid]) && acc <= total / 2
    {
      KeysPrefix(ks, mid);
      acc := acc + |ks[mid]| + 8;
      mid := mid + 1;
    }
    assert ks[..count] == ks;
    KeysPrefix(ks, mid);
    KeysPrefix(ks, count - 1);
    assert ks[0] in ks && ks[count - 1] in ks;
    mid := if mid == 0 then 1 else mid;
    mid := if mid >= count - 1 then count - 2 else mid;
    assert ks == ks[..mid + 1] + ks[mid + 1..];
    KeysSizeConcat(ks[..mid + 1], ks[mid + 1..]);
    midpoint := mid;
  }
}
