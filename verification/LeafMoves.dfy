/** What changing one leaf, or cutting one in two, does to a tree. */
module LeafMoves {
  import opened Keys
  import opened Nodes
  import opened Levels
  import opened Trees
  import opened Growth
  import opened Search

  /** A route through a tree is a sequence of steps over proper internal pages. */
  lemma {:induction false} RouteSteps(pages: Pages, ls: seq<seq<Token>>, thin: PageId, up: seq<Spot>, here: Spot,
                                      key: Key)
    requires Shape(pages, ls, thin) && Route(pages, ls, up + [here], key)
    ensures Steps(pages, up + [here])
    ensures SpotString((up + [here])[0]) == ls[0]
  {
    forall k | 0 <= k < |up| ensures Internals(pages, SpotString((up + [here])[k]), 0) {
      StringsAt(up + [here], k);
    }
    StringsAt(up + [here], 0);
  }

  lemma {:induction false} ShapeParts(pages: Pages, ls: seq<seq<Token>>, thin: PageId)
    requires Shape(pages, ls, thin)
    ensures ls != [] && Finished(pages, ls) && Leaves(pages, Last(ls), |ls| == 1, thin) && Links(pages, Last(ls), 0)
    ensures Ordered(Expand(pages, Last(ls)))
  {
  }

  lemma {:induction false} ShapeWhole(pages: Pages, ls: seq<seq<Token>>, thin: PageId)
    requires ls != [] && Finished(pages, ls) && Leaves(pages, Last(ls), |ls| == 1, thin) && Links(pages, Last(ls), 0)
    requires Ordered(Expand(pages, Last(ls)))
    ensures Shape(pages, ls, thin)
  {
  }

  // ----- one leaf with new entries -----

  lemma {:induction false} LinksRewritten(p: Pages, q: Pages, s: Spot)
    requires Links(p, SpotString(s), 0) && Except(p, q, {s.id}) && P(s.id) !in s.left && P(s.id) !in s.right
    requires s.id in p && s.id in q && p[s.id].Leaf? && q[s.id].Leaf? && q[s.id].next == p[s.id].next
    ensures Links(q, SpotString(s), 0)
  {
    LinksConcat(p, s.left + [P(s.id)], s.right, 0);
    LinksConcat(p, s.left, [P(s.id)], FirstPage(s.right, 0));
    LinksConcat(q, s.left + [P(s.id)], s.right, 0);
    LinksConcat(q, s.left, [P(s.id)], FirstPage(s.right, 0));
    LinksFrame(p, q, s.left, FirstPage([P(s.id)], FirstPage(s.right, 0)));
    LinksFrame(p, q, s.right, 0);
    assert [P(s.id)][1..] == [];
  }

  lemma {:induction false} AboveUnchanged(p: Pages, q: Pages, ls: seq<seq<Token>>, x: PageId)
    requires ls != [] && Finished(p, ls) && Except(p, q, {x})
    requires forall k :: 0 <= k < |ls| - 1 ==> P(x) !in ls[k]
    ensures Finished(q, ls)
  {
    FinishedFrame(p, q, ls);
  }

  lemma {:induction false} LeavesRewritten(p: Pages, q: Pages, s: Spot, lone: bool, thin: PageId)
    requires Leaves(p, SpotString(s), lone, 0) && Except(p, q, {s.id})
    requires s.id in q && LeafFits(q[s.id]) && (q[s.id].entries != [] || lone || (thin == s.id != 0))
    ensures Leaves(q, SpotString(s), lone, thin)
  {
  }

  /** Replacing the entries of one leaf keeps the tree as long as the order is kept. */
  lemma {:induction false} LeafRewritten(p: Pages, q: Pages, ls: seq<seq<Token>>, s: Spot, thin: PageId)
    requires Shape(p, ls, 0) && Last(ls) == SpotString(s) && Count(ls, s.id) <= 1
    requires Except(p, q, {s.id}) && Except(q, p, {s.id})
    requires s.id in p && s.id in q && p[s.id].Leaf? && LeafFits(q[s.id]) && q[s.id].next == p[s.id].next
    requires q[s.id].entries != [] || |ls| == 1 || (thin == s.id != 0)
    requires Ordered(Expand(p, s.left) + EntryString(q[s.id].entries) + Expand(p, s.right))
    ensures Shape(q, ls, thin)
    ensures Expand(q, Last(ls)) == Expand(p, s.left) + EntryString(q[s.id].entries) + Expand(p, s.right)
  {
    hide Shape, Finished, Expand, Count, EntriesSize, Links, Leaves, EntryString;
    ShapeParts(p, ls, 0);
    CountOnce(ls, |ls| - 1, s.left, s.id, s.right);
    AboveUnchanged(p, q, ls, s.id);
    LinksRewritten(p, q, s);
    ExpandExcept(p, q, s.left, {s.id});
    ExpandExcept(p, q, s.right, {s.id});
    ExpandAround(q, s.left, s.id, s.right);
    LeavesRewritten(p, q, s, |ls| == 1, thin);
    ShapeWhole(q, ls, thin);
  }

  // ----- one leaf cut in two -----

  lemma {:induction false} LinksSplit(p: Pages, q: Pages, s: Spot, m: Key, r: PageId)
    requires Links(p, SpotString(s), 0) && Except(p, q, {s.id, r})
    requires P(s.id) !in s.left && P(s.id) !in s.right && P(r) !in s.left && P(r) !in s.right
    requires s.id in p && p[s.id].Leaf?
    requires s.id in q && q[s.id].Leaf? && q[s.id].next == r
    requires r in q && q[r].Leaf? && q[r].next == p[s.id].next
    ensures Links(q, SplitString(s, m, r), 0)
  {
    var mid := [P(s.id), K(m), P(r)];
    LinksConcat(p, s.left + [P(s.id)], s.right, 0);
    LinksConcat(p, s.left, [P(s.id)], FirstPage(s.right, 0));
    LinksConcat(q, s.left + mid, s.right, 0);
    LinksConcat(q, s.left, mid, FirstPage(s.right, 0));
    LinksFrame(p, q, s.left, s.id);
    LinksFrame(p, q, s.right, 0);
    LinksPair(q, s.id, m, r, FirstPage(s.right, 0));
    assert [P(s.id)][1..] == [];
  }

  lemma {:induction false} LeavesSplit(p: Pages, q: Pages, s: Spot, m: Key, r: PageId, lone: bool)
    requires Leaves(p, SpotString(s), lone, 0) && (lone ==> SpotString(s) == [P(s.id)]) && Except(p, q, {s.id, r})
    requires s.id in q && LeafFits(q[s.id]) && q[s.id].entries != []
    requires r in q && LeafFits(q[r]) && q[r].entries != []
    ensures Leaves(q, SplitString(s, m, r), false, 0)
  {
    forall id | P(id) in SplitString(s, m, r)
      ensures id in q && LeafFits(q[id]) && |q[id].entries| >= 1
    {
      if id != s.id && id != r {
        assert P(id) in SpotString(s);
      }
    }
  }

  /** The halves and the separator between them read as the leaf did, separator aside. */
  lemma {:induction false} SplitSequence(p: Pages, q: Pages, s: Spot, a: seq<Entry>, b: seq<Entry>, r: PageId)
    requires a != [] && b != []
    requires s.id in p && p[s.id].Leaf? && p[s.id].entries == a + b
    requires s.id in q && q[s.id].Leaf? && q[s.id].entries == a
    requires r in q && q[r].Leaf? && q[r].entries == b
    requires Expand(q, s.left) == Expand(p, s.left) && Expand(q, s.right) == Expand(p, s.right)
    requires Ordered(Expand(p, SpotString(s)))
    ensures var split := SplitString(s, b[0].key, r);
            && Ordered(Expand(q, split)) && MapOf(Expand(q, split)) == MapOf(Expand(p, SpotString(s)))
            && forall n :: Uniform(Expand(p, SpotString(s)), n) ==> Uniform(Expand(q, split), n)
  {
    var l, right := Expand(p, s.left), Expand(p, s.right);
    var ea, eb := EntryString(a), EntryString(b);
    ExpandAround(p, s.left, s.id, s.right);
    ExpandAroundPair(q, s.left, s.id, b[0].key, r, s.right);
    EntryStringConcat(a, b);
    EntryStringEnds(a);
    Associate(l, ea, eb, right);
    Separate(l + ea, b, right);
  }

  lemma {:induction false} Associate(l: seq<Token>, a: seq<Token>, b: seq<Token>, r: seq<Token>)
    ensures l + (a + b) + r == (l + a) + b + r
  {
  }

  lemma {:induction false} EntryStringEnds(a: seq<Entry>)
    requires a != []
    ensures EntryString(a) != [] && Last(EntryString(a)).E?
  {
    var n := |a| - 1;
    assert a == a[..n] + [a[n]];
    EntryStringConcat(a[..n], [a[n]]);
    EntryStringOne(a[n]);
  }

  lemma {:induction false} SeparateUniform(l: seq<Token>, b: seq<Entry>, r: seq<Token>)
    requires b != []
    ensures forall n :: Uniform(l + EntryString(b) + r, n) ==> Uniform(l + [K(b[0].key)] + EntryString(b) + r, n)
  {
    var k := K(b[0].key);
    assert E(b[0]) in EntryString(b);
    forall n | Uniform(l + EntryString(b) + r, n) ensures Uniform(l + [k] + EntryString(b) + r, n) {
      assert forall t <- l + [k] + EntryString(b) + r :: t == k || t in l + EntryString(b) + r;
      assert E(b[0]) in l + EntryString(b) + r;
    }
  }

  lemma {:induction false} Separate(l: seq<Token>, b: seq<Entry>, r: seq<Token>)
    requires b != [] && l != [] && Last(l).E? && Ordered(l + EntryString(b) + r)
    ensures Ordered(l + [K(b[0].key)] + EntryString(b) + r)
    ensures MapOf(l + [K(b[0].key)] + EntryString(b) + r) == MapOf(l + EntryString(b) + r)
    ensures forall n :: Uniform(l + EntryString(b) + r, n) ==> Uniform(l + [K(b[0].key)] + EntryString(b) + r, n)
  {
    SeparateUniform(l, b, r);
    var tail := EntryString(b[1..]) + r;
    assert l + EntryString(b) + r == l + [E(b[0])] + tail;
    OrderedSeparate(l, b[0], tail);
    assert l + [K(b[0].key), E(b[0])] + tail == l + [K(b[0].key)] + EntryString(b) + r;
    MapPutSeparator(l, b[0].key, EntryString(b) + r);
    assert l + [K(b[0].key)] + (EntryString(b) + r) == l + [K(b[0].key)] + EntryString(b) + r;
    assert l + (EntryString(b) + r) == l + EntryString(b) + r;
  }

  /** A leaf of a tree has been cut in two: the split is pending, the leaf level is final. */
  lemma {:induction false} LeafSplit(p: Pages, q: Pages, root: PageId, ls: seq<seq<Token>>, up: seq<Spot>, s: Spot,
                                     key: Key, 
                  a: seq<Entry>, b: seq<Entry>, r: PageId)
    requires Shape(p, ls, 0) && ls[0] == [P(root)] && Route(p, ls, up + [s], key)
    requires Count(ls, s.id) <= 1 && Count(ls, r) == 0
    requires Except(p, q, {s.id, r}) && Except(q, p, {s.id, r})
    requires a != [] && b != [] && s.id in p && p[s.id].Leaf? && p[s.id].entries == a + b
    requires s.id in q && LeafFits(q[s.id]) && q[s.id].entries == a && q[s.id].next == r
    requires r in q && LeafFits(q[r]) && q[r].entries == b && q[r].next == p[s.id].next
    ensures var split := SplitString(s, b[0].key, r);
            && Pending(q, root, up, s, [split], b[0].key, r)
            && Leaves(q, split, false, 0) && Links(q, split, 0)
            && Ordered(Expand(q, split)) && MapOf(Expand(q, split)) == MapOf(InOrder(p, ls))
            && forall n :: Uniform(InOrder(p, ls), n) ==> Uniform(Expand(q, split), n)
  {
    hide Chain, Internals, Steps, Expand, Strings, Count, EntriesSize, Links, Leaves, EntryString, MapOf, Route;
    var split := SplitString(s, b[0].key, r);
    RouteEnd(p, ls, up, s, key);
    RouteSteps(p, ls, 0, up, s, key);
    CountOnce(ls, |ls| - 1, s.left, s.id, s.right);
    CountZero(ls, r);
    ExpandExcept(p, q, s.left, {s.id, r});
    ExpandExcept(p, q, s.right, {s.id, r});
    SplitSequence(p, q, s, a, b, r);
    LinksSplit(p, q, s, b[0].key, r);
    if |ls| == 1 { TopSpot(s, root, [], r); }
    LeavesSplit(p, q, s, b[0].key, r, |ls| == 1);
    OrderedUp(q, split);
    CountUpper(ls, up, s.id, r);
    StepsExcept(p, q, up, s, {s.id, r});
    FinishedOne(q, split);
    assert b[0] in q[r].entries;
  }

  lemma {:induction false} CountUpper(ls: seq<seq<Token>>, up: seq<Spot>, x: PageId, y: PageId)
    requires |ls| == |up| + 1 && ls[..|up|] == Strings(up)
    requires forall j :: 0 <= j < |ls| - 1 ==> P(x) !in ls[j]
    requires forall j :: 0 <= j < |ls| ==> P(y) !in ls[j]
    ensures Count(Strings(up), x) == 0 && Count(Strings(up), y) == 0
  {
    CountZero(Strings(up), x);
    CountZero(Strings(up), y);
    assert forall j :: 0 <= j < |up| ==> Strings(up)[j] == ls[j];
  }

  lemma {:induction false} LeafLevelKept(p: Pages, q: Pages, s: seq<Token>)
    requires Kept(p, q, [s]) && Leaves(p, s, false, 0) && Links(p, s, 0)
    ensures Leaves(q, s, false, 0) && Links(q, s, 0) && Expand(q, s) == Expand(p, s)
  {
    forall id | P(id) in s && id in p ensures id in q && q[id] == p[id] {
      CountSingle(s, id);
    }
    LinksFrame(p, q, s, 0);
    ExpandFrame(p, q, s);
  }

  lemma {:induction false} FinishShape(pages: Pages, all: seq<seq<Token>>, s: seq<Token>)
    requires all != [] && all[|all| - 1..] == [s] && Finished(pages, all)
    requires Leaves(pages, s, false, 0) && Links(pages, s, 0) && Ordered(Expand(pages, s))
    ensures Shape(pages, all, 0) && Last(all) == s
  {
    assert all[|all| - 1] == all[|all| - 1..][0];
  }

  lemma {:induction false} CountLeafSplit(ls: seq<seq<Token>>, up: seq<Spot>, s: Spot, m: Key, r: PageId)
    requires ls == Strings(up + [s])
    ensures forall x :: Count(Strings(up) + [SplitString(s, m, r)], x) == Count(ls, x) + if x == r then 1 else 0
  {
    forall x ensures Count(Strings(up) + [SplitString(s, m, r)], x) == Count(ls, x) + if x == r then 1 else 0 {
      CountSplit(up, s, m, r, [], x);
      assert [SplitString(s, m, r)] + [] == [SplitString(s, m, r)];
      assert Strings(up + [s]) + [] == ls;
    }
  }

  /** Where a key goes once its leaf has been cut in two at `m`. */
  ghost function HalfSpot(s: Spot, m: Key, r: PageId, key: Key): Spot {
    if Lt(key, m) then Spot(s.left, s.id, [K(m), P(r)] + s.right, 0)
    else Spot(s.left + [P(s.id), K(m)], r, s.right, 0)
  }

  lemma {:induction false} HalfGuarded(s: Spot, m: Key, r: PageId, key: Key)
    requires Guarded(s, key)
    ensures SpotString(HalfSpot(s, m, r, key)) == SplitString(s, m, r)
    ensures Guarded(HalfSpot(s, m, r, key), key)
    ensures HalfSpot(s, m, r, key).id == if Lt(key, m) then s.id else r
  {
    if Lt(key, m) {
      assert s.left + [P(s.id)] + ([K(m), P(r)] + s.right) == SplitString(s, m, r);
    } else {
      assert (s.left + [P(s.id), K(m)]) + [P(r)] + s.right == SplitString(s, m, r);
    }
  }

  /** Both halves of a leaf fit in a page of their own. */
  lemma {:induction false} LeafHalvesFit(a: seq<Entry>, b: seq<Entry>, r: PageId, next: PageId)
    requires EntriesSize(a + b) <= PAGE_SIZE - SLOT_START && forall e <- a + b :: EntrySize(e) <= ENTRY_CAP
    ensures LeafFits(RebuildLeaf(a, r)) && LeafFits(RebuildLeaf(b, next))
  {
    EntriesSizeConcat(a, b);
    forall e | e in a ensures EntrySize(e) <= ENTRY_CAP { assert e in a + b; }
    forall e | e in b ensures EntrySize(e) <= ENTRY_CAP { assert e in a + b; }
  }

  lemma {:induction false} HalvesKept(p: Pages, q: Pages, s: Spot, m: Key, r: PageId)
    requires s.id in p && r in p && Kept(p, q, [SplitString(s, m, r)])
    ensures s.id in q && q[s.id] == p[s.id] && r in q && q[r] == p[r]
  {
    CountSingle(SplitString(s, m, r), s.id);
    CountSingle(SplitString(s, m, r), r);
    assert P(s.id) in SplitString(s, m, r) && P(r) in SplitString(s, m, r);
  }

  // ----- inserting -----

  /** A new key put at its place in the leaf it leads to is put at its place in the whole string. */
  lemma {:induction false} InsertSequence(p: Pages, s: Spot, x: seq<Entry>, e: Entry, y: seq<Entry>)
    requires Guarded(s, e.key) && Ordered(Expand(p, SpotString(s)))
    requires s.id in p && p[s.id].Leaf? && p[s.id].entries == x + y
    requires AllBelow(x, e.key) && AllNotBelow(y, e.key)
    requires e.key !in MapOf(Expand(p, SpotString(s)))
    ensures var l, r := Expand(p, s.left), Expand(p, s.right);
            var all := l + EntryString(x + [e] + y) + r;
            && Ordered(all) && MapOf(all) == MapOf(Expand(p, SpotString(s)))[e.key := e.value]
            && (Uniform(Expand(p, SpotString(s)), |e.key|) ==> Uniform(all, |e.key|))
  {
    var l, r := Expand(p, s.left), Expand(p, s.right);
    var ex, ey := EntryString(x), EntryString(y);
    LeafBounds(p, s, e.key);
    PageAscending(p, s);
    MapAround(l, EntryString(x + y), r, e.key);
    EntriesHold(x, y, e.key);
    EntryStringConcat(x, y);
    EntryStringAround(x, e, y);
    Associate(l, ex, ey, r);
    RegroupInsert(l, ex, e, ey, r);
    LowerSide(l, x, e);
    UpperSide(x, y, e, r);
    InsertUniform(l + ex, e, ey + r);
    OrderedInsert(l + ex, e, ey + r);
    MapInsert(l + ex, e, ey + r);
  }

  lemma {:induction false} InsertUniform(a: seq<Token>, e: Entry, b: seq<Token>)
    ensures Uniform(a + b, |e.key|) ==> Uniform(a + [E(e)] + b, |e.key|)
  {
    UniformConcat(a, b, |e.key|);
    UniformConcat(a + [E(e)], b, |e.key|);
    UniformConcat(a, [E(e)], |e.key|);
  }

  lemma {:induction false} RegroupInsert(l: seq<Token>, x: seq<Token>, e: Entry, y: seq<Token>, r: seq<Token>)
    ensures l + (x + [E(e)] + y) + r == (l + x) + [E(e)] + (y + r)
    ensures (l + x) + y + r == (l + x) + (y + r)
  {
  }

  lemma {:induction false} LowerSide(l: seq<Token>, x: seq<Entry>, e: Entry)
    requires AllBelow(x, e.key)
    requires forall t <- l :: !t.P? ==> Lt(TokenKey(t), e.key) || (t.K? && t.key == e.key)
    ensures forall t <- l + EntryString(x) :: Precedes(t, E(e))
  {
    forall t | t in EntryString(x) ensures Precedes(t, E(e)) { EntryStringHas(x, t); }
  }

  lemma {:induction false} UpperSide(x: seq<Entry>, y: seq<Entry>, e: Entry, r: seq<Token>)
    requires AllNotBelow(y, e.key) && Ordered(EntryString(x + y)) && (y != [] ==> y[0].key != e.key)
    requires forall t <- r :: !t.P? ==> Lt(e.key, TokenKey(t))
    ensures forall t <- EntryString(y) + r :: Precedes(E(e), t) && (t.E? ==> Lt(e.key, t.entry.key))
  {
    if y != [] {
      assert y[0] in y && y == [y[0]] + y[1..] && x + y == x + [y[0]] + y[1..];
      CutAt(x, y[0], y[1..], e.key);
    }
    forall t | t in EntryString(y) ensures t.E? && Lt(e.key, t.entry.key) { EntryStringHas(y, t); }
  }

  /** Every entry of a leaf is an entry of the tree. */
  lemma {:induction false} LeafEntriesInTree(p: Pages, s: Spot, e: Entry)
    requires s.id in p && p[s.id].Leaf? && e in p[s.id].entries
    ensures E(e) in Expand(p, SpotString(s))
  {
    ExpandAround(p, s.left, s.id, s.right);
    EntryStringHas(p[s.id].entries, E(e));
  }

  /** After a split either half can take the pending entry, if no entry is larger than 1021 bytes. */
  lemma {:induction false} PendingEntryFits(a: seq<Entry>, b: seq<Entry>, needed: nat)
    requires b != [] && needed <= 1021 && EntrySize(b[0]) <= 1021
    requires EntriesSize(a) + EntriesSize(b) <= PAGE_SIZE - SLOT_START
    requires EntriesSize(a) < (EntriesSize(a) + EntriesSize(b)) / 2
    requires EntriesSize(a) + EntrySize(b[0]) >= (EntriesSize(a) + EntriesSize(b)) / 2
    ensures needed <= PAGE_SIZE - LeafLiveBytes(a) && needed <= PAGE_SIZE - LeafLiveBytes(b)
  {
  }

  // ----- deleting -----

  /** An entry taken out of its leaf is taken out of the whole string. */
  lemma {:induction false} RemoveSequence(p: Pages, s: Spot, x: seq<Entry>, e: Entry, y: seq<Entry>)
    requires Ordered(Expand(p, SpotString(s)))
    requires s.id in p && p[s.id].Leaf? && p[s.id].entries == x + [e] + y
    ensures var all := Expand(p, s.left) + EntryString(x + y) + Expand(p, s.right);
            && Ordered(all) && MapOf(all) == MapOf(Expand(p, SpotString(s))) - {e.key}
            && forall n :: Uniform(Expand(p, SpotString(s)), n) ==> Uniform(all, n)
  {
    var l, r := Expand(p, s.left), Expand(p, s.right);
    var ex, ey := EntryString(x), EntryString(y);
    ExpandAround(p, s.left, s.id, s.right);
    EntryStringConcat(x, y);
    EntryStringAround(x, e, y);
    RegroupInsert(l, ex, e, ey, r);
    Associate(l, ex, ey, r);
    OrderedRemove(l + ex, [E(e)], ey + r);
    MapRemove(l + ex, e, ey + r);
    RemoveUniform(l + ex, e, ey + r);
  }

  lemma {:induction false} RemoveUniform(a: seq<Token>, e: Entry, b: seq<Token>)
    ensures forall n :: Uniform(a + [E(e)] + b, n) ==> Uniform(a + b, n)
  {
    forall n | Uniform(a + [E(e)] + b, n) ensures Uniform(a + b, n) {
      UniformConcat(a + [E(e)], b, n);
      UniformConcat(a, [E(e)], n);
      UniformConcat(a, b, n);
    }
  }
}
