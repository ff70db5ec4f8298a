/** The disk-backed B+ tree (storage/btree.go). */
module BTrees {
  import opened Keys
  import opened Nodes
  import opened Levels
  import opened Trees
  import opened Growth
  import opened LeafMoves
  import opened Search
  import opened Routing
  import opened Pagers
  import opened Balance
  import opened Shrink

  datatype Lookup = Found(value: Value) | NotFound
  datatype DeleteResult = Deleted | KeyNotFound
  datatype InsertResult = Inserted | DuplicateKey | EntryTooLarge

  /** No entry takes more than `cap` bytes, its slot included. */
  ghost predicate EntriesWithin(s: seq<Token>, cap: nat) {
    forall t <- s :: t.E? ==> EntrySize(t.entry) <= cap
  }

  lemma {:induction false} OverfullNode(node: Page, newKey: Key, index: nat)
    requires InternalFits(node) && index <= |node.keys| && |newKey| + 8 <= ENTRY_CAP
    ensures var keys := node.keys[..index] + [newKey] + node.keys[index..];
            KeysSize(keys) == KeysSize(node.keys) + |newKey| + 8 && (forall k <- keys :: |k| + 8 <= ENTRY_CAP)
  {
    var ks := node.keys;
    assert ks == ks[..index] + ks[index..];
    KeysSizeConcat(ks[..index], ks[index..]);
    KeysSizeConcat(ks[..index] + [newKey], ks[index..]);
    KeysSizeConcat(ks[..index], [newKey]);
    KeysSizeOne(newKey);
  }

  /** Both halves of a split internal node fit and keep a separator. */
  lemma {:induction false} HalvesFit(node: Page, newKey: Key, index: nat, keys: seq<Key>, children: seq<PageId>,
                                     mid: nat)
    requires InternalFits(node) && index <= |node.keys| && |newKey| + 8 <= ENTRY_CAP
    requires keys == node.keys[..index] + [newKey] + node.keys[index..] && |children| == |keys| + 1
    requires 1 <= mid < |keys| - 1
    requires KeysSize(keys[..mid]) <= KeysSize(keys) / 2
    requires KeysSize(keys[..mid]) + |keys[mid]| + 8 > KeysSize(keys) / 2
    requires KeysSize(keys[..mid]) + |keys[mid]| + 8 + KeysSize(keys[mid + 1..]) == KeysSize(keys)
    ensures InternalFits(Internal(keys[..mid], children[..mid + 1]))
    ensures InternalFits(Internal(keys[mid + 1..], children[mid + 1..]))
    ensures |keys[mid]| + 8 <= ENTRY_CAP
  {
    hide KeysSize;
    OverfullNode(node, newKey, index);
    assert keys[mid] in keys;
    assert forall k <- keys[..mid] :: k in keys;
    assert forall k <- keys[mid + 1..] :: k in keys;
  }

  /** Splices a separator and its child into a full node and says where to cut it. */
  method SplitNode(node: Page, newKey: Key, newChild: PageId, ghost child: nat)
    returns (keys: seq<Key>, children: seq<PageId>, midpoint: nat)
    requires InternalFits(node) && Ascending(NodeKeys(node)) && |newKey| + 8 <= ENTRY_CAP
    requires InternalLiveBytes(node.keys) + |newKey| + 8 > PAGE_SIZE
    requires child <= |node.keys| && AtMost(node.keys[..child], newKey) && Above(node.keys[child..], newKey)
    ensures keys == node.keys[..child] + [newKey] + node.keys[child..]
    ensures children == node.children[..child + 1] + [newChild] + node.children[child + 1..]
    ensures 1 <= midpoint < |keys| - 1 && |keys[midpoint]| + 8 <= ENTRY_CAP
    ensures |children| == |keys| + 1
    ensures InternalFits(Internal(keys[..midpoint], children[..midpoint + 1]))
    ensures InternalFits(Internal(keys[midpoint + 1..], children[midpoint + 1..]))
  {
    var index := BinarySearchKeys(node, newKey, false);
    UpperIsUnique(node.keys, newKey, index, child);
    keys := node.keys[..index] + [newKey] + node.keys[index..];
    children := node.children[..index + 1] + [newChild] + node.children[index + 1..];
    OverfullNode(node, newKey, index);
    midpoint := InternalMidpoint(keys);
    HalvesFit(node, newKey, index, keys, children, midpoint);
  }

  // ----- page contents after a rotation or a merge -----

  /** An underfull node can take the separator and a child at either end. */
  lemma {:induction false} WidenedFits(l: Page, sep: Key, c: PageId)
    requires InternalFits(l) && InternalLiveBytes(l.keys) < HALF_PAGE && |sep| + 8 <= ENTRY_CAP
    ensures InternalFits(Internal(l.keys + [sep], l.children + [c]))
    ensures InternalFits(Internal([sep] + l.keys, [c] + l.children))
  {
    KeysSizeConcat(l.keys, [sep]);
    KeysSizeConcat([sep], l.keys);
    KeysSizeOne(sep);
  }

  lemma {:induction false} RotatedRight(l: Page, sep: Key, r: Page, n: nat)
    requires InternalFits(l) && InternalFits(r) && |sep| == n && n + 8 <= ENTRY_CAP
    requires InternalLiveBytes(l.keys) < HALF_PAGE && |r.keys| >= 2
    ensures var l', r' := Internal(l.keys + [sep], l.children + [r.children[0]]), DeleteInternalEntry(r, 0, 0);
            && InternalFits(l') && |l'.keys| >= 1 && InternalFits(r') && |r'.keys| >= 1
            && l.keys + [sep] + r.keys == l'.keys + [r.keys[0]] + r'.keys
            && l.children + r.children == l'.children + r'.children
  {
    hide KeysSize;
    WidenedFits(l, sep, r.children[0]);
    FirstTaken(l.keys + [sep], r.keys);
    FirstTaken(l.children, r.children);
    assert DeleteInternalEntry(r, 0, 0).keys == r.keys[1..];
    assert DeleteInternalEntry(r, 0, 0).children == r.children[1..];
  }

  lemma {:induction false} FirstTaken<T>(a: seq<T>, b: seq<T>)
    requires b != []
    ensures a + b == (a + [b[0]]) + b[1..]
  {
  }

  lemma {:induction false} RotatedLeft(l: Page, sep: Key, r: Page, n: nat)
    requires InternalFits(l) && InternalFits(r) && |sep| == n && n + 8 <= ENTRY_CAP
    requires InternalLiveBytes(r.keys) < HALF_PAGE && |l.keys| >= 2
    ensures var last := |l.keys| - 1;
            var l', r' := DeleteInternalEntry(l, last, |l.keys|),
                Internal([sep] + r.keys, [l.children[|l.keys|]] + r.children);
            && InternalFits(l') && |l'.keys| >= 1 && InternalFits(r') && |r'.keys| >= 1
            && l.keys + [sep] + r.keys == l'.keys + [l.keys[last]] + r'.keys
            && l.children + r.children == l'.children + r'.children
  {
    hide KeysSize, DeleteInternalEntry;
    LastDropped(l);
    WidenedFits(r, sep, l.children[|l.keys|]);
    LastTaken(l.keys, [sep], r.keys);
    LastTaken(l.children, [], r.children);
    assert l.children + [] + r.children == l.children + r.children;
    assert [l.children[|l.keys|]] + [] + r.children == [l.children[|l.keys|]] + r.children;
  }

  lemma {:induction false} LastDropped(l: Page)
    requires InternalFits(l) && |l.keys| >= 2
    ensures |l.children| == |l.keys| + 1
    ensures var l' := DeleteInternalEntry(l, |l.keys| - 1, |l.keys|);
            InternalFits(l') && l'.keys == l.keys[..|l.keys| - 1] && l'.children == l.children[..|l.children| - 1]
  {
    hide KeysSize;
  }

  lemma {:induction false} OnlyThree(p: Pages, q: Pages, x: PageId, y: PageId, z: PageId)
    requires x in p && y in p && z in p && x in q && y in q && z in q
    requires q == p[x := q[x]][y := q[y]][z := q[z]]
    ensures Except(p, q, {x, y, z}) && Except(q, p, {x, y, z})
  {}

  lemma {:induction false} LastTaken<T>(a: seq<T>, m: seq<T>, b: seq<T>)
    requires a != []
    ensures a + m + b == a[..|a| - 1] + [a[|a| - 1]] + (m + b)
    ensures a + m + b == a[..|a| - 1] + ([a[|a| - 1]] + m + b)
  {
  }

  lemma {:induction false} MergedFits(l: Page, sep: Key, r: Page)
    requires InternalFits(l) && InternalFits(r) && |sep| + 8 <= ENTRY_CAP
    requires InternalLiveBytes(l.keys) + InternalLiveBytes(r.keys) + |sep| - 1 <= PAGE_SIZE
    ensures InternalFits(Internal(l.keys + [sep] + r.keys, l.children + r.children))
  {
    KeysSizeConcat(l.keys + [sep], r.keys);
    KeysSizeConcat(l.keys, [sep]);
    KeysSizeOne(sep);
  }

  lemma {:induction false} JoinedIsDelete(pg: Page, i: nat)
    requires InternalFits(pg) && i < |pg.keys|
    ensures DeleteInternalEntry(pg, i, i + 1) == Joined(pg, i) && InternalFits(Joined(pg, i))
  {
  }

  lemma {:induction false} ReplacedFits(pg: Page, i: nat, k: Key, n: nat)
    requires InternalFits(pg) && i < |pg.keys| && OneLength(pg.keys, n) && |k| == n && n + 8 <= ENTRY_CAP
    ensures InternalFits(ReplaceInternalKey(pg, i, k))
    ensures ReplaceInternalKey(pg, i, k) == Internal(pg.keys[i := k], pg.children)
  {
    assert pg.keys[i] in pg.keys;
  }

  /** A descent starts at the root. */
  lemma {:induction false} RouteStarts(pages: Pages, ls: seq<seq<Token>>, root: PageId, key: Key)
    requires ls != [] && ls[0] == [P(root)]
    ensures Route(pages, ls[..1], [] + [Spot([], root, [], 0)], key)
  {
    var top := Spot([], root, [], 0);
    assert SpotString(top) == [P(root)];
    assert ls[..1] == [[P(root)]] + [];
    assert [] + [top] == [top] && [top][1..] == [];
  }

  class BTree {
    const pager: Pager
    var rootPageID: PageId
    /** The tree as strings, root level first. */
    ghost var levels: seq<seq<Token>>

    ghost predicate Valid()
      reads this, pager
    {
      pager.Valid()
      && levels != []
      && Shape(pager.pages, levels, 0)
      && levels[0] == [P(rootPageID)]
      && forall x :: Count(levels, x) == pager.InUse(x)
    }

    /** All entries and separators from left to right. */
    ghost function Sequence(): seq<Token>
      requires levels != []
      reads this, pager
    {
      InOrder(pager.pages, levels)
    }

    ghost function Contents(): map<Key, Value>
      requires levels != []
      reads this, pager
    {
      MapOf(Sequence())
    }

    /** The leaf the key leads to. */
    ghost function LeafFor(key: Key): PageId
      requires levels != []
      reads this, pager
    {
      PageBelow(pager.pages, rootPageID, key, |levels| - 1)
    }

    ghost function LeafEntries(key: Key): seq<Entry>
      requires levels != []
      reads this, pager
    {
      var id := LeafFor(key);
      if id in pager.pages && pager.pages[id].Leaf? then pager.pages[id].entries else []
    }

    /** An empty tree in a new file. */
    constructor ()
      ensures Valid() && fresh(pager) && Contents() == map[]
      ensures |levels| == 1 && forall key :: LeafEntries(key) == []
    {
      var p := new Pager();
      var id := p.AllocatePage();
      p.Overwrite(id, RebuildLeaf([], 0));
      pager := p;
      rootPageID := id;
      levels := [[P(id)]];
      new;
      ExpandOne(pager.pages, P(id));
      assert [[P(id)]][1..] == [];
      assert [P(id)][1..] == [];
      assert LeafFits(pager.pages[id]);
      assert Leaves(pager.pages, [P(id)], true, 0);
      assert Links(pager.pages, [P(id)], 0);
      assert Expand(pager.pages, [P(id)]) == [];
    }

    // ----- finding -----

    method FindLeaf(key: Key) returns (leaf: PageId, path: seq<PageId>, ghost up: seq<Spot>, ghost here: Spot)
      requires Valid()
      ensures Route(pager.pages, levels, up + [here], key)
      ensures |path| == |up| && forall k :: 0 <= k < |path| ==> path[k] == up[k].id
      ensures leaf == here.id && leaf in pager.pages && pager.pages[leaf].Leaf? && LeafFits(pager.pages[leaf])
      ensures Ascending(NodeKeys(pager.pages[leaf]))
    {
      ghost var top := Spot([], rootPageID, [], 0);
      RouteStarts(pager.pages, levels, rootPageID, key);
      leaf, path, up, here := FindLeafRecursive(rootPageID, [], key, [], top);
    }

    method FindLeafRecursive(pageNum: PageId, curr: seq<PageId>, key: Key, ghost above: seq<Spot>, ghost at: Spot)
      returns (leaf: PageId, path: seq<PageId>, ghost up: seq<Spot>, ghost here: Spot)
      requires Valid()
      requires |above| == |curr| < |levels| && at.id == pageNum
      requires forall k :: 0 <= k < |curr| ==> curr[k] == above[k].id
      requires Route(pager.pages, levels[..|above| + 1], above + [at], key)
      ensures Route(pager.pages, levels, up + [here], key)
      ensures |path| == |up| && forall k :: 0 <= k < |path| ==> path[k] == up[k].id
      ensures leaf == here.id && leaf in pager.pages && pager.pages[leaf].Leaf? && LeafFits(pager.pages[leaf])
      ensures Ascending(NodeKeys(pager.pages[leaf]))
      decreases |levels| - |curr|
    {
      hide *;
      ghost var k := |curr|;
      NodeOnLevel(k, above, at, key);
      var node := pager.pages[pageNum];
      if node.Leaf? {
        assert levels[..k + 1] == levels;
        return pageNum, curr, above, at;
      }
      var insert := BinarySearchKeys(node, key, false);
      ghost var taken := at.(child := insert);
      TakeChild(k, above, at, taken, key);
      leaf, path, up, here := FindLeafRecursive(node.children[insert], curr + [pageNum], key, above + [taken],
                                                ChildSpot(pager.pages, taken));
    }

    /** The page a descent has reached on level `k`: a leaf exactly on the last one, its keys ascending. */
    lemma {:induction false} NodeOnLevel(k: nat, above: seq<Spot>, at: Spot, key: Key)
      requires Valid() && |above| == k < |levels| && Route(pager.pages, levels[..k + 1], above + [at], key)
      ensures levels[k] == SpotString(at)
      ensures at.id in pager.pages && Ascending(NodeKeys(pager.pages[at.id]))
      ensures k + 1 == |levels| ==> pager.pages[at.id].Leaf? && LeafFits(pager.pages[at.id])
      ensures k + 1 < |levels| ==> pager.pages[at.id].Internal? && InternalFits(pager.pages[at.id])
      ensures k + 1 < |levels| ==> |pager.pages[at.id].children| == |pager.pages[at.id].keys| + 1
      ensures k + 1 < |levels| ==> ExpandsAt(pager.pages, levels, k)
    {
      StringsLast(above, at);
      assert levels[k] == levels[..k + 1][k];
      assert P(at.id) in levels[k];
      ChainOrdered(pager.pages, levels, k);
      PageAscending(pager.pages, at);
    }

    lemma {:induction false} TakeChild(k: nat, above: seq<Spot>, at: Spot, taken: Spot, key: Key)
      requires |above| == k && k + 1 < |levels| && Route(pager.pages, levels[..k + 1], above + [at], key)
      requires ExpandsAt(pager.pages, levels, k)
      requires levels[k] == SpotString(at) && taken == at.(child := taken.child)
      requires at.id in pager.pages && InternalFits(pager.pages[at.id]) && taken.child < |pager.pages[at.id].children|
      requires AtMost(pager.pages[at.id].keys[..taken.child], key) && Above(pager.pages[at.id].keys[taken.child..], key)
      ensures var below := ChildSpot(pager.pages, taken);
              below.id == pager.pages[at.id].children[taken.child]
              && Route(pager.pages, levels[..k + 2], above + [taken] + [below], key)
    {
      Descend(pager.pages, levels[..k + 1], above, at, taken, key);
      assert levels[..k + 2] == levels[..k + 1] + [levels[k + 1]];
    }

    // ----- splitting -----

    ghost predicate Balanced(ls: seq<seq<Token>>)
      reads pager
    {
      forall x :: Count(ls, x) == pager.InUse(x)
    }

    /** Takes a new page for the right half and writes both halves. */
    method WriteHalves(nodeID: PageId, left: Page, right: Page) returns (id: PageId)
      requires pager.Valid() && pager.InUse(nodeID) == 1
      modifies pager
      ensures pager.Valid() && id != nodeID && id != 0 && old(pager.InUse(id)) == 0
      ensures Except(old(pager.pages), pager.pages, {nodeID, id}) && Except(pager.pages, old(pager.pages), {nodeID, id})
      ensures nodeID in pager.pages && pager.pages[nodeID] == left
      ensures id in pager.pages && pager.pages[id] == right
      ensures forall x :: pager.InUse(x) == old(pager.InUse(x)) + if x == id then 1 else 0
    {
      id := pager.AllocatePage();
      pager.Overwrite(nodeID, left);
      pager.Overwrite(id, right);
    }

    /** What a pending split says about the parent that has to take it. */
    lemma {:induction false} ParentReady(up: seq<Spot>, a: Spot, here: Spot, rest: seq<seq<Token>>, m: Key, r: PageId)
      requires pager.Valid() && Pending(pager.pages, rootPageID, up + [a], here, rest, m, r)
      requires Balanced(Strings(up + [a]) + rest)
      ensures a.id in pager.pages && pager.pages[a.id].Internal? && InternalFits(pager.pages[a.id])
      ensures a.child < |pager.pages[a.id].children| == |pager.pages[a.id].keys| + 1
      ensures Ascending(NodeKeys(pager.pages[a.id]))
      ensures AtMost(pager.pages[a.id].keys[..a.child], m) && Above(pager.pages[a.id].keys[a.child..], m)
      ensures Count(Strings(up + [a]) + rest, a.id) == 1 && pager.InUse(a.id) == 1
      ensures Count(rest, a.id) == 0 && |m| + 8 <= ENTRY_CAP
    {
      hide Strings, Expand, FreeChain, MapOf, KeysSize;
      StepsSplit(pager.pages, up, a, here);
      SeparatorPosition(pager.pages, a, here, m, r);
      StepExpands(pager.pages, a, here);
      assert SplitString(here, m, r) == (here.left + [P(here.id)]) + [K(m), P(r)] + here.right;
      OrderedRemove(here.left + [P(here.id)], [K(m), P(r)], here.right);
      PageAscending(pager.pages, a);
      pager.InUseRange(a.id);
      CountBeside(up, a, rest, a.id);
    }

    /** Puts a separator and its right child into the parent, splitting it or growing a root as needed. */
    method PushUp(medianKey: Key, rightPageID: PageId, path: seq<PageId>,
                  ghost up: seq<Spot>, ghost here: Spot, ghost rest: seq<seq<Token>>)
      returns (ghost all: seq<seq<Token>>)
      requires pager.Valid() && Pending(pager.pages, rootPageID, up, here, rest, medianKey, rightPageID)
      requires |path| == |up| && forall k :: 0 <= k < |path| ==> path[k] == up[k].id
      requires Balanced(Strings(up) + rest)
      modifies this`rootPageID, pager
      ensures pager.Valid() && Balanced(all)
      ensures |all| > |rest| && all[|all| - |rest|..] == rest && all[0] == [P(rootPageID)]
      ensures Finished(pager.pages, all)
      ensures Kept(old(pager.pages), pager.pages, rest)
      decreases |path|, 1
    {
      hide Pending, Finished, Count, Strings, SplitString, SpotString, InternalRoom, KeysSize, FreeChain;
      ghost var p := pager.pages;
      if |path| == 0 {
        assert Strings([]) + rest == rest;
        var rootID := pager.AllocatePage();
        pager.Overwrite(rootID, Internal([medianKey], [rootPageID, rightPageID]));
        PushRoot(p, pager.pages, rootPageID, here, rest, medianKey, rightPageID, rootID);
        rootPageID := rootID;
        all := [[P(rootID)]] + rest;
      } else {
        var parentID := path[|path| - 1];
        ghost var above, a := up[..|up| - 1], up[|up| - 1];
        assert up == above + [a];
        ParentReady(above, a, here, rest, medianKey, rightPageID);
        var parent := pager.pages[parentID];
        var needed := |medianKey| + 4 + 4;
        var available := PAGE_SIZE - InternalLiveBytes(parent.keys);
        if needed > available {
          all := SplitInternal(parentID, parent, medianKey, rightPageID, path, above, a, here, rest);
        } else {
          var index := BinarySearchKeys(parent, medianKey, false);
          UpperIsUnique(parent.keys, medianKey, index, a.child);
          pager.Overwrite(parentID, InsertInternalEntry(parent, medianKey, index, rightPageID));
          PushFits(p, pager.pages, rootPageID, above, a, here, rest, medianKey, rightPageID);
          all := Strings(up) + rest;
        }
      }
    }

    /** Splits the full parent around a byte-weighted midpoint, the new separator and child included. */
    method SplitInternal(nodeID: PageId, node: Page, newKey: Key, newChild: PageId, path: seq<PageId>,
                         ghost up: seq<Spot>, ghost a: Spot, ghost here: Spot, ghost rest: seq<seq<Token>>)
      returns (ghost all: seq<seq<Token>>)
      requires pager.Valid() && Pending(pager.pages, rootPageID, up + [a], here, rest, newKey, newChild)
      requires |path| == |up| + 1 && forall k :: 0 <= k < |path| ==> path[k] == (up + [a])[k].id
      requires nodeID == a.id && nodeID in pager.pages && node == pager.pages[nodeID] && InternalFits(node)
      requires InternalLiveBytes(node.keys) + |newKey| + 8 > PAGE_SIZE && |newKey| + 8 <= ENTRY_CAP
      requires Balanced(Strings(up + [a]) + rest)
      modifies this`rootPageID, pager
      ensures pager.Valid() && Balanced(all)
      ensures |all| > |rest| && all[|all| - |rest|..] == rest && all[0] == [P(rootPageID)]
      ensures Finished(pager.pages, all)
      ensures Kept(old(pager.pages), pager.pages, rest)
      decreases |path|, 0
    {
      hide Pending, Finished, Count, Strings, SplitString, SpotString, InternalRoom, KeysSize, FreeChain;
      ghost var p := pager.pages;
      ParentReady(up, a, here, rest, newKey, newChild);
      var keys, children, midpoint := SplitNode(node, newKey, newChild, a.child);
      var rightPageID := WriteHalves(nodeID, Internal(keys[..midpoint], children[..midpoint + 1]),
                                     Internal(keys[midpoint + 1..], children[midpoint + 1..]));
      ghost var now := SplitString(a, keys[midpoint], rightPageID);
      PushSplit(p, pager.pages, rootPageID, up, a, here, rest, newKey, newChild, keys, children, midpoint, rightPageID);
      ghost var p1 := pager.pages;
      assert Count(Strings(up + [a]) + rest, rightPageID) == 0;
      all := PushUp(keys[midpoint], rightPageID, path[..|path| - 1], up, a, [now] + rest);
      KeptBelow(p, p1, pager.pages, up, a, rest, now, rightPageID);
      assert all[|all| - |rest|..] == all[|all| - |rest| - 1..][1..];
    }

    method WriteLeafHalves(leafID: PageId, a: seq<Entry>, b: seq<Entry>, next: PageId) returns (id: PageId)
      requires pager.Valid() && pager.InUse(leafID) == 1
      modifies pager
      ensures pager.Valid() && id != leafID && id != 0 && old(pager.InUse(id)) == 0
      ensures Except(old(pager.pages), pager.pages, {leafID, id}) && Except(pager.pages, old(pager.pages), {leafID, id})
      ensures leafID in pager.pages && pager.pages[leafID] == RebuildLeaf(a, id)
      ensures id in pager.pages && pager.pages[id] == RebuildLeaf(b, next)
      ensures forall x :: pager.InUse(x) == old(pager.InUse(x)) + if x == id then 1 else 0
    {
      id := pager.AllocatePage();
      pager.Overwrite(leafID, RebuildLeaf(a, id));
      pager.Overwrite(id, RebuildLeaf(b, next));
    }

    /** The page at a spot of the leaf level is a leaf in use, counted once. */
    lemma {:induction false} LeafSpot(s: Spot)
      requires Valid() && Last(levels) == SpotString(s)
      ensures s.id in pager.pages && pager.pages[s.id].Leaf? && LeafFits(pager.pages[s.id])
      ensures Count(levels, s.id) == 1 && pager.InUse(s.id) == 1
      ensures EntriesSize(pager.pages[s.id].entries) <= PAGE_SIZE - SLOT_START
      ensures Ascending(NodeKeys(pager.pages[s.id]))
      ensures |levels| == 1 || pager.pages[s.id].entries != []
      ensures forall e <- pager.pages[s.id].entries :: E(e) in Sequence()
    {
      assert P(s.id) in SpotString(s);
      SpotInUse(s);
      SpotEntries(s);
      HereIs(s, s.id);
    }

    lemma {:induction false} SpotInUse(s: Spot)
      requires Valid() && Last(levels) == SpotString(s)
      ensures Count(levels, s.id) == 1 && pager.InUse(s.id) == 1
    {
      hide Count, FreeChain, Expand, Ordered, MapOf, Shape;
      assert P(s.id) in SpotString(s);
      pager.InUseRange(s.id);
      CountAt(levels, |levels| - 1, s.id);
    }

    lemma {:induction false} SpotEntries(s: Spot)
      requires Valid() && Last(levels) == SpotString(s) && s.id in pager.pages && pager.pages[s.id].Leaf?
      ensures Ascending(NodeKeys(pager.pages[s.id]))
      ensures forall e <- pager.pages[s.id].entries :: E(e) in Sequence()
    {
      hide Count, FreeChain, Expand, Ordered, MapOf, Ascending, NodeKeys;
      PageAscending(pager.pages, s);
      forall e | e in pager.pages[s.id].entries ensures E(e) in Sequence() {
        LeafEntriesInTree(pager.pages, s, e);
      }
    }

    /** Cuts a full leaf in two and tells the parent. */
    method SplitLeaf(leafID: PageId, node: Page, path: seq<PageId>, ghost up: seq<Spot>, ghost here: Spot,
                     ghost key: Key)
      returns (median: Key, rightPageID: PageId, ghost a: seq<Entry>, ghost b: seq<Entry>)
      requires Valid() && Route(pager.pages, levels, up + [here], key) && leafID == here.id
      requires |path| == |up| && forall k :: 0 <= k < |path| ==> path[k] == up[k].id
      requires leafID in pager.pages && node == pager.pages[leafID] && LeafFits(node)
      requires EntriesSize(node.entries) > PAGE_SIZE - SLOT_START - ENTRY_CAP
      modifies this, pager
      ensures Valid() && Contents() == old(Contents())
      ensures forall n :: Uniform(old(Sequence()), n) ==> Uniform(Sequence(), n)
      ensures a != [] && b != [] && node.entries == a + b && median == b[0].key
      ensures EntriesSize(a) + EntriesSize(b) == EntriesSize(node.entries)
      ensures EntriesSize(a) < EntriesSize(node.entries) / 2 <= EntriesSize(a) + EntrySize(b[0])
      ensures Last(levels) == SplitString(here, median, rightPageID)
      ensures leafID in pager.pages && pager.pages[leafID] == RebuildLeaf(a, rightPageID)
      ensures rightPageID in pager.pages && pager.pages[rightPageID] == RebuildLeaf(b, node.next)
    {
      hide Finished, Pending, Count, Strings, SplitString, Route, Links, Leaves, Expand, MapOf, FreeChain, Ordered,
           RebuildLeaf;
      hide Except, Kept, Uniform;
      RouteEnd(pager.pages, levels, up, here, key);
      LeafSpot(here);
      var midpoint := LeafMidpoint(node.entries);
      a, b := node.entries[..midpoint], node.entries[midpoint..];
      assert node.entries == a + b;
      median := node.entries[midpoint].key;
      ghost var p := pager.pages;
      rightPageID := WriteLeafHalves(leafID, node.entries[..midpoint], node.entries[midpoint..], node.next);
      ghost var split := SplitString(here, median, rightPageID);
      LeafHalvesFit(a, b, rightPageID, node.next);
      SplitReady(p, up, here, key, a, b, rightPageID);
      ghost var p1 := pager.pages;
      ghost var all := PushUp(median, rightPageID, path, up, here, [split]);
      LeafLevelKept(p1, pager.pages, split);
      HalvesKept(p1, pager.pages, here, median, rightPageID);
      FinishShape(pager.pages, all, split);
      levels := all;
    }

    lemma {:induction false} SplitReady(p: Pages, up: seq<Spot>, here: Spot, key: Key, a: seq<Entry>, b: seq<Entry>,
                                        r: PageId)
      requires Shape(p, levels, 0) && levels[0] == [P(rootPageID)] && Route(p, levels, up + [here], key)
      requires Count(levels, here.id) <= 1 && Count(levels, r) == 0
      requires forall x :: Count(levels, x) + (if x == r then 1 else 0) == pager.InUse(x)
      requires Except(p, pager.pages, {here.id, r}) && Except(pager.pages, p, {here.id, r})
      requires a != [] && b != [] && here.id in p && p[here.id].Leaf? && p[here.id].entries == a + b
      requires LeafFits(RebuildLeaf(a, r)) && LeafFits(RebuildLeaf(b, p[here.id].next))
      requires here.id in pager.pages && pager.pages[here.id] == RebuildLeaf(a, r)
      requires r in pager.pages && pager.pages[r] == RebuildLeaf(b, p[here.id].next)
      ensures var split := SplitString(here, b[0].key, r);
              && Balanced(Strings(up) + [split])
              && Pending(pager.pages, rootPageID, up, here, [split], b[0].key, r)
              && Leaves(pager.pages, split, false, 0) && Links(pager.pages, split, 0)
              && Ordered(Expand(pager.pages, split))
              && MapOf(Expand(pager.pages, split)) == MapOf(InOrder(p, levels))
              && forall n :: Uniform(InOrder(p, levels), n) ==> Uniform(Expand(pager.pages, split), n)
    {
      LeafSplit(p, pager.pages, rootPageID, levels, up, here, key, a, b, r);
      CountLeafSplit(levels, up, here, b[0].key, r);
    }

    /** Searches the leaf again and adds the entry if there is room for it. */
    method AddEntry(leafID: PageId, key: Key, value: Value, ghost s: Spot) returns (ok: bool)
      requires Valid() && Last(levels) == SpotString(s) && s.id == leafID && Guarded(s, key)
      requires key !in Contents() && |key| + |value| + 8 <= ENTRY_CAP
      modifies pager
      ensures Valid()
      ensures leafID in old(pager.pages) && old(pager.pages[leafID].Leaf?)
      ensures ok <==> |key| + |value| + 8 <= old(Available(pager.pages[leafID]))
      ensures ok ==> leafID in pager.pages && pager.pages[leafID].Leaf?
                     && pager.pages[leafID].entries == Placed(old(pager.pages[leafID].entries), Entry(key, value))
                     && pager.pages == old(pager.pages)[leafID := pager.pages[leafID]]
      ensures Contents() == if ok then old(Contents())[key := value] else old(Contents())
      ensures Uniform(old(Sequence()), |key|) ==> Uniform(Sequence(), |key|)
    {
      hide Chain, Internals, Count, Links, Leaves, Expand, MapOf, FreeChain, Ordered, EntriesSize, Uniform;
      LeafSpot(s);
      var node := pager.pages[leafID];
      var insert := BinarySearchKeys(node, key, true);
      var needed := |key| + |value| + 8;
      if needed > Available(node) { return false; }
      ghost var p := pager.pages;
      var e := Entry(key, value);
      pager.Overwrite(leafID, InsertLeafEntry(node, e, insert));
      assert node.entries == node.entries[..insert] + node.entries[insert..];
      PlacedIs(node.entries[..insert], e, node.entries[insert..]);
      InsertSequence(p, s, node.entries[..insert], e, node.entries[insert..]);
      LeafRewritten(p, pager.pages, levels, s, 0);
      return true;
    }

    // ----- shrinking -----

    /** Writes three pages that are in use. */
    method WriteThree(x: PageId, px: Page, y: PageId, py: Page, z: PageId, pz: Page)
      requires pager.Valid() && pager.InUse(x) == pager.InUse(y) == pager.InUse(z) == 1 && x != y && x != z && y != z
      modifies pager
      ensures pager.Valid() && pager.pages == old(pager.pages)[x := px][y := py][z := pz]
      ensures forall id :: pager.InUse(id) == old(pager.InUse(id))
    {
      pager.Overwrite(x, px);
      pager.Overwrite(y, py);
      pager.Overwrite(z, pz);
    }

    ghost predicate PairInUse(a: PageId, l: PageId, r: PageId)
      reads pager
    {
      pager.InUse(a) == pager.InUse(l) == pager.InUse(r) == 1 && a != l && a != r && l != r
    }

    /** Children `i` and `i + 1` of the page at `a` are internal, in use, and all that is wrong is below half a page. */
    ghost predicate ReadyPair(up: seq<Spot>, a: Spot, i: nat, thin: PageId, rest: seq<seq<Token>>, n: nat)
      reads this, pager
    {
      pager.Valid() && InternalPair(pager.pages, rootPageID, up, a, i, thin, rest)
      && NodePair(pager.pages, a.id, i, n) && n + 8 <= ENTRY_CAP
      && (var parent := pager.pages[a.id];
          && PairInUse(a.id, parent.children[i], parent.children[i + 1])
          && PairSpot(pager.pages, a, i).id == parent.children[i]
          && Balanced(Strings(up + [a]) + ([SplitString(PairSpot(pager.pages, a, i), parent.keys[i],
             parent.children[i + 1])] + rest)))
    }

    /** The three pages of a rotation have been written: keys and children are the same in order, so the tree is. */
    lemma {:induction false} RotationDone(p: Pages, up: seq<Spot>, a: Spot, i: nat, k': Key, thin: PageId,
                                          rest: seq<seq<Token>>)
      returns (all: seq<seq<Token>>)
      requires pager.Valid() && InternalPair(p, rootPageID, up, a, i, thin, rest)
      requires HasPair(p, a, i) && PairSpot(p, a, i).id == p[a.id].children[i]
      requires var q, l, r := pager.pages, p[a.id].children[i], p[a.id].children[i + 1];
               && Except(p, q, {a.id, l, r}) && Except(q, p, {a.id, l, r})
               && l in p && p[l].Internal? && |p[l].children| == |p[l].keys| + 1
               && r in p && p[r].Internal? && |p[r].children| == |p[r].keys| + 1
               && a.id in q && q[a.id] == Internal(p[a.id].keys[i := k'], p[a.id].children) && InternalFits(q[a.id])
               && l in q && InternalFits(q[l]) && |q[l].keys| >= 1 && r in q && InternalFits(q[r]) && |q[r].keys| >= 1
               && p[l].keys + [p[a.id].keys[i]] + p[r].keys == q[l].keys + [k'] + q[r].keys
               && p[l].children + p[r].children == q[l].children + q[r].children
               && Balanced(Strings(up + [a]) + ([SplitString(PairSpot(p, a, i), p[a.id].keys[i], r)] + rest))
      ensures Balanced(all) && Finished(pager.pages, all)
      ensures |all| > |rest| && all[|all| - |rest|..] == rest && all[0] == [P(rootPageID)]
      ensures Kept(p, pager.pages, rest)
    {
      hide InternalPair, InternalRoom, Count, Strings, Finished, PairSpot, SplitString, KeysSize, FreeChain, Except,
           Kept;
      var s, r := PairSpot(p, a, i), p[a.id].children[i + 1];
      RotateTree(p, pager.pages, rootPageID, up, a, i, k', thin, rest);
      all := Strings(up + [a]) + ([SplitString(s, k', r)] + rest);
      RotateCounts(up, a, s, p[a.id].keys[i], k', r, rest);
      PairKept(p, pager.pages, rootPageID, up, a, i, thin, rest);
    }

    /** Rotates a key from the right child of the pair through the parent into the left one. */
    method RotateFromRight(parentID: PageId, i: nat, ghost up: seq<Spot>, ghost a: Spot, ghost thin: PageId,
                           ghost rest: seq<seq<Token>>, ghost n: nat)
      returns (ghost all: seq<seq<Token>>)
      requires a.id == parentID && ReadyPair(up, a, i, thin, rest, n)
      requires InternalLiveBytes(pager.pages[pager.pages[parentID].children[i]].keys) < HALF_PAGE
      requires |pager.pages[pager.pages[parentID].children[i + 1]].keys| >= 2
      modifies pager
      ensures pager.Valid() && Balanced(all) && Finished(pager.pages, all)
      ensures |all| > |rest| && all[|all| - |rest|..] == rest && all[0] == [P(rootPageID)]
      ensures Kept(old(pager.pages), pager.pages, rest)
    {
      hide InternalPair, NodePair, InternalRoom, Count, Strings, Finished, PairSpot, SplitString, KeysSize, OneLength,
           FreeChain, Except, Kept;
      ghost var p := pager.pages;
      SeparatorLengths(p, parentID, i, n);
      var parent := pager.pages[parentID];
      var nodeID, rightID := parent.children[i], parent.children[i + 1];
      var node, right := pager.pages[nodeID], pager.pages[rightID];
      var separator, ascending, movedChild := parent.keys[i], right.keys[0], right.children[0];
      RotatedRight(node, separator, right, n);
      ReplacedFits(parent, i, ascending, n);
      WriteThree(nodeID, Internal(node.keys + [separator], node.children + [movedChild]),
                 parentID, ReplaceInternalKey(parent, i, ascending),
                 rightID, DeleteInternalEntry(right, 0, 0));
      OnlyThree(p, pager.pages, parentID, nodeID, rightID);
      all := RotationDone(p, up, a, i, ascending, thin, rest);
    }

    /** Rotates a key from the left child of the pair through the parent into the right one. */
    method RotateFromLeft(parentID: PageId, i: nat, ghost up: seq<Spot>, ghost a: Spot, ghost thin: PageId,
                          ghost rest: seq<seq<Token>>, ghost n: nat)
      returns (ghost all: seq<seq<Token>>)
      requires a.id == parentID && ReadyPair(up, a, i, thin, rest, n)
      requires InternalLiveBytes(pager.pages[pager.pages[parentID].children[i + 1]].keys) < HALF_PAGE
      requires |pager.pages[pager.pages[parentID].children[i]].keys| >= 2
      modifies pager
      ensures pager.Valid() && Balanced(all) && Finished(pager.pages, all)
      ensures |all| > |rest| && all[|all| - |rest|..] == rest && all[0] == [P(rootPageID)]
      ensures Kept(old(pager.pages), pager.pages, rest)
    {
      hide InternalPair, NodePair, InternalRoom, Count, Strings, Finished, PairSpot, SplitString, KeysSize, OneLength,
           FreeChain, Except, Kept, ReplaceInternalKey;
      ghost var p := pager.pages;
      SeparatorLengths(p, parentID, i, n);
      var parent := pager.pages[parentID];
      var leftID, nodeID := parent.children[i], parent.children[i + 1];
      var left, node := pager.pages[leftID], pager.pages[nodeID];
      var lastKey := |left.keys| - 1;
      var separator, ascending, movedChild := parent.keys[i], left.keys[lastKey], left.children[|left.keys|];
      RotatedLeft(left, separator, node, n);
      ReplacedFits(parent, i, ascending, n);
      WriteThree(nodeID, Internal([separator] + node.keys, [movedChild] + node.children),
                 parentID, ReplaceInternalKey(parent, i, ascending),
                 leftID, DeleteInternalEntry(left, lastKey, |left.keys|));
      OnlyThree(p, pager.pages, parentID, leftID, nodeID);
      all := RotationDone(p, up, a, i, ascending, thin, rest);
    }

    /** Pulls the separator down between the two nodes of the pair, in the left one; the right one is freed. */
    method MergeNodes(parentID: PageId, i: nat, ghost up: seq<Spot>, ghost a: Spot, ghost thin: PageId,
                      ghost rest: seq<seq<Token>>, ghost n: nat)
      requires a.id == parentID && ReadyPair(up, a, i, thin, rest, n)
      requires InternalLiveBytes(pager.pages[pager.pages[parentID].children[i]].keys)
             + InternalLiveBytes(pager.pages[pager.pages[parentID].children[i + 1]].keys)
             + |pager.pages[parentID].keys[i]| - 1 <= PAGE_SIZE
      modifies pager
      ensures pager.Valid()
      ensures HasPair(old(pager.pages), a, i)
      ensures var now := [SpotString(PairSpot(old(pager.pages), a, i))] + rest;
              Sagging(pager.pages, rootPageID, up, a, now) && Balanced(Strings(up + [a]) + now)
      ensures Except(old(pager.pages), pager.pages,
                     {a.id, old(pager.pages[parentID]).children[i], old(pager.pages[parentID]).children[i + 1]})
      ensures Kept(old(pager.pages), pager.pages, rest)
    {
      hide InternalPair, NodePair, InternalRoom, Count, Strings, Finished, PairSpot, SplitString, KeysSize, OneLength,
           FreeChain, Sagging;
      ghost var p := pager.pages;
      SeparatorLengths(p, parentID, i, n);
      var parent := pager.pages[parentID];
      var leftID, rightID := parent.children[i], parent.children[i + 1];
      var left, right := pager.pages[leftID], pager.pages[rightID];
      var separator := parent.keys[i];
      MergedFits(left, separator, right);
      JoinedIsDelete(parent, i);
      pager.Overwrite(leftID, Internal(left.keys + [separator] + right.keys, left.children + right.children));
      pager.Overwrite(parentID, DeleteInternalEntry(parent, i, i + 1));
      pager.Release(rightID);
      MergeTree(p, pager.pages, rootPageID, up, a, i, thin, rest);
      MergeCounts(up, a, PairSpot(p, a, i), separator, rightID, rest);
      PairKept(p, pager.pages, rootPageID, up, a, i, thin, rest);
    }

    lemma {:induction false} MergeCounts(up: seq<Spot>, a: Spot, s: Spot, k: Key, r: PageId, rest: seq<seq<Token>>)
      ensures forall x :: Count(Strings(up + [a]) + ([SpotString(s)] + rest), x) + (if x == r then 1 else 0)
                       == Count(Strings(up + [a]) + ([SplitString(s, k, r)] + rest), x)
    {
      forall x ensures Count(Strings(up + [a]) + ([SpotString(s)] + rest), x) + (if x == r then 1 else 0)
                    == Count(Strings(up + [a]) + ([SplitString(s, k, r)] + rest), x)
      {
        PairCount(up, a, s, k, r, rest, x);
        JoinedCount(up, a, s, rest, x);
      }
    }

    /** A page below half full, under the spots `up` taken on the way to `key`. */
    ghost predicate SagState(key: Key, path: seq<PageId>, up: seq<Spot>, here: Spot, rest: seq<seq<Token>>, n: nat)
      reads this, pager
    {
      pager.Valid() && Sagging(pager.pages, rootPageID, up, here, rest)
      && |path| == |up| && (forall k :: 0 <= k < |path| ==> path[k] == up[k].id)
      && AllChosen(pager.pages, up, key)
      && Balanced(Strings(up + [here]) + rest)
      && Ordered(rest[0]) && Uniform(rest[0], n) && n + 8 <= ENTRY_CAP
    }

    /** The parent has lost a separator: collapse the root, repair the parent in turn, or stop. */
    method AfterMerge(parentID: PageId, key: Key, path: seq<PageId>,
                      ghost up: seq<Spot>, ghost a: Spot, ghost rest: seq<seq<Token>>, ghost n: nat)
      returns (ghost all: seq<seq<Token>>)
      requires SagState(key, path, up, a, rest, n) && a.id == parentID
      modifies this`rootPageID, pager
      ensures pager.Valid() && Balanced(all) && Finished(pager.pages, all)
      ensures |all| >= |rest| && all[|all| - |rest|..] == rest && all[0] == [P(rootPageID)]
      ensures Kept(old(pager.pages), pager.pages, rest)
      decreases |path|, 1
    {
      hide Sagging, Count, Strings, Finished, FreeChain, Ordered, Uniform, KeysSize;
      SagPage(key, path, up, a, rest, n);
      var parent := pager.pages[parentID];
      if |path| == 0 {
        if |parent.keys| == 0 {
          ghost var p := pager.pages;
          assert [] + [a] == [a];
          SaggingTop(p, rootPageID, a, rest);
          rootPageID := parent.children[0];
          pager.Release(parentID);
          CollapseKeeps(p, pager.pages, a, rest);
          return rest;
        }
        SaggingFine(pager.pages, rootPageID, up, a, rest);
        return Strings(up + [a]) + rest;
      }
      if InternalLiveBytes(parent.keys) < HALF_PAGE {
        all := RebalanceInternal(parentID, key, path, up, a, rest, n);
      } else {
        SaggingFine(pager.pages, rootPageID, up, a, rest);
        all := Strings(up + [a]) + rest;
      }
    }

    /** What is known of the page that may sag. */
    lemma {:induction false} SagPage(key: Key, path: seq<PageId>, up: seq<Spot>, here: Spot, rest: seq<seq<Token>>,
                                     n: nat)
      requires SagState(key, path, up, here, rest, n)
      ensures here.id in pager.pages && pager.pages[here.id].Internal? && InternalFits(pager.pages[here.id])
      ensures |pager.pages[here.id].children| == |pager.pages[here.id].keys| + 1
      ensures Count(Strings(up + [here]) + rest, here.id) == 1 && pager.InUse(here.id) == 1 && Count(rest, here.id) == 0
      ensures OneLength(pager.pages[here.id].keys, n) && rest != []
      ensures InternalLiveBytes(pager.pages[here.id].keys) >= HALF_PAGE ==> |pager.pages[here.id].keys| >= 1
    {
      assert P(here.id) in SpotString(here);
      CountBeside(up, here, rest, here.id);
      pager.InUseRange(here.id);
      PageKeysUniform(pager.pages, here, n);
    }

    lemma {:induction false} CollapseKeeps(p: Pages, q: Pages, a: Spot, rest: seq<seq<Token>>)
      requires Sagging(p, a.id, [], a, rest) && Except(p, q, {a.id}) && Count(rest, a.id) == 0
      ensures Finished(q, rest) && Kept(p, q, rest)
    {
      FinishedExcept(p, q, rest, {a.id});
    }

    /** Repairs an underfull internal page: rotate through the parent, or merge and go on with the parent. */
    method RebalanceInternal(nodeID: PageId, key: Key, path: seq<PageId>,
                             ghost up: seq<Spot>, ghost here: Spot, ghost rest: seq<seq<Token>>, ghost n: nat)
      returns (ghost all: seq<seq<Token>>)
      requires SagState(key, path, up, here, rest, n) && here.id == nodeID && |up| == |path| >= 1
      requires nodeID in pager.pages && pager.pages[nodeID].Internal?
               && InternalLiveBytes(pager.pages[nodeID].keys) < HALF_PAGE
      modifies this`rootPageID, pager
      ensures pager.Valid() && Balanced(all) && Finished(pager.pages, all)
      ensures |all| >= |rest| && all[|all| - |rest|..] == rest && all[0] == [P(rootPageID)]
      ensures Kept(old(pager.pages), pager.pages, rest)
      decreases |path|, 0
    {
      hide SagState, ReadyPair, Count, Strings, Finished, FreeChain, InternalFits, InternalRoom, OneLength, KeysSize,
           Kept, Balanced;
      ghost var above, a := up[..|up| - 1], up[|up| - 1];
      assert up == above + [a];
      var parentID := path[|path| - 1];
      var i, act := PlanInternal(nodeID, key, path, above, a, here, rest, n);
      match act
      case BorrowRight => all := RotateFromRight(parentID, i, above, a, nodeID, rest, n);
      case BorrowLeft => all := RotateFromLeft(parentID, i, above, a, nodeID, rest, n);
      case MergeLeft => all := MergeAndGoOn(parentID, i, key, path, above, a, here, rest, n);
      case MergeRight => all := MergeAndGoOn(parentID, i, key, path, above, a, here, rest, n);
    }

    /** Which pair of siblings to work on, the underfull node being one of them, and what to do with it. */
    method PlanInternal(nodeID: PageId, key: Key, path: seq<PageId>,
                        ghost up: seq<Spot>, ghost a: Spot, ghost here: Spot, ghost rest: seq<seq<Token>>, ghost n: nat)
      returns (i: nat, act: Action)
      requires SagState(key, path, up + [a], here, rest, n) && here.id == nodeID && |path| == |up| + 1
      requires nodeID in pager.pages && pager.pages[nodeID].Internal?
               && InternalLiveBytes(pager.pages[nodeID].keys) < HALF_PAGE
      ensures path[|up|] == a.id && ReadyPair(up, a, i, here.id, rest, n)
      ensures var l, r := pager.pages[pager.pages[a.id].children[i]], pager.pages[pager.pages[a.id].children[i + 1]];
              match act
              case BorrowRight => InternalLiveBytes(l.keys) < HALF_PAGE && |r.keys| >= 2
              case BorrowLeft => InternalLiveBytes(r.keys) < HALF_PAGE && |l.keys| >= 2
              case MergeLeft => InternalLiveBytes(l.keys) + InternalLiveBytes(r.keys) + |pager.pages[a.id].keys[i]| - 1 <= PAGE_SIZE
              case MergeRight => InternalLiveBytes(l.keys) + InternalLiveBytes(r.keys) + |pager.pages[a.id].keys[i]| - 1 <= PAGE_SIZE
    {
      hide SagState, ReadyPair, Count, Strings, Finished, FreeChain, InternalFits, InternalRoom, OneLength, KeysSize,
           Kept, Balanced;
      var parentID := path[|path| - 1];
      SagParent(key, path, up, a, here, rest, n);
      var parent, node := pager.pages[parentID], pager.pages[nodeID];
      var childIndex := BinarySearchKeys(parent, key, false);
      UpperIsUnique(parent.keys, key, childIndex, a.child);
      var left, right, sepLeft, sepRight := None, None, [], [];
      if childIndex > 0 {
        SagPair(key, path, up, a, here, rest, childIndex - 1, n);
        left, sepLeft := Some(pager.pages[parent.children[childIndex - 1]]), parent.keys[childIndex - 1];
      }
      if childIndex < |parent.keys| {
        SagPair(key, path, up, a, here, rest, childIndex, n);
        right, sepRight := Some(pager.pages[parent.children[childIndex + 1]]), parent.keys[childIndex];
      }
      act := ChooseForInternal(node, left, right, sepLeft, sepRight, n);
      i := if act.BorrowRight? || act.MergeRight? then childIndex else childIndex - 1;
    }

    /** The parent of a page that may sag: the key leads through it to that page. */
    lemma {:induction false} SagParent(key: Key, path: seq<PageId>, up: seq<Spot>, a: Spot, here: Spot,
                                       rest: seq<seq<Token>>, n: nat)
      requires SagState(key, path, up + [a], here, rest, n)
      ensures |path| == |up| + 1 && path[|up|] == a.id && a.id != 0
      ensures NodeFacts(pager.pages, a.id, n) && |pager.pages[a.id].keys| >= 1
      ensures Ascending(NodeKeys(pager.pages[a.id]))
      ensures a.child <= |pager.pages[a.id].keys| && pager.pages[a.id].children[a.child] == here.id
      ensures AtMost(pager.pages[a.id].keys[..a.child], key) && Above(pager.pages[a.id].keys[a.child..], key)
      ensures NodeFacts(pager.pages, here.id, n)
      ensures n + 8 <= ENTRY_CAP
    {
      hide Strings, Count, Finished, KeysSize, FreeChain, Expand, Ordered, Uniform, Ascending, OneLength;
      var pages := pager.pages;
      assert (up + [a])[|up|] == a && a in up + [a];
      StepsSplit(pages, up, a, here);
      assert P(a.id) in SpotString(a) && P(here.id) in SpotString(here);
      SameStringUp(pages, a, here, rest[0], n);
      PageAscending(pages, a);
      PageKeysUniform(pages, a, n);
      PageKeysUniform(pages, here, n);
      RouteUsed(up, a, here, rest);
    }

    lemma {:induction false} RouteUsed(up: seq<Spot>, a: Spot, here: Spot, rest: seq<seq<Token>>)
      requires pager.Valid() && Balanced(Strings(up + [a] + [here]) + rest)
      ensures a.id != 0
    {
      RegroupLevels(up, a, here, rest);
      CountBeside(up, a, [SpotString(here)] + rest, a.id);
      pager.InUseRange(a.id);
    }

    lemma {:induction false} SameStringUp(pages: Pages, a: Spot, here: Spot, bottom: seq<Token>, n: nat)
      requires StepDown(pages, a, here) && Expand(pages, SpotString(here)) == bottom && Ordered(bottom)
               && Uniform(bottom, n)
      ensures Expand(pages, SpotString(a)) == SpotString(here)
      ensures Ordered(SpotString(here)) && Uniform(SpotString(here), n)
    {
      StepExpands(pages, a, here);
      UniformUp(pages, SpotString(here), n);
    }

    /** A sagging page and its left or right neighbour are a pair to work on. */
    lemma {:induction false} SagPair(key: Key, path: seq<PageId>, up: seq<Spot>, a: Spot, here: Spot,
                                     rest: seq<seq<Token>>, i: nat, n: nat)
      requires SagState(key, path, up + [a], here, rest, n)
      requires a.id != 0 && a.id in pager.pages && pager.pages[a.id].Internal?
      requires i < |pager.pages[a.id].keys| && |pager.pages[a.id].children| == |pager.pages[a.id].keys| + 1
      requires i == a.child || i + 1 == a.child
      ensures ReadyPair(up, a, i, here.id, rest, n)
      ensures var l, r := pager.pages[a.id].children[i], pager.pages[a.id].children[i + 1];
              && NodeFacts(pager.pages, l, n) && NodeFacts(pager.pages, r, n) && |pager.pages[a.id].keys[i]| == n
              && l != r && (l == here.id || r == here.id)
              && (l != here.id ==> Keyed(Some(pager.pages[l]), n)) && (r != here.id ==> Keyed(Some(pager.pages[r]), n))
    {
      hide Strings, Count, Finished, KeysSize, FreeChain, Steps, InternalPair, Sagging, PairSpot, InternalRoom,
           AllChosen, OneLength;
      var p := pager.pages;
      AtMostOnce(Strings(up + [a] + [here]) + rest);
      PairFromSag(p, rootPageID, up, a, here, rest, i, n);
      SeparatorLengths(p, a.id, i, n);
      RegroupLevels(up, a, here, rest);
      PairUsed(up, a, PairSpot(p, a, i), p[a.id].keys[i], p[a.id].children[i + 1], rest);
    }

    lemma {:induction false} AtMostOnce(ls: seq<seq<Token>>)
      requires pager.Valid() && Balanced(ls)
      ensures forall x :: Count(ls, x) <= 1
    {
      forall x ensures Count(ls, x) <= 1 { pager.InUseRange(x); }
    }

    lemma {:induction false} PairUsed(up: seq<Spot>, a: Spot, s: Spot, k: Key, r: PageId, rest: seq<seq<Token>>)
      requires pager.Valid() && Balanced(Strings(up + [a]) + ([SplitString(s, k, r)] + rest))
      ensures PairInUse(a.id, s.id, r)
    {
      AtMostOnce(Strings(up + [a]) + ([SplitString(s, k, r)] + rest));
      PairApart(up, a, s, k, r, rest);
      PairCount(up, a, s, k, r, rest, a.id);
      PairCount(up, a, s, k, r, rest, s.id);
      PairCount(up, a, s, k, r, rest, r);
    }

    method MergeAndGoOn(parentID: PageId, i: nat, key: Key, path: seq<PageId>,
                        ghost up: seq<Spot>, ghost a: Spot, ghost here: Spot, ghost rest: seq<seq<Token>>, ghost n: nat)
      returns (ghost all: seq<seq<Token>>)
      requires SagState(key, path, up + [a], here, rest, n) && |path| == |up| + 1 && a.id == parentID
      requires ReadyPair(up, a, i, here.id, rest, n)
      requires InternalLiveBytes(pager.pages[pager.pages[parentID].children[i]].keys)
             + InternalLiveBytes(pager.pages[pager.pages[parentID].children[i + 1]].keys)
             + |pager.pages[parentID].keys[i]| - 1 <= PAGE_SIZE
      modifies this`rootPageID, pager
      ensures pager.Valid() && Balanced(all) && Finished(pager.pages, all)
      ensures |all| >= |rest| && all[|all| - |rest|..] == rest && all[0] == [P(rootPageID)]
      ensures Kept(old(pager.pages), pager.pages, rest)
      decreases |path| - 1, 2
    {
      hide Count, Strings, Finished, FreeChain, KeysSize, InternalPair, NodePair, PairSpot, SplitString, Sagging;
      ghost var p := pager.pages;
      SeparatorLengths(p, parentID, i, n);
      ghost var s := PairSpot(p, a, i);
      ghost var now := [SpotString(s)] + rest;
      MergeNodes(parentID, i, up, a, here.id, rest, n);
      ghost var p1 := pager.pages;
      MergedState(p, key, path, up, a, i, here, rest, n);
      all := AfterMerge(parentID, key, path[..|path| - 1], up, a, now, n);
      KeptTwice(p, p1, pager.pages, SpotString(s), rest);
      SuffixTail(all, SpotString(s), rest);
    }

    lemma {:induction false} MergedState(p: Pages, key: Key, path: seq<PageId>, up: seq<Spot>, a: Spot, i: nat,
                                         here: Spot, 
                      rest: seq<seq<Token>>, n: nat)
      requires pager.Valid() && InternalPair(p, rootPageID, up, a, i, here.id, rest)
      requires PairSpot(p, a, i).id == p[a.id].children[i]
      requires |path| == |up| + 1 && forall k :: 0 <= k < |path| ==> path[k] == (up + [a])[k].id
      requires AllChosen(p, up + [a], key) && Ordered(rest[0]) && Uniform(rest[0], n) && n + 8 <= ENTRY_CAP
      requires Except(p, pager.pages, {a.id, p[a.id].children[i], p[a.id].children[i + 1]})
      requires var now := [SpotString(PairSpot(p, a, i))] + rest;
               Sagging(pager.pages, rootPageID, up, a, now) && Balanced(Strings(up + [a]) + now)
      ensures SagState(key, path[..|path| - 1], up, a, [SpotString(PairSpot(p, a, i))] + rest, n)
    {
      hide Strings, Count, KeysSize, FreeChain, PairSpot, Expand, Steps, Internals, Chosen, Ordered, Uniform,
           SplitString;
      var s := PairSpot(p, a, i);
      var now := [SpotString(s)] + rest;
      assert AllChosen(p, up, key) by { assert forall t <- up :: t in up + [a]; }
      ChosenKept(p, pager.pages, up, key, {a.id, s.id, p[a.id].children[i + 1]});
      assert ExpandsAt(pager.pages, now, 0);
      UniformUp(pager.pages, SpotString(s), n);
    }

    lemma {:induction false} PairKept(p: Pages, q: Pages, root: PageId, up: seq<Spot>, a: Spot, i: nat, thin: PageId,
                                      rest: seq<seq<Token>>)
      requires InternalPair(p, root, up, a, i, thin, rest) && PairSpot(p, a, i).id == p[a.id].children[i]
      requires Except(p, q, {a.id, p[a.id].children[i], p[a.id].children[i + 1]})
      ensures Kept(p, q, rest)
    {
      var s, r := PairSpot(p, a, i), p[a.id].children[i + 1];
      assert Missing(rest, {a.id, s.id, r});
    }

    lemma {:induction false} RotateCounts(up: seq<Spot>, a: Spot, s: Spot, k: Key, k': Key, r: PageId,
                                          rest: seq<seq<Token>>)
      ensures forall x :: Count(Strings(up + [a]) + ([SplitString(s, k', r)] + rest), x)
                       == Count(Strings(up + [a]) + ([SplitString(s, k, r)] + rest), x)
    {
      forall x ensures Count(Strings(up + [a]) + ([SplitString(s, k', r)] + rest), x)
                    == Count(Strings(up + [a]) + ([SplitString(s, k, r)] + rest), x)
      {
        PairCount(up, a, s, k, r, rest, x);
        PairCount(up, a, s, k', r, rest, x);
      }
    }

    lemma {:induction false} SeparatorLengths(p: Pages, a: PageId, i: nat, n: nat)
      requires NodePair(p, a, i, n)
      ensures var pg := p[a];
              && pg.Internal? && InternalFits(pg) && OneLength(pg.keys, n) && i < |pg.keys|
              && |pg.children| == |pg.keys| + 1
              && |pg.keys[i]| == n
              && NodeFacts(p, pg.children[i], n) && NodeFacts(p, pg.children[i + 1], n)
    {
      var pg := p[a];
      assert pg.keys[i] in pg.keys;
    }

    ghost predicate NodeFacts(p: Pages, x: PageId, n: nat) {
      x in p && p[x].Internal? && InternalFits(p[x]) && OneLength(p[x].keys, n) && |p[x].children| == |p[x].keys| + 1
      && (p[x].keys != [] ==> |p[x].keys[0]| == n && |p[x].keys[|p[x].keys| - 1]| == n)
    }

    // ----- underfull leaves -----

    /** A tree whose leaf at `here` may be empty, with the way down to it. */
    ghost predicate LeafSag(key: Key, path: seq<PageId>, up: seq<Spot>, here: Spot, n: nat)
      reads this, pager
    {
      pager.Valid() && levels == Strings(up + [here]) && Shape(pager.pages, levels, here.id) && here.id != 0
      && SpotString((up + [here])[0]) == [P(rootPageID)] && Steps(pager.pages, up + [here])
      && |path| == |up| && (forall k :: 0 <= k < |path| ==> path[k] == up[k].id)
      && AllChosen(pager.pages, up, key)
      && Balanced(levels)
      && Uniform(InOrder(pager.pages, levels), n) && n + 8 <= ENTRY_CAP
    }

    /** Children `i` and `i + 1` of the page at `a` are leaves in use, the whole tree is as `levels` says. */
    ghost predicate ReadyLeaves(up: seq<Spot>, a: Spot, i: nat, thin: PageId, n: nat)
      reads this, pager
    {
      pager.Valid() && HasPair(pager.pages, a, i) && LeafPair(pager.pages, rootPageID, up, a, i, thin)
      && (var parent := pager.pages[a.id];
          var l, r := parent.children[i], parent.children[i + 1];
          && InternalFits(parent) && OneLength(parent.keys, n) && n + 8 <= ENTRY_CAP
          && LeafFacts(pager.pages, l, thin) && LeafFacts(pager.pages, r, thin)
          && PairInUse(a.id, l, r)
          && PairSpot(pager.pages, a, i).id == l
          && levels == Strings(up + [a]) + [SplitString(PairSpot(pager.pages, a, i), parent.keys[i], r)]
          && Balanced(levels)
          && Uniform(InOrder(pager.pages, levels), n))
    }

    method BorrowFromRight(parentID: PageId, i: nat, ghost up: seq<Spot>, ghost a: Spot, ghost thin: PageId,
                           ghost n: nat)
      requires a.id == parentID && ReadyLeaves(up, a, i, thin, n)
      requires LeafLiveBytes(pager.pages[pager.pages[parentID].children[i]].entries) < HALF_PAGE
      requires |pager.pages[pager.pages[parentID].children[i + 1]].entries| >= 2
      modifies this`levels, pager
      ensures Valid() && Contents() == old(Contents()) && Uniform(Sequence(), n)
    {
      hide LeafPair, Count, Strings, Finished, PairSpot, SplitString, KeysSize, EntriesSize, OneLength, FreeChain,
           InternalRoom,
           LeafRoom, Uniform, MapOf, Expand, Shape, Leaves, Links, Ordered;
      ghost var p := pager.pages;
      var parent := pager.pages[parentID];
      var leafID, rightID := parent.children[i], parent.children[i + 1];
      var leaf, right := pager.pages[leafID], pager.pages[rightID];
      var buffer := right.entries[0];
      BorrowedRight(leaf, right);
      var leaf' := InsertLeafEntry(RebuildLeaf(leaf.entries, leaf.next), buffer, |leaf.entries|);
      var right' := DeleteLeafEntry(right, 0);
      var sep := right'.entries[0].key;
      assert right'.entries[0] == right.entries[1];
      LeafKeyLength(p, PairSpot(p, a, i), parent.keys[i], rightID, rightID, right.entries[1], n);
      ReplacedFits(parent, i, sep, n);
      WriteThree(leafID, leaf', rightID, right', parentID, ReplaceInternalKey(parent, i, sep));
      BorrowTree(p, pager.pages, rootPageID, up, a, i, thin);
      BorrowCounts(up, a, PairSpot(p, a, i), parent.keys[i], sep, rightID);
      levels := Strings(up + [a]) + [SplitString(PairSpot(p, a, i), sep, rightID)];
      FinishShape(pager.pages, levels, SplitString(PairSpot(p, a, i), sep, rightID));
    }

    method BorrowFromLeft(parentID: PageId, i: nat, ghost up: seq<Spot>, ghost a: Spot, ghost thin: PageId,
                          ghost n: nat)
      requires a.id == parentID && ReadyLeaves(up, a, i, thin, n)
      requires LeafLiveBytes(pager.pages[pager.pages[parentID].children[i + 1]].entries) < HALF_PAGE
      requires |pager.pages[pager.pages[parentID].children[i]].entries| >= 2
      modifies this`levels, pager
      ensures Valid() && Contents() == old(Contents()) && Uniform(Sequence(), n)
    {
      hide LeafPair, Count, Strings, Finished, PairSpot, SplitString, KeysSize, EntriesSize, OneLength, FreeChain,
           InternalRoom,
           LeafRoom, Uniform, MapOf, Expand, Shape, Leaves, Links, Ordered;
      ghost var p := pager.pages;
      var parent := pager.pages[parentID];
      var leftID, leafID := parent.children[i], parent.children[i + 1];
      var left, leaf := pager.pages[leftID], pager.pages[leafID];
      var last := |left.entries| - 1;
      var buffer := left.entries[last];
      BorrowedLeft(left, leaf);
      var left' := DeleteLeafEntry(left, last);
      var leaf' := InsertLeafEntry(RebuildLeaf(leaf.entries, leaf.next), buffer, 0);
      LeafKeyLength(p, PairSpot(p, a, i), parent.keys[i], leafID, leftID, buffer, n);
      ReplacedFits(parent, i, buffer.key, n);
      WriteThree(leftID, left', leafID, leaf', parentID, ReplaceInternalKey(parent, i, buffer.key));
      BorrowTree(p, pager.pages, rootPageID, up, a, i, thin);
      BorrowCounts(up, a, PairSpot(p, a, i), parent.keys[i], buffer.key, leafID);
      levels := Strings(up + [a]) + [SplitString(PairSpot(p, a, i), buffer.key, leafID)];
      FinishShape(pager.pages, levels, SplitString(PairSpot(p, a, i), buffer.key, leafID));
    }

    /** All entries of the pair go to the left leaf; the right one is freed. */
    method MergeLeaves(parentID: PageId, i: nat, ghost up: seq<Spot>, ghost a: Spot, ghost thin: PageId, ghost n: nat)
      requires a.id == parentID && ReadyLeaves(up, a, i, thin, n)
      requires LeafLiveBytes(pager.pages[pager.pages[parentID].children[i]].entries)
             + LeafLiveBytes(pager.pages[pager.pages[parentID].children[i + 1]].entries) - SLOT_START <= PAGE_SIZE
      modifies pager
      ensures pager.Valid()
      ensures var now := SpotString(PairSpot(old(pager.pages), a, i));
              && Sagging(pager.pages, rootPageID, up, a, [now]) && Balanced(Strings(up + [a]) + [now])
              && LeafLevel(pager.pages, now) && MapOf(Expand(pager.pages, now)) == old(Contents())
              && Uniform(Expand(pager.pages, now), n)
      ensures Except(old(pager.pages), pager.pages,
                     {a.id, old(pager.pages[parentID]).children[i], old(pager.pages[parentID]).children[i + 1]})
    {
      hide LeafPair, Count, Strings, Finished, PairSpot, SplitString, KeysSize, EntriesSize, OneLength, FreeChain,
           InternalRoom,
           LeafRoom, Uniform, MapOf, Expand, Shape, Sagging, LeafLevel;
      ghost var p := pager.pages;
      var parent := pager.pages[parentID];
      var leftID, rightID := parent.children[i], parent.children[i + 1];
      var left, right := pager.pages[leftID], pager.pages[rightID];
      MergedLeafFits(left, right, right.next);
      JoinedIsDelete(parent, i);
      pager.Overwrite(leftID, RebuildLeaf(left.entries + right.entries, right.next));
      pager.Overwrite(parentID, DeleteInternalEntry(parent, i, i + 1));
      pager.Release(rightID);
      MergeLeavesTree(p, pager.pages, rootPageID, up, a, i, thin);
      ghost var s := PairSpot(p, a, i);
      MergeCounts(up, a, s, parent.keys[i], rightID, []);
      assert [SpotString(s)] + [] == [SpotString(s)];
      assert [SplitString(s, parent.keys[i], rightID)] + [] == [SplitString(s, parent.keys[i], rightID)];
    }

    /** Merges two leaves and lets the parent take the loss of a separator. */
    method MergeLeavesAndGoOn(parentID: PageId, i: nat, key: Key, path: seq<PageId>,
                              ghost up: seq<Spot>, ghost a: Spot, ghost here: Spot, ghost n: nat)
      requires a.id == parentID && ReadyLeaves(up, a, i, here.id, n) && LeafSag(key, path, up + [a], here, n)
      requires LeafLiveBytes(pager.pages[pager.pages[parentID].children[i]].entries)
             + LeafLiveBytes(pager.pages[pager.pages[parentID].children[i + 1]].entries) - SLOT_START <= PAGE_SIZE
      modifies this, pager
      ensures Valid() && Contents() == old(Contents()) && Uniform(Sequence(), n)
    {
      hide LeafPair, Count, Strings, Finished, PairSpot, SplitString, SpotString, KeysSize, EntriesSize, FreeChain,
           Sagging,
           Uniform, MapOf, Expand, Shape, Leaves, Links, Ordered, Kept, Steps, AllChosen;
      ghost var p := pager.pages;
      ghost var now := SpotString(PairSpot(p, a, i));
      MergeLeaves(parentID, i, up, a, here.id, n);
      MergedLeafState(p, key, path, up, a, i, here, n);
      ghost var p1 := pager.pages;
      ghost var all := AfterMerge(parentID, key, path[..|path| - 1], up, a, [now], n);
      LeafLevelKept(p1, pager.pages, now);
      FinishShape(pager.pages, all, now);
      levels := all;
    }

    lemma {:induction false} MergedLeafState(p: Pages, key: Key, path: seq<PageId>, up: seq<Spot>, a: Spot, i: nat,
                                             here: Spot, n: nat)
      requires pager.Valid() && HasPair(p, a, i) && LeafPair(p, rootPageID, up, a, i, here.id)
      requires PairSpot(p, a, i).id == p[a.id].children[i]
      requires |path| == |up| + 1 && forall k :: 0 <= k < |path| ==> path[k] == (up + [a])[k].id
      requires AllChosen(p, up + [a], key) && n + 8 <= ENTRY_CAP
      requires Except(p, pager.pages, {a.id, p[a.id].children[i], p[a.id].children[i + 1]})
      requires var now := SpotString(PairSpot(p, a, i));
               && Sagging(pager.pages, rootPageID, up, a, [now]) && Balanced(Strings(up + [a]) + [now])
               && LeafLevel(pager.pages, now) && Uniform(Expand(pager.pages, now), n)
      ensures SagState(key, path[..|path| - 1], up, a, [SpotString(PairSpot(p, a, i))], n)
    {
      hide Strings, Count, KeysSize, FreeChain, PairSpot, Expand, Steps, Internals, Chosen, Ordered, Uniform,
           SplitString, Links, Leaves;
      var s := PairSpot(p, a, i);
      assert AllChosen(p, up, key) by { assert forall t <- up :: t in up + [a]; }
      ChosenKept(p, pager.pages, up, key, {a.id, s.id, p[a.id].children[i + 1]});
      UniformUp(pager.pages, SpotString(s), n);
    }

    /** Repairs an underfull leaf with a sibling under the same parent. */
    method RebalanceLeaf(leafID: PageId, key: Key, path: seq<PageId>, ghost up: seq<Spot>, ghost here: Spot,
                         ghost n: nat)
      requires LeafSag(key, path, up, here, n) && here.id == leafID && |path| == |up| >= 1
      requires leafID in pager.pages && pager.pages[leafID].Leaf? && LeafFits(pager.pages[leafID])
      requires LeafLiveBytes(pager.pages[leafID].entries) < HALF_PAGE
      modifies this, pager
      ensures Valid() && Contents() == old(Contents()) && Uniform(Sequence(), n)
    {
      hide LeafSag, ReadyLeaves, Count, Strings, Finished, FreeChain, InternalRoom, LeafRoom, OneLength, KeysSize,
           EntriesSize,
           Uniform, MapOf, Shape, Balanced;
      ghost var above, a := up[..|up| - 1], up[|up| - 1];
      assert up == above + [a];
      var parentID := path[|path| - 1];
      var i, act := PlanLeaf(leafID, key, path, above, a, here, n);
      match act
      case BorrowRight => BorrowFromRight(parentID, i, above, a, leafID, n);
      case BorrowLeft => BorrowFromLeft(parentID, i, above, a, leafID, n);
      case MergeLeft => MergeLeavesAndGoOn(parentID, i, key, path, above, a, here, n);
      case MergeRight => MergeLeavesAndGoOn(parentID, i, key, path, above, a, here, n);
    }

    /** Which pair of leaves to work on, the underfull one being one of them, and what to do with it. */
    method PlanLeaf(leafID: PageId, key: Key, path: seq<PageId>, ghost up: seq<Spot>, ghost a: Spot, ghost here: Spot,
                    ghost n: nat)
      returns (i: nat, act: Action)
      requires LeafSag(key, path, up + [a], here, n) && here.id == leafID && |path| == |up| + 1
      requires leafID in pager.pages && pager.pages[leafID].Leaf? && LeafFits(pager.pages[leafID])
      requires LeafLiveBytes(pager.pages[leafID].entries) < HALF_PAGE
      ensures path[|up|] == a.id && ReadyLeaves(up, a, i, here.id, n)
      ensures var l, r := pager.pages[pager.pages[a.id].children[i]], pager.pages[pager.pages[a.id].children[i + 1]];
              match act
              case BorrowRight => LeafLiveBytes(l.entries) < HALF_PAGE && |r.entries| >= 2
              case BorrowLeft => LeafLiveBytes(r.entries) < HALF_PAGE && |l.entries| >= 2
              case MergeLeft => LeafLiveBytes(l.entries) + LeafLiveBytes(r.entries) - SLOT_START <= PAGE_SIZE
              case MergeRight => LeafLiveBytes(l.entries) + LeafLiveBytes(r.entries) - SLOT_START <= PAGE_SIZE
    {
      hide LeafSag, ReadyLeaves, Count, Strings, Finished, FreeChain, InternalRoom, LeafRoom, OneLength, KeysSize,
           EntriesSize,
           Uniform, MapOf, Shape, Balanced;
      var parentID := path[|path| - 1];
      LeafParent(key, path, up, a, here, n);
      var parent, leaf := pager.pages[parentID], pager.pages[leafID];
      var childIndex := BinarySearchKeys(parent, key, false);
      UpperIsUnique(parent.keys, key, childIndex, a.child);
      var left, right := None, None;
      if childIndex > 0 {
        LeafSiblings(key, path, up, a, here, childIndex - 1, n);
        left := Some(pager.pages[parent.children[childIndex - 1]]);
      }
      if childIndex < |parent.keys| {
        LeafSiblings(key, path, up, a, here, childIndex, n);
        right := Some(pager.pages[parent.children[childIndex + 1]]);
      }
      act := ChooseForLeaf(leaf, left, right);
      i := if act.BorrowRight? || act.MergeRight? then childIndex else childIndex - 1;
    }

    lemma {:induction false} LeafParent(key: Key, path: seq<PageId>, up: seq<Spot>, a: Spot, here: Spot, n: nat)
      requires LeafSag(key, path, up + [a], here, n)
      ensures |path| == |up| + 1 && path[|up|] == a.id && a.id != 0
      ensures NodeFacts(pager.pages, a.id, n) && |pager.pages[a.id].keys| >= 1
      ensures Ascending(NodeKeys(pager.pages[a.id]))
      ensures a.child <= |pager.pages[a.id].keys| && pager.pages[a.id].children[a.child] == here.id
      ensures AtMost(pager.pages[a.id].keys[..a.child], key) && Above(pager.pages[a.id].keys[a.child..], key)
    {
      hide Strings, Count, Finished, KeysSize, FreeChain, Expand, Ordered, Uniform, Ascending, OneLength, Links, Leaves,
           Chain;
      var pages := pager.pages;
      assert (up + [a])[|up|] == a && a in up + [a];
      StepsSplit(pages, up, a, here);
      assert P(a.id) in SpotString(a);
      StringsAt(up + [a] + [here], |up| + 1);
      SameStringUp(pages, a, here, Expand(pages, SpotString(here)), n);
      PageAscending(pages, a);
      PageKeysUniform(pages, a, n);
      assert Strings(up + [a] + [here]) + [] == levels;
      RouteUsed(up, a, here, []);
    }

    lemma {:induction false} LeafSiblings(key: Key, path: seq<PageId>, up: seq<Spot>, a: Spot, here: Spot, i: nat,
                                          n: nat)
      requires LeafSag(key, path, up + [a], here, n) && a.id != 0 && HasPair(pager.pages, a, i)
      requires i == a.child || i + 1 == a.child
      ensures ReadyLeaves(up, a, i, here.id, n)
      ensures var l, r := pager.pages[a.id].children[i], pager.pages[a.id].children[i + 1];
              && LeafFacts(pager.pages, l, here.id) && LeafFacts(pager.pages, r, here.id)
              && l != r && (l == here.id || r == here.id)
    {
      hide Strings, Count, Finished, KeysSize, FreeChain, Steps, LeafPair, PairSpot, InternalRoom, AllChosen, OneLength,
           Shape,
           Uniform, LeafRoom, Expand;
      var p := pager.pages;
      AtMostOnce(levels);
      StringsLast(up + [a], here);
      PairFromLeaf(p, rootPageID, up, a, here, i, n);
      var s, k, r := PairSpot(p, a, i), p[a.id].keys[i], p[a.id].children[i + 1];
      assert [SplitString(s, k, r)] + [] == [SplitString(s, k, r)];
      PairUsed(up, a, s, k, r, []);
    }

    lemma {:induction false} LeafKeyLength(p: Pages, s: Spot, k: Key, r: PageId, x: PageId, e: Entry, n: nat)
      requires (x == s.id || x == r) && x in p && p[x].Leaf? && e in p[x].entries
      requires Uniform(Expand(p, SplitString(s, k, r)), n)
      ensures |e.key| == n
    {
      var at := if x == s.id then Spot(s.left, x, [K(k), P(r)] + s.right, 0)
          else Spot(s.left + [P(s.id), K(k)], x, s.right, 0);
      assert SpotString(at) == SplitString(s, k, r);
      LeafEntriesInTree(p, at, e);
      assert E(e) in Expand(p, SplitString(s, k, r));
    }

    lemma {:induction false} BorrowCounts(up: seq<Spot>, a: Spot, s: Spot, k: Key, k': Key, r: PageId)
      ensures forall x :: Count(Strings(up + [a]) + [SplitString(s, k', r)], x) == Count(Strings(up + [a]) + [SplitString(s, k, r)], x)
    {
      RotateCounts(up, a, s, k, k', r, []);
      assert [SplitString(s, k, r)] + [] == [SplitString(s, k, r)];
      assert [SplitString(s, k', r)] + [] == [SplitString(s, k', r)];
    }

    // ----- the operations -----

    /**
      * Adds an entry. A key that is there already and an entry over the cap are
      * refused. An entry below the cap can still be refused after its leaf was
      * split, when the half it belongs to has no room; never if all entries take
      * at most 1021 bytes.
      */
    method Insert(key: Key, value: Value) returns (r: InsertResult)
      requires Valid()
      modifies this, pager
      ensures Valid()
      ensures Contents() == if r.Inserted? then old(Contents())[key := value] else old(Contents())
      ensures Uniform(old(Sequence()), |key|) ==> Uniform(Sequence(), |key|)
      ensures r.DuplicateKey? <==> |key| + |value| + 8 <= ENTRY_CAP && key in old(Contents())
      ensures r.EntryTooLarge? <==>
        |key| + |value| + 8 > ENTRY_CAP
            || (key !in old(Contents()) && Refused(old(LeafEntries(key)), key, |key| + |value| + 8))
      ensures |key| + |value| + 8 <= 1021 && EntriesWithin(old(Sequence()), 1021) ==> !r.EntryTooLarge?
      ensures r.Inserted? && |key| + |value| + 8 <= PAGE_SIZE - LeafLiveBytes(old(LeafEntries(key))) ==>
        levels == old(levels) && LeafEntries(key) == Placed(old(LeafEntries(key)), Entry(key, value))
    {
      hide Shape, Route, Count, Expand, MapOf, FreeChain, Ordered, EntriesSize, LeafFits, LeafRoom, SplitString,
           SpotString,
           HalfSpot, Uniform, Refused, Placed, PageBelow, EntriesWithin, BTree.Contents, Balanced, NodeKeys, Ascending;
      if |key| + |value| + 8 > ENTRY_CAP {
        return EntryTooLarge;
      }
      var leafPageID, path, up, here := FindLeaf(key);
      var node := pager.pages[leafPageID];
      var insert := BinarySearchKeys(node, key, true);
      LeafHolds(up, here, key, insert);
      if insert < |node.entries| && node.entries[insert].key == key {
        return DuplicateKey;
      }
      RouteLeaf(pager.pages, levels, up, here, key, rootPageID);
      ghost var p := pager.pages;
      var target, spot := MakeRoom(leafPageID, node, |key| + |value| + 8, key, path, up, here);
      // The second search of the source cannot find the key: compacting and splitting keep the contents.
      ghost var q := pager.pages;
      var ok := AddEntry(target, key, value, spot);
      if ok && |key| + |value| + 8 <= PAGE_SIZE - LeafLiveBytes(node.entries) {
        PageBelowKept(p, target, q[target], rootPageID, key, |levels| - 1);
        PageBelowKept(q, target, pager.pages[target], rootPageID, key, |levels| - 1);
      }
      return if ok then Inserted else EntryTooLarge;
    }

    /** Compacts or splits the leaf when the gap is too small for the entry, and says which leaf takes it. */
    method MakeRoom(leafPageID: PageId, node: Page, needed: nat, key: Key, path: seq<PageId>, ghost up: seq<Spot>,
                    ghost here: Spot)
      returns (target: PageId, ghost spot: Spot)
      requires Valid() && Route(pager.pages, levels, up + [here], key) && leafPageID == here.id && needed <= ENTRY_CAP
      requires |path| == |up| && forall k :: 0 <= k < |path| ==> path[k] == up[k].id
      requires leafPageID in pager.pages && node == pager.pages[leafPageID] && node.Leaf? && LeafFits(node)
      modifies this, pager
      ensures Valid() && Contents() == old(Contents())
      ensures forall n :: Uniform(old(Sequence()), n) ==> Uniform(Sequence(), n)
      ensures Last(levels) == SpotString(spot) && spot.id == target && Guarded(spot, key)
      ensures target in pager.pages && pager.pages[target].Leaf?
      ensures needed <= 1021 && EntriesWithin(old(Sequence()), 1021) ==> needed <= Available(pager.pages[target])
      ensures needed <= Available(pager.pages[target]) <==> !Refused(node.entries, key, needed)
      ensures needed <= Available(node) ==> pager.pages == old(pager.pages)
      ensures needed <= PAGE_SIZE - LeafLiveBytes(node.entries) ==>
        && target == leafPageID && levels == old(levels) && rootPageID == old(rootPageID)
        && pager.pages[target].entries == node.entries && pager.pages == old(pager.pages)[target := pager.pages[target]]
    {
      hide Shape, Route, Count, Expand, MapOf, FreeChain, Ordered, EntriesSize, LeafFits, LeafRoom, SplitString,
           SpotString,
           HalfSpot, Uniform;
      RouteEnd(pager.pages, levels, up, here, key);
      LeafSpot(here);
      target, spot := leafPageID, here;
      GapWithin(node);
      if needed > Available(node) {
        if needed <= PAGE_SIZE - LeafLiveBytes(node.entries) {
          CompactLeaf(leafPageID, here);
        } else {
          var median, rightPageID, a, b := SplitLeaf(leafPageID, node, path, up, here, key);
          HalfIs(a, b, key);
          HalfGuarded(here, median, rightPageID, key);
          if needed <= 1021 && EntrySize(b[0]) <= 1021 { PendingEntryFits(a, b, needed); }
          assert b[0] in a + b;
          spot := HalfSpot(here, median, rightPageID, key);
          var c := Compare(key, median);
          if c >= 0 { target := rightPageID; }
        }
      }
    }

    /** Rewrites a leaf from its own live entries. */
    method CompactLeaf(leafID: PageId, ghost s: Spot)
      requires Valid() && Last(levels) == SpotString(s) && s.id == leafID
      modifies pager
      ensures Valid() && Contents() == old(Contents()) && Sequence() == old(Sequence())
      ensures leafID in old(pager.pages) && old(pager.pages[leafID]).Leaf?
      ensures pager.pages == old(pager.pages)[leafID := RebuildLeaf(old(pager.pages[leafID]).entries,
              old(pager.pages[leafID]).next)]
    {
      hide Chain, Internals, Count, Links, Leaves, Expand, MapOf, FreeChain, Ordered, EntriesSize;
      LeafSpot(s);
      ghost var p := pager.pages;
      var node := pager.pages[leafID];
      pager.Overwrite(leafID, RebuildLeaf(node.entries, node.next));
      ExpandAround(p, s.left, s.id, s.right);
      LeafRewritten(p, pager.pages, levels, s, 0);
    }

    /** Without the key its leaf is still half full, or is the root: nothing needs rebalancing. */
    ghost predicate StaysFilled(key: Key)
      requires levels != []
      reads this, pager
    {
      |levels| == 1
          || (key in Contents() ==> HALF_PAGE + |key| + |Contents()[key]| + 8 <= LeafLiveBytes(LeafEntries(key)))
    }

    /**
      * Removes a key. Where that calls for rebalancing, all keys of the tree have
      * the same length `n`, as the 8-byte keys of integer columns do: a separator
      * that is replaced by a longer one is not checked to fit, and only then does
      * every donor keep a separator.
      */
    method Delete(key: Key, ghost n: nat) returns (r: DeleteResult)
      requires Valid() && (Uniform(Sequence(), n) || StaysFilled(key))
      modifies this, pager
      ensures Valid() && (Uniform(old(Sequence()), n) ==> Uniform(Sequence(), n))
      ensures r.Deleted? <==> key in old(Contents())
      ensures Contents() == old(Contents()) - {key}
    {
      hide Shape, Route, Count, Expand, MapOf, FreeChain, Ordered, EntriesSize, LeafRoom, SpotString, Uniform, Strings,
           LeafSag, PageBelow;
      var leafPageID, path, up, here := FindLeaf(key);
      var node := pager.pages[leafPageID];
      var insert := BinarySearchKeys(node, key, true);
      LeafHolds(up, here, key, insert);
      if insert >= |node.entries| || node.entries[insert].key != key {
        return KeyNotFound;
      }
      RouteEnd(pager.pages, levels, up, here, key);
      RouteLeaf(pager.pages, levels, up, here, key, rootPageID);
      LeafSpot(here);
      ghost var p := pager.pages;
      var node' := DeleteLeafEntry(node, insert);
      pager.Overwrite(leafPageID, node');
      EntryRemoved(p, key, path, up, here, insert, n);
      if |path| == 0 || LeafLiveBytes(node'.entries) >= HALF_PAGE {
        return Deleted;
      }
      RebalanceLeaf(leafPageID, key, path, up, here, n);
      return Deleted;
    }

    lemma {:induction false} EntryRemoved(p: Pages, key: Key, path: seq<PageId>, up: seq<Spot>, here: Spot, slot: nat,
                                          n: nat)
      requires pager.Valid() && Shape(p, levels, 0) && levels[0] == [P(rootPageID)] && Balanced(levels)
      requires Route(p, levels, up + [here], key) && Last(levels) == SpotString(here) && Count(levels, here.id) == 1
      requires |path| == |up| && forall k :: 0 <= k < |path| ==> path[k] == up[k].id
      requires here.id in p && LeafFits(p[here.id]) && slot < |p[here.id].entries|
               && p[here.id].entries[slot].key == key
      requires pager.pages == p[here.id := DeleteLeafEntry(p[here.id], slot)]
      ensures MapOf(InOrder(pager.pages, levels)) == MapOf(InOrder(p, levels)) - {key}
      ensures Uniform(InOrder(p, levels), n)
              ==> Uniform(InOrder(pager.pages, levels), n) && LeafSag(key, path, up, here, n)
      ensures |path| == 0 || LeafLiveBytes(DeleteLeafEntry(p[here.id], slot).entries) >= HALF_PAGE ==> Valid()
    {
      hide Shape, Route, Count, Expand, MapOf, FreeChain, Ordered, EntriesSize, SpotString, Uniform, Strings, Steps,
           AllChosen;
      var q := pager.pages;
      var es := p[here.id].entries;
      assert es == es[..slot] + [es[slot]] + es[slot + 1..];
      ShapeParts(p, levels, 0);
      RemoveSequence(p, here, es[..slot], es[slot], es[slot + 1..]);
      UsedNotZero(here.id);
      LeafRewritten(p, q, levels, here, here.id);
      if Uniform(InOrder(p, levels), n) { KeyFits(p, here, es[slot], n); }
      RouteAfter(p, q, up, here, key);
      RouteEnd(p, levels, up, here, key);
      if |path| == 0 || LeafLiveBytes(q[here.id].entries) >= HALF_PAGE {
        NonEmpty(q[here.id].entries);
        LeafRewritten(p, q, levels, here, 0);
      }
    }

    lemma {:induction false} UsedNotZero(x: PageId)
      requires pager.Valid() && Balanced(levels) && Count(levels, x) == 1
      ensures x != 0
    {
      pager.InUseRange(x);
    }

    lemma {:induction false} NonEmpty(es: seq<Entry>)
      ensures LeafLiveBytes(es) >= HALF_PAGE ==> es != []
    {
    }

    lemma {:induction false} KeyFits(p: Pages, s: Spot, e: Entry, n: nat)
      requires s.id in p && p[s.id].Leaf? && LeafFits(p[s.id]) && e in p[s.id].entries
               && Uniform(Expand(p, SpotString(s)), n)
      ensures |e.key| == n && n + 8 <= ENTRY_CAP
    {
      LeafEntriesInTree(p, s, e);
    }

    /** The way down does not change when only the leaf it ends in does. */
    lemma {:induction false} RouteAfter(p: Pages, q: Pages, up: seq<Spot>, here: Spot, key: Key)
      requires Shape(p, levels, 0) && levels[0] == [P(rootPageID)] && Route(p, levels, up + [here], key)
      requires Count(levels, here.id) == 1 && Except(p, q, {here.id})
      ensures levels == Strings(up + [here]) && SpotString((up + [here])[0]) == [P(rootPageID)]
      ensures Steps(q, up + [here]) && AllChosen(q, up, key)
    {
      hide Shape, Count, Expand, Ordered, Strings, Steps;
      RouteSteps(p, levels, 0, up, here, key);
      assert levels + [] == levels;
      CountOnRoute(up, here, []);
      StepsExcept(p, q, up, here, {here.id});
      assert (up + [here])[..|up|] == up;
      ChosenKept(p, q, up, key, {here.id});
    }

    method Get(key: Key) returns (r: Lookup)
      requires Valid()
      ensures r == if key in Contents() then Found(Contents()[key]) else NotFound
    {
      var leaf, path, up, here := FindLeaf(key);
      var node := pager.pages[leaf];
      var insert := BinarySearchKeys(node, key, true);
      LeafHolds(up, here, key, insert);
      if insert < |node.entries| && node.entries[insert].key == key {
        return Found(node.entries[insert].value);
      }
      return NotFound;
    }

    /** The leaf a key leads to decides whether the tree holds the key. */
    lemma {:induction false} LeafHolds(up: seq<Spot>, here: Spot, key: Key, slot: nat)
      requires Valid() && Route(pager.pages, levels, up + [here], key)
      requires here.id in pager.pages && pager.pages[here.id].Leaf? && slot <= |pager.pages[here.id].entries|
      requires AllBelow(pager.pages[here.id].entries[..slot], key)
      requires AllNotBelow(pager.pages[here.id].entries[slot..], key)
      ensures var es := pager.pages[here.id].entries;
              var hit := slot < |es| && es[slot].key == key;
              && (hit <==> key in Contents())
              && (hit ==> Contents()[key] == es[slot].value)
    {
      RouteEnd(pager.pages, levels, up, here, key);
      LeafDecides(pager.pages, here, key, slot);
    }
  }
}
