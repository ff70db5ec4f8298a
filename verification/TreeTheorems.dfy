/** What a valid tree promises, said without its internals. */
module TreeTheorems {
  import opened Keys
  import opened Nodes
  import opened Levels
  import opened Trees
  import opened Growth
  import opened Pagers
  import opened BTrees
  import opened Routing
  import Scans

  // ----- the search-tree property -----

  /** The string below `s`, `d` levels further down. */
  ghost function Below(pages: Pages, s: seq<Token>, d: nat): seq<Token>
    decreases d
  {
    if d == 0 then s else Below(pages, Expand(pages, s), d - 1)
  }

  lemma {:induction false} BelowConcat(pages: Pages, a: seq<Token>, b: seq<Token>, d: nat)
    ensures Below(pages, a + b, d) == Below(pages, a, d) + Below(pages, b, d)
    decreases d
  {
    if d > 0 {
      ExpandConcat(pages, a, b);
      BelowConcat(pages, Expand(pages, a), Expand(pages, b), d - 1);
    }
  }

  lemma {:induction false} BelowKeeps(pages: Pages, s: seq<Token>, t: Token, d: nat)
    requires t in s && !t.P?
    ensures t in Below(pages, s, d)
    decreases d
  {
    if d > 0 {
      ExpandHas(pages, s, t);
      BelowKeeps(pages, Expand(pages, s), t, d - 1);
    }
  }

  lemma {:induction false} ExpandHas(pages: Pages, s: seq<Token>, t: Token)
    requires t in s && !t.P?
    ensures t in Expand(pages, s)
  {
    if t != s[0] { ExpandHas(pages, s[1..], t); }
  }

  lemma {:induction false} BelowLevel(pages: Pages, ls: seq<seq<Token>>, k: nat)
    requires Chain(pages, ls) && k < |ls|
    ensures Below(pages, ls[k], |ls| - k) == InOrder(pages, ls)
    decreases |ls| - k
  {
    if k + 1 < |ls| {
      assert ExpandsAt(pages, ls, k);
      BelowLevel(pages, ls, k + 1);
    } else {
      assert Below(pages, Expand(pages, ls[k]), 0) == Expand(pages, ls[k]);
    }
  }

  /** A pages' own string, its child `i` cut out. */
  lemma {:induction false} NodeBelow(pages: Pages, a: Spot, i: nat, d: nat)
    requires a.id in pages && InternalFits(pages[a.id]) && i < |pages[a.id].children|
    ensures var b := ChildSpot(pages, a.(child := i));
            Below(pages, SpotString(a), d + 1)
                == Below(pages, b.left, d) + Below(pages, [P(b.id)], d) + Below(pages, b.right, d)
  {
    var b := ChildSpot(pages, a.(child := i));
    StepExpands(pages, a.(child := i), b);
    BelowConcat(pages, b.left + [P(b.id)], b.right, d);
    BelowConcat(pages, b.left, [P(b.id)], d);
  }

  /** Every entry below child `i` is at least separator `i - 1` and less than separator `i`. */
  lemma {:induction false} ChildRange(t: BTree, k: nat, a: Spot, i: nat, e: Entry)
    requires t.Valid() && k + 1 < |t.levels| && t.levels[k] == SpotString(a)
    requires a.id in t.pager.pages && InternalFits(t.pager.pages[a.id]) && i < |t.pager.pages[a.id].children|
    requires E(e) in Below(t.pager.pages, [P(t.pager.pages[a.id].children[i])], |t.levels| - k - 1)
    ensures i > 0 ==> !Less(e.key, t.pager.pages[a.id].keys[i - 1])
    ensures i < |t.pager.pages[a.id].keys| ==> Less(e.key, t.pager.pages[a.id].keys[i])
  {
    hide Expand, Below, Ordered, Internals, Leaves, Links, Count, FreeChain, SpotString, InternalFits, KeysSize;
    var pages, d := t.pager.pages, |t.levels| - k - 1;
    BelowLevel(pages, t.levels, k);
    NodeBelow(pages, a, i, d);
    ChildBetween(pages, a.(child := i), e, d);
  }

  lemma {:induction false} ChildBetween(pages: Pages, a: Spot, e: Entry, d: nat)
    requires a.id in pages && InternalFits(pages[a.id]) && a.child < |pages[a.id].children|
    requires var b := ChildSpot(pages, a);
             Ordered(Below(pages, b.left, d) + Below(pages, [P(b.id)], d) + Below(pages, b.right, d))
             && E(e) in Below(pages, [P(b.id)], d)
    ensures var ks, i := pages[a.id].keys, a.child;
            (i > 0 ==> !Less(e.key, ks[i - 1])) && (i < |ks| ==> Less(e.key, ks[i]))
  {
    hide Expand, Below;
    var Internal(ks, cs) := pages[a.id];
    var i, b := a.child, ChildSpot(pages, a);
    var bl, bm, br := Below(pages, b.left, d), Below(pages, [P(b.id)], d), Below(pages, b.right, d);
    OrderedConcat(bl + bm, br);
    OrderedConcat(bl, bm);
    if i > 0 {
      assert ks[i - 1] in ks[..i];
      BeforeHas(ks[..i], cs[..i], ks[i - 1]);
      BelowKeeps(pages, b.left, K(ks[i - 1]), d);
      assert Precedes(K(ks[i - 1]), E(e));
      LtIsLess(e.key, ks[i - 1]);
      LtTotal(e.key, ks[i - 1]);
    }
    if i < |ks| {
      assert ks[i] in ks[i..];
      AfterHas(ks[i..], cs[i + 1..], ks[i]);
      BelowKeeps(pages, b.right, K(ks[i]), d);
      assert E(e) in bl + bm && Precedes(E(e), K(ks[i]));
      LtIsLess(e.key, ks[i]);
    }
  }

  // ----- no page lost, none used twice -----

  /** Every page but the header is either in the tree, once, or on the freelist, once. */
  lemma {:induction false} PagesPartitioned(t: BTree, x: PageId)
    requires t.Valid()
    ensures 1 <= x < t.pager.pageCount <==> Count(t.levels, x) + multiset(t.pager.free)[x] == 1
    ensures !(1 <= x < t.pager.pageCount) <==> Count(t.levels, x) + multiset(t.pager.free)[x] == 0
  {
    t.pager.InUseRange(x);
    FreeChainFacts(t.pager.pages, t.pager.freeListHead, t.pager.free);
  }

  // ----- runs -----

  datatype Op = Put(key: Key, value: Value) | Remove(key: Key) | Find(key: Key)
  datatype Reply = PutReply(r: InsertResult) | RemoveReply(d: DeleteResult) | FindReply(f: Lookup)

  function OpKey(op: Op): Key { op.key }

  /** The mapping takes so many bytes in a leaf, its slot included. */
  function Bytes(k: Key, v: Value): nat { |k| + |v| + 8 }

  /** Every mapping takes at most 1021 bytes. */
  ghost predicate Moderate(m: map<Key, Value>) { forall k <- m :: Bytes(k, m[k]) <= 1021 }

  /**
    * One step of a plain map with the same answers; a new key within the cap is
    * refused only when some entry exceeds 1021 bytes.
    */
  ghost predicate MapStep(m: map<Key, Value>, op: Op, reply: Reply, m': map<Key, Value>) {
    match op
    case Put(k, v) =>
      reply.PutReply?
      && (reply.r.Inserted? ==> k !in m && m' == m[k := v])
      && (reply.r.DuplicateKey? ==> k in m && m' == m)
      && (reply.r.EntryTooLarge?
         ==> m' == m && (Bytes(k, v) > ENTRY_CAP || (k !in m && (Bytes(k, v) > 1021 || !Moderate(m)))))
      && (Bytes(k, v) > ENTRY_CAP ==> reply.r.EntryTooLarge?)
    case Remove(k) => reply == RemoveReply(if k in m then Deleted else KeyNotFound) && m' == m - {k}
    case Find(k) => reply == FindReply(if k in m then Found(m[k]) else NotFound) && m' == m
  }

  /** The replies are those of a map that starts as `m` and ends as `m'`. */
  ghost predicate MapRun(m: map<Key, Value>, ops: seq<Op>, replies: seq<Reply>, m': map<Key, Value>)
    decreases ops
  {
    |ops| == |replies|
    && if ops == [] then m' == m
       else exists mid :: MapStep(m, ops[0], replies[0], mid) && MapRun(mid, ops[1..], replies[1..], m')
  }

  lemma {:induction false} MapRunExtend(m: map<Key, Value>, ops: seq<Op>, replies: seq<Reply>, mid: map<Key, Value>,
                                        op: Op, reply: Reply, m': map<Key, Value>)
    requires MapRun(m, ops, replies, mid) && MapStep(mid, op, reply, m')
    ensures MapRun(m, ops + [op], replies + [reply], m')
    decreases ops
  {
    if ops == [] {
      assert ([] + [op])[1..] == [] && ([] + [reply])[1..] == [];
      assert MapRun(m', [], [], m');
    } else {
      var m1 :| MapStep(m, ops[0], replies[0], m1) && MapRun(m1, ops[1..], replies[1..], mid);
      MapRunExtend(m1, ops[1..], replies[1..], mid, op, reply, m');
      assert (ops + [op])[1..] == ops[1..] + [op] && (replies + [reply])[1..] == replies[1..] + [reply];
    }
  }

  /** Any run of operations on keys of one length behaves like a map and ends in a valid tree. */
  method Run(t: BTree, ops: seq<Op>, ghost n: nat) returns (replies: seq<Reply>)
    requires t.Valid() && Uniform(t.Sequence(), n) && forall op <- ops :: |OpKey(op)| == n
    modifies t, t.pager
    ensures t.Valid() && Uniform(t.Sequence(), n)
    ensures MapRun(old(t.Contents()), ops, replies, t.Contents())
  {
    hide Shape, Count, FreeChain, Expand, MapOf, Uniform, MapRun, EntriesWithin, Refused, Placed;
    replies := [];
    var i := 0;
    assert ops[..0] == [];
    RunNothing(t.Contents());
    while i < |ops|
      invariant 0 <= i <= |ops| && t.Valid() && t.levels != [] && Uniform(t.Sequence(), n)
      invariant MapRun(old(t.Contents()), ops[..i], replies, t.Contents())
    {
      ghost var m := t.Contents();
      var reply;
      assert ops[i] in ops;
      match ops[i] {
        case Put(k, v) =>
          if Moderate(m) { ModerateWithin(t); }
          var r := t.Insert(k, v);
          reply := PutReply(r);
        case Remove(k) => var d := t.Delete(k, n); reply := RemoveReply(d);
        case Find(k) => var f := t.Get(k); reply := FindReply(f);
      }
      assert ops[..i + 1] == ops[..i] + [ops[i]];
      MapRunExtend(old(t.Contents()), ops[..i], replies, m, ops[i], reply, t.Contents());
      replies := replies + [reply];
      i := i + 1;
    }
    assert ops[..i] == ops;
  }

  lemma {:induction false} ModerateWithin(t: BTree)
    requires t.Valid() && Moderate(t.Contents())
    ensures EntriesWithin(t.Sequence(), 1021)
  {
    forall x | x in t.Sequence() && x.E? ensures EntrySize(x.entry) <= 1021 {
      Scans.EntryIsMapping(t.Sequence(), x.entry);
      assert x == E(x.entry);
    }
  }

  lemma {:induction false} RunNothing(m: map<Key, Value>)
    ensures MapRun(m, [], [], m)
  {
  }
}
