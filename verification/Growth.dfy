/** Splits travelling up: every level is rewritten before the one above it knows. */
module Growth {
  import opened Keys
  import opened Nodes
  import opened Levels
  import opened Trees

  /** The string of a spot whose page has been split: `m` and the new page `r` stand to its right. */
  ghost function SplitString(s: Spot, m: Key, r: PageId): seq<Token> {
    s.left + [P(s.id), K(m), P(r)] + s.right
  }

  /** Spots one below the other, all but the last on proper internal pages. */
  ghost predicate Steps(pages: Pages, spots: seq<Spot>) {
    AllSteps(pages, spots)
    && (forall k :: 0 <= k < |spots| - 1 ==> Internals(pages, SpotString(spots[k]), 0))
  }

  /**
    * The page at `here`, below the spots `up`, has been split into itself and
    * `r`, with `m` between them. The levels in `rest`, the split one first, are
    * final; the pages at the spots above still describe the level without `m`
    * and `r`.
    */
  ghost predicate Pending(pages: Pages, root: PageId, up: seq<Spot>, here: Spot, rest: seq<seq<Token>>, m: Key,
                          r: PageId) {
    rest != []
    && |m| + 8 <= ENTRY_CAP
    && SpotString((up + [here])[0]) == [P(root)]
    && Steps(pages, up + [here])
    && rest[0] == SplitString(here, m, r)
    && Ordered(rest[0])
    && Finished(pages, rest)
  }

  /** Levels that expand into one another, all but the last made of proper internal pages. */
  ghost predicate Finished(pages: Pages, ls: seq<seq<Token>>) {
    Chain(pages, ls) && forall k :: 0 <= k < |ls| - 1 ==> Internals(pages, ls[k], 0)
  }

  ghost predicate SamePagesOf(p: Pages, q: Pages, s: seq<Token>) {
    forall id :: P(id) in s && id in p ==> id in q && q[id] == p[id]
  }

  lemma {:induction false} InternalsFrame(p: Pages, q: Pages, s: seq<Token>)
    requires Internals(p, s, 0) && SamePagesOf(p, q, s)
    ensures Internals(q, s, 0)
    ensures Expand(q, s) == Expand(p, s)
  {
    ExpandFrame(p, q, s);
  }

  lemma {:induction false} FinishedFrame(p: Pages, q: Pages, ls: seq<seq<Token>>)
    requires Finished(p, ls)
    requires forall k :: 0 <= k < |ls| - 1 ==> SamePagesOf(p, q, ls[k])
    ensures Finished(q, ls)
  {
    forall k: nat | k + 1 < |ls| ensures ExpandsAt(q, ls, k) && Internals(q, ls[k], 0) {
      assert ExpandsAt(p, ls, k);
      InternalsFrame(p, q, ls[k]);
    }
  }

  lemma {:induction false} FinishedOne(pages: Pages, s: seq<Token>)
    ensures Finished(pages, [s])
  {
  }

  lemma {:induction false} FinishedCons(pages: Pages, s: seq<Token>, ls: seq<seq<Token>>)
    requires Finished(pages, ls) && ls != []
    requires Internals(pages, s, 0) && Expand(pages, s) == ls[0]
    ensures Finished(pages, [s] + ls)
  {
    var all := [s] + ls;
    forall k: nat | k + 1 < |all| ensures ExpandsAt(pages, all, k) && Internals(pages, all[k], 0) {
      if k > 0 {
        assert ExpandsAt(pages, ls, k - 1);
        assert all[k] == ls[k - 1] && all[k + 1] == ls[k];
      }
    }
  }

  /** Spots above a change keep describing the path when none of their pages changed. */
  lemma {:induction false} StepsFrame(p: Pages, q: Pages, spots: seq<Spot>)
    requires Steps(p, spots)
    requires forall k :: 0 <= k < |spots| - 1 ==> SamePagesOf(p, q, SpotString(spots[k]))
    ensures Steps(q, spots)
  {
    hide Internals, StepAt, SpotString, SamePagesOf;
    forall k: nat | k + 1 < |spots| ensures StepAt(q, spots, k) && Internals(q, SpotString(spots[k]), 0) {
      assert StepAt(p, spots, k) && SamePagesOf(p, q, SpotString(spots[k]));
      StepFrame(p, q, spots, k);
    }
  }

  lemma {:induction false} StepFrame(p: Pages, q: Pages, spots: seq<Spot>, k: nat)
    requires k + 1 < |spots| && StepAt(p, spots, k) && Internals(p, SpotString(spots[k]), 0)
    requires SamePagesOf(p, q, SpotString(spots[k]))
    ensures StepAt(q, spots, k) && Internals(q, SpotString(spots[k]), 0)
  {
    hide Internals, Expand, SamePagesOf, Before, After, InternalFits;
    var s := spots[k];
    InternalsFrame(p, q, SpotString(s));
    PartFrame(p, q, SpotString(s), s.left);
    PartFrame(p, q, SpotString(s), s.right);
    assert q[s.id] == p[s.id] by { SamePage(p, q, SpotString(s), s.id); }
  }

  lemma {:induction false} PartFrame(p: Pages, q: Pages, s: seq<Token>, part: seq<Token>)
    requires Internals(p, s, 0) && SamePagesOf(p, q, s) && forall t <- part :: t in s
    ensures Expand(p, part) == Expand(q, part)
  {
    hide Expand;
    forall id | P(id) in part ensures PageString(p, id) == PageString(q, id) {
      assert P(id) in s;
    }
    ExpandFrame(p, q, part);
  }

  lemma {:induction false} SamePage(p: Pages, q: Pages, s: seq<Token>, id: PageId)
    requires SamePagesOf(p, q, s) && P(id) in s && id in p
    ensures id in q && q[id] == p[id]
  {
  }

  lemma {:induction false} StringsExpand(pages: Pages, spots: seq<Spot>)
    requires AllSteps(pages, spots)
    ensures Chain(pages, Strings(spots))
  {
    forall k: nat | k + 1 < |spots| ensures ExpandsAt(pages, Strings(spots), k) {
      assert StepAt(pages, spots, k);
      StepExpands(pages, spots[k], spots[k + 1]);
      StringsAt(spots, k);
      StringsAt(spots, k + 1);
    }
  }

  lemma {:induction false} ChainConcat(pages: Pages, a: seq<seq<Token>>, b: seq<seq<Token>>)
    requires Chain(pages, a) && Chain(pages, b)
    requires a != [] && b != [] ==> Expand(pages, Last(a)) == b[0]
    ensures Chain(pages, a + b)
  {
    var all := a + b;
    forall k: nat | k + 1 < |all| ensures ExpandsAt(pages, all, k) {
      if k + 1 < |a| {
        assert ExpandsAt(pages, a, k);
      } else if k >= |a| {
        assert ExpandsAt(pages, b, k - |a|);
      }
    }
  }

  /** A whole route of unchanged pages carries a finished stack on its back. */
  lemma {:induction false} FinishRoute(pages: Pages, spots: seq<Spot>, rest: seq<seq<Token>>)
    requires rest != [] && Finished(pages, rest) && Steps(pages, spots)
    requires spots != []
             ==> Internals(pages, SpotString(Last(spots)), 0) && Expand(pages, SpotString(Last(spots))) == rest[0]
    ensures Finished(pages, Strings(spots) + rest)
  {
    var a := Strings(spots);
    StringsExpand(pages, spots);
    if a != [] { StringsAt(spots, |spots| - 1); }
    ChainConcat(pages, a, rest);
    forall k | 0 <= k < |a + rest| - 1 ensures Internals(pages, (a + rest)[k], 0) {
      if k < |a| {
        StringsAt(spots, k);
      } else {
        assert (a + rest)[k] == rest[k - |a|];
      }
    }
  }

  /** The same pages, some aside. */
  ghost predicate Except(p: Pages, q: Pages, some: set<PageId>) {
    forall id :: id in p && id !in some ==> id in q && q[id] == p[id]
  }

  /** None of the pages stands in the levels. */
  ghost predicate Missing(ls: seq<seq<Token>>, some: set<PageId>) {
    forall x <- some :: Count(ls, x) == 0
  }

  lemma {:induction false} FinishedExcept(p: Pages, q: Pages, ls: seq<seq<Token>>, some: set<PageId>)
    requires Finished(p, ls) && Except(p, q, some) && Missing(ls, some)
    ensures Finished(q, ls)
  {
    forall k, id | 0 <= k < |ls| && P(id) in ls[k] ensures id !in some {
      CountZero(ls, id);
    }
    FinishedFrame(p, q, ls);
  }

  lemma {:induction false} StepsExcept(p: Pages, q: Pages, up: seq<Spot>, here: Spot, some: set<PageId>)
    requires Steps(p, up + [here]) && Except(p, q, some) && Missing(Strings(up), some)
    ensures Steps(q, up + [here])
  {
    forall k | 0 <= k < |up| ensures SamePagesOf(p, q, SpotString((up + [here])[k])) {
      StringsAt(up, k);
      forall id | P(id) in SpotString(up[k]) ensures id !in some { CountZero(Strings(up), id); }
    }
    StepsFrame(p, q, up + [here]);
  }

  lemma {:induction false} StepsSplit(pages: Pages, up: seq<Spot>, a: Spot, b: Spot)
    requires Steps(pages, up + [a] + [b])
    ensures Steps(pages, up + [a]) && StepDown(pages, a, b) && Internals(pages, SpotString(a), 0)
  {
    var all := up + [a] + [b];
    assert StepAt(pages, all, |up|);
    assert all[|up|] == a && all[|up| + 1] == b;
    forall k: nat | k + 1 < |up + [a]|
      ensures StepAt(pages, up + [a], k) && Internals(pages, SpotString((up + [a])[k]), 0)
    {
      assert StepAt(pages, all, k);
      assert all[k] == (up + [a])[k] && all[k + 1] == (up + [a])[k + 1];
    }
  }

  ghost function Here(a: Spot, x: PageId): nat {
    multiset(a.left)[P(x)] + (if x == a.id then 1 else 0) + multiset(a.right)[P(x)]
  }

  lemma {:induction false} HereIs(a: Spot, x: PageId)
    ensures multiset(SpotString(a))[P(x)] == Here(a, x)
  {
    assert multiset(SpotString(a)) == multiset(a.left) + multiset{P(a.id)} + multiset(a.right);
  }

  lemma {:induction false} CountBeside(up: seq<Spot>, a: Spot, rest: seq<seq<Token>>, x: PageId)
    ensures Count(Strings(up + [a]) + rest, x) == Count(Strings(up), x) + Here(a, x) + Count(rest, x)
  {
    StringsLast(up, a);
    CountConcat(Strings(up) + [SpotString(a)], rest, x);
    CountConcat(Strings(up), [SpotString(a)], x);
    CountSingle(SpotString(a), x);
    HereIs(a, x);
  }

  lemma {:induction false} CountSingle(s: seq<Token>, x: PageId)
    ensures Count([s], x) == multiset(s)[P(x)]
  {
    assert [s][1..] == [];
  }

  /** A page counted once on a route stands on it once and nowhere below. */
  lemma {:induction false} CountOnRoute(up: seq<Spot>, a: Spot, rest: seq<seq<Token>>)
    requires Count(Strings(up + [a]) + rest, a.id) <= 1
    ensures Count(Strings(up), a.id) == 0 && Count(rest, a.id) == 0
    ensures P(a.id) !in a.left && P(a.id) !in a.right
  {
    CountBeside(up, a, rest, a.id);
  }

  lemma {:induction false} ExpandExcept(p: Pages, q: Pages, s: seq<Token>, some: set<PageId>)
    requires Except(p, q, some) && Except(q, p, some) && forall x <- some :: P(x) !in s
    ensures Expand(q, s) == Expand(p, s)
  {
    ExpandFrame(p, q, s);
  }

  // ----- what a split does to the parent -----

  lemma {:induction false} NodeInserted(ks: seq<Key>, cs: seq<PageId>, c: nat, m: Key, r: PageId)
    requires |cs| == |ks| + 1 && c < |cs|
    ensures NodeString(ks[..c] + [m] + ks[c..], cs[..c + 1] + [r] + cs[c + 1..])
         == Before(ks[..c], cs[..c]) + [P(cs[c]), K(m), P(r)] + After(ks[c..], cs[c + 1..])
  {
    var ks', cs' := ks[..c] + [m] + ks[c..], cs[..c + 1] + [r] + cs[c + 1..];
    NodeAround(ks', cs', c);
    assert ks'[..c] == ks[..c] && cs'[..c] == cs[..c] && cs'[c] == cs[c];
    assert ks'[c..] == [m] + ks[c..] && cs'[c + 1..] == [r] + cs[c + 1..];
    assert ([m] + ks[c..])[1..] == ks[c..] && ([r] + cs[c + 1..])[1..] == cs[c + 1..];
  }

  /** With the new separator and child put in, a parent expands into the split string of its child. */
  lemma {:induction false} InsertedExpands(p: Pages, q: Pages, a: Spot, b: Spot, m: Key, r: PageId)
    requires StepDown(p, a, b) && a.id in q && q[a.id].Internal?
    requires q[a.id].keys == p[a.id].keys[..a.child] + [m] + p[a.id].keys[a.child..]
    requires q[a.id].children == p[a.id].children[..a.child + 1] + [r] + p[a.id].children[a.child + 1..]
    requires Expand(q, a.left) == Expand(p, a.left) && Expand(q, a.right) == Expand(p, a.right)
    ensures Expand(q, SpotString(a)) == SplitString(b, m, r)
  {
    var Internal(ks, cs) := p[a.id];
    NodeInserted(ks, cs, a.child, m, r);
    ExpandAround(q, a.left, a.id, a.right);
    Regroup(Expand(p, a.left), Before(ks[..a.child], cs[..a.child]), [P(b.id), K(m), P(r)],
            After(ks[a.child..], cs[a.child + 1..]), Expand(p, a.right));
  }

  /** Two pages made from one node by taking out a separator expand into the node. */
  lemma {:induction false} PairExpands(q: Pages, a: Spot, keys: seq<Key>, children: seq<PageId>, mid: nat, r2: PageId)
    requires |children| == |keys| + 1 && mid < |keys|
    requires a.id in q && q[a.id] == Internal(keys[..mid], children[..mid + 1])
    requires r2 in q && q[r2] == Internal(keys[mid + 1..], children[mid + 1..])
    ensures Expand(q, SplitString(a, keys[mid], r2))
            == Expand(q, a.left) + NodeString(keys, children) + Expand(q, a.right)
  {
    NodeJoin(keys[..mid], children[..mid + 1], keys[mid], keys[mid + 1..], children[mid + 1..]);
    assert keys == keys[..mid] + [keys[mid]] + keys[mid + 1..];
    assert children == children[..mid + 1] + children[mid + 1..];
    ExpandAroundPair(q, a.left, a.id, keys[mid], r2, a.right);
    Flatten(Expand(q, a.left), NodeString(keys[..mid], children[..mid + 1]), [K(keys[mid])],
            NodeString(keys[mid + 1..], children[mid + 1..]), Expand(q, a.right));
  }

  lemma {:induction false} Flatten(l: seq<Token>, a: seq<Token>, m: seq<Token>, b: seq<Token>, r: seq<Token>)
    ensures l + a + m + b + r == l + (a + m + b) + r
  {
  }

  /** Parent split in two around `keys[mid]`: the pair expands into the split string of its child. */
  lemma {:induction false} SplitExpands(p: Pages, q: Pages, a: Spot, b: Spot, m: Key, r: PageId,
                     keys: seq<Key>, children: seq<PageId>, mid: nat, r2: PageId)
    requires StepDown(p, a, b)
    requires keys == p[a.id].keys[..a.child] + [m] + p[a.id].keys[a.child..]
    requires children == p[a.id].children[..a.child + 1] + [r] + p[a.id].children[a.child + 1..]
    requires mid < |keys|
    requires a.id in q && q[a.id] == Internal(keys[..mid], children[..mid + 1])
    requires r2 in q && q[r2] == Internal(keys[mid + 1..], children[mid + 1..])
    requires Expand(q, a.left) == Expand(p, a.left) && Expand(q, a.right) == Expand(p, a.right)
    ensures Expand(q, SplitString(a, keys[mid], r2)) == SplitString(b, m, r)
  {
    var Internal(ks, cs) := p[a.id];
    NodeInserted(ks, cs, a.child, m, r);
    PairExpands(q, a, keys, children, mid, r2);
    Regroup(Expand(p, a.left), Before(ks[..a.child], cs[..a.child]), [P(b.id), K(m), P(r)],
            After(ks[a.child..], cs[a.child + 1..]), Expand(p, a.right));
  }

  lemma {:induction false} BeforeHas(ks: seq<Key>, cs: seq<PageId>, k: Key)
    requires |ks| == |cs| && k in ks
    ensures K(k) in Before(ks, cs)
  {
    if k != ks[0] { BeforeHas(ks[1..], cs[1..], k); }
  }

  lemma {:induction false} AfterHas(ks: seq<Key>, cs: seq<PageId>, k: Key)
    requires |ks| == |cs| && k in ks
    ensures K(k) in After(ks, cs)
  {
    if k != ks[0] { AfterHas(ks[1..], cs[1..], k); }
  }

  /** The way down to a child is also where its new separator belongs. */
  lemma {:induction false} SeparatorPosition(pages: Pages, a: Spot, b: Spot, m: Key, r: PageId)
    requires StepDown(pages, a, b) && Ordered(SplitString(b, m, r))
    ensures var ks := pages[a.id].keys;
            AtMost(ks[..a.child], m) && Above(ks[a.child..], m)
  {
    var Internal(ks, cs) := pages[a.id];
    var mid := [P(b.id), K(m), P(r)];
    assert K(m) in mid;
    OrderedConcat(b.left + mid, b.right);
    OrderedConcat(b.left, mid);
    forall k | k in ks[..a.child] ensures !Lt(m, k) {
      BeforeHas(ks[..a.child], cs[..a.child], k);
      assert K(k) in b.left;
      assert Precedes(K(k), K(m));
      LtTotal(k, m);
    }
    forall k | k in ks[a.child..] ensures Lt(m, k) {
      AfterHas(ks[a.child..], cs[a.child + 1..], k);
      assert K(k) in b.right && K(m) in b.left + mid;
      assert Precedes(K(m), K(k));
    }
  }

  // ----- the three ways a split ends or goes on -----

  /** Past the top: a new root above the two halves. */
  lemma {:induction false} PushRoot(p: Pages, q: Pages, root: PageId, here: Spot, rest: seq<seq<Token>>, m: Key,
                                    r: PageId, id: PageId)
    requires Pending(p, root, [], here, rest, m, r)
    requires Except(p, q, {id}) && Count(rest, id) == 0
    requires id in q && q[id] == Internal([m], [root, r])
    ensures Finished(q, [[P(id)]] + rest)
    ensures forall x :: Count([[P(id)]] + rest, x) == Count(rest, x) + if x == id then 1 else 0
  {
    hide Finished, Steps, Expand, Ordered, Strings, Count, Internals, InternalFits, KeysSize, StepDown;
    assert ([] + [here])[0] == here;
    TopSpot(here, root, m, r);
    FinishedExcept(p, q, rest, {id});
    RootString(q, id, m, root, r);
    FinishedCons(q, [P(id)], rest);
    forall x ensures Count([[P(id)]] + rest, x) == Count(rest, x) + if x == id then 1 else 0 {
      CountConcat([[P(id)]], rest, x);
      CountSingle([P(id)], x);
    }
  }

  lemma {:induction false} TopSpot(here: Spot, root: PageId, m: Key, r: PageId)
    requires SpotString(here) == [P(root)]
    ensures here.left == [] && here.right == [] && here.id == root
    ensures SplitString(here, m, r) == [P(root), K(m), P(r)]
  {
    assert |here.left| == 0 && |here.right| == 0;
    assert SpotString(here)[0] == P(here.id);
  }

  lemma {:induction false} RootString(q: Pages, id: PageId, m: Key, root: PageId, r: PageId)
    requires id in q && q[id] == Internal([m], [root, r]) && |m| + 8 <= ENTRY_CAP
    ensures Expand(q, [P(id)]) == [P(root), K(m), P(r)]
    ensures Internals(q, [P(id)], 0)
  {
    ExpandOne(q, P(id));
    KeysSizeOne(m);
    assert [root, r][1..] == [r] && [m][1..] == [] && [r][1..] == [];
    assert After([m], [r]) == [K(m), P(r)];
    assert NodeString([m], [root, r]) == [P(root)] + [K(m), P(r)];
  }

  lemma {:induction false} KeysSizeOne(k: Key)
    ensures KeysSize([k]) == |k| + 8
  {
    assert [k][1..] == [];
  }

  lemma {:induction false} StringsTop(up: seq<Spot>, here: Spot, rest: seq<seq<Token>>)
    ensures (Strings(up + [here]) + rest)[0] == SpotString((up + [here])[0])
  {
    StringsAt(up + [here], 0);
  }

  /** The parent `a` has room: nothing above it changes. */
  lemma {:induction false} PushFits(p: Pages, q: Pages, root: PageId, up: seq<Spot>, a: Spot, here: Spot,
                                    rest: seq<seq<Token>>, m: Key, r: PageId)
    requires Pending(p, root, up + [a], here, rest, m, r)
    requires Count(Strings(up + [a]) + rest, a.id) <= 1
    requires Except(p, q, {a.id}) && Except(q, p, {a.id})
    requires a.id in p && p[a.id].Internal? && a.child < |p[a.id].children| == |p[a.id].keys| + 1
    requires a.id in q && InternalFits(q[a.id])
    requires q[a.id].keys == p[a.id].keys[..a.child] + [m] + p[a.id].keys[a.child..]
    requires q[a.id].children == p[a.id].children[..a.child + 1] + [r] + p[a.id].children[a.child + 1..]
    ensures Finished(q, Strings(up + [a]) + rest)
    ensures (Strings(up + [a]) + rest)[0] == [P(root)]
  {
    hide Finished, Steps, Expand, Ordered, Strings, Count, Internals, KeysSize, StepDown;
    StepsSplit(p, up, a, here);
    CountOnRoute(up, a, rest);
    StepsExcept(p, q, up, a, {a.id});
    FinishedExcept(p, q, rest, {a.id});
    ExpandExcept(p, q, a.left, {a.id});
    ExpandExcept(p, q, a.right, {a.id});
    InsertedExpands(p, q, a, here, m, r);
    InternalsChanged(p, q, a);
    FinishRoute(q, up + [a], rest);
    StringsTop(up, a, rest);
    assert (up + [a] + [here])[0] == (up + [a])[0];
  }

  lemma {:induction false} InternalsChanged(p: Pages, q: Pages, a: Spot)
    requires Internals(p, SpotString(a), 0) && Except(p, q, {a.id})
    requires a.id in q && InternalFits(q[a.id]) && |q[a.id].keys| >= 1
    ensures Internals(q, SpotString(a), 0)
  {
  }

  /** The parent `a` is full: it is split as well, and the split goes on one level up. */
  lemma {:induction false} PushSplit(p: Pages, q: Pages, root: PageId, up: seq<Spot>, a: Spot, here: Spot,
                                     rest: seq<seq<Token>>, m: Key, r: PageId, 
                  keys: seq<Key>, children: seq<PageId>, mid: nat, r2: PageId)
    requires Pending(p, root, up + [a], here, rest, m, r)
    requires Count(Strings(up + [a]) + rest, a.id) <= 1 && Count(Strings(up + [a]) + rest, r2) == 0 && r2 != a.id
    requires Except(p, q, {a.id, r2}) && Except(q, p, {a.id, r2})
    requires a.id in p && p[a.id].Internal? && a.child < |p[a.id].children| == |p[a.id].keys| + 1
    requires keys == p[a.id].keys[..a.child] + [m] + p[a.id].keys[a.child..]
    requires children == p[a.id].children[..a.child + 1] + [r] + p[a.id].children[a.child + 1..]
    requires 1 <= mid < |keys| - 1 && |keys[mid]| + 8 <= ENTRY_CAP
    requires a.id in q && InternalFits(q[a.id]) && q[a.id] == Internal(keys[..mid], children[..mid + 1])
    requires r2 in q && InternalFits(q[r2]) && q[r2] == Internal(keys[mid + 1..], children[mid + 1..])
    ensures Pending(q, root, up, a, [SplitString(a, keys[mid], r2)] + rest, keys[mid], r2)
    ensures forall x :: Count(Strings(up) + ([SplitString(a, keys[mid], r2)] + rest), x)
                     == Count(Strings(up + [a]) + rest, x) + if x == r2 then 1 else 0
  {
    hide Finished, Steps, Expand, Ordered, Strings, Count, Internals, InternalFits, KeysSize, StepDown;
    var now := SplitString(a, keys[mid], r2);
    StepsSplit(p, up, a, here);
    CountOnRoute(up, a, rest);
    CountBeside(up, a, rest, r2);
    StepsExcept(p, q, up, a, {a.id, r2});
    FinishedExcept(p, q, rest, {a.id, r2});
    ExpandExcept(p, q, a.left, {a.id, r2});
    ExpandExcept(p, q, a.right, {a.id, r2});
    SplitExpands(p, q, a, here, m, r, keys, children, mid, r2);
    InternalsSplit(p, q, a, keys[mid], r2);
    FinishedCons(q, now, rest);
    OrderedUp(q, now);
    assert (up + [a] + [here])[0] == (up + [a])[0];
    forall x
      ensures Count(Strings(up) + ([now] + rest), x) == Count(Strings(up + [a]) + rest, x) + if x == r2 then 1 else 0
    {
      CountSplit(up, a, keys[mid], r2, rest, x);
    }
  }

  lemma {:induction false} InternalsSplit(p: Pages, q: Pages, a: Spot, k: Key, r2: PageId)
    requires Internals(p, SpotString(a), 0) && Except(p, q, {a.id, r2})
    requires a.id in q && InternalFits(q[a.id]) && |q[a.id].keys| >= 1
    requires r2 in q && InternalFits(q[r2]) && |q[r2].keys| >= 1
    ensures Internals(q, SplitString(a, k, r2), 0)
  {
    forall id | P(id) in SplitString(a, k, r2) ensures id == r2 || P(id) in SpotString(a) {
    }
  }

  lemma {:induction false} CountSplit(up: seq<Spot>, a: Spot, k: Key, r2: PageId, rest: seq<seq<Token>>, x: PageId)
    ensures Count(Strings(up) + ([SplitString(a, k, r2)] + rest), x)
         == Count(Strings(up + [a]) + rest, x) + if x == r2 then 1 else 0
  {
    var now := SplitString(a, k, r2);
    CountBeside(up, a, rest, x);
    CountConcat(Strings(up), [now] + rest, x);
    CountConcat([now], rest, x);
    CountSingle(now, x);
    assert multiset(now) == multiset(a.left) + multiset{P(a.id), K(k), P(r2)} + multiset(a.right);
  }

  /** Every page standing in the levels is as it was. */
  ghost predicate Kept(p: Pages, q: Pages, ls: seq<seq<Token>>) {
    forall id :: Count(ls, id) > 0 && id in p ==> id in q && q[id] == p[id]
  }

  lemma {:induction false} KeptBelow(p: Pages, p1: Pages, q: Pages, up: seq<Spot>, a: Spot, rest: seq<seq<Token>>,
                                     now: seq<Token>, r2: PageId)
    requires Except(p, p1, {a.id, r2}) && Count(rest, a.id) == 0 && Count(Strings(up + [a]) + rest, r2) == 0
    requires Kept(p1, q, [now] + rest)
    ensures Kept(p, q, rest)
  {
    CountConcat(Strings(up + [a]), rest, r2);
    forall id | Count(rest, id) > 0 && id in p ensures id in q && q[id] == p[id] {
      CountConcat([now], rest, id);
    }
  }
}
