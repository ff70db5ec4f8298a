/** Merges, borrows and rotations: two neighbours under one parent change, nothing else does. */
module Shrink {
  import opened Keys
  import opened Nodes
  import opened Levels
  import opened Trees
  import opened Growth
  import opened LeafMoves
  import opened Balance

  /** The parent without separator `i` and the child to its right. */
  ghost function Joined(pg: Page, i: nat): (r: Page)
    requires pg.Internal? && |pg.children| == |pg.keys| + 1 && i < |pg.keys|
    ensures r.Internal? && |r.children| == |r.keys| + 1 && |r.keys| == |pg.keys| - 1
  {
    Internal(pg.keys[..i] + pg.keys[i + 1..], pg.children[..i + 1] + pg.children[i + 2..])
  }

  /** Children `i` and `i + 1` of the page at `a`, seen as the left one alone with what stands around the two. */
  ghost function PairSpot(pages: Pages, a: Spot, i: nat): Spot
    requires a.id in pages && pages[a.id].Internal? && |pages[a.id].children| == |pages[a.id].keys| + 1
             && i < |pages[a.id].keys|
  {
    var Internal(ks, cs) := Joined(pages[a.id], i);
    Spot(Expand(pages, a.left) + Before(ks[..i], cs[..i]), cs[i], After(ks[i..], cs[i + 1..]) + Expand(pages, a.right),
        0)
  }

  ghost predicate HasPair(pages: Pages, a: Spot, i: nat) {
    a.id in pages && pages[a.id].Internal? && |pages[a.id].children| == |pages[a.id].keys| + 1 && i < |pages[a.id].keys|
  }

  lemma {:induction false} JoinedNode(ks: seq<Key>, cs: seq<PageId>, i: nat, k: Key)
    requires |cs| == |ks| + 1 && i < |ks|
    ensures var Internal(ks', cs') := Joined(Internal(ks, cs), i);
            && ks'[..i] + [k] + ks'[i..] == ks[i := k]
            && cs'[..i + 1] + [cs[i + 1]] + cs'[i + 1..] == cs
            && cs'[i] == cs[i]
  {
    var Internal(ks', cs') := Joined(Internal(ks, cs), i);
    assert ks'[..i] == ks[..i] && ks'[i..] == ks[i + 1..];
    assert cs'[..i + 1] == cs[..i + 1] && cs'[i + 1..] == cs[i + 2..];
    assert ks[..i] + [k] + ks[i + 1..] == ks[i := k];
    assert cs[..i + 1] + [cs[i + 1]] + cs[i + 2..] == cs;
  }

  /** A parent whose separator `i` reads `k` expands into the pair with `k` between. */
  lemma {:induction false} PairExpand(p: Pages, q: Pages, a: Spot, i: nat, k: Key)
    requires HasPair(p, a, i)
    requires a.id in q && q[a.id] == Internal(p[a.id].keys[i := k], p[a.id].children)
    requires Expand(q, a.left) == Expand(p, a.left) && Expand(q, a.right) == Expand(p, a.right)
    ensures Expand(q, SpotString(a)) == SplitString(PairSpot(p, a, i), k, p[a.id].children[i + 1])
  {
    var Internal(ks, cs) := p[a.id];
    var Internal(ks', cs') := Joined(p[a.id], i);
    JoinedNode(ks, cs, i, k);
    NodeInserted(ks', cs', i, k, cs[i + 1]);
    ExpandAround(q, a.left, a.id, a.right);
    Regroup(Expand(p, a.left), Before(ks'[..i], cs'[..i]), [P(cs[i]), K(k), P(cs[i + 1])],
            After(ks'[i..], cs'[i + 1..]), Expand(p, a.right));
  }

  /** A parent that lost separator `i` and the child after it expands into the left child alone. */
  lemma {:induction false} JoinedExpand(p: Pages, q: Pages, a: Spot, i: nat)
    requires HasPair(p, a, i) && a.id in q && q[a.id] == Joined(p[a.id], i)
    requires Expand(q, a.left) == Expand(p, a.left) && Expand(q, a.right) == Expand(p, a.right)
    ensures Expand(q, SpotString(a)) == SpotString(PairSpot(p, a, i))
  {
    var Internal(ks', cs') := Joined(p[a.id], i);
    NodeAround(ks', cs', i);
    ExpandAround(q, a.left, a.id, a.right);
    Regroup(Expand(p, a.left), Before(ks'[..i], cs'[..i]), [P(cs'[i])], After(ks'[i..], cs'[i + 1..]),
        Expand(p, a.right));
  }

  // ----- pairs of internal pages -----

  /** Keys and children moved between two neighbours through their separator leave the expansion alone. */
  lemma {:induction false} RotatedExpand(p: Pages, q: Pages, s: Spot, k: Key, k': Key, r: PageId)
    requires s.id in p && s.id in q && r in p && r in q
    requires p[s.id].Internal? && q[s.id].Internal? && p[r].Internal? && q[r].Internal?
    requires |p[s.id].children| == |p[s.id].keys| + 1 && |p[r].children| == |p[r].keys| + 1
    requires |q[s.id].children| == |q[s.id].keys| + 1 && |q[r].children| == |q[r].keys| + 1
    requires p[s.id].keys + [k] + p[r].keys == q[s.id].keys + [k'] + q[r].keys
    requires p[s.id].children + p[r].children == q[s.id].children + q[r].children
    requires Expand(q, s.left) == Expand(p, s.left) && Expand(q, s.right) == Expand(p, s.right)
    ensures Expand(q, SplitString(s, k', r)) == Expand(p, SplitString(s, k, r))
  {
    ExpandAroundPair(p, s.left, s.id, k, r, s.right);
    ExpandAroundPair(q, s.left, s.id, k', r, s.right);
    NodeJoin(p[s.id].keys, p[s.id].children, k, p[r].keys, p[r].children);
    NodeJoin(q[s.id].keys, q[s.id].children, k', q[r].keys, q[r].children);
    Flatten(Expand(p, s.left), PageString(p, s.id), [K(k)], PageString(p, r), Expand(p, s.right));
    Flatten(Expand(p, s.left), PageString(q, s.id), [K(k')], PageString(q, r), Expand(p, s.right));
  }

  /** Two neighbours and their separator in one page expand as before. */
  lemma {:induction false} MergedExpand(p: Pages, q: Pages, s: Spot, k: Key, r: PageId)
    requires s.id in p && s.id in q && r in p && p[s.id].Internal? && p[r].Internal?
    requires |p[s.id].children| == |p[s.id].keys| + 1 && |p[r].children| == |p[r].keys| + 1
    requires q[s.id] == Internal(p[s.id].keys + [k] + p[r].keys, p[s.id].children + p[r].children)
    requires Expand(q, s.left) == Expand(p, s.left) && Expand(q, s.right) == Expand(p, s.right)
    ensures Expand(q, SpotString(s)) == Expand(p, SplitString(s, k, r))
  {
    ExpandAroundPair(p, s.left, s.id, k, r, s.right);
    ExpandAround(q, s.left, s.id, s.right);
    NodeJoin(p[s.id].keys, p[s.id].children, k, p[r].keys, p[r].children);
    Flatten(Expand(p, s.left), PageString(p, s.id), [K(k)], PageString(p, r), Expand(p, s.right));
  }

  // ----- where the three pages stand -----

  /** Occurrences of page `x` in the string of a pair. */
  ghost function PairHere(s: Spot, r: PageId, x: PageId): nat {
    Here(s, x) + if x == r then 1 else 0
  }

  lemma {:induction false} PairCount(up: seq<Spot>, a: Spot, s: Spot, k: Key, r: PageId, rest: seq<seq<Token>>,
                                     x: PageId)
    ensures Count(Strings(up + [a]) + ([SplitString(s, k, r)] + rest), x)
         == Count(Strings(up), x) + Here(a, x) + PairHere(s, r, x) + Count(rest, x)
  {
    var now := SplitString(s, k, r);
    CountBeside(up, a, [now] + rest, x);
    CountConcat([now], rest, x);
    CountSingle(now, x);
    assert multiset(now) == multiset(s.left) + multiset{P(s.id), K(k), P(r)} + multiset(s.right);
  }

  lemma {:induction false} JoinedCount(up: seq<Spot>, a: Spot, s: Spot, rest: seq<seq<Token>>, x: PageId)
    ensures Count(Strings(up + [a]) + ([SpotString(s)] + rest), x)
         == Count(Strings(up), x) + Here(a, x) + Here(s, x) + Count(rest, x)
  {
    CountBeside(up, a, [SpotString(s)] + rest, x);
    CountConcat([SpotString(s)], rest, x);
    CountSingle(SpotString(s), x);
    HereIs(s, x);
  }

  /** Parent and children of a pair stand nowhere else. */
  ghost predicate Apart(up: seq<Spot>, a: Spot, s: Spot, r: PageId, rest: seq<seq<Token>>) {
    && a.id != s.id && a.id != r && s.id != r
    && Missing(Strings(up), {a.id, s.id, r}) && Missing(rest, {a.id, s.id, r})
    && (forall x <- {a.id, s.id, r} :: P(x) !in a.left && P(x) !in a.right && P(x) !in s.left && P(x) !in s.right)
  }

  lemma {:induction false} PairApart(up: seq<Spot>, a: Spot, s: Spot, k: Key, r: PageId, rest: seq<seq<Token>>)
    requires forall x :: Count(Strings(up + [a]) + ([SplitString(s, k, r)] + rest), x) <= 1
    ensures Apart(up, a, s, r, rest)
  {
    forall x ensures Count(Strings(up), x) + Here(a, x) + PairHere(s, r, x) + Count(rest, x) <= 1 {
      PairCount(up, a, s, k, r, rest, x);
    }
    assert PairHere(s, r, r) + Here(a, r) <= 1;
    assert PairHere(s, r, s.id) + Here(a, s.id) <= 1;
  }

  // ----- the parent's side -----

  /** The parent gets another separator between the pair. */
  lemma {:induction false} ParentReplaced(p: Pages, q: Pages, up: seq<Spot>, a: Spot, i: nat, k: Key, some: set<PageId>)
    requires Steps(p, up + [a]) && Internals(p, SpotString(a), 0) && HasPair(p, a, i)
    requires Except(p, q, some) && Except(q, p, some) && a.id in some && Missing(Strings(up), some)
    requires forall x <- some :: P(x) !in a.left && P(x) !in a.right
    requires a.id in q && q[a.id] == Internal(p[a.id].keys[i := k], p[a.id].children) && InternalFits(q[a.id])
    ensures Steps(q, up + [a]) && Internals(q, SpotString(a), 0)
    ensures Expand(q, SpotString(a)) == SplitString(PairSpot(p, a, i), k, p[a.id].children[i + 1])
  {
    hide Steps, Expand, Count, Strings, KeysSize;
    StepsExcept(p, q, up, a, some);
    ExpandExcept(p, q, a.left, some);
    ExpandExcept(p, q, a.right, some);
    PairExpand(p, q, a, i, k);
    ParentInternals(p, q, a, 0, some);
  }

  lemma {:induction false} ParentInternals(p: Pages, q: Pages, a: Spot, thin: PageId, some: set<PageId>)
    requires Internals(p, SpotString(a), 0) && Except(p, q, some)
    requires forall x <- some :: P(x) !in a.left && P(x) !in a.right
    requires a.id in q && InternalFits(q[a.id]) && (|q[a.id].keys| >= 1 || (thin == a.id != 0))
    ensures Internals(q, SpotString(a), thin)
  {
    forall id | P(id) in SpotString(a) && id != a.id ensures id !in some {
      assert P(id) in a.left || P(id) in a.right;
    }
  }

  /** The parent loses the separator and the right child of the pair. */
  lemma {:induction false} ParentJoined(p: Pages, q: Pages, up: seq<Spot>, a: Spot, i: nat, some: set<PageId>)
    requires Steps(p, up + [a]) && Internals(p, SpotString(a), 0) && HasPair(p, a, i) && a.id != 0
    requires Except(p, q, some) && Except(q, p, some) && a.id in some && Missing(Strings(up), some)
    requires forall x <- some :: P(x) !in a.left && P(x) !in a.right
    requires a.id in q && q[a.id] == Joined(p[a.id], i) && InternalFits(q[a.id])
    ensures Steps(q, up + [a]) && Internals(q, SpotString(a), a.id)
    ensures Expand(q, SpotString(a)) == SpotString(PairSpot(p, a, i))
  {
    hide Steps, Expand, Count, Strings, KeysSize;
    StepsExcept(p, q, up, a, some);
    ExpandExcept(p, q, a.left, some);
    ExpandExcept(p, q, a.right, some);
    JoinedExpand(p, q, a, i);
    ParentInternals(p, q, a, a.id, some);
  }

  // ----- a page that may have too few separators -----

  /** A tree but for the page at `here`, which may have no separator left. */
  ghost predicate Sagging(pages: Pages, root: PageId, up: seq<Spot>, here: Spot, rest: seq<seq<Token>>) {
    rest != [] && here.id != 0
    && SpotString((up + [here])[0]) == [P(root)]
    && Steps(pages, up + [here])
    && Internals(pages, SpotString(here), here.id)
    && Expand(pages, SpotString(here)) == rest[0]
    && Finished(pages, rest)
  }

  /** A page that kept a separator does not sag. */
  lemma {:induction false} SaggingFine(pages: Pages, root: PageId, up: seq<Spot>, here: Spot, rest: seq<seq<Token>>)
    requires Sagging(pages, root, up, here, rest)
    requires here.id in pages && pages[here.id].Internal? && |pages[here.id].keys| >= 1
    ensures Finished(pages, Strings(up + [here]) + rest)
    ensures (Strings(up + [here]) + rest)[0] == [P(root)]
  {
    hide Steps, Expand, Strings, Finished, InternalFits;
    assert Internals(pages, SpotString(here), 0);
    FinishRoute(pages, up + [here], rest);
    StringsTop(up, here, rest);
  }

  /** A root left with one child is not needed any more. */
  lemma {:induction false} SaggingTop(pages: Pages, root: PageId, here: Spot, rest: seq<seq<Token>>)
    requires Sagging(pages, root, [], here, rest)
    requires here.id in pages && pages[here.id].Internal? && pages[here.id].keys == []
    ensures here.id == root && |pages[root].children| == 1 && rest[0] == [P(pages[root].children[0])]
    ensures forall x :: Count(Strings([here]) + rest, x) == Count(rest, x) + if x == root then 1 else 0
  {
    assert ([] + [here])[0] == here;
    TopSpot(here, root, [], 0);
    assert P(root) in SpotString(here);
    ExpandOne(pages, P(root));
    var c := pages[root].children;
    assert After([], c[1..]) == [];
    assert NodeString([], c) == [P(c[0])];
    forall x ensures Count(Strings([here]) + rest, x) == Count(rest, x) + if x == root then 1 else 0 {
      assert [] + [here] == [here];
      CountBeside([], here, rest, x);
    }
  }

  // ----- rotating and merging internal pages -----

  /** A parent at the end of a route, with two internal children in front of finished levels. */
  ghost predicate InternalPair(p: Pages, root: PageId, up: seq<Spot>, a: Spot, i: nat, thin: PageId,
                               rest: seq<seq<Token>>) {
    HasPair(p, a, i) && rest != [] && a.id != 0
    && SpotString((up + [a])[0]) == [P(root)]
    && Steps(p, up + [a]) && Internals(p, SpotString(a), 0)
    && (var s, k, r := PairSpot(p, a, i), p[a.id].keys[i], p[a.id].children[i + 1];
        && Internals(p, SplitString(s, k, r), thin) && (thin == s.id || thin == r)
        && Expand(p, SplitString(s, k, r)) == rest[0]
        && Apart(up, a, s, r, rest))
    && Finished(p, rest)
  }

  ghost predicate BesidePair(a: PageId, s: Spot, r: PageId) {
    forall x <- {a, s.id, r} :: P(x) !in s.left && P(x) !in s.right
  }

  lemma {:induction false} SideInternals(p: Pages, q: Pages, a: PageId, s: Spot, k: Key, r: PageId, thin: PageId,
                                         id: PageId)
    requires Internals(p, SplitString(s, k, r), thin) && (thin == s.id || thin == r)
    requires Except(p, q, {a, s.id, r}) && BesidePair(a, s, r)
    requires P(id) in s.left || P(id) in s.right
    ensures id in q && InternalFits(q[id]) && |q[id].keys| >= 1
  {
    assert P(id) in SplitString(s, k, r);
  }

  lemma {:induction false} PairInternals(p: Pages, q: Pages, a: PageId, s: Spot, k: Key, k': Key, r: PageId,
                                         thin: PageId)
    requires Internals(p, SplitString(s, k, r), thin) && (thin == s.id || thin == r)
    requires Except(p, q, {a, s.id, r}) && BesidePair(a, s, r)
    requires s.id in q && InternalFits(q[s.id]) && |q[s.id].keys| >= 1
    ensures Internals(q, SpotString(s), 0)
    ensures r in q && InternalFits(q[r]) && |q[r].keys| >= 1 ==> Internals(q, SplitString(s, k', r), 0)
  {
    hide KeysSize;
    forall id | P(id) in s.left || P(id) in s.right ensures id in q && InternalFits(q[id]) && |q[id].keys| >= 1 {
      SideInternals(p, q, a, s, k, r, thin, id);
    }
  }

  lemma {:induction false} RotateTree(p: Pages, q: Pages, root: PageId, up: seq<Spot>, a: Spot, i: nat, k': Key,
                                      thin: PageId, rest: seq<seq<Token>>)
    requires InternalPair(p, root, up, a, i, thin, rest)
    requires var s, r := PairSpot(p, a, i), p[a.id].children[i + 1];
             && s.id in p && p[s.id].Internal? && |p[s.id].children| == |p[s.id].keys| + 1
             && r in p && p[r].Internal? && |p[r].children| == |p[r].keys| + 1
             && Except(p, q, {a.id, s.id, r}) && Except(q, p, {a.id, s.id, r})
             && a.id in q && q[a.id] == Internal(p[a.id].keys[i := k'], p[a.id].children) && InternalFits(q[a.id])
             && s.id in q && InternalFits(q[s.id]) && |q[s.id].keys| >= 1
             && r in q && InternalFits(q[r]) && |q[r].keys| >= 1
             && p[s.id].keys + [p[a.id].keys[i]] + p[r].keys == q[s.id].keys + [k'] + q[r].keys
             && p[s.id].children + p[r].children == q[s.id].children + q[r].children
    ensures var all := Strings(up + [a]) + ([SplitString(PairSpot(p, a, i), k', p[a.id].children[i + 1])] + rest);
            Finished(q, all) && all[0] == [P(root)]
  {
    hide Steps, Expand, Strings, Count, Finished, Internals, KeysSize, PairSpot, SplitString;
    var s, k, r := PairSpot(p, a, i), p[a.id].keys[i], p[a.id].children[i + 1];
    var some := {a.id, s.id, r};
    ParentReplaced(p, q, up, a, i, k', some);
    ExpandExcept(p, q, s.left, some);
    ExpandExcept(p, q, s.right, some);
    RotatedExpand(p, q, s, k, k', r);
    FinishedExcept(p, q, rest, some);
    PairInternals(p, q, a.id, s, k, k', r, thin);
    FinishedCons(q, SplitString(s, k', r), rest);
    assert Last(up + [a]) == a;
    FinishRoute(q, up + [a], [SplitString(s, k', r)] + rest);
    StringsTop(up, a, [SplitString(s, k', r)] + rest);
  }

  lemma {:induction false} MergeTree(p: Pages, q: Pages, root: PageId, up: seq<Spot>, a: Spot, i: nat, thin: PageId,
                                     rest: seq<seq<Token>>)
    requires InternalPair(p, root, up, a, i, thin, rest)
    requires var s, r := PairSpot(p, a, i), p[a.id].children[i + 1];
             && s.id in p && p[s.id].Internal? && |p[s.id].children| == |p[s.id].keys| + 1
             && r in p && p[r].Internal? && |p[r].children| == |p[r].keys| + 1
             && Except(p, q, {a.id, s.id, r}) && Except(q, p, {a.id, s.id, r})
             && a.id in q && q[a.id] == Joined(p[a.id], i) && InternalFits(q[a.id])
             && s.id in q && InternalFits(q[s.id])
             && q[s.id] == Internal(p[s.id].keys + [p[a.id].keys[i]] + p[r].keys, p[s.id].children + p[r].children)
    ensures Sagging(q, root, up, a, [SpotString(PairSpot(p, a, i))] + rest)
  {
    hide Steps, Expand, Strings, Count, Finished, Internals, KeysSize, PairSpot, SplitString;
    var s, k, r := PairSpot(p, a, i), p[a.id].keys[i], p[a.id].children[i + 1];
    var some := {a.id, s.id, r};
    ParentJoined(p, q, up, a, i, some);
    ExpandExcept(p, q, s.left, some);
    ExpandExcept(p, q, s.right, some);
    MergedExpand(p, q, s, k, r);
    FinishedExcept(p, q, rest, some);
    PairInternals(p, q, a.id, s, k, k, r, thin);
    FinishedCons(q, SpotString(s), rest);
  }

  // ----- borrowing and merging leaves -----

  /** A parent at the end of a route with two leaves below it, one of which may be empty. */
  ghost predicate LeafPair(p: Pages, root: PageId, up: seq<Spot>, a: Spot, i: nat, thin: PageId) {
    HasPair(p, a, i) && a.id != 0
    && SpotString((up + [a])[0]) == [P(root)]
    && Steps(p, up + [a]) && Internals(p, SpotString(a), 0)
    && (var s, k, r := PairSpot(p, a, i), p[a.id].keys[i], p[a.id].children[i + 1];
        var here := SplitString(s, k, r);
        && Leaves(p, here, false, thin) && (thin == s.id || thin == r)
        && Links(p, here, 0) && Ordered(Expand(p, here))
        && Apart(up, a, s, r, []))
  }

  /** The leaf level after a change, all leaves filled. */
  ghost predicate LeafLevel(pages: Pages, s: seq<Token>) {
    Leaves(pages, s, false, 0) && Links(pages, s, 0) && Ordered(Expand(pages, s))
  }

  lemma {:induction false} SideLeaves(p: Pages, q: Pages, a: PageId, s: Spot, k: Key, r: PageId, thin: PageId,
                                      id: PageId)
    requires Leaves(p, SplitString(s, k, r), false, thin) && (thin == s.id || thin == r)
    requires Except(p, q, {a, s.id, r}) && BesidePair(a, s, r)
    requires P(id) in s.left || P(id) in s.right
    ensures id in q && LeafFits(q[id]) && |q[id].entries| >= 1
  {
    assert P(id) in SplitString(s, k, r);
  }

  lemma {:induction false} PairLeaves(p: Pages, q: Pages, a: PageId, s: Spot, k: Key, k': Key, r: PageId, thin: PageId)
    requires Leaves(p, SplitString(s, k, r), false, thin) && (thin == s.id || thin == r)
    requires Except(p, q, {a, s.id, r}) && BesidePair(a, s, r)
    requires s.id in q && LeafFits(q[s.id]) && |q[s.id].entries| >= 1
    ensures Leaves(q, SpotString(s), false, 0)
    ensures r in q && LeafFits(q[r]) && |q[r].entries| >= 1 ==> Leaves(q, SplitString(s, k', r), false, 0)
  {
    hide EntriesSize;
    forall id | P(id) in s.left || P(id) in s.right ensures id in q && LeafFits(q[id]) && |q[id].entries| >= 1 {
      SideLeaves(p, q, a, s, k, r, thin, id);
    }
  }

  /** Around a pair of linked leaves. */
  lemma {:induction false} PairLinks(p: Pages, s: Spot, k: Key, r: PageId)
    ensures Links(p, SplitString(s, k, r), 0) <==>
            && Links(p, s.left, s.id) && Links(p, s.right, 0)
            && s.id in p && p[s.id].Leaf? && p[s.id].next == r && r in p && p[r].Leaf?
            && p[r].next == FirstPage(s.right, 0)
  {
    var mid := [P(s.id), K(k), P(r)];
    LinksConcat(p, s.left + mid, s.right, 0);
    LinksConcat(p, s.left, mid, FirstPage(s.right, 0));
    LinksPair(p, s.id, k, r, FirstPage(s.right, 0));
  }

  lemma {:induction false} SpotLinks(p: Pages, s: Spot)
    ensures Links(p, SpotString(s), 0) <==>
            && Links(p, s.left, s.id) && Links(p, s.right, 0)
            && s.id in p && p[s.id].Leaf? && p[s.id].next == FirstPage(s.right, 0)
  {
    LinksConcat(p, s.left + [P(s.id)], s.right, 0);
    LinksConcat(p, s.left, [P(s.id)], FirstPage(s.right, 0));
    assert [P(s.id)][1..] == [];
  }

  lemma {:induction false} SideLinks(p: Pages, q: Pages, a: PageId, s: Spot, r: PageId)
    requires Links(p, s.left, s.id) && Links(p, s.right, 0) && Except(p, q, {a, s.id, r}) && BesidePair(a, s, r)
    ensures Links(q, s.left, s.id) && Links(q, s.right, 0)
  {
    LinksFrame(p, q, s.left, s.id);
    LinksFrame(p, q, s.right, 0);
  }

  /** The in-order string without the separator of the pair. */
  lemma {:induction false} PairSequence(p: Pages, s: Spot, k: Key, r: PageId)
    requires s.id in p && p[s.id].Leaf? && r in p && p[r].Leaf? && Ordered(Expand(p, SplitString(s, k, r)))
    ensures var l, e, b := Expand(p, s.left), EntryString(p[s.id].entries + p[r].entries), Expand(p, s.right);
            && Ordered(l + e + b) && MapOf(l + e + b) == MapOf(Expand(p, SplitString(s, k, r)))
            && forall n :: Uniform(Expand(p, SplitString(s, k, r)), n) ==> Uniform(l + e + b, n)
  {
    var l, b := Expand(p, s.left), Expand(p, s.right);
    var x, y := EntryString(p[s.id].entries), EntryString(p[r].entries);
    ExpandAroundPair(p, s.left, s.id, k, r, s.right);
    EntryStringConcat(p[s.id].entries, p[r].entries);
    DropSeparator(l, x, k, y, b);
  }

  lemma {:induction false} DropSeparator(l: seq<Token>, x: seq<Token>, k: Key, y: seq<Token>, b: seq<Token>)
    requires Ordered(l + x + [K(k)] + y + b)
    ensures Ordered(l + (x + y) + b) && MapOf(l + (x + y) + b) == MapOf(l + x + [K(k)] + y + b)
    ensures forall n :: Uniform(l + x + [K(k)] + y + b, n) ==> Uniform(l + (x + y) + b, n)
  {
    assert forall t <- l + (x + y) + b :: t in l + x + [K(k)] + y + b;
    assert l + x + [K(k)] + y + b == (l + x) + [K(k)] + (y + b);
    assert l + (x + y) + b == (l + x) + (y + b);
    OrderedRemove(l + x, [K(k)], y + b);
    MapPutSeparator(l + x, k, y + b);
  }

  /** Entries moved between two leaves with the separator following them keep the map. */
  lemma {:induction false} BorrowSequence(p: Pages, q: Pages, s: Spot, k: Key, r: PageId)
    requires s.id in p && p[s.id].Leaf? && r in p && p[r].Leaf? && Ordered(Expand(p, SplitString(s, k, r)))
    requires s.id in q && q[s.id].Leaf? && r in q && q[r].Leaf? && q[s.id].entries != [] && q[r].entries != []
    requires p[s.id].entries + p[r].entries == q[s.id].entries + q[r].entries
    requires Expand(q, s.left) == Expand(p, s.left) && Expand(q, s.right) == Expand(p, s.right)
    ensures var k' := q[r].entries[0].key;
            && Ordered(Expand(q, SplitString(s, k', r)))
            && MapOf(Expand(q, SplitString(s, k', r))) == MapOf(Expand(p, SplitString(s, k, r)))
            && forall n :: Uniform(Expand(p, SplitString(s, k, r)), n) ==> Uniform(Expand(q, SplitString(s, k', r)), n)
  {
    var x, y := q[s.id].entries, q[r].entries;
    var l, b := Expand(p, s.left), Expand(p, s.right);
    PairSequence(p, s, k, r);
    EntryStringConcat(x, y);
    EntryStringEnds(x);
    Associate(l, EntryString(x), EntryString(y), b);
    Separate(l + EntryString(x), y, b);
    ExpandAroundPair(q, s.left, s.id, y[0].key, r, s.right);
  }

  lemma {:induction false} BorrowTree(p: Pages, q: Pages, root: PageId, up: seq<Spot>, a: Spot, i: nat, thin: PageId)
    requires LeafPair(p, root, up, a, i, thin)
    requires var s, r := PairSpot(p, a, i), p[a.id].children[i + 1];
             && s.id in p && p[s.id].Leaf? && r in p && p[r].Leaf?
             && Except(p, q, {a.id, s.id, r}) && Except(q, p, {a.id, s.id, r})
             && s.id in q && LeafFits(q[s.id]) && q[s.id].entries != [] && q[s.id].next == p[s.id].next
             && r in q && LeafFits(q[r]) && q[r].entries != [] && q[r].next == p[r].next
             && p[s.id].entries + p[r].entries == q[s.id].entries + q[r].entries
             && a.id in q && q[a.id] == Internal(p[a.id].keys[i := q[r].entries[0].key], p[a.id].children)
             && InternalFits(q[a.id])
    ensures var s, k, r := PairSpot(p, a, i), p[a.id].keys[i], p[a.id].children[i + 1];
            var now := SplitString(s, q[r].entries[0].key, r);
            && Finished(q, Strings(up + [a]) + [now]) && (Strings(up + [a]) + [now])[0] == [P(root)]
            && LeafLevel(q, now) && MapOf(Expand(q, now)) == MapOf(Expand(p, SplitString(s, k, r)))
            && forall n :: Uniform(Expand(p, SplitString(s, k, r)), n) ==> Uniform(Expand(q, now), n)
  {
    hide Steps, Expand, Strings, Count, Finished, Internals, KeysSize, EntriesSize, PairSpot, SplitString, Links,
         Leaves, MapOf, Ordered, Uniform;
    var s, k, r := PairSpot(p, a, i), p[a.id].keys[i], p[a.id].children[i + 1];
    var some := {a.id, s.id, r};
    var k' := q[r].entries[0].key;
    ParentReplaced(p, q, up, a, i, k', some);
    ExpandExcept(p, q, s.left, some);
    ExpandExcept(p, q, s.right, some);
    BorrowSequence(p, q, s, k, r);
    PairLinks(p, s, k, r);
    SideLinks(p, q, a.id, s, r);
    PairLinks(q, s, k', r);
    PairLeaves(p, q, a.id, s, k, k', r, thin);
    FinishedOne(q, SplitString(s, k', r));
    assert Last(up + [a]) == a;
    FinishRoute(q, up + [a], [SplitString(s, k', r)]);
    StringsTop(up, a, [SplitString(s, k', r)]);
  }

  lemma {:induction false} MergeLeavesTree(p: Pages, q: Pages, root: PageId, up: seq<Spot>, a: Spot, i: nat,
                                           thin: PageId)
    requires LeafPair(p, root, up, a, i, thin)
    requires var s, r := PairSpot(p, a, i), p[a.id].children[i + 1];
             && s.id in p && p[s.id].Leaf? && r in p && p[r].Leaf?
             && Except(p, q, {a.id, s.id, r}) && Except(q, p, {a.id, s.id, r})
             && s.id in q && LeafFits(q[s.id]) && q[s.id].entries == p[s.id].entries + p[r].entries != []
             && q[s.id].next == p[r].next
             && a.id in q && q[a.id] == Joined(p[a.id], i) && InternalFits(q[a.id])
    ensures var s, k, r := PairSpot(p, a, i), p[a.id].keys[i], p[a.id].children[i + 1];
            && Sagging(q, root, up, a, [SpotString(s)])
            && LeafLevel(q, SpotString(s)) && MapOf(Expand(q, SpotString(s))) == MapOf(Expand(p, SplitString(s, k, r)))
            && forall n :: Uniform(Expand(p, SplitString(s, k, r)), n) ==> Uniform(Expand(q, SpotString(s)), n)
  {
    hide Steps, Expand, Strings, Count, Finished, Internals, KeysSize, EntriesSize, PairSpot, SplitString, Links,
         Leaves, MapOf, Ordered, Uniform;
    var s, k, r := PairSpot(p, a, i), p[a.id].keys[i], p[a.id].children[i + 1];
    var some := {a.id, s.id, r};
    ParentJoined(p, q, up, a, i, some);
    ExpandExcept(p, q, s.left, some);
    ExpandExcept(p, q, s.right, some);
    PairSequence(p, s, k, r);
    ExpandAround(q, s.left, s.id, s.right);
    PairLinks(p, s, k, r);
    SideLinks(p, q, a.id, s, r);
    SpotLinks(q, s);
    PairLeaves(p, q, a.id, s, k, k, r, thin);
    FinishedOne(q, SpotString(s));
  }

  // ----- from a sagging page to a pair -----

  /** Parent and pair fit, with keys of one length. */
  ghost predicate NodePair(p: Pages, a: PageId, i: nat, n: nat) {
    a in p && InternalFits(p[a]) && i < |p[a].keys| && OneLength(p[a].keys, n)
    && (var l, r := p[a].children[i], p[a].children[i + 1];
        l in p && InternalFits(p[l]) && OneLength(p[l].keys, n) && r in p && InternalFits(p[r])
            && OneLength(p[r].keys, n))
  }

  lemma {:induction false} PageKeysUniform(p: Pages, s: Spot, n: nat)
    requires s.id in p && InternalFits(p[s.id]) && Uniform(Expand(p, SpotString(s)), n)
    ensures OneLength(p[s.id].keys, n)
  {
    var Internal(ks, cs) := p[s.id];
    ExpandAround(p, s.left, s.id, s.right);
    forall k | k in ks ensures |k| == n {
      AfterHas(ks, cs[1..], k);
      assert K(k) in NodeString(ks, cs);
      assert K(k) in Expand(p, SpotString(s));
    }
  }

  lemma {:induction false} PairKeysUniform(p: Pages, s: Spot, k: Key, r: PageId, n: nat)
    requires s.id in p && InternalFits(p[s.id]) && r in p && InternalFits(p[r])
    requires Uniform(Expand(p, SplitString(s, k, r)), n)
    ensures OneLength(p[s.id].keys, n) && OneLength(p[r].keys, n)
  {
    var x, y := Spot(s.left, s.id, [K(k), P(r)] + s.right, 0), Spot(s.left + [P(s.id), K(k)], r, s.right, 0);
    assert SpotString(x) == SplitString(s, k, r) && SpotString(y) == SplitString(s, k, r);
    PageKeysUniform(p, x, n);
    PageKeysUniform(p, y, n);
  }

  lemma {:induction false} UniformUp(p: Pages, s: seq<Token>, n: nat)
    requires Ordered(Expand(p, s)) && Uniform(Expand(p, s), n)
    ensures Ordered(s) && Uniform(s, n)
  {
    OrderedUp(p, s);
  }

  /** The spot of either child of a pair and the pair are the same string. */
  lemma {:induction false} SameString(p: Pages, a: Spot, here: Spot, i: nat)
    requires StepDown(p, a, here) && HasPair(p, a, i)
    ensures SpotString(here) == SplitString(PairSpot(p, a, i), p[a.id].keys[i], p[a.id].children[i + 1])
    ensures Expand(p, SpotString(a)) == SpotString(here)
    ensures PairSpot(p, a, i).id == p[a.id].children[i]
  {
    StepExpands(p, a, here);
    assert p[a.id].keys[i := p[a.id].keys[i]] == p[a.id].keys;
    PairExpand(p, p, a, i, p[a.id].keys[i]);
  }

  lemma {:induction false} RegroupLevels(up: seq<Spot>, a: Spot, here: Spot, rest: seq<seq<Token>>)
    ensures Strings(up + [a] + [here]) + rest == Strings(up + [a]) + ([SpotString(here)] + rest)
  {
    StringsLast(up + [a], here);
  }

  lemma {:induction false} PairFromSag(p: Pages, root: PageId, up: seq<Spot>, a: Spot, here: Spot,
                                       rest: seq<seq<Token>>, i: nat, n: nat)
    requires Sagging(p, root, up + [a], here, rest) && a.id != 0
    requires HasPair(p, a, i) && (i == a.child || i + 1 == a.child)
    requires forall x :: Count(Strings(up + [a] + [here]) + rest, x) <= 1
    requires Ordered(rest[0]) && Uniform(rest[0], n)
    ensures InternalPair(p, root, up, a, i, here.id, rest) && NodePair(p, a.id, i, n)
    ensures PairSpot(p, a, i).id == p[a.id].children[i]
    ensures p[a.id].children[i] == here.id || p[a.id].children[i + 1] == here.id
    ensures p[a.id].children[i] != here.id ==> |p[p[a.id].children[i]].keys| >= 1
    ensures p[a.id].children[i + 1] != here.id ==> |p[p[a.id].children[i + 1]].keys| >= 1
    ensures SpotString(here) == SplitString(PairSpot(p, a, i), p[a.id].keys[i], p[a.id].children[i + 1])
  {
    hide Steps, Expand, Strings, Count, Finished, KeysSize, PairSpot, Ordered, Uniform, OneLength, Apart;
    var s, k, r := PairSpot(p, a, i), p[a.id].keys[i], p[a.id].children[i + 1];
    StepsSplit(p, up, a, here);
    SameString(p, a, here, i);
    RegroupLevels(up, a, here, rest);
    PairApart(up, a, s, k, r, rest);
    assert P(s.id) in SplitString(s, k, r) && P(r) in SplitString(s, k, r);
    UniformUp(p, SpotString(here), n);
    assert P(a.id) in SpotString(a);
    PageKeysUniform(p, a, n);
    PairKeysUniform(p, s, k, r, n);
    assert (up + [a] + [here])[0] == (up + [a])[0];
  }

  lemma {:induction false} ChosenKept(p: Pages, q: Pages, up: seq<Spot>, key: Key, some: set<PageId>)
    requires AllChosen(p, up, key) && Except(p, q, some) && Missing(Strings(up), some)
    ensures AllChosen(q, up, key)
  {
    forall s | s in up ensures Chosen(q, s, key) {
      var k :| 0 <= k < |up| && up[k] == s;
      StringsAt(up, k);
      assert P(s.id) in SpotString(s);
      CountZero(Strings(up), s.id);
    }
  }

  lemma {:induction false} KeptTwice(p: Pages, p1: Pages, q: Pages, s: seq<Token>, rest: seq<seq<Token>>)
    requires Kept(p, p1, rest) && Kept(p1, q, [s] + rest)
    ensures Kept(p, q, rest)
  {
    forall id | Count(rest, id) > 0 && id in p ensures id in q && q[id] == p[id] {
      CountConcat([s], rest, id);
    }
  }

  lemma {:induction false} SuffixTail<T>(all: seq<T>, x: T, rest: seq<T>)
    requires |all| > |rest| && all[|all| - |rest| - 1..] == [x] + rest
    ensures all[|all| - |rest|..] == rest
  {
    assert all[|all| - |rest|..] == all[|all| - |rest| - 1..][1..];
  }

  /** A leaf with the entry it had to give up gone, or with room for the one it gets. */
  ghost predicate LeafFacts(p: Pages, x: PageId, thin: PageId) {
    x in p && p[x].Leaf? && LeafFits(p[x]) && (x == thin || p[x].entries != [])
  }

  lemma {:induction false} PairFromLeaf(p: Pages, root: PageId, up: seq<Spot>, a: Spot, here: Spot, i: nat, n: nat)
    requires Shape(p, Strings(up + [a] + [here]), here.id) && here.id != 0 && a.id != 0
    requires SpotString((up + [a] + [here])[0]) == [P(root)] && Steps(p, up + [a] + [here])
    requires HasPair(p, a, i) && (i == a.child || i + 1 == a.child)
    requires forall x :: Count(Strings(up + [a] + [here]), x) <= 1
    requires Uniform(Expand(p, SpotString(here)), n)
    ensures LeafPair(p, root, up, a, i, here.id)
    ensures InternalFits(p[a.id]) && OneLength(p[a.id].keys, n)
    ensures PairSpot(p, a, i).id == p[a.id].children[i]
    ensures p[a.id].children[i] == here.id || p[a.id].children[i + 1] == here.id
    ensures LeafFacts(p, p[a.id].children[i], here.id) && LeafFacts(p, p[a.id].children[i + 1], here.id)
    ensures SpotString(here) == SplitString(PairSpot(p, a, i), p[a.id].keys[i], p[a.id].children[i + 1])
  {
    hide Steps, Expand, Strings, Count, Finished, KeysSize, PairSpot, Ordered, Uniform, OneLength, Apart, Links,
         EntriesSize, Chain;
    var s, k, r := PairSpot(p, a, i), p[a.id].keys[i], p[a.id].children[i + 1];
    var ls := Strings(up + [a] + [here]);
    StepsSplit(p, up, a, here);
    SameString(p, a, here, i);
    RegroupLevels(up, a, here, []);
    assert ls + [] == ls;
    PairApart(up, a, s, k, r, []);
    StringsAt(up + [a] + [here], |up| + 1);
    assert Last(ls) == SpotString(here);
    assert P(s.id) in SplitString(s, k, r) && P(r) in SplitString(s, k, r);
    UniformUp(p, SpotString(here), n);
    assert P(a.id) in SpotString(a);
    PageKeysUniform(p, a, n);
    assert (up + [a] + [here])[0] == (up + [a])[0];
  }
}
