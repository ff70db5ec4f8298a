/** What makes a set of pages a B+ tree, and the moves that keep it one. */
module Trees {
  import opened Keys
  import opened Nodes
  import opened Levels

  ghost function Last<T>(s: seq<T>): T
    requires s != []
  {
    s[|s| - 1]
  }

  // ----- pages of a level -----

  /** Internal pages that fit and have a separator; only page `thin`, if not 0, may have none. */
  ghost predicate Internals(pages: Pages, s: seq<Token>, thin: PageId) {
    forall id :: P(id) in s ==>
      id in pages && InternalFits(pages[id]) && ((thin != 0 && id == thin) || |pages[id].keys| >= 1)
  }

  /** Leaf pages that fit and are not empty; only a lone leaf and page `thin`, if not 0, may be. */
  ghost predicate Leaves(pages: Pages, s: seq<Token>, lone: bool, thin: PageId) {
    forall id :: P(id) in s ==>
      id in pages && LeafFits(pages[id]) && (lone || (thin != 0 && id == thin) || |pages[id].entries| >= 1)
  }

  ghost function FirstPage(s: seq<Token>, end: PageId): PageId {
    if s == [] then end else if s[0].P? then s[0].id else FirstPage(s[1..], end)
  }

  /** Every leaf's right sibling is the next page of the string, the last one's is `end`. */
  ghost predicate Links(pages: Pages, s: seq<Token>, end: PageId) {
    s == [] ||
    ((s[0].P? ==> s[0].id in pages && pages[s[0].id].Leaf? && pages[s[0].id].next == FirstPage(s[1..], end))
     && Links(pages, s[1..], end))
  }

  lemma {:induction false} FirstPageConcat(a: seq<Token>, b: seq<Token>, end: PageId)
    ensures FirstPage(a + b, end) == FirstPage(a, FirstPage(b, end))
  {
    if a == [] {
      assert a + b == b;
    } else {
      assert (a + b)[1..] == a[1..] + b;
      FirstPageConcat(a[1..], b, end);
    }
  }

  lemma {:induction false} LinksConcat(pages: Pages, a: seq<Token>, b: seq<Token>, end: PageId)
    ensures Links(pages, a + b, end) <==> Links(pages, a, FirstPage(b, end)) && Links(pages, b, end)
  {
    if a == [] {
      assert a + b == b;
    } else {
      assert (a + b)[1..] == a[1..] + b;
      FirstPageConcat(a[1..], b, end);
      LinksConcat(pages, a[1..], b, end);
    }
  }

  lemma {:induction false} LinksPair(pages: Pages, x: PageId, k: Key, y: PageId, end: PageId)
    ensures Links(pages, [P(x), K(k), P(y)], end) <==>
            x in pages && pages[x].Leaf? && pages[x].next == y && y in pages && pages[y].Leaf? && pages[y].next == end
  {
    var s, t, u := [P(x), K(k), P(y)], [K(k), P(y)], [P(y)];
    assert s[1..] == t && t[1..] == u && u[1..] == [];
    assert Links(pages, u, end) <==> y in pages && pages[y].Leaf? && pages[y].next == end;
    assert Links(pages, t, end) <==> Links(pages, u, end);
    assert FirstPage(u, end) == y && FirstPage(t, end) == y;
  }

  lemma {:induction false} LinksFrame(p: Pages, q: Pages, s: seq<Token>, end: PageId)
    requires Links(p, s, end)
    requires forall id :: P(id) in s && id in p ==> id in q && q[id] == p[id]
    ensures Links(q, s, end)
  {
    if s != [] {
      assert s[0] in s && forall t <- s[1..] :: t in s;
      LinksFrame(p, q, s[1..], end);
    }
  }

  // ----- the stack of levels -----

  /** Level `k + 1` is what the pages of level `k` hold. */
  ghost predicate ExpandsAt(pages: Pages, ls: seq<seq<Token>>, k: nat)
    requires k + 1 < |ls|
  {
    ls[k + 1] == Expand(pages, ls[k])
  }

  ghost predicate Chain(pages: Pages, ls: seq<seq<Token>>) {
    forall k: nat :: k + 1 < |ls| ==> ExpandsAt(pages, ls, k)
  }

  /** How often page `x` stands in the levels. */
  ghost function Count(ls: seq<seq<Token>>, x: PageId): nat {
    if ls == [] then 0 else multiset(ls[0])[P(x)] + Count(ls[1..], x)
  }

  lemma {:induction false} CountConcat(a: seq<seq<Token>>, b: seq<seq<Token>>, x: PageId)
    ensures Count(a + b, x) == Count(a, x) + Count(b, x)
  {
    if a == [] {
      assert a + b == b;
    } else {
      assert (a + b)[1..] == a[1..] + b;
      CountConcat(a[1..], b, x);
    }
  }

  lemma {:induction false} CountAt(ls: seq<seq<Token>>, k: nat, x: PageId)
    requires k < |ls|
    ensures Count(ls, x) == Count(ls[..k], x) + multiset(ls[k])[P(x)] + Count(ls[k + 1..], x)
  {
    assert ls == ls[..k] + ls[k..];
    CountConcat(ls[..k], ls[k..], x);
    assert ls[k..][1..] == ls[k + 1..];
  }

  lemma {:induction false} CountZero(ls: seq<seq<Token>>, x: PageId)
    ensures Count(ls, x) == 0 <==> forall k :: 0 <= k < |ls| ==> P(x) !in ls[k]
  {
    if ls != [] {
      CountZero(ls[1..], x);
      if Count(ls, x) == 0 {
        forall k | 0 <= k < |ls| ensures P(x) !in ls[k] {
          if k > 0 { assert ls[k] == ls[1..][k - 1]; }
        }
      } else if Count(ls[1..], x) != 0 {
        var k :| 0 <= k < |ls[1..]| && P(x) in ls[1..][k];
        assert P(x) in ls[k + 1];
      } else {
        assert P(x) in ls[0];
      }
    }
  }

  /** A page counted once stands in one place only. */
  lemma {:induction false} CountOnce(ls: seq<seq<Token>>, k: nat, a: seq<Token>, x: PageId, b: seq<Token>)
    requires k < |ls| && ls[k] == a + [P(x)] + b && Count(ls, x) <= 1
    ensures P(x) !in a && P(x) !in b
    ensures forall j :: 0 <= j < |ls| && j != k ==> P(x) !in ls[j]
  {
    CountAt(ls, k, x);
    assert multiset(ls[k]) == multiset(a) + multiset{P(x)} + multiset(b);
    CountZero(ls[..k], x);
    CountZero(ls[k + 1..], x);
    forall j | 0 <= j < |ls| && j != k ensures P(x) !in ls[j] {
      if j < k { assert ls[j] == ls[..k][j]; } else { assert ls[j] == ls[k + 1..][j - k - 1]; }
    }
  }

  /** The in-order string of a whole tree. */
  ghost function InOrder(pages: Pages, ls: seq<seq<Token>>): seq<Token>
    requires ls != []
  {
    Expand(pages, Last(ls))
  }

  /** A B+ tree; only the leaf `thin`, if not 0, may be empty beside other leaves. */
  ghost predicate Shape(pages: Pages, ls: seq<seq<Token>>, thin: PageId) {
    ls != []
    && Chain(pages, ls)
    && (forall k :: 0 <= k < |ls| - 1 ==> Internals(pages, ls[k], 0))
    && Leaves(pages, Last(ls), |ls| == 1, thin)
    && Links(pages, Last(ls), 0)
    && Ordered(InOrder(pages, ls))
  }

  /** Order at the bottom is order on every level. */
  lemma {:induction false} ChainOrdered(pages: Pages, ls: seq<seq<Token>>, k: nat)
    requires Chain(pages, ls) && k < |ls| && Ordered(InOrder(pages, ls))
    ensures Ordered(ls[k]) && Ordered(Expand(pages, ls[k]))
    ensures forall t :: t in ls[k] && !t.P? ==> t in InOrder(pages, ls)
    decreases |ls| - k
  {
    if k + 1 < |ls| {
      ChainOrdered(pages, ls, k + 1);
      assert ExpandsAt(pages, ls, k);
    }
    OrderedUp(pages, ls[k]);
  }

  // ----- descending -----

  /** One page of a level with what stands around it; `child` is the way down from it. */
  datatype Spot = Spot(left: seq<Token>, id: PageId, right: seq<Token>, child: nat)

  ghost function SpotString(s: Spot): seq<Token> { s.left + [P(s.id)] + s.right }

  /** `b` is child number `a.child` of the page at `a`. */
  ghost predicate StepDown(pages: Pages, a: Spot, b: Spot) {
    a.id in pages && InternalFits(pages[a.id])
    && (var Internal(ks, cs) := pages[a.id];
        a.child < |cs| && b.id == cs[a.child]
        && b.left == Expand(pages, a.left) + Before(ks[..a.child], cs[..a.child])
        && b.right == After(ks[a.child..], cs[a.child + 1..]) + Expand(pages, a.right))
  }

  /** Where the child chosen at `a` stands on the next level. */
  ghost function ChildSpot(pages: Pages, a: Spot): (b: Spot)
    requires a.id in pages && InternalFits(pages[a.id]) && a.child < |pages[a.id].children|
    ensures StepDown(pages, a, b)
  {
    var Internal(ks, cs) := pages[a.id];
    Spot(Expand(pages, a.left) + Before(ks[..a.child], cs[..a.child]), cs[a.child],
         After(ks[a.child..], cs[a.child + 1..]) + Expand(pages, a.right), 0)
  }

  ghost predicate StepAt(pages: Pages, spots: seq<Spot>, k: nat)
    requires k + 1 < |spots|
  {
    StepDown(pages, spots[k], spots[k + 1])
  }

  ghost function Strings(spots: seq<Spot>): (ls: seq<seq<Token>>)
    ensures |ls| == |spots|
  {
    if spots == [] then [] else [SpotString(spots[0])] + Strings(spots[1..])
  }

  lemma {:induction false} StringsConcat(a: seq<Spot>, b: seq<Spot>)
    ensures Strings(a + b) == Strings(a) + Strings(b)
  {
    if a == [] {
      assert a + b == b;
    } else {
      assert (a + b)[1..] == a[1..] + b;
      StringsConcat(a[1..], b);
    }
  }

  lemma {:induction false} StringsAt(spots: seq<Spot>, k: nat)
    requires k < |spots|
    ensures Strings(spots)[k] == SpotString(spots[k])
  {
    if k > 0 { StringsAt(spots[1..], k - 1); }
  }

  lemma {:induction false} StringsLast(a: seq<Spot>, s: Spot)
    ensures Strings(a + [s]) == Strings(a) + [SpotString(s)]
  {
    StringsConcat(a, [s]);
    assert [s][1..] == [];
  }

  ghost predicate AllSteps(pages: Pages, spots: seq<Spot>) {
    forall k: nat :: k + 1 < |spots| ==> StepAt(pages, spots, k)
  }

  ghost predicate AtMost(ks: seq<Key>, key: Key) { forall k <- ks :: !Lt(key, k) }
  ghost predicate Above(ks: seq<Key>, key: Key) { forall k <- ks :: Lt(key, k) }

  /** The descent takes the child after the last separator that is at most the key. */
  ghost predicate Chosen(pages: Pages, a: Spot, key: Key) {
    a.id in pages && pages[a.id].Internal? && a.child <= |pages[a.id].keys|
    && AtMost(pages[a.id].keys[..a.child], key) && Above(pages[a.id].keys[a.child..], key)
  }

  /** The separators next to the spot have the key between them. */
  ghost predicate Guarded(s: Spot, key: Key) {
    (s.left != [] ==> Last(s.left).K? && !Lt(key, Last(s.left).key))
    && (s.right != [] ==> s.right[0].K? && Lt(key, s.right[0].key))
  }

  ghost predicate AllGuarded(spots: seq<Spot>, key: Key) {
    forall s <- spots :: Guarded(s, key)
  }

  ghost predicate AllChosen(pages: Pages, spots: seq<Spot>, key: Key) {
    forall s <- spots :: Chosen(pages, s, key)
  }

  /** A descent from the root to a leaf. */
  ghost predicate Route(pages: Pages, ls: seq<seq<Token>>, spots: seq<Spot>, key: Key) {
    spots != [] && ls == Strings(spots)
    && AllSteps(pages, spots) && AllGuarded(spots, key) && AllChosen(pages, spots[..|spots| - 1], key)
  }

  /** All keys of the string have one length. */
  ghost predicate Uniform(s: seq<Token>, n: nat) {
    forall t <- s :: t.P? || |TokenKey(t)| == n
  }

  lemma {:induction false} UniformConcat(a: seq<Token>, b: seq<Token>, n: nat)
    ensures Uniform(a + b, n) <==> Uniform(a, n) && Uniform(b, n)
  {
    if Uniform(a + b, n) {
      assert forall t <- a :: t in a + b;
      assert forall t <- b :: t in a + b;
    }
  }

  lemma {:induction false} BeforeEnds(ks: seq<Key>, cs: seq<PageId>)
    requires |ks| == |cs| && ks != []
    ensures Before(ks, cs) != [] && Last(Before(ks, cs)) == K(Last(ks))
  {
    var n := |ks| - 1;
    BeforeConcat(ks[..n], cs[..n], ks[n..], cs[n..]);
    assert ks == ks[..n] + ks[n..] && cs == cs[..n] + cs[n..];
    assert Before(ks[n..], cs[n..]) == [P(cs[n]), K(ks[n])] + Before([], []);
  }

  lemma {:induction false} ExpandKeepsLast(pages: Pages, s: seq<Token>)
    requires s != [] && Last(s).K?
    ensures Expand(pages, s) != [] && Last(Expand(pages, s)) == Last(s)
  {
    var n := |s| - 1;
    assert s == s[..n] + [s[n]];
    ExpandConcat(pages, s[..n], [s[n]]);
    ExpandOne(pages, s[n]);
  }

  lemma {:induction false} ExpandKeepsFirst(pages: Pages, s: seq<Token>)
    requires s != [] && s[0].K?
    ensures Expand(pages, s) != [] && Expand(pages, s)[0] == s[0]
  {
  }

  lemma {:induction false} Regroup(l: seq<Token>, a: seq<Token>, m: seq<Token>, b: seq<Token>, r: seq<Token>)
    ensures l + (a + m + b) + r == (l + a) + m + (b + r)
  {
  }

  lemma {:induction false} StepExpands(pages: Pages, a: Spot, b: Spot)
    requires StepDown(pages, a, b)
    ensures Expand(pages, SpotString(a)) == SpotString(b)
  {
    var Internal(ks, cs) := pages[a.id];
    NodeAround(ks, cs, a.child);
    ExpandAround(pages, a.left, a.id, a.right);
    Regroup(Expand(pages, a.left), Before(ks[..a.child], cs[..a.child]), [P(b.id)],
            After(ks[a.child..], cs[a.child + 1..]), Expand(pages, a.right));
  }

  lemma {:induction false} StepGuardedLeft(pages: Pages, a: Spot, ks: seq<Key>, cs: seq<PageId>, key: Key)
    requires |ks| == |cs| && AtMost(ks, key)
    requires a.left != [] ==> Last(a.left).K? && !Lt(key, Last(a.left).key)
    ensures var l := Expand(pages, a.left) + Before(ks, cs);
            l != [] ==> Last(l).K? && !Lt(key, Last(l).key)
  {
    var e := Expand(pages, a.left);
    if ks != [] {
      BeforeEnds(ks, cs);
      assert Last(e + Before(ks, cs)) == Last(Before(ks, cs));
      assert Last(ks) in ks;
    } else {
      assert e + Before(ks, cs) == e;
      if a.left != [] { ExpandKeepsLast(pages, a.left); }
    }
  }

  lemma {:induction false} StepGuardedRight(pages: Pages, a: Spot, ks: seq<Key>, cs: seq<PageId>, key: Key)
    requires |ks| == |cs| && Above(ks, key)
    requires a.right != [] ==> a.right[0].K? && Lt(key, a.right[0].key)
    ensures var r := After(ks, cs) + Expand(pages, a.right);
            r != [] ==> r[0].K? && Lt(key, r[0].key)
  {
    var e := Expand(pages, a.right);
    if ks != [] {
      assert (After(ks, cs) + e)[0] == K(ks[0]);
      assert ks[0] in ks;
    } else {
      assert After(ks, cs) + e == e;
      if a.right != [] { ExpandKeepsFirst(pages, a.right); }
    }
  }

  /** Going down one page keeps the key between the neighbouring separators. */
  lemma {:induction false} StepGuarded(pages: Pages, a: Spot, b: Spot, key: Key)
    requires StepDown(pages, a, b) && Guarded(a, key) && Chosen(pages, a, key)
    ensures Guarded(b, key)
    ensures Expand(pages, SpotString(a)) == SpotString(b)
  {
    var Internal(ks, cs) := pages[a.id];
    StepExpands(pages, a, b);
    StepGuardedLeft(pages, a, ks[..a.child], cs[..a.child], key);
    StepGuardedRight(pages, a, ks[a.child..], cs[a.child + 1..], key);
  }

  /** Steps do not depend on the way chosen from their lower end. */
  lemma {:induction false} StepsExtend(pages: Pages, up: seq<Spot>, here: Spot, at: Spot, below: Spot)
    requires AllSteps(pages, up + [here])
    requires at == here.(child := at.child) && StepDown(pages, at, below)
    ensures AllSteps(pages, up + [at] + [below])
  {
    var now := up + [at] + [below];
    forall k: nat | k + 1 < |now| ensures StepAt(pages, now, k) {
      if k < |up| { assert StepAt(pages, up + [here], k); }
    }
  }

  /** A route down to some level goes on to the next one. */
  lemma {:induction false} RouteExtend(pages: Pages, ls: seq<seq<Token>>, up: seq<Spot>, here: Spot, at: Spot,
                                       below: Spot, key: Key)
    requires Route(pages, ls, up + [here], key)
    requires at == here.(child := at.child)
    requires StepDown(pages, at, below) && Chosen(pages, at, key) && Guarded(below, key)
    ensures Route(pages, ls + [SpotString(below)], up + [at] + [below], key)
  {
    StepsExtend(pages, up, here, at, below);
    StringsLast(up, here);
    StringsLast(up, at);
    StringsLast(up + [at], below);
    assert (up + [here])[..|up|] == up;
    assert (up + [at] + [below])[..|up| + 1] == up + [at];
    assert Guarded(here, key) by { assert here in up + [here]; }
    assert forall s <- up :: s in up + [here];
  }

  lemma {:induction false} RouteEnd(pages: Pages, ls: seq<seq<Token>>, up: seq<Spot>, here: Spot, key: Key)
    requires Route(pages, ls, up + [here], key)
    ensures ls != [] && Last(ls) == SpotString(here) && Guarded(here, key)
    ensures |ls| == |up| + 1 && ls[..|up|] == Strings(up)
  {
    StringsLast(up, here);
    assert here in up + [here];
  }

  /** One step of a descent. */
  lemma {:induction false} Descend(pages: Pages, ls: seq<seq<Token>>, above: seq<Spot>, at: Spot, taken: Spot, key: Key)
    requires Route(pages, ls, above + [at], key)
    requires taken == at.(child := taken.child)
    requires at.id in pages && InternalFits(pages[at.id]) && taken.child < |pages[at.id].children|
    requires Chosen(pages, taken, key)
    ensures var below := ChildSpot(pages, taken);
            Expand(pages, SpotString(at)) == SpotString(below)
            && Route(pages, ls + [SpotString(below)], above + [taken] + [below], key)
  {
    var below := ChildSpot(pages, taken);
    assert at in above + [at];
    StepGuarded(pages, taken, below, key);
    RouteExtend(pages, ls, above, at, taken, below, key);
  }

  lemma {:induction false} BelowLast(l: seq<Token>, key: Key)
    requires l != [] && Ordered(l) && Last(l).K? && (Lt(Last(l).key, key) || Last(l).key == key)
    ensures forall t <- l :: !t.P? ==> Lt(TokenKey(t), key) || (t.K? && t.key == key)
  {
    forall t | t in l && !t.P? ensures Lt(TokenKey(t), key) || (t.K? && t.key == key) {
      var i :| 0 <= i < |l| && l[i] == t;
      if i < |l| - 1 { assert Precedes(l[i], Last(l)); }
      LtTransitive(TokenKey(t), Last(l).key, key);
      LtTotal(TokenKey(t), key);
    }
  }

  lemma {:induction false} AboveFirst(r: seq<Token>, key: Key)
    requires r != [] && Ordered(r) && r[0].K? && Lt(key, r[0].key)
    ensures forall t <- r :: !t.P? ==> Lt(key, TokenKey(t))
  {
    forall t | t in r && !t.P? ensures Lt(key, TokenKey(t)) {
      var i :| 0 <= i < |r| && r[i] == t;
      if i > 0 { assert Precedes(r[0], r[i]); }
      LtTransitive(key, r[0].key, TokenKey(t));
    }
  }

  /** Around a guarded leaf everything to the left is smaller than the key, everything to the right larger. */
  lemma {:induction false} LeafBounds(pages: Pages, s: Spot, key: Key)
    requires Guarded(s, key) && Ordered(Expand(pages, SpotString(s)))
    ensures Expand(pages, SpotString(s)) == Expand(pages, s.left) + PageString(pages, s.id) + Expand(pages, s.right)
    ensures forall t <- Expand(pages, s.left) :: !t.P? ==> Lt(TokenKey(t), key) || (t.K? && t.key == key)
    ensures forall t <- Expand(pages, s.right) :: !t.P? ==> Lt(key, TokenKey(t))
  {
    ExpandAround(pages, s.left, s.id, s.right);
    var l, m, r := Expand(pages, s.left), PageString(pages, s.id), Expand(pages, s.right);
    OrderedConcat(l + m, r);
    OrderedConcat(l, m);
    if s.left != [] {
      ExpandKeepsLast(pages, s.left);
      LtTotal(Last(l).key, key);
      BelowLast(l, key);
    }
    if s.right != [] {
      ExpandKeepsFirst(pages, s.right);
      AboveFirst(r, key);
    }
  }
}
