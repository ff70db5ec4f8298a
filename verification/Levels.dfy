/**
  * A B+ tree as a stack of strings.
  *
  * The top string is the root page alone. Expanding a string replaces every page
  * by what the page holds: an internal page by its children with the separators
  * between them, a leaf by its entries; separators already in the string stay
  * where they are. A tree of uniform depth is a root whose expansion reaches
  * only leaves after the same number of steps, and the last expansion is the
  * in-order string of all entries and separators.
  *
  * Splits, merges, borrows and rotations are then local rewrites of one string,
  * and most of them leave the next string unchanged.
  */
module Levels {
  import opened Keys
  import opened Nodes

  datatype Token =
    | P(id: PageId)
    | K(key: Key)
    | E(entry: Entry)

  type Pages = map<PageId, Page>

  // ----- strings of one page -----

  /** child, separator, child, separator, ... */
  ghost function Before(ks: seq<Key>, cs: seq<PageId>): (s: seq<Token>)
    requires |ks| == |cs|
  {
    if ks == [] then [] else [P(cs[0]), K(ks[0])] + Before(ks[1..], cs[1..])
  }

  /** separator, child, separator, child, ... */
  ghost function After(ks: seq<Key>, cs: seq<PageId>): (s: seq<Token>)
    requires |ks| == |cs|
  {
    if ks == [] then [] else [K(ks[0]), P(cs[0])] + After(ks[1..], cs[1..])
  }

  ghost function NodeString(ks: seq<Key>, cs: seq<PageId>): seq<Token>
    requires |cs| == |ks| + 1
  {
    [P(cs[0])] + After(ks, cs[1..])
  }

  ghost function EntryString(es: seq<Entry>): seq<Token> {
    if es == [] then [] else [E(es[0])] + EntryString(es[1..])
  }

  lemma {:induction false} EntryStringConcat(a: seq<Entry>, b: seq<Entry>)
    ensures EntryString(a + b) == EntryString(a) + EntryString(b)
  {
    if a == [] {
      assert a + b == b;
    } else {
      assert (a + b)[1..] == a[1..] + b;
      EntryStringConcat(a[1..], b);
    }
  }

  lemma {:induction false} EntryStringOne(e: Entry)
    ensures EntryString([e]) == [E(e)]
  {
    assert [e][1..] == [];
  }

  lemma {:induction false} EntryStringHas(es: seq<Entry>, t: Token)
    ensures t in EntryString(es) <==> t.E? && t.entry in es
  {
    if es != [] {
      EntryStringHas(es[1..], t);
      assert es == [es[0]] + es[1..];
    }
  }

  lemma {:induction false} BeforeConcat(k1: seq<Key>, c1: seq<PageId>, k2: seq<Key>, c2: seq<PageId>)
    requires |k1| == |c1| && |k2| == |c2|
    ensures Before(k1 + k2, c1 + c2) == Before(k1, c1) + Before(k2, c2)
  {
    if k1 == [] {
      assert k1 + k2 == k2 && c1 + c2 == c2;
    } else {
      assert (k1 + k2)[1..] == k1[1..] + k2 && (c1 + c2)[1..] == c1[1..] + c2;
      BeforeConcat(k1[1..], c1[1..], k2, c2);
    }
  }

  lemma {:induction false} AfterConcat(k1: seq<Key>, c1: seq<PageId>, k2: seq<Key>, c2: seq<PageId>)
    requires |k1| == |c1| && |k2| == |c2|
    ensures After(k1 + k2, c1 + c2) == After(k1, c1) + After(k2, c2)
  {
    if k1 == [] {
      assert k1 + k2 == k2 && c1 + c2 == c2;
    } else {
      assert (k1 + k2)[1..] == k1[1..] + k2 && (c1 + c2)[1..] == c1[1..] + c2;
      AfterConcat(k1[1..], c1[1..], k2, c2);
    }
  }

  /** Two nodes side by side with a separator between them read as one node. */
  lemma {:induction false} NodeJoin(k1: seq<Key>, c1: seq<PageId>, k: Key, k2: seq<Key>, c2: seq<PageId>)
    requires |c1| == |k1| + 1 && |c2| == |k2| + 1
    ensures NodeString(k1 + [k] + k2, c1 + c2) == NodeString(k1, c1) + [K(k)] + NodeString(k2, c2)
  {
    AfterConcat(k1, c1[1..], [k] + k2, c2);
    assert k1 + [k] + k2 == k1 + ([k] + k2);
    assert (c1 + c2)[1..] == c1[1..] + c2;
    assert ([k] + k2)[1..] == k2;
  }

  /** A node's string around its child `i`. */
  lemma {:induction false} NodeAround(ks: seq<Key>, cs: seq<PageId>, i: nat)
    requires |cs| == |ks| + 1 && i < |cs|
    ensures NodeString(ks, cs) == Before(ks[..i], cs[..i]) + [P(cs[i])] + After(ks[i..], cs[i + 1..])
  {
    if i == 0 {
      assert ks[0..] == ks;
    } else {
      NodeAround(ks[1..], cs[1..], i - 1);
      assert ks[..i][1..] == ks[1..][..i - 1] && cs[..i][1..] == cs[1..][..i - 1];
      assert ks[1..][i - 1..] == ks[i..] && cs[1..][i..] == cs[i + 1..];
      assert cs[1..][0] == cs[1];
      calc {
        NodeString(ks, cs);
        [P(cs[0])] + ([K(ks[0]), P(cs[1])] + After(ks[1..], cs[1..][1..]));
        [P(cs[0]), K(ks[0])] + NodeString(ks[1..], cs[1..]);
      }
    }
  }

  // ----- expansion -----

  ghost function PageString(pages: Pages, id: PageId): seq<Token> {
    if id !in pages then [] else
    match pages[id]
    case Leaf(es, _, _) => EntryString(es)
    case Internal(ks, cs) => if |cs| == |ks| + 1 then NodeString(ks, cs) else []
    case Free(_) => []
  }

  ghost function ExpandToken(pages: Pages, t: Token): seq<Token> {
    if t.P? then PageString(pages, t.id) else [t]
  }

  ghost function Expand(pages: Pages, s: seq<Token>): seq<Token> {
    if s == [] then [] else ExpandToken(pages, s[0]) + Expand(pages, s[1..])
  }

  lemma {:induction false} ExpandConcat(pages: Pages, a: seq<Token>, b: seq<Token>)
    ensures Expand(pages, a + b) == Expand(pages, a) + Expand(pages, b)
  {
    if a == [] {
      assert a + b == b;
    } else {
      assert (a + b)[1..] == a[1..] + b;
      ExpandConcat(pages, a[1..], b);
    }
  }

  lemma {:induction false} ExpandOne(pages: Pages, t: Token)
    ensures Expand(pages, [t]) == ExpandToken(pages, t)
  {
    assert Expand(pages, [t][1..]) == [];
  }

  /** Expansion around one page of the string. */
  lemma {:induction false} ExpandAround(pages: Pages, a: seq<Token>, id: PageId, b: seq<Token>)
    ensures Expand(pages, a + [P(id)] + b) == Expand(pages, a) + PageString(pages, id) + Expand(pages, b)
  {
    ExpandConcat(pages, a + [P(id)], b);
    ExpandConcat(pages, a, [P(id)]);
    ExpandOne(pages, P(id));
  }

  /** Expansion around two neighbouring pages of the string. */
  lemma {:induction false} ExpandAroundPair(pages: Pages, a: seq<Token>, l: PageId, k: Key, r: PageId, b: seq<Token>)
    ensures Expand(pages, a + [P(l), K(k), P(r)] + b)
         == Expand(pages, a) + PageString(pages, l) + [K(k)] + PageString(pages, r) + Expand(pages, b)
  {
    assert a + [P(l), K(k), P(r)] + b == (a + [P(l)] + [K(k)]) + [P(r)] + b;
    ExpandAround(pages, a + [P(l)] + [K(k)], r, b);
    ExpandConcat(pages, a + [P(l)], [K(k)]);
    ExpandOne(pages, K(k));
    ExpandConcat(pages, a, [P(l)]);
    ExpandOne(pages, P(l));
  }

  lemma {:induction false} ExpandFrame(p: Pages, q: Pages, s: seq<Token>)
    requires forall id :: P(id) in s ==> PageString(p, id) == PageString(q, id)
    ensures Expand(p, s) == Expand(q, s)
  {
    if s != [] {
      assert s[0] in s && forall t <- s[1..] :: t in s;
      ExpandFrame(p, q, s[1..]);
    }
  }

  // ----- order -----

  ghost function TokenKey(t: Token): Key
    requires !t.P?
  {
    if t.K? then t.key else t.entry.key
  }

  /** What may stand to the left of what: only a separator may equal what follows it. */
  ghost predicate Precedes(x: Token, y: Token) {
    x.P? || y.P? || Lt(TokenKey(x), TokenKey(y)) || (x.K? && y.E? && TokenKey(x) == TokenKey(y))
  }

  ghost predicate Ordered(s: seq<Token>) {
    forall i, j {:trigger Precedes(s[i], s[j])} :: 0 <= i < j < |s| ==> Precedes(s[i], s[j])
  }

  ghost predicate AllPrecede(a: seq<Token>, b: seq<Token>) {
    forall x, y {:trigger Precedes(x, y)} :: x in a && y in b ==> Precedes(x, y)
  }

  lemma {:induction false} OrderedConcat(a: seq<Token>, b: seq<Token>)
    ensures Ordered(a + b) <==> Ordered(a) && Ordered(b) && AllPrecede(a, b)
  {
    if Ordered(a + b) {
      forall i, j | 0 <= i < j < |a| ensures Precedes(a[i], a[j]) {
        assert (a + b)[i] == a[i] && (a + b)[j] == a[j];
      }
      forall i, j | 0 <= i < j < |b| ensures Precedes(b[i], b[j]) {
        assert (a + b)[|a| + i] == b[i] && (a + b)[|a| + j] == b[j];
      }
      forall x, y | x in a && y in b ensures Precedes(x, y) {
        var i :| 0 <= i < |a| && a[i] == x;
        var j :| 0 <= j < |b| && b[j] == y;
        assert (a + b)[i] == x && (a + b)[|a| + j] == y;
      }
    }
  }

  /** The separators of a string survive its expansion, so order is inherited upwards. */
  lemma {:induction false} OrderedUp(pages: Pages, s: seq<Token>)
    requires Ordered(Expand(pages, s))
    ensures Ordered(s)
    ensures forall t :: t in s && !t.P? ==> t in Expand(pages, s)
  {
    if s != [] {
      OrderedConcat(ExpandToken(pages, s[0]), Expand(pages, s[1..]));
      OrderedUp(pages, s[1..]);
      assert s == [s[0]] + s[1..];
      OrderedConcat([s[0]], s[1..]);
      if !s[0].P? {
        assert s[0] in ExpandToken(pages, s[0]);
      }
    }
  }

  lemma {:induction false} OrderedRemove(a: seq<Token>, x: seq<Token>, b: seq<Token>)
    requires Ordered(a + x + b)
    ensures Ordered(a + b)
  {
    OrderedConcat(a + x, b);
    OrderedConcat(a, x);
    OrderedConcat(a, b);
    assert forall t <- a :: t in a + x;
  }

  /** A separator equal to the entry on its right may be put between two entries. */
  lemma {:induction false} OrderedSeparate(a: seq<Token>, x: Entry, b: seq<Token>)
    requires Ordered(a + [E(x)] + b)
    requires a != [] && a[|a| - 1].E?
    ensures Ordered(a + [K(x.key), E(x)] + b)
  {
    var last := a[|a| - 1];
    assert a + [E(x)] + b == a + ([E(x)] + b);
    OrderedConcat(a, [E(x)] + b);
    OrderedConcat([E(x)], b);
    assert last in a && E(x) in [E(x)] + b;
    assert a + [K(x.key), E(x)] + b == a + [K(x.key)] + ([E(x)] + b);
    assert Precedes(last, E(x));
    forall t | t in a ensures Precedes(t, K(x.key)) {
      var i :| 0 <= i < |a| && a[i] == t;
      if i < |a| - 1 && !t.P? {
        assert Precedes(a[i], last);
        LtTransitive(TokenKey(t), last.entry.key, x.key);
      }
    }
    forall t | t in [E(x)] + b ensures Precedes(K(x.key), t) {
      if t != E(x) {
        assert t in b && E(x) in [E(x)];
        assert Precedes(E(x), t);
      }
    }
    OrderedConcat(a, [K(x.key)]);
    OrderedConcat(a + [K(x.key)], [E(x)] + b);
  }

  /** An entry may be put where everything before it is smaller and everything after it larger. */
  lemma {:induction false} OrderedInsert(a: seq<Token>, x: Entry, b: seq<Token>)
    requires Ordered(a + b)
    requires forall t <- a :: Precedes(t, E(x))
    requires forall t <- b :: Precedes(E(x), t)
    ensures Ordered(a + [E(x)] + b)
  {
    OrderedConcat(a, b);
    OrderedConcat(a, [E(x)]);
    OrderedConcat(a + [E(x)], b);
  }

  // ----- the map a string of entries stands for -----

  ghost function MapOfToken(t: Token): map<Key, Value> {
    if t.E? then map[t.entry.key := t.entry.value] else map[]
  }

  ghost function MapOf(s: seq<Token>): map<Key, Value> {
    if s == [] then map[] else MapOfToken(s[0]) + MapOf(s[1..])
  }

  lemma {:induction false} MergeAssociates(p: map<Key, Value>, q: map<Key, Value>, r: map<Key, Value>)
    ensures (p + q) + r == p + (q + r)
    ensures map[] + r == r
  {
  }

  lemma {:induction false} MapConcat(a: seq<Token>, b: seq<Token>)
    ensures MapOf(a + b) == MapOf(a) + MapOf(b)
  {
    if a == [] {
      assert a + b == b;
      MergeAssociates(map[], map[], MapOf(b));
    } else {
      assert (a + b)[1..] == a[1..] + b;
      MapConcat(a[1..], b);
      MergeAssociates(MapOfToken(a[0]), MapOf(a[1..]), MapOf(b));
    }
  }

  /** Every key of the map comes from an entry of the string. */
  lemma {:induction false} MapHas(s: seq<Token>, k: Key)
    ensures k in MapOf(s) <==> exists e :: E(e) in s && e.key == k
  {
    if s != [] {
      MapHas(s[1..], k);
      if k in MapOf(s) {
        if k in MapOf(s[1..]) {
          var e :| E(e) in s[1..] && e.key == k;
          assert E(e) in s;
        } else {
          assert E(s[0].entry) in s;
        }
      }
    }
  }

  lemma {:induction false} MapPutSeparator(a: seq<Token>, k: Key, b: seq<Token>)
    ensures MapOf(a + [K(k)] + b) == MapOf(a + b)
  {
    assert a + [K(k)] + b == a + ([K(k)] + b);
    MapConcat(a, [K(k)] + b);
    MapConcat(a, b);
    assert ([K(k)] + b)[1..] == b;
    MergeAssociates(map[], map[], MapOf(b));
  }

  /** A key cut off by order on both sides is nowhere else in the string. */
  lemma {:induction false} MapAround(a: seq<Token>, m: seq<Token>, b: seq<Token>, k: Key)
    requires forall t <- a :: t.E? ==> Lt(t.entry.key, k)
    requires forall t <- b :: t.E? ==> Lt(k, t.entry.key)
    ensures k in MapOf(a + m + b) <==> k in MapOf(m)
    ensures k in MapOf(m) ==> MapOf(a + m + b)[k] == MapOf(m)[k]
    ensures k !in MapOf(a) && k !in MapOf(b)
  {
    MapConcat(a + m, b);
    MapConcat(a, m);
    MapHas(a, k);
    MapHas(b, k);
    LtTotal(k, k);
  }

  lemma {:induction false} MapOne(e: Entry)
    ensures MapOf([E(e)]) == map[e.key := e.value]
  {
    assert MapOf([E(e)][1..]) == map[];
  }

  lemma {:induction false} MapOverride(p: map<Key, Value>, k: Key, v: Value, q: map<Key, Value>)
    requires k !in q
    ensures p + map[k := v] + q == (p + q)[k := v]
  {
  }

  lemma {:induction false} MapInsert(a: seq<Token>, e: Entry, b: seq<Token>)
    requires forall t <- b :: t.E? ==> Lt(e.key, t.entry.key)
    ensures MapOf(a + [E(e)] + b) == MapOf(a + b)[e.key := e.value]
  {
    MapConcat(a + [E(e)], b);
    MapConcat(a, [E(e)]);
    MapConcat(a, b);
    MapHas(b, e.key);
    LtTotal(e.key, e.key);
    MapOne(e);
    MapOverride(MapOf(a), e.key, e.value, MapOf(b));
  }

  lemma {:induction false} MapRemove(a: seq<Token>, e: Entry, b: seq<Token>)
    requires Ordered(a + [E(e)] + b)
    ensures MapOf(a + b) == MapOf(a + [E(e)] + b) - {e.key}
  {
    hide MapOf, Ordered;
    OrderedAround(a, e, b);
    MapInsert(a, e, b);
    MapHas(a, e.key);
    MapHas(b, e.key);
    LtTotal(e.key, e.key);
    MapConcat(a, b);
  }

  lemma {:induction false} OrderedAround(a: seq<Token>, e: Entry, b: seq<Token>)
    requires Ordered(a + [E(e)] + b)
    ensures forall t <- a :: t.E? ==> Lt(t.entry.key, e.key)
    ensures forall t <- b :: t.E? ==> Lt(e.key, t.entry.key)
  {
    hide Ordered, Lt;
    OrderedConcat(a + [E(e)], b);
    OrderedConcat(a, [E(e)]);
    assert E(e) in [E(e)] && E(e) in a + [E(e)];
    assert forall t <- a :: Precedes(t, E(e));
    assert forall t <- b :: Precedes(E(e), t);
  }
}
