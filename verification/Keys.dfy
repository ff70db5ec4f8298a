/** Byte-string keys and the order `bytes.Compare` puts on them. */
module Keys {
  newtype byte = x: int | 0 <= x < 256

  type Key = seq<byte>

  /** `bytes.Compare(a, b) < 0`: lexicographic, a proper prefix comes first. */
  predicate Less(a: Key, b: Key) {
    b != [] && (a == [] || a[0] < b[0] || (a[0] == b[0] && Less(a[1..], b[1..])))
  }

  lemma {:induction false} LessIrreflexive(a: Key)
    ensures !Less(a, a)
  {
    if a != [] { LessIrreflexive(a[1..]); }
  }

  lemma {:induction false} LessTotal(a: Key, b: Key)
    ensures Less(a, b) || a == b || Less(b, a)
    ensures !(Less(a, b) && Less(b, a))
  {
    if a != [] && b != [] {
      LessTotal(a[1..], b[1..]);
      assert a == [a[0]] + a[1..] && b == [b[0]] + b[1..];
    }
  }

  lemma {:induction false} LessTransitive(a: Key, b: Key, c: Key)
    requires Less(a, b) && Less(b, c)
    ensures Less(a, c)
  {
    if a != [] && a[0] == b[0] && b[0] == c[0] { LessTransitive(a[1..], b[1..], c[1..]); }
  }

  ghost predicate IsLess(f: (Key, Key) -> bool) {
    forall a, b {:trigger Less(a, b)} :: f(a, b) <==> Less(a, b)
  }

  /** `Less` behind a veil: proofs about sorted sequences use its laws, never its recursion. */
  ghost function Order(): (Key, Key) -> bool {
    assert IsLess((a: Key, b: Key) => Less(a, b));
    var f: (Key, Key) -> bool :| IsLess(f);
    f
  }

  ghost predicate Lt(a: Key, b: Key) { Order()(a, b) }

  lemma {:induction false} LtIsLess(a: Key, b: Key)
    ensures Lt(a, b) <==> Less(a, b)
  {
    var l := Less(a, b);
  }

  /** Exactly one of smaller, equal, larger. */
  lemma {:induction false} LtTotal(a: Key, b: Key)
    ensures Lt(a, b) || a == b || Lt(b, a)
    ensures !(Lt(a, b) && Lt(b, a)) && (a == b ==> !Lt(a, b))
  {
    LtIsLess(a, b);
    LtIsLess(b, a);
    LessTotal(a, b);
    LessIrreflexive(a);
  }

  lemma {:induction false} LtTransitive(a: Key, b: Key, c: Key)
    ensures Lt(a, b) && Lt(b, c) ==> Lt(a, c)
    ensures Lt(a, b) && !Lt(c, b) ==> Lt(a, c)
    ensures !Lt(b, a) && Lt(b, c) ==> Lt(a, c)
  {
    LtIsLess(a, b);
    LtIsLess(b, c);
    LtIsLess(a, c);
    LtTotal(a, b);
    LtTotal(b, c);
    if Less(a, b) && Less(b, c) { LessTransitive(a, b, c); }
  }

  /** `bytes.Compare`: the sign tells which key comes first. */
  method Compare(a: Key, b: Key) returns (c: int)
    ensures c < 0 <==> Less(a, b)
    ensures c == 0 <==> a == b
    ensures c < 0 <==> Lt(a, b)
    ensures c > 0 <==> Lt(b, a)
  {
    LtIsLess(a, b);
    LtTotal(a, b);
    var i := 0;
    while i < |a| && i < |b| && a[i] == b[i]
      invariant 0 <= i <= |a| && i <= |b|
      invariant Less(a, b) <==> Less(a[i..], b[i..])
      invariant a == b <==> a[i..] == b[i..]
    {
      assert a[i..][1..] == a[i + 1..] && b[i..][1..] == b[i + 1..];
      assert a[i..] == [a[i]] + a[i + 1..] && b[i..] == [b[i]] + b[i + 1..];
      i := i + 1;
    }
    if i == |a| {
      c := if i == |b| then 0 else -1;
    } else if i == |b| {
      c := 1;
    } else {
      c := if a[i] < b[i] then -1 else 1;
    }
  }
}
