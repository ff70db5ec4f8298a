/** Big-endian integers in byte strings, and overwriting part of a string. */
module Bytes {
  import opened Keys

  function U16(v: nat): (b: seq<byte>)
    requires v < 0x1_0000
    ensures |b| == 2
  {
    [(v / 256) as byte, (v % 256) as byte]
  }

  function Get16(s: seq<byte>): (v: nat)
    requires |s| == 2
    ensures v < 0x1_0000
  {
    s[0] as nat * 256 + s[1] as nat
  }

  function U32(v: nat): (b: seq<byte>)
    requires v < 0x1_0000_0000
    ensures |b| == 4
  {
    U16(v / 0x1_0000) + U16(v % 0x1_0000)
  }

  function Get32(s: seq<byte>): (v: nat)
    requires |s| == 4
    ensures v < 0x1_0000_0000
  {
    Get16(s[..2]) * 0x1_0000 + Get16(s[2..])
  }

  function U64(v: nat): (b: seq<byte>)
    requires v < 0x1_0000_0000_0000_0000
    ensures |b| == 8
  {
    U32(v / 0x1_0000_0000) + U32(v % 0x1_0000_0000)
  }

  function Get64(s: seq<byte>): (v: nat)
    requires |s| == 8
    ensures v < 0x1_0000_0000_0000_0000
  {
    Get32(s[..4]) * 0x1_0000_0000 + Get32(s[4..])
  }

  /** Reading what was written, and writing what was read. */
  lemma {:induction false} RoundTrip16(v: nat, s: seq<byte>)
    requires v < 0x1_0000 && |s| == 2
    ensures Get16(U16(v)) == v && U16(Get16(s)) == s
  {
  }

  lemma {:induction false} RoundTrip32(v: nat, s: seq<byte>)
    requires v < 0x1_0000_0000 && |s| == 4
    ensures Get32(U32(v)) == v && U32(Get32(s)) == s
  {
    var b := U32(v);
    assert b[..2] == U16(v / 0x1_0000) && b[2..] == U16(v % 0x1_0000);
    RoundTrip16(v / 0x1_0000, s[..2]);
    RoundTrip16(v % 0x1_0000, s[2..]);
    var hi, lo := Get16(s[..2]), Get16(s[2..]);
    assert (hi * 0x1_0000 + lo) / 0x1_0000 == hi && (hi * 0x1_0000 + lo) % 0x1_0000 == lo;
    assert s == s[..2] + s[2..];
  }

  lemma {:induction false} RoundTrip64(v: nat, s: seq<byte>)
    requires v < 0x1_0000_0000_0000_0000 && |s| == 8
    ensures Get64(U64(v)) == v && U64(Get64(s)) == s
  {
    var b := U64(v);
    assert b[..4] == U32(v / 0x1_0000_0000) && b[4..] == U32(v % 0x1_0000_0000);
    RoundTrip32(v / 0x1_0000_0000, s[..4]);
    RoundTrip32(v % 0x1_0000_0000, s[4..]);
    var hi, lo := Get32(s[..4]), Get32(s[4..]);
    assert (hi * 0x1_0000_0000 + lo) / 0x1_0000_0000 == hi && (hi * 0x1_0000_0000 + lo) % 0x1_0000_0000 == lo;
    assert s == s[..4] + s[4..];
  }

  /** The number a byte string stands for, most significant byte first. */
  function Number(s: seq<byte>): nat {
    if s == [] then 0 else Number(s[..|s| - 1]) * 256 + s[|s| - 1] as nat
  }

  lemma {:induction false} NumberMore(s: seq<byte>, x: byte, y: byte)
    ensures Number(s + [x, y]) == Number(s) * 0x1_0000 + x as nat * 256 + y as nat
  {
    var a := s + [x];
    assert (s + [x, y])[..|s| + 1] == a && a[..|s|] == s;
    assert Number(a) == Number(s) * 256 + x as nat;
  }

  /** The widths are 2, 4 and 8 bytes, and the byte order is big-endian. */
  lemma {:induction false} BigEndian16(v: nat)
    requires v < 0x1_0000
    ensures Number(U16(v)) == v
  {
    NumberMore([], (v / 256) as byte, (v % 256) as byte);
    assert [] + U16(v) == U16(v);
  }

  lemma {:induction false} BigEndian32(v: nat)
    requires v < 0x1_0000_0000
    ensures Number(U32(v)) == v
  {
    var hi, lo := v / 0x1_0000, v % 0x1_0000;
    BigEndian16(hi);
    NumberMore(U16(hi), (lo / 256) as byte, (lo % 256) as byte);
    assert U32(v) == U16(hi) + [(lo / 256) as byte, (lo % 256) as byte];
  }

  lemma {:induction false} BigEndian64(v: nat)
    requires v < 0x1_0000_0000_0000_0000
    ensures Number(U64(v)) == v
  {
    hide U32;
    var hi, lo := v / 0x1_0000_0000, v % 0x1_0000_0000;
    BigEndian32(hi);
    NumberLow(U32(hi), lo);
  }

  lemma {:induction false} NumberLow(s: seq<byte>, v: nat)
    requires v < 0x1_0000_0000
    ensures Number(s + U32(v)) == Number(s) * 0x1_0000_0000 + v
  {
    hide Number;
    var hi, lo := v / 0x1_0000, v % 0x1_0000;
    NumberMore(s, (hi / 256) as byte, (hi % 256) as byte);
    NumberMore(s + U16(hi), (lo / 256) as byte, (lo % 256) as byte);
    assert s + U32(v) == s + U16(hi) + U16(lo);
  }

  /** `s` with the bytes from `off` on overwritten by `b`. */
  function Patch(s: seq<byte>, off: nat, b: seq<byte>): (r: seq<byte>)
    requires off + |b| <= |s|
    ensures |r| == |s|
  {
    s[..off] + b + s[off + |b|..]
  }

  lemma {:induction false} PatchAt(s: seq<byte>, off: nat, b: seq<byte>, x: nat)
    requires off + |b| <= |s| && x < |s|
    ensures Patch(s, off, b)[x] == if off <= x < off + |b| then b[x - off] else s[x]
  {
  }

  /** A part that the patch does not touch. */
  lemma {:induction false} PatchOutside(s: seq<byte>, off: nat, b: seq<byte>, x: nat, y: nat)
    requires off + |b| <= |s| && x <= y <= |s| && (y <= off || off + |b| <= x)
    ensures Patch(s, off, b)[x..y] == s[x..y]
  {
  }

  /** The patch itself. */
  lemma {:induction false} PatchInside(s: seq<byte>, off: nat, b: seq<byte>)
    requires off + |b| <= |s|
    ensures Patch(s, off, b)[off..off + |b|] == b
  {
  }

  /** A part of the patch. */
  lemma {:induction false} PatchPart(s: seq<byte>, off: nat, b: seq<byte>, x: nat, y: nat)
    requires off + |b| <= |s| && off <= x <= y <= off + |b|
    ensures Patch(s, off, b)[x..y] == b[x - off..y - off]
  {
  }

  lemma {:induction false} SliceOfSlice<T>(s: seq<T>, a: nat, b: nat, c: nat, d: nat)
    requires a <= b <= |s| && c <= d <= b - a
    ensures s[a..b][c..d] == s[a + c..a + d]
  {
    var x, y := s[a..b][c..d], s[a + c..a + d];
    assert |x| == |y|;
    forall k | 0 <= k < |x| ensures x[k] == y[k] {
      assert x[k] == s[a..b][c + k];
    }
  }
}
