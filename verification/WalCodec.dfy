/** The log file: record wire format, appending, and reading back what a crash left (wal/wal.go). */
module WalCodec {
  import opened Keys
  import opened Bytes

  const IMAGE_SIZE: nat := 4096
  const HEAD_SIZE: nat := 21

  const BEGIN_TYPE: byte := 0
  const UPDATE_TYPE: byte := 3

  type Sum = x: nat | x < 0x1_0000_0000

  /** The checksum is some function of the bytes. */
  type Checksum = seq<byte> -> Sum

  datatype WalRecord = WalRecord(lsn: nat, txn: nat, kind: byte, page: nat, before: seq<byte>, after: seq<byte>)

  predicate WellFormed(r: WalRecord) {
    r.lsn < 0x1_0000_0000_0000_0000 && r.txn < 0x1_0000_0000_0000_0000 && r.page < 0x1_0000_0000
    && r.kind <= UPDATE_TYPE
    && (if r.kind == UPDATE_TYPE then |r.before| == |r.after| == IMAGE_SIZE else r.before == r.after == [])
  }

  function Head(r: WalRecord): (h: seq<byte>)
    requires WellFormed(r)
    ensures |h| == HEAD_SIZE
  {
    U64(r.lsn) + U64(r.txn) + [r.kind] + U32(r.page)
  }

  /** All that the checksum covers. */
  function Payload(r: WalRecord): (b: seq<byte>)
    requires WellFormed(r)
    ensures |b| == PayloadSize(r.kind)
  {
    Head(r) + (r.before + r.after)
  }

  function PayloadSize(kind: byte): nat {
    HEAD_SIZE + if kind == UPDATE_TYPE then 2 * IMAGE_SIZE else 0
  }

  function Encode(r: WalRecord, crc: Checksum): (b: seq<byte>)
    requires WellFormed(r)
    ensures |b| == PayloadSize(r.kind) + 4
  {
    Payload(r) + U32(crc(Payload(r)))
  }

  function EncodeAll(rs: seq<WalRecord>, crc: Checksum): seq<byte>
    requires forall r <- rs :: WellFormed(r)
  {
    if rs == [] then [] else Encode(rs[0], crc) + EncodeAll(rs[1..], crc)
  }

  /** Where each field of a record is, in big-endian bytes, and that the checksum covers all of them. */
  lemma {:induction false} RecordLayout(r: WalRecord, crc: Checksum)
    requires WellFormed(r)
    ensures var b, n := Encode(r, crc), HEAD_SIZE + |r.before| + |r.after|;
            && |b| == n + 4 && Number(b[0..8]) == r.lsn && Number(b[8..16]) == r.txn && b[16] == r.kind
            && Number(b[17..21]) == r.page && b[HEAD_SIZE..n] == r.before + r.after && Number(b[n..]) == crc(b[..n])
  {
    hide U64, U32, Number;
    var b, n := Encode(r, crc), HEAD_SIZE + |r.before| + |r.after|;
    BigEndian64(r.lsn);
    BigEndian64(r.txn);
    BigEndian32(r.page);
    BigEndian32(crc(Payload(r)));
    assert b[..n] == Payload(r) && b[n..] == U32(crc(Payload(r)));
    assert b[0..8] == U64(r.lsn) && b[8..16] == U64(r.txn) && b[17..21] == U32(r.page);
  }

  // ----- reading -----

  /** What reading one record from the front of the rest of the file comes to. */
  datatype Step = Got(r: WalRecord, size: nat) | Stop | Failed

  function ReadStep(s: seq<byte>, crc: Checksum): (st: Step)
    ensures st.Got? ==> HEAD_SIZE + 4 <= st.size <= |s| && WellFormed(st.r)
  {
    if s == [] then Stop
    else if |s| < HEAD_SIZE then Failed
    else if s[16] > UPDATE_TYPE then Stop
    else
      var n := PayloadSize(s[16]);
      if |s| < n + 4 || crc(s[..n]) != Get32(s[n..n + 4]) then Stop
      else Got(DecodePayload(s[..n]), n + 4)
  }

  function DecodePayload(b: seq<byte>): (r: WalRecord)
    requires |b| >= HEAD_SIZE && b[16] <= UPDATE_TYPE && |b| == PayloadSize(b[16])
    ensures WellFormed(r)
  {
    var images := b[HEAD_SIZE..];
    if b[16] == UPDATE_TYPE then
      WalRecord(Get64(b[0..8]), Get64(b[8..16]), b[16], Get32(b[17..21]), images[..IMAGE_SIZE], images[IMAGE_SIZE..])
    else
      WalRecord(Get64(b[0..8]), Get64(b[8..16]), b[16], Get32(b[17..21]), [], [])
  }

  lemma {:induction false} DecodeHead(r: WalRecord, images: seq<byte>)
    requires WellFormed(r)
    ensures var b := Head(r) + images;
            b[16] == r.kind && Get64(b[0..8]) == r.lsn && Get64(b[8..16]) == r.txn && Get32(b[17..21]) == r.page
                && b[HEAD_SIZE..] == images
  {
    hide U64, U32, Get64, Get32;
    var b := Head(r) + images;
    assert b[0..8] == U64(r.lsn) && b[8..16] == U64(r.txn) && b[17..21] == U32(r.page);
    RoundTrip64(r.lsn, U64(r.lsn));
    RoundTrip64(r.txn, U64(r.txn));
    RoundTrip32(r.page, U32(r.page));
  }

  lemma {:induction false} DecodeUndoesEncode(r: WalRecord)
    requires WellFormed(r)
    ensures Payload(r)[16] == r.kind && DecodePayload(Payload(r)) == r
  {
    hide Head, Get64, Get32;
    DecodeHead(r, r.before + r.after);
    assert (r.before + r.after)[..|r.before|] == r.before && (r.before + r.after)[|r.before|..] == r.after;
  }

  /** A whole record at the front of the file is read back exactly. */
  lemma {:induction false} ReadWhole(r: WalRecord, crc: Checksum, rest: seq<byte>)
    requires WellFormed(r)
    ensures ReadStep(Encode(r, crc) + rest, crc) == Got(r, |Encode(r, crc)|)
  {
    hide Payload, DecodePayload, U32, Get32;
    var s, n := Encode(r, crc) + rest, PayloadSize(r.kind);
    DecodeUndoesEncode(r);
    assert s[..n] == Payload(r);
    assert s[n..n + 4] == U32(crc(Payload(r)));
    RoundTrip32(crc(Payload(r)), U32(crc(Payload(r))));
    assert s[16] == Payload(r)[16];
  }

  /** A record cut short stops the reading, unless even its head is cut: that is an error. */
  lemma {:induction false} ReadTorn(r: WalRecord, crc: Checksum, k: nat)
    requires WellFormed(r) && k < |Encode(r, crc)|
    ensures ReadStep(Encode(r, crc)[..k], crc) == if 0 < k < HEAD_SIZE then Failed else Stop
  {
    hide Payload, DecodePayload, U32, Get32;
    DecodeUndoesEncode(r);
    var s := Encode(r, crc)[..k];
    if k >= HEAD_SIZE {
      assert s[16] == Payload(r)[16];
    }
  }

  /** Bytes that decode to a record are the record's own bytes. */
  lemma {:induction false} EncodeUndoesDecode(b: seq<byte>)
    requires |b| >= HEAD_SIZE && b[16] <= UPDATE_TYPE && |b| == PayloadSize(b[16])
    ensures Payload(DecodePayload(b)) == b
  {
    hide U64, U32, Get64, Get32;
    RoundTrip64(0, b[0..8]);
    RoundTrip64(0, b[8..16]);
    RoundTrip32(0, b[17..21]);
    var r, images := DecodePayload(b), b[HEAD_SIZE..];
    assert b[0..8] + b[8..16] + [b[16]] + b[17..21] == b[..HEAD_SIZE];
    assert Head(r) == b[..HEAD_SIZE];
    assert r.before + r.after == images;
    assert b[..HEAD_SIZE] + images == b;
  }

  /** The file goes on with a whole record whose checksum is right. */
  ghost predicate Follows(s: seq<byte>, crc: Checksum, r: WalRecord) { WellFormed(r) && Encode(r, crc) <= s }

  /**
    * A record is read exactly where one follows; otherwise it is an error if
    * less than a head is left, and the end if not.
    */
  lemma {:induction false} ReadsWhatFollows(s: seq<byte>, crc: Checksum)
    ensures var st := ReadStep(s, crc);
            && (st.Got? ==> Follows(s, crc, st.r) && st.size == |Encode(st.r, crc)|)
            && (!st.Got? ==> forall r :: !Follows(s, crc, r))
            && (st.Failed? <==> 0 < |s| < HEAD_SIZE)
  {
    hide Payload, DecodePayload, U32, Get32;
    var st := ReadStep(s, crc);
    if st.Got? {
      var n := PayloadSize(s[16]);
      EncodeUndoesDecode(s[..n]);
      RoundTrip32(0, s[n..n + 4]);
      assert s[..n + 4] == s[..n] + s[n..n + 4];
    } else {
      forall r | WellFormed(r) ensures !(Encode(r, crc) <= s) {
        if Encode(r, crc) <= s {
          assert s == Encode(r, crc) + s[|Encode(r, crc)|..];
          ReadWhole(r, crc, s[|Encode(r, crc)|..]);
        }
      }
    }
  }

  /** The records of a file up to where reading ends, and whether it ended in an error. */
  datatype Contents = Contents(records: seq<WalRecord>, failed: bool)

  function ReadFile(s: seq<byte>, crc: Checksum): Contents
    decreases |s|
  {
    match ReadStep(s, crc)
    case Got(r, n) => var c := ReadFile(s[n..], crc); Contents([r] + c.records, c.failed)
    case Stop => Contents([], false)
    case Failed => Contents([], true)
  }

  /**
    * A log of whole records with one torn record behind them reads back as exactly
    * the whole records; no error is reported if and only if nothing of the torn
    * record is there or at least its 21-byte head.
    */
  lemma {:induction false} ReadFileExact(rs: seq<WalRecord>, torn: WalRecord, k: nat, crc: Checksum)
    requires (forall r <- rs :: WellFormed(r)) && WellFormed(torn) && k < |Encode(torn, crc)|
    ensures ReadFile(EncodeAll(rs, crc) + Encode(torn, crc)[..k], crc) == Contents(rs, 0 < k < HEAD_SIZE)
  {
    hide Encode, ReadStep, WellFormed;
    var tail := Encode(torn, crc)[..k];
    if rs == [] {
      assert EncodeAll(rs, crc) + tail == tail;
      ReadTorn(torn, crc, k);
    } else {
      assert rs[0] in rs && forall r <- rs[1..] :: r in rs;
      var e, rest := Encode(rs[0], crc), EncodeAll(rs[1..], crc) + tail;
      assert EncodeAll(rs, crc) + tail == e + rest;
      ReadWhole(rs[0], crc, rest);
      assert (e + rest)[|e|..] == rest;
      ReadFileExact(rs[1..], torn, k, crc);
    }
  }

  /**
    * For every file: the records read back are those it starts with, as many as
    * there are whole ones with the right checksum; it is an error if and only if
    * 1 to 20 bytes are left.
    */
  ghost predicate ReadsAs(s: seq<byte>, crc: Checksum, c: Contents) {
    && (forall r <- c.records :: WellFormed(r)) && EncodeAll(c.records, crc) <= s
    && (forall r :: !Follows(s[|EncodeAll(c.records, crc)|..], crc, r))
    && (c.failed <==> 0 < |s| - |EncodeAll(c.records, crc)| < HEAD_SIZE)
  }

  lemma {:induction false} ReadFileSound(s: seq<byte>, crc: Checksum)
    ensures ReadsAs(s, crc, ReadFile(s, crc))
    decreases |s|
  {
    hide ReadStep, Encode, WellFormed;
    ReadsWhatFollows(s, crc);
    var st, c := ReadStep(s, crc), ReadFile(s, crc);
    if st.Got? {
      var e, rest := Encode(st.r, crc), s[st.size..];
      ReadFileSound(rest, crc);
      var d := ReadFile(rest, crc);
      assert c.records[1..] == d.records;
      assert s == e + rest;
      assert EncodeAll(c.records, crc) == e + EncodeAll(d.records, crc);
      assert s[|e| + |EncodeAll(d.records, crc)|..] == rest[|EncodeAll(d.records, crc)|..];
    } else {
      assert s[0..] == s;
    }
  }

  /** There is only one way to read a file so. */
  lemma {:induction false} ReadsAsOne(s: seq<byte>, crc: Checksum, c: Contents)
    requires ReadsAs(s, crc, c)
    ensures c == ReadFile(s, crc)
    decreases |s|
  {
    hide ReadStep, Encode, WellFormed;
    ReadsWhatFollows(s, crc);
    if c.records == [] {
      assert s[0..] == s;
    } else {
      var r, more := c.records[0], c.records[1..];
      var e := Encode(r, crc);
      assert r in c.records && forall x <- more :: x in c.records;
      var rest := s[|e|..];
      assert s == e + rest by { assert e <= EncodeAll(c.records, crc); }
      ReadWhole(r, crc, rest);
      assert EncodeAll(more, crc) <= rest by { assert EncodeAll(c.records, crc)[|e|..] == EncodeAll(more, crc); }
      assert s[|e| + |EncodeAll(more, crc)|..] == rest[|EncodeAll(more, crc)|..];
      assert ReadsAs(rest, crc, Contents(more, c.failed));
      assert |e| > 0;
      ReadsAsOne(rest, crc, Contents(more, c.failed));
      assert c.records == [r] + more;
    }
  }

  /**
    * A byte changed so that the checksum does not match: everything before that
    * record is read, and nothing from it on.
    */
  lemma {:induction false} ReadFileDamaged(rs: seq<WalRecord>, bad: seq<byte>, crc: Checksum)
    requires (forall r <- rs :: WellFormed(r)) && |bad| >= HEAD_SIZE && bad[16] <= UPDATE_TYPE
    requires |bad| >= PayloadSize(bad[16]) + 4
    requires var n := PayloadSize(bad[16]); crc(bad[..n]) != Get32(bad[n..n + 4])
    ensures ReadFile(EncodeAll(rs, crc) + bad, crc) == Contents(rs, false)
  {
    hide Encode, WellFormed, EncodeAll;
    ReadsWhatFollows(bad, crc);
    assert ReadStep(bad, crc).Stop?;
    var s := EncodeAll(rs, crc) + bad;
    assert s[|EncodeAll(rs, crc)|..] == bad;
    assert ReadsAs(s, crc, Contents(rs, false));
    ReadsAsOne(s, crc, Contents(rs, false));
  }

  /** An undamaged log reads back as what was written. */
  lemma {:induction false} ReadFileWhole(rs: seq<WalRecord>, crc: Checksum)
    requires forall r <- rs :: WellFormed(r)
    ensures ReadFile(EncodeAll(rs, crc), crc) == Contents(rs, false)
  {
    var any := WalRecord(0, 0, BEGIN_TYPE, 0, [], []);
    ReadFileExact(rs, any, 0, crc);
    assert EncodeAll(rs, crc) + Encode(any, crc)[..0] == EncodeAll(rs, crc);
  }

  lemma {:induction false} EncodeAllAppend(rs: seq<WalRecord>, r: WalRecord, crc: Checksum)
    requires (forall x <- rs :: WellFormed(x)) && WellFormed(r)
    ensures EncodeAll(rs + [r], crc) == EncodeAll(rs, crc) + Encode(r, crc)
  {
    hide Encode, WellFormed;
    if rs == [] {
      assert rs + [r] == [r] && [r][1..] == [];
    } else {
      assert (rs + [r])[1..] == rs[1..] + [r];
      assert rs[0] in rs && forall x <- rs[1..] :: x in rs;
      EncodeAllAppend(rs[1..], r, crc);
    }
  }

  /** The log opened for writing; `crc` is the checksum in use. */
  class WAL {
    const crc: Checksum
    var file: seq<byte>
    var nextLSN: nat
    ghost var written: seq<WalRecord>

    ghost predicate Valid()
      reads this
    {
      && (forall r <- written :: WellFormed(r))
      && file == EncodeAll(written, crc)
      && (forall i :: 0 <= i < |written| ==> written[i].lsn < nextLSN)
      && (forall i, j :: 0 <= i < j < |written| ==> written[i].lsn < written[j].lsn)
    }

    constructor (crc: Checksum)
      ensures Valid() && this.crc == crc && written == [] && nextLSN == 0
    {
      this.crc, file, nextLSN, written := crc, [], 0, [];
    }

    /** Appends the record under the next log sequence number. */
    method WriteRecord(r: WalRecord) returns (lsn: nat)
      requires Valid() && WellFormed(r.(lsn := 0)) && nextLSN < 0x1_0000_0000_0000_0000
      modifies this
      ensures Valid() && lsn == old(nextLSN) && nextLSN == lsn + 1
      ensures written == old(written) + [r.(lsn := lsn)]
    {
      hide Encode, EncodeAll;
      lsn := nextLSN;
      var stamped := r.(lsn := lsn);
      EncodeAllAppend(written, stamped, crc);
      file := file + Encode(stamped, crc);
      written := written + [stamped];
      nextLSN := nextLSN + 1;
    }

    /** Truncates the file; sequence numbers go on. */
    method Checkpoint()
      requires Valid()
      modifies this`file, this`written
      ensures Valid() && file == [] && written == []
    {
      file, written := [], [];
    }

    /**
      * Decodes record after record until the file ends, a record is cut short or
      * a checksum is wrong; sequence numbers go on behind the highest one seen.
      */
    method ReadAll() returns (records: seq<WalRecord>, failed: bool)
      modifies this`nextLSN
      ensures Contents(records, failed) == ReadFile(file, crc) && ReadsAs(file, crc, Contents(records, failed))
      ensures nextLSN >= old(nextLSN) && forall r <- records :: r.lsn < nextLSN
      ensures nextLSN == old(nextLSN) || exists r :: r in records && nextLSN == r.lsn + 1
    {
      hide ReadStep, ReadsAs;
      ReadFileSound(file, crc);
      records, failed := [], false;
      var pos := 0;
      while true
        invariant 0 <= pos <= |file|
        invariant ReadFile(file, crc) == var c := ReadFile(file[pos..], crc); Contents(records + c.records, c.failed)
        invariant nextLSN >= old(nextLSN) && forall r <- records :: r.lsn < nextLSN
        invariant nextLSN == old(nextLSN) || exists r :: r in records && nextLSN == r.lsn + 1
        invariant !failed
        decreases |file| - pos
      {
        match ReadStep(file[pos..], crc) {
          case Stop => return;
          case Failed => failed := true; return;
          case Got(r, n) =>
            assert file[pos..][n..] == file[pos + n..];
            assert r in records + [r] && forall x <- records :: x in records + [r];
            records := records + [r];
            pos := pos + n;
            if r.lsn + 1 > nextLSN { nextLSN := r.lsn + 1; }
        }
      }
    }
  }
}
