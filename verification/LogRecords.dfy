/** Log records and their documented binary layout: every record starts with a four-byte
    type and ends with sixteen bytes for a checksum that is never written. */
module LogRecords {
  import opened Options
  import opened FramedStream

  /** One column of a begin record's revision map, in ascending column order. */
  datatype ColumnRevision = ColumnRevision(column: int, revision: int)

  datatype Record =
    | Begin(transaction: int, stamp: int, revisions: seq<ColumnRevision>)
    | End(transaction: int, stamp: int)
    | Revision(column: int, revision: int, stamp: int, data: seq<byte>)
    | Checkpoint(column: int, revision: int, stamp: int)
    | Rollback(transaction: int, stamp: int)

  const LOG_HEADER_SIZE: nat := 1024
  const MAX_LOG_SIZE: nat := 104857600

  const TYPE_BEGIN: nat := 100
  const TYPE_END: nat := 101
  const TYPE_REVISION: nat := 200
  const TYPE_ROLLBACK: nat := 300
  const TYPE_CHECKPOINT: nat := 400

  // --- Integers ---

  function Pow256(w: nat): (r: nat)
    ensures r > 0
  {
    if w == 0 then 1 else 256 * Pow256(w - 1)
  }

  /** The low `w` bytes of a natural number, least significant first. */
  function Bytes(n: nat, w: nat): (r: seq<byte>)
    ensures |r| == w
  {
    if w == 0 then [] else [(n % 256) as byte] + Bytes(n / 256, w - 1)
  }

  function Value(s: seq<byte>): (n: nat)
  {
    if s == [] then 0 else s[0] as nat + 256 * Value(s[1..])
  }

  lemma {:induction false} ValueOfBytes(n: nat, w: nat)
    requires n < Pow256(w)
    ensures Value(Bytes(n, w)) == n
    decreases w
  {
    if w > 0 {
      ValueOfBytes(n / 256, w - 1);
      assert Bytes(n, w)[1..] == Bytes(n / 256, w - 1);
    }
  }

  const TWO_64: int := 0x1_0000_0000_0000_0000
  const TWO_63: int := 0x8000_0000_0000_0000

  predicate IsInt64(v: int) { -TWO_63 <= v < TWO_63 }

  /** A 64-bit integer in two's complement. */
  function Int64(v: int): (r: seq<byte>)
    requires IsInt64(v)
    ensures |r| == 8
  {
    Bytes(if v < 0 then v + TWO_64 else v, 8)
  }

  function FromInt64(s: seq<byte>): int {
    var n := Value(s);
    if n < TWO_63 then n else n - TWO_64
  }

  lemma Int64RoundTrip(v: int)
    requires IsInt64(v)
    ensures FromInt64(Int64(v)) == v
  {
    assert Pow256(8) == TWO_64 by {
      assert Pow256(4) == 0x1_0000_0000;
    }
    ValueOfBytes(if v < 0 then v + TWO_64 else v, 8);
  }

  lemma Int32RoundTrip(n: nat)
    requires n < TWO_32
    ensures Value(Bytes(n, 4)) == n
  {
    assert Pow256(4) == TWO_32;
    ValueOfBytes(n, 4);
  }

  // --- Encoding ---

  ghost predicate Storable(r: Record) {
    match r
    case Begin(t, s, revs) =>
      && IsInt64(t) && IsInt64(s) && |revs| < TWO_63
      && forall i :: 0 <= i < |revs| ==> IsInt64(revs[i].column) && IsInt64(revs[i].revision)
    case End(t, s) => IsInt64(t) && IsInt64(s)
    case Revision(c, v, s, data) => IsInt64(c) && IsInt64(v) && IsInt64(s) && |data| < TWO_32
    case Checkpoint(c, v, s) => IsInt64(c) && IsInt64(v) && IsInt64(s)
    case Rollback(t, s) => IsInt64(t) && IsInt64(s)
  }

  function Checksum(): (r: seq<byte>)
    ensures |r| == 16
  {
    seq(16, i => 0)
  }

  function EncodePairs(revs: seq<ColumnRevision>): (r: seq<byte>)
    requires forall i :: 0 <= i < |revs| ==> IsInt64(revs[i].column) && IsInt64(revs[i].revision)
    ensures |r| == 16 * |revs|
  {
    if revs == [] then []
    else Int64(revs[0].column) + Int64(revs[0].revision) + EncodePairs(revs[1..])
  }

  function Encode(r: Record): (s: seq<byte>)
    requires Storable(r)
    ensures |s| == Size(r)
  {
    match r
    case Begin(t, stamp, revs) =>
      Bytes(TYPE_BEGIN, 4) + Int64(t) + Int64(stamp) + Int64(|revs|) + EncodePairs(revs) + Checksum()
    case End(t, stamp) => Bytes(TYPE_END, 4) + Int64(t) + Int64(stamp) + Checksum()
    case Revision(c, v, stamp, data) =>
      Bytes(TYPE_REVISION, 4) + Int64(c) + Int64(v) + Int64(stamp) + Bytes(|data|, 4) + data + Checksum()
    case Checkpoint(c, v, stamp) => Bytes(TYPE_CHECKPOINT, 4) + Int64(c) + Int64(v) + Int64(stamp) + Checksum()
    case Rollback(t, stamp) => Bytes(TYPE_ROLLBACK, 4) + Int64(t) + Int64(stamp) + Checksum()
  }

  /** The length of a record on disk. */
  function Size(r: Record): nat {
    match r
    case Begin(_, _, revs) => 44 + 16 * |revs|
    case End(_, _) => 36
    case Revision(_, _, _, data) => 48 + |data|
    case Checkpoint(_, _, _) => 44
    case Rollback(_, _) => 36
  }

  // --- Decoding ---

  function DecodePairs(s: seq<byte>, n: nat): seq<ColumnRevision>
    requires |s| >= 16 * n
    decreases n
  {
    if n == 0 then []
    else [ColumnRevision(FromInt64(s[..8]), FromInt64(s[8..16]))] + DecodePairs(s[16..], n - 1)
  }

  /** The record at the head of `s`; None at the end of the log, which is a type of zero or
      too few bytes, and for anything that is not a record. */
  function Decode(s: seq<byte>): (r: Option<Record>) {
    if |s| < 36 then None
    else
      var kind := Value(s[..4]);
      if kind == TYPE_BEGIN && |s| >= 44 then
        var n := FromInt64(s[20..28]);
        if n < 0 || |s| < 44 + 16 * n then None
        else Some(Begin(FromInt64(s[4..12]), FromInt64(s[12..20]), DecodePairs(s[28..], n)))
      else if kind == TYPE_END then Some(End(FromInt64(s[4..12]), FromInt64(s[12..20])))
      else if kind == TYPE_REVISION && |s| >= 48 then
        var n := Value(s[28..32]);
        if |s| < 48 + n then None
        else Some(Revision(FromInt64(s[4..12]), FromInt64(s[12..20]), FromInt64(s[20..28]), s[32..32 + n]))
      else if kind == TYPE_CHECKPOINT && |s| >= 44 then
        Some(Checkpoint(FromInt64(s[4..12]), FromInt64(s[12..20]), FromInt64(s[20..28])))
      else if kind == TYPE_ROLLBACK then Some(Rollback(FromInt64(s[4..12]), FromInt64(s[12..20])))
      else None
  }

  lemma {:induction false} PairsRoundTrip(revs: seq<ColumnRevision>, tail: seq<byte>)
    requires forall i :: 0 <= i < |revs| ==> IsInt64(revs[i].column) && IsInt64(revs[i].revision)
    ensures DecodePairs(EncodePairs(revs) + tail, |revs|) == revs
    decreases |revs|
  {
    if revs != [] {
      hide FromInt64, Int64, Value, Bytes;
      var a, b := Int64(revs[0].column), Int64(revs[0].revision);
      var rest := EncodePairs(revs[1..]) + tail;
      Int64RoundTrip(revs[0].column);
      Int64RoundTrip(revs[0].revision);
      PairsRoundTrip(revs[1..], tail);
      var s := a + b + rest;
      assert EncodePairs(revs) + tail == s;
      assert s[..8] == a && s[8..16] == b && s[16..] == rest;
    }
  }

  /** The documented layout: after the type come the fields in the order of the file format,
      each at its offset, then the data, then sixteen bytes. */
  lemma RecordLayout(r: Record)
    requires Storable(r)
    ensures var s := Encode(r);
            && |s| == Size(r) && s[..4] == Bytes(TypeOf(r), 4) && s[|s| - 16..] == Checksum()
            && match r
               case Begin(t, stamp, revs) =>
                 && s[4..12] == Int64(t) && s[12..20] == Int64(stamp) && s[20..28] == Int64(|revs|)
                 && s[28..|s| - 16] == EncodePairs(revs)
               case End(t, stamp) => s[4..12] == Int64(t) && s[12..20] == Int64(stamp) && |s| == 36
               case Revision(c, v, stamp, data) =>
                 && s[4..12] == Int64(c) && s[12..20] == Int64(v) && s[20..28] == Int64(stamp)
                 && s[28..32] == Bytes(|data|, 4) && s[32..|s| - 16] == data
               case Checkpoint(c, v, stamp) => s[4..12] == Int64(c) && s[12..20] == Int64(v) && s[20..28] == Int64(stamp)
               case Rollback(t, stamp) => s[4..12] == Int64(t) && s[12..20] == Int64(stamp) && |s| == 36
  {
    hide Int64, Bytes, EncodePairs, Checksum;
    var s := Encode(r);
    match r
    case Begin(t, stamp, revs) =>
      var a, b, n, pairs := Int64(t), Int64(stamp), Int64(|revs|), EncodePairs(revs);
      assert s == Bytes(TYPE_BEGIN, 4) + (a + (b + (n + (pairs + Checksum()))));
    case End(t, stamp) =>
      assert s == Bytes(TYPE_END, 4) + (Int64(t) + (Int64(stamp) + Checksum()));
    case Revision(c, v, stamp, data) =>
      assert s == Bytes(TYPE_REVISION, 4) + (Int64(c) + (Int64(v) + (Int64(stamp) + (Bytes(|data|, 4) + (data + Checksum())))));
    case Checkpoint(c, v, stamp) =>
      assert s == Bytes(TYPE_CHECKPOINT, 4) + (Int64(c) + (Int64(v) + (Int64(stamp) + Checksum())));
    case Rollback(t, stamp) =>
      assert s == Bytes(TYPE_ROLLBACK, 4) + (Int64(t) + (Int64(stamp) + Checksum()));
  }

  function TypeOf(r: Record): nat {
    match r
    case Begin(_, _, _) => TYPE_BEGIN
    case End(_, _) => TYPE_END
    case Revision(_, _, _, _) => TYPE_REVISION
    case Checkpoint(_, _, _) => TYPE_CHECKPOINT
    case Rollback(_, _) => TYPE_ROLLBACK
  }

  /** The pairs of a begin record: column before revision, in the order listed. */
  lemma {:induction false} PairLayout(revs: seq<ColumnRevision>, k: nat)
    requires k < |revs| && forall i :: 0 <= i < |revs| ==> IsInt64(revs[i].column) && IsInt64(revs[i].revision)
    ensures var s := EncodePairs(revs);
            s[16 * k..16 * k + 8] == Int64(revs[k].column) && s[16 * k + 8..16 * k + 16] == Int64(revs[k].revision)
    decreases |revs|
  {
    hide Int64;
    var s := EncodePairs(revs);
    if k > 0 {
      PairLayout(revs[1..], k - 1);
      var more := EncodePairs(revs[1..]);
      assert s[16..] == more;
      assert s[16 * k..16 * k + 8] == more[16 * (k - 1)..16 * (k - 1) + 8];
      assert s[16 * k + 8..16 * k + 16] == more[16 * (k - 1) + 8..16 * (k - 1) + 16];
    }
  }

  /** Every record reads back as itself, whatever follows it in the file. */
  lemma RecordRoundTrip(r: Record, tail: seq<byte>)
    requires Storable(r)
    ensures Decode(Encode(r) + tail) == Some(r)
  {
    match r
    case Begin(t, stamp, revs) => BeginRoundTrip(t, stamp, revs, tail);
    case Revision(c, v, stamp, data) => RevisionRoundTrip(c, v, stamp, data, tail);
    case Checkpoint(c, v, stamp) => ThreeFields(r, c, v, stamp, tail);
    case End(t, stamp) => TwoFields(r, t, stamp, tail);
    case Rollback(t, stamp) => TwoFields(r, t, stamp, tail);
  }

  lemma TwoFields(r: Record, t: int, stamp: int, tail: seq<byte>)
    requires Storable(r) && (r == End(t, stamp) || r == Rollback(t, stamp))
    ensures Decode(Encode(r) + tail) == Some(r)
  {
    hide FromInt64, Int64, Value, Bytes;
    var s := Encode(r) + tail;
    var kind := if r.End? then TYPE_END else TYPE_ROLLBACK;
    Int32RoundTrip(kind);
    Int64RoundTrip(t);
    Int64RoundTrip(stamp);
    assert s[..4] == Bytes(kind, 4) && s[4..12] == Int64(t) && s[12..20] == Int64(stamp);
  }

  lemma ThreeFields(r: Record, c: int, v: int, stamp: int, tail: seq<byte>)
    requires Storable(r) && r == Checkpoint(c, v, stamp)
    ensures Decode(Encode(r) + tail) == Some(r)
  {
    hide FromInt64, Int64, Value, Bytes;
    var s := Encode(r) + tail;
    Int32RoundTrip(TYPE_CHECKPOINT);
    Int64RoundTrip(c);
    Int64RoundTrip(v);
    Int64RoundTrip(stamp);
    assert s[..4] == Bytes(TYPE_CHECKPOINT, 4);
    assert s[4..12] == Int64(c) && s[12..20] == Int64(v) && s[20..28] == Int64(stamp);
  }

  lemma BeginRoundTrip(t: int, stamp: int, revs: seq<ColumnRevision>, tail: seq<byte>)
    requires Storable(Begin(t, stamp, revs))
    ensures Decode(Encode(Begin(t, stamp, revs)) + tail) == Some(Begin(t, stamp, revs))
  {
    hide FromInt64, Int64, Value, Bytes, EncodePairs, DecodePairs;
    var s := Encode(Begin(t, stamp, revs)) + tail;
    Int32RoundTrip(TYPE_BEGIN);
    Int64RoundTrip(t);
    Int64RoundTrip(stamp);
    Int64RoundTrip(|revs|);
    PairsRoundTrip(revs, Checksum() + tail);
    assert s[..4] == Bytes(TYPE_BEGIN, 4);
    assert s[4..12] == Int64(t) && s[12..20] == Int64(stamp) && s[20..28] == Int64(|revs|);
    assert s[28..] == EncodePairs(revs) + (Checksum() + tail);
  }

  lemma RevisionRoundTrip(c: int, v: int, stamp: int, data: seq<byte>, tail: seq<byte>)
    requires Storable(Revision(c, v, stamp, data))
    ensures Decode(Encode(Revision(c, v, stamp, data)) + tail) == Some(Revision(c, v, stamp, data))
  {
    hide FromInt64, Int64, Value, Bytes;
    var s := Encode(Revision(c, v, stamp, data)) + tail;
    Int32RoundTrip(TYPE_REVISION);
    Int64RoundTrip(c);
    Int64RoundTrip(v);
    Int64RoundTrip(stamp);
    Int32RoundTrip(|data|);
    assert s[..4] == Bytes(TYPE_REVISION, 4);
    assert s[4..12] == Int64(c) && s[12..20] == Int64(v) && s[20..28] == Int64(stamp);
    assert s[28..32] == Bytes(|data|, 4) && s[32..32 + |data|] == data;
  }

  // --- Whole files ---

  /** A record and where it starts. */
  datatype Located = Located(lsn: int, offset: nat, record: Record)

  function EncodeAll(rs: seq<Record>): (s: seq<byte>)
    requires forall i :: 0 <= i < |rs| ==> Storable(rs[i])
  {
    if rs == [] then [] else Encode(rs[0]) + EncodeAll(rs[1..])
  }

  /** The records of one file with their offsets, the first at `offset`. */
  function Locate(lsn: int, offset: nat, rs: seq<Record>): (r: seq<Located>)
    ensures |r| == |rs|
    decreases |rs|
  {
    if rs == [] then [] else [Located(lsn, offset, rs[0])] + Locate(lsn, offset + Size(rs[0]), rs[1..])
  }

  /** indexLogFile's reading loop over the part of a file from `offset` on. */
  function Scan(lsn: int, offset: nat, s: seq<byte>): seq<Located>
    decreases |s|
  {
    match Decode(s)
    case None => []
    case Some(r) => [Located(lsn, offset, r)] + (DecodeShrinks(s); Scan(lsn, offset + Size(r), s[Size(r)..]))
  }

  lemma DecodeShrinks(s: seq<byte>)
    requires Decode(s).Some?
    ensures 0 < Size(Decode(s).value) <= |s|
  {
    var r := Decode(s).value;
    if r.Begin? {
      var n := FromInt64(s[20..28]);
      PairsLength(s[28..], n);
    }
  }

  lemma {:induction false} PairsLength(s: seq<byte>, n: nat)
    requires |s| >= 16 * n
    ensures |DecodePairs(s, n)| == n
    decreases n
  {
    if n > 0 {
      PairsLength(s[16..], n - 1);
    }
  }

  lemma {:induction false} ValueOfZeros(s: seq<byte>)
    requires forall i :: 0 <= i < |s| ==> s[i] == 0
    ensures Value(s) == 0
    decreases |s|
  {
    if s != [] {
      ValueOfZeros(s[1..]);
    }
  }

  /** The zero-filled rest of a file holds no record. */
  ghost predicate NoRecord(s: seq<byte>) {
    forall i :: 0 <= i < 4 && i < |s| ==> s[i] == 0
  }

  lemma ScanEnds(lsn: int, offset: nat, s: seq<byte>)
    requires NoRecord(s)
    ensures Scan(lsn, offset, s) == []
  {
    if |s| >= 36 {
      ValueOfZeros(s[..4]);
    }
  }

  lemma ScanStep(lsn: int, offset: nat, r: Record, rest: seq<byte>)
    requires Storable(r)
    ensures Scan(lsn, offset, Encode(r) + rest) == [Located(lsn, offset, r)] + Scan(lsn, offset + Size(r), rest)
  {
    hide Decode, Encode, Size, Storable;
    RecordRoundTrip(r, rest);
    assert (Encode(r) + rest)[Size(r)..] == rest;
  }

  /** Scanning a file finds exactly the records written to it, each at its offset. */
  lemma {:induction false} ScanOfEncoded(lsn: int, offset: nat, rs: seq<Record>, tail: seq<byte>)
    requires forall i :: 0 <= i < |rs| ==> Storable(rs[i])
    requires NoRecord(tail)
    ensures Scan(lsn, offset, EncodeAll(rs) + tail) == Locate(lsn, offset, rs)
    decreases |rs|
  {
    hide Scan, Encode, Size, Storable, NoRecord;
    if rs == [] {
      assert EncodeAll(rs) + tail == tail;
      ScanEnds(lsn, offset, tail);
    } else {
      var rest := EncodeAll(rs[1..]) + tail;
      assert EncodeAll(rs) + tail == Encode(rs[0]) + rest;
      ScanStep(lsn, offset, rs[0], rest);
      ScanOfEncoded(lsn, offset + Size(rs[0]), rs[1..], tail);
    }
  }

  // --- Payloads as readRevision returns them ---

  /** `std::string(buffer)`: everything before the first zero byte of the memory from there
      on; None if there is none. */
  function CutAtZero(memory: seq<byte>): Option<seq<byte>> {
    if memory == [] then None
    else if memory[0] == 0 then Some([])
    else
      var rest := CutAtZero(memory[1..]);
      if rest.Some? then Some([memory[0]] + rest.value) else None
  }

  /** The buffer that readRevision fills is as long as the payload and has no terminator, so
      what lies beyond it counts: a payload comes back as written exactly when it holds no zero
      byte and one happens to follow the buffer. */
  lemma {:induction false} CutAtZeroKeepsIff(data: seq<byte>, beyond: seq<byte>)
    ensures CutAtZero(data + beyond) == Some(data)
            <==> (forall i :: 0 <= i < |data| ==> data[i] != 0) && beyond != [] && beyond[0] == 0
    decreases |data|
  {
    if data == [] {
      assert data + beyond == beyond;
    } else {
      var rest := CutAtZero(data[1..] + beyond);
      assert (data + beyond)[1..] == data[1..] + beyond;
      CutAtZeroKeepsIff(data[1..], beyond);
      assert data == [data[0]] + data[1..];
      assert (forall i :: 0 <= i < |data| ==> data[i] != 0)
             <==> data[0] != 0 && forall i :: 0 <= i < |data[1..]| ==> data[1..][i] != 0;
      if rest.Some? {
        assert [data[0]] + rest.value == data <==> rest.value == data[1..] by {
          assert ([data[0]] + rest.value)[1..] == rest.value;
        }
      }
    }
  }

  /** A payload without zero bytes, and memory behind it that does not start with one: the
      payload grows. */
  lemma PayloadReadsOn()
    ensures CutAtZero([1] + [2, 0]) == Some([1, 2])
  {
    var data: seq<byte> := [1, 2];
    assert [1] + [2, 0] == data + [0];
    CutAtZeroKeepsIff(data, [0]);
  }
}
