/** Log files as byte images and the located records they hold. */
module LogFiles {
  import opened Options
  import opened FramedStream
  import opened LogRecords

  /** One file: its LSN and its bytes up to the current size, header included. */
  datatype LogFile = LogFile(lsn: int, bytes: seq<byte>)

  ghost predicate AllStorable(rs: seq<Record>) {
    forall i :: 0 <= i < |rs| ==> Storable(rs[i])
  }

  /** The file's bytes are a header and the given records. */
  ghost predicate Holds(f: LogFile, rs: seq<Record>) {
    && 0 <= f.lsn
    && AllStorable(rs)
    && |f.bytes| >= LOG_HEADER_SIZE
    && f.bytes[LOG_HEADER_SIZE..] == EncodeAll(rs)
  }

  /** Files in LSN order, each holding its part of the log. */
  ghost predicate HoldsAll(files: seq<LogFile>, log: seq<seq<Record>>) {
    && |files| == |log|
    && (forall i :: 0 <= i < |files| ==> Holds(files[i], log[i]))
    && (forall i, j :: 0 <= i < j < |files| ==> files[i].lsn < files[j].lsn)
  }

  /** Files in whatever order, no LSN twice. */
  ghost predicate Scanned(files: seq<LogFile>, log: seq<seq<Record>>) {
    && |files| == |log|
    && (forall i :: 0 <= i < |files| ==> Holds(files[i], log[i]))
    && (forall i, j :: 0 <= i < j < |files| ==> files[i].lsn != files[j].lsn)
  }

  /** An order in which n files may be listed. */
  ghost predicate IsOrder(order: seq<nat>, n: nat) {
    && |order| == n
    && (forall i :: 0 <= i < n ==> order[i] < n)
    && (forall i, j :: 0 <= i < j < n ==> order[i] != order[j])
    && (forall k :: 0 <= k < n ==> k in order)
  }

  function Arrange<T>(xs: seq<T>, order: seq<nat>): seq<T>
    requires forall i :: 0 <= i < |order| ==> order[i] < |xs|
  {
    seq(|order|, i requires 0 <= i < |order| => xs[order[i]])
  }

  lemma ArrangeScanned(files: seq<LogFile>, log: seq<seq<Record>>, order: seq<nat>)
    requires HoldsAll(files, log) && IsOrder(order, |files|)
    ensures Scanned(Arrange(files, order), Arrange(log, order))
  {
    hide Holds;
    var fs, ls := Arrange(files, order), Arrange(log, order);
    forall i, j | 0 <= i < j < |fs| ensures fs[i].lsn != fs[j].lsn {
      var a, b := order[i], order[j];
      assert if a < b then files[a].lsn < files[b].lsn else files[b].lsn < files[a].lsn;
    }
  }

  /** All records of the log with their places. */
  function Flat(files: seq<LogFile>, log: seq<seq<Record>>): seq<Located>
    requires |files| == |log|
  {
    if files == [] then []
    else
      var k := |files| - 1;
      Flat(files[..k], log[..k]) + Locate(files[k].lsn, LOG_HEADER_SIZE, log[k])
  }

  /** All records of the log in order, wherever the files were cut. */
  function Records(log: seq<seq<Record>>): seq<Record> {
    if log == [] then [] else Records(log[..|log| - 1]) + log[|log| - 1]
  }

  lemma FlatUpTo(files: seq<LogFile>, log: seq<seq<Record>>, i: nat)
    requires |files| == |log| && i < |files|
    ensures Flat(files[..i + 1], log[..i + 1])
            == Flat(files[..i], log[..i]) + Locate(files[i].lsn, LOG_HEADER_SIZE, log[i])
  {
    hide Locate;
    assert files[..i + 1][..i] == files[..i] && log[..i + 1][..i] == log[..i];
  }

  lemma {:induction false} EncodeAllSnoc(rs: seq<Record>, r: Record)
    requires AllStorable(rs) && Storable(r)
    ensures AllStorable(rs + [r])
    ensures EncodeAll(rs + [r]) == EncodeAll(rs) + Encode(r)
    decreases |rs|
  {
    hide Encode, Storable;
    if rs == [] {
      assert rs + [r] == [r] && [r][1..] == [];
      assert EncodeAll([r]) == Encode(r) + EncodeAll([]);
    } else {
      EncodeAllSnoc(rs[1..], r);
      assert (rs + [r])[1..] == rs[1..] + [r] && (rs + [r])[0] == rs[0];
      assert Encode(rs[0]) + (EncodeAll(rs[1..]) + Encode(r)) == EncodeAll(rs) + Encode(r);
    }
  }

  lemma LocateCons(lsn: int, offset: nat, rs: seq<Record>)
    requires AllStorable(rs) && rs != []
    ensures AllStorable(rs[1..])
    ensures Locate(lsn, offset, rs) == [Located(lsn, offset, rs[0])] + Locate(lsn, offset + Size(rs[0]), rs[1..])
    ensures |EncodeAll(rs)| == Size(rs[0]) + |EncodeAll(rs[1..])|
  {
    hide Encode, Storable, Size;
  }

  lemma {:induction false} LocateSnoc(lsn: int, offset: nat, rs: seq<Record>, r: Record)
    requires AllStorable(rs) && Storable(r)
    ensures Locate(lsn, offset, rs + [r])
            == Locate(lsn, offset, rs) + [Located(lsn, offset + |EncodeAll(rs)|, r)]
    decreases |rs|
  {
    if rs == [] {
      hide Encode, Storable, Size;
      assert rs + [r] == [r] && [r][1..] == [];
    } else {
      hide Encode, Storable, Size, Locate, EncodeAll;
      LocateCons(lsn, offset, rs);
      LocateCons(lsn, offset, rs + [r]);
      LocateSnoc(lsn, offset + Size(rs[0]), rs[1..], r);
      assert (rs + [r])[1..] == rs[1..] + [r] && (rs + [r])[0] == rs[0];
    }
  }

  /** Appending a record to the last file appends it to the log, at the file's size. */
  lemma AppendToLast(files: seq<LogFile>, log: seq<seq<Record>>, r: Record)
    requires HoldsAll(files, log) && files != [] && Storable(r)
    ensures var k := |files| - 1;
            var files' := files[k := files[k].(bytes := files[k].bytes + Encode(r))];
            var log' := log[k := log[k] + [r]];
            && HoldsAll(files', log')
            && Flat(files', log') == Flat(files, log) + [Located(files[k].lsn, |files[k].bytes|, r)]
            && Records(log') == Records(log) + [r]
  {
    hide Encode, Storable, EncodeAll, Locate;
    var k := |files| - 1;
    var f := files[k];
    var files' := files[k := f.(bytes := f.bytes + Encode(r))];
    var log' := log[k := log[k] + [r]];
    EncodeAllSnoc(log[k], r);
    LocateSnoc(f.lsn, LOG_HEADER_SIZE, log[k], r);
    assert files'[k].bytes[LOG_HEADER_SIZE..] == EncodeAll(log[k]) + Encode(r);
    assert files'[..k] == files[..k] && log'[..k] == log[..k];
  }

  /** Starting a new file changes no record's place. */
  lemma StartFile(files: seq<LogFile>, log: seq<seq<Record>>, f: LogFile)
    requires HoldsAll(files, log) && |f.bytes| == LOG_HEADER_SIZE
    requires f.lsn == if files == [] then 0 else files[|files| - 1].lsn + 1
    ensures HoldsAll(files + [f], log + [[]])
    ensures Flat(files + [f], log + [[]]) == Flat(files, log)
    ensures Records(log + [[]]) == Records(log)
  {
    hide Encode, Storable;
    assert (files + [f])[..|files|] == files && (log + [[]])[..|log|] == log;
    assert f.bytes[LOG_HEADER_SIZE..] == [];
  }

  // --- Reading back ---

  lemma {:induction false} LocateSuffix(lsn: int, offset: nat, rs: seq<Record>, j: nat)
    requires AllStorable(rs) && j < |rs|
    ensures var x := Locate(lsn, offset, rs)[j];
            && x.lsn == lsn && x.record == rs[j]
            && offset <= x.offset && x.offset - offset <= |EncodeAll(rs)|
            && EncodeAll(rs)[x.offset - offset..] == Encode(rs[j]) + EncodeAll(rs[j + 1..])
    decreases |rs|
  {
    hide Encode, Storable, Size;
    if j == 0 {
      assert EncodeAll(rs)[0..] == EncodeAll(rs);
    } else {
      LocateSuffix(lsn, offset + Size(rs[0]), rs[1..], j - 1);
      var x := Locate(lsn, offset, rs)[j];
      assert x == Locate(lsn, offset + Size(rs[0]), rs[1..])[j - 1];
      assert EncodeAll(rs)[x.offset - offset..] == EncodeAll(rs[1..])[x.offset - offset - Size(rs[0])..];
      assert rs[1..][j..] == rs[j + 1..];
    }
  }

  /** The record at a place of a file, as seekReadToOffset and readRevision find it. */
  function ReadAt(f: LogFile, offset: nat): Option<Record> {
    if offset <= |f.bytes| then Decode(f.bytes[offset..]) else None
  }

  lemma {:induction false} FlatMember(files: seq<LogFile>, log: seq<seq<Record>>, x: Located) returns (i: nat, j: nat)
    requires |files| == |log| && x in Flat(files, log)
    ensures i < |files| && j < |log[i]| && x == Locate(files[i].lsn, LOG_HEADER_SIZE, log[i])[j]
    decreases |files|
  {
    hide Locate;
    var k := |files| - 1;
    var here := Locate(files[k].lsn, LOG_HEADER_SIZE, log[k]);
    if x in here {
      i := k;
      j :| 0 <= j < |here| && here[j] == x;
    } else {
      i, j := FlatMember(files[..k], log[..k], x);
    }
  }

  /** Every record reads back from its place. */
  lemma ReadBack(files: seq<LogFile>, log: seq<seq<Record>>, x: Located) returns (i: nat)
    requires Scanned(files, log) && x in Flat(files, log)
    ensures i < |files| && files[i].lsn == x.lsn && ReadAt(files[i], x.offset) == Some(x.record)
  {
    hide Encode, Storable, Size, Decode, EncodeAll, Locate, Flat;
    var j: nat;
    i, j := FlatMember(files, log, x);
    var f, rs := files[i], log[i];
    LocateSuffix(f.lsn, LOG_HEADER_SIZE, rs, j);
    RecordRoundTrip(rs[j], EncodeAll(rs[j + 1..]));
    assert f.bytes[x.offset..] == f.bytes[LOG_HEADER_SIZE..][x.offset - LOG_HEADER_SIZE..];
  }

  /** The LSNs of the log ascend along its records. */
  lemma {:induction false} FlatInOrder(files: seq<LogFile>, log: seq<seq<Record>>)
    requires HoldsAll(files, log)
    ensures forall i, j :: 0 <= i < j < |Flat(files, log)| ==> Flat(files, log)[i].lsn <= Flat(files, log)[j].lsn
    ensures files != [] ==> forall i :: 0 <= i < |Flat(files, log)| ==> Flat(files, log)[i].lsn <= files[|files| - 1].lsn
    decreases |files|
  {
    if files != [] {
      var k := |files| - 1;
      FlatInOrder(files[..k], log[..k]);
      forall j | 0 <= j < |log[k]|
        ensures Locate(files[k].lsn, LOG_HEADER_SIZE, log[k])[j].lsn == files[k].lsn
      {
        LocateSuffix(files[k].lsn, LOG_HEADER_SIZE, log[k], j);
      }
    }
  }

  /** The zero-filled rest of a file on disk. */
  function Zeros(n: nat): seq<byte> { seq(n, i => 0) }

  /** Scanning a file from disk, zero fill included, finds its records at their places. */
  lemma ScanFile(f: LogFile, rs: seq<Record>, fill: nat)
    requires Holds(f, rs)
    ensures Scan(f.lsn, LOG_HEADER_SIZE, (f.bytes + Zeros(fill))[LOG_HEADER_SIZE..]) == Locate(f.lsn, LOG_HEADER_SIZE, rs)
  {
    hide Encode, Storable, Size, Decode, EncodeAll, Locate, Scan;
    assert (f.bytes + Zeros(fill))[LOG_HEADER_SIZE..] == EncodeAll(rs) + Zeros(fill);
    ScanOfEncoded(f.lsn, LOG_HEADER_SIZE, rs, Zeros(fill));
  }
}
