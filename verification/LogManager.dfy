/** The write path of the log: commits append records, files rotate, and the revision
    index is kept up to date.  Where the source copies an index entry before changing it,
    the model changes the entry itself, as its comments intend. */
module LogManager {
  import opened Options
  import opened FramedStream
  import opened LogRecords
  import opened LogFiles
  import opened LogIndex

  /** The non-data sizes prepLog is called with.  They differ from the layout for begin
      records (44) and end records (36). */
  const TRANSACTION_BEGIN_SIZE: nat := 48
  const TRANSACTION_END_SIZE: nat := 26
  const REVISION_SIZE: nat := 48

  /** The serialized writes of one column. */
  datatype ColumnData = ColumnData(column: int, data: seq<byte>)

  /** A commit request; both maps are listed in ascending column order. */
  datatype Commit = Commit(transaction: int, revisions: seq<ColumnRevision>, writes: seq<ColumnData>)

  function FindRevision(revs: seq<ColumnRevision>, column: int): Option<int> {
    if revs == [] then None
    else if revs[0].column == column then Some(revs[0].revision)
    else FindRevision(revs[1..], column)
  }

  /** The request names a revision for the column. */
  ghost predicate Listed(revs: seq<ColumnRevision>, column: int) {
    exists i :: 0 <= i < |revs| && revs[i].column == column
  }

  /** A map lists each column once. */
  ghost predicate OneEach(revs: seq<ColumnRevision>) {
    forall i, j :: 0 <= i < j < |revs| ==> revs[i].column != revs[j].column
  }

  lemma {:induction false} FindRevisionMember(revs: seq<ColumnRevision>, column: int)
    ensures FindRevision(revs, column).Some? <==> Listed(revs, column)
    ensures FindRevision(revs, column).Some? ==> ColumnRevision(column, FindRevision(revs, column).value) in revs
    decreases |revs|
  {
    if revs != [] {
      FindRevisionMember(revs[1..], column);
      if i :| 0 <= i < |revs| && revs[i].column == column {
        assert i > 0 ==> revs[1..][i - 1].column == column;
      }
      if i :| 0 <= i < |revs[1..]| && revs[1..][i].column == column {
        assert revs[i + 1].column == column;
      }
    }
  }

  /** The revision found for a column is the one listed with it. */
  lemma FindRevisionIff(revs: seq<ColumnRevision>, column: int, v: int)
    requires OneEach(revs)
    ensures FindRevision(revs, column) == Some(v) <==> ColumnRevision(column, v) in revs
  {
    hide FindRevision;
    FindRevisionMember(revs, column);
    if ColumnRevision(column, v) in revs {
      var i :| 0 <= i < |revs| && revs[i] == ColumnRevision(column, v);
      assert Listed(revs, column);
      var w := FindRevision(revs, column).value;
      var j :| 0 <= j < |revs| && revs[j] == ColumnRevision(column, w);
      assert i == j;
    }
  }

  /** The revision records of the writes up to the first without a revision. */
  function RevisionRecords(revs: seq<ColumnRevision>, writes: seq<ColumnData>, stamp: int): seq<Record> {
    if writes == [] || FindRevision(revs, writes[0].column).None? then []
    else
      [Revision(writes[0].column, FindRevision(revs, writes[0].column).value, stamp, writes[0].data)]
      + RevisionRecords(revs, writes[1..], stamp)
  }

  /** Every written column has a revision. */
  ghost predicate Complete(c: Commit) {
    forall i :: 0 <= i < |c.writes| ==> Listed(c.revisions, c.writes[i].column)
  }

  /** What one commit adds to the log; a commit that throws leaves its end record out. */
  ghost function Segment(c: Commit, stamp: int): seq<Record> {
    [Begin(c.transaction, stamp, c.revisions)] + RevisionRecords(c.revisions, c.writes, stamp)
    + if Complete(c) then [End(c.transaction, stamp)] else []
  }

  /** The record of a write: the column, a revision listed for it, the clock, the bytes. */
  ghost predicate WriteRecord(r: Record, w: ColumnData, revs: seq<ColumnRevision>, stamp: int) {
    r.Revision? && r == Revision(w.column, r.revision, stamp, w.data) && ColumnRevision(w.column, r.revision) in revs
  }

  /** What a commit leaves in the log: its begin record; one record for each write, up to the
      first whose column has no revision; and its end record exactly if there is none. */
  ghost predicate Leaves(rs: seq<Record>, c: Commit, stamp: int) {
    && rs != [] && rs[0] == Begin(c.transaction, stamp, c.revisions)
    && (if Complete(c) then |rs| == |c.writes| + 2 && rs[|rs| - 1] == End(c.transaction, stamp)
        else |rs| - 1 < |c.writes| && !Listed(c.revisions, c.writes[|rs| - 1].column))
    && (forall k :: 0 <= k < |c.writes| && k < |rs| - 1 ==> WriteRecord(rs[k + 1], c.writes[k], c.revisions, stamp))
  }

  lemma {:induction false} RevisionRecordAt(revs: seq<ColumnRevision>, writes: seq<ColumnData>, stamp: int)
    ensures var rs := RevisionRecords(revs, writes, stamp);
            && |rs| <= |writes|
            && (|rs| < |writes| ==> !Listed(revs, writes[|rs|].column))
            && forall k :: 0 <= k < |rs| ==>
                 && FindRevision(revs, writes[k].column).Some? && Listed(revs, writes[k].column)
                 && rs[k] == Revision(writes[k].column, FindRevision(revs, writes[k].column).value, stamp, writes[k].data)
                 && ColumnRevision(writes[k].column, rs[k].revision) in revs
    decreases |writes|
  {
    hide FindRevision, Listed;
    if writes != [] {
      FindRevisionMember(revs, writes[0].column);
      if FindRevision(revs, writes[0].column).Some? {
        RevisionRecordAt(revs, writes[1..], stamp);
        assert forall i :: 0 < i < |writes| ==> writes[i] == writes[1..][i - 1];
      }
    }
  }

  /** The segment of a commit, without reference to how it is computed. */
  lemma SegmentLeaves(c: Commit, stamp: int)
    ensures Leaves(Segment(c, stamp), c, stamp)
  {
    hide FindRevision, Listed, RevisionRecords;
    var middle := RevisionRecords(c.revisions, c.writes, stamp);
    RevisionRecordAt(c.revisions, c.writes, stamp);
    var rs := Segment(c, stamp);
    assert forall k :: 0 <= k < |middle| ==> rs[k + 1] == middle[k];
    if Complete(c) {
      assert |middle| == |c.writes|;
    } else {
      assert |middle| < |c.writes|;
    }
  }

  ghost predicate StorableCommit(c: Commit, stamp: int) {
    && Storable(Begin(c.transaction, stamp, c.revisions))
    && forall i :: 0 <= i < |c.writes| ==> IsInt64(c.writes[i].column) && |c.writes[i].data| < TWO_32
  }

  lemma {:induction false} FoundRevisionStorable(revs: seq<ColumnRevision>, column: int)
    requires FindRevision(revs, column).Some?
    requires forall i :: 0 <= i < |revs| ==> IsInt64(revs[i].column) && IsInt64(revs[i].revision)
    ensures IsInt64(FindRevision(revs, column).value)
    decreases |revs|
  {
    if revs[0].column != column {
      FoundRevisionStorable(revs[1..], column);
    }
  }

  /** A file exceeds the limit by more than ten bytes only if a single record fills it. */
  ghost predicate Bounded(files: seq<LogFile>, log: seq<seq<Record>>)
    requires |files| == |log|
  {
    forall i :: 0 <= i < |files| ==> |files[i].bytes| <= MAX_LOG_SIZE + 10 || |log[i]| == 1
  }

  /** The index agrees with the log: a column is there if it was logged, with its entries. */
  ghost predicate Indexed(columns: map<int, Entries>, flat: seq<Located>) {
    forall c :: (c in columns <==> Index(flat, c) != []) && (c in columns ==> columns[c] == Index(flat, c))
  }

  /** The file being written has room for `size` more bytes. */
  predicate HasRoom(files: seq<LogFile>, size: nat) {
    files != [] && |files[|files| - 1].bytes| + size <= MAX_LOG_SIZE
  }

  class LogManager {
    var files: seq<LogFile>
    var columns: map<int, Entries>
    ghost var log: seq<seq<Record>>   // the records of each file

    ghost predicate Valid()
      reads this
    {
      HoldsAll(files, log) && Bounded(files, log) && Indexed(columns, Flat(files, log))
    }

    constructor ()
      ensures Valid() && files == [] && log == []
    {
      files, columns, log := [], map[], [];
    }

    /** createLogFile; no file is ever reused. */
    method CreateLogFile()
      requires Valid()
      modifies this
      ensures Valid() && files != [] && log[|log| - 1] == [] && columns == old(columns)
      ensures files == old(files) + [LogFile(if old(files) == [] then 0 else old(files[|files| - 1].lsn) + 1, Zeros(LOG_HEADER_SIZE))]
      ensures Records(log) == old(Records(log)) && Flat(files, log) == old(Flat(files, log))
    {
      hide Flat, Index, Records, EncodeAll;
      var lsn := if files == [] then 0 else files[|files| - 1].lsn + 1;
      var f := LogFile(lsn, Zeros(LOG_HEADER_SIZE));
      StartFile(files, log, f);
      files := files + [f];
      log := log + [[]];
    }

    /** prepLog: make room for `size` bytes, in a new file if need be. */
    method PrepLog(size: nat)
      requires Valid()
      modifies this
      ensures Valid() && files != [] && columns == old(columns)
      ensures Records(log) == old(Records(log)) && Flat(files, log) == old(Flat(files, log))
      ensures |files[|files| - 1].bytes| + size <= MAX_LOG_SIZE || log[|log| - 1] == []
      ensures old(files) <= files
      ensures |files| == |old(files)| + (if old(HasRoom(files, size)) then 0
                                         else if old(files) == [] && LOG_HEADER_SIZE + size > MAX_LOG_SIZE then 2 else 1)
    {
      hide Flat, Index, Records, EncodeAll;
      if files == [] {
        CreateLogFile();
      }
      if |files[|files| - 1].bytes| + size > MAX_LOG_SIZE {
        CreateLogFile();
      }
    }

    /** Appends one record; `size` is what prepLog was told. */
    method Write(r: Record, size: nat)
      requires Valid() && Storable(r) && Size(r) <= size + 10
      modifies this
      ensures HoldsAll(files, log) && Bounded(files, log) && files != [] && columns == old(columns)
      ensures Records(log) == old(Records(log)) + [r]
      ensures |files[|files| - 1].bytes| >= Size(r)
      ensures old(HasRoom(files, size)) ==> |files| == |old(files)|
      ensures Flat(files, log) == old(Flat(files, log))
                + [Located(files[|files| - 1].lsn, |files[|files| - 1].bytes| - Size(r), r)]
    {
      hide Flat, Index, Records, EncodeAll, Encode, Storable;
      PrepLog(size);
      var k := |files| - 1;
      AppendToLast(files, log, r);
      files := files[k := files[k].(bytes := files[k].bytes + Encode(r))];
      log := log[k := log[k] + [r]];
    }

    /** writeTransactionBegin and writeTransactionEnd: records the index does not mind. */
    method WriteBracket(r: Record, size: nat)
      requires Valid() && Storable(r) && (r.Begin? || r.End?) && Size(r) <= size + 10
      modifies this
      ensures Valid() && Records(log) == old(Records(log)) + [r]
      ensures old(HasRoom(files, size)) ==> |files| == |old(files)|
    {
      hide Flat, Records, EncodeAll, Encode, Storable;
      ghost var before := Flat(files, log);
      Write(r, size);
      ghost var x := Located(files[|files| - 1].lsn, |files[|files| - 1].bytes| - Size(r), r);
      forall c ensures Index(before + [x], c) == Index(before, c) {
        assert (before + [x])[..|before|] == before;
      }
    }

    /** writeRevision: the record and its index entry. */
    method WriteRevision(column: int, revision: int, stamp: int, data: seq<byte>)
      requires Valid() && Storable(Revision(column, revision, stamp, data))
      modifies this
      ensures Valid() && Records(log) == old(Records(log)) + [Revision(column, revision, stamp, data)]
      ensures old(HasRoom(files, |data| + REVISION_SIZE)) ==> |files| == |old(files)|
    {
      hide Flat, Records, EncodeAll, Encode, Storable, Index;
      ghost var before := Flat(files, log);
      var r := Revision(column, revision, stamp, data);
      Write(r, |data| + REVISION_SIZE);
      var f := files[|files| - 1];
      var offset := |f.bytes| - Size(r);
      var entries := if column in columns then columns[column] else [];
      FlatInOrder(files, log);
      forall c ensures Index(before + [Located(f.lsn, offset, r)], c)
                       == if c == column then AddByWrite(Index(before, c), f.lsn, offset, revision) else Index(before, c) {
        WriteKeepsIndex(before, Located(f.lsn, offset, r), c);
      }
      columns := columns[column := AddByWrite(entries, f.lsn, offset, revision)];
    }

    /** internalCommit.  False stands for the exception on a column without a revision. */
    method InternalCommit(c: Commit, stamp: int) returns (ok: bool)
      requires Valid() && StorableCommit(c, stamp)
      modifies this
      ensures Valid() && ok == Complete(c)
      ensures Records(log) == old(Records(log)) + Segment(c, stamp) && Leaves(Segment(c, stamp), c, stamp)
    {
      hide Flat, Records, EncodeAll, Encode, Index, Valid, Leaves, FindRevision, Listed;
      SegmentLeaves(c, stamp);
      WriteBracket(Begin(c.transaction, stamp, c.revisions), TRANSACTION_BEGIN_SIZE + 16 * |c.revisions|);
      ghost var begun := Records(log);
      var i := 0;
      while i < |c.writes|
        invariant 0 <= i <= |c.writes| && Valid()
        invariant forall j :: 0 <= j < i ==> Listed(c.revisions, c.writes[j].column)
        invariant Records(log) + RevisionRecords(c.revisions, c.writes[i..], stamp)
                  == begun + RevisionRecords(c.revisions, c.writes, stamp)
      {
        var w := c.writes[i];
        var rev := FindRevision(c.revisions, w.column);
        FindRevisionMember(c.revisions, w.column);
        if rev.None? {
          assert RevisionRecords(c.revisions, c.writes[i..], stamp) == [];
          assert Records(log) + [] == Records(log) && !Complete(c);
          return false;
        }
        FoundRevisionStorable(c.revisions, w.column);
        ghost var sofar := Records(log);
        WriteRevision(w.column, rev.value, stamp, w.data);
        assert c.writes[i..][1..] == c.writes[i + 1..];
        assert sofar + RevisionRecords(c.revisions, c.writes[i..], stamp)
               == Records(log) + RevisionRecords(c.revisions, c.writes[i + 1..], stamp);
        i := i + 1;
      }
      assert RevisionRecords(c.revisions, c.writes[i..], stamp) == [];
      assert Records(log) + [] == Records(log) && Complete(c);
      WriteBracket(End(c.transaction, stamp), TRANSACTION_END_SIZE);
      return true;
    }

    /** initalizeLogManager: the index rebuilt by scanning the files from disk, in the order
        the directory lists them, is that of the log so arranged; in LSN order it equals the
        one maintained by writing. */
    method RebuildIndex(order: seq<nat>, fill: nat) returns (rebuilt: map<int, Entries>)
      requires Valid() && IsOrder(order, |files|)
      ensures Indexed(rebuilt, Flat(Arrange(files, order), Arrange(log, order)))
      ensures (forall i :: 0 <= i < |files| ==> order[i] == i) ==> rebuilt == columns
    {
      hide Index, EncodeAll, Scan, Locate, Flat, Holds, Indexed;
      ArrangeScanned(files, log, order);
      ghost var scanned := Arrange(log, order);
      rebuilt := ScanAll(Arrange(files, order), scanned, fill);
      if forall i :: 0 <= i < |files| ==> order[i] == i {
        assert Arrange(files, order) == files && scanned == log;
        IndexedUnique(rebuilt, columns, Flat(files, log));
      }
    }
  }

  /** offsetByRevision: a linear search over the column's files; lsn -1 when absent. */
  method OffsetByRevision(info: Entries, revision: int) returns (lsn: int, offset: nat)
    ensures var p := Lookup(info, revision);
            if p.Some? then lsn == p.value.lsn && offset == p.value.offset else lsn == -1
  {
    offset := 0;
    var i := 0;
    while i < |info|
      invariant 0 <= i <= |info|
      invariant Lookup(info, revision) == Lookup(info[i..], revision)
    {
      var diff := revision - info[i].start;
      if 0 <= diff < |info[i].offsets| {
        return info[i].lsn, info[i].offsets[diff];
      }
      assert info[i..][1..] == info[i + 1..];
      i := i + 1;
    }
    return -1, 0;
  }

  /** The loop over the listed files. */
  method ScanAll(files: seq<LogFile>, ghost log: seq<seq<Record>>, fill: nat) returns (rebuilt: map<int, Entries>)
    requires Scanned(files, log)
    ensures Indexed(rebuilt, Flat(files, log))
  {
    hide Index, EncodeAll, Scan, Locate, Flat, Indexed;
    rebuilt := map[];
    NothingIndexed(files, log);
    var i := 0;
    while i < |files|
      invariant 0 <= i <= |files|
      invariant Indexed(rebuilt, Flat(files[..i], log[..i]))
    {
      var found := Scan(files[i].lsn, LOG_HEADER_SIZE, (files[i].bytes + Zeros(fill))[LOG_HEADER_SIZE..]);
      ScanFile(files[i], log[i], fill);
      rebuilt := IndexRecords(rebuilt, found, Flat(files[..i], log[..i]));
      FlatUpTo(files, log, i);
      i := i + 1;
    }
    assert files[..i] == files && log[..i] == log;
  }

  lemma NothingIndexed(files: seq<LogFile>, log: seq<seq<Record>>)
    requires |files| == |log|
    ensures Indexed(map[], Flat(files[..0], log[..0]))
  {
    assert Flat(files[..0], log[..0]) == [];
  }

  /** A log has one index. */
  lemma IndexedUnique(a: map<int, Entries>, b: map<int, Entries>, flat: seq<Located>)
    requires Indexed(a, flat) && Indexed(b, flat)
    ensures a == b
  {
    hide Index;
    assert forall c :: c in a <==> c in b;
    assert forall c :: c in a ==> a[c] == b[c];
  }

  /** indexLogFile's switch, for the records that concern the revision index. */
  method IndexRecords(start: map<int, Entries>, found: seq<Located>, ghost before: seq<Located>)
    returns (columns: map<int, Entries>)
    requires Indexed(start, before)
    ensures Indexed(columns, before + found)
  {
    columns := start;
    assert before + found[..0] == before;
    for i := 0 to |found|
      invariant Indexed(columns, before + found[..i])
    {
      var x := found[i];
      ghost var sofar := before + found[..i];
      assert before + found[..i + 1] == sofar + [x];
      assert (sofar + [x])[..|sofar|] == sofar;
      if x.record.Revision? {
        var info := if x.record.column in columns then columns[x.record.column] else [];
        columns := columns[x.record.column := AddByScan(info, x.lsn, x.offset, x.record.revision)];
      }
    }
    assert found[..|found|] == found;
  }
}
