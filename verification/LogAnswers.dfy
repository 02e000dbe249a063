/** What a store answers when asked for a revision: index, file, offset and bytes, for files
    scanned in any order. */
module LogAnswers {
  import opened Options
  import opened LogRecords
  import opened LogFiles
  import opened LogIndex
  import opened LogHistory
  import opened LogScan

  // --- The records of one file ---

  lemma {:induction false} InFileConcat(a: seq<Located>, b: seq<Located>, column: int, lsn: int)
    ensures InFile(a + b, column, lsn) == InFile(a, column, lsn) + InFile(b, column, lsn)
    decreases |b|
  {
    if b == [] {
      assert a + b == a;
    } else {
      assert (a + b)[..|a + b| - 1] == a + b[..|b| - 1];
      InFileConcat(a, b[..|b| - 1], column, lsn);
    }
  }

  lemma {:induction false} InOneFile(b: seq<Located>, column: int, lsn: int, other: int)
    requires forall i :: 0 <= i < |b| ==> b[i].lsn == lsn
    ensures InFile(b, column, other) == if other == lsn then ColumnPlaces(b, column) else []
    decreases |b|
  {
    if b != [] {
      InOneFile(b[..|b| - 1], column, lsn, other);
    }
  }

  /** In a file whose revisions run consecutively the index's list does too. */
  ghost predicate ListRuns(ps: seq<Located>) {
    forall k :: 0 <= k < |ps| ==> ps[0].record.Revision? && ps[k].record.Revision? && ps[k].record.revision == ps[0].record.revision + k
  }

  lemma {:induction false} ScanRuns(files: seq<LogFile>, log: seq<seq<Record>>, column: int, lsn: int)
    requires Scanned(files, log) && AllRun(log, column)
    ensures ListRuns(InFile(Flat(files, log), column, lsn))
    ensures (forall i :: 0 <= i < |files| ==> files[i].lsn != lsn) ==> InFile(Flat(files, log), column, lsn) == []
    decreases |files|
  {
    hide InFile, Flat, ListRuns, FilePlaces, Runs, Storable, EncodeAll;
    if files == [] {
      NothingInFile(column, lsn);
    } else {
      var k := |files| - 1;
      assert AllRun(log[..k], column);
      ScanRuns(files[..k], log[..k], column, lsn);
      InLastFile(files, log, column, lsn);
      FileRuns(files[k], log[k], column);
      var before, here := InFile(Flat(files[..k], log[..k]), column, lsn), FilePlaces(files[k], log[k], column);
      assert before + [] == before && [] + here == here;
    }
  }

  lemma NothingInFile(column: int, lsn: int)
    ensures InFile(Flat([], []), column, lsn) == [] && ListRuns([])
  {
  }

  lemma FileRuns(f: LogFile, rs: seq<Record>, column: int)
    requires AllStorable(rs) && Runs(rs, column)
    ensures ListRuns(FilePlaces(f, rs, column))
  {
    hide ColumnRecords, FilePlaces, Storable;
    FilePlacesRecords(f, rs, column);
  }

  lemma InLastFile(files: seq<LogFile>, log: seq<seq<Record>>, column: int, lsn: int)
    requires Scanned(files, log) && files != []
    ensures var k := |files| - 1;
            && Scanned(files[..k], log[..k])
            && InFile(Flat(files, log), column, lsn)
               == InFile(Flat(files[..k], log[..k]), column, lsn) + if files[k].lsn == lsn then FilePlaces(files[k], log[k], column) else []
  {
    hide InFile, Locate, EncodeAll, Storable, ColumnPlaces;
    var k := |files| - 1;
    var here := Placed(files[k], log[k]);
    PlacedRecords(files[k], log[k]);
    InFileConcat(Flat(files[..k], log[..k]), here, column, lsn);
    InOneFile(here, column, files[k].lsn, lsn);
  }

  lemma ScanConsecutive(files: seq<LogFile>, log: seq<seq<Record>>, column: int)
    requires Scanned(files, log) && AllRun(log, column)
    ensures ConsecutiveInFiles(Flat(files, log), column)
  {
    hide InFile, Flat, AllRun;
    var flat := Flat(files, log);
    forall lsn, k | 0 <= k < |InFile(flat, column, lsn)|
      ensures InFile(flat, column, lsn)[k].record.revision == InFile(flat, column, lsn)[0].record.revision + k
    {
      ScanRuns(files, log, column, lsn);
    }
  }

  // --- Answers ---

  /** The record standing at a place. */
  function RecordAt(flat: seq<Located>, p: Place): Option<Record> {
    if flat == [] then None
    else if flat[0].lsn == p.lsn && flat[0].offset == p.offset then Some(flat[0].record)
    else RecordAt(flat[1..], p)
  }

  /** What the store answers for a revision: the record at the place the index gives. */
  function Answer(flat: seq<Located>, column: int, revision: int): Option<Record> {
    match Lookup(Index(flat, column), revision)
    case None => None
    case Some(p) => RecordAt(flat, p)
  }

  lemma {:induction false} RecordAtMember(flat: seq<Located>, p: Place, x: Located) returns (y: Located)
    requires x in flat && x.lsn == p.lsn && x.offset == p.offset
    ensures y in flat && y.lsn == p.lsn && y.offset == p.offset && RecordAt(flat, p) == Some(y.record)
    decreases |flat|
  {
    if flat[0].lsn == p.lsn && flat[0].offset == p.offset {
      y := flat[0];
    } else {
      y := RecordAtMember(flat[1..], p, x);
    }
  }

  /** The reader for a file. */
  function FileOf(files: seq<LogFile>, lsn: int): Option<LogFile> {
    if files == [] then None
    else if files[0].lsn == lsn then Some(files[0])
    else FileOf(files[1..], lsn)
  }

  lemma {:induction false} FileOfUnique(files: seq<LogFile>, i: nat)
    requires i < |files| && forall j :: 0 <= j < i ==> files[j].lsn != files[i].lsn
    ensures FileOf(files, files[i].lsn) == Some(files[i])
    decreases |files|
  {
    if i > 0 {
      assert files[0].lsn != files[i].lsn;
      assert forall j :: 0 <= j < i - 1 ==> files[1..][j] == files[j + 1];
      FileOfUnique(files[1..], i - 1);
    }
  }

  /** A place of the log reads back as its record, through the file with its LSN. */
  lemma PlaceReads(files: seq<LogFile>, log: seq<seq<Record>>, x: Located)
    requires Scanned(files, log) && x in Flat(files, log)
    ensures FileOf(files, x.lsn).Some? && ReadAt(FileOf(files, x.lsn).value, x.offset) == Some(x.record) && x.lsn >= 0
    ensures RecordAt(Flat(files, log), Place(x.lsn, x.offset)) == Some(x.record)
  {
    hide Flat, ReadAt, FileOf, RecordAt;
    var i := ReadBack(files, log, x);
    FileOfUnique(files, i);
    assert Holds(files[i], log[i]);
    var y := RecordAtMember(Flat(files, log), Place(x.lsn, x.offset), x);
    var j := ReadBack(files, log, y);
    FileOfUnique(files, j);
  }

  /** The bytes at the place the index gives are those of the answer, a record of the column. */
  lemma AnswerReads(files: seq<LogFile>, log: seq<seq<Record>>, column: int, revision: int)
    requires Scanned(files, log)
    ensures var flat := Flat(files, log);
            var p := Lookup(Index(flat, column), revision);
            var r := Answer(flat, column, revision);
            && (p.Some? <==> r.Some?)
            && (p.Some? ==>
                  && r.value.Revision? && r.value.column == column
                  && p.value.lsn >= 0
                  && FileOf(files, p.value.lsn).Some?
                  && ReadAt(FileOf(files, p.value.lsn).value, p.value.offset) == r)
  {
    hide Index, InFile, Flat, ReadAt, FileOf, RecordAt, Lookup;
    var flat := Flat(files, log);
    var es := Index(flat, column);
    IndexMeaning(flat, column);
    if Lookup(es, revision).Some? {
      var i := LookupHit(es, revision);
      var rs := InFile(flat, column, es[i].lsn);
      assert Lists(es[i], rs);
      PlaceReads(files, log, rs[revision - es[i].start]);
    }
  }

  /** With consecutive revisions in each file the answer is right: the record of that
      revision, or none if there is none. */
  lemma AnswerRight(files: seq<LogFile>, log: seq<seq<Record>>, column: int, revision: int)
    requires Scanned(files, log) && AllRun(log, column)
    ensures var flat := Flat(files, log);
            match Answer(flat, column, revision)
            case Some(r) => exists x :: x in flat && x.record == r && Concerns(x, column) && r.revision == revision
            case None => !Logged(flat, column, revision)
  {
    hide Index, InFile, Flat, ReadAt, FileOf, RecordAt, Lookup, ConsecutiveInFiles, AllRun;
    var flat := Flat(files, log);
    ScanConsecutive(files, log, column);
    LookupFindsRecords(flat, column, revision);
    AnswerReads(files, log, column, revision);
    var p := Lookup(Index(flat, column), revision);
    if p.Some? {
      var x :| x in flat && Concerns(x, column) && x.record.revision == revision && x.lsn == p.value.lsn && x.offset == p.value.offset;
      PlaceReads(files, log, x);
    }
  }

  // --- Answers of a numbered log, scanned in any order ---

  lemma {:induction false} ColumnRecordMember(rs: seq<Record>, column: int, r: Record)
    ensures r in ColumnRecords(rs, column) <==> r in rs && r.Revision? && r.column == column
    decreases |rs|
  {
    if rs != [] {
      ColumnRecordMember(rs[..|rs| - 1], column, r);
    }
  }

  lemma {:induction false} RecordsMember(log: seq<seq<Record>>, r: Record)
    ensures r in Records(log) <==> exists i :: 0 <= i < |log| && r in log[i]
    decreases |log|
  {
    if log != [] {
      var k := |log| - 1;
      RecordsMember(log[..k], r);
      if r in Records(log[..k]) {
        var i :| 0 <= i < k && r in log[..k][i];
        assert r in log[i];
      }
      if i :| 0 <= i < |log| && r in log[i] {
        assert i < k ==> r in log[..k][i];
      }
    }
  }

  lemma {:induction false} LocatedIn(files: seq<LogFile>, log: seq<seq<Record>>, i: nat, r: Record) returns (x: Located)
    requires Scanned(files, log) && i < |log| && r in log[i]
    ensures x in Flat(files, log) && x.record == r
    decreases |files|
  {
    hide Locate, EncodeAll, Storable;
    var k := |files| - 1;
    if i < k {
      x := LocatedIn(files[..k], log[..k], i, r);
    } else {
      PlacedRecords(files[k], log[k]);
      var j :| 0 <= j < |log[k]| && log[k][j] == r;
      x := Placed(files[k], log[k])[j];
    }
  }

  /** The log whose files were scanned in some order holds the records of the log. */
  lemma ArrangedRecords(files: seq<LogFile>, log: seq<seq<Record>>, order: seq<nat>, r: Record)
    requires HoldsAll(files, log) && IsOrder(order, |files|)
    ensures Scanned(Arrange(files, order), Arrange(log, order))
    ensures (exists x :: x in Flat(Arrange(files, order), Arrange(log, order)) && x.record == r) <==> r in Records(log)
  {
    hide Flat, Records, Holds;
    ArrangeScanned(files, log, order);
    var fs, ls := Arrange(files, order), Arrange(log, order);
    RecordsMember(log, r);
    if x :| x in Flat(fs, ls) && x.record == r {
      var i, j := FlatLsn(fs, ls, x);
      assert r in log[order[i]];
    }
    if r in Records(log) {
      var i :| 0 <= i < |log| && r in log[i];
      assert i in order;
      var j :| 0 <= j < |order| && order[j] == i;
      var x := LocatedIn(fs, ls, j, r);
    }
  }

  /** In whatever order the files were scanned, the store answers revision k with the k-th
      record of the column, and nothing outside. */
  lemma AnswerNumbered(files: seq<LogFile>, log: seq<seq<Record>>, order: seq<nat>, column: int, revision: int)
    requires HoldsAll(files, log) && IsOrder(order, |files|) && NumberedLog(Records(log), column)
    ensures var rs := ColumnRecords(Records(log), column);
            Answer(Flat(Arrange(files, order), Arrange(log, order)), column, revision)
            == if 1 <= revision <= |rs| then Some(rs[revision - 1]) else None
  {
    hide Flat, Records, Answer, ColumnRecords, AllRun;
    var fs, ls := Arrange(files, order), Arrange(log, order);
    var flat, rs := Flat(fs, ls), ColumnRecords(Records(log), column);
    ArrangeScanned(files, log, order);
    ArrangedRuns(log, order, column);
    if 1 <= revision <= |rs| {
      var r := rs[revision - 1];
      assert r in rs;
      ColumnRecordMember(Records(log), column, r);
      ArrangedRecords(files, log, order, r);
      var x :| x in flat && x.record == r;
      assert Logged(flat, column, revision);
    }
    AnswerRight(fs, ls, column, revision);
    var a := Answer(flat, column, revision);
    if a.Some? {
      var x :| x in flat && x.record == a.value && Concerns(x, column) && a.value.revision == revision;
      ArrangedRecords(files, log, order, a.value);
      ColumnRecordMember(Records(log), column, a.value);
      var k :| 0 <= k < |rs| && rs[k] == a.value;
    }
  }

  lemma ArrangedRuns(log: seq<seq<Record>>, order: seq<nat>, column: int)
    requires NumberedLog(Records(log), column) && IsOrder(order, |log|)
    ensures AllRun(Arrange(log, order), column)
  {
    hide Runs, Records, NumberedLog;
    NumberedRuns(log, column);
    forall i | 0 <= i < |order| ensures Runs(Arrange(log, order)[i], column) {
      assert Runs(log[order[i]], column);
    }
  }
}
