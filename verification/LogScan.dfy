/** The index of files scanned in any order: one entry per file that mentions the column. */
module LogScan {
  import opened Options
  import opened LogRecords
  import opened LogFiles
  import opened LogIndex
  import opened LogHistory

  // --- Places and records ---

  ghost predicate SameRecords(xs: seq<Located>, rs: seq<Record>) {
    |xs| == |rs| && forall i :: 0 <= i < |xs| ==> xs[i].record == rs[i]
  }

  /** The places of a file's records. */
  function Placed(f: LogFile, rs: seq<Record>): seq<Located> {
    Locate(f.lsn, LOG_HEADER_SIZE, rs)
  }

  lemma PlacedRecords(f: LogFile, rs: seq<Record>)
    requires AllStorable(rs)
    ensures SameRecords(Placed(f, rs), rs)
    ensures forall i :: 0 <= i < |rs| ==> Placed(f, rs)[i].lsn == f.lsn
  {
    hide Locate, EncodeAll, Encode, Storable;
    forall j | 0 <= j < |rs| ensures Placed(f, rs)[j].record == rs[j] && Placed(f, rs)[j].lsn == f.lsn {
      LocateSuffix(f.lsn, LOG_HEADER_SIZE, rs, j);
    }
  }

  lemma {:induction false} PlacesRecords(flat: seq<Located>, rs: seq<Record>, column: int)
    requires SameRecords(flat, rs)
    ensures SameRecords(ColumnPlaces(flat, column), ColumnRecords(rs, column))
    decreases |flat|
  {
    if flat != [] {
      var n := |flat| - 1;
      PlacesRecords(flat[..n], rs[..n], column);
      assert flat[n].record == rs[n];
    }
  }

  /** The places of a file's records of a column. */
  function FilePlaces(f: LogFile, rs: seq<Record>, column: int): seq<Located> {
    ColumnPlaces(Placed(f, rs), column)
  }

  lemma FilePlacesRecords(f: LogFile, rs: seq<Record>, column: int)
    requires AllStorable(rs)
    ensures SameRecords(FilePlaces(f, rs, column), ColumnRecords(rs, column))
  {
    hide Locate, Storable, ColumnPlaces, ColumnRecords;
    PlacedRecords(f, rs);
    PlacesRecords(Placed(f, rs), rs, column);
  }

  /** Every place of a scanned log lies in the file with its LSN. */
  lemma FlatLsn(files: seq<LogFile>, log: seq<seq<Record>>, x: Located) returns (i: nat, j: nat)
    requires Scanned(files, log) && x in Flat(files, log)
    ensures i < |files| && x.lsn == files[i].lsn && j < |log[i]| && x.record == log[i][j] && x == Placed(files[i], log[i])[j]
  {
    hide Flat, Locate, EncodeAll, Storable;
    i, j := FlatMember(files, log, x);
    PlacedRecords(files[i], log[i]);
  }

  // --- The index, file by file ---

  function Offsets(ps: seq<Located>): seq<nat> {
    seq(|ps|, i requires 0 <= i < |ps| => ps[i].offset)
  }

  /** The entry of a file: its first revision and the offsets of its records. */
  function EntryOf(lsn: int, ps: seq<Located>): FileEntry
    requires ps != [] && ps[0].record.Revision?
  {
    FileEntry(lsn, ps[0].record.revision, Offsets(ps))
  }

  function Optional(lsn: int, ps: seq<Located>): Entries
    requires ps != [] ==> ps[0].record.Revision?
  {
    if ps == [] then [] else [EntryOf(lsn, ps)]
  }

  /** One entry for each file that mentions the column, in the order of the scan. */
  function FileEntries(files: seq<LogFile>, log: seq<seq<Record>>, column: int): Entries
    requires |files| == |log|
  {
    if files == [] then []
    else
      var k := |files| - 1;
      FileEntries(files[..k], log[..k], column) + Optional(files[k].lsn, FilePlaces(files[k], log[k], column))
  }

  lemma IndexLacks(log: seq<Located>, column: int, lsn: int)
    requires forall x :: x in log ==> x.lsn != lsn
    ensures FindLsn(Index(log, column), lsn) == |Index(log, column)|
  {
    hide Index, InFile;
    IndexMeaning(log, column);
    var es := Index(log, column);
    var i := FindLsn(es, lsn);
    if i < |es| {
      var rs := InFile(log, column, es[i].lsn);
    }
  }

  /** One more record of the file that is being scanned. */
  lemma AddPlace(es: Entries, lsn: int, ps: seq<Located>, x: Located)
    requires FindLsn(es, lsn) == |es| && x.record.Revision? && (ps != [] ==> ps[0].record.Revision?)
    ensures AddByScan(es + Optional(lsn, ps), lsn, x.offset, x.record.revision) == es + Optional(lsn, ps + [x])
  {
    if ps == [] {
      assert ps + [x] == [x] && es + [] == es;
      assert Offsets([x]) == [x.offset];
    } else {
      var e := EntryOf(lsn, ps);
      assert (es + [e])[|es|] == e && forall j :: 0 <= j < |es| ==> (es + [e])[j] == es[j];
      assert FindLsn(es + [e], lsn) == |es|;
      assert Offsets(ps + [x]) == Offsets(ps) + [x.offset];
    }
  }

  lemma IndexSnoc(a: seq<Located>, x: Located, column: int)
    ensures Index(a + [x], column)
            == if Concerns(x, column) then AddByScan(Index(a, column), x.lsn, x.offset, x.record.revision) else Index(a, column)
    ensures ColumnPlaces(a + [x], column) == ColumnPlaces(a, column) + if Concerns(x, column) then [x] else []
  {
    assert (a + [x])[..|a|] == a;
  }

  lemma NothingPlaced(lsn: int, column: int)
    ensures ColumnPlaces([], column) == [] && Optional(lsn, []) == []
  {
  }

  /** Scanning one more file adds its entry at the end. */
  lemma {:induction false} IndexExtends(a: seq<Located>, b: seq<Located>, lsn: int, column: int)
    requires (forall x :: x in a ==> x.lsn != lsn) && forall i :: 0 <= i < |b| ==> b[i].lsn == lsn
    ensures Index(a + b, column) == Index(a, column) + Optional(lsn, ColumnPlaces(b, column))
    decreases |b|
  {
    hide Index, ColumnPlaces, AddByScan, Optional;
    if b == [] {
      NothingPlaced(lsn, column);
      assert a + b == a && Index(a, column) + [] == Index(a, column);
    } else {
      var n := |b| - 1;
      var x := b[n];
      IndexExtends(a, b[..n], lsn, column);
      assert a + b == (a + b[..n]) + [x] && b == b[..n] + [x];
      IndexSnoc(a + b[..n], x, column);
      IndexSnoc(b[..n], x, column);
      IndexLacks(a, column, lsn);
      var ps := ColumnPlaces(b[..n], column);
      assert ps + [] == ps;
      if Concerns(x, column) {
        AddPlace(Index(a, column), lsn, ps, x);
      }
    }
  }

  /** Whatever the order of the scan, the index has one entry per file that mentions the
      column, in that order. */
  lemma {:induction false} ScanIndex(files: seq<LogFile>, log: seq<seq<Record>>, column: int)
    requires Scanned(files, log)
    ensures Index(Flat(files, log), column) == FileEntries(files, log, column)
    decreases |files|
  {
    hide Locate, EncodeAll, Storable, Index, ColumnPlaces;
    if files == [] {
      NoIndex(column);
    } else {
      var k := |files| - 1;
      var before := Flat(files[..k], log[..k]);
      ScanIndex(files[..k], log[..k], column);
      PlacedRecords(files[k], log[k]);
      forall x | x in before ensures x.lsn != files[k].lsn {
        var i, j := FlatLsn(files[..k], log[..k], x);
      }
      IndexExtends(before, Placed(files[k], log[k]), files[k].lsn, column);
    }
  }

  lemma NoIndex(column: int)
    ensures Index([], column) == []
  {
  }

  // --- The first and the last revision the index tells ---

  predicate Mentions(rs: seq<Record>, column: int) {
    ColumnRecords(rs, column) != []
  }

  /** The first revision in the first file of the scan that mentions the column. */
  function FirstOf(log: seq<seq<Record>>, column: int): Option<int> {
    if log == [] then None
    else
      var k := |log| - 1;
      var before := FirstOf(log[..k], column);
      if before.None? && Mentions(log[k], column) then Some(ColumnRecords(log[k], column)[0].revision) else before
  }

  /** The last revision in the last file of the scan that mentions the column. */
  function LastOf(log: seq<seq<Record>>, column: int): Option<int> {
    if log == [] then None
    else
      var k := |log| - 1;
      var rs := ColumnRecords(log[k], column);
      if rs != [] then Some(rs[|rs| - 1].revision) else LastOf(log[..k], column)
  }

  /** A file's revisions of the column run consecutively. */
  ghost predicate Runs(rs: seq<Record>, column: int) {
    forall k :: 0 <= k < |ColumnRecords(rs, column)| ==>
      ColumnRecords(rs, column)[k].revision == ColumnRecords(rs, column)[0].revision + k
  }

  ghost predicate AllRun(log: seq<seq<Record>>, column: int) {
    forall i :: 0 <= i < |log| ==> Runs(log[i], column)
  }

  /** The entry of a file in terms of its records. */
  lemma OptionalOf(f: LogFile, rs: seq<Record>, column: int)
    requires AllStorable(rs)
    ensures var es := Optional(f.lsn, FilePlaces(f, rs, column));
            var cs := ColumnRecords(rs, column);
            if cs == [] then es == [] else |es| == 1 && es[0].start == cs[0].revision && |es[0].offsets| == |cs|
  {
    hide ColumnRecords, FilePlaces, Storable;
    FilePlacesRecords(f, rs, column);
  }

  lemma FileEntriesSnoc(files: seq<LogFile>, log: seq<seq<Record>>, column: int)
    requires Scanned(files, log) && files != []
    ensures var k := |files| - 1;
            && Scanned(files[..k], log[..k])
            && FileEntries(files, log, column) == FileEntries(files[..k], log[..k], column) + Optional(files[k].lsn, FilePlaces(files[k], log[k], column))
  {
    hide FilePlaces, Holds;
  }

  lemma EndsSnoc(log: seq<seq<Record>>, column: int)
    requires log != []
    ensures var k := |log| - 1;
            var rs := ColumnRecords(log[k], column);
            var first, last := FirstOf(log[..k], column), LastOf(log[..k], column);
            && FirstOf(log, column) == (if first.None? && rs != [] then Some(rs[0].revision) else first)
            && LastOf(log, column) == (if rs != [] then Some(rs[|rs| - 1].revision) else last)
  {
    hide ColumnRecords;
  }

  lemma NoEnds(column: int)
    ensures FirstOf([], column) == None && LastOf([], column) == None && FileEntries([], [], column) == []
  {
  }

  lemma RunsLast(rs: seq<Record>, column: int)
    requires Runs(rs, column) && ColumnRecords(rs, column) != []
    ensures var cs := ColumnRecords(rs, column);
            cs[|cs| - 1].revision == cs[0].revision + |cs| - 1
  {
    hide ColumnRecords;
  }

  lemma AllRunSnoc(log: seq<seq<Record>>, column: int)
    requires log != [] && AllRun(log, column)
    ensures Runs(log[|log| - 1], column) && AllRun(log[..|log| - 1], column)
  {
    hide Runs;
  }

  lemma {:induction false} EntryEnds(files: seq<LogFile>, log: seq<seq<Record>>, column: int)
    requires Scanned(files, log) && AllRun(log, column)
    ensures var es := FileEntries(files, log, column);
            && FirstOf(log, column) == (if es == [] then None else Some(es[0].start))
            && LastOf(log, column) == (if es == [] then None else Some(Latest(es)))
    decreases |files|
  {
    hide ColumnRecords, FilePlaces, FileEntries, Optional, Storable, EncodeAll, FirstOf, LastOf, AllRun, Runs;
    if files == [] {
      NoEnds(column);
    } else {
      var k := |files| - 1;
      FileEntriesSnoc(files, log, column);
      OptionalOf(files[k], log[k], column);
      AllRunSnoc(log, column);
      EndsSnoc(log, column);
      EntryEnds(files[..k], log[..k], column);
      if ColumnRecords(log[k], column) != [] {
        RunsLast(log[k], column);
      }
    }
  }

  /** The index tells the first revision of the first file and the last revision of the last
      file of the scan that mention the column. */
  lemma IndexEnds(files: seq<LogFile>, log: seq<seq<Record>>, column: int)
    requires Scanned(files, log) && AllRun(log, column)
    ensures var es := Index(Flat(files, log), column);
            && FirstOf(log, column) == (if es == [] then None else Some(es[0].start))
            && LastOf(log, column) == (if es == [] then None else Some(Latest(es)))
  {
    hide Index, Flat, FileEntries, FirstOf, LastOf, AllRun, Latest;
    ScanIndex(files, log, column);
    EntryEnds(files, log, column);
  }

  /** File l is the last of the scan to mention the column. */
  ghost predicate LastMention(log: seq<seq<Record>>, column: int, l: nat) {
    l < |log| && Mentions(log[l], column) && forall i :: l < i < |log| ==> !Mentions(log[i], column)
  }

  ghost predicate HoldsRevision(rs: seq<Record>, column: int, n: int) {
    exists k :: 0 <= k < |ColumnRecords(rs, column)| && ColumnRecords(rs, column)[k].revision == n
  }

  lemma {:induction false} LastOfMention(log: seq<seq<Record>>, column: int, l: nat)
    requires LastMention(log, column, l)
    ensures var rs := ColumnRecords(log[l], column);
            LastOf(log, column) == Some(rs[|rs| - 1].revision)
    decreases |log|
  {
    hide ColumnRecords;
    if l < |log| - 1 {
      LastOfMention(log[..|log| - 1], column, l);
    }
  }

  /** In whatever order the files are scanned: the latest revision the index tells is the
      newest logged exactly if the last scanned file that mentions the column holds it. */
  lemma LatestRightIff(files: seq<LogFile>, log: seq<seq<Record>>, column: int, l: nat, n: int)
    requires Scanned(files, log) && AllRun(log, column) && LastMention(log, column, l)
    requires forall k :: 0 <= k < |ColumnRecords(log[l], column)| ==> ColumnRecords(log[l], column)[k].revision <= n
    ensures var es := Index(Flat(files, log), column);
            es != [] && (Latest(es) == n <==> HoldsRevision(log[l], column, n))
  {
    hide Index, Flat, ColumnRecords, LastOf, FirstOf;
    IndexEnds(files, log, column);
    LastOfMention(log, column, l);
    assert Runs(log[l], column);
  }

  // --- Numbered logs ---

  /** The k-th revision record of the column carries revision k + 1. */
  ghost predicate NumberedLog(rs: seq<Record>, column: int) {
    forall k :: 0 <= k < |ColumnRecords(rs, column)| ==> ColumnRecords(rs, column)[k].revision == k + 1
  }

  /** The column's records up to a file are those before it and its own. */
  lemma RecordsUpTo(log: seq<seq<Record>>, column: int)
    requires log != []
    ensures var k := |log| - 1;
            ColumnRecords(Records(log), column) == ColumnRecords(Records(log[..k]), column) + ColumnRecords(log[k], column)
  {
    hide ColumnRecords;
    ColumnRecordsConcat(Records(log[..|log| - 1]), log[|log| - 1], column);
  }

  /** The last file of a numbered log continues the numbering. */
  lemma NumberedSplit(log: seq<seq<Record>>, column: int)
    requires log != [] && NumberedLog(Records(log), column)
    ensures var k := |log| - 1;
            var n, here := |ColumnRecords(Records(log[..k]), column)|, ColumnRecords(log[k], column);
            && |ColumnRecords(Records(log), column)| == n + |here|
            && NumberedLog(Records(log[..k]), column)
            && forall i :: 0 <= i < |here| ==> here[i].revision == n + i + 1
  {
    hide ColumnRecords, Records;
    var k := |log| - 1;
    RecordsUpTo(log, column);
    var all, before, here := ColumnRecords(Records(log), column), ColumnRecords(Records(log[..k]), column), ColumnRecords(log[k], column);
    forall i | 0 <= i < |before| ensures before[i].revision == i + 1 {
      assert all[i] == before[i];
    }
    forall i | 0 <= i < |here| ensures here[i].revision == |before| + i + 1 {
      assert all[|before| + i] == here[i];
    }
  }

  /** In a numbered log, in LSN order, the first and the last revision are 1 and their number. */
  lemma {:induction false} NumberedEnds(log: seq<seq<Record>>, column: int)
    requires NumberedLog(Records(log), column)
    ensures var n := |ColumnRecords(Records(log), column)|;
            && FirstOf(log, column) == (if n == 0 then None else Some(1))
            && LastOf(log, column) == (if n == 0 then None else Some(n))
    decreases |log|
  {
    if log == [] {
      assert Records(log) == [];
    } else {
      hide ColumnRecords, Records, NumberedLog, FirstOf, LastOf;
      NumberedSplit(log, column);
      EndsSnoc(log, column);
      NumberedEnds(log[..|log| - 1], column);
    }
  }

  /** The files of a numbered log each hold consecutive revisions. */
  lemma {:induction false} NumberedRuns(log: seq<seq<Record>>, column: int)
    requires NumberedLog(Records(log), column)
    ensures AllRun(log, column)
    decreases |log|
  {
    hide ColumnRecords, Records, NumberedLog;
    if log != [] {
      var k := |log| - 1;
      NumberedSplit(log, column);
      NumberedRuns(log[..k], column);
      assert Runs(log[k], column);
      hide Runs;
      forall i | 0 <= i < |log| ensures Runs(log[i], column) {
        if i < k {
          assert Runs(log[..k][i], column);
        }
      }
    }
  }
}
