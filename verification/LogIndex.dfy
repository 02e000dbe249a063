/** The revision index of the log: built by scanning files, maintained by writing records,
    and searched by revision. */
module LogIndex {
  import opened Options
  import opened LogRecords
  import FS = FramedStream

  /** RevisionFileInfo: the records of one column in one file. */
  datatype FileEntry = FileEntry(lsn: int, start: int, offsets: seq<nat>)

  type Entries = seq<FileEntry>

  /** revisionFileInfoByLsn: the first entry for a file, or the number of entries. */
  function FindLsn(es: Entries, lsn: int): (i: nat)
    ensures i <= |es| && (i < |es| ==> es[i].lsn == lsn)
    ensures forall j :: 0 <= j < i ==> es[j].lsn != lsn
  {
    if es == [] then 0
    else if es[0].lsn == lsn then 0
    else
      var i := 1 + FindLsn(es[1..], lsn);
      assert forall j :: 0 < j < i ==> es[j] == es[1..][j - 1];
      i
  }

  /** indexRevisionRecord: append to the file's entry, or start one. */
  function AddByScan(es: Entries, lsn: int, offset: nat, revision: int): Entries {
    var i := FindLsn(es, lsn);
    if i < |es| then es[i := es[i].(offsets := es[i].offsets + [offset])]
    else es + [FileEntry(lsn, revision, [offset])]
  }

  /** The bookkeeping of writeRevision: only the last entry is looked at. */
  function AddByWrite(es: Entries, lsn: int, offset: nat, revision: int): Entries {
    if es != [] && es[|es| - 1].lsn == lsn then
      es[|es| - 1 := es[|es| - 1].(offsets := es[|es| - 1].offsets + [offset])]
    else es + [FileEntry(lsn, revision, [offset])]
  }

  predicate Concerns(x: Located, column: int) {
    x.record.Revision? && x.record.column == column
  }

  /** The index of one column, rebuilt from the located records of the log. */
  function Index(log: seq<Located>, column: int): Entries {
    if log == [] then []
    else
      var x := log[|log| - 1];
      var es := Index(log[..|log| - 1], column);
      if Concerns(x, column) then AddByScan(es, x.lsn, x.offset, x.record.revision) else es
  }

  /** Files are read in LSN order. */
  ghost predicate InOrder(log: seq<Located>) {
    forall i, j :: 0 <= i < j < |log| ==> log[i].lsn <= log[j].lsn
  }

  ghost predicate Ascending(es: Entries, last: int) {
    && (forall i, j :: 0 <= i < j < |es| ==> es[i].lsn < es[j].lsn)
    && (forall i :: 0 <= i < |es| ==> es[i].lsn <= last && es[i].offsets != [])
  }

  lemma AddByScanAscending(es: Entries, last: int, lsn: int, offset: nat, revision: int)
    requires Ascending(es, last) && last <= lsn
    ensures Ascending(AddByScan(es, lsn, offset, revision), lsn)
    ensures AddByWrite(es, lsn, offset, revision) == AddByScan(es, lsn, offset, revision)
  {
    OnlyLast(es, last, lsn);
  }

  lemma OnlyLast(es: Entries, last: int, lsn: int)
    requires Ascending(es, last) && last <= lsn
    ensures FindLsn(es, lsn) == (if es != [] && es[|es| - 1].lsn == lsn then |es| - 1 else |es|)
  {
    assert forall j :: 0 <= j < |es| - 1 ==> es[j].lsn < es[|es| - 1].lsn;
  }

  lemma {:induction false} IndexAscending(log: seq<Located>, column: int, last: int)
    requires InOrder(log) && (log != [] ==> log[|log| - 1].lsn <= last)
    ensures Ascending(Index(log, column), last)
    decreases |log|
  {
    if log != [] {
      var x := log[|log| - 1];
      IndexAscending(log[..|log| - 1], column, x.lsn);
      if Concerns(x, column) {
        AddByScanAscending(Index(log[..|log| - 1], column), x.lsn, x.lsn, x.offset, x.record.revision);
      }
    }
  }

  /** Writing one more record: the incremental index equals the rebuilt one. */
  lemma WriteKeepsIndex(log: seq<Located>, x: Located, column: int)
    requires InOrder(log + [x])
    ensures Index(log + [x], column) ==
              if Concerns(x, column) then AddByWrite(Index(log, column), x.lsn, x.offset, x.record.revision)
              else Index(log, column)
  {
    assert (log + [x])[..|log|] == log;
    if Concerns(x, column) {
      assert log != [] ==> log[|log| - 1] == (log + [x])[|log| - 1] && (log + [x])[|log|] == x;
      assert InOrder(log) by {
        forall i, j | 0 <= i < j < |log| ensures log[i].lsn <= log[j].lsn {
          assert log[i] == (log + [x])[i] && log[j] == (log + [x])[j];
        }
      }
      IndexAscending(log, column, x.lsn);
      AddByScanAscending(Index(log, column), x.lsn, x.lsn, x.offset, x.record.revision);
    }
  }

  // --- What the index means ---

  /** The records of a column in one file, in order. */
  function InFile(log: seq<Located>, column: int, lsn: int): (r: seq<Located>)
    ensures forall i :: 0 <= i < |r| ==> r[i] in log && Concerns(r[i], column) && r[i].lsn == lsn
  {
    if log == [] then []
    else
      var before := InFile(log[..|log| - 1], column, lsn);
      var x := log[|log| - 1];
      if Concerns(x, column) && x.lsn == lsn then before + [x] else before
  }

  /** An entry lists the offsets of its file's records, and starts at the first revision. */
  ghost predicate Lists(e: FileEntry, rs: seq<Located>) {
    && |e.offsets| == |rs| > 0
    && rs[0].record.Revision? && e.start == rs[0].record.revision
    && forall k :: 0 <= k < |rs| ==> e.offsets[k] == rs[k].offset
  }

  ghost predicate ListsAll(es: Entries, log: seq<Located>, column: int) {
    forall i :: 0 <= i < |es| ==> InFile(log, column, es[i].lsn) != [] && Lists(es[i], InFile(log, column, es[i].lsn))
  }

  ghost predicate Covers(es: Entries, log: seq<Located>, column: int) {
    forall lsn :: InFile(log, column, lsn) != [] ==> FindLsn(es, lsn) < |es|
  }

  /** The index has exactly one entry per file that mentions the column. */
  lemma {:induction false} IndexMeaning(log: seq<Located>, column: int)
    ensures ListsAll(Index(log, column), log, column)
    ensures Covers(Index(log, column), log, column)
    ensures OnePerFile(Index(log, column))
    decreases |log|
  {
    if log != [] {
      var log' := log[..|log| - 1];
      var x := log[|log| - 1];
      IndexMeaning(log', column);
      if Concerns(x, column) {
        AddLists(Index(log', column), log', x, column);
        AddCovers(Index(log', column), log', x, column);
        assert log' + [x] == log;
      } else {
        assert forall lsn :: InFile(log, column, lsn) == InFile(log', column, lsn);
      }
    }
  }

  lemma InFileSnoc(log: seq<Located>, x: Located, column: int, lsn: int)
    requires Concerns(x, column)
    ensures InFile(log + [x], column, lsn)
            == if lsn == x.lsn then InFile(log, column, lsn) + [x] else InFile(log, column, lsn)
  {
    assert (log + [x])[..|log|] == log;
  }

  ghost predicate OnePerFile(es: Entries) {
    forall i, j :: 0 <= i < j < |es| ==> es[i].lsn != es[j].lsn
  }

  lemma AddLists(es: Entries, log: seq<Located>, x: Located, column: int)
    requires Concerns(x, column) && ListsAll(es, log, column) && Covers(es, log, column) && OnePerFile(es)
    ensures ListsAll(AddByScan(es, x.lsn, x.offset, x.record.revision), log + [x], column)
  {
    hide InFile;
    var es' := AddByScan(es, x.lsn, x.offset, x.record.revision);
    forall i | 0 <= i < |es'|
      ensures InFile(log + [x], column, es'[i].lsn) != []
      ensures Lists(es'[i], InFile(log + [x], column, es'[i].lsn))
    {
      InFileSnoc(log, x, column, es'[i].lsn);
      if i < |es| {
        assert Lists(es[i], InFile(log, column, es[i].lsn));
      } else {
        assert InFile(log, column, x.lsn) == [];
      }
    }
  }

  lemma AddCovers(es: Entries, log: seq<Located>, x: Located, column: int)
    requires Concerns(x, column) && Covers(es, log, column)
    ensures Covers(AddByScan(es, x.lsn, x.offset, x.record.revision), log + [x], column)
  {
    hide InFile;
    var es' := AddByScan(es, x.lsn, x.offset, x.record.revision);
    forall lsn | InFile(log + [x], column, lsn) != []
      ensures FindLsn(es', lsn) < |es'|
    {
      InFileSnoc(log, x, column, lsn);
      var j := if lsn == x.lsn then FindLsn(es, x.lsn) else FindLsn(es, lsn);
      assert es'[j].lsn == lsn;
    }
  }

  // --- Lookup ---

  datatype Place = Place(lsn: int, offset: nat)

  /** offsetByRevision: the first entry whose range holds the revision. */
  function Lookup(es: Entries, revision: int): Option<Place> {
    if es == [] then None
    else if 0 <= revision - es[0].start < |es[0].offsets| then
      Some(Place(es[0].lsn, es[0].offsets[revision - es[0].start]))
    else Lookup(es[1..], revision)
  }

  /** The record of a column and revision stands at this place of the log. */
  ghost predicate StandsAt(log: seq<Located>, column: int, revision: int, p: Place) {
    exists x :: x in log && Concerns(x, column) && x.record.revision == revision && x.lsn == p.lsn && x.offset == p.offset
  }

  ghost predicate Logged(log: seq<Located>, column: int, revision: int) {
    exists x :: x in log && Concerns(x, column) && x.record.revision == revision
  }

  /** Lookup answers right: the place of the record, or None when there is no record. */
  ghost predicate LookupRight(log: seq<Located>, column: int, revision: int) {
    match Lookup(Index(log, column), revision)
    case Some(p) => StandsAt(log, column, revision, p)
    case None => !Logged(log, column, revision)
  }

  /** Within each file the column's revisions are consecutive. */
  ghost predicate ConsecutiveInFiles(log: seq<Located>, column: int) {
    forall lsn, k :: 0 <= k < |InFile(log, column, lsn)| ==>
      InFile(log, column, lsn)[k].record.revision == InFile(log, column, lsn)[0].record.revision + k
  }

  /** No two records share a place, and no revision of the column is logged twice. */
  ghost predicate Distinct(log: seq<Located>, column: int) {
    && (forall x, y :: x in log && y in log && x.lsn == y.lsn && x.offset == y.offset ==> x == y)
    && (forall lsn, m, i, j :: 0 <= i < |InFile(log, column, lsn)| && 0 <= j < |InFile(log, column, m)| ==>
          InFile(log, column, lsn)[i].record.revision == InFile(log, column, m)[j].record.revision ==> lsn == m && i == j)
  }

  lemma {:induction false} LookupHit(es: Entries, revision: int) returns (i: nat)
    requires Lookup(es, revision).Some?
    ensures i < |es| && 0 <= revision - es[i].start < |es[i].offsets|
    ensures Lookup(es, revision).value == Place(es[i].lsn, es[i].offsets[revision - es[i].start])
    decreases |es|
  {
    if 0 <= revision - es[0].start < |es[0].offsets| {
      i := 0;
    } else {
      i := LookupHit(es[1..], revision);
      i := i + 1;
    }
  }

  lemma {:induction false} LookupMiss(es: Entries, revision: int)
    requires Lookup(es, revision).None?
    ensures forall i :: 0 <= i < |es| ==> !(0 <= revision - es[i].start < |es[i].offsets|)
    decreases |es|
  {
    if es != [] {
      LookupMiss(es[1..], revision);
      assert forall i :: 0 < i < |es| ==> es[i] == es[1..][i - 1];
    }
  }

  lemma {:induction false} FiledUnderLsn(log: seq<Located>, column: int, x: Located) returns (k: nat)
    requires x in log && Concerns(x, column)
    ensures k < |InFile(log, column, x.lsn)| && InFile(log, column, x.lsn)[k] == x
    decreases |log|
  {
    var before := log[..|log| - 1];
    if x in before {
      k := FiledUnderLsn(before, column, x);
    } else {
      assert x == log[|log| - 1];
      k := |InFile(log, column, x.lsn)| - 1;
    }
  }

  /** If every file holds consecutive revisions, every lookup is right. */
  lemma LookupFindsRecords(log: seq<Located>, column: int, revision: int)
    requires ConsecutiveInFiles(log, column)
    ensures LookupRight(log, column, revision)
  {
    var es := Index(log, column);
    IndexMeaning(log, column);
    if Lookup(es, revision).Some? {
      var i := LookupHit(es, revision);
      var rs := InFile(log, column, es[i].lsn);
      var x := rs[revision - es[i].start];
      assert x in log && Concerns(x, column) && x.record.revision == revision;
      assert x.lsn == Lookup(es, revision).value.lsn && x.offset == Lookup(es, revision).value.offset;
    } else if Logged(log, column, revision) {
      var x :| x in log && Concerns(x, column) && x.record.revision == revision;
      var k := FiledUnderLsn(log, column, x);
      var i := FindLsn(es, x.lsn);
      assert Lists(es[i], InFile(log, column, x.lsn));
      assert revision - es[i].start == k;
      LookupMiss(es, revision);
    }
  }

  /** If every lookup is right, every file holds consecutive revisions. */
  lemma RightLookupsAreConsecutive(log: seq<Located>, column: int)
    requires Distinct(log, column)
    requires forall revision :: LookupRight(log, column, revision)
    ensures ConsecutiveInFiles(log, column)
  {
    var es := Index(log, column);
    IndexMeaning(log, column);
    forall lsn, k | 0 <= k < |InFile(log, column, lsn)|
      ensures InFile(log, column, lsn)[k].record.revision == InFile(log, column, lsn)[0].record.revision + k
    {
      var x := InFile(log, column, lsn)[k];
      var revision := x.record.revision;
      assert LookupRight(log, column, revision) && Logged(log, column, revision);
      var p := Lookup(es, revision).value;
      var i := LookupHit(es, revision);
      var rs := InFile(log, column, es[i].lsn);
      var d := revision - es[i].start;
      var y :| y in log && Concerns(y, column) && y.record.revision == revision && y.lsn == p.lsn && y.offset == p.offset;
      assert rs[d].offset == p.offset && rs[d].lsn == p.lsn && rs[d] in log;
      assert rs[d] == y;
    }
  }

  /** The index answers every lookup right exactly when the column's revisions run
      consecutively inside each file. */
  lemma LookupRightIff(log: seq<Located>, column: int)
    requires Distinct(log, column)
    ensures (forall revision :: LookupRight(log, column, revision)) <==> ConsecutiveInFiles(log, column)
  {
    if ConsecutiveInFiles(log, column) {
      forall revision ensures LookupRight(log, column, revision) { LookupFindsRecords(log, column, revision); }
    }
    if forall revision :: LookupRight(log, column, revision) {
      RightLookupsAreConsecutive(log, column);
    }
  }

  /** A gap inside a file does mislead the lookup: revisions 1 and 3 in one file. */
  lemma GapMisleads(data: seq<FS.byte>)
    ensures var log := [Located(0, 1024, Revision(7, 1, 0, data)), Located(0, 2000, Revision(7, 3, 0, data))];
            Lookup(Index(log, 7), 2) == Some(Place(0, 2000)) && Lookup(Index(log, 7), 3) == None
  {
    var log := [Located(0, 1024, Revision(7, 1, 0, data)), Located(0, 2000, Revision(7, 3, 0, data))];
    assert log[..1] == [log[0]] && log[..1][..0] == [];
    assert Index(log[..1], 7) == [FileEntry(0, 1, [1024])];
    assert FindLsn([FileEntry(0, 1, [1024])], 0) == 0;
    assert Index(log, 7) == [FileEntry(0, 1, [1024] + [2000])];
  }

  /** indexRevisionRecord and writeRevision as written work on a copy of the column's entry:
      looking it up creates the entry, and nothing is ever added to it. */
  function CopiedIndex(log: seq<Located>): map<int, Entries> {
    if log == [] then map[]
    else
      var m := CopiedIndex(log[..|log| - 1]);
      var r := log[|log| - 1].record;
      if r.Revision? && r.column !in m then m[r.column := []] else m
  }

  /** The columns that have been looked up are there, each without entries. */
  lemma {:induction false} CopiedIndexMeaning(log: seq<Located>, column: int)
    ensures column in CopiedIndex(log) <==> exists i :: 0 <= i < |log| && Concerns(log[i], column)
    ensures column in CopiedIndex(log) ==> CopiedIndex(log)[column] == []
    decreases |log|
  {
    if log != [] {
      var n := |log| - 1;
      CopiedIndexMeaning(log[..n], column);
      if i :| 0 <= i < |log| && Concerns(log[i], column) {
        assert i < n ==> log[..n][i] == log[i];
      }
    }
  }

  /** So as written no lookup finds anything. */
  lemma {:induction false} CopiedIndexFindsNothing(log: seq<Located>, column: int, revision: int)
    requires column in CopiedIndex(log)
    ensures Lookup(CopiedIndex(log)[column], revision) == None
    decreases |log|
  {
    if column in CopiedIndex(log[..|log| - 1]) {
      CopiedIndexFindsNothing(log[..|log| - 1], column, revision);
    }
  }
}
