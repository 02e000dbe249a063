/** Properties of the logs that commits produce: transaction bracketing, and the history
    of each column. */
module LogHistory {
  import opened Options
  import opened FramedStream
  import opened LogRecords
  import opened LogFiles
  import opened LogIndex
  import opened LogManager

  /** A commit and the clock value its records carry. */
  datatype Stamped = Stamped(commit: Commit, stamp: int)

  /** The log after a sequence of commits, some of which may have thrown. */
  ghost function LogOf(cs: seq<Stamped>): seq<Record> {
    if cs == [] then [] else LogOf(cs[..|cs| - 1]) + Segment(cs[|cs| - 1].commit, cs[|cs| - 1].stamp)
  }

  /** Running the commits against the log manager produces that log, across rotations. */
  method CommitAll(m: LogManager, cs: seq<Stamped>)
    requires m.Valid() && forall i :: 0 <= i < |cs| ==> StorableCommit(cs[i].commit, cs[i].stamp)
    modifies m
    ensures m.Valid() && Records(m.log) == old(Records(m.log)) + LogOf(cs)
  {
    hide Segment, Records, StorableCommit, Leaves, Flat;
    ghost var first := Records(m.log);
    for i := 0 to |cs|
      invariant m.Valid() && Records(m.log) == first + LogOf(cs[..i])
    {
      var ok := m.InternalCommit(cs[i].commit, cs[i].stamp);
      assert cs[..i + 1][..i] == cs[..i];
    }
    assert cs[..|cs|] == cs;
  }

  // --- Bracketing ---

  /** Records i .. j are the whole of one commit: its begin record, one revision record for
      every written column in order, its end record. */
  ghost predicate Bracket(log: seq<Record>, i: int, j: int, s: Stamped) {
    && 0 <= i < j < |log|
    && Complete(s.commit)
    && log[i] == Begin(s.commit.transaction, s.stamp, s.commit.revisions)
    && log[j] == End(s.commit.transaction, s.stamp)
    && j - i - 1 == |s.commit.writes|
    && forall k :: 0 <= k < |s.commit.writes| ==> WriteRecord(log[i + 1 + k], s.commit.writes[k], s.commit.revisions, s.stamp)
  }

  lemma SegmentBracket(s: Stamped, before: seq<Record>, j: int)
    requires 0 <= j < |Segment(s.commit, s.stamp)| && Segment(s.commit, s.stamp)[j].End?
    ensures Bracket(before + Segment(s.commit, s.stamp), |before|, |before| + j, s)
  {
    hide Listed, RevisionRecords, WriteRecord;
    SegmentLeaves(s.commit, s.stamp);
    SegmentEnds(s, j);
  }

  lemma RevisionInside(rs: seq<Record>, c: Commit, stamp: int, j: int)
    requires Leaves(rs, c, stamp) && 0 < j <= |c.writes| && j < |rs|
    ensures rs[j].Revision?
  {
    assert WriteRecord(rs[j], c.writes[j - 1], c.revisions, stamp);
  }

  /** Only the last record of a segment is an end record. */
  lemma SegmentEnds(s: Stamped, j: int)
    requires 0 <= j < |Segment(s.commit, s.stamp)| && Segment(s.commit, s.stamp)[j].End?
    ensures Complete(s.commit) && j == |s.commit.writes| + 1 == |Segment(s.commit, s.stamp)| - 1
  {
    hide Listed, RevisionRecords, Segment;
    SegmentLeaves(s.commit, s.stamp);
    if 0 < j <= |s.commit.writes| {
      RevisionInside(Segment(s.commit, s.stamp), s.commit, s.stamp, j);
    }
  }

  /** In every prefix of every log, an end record closes the whole of one commit: nothing of
      another transaction lies inside, and no written column is missing. */
  lemma {:induction false} LogBracketed(cs: seq<Stamped>, n: nat, j: nat) returns (i: nat, c: nat)
    requires n <= |LogOf(cs)| && j < n && LogOf(cs)[..n][j].End?
    ensures c < |cs| && Bracket(LogOf(cs)[..n], i, j, cs[c])
    ensures LogOf(cs)[j].transaction == cs[c].commit.transaction
    decreases |cs|
  {
    hide Segment;
    var before := LogOf(cs[..|cs| - 1]);
    var s := cs[|cs| - 1];
    if j < |before| {
      i, c := LogBracketed(cs[..|cs| - 1], if n < |before| then n else |before|, j);
    } else {
      i, c := |before|, |cs| - 1;
      SegmentBracket(s, before, j - |before|);
    }
  }

  /** The commits that a recovery may trust: those whose end record is in the log. */
  lemma UnfinishedHasNoEnd(s: Stamped)
    requires !Complete(s.commit)
    ensures forall k :: 0 <= k < |Segment(s.commit, s.stamp)| ==> !Segment(s.commit, s.stamp)[k].End?
  {
    hide Segment, Listed;
    forall k | 0 <= k < |Segment(s.commit, s.stamp)| ensures !Segment(s.commit, s.stamp)[k].End? {
      if Segment(s.commit, s.stamp)[k].End? {
        SegmentEnds(s, k);
      }
    }
  }

  // --- The history of one column ---

  /** The revision records of a column, in log order. */
  function ColumnRecords(rs: seq<Record>, column: int): (r: seq<Record>)
    ensures forall i :: 0 <= i < |r| ==> r[i].Revision? && r[i].column == column
  {
    if rs == [] then []
    else
      var r := rs[|rs| - 1];
      ColumnRecords(rs[..|rs| - 1], column) + if r.Revision? && r.column == column then [r] else []
  }

  lemma {:induction false} ColumnRecordsConcat(a: seq<Record>, b: seq<Record>, column: int)
    ensures ColumnRecords(a + b, column) == ColumnRecords(a, column) + ColumnRecords(b, column)
    decreases |b|
  {
    if b == [] {
      assert a + b == a;
    } else {
      assert (a + b)[..|a + b| - 1] == a + b[..|b| - 1];
      ColumnRecordsConcat(a, b[..|b| - 1], column);
    }
  }

  /** The located records of a column, in log order. */
  function ColumnPlaces(flat: seq<Located>, column: int): (r: seq<Located>)
    ensures forall i :: 0 <= i < |r| ==> Concerns(r[i], column)
  {
    if flat == [] then []
    else
      var x := flat[|flat| - 1];
      ColumnPlaces(flat[..|flat| - 1], column) + if Concerns(x, column) then [x] else []
  }

  /** getLatestRevisions for one column. */
  function Latest(es: Entries): int
    requires es != []
  {
    es[|es| - 1].start + |es[|es| - 1].offsets| - 1
  }

  /** Files are scanned in directory order.  With file 1 before file 0 the index still finds
      revision 2 but tells 1 as the latest. */
  lemma DirectoryOrderMisleads(data: seq<byte>)
    ensures var flat := [Located(1, 1024, Revision(7, 2, 0, data)), Located(0, 1024, Revision(7, 1, 0, data))];
            var es := Index(flat, 7);
            es != [] && Lookup(es, 2) == Some(Place(1, 1024)) && Latest(es) == 1
  {
    var flat := [Located(1, 1024, Revision(7, 2, 0, data)), Located(0, 1024, Revision(7, 1, 0, data))];
    assert flat[..1] == [flat[0]] && flat[..1][..0] == [];
    assert Index(flat[..1], 7) == [FileEntry(1, 2, [1024])];
    assert FindLsn([FileEntry(1, 2, [1024])], 0) == 1;
    assert Index(flat, 7) == [FileEntry(1, 2, [1024]), FileEntry(0, 1, [1024])];
  }
}
