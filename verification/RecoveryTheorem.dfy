/** Recovery against live operation, end to end: the same transactions go to the log and to
    a live worker; a fresh worker is then filled from the log. */
module RecoveryTheorem {
  import opened Options
  import Collections
  import opened FramedStream
  import opened LogRecords
  import opened LogFiles
  import opened LogIndex
  import opened LogManager
  import opened LogHistory
  import opened LogScan
  import opened LogAnswers
  import opened Recovery
  import WorkerSchema

  /** A client transaction as both the log and the workers receive it. */
  datatype Transaction = Transaction(id: int, stamp: int, revisions: seq<ColumnRevision>, writes: seq<W.Write>)

  function Data(ws: seq<W.Write>, write: B.ColumnWrites -> seq<byte>): seq<ColumnData> {
    seq(|ws|, i requires 0 <= i < |ws| => ColumnData(ws[i].column, write(ws[i].writes)))
  }

  function ToLog(t: Transaction, write: B.ColumnWrites -> seq<byte>): Stamped {
    Stamped(Commit(t.id, t.revisions, Data(t.writes, write)), t.stamp)
  }

  function ToLogAll(ts: seq<Transaction>, write: B.ColumnWrites -> seq<byte>): seq<Stamped> {
    seq(|ts|, i requires 0 <= i < |ts| => ToLog(ts[i], write))
  }

  function ToWorker(ts: seq<Transaction>): seq<seq<W.Write>> {
    seq(|ts|, i requires 0 <= i < |ts| => ts[i].writes)
  }

  /** The transaction lists the column with the revision after those it has. */
  ghost predicate NextListed(before: seq<Transaction>, t: Transaction, c: int) {
    ColumnRevision(c, |W.History(ToWorker(before), c)| + 1) in t.revisions
  }

  lemma NextFound(before: seq<Transaction>, t: Transaction, c: int)
    requires OneEach(t.revisions) && NextListed(before, t, c)
    ensures FindRevision(t.revisions, c) == Some(|W.History(ToWorker(before), c)| + 1) && Listed(t.revisions, c)
  {
    hide FindRevision, OneEach, Listed;
    FindRevisionIff(t.revisions, c, |W.History(ToWorker(before), c)| + 1);
    FindRevisionMember(t.revisions, c);
  }

  /** The transaction gives every column it writes the next revision of that column. */
  ghost predicate Next(before: seq<Transaction>, t: Transaction) {
    && W.Ascending(t.writes) && OneEach(t.revisions)
    && forall i :: 0 <= i < |t.writes| ==> NextListed(before, t, t.writes[i].column)
  }

  ghost predicate Sequential(ts: seq<Transaction>) {
    ts == [] || (Sequential(ts[..|ts| - 1]) && Next(ts[..|ts| - 1], ts[|ts| - 1]))
  }

  ghost predicate RoundTrips(write: B.ColumnWrites -> seq<byte>, read: Reader) {
    forall w :: read(write(w)) == w
  }

  // --- What the log holds ---

  /** The revision record a transaction leaves for a column. */
  function RecordFor(t: Transaction, ws: seq<W.Write>, write: B.ColumnWrites -> seq<byte>, c: int): seq<Record> {
    var w := W.WritesTo(ws, c);
    var r := FindRevision(t.revisions, c);
    if w.Some? && r.Some? then [Revision(c, r.value, t.stamp, write(w.value))] else []
  }

  lemma SingleColumnRecord(r: Record, c: int)
    ensures ColumnRecords([r], c) == if r.Revision? && r.column == c then [r] else []
  {
    assert [r][..0] == [];
  }

  lemma {:induction false} RevisionRecordsColumn(t: Transaction, ws: seq<W.Write>, write: B.ColumnWrites -> seq<byte>, c: int)
    requires W.Ascending(ws)
    requires forall i :: 0 <= i < |ws| ==> FindRevision(t.revisions, ws[i].column).Some?
    ensures ColumnRecords(RevisionRecords(t.revisions, Data(ws, write), t.stamp), c) == RecordFor(t, ws, write, c)
    decreases |ws|
  {
    hide ColumnRecords, FindRevision, W.Ascending;
    if ws == [] {
      assert ColumnRecords([], c) == [] by { NoRecords(c); }
    } else {
      var w := ws[0];
      W.AscendingTail(ws);
      RevisionRecordsColumn(t, ws[1..], write, c);
      DataTail(ws, write);
      hide Data;
      var head := Revision(w.column, FindRevision(t.revisions, w.column).value, t.stamp, write(w.writes));
      ColumnRecordsConcat([head], RevisionRecords(t.revisions, Data(ws[1..], write), t.stamp), c);
      SingleColumnRecord(head, c);
    }
  }

  lemma DataTail(ws: seq<W.Write>, write: B.ColumnWrites -> seq<byte>)
    requires ws != []
    ensures Data(ws, write)[0] == ColumnData(ws[0].column, write(ws[0].writes))
    ensures Data(ws, write)[1..] == Data(ws[1..], write)
  {
  }

  lemma NoRecords(c: int)
    ensures ColumnRecords([], c) == []
  {
  }

  lemma SegmentColumn(before: seq<Transaction>, t: Transaction, write: B.ColumnWrites -> seq<byte>, c: int)
    requires Next(before, t)
    ensures ColumnRecords(Segment(ToLog(t, write).commit, t.stamp), c) == RecordFor(t, t.writes, write, c)
  {
    hide ColumnRecords, FindRevision, RevisionRecords, W.Ascending, W.History, RecordFor, Data, Listed, OneEach, NextListed;
    var s := ToLog(t, write);
    forall i | 0 <= i < |t.writes| ensures FindRevision(t.revisions, t.writes[i].column).Some? && Listed(t.revisions, t.writes[i].column) {
      NextFound(before, t, t.writes[i].column);
    }
    var first, last := Begin(t.id, t.stamp, t.revisions), End(t.id, t.stamp);
    var middle := RevisionRecords(t.revisions, s.commit.writes, t.stamp);
    assert Complete(s.commit) by { CompleteData(t, write); }
    RevisionRecordsColumn(t, t.writes, write, c);
    ColumnRecordsConcat([first] + middle, [last], c);
    ColumnRecordsConcat([first], middle, c);
    SingleColumnRecord(first, c);
    SingleColumnRecord(last, c);
  }

  lemma CompleteData(t: Transaction, write: B.ColumnWrites -> seq<byte>)
    requires forall i :: 0 <= i < |t.writes| ==> Listed(t.revisions, t.writes[i].column)
    ensures Complete(ToLog(t, write).commit)
  {
    hide Listed;
  }

  /** The records of a column are its history: one per write, numbered from 1, each reading
      back to what was written. */
  ghost predicate Tells(rs: seq<Record>, h: seq<B.ColumnWrites>, read: Reader) {
    && |rs| == |h|
    && forall k :: 0 <= k < |rs| ==> rs[k].Revision? && rs[k].revision == k + 1 && read(rs[k].data) == h[k]
  }

  /** The record of a transaction for a column carries the next revision of the column. */
  lemma RecordForNext(before: seq<Transaction>, t: Transaction, write: B.ColumnWrites -> seq<byte>, c: int)
    requires Next(before, t)
    ensures RecordFor(t, t.writes, write, c)
            == match W.WritesTo(t.writes, c)
               case Some(w) => [Revision(c, |W.History(ToWorker(before), c)| + 1, t.stamp, write(w))]
               case None => []
  {
    hide FindRevision, Listed, OneEach, W.WritesTo, W.History, NextListed;
    W.WritesToMember(t.writes, c);
    if W.WritesTo(t.writes, c).Some? {
      var i :| 0 <= i < |t.writes| && t.writes[i].column == c;
      NextFound(before, t, c);
    }
  }

  lemma TellsNext(rs: seq<Record>, h: seq<B.ColumnWrites>, r: Record, w: B.ColumnWrites, read: Reader)
    requires Tells(rs, h, read) && r.Revision? && r.revision == |h| + 1 && read(r.data) == w
    ensures Tells(rs + [r], h + [w], read)
  {
  }

  lemma {:induction false} LogTellsHistory(ts: seq<Transaction>, write: B.ColumnWrites -> seq<byte>, read: Reader, c: int)
    requires Sequential(ts) && RoundTrips(write, read)
    ensures Tells(ColumnRecords(LogOf(ToLogAll(ts, write)), c), W.History(ToWorker(ts), c), read)
    decreases |ts|
  {
    hide Segment, ColumnRecords, Next, RecordFor, W.WritesTo, Tells;
    if ts == [] {
      NoRecords(c);
      NothingTold(read);
    } else {
      var n := |ts| - 1;
      LogTellsHistory(ts[..n], write, read, c);
      assert ToLogAll(ts, write)[..n] == ToLogAll(ts[..n], write);
      assert ToWorker(ts)[..n] == ToWorker(ts[..n]);
      SegmentColumn(ts[..n], ts[n], write, c);
      var rs, h := ColumnRecords(LogOf(ToLogAll(ts[..n], write)), c), W.History(ToWorker(ts[..n]), c);
      ColumnRecordsConcat(LogOf(ToLogAll(ts[..n], write)), Segment(ToLog(ts[n], write).commit, ts[n].stamp), c);
      RecordForNext(ts[..n], ts[n], write, c);
      match W.WritesTo(ts[n].writes, c)
      case Some(w) => TellsNext(rs, h, Revision(c, |h| + 1, ts[n].stamp, write(w)), w, read);
      case None => assert rs + [] == rs && h + [] == h;
    }
  }

  lemma NothingTold(read: Reader)
    ensures Tells([], [], read)
  {
  }

  lemma LogIsNumbered(ts: seq<Transaction>, write: B.ColumnWrites -> seq<byte>, read: Reader, c: int)
    requires Sequential(ts) && RoundTrips(write, read)
    ensures var rs := LogOf(ToLogAll(ts, write));
            NumberedLog(rs, c) && ColumnLog(rs, c, read) == W.History(ToWorker(ts), c)
  {
    hide ColumnRecords, LogOf, W.History, Sequential;
    LogTellsHistory(ts, write, read, c);
  }

  // --- Recovery equals live state ---

  /** A freshly started worker: every repository at revision 0. */
  ghost predicate Fresh(boot: W.Repos) {
    W.HasSchema(boot) && forall c :: c in boot ==> boot[c].revision == 0
  }

  /** Started with the system columns only. */
  ghost predicate Booted(boot: W.Repos) {
    Fresh(boot) && forall c :: c in boot ==> c <= W.MAX_SYSTEM_COLUMN_ID
  }

  /** A repository that was given its whole logged history. */
  function Whole(r: W.Repo, h: seq<B.ColumnWrites>): W.Repo {
    if h == [] then r else W.Repo(B.ApplyAll(r.buffer, h), |h|)
  }

  /** The worker filled from a log that was scanned in LSN order. */
  function Recovered(boot: W.Repos, rs: seq<Record>, read: Reader): W.Repos {
    map c | c in boot :: Whole(boot[c], ColumnLog(rs, c, read))
  }

  lemma {:induction false} SequentialAscends(ts: seq<Transaction>, i: nat)
    requires Sequential(ts) && i < |ts|
    ensures W.Ascending(ts[i].writes)
    decreases |ts|
  {
    if i < |ts| - 1 {
      SequentialAscends(ts[..|ts| - 1], i);
    }
  }

  lemma WorkerAscends(ts: seq<Transaction>)
    requires Sequential(ts)
    ensures forall i :: 0 <= i < |ToWorker(ts)| ==> W.Ascending(ToWorker(ts)[i])
  {
    hide Sequential, W.Ascending;
    forall i | 0 <= i < |ts| ensures W.Ascending(ToWorker(ts)[i]) {
      SequentialAscends(ts, i);
    }
  }

  /** Every column of the fresh worker that the live worker keeps throughout, user columns
      included, ends up with the contents and the revision it has there. */
  lemma ReplayedEqualsLive(boot: W.Repos, pod: int, ts: seq<Transaction>,
                           write: B.ColumnWrites -> seq<byte>, read: Reader, c: int)
    requires Fresh(boot) && Sequential(ts) && RoundTrips(write, read)
    requires c in boot && W.Survives(boot, pod, ToWorker(ts), c)
    ensures var live := W.Live(boot, pod, ToWorker(ts));
            c in live && Whole(boot[c], W.History(ToWorker(ts), c)) == live[c]
    ensures ColumnLog(LogOf(ToLogAll(ts, write)), c, read) == W.History(ToWorker(ts), c)
  {
    hide LogOf, ColumnLog, W.Live, W.History, Sequential, W.Ascending, B.Apply, W.Survives;
    WorkerAscends(ts);
    W.LiveColumn(boot, pod, ToWorker(ts), c);
    LogIsNumbered(ts, write, read, c);
  }

  /** The worker filled from the log equals the live one exactly if the transactions assign
      no new column to its pod. */
  lemma FilledIff(boot: W.Repos, pod: int, ts: seq<Transaction>,
                     write: B.ColumnWrites -> seq<byte>, read: Reader)
    requires Booted(boot) && Sequential(ts) && RoundTrips(write, read)
    ensures Recovered(boot, LogOf(ToLogAll(ts, write)), read) == W.Live(boot, pod, ToWorker(ts))
            <==> WorkerSchema.NoNewColumn(boot, pod, ToWorker(ts))
  {
    hide LogOf, ColumnLog, W.Live, Sequential, Whole, WorkerSchema.NoNewColumn, W.Survives;
    var live := W.Live(boot, pod, ToWorker(ts));
    var recovered := Recovered(boot, LogOf(ToLogAll(ts, write)), read);
    assert recovered.Keys == boot.Keys;
    forall c | c in boot ensures c in live && recovered[c] == live[c] {
      W.SystemColumnSurvives(boot, pod, ToWorker(ts), c);
      ReplayedEqualsLive(boot, pod, ts, write, read, c);
    }
    WorkerAscends(ts);
    WorkerSchema.SameColumnsIff(boot, pod, ToWorker(ts));
    if live.Keys == boot.Keys {
      assert forall c :: c in live <==> c in recovered;
      assert recovered == live;
    }
  }

  /** What replaying a log scanned in LSN order delivers: the filled worker, or None if some
      logged column has no repository, where the replay throws. */
  ghost function Delivered(boot: W.Repos, rs: seq<Record>, read: Reader): Option<W.Repos> {
    if forall c :: ColumnRecords(rs, c) != [] ==> c in boot then Some(Recovered(boot, rs, read)) else None
  }

  /** Only columns the worker was started with are written. */
  ghost predicate OnlyBooted(ts: seq<Transaction>, boot: W.Repos) {
    forall c :: Written(ts, c) ==> c in boot
  }

  /** Replay delivers the live worker exactly if the transactions write only columns it was
      started with and assign no new column to its pod. */
  lemma RecoveredIff(boot: W.Repos, pod: int, ts: seq<Transaction>,
                     write: B.ColumnWrites -> seq<byte>, read: Reader)
    requires Booted(boot) && Sequential(ts) && RoundTrips(write, read)
    ensures Delivered(boot, LogOf(ToLogAll(ts, write)), read) == Some(W.Live(boot, pod, ToWorker(ts)))
            <==> OnlyBooted(ts, boot) && WorkerSchema.NoNewColumn(boot, pod, ToWorker(ts))
  {
    hide LogOf, W.Live, Sequential, RoundTrips, Recovered, WorkerSchema.NoNewColumn, W.History, ColumnRecords, Written, Booted;
    var rs := LogOf(ToLogAll(ts, write));
    forall c ensures ColumnRecords(rs, c) != [] <==> Written(ts, c) {
      LogIsNumbered(ts, write, read, c);
      HistoryOfWritten(ts, c);
    }
    FilledIff(boot, pod, ts, write, read);
  }

  /** Some transaction writes to the column. */
  ghost predicate Written(ts: seq<Transaction>, c: int) {
    exists i :: 0 <= i < |ts| && W.WritesTo(ts[i].writes, c).Some?
  }

  lemma {:induction false} HistoryOfWritten(ts: seq<Transaction>, c: int)
    ensures W.History(ToWorker(ts), c) != [] <==> Written(ts, c)
    decreases |ts|
  {
    if ts != [] {
      var n := |ts| - 1;
      HistoryOfWritten(ts[..n], c);
      assert ToWorker(ts)[..n] == ToWorker(ts[..n]);
      if W.WritesTo(ts[n].writes, c).None? && Written(ts, c) {
        var i :| 0 <= i < |ts| && W.WritesTo(ts[i].writes, c).Some?;
        assert ts[..n][i] == ts[i];
      }
    }
  }

  method Enumerate(columns: set<int>) returns (order: seq<int>)
    ensures Enumerates(order, columns)
  {
    order := [];
    var left := columns;
    while left != {}
      invariant left <= columns
      invariant forall c :: c in order <==> c in columns - left
      invariant forall i :: 0 <= i < |order| ==> order[i] !in order[..i]
      decreases |left|
    {
      Collections.NonEmpty(left);
      var c :| c in left;
      ghost var before := order;
      order := order + [c];
      assert forall i :: 0 <= i < |before| ==> order[..i] == before[..i];
      assert order[..|before|] == before;
      left := left - {c};
    }
  }

  method CommitLive(w: W.WorkerHandler, ts: seq<Transaction>)
    requires W.HasSchema(w.repos)
    modifies w
    ensures w.repos == W.Live(old(w.repos), w.pod, ToWorker(ts))
  {
    hide W.CommitFrom;
    for i := 0 to |ts|
      invariant W.HasSchema(w.repos) && w.repos == W.Live(old(w.repos), w.pod, ToWorker(ts)[..i])
    {
      w.Commit(ts[i].writes);
      assert ToWorker(ts)[..i + 1][..i] == ToWorker(ts)[..i];
    }
    assert ToWorker(ts)[..|ts|] == ToWorker(ts);
  }

  /** In whatever order the files are scanned, the columns of the log are those the
      transactions write. */
  lemma LoggedColumnsWritten(files: seq<LogFile>, log: seq<seq<Record>>, order: seq<nat>, ts: seq<Transaction>,
                             write: B.ColumnWrites -> seq<byte>, read: Reader, c: int)
    requires HoldsAll(files, log) && IsOrder(order, |files|) && Sequential(ts) && RoundTrips(write, read)
    requires Records(log) == LogOf(ToLogAll(ts, write))
    ensures NumberedLog(Records(log), c)
    ensures Index(Flat(Arrange(files, order), Arrange(log, order)), c) != [] <==> Written(ts, c)
  {
    hide LogOf, ColumnLog, W.History, Sequential, NumberedLog, Written, Records, Holds, Index, Flat, FirstOf, LastOf, AllRun, ColumnRecords;
    LogIsNumbered(ts, write, read, c);
    HistoryOfWritten(ts, c);
    ArrangeScanned(files, log, order);
    ArrangedRuns(log, order, c);
    IndexEnds(Arrange(files, order), Arrange(log, order), c);
    MentionedSomewhere(log, order, c, read);
  }

  lemma MentionedSomewhere(log: seq<seq<Record>>, order: seq<nat>, c: int, read: Reader)
    requires IsOrder(order, |log|)
    ensures FirstOf(Arrange(log, order), c).Some? <==> ColumnLog(Records(log), c, read) != []
  {
    hide Records, ColumnRecords;
    var ls, rs := Arrange(log, order), ColumnRecords(Records(log), c);
    hide FirstOf;
    FirstOfMentions(ls, c);
    if rs != [] {
      assert rs[0] in rs;
      ColumnRecordMember(Records(log), c, rs[0]);
      RecordsMember(log, rs[0]);
      var i :| 0 <= i < |log| && rs[0] in log[i];
      assert i in order;
      var j :| 0 <= j < |order| && order[j] == i;
      ColumnRecordMember(log[i], c, rs[0]);
      assert Mentions(ls[j], c);
    }
    if i :| 0 <= i < |ls| && Mentions(ls[i], c) {
      var r := ColumnRecords(ls[i], c)[0];
      assert r in ColumnRecords(ls[i], c) && ls[i] == log[order[i]];
      ColumnRecordMember(ls[i], c, r);
      RecordsMember(log, r);
      ColumnRecordMember(Records(log), c, r);
    }
  }

  lemma {:induction false} FirstOfMentions(log: seq<seq<Record>>, c: int)
    ensures FirstOf(log, c).Some? <==> exists i :: 0 <= i < |log| && Mentions(log[i], c)
    decreases |log|
  {
    hide Mentions;
    if log != [] {
      var k := |log| - 1;
      FirstOfMentions(log[..k], c);
      if i :| 0 <= i < |log| && Mentions(log[i], c) {
        assert i < k ==> Mentions(log[..k][i], c);
      }
      if i :| 0 <= i < k && Mentions(log[..k][i], c) {
        assert Mentions(log[i], c);
      }
    }
  }

  lemma AllBooted(ts: seq<Transaction>, columns: set<int>, boot: W.Repos)
    requires forall c :: c in columns <==> Written(ts, c)
    ensures OnlyBooted(ts, boot) <==> columns <= boot.Keys
  {
    hide Written;
    if columns <= boot.Keys {
      forall c | Written(ts, c) ensures c in boot {
        assert c in columns;
      }
    }
    if OnlyBooted(ts, boot) {
      assert forall c :: c in columns ==> c in boot;
    }
  }

  /** Files are listed by LSN. */
  ghost predicate ByLsn(list: nat -> seq<nat>) {
    forall n, i :: 0 <= i < n && i < |list(n)| ==> list(n)[i] == i
  }

  ghost predicate IsListing(list: nat -> seq<nat>) {
    forall n :: IsOrder(list(n), n)
  }

  /** The log of the transactions, written and then scanned in the order the directory lists
      its files. */
  method WriteAndScan(ts: seq<Transaction>, write: B.ColumnWrites -> seq<byte>, list: nat -> seq<nat>)
    returns (s: Store, ghost files: seq<LogFile>, ghost log: seq<seq<Record>>)
    requires IsListing(list) && forall i :: 0 <= i < |ts| ==> StorableCommit(ToLog(ts[i], write).commit, ts[i].stamp)
    ensures HoldsAll(files, log) && Records(log) == LogOf(ToLogAll(ts, write))
    ensures var order := list(|log|);
            IsOrder(order, |log|) && s.files == Arrange(files, order) && Restarted(s, Arrange(log, order))
  {
    hide StorableCommit, LogOf, Records, Holds, Indexed, Flat, Bounded;
    assert LogOf(ToLogAll(ts, write)) == [] + LogOf(ToLogAll(ts, write));
    var m := new LogManager();
    NoLog();
    CommitAll(m, ToLogAll(ts, write));
    var order := list(|m.files|);
    assert IsOrder(order, |m.files|);
    var columns := m.RebuildIndex(order, 0);
    files, log := m.files, m.log;
    s := Store(Arrange(m.files, order), columns);
    ArrangeScanned(files, log, order);
  }

  /** The transactions go to a log and to a live worker; then the store is restarted from the
      files as the directory lists them, and a restarted worker is filled from it.  Filling it
      completes exactly if only columns it was started with were written.  Then each of them
      holds its revisions from the first of the first file to the last of the last file
      scanned that mention it; with files listed by LSN that is the live state of every
      column the live worker kept.  A worker started with system columns is recovered whole
      exactly if, besides, no new column was assigned to it. */
  method Recover(ts: seq<Transaction>, boot: W.Repos, pod: int,
                 write: B.ColumnWrites -> seq<byte>, read: Reader, list: nat -> seq<nat>)
    returns (live: W.WorkerHandler, restarted: W.WorkerHandler, ok: bool, ghost log: seq<seq<Record>>)
    requires Fresh(boot) && Sequential(ts) && RoundTrips(write, read) && IsListing(list)
    requires forall i :: 0 <= i < |ts| ==> StorableCommit(ToLog(ts[i], write).commit, ts[i].stamp)
    ensures live.repos == W.Live(boot, pod, ToWorker(ts))
    ensures Records(log) == LogOf(ToLogAll(ts, write)) && IsOrder(list(|log|), |log|)
    ensures ok <==> OnlyBooted(ts, boot)
    ensures ok ==> restarted.repos.Keys == boot.Keys
    ensures ok ==> forall c :: c in boot && c in restarted.repos ==>
      var scan := Arrange(log, list(|log|));
      restarted.repos[c] == Restored(boot[c], W.History(ToWorker(ts), c), FirstOf(scan, c), LastOf(scan, c))
    ensures ok && ByLsn(list) ==> forall c :: c in boot && c in restarted.repos && W.Survives(boot, pod, ToWorker(ts), c) ==>
      c in live.repos && restarted.repos[c] == live.repos[c]
    ensures ByLsn(list) && Booted(boot) ==>
      (ok && restarted.repos == live.repos <==> OnlyBooted(ts, boot) && WorkerSchema.NoNewColumn(boot, pod, ToWorker(ts)))
  {
    hide StorableCommit, LogOf, W.Live, Sequential, RoundTrips, Written, Replayed, Restarted, Records, Restored, W.Survives,
         WorkerSchema.NoNewColumn, W.History, FirstOf, LastOf, HoldsAll, Flat, Enumerates;
    var s: Store;
    ghost var files: seq<LogFile>;
    s, files, log := WriteAndScan(ts, write, list);
    live := new W.WorkerHandler(pod, boot);
    CommitLive(live, ts);
    restarted := new W.WorkerHandler(pod, boot);
    var order := Enumerate(s.columns.Keys);
    ghost var scan := Arrange(log, list(|log|));
    ok := PopulateWorkers(s, restarted, order, read, scan);
    ColumnsWritten(s, files, log, list(|log|), ts, write, read);
    AllBooted(ts, s.columns.Keys, boot);
    if ok {
      AllRestored(boot, files, log, list(|log|), ts, write, read);
      if ByLsn(list) {
        assert Arrange(log, list(|log|)) == log;
        WholeInOrder(boot, pod, log, ts, write, read, restarted.repos);
      }
    }
  }

  lemma ColumnsWritten(s: Store, files: seq<LogFile>, log: seq<seq<Record>>, order: seq<nat>, ts: seq<Transaction>,
                       write: B.ColumnWrites -> seq<byte>, read: Reader)
    requires HoldsAll(files, log) && IsOrder(order, |log|) && Sequential(ts) && RoundTrips(write, read)
    requires Records(log) == LogOf(ToLogAll(ts, write))
    requires s.files == Arrange(files, order) && Restarted(s, Arrange(log, order))
    ensures forall c :: c in s.columns.Keys <==> Written(ts, c)
  {
    hide HoldsAll, Sequential, RoundTrips, Records, LogOf, Restarted, Written, Flat, Index;
    SameCount(files, log);
    forall c ensures c in s.columns.Keys <==> Written(ts, c) {
      StoreKnows(s, Arrange(log, order), c);
      LoggedColumnsWritten(files, log, order, ts, write, read, c);
    }
  }

  lemma SameCount(files: seq<LogFile>, log: seq<seq<Record>>)
    requires HoldsAll(files, log)
    ensures |files| == |log|
  {
  }

  /** Every repository after the replay of the scanned log. */
  lemma AllRestored(boot: W.Repos, files: seq<LogFile>, log: seq<seq<Record>>, order: seq<nat>, ts: seq<Transaction>,
                    write: B.ColumnWrites -> seq<byte>, read: Reader)
    requires HoldsAll(files, log) && IsOrder(order, |log|) && Sequential(ts) && RoundTrips(write, read)
    requires Records(log) == LogOf(ToLogAll(ts, write))
    ensures |files| == |log|
    ensures var scan := Arrange(log, order);
            var r := Replayed(boot, Flat(Arrange(files, order), scan), read);
            r.Keys == boot.Keys && forall c :: c in boot && c in r ==>
              r[c] == Restored(boot[c], W.History(ToWorker(ts), c), FirstOf(scan, c), LastOf(scan, c))
  {
    hide HoldsAll, Sequential, RoundTrips, Records, LogOf, Flat, LoadedFrom, Restored, FirstOf, LastOf, W.History, ColumnLog;
    SameCount(files, log);
    var scan := Arrange(log, order);
    var r := Replayed(boot, Flat(Arrange(files, order), scan), read);
    assert r.Keys == boot.Keys;
    forall c | c in boot
      ensures r[c] == Restored(boot[c], W.History(ToWorker(ts), c), FirstOf(scan, c), LastOf(scan, c))
    {
      LogIsNumbered(ts, write, read, c);
      LoadedNumbered(files, log, order, c, boot[c], read);
    }
  }

  /** With the files listed by LSN the replayed worker is the recovered one. */
  lemma WholeInOrder(boot: W.Repos, pod: int, log: seq<seq<Record>>, ts: seq<Transaction>,
                     write: B.ColumnWrites -> seq<byte>, read: Reader, now: W.Repos)
    requires Fresh(boot) && Sequential(ts) && RoundTrips(write, read) && Records(log) == LogOf(ToLogAll(ts, write))
    requires now.Keys == boot.Keys
    requires forall c :: c in boot && c in now ==> now[c] == Restored(boot[c], W.History(ToWorker(ts), c), FirstOf(log, c), LastOf(log, c))
    ensures var live := W.Live(boot, pod, ToWorker(ts));
            && (forall c :: c in boot && c in now && W.Survives(boot, pod, ToWorker(ts), c) ==> c in live && now[c] == live[c])
            && (Booted(boot) ==> (now == live <==> WorkerSchema.NoNewColumn(boot, pod, ToWorker(ts))))
  {
    hide Sequential, RoundTrips, Records, LogOf, Restored, FirstOf, LastOf, W.History, ColumnLog, Whole, W.Live, W.Survives,
         WorkerSchema.NoNewColumn;
    var recovered := Recovered(boot, LogOf(ToLogAll(ts, write)), read);
    assert recovered.Keys == boot.Keys;
    forall c | c in boot && c in now ensures now[c] == Whole(boot[c], W.History(ToWorker(ts), c)) && now[c] == recovered[c] {
      LogIsNumbered(ts, write, read, c);
      LoadedWhole(log, c, boot[c], read);
    }
    forall c | c in boot && c in now && W.Survives(boot, pod, ToWorker(ts), c)
      ensures c in W.Live(boot, pod, ToWorker(ts)) && now[c] == W.Live(boot, pod, ToWorker(ts))[c]
    {
      ReplayedEqualsLive(boot, pod, ts, write, read, c);
    }
    assert forall c :: c in now <==> c in recovered;
    assert now == recovered;
    if Booted(boot) {
      FilledIff(boot, pod, ts, write, read);
    }
  }

  lemma LoadedWhole(log: seq<seq<Record>>, c: int, r: W.Repo, read: Reader)
    requires NumberedLog(Records(log), c)
    ensures var h := ColumnLog(Records(log), c, read);
            Restored(r, h, FirstOf(log, c), LastOf(log, c)) == Whole(r, h)
  {
    hide Restored, FirstOf, LastOf, B.ApplyAll, Records;
    LoadedInOrder(log, c, r, read);
  }

  lemma NoLog()
    ensures Records([]) == []
  {
  }

  /** Replay does not look at transaction brackets: what a commit that threw half-way had
      logged is replayed, although its end record is missing. */
  lemma UnfinishedIsReplayed(s: Stamped, read: Reader)
    requires !Complete(s.commit)
    requires s.commit.writes != [] && Listed(s.commit.revisions, s.commit.writes[0].column)
    ensures ColumnLog(Segment(s.commit, s.stamp), s.commit.writes[0].column, read) != []
    ensures forall k :: 0 <= k < |Segment(s.commit, s.stamp)| ==> !Segment(s.commit, s.stamp)[k].End?
  {
    var c := s.commit.writes[0].column;
    UnfinishedHasNoEnd(s);
    FindRevisionMember(s.commit.revisions, c);
    var rs := RevisionRecords(s.commit.revisions, s.commit.writes, s.stamp);
    assert rs == [rs[0]] + rs[1..];
    assert Segment(s.commit, s.stamp) == [Begin(s.commit.transaction, s.stamp, s.commit.revisions)] + rs;
    ColumnRecordsConcat([Begin(s.commit.transaction, s.stamp, s.commit.revisions)], rs, c);
    ColumnRecordsConcat([rs[0]], rs[1..], c);
    SingleColumnRecord(rs[0], c);
  }

  // --- A run that is not recovered ---

  lemma SingleTransaction(t: Transaction, repos: W.Repos, pod: int)
    requires Next([], t) && W.HasSchema(repos)
    ensures Sequential([t])
    ensures W.Live(repos, pod, ToWorker([t])) == W.CommitFrom(repos, pod, t.writes, false)
  {
    hide Next, W.CommitFrom;
    var none: seq<Transaction> := [];
    assert [t][..0] == none && Sequential(none);
    assert ToWorker([t])[..0] == [] && ToWorker([t])[0] == t.writes;
    assert W.Live(repos, pod, []) == repos;
  }

  const NEW_COLUMN_REVISIONS :=
    [ColumnRevision(W.POD_COLUMN_POD_ID, 1), ColumnRevision(W.POD_COLUMN_COLUMN_ID, 1), ColumnRevision(10000, 1)]

  lemma NewColumnIsNext(pod: int, data: B.ColumnWrites)
    ensures Next([], Transaction(1, 0, NEW_COLUMN_REVISIONS, W.NewColumnCommit(pod, data)))
  {
    var revs := NEW_COLUMN_REVISIONS;
    assert revs[0] in revs && revs[1] in revs && revs[2] in revs;
    assert forall c :: W.History([], c) == [];
    assert ToWorker([]) == [];
  }

  /** A transaction that assigns a new column to the pod and writes to it is not recovered: the
      replay throws, and the worker it was filling lacks the column the live worker gained. */
  lemma NewColumnNotRecovered(pod: int, data: B.ColumnWrites, write: B.ColumnWrites -> seq<byte>, read: Reader)
    requires RoundTrips(write, read)
    ensures Booted(W.TWO_COLUMNS)
    ensures var ts := [Transaction(1, 0, NEW_COLUMN_REVISIONS, W.NewColumnCommit(pod, data))];
            && Sequential(ts)
            && Delivered(W.TWO_COLUMNS, LogOf(ToLogAll(ts, write)), read) == None
            && Recovered(W.TWO_COLUMNS, LogOf(ToLogAll(ts, write)), read) != W.Live(W.TWO_COLUMNS, pod, ToWorker(ts))
  {
    hide Next, Sequential, W.CommitFrom, W.Live, LogOf, RoundTrips, Whole, ColumnLog, ColumnRecords, W.History;
    var t := Transaction(1, 0, NEW_COLUMN_REVISIONS, W.NewColumnCommit(pod, data));
    NewColumnIsNext(pod, data);
    W.NewColumnDropped(pod, data);
    SingleTransaction(t, W.TWO_COLUMNS, pod);
    var recovered := Recovered(W.TWO_COLUMNS, LogOf(ToLogAll([t], write)), read);
    assert 10000 in W.Live(W.TWO_COLUMNS, pod, ToWorker([t])) && 10000 !in recovered;
    assert t.writes[2] == W.Write(10000, data) && W.Ascending(t.writes);
    W.WritesToMember(t.writes, 10000);
    assert t.writes[2].column == 10000;
    assert [t][0] == t && W.WritesTo([t][0].writes, 10000).Some?;
    LoggedIfWritten([t], write, read, 10000);
  }

  lemma LoggedIfWritten(ts: seq<Transaction>, write: B.ColumnWrites -> seq<byte>, read: Reader, c: int)
    requires Sequential(ts) && RoundTrips(write, read)
    ensures ColumnRecords(LogOf(ToLogAll(ts, write)), c) != [] <==> Written(ts, c)
  {
    hide Sequential, RoundTrips, LogOf, W.History, ColumnRecords, Written;
    LogIsNumbered(ts, write, read, c);
    HistoryOfWritten(ts, c);
  }

  lemma UnbootedIsNext(data: B.ColumnWrites)
    ensures Next([], Transaction(1, 0, [ColumnRevision(5, 1)], [W.Write(5, data)]))
  {
    assert ToWorker([]) == [] && W.History([], 5) == [];
    assert ColumnRevision(5, 1) in [ColumnRevision(5, 1)];
  }

  /** A transaction that writes one column the worker does not have: no column is assigned to
      the pod, and yet the replay throws. */
  lemma UnbootedColumnThrows(pod: int, data: B.ColumnWrites, write: B.ColumnWrites -> seq<byte>, read: Reader)
    requires RoundTrips(write, read)
    ensures var ts := [Transaction(1, 0, [ColumnRevision(5, 1)], [W.Write(5, data)])];
            && Sequential(ts)
            && Delivered(W.TWO_COLUMNS, LogOf(ToLogAll(ts, write)), read) == None
            && WorkerSchema.NoNewColumn(W.TWO_COLUMNS, pod, ToWorker(ts))
  {
    hide Sequential, W.CommitFrom, W.Live, LogOf, RoundTrips, Recovered, ColumnRecords, WorkerSchema.NoNewColumn, W.History;
    var t := Transaction(1, 0, [ColumnRevision(5, 1)], [W.Write(5, data)]);
    UnbootedIsNext(data);
    SingleTransaction(t, W.TWO_COLUMNS, pod);
    var next := W.CommitFrom(W.TWO_COLUMNS, pod, t.writes, false);
    forall c ensures c in next <==> c in W.TWO_COLUMNS {
      W.QuietCommit(W.TWO_COLUMNS, pod, t.writes, c);
    }
    assert next.Keys == W.TWO_COLUMNS.Keys;
    WorkerAscends([t]);
    WorkerSchema.SameColumnsIff(W.TWO_COLUMNS, pod, ToWorker([t]));
    W.WritesToMember(t.writes, 5);
    assert t.writes[0].column == 5;
    assert [t][0] == t && W.WritesTo([t][0].writes, 5).Some?;
    LoggedIfWritten([t], write, read, 5);
  }
}
