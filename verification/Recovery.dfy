/** Recovery: reading a column's writes back out of a scanned log and replaying them into a
    freshly started worker. */
module Recovery {
  import opened Options
  import opened FramedStream
  import opened LogRecords
  import opened LogFiles
  import opened LogIndex
  import opened LogManager
  import opened LogHistory
  import opened LogScan
  import opened LogAnswers
  import B = ColumnBuffer
  import W = Worker

  /** Deserialization of a payload. */
  type Reader = seq<byte> -> B.ColumnWrites

  /** What a restarted store has: the files, in the order they were scanned, and the index. */
  datatype Store = Store(files: seq<LogFile>, columns: map<int, Entries>)

  ghost predicate Restarted(s: Store, log: seq<seq<Record>>) {
    |s.files| == |log| && Scanned(s.files, log) && Indexed(s.columns, Flat(s.files, log))
  }

  // --- getWrites ---

  /** The answers for a range of revisions, none at all if one is missing. */
  function Range(flat: seq<Located>, column: int, lo: int, hi: int, read: Reader): Option<seq<B.ColumnWrites>>
    decreases hi - lo
  {
    if hi < lo then Some([])
    else
      var before, r := Range(flat, column, lo, hi - 1, read), Answer(flat, column, hi);
      if before.Some? && r.Some? && r.value.Revision? then Some(before.value + [read(r.value.data)]) else None
  }

  /** The wanted revisions clamped to those the index tells. */
  function Fetched(flat: seq<Located>, column: int, from: int, to: int, read: Reader): seq<B.ColumnWrites> {
    var es := Index(flat, column);
    if es == [] then []
    else
      var lo := if from < es[0].start then es[0].start else from;
      var hi := if Latest(es) < to then Latest(es) else to;
      var ws := Range(flat, column, lo, hi, read);
      if ws.Some? then ws.value else []
  }

  lemma {:induction false} RangeMisses(flat: seq<Located>, column: int, lo: int, at: int, hi: int, read: Reader)
    requires lo <= at <= hi && Answer(flat, column, at) == None
    ensures Range(flat, column, lo, hi, read) == None
    decreases hi - at
  {
    if at < hi {
      RangeMisses(flat, column, lo, at, hi - 1, read);
    }
  }

  lemma RangeNext(flat: seq<Located>, column: int, lo: int, hi: int, read: Reader)
    requires lo <= hi
    ensures var before, r := Range(flat, column, lo, hi - 1, read), Answer(flat, column, hi);
            Range(flat, column, lo, hi, read)
            == if before.Some? && r.Some? && r.value.Revision? then Some(before.value + [read(r.value.data)]) else None
  {
  }

  lemma RangeEmpty(flat: seq<Located>, column: int, lo: int, read: Reader)
    ensures Range(flat, column, lo, lo - 1, read) == Some([])
  {
  }

  lemma StoreKnows(s: Store, log: seq<seq<Record>>, column: int)
    requires Restarted(s, log)
    ensures var es := Index(Flat(s.files, log), column);
            (column in s.columns <==> es != []) && (column in s.columns ==> s.columns[column] == es)
  {
    hide Index, Flat;
  }

  /** getRange: one record after the other; a missing revision throws, and nothing is
      returned. */
  method GetRange(s: Store, column: int, lo: int, hi: int, read: Reader, ghost log: seq<seq<Record>>)
    returns (found: seq<B.ColumnWrites>)
    requires Restarted(s, log) && column in s.columns
    ensures var ws := Range(Flat(s.files, log), column, lo, hi, read);
            found == if ws.Some? then ws.value else []
  {
    hide Scanned, Indexed, Flat, Answer, Range, Lookup, ReadAt, FileOf, Index;
    ghost var flat := Flat(s.files, log);
    StoreKnows(s, log, column);
    found := [];
    if hi < lo {
      RangeBelow(flat, column, lo, hi, read);
      return;
    }
    RangeEmpty(flat, column, lo, read);
    var rev := lo;
    while rev <= hi
      invariant lo <= rev <= hi + 1 && Range(flat, column, lo, rev - 1, read) == Some(found)
    {
      StoreReads(s, log, column, rev);
      var lsn, offset := OffsetByRevision(s.columns[column], rev);
      if lsn == -1 {
        RangeMisses(flat, column, lo, rev, hi, read);
        return [];
      }
      var r := ReadAt(FileOf(s.files, lsn).value, offset).value;
      RangeNext(flat, column, lo, rev, read);
      found := found + [read(r.data)];
      rev := rev + 1;
    }
  }

  lemma RangeBelow(flat: seq<Located>, column: int, lo: int, hi: int, read: Reader)
    requires hi < lo
    ensures Range(flat, column, lo, hi, read) == Some([])
  {
  }

  /** The place the index gives leads to the answer. */
  lemma StoreReads(s: Store, log: seq<seq<Record>>, column: int, revision: int)
    requires Restarted(s, log)
    ensures var p := Lookup(Index(Flat(s.files, log), column), revision);
            var r := Answer(Flat(s.files, log), column, revision);
            && (p.Some? <==> r.Some?)
            && (p.Some? ==>
                  && r.value.Revision? && p.value.lsn >= 0
                  && FileOf(s.files, p.value.lsn).Some?
                  && ReadAt(FileOf(s.files, p.value.lsn).value, p.value.offset) == r)
  {
    hide Flat, Answer, Lookup, ReadAt, FileOf, Index, Indexed;
    AnswerReads(s.files, log, column, revision);
  }

  /** internalGetWrites for one column. */
  method GetWrites(s: Store, column: int, from: int, to: int, read: Reader, ghost log: seq<seq<Record>>)
    returns (found: seq<B.ColumnWrites>)
    requires Restarted(s, log)
    ensures found == Fetched(Flat(s.files, log), column, from, to, read)
  {
    hide Scanned, Indexed, Flat, Range, Index;
    StoreKnows(s, log, column);
    found := [];
    if column in s.columns {
      var es := s.columns[column];
      var lo := if from < es[0].start then es[0].start else from;
      var hi := if Latest(es) < to then Latest(es) else to;
      if hi < lo {
        RangeBelow(Flat(s.files, log), column, lo, hi, read);
      } else {
        found := GetRange(s, column, lo, hi, read, log);
      }
    }
  }

  // --- populateWorkers ---

  /** What the probes for revisions 0 .. m bring. */
  function Probes(flat: seq<Located>, column: int, m: int, read: Reader): seq<B.ColumnWrites>
    decreases m
  {
    if m < 0 then [] else Probes(flat, column, m - 1, read) + Fetched(flat, column, m, m, read)
  }

  /** A repository after its column has been loaded. */
  function LoadedFrom(r: W.Repo, flat: seq<Located>, column: int, read: Reader): W.Repo {
    var es := Index(flat, column);
    if es == [] then r else W.Repo(B.ApplyAll(r.buffer, Probes(flat, column, Latest(es), read)), Latest(es))
  }

  lemma {:induction false} ApplyAllConcat(b: B.Buffer, x: seq<B.ColumnWrites>, y: seq<B.ColumnWrites>)
    ensures B.ApplyAll(b, x + y) == B.ApplyAll(B.ApplyAll(b, x), y)
    decreases |y|
  {
    hide B.Apply;
    if y == [] {
      assert x + y == x;
    } else {
      assert (x + y)[..|x + y| - 1] == x + y[..|y| - 1];
      ApplyAllConcat(b, x, y[..|y| - 1]);
    }
  }

  lemma ApplyNext(b: B.Buffer, ws: seq<B.ColumnWrites>, i: nat)
    requires i < |ws|
    ensures B.ApplyAll(b, ws[..i + 1]) == B.Apply(B.ApplyAll(b, ws[..i]), ws[i])
  {
    assert ws[..i + 1][..i] == ws[..i];
  }

  lemma ApplyNone(b: B.Buffer)
    ensures B.ApplyAll(b, []) == b
  {
  }

  /** The column has been given these writes, and nothing else has changed. */
  ghost predicate Given(start: W.Repos, now: W.Repos, column: int, ws: seq<B.ColumnWrites>) {
    && column in start && column in now
    && now == start[column := now[column]]
    && now[column].buffer == B.ApplyAll(start[column].buffer, ws)
  }

  /** Writes handed to the worker one by one. */
  method LoadWrites(w: W.WorkerHandler, column: int, found: seq<B.ColumnWrites>, ghost start: W.Repos, ghost before: seq<B.ColumnWrites>)
    requires Given(start, w.repos, column, before)
    modifies w
    ensures Given(start, w.repos, column, before + found)
  {
    hide B.Apply, B.ApplyAll;
    ghost var b := start[column].buffer;
    assert found[..0] == [] && found[..|found|] == found;
    ApplyNone(B.ApplyAll(b, before));
    for i := 0 to |found|
      invariant column in w.repos && w.repos == start[column := w.repos[column]]
      invariant w.repos[column].buffer == B.ApplyAll(B.ApplyAll(b, before), found[..i])
    {
      ApplyNext(B.ApplyAll(b, before), found, i);
      var done := w.LoadWrite(column, found[i]);
    }
    ApplyAllConcat(b, before, found);
  }

  lemma ProbesNext(flat: seq<Located>, column: int, m: nat, read: Reader)
    ensures Probes(flat, column, m, read) == Probes(flat, column, m - 1, read) + Fetched(flat, column, m, m, read)
  {
  }

  /** One column: the revisions from 0 to the latest, one at a time.  False stands for the
      worker's exception. */
  method LoadColumn(s: Store, w: W.WorkerHandler, column: int, read: Reader, ghost log: seq<seq<Record>>) returns (ok: bool)
    requires Restarted(s, log) && column in s.columns
    modifies w
    ensures ok == (column in old(w.repos))
    ensures w.repos == if ok then old(w.repos)[column := LoadedFrom(old(w.repos)[column], Flat(s.files, log), column, read)]
                       else old(w.repos)
  {
    hide Scanned, Indexed, Flat, Index, Probes, Fetched, Latest, B.Apply, B.ApplyAll, Given;
    ghost var flat := Flat(s.files, log);
    StoreKnows(s, log, column);
    ok := w.LoadBegin(column);
    if ok {
      var max := Latest(s.columns[column]);
      NothingGiven(w.repos, column, flat, read);
      var rev := 0;
      while rev <= max
        invariant 0 <= rev && (rev <= max + 1 || rev == 0)
        invariant Given(old(w.repos), w.repos, column, Probes(flat, column, rev - 1, read))
      {
        var found := GetWrites(s, column, rev, rev, read, log);
        ProbesNext(flat, column, rev, read);
        LoadWrites(w, column, found, old(w.repos), Probes(flat, column, rev - 1, read));
        rev := rev + 1;
      }
      if max < 0 {
        NoProbes(flat, column, max, read);
      }
      NoProbes(flat, column, -1, read);
      GivenAll(old(w.repos), w.repos, column, Probes(flat, column, max, read), max);
      ok := w.LoadEnd(column, max);
    }
  }

  lemma NoProbes(flat: seq<Located>, column: int, m: int, read: Reader)
    requires m < 0
    ensures Probes(flat, column, m, read) == []
  {
  }

  lemma NothingGiven(start: W.Repos, column: int, flat: seq<Located>, read: Reader)
    requires column in start
    ensures Given(start, start, column, Probes(flat, column, -1, read))
  {
  }

  lemma GivenAll(start: W.Repos, now: W.Repos, column: int, ws: seq<B.ColumnWrites>, revision: int)
    requires Given(start, now, column, ws)
    ensures column in now && column in start
    ensures now[column := now[column].(revision := revision)] == start[column := W.Repo(B.ApplyAll(start[column].buffer, ws), revision)]
  {
    hide B.ApplyAll;
  }

  /** The worker once the listed columns have been loaded. */
  function Partly(repos: W.Repos, columns: seq<int>, flat: seq<Located>, read: Reader): W.Repos {
    map c | c in repos :: if c in columns then LoadedFrom(repos[c], flat, c, read) else repos[c]
  }

  /** The worker once every logged column has been loaded. */
  function Replayed(repos: W.Repos, flat: seq<Located>, read: Reader): W.Repos {
    map c | c in repos :: LoadedFrom(repos[c], flat, c, read)
  }

  lemma PartlyStep(repos: W.Repos, columns: seq<int>, i: nat, flat: seq<Located>, read: Reader)
    requires i < |columns| && columns[i] in repos && columns[i] !in columns[..i]
    ensures var c := columns[i];
            && c in Partly(repos, columns[..i], flat, read) && Partly(repos, columns[..i], flat, read)[c] == repos[c]
            && Partly(repos, columns[..i + 1], flat, read)
               == Partly(repos, columns[..i], flat, read)[c := LoadedFrom(repos[c], flat, c, read)]
  {
    hide LoadedFrom;
    assert columns[..i + 1] == columns[..i] + [columns[i]];
  }

  lemma PartlyIsAll(repos: W.Repos, columns: seq<int>, flat: seq<Located>, read: Reader)
    requires forall c :: c in repos && c !in columns ==> Index(flat, c) == []
    ensures Partly(repos, columns, flat, read) == Replayed(repos, flat, read)
  {
    hide Index, Probes, B.ApplyAll;
  }

  /** The log's columns, in whatever order. */
  ghost predicate Enumerates(order: seq<int>, columns: set<int>) {
    && (forall c :: c in order <==> c in columns)
    && (forall i :: 0 <= i < |order| ==> order[i] !in order[..i])
  }

  lemma EnumerationCovered(order: seq<int>, columns: set<int>, have: set<int>)
    requires Enumerates(order, columns) && forall j :: 0 <= j < |order| ==> order[j] in have
    ensures columns <= have
  {
    forall c | c in columns ensures c in have {
      assert c in order;
    }
  }

  /** Every logged column.  The replay completes exactly if the worker has a repository for
      each; then each repository holds what the store answers, whatever the order of columns
      and of files. */
  method PopulateWorkers(s: Store, w: W.WorkerHandler, order: seq<int>, read: Reader, ghost log: seq<seq<Record>>) returns (ok: bool)
    requires Restarted(s, log) && Enumerates(order, s.columns.Keys)
    modifies w
    ensures ok <==> s.columns.Keys <= old(w.repos).Keys
    ensures ok ==> w.repos == Replayed(old(w.repos), Flat(s.files, log), read)
  {
    hide LoadedFrom, Flat, Scanned, Indexed;
    ghost var flat := Flat(s.files, log);
    assert Partly(w.repos, order[..0], flat, read) == w.repos;
    hide Partly, Replayed;
    for i := 0 to |order|
      invariant forall j :: 0 <= j < i ==> order[j] in old(w.repos)
      invariant w.repos == Partly(old(w.repos), order[..i], flat, read)
      invariant w.repos.Keys == old(w.repos).Keys
    {
      assert order[i] in order;
      if order[i] in w.repos {
        PartlyStep(old(w.repos), order, i, flat, read);
      }
      ok := LoadColumn(s, w, order[i], read, log);
      if !ok {
        return;
      }
    }
    ok := true;
    assert order[..|order|] == order;
    EnumerationCovered(order, s.columns.Keys, old(w.repos).Keys);
    Unlisted(s, log, order);
    PartlyIsAll(old(w.repos), order, flat, read);
  }

  lemma Unlisted(s: Store, log: seq<seq<Record>>, order: seq<int>)
    requires Restarted(s, log) && Enumerates(order, s.columns.Keys)
    ensures forall c :: c !in order ==> Index(Flat(s.files, log), c) == []
  {
    hide Index, Flat;
  }

  // --- What replay gives for a numbered log ---

  function Payloads(rs: seq<Record>, read: Reader): seq<B.ColumnWrites>
    requires forall i :: 0 <= i < |rs| ==> rs[i].Revision?
  {
    seq(|rs|, i requires 0 <= i < |rs| => read(rs[i].data))
  }

  /** What the log holds for a column. */
  function ColumnLog(rs: seq<Record>, column: int, read: Reader): seq<B.ColumnWrites> {
    Payloads(ColumnRecords(rs, column), read)
  }

  function Slice(h: seq<B.ColumnWrites>, lo: int, hi: int): seq<B.ColumnWrites> {
    if 1 <= lo <= hi <= |h| then h[lo - 1..hi] else []
  }

  /** A repository that was given the revisions from `first` to `last` of its history. */
  function Restored(r: W.Repo, h: seq<B.ColumnWrites>, first: Option<int>, last: Option<int>): W.Repo {
    if first.Some? && last.Some? then W.Repo(B.ApplyAll(r.buffer, Slice(h, first.value, last.value)), last.value) else r
  }

  /** The store answers revision k with the k-th record. */
  ghost predicate Answers(flat: seq<Located>, column: int, rs: seq<Record>) {
    && (forall i :: 0 <= i < |rs| ==> rs[i].Revision?)
    && forall k :: 1 <= k <= |rs| ==> Answer(flat, column, k) == Some(rs[k - 1])
  }

  lemma FetchOne(flat: seq<Located>, column: int, rs: seq<Record>, m: int, read: Reader)
    requires Answers(flat, column, rs) && Index(flat, column) != []
    requires 1 <= Index(flat, column)[0].start && m <= Latest(Index(flat, column)) <= |rs|
    ensures Fetched(flat, column, m, m, read)
            == if Index(flat, column)[0].start <= m then [Payloads(rs, read)[m - 1]] else []
  {
    hide Index, Answer;
    var lo := Index(flat, column)[0].start;
    if lo <= m {
      RangeEmpty(flat, column, m, read);
      RangeNext(flat, column, m, m, read);
      assert Answer(flat, column, m) == Some(rs[m - 1]);
    } else {
      RangeBelow(flat, column, lo, m, read);
    }
  }

  lemma {:induction false} ProbesSlice(flat: seq<Located>, column: int, rs: seq<Record>, m: int, read: Reader)
    requires Answers(flat, column, rs) && Index(flat, column) != []
    requires 1 <= Index(flat, column)[0].start && m <= Latest(Index(flat, column)) <= |rs|
    ensures Probes(flat, column, m, read) == Slice(Payloads(rs, read), Index(flat, column)[0].start, m)
    decreases m
  {
    hide Index, Answer, Fetched, Latest;
    if m >= 0 {
      var h := Payloads(rs, read);
      var lo := Index(flat, column)[0].start;
      ProbesSlice(flat, column, rs, m - 1, read);
      FetchOne(flat, column, rs, m, read);
      if lo < m {
        assert h[lo - 1..m] == h[lo - 1..m - 1] + [h[m - 1]];
      }
    }
  }

  lemma {:induction false} EndsLogged(log: seq<seq<Record>>, column: int)
    ensures forall v :: FirstOf(log, column) == Some(v) || LastOf(log, column) == Some(v) ==>
      exists r :: r in Records(log) && r.Revision? && r.column == column && r.revision == v
    decreases |log|
  {
    if log != [] {
      hide ColumnRecords;
      var k := |log| - 1;
      EndsLogged(log[..k], column);
      var rs := ColumnRecords(log[k], column);
      if rs != [] {
        assert rs[0] in rs && rs[|rs| - 1] in rs;
        ColumnRecordMember(log[k], column, rs[0]);
        ColumnRecordMember(log[k], column, rs[|rs| - 1]);
      }
    }
  }

  /** In whatever order the files of a numbered log were scanned, a column is loaded with its
      revisions from the first of the first file to the last of the last file that mention
      it, and takes the number of the last. */
  lemma LoadedNumbered(files: seq<LogFile>, log: seq<seq<Record>>, order: seq<nat>, column: int, r: W.Repo, read: Reader)
    requires HoldsAll(files, log) && IsOrder(order, |files|) && NumberedLog(Records(log), column)
    ensures var ls := Arrange(log, order);
            LoadedFrom(r, Flat(Arrange(files, order), ls), column, read)
            == Restored(r, ColumnLog(Records(log), column, read), FirstOf(ls, column), LastOf(ls, column))
  {
    hide Flat, Index, Records, ColumnRecords, AllRun, Probes, B.ApplyAll, Answer, Latest, Holds, Slice;
    var fs, ls := Arrange(files, order), Arrange(log, order);
    var flat, rs := Flat(fs, ls), ColumnRecords(Records(log), column);
    ArrangeScanned(files, log, order);
    ArrangedRuns(log, order, column);
    IndexEnds(fs, ls, column);
    forall k | 1 <= k <= |rs| ensures Answer(flat, column, k) == Some(rs[k - 1]) {
      AnswerNumbered(files, log, order, column, k);
    }
    var es := Index(flat, column);
    if es != [] {
      ArrangedBounds(log, order, column);
      ProbesSlice(flat, column, rs, Latest(es), read);
    }
  }

  /** The writes a column is loaded with. */
  function LoadedWith(flat: seq<Located>, column: int, read: Reader): seq<B.ColumnWrites> {
    var es := Index(flat, column);
    if es == [] then [] else Probes(flat, column, Latest(es), read)
  }

  /** In whatever order the files were scanned, a column is loaded with its whole history
      exactly if the first scanned file that mentions it starts at revision 1 and the last
      ends with the newest. */
  lemma LoadedWholeIff(files: seq<LogFile>, log: seq<seq<Record>>, order: seq<nat>, column: int, read: Reader)
    requires HoldsAll(files, log) && IsOrder(order, |files|) && NumberedLog(Records(log), column)
    requires ColumnRecords(Records(log), column) != []
    ensures var ls, h := Arrange(log, order), ColumnLog(Records(log), column, read);
            LoadedWith(Flat(Arrange(files, order), ls), column, read) == h
            <==> FirstOf(ls, column) == Some(1) && LastOf(ls, column) == Some(|h|)
  {
    hide Flat, Index, Records, ColumnRecords, AllRun, Probes, Answer, Latest, Holds, FirstOf, LastOf;
    var fs, ls := Arrange(files, order), Arrange(log, order);
    var flat, rs := Flat(fs, ls), ColumnRecords(Records(log), column);
    var h := Payloads(rs, read);
    ArrangeScanned(files, log, order);
    ArrangedRuns(log, order, column);
    IndexEnds(fs, ls, column);
    forall k | 1 <= k <= |rs| ensures Answer(flat, column, k) == Some(rs[k - 1]) {
      AnswerNumbered(files, log, order, column, k);
    }
    var es := Index(flat, column);
    if es != [] {
      ArrangedBounds(log, order, column);
      var lo, hi := es[0].start, Latest(es);
      ProbesSlice(flat, column, rs, hi, read);
      if lo <= hi {
        assert |h[lo - 1..hi]| == hi - lo + 1;
        assert h[0..|h|] == h;
      }
    }
  }

  lemma ArrangedBounds(log: seq<seq<Record>>, order: seq<nat>, column: int)
    requires NumberedLog(Records(log), column) && IsOrder(order, |log|)
    ensures var ls, n := Arrange(log, order), |ColumnRecords(Records(log), column)|;
            && (FirstOf(ls, column).Some? ==> 1 <= FirstOf(ls, column).value <= n)
            && (LastOf(ls, column).Some? ==> 1 <= LastOf(ls, column).value <= n)
  {
    hide Records, ColumnRecords, FirstOf, LastOf;
    var ls := Arrange(log, order);
    var rs := ColumnRecords(Records(log), column);
    EndsLogged(ls, column);
    forall r | r in Records(ls) && r.Revision? && r.column == column ensures 1 <= r.revision <= |rs| {
      RecordsMember(ls, r);
      var i :| 0 <= i < |ls| && r in ls[i];
      assert r in log[order[i]];
      RecordsMember(log, r);
      ColumnRecordMember(Records(log), column, r);
      var k :| 0 <= k < |rs| && rs[k] == r;
    }
  }

  /** Scanned in LSN order, a numbered log is loaded whole. */
  lemma LoadedInOrder(log: seq<seq<Record>>, column: int, r: W.Repo, read: Reader)
    requires NumberedLog(Records(log), column)
    ensures var h := ColumnLog(Records(log), column, read);
            Restored(r, h, FirstOf(log, column), LastOf(log, column))
            == if h == [] then r else W.Repo(B.ApplyAll(r.buffer, h), |h|)
  {
    hide Records, ColumnRecords, FirstOf, LastOf, B.ApplyAll;
    NumberedEnds(log, column);
    var h := ColumnLog(Records(log), column, read);
    assert h[0..|h|] == h;
  }
}
