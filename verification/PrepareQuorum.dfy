/** The C++ client: choosing the workers of a write, collecting their prepare results per
    column, and deciding whether the transaction can be finalized. */
module PrepareQuorum {
  import opened Options
  import opened Collections
  import opened Quorum

  // --- DetermineWorkers ---

  ghost predicate Ascending(s: seq<int>) {
    forall i, j :: 0 <= i < j < |s| ==> s[i] <= s[j]
  }

  /** The merge of a worker's sorted columns with the written columns: their intersection. */
  method MergeColumns(ids: seq<int>, writes: seq<int>) returns (columns: set<int>)
    requires Ascending(ids) && Ascending(writes)
    ensures forall c :: c in columns <==> c in ids && c in writes
  {
    columns := {};
    var i, j := 0, 0;
    while i < |ids| && j < |writes|
      invariant 0 <= i <= |ids| && 0 <= j <= |writes|
      invariant forall c :: c in columns ==> c in ids && c in writes
      invariant forall a, b :: 0 <= a < |ids| && 0 <= b < |writes| && (a < i || b < j) && ids[a] == writes[b] ==> ids[a] in columns
      decreases |ids| - i + |writes| - j
    {
      if ids[i] == writes[j] {
        columns := columns + {ids[i]};
        i := i + 1;
      } else if ids[i] < writes[j] {
        assert forall b :: j <= b < |writes| ==> writes[j] <= writes[b];
        i := i + 1;
      } else {
        assert forall a :: i <= a < |ids| ==> ids[i] <= ids[a];
        j := j + 1;
      }
    }
  }

  // --- ProcessPrepareResults ---

  datatype Prepared = Prepared(column: int, revision: int, validate: bool)

  /** A worker's task: the columns asked for, and its results unless it failed or was late. */
  datatype Task = Task(pod: int, columns: seq<int>, results: Option<seq<Prepared>>)

  datatype ColumnResult = ColumnResult(failed: seq<int>, byRevision: map<int, seq<int>>, validate: bool)

  const NO_RESULT := ColumnResult([], map[], false)

  type Results = map<int, ColumnResult>

  function At(rs: Results, c: int): ColumnResult {
    if c in rs then rs[c] else NO_RESULT
  }

  function AddFailure(r: ColumnResult, pod: int): ColumnResult {
    r.(failed := r.failed + [pod])
  }

  function AddReply(r: ColumnResult, pod: int, x: Prepared): ColumnResult {
    var bucket := if x.revision in r.byRevision then r.byRevision[x.revision] else [];
    r.(byRevision := r.byRevision[x.revision := bucket + [pod]], validate := r.validate || x.validate)
  }

  /** What one task adds to a column. */
  function AddFailures(r: ColumnResult, pod: int, columns: seq<int>, c: int): ColumnResult {
    if columns == [] then r
    else
      var s := AddFailures(r, pod, columns[..|columns| - 1], c);
      if columns[|columns| - 1] == c then AddFailure(s, pod) else s
  }

  function AddReplies(r: ColumnResult, pod: int, xs: seq<Prepared>, c: int): ColumnResult {
    if xs == [] then r
    else
      var s := AddReplies(r, pod, xs[..|xs| - 1], c);
      if xs[|xs| - 1].column == c then AddReply(s, pod, xs[|xs| - 1]) else s
  }

  function AddTask(r: ColumnResult, t: Task, c: int): ColumnResult {
    match t.results
    case None => AddFailures(r, t.pod, t.columns, c)
    case Some(xs) => AddReplies(r, t.pod, xs, c)
  }

  function Collected(ts: seq<Task>, c: int): ColumnResult {
    if ts == [] then NO_RESULT else AddTask(Collected(ts[..|ts| - 1], c), ts[|ts| - 1], c)
  }

  /** Only columns with results are listed. */
  ghost predicate NoEmptyResult(rs: Results) {
    forall c :: c in rs ==> rs[c] != NO_RESULT
  }

  lemma ReplyShows(r: ColumnResult, pod: int, x: Prepared)
    ensures AddReply(r, pod, x) != NO_RESULT
  {
    assert x.revision in AddReply(r, pod, x).byRevision;
  }

  method FailColumns(start: Results, pod: int, columns: seq<int>) returns (rs: Results)
    ensures forall c :: At(rs, c) == AddFailures(At(start, c), pod, columns, c)
    ensures NoEmptyResult(start) ==> NoEmptyResult(rs)
  {
    rs := start;
    for i := 0 to |columns|
      invariant forall c :: At(rs, c) == AddFailures(At(start, c), pod, columns[..i], c)
      invariant NoEmptyResult(start) ==> NoEmptyResult(rs)
    {
      assert columns[..i + 1][..i] == columns[..i];
      rs := rs[columns[i] := AddFailure(At(rs, columns[i]), pod)];
    }
    assert columns[..|columns|] == columns;
  }

  method ReplyColumns(start: Results, pod: int, xs: seq<Prepared>) returns (rs: Results)
    ensures forall c :: At(rs, c) == AddReplies(At(start, c), pod, xs, c)
    ensures NoEmptyResult(start) ==> NoEmptyResult(rs)
  {
    hide AddReply;
    rs := start;
    for i := 0 to |xs|
      invariant forall c :: At(rs, c) == AddReplies(At(start, c), pod, xs[..i], c)
      invariant NoEmptyResult(start) ==> NoEmptyResult(rs)
    {
      assert xs[..i + 1][..i] == xs[..i];
      ReplyShows(At(rs, xs[i].column), pod, xs[i]);
      rs := rs[xs[i].column := AddReply(At(rs, xs[i].column), pod, xs[i])];
    }
    assert xs[..|xs|] == xs;
  }

  method ProcessPrepareResults(ts: seq<Task>) returns (rs: Results)
    ensures NoEmptyResult(rs) && forall c :: At(rs, c) == Collected(ts, c)
  {
    rs := map[];
    for i := 0 to |ts|
      invariant NoEmptyResult(rs)
      invariant forall c :: At(rs, c) == Collected(ts[..i], c)
    {
      assert ts[..i + 1][..i] == ts[..i];
      var t := ts[i];
      match t.results
      case None => rs := FailColumns(rs, t.pod, t.columns);
      case Some(xs) => rs := ReplyColumns(rs, t.pod, xs);
    }
    assert ts[..|ts|] == ts;
  }

  // --- What was collected ---

  ghost predicate FailedIn(ts: seq<Task>, c: int, pod: int) {
    exists t :: t in ts && t.pod == pod && t.results.None? && c in t.columns
  }

  ghost predicate RepliedIn(ts: seq<Task>, c: int, pod: int, revision: int) {
    exists t, x :: t in ts && t.pod == pod && t.results.Some? && x in t.results.value && x.column == c && x.revision == revision
  }

  /** Some reply for the column asks for validation. */
  ghost predicate AsksValidation(ts: seq<Task>, c: int) {
    exists t, x :: t in ts && t.results.Some? && x in t.results.value && x.column == c && x.validate
  }

  ghost predicate InBucket(r: ColumnResult, pod: int, revision: int) {
    revision in r.byRevision && pod in r.byRevision[revision]
  }

  ghost predicate NoEmptyBucket(r: ColumnResult) {
    forall v :: v in r.byRevision ==> r.byRevision[v] != []
  }

  lemma {:induction false} FailuresMeaning(r: ColumnResult, pod: int, columns: seq<int>, c: int, q: int)
    ensures var s := AddFailures(r, pod, columns, c);
            && s.byRevision == r.byRevision && s.validate == r.validate
            && (q in s.failed <==> q in r.failed || (q == pod && c in columns))
    decreases |columns|
  {
    if columns != [] {
      FailuresMeaning(r, pod, columns[..|columns| - 1], c, q);
    }
  }

  lemma {:induction false} RepliesMeaning(r: ColumnResult, pod: int, xs: seq<Prepared>, c: int, q: int, v: int)
    requires NoEmptyBucket(r)
    ensures var s := AddReplies(r, pod, xs, c);
            && NoEmptyBucket(s) && s.failed == r.failed
            && (s.validate <==> r.validate || exists x :: x in xs && x.column == c && x.validate)
            && (InBucket(s, q, v) <==> InBucket(r, q, v) || (q == pod && exists x :: x in xs && x.column == c && x.revision == v))
    decreases |xs|
  {
    if xs != [] {
      RepliesMeaning(r, pod, xs[..|xs| - 1], c, q, v);
    }
  }

  /** The collected result of a column lists exactly the workers that failed on it and, under
      each revision, exactly those that reported it; no revision is listed without workers; and
      validation is required exactly if some reply asks for it. */
  lemma {:induction false} CollectedMeaning(ts: seq<Task>, c: int, pod: int, revision: int)
    ensures var r := Collected(ts, c);
            && NoEmptyBucket(r)
            && (r.validate <==> AsksValidation(ts, c))
            && (pod in r.failed <==> FailedIn(ts, c, pod))
            && (InBucket(r, pod, revision) <==> RepliedIn(ts, c, pod, revision))
    decreases |ts|
  {
    if ts != [] {
      var n := |ts| - 1;
      var t := ts[n];
      CollectedMeaning(ts[..n], c, pod, revision);
      var r := Collected(ts[..n], c);
      assert forall u :: u in ts <==> u in ts[..n] || u == t;
      hide Collected, NoEmptyBucket, InBucket;
      if t.results.None? {
        FailuresMeaning(r, t.pod, t.columns, c, pod);
        SameReplies(r, AddFailures(r, t.pod, t.columns, c), pod, revision);
      } else {
        RepliesMeaning(r, t.pod, t.results.value, c, pod, revision);
      }
      CollectedStep(ts, c);
    }
  }

  lemma SameReplies(r: ColumnResult, s: ColumnResult, pod: int, revision: int)
    requires s.byRevision == r.byRevision && NoEmptyBucket(r)
    ensures NoEmptyBucket(s) && InBucket(s, pod, revision) == InBucket(r, pod, revision)
  {
  }

  lemma CollectedStep(ts: seq<Task>, c: int)
    requires ts != []
    ensures Collected(ts, c) == AddTask(Collected(ts[..|ts| - 1], c), ts[|ts| - 1], c)
  {
  }

  // --- CanFinalizeTransaction ---

  /** The number of workers over all revisions. */
  ghost function SumBuckets(m: map<int, seq<int>>): nat
    decreases |m.Keys|
  {
    if m.Keys == {} then 0
    else
      NonEmpty(m.Keys);
      var k :| k in m.Keys;
      assert (m - {k}).Keys == m.Keys - {k};
      |m[k]| + SumBuckets(m - {k})
  }

  /** The sum does not depend on the order of iteration. */
  lemma {:induction false} SumTake(m: map<int, seq<int>>, k: int)
    requires k in m
    ensures SumBuckets(m) == |m[k]| + SumBuckets(m - {k})
    decreases |m.Keys|
  {
    NonEmpty(m.Keys);
    var j :| j in m.Keys && SumBuckets(m) == |m[j]| + SumBuckets(m - {j});
    if j != k {
      assert (m - {j}).Keys == m.Keys - {j};
      SumTake(m - {j}, k);
      assert (m - {k}).Keys == m.Keys - {k};
      SumTake(m - {k}, j);
      assert (m - {j}) - {k} == (m - {k}) - {j};
    }
  }

  method CountWorkers(r: ColumnResult) returns (total: nat)
    ensures total == |r.failed| + SumBuckets(r.byRevision)
  {
    total := |r.failed|;
    var left := r.byRevision;
    while left.Keys != {}
      invariant total + SumBuckets(left) == |r.failed| + SumBuckets(r.byRevision)
      decreases |left.Keys|
    {
      NonEmpty(left.Keys);
      var k :| k in left.Keys;
      SumTake(left, k);
      total := total + |left[k]|;
      assert (left - {k}).Keys == left.Keys - {k};
      left := left - {k};
    }
  }

  ghost function Total(r: ColumnResult): nat {
    |r.failed| + SumBuckets(r.byRevision)
  }

  /** The tests made for one column. */
  ghost predicate Acceptable(r: ColumnResult) {
    && !r.validate
    && r.byRevision != map[]
    && !(|r.failed| >= Total(r) / 2 > 0)
    && exists v :: IsMax(r.byRevision, v) && |r.byRevision[v]| >= Total(r) / 2
  }

  lemma MaxUnique(m: map<int, seq<int>>, a: int, b: int)
    requires IsMax(m, a) && IsMax(m, b)
    ensures a == b
  {
  }

  method CheckColumn(r: ColumnResult) returns (revision: Option<int>)
    ensures revision.Some? == Acceptable(r)
    ensures revision.Some? ==> IsMax(r.byRevision, revision.value - 1)
  {
    hide SumBuckets;
    var total := CountWorkers(r);
    var failThreshold := total / 2;
    revision := None;
    if !r.validate && r.byRevision != map[] && !(|r.failed| >= failThreshold && failThreshold > 0) {
      var max := MaxKey(r.byRevision);
      forall v | IsMax(r.byRevision, v) ensures v == max {
        MaxUnique(r.byRevision, v, max);
      }
      if |r.byRevision[max]| >= total / 2 {
        revision := Some(max + 1);
      }
    }
  }

  /** CanFinalizeTransaction over the columns in whatever order: accepted exactly if every
      column is acceptable, and then each gets the revision after its highest. */
  method CanFinalizeTransaction(rs: Results, order: seq<int>) returns (ok: bool, revisions: map<int, int>)
    requires (forall i :: 0 <= i < |order| ==> order[i] in rs) && forall c :: c in rs ==> c in order
    ensures ok <==> forall c :: c in rs ==> Acceptable(rs[c])
    ensures ok ==> forall c :: c in revisions <==> c in rs
    ensures ok ==> forall c :: c in rs ==> IsMax(rs[c].byRevision, revisions[c] - 1)
  {
    hide Acceptable, IsMax;
    revisions := map[];
    for i := 0 to |order|
      invariant forall j :: 0 <= j < i ==> Acceptable(rs[order[j]])
      invariant forall c :: c in revisions <==> c in order[..i]
      invariant forall c :: c in revisions ==> c in rs && IsMax(rs[c].byRevision, revisions[c] - 1)
    {
      var column := order[i];
      var next := CheckColumn(rs[column]);
      if next.None? {
        assert column in rs && !Acceptable(rs[column]);
        ok := false;
        return;
      }
      assert order[..i + 1] == order[..i] + [order[i]];
      revisions := revisions[order[i] := next.value];
    }
    ok := true;
    assert order[..|order|] == order;
    forall c | c in rs ensures Acceptable(rs[c]) {
      assert c in order;
    }
  }

  /** Acceptance of a column means that more than half of the counted workers responded, and
      that the chosen revision exceeds every one reported. */
  lemma AcceptedByMajority(r: ColumnResult, next: int)
    requires Acceptable(r) && NoEmptyBucket(r) && IsMax(r.byRevision, next - 1)
    ensures 2 * SumBuckets(r.byRevision) > Total(r)
    ensures forall v :: v in r.byRevision ==> v < next
  {
    SumTake(r.byRevision, next - 1);
    hide SumBuckets;
    assert r.byRevision[next - 1] != [];
  }

  ghost predicate Reported(ts: seq<Task>, c: int, v: int) {
    exists pod :: RepliedIn(ts, c, pod, v)
  }

  /** Some worker was asked for the column and failed, or replied for it. */
  ghost predicate Concerned(ts: seq<Task>, c: int) {
    (exists pod :: FailedIn(ts, c, pod)) || exists v :: Reported(ts, c, v)
  }

  lemma ConcernedCollected(ts: seq<Task>, c: int)
    ensures Concerned(ts, c) <==> Collected(ts, c) != NO_RESULT
    ensures AsksValidation(ts, c) ==> Concerned(ts, c) && Collected(ts, c).validate
  {
    hide Collected;
    var r := Collected(ts, c);
    CollectedMeaning(ts, c, 0, 0);
    if AsksValidation(ts, c) {
      var t, x :| t in ts && t.results.Some? && x in t.results.value && x.column == c && x.validate;
      assert RepliedIn(ts, c, t.pod, x.revision);
      assert Reported(ts, c, x.revision);
    }
    if r.failed != [] {
      CollectedMeaning(ts, c, r.failed[0], 0);
    } else if r.byRevision != map[] {
      NonEmpty(r.byRevision.Keys);
      var v :| v in r.byRevision.Keys;
      CollectedMeaning(ts, c, r.byRevision[v][0], v);
      assert Reported(ts, c, v);
    }
    if pod :| FailedIn(ts, c, pod) {
      CollectedMeaning(ts, c, pod, 0);
    }
    if v :| Reported(ts, c, v) {
      var pod :| RepliedIn(ts, c, pod, v);
      CollectedMeaning(ts, c, pod, v);
    }
  }

  /** The revision chosen for an acceptable column is one more than the highest reported. */
  lemma ChosenRevision(ts: seq<Task>, c: int, next: int)
    requires IsMax(Collected(ts, c).byRevision, next - 1)
    ensures Reported(ts, c, next - 1)
    ensures forall v :: Reported(ts, c, v) ==> v < next
  {
    hide Collected;
    var r := Collected(ts, c);
    CollectedMeaning(ts, c, 0, 0);
    CollectedMeaning(ts, c, r.byRevision[next - 1][0], next - 1);
    forall v | Reported(ts, c, v) ensures v < next {
      var pod :| RepliedIn(ts, c, pod, v);
      CollectedMeaning(ts, c, pod, v);
    }
  }

  /** The workers that replied for a column, and those that failed. */
  function Repliers(ts: seq<Task>, c: int): seq<int> {
    if ts == [] then []
    else
      var t := ts[|ts| - 1];
      Repliers(ts[..|ts| - 1], c) + if t.results.Some? then RepliesOf(t.pod, t.results.value, c) else []
  }

  function RepliesOf(pod: int, xs: seq<Prepared>, c: int): seq<int> {
    if xs == [] then []
    else RepliesOf(pod, xs[..|xs| - 1], c) + if xs[|xs| - 1].column == c then [pod] else []
  }

  lemma SumAddReply(r: ColumnResult, pod: int, x: Prepared)
    ensures SumBuckets(AddReply(r, pod, x).byRevision) == SumBuckets(r.byRevision) + 1
  {
    hide SumBuckets;
    var m, m' := r.byRevision, AddReply(r, pod, x).byRevision;
    SumTake(m', x.revision);
    assert m' - {x.revision} == m - {x.revision};
    if x.revision in m {
      SumTake(m, x.revision);
    } else {
      assert m - {x.revision} == m;
    }
  }

  lemma {:induction false} SumAddReplies(r: ColumnResult, pod: int, xs: seq<Prepared>, c: int)
    ensures SumBuckets(AddReplies(r, pod, xs, c).byRevision) == SumBuckets(r.byRevision) + |RepliesOf(pod, xs, c)|
    decreases |xs|
  {
    hide SumBuckets, AddReply;
    if xs != [] {
      var n := |xs| - 1;
      SumAddReplies(r, pod, xs[..n], c);
      if xs[n].column == c {
        SumAddReply(AddReplies(r, pod, xs[..n], c), pod, xs[n]);
      }
    }
  }

  /** The buckets together count the replies, none lost. */
  lemma {:induction false} SumIsReplies(ts: seq<Task>, c: int)
    ensures SumBuckets(Collected(ts, c).byRevision) == |Repliers(ts, c)|
    decreases |ts|
  {
    if ts != [] {
      var n := |ts| - 1;
      SumIsReplies(ts[..n], c);
      hide SumBuckets;
      var r := Collected(ts[..n], c);
      if ts[n].results.Some? {
        SumAddReplies(r, ts[n].pod, ts[n].results.value, c);
      } else {
        FailuresMeaning(r, ts[n].pod, ts[n].columns, c, 0);
      }
    }
  }

  /** How often a revision was reported for a column. */
  function Count(ts: seq<Task>, c: int, v: int): nat {
    if ts == [] then 0
    else
      var t := ts[|ts| - 1];
      Count(ts[..|ts| - 1], c, v) + if t.results.Some? then CountIn(t.results.value, c, v) else 0
  }

  function CountIn(xs: seq<Prepared>, c: int, v: int): nat {
    if xs == [] then 0
    else CountIn(xs[..|xs| - 1], c, v) + if xs[|xs| - 1].column == c && xs[|xs| - 1].revision == v then 1 else 0
  }

  /** How often a worker that failed had been asked for a column. */
  function Failures(ts: seq<Task>, c: int): nat {
    if ts == [] then 0
    else
      var t := ts[|ts| - 1];
      Failures(ts[..|ts| - 1], c) + if t.results.None? then Occurs(t.columns, c) else 0
  }

  function Occurs(columns: seq<int>, c: int): nat {
    if columns == [] then 0 else Occurs(columns[..|columns| - 1], c) + if columns[|columns| - 1] == c then 1 else 0
  }

  function InBuckets(r: ColumnResult, v: int): nat {
    if v in r.byRevision then |r.byRevision[v]| else 0
  }

  lemma {:induction false} CountReplies(r: ColumnResult, pod: int, xs: seq<Prepared>, c: int, v: int)
    ensures InBuckets(AddReplies(r, pod, xs, c), v) == InBuckets(r, v) + CountIn(xs, c, v)
    ensures AddReplies(r, pod, xs, c).failed == r.failed
    decreases |xs|
  {
    if xs != [] {
      CountReplies(r, pod, xs[..|xs| - 1], c, v);
    }
  }

  lemma {:induction false} CountFailures(r: ColumnResult, pod: int, columns: seq<int>, c: int)
    ensures |AddFailures(r, pod, columns, c).failed| == |r.failed| + Occurs(columns, c)
    ensures AddFailures(r, pod, columns, c).byRevision == r.byRevision
    decreases |columns|
  {
    if columns != [] {
      CountFailures(r, pod, columns[..|columns| - 1], c);
    }
  }

  /** The sizes of what was collected. */
  lemma {:induction false} CollectedCounts(ts: seq<Task>, c: int, v: int)
    ensures InBuckets(Collected(ts, c), v) == Count(ts, c, v) && |Collected(ts, c).failed| == Failures(ts, c)
    decreases |ts|
  {
    if ts != [] {
      var n := |ts| - 1;
      CollectedCounts(ts[..n], c, v);
      var r, t := Collected(ts[..n], c), ts[n];
      hide Collected, InBuckets;
      CollectedStep(ts, c);
      if t.results.Some? {
        CountReplies(r, t.pod, t.results.value, c, v);
      } else {
        CountFailures(r, t.pod, t.columns, c);
        SameBuckets(r, AddFailures(r, t.pod, t.columns, c), v);
      }
    }
  }

  lemma SameBuckets(r: ColumnResult, s: ColumnResult, v: int)
    requires s.byRevision == r.byRevision
    ensures InBuckets(s, v) == InBuckets(r, v)
  {
  }

  /** The replies for a column allow the transaction: none asks for validation; fewer than half
      of the workers counted failed, unless one alone was counted; and at least half of them
      reported the highest revision reported. */
  ghost predicate Allows(ts: seq<Task>, c: int) {
    var failed, counted := Failures(ts, c), Failures(ts, c) + |Repliers(ts, c)|;
    && !AsksValidation(ts, c)
    && (counted >= 2 ==> failed < counted / 2)
    && exists v :: Highest(ts, c, v) && Count(ts, c, v) >= counted / 2
  }

  ghost predicate Highest(ts: seq<Task>, c: int, v: int) {
    Reported(ts, c, v) && forall w :: Reported(ts, c, w) ==> w <= v
  }

  lemma HighestIsMax(ts: seq<Task>, c: int, v: int)
    ensures Highest(ts, c, v) <==> IsMax(Collected(ts, c).byRevision, v)
  {
    hide Collected;
    var r := Collected(ts, c);
    forall w ensures Reported(ts, c, w) <==> w in r.byRevision {
      CollectedMeaning(ts, c, 0, 0);
      if w in r.byRevision {
        CollectedMeaning(ts, c, r.byRevision[w][0], w);
      }
      if Reported(ts, c, w) {
        var pod :| RepliedIn(ts, c, pod, w);
        CollectedMeaning(ts, c, pod, w);
      }
    }
  }

  /** The tests made on what was collected, in terms of the replies. */
  lemma AllowsIff(ts: seq<Task>, c: int)
    ensures Acceptable(Collected(ts, c)) <==> Allows(ts, c)
  {
    hide Collected, SumBuckets, Repliers, AsksValidation, Highest, IsMax;
    var r := Collected(ts, c);
    CollectedMeaning(ts, c, 0, 0);
    SumIsReplies(ts, c);
    CollectedCounts(ts, c, 0);
    assert Total(r) == Failures(ts, c) + |Repliers(ts, c)|;
    forall v ensures Highest(ts, c, v) <==> IsMax(r.byRevision, v) {
      HighestIsMax(ts, c, v);
    }
    forall v | IsMax(r.byRevision, v) ensures v in r.byRevision && |r.byRevision[v]| == Count(ts, c, v) {
      CollectedCounts(ts, c, v);
      MaxIsThere(r.byRevision, v);
    }
    if v :| IsMax(r.byRevision, v) {
      assert v in r.byRevision;
    }
  }

  lemma MaxIsThere(m: map<int, seq<int>>, v: int)
    requires IsMax(m, v)
    ensures v in m
  {
  }

  /** One round of the apply loop: the results of the workers are collected and decided upon.
      The round is accepted exactly if the replies of every column concerned allow it, so a
      reply that asks for validation refuses it; an accepted one gives every column the
      revision after the highest reported. */
  method DecideRound(ts: seq<Task>, list: set<int> -> seq<int>) returns (ok: bool, revisions: map<int, int>)
    requires forall s, c :: c in list(s) <==> c in s
    ensures ok <==> forall c :: Concerned(ts, c) ==> Allows(ts, c)
    ensures (exists c :: AsksValidation(ts, c)) ==> !ok
    ensures ok ==> forall c :: c in revisions <==> Concerned(ts, c)
    ensures ok ==> forall c :: c in revisions ==> Reported(ts, c, revisions[c] - 1)
    ensures ok ==> forall c, v :: Reported(ts, c, v) && c in revisions ==> v < revisions[c]
  {
    hide Collected, AddFailures, AddReplies, Total, Concerned, Reported, AsksValidation, IsMax;
    var rs := ProcessPrepareResults(ts);
    var order := list(rs.Keys);
    forall i | 0 <= i < |order| ensures order[i] in rs {
      var c := order[i];
      assert c in list(rs.Keys);
      assert c in rs.Keys;
    }
    ok, revisions := CanFinalizeTransaction(rs, order);
    forall c ensures c in rs <==> Concerned(ts, c) {
      ConcernedCollected(ts, c);
    }
    hide Acceptable;
    forall c | c in rs ensures Acceptable(rs[c]) <==> Allows(ts, c) {
      AllowsIff(ts, c);
    }
    if c :| AsksValidation(ts, c) {
      ConcernedCollected(ts, c);
      assert !Allows(ts, c);
    }
    if ok {
      forall c | c in revisions
        ensures Reported(ts, c, revisions[c] - 1)
        ensures forall v :: Reported(ts, c, v) ==> v < revisions[c]
      {
        ChosenRevision(ts, c, revisions[c]);
      }
    }
  }

  /** The counted workers of a column. */
  function Counted(ts: seq<Task>, c: int): seq<int> {
    Repliers(ts, c) + Collected(ts, c).failed
  }

  /** Two accepted transactions that counted the same workers share one that replied. */
  lemma AcceptancesShare(a: seq<Task>, b: seq<Task>, c: int)
    requires Distinct(Counted(a, c)) && Distinct(Counted(b, c)) && Members(Counted(a, c)) == Members(Counted(b, c))
    requires Acceptable(Collected(a, c)) && Acceptable(Collected(b, c))
    ensures exists w :: w in Repliers(a, c) && w in Repliers(b, c)
  {
    hide Collected, Repliers, Acceptable, SumBuckets;
    var x := MajorityPart(a, c);
    var y := MajorityPart(b, c);
    Overlap(x, y, Members(Counted(a, c)));
    var w :| w in x && w in y;
    assert w in Repliers(a, c) && w in Repliers(b, c);
  }

  lemma MajorityPart(ts: seq<Task>, c: int) returns (x: set<int>)
    requires Distinct(Counted(ts, c)) && Acceptable(Collected(ts, c))
    ensures x == Members(Repliers(ts, c)) && x <= Members(Counted(ts, c)) && 2 * |x| > |Members(Counted(ts, c))|
  {
    var r := Collected(ts, c);
    var v :| IsMax(r.byRevision, v) && |r.byRevision[v]| >= Total(r) / 2;
    hide Collected, Repliers, SumBuckets;
    CollectedMeaning(ts, c, 0, 0);
    AcceptedByMajority(r, v + 1);
    SumIsReplies(ts, c);
    x := Members(Repliers(ts, c));
    assert Distinct(Repliers(ts, c)) by { DistinctPrefix(Repliers(ts, c), r.failed); }
    DistinctSize(Repliers(ts, c));
    DistinctSize(Counted(ts, c));
  }

  lemma DistinctPrefix(a: seq<int>, b: seq<int>)
    requires Distinct(a + b)
    ensures Distinct(a)
  {
    forall i, j | 0 <= i < j < |a| ensures a[i] != a[j] {
      assert (a + b)[i] == a[i] && (a + b)[j] == a[j];
    }
  }

  /** The bucket of the highest revision only has to reach half: two acceptances can rest on
      disjoint ones. */
  lemma HighestBucketsMayBeDisjoint()
    ensures var a := ColumnResult([], map[5 := [1, 2], 3 := [3, 4]], false);
            var b := ColumnResult([], map[5 := [3, 4], 3 := [1, 2]], false);
            Acceptable(a) && Acceptable(b) && Members(a.byRevision[5]) !! Members(b.byRevision[5])
  {
    var a := map[5 := [1, 2], 3 := [3, 4]];
    var b := map[5 := [3, 4], 3 := [1, 2]];
    TwoBuckets(a, 5, 3);
    TwoBuckets(b, 5, 3);
    assert IsMax(a, 5) && IsMax(b, 5);
  }

  /** An acceptance that counted the workers `u` and whose highest revision, `v`, was reported
      by `n` of them. */
  ghost predicate RestsOn(r: ColumnResult, u: seq<int>, v: int, n: nat) {
    && Acceptable(r) && Total(r) == |u| && IsMax(r.byRevision, v)
    && Distinct(r.byRevision[v]) && Members(r.byRevision[v]) <= Members(u) && |r.byRevision[v]| == n
  }

  ghost predicate Meet(x: seq<int>, y: seq<int>) {
    exists w :: w in x && w in y
  }

  /** The workers behind the two highest revisions must share one exactly if their numbers add
      up to more than the counted workers. */
  lemma HighestBucketsMeetIff(u: seq<int>, i: nat, j: nat)
    requires Distinct(u) && |u| / 2 <= i <= |u| && |u| / 2 <= j <= |u|
    ensures (forall a, v, b, w :: RestsOn(a, u, v, i) && RestsOn(b, u, w, j) ==> Meet(a.byRevision[v], b.byRevision[w]))
            <==> i + j > |u|
  {
    hide Acceptable, Total, Meet;
    if i + j > |u| {
      forall a, v, b, w | RestsOn(a, u, v, i) && RestsOn(b, u, w, j) ensures Meet(a.byRevision[v], b.byRevision[w]) {
        BucketsOverlap(a.byRevision[v], b.byRevision[w], u);
      }
    } else {
      var n := |u|;
      var a := Split(u, 0, i);
      var b := Split(u, n - j, n);
      SplitRests(u, 0, i);
      SplitRests(u, n - j, n);
      PartsApart(u, i, n - j);
      assert !Meet(a.byRevision[5], b.byRevision[5]);
    }
  }

  lemma BucketsOverlap(x: seq<int>, y: seq<int>, u: seq<int>)
    requires Distinct(x) && Distinct(y) && Distinct(u) && Members(x) <= Members(u) && Members(y) <= Members(u) && |x| + |y| > |u|
    ensures Meet(x, y)
  {
    DistinctSize(x);
    DistinctSize(y);
    DistinctSize(u);
    Overlap(Members(x), Members(y), Members(u));
    var w :| w in Members(x) && w in Members(y);
    assert w in x && w in y;
  }

  /** The workers from `lo` to `hi` report revision 5, the others 3. */
  function Split(u: seq<int>, lo: nat, hi: nat): ColumnResult
    requires lo <= hi <= |u|
  {
    ColumnResult([], map[5 := u[lo..hi], 3 := u[..lo] + u[hi..]], false)
  }

  lemma SplitRests(u: seq<int>, lo: nat, hi: nat)
    requires Distinct(u) && lo <= hi <= |u| && hi - lo >= |u| / 2
    ensures RestsOn(Split(u, lo, hi), u, 5, hi - lo)
  {
    var r := Split(u, lo, hi);
    TwoBuckets(r.byRevision, 5, 3);
    assert IsMax(r.byRevision, 5);
    var x := u[lo..hi];
    assert forall k :: 0 <= k < |x| ==> x[k] == u[lo + k];
    assert forall w :: w in x ==> w in u;
  }

  lemma PartsApart(u: seq<int>, i: nat, k: nat)
    requires Distinct(u) && i <= k <= |u|
    ensures !Meet(u[0..i], u[k..|u|])
  {
  }

  lemma TwoBuckets(m: map<int, seq<int>>, j: int, k: int)
    requires j != k && m.Keys == {j, k}
    ensures SumBuckets(m) == |m[j]| + |m[k]|
  {
    SumTake(m, j);
    assert (m - {j}).Keys == {k};
    SumTake(m - {j}, k);
    assert ((m - {j}) - {k}).Keys == {};
  }
}
