/** The client's index of which pods hold a column, and reads retried round robin. */
module Retry {
  import opened Quorum

  // --- The hive index ---

  /** A worker's state: its pod and the columns it has repositories for. */
  datatype WorkerState = WorkerState(pod: int, columns: seq<int>)

  /** The pods holding a column, in the order of the hive state. */
  function PodsOf(ws: seq<WorkerState>, c: int): seq<int> {
    if ws == [] then []
    else PodsOf(ws[..|ws| - 1], c) + if c in ws[|ws| - 1].columns then [ws[|ws| - 1].pod] else []
  }

  ghost predicate DistinctPods(ws: seq<WorkerState>) {
    forall i, j :: 0 <= i < j < |ws| ==> ws[i].pod != ws[j].pod
  }

  ghost predicate DistinctColumns(ws: seq<WorkerState>) {
    forall i :: 0 <= i < |ws| ==> Distinct(ws[i].columns)
  }

  lemma {:induction false} PodsMember(ws: seq<WorkerState>, c: int, pod: int)
    ensures pod in PodsOf(ws, c) <==> exists i :: 0 <= i < |ws| && ws[i].pod == pod && c in ws[i].columns
    decreases |ws|
  {
    if ws != [] {
      var n := |ws| - 1;
      PodsMember(ws[..n], c, pod);
      assert forall i :: 0 <= i < n ==> ws[..n][i] == ws[i];
    }
  }

  /** The index lists for a column exactly the pods holding it, once each. */
  lemma {:induction false} PodsOnce(ws: seq<WorkerState>, c: int)
    requires DistinctPods(ws)
    ensures Distinct(PodsOf(ws, c))
    ensures forall pod :: pod in PodsOf(ws, c) <==> exists i :: 0 <= i < |ws| && ws[i].pod == pod && c in ws[i].columns
    decreases |ws|
  {
    if ws != [] {
      var n := |ws| - 1;
      PodsOnce(ws[..n], c);
      PodsMember(ws[..n], c, ws[n].pod);
    }
    forall pod ensures pod in PodsOf(ws, c) <==> exists i :: 0 <= i < |ws| && ws[i].pod == pod && c in ws[i].columns {
      PodsMember(ws, c, pod);
    }
  }

  type Pods = map<int, seq<int>>

  function PodsAt(m: Pods, c: int): seq<int> {
    if c in m then m[c] else []
  }

  /** The innermost loop of UpdateHiveState: one worker's repositories. */
  method AddWorker(start: Pods, w: WorkerState) returns (m: Pods)
    requires Distinct(w.columns)
    ensures forall c :: PodsAt(m, c) == PodsAt(start, c) + if c in w.columns then [w.pod] else []
  {
    m := start;
    for i := 0 to |w.columns|
      invariant forall c :: PodsAt(m, c) == PodsAt(start, c) + if c in w.columns[..i] then [w.pod] else []
    {
      var c := w.columns[i];
      assert c !in w.columns[..i];
      assert w.columns[..i + 1] == w.columns[..i] + [c];
      m := m[c := PodsAt(m, c) + [w.pod]];
    }
    assert w.columns[..|w.columns|] == w.columns;
  }

  function Flatten(services: seq<seq<WorkerState>>): seq<WorkerState> {
    if services == [] then [] else Flatten(services[..|services| - 1]) + services[|services| - 1]
  }

  /** The index after some workers: their pods, and the pods of each column. */
  ghost predicate Indexes(done: seq<WorkerState>, pods: Pods, known: set<int>) {
    && DistinctPods(done)
    && (forall p :: p in known <==> exists k :: 0 <= k < |done| && done[k].pod == p)
    && (forall c :: PodsAt(pods, c) == PodsOf(done, c))
  }

  lemma IndexesSnoc(done: seq<WorkerState>, w: WorkerState, pods: Pods, known: set<int>, pods': Pods)
    requires Indexes(done, pods, known) && w.pod !in known
    requires forall c :: PodsAt(pods', c) == PodsAt(pods, c) + if c in w.columns then [w.pod] else []
    ensures Indexes(done + [w], pods', known + {w.pod})
  {
    hide PodsAt;
    var all := done + [w];
    assert all[..|done|] == done;
    assert forall k :: 0 <= k < |done| ==> all[k] == done[k];
    assert all[|done|] == w;
  }

  lemma DistinctPodsPrefix(a: seq<WorkerState>, b: seq<WorkerState>)
    requires a <= b && DistinctPods(b)
    ensures DistinctPods(a)
  {
    forall i, j | 0 <= i < j < |a| ensures a[i].pod != a[j].pod {
      assert a[i] == b[i] && a[j] == b[j];
    }
  }

  /** The middle loop: one service's workers. */
  method AddService(ghost done: seq<WorkerState>, service: seq<WorkerState>, pods: Pods, known: set<int>)
    returns (ok: bool, pods': Pods, known': set<int>)
    requires Indexes(done, pods, known) && DistinctColumns(service)
    ensures ok <==> DistinctPods(done + service)
    ensures ok ==> Indexes(done + service, pods', known')
  {
    pods', known' := pods, known;
    assert done + service[..0] == done;
    for j := 0 to |service|
      invariant Indexes(done + service[..j], pods', known')
    {
      ghost var sofar := done + service[..j];
      assert sofar + [service[j]] == done + service[..j + 1];
      assert Distinct(service[j].columns);
      if service[j].pod in known' {
        Repeated(sofar, service[j], done + service);
        ok := false;
        return;
      }
      hide Indexes, DistinctPods;
      var next := AddWorker(pods', service[j]);
      IndexesSnoc(sofar, service[j], pods', known', next);
      pods', known' := next, known' + {service[j].pod};
    }
    ok := true;
    assert done + service[..|service|] == done + service;
  }

  lemma Repeated(done: seq<WorkerState>, w: WorkerState, all: seq<WorkerState>)
    requires done + [w] <= all && exists k :: 0 <= k < |done| && done[k].pod == w.pod
    ensures !DistinctPods(all)
  {
    var k :| 0 <= k < |done| && done[k].pod == w.pod;
    assert (done + [w])[k] == all[k] && (done + [w])[|done|] == all[|done|];
  }

  /** UpdateHiveState.  False stands for the exception when a pod is listed twice. */
  method UpdateHiveState(services: seq<seq<WorkerState>>) returns (ok: bool, columnWorkers: Pods, workerStates: set<int>)
    requires forall i :: 0 <= i < |services| ==> DistinctColumns(services[i])
    ensures ok <==> DistinctPods(Flatten(services))
    ensures ok ==> forall c :: PodsAt(columnWorkers, c) == PodsOf(Flatten(services), c)
  {
    columnWorkers, workerStates := map[], {};
    for i := 0 to |services|
      invariant Indexes(Flatten(services[..i]), columnWorkers, workerStates)
    {
      hide Indexes, DistinctPods, PodsAt, PodsOf;
      assert services[..i + 1][..i] == services[..i];
      assert Flatten(services[..i + 1]) == Flatten(services[..i]) + services[i];
      ok, columnWorkers, workerStates := AddService(Flatten(services[..i]), services[i], columnWorkers, workerStates);
      if !ok {
        FlattenPart(services, i);
        if DistinctPods(Flatten(services)) {
          DistinctPodsPrefix(Flatten(services[..i]) + services[i], Flatten(services));
        }
        return;
      }
    }
    assert services[..|services|] == services;
    ok := true;
  }

  /** A service's workers stand in the whole list after those of the services before it. */
  lemma {:induction false} FlattenPart(services: seq<seq<WorkerState>>, i: nat)
    requires i < |services|
    ensures Flatten(services[..i]) + services[i] <= Flatten(services)
    decreases |services|
  {
    var n := |services| - 1;
    if i < n {
      FlattenPart(services[..n], i);
      assert services[..n][..i] == services[..i];
    }
  }

  // --- AttemptRead ---

  /** How the work on a worker ends: well, with an error the remote sent, or otherwise. */
  datatype Attempt = Works | RemoteError | Fails

  datatype Verdict = Succeeded | Rethrown | GaveUp

  function Range(n: nat): (r: set<int>)
    ensures forall x :: x in r <==> 0 <= x < n
  {
    if n == 0 then {} else Range(n - 1) + {n - 1}
  }

  lemma {:induction false} RangeSize(n: nat)
    ensures |Range(n)| == n
    decreases n
  {
    if n > 0 {
      RangeSize(n - 1);
    }
  }

  /** No more than n different picks below n. */
  lemma Pigeonhole(picks: seq<int>, n: nat)
    requires Distinct(picks) && forall i :: 0 <= i < |picks| ==> 0 <= picks[i] < n
    ensures |picks| <= n
  {
    DistinctSize(picks);
    RangeSize(n);
    forall x | x in Members(picks) ensures x in Range(n) {
    }
    SubsetSize(Members(picks), Range(n));
  }

  /** The position after the next call of GetWorkerIDForColumn. */
  function Step(i: nat, n: nat): (r: nat)
    requires i < n
    ensures r < n
  {
    if i + 1 == n then 0 else i + 1
  }

  function Steps(i: nat, n: nat, calls: nat): (r: nat)
    requires i < n
    ensures r < n
  {
    if calls == 0 then i else Step(Steps(i, n, calls - 1), n)
  }

  /** The position chosen by the k-th call of this read, other threads calling skew(k) times
      just before. */
  function Pick(start: nat, n: nat, skew: nat -> nat, k: nat): (r: nat)
    requires start < n
    ensures r < n
  {
    Step(Steps(if k == 0 then start else Pick(start, n, skew, k - 1), n, skew(k)), n)
  }

  function Picks(start: nat, n: nat, skew: nat -> nat, k: nat): (r: seq<int>)
    requires start < n
    ensures |r| == k && forall i :: 0 <= i < k ==> 0 <= r[i] < n
  {
    if k == 0 then [] else Picks(start, n, skew, k - 1) + [Pick(start, n, skew, k - 1)]
  }

  lemma {:induction false} PicksAt(start: nat, n: nat, skew: nat -> nat, k: nat, i: nat)
    requires start < n && i < k
    ensures Picks(start, n, skew, k)[i] == Pick(start, n, skew, i)
    decreases k
  {
    hide Pick;
    if i < k - 1 {
      PicksAt(start, n, skew, k - 1, i);
    }
  }

  class PodMap {
    const pods: seq<int>
    var next: nat

    constructor (pods: seq<int>)
      requires pods != []
      ensures this.pods == pods && next == 0
    {
      this.pods := pods;
      next := 0;
    }

    /** GetWorkerIDForColumn. */
    method NextPod() returns (pod: int)
      requires next < |pods|
      modifies this
      ensures next == Step(old(next), |pods|) && pod == pods[next]
    {
      next := (next + 1) % |pods|;
      pod := pods[next];
    }

    /** Other threads calling GetWorkerIDForColumn. */
    method Others(calls: nat)
      requires next < |pods|
      modifies this
      ensures next == Steps(old(next), |pods|, calls)
    {
      for i := 0 to calls
        invariant next == Steps(old(next), |pods|, i)
      {
        var pod := NextPod();
      }
    }

    /** AttemptRead: after k failed attempts on k different pods, the next attempt works, or
        meets a remote error, or its pod is one that failed already.  `outcome` stands for
        the work done; the read ends within |pods| + 1 picks whatever the others do. */
    method AttemptRead(skew: nat -> nat, outcome: nat -> Attempt) returns (verdict: Verdict, k: nat)
      requires next < |pods| && Distinct(pods)
      modifies this
      ensures k <= |pods| && Distinct(Picks(old(next), |pods|, skew, k)) && forall i :: 0 <= i < k ==> outcome(i) == Fails
      ensures verdict == GaveUp <==> Pick(old(next), |pods|, skew, k) in Picks(old(next), |pods|, skew, k)
      ensures verdict == Succeeded ==> outcome(k) == Works
      ensures verdict == Rethrown ==> outcome(k) == RemoteError
    {
      var errors: set<int> := {};
      k := 0;
      while true
        invariant Tried(old(next), pods, skew, outcome, k, errors, next)
        decreases |pods| - k
      {
        hide Pick, Picks, Tracks, Distinct, Step, Steps;
        ghost var before := next;
        Others(skew(k));
        var pod := NextPod();
        TriedStep(old(next), pods, skew, outcome, k, errors, before, next);
        if pod in errors || outcome(k) != Fails {
          verdict := if pod in errors then GaveUp else if outcome(k) == Works then Succeeded else Rethrown;
          return;
        }
        hide Tried;
        errors := errors + {pod};
        k := k + 1;
      }
    }
  }

  /** The state of a read after k failed attempts. */
  ghost predicate Tried(start: nat, pods: seq<int>, skew: nat -> nat, outcome: nat -> Attempt, k: nat, errors: set<int>, next: nat)
    requires start < |pods|
  {
    && k <= |pods|
    && Distinct(Picks(start, |pods|, skew, k))
    && (forall i :: 0 <= i < k ==> outcome(i) == Fails)
    && Tracks(errors, pods, Picks(start, |pods|, skew, k))
    && next == if k == 0 then start else Pick(start, |pods|, skew, k - 1)
  }

  lemma TriedStep(start: nat, pods: seq<int>, skew: nat -> nat, outcome: nat -> Attempt, k: nat, errors: set<int>, before: nat, next: nat)
    requires start < |pods| && Distinct(pods) && Tried(start, pods, skew, outcome, k, errors, before)
    requires next == Step(Steps(before, |pods|, skew(k)), |pods|)
    ensures pods[next] in errors <==> Pick(start, |pods|, skew, k) in Picks(start, |pods|, skew, k)
    ensures outcome(k) == Fails && pods[next] !in errors ==>
      k < |pods| && Tried(start, pods, skew, outcome, k + 1, errors + {pods[next]}, next)
  {
    var picks := Picks(start, |pods|, skew, k);
    PickStep(start, |pods|, skew, k);
    hide Pick, Picks, Tracks, Distinct, Step, Steps;
    ErrorRepeats(errors, pods, picks, next);
    if pods[next] !in errors {
      PicksSnoc(start, |pods|, skew, k);
      NewPick(errors, pods, picks, next);
      Pigeonhole(picks + [next], |pods|);
    }
  }

  /** The errors are those of the pods picked so far. */
  ghost predicate Tracks(errors: set<int>, pods: seq<int>, picks: seq<int>) {
    && (forall i :: 0 <= i < |picks| ==> 0 <= picks[i] < |pods| && pods[picks[i]] in errors)
    && (forall e :: e in errors ==> exists i :: 0 <= i < |picks| && 0 <= picks[i] < |pods| && pods[picks[i]] == e)
  }

  lemma ErrorRepeats(errors: set<int>, pods: seq<int>, picks: seq<int>, next: nat)
    requires Tracks(errors, pods, picks) && Distinct(pods) && next < |pods|
    ensures pods[next] in errors <==> next in picks
  {
    if pods[next] in errors {
      var i :| 0 <= i < |picks| && 0 <= picks[i] < |pods| && pods[picks[i]] == pods[next];
    }
  }

  lemma NewPick(errors: set<int>, pods: seq<int>, picks: seq<int>, next: nat)
    requires Tracks(errors, pods, picks) && Distinct(picks) && next < |pods| && next !in picks
    ensures Tracks(errors + {pods[next]}, pods, picks + [next]) && Distinct(picks + [next])
  {
    var more := picks + [next];
    forall e | e in errors + {pods[next]} ensures exists i :: 0 <= i < |more| && 0 <= more[i] < |pods| && pods[more[i]] == e {
      if e in errors {
        var i :| 0 <= i < |picks| && 0 <= picks[i] < |pods| && pods[picks[i]] == e;
        assert more[i] == picks[i];
      } else {
        assert more[|picks|] == next;
      }
    }
  }

  lemma PickStep(start: nat, n: nat, skew: nat -> nat, k: nat)
    requires start < n
    ensures Pick(start, n, skew, k) == Step(Steps(if k == 0 then start else Pick(start, n, skew, k - 1), n, skew(k)), n)
  {
  }

  lemma PicksSnoc(start: nat, n: nat, skew: nat -> nat, k: nat)
    requires start < n
    ensures Picks(start, n, skew, k + 1) == Picks(start, n, skew, k) + [Pick(start, n, skew, k)]
  {
  }

  // --- Remainders ---

  lemma Multiples(d: int, n: nat)
    ensures d >= 1 ==> d * n >= n
    ensures d <= -1 ==> d * n + n <= 0
  {
    if d >= 1 {
      assert (d - 1) * n >= 0;
    } else if d <= -1 {
      assert (d + 1) * n <= 0;
    }
  }

  lemma Remainder(x: int, n: nat, q: int, r: int)
    requires n > 0 && x == q * n + r && 0 <= r < n
    ensures x % n == r
  {
    var d := x / n - q;
    assert d * n == r - x % n;
    Multiples(d, n);
  }

  lemma StepRemainder(a: nat, n: nat)
    requires n > 0
    ensures Step(a % n, n) == (a + 1) % n
  {
    var q := a / n;
    assert a == q * n + a % n;
    if a % n + 1 == n {
      assert a + 1 == (q + 1) * n + 0;
      Remainder(a + 1, n, q + 1, 0);
    } else {
      Remainder(a + 1, n, q, a % n + 1);
    }
  }

  lemma {:induction false} StepsRemainder(a: nat, n: nat, calls: nat)
    requires n > 0
    ensures Steps(a % n, n, calls) == (a + calls) % n
    decreases calls
  {
    hide Step;
    if calls > 0 {
      StepsRemainder(a, n, calls - 1);
      StepRemainder(a + calls - 1, n);
    }
  }

  lemma SameRemainder(a: nat, b: nat, n: nat)
    requires n > 0
    ensures a % n == b % n <==> (b - a) % n == 0
  {
    var p, q := a / n, b / n;
    assert a == p * n + a % n && b == q * n + b % n;
    if a % n == b % n {
      assert b - a == (q - p) * n + 0;
      Remainder(b - a, n, q - p, 0);
    }
    if (b - a) % n == 0 {
      var d := (b - a) / n;
      assert b == (p + d) * n + a % n;
      Remainder(b, n, p + d, a % n);
    }
  }

  // --- When every pod is tried ---

  /** How far the position moves from this read's pick i to its pick j, counting the calls of
      all threads. */
  function Moves(skew: nat -> nat, i: int, j: int): nat
    requires -1 <= i
    decreases j - i
  {
    if j <= i then 0 else Moves(skew, i, j - 1) + skew(j) + 1
  }

  lemma {:induction false} MovesSplit(skew: nat -> nat, i: nat, j: nat)
    requires i <= j
    ensures Moves(skew, -1, j) == Moves(skew, -1, i) + Moves(skew, i, j)
    decreases j
  {
    if i < j {
      MovesSplit(skew, i, j - 1);
    }
  }

  lemma MovesNext(skew: nat -> nat, k: nat)
    ensures Moves(skew, -1, k) == (if k == 0 then 0 else Moves(skew, -1, k - 1)) + skew(k) + 1
  {
  }

  lemma MoveOn(at: nat, before: nat, n: nat, calls: nat)
    requires n > 0 && at < n && at == before % n
    ensures Step(Steps(at, n, calls), n) == (before + calls + 1) % n
  {
    hide Step, Steps;
    StepsRemainder(before, n, calls);
    StepRemainder(before + calls, n);
  }

  lemma {:induction false} PickMoves(start: nat, n: nat, skew: nat -> nat, k: nat)
    requires start < n
    ensures Pick(start, n, skew, k) == (start + Moves(skew, -1, k)) % n
    decreases k
  {
    hide Pick, Step, Steps, Moves;
    PickStep(start, n, skew, k);
    MovesNext(skew, k);
    if k == 0 {
      Remainder(start, n, 0, start);
      MoveOn(start, start, n, skew(0));
    } else {
      PickMoves(start, n, skew, k - 1);
      MoveOn(Pick(start, n, skew, k - 1), start + Moves(skew, -1, k - 1), n, skew(k));
    }
  }

  lemma SamePick(start: nat, n: nat, skew: nat -> nat, i: nat, j: nat)
    requires start < n && i <= j
    ensures Pick(start, n, skew, i) == Pick(start, n, skew, j) <==> Moves(skew, i, j) % n == 0
  {
    hide Pick, Moves;
    PickMoves(start, n, skew, i);
    PickMoves(start, n, skew, j);
    MovesSplit(skew, i, j);
    SameRemainder(start + Moves(skew, -1, i), start + Moves(skew, -1, j), n);
  }

  /** Between two of this read's first n picks the position never moves a multiple of n. */
  ghost predicate NoFullTurn(skew: nat -> nat, n: nat)
    requires n > 0
  {
    forall i: nat, j: nat :: i < j < n ==> Moves(skew, i, j) % n != 0
  }

  lemma DistinctPicksIff(start: nat, n: nat, skew: nat -> nat)
    requires start < n
    ensures Distinct(Picks(start, n, skew, n)) <==> NoFullTurn(skew, n)
  {
    hide Pick, Picks, Moves;
    forall i: nat, j: nat | i < j < n
      ensures Picks(start, n, skew, n)[i] == Picks(start, n, skew, n)[j] <==> Moves(skew, i, j) % n == 0
    {
      PicksAt(start, n, skew, n, i);
      PicksAt(start, n, skew, n, j);
      SamePick(start, n, skew, i, j);
    }
  }

  /** A read all of whose attempts fail, and which gives up after k of them, has tried all n
      pods exactly if the calls of the other threads never turn the round robin a whole
      number of times between two of its first n picks. */
  lemma ExhaustiveIff(start: nat, n: nat, skew: nat -> nat, k: nat)
    requires start < n
    requires Distinct(Picks(start, n, skew, k)) && Pick(start, n, skew, k) in Picks(start, n, skew, k)
    ensures k == n <==> NoFullTurn(skew, n)
  {
    hide Pick, Picks, NoFullTurn;
    DistinctPicksIff(start, n, skew);
    Pigeonhole(Picks(start, n, skew, k), n);
    if k < n {
      var j :| 0 <= j < k && Picks(start, n, skew, k)[j] == Pick(start, n, skew, k);
      PicksAt(start, n, skew, k, j);
      PicksAt(start, n, skew, n, j);
      PicksAt(start, n, skew, n, k);
      assert Picks(start, n, skew, n)[j] == Picks(start, n, skew, n)[k];
    }
  }

  lemma {:induction false} UndisturbedMoves(skew: nat -> nat, i: nat, j: nat)
    requires i <= j && forall m :: skew(m) == 0
    ensures Moves(skew, i, j) == j - i
    decreases j
  {
    if i < j {
      UndisturbedMoves(skew, i, j - 1);
    }
  }

  /** With no other thread in between, the read gives up only after every one of the n pods
      has failed. */
  lemma UndisturbedIsExhaustive(start: nat, n: nat, skew: nat -> nat, k: nat)
    requires start < n && forall i :: skew(i) == 0
    requires Distinct(Picks(start, n, skew, k)) && Pick(start, n, skew, k) in Picks(start, n, skew, k)
    ensures k == n
  {
    hide Pick, Picks, Distinct, Moves;
    forall i: nat, j: nat | i < j < n ensures Moves(skew, i, j) % n != 0 {
      UndisturbedMoves(skew, i, j);
      Remainder(j - i, n, 0, j - i);
    }
    ExhaustiveIff(start, n, skew, k);
  }

  /** One other reader in between is enough: of two pods the second is never tried. */
  lemma InterferenceGivesUpEarly()
    ensures Picks(0, 2, i => 1, 1) == [0] && Pick(0, 2, i => 1, 1) == 0
  {
  }
}
