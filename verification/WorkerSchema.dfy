/** Which columns a worker has after a run of commits, told from the commits alone. */
module WorkerSchema {
  import opened Options
  import opened ColumnBuffer
  import opened Worker

  /** The columns after a sync with these tables. */
  function SyncKeys(keys: set<int>, podTable: Buffer, columnTable: Buffer, pod: int): set<int> {
    if RowsOf(podTable, pod) == {} then keys
    else
      var ids := IdsOf(podTable, columnTable, pod);
      set c | c in keys + ids && Keeps(ids, c)
  }

  lemma KeysOfSync(repos: Repos, pod: int)
    requires HasSchema(repos)
    ensures Sync(repos, pod).Keys
            == SyncKeys(repos.Keys, repos[POD_COLUMN_POD_ID].buffer, repos[POD_COLUMN_COLUMN_ID].buffer, pod)
  {
    hide RowsOf, IdsOf;
    assert forall c :: c in Sync(repos, pod)
             <==> c in SyncKeys(repos.Keys, repos[POD_COLUMN_POD_ID].buffer, repos[POD_COLUMN_COLUMN_ID].buffer, pod);
  }

  /** The commit writes column 400 or column 401. */
  ghost predicate TouchesSchema(ws: seq<Write>) {
    exists i :: 0 <= i < |ws| && (ws[i].column == POD_COLUMN_POD_ID || ws[i].column == POD_COLUMN_COLUMN_ID)
  }

  /** The contents of a column after the commit's own writes to it. */
  function TableAfter(repos: Repos, ws: seq<Write>, column: int): Buffer
    requires column in repos
  {
    AdvanceBy(repos[column], WritesTo(ws, column)).buffer
  }

  ghost function KeysAfter(repos: Repos, pod: int, ws: seq<Write>, pending: bool): set<int>
    requires HasSchema(repos)
  {
    if pending || TouchesSchema(ws)
    then SyncKeys(repos.Keys, TableAfter(repos, ws, POD_COLUMN_POD_ID), TableAfter(repos, ws, POD_COLUMN_COLUMN_ID), pod)
    else repos.Keys
  }

  lemma TouchesTail(ws: seq<Write>)
    requires ws != []
    ensures TouchesSchema(ws) <==> Touches(ws[0].column) || TouchesSchema(ws[1..])
  {
    if i :| 0 <= i < |ws| && Touches(ws[i].column) {
      assert i > 0 ==> ws[1..][i - 1] == ws[i];
    }
    assert forall i :: 0 < i < |ws| ==> ws[1..][i - 1] == ws[i];
  }

  /** Past the schema columns nothing touches the schema any more. */
  lemma LaterWrites(ws: seq<Write>)
    requires ws != [] && Ascending(ws) && ws[0].column > POD_COLUMN_COLUMN_ID
    ensures !TouchesSchema(ws) && forall i :: 0 <= i < |ws| - 1 ==> !Touches(ws[1..][i].column)
    ensures WritesTo(ws, POD_COLUMN_POD_ID) == None && WritesTo(ws, POD_COLUMN_COLUMN_ID) == None
  {
    AscendingTail(ws);
    LaterColumns(ws, POD_COLUMN_POD_ID);
    LaterColumns(ws, POD_COLUMN_COLUMN_ID);
  }

  /** A write of one more column before the rest of the commit. */
  lemma TableStep(repos: Repos, ws: seq<Write>, next: Repos, column: int)
    requires ws != [] && Ascending(ws) && column in repos
    requires next == if ws[0].column in repos then repos[ws[0].column := Advance(repos[ws[0].column], ws[0].writes)] else repos
    ensures column in next && TableAfter(next, ws[1..], column) == TableAfter(repos, ws, column)
  {
    hide Apply, Ascending;
    AscendingTail(ws);
  }

  /** The columns after a commit: those before, synced once if the schema was touched, with
      the schema tables as this commit leaves them. */
  lemma {:induction false} CommitKeys(repos: Repos, pod: int, ws: seq<Write>, pending: bool)
    requires HasSchema(repos) && Ascending(ws)
    ensures CommitFrom(repos, pod, ws, pending).Keys == KeysAfter(repos, pod, ws, pending)
    decreases |ws|
  {
    hide Apply, Sync, SyncKeys, Ascending, TouchesSchema;
    KeysOfSync(repos, pod);
    if ws == [] {
      assert !TouchesSchema(ws) by { NoTouch(); }
    } else {
      var w, rest := ws[0], ws[1..];
      AscendingTail(ws);
      TouchesTail(ws);
      var due := pending || Touches(w.column);
      if due && w.column > POD_COLUMN_COLUMN_ID && w.column in repos {
        SyncedOnce(repos, pod, ws, pending);
      } else {
        var next := if w.column in repos then repos[w.column := Advance(repos[w.column], w.writes)] else repos;
        assert next.Keys == repos.Keys;
        CommitKeys(next, pod, rest, due);
        TableStep(repos, ws, next, POD_COLUMN_POD_ID);
        TableStep(repos, ws, next, POD_COLUMN_COLUMN_ID);
      }
    }
  }

  lemma NoTouch()
    ensures !TouchesSchema([])
  {
  }

  lemma SyncedOnce(repos: Repos, pod: int, ws: seq<Write>, pending: bool)
    requires HasSchema(repos) && ws != [] && Ascending(ws) && pending
    requires ws[0].column > POD_COLUMN_COLUMN_ID && ws[0].column in repos
    ensures CommitFrom(repos, pod, ws, pending).Keys == KeysAfter(repos, pod, ws, pending)
  {
    hide Apply, Sync, SyncKeys, Ascending, TouchesSchema;
    KeysOfSync(repos, pod);
    LaterWrites(ws);
    AscendingTail(ws);
    var w, synced := ws[0], Sync(repos, pod);
    var next := if w.column in synced then synced[w.column := Advance(synced[w.column], w.writes)] else synced;
    var r := CommitFrom(next, pod, ws[1..], false);
    forall c ensures c in r <==> c in next {
      QuietCommit(next, pod, ws[1..], c);
    }
    assert r.Keys == next.Keys && next.Keys == synced.Keys;
  }

  // --- Runs ---

  /** A schema table after a run, from its history. */
  function Table(boot: Repos, cs: seq<seq<Write>>, column: int): Buffer
    requires column in boot
  {
    ApplyAll(boot[column].buffer, History(cs, column))
  }

  /** The i-th commit touches the schema, and the schema then has rows for the pod. */
  ghost predicate Effective(boot: Repos, pod: int, cs: seq<seq<Write>>, i: int)
    requires HasSchema(boot)
  {
    0 <= i < |cs| && TouchesSchema(cs[i]) && RowsOf(Table(boot, cs[..i + 1], POD_COLUMN_POD_ID), pod) != {}
  }

  /** The columns the schema assigns to the pod after the i-th commit. */
  ghost function Assigned(boot: Repos, pod: int, cs: seq<seq<Write>>, i: int): set<int>
    requires HasSchema(boot)
  {
    if 0 <= i < |cs| then IdsOf(Table(boot, cs[..i + 1], POD_COLUMN_POD_ID), Table(boot, cs[..i + 1], POD_COLUMN_COLUMN_ID), pod) else {}
  }

  ghost predicate LastEffective(boot: Repos, pod: int, cs: seq<seq<Write>>, i: int)
    requires HasSchema(boot)
  {
    Effective(boot, pod, cs, i) && forall j :: i < j < |cs| ==> !Effective(boot, pod, cs, j)
  }

  /** One more commit changes the columns only if its sync takes effect. */
  lemma LiveKeysStep(boot: Repos, pod: int, cs: seq<seq<Write>>)
    requires HasSchema(boot) && cs != [] && forall i :: 0 <= i < |cs| ==> Ascending(cs[i])
    ensures var n := |cs| - 1;
            var before, ids := Live(boot, pod, cs[..n]).Keys, Assigned(boot, pod, cs, n);
            Live(boot, pod, cs).Keys == if Effective(boot, pod, cs, n) then set c | c in before + ids && Keeps(ids, c) else before
  {
    hide Apply, CommitFrom, Ascending, RowsOf, IdsOf, TouchesSchema, History, ApplyAll;
    var n := |cs| - 1;
    assert cs[..n + 1] == cs;
    var before := Live(boot, pod, cs[..n]);
    CommitKeys(before, pod, cs[n], false);
    TableInRun(boot, pod, cs, POD_COLUMN_POD_ID);
    TableInRun(boot, pod, cs, POD_COLUMN_COLUMN_ID);
  }

  /** The sync of the last commit sees the tables as the run leaves them. */
  lemma TableInRun(boot: Repos, pod: int, cs: seq<seq<Write>>, column: int)
    requires HasSchema(boot) && cs != [] && column in boot && column <= MAX_SYSTEM_COLUMN_ID
    requires forall i :: 0 <= i < |cs| ==> Ascending(cs[i])
    ensures var before := Live(boot, pod, cs[..|cs| - 1]);
            column in before && TableAfter(before, cs[|cs| - 1], column) == Table(boot, cs, column)
  {
    hide Apply, CommitFrom, Ascending, History, ApplyAll;
    var n := |cs| - 1;
    SystemColumnSurvives(boot, pod, cs, column);
    SurvivesBefore(boot, pod, cs, column);
    LiveColumn(boot, pod, cs, column);
    LiveColumn(boot, pod, cs[..n], column);
    SurvivorCommitted(Live(boot, pod, cs[..n]), pod, cs[n], false, column);
  }

  lemma EffectiveBefore(boot: Repos, pod: int, cs: seq<seq<Write>>, i: int)
    requires HasSchema(boot) && 0 <= i < |cs| - 1
    ensures Effective(boot, pod, cs[..|cs| - 1], i) == Effective(boot, pod, cs, i)
    ensures Assigned(boot, pod, cs[..|cs| - 1], i) == Assigned(boot, pod, cs, i)
  {
    hide RowsOf, IdsOf, TouchesSchema, Table;
    assert cs[..|cs| - 1][..i + 1] == cs[..i + 1];
  }

  /** A system column is there if it was at the start or some effective sync assigned it. */
  lemma {:induction false} SystemKeys(boot: Repos, pod: int, cs: seq<seq<Write>>, c: int)
    requires HasSchema(boot) && c <= MAX_SYSTEM_COLUMN_ID && forall i :: 0 <= i < |cs| ==> Ascending(cs[i])
    ensures c in Live(boot, pod, cs)
            <==> c in boot || exists i :: Effective(boot, pod, cs, i) && c in Assigned(boot, pod, cs, i)
    decreases |cs|
  {
    hide Effective, Assigned, Ascending, CommitFrom;
    if cs == [] {
      NoEffect(boot, pod);
    } else {
      var n := |cs| - 1;
      SystemKeys(boot, pod, cs[..n], c);
      LiveKeysStep(boot, pod, cs);
      hide Live;
      EffectRange(boot, pod, cs);
      EffectRange(boot, pod, cs[..n]);
      if i :| Effective(boot, pod, cs[..n], i) && c in Assigned(boot, pod, cs[..n], i) {
        EffectiveBefore(boot, pod, cs, i);
      }
      if i :| Effective(boot, pod, cs, i) && c in Assigned(boot, pod, cs, i) {
        if i < n {
          EffectiveBefore(boot, pod, cs, i);
        }
      }
    }
  }

  lemma NoEffect(boot: Repos, pod: int)
    requires HasSchema(boot)
    ensures Live(boot, pod, []) == boot && forall i :: !Effective(boot, pod, [], i)
  {
  }

  lemma EffectRange(boot: Repos, pod: int, cs: seq<seq<Write>>)
    requires HasSchema(boot)
    ensures forall i :: Effective(boot, pod, cs, i) ==> 0 <= i < |cs|
  {
  }

  /** A user column is there if the last effective sync assigned it. */
  lemma {:induction false} UserKeys(boot: Repos, pod: int, cs: seq<seq<Write>>, c: int)
    requires HasSchema(boot) && c > MAX_SYSTEM_COLUMN_ID && c !in boot && forall i :: 0 <= i < |cs| ==> Ascending(cs[i])
    ensures c in Live(boot, pod, cs)
            <==> exists i :: LastEffective(boot, pod, cs, i) && c in Assigned(boot, pod, cs, i)
    decreases |cs|
  {
    hide Effective, Assigned, Ascending, CommitFrom;
    if cs == [] {
      NoEffect(boot, pod);
    } else {
      var n := |cs| - 1;
      UserKeys(boot, pod, cs[..n], c);
      LiveKeysStep(boot, pod, cs);
      hide Live;
      EffectRange(boot, pod, cs);
      EffectRange(boot, pod, cs[..n]);
      LastStep(boot, pod, cs, c);
    }
  }

  lemma LastStep(boot: Repos, pod: int, cs: seq<seq<Write>>, c: int)
    requires HasSchema(boot) && cs != []
    ensures var n := |cs| - 1;
            (exists i :: LastEffective(boot, pod, cs, i) && c in Assigned(boot, pod, cs, i))
            <==> if Effective(boot, pod, cs, n) then c in Assigned(boot, pod, cs, n)
                 else exists i :: LastEffective(boot, pod, cs[..n], i) && c in Assigned(boot, pod, cs[..n], i)
  {
    hide Effective, Assigned;
    var n := |cs| - 1;
    EffectRange(boot, pod, cs);
    EffectRange(boot, pod, cs[..n]);
    forall i | 0 <= i < n
      ensures Effective(boot, pod, cs[..n], i) == Effective(boot, pod, cs, i) && Assigned(boot, pod, cs[..n], i) == Assigned(boot, pod, cs, i)
    {
      EffectiveBefore(boot, pod, cs, i);
    }
    if Effective(boot, pod, cs, n) {
      assert LastEffective(boot, pod, cs, n);
    } else {
      if i :| LastEffective(boot, pod, cs, i) && c in Assigned(boot, pod, cs, i) {
        assert LastEffective(boot, pod, cs[..n], i);
      }
      if i :| LastEffective(boot, pod, cs[..n], i) && c in Assigned(boot, pod, cs[..n], i) {
        assert LastEffective(boot, pod, cs, i);
      }
    }
  }

  /** No effective sync assigns a system column the worker was not started with, and the last
      one assigns no column it was not started with. */
  ghost predicate NoNewColumn(boot: Repos, pod: int, cs: seq<seq<Write>>)
    requires HasSchema(boot)
  {
    && (forall i, c :: Effective(boot, pod, cs, i) && c in Assigned(boot, pod, cs, i) && c <= MAX_SYSTEM_COLUMN_ID ==> c in boot)
    && (forall i, c :: LastEffective(boot, pod, cs, i) && c in Assigned(boot, pod, cs, i) ==> c in boot)
  }

  /** A worker started with system columns ends with the columns it was started with exactly
      if no new column is assigned to its pod. */
  lemma SameColumnsIff(boot: Repos, pod: int, cs: seq<seq<Write>>)
    requires HasSchema(boot) && (forall c :: c in boot ==> c <= MAX_SYSTEM_COLUMN_ID) && forall i :: 0 <= i < |cs| ==> Ascending(cs[i])
    ensures Live(boot, pod, cs).Keys == boot.Keys <==> NoNewColumn(boot, pod, cs)
  {
    hide Effective, Assigned, Ascending, Live;
    var live := Live(boot, pod, cs);
    forall c ensures c <= MAX_SYSTEM_COLUMN_ID ==>
                       (c in live <==> c in boot || exists i :: Effective(boot, pod, cs, i) && c in Assigned(boot, pod, cs, i)) {
      if c <= MAX_SYSTEM_COLUMN_ID {
        SystemKeys(boot, pod, cs, c);
      }
    }
    forall c ensures c > MAX_SYSTEM_COLUMN_ID ==>
                       (c in live <==> exists i :: LastEffective(boot, pod, cs, i) && c in Assigned(boot, pod, cs, i)) {
      if c > MAX_SYSTEM_COLUMN_ID {
        UserKeys(boot, pod, cs, c);
      }
    }
    if NoNewColumn(boot, pod, cs) {
      assert forall c :: c in live <==> c in boot;
      assert live.Keys == boot.Keys;
    }
    if live.Keys == boot.Keys {
      assert forall c :: c in live <==> c in boot;
    }
  }
}
