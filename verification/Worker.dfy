/** A worker's repositories: live commits, the pod's schema, and loading from a log. */
module Worker {
  import opened Options
  import Collections
  import opened ColumnBuffer

  const POD_COLUMN_POD_ID: int := 400
  const POD_COLUMN_COLUMN_ID: int := 401
  const MAX_SYSTEM_COLUMN_ID: int := 9999

  datatype Repo = Repo(buffer: Buffer, revision: int)

  type Repos = map<int, Repo>

  const EMPTY_REPO := Repo(map[], 0)

  /** One entry of a commit's write map. */
  datatype Write = Write(column: int, writes: ColumnWrites)

  /** The map is iterated in ascending column order. */
  ghost predicate Ascending(ws: seq<Write>) {
    forall i, j :: 0 <= i < j < |ws| ==> ws[i].column < ws[j].column
  }

  predicate HasSchema(repos: Repos) {
    POD_COLUMN_POD_ID in repos && POD_COLUMN_COLUMN_ID in repos
  }

  /** The rows of the pod table (column 400) that name the pod. */
  function RowsOf(podTable: Buffer, pod: int): set<int> {
    set r | r in podTable && podTable[r] == pod
  }

  /** The columns that the pod's rows name in column 401. */
  function IdsOf(podTable: Buffer, columnTable: Buffer, pod: int): set<int> {
    set r | r in RowsOf(podTable, pod) && r in columnTable :: columnTable[r]
  }

  function PodRows(repos: Repos, pod: int): set<int>
    requires HasSchema(repos)
  {
    RowsOf(repos[POD_COLUMN_POD_ID].buffer, pod)
  }

  /** The columns the schema assigns to the pod. */
  function SchemaIds(repos: Repos, pod: int): set<int>
    requires HasSchema(repos)
  {
    IdsOf(repos[POD_COLUMN_POD_ID].buffer, repos[POD_COLUMN_COLUMN_ID].buffer, pod)
  }

  predicate Keeps(ids: set<int>, c: int) {
    c in ids || c <= MAX_SYSTEM_COLUMN_ID
  }

  /** SyncToSchema: drop what the pod no longer has, create what it newly has. */
  function Sync(repos: Repos, pod: int): (r: Repos)
    requires HasSchema(repos)
    ensures HasSchema(r)
    ensures forall c :: c in repos && c <= MAX_SYSTEM_COLUMN_ID ==> c in r
    ensures forall c :: c in repos && c in r ==> r[c] == repos[c]
    ensures forall c :: c in r && c !in repos ==> r[c] == EMPTY_REPO
  {
    if PodRows(repos, pod) == {} then repos
    else
      var ids := SchemaIds(repos, pod);
      map c | c in repos.Keys + ids && Keeps(ids, c) :: if c in repos then repos[c] else EMPTY_REPO
  }

  /** The schema assigns a column to the pod exactly if some row names the pod in column 400
      and the column in column 401. */
  lemma SchemaIdsMeaning(repos: Repos, pod: int, c: int)
    requires HasSchema(repos)
    ensures c in SchemaIds(repos, pod)
            <==> exists r :: Get(repos[POD_COLUMN_POD_ID].buffer, r) == Some(pod)
                             && Get(repos[POD_COLUMN_COLUMN_ID].buffer, r) == Some(c)
  {
    var pods, columns := repos[POD_COLUMN_POD_ID].buffer, repos[POD_COLUMN_COLUMN_ID].buffer;
    if r :| Get(pods, r) == Some(pod) && Get(columns, r) == Some(c) {
      assert r in RowsOf(pods, pod) && r in columns;
    }
    if c in SchemaIds(repos, pod) {
      var r :| r in RowsOf(pods, pod) && r in columns && columns[r] == c;
      assert Get(pods, r) == Some(pod);
    }
  }

  /** What a sync leaves: with rows for the pod, exactly the system columns there were and the
      columns the schema assigns to the pod; without any, everything as it was. */
  lemma SyncMeaning(repos: Repos, pod: int, c: int)
    requires HasSchema(repos)
    ensures c in Sync(repos, pod)
            <==> if exists r :: Get(repos[POD_COLUMN_POD_ID].buffer, r) == Some(pod)
                 then (c in repos && c <= MAX_SYSTEM_COLUMN_ID) || c in SchemaIds(repos, pod)
                 else c in repos
  {
    hide IdsOf;
    var pods := repos[POD_COLUMN_POD_ID].buffer;
    if r :| Get(pods, r) == Some(pod) {
      assert r in PodRows(repos, pod);
    } else {
      forall r ensures r !in PodRows(repos, pod) {
        assert Get(pods, r) != Some(pod);
      }
      assert PodRows(repos, pod) == {};
    }
  }

  /** Repository::apply with the next revision. */
  function Advance(r: Repo, w: ColumnWrites): Repo {
    Repo(Apply(r.buffer, w), r.revision + 1)
  }

  predicate Touches(c: int) {
    c == POD_COLUMN_POD_ID || c == POD_COLUMN_COLUMN_ID
  }

  /** The rest of a commit: `pending` says that the schema changed and is not synced. */
  function CommitFrom(repos: Repos, pod: int, ws: seq<Write>, pending: bool): (r: Repos)
    requires HasSchema(repos)
    ensures HasSchema(r)
    decreases |ws|
  {
    if ws == [] then (if pending then Sync(repos, pod) else repos)
    else
      var w := ws[0];
      var due := pending || Touches(w.column);
      if w.column !in repos then CommitFrom(repos, pod, ws[1..], due)
      else
        var now := due && w.column > POD_COLUMN_COLUMN_ID;
        var synced := if now then Sync(repos, pod) else repos;
        var next := if w.column in synced then synced[w.column := Advance(synced[w.column], w.writes)] else synced;
        CommitFrom(next, pod, ws[1..], due && !now)
  }

  class WorkerHandler {
    const pod: int
    var repos: Repos

    constructor (pod: int, boot: Repos)
      requires HasSchema(boot)
      ensures this.pod == pod && repos == boot
    {
      this.pod := pod;
      repos := boot;
    }

    /** Drops the repositories the pod should no longer have. */
    method DropRepos(ids: set<int>)
      modifies this
      ensures forall c :: c in repos <==> c in old(repos) && Keeps(ids, c)
      ensures forall c :: c in repos ==> repos[c] == old(repos)[c]
    {
      var seen := repos.Keys;
      while seen != {}
        invariant seen <= old(repos).Keys
        invariant forall c :: c in repos <==> c in old(repos) && (c in seen || Keeps(ids, c))
        invariant forall c :: c in repos ==> repos[c] == old(repos)[c]
        decreases |seen|
      {
        Collections.NonEmpty(seen);
        var c :| c in seen;
        if !Keeps(ids, c) {
          repos := repos - {c};
        }
        seen := seen - {c};
      }
    }

    /** Creates the repositories the pod newly needs. */
    method CreateRepos(ids: set<int>)
      modifies this
      ensures forall c :: c in repos <==> c in old(repos) || c in ids
      ensures forall c :: c in repos ==> repos[c] == if c in old(repos) then old(repos)[c] else EMPTY_REPO
    {
      var todo := ids;
      while todo != {}
        invariant todo <= ids
        invariant forall c :: c in repos <==> c in old(repos) || c in ids - todo
        invariant forall c :: c in repos ==> repos[c] == if c in old(repos) then old(repos)[c] else EMPTY_REPO
        decreases |todo|
      {
        Collections.NonEmpty(todo);
        var c :| c in todo;
        if c !in repos {
          repos := repos[c := EMPTY_REPO];
        }
        todo := todo - {c};
      }
    }

    method SyncToSchema()
      requires HasSchema(repos)
      modifies this
      ensures repos == Sync(old(repos), pod)
    {
      if PodRows(repos, pod) != {} {
        var ids := SchemaIds(repos, pod);
        DropRepos(ids);
        CreateRepos(ids);
        ghost var want := Sync(old(repos), pod);
        assert forall c :: c in repos <==> c in want;
        assert forall c :: c in repos ==> repos[c] == want[c];
      }
    }

    method Commit(ws: seq<Write>)
      requires HasSchema(repos)
      modifies this
      ensures repos == CommitFrom(old(repos), pod, ws, false)
    {
      hide Sync;
      var syncSchema := false;
      assert ws[0..] == ws;
      for i := 0 to |ws|
        invariant HasSchema(repos)
        invariant CommitFrom(repos, pod, ws[i..], syncSchema) == CommitFrom(old(repos), pod, ws, false)
      {
        assert ws[i..][1..] == ws[i + 1..];
        var id := ws[i].column;
        if Touches(id) {
          syncSchema := true;
        }
        if id in repos {
          if syncSchema && id > POD_COLUMN_COLUMN_ID {
            syncSchema := false;
            SyncToSchema();
          }
          if id in repos {
            repos := repos[id := Advance(repos[id], ws[i].writes)];
          }
        }
      }
      if syncSchema {
        SyncToSchema();
      }
    }

    /** loadBegin; false stands for the exception. */
    method LoadBegin(column: int) returns (ok: bool)
      ensures ok == (column in repos)
    {
      ok := column in repos;
    }

    method LoadWrite(column: int, w: ColumnWrites) returns (ok: bool)
      modifies this
      ensures ok == (column in old(repos))
      ensures repos == if ok then old(repos)[column := Advance(old(repos)[column], w)] else old(repos)
    {
      ok := column in repos;
      if ok {
        repos := repos[column := Advance(repos[column], w)];
      }
    }

    method LoadEnd(column: int, revision: int) returns (ok: bool)
      modifies this
      ensures ok == (column in old(repos))
      ensures repos == if ok then old(repos)[column := old(repos)[column].(revision := revision)] else old(repos)
    {
      ok := column in repos;
      if ok {
        repos := repos[column := repos[column].(revision := revision)];
      }
    }
  }

  // --- What a commit does to one column ---

  /** What the commit writes to a column. */
  function WritesTo(ws: seq<Write>, column: int): Option<ColumnWrites> {
    if ws == [] then None
    else if ws[0].column == column then Some(ws[0].writes)
    else WritesTo(ws[1..], column)
  }

  function AdvanceBy(r: Repo, w: Option<ColumnWrites>): Repo {
    if w.Some? then Advance(r, w.value) else r
  }

  lemma {:induction false} WritesToMember(ws: seq<Write>, column: int)
    ensures WritesTo(ws, column).Some? <==> exists i :: 0 <= i < |ws| && ws[i].column == column
    decreases |ws|
  {
    if ws != [] {
      WritesToMember(ws[1..], column);
      assert forall i :: 0 < i < |ws| ==> ws[i] == ws[1..][i - 1];
    }
  }

  lemma AscendingTail(ws: seq<Write>)
    requires ws != [] && Ascending(ws)
    ensures Ascending(ws[1..]) && WritesTo(ws[1..], ws[0].column) == None
    ensures forall i :: 0 <= i < |ws| - 1 ==> ws[1..][i].column > ws[0].column
  {
    WritesToMember(ws[1..], ws[0].column);
  }

  /** With no schema change pending or to come, every column is just written. */
  lemma {:induction false} QuietCommit(repos: Repos, pod: int, ws: seq<Write>, c: int)
    requires HasSchema(repos) && Ascending(ws)
    requires forall i :: 0 <= i < |ws| ==> !Touches(ws[i].column)
    ensures var r := CommitFrom(repos, pod, ws, false);
            (c in r <==> c in repos) && (c in repos ==> r[c] == AdvanceBy(repos[c], WritesTo(ws, c)))
    decreases |ws|
  {
    hide Apply, Sync, Ascending;
    if ws != [] {
      var w := ws[0];
      AscendingTail(ws);
      assert !Touches(w.column);
      var next := if w.column in repos then repos[w.column := Advance(repos[w.column], w.writes)] else repos;
      QuietCommit(next, pod, ws[1..], c);
    }
  }

  /** A column that is there before and after a commit gets exactly the commit's writes. */
  lemma {:induction false} SurvivorCommitted(repos: Repos, pod: int, ws: seq<Write>, pending: bool, c: int)
    requires HasSchema(repos) && Ascending(ws) && c in repos && c in CommitFrom(repos, pod, ws, pending)
    ensures CommitFrom(repos, pod, ws, pending)[c] == AdvanceBy(repos[c], WritesTo(ws, c))
    decreases |ws|
  {
    hide Apply, Sync, Ascending;
    if ws != [] {
      var w, rest := ws[0], ws[1..];
      AscendingTail(ws);
      var due := pending || Touches(w.column);
      if w.column !in repos {
        SurvivorCommitted(repos, pod, rest, due, c);
      } else if due && w.column > POD_COLUMN_COLUMN_ID {
        var synced := Sync(repos, pod);
        var next := if w.column in synced then synced[w.column := Advance(synced[w.column], w.writes)] else synced;
        QuietCommit(next, pod, rest, c);
      } else {
        SurvivorCommitted(repos[w.column := Advance(repos[w.column], w.writes)], pod, rest, due, c);
      }
    }
  }

  /** A system column survives every commit. */
  lemma {:induction false} SystemColumnStays(repos: Repos, pod: int, ws: seq<Write>, pending: bool, c: int)
    requires HasSchema(repos) && c in repos && c <= MAX_SYSTEM_COLUMN_ID
    ensures c in CommitFrom(repos, pod, ws, pending)
    decreases |ws|
  {
    hide Apply, Sync;
    if ws != [] {
      var w := ws[0];
      var due := pending || Touches(w.column);
      if w.column !in repos {
        SystemColumnStays(repos, pod, ws[1..], due, c);
      } else {
        var now := due && w.column > POD_COLUMN_COLUMN_ID;
        var synced := if now then Sync(repos, pod) else repos;
        var next := if w.column in synced then synced[w.column := Advance(synced[w.column], w.writes)] else synced;
        SystemColumnStays(next, pod, ws[1..], due && !now, c);
      }
    }
  }

  /** A column that is missing and not written can only appear empty. */
  lemma {:induction false} UnwrittenStaysEmpty(repos: Repos, pod: int, ws: seq<Write>, pending: bool, c: int)
    requires HasSchema(repos) && WritesTo(ws, c) == None
    requires c in repos ==> repos[c] == EMPTY_REPO
    ensures var r := CommitFrom(repos, pod, ws, pending);
            c in r ==> r[c] == EMPTY_REPO
    decreases |ws|
  {
    hide Apply;
    if ws != [] {
      var w := ws[0];
      var due := pending || Touches(w.column);
      if w.column !in repos {
        UnwrittenStaysEmpty(repos, pod, ws[1..], due, c);
      } else {
        var now := due && w.column > POD_COLUMN_COLUMN_ID;
        var synced := if now then Sync(repos, pod) else repos;
        var next := if w.column in synced then synced[w.column := Advance(synced[w.column], w.writes)] else synced;
        UnwrittenStaysEmpty(next, pod, ws[1..], due && !now, c);
      }
    }
  }

  /** An existing column between the schema columns and `c` is written. */
  ghost predicate WrittenBetween(repos: Repos, ws: seq<Write>, c: int) {
    exists i :: 0 <= i < |ws| && POD_COLUMN_COLUMN_ID < ws[i].column < c && ws[i].column in repos
  }

  /** A commit that both creates a column and writes to it: the writes reach the new column
      exactly when the commit also writes an existing column with an ID in between, since
      only then is the schema synced in time.  Otherwise they are dropped. */
  lemma {:induction false} NewColumnWritten(repos: Repos, pod: int, ws: seq<Write>, pending: bool, c: int)
    requires HasSchema(repos) && Ascending(ws) && c > POD_COLUMN_COLUMN_ID && c !in repos
    requires WritesTo(ws, c).Some? && c in CommitFrom(repos, pod, ws, pending)
    ensures CommitFrom(repos, pod, ws, pending)[c]
            == if WrittenBetween(repos, ws, c) then Advance(EMPTY_REPO, WritesTo(ws, c).value) else EMPTY_REPO
    decreases |ws|
  {
    hide Apply, Sync, Advance, Ascending;
    var w, rest := ws[0], ws[1..];
    AscendingTail(ws);
    var due := pending || Touches(w.column);
    if w.column == c {
      UnwrittenStaysEmpty(repos, pod, rest, due, c);
    } else if w.column > c {
      LaterColumns(ws, c);
    } else if w.column in repos && w.column > POD_COLUMN_COLUMN_ID {
      assert WrittenBetween(repos, ws, c);
      var synced := if due then Sync(repos, pod) else repos;
      var next := if w.column in synced then synced[w.column := Advance(synced[w.column], w.writes)] else synced;
      QuietCommit(next, pod, rest, c);
    } else {
      var next := if w.column in repos then repos[w.column := Advance(repos[w.column], w.writes)] else repos;
      NewColumnWritten(next, pod, rest, due, c);
      BetweenTail(repos, next, ws, c);
    }
  }

  lemma LaterColumns(ws: seq<Write>, c: int)
    requires ws != [] && Ascending(ws) && ws[0].column > c
    ensures WritesTo(ws, c) == None
  {
    WritesToMember(ws, c);
  }

  lemma BetweenTail(repos: Repos, next: Repos, ws: seq<Write>, c: int)
    requires ws != [] && next.Keys == repos.Keys
    requires ws[0].column <= POD_COLUMN_COLUMN_ID || ws[0].column !in repos
    ensures WrittenBetween(repos, ws, c) == WrittenBetween(next, ws[1..], c)
  {
    if WrittenBetween(repos, ws, c) {
      var i :| 0 <= i < |ws| && POD_COLUMN_COLUMN_ID < ws[i].column < c && ws[i].column in repos;
      assert ws[1..][i - 1] == ws[i];
    }
    assert forall i :: 0 < i < |ws| ==> ws[i] == ws[1..][i - 1];
  }

  // --- Runs of commits ---

  function Live(repos: Repos, pod: int, cs: seq<seq<Write>>): (r: Repos)
    requires HasSchema(repos)
    ensures HasSchema(r)
  {
    if cs == [] then repos else CommitFrom(Live(repos, pod, cs[..|cs| - 1]), pod, cs[|cs| - 1], false)
  }

  /** All that a run of commits writes to a column. */
  function History(cs: seq<seq<Write>>, column: int): seq<ColumnWrites> {
    if cs == [] then []
    else
      var w := WritesTo(cs[|cs| - 1], column);
      History(cs[..|cs| - 1], column) + if w.Some? then [w.value] else []
  }

  /** The column is there after every commit of the run. */
  ghost predicate Survives(repos: Repos, pod: int, cs: seq<seq<Write>>, c: int)
    requires HasSchema(repos)
  {
    forall i :: 0 <= i <= |cs| ==> c in Live(repos, pod, cs[..i])
  }

  /** A surviving column holds its whole history, one revision per write. */
  lemma {:induction false} LiveColumn(repos: Repos, pod: int, cs: seq<seq<Write>>, c: int)
    requires HasSchema(repos) && Survives(repos, pod, cs, c)
    requires forall i :: 0 <= i < |cs| ==> Ascending(cs[i])
    ensures c in repos && c in Live(repos, pod, cs)
    ensures Live(repos, pod, cs)[c] == Repo(ApplyAll(repos[c].buffer, History(cs, c)), repos[c].revision + |History(cs, c)|)
    decreases |cs|
  {
    hide Apply, CommitFrom, Ascending;
    assert cs[..|cs|] == cs && c in Live(repos, pod, cs[..|cs|]);
    if cs == [] {
      assert cs[..0] == [];
    } else {
      var n := |cs| - 1;
      SurvivesBefore(repos, pod, cs, c);
      LiveColumn(repos, pod, cs[..n], c);
      SurvivorCommitted(Live(repos, pod, cs[..n]), pod, cs[n], false, c);
      var before := History(cs[..n], c);
      var w := WritesTo(cs[n], c);
      if w.Some? {
        assert (before + [w.value])[..|before|] == before;
        assert History(cs, c) == before + [w.value];
      } else {
        assert History(cs, c) == before;
      }
    }
  }

  lemma SurvivesBefore(repos: Repos, pod: int, cs: seq<seq<Write>>, c: int)
    requires HasSchema(repos) && cs != [] && Survives(repos, pod, cs, c)
    ensures Survives(repos, pod, cs[..|cs| - 1], c)
  {
    hide Live;
    var n := |cs| - 1;
    forall i | 0 <= i <= n ensures c in Live(repos, pod, cs[..n][..i]) {
      assert cs[..n][..i] == cs[..i];
    }
  }

  lemma {:induction false} SystemColumnInRun(repos: Repos, pod: int, cs: seq<seq<Write>>, c: int)
    requires HasSchema(repos) && c in repos && c <= MAX_SYSTEM_COLUMN_ID
    ensures c in Live(repos, pod, cs)
    decreases |cs|
  {
    hide CommitFrom;
    if cs != [] {
      var n := |cs| - 1;
      SystemColumnInRun(repos, pod, cs[..n], c);
      SystemColumnStays(Live(repos, pod, cs[..n]), pod, cs[n], false, c);
    }
  }

  /** System columns survive every run. */
  lemma SystemColumnSurvives(repos: Repos, pod: int, cs: seq<seq<Write>>, c: int)
    requires HasSchema(repos) && c in repos && c <= MAX_SYSTEM_COLUMN_ID
    ensures Survives(repos, pod, cs, c)
  {
    hide Live;
    forall i | 0 <= i <= |cs| ensures c in Live(repos, pod, cs[..i]) {
      SystemColumnInRun(repos, pod, cs[..i], c);
    }
  }

  // --- A new column in one commit ---

  /** Includes row 1 with a value. */
  function RowOne(value: int): ColumnWrites {
    ColumnWrites([Cell(1, value)], [])
  }

  /** A commit that assigns column 10000 to the pod and writes to it. */
  function NewColumnCommit(pod: int, data: ColumnWrites): seq<Write> {
    [Write(POD_COLUMN_POD_ID, RowOne(pod)), Write(POD_COLUMN_COLUMN_ID, RowOne(10000)), Write(10000, data)]
  }

  const TWO_COLUMNS: Repos := map[POD_COLUMN_POD_ID := EMPTY_REPO, POD_COLUMN_COLUMN_ID := EMPTY_REPO]

  lemma IncludedRowOne(value: int)
    ensures Apply(map[], RowOne(value)) == map[1 := value]
  {
    assert [Cell(1, value)][..0] == [];
    assert ExcludeAll(map[], []) == map[];
    assert IncludeAll(map[], []) == map[];
  }

  /** The column is created but its writes are dropped. */
  lemma NewColumnDropped(pod: int, data: ColumnWrites)
    ensures HasSchema(TWO_COLUMNS)
    ensures var r := CommitFrom(TWO_COLUMNS, pod, NewColumnCommit(pod, data), false);
            10000 in r && r[10000] == EMPTY_REPO
  {
    hide Apply;
    var ws := NewColumnCommit(pod, data);
    IncludedRowOne(pod);
    IncludedRowOne(10000);
    var r1 := TWO_COLUMNS[POD_COLUMN_POD_ID := Repo(map[1 := pod], 1)];
    var r2 := r1[POD_COLUMN_COLUMN_ID := Repo(map[1 := 10000], 1)];
    assert ws[1..] == [ws[1], ws[2]] && ws[1..][1..] == [ws[2]] && ws[1..][1..][1..] == [];
    assert CommitFrom(r2, pod, [ws[2]], true) == CommitFrom(r2, pod, [], true);
    assert CommitFrom(r1, pod, ws[1..], true) == CommitFrom(r2, pod, [ws[2]], true);
    assert CommitFrom(TWO_COLUMNS, pod, ws, false) == CommitFrom(r1, pod, ws[1..], true);
    assert 1 in PodRows(r2, pod) && 10000 in SchemaIds(r2, pod);
  }
}
