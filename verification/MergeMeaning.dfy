/** What the merge join means: where its rows come from, their order, that none is lost or
    doubled, and how it relates to the column after the transaction commits. */
module MergeMeaning {
  import opened Options
  import opened ColumnBuffer
  import opened ClientTransaction
  import opened MergeJoin
  import opened ValueGroups

  /** The row is a remote one that is not excluded, overlaid. */
  ghost predicate FromRemote(logMap: LogMap, p: nat, rs: seq<Row>, row: Row)
    requires AllShaped(logMap, p, rs)
  {
    exists i :: 0 <= i < |rs| && !Excluded(logMap, p, rs[i]) && row == RemoteRow(logMap, p, rs[i])
  }

  /** The row is a local include. */
  ghost predicate FromLocal(logMap: LogMap, p: nat, ls: seq<Cell>, row: Row)
    requires p < |logMap|
  {
    exists i :: 0 <= i < |ls| && row == LocalRow(logMap, p, ls[i])
  }

  ghost predicate FromEither(logMap: LogMap, p: nat, rs: seq<Row>, ls: seq<Cell>, row: Row)
    requires AllShaped(logMap, p, rs)
  {
    FromRemote(logMap, p, rs, row) || FromLocal(logMap, p, ls, row)
  }

  lemma LocalSource(logMap: LogMap, p: nat, ls: seq<Cell>, row: Row)
    requires p < |logMap| && ls != []
    ensures FromLocal(logMap, p, ls, row) <==> row == LocalRow(logMap, p, ls[0]) || FromLocal(logMap, p, ls[1..], row)
  {
    hide LocalRow;
    assert forall i :: 0 < i < |ls| ==> ls[i] == ls[1..][i - 1];
  }

  lemma RemoteSource(logMap: LogMap, p: nat, rs: seq<Row>, row: Row)
    requires AllShaped(logMap, p, rs) && rs != []
    ensures FromRemote(logMap, p, rs, row) <==> row in Kept(logMap, p, rs[0]) || FromRemote(logMap, p, rs[1..], row)
  {
    hide RemoteRow;
    assert forall i :: 0 < i < |rs| ==> rs[i] == rs[1..][i - 1];
  }

  /** The result holds exactly the kept remote rows and the local rows. */
  lemma {:induction false} MergeMembers(logMap: LogMap, p: nat, rs: seq<Row>, ls: seq<Cell>, row: Row)
    requires AllShaped(logMap, p, rs)
    ensures row in Merge(logMap, p, rs, ls) <==> FromEither(logMap, p, rs, ls, row)
    decreases |rs| + |ls|
  {
    hide LocalRow, RemoteRow, FromLocal, FromRemote, Excluded;
    if LocalNext(logMap, p, rs, ls) {
      MergeMembers(logMap, p, rs, ls[1..], row);
      LocalSource(logMap, p, ls, row);
    } else if rs != [] {
      MergeMembers(logMap, p, rs[1..], ls, row);
      RemoteSource(logMap, p, rs, row);
    } else {
      NoSources(logMap, p, row);
    }
  }

  lemma NoSources(logMap: LogMap, p: nat, row: Row)
    requires p < |logMap|
    ensures !FromEither(logMap, p, [], [], row)
  {
  }

  ghost predicate SortedRows(logMap: LogMap, p: nat, rs: seq<Row>) {
    AllShaped(logMap, p, rs) && forall i, j :: 0 <= i < j < |rs| ==> Before(Key(logMap, p, rs[i]), Key(logMap, p, rs[j]))
  }

  /** No local row is still among the remote rows. */
  ghost predicate Disjoint(logMap: LogMap, p: nat, rs: seq<Row>, ls: seq<Cell>)
    requires p < |logMap|
  {
    forall i, j :: 0 <= i < |rs| && 0 <= j < |ls| && !Excluded(logMap, p, rs[i]) ==> rs[i].id != ls[j].row
  }

  /** Every row of the merge comes after the cell. */
  ghost predicate AllAfter(logMap: LogMap, p: nat, c: Cell, rows: seq<Row>) {
    forall i :: 0 <= i < |rows| ==> Shaped(logMap, p, rows[i]) && Before(c, Key(logMap, p, rows[i]))
  }

  lemma MergeAfter(logMap: LogMap, p: nat, c: Cell, rs: seq<Row>, ls: seq<Cell>)
    requires AllShaped(logMap, p, rs)
    requires forall i :: 0 <= i < |rs| ==> Before(c, Key(logMap, p, rs[i]))
    requires forall i :: 0 <= i < |ls| ==> Before(c, ls[i])
    ensures AllAfter(logMap, p, c, Merge(logMap, p, rs, ls))
  {
    hide Merge, Before;
    var m := Merge(logMap, p, rs, ls);
    forall i | 0 <= i < |m| ensures Shaped(logMap, p, m[i]) && Before(c, Key(logMap, p, m[i])) {
      MergeMembers(logMap, p, rs, ls, m[i]);
      assert m[i] in m;
    }
  }

  lemma SortedCons(logMap: LogMap, p: nat, row: Row, rows: seq<Row>)
    requires Shaped(logMap, p, row) && SortedRows(logMap, p, rows) && AllAfter(logMap, p, Key(logMap, p, row), rows)
    ensures SortedRows(logMap, p, [row] + rows)
  {
  }

  lemma LocalFirst(logMap: LogMap, p: nat, rs: seq<Row>, ls: seq<Cell>)
    requires SortedRows(logMap, p, rs) && Sorted(ls) && LocalNext(logMap, p, rs, ls)
    ensures AllAfter(logMap, p, ls[0], Merge(logMap, p, rs, ls[1..]))
  {
    hide Merge;
    assert rs != [] ==> forall i :: 0 < i < |rs| ==> Before(Key(logMap, p, rs[0]), Key(logMap, p, rs[i]));
    MergeAfter(logMap, p, ls[0], rs, ls[1..]);
  }

  lemma RemoteFirst(logMap: LogMap, p: nat, rs: seq<Row>, ls: seq<Cell>)
    requires SortedRows(logMap, p, rs) && Sorted(ls) && Disjoint(logMap, p, rs, ls)
    requires rs != [] && !LocalNext(logMap, p, rs, ls) && !Excluded(logMap, p, rs[0])
    ensures AllAfter(logMap, p, Key(logMap, p, rs[0]), Merge(logMap, p, rs[1..], ls))
  {
    hide Merge;
    assert ls != [] ==> rs[0].id != ls[0].row && forall i :: 0 < i < |ls| ==> Before(ls[0], ls[i]);
    MergeAfter(logMap, p, Key(logMap, p, rs[0]), rs[1..], ls);
  }

  /** The result is strictly sorted by value and row ID. */
  lemma {:induction false} MergeSorted(logMap: LogMap, p: nat, rs: seq<Row>, ls: seq<Cell>)
    requires SortedRows(logMap, p, rs) && Sorted(ls) && Disjoint(logMap, p, rs, ls)
    ensures SortedRows(logMap, p, Merge(logMap, p, rs, ls))
    decreases |rs| + |ls|
  {
    hide Before, LocalRow, RemoteRow;
    if LocalNext(logMap, p, rs, ls) {
      MergeSorted(logMap, p, rs, ls[1..]);
      hide Merge, SortedRows, Sorted, Disjoint;
      LocalFirst(logMap, p, rs, ls);
      assert [ls[0]] + ls[1..] == ls;
      MergeLocal(logMap, p, rs, ls[0], ls[1..]);
      SortedCons(logMap, p, LocalRow(logMap, p, ls[0]), Merge(logMap, p, rs, ls[1..]));
    } else if rs != [] {
      assert SortedRows(logMap, p, rs[1..]) && Disjoint(logMap, p, rs[1..], ls);
      MergeSorted(logMap, p, rs[1..], ls);
      hide Merge, SortedRows, Sorted, Disjoint;
      MergeRemote(logMap, p, rs, ls);
      if !Excluded(logMap, p, rs[0]) {
        RemoteFirst(logMap, p, rs, ls);
        SortedCons(logMap, p, RemoteRow(logMap, p, rs[0]), Merge(logMap, p, rs[1..], ls));
      }
    }
  }

  // --- No row lost or doubled ---

  function CountRows(rows: seq<Row>, id: int): nat {
    if rows == [] then 0 else (if rows[0].id == id then 1 else 0) + CountRows(rows[1..], id)
  }

  function CountCells(ls: seq<Cell>, id: int): nat {
    if ls == [] then 0 else (if ls[0].row == id then 1 else 0) + CountCells(ls[1..], id)
  }

  /** The remote rows the merge keeps. */
  function CountKept(logMap: LogMap, p: nat, rs: seq<Row>, id: int): nat
    requires p < |logMap|
  {
    if rs == [] then 0
    else (if rs[0].id == id && !Excluded(logMap, p, rs[0]) then 1 else 0) + CountKept(logMap, p, rs[1..], id)
  }

  lemma CountCons(row: Row, rows: seq<Row>, id: int)
    ensures CountRows([row] + rows, id) == (if row.id == id then 1 else 0) + CountRows(rows, id)
  {
    assert ([row] + rows)[1..] == rows;
  }

  /** Every row ID occurs in the result as often as among the kept remote and local rows
      together: so at most once exactly when no local row is still remote. */
  lemma {:induction false} MergeConserves(logMap: LogMap, p: nat, rs: seq<Row>, ls: seq<Cell>, id: int)
    requires AllShaped(logMap, p, rs)
    ensures CountRows(Merge(logMap, p, rs, ls), id) == CountKept(logMap, p, rs, id) + CountCells(ls, id)
    decreases |rs| + |ls|
  {
    hide LocalRow, RemoteRow, Before;
    if LocalNext(logMap, p, rs, ls) {
      MergeConserves(logMap, p, rs, ls[1..], id);
      CountCons(LocalRow(logMap, p, ls[0]), Merge(logMap, p, rs, ls[1..]), id);
    } else if rs != [] {
      MergeConserves(logMap, p, rs[1..], ls, id);
      MergeRemote(logMap, p, rs, ls);
      if Excluded(logMap, p, rs[0]) {
        assert Merge(logMap, p, rs, ls) == Merge(logMap, p, rs[1..], ls);
      } else {
        CountCons(RemoteRow(logMap, p, rs[0]), Merge(logMap, p, rs[1..], ls), id);
      }
    }
  }

  // --- Against the committed column ---

  ghost predicate Holds(p: nat, rows: seq<Row>, id: int, v: int) {
    exists i :: 0 <= i < |rows| && rows[i].id == id && p < |rows[i].values| && rows[i].values[p] == Some(v)
  }

  /** The rows list, at position p, the part of a column with values in the range. */
  ghost predicate RowsList(p: nat, rows: seq<Row>, b: Buffer, inRange: int -> bool) {
    forall id, v :: Holds(p, rows, id, v) <==> id in b && b[id] == v && inRange(v)
  }

  ghost predicate CellsList(ls: seq<Cell>, b: Buffer, inRange: int -> bool) {
    forall id, v :: Cell(id, v) in ls <==> id in b && b[id] == v && inRange(v)
  }

  /** The log of a selected column; without one there is nothing local. */
  function LogAt(logMap: LogMap, p: nat): LogColumn
    requires p < |logMap|
  {
    if logMap[p].Some? then logMap[p].value else NO_LOG
  }

  /** Reading a range of values inside the transaction shows a row of the range column as it
      will be once the transaction's writes are applied, exactly unless the row remains and is
      included again with another value that lies in the range. */
  lemma RangeReadsOwnWritesIff(logMap: LogMap, p: nat, rs: seq<Row>, ls: seq<Cell>, remote: Buffer, w: ColumnWrites,
                               inRange: int -> bool, id: int)
    requires AllShaped(logMap, p, rs) && Gathers(w, LogAt(logMap, p))
    requires RowsList(p, rs, remote, inRange) && CellsList(ls, LogAt(logMap, p).includes, inRange)
    ensures var l := LogAt(logMap, p);
            (forall v :: Holds(p, Merge(logMap, p, rs, ls), id, v) <==> Get(Apply(remote, w), id) == Some(v) && inRange(v))
            <==> !(Shadowed(l, remote, id) && inRange(l.includes[id]))
  {
    var l := LogAt(logMap, p);
    var m := Merge(logMap, p, rs, ls);
    hide Merge, Apply;
    ApplyMeaning(remote, w, id);
    assert FirstValue(w.includes, id) == Get(l.includes, id);
    assert id in w.excludes <==> id in l.excludes;
    forall v
      ensures Holds(p, m, id, v)
              <==> inRange(v) && ((Get(remote, id) == Some(v) && id !in l.excludes) || Get(l.includes, id) == Some(v))
    {
      MergedValues(logMap, p, rs, ls, remote, inRange, id, v);
    }
    if Shadowed(l, remote, id) && inRange(l.includes[id]) {
      assert Holds(p, m, id, l.includes[id]) && Get(Apply(remote, w), id) == Some(remote[id]);
    }
  }

  /** The values a row has in the merged range: the remote one unless excluded, and the one
      included, as far as they lie in the range. */
  lemma MergedValues(logMap: LogMap, p: nat, rs: seq<Row>, ls: seq<Cell>, remote: Buffer, inRange: int -> bool, id: int, v: int)
    requires AllShaped(logMap, p, rs)
    requires RowsList(p, rs, remote, inRange) && CellsList(ls, LogAt(logMap, p).includes, inRange)
    ensures var l := LogAt(logMap, p);
            Holds(p, Merge(logMap, p, rs, ls), id, v)
            <==> inRange(v) && ((Get(remote, id) == Some(v) && id !in l.excludes) || Get(l.includes, id) == Some(v))
  {
    var l := LogAt(logMap, p);
    var m := Merge(logMap, p, rs, ls);
    hide Merge;
    if Holds(p, m, id, v) {
      var i :| 0 <= i < |m| && m[i].id == id && p < |m[i].values| && m[i].values[p] == Some(v);
      MergeMembers(logMap, p, rs, ls, m[i]);
      assert m[i] in m;
      RowSource(logMap, p, rs, ls, m[i], v);
    }
    if id in remote && id !in l.excludes && remote[id] == v && inRange(v) {
      assert Holds(p, rs, id, v);
      var i :| 0 <= i < |rs| && rs[i].id == id && p < |rs[i].values| && rs[i].values[p] == Some(v);
      InMerge(logMap, p, rs, ls, RemoteRow(logMap, p, rs[i]), id, v);
    }
    if id in l.includes && l.includes[id] == v && inRange(v) {
      assert Cell(id, v) in ls;
      var j :| 0 <= j < |ls| && ls[j] == Cell(id, v);
      InMerge(logMap, p, rs, ls, LocalRow(logMap, p, ls[j]), id, v);
    }
  }

  /** Row 1 is 7 remotely and included with 5: the merged range shows it twice. */
  lemma ShadowedRowTwice()
    ensures var logMap: LogMap := [Some(LogColumn(map[1 := 5], {}))];
            var m := Merge(logMap, 0, [Row(1, [Some(7)])], [Cell(1, 5)]);
            Holds(0, m, 1, 5) && Holds(0, m, 1, 7)
  {
    hide Merge;
    var logMap: LogMap := [Some(LogColumn(map[1 := 5], {}))];
    var rs, ls := [Row(1, [Some(7)])], [Cell(1, 5)];
    assert rs[0].id == 1 && ls[0] == Cell(1, 5);
    InMerge(logMap, 0, rs, ls, LocalRow(logMap, 0, ls[0]), 1, 5);
    InMerge(logMap, 0, rs, ls, RemoteRow(logMap, 0, rs[0]), 1, 7);
  }

  lemma RowSource(logMap: LogMap, p: nat, rs: seq<Row>, ls: seq<Cell>, row: Row, v: int)
    requires AllShaped(logMap, p, rs) && FromEither(logMap, p, rs, ls, row)
    requires p < |row.values| && row.values[p] == Some(v)
    ensures (Holds(p, rs, row.id, v) && !(logMap[p].Some? && row.id in logMap[p].value.excludes)) || Cell(row.id, v) in ls
  {
    if FromRemote(logMap, p, rs, row) {
      var i :| 0 <= i < |rs| && !Excluded(logMap, p, rs[i]) && row == RemoteRow(logMap, p, rs[i]);
      assert Key(logMap, p, row) == Key(logMap, p, rs[i]);
    } else {
      var i :| 0 <= i < |ls| && row == LocalRow(logMap, p, ls[i]);
      assert Key(logMap, p, row) == ls[i];
    }
  }

  lemma InMerge(logMap: LogMap, p: nat, rs: seq<Row>, ls: seq<Cell>, row: Row, id: int, v: int)
    requires AllShaped(logMap, p, rs) && FromEither(logMap, p, rs, ls, row)
    requires row.id == id && p < |row.values| && row.values[p] == Some(v)
    ensures Holds(p, Merge(logMap, p, rs, ls), id, v)
  {
    hide Merge;
    MergeMembers(logMap, p, rs, ls, row);
    var m := Merge(logMap, p, rs, ls);
    var i :| 0 <= i < |m| && m[i] == row;
  }

  // --- The other columns of a merged row ---

  /** The writes gathered for a column that may have no log. */
  ghost predicate GathersAt(w: ColumnWrites, l: Option<LogColumn>) {
    Gathers(w, if l.Some? then l.value else NO_LOG)
  }

  /** A kept remote row shows in every other column what will be there after the commit,
      exactly unless the row is included there with another value while it remains. */
  lemma RemoteRowReads(logMap: LogMap, p: nat, r: Row, i: nat, remote: Buffer, w: ColumnWrites)
    requires Shaped(logMap, p, r) && i < |logMap| && i != p
    requires GathersAt(w, logMap[i]) && r.values[i] == Get(remote, r.id)
    ensures RemoteRow(logMap, p, r).values[i] == Get(Apply(remote, w), r.id)
            <==> !(logMap[i].Some? && Shadowed(logMap[i].value, remote, r.id))
  {
    hide Apply, Gathers;
    ReadsOwnWritesIff(LogAt(logMap, i), w, remote, r.id);
  }

  /** A local row takes its other columns from the local log alone: it shows what will be
      there after the commit exactly unless the row remains in that column and the log does
      not include it with the same value. */
  lemma LocalRowReads(logMap: LogMap, p: nat, c: Cell, i: nat, remote: Buffer, w: ColumnWrites)
    requires p < |logMap| && i < |logMap| && i != p && GathersAt(w, logMap[i])
    ensures var l := LogAt(logMap, i);
            LocalRow(logMap, p, c).values[i] == Get(Apply(remote, w), c.row)
            <==> (c.row in remote && c.row !in l.excludes ==> Get(l.includes, c.row) == Some(remote[c.row]))
  {
    var l := LogAt(logMap, i);
    ApplyMeaning(remote, w, c.row);
    assert FirstValue(w.includes, c.row) == Get(l.includes, c.row);
    assert c.row in w.excludes <==> c.row in l.excludes;
  }

  /** Row 1 is included in the range column; the other column has 9 for it remotely and no
      log: the merged row shows nothing there, inside the transaction. */
  lemma LocalRowMisses(w: ColumnWrites)
    requires GathersAt(w, None)
    ensures var logMap: LogMap := [Some(LogColumn(map[1 := 5], {})), None];
            LocalRow(logMap, 0, Cell(1, 5)).values[1] == None && Get(Apply(map[1 := 9], w), 1) == Some(9)
  {
    ApplyMeaning(map[1 := 9], w, 1);
    assert 1 !in w.excludes;
  }
}
