/** The merge join of remote rows with a transaction's own includes.  The model advances past
    a local row only when it strictly precedes the remote one, keeps the remote rows that are
    not excluded, and stores the value of a local row, as the comments in the source intend. */
module MergeJoin {
  import opened Options
  import Collections
  import opened ColumnBuffer
  import opened ClientTransaction
  import opened ValueGroups

  type LogMap = seq<Option<LogColumn>>

  /** The row shape and the position of the range column. */
  predicate Shaped(logMap: LogMap, p: nat, r: Row) {
    p < |logMap| == |r.values| && r.values[p].Some?
  }

  ghost predicate AllShaped(logMap: LogMap, p: nat, rs: seq<Row>) {
    p < |logMap| && forall i :: 0 <= i < |rs| ==> Shaped(logMap, p, rs[i])
  }

  function Key(logMap: LogMap, p: nat, r: Row): Cell
    requires Shaped(logMap, p, r)
  {
    Cell(r.id, r.values[p].value)
  }

  predicate Excluded(logMap: LogMap, p: nat, r: Row)
    requires p < |logMap|
  {
    logMap[p].Some? && r.id in logMap[p].value.excludes
  }

  /** addRow: a locally included row, its other columns from the local includes. */
  function LocalRow(logMap: LogMap, p: nat, c: Cell): (r: Row)
    requires p < |logMap|
    ensures Shaped(logMap, p, r) && Key(logMap, p, r) == c
  {
    Row(c.row, seq(|logMap|, i requires 0 <= i < |logMap| =>
      if i == p then Some(c.value) else if logMap[i].Some? then Get(logMap[i].value.includes, c.row) else None))
  }

  /** A remote row with every column but the range column overlaid. */
  function RemoteRow(logMap: LogMap, p: nat, r: Row): (s: Row)
    requires Shaped(logMap, p, r)
    ensures Shaped(logMap, p, s) && Key(logMap, p, s) == Key(logMap, p, r)
  {
    Row(r.id, seq(|logMap|, i requires 0 <= i < |logMap| =>
      if i == p || logMap[i].None? then r.values[i] else Override(logMap[i].value, r.id, r.values[i])))
  }

  function Kept(logMap: LogMap, p: nat, r: Row): seq<Row>
    requires Shaped(logMap, p, r)
  {
    if Excluded(logMap, p, r) then [] else [RemoteRow(logMap, p, r)]
  }

  function Merge(logMap: LogMap, p: nat, rs: seq<Row>, ls: seq<Cell>): seq<Row>
    requires AllShaped(logMap, p, rs)
    decreases |rs| + |ls|
  {
    if ls != [] && (rs == [] || Before(ls[0], Key(logMap, p, rs[0]))) then
      [LocalRow(logMap, p, ls[0])] + Merge(logMap, p, rs, ls[1..])
    else if rs != [] then Kept(logMap, p, rs[0]) + Merge(logMap, p, rs[1..], ls)
    else []
  }

  // --- The loops ---

  /** addRow and its advance to the next value and row. */
  method AddRow(logMap: LogMap, p: nat, local: seq<ValueRows>, valueIndex: nat, rowIndex: nat)
    returns (row: Row, nextValue: nat, nextRow: nat)
    requires p < |logMap| && WellGrouped(local) && Cursor(local, valueIndex, rowIndex) && valueIndex < |local|
    ensures Cursor(local, nextValue, nextRow)
    ensures Rest(local, valueIndex, rowIndex) == [CellAt(local, valueIndex, rowIndex)] + Rest(local, nextValue, nextRow)
    ensures row == LocalRow(logMap, p, CellAt(local, valueIndex, rowIndex))
  {
    hide LocalRow, Rest;
    row := LocalRow(logMap, p, CellAt(local, valueIndex, rowIndex));
    nextValue, nextRow := valueIndex, rowIndex + 1;
    RestNextRow(local, valueIndex, rowIndex);
    if nextRow >= |local[valueIndex].rows| {
      nextValue, nextRow := valueIndex + 1, 0;
      RestNextValue(local, valueIndex);
    }
  }

  /** The next row of the result is the first local one. */
  predicate LocalNext(logMap: LogMap, p: nat, rs: seq<Row>, ls: seq<Cell>)
    requires AllShaped(logMap, p, rs)
  {
    ls != [] && (rs == [] || Before(ls[0], Key(logMap, p, rs[0])))
  }

  lemma MergeLocal(logMap: LogMap, p: nat, rs: seq<Row>, c: Cell, ls: seq<Cell>)
    requires AllShaped(logMap, p, rs) && LocalNext(logMap, p, rs, [c] + ls)
    ensures Merge(logMap, p, rs, [c] + ls) == [LocalRow(logMap, p, c)] + Merge(logMap, p, rs, ls)
  {
    assert ([c] + ls)[1..] == ls;
  }

  lemma MergeRemote(logMap: LogMap, p: nat, rs: seq<Row>, ls: seq<Cell>)
    requires AllShaped(logMap, p, rs) && rs != [] && !LocalNext(logMap, p, rs, ls)
    ensures AllShaped(logMap, p, rs[1..])
    ensures Merge(logMap, p, rs, ls) == Kept(logMap, p, rs[0]) + Merge(logMap, p, rs[1..], ls)
  {
  }

  lemma NothingLeft(logMap: LogMap, p: nat, ls: seq<Cell>)
    requires p < |logMap| && !LocalNext(logMap, p, [], ls)
    ensures Merge(logMap, p, [], ls) == []
  {
  }

  /** Inserts the local rows that precede the next remote row, or all that are left. */
  method AddLocal(logMap: LogMap, p: nat, local: seq<ValueRows>, from: (nat, nat), rs: seq<Row>)
    returns (rows: seq<Row>, to: (nat, nat))
    requires AllShaped(logMap, p, rs) && p < |logMap| && (rs == [] || Shaped(logMap, p, rs[0]))
    requires WellGrouped(local) && Cursor(local, from.0, from.1)
    ensures Cursor(local, to.0, to.1) && !LocalNext(logMap, p, rs, Rest(local, to.0, to.1))
    ensures Merge(logMap, p, rs, Rest(local, from.0, from.1)) == rows + Merge(logMap, p, rs, Rest(local, to.0, to.1))
  {
    hide LocalRow, Merge, Rest, WellGrouped, AllShaped;
    rows, to := [], from;
    while to.0 < |local| && (rs == [] || Before(CellAt(local, to.0, to.1), Key(logMap, p, rs[0])))
      invariant Cursor(local, to.0, to.1)
      invariant Merge(logMap, p, rs, Rest(local, from.0, from.1)) == rows + Merge(logMap, p, rs, Rest(local, to.0, to.1))
      decreases |Rest(local, to.0, to.1)|
    {
      var row, v, r := AddRow(logMap, p, local, to.0, to.1);
      MergeLocal(logMap, p, rs, CellAt(local, to.0, to.1), Rest(local, v, r));
      rows, to := rows + [row], (v, r);
    }
    if to.0 < |local| {
      RestHead(local, to.0, to.1);
    } else {
      RestEnd(local, to.1);
    }
  }

  /** One round of the outer loop. */
  method MergeOne(logMap: LogMap, p: nat, rs: seq<Row>, local: seq<ValueRows>, from: (nat, nat))
    returns (rows: seq<Row>, to: (nat, nat))
    requires AllShaped(logMap, p, rs) && rs != [] && WellGrouped(local) && Cursor(local, from.0, from.1)
    ensures Cursor(local, to.0, to.1) && AllShaped(logMap, p, rs[1..])
    ensures Merge(logMap, p, rs, Rest(local, from.0, from.1)) == rows + Merge(logMap, p, rs[1..], Rest(local, to.0, to.1))
  {
    hide RemoteRow, Merge, Rest, LocalNext, WellGrouped;
    rows, to := AddLocal(logMap, p, local, from, rs);
    MergeRemote(logMap, p, rs, Rest(local, to.0, to.1));
    if !Excluded(logMap, p, rs[0]) {
      var row := OverrideRow(logMap, rs[0], p);
      SameRow(logMap, p, rs[0], row);
      rows := rows + [row];
    }
  }

  /** The merge: the loop over remote rows, then the remaining local rows. */
  method MergeRows(logMap: LogMap, p: nat, remote: seq<Row>, local: seq<ValueRows>) returns (data: seq<Row>)
    requires AllShaped(logMap, p, remote) && WellGrouped(local)
    ensures data == Merge(logMap, p, remote, Cells(local))
  {
    RestOfAll(local);
    assert p < |logMap|;
    hide Merge, Rest, WellGrouped, AllShaped, Cells, Cursor, LocalNext;
    data := [];
    var at := (0, 0);
    assert remote[0..] == remote;
    assert Cursor(local, 0, 0) by { CursorStart(local); }
    var rows: seq<Row>;
    for k := 0 to |remote|
      invariant AllShaped(logMap, p, remote[k..])
      invariant Cursor(local, at.0, at.1)
      invariant Merge(logMap, p, remote, Cells(local)) == data + Merge(logMap, p, remote[k..], Rest(local, at.0, at.1))
    {
      rows, at := MergeOne(logMap, p, remote[k..], local, at);
      assert remote[k..][1..] == remote[k + 1..];
      Collections.Assoc(data, rows, Merge(logMap, p, remote[k + 1..], Rest(local, at.0, at.1)));
      data := data + rows;
    }
    assert remote[|remote|..] == [];
    rows, at := AddLocal(logMap, p, local, at, []);
    data := data + rows;
    assert rows + [] == rows;
    NothingLeft(logMap, p, Rest(local, at.0, at.1));
  }

  lemma SameRow(logMap: LogMap, p: nat, r: Row, s: Row)
    requires Shaped(logMap, p, r) && s.id == r.id && |s.values| == |logMap|
    requires forall i :: 0 <= i < |logMap| ==>
      s.values[i] == if i == p || logMap[i].None? then r.values[i] else Override(logMap[i].value, r.id, r.values[i])
    ensures s == RemoteRow(logMap, p, r)
  {
    assert s.values == RemoteRow(logMap, p, r).values;
  }

  // --- getRange ---

  datatype RangeSet = RangeSet(data: seq<Row>, bof: bool, eof: bool, limited: bool)

  /** What the local includes answer for the range. */
  datatype LocalRange = LocalRange(groups: seq<ValueRows>, bof: bool, eof: bool)

  function LogMapOf(log: Log, columns: seq<int>): LogMap {
    seq(|columns|, i requires 0 <= i < |columns| => if columns[i] in log then Some(log[columns[i]]) else None)
  }

  /** Without a log there is nothing to merge or overlay. */
  lemma {:induction false} UnloggedMerge(logMap: LogMap, p: nat, rs: seq<Row>)
    requires AllShaped(logMap, p, rs) && forall i :: 0 <= i < |logMap| ==> logMap[i] == None
    ensures Merge(logMap, p, rs, []) == rs
    decreases |rs|
  {
    if rs != [] {
      UnloggedMerge(logMap, p, rs[1..]);
      assert RemoteRow(logMap, p, rs[0]).values == rs[0].values;
      assert rs == [rs[0]] + rs[1..];
    }
  }

  /** The transaction's getRange over the remote answer and, if the range column is logged,
      the local one.  The ends of the range are reached only where both answers agree. */
  method GetRange(t: Transaction, columns: seq<int>, p: nat, remote: RangeSet, local: LocalRange) returns (r: RangeSet)
    requires p < |columns| && AllShaped(LogMapOf(t.log, columns), p, remote.data) && WellGrouped(local.groups)
    ensures var logged := columns[p] in t.log;
            && r.data == Merge(LogMapOf(t.log, columns), p, remote.data, if logged then Cells(local.groups) else [])
            && r.bof == (remote.bof && (logged ==> local.bof))
            && r.eof == (remote.eof && (logged ==> local.eof))
            && r.limited == remote.limited
  {
    hide Merge, AllShaped;
    var logMap, anyMapped := t.BuildLogMap(columns);
    assert logMap == LogMapOf(t.log, columns);
    if !anyMapped {
      UnloggedMerge(logMap, p, remote.data);
      return remote;
    }
    var groups, bof, eof := [], remote.bof, remote.eof;
    if logMap[p].Some? {
      groups, bof, eof := local.groups, bof && local.bof, eof && local.eof;
    }
    var data := MergeRows(logMap, p, remote.data, groups);
    r := RangeSet(data, bof, eof, remote.limited);
  }
}
