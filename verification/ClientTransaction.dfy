/** A client transaction: its log of includes and excludes, the writes it gathers, and reads
    that overlay the log on remote rows.  Columns are addressed by position throughout. */
module ClientTransaction {
  import opened Options
  import Collections
  import opened ColumnBuffer

  datatype LogColumn = LogColumn(includes: Buffer, excludes: set<int>)

  const NO_LOG := LogColumn(map[], {})

  type Log = map<int, LogColumn>

  datatype Row = Row(id: int, values: seq<Option<int>>)

  /** applyColumnOverrides for one value: an exclude clears it, an include sets it. */
  function Override(l: LogColumn, row: int, v: Option<int>): Option<int> {
    if row in l.includes then Some(l.includes[row]) else if row in l.excludes then None else v
  }

  function ColumnOf(log: Log, column: int): LogColumn {
    if column in log then log[column] else NO_LOG
  }

  // --- The transaction object ---

  datatype Op = Include(column: int, row: int, value: int) | Exclude(column: int, row: int)

  /** The log column after an operation: a row included twice keeps its first value. */
  function StepColumn(l: LogColumn, op: Op): LogColumn {
    match op
    case Include(_, row, value) => l.(includes := ColumnBuffer.Include(l.includes, Cell(row, value)))
    case Exclude(_, row) => l.(excludes := l.excludes + {row})
  }

  function Step(log: Log, op: Op): Log {
    log[op.column := StepColumn(ColumnOf(log, op.column), op)]
  }

  function LogAfter(ops: seq<Op>): Log {
    if ops == [] then map[] else Step(LogAfter(ops[..|ops| - 1]), ops[|ops| - 1])
  }

  function IncludeOps(columns: seq<int>, row: int, values: seq<int>): seq<Op>
    requires |columns| == |values|
  {
    seq(|columns|, i requires 0 <= i < |columns| => Include(columns[i], row, values[i]))
  }

  function ExcludeOps(columns: seq<int>, row: int): seq<Op> {
    seq(|columns|, i requires 0 <= i < |columns| => Exclude(columns[i], row))
  }

  lemma LogAfterSnoc(ops: seq<Op>, op: Op)
    ensures LogAfter(ops + [op]) == Step(LogAfter(ops), op)
  {
    assert (ops + [op])[..|ops|] == ops;
  }

  lemma StepKeys(log: Log, op: Op)
    ensures Step(log, op).Keys == log.Keys + {op.column}
  {
  }

  class Transaction {
    var log: Log
    const schema: set<int>    // the columns ensureColumnLog finds
    ghost var ops: seq<Op>    // what has been included and excluded so far

    ghost predicate Valid()
      reads this
    {
      log == LogAfter(ops)
    }

    constructor (schema: set<int>)
      ensures Valid() && log == map[] && ops == [] && this.schema == schema
    {
      log, ops := map[], [];
      this.schema := schema;
    }

    /** include for all columns of a row; false stands for the exception on a column that is
        not in the schema, with the columns before it already logged. */
    method IncludeRow(columns: seq<int>, row: int, values: seq<int>) returns (ok: bool, ghost n: nat)
      requires Valid() && |values| == |columns|
      modifies this
      ensures Valid() && n <= |columns| && ops == old(ops) + IncludeOps(columns, row, values)[..n]
      ensures ok == (n == |columns|) == (forall i :: 0 <= i < |columns| ==> columns[i] in log || columns[i] in schema)
      ensures n < |columns| ==> columns[n] !in log && columns[n] !in schema
      ensures forall i :: 0 <= i < n ==> columns[i] in old(log) || columns[i] in schema
    {
      hide LogAfter, Step;
      n := 0;
      for i := 0 to |columns|
        invariant n == i && Valid() && ops == old(ops) + IncludeOps(columns, row, values)[..i]
        invariant forall j :: 0 <= j < i ==> columns[j] in log
        invariant forall c :: c in log ==> c in old(log) || c in schema
        invariant forall j :: 0 <= j < i ==> columns[j] in old(log) || columns[j] in schema
      {
        var c := columns[i];
        if c !in log && c !in schema {
          return false, i;
        }
        var op := Include(c, row, values[i]);
        LogAfterSnoc(ops, op);
        StepKeys(log, op);
        log := Step(log, op);
        ops := ops + [op];
        n := i + 1;
      }
      ok := true;
    }

    method ExcludeRow(columns: seq<int>, row: int) returns (ok: bool, ghost n: nat)
      requires Valid()
      modifies this
      ensures Valid() && n <= |columns| && ops == old(ops) + ExcludeOps(columns, row)[..n]
      ensures ok == (n == |columns|) == (forall i :: 0 <= i < |columns| ==> columns[i] in log || columns[i] in schema)
      ensures n < |columns| ==> columns[n] !in log && columns[n] !in schema
      ensures forall i :: 0 <= i < n ==> columns[i] in old(log) || columns[i] in schema
    {
      hide LogAfter, Step;
      n := 0;
      for i := 0 to |columns|
        invariant n == i && Valid() && ops == old(ops) + ExcludeOps(columns, row)[..i]
        invariant forall j :: 0 <= j < i ==> columns[j] in log
        invariant forall c :: c in log ==> c in old(log) || c in schema
        invariant forall j :: 0 <= j < i ==> columns[j] in old(log) || columns[j] in schema
      {
        var c := columns[i];
        if c !in log && c !in schema {
          return false, i;
        }
        var op := Exclude(c, row);
        LogAfterSnoc(ops, op);
        StepKeys(log, op);
        log := Step(log, op);
        ops := ops + [op];
        n := i + 1;
      }
      ok := true;
    }

    /** buildLogMap: one optional log column per selected column. */
    method BuildLogMap(columns: seq<int>) returns (logMap: seq<Option<LogColumn>>, anyMapped: bool)
      ensures |logMap| == |columns|
      ensures forall i :: 0 <= i < |columns| ==> logMap[i] == if columns[i] in log then Some(log[columns[i]]) else None
      ensures anyMapped == exists i :: 0 <= i < |columns| && columns[i] in log
    {
      logMap, anyMapped := [], false;
      for i := 0 to |columns|
        invariant |logMap| == i
        invariant forall j :: 0 <= j < i ==> logMap[j] == if columns[j] in log then Some(log[columns[j]]) else None
        invariant anyMapped == exists j :: 0 <= j < i && columns[j] in log
      {
        if columns[i] in log {
          logMap, anyMapped := logMap + [Some(log[columns[i]])], true;
        } else {
          logMap := logMap + [None];
        }
      }
    }

    /** getValues: the remote rows with the log's columns overlaid. */
    method GetValues(columns: seq<int>, remote: seq<Row>) returns (rows: seq<Row>)
      requires forall i :: 0 <= i < |remote| ==> |remote[i].values| == |columns|
      ensures |rows| == |remote|
      ensures forall i :: 0 <= i < |rows| ==> rows[i] == OverlaidRow(log, columns, remote[i])
    {
      var logMap, anyMapped := BuildLogMap(columns);
      rows := remote;
      if !anyMapped {
        forall i | 0 <= i < |rows| ensures rows[i] == OverlaidRow(log, columns, remote[i]) {
          assert OverlaidRow(log, columns, remote[i]).values == remote[i].values;
        }
        return;
      }
      for i := 0 to |remote|
        invariant |rows| == |remote| && forall j :: i <= j < |remote| ==> rows[j] == remote[j]
        invariant forall j :: 0 <= j < i ==> rows[j] == OverlaidRow(log, columns, remote[j])
      {
        var row := OverrideRow(logMap, remote[i], -1);
        assert row.values == OverlaidRow(log, columns, remote[i]).values;
        rows := rows[i := row];
      }
    }
  }

  function OverlaidRow(log: Log, columns: seq<int>, r: Row): Row
    requires |r.values| == |columns|
  {
    Row(r.id, seq(|columns|, i requires 0 <= i < |columns| => Override(ColumnOf(log, columns[i]), r.id, r.values[i])))
  }

  /** The loop over one row's values; `skip` is the position of the range column, or -1. */
  method OverrideRow(logMap: seq<Option<LogColumn>>, row: Row, skip: int) returns (r: Row)
    requires |row.values| == |logMap|
    ensures r.id == row.id && |r.values| == |logMap|
    ensures forall i :: 0 <= i < |logMap| ==>
      r.values[i] == if i == skip || logMap[i].None? then row.values[i] else Override(logMap[i].value, row.id, row.values[i])
  {
    r := row;
    for i := 0 to |row.values|
      invariant r.id == row.id && |r.values| == |logMap|
      invariant forall j :: i <= j < |logMap| ==> r.values[j] == row.values[j]
      invariant forall j :: 0 <= j < i ==>
        r.values[j] == if j == skip || logMap[j].None? then row.values[j] else Override(logMap[j].value, row.id, row.values[j])
    {
      if logMap[i].Some? && i != skip {
        r := r.(values := r.values[i := Override(logMap[i].value, row.id, r.values[i])]);
      }
    }
  }

  // --- Read your writes ---

  ghost predicate ListsRows(rows: seq<int>, s: set<int>) {
    forall r :: r in rows <==> r in s
  }

  /** The writes gatherWrites sends for a log column. */
  ghost predicate Gathers(w: ColumnWrites, l: LogColumn) {
    ListsCells(w.includes, l.includes) && ListsRows(w.excludes, l.excludes)
  }

  method ListCells(b: Buffer) returns (cells: seq<Cell>)
    ensures ListsCells(cells, b) && |cells| == |b|
  {
    cells := [];
    var left := b.Keys;
    while left != {}
      invariant left <= b.Keys && |cells| + |left| == |b.Keys|
      invariant forall row :: FirstValue(cells, row) == if row in b && row !in left then Some(b[row]) else None
      decreases |left|
    {
      Collections.NonEmpty(left);
      var r :| r in left;
      forall row ensures FirstValue(cells + [Cell(r, b[r])], row) == if row in b && row !in left - {r} then Some(b[row]) else None {
        FirstValueSnoc(cells, Cell(r, b[r]), row);
      }
      cells := cells + [Cell(r, b[r])];
      left := left - {r};
    }
  }

  method ListRows(s: set<int>) returns (rows: seq<int>)
    ensures ListsRows(rows, s) && |rows| == |s|
  {
    rows := [];
    var left := s;
    while left != {}
      invariant left <= s && |rows| + |left| == |s|
      invariant forall r :: r in rows <==> r in s && r !in left
      decreases |left|
    {
      Collections.NonEmpty(left);
      var r :| r in left;
      rows := rows + [r];
      left := left - {r};
    }
  }

  /** gatherWrites: the writes of every column that has any. */
  method GatherWrites(log: Log) returns (writes: map<int, ColumnWrites>)
    ensures forall c :: c in writes <==> c in log && log[c] != NO_LOG
    ensures forall c :: c in writes ==> Gathers(writes[c], log[c])
  {
    hide ListsCells, ListsRows;
    writes := map[];
    var left := log.Keys;
    while left != {}
      invariant left <= log.Keys
      invariant forall c :: c in writes <==> c in log && c !in left && log[c] != NO_LOG
      invariant forall c :: c in writes ==> Gathers(writes[c], log[c])
      decreases |left|
    {
      Collections.NonEmpty(left);
      var c :| c in left;
      if log[c] != NO_LOG {
        var cells := ListCells(log[c].includes);
        var rows := ListRows(log[c].excludes);
        writes := writes[c := ColumnWrites(cells, rows)];
      }
      left := left - {c};
    }
  }

  /** The value to be read is one the buffer would not replace. */
  predicate Shadowed(l: LogColumn, remote: Buffer, row: int) {
    row in remote && row !in l.excludes && row in l.includes && l.includes[row] != remote[row]
  }

  /** Reading inside the transaction gives what a read after applying its writes would give,
      except where a row that is still in the remote column is included with another value:
      applying ignores that include. */
  lemma ReadsOwnWritesIff(l: LogColumn, w: ColumnWrites, remote: Buffer, row: int)
    requires Gathers(w, l)
    ensures Override(l, row, Get(remote, row)) == Get(Apply(remote, w), row) <==> !Shadowed(l, remote, row)
  {
    ApplyMeaning(remote, w, row);
    assert FirstValue(w.includes, row) == Get(l.includes, row);
  }

  /** The first value an operation sequence includes for a row. */
  function FirstIncluded(ops: seq<Op>, column: int, row: int): Option<int> {
    if ops == [] then None
    else if ops[0].Include? && ops[0].column == column && ops[0].row == row then Some(ops[0].value)
    else FirstIncluded(ops[1..], column, row)
  }

  lemma {:induction false} FirstIncludedSnoc(ops: seq<Op>, op: Op, column: int, row: int)
    ensures FirstIncluded(ops + [op], column, row)
            == if FirstIncluded(ops, column, row).Some? then FirstIncluded(ops, column, row)
               else if op.Include? && op.column == column && op.row == row then Some(op.value) else None
    decreases |ops|
  {
    if ops == [] {
      assert ops + [op] == [op] && [op][1..] == [];
    } else {
      assert (ops + [op])[1..] == ops[1..] + [op];
      FirstIncludedSnoc(ops[1..], op, column, row);
    }
  }

  /** What the log says of a row, in terms of the operations. */
  lemma {:induction false} LogMeaning(ops: seq<Op>, column: int, row: int)
    ensures var l := ColumnOf(LogAfter(ops), column);
            && Get(l.includes, row) == FirstIncluded(ops, column, row)
            && (row in l.excludes <==> Exclude(column, row) in ops)
    decreases |ops|
  {
    if ops != [] {
      var n := |ops| - 1;
      LogMeaning(ops[..n], column, row);
      FirstIncludedSnoc(ops[..n], ops[n], column, row);
      assert ops[..n] + [ops[n]] == ops;
    }
  }

  /** Read-your-writes for every sequence of operations: it holds for a row exactly unless the
      row is remote, never excluded, and first included with a different value. */
  lemma ReadsOwnWrites(ops: seq<Op>, column: int, w: ColumnWrites, remote: Buffer, row: int)
    requires Gathers(w, ColumnOf(LogAfter(ops), column))
    ensures Override(ColumnOf(LogAfter(ops), column), row, Get(remote, row)) == Get(Apply(remote, w), row)
            <==> (row in remote && Exclude(column, row) !in ops && FirstIncluded(ops, column, row).Some?
                  ==> FirstIncluded(ops, column, row).value == remote[row])
  {
    var l := ColumnOf(LogAfter(ops), column);
    hide LogAfter, Apply, Override;
    ReadsOwnWritesIff(l, w, remote, row);
    LogMeaning(ops, column, row);
  }

  /** A row that is included and later excluded stays: inside the transaction, and once its
      writes are applied, excludes being applied first. */
  lemma ExcludeAfterIncludeLost(column: int, row: int, value: int, w: ColumnWrites, remote: Buffer)
    requires Gathers(w, ColumnOf(LogAfter([Include(column, row, value), Exclude(column, row)]), column))
    ensures Get(Apply(remote, w), row) == Some(value)
  {
    var ops := [Include(column, row, value), Exclude(column, row)];
    var l := ColumnOf(LogAfter(ops), column);
    hide LogAfter;
    LogMeaning(ops, column, row);
    ApplyMeaning(remote, w, row);
    assert Exclude(column, row) == ops[1];
    assert row in w.excludes;
    assert FirstValue(w.includes, row) == Get(l.includes, row);
  }

  /** Row 1 is 7 remotely and included with 5: inside the transaction it reads 5, afterwards
      it is still 7. */
  lemma ShadowedReadDiffers(w: ColumnWrites)
    requires Gathers(w, LogColumn(map[1 := 5], {}))
    ensures Override(LogColumn(map[1 := 5], {}), 1, Get(map[1 := 7], 1)) == Some(5)
    ensures Get(Apply(map[1 := 7], w), 1) == Some(7)
  {
    ApplyMeaning(map[1 := 7], w, 1);
    assert 1 !in w.excludes;
  }
}
