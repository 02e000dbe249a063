/** Column buffers: the tree buffer's two indexes kept in step, and what a batch of writes
    does to the contents.  Row IDs and values are integers in the order of their types. */
module ColumnBuffer {
  import opened Options

  datatype Cell = Cell(row: int, value: int)

  datatype ColumnWrites = ColumnWrites(includes: seq<Cell>, excludes: seq<int>)

  /** The contents of a column: at most one value per row. */
  type Buffer = map<int, int>

  function Include(b: Buffer, c: Cell): Buffer {
    if c.row in b then b else b[c.row := c.value]
  }

  function IncludeAll(b: Buffer, cs: seq<Cell>): Buffer {
    if cs == [] then b else Include(IncludeAll(b, cs[..|cs| - 1]), cs[|cs| - 1])
  }

  function ExcludeAll(b: Buffer, rows: seq<int>): Buffer {
    map r | r in b && r !in rows :: b[r]
  }

  /** Apply: all excludes, then all includes. */
  function Apply(b: Buffer, w: ColumnWrites): Buffer {
    IncludeAll(ExcludeAll(b, w.excludes), w.includes)
  }

  function ApplyAll(b: Buffer, ws: seq<ColumnWrites>): Buffer {
    if ws == [] then b else Apply(ApplyAll(b, ws[..|ws| - 1]), ws[|ws| - 1])
  }

  /** The value of the first cell for a row. */
  function FirstValue(cs: seq<Cell>, row: int): Option<int> {
    if cs == [] then None
    else if cs[0].row == row then Some(cs[0].value)
    else FirstValue(cs[1..], row)
  }

  function Get(b: Buffer, row: int): Option<int> {
    if row in b then Some(b[row]) else None
  }

  /** The cells give the contents: each row with its value, and no other row. */
  ghost predicate ListsCells(cells: seq<Cell>, b: Buffer) {
    forall row :: FirstValue(cells, row) == Get(b, row)
  }

  lemma {:induction false} FirstValueSnoc(cs: seq<Cell>, c: Cell, row: int)
    ensures FirstValue(cs + [c], row)
            == if FirstValue(cs, row).Some? then FirstValue(cs, row) else if c.row == row then Some(c.value) else None
    decreases |cs|
  {
    if cs == [] {
      assert ([c])[1..] == [] && cs + [c] == [c];
    } else {
      assert (cs + [c])[1..] == cs[1..] + [c];
      FirstValueSnoc(cs[1..], c, row);
    }
  }

  lemma {:induction false} IncludeAllMeaning(b: Buffer, cs: seq<Cell>, row: int)
    ensures Get(IncludeAll(b, cs), row) == if row in b then Some(b[row]) else FirstValue(cs, row)
    decreases |cs|
  {
    if cs != [] {
      var n := |cs| - 1;
      IncludeAllMeaning(b, cs[..n], row);
      FirstValueSnoc(cs[..n], cs[n], row);
      assert cs[..n] + [cs[n]] == cs;
    }
  }

  /** What a batch of writes does to one row: a value that was there and is not excluded
      stays, whatever is included; otherwise the first include wins. */
  lemma ApplyMeaning(b: Buffer, w: ColumnWrites, row: int)
    ensures Get(Apply(b, w), row)
            == if row in b && row !in w.excludes then Some(b[row]) else FirstValue(w.includes, row)
  {
    IncludeAllMeaning(ExcludeAll(b, w.excludes), w.includes, row);
  }

  lemma ExcludeSnoc(b: Buffer, rows: seq<int>, i: nat)
    requires i < |rows|
    ensures ExcludeAll(b, rows[..i + 1]) == ExcludeAll(b, rows[..i]) - {rows[i]}
  {
    assert rows[..i + 1] == rows[..i] + [rows[i]];
  }

  lemma IncludeSnoc(b: Buffer, cs: seq<Cell>, i: nat)
    requires i < |cs|
    ensures IncludeAll(b, cs[..i + 1]) == Include(IncludeAll(b, cs[..i]), cs[i])
  {
    assert cs[..i + 1][..i] == cs[..i];
  }

  lemma CardinalityUpdate<K, V>(m: map<K, V>, k: K, v: V)
    ensures |m[k := v]| == if k in m then |m| else |m| + 1
  {
    var m' := m[k := v];
    assert m'.Keys == m.Keys + {k};
    assert |m'.Keys| == |m'| && |m.Keys| == |m|;
  }

  lemma CardinalityRemove<K, V>(m: map<K, V>, k: K)
    requires k in m
    ensures |m - {k}| == |m| - 1
  {
    var m' := m - {k};
    assert m'.Keys == m.Keys - {k};
    assert |m'.Keys| == |m'| && |m.Keys| == |m|;
  }

  /** Two indexes that mirror each other: row ID to value, and value to row IDs, with no value
      kept without rows. */
  ghost predicate Mirror(rows: map<int, int>, values: map<int, set<int>>) {
    && (forall r :: r in rows ==> rows[r] in values && r in values[rows[r]])
    && (forall v, r :: v in values && r in values[v] ==> r in rows && rows[r] == v)
    && (forall v :: v in values ==> values[v] != {})
  }

  lemma MirrorHolds(rows: map<int, int>, values: map<int, set<int>>, row: int)
    requires Mirror(rows, values) && row in rows
    ensures rows[row] in values
  {
  }

  lemma NothingToDrop(rows: map<int, int>, row: int)
    requires row !in rows
    ensures rows - {row} == rows
  {
  }

  lemma MirrorDropsValue(rows: map<int, int>, values: map<int, set<int>>, row: int)
    requires Mirror(rows, values) && row in rows && forall r :: r in values[rows[row]] ==> r == row
    ensures Mirror(rows - {row}, values - {rows[row]})
  {
    var v := rows[row];
    var rows', values' := rows - {row}, values - {v};
    forall r | r in rows' ensures rows'[r] in values' && r in values'[rows'[r]] {
      assert r in rows && r in values[rows[r]];
    }
  }

  lemma MirrorDropsRow(rows: map<int, int>, values: map<int, set<int>>, row: int, left: set<int>)
    requires Mirror(rows, values) && row in rows && left == values[rows[row]] - {row} && left != {}
    ensures Mirror(rows - {row}, values[rows[row] := left])
  {
  }

  lemma OnlyOne(s: set<int>, x: int)
    requires s - {x} == {}
    ensures forall y :: y in s ==> y == x
  {
    forall y | y in s ensures y == x {
      assert y !in s - {x};
    }
  }

  class TreeBuffer {
    var rows: map<int, int>          // row ID to value
    var values: map<int, set<int>>   // value to row IDs
    var total: int
    var unique: int

    /** The two indexes mirror each other, no value is kept without rows, and the
        statistics are the sizes. */
    ghost predicate Valid()
      reads this
    {
      Mirror(rows, values) && total == |rows| && unique == |values|
    }

    constructor ()
      ensures Valid() && rows == map[]
    {
      rows, values, total, unique := map[], map[], 0, 0;
    }

    method IncludeRow(row: int, value: int) returns (added: bool)
      requires Valid()
      modifies this
      ensures Valid() && added == (row !in old(rows)) && rows == Include(old(rows), Cell(row, value))
    {
      if row in rows {
        return false;
      }
      CardinalityUpdate(rows, row, value);
      if value in values {
        CardinalityUpdate(values, value, values[value] + {row});
        values := values[value := values[value] + {row}];
      } else {
        CardinalityUpdate(values, value, {row});
        values := values[value := {row}];
        unique := unique + 1;
      }
      rows := rows[row := value];
      total := total + 1;
      return true;
    }

    /** Exclude by row ID: the value is looked up first. */
    method ExcludeRow(row: int) returns (removed: bool)
      requires Valid()
      modifies this
      ensures Valid() && removed == (row in old(rows)) && rows == old(rows) - {row}
    {
      hide Mirror;
      if row !in rows {
        NothingToDrop(rows, row);
        return false;
      }
      MirrorHolds(rows, values, row);
      CardinalityRemove(rows, row);
      var value := rows[row];
      var left := values[value] - {row};
      if left == {} {
        OnlyOne(values[value], row);
        MirrorDropsValue(rows, values, row);
        CardinalityRemove(values, value);
        values := values - {value};
        unique := unique - 1;
      } else {
        MirrorDropsRow(rows, values, row, left);
        CardinalityUpdate(values, value, left);
        values := values[value := left];
      }
      rows := rows - {row};
      total := total - 1;
      return true;
    }

    method ApplyWrites(w: ColumnWrites)
      requires Valid()
      modifies this
      ensures Valid() && rows == Apply(old(rows), w)
    {
      ghost var first := rows;
      assert w.excludes[..0] == [] && w.includes[..0] == [] && ExcludeAll(first, []) == first;
      assert w.excludes[..|w.excludes|] == w.excludes && w.includes[..|w.includes|] == w.includes;
      hide Valid, ExcludeAll, Include;
      for i := 0 to |w.excludes|
        invariant Valid() && rows == ExcludeAll(first, w.excludes[..i])
      {
        var removed := ExcludeRow(w.excludes[i]);
        ExcludeSnoc(first, w.excludes, i);
      }
      ghost var kept := rows;
      for i := 0 to |w.includes|
        invariant Valid() && rows == IncludeAll(kept, w.includes[..i])
      {
        var added := IncludeRow(w.includes[i].row, w.includes[i].value);
        IncludeSnoc(kept, w.includes, i);
      }
    }
  }
}
