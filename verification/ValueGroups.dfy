/** Range results: rows grouped by value, and positions in them. */
module ValueGroups {
  import Collections
  import opened ColumnBuffer

  /** A value and the rows that have it. */
  datatype ValueRows = ValueRows(value: int, rows: seq<int>)

  function GroupCells(g: ValueRows): (r: seq<Cell>)
    ensures |r| == |g.rows|
  {
    seq(|g.rows|, i requires 0 <= i < |g.rows| => Cell(g.rows[i], g.value))
  }

  function Cells(gs: seq<ValueRows>): seq<Cell> {
    if gs == [] then [] else GroupCells(gs[0]) + Cells(gs[1..])
  }

  ghost predicate WellGrouped(gs: seq<ValueRows>) {
    forall i :: 0 <= i < |gs| ==> gs[i].rows != []
  }

  /** The order of range results: by value, then by row ID. */
  predicate Before(a: Cell, b: Cell) {
    a.value < b.value || (a.value == b.value && a.row < b.row)
  }

  ghost predicate Sorted(cs: seq<Cell>) {
    forall i, j :: 0 <= i < j < |cs| ==> Before(cs[i], cs[j])
  }

  /** The cells from a position on. */
  function Rest(gs: seq<ValueRows>, valueIndex: nat, rowIndex: nat): seq<Cell>
    requires valueIndex <= |gs| && (valueIndex < |gs| ==> rowIndex <= |gs[valueIndex].rows|)
  {
    if valueIndex == |gs| then [] else GroupCells(gs[valueIndex])[rowIndex..] + Cells(gs[valueIndex + 1..])
  }

  ghost predicate Cursor(gs: seq<ValueRows>, valueIndex: nat, rowIndex: nat) {
    valueIndex <= |gs| && (valueIndex < |gs| ==> rowIndex < |gs[valueIndex].rows|)
  }

  function CellAt(gs: seq<ValueRows>, valueIndex: nat, rowIndex: nat): Cell
    requires valueIndex < |gs| && rowIndex < |gs[valueIndex].rows|
  {
    Cell(gs[valueIndex].rows[rowIndex], gs[valueIndex].value)
  }

  lemma RestHead(gs: seq<ValueRows>, valueIndex: nat, rowIndex: nat)
    requires Cursor(gs, valueIndex, rowIndex) && valueIndex < |gs|
    ensures Rest(gs, valueIndex, rowIndex) != []
    ensures Rest(gs, valueIndex, rowIndex)[0] == CellAt(gs, valueIndex, rowIndex)
  {
    assert GroupCells(gs[valueIndex])[rowIndex..][0] == CellAt(gs, valueIndex, rowIndex);
  }

  /** Advancing inside a group of rows, and past its last row. */
  lemma RestNextRow(gs: seq<ValueRows>, valueIndex: nat, rowIndex: nat)
    requires Cursor(gs, valueIndex, rowIndex) && valueIndex < |gs|
    ensures Rest(gs, valueIndex, rowIndex) == [CellAt(gs, valueIndex, rowIndex)] + Rest(gs, valueIndex, rowIndex + 1)
  {
    var cells := GroupCells(gs[valueIndex]);
    assert cells[rowIndex] == CellAt(gs, valueIndex, rowIndex);
    hide GroupCells, Cells;
    Collections.DropHead(cells, rowIndex, Cells(gs[valueIndex + 1..]));
  }

  lemma RestNextValue(gs: seq<ValueRows>, valueIndex: nat)
    requires valueIndex < |gs|
    ensures Rest(gs, valueIndex, |gs[valueIndex].rows|) == Rest(gs, valueIndex + 1, 0)
  {
    var next := valueIndex + 1;
    if next < |gs| {
      assert gs[next..][1..] == gs[next + 1..];
      assert GroupCells(gs[next])[0..] == GroupCells(gs[next]);
    }
  }

  lemma RestEnd(gs: seq<ValueRows>, rowIndex: nat)
    ensures Rest(gs, |gs|, rowIndex) == []
  {
  }

  lemma CursorStart(gs: seq<ValueRows>)
    requires WellGrouped(gs)
    ensures Cursor(gs, 0, 0)
  {
  }

  lemma RestOfAll(gs: seq<ValueRows>)
    ensures Rest(gs, 0, 0) == Cells(gs)
  {
    if gs != [] {
      assert GroupCells(gs[0])[0..] == GroupCells(gs[0]);
    }
  }

  lemma {:induction false} CellsSnoc(gs: seq<ValueRows>, g: ValueRows)
    ensures Cells(gs + [g]) == Cells(gs) + GroupCells(g)
    decreases |gs|
  {
    hide GroupCells;
    if gs == [] {
      assert gs + [g] == [g] && [g][1..] == [];
      assert Cells([g]) == GroupCells(g) + Cells([]);
    } else {
      assert (gs + [g])[1..] == gs[1..] + [g];
      CellsSnoc(gs[1..], g);
      Collections.Assoc(GroupCells(gs[0]), Cells(gs[1..]), GroupCells(g));
    }
  }

  lemma {:induction false} CellsConcat(a: seq<ValueRows>, b: seq<ValueRows>)
    ensures Cells(a + b) == Cells(a) + Cells(b)
    decreases |b|
  {
    hide GroupCells;
    if b == [] {
      assert a + b == a && Cells(b) == [];
    } else {
      var n := |b| - 1;
      CellsConcat(a, b[..n]);
      assert a + b == (a + b[..n]) + [b[n]] && b == b[..n] + [b[n]];
      CellsSnoc(a + b[..n], b[n]);
      CellsSnoc(b[..n], b[n]);
      Collections.Assoc(Cells(a), Cells(b[..n]), GroupCells(b[n]));
    }
  }

  /** The cells from a position on are the end of all cells. */
  lemma {:induction false} RestIsEnd(gs: seq<ValueRows>, valueIndex: nat, rowIndex: nat)
    requires valueIndex < |gs| && rowIndex <= |gs[valueIndex].rows|
    ensures var n := |Cells(gs)| - |Rest(gs, valueIndex, rowIndex)|;
            n >= 0 && Cells(gs)[n..] == Rest(gs, valueIndex, rowIndex)
    decreases valueIndex
  {
    hide GroupCells;
    if valueIndex == 0 {
      var cells := GroupCells(gs[0]);
      assert Cells(gs)[rowIndex..] == cells[rowIndex..] + Cells(gs[1..]);
    } else {
      RestIsEnd(gs[1..], valueIndex - 1, rowIndex);
      assert gs[1..][valueIndex..] == gs[valueIndex + 1..];
    }
  }
}
