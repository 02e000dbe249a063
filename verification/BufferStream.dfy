/** Saving a column buffer in chunks and loading it back. */
module BufferStream {
  import Collections
  import opened ColumnBuffer
  import opened ValueGroups

  const BUFFER_CHUNK_SIZE: nat := 500

  function Min(a: nat, b: nat): nat {
    if a < b then a else b
  }

  /** GetRows' inner loop: rows of one group until the limit. */
  method TakeRows(g: ValueRows, from: nat, limit: nat) returns (rows: seq<int>)
    requires from <= |g.rows|
    ensures |rows| == Min(limit, |g.rows| - from) && rows == g.rows[from..from + |rows|]
  {
    rows := [];
    while from + |rows| < |g.rows| && |rows| < limit
      invariant from + |rows| <= |g.rows| && |rows| <= limit && rows == g.rows[from..from + |rows|]
      decreases limit - |rows|
    {
      rows := rows + [g.rows[from + |rows|]];
    }
  }

  lemma TakenCells(gs: seq<ValueRows>, v: nat, from: nat, n: nat)
    requires v < |gs| && from + n <= |gs[v].rows|
    ensures GroupCells(ValueRows(gs[v].value, gs[v].rows[from..from + n])) + Rest(gs, v, from + n) == Rest(gs, v, from)
  {
    var cells := GroupCells(gs[v]);
    assert GroupCells(ValueRows(gs[v].value, gs[v].rows[from..from + n])) == cells[from..from + n];
    hide GroupCells, Cells;
    var more := Cells(gs[v + 1..]);
    assert cells[from..] == cells[from..from + n] + cells[from + n..];
    Collections.Assoc(cells[from..from + n], cells[from + n..], more);
  }

  /** The rows taken so far, in groups no larger than the limit, and the position reached. */
  ghost predicate Taking(gs: seq<ValueRows>, all: seq<Cell>, limit: nat, out: seq<ValueRows>, num: nat, v: nat, from: nat) {
    && v <= |gs| && (v < |gs| ==> from <= |gs[v].rows|)
    && all == Cells(out) + Rest(gs, v, from) && num == |Cells(out)| <= limit
    && WellGrouped(out) && forall i :: 0 <= i < |out| ==> |out[i].rows| <= limit
  }

  function AddGroup(out: seq<ValueRows>, value: int, rows: seq<int>): seq<ValueRows> {
    if rows == [] then out else out + [ValueRows(value, rows)]
  }

  /** Taking rows of the current group: all that are left of it unless the limit is met. */
  lemma TakeGroup(gs: seq<ValueRows>, all: seq<Cell>, limit: nat, out: seq<ValueRows>, num: nat, v: nat, from: nat, rows: seq<int>)
    requires Taking(gs, all, limit, out, num, v, from) && v < |gs|
    requires |rows| == Min(limit - num, |gs[v].rows| - from) && rows == gs[v].rows[from..from + |rows|]
    ensures var out' := AddGroup(out, gs[v].value, rows);
            && Taking(gs, all, limit, out', num + |rows|, v, from + |rows|)
            && (num + |rows| < limit ==> Taking(gs, all, limit, out', num + |rows|, v + 1, 0))
  {
    hide Rest, Cells, GroupCells;
    var g := ValueRows(gs[v].value, rows);
    CellsSnoc(out, g);
    TakenCells(gs, v, from, |rows|);
    RestNextValue(gs, v);
    Collections.Assoc(Cells(out), GroupCells(g), Rest(gs, v, from + |rows|));
  }

  lemma NothingTaken(gs: seq<ValueRows>, limit: nat, v: nat, from: nat)
    requires v <= |gs| && (v < |gs| ==> from <= |gs[v].rows|)
    ensures Taking(gs, Rest(gs, v, from), limit, [], 0, v, from)
  {
  }

  lemma Taken(gs: seq<ValueRows>, all: seq<Cell>, limit: nat, out: seq<ValueRows>, num: nat, v: nat, from: nat)
    requires Taking(gs, all, limit, out, num, v, from) && (v == |gs| || num == limit)
    ensures Cells(out) == all[..Min(limit, |all|)] && (num == limit <==> limit <= |all|)
    ensures WellGrouped(out) && forall i :: 0 <= i < |out| ==> |out[i].rows| <= limit
  {
    if v == |gs| {
      RestEnd(gs, from);
    }
    hide Rest, Cells;
  }

  /** The ascending GetRows without an upper bound, from a position on. */
  method RowsFrom(gs: seq<ValueRows>, first: nat, start: nat, limit: nat) returns (out: seq<ValueRows>, limited: bool)
    requires first <= |gs| && (first < |gs| ==> start <= |gs[first].rows|) && limit > 0
    ensures var all := Rest(gs, first, start);
            Cells(out) == all[..Min(limit, |all|)] && limited == (limit <= |all|)
    ensures WellGrouped(out) && forall i :: 0 <= i < |out| ==> |out[i].rows| <= limit
  {
    hide Rest, GroupCells, Cells, Taking, WellGrouped;
    ghost var all := Rest(gs, first, start);
    out, limited := [], false;
    var v: nat, from: nat, num: nat := first, start, 0;
    NothingTaken(gs, limit, first, start);
    while v < |gs| && !limited
      invariant v <= |gs| && (v < |gs| ==> from <= |gs[v].rows|) && num <= limit && limited == (num == limit)
      invariant Taking(gs, all, limit, out, num, v, from)
      decreases |gs| - v, !limited
    {
      var rows := TakeRows(gs[v], from, limit - num);
      TakeGroup(gs, all, limit, out, num, v, from, rows);
      out := AddGroup(out, gs[v].value, rows);
      num := num + |rows|;
      limited := num == limit;
      if limited {
        from := from + |rows|;
      } else {
        v, from := v + 1, 0;
      }
    }
    Taken(gs, all, limit, out, num, v, from);
  }

  // --- Saving ---

  /** The position just after a cell: the group of its value, found first, and the row in it. */
  method FindAfter(gs: seq<ValueRows>, c: Cell) returns (v: nat, r: nat)
    requires exists i, j :: 0 <= i < |gs| && 0 <= j < |gs[i].rows| && c == CellAt(gs, i, j)
    requires forall i, j :: 0 <= i < j < |gs| ==> gs[i].value != gs[j].value
    ensures v < |gs| && 0 < r <= |gs[v].rows| && c == CellAt(gs, v, r - 1)
  {
    v := 0;
    while v < |gs| && gs[v].value != c.value
      invariant v <= |gs| && forall i :: 0 <= i < v ==> gs[i].value != c.value
    {
      v := v + 1;
    }
    r := 0;
    while r < |gs[v].rows| && gs[v].rows[r] != c.row
      invariant r <= |gs[v].rows| && forall j :: 0 <= j < r ==> gs[v].rows[j] != c.row
    {
      r := r + 1;
    }
    r := r + 1;
  }

  /** What the buffer iterates over: groups by ascending value, rows ascending in each. */
  ghost predicate Ordered(gs: seq<ValueRows>) {
    && WellGrouped(gs) && Sorted(Cells(gs))
    && forall i, j :: 0 <= i < j < |gs| ==> gs[i].value != gs[j].value
  }

  lemma {:induction false} CellPosition(gs: seq<ValueRows>, k: nat) returns (v: nat, r: nat)
    requires k < |Cells(gs)|
    ensures v < |gs| && r < |gs[v].rows| && Cells(gs)[k] == CellAt(gs, v, r)
    decreases |gs|
  {
    var here := GroupCells(gs[0]);
    if k < |here| {
      v, r := 0, k;
    } else {
      v, r := CellPosition(gs[1..], k - |here|);
      v := v + 1;
    }
  }

  /** Continuing after the k-th cell gives the cells from k + 1 on. */
  lemma AfterCell(gs: seq<ValueRows>, k: nat, v: nat, r: nat)
    requires Ordered(gs) && k < |Cells(gs)| && v < |gs| && 0 < r <= |gs[v].rows| && Cells(gs)[k] == CellAt(gs, v, r - 1)
    ensures Rest(gs, v, r) == Cells(gs)[k + 1..]
  {
    hide Rest, Cells, GroupCells;
    var all := Cells(gs);
    RestIsEnd(gs, v, r - 1);
    RestNextRow(gs, v, r - 1);
    var n := |all| - |Rest(gs, v, r - 1)|;
    assert all[n] == all[n..][0] == CellAt(gs, v, r - 1);
    assert n == k by { hide WellGrouped; OnePlace(all, n, k); }
    assert all[n..][1..] == all[k + 1..];
  }

  lemma OnePlace(cs: seq<Cell>, i: nat, j: nat)
    requires Sorted(cs) && i < |cs| && j < |cs| && cs[i] == cs[j]
    ensures i == j
  {
  }

  class BufferSerializer {
    const groups: seq<ValueRows>
    var firstWrite: bool
    var last: Cell
    var file: seq<ValueRows>

    /** The file holds a prefix of the cells, and the cursor is its last cell. */
    ghost predicate Valid()
      reads this
    {
      && Ordered(groups)
      && WellGrouped(file) && (forall i :: 0 <= i < |file| ==> |file[i].rows| <= BUFFER_CHUNK_SIZE)
      && Cells(file) <= Cells(groups)
      && (firstWrite ==> file == [])
      && (Cells(file) != [] ==> !firstWrite && last == Cells(file)[|Cells(file)| - 1])
    }

    constructor (groups: seq<ValueRows>)
      requires Ordered(groups)
      ensures Valid() && firstWrite && file == [] && this.groups == groups
    {
      this.groups := groups;
      firstWrite, last, file := true, Cell(0, 0), [];
    }

    /** The rows of the next chunk: from the start, or after the cursor. */
    method NextRows() returns (rows: seq<ValueRows>, limited: bool)
      requires Valid() && (firstWrite || Cells(file) != [])
      ensures var n, all := |Cells(file)|, Cells(groups);
              Cells(rows) == all[n..n + Min(BUFFER_CHUNK_SIZE, |all| - n)] && limited == (BUFFER_CHUNK_SIZE <= |all| - n)
      ensures WellGrouped(rows) && forall i :: 0 <= i < |rows| ==> |rows[i].rows| <= BUFFER_CHUNK_SIZE
    {
      hide Rest, Cells, GroupCells;
      if firstWrite {
        RestOfAll(groups);
        assert Cells(file) == [] by { NoCells(); }
        rows, limited := RowsFrom(groups, 0, 0, BUFFER_CHUNK_SIZE);
      } else {
        ghost var k := |Cells(file)| - 1;
        assert Cells(groups)[k] == last;
        ghost var i, j := CellPosition(groups, k);
        var v, r := FindAfter(groups, last);
        AfterCell(groups, k, v, r);
        rows, limited := RowsFrom(groups, v, r, BUFFER_CHUNK_SIZE);
      }
    }

    method WriteNextChunk() returns (more: bool)
      requires Valid() && (firstWrite || Cells(file) != [])
      modifies this
      ensures Valid() && !firstWrite
      ensures var n, all := |Cells(old(file))|, Cells(groups);
              && Cells(file) == all[..n + Min(BUFFER_CHUNK_SIZE, |all| - n)]
              && more == (BUFFER_CHUNK_SIZE <= |all| - n)
    {
      hide Cells, GroupCells, Ordered;
      var rows, limited := NextRows();
      firstWrite := false;
      CellsConcat(file, rows);
      if rows != [] {
        var g := rows[|rows| - 1];
        LastCell(rows);
        file := file + rows;
        last := Cell(g.rows[|g.rows| - 1], g.value);
        more := limited;
      } else {
        NoCells();
        more := false;
      }
    }
  }

  lemma NoCells()
    ensures Cells([]) == []
  {
  }

  lemma LastCell(gs: seq<ValueRows>)
    requires WellGrouped(gs) && gs != []
    ensures var g := gs[|gs| - 1];
            Cells(gs) != [] && Cells(gs)[|Cells(gs)| - 1] == Cell(g.rows[|g.rows| - 1], g.value)
  {
    var n := |gs| - 1;
    CellsSnoc(gs[..n], gs[n]);
    assert gs[..n] + [gs[n]] == gs;
  }

  /** Chunks are written until one is not full; then the file holds every cell, once, in
      order. */
  method Save(gs: seq<ValueRows>) returns (file: seq<ValueRows>)
    requires Ordered(gs)
    ensures Cells(file) == Cells(gs)
    ensures WellGrouped(file) && forall i :: 0 <= i < |file| ==> |file[i].rows| <= BUFFER_CHUNK_SIZE
  {
    hide Cells, Ordered, WellGrouped;
    var s := new BufferSerializer(gs);
    var more := true;
    assert Cells([]) == [] by { NoCells(); }
    while more
      invariant s.Valid() && s.groups == gs && fresh(s)
      invariant more ==> s.firstWrite || Cells(s.file) != []
      invariant !more ==> Cells(s.file) == Cells(gs)
      decreases more, |Cells(gs)| - |Cells(s.file)|
    {
      more := s.WriteNextChunk();
    }
    file := s.file;
  }

  // --- Loading ---

  lemma CellsUpTo(gs: seq<ValueRows>, a: nat, b: nat)
    requires a <= b < |gs|
    ensures Cells(gs[a..b + 1]) == Cells(gs[a..b]) + GroupCells(gs[b])
  {
    hide Cells, GroupCells;
    assert gs[a..b + 1] == gs[a..b] + [gs[b]];
    CellsSnoc(gs[a..b], gs[b]);
  }

  class BufferDeserializer {
    const file: seq<ValueRows>
    var pos: nat
    var buffer: Buffer

    constructor (file: seq<ValueRows>, buffer: Buffer)
      ensures this.file == file && pos == 0 && this.buffer == buffer
    {
      this.file := file;
      pos := 0;
      this.buffer := buffer;
    }

    /** The cells of one structure appended to the batch. */
    method ReadGroup(g: ValueRows, includes: seq<Cell>) returns (more: seq<Cell>)
      ensures more == includes + GroupCells(g)
    {
      more := includes;
      for j := 0 to |g.rows|
        invariant more == includes + GroupCells(g)[..j]
      {
        more := more + [Cell(g.rows[j], g.value)];
      }
    }

    /** One batch: whole structures until the chunk size is reached.  A batch stays under
        twice the chunk size when no structure is larger than a chunk. */
    method ReadNextChunk() returns (more: bool, ghost batch: seq<Cell>)
      requires pos <= |file|
      modifies this
      ensures more == (old(pos) < |file|)
      ensures old(pos) <= pos <= |file| && (more ==> old(pos) < pos)
      ensures batch == Cells(file[old(pos)..pos]) && buffer == IncludeAll(old(buffer), batch)
      ensures (forall i :: 0 <= i < |file| ==> |file[i].rows| <= BUFFER_CHUNK_SIZE) ==> |batch| < 2 * BUFFER_CHUNK_SIZE
    {
      hide Cells, GroupCells, IncludeAll;
      batch := [];
      NoCells();
      assert file[pos..pos] == [];
      if pos == |file| {
        IncludeNothing(buffer);
        return false, [];
      }
      var includes := [];
      while |includes| < BUFFER_CHUNK_SIZE && pos < |file|
        invariant old(pos) <= pos <= |file| && buffer == old(buffer)
        invariant pos == old(pos) ==> includes == []
        invariant includes == Cells(file[old(pos)..pos])
        invariant (forall i :: 0 <= i < |file| ==> |file[i].rows| <= BUFFER_CHUNK_SIZE) ==> |includes| < 2 * BUFFER_CHUNK_SIZE
      {
        CellsUpTo(file, old(pos), pos);
        includes := ReadGroup(file[pos], includes);
        pos := pos + 1;
      }
      batch := includes;
      ApplyIncludes(buffer, includes);
      buffer := Apply(buffer, ColumnWrites(includes, []));
      more := true;
    }
  }

  lemma IncludeNothing(b: Buffer)
    ensures IncludeAll(b, []) == b
  {
  }

  lemma ApplyIncludes(b: Buffer, cs: seq<Cell>)
    ensures Apply(b, ColumnWrites(cs, [])) == IncludeAll(b, cs)
  {
    assert ExcludeAll(b, []) == b;
  }

  lemma {:induction false} IncludeAllConcat(b: Buffer, x: seq<Cell>, y: seq<Cell>)
    ensures IncludeAll(b, x + y) == IncludeAll(IncludeAll(b, x), y)
    decreases |y|
  {
    if y == [] {
      assert x + y == x;
    } else {
      var n := |y| - 1;
      assert (x + y)[..|x| + n] == x + y[..n];
      IncludeAllConcat(b, x, y[..n]);
    }
  }

  /** Batches are read until the file ends. */
  method Load(file: seq<ValueRows>, start: Buffer) returns (b: Buffer)
    ensures b == IncludeAll(start, Cells(file))
  {
    hide Cells, IncludeAll;
    var d := new BufferDeserializer(file, start);
    var more := true;
    NoCells();
    IncludeNothing(start);
    assert file[..0] == [];
    while more
      invariant d.file == file && d.pos <= |file| && fresh(d)
      invariant d.buffer == IncludeAll(start, Cells(file[..d.pos]))
      invariant !more ==> d.pos == |file|
      decreases more, |file| - d.pos
    {
      ghost var before := d.pos;
      ghost var batch: seq<Cell>;
      more, batch := d.ReadNextChunk();
      assert file[..d.pos] == file[..before] + file[before..d.pos];
      CellsConcat(file[..before], file[before..d.pos]);
      IncludeAllConcat(start, Cells(file[..before]), batch);
    }
    assert file[..|file|] == file;
    b := d.buffer;
  }

  /** Saving a buffer and loading the file into an empty one gives the same buffer, whichever
      way the groups straddle chunks and batches. */
  method SaveAndLoad(gs: seq<ValueRows>, ghost contents: Buffer) returns (b: Buffer)
    requires Ordered(gs) && ListsCells(Cells(gs), contents)
    ensures b == contents
  {
    hide Cells, Ordered, IncludeAll;
    var file := Save(gs);
    b := Load(file, map[]);
    SameContents(Cells(gs), contents);
  }

  lemma SameContents(cs: seq<Cell>, b: Buffer)
    requires ListsCells(cs, b)
    ensures IncludeAll(map[], cs) == b
  {
    hide IncludeAll;
    var m := IncludeAll(map[], cs);
    forall row ensures Get(m, row) == Get(b, row) {
      IncludeAllMeaning(map[], cs, row);
    }
    forall row ensures (row in m <==> row in b) && (row in m && row in b ==> m[row] == b[row]) {
      assert Get(m, row) == Get(b, row);
    }
    assert m.Keys == b.Keys;
  }
}
