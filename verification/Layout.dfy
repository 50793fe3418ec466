/**
 Where things stand when rows of text are laid out again: in front of every row come new lines, some rows are gone,
 and behind the last row come new lines once more. This module knows the sizes only.
 */
module Layout {

  /** `width(row)` new lines from index `start(row)` on, then the row itself unless it is `gone`. */
  datatype Grid = Grid(rows: nat, start: nat -> nat, width: nat -> nat, gone: nat -> bool) {
    /** The number of lines laid out. */
    function Total(): nat {
      start(rows) + width(rows)
    }
  }

  ghost predicate Laid(g: Grid) {
    && g.start(0) == 0
    && forall row :: 0 <= row < g.rows ==> g.start(row + 1) == g.start(row) + g.width(row) + if g.gone(row) then 0 else 1
  }

  /** A row, or the new line with this rank among those in front of a row. */
  datatype Cell = OldRow(row: nat) | NewAt(row: nat, rank: nat)

  ghost predicate Fits(g: Grid, c: Cell) {
    if c.OldRow? then c.row < g.rows && !g.gone(c.row) else c.row <= g.rows && c.rank < g.width(c.row)
  }

  ghost function Index(g: Grid, c: Cell): nat {
    if c.OldRow? then g.start(c.row) + g.width(c.row) else g.start(c.row) + c.rank
  }

  ghost predicate Before(c: Cell, d: Cell) {
    || c.row < d.row
    || (c.row == d.row && c.NewAt? && (d.OldRow? || c.rank < d.rank))
  }

  lemma {:induction false} StartsGrow(g: Grid, row: nat, later: nat)
    requires Laid(g) && row < later <= g.rows
    ensures g.start(row) + g.width(row) + (if g.gone(row) then 0 else 1) <= g.start(later)
    decreases later
  {
    if row + 1 < later {
      StartsGrow(g, row, later - 1);
    }
  }

  /** Indices follow the order of the cells. */
  lemma {:induction false} IndicesIncrease(g: Grid, c: Cell, d: Cell)
    requires Laid(g) && Fits(g, c) && Fits(g, d) && Before(c, d)
    ensures Index(g, c) < Index(g, d)
  {
    if c.row < d.row {
      StartsGrow(g, c.row, d.row);
    }
  }

  lemma {:induction false} OrderOfIndices(g: Grid, c: Cell, d: Cell)
    requires Laid(g) && Fits(g, c) && Fits(g, d)
    ensures Index(g, c) < Index(g, d) <==> Before(c, d)
    ensures Index(g, c) == Index(g, d) <==> c == d
  {
    if Before(c, d) {
      IndicesIncrease(g, c, d);
    } else if Before(d, c) {
      IndicesIncrease(g, d, c);
    }
  }

  /** Every index before `start(row)` belongs to a cell. */
  lemma {:induction false} CellBefore(g: Grid, i: nat, row: nat) returns (c: Cell)
    requires Laid(g) && row <= g.rows && i < g.start(row)
    ensures Fits(g, c) && Index(g, c) == i
    decreases row
  {
    var r := row - 1;
    if i < g.start(r) {
      c := CellBefore(g, i, r);
    } else if i < g.start(r) + g.width(r) {
      c := NewAt(r, i - g.start(r));
    } else {
      c := OldRow(r);
    }
  }

  lemma {:induction false} CellAt(g: Grid, i: nat) returns (c: Cell)
    requires Laid(g) && i < g.Total()
    ensures Fits(g, c) && Index(g, c) == i
  {
    if i < g.start(g.rows) {
      c := CellBefore(g, i, g.rows);
    } else {
      c := NewAt(g.rows, i - g.start(g.rows));
    }
  }

  lemma {:induction false} CellInside(g: Grid, c: Cell)
    requires Laid(g) && Fits(g, c)
    ensures Index(g, c) < g.Total()
  {
    if c.row < g.rows {
      StartsGrow(g, c.row, g.rows);
    }
  }

  // ----- a list of cells that holds every new line -----

  ghost predicate Ordered(g: Grid, cells: seq<Cell>) {
    && (forall j :: 0 <= j < |cells| ==> Fits(g, cells[j]))
    && (forall i, j :: 0 <= i < j < |cells| ==> Before(cells[i], cells[j]))
  }

  ghost predicate HoldsNew(g: Grid, cells: seq<Cell>) {
    forall row: nat, rank: nat :: row <= g.rows && rank < g.width(row) ==> NewAt(row, rank) in cells
  }

  ghost function Indices(g: Grid, cells: seq<Cell>): (pos: seq<nat>)
    ensures |pos| == |cells| && forall j :: 0 <= j < |pos| ==> pos[j] == Index(g, cells[j])
  {
    seq(|cells|, j requires 0 <= j < |cells| => Index(g, cells[j]))
  }

  lemma {:induction false} IndicesOrdered(g: Grid, cells: seq<Cell>, i: nat, j: nat)
    requires Laid(g) && Ordered(g, cells) && i < j < |cells|
    ensures Indices(g, cells)[i] < Indices(g, cells)[j] < g.Total()
  {
    IndicesIncrease(g, cells[i], cells[j]);
    CellInside(g, cells[j]);
  }

  /** An index that no cell of the list has belongs to a row outside it. */
  lemma {:induction false} RowOutside(g: Grid, cells: seq<Cell>, i: nat) returns (row: nat)
    requires Laid(g) && HoldsNew(g, cells) && i < g.Total() && i !in Indices(g, cells)
    ensures Fits(g, OldRow(row)) && Index(g, OldRow(row)) == i && OldRow(row) !in cells
  {
    var c := CellAt(g, i);
    assert c !in cells;
    row := c.row;
  }

  /** A row outside the list has an index that no cell of the list has. */
  lemma {:induction false} IndexOutside(g: Grid, cells: seq<Cell>, row: nat)
    requires Laid(g) && Ordered(g, cells) && Fits(g, OldRow(row)) && OldRow(row) !in cells
    ensures Index(g, OldRow(row)) !in Indices(g, cells)
  {
    if Index(g, OldRow(row)) in Indices(g, cells) {
      var j :| 0 <= j < |cells| && Indices(g, cells)[j] == Index(g, OldRow(row));
      OrderOfIndices(g, cells[j], OldRow(row));
    }
  }
}
