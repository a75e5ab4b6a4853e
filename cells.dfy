/** Grid cells as (row, col) pairs of unbounded integers, and the relations the map generator uses on them. */
module Cells {
  datatype Cell = Cell(row: int, col: int)

  /** `c` moved by `off`, e.g. a local shape cell placed at a global offset. */
  function Shift(c: Cell, off: Cell): Cell
  {
    Cell(c.row + off.row, c.col + off.col)
  }

  /** The four neighbours in the order the generator lists them: up, down, left, right. */
  function Neighbors(c: Cell): seq<Cell>
  {
    [Cell(c.row - 1, c.col), Cell(c.row + 1, c.col), Cell(c.row, c.col - 1), Cell(c.row, c.col + 1)]
  }

  /** 4-adjacency: the cells differ by one in exactly one coordinate. */
  predicate Adjacent(a: Cell, b: Cell)
  {
    (a.row == b.row && (a.col - b.col == 1 || b.col - a.col == 1)) ||
    (a.col == b.col && (a.row - b.row == 1 || b.row - a.row == 1))
  }

  lemma NeighborsAreAdjacent(c: Cell, n: Cell)
    ensures n in Neighbors(c) <==> Adjacent(c, n)
  {
  }

  /** Row-major order, the order of Python's sort on (row, col) tuples. */
  predicate RowMajorLess(a: Cell, b: Cell)
  {
    a.row < b.row || (a.row == b.row && a.col < b.col)
  }

  /** Strictly increasing in row-major order (hence without duplicates). */
  predicate StrictlyRowMajor(s: seq<Cell>)
  {
    forall i, j :: 0 <= i < j < |s| ==> RowMajorLess(s[i], s[j])
  }

  predicate Distinct(s: seq<Cell>)
  {
    forall i, j :: 0 <= i < j < |s| ==> s[i] != s[j]
  }

  lemma StrictlyRowMajorDistinct(s: seq<Cell>)
    requires StrictlyRowMajor(s)
    ensures Distinct(s)
  {
  }

  /**
   * `list(cells)` (or `for c in cells`): the elements of a set in Python's iteration order,
   * which the model leaves unspecified (any order may come out).
   */
  method ListCells(cells: set<Cell>) returns (xs: seq<Cell>)
    ensures |xs| == |cells| && Distinct(xs)
    ensures forall c :: c in xs <==> c in cells
  {
    xs := [];
    var rest := cells;
    while rest != {}
      invariant rest <= cells && |xs| + |rest| == |cells| && Distinct(xs)
      invariant forall c :: c in xs <==> c in cells - rest
      decreases |rest|
    {
      var c :| c in rest;
      assert c !in xs;
      xs := xs + [c];
      rest := rest - {c};
    }
  }
}
