/** Empty cells and empty grids. The source defines these twice, with loops in
    the utilities file and with `Array.from` in the grid store; `CreateEmptyGrid`
    models the first, `EmptyGrid` the second, and the two are proved equal. */
module GridUtils {
  import opened Text
  import opened Options
  import opened GridTypes

  /** The id a cell carries: its coordinates as `"row-col"`. */
  function CellId(row: nat, col: nat): string {
    NatToString(row) + "-" + NatToString(col)
  }

  function EmptyCell(row: nat, col: nat): Cell {
    Cell(CellId(row, col), "", None, None, None)
  }

  /** A cell holding no word and no probability. */
  predicate IsBlankCell(c: Cell) {
    c.word == "" && ProbabilitiesOf(c) == NoProbabilities
  }

  /** `rows` rows of `cols` cells each. */
  predicate HasShape(cells: Grid, rows: nat, cols: nat) {
    |cells| == rows && forall r :: 0 <= r < |cells| ==> |cells[r]| == cols
  }

  /** Every cell carries the id of its own coordinates. */
  predicate IdsMatchCoordinates(cells: Grid) {
    forall r, c :: 0 <= r < |cells| && 0 <= c < |cells[r]| ==> cells[r][c].id == CellId(r, c)
  }

  lemma CellIdInjective(r1: nat, c1: nat, r2: nat, c2: nat)
    requires CellId(r1, c1) == CellId(r2, c2)
    ensures r1 == r2 && c1 == c2
  {
    var a, b := NatToString(r1), NatToString(r2);
    assert '-' !in a && '-' !in b;
    SplitAtSeparator(a, '-', NatToString(c1));
    SplitAtSeparator(b, '-', NatToString(c2));
    assert CellId(r1, c1) == a + ['-'] + NatToString(c1);
    assert CellId(r2, c2) == b + ['-'] + NatToString(c2);
    assert '-' !in NatToString(c1) && '-' !in NatToString(c2);
    SplitNoSeparator(NatToString(c1), '-');
    SplitNoSeparator(NatToString(c2), '-');
    var parts := Split(CellId(r1, c1), '-');
    assert parts == [a, NatToString(c1)] == [b, NatToString(c2)];
    assert parts[0] == a == b && parts[1] == NatToString(c1) == NatToString(c2);
    NatToStringInjective(r1, r2);
    NatToStringInjective(c1, c2);
  }

  /** The grid store's `createEmptyGrid`. */
  function EmptyGrid(rows: nat, cols: nat): (g: Grid)
    ensures HasShape(g, rows, cols) && IdsMatchCoordinates(g)
    ensures forall r, c :: 0 <= r < rows && 0 <= c < cols ==> IsBlankCell(g[r][c])
  {
    seq(rows, r requires 0 <= r < rows => seq(cols, c requires 0 <= c < cols => EmptyCell(r, c)))
  }

  /** The utilities file's `createEmptyGrid`: row by row, cell by cell. */
  method CreateEmptyGrid(rows: nat, cols: nat) returns (grid: Grid)
    ensures HasShape(grid, rows, cols)
    ensures forall r, c :: 0 <= r < rows && 0 <= c < cols ==> grid[r][c] == EmptyCell(r, c)
    ensures grid == EmptyGrid(rows, cols)
  {
    grid := [];
    var row := 0;
    while row < rows
      invariant row <= rows && HasShape(grid, row, cols)
      invariant forall r, c :: 0 <= r < row && 0 <= c < cols ==> grid[r][c] == EmptyCell(r, c)
    {
      var rowCells: seq<Cell> := [];
      var col := 0;
      while col < cols
        invariant col <= cols && |rowCells| == col
        invariant forall c :: 0 <= c < col ==> rowCells[c] == EmptyCell(row, c)
      {
        rowCells := rowCells + [EmptyCell(row, col)];
        col := col + 1;
      }
      grid := grid + [rowCells];
      row := row + 1;
    }
    assert forall r | 0 <= r < rows :: grid[r] == EmptyGrid(rows, cols)[r];
  }

  lemma EmptyGridWithNoRows(cols: nat)
    ensures EmptyGrid(0, cols) == []
  {
  }
}
