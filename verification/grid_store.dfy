/** The grid store: a `rows` x `cols` matrix of cells and the five actions that
    replace it. Each action is a pure map from the old state to the new one; the
    undo/redo wrapper around the store is not part of this model. */
module GridStore {
  import opened Options
  import opened GridTypes
  import opened GridUtils

  const DefaultRows: nat := 5
  const DefaultCols: nat := 5

  datatype GridState = GridState(cells: Grid, rows: nat, cols: nat)

  /** The store's invariant: the matrix has the recorded dimensions and every
      cell's id names its own coordinates. */
  predicate Valid(s: GridState) {
    HasShape(s.cells, s.rows, s.cols) && IdsMatchCoordinates(s.cells)
  }

  function Initial(): (s: GridState)
    ensures Valid(s) && s.rows == DefaultRows && s.cols == DefaultCols
    ensures forall r, c :: 0 <= r < s.rows && 0 <= c < s.cols ==> IsBlankCell(s.cells[r][c])
  {
    GridState(EmptyGrid(DefaultRows, DefaultCols), DefaultRows, DefaultCols)
  }

  predicate SameShape(a: Grid, b: Grid) {
    |a| == |b| && forall i :: 0 <= i < |a| ==> |a[i]| == |b[i]|
  }

  /** `cells.map((row, r) => row.map((cell, c) => r === p.row && c === p.col ? f(cell) : cell))`. */
  function MapAt(cells: Grid, p: Position, f: Cell -> Cell): (r: Grid)
    ensures SameShape(r, cells)
    ensures forall i, j :: 0 <= i < |r| && 0 <= j < |r[i]| && Position(i, j) != p ==> r[i][j] == cells[i][j]
    ensures InRange(cells, p) ==> r[p.row][p.col] == f(cells[p.row][p.col])
    ensures !InRange(cells, p) ==> r == cells
  {
    var r := seq(|cells|, i requires 0 <= i < |cells| =>
      seq(|cells[i]|, j requires 0 <= j < |cells[i]| =>
        if i == p.row && j == p.col then f(cells[i][j]) else cells[i][j]));
    assert !InRange(cells, p) ==> forall i :: 0 <= i < |cells| ==> r[i] == cells[i];
    r
  }

  /** `setCell`: only the target's word changes; its id and probabilities stay. */
  function SetCell(s: GridState, p: Position, word: string): (t: GridState)
    ensures t.rows == s.rows && t.cols == s.cols && SameShape(t.cells, s.cells)
    ensures Valid(s) ==> Valid(t)
    ensures InRange(s.cells, p) ==>
      && t.cells[p.row][p.col].word == word
      && t.cells[p.row][p.col].id == s.cells[p.row][p.col].id
      && ProbabilitiesOf(t.cells[p.row][p.col]) == ProbabilitiesOf(s.cells[p.row][p.col])
    ensures forall i, j :: 0 <= i < |s.cells| && 0 <= j < |s.cells[i]| && Position(i, j) != p ==>
      t.cells[i][j] == s.cells[i][j]
    ensures !InRange(s.cells, p) ==> t == s
  {
    s.(cells := MapAt(s.cells, p, (cell: Cell) => cell.(word := word)))
  }

  /** `setCellProbabilities`: only the target's three probabilities change. */
  function SetCellProbabilities(s: GridState, p: Position, probs: CellProbabilities): (t: GridState)
    ensures t.rows == s.rows && t.cols == s.cols && SameShape(t.cells, s.cells)
    ensures Valid(s) ==> Valid(t)
    ensures InRange(s.cells, p) ==>
      && ProbabilitiesOf(t.cells[p.row][p.col]) == probs
      && t.cells[p.row][p.col].word == s.cells[p.row][p.col].word
      && t.cells[p.row][p.col].id == s.cells[p.row][p.col].id
    ensures forall i, j :: 0 <= i < |s.cells| && 0 <= j < |s.cells[i]| && Position(i, j) != p ==>
      t.cells[i][j] == s.cells[i][j]
    ensures !InRange(s.cells, p) ==> t == s
  {
    s.(cells := MapAt(s.cells, p, (cell: Cell) => cell.(
      rowProbability := probs.rowProbability,
      colProbability := probs.colProbability,
      combinedProbability := probs.combinedProbability)))
  }

  /** `clearCell`: the target becomes a fresh empty cell named after `p`. */
  function ClearCell(s: GridState, p: Position): (t: GridState)
    ensures t.rows == s.rows && t.cols == s.cols && SameShape(t.cells, s.cells)
    ensures Valid(s) ==> Valid(t)
    ensures InRange(s.cells, p) ==>
      IsBlankCell(t.cells[p.row][p.col]) && t.cells[p.row][p.col].id == CellId(p.row, p.col)
    ensures forall i, j :: 0 <= i < |s.cells| && 0 <= j < |s.cells[i]| && Position(i, j) != p ==>
      t.cells[i][j] == s.cells[i][j]
    ensures !InRange(s.cells, p) ==> t == s
  {
    s.(cells := MapAt(s.cells, p, _ => EmptyCell(p.row, p.col)))
  }

  /** The cell `resizeGrid` puts at `(r, c)`: the old cell re-stamped with its id
      when `(r, c)` lay inside the old dimensions, an empty cell otherwise. */
  function ResizedCell(s: GridState, r: nat, c: nat): Cell
    requires HasShape(s.cells, s.rows, s.cols)
  {
    if r < s.rows && c < s.cols then s.cells[r][c].(id := CellId(r, c)) else EmptyCell(r, c)
  }

  /** `resizeGrid`: the overlap with the old grid keeps word and probabilities,
      everything else is empty, and the dimensions become `rows` x `cols`. */
  function ResizeGrid(s: GridState, rows: nat, cols: nat): (t: GridState)
    requires HasShape(s.cells, s.rows, s.cols)
    ensures Valid(t) && t.rows == rows && t.cols == cols
    ensures forall r, c :: 0 <= r < rows && 0 <= c < cols && r < s.rows && c < s.cols ==>
      t.cells[r][c].word == s.cells[r][c].word && ProbabilitiesOf(t.cells[r][c]) == ProbabilitiesOf(s.cells[r][c])
    ensures forall r, c :: 0 <= r < rows && 0 <= c < cols && !(r < s.rows && c < s.cols) ==>
      IsBlankCell(t.cells[r][c])
  {
    GridState(
      seq(rows, r requires 0 <= r < rows => seq(cols, c requires 0 <= c < cols => ResizedCell(s, r, c))),
      rows, cols)
  }

  /** `clearGrid`: every cell empty, dimensions kept. */
  function ClearGrid(s: GridState): (t: GridState)
    ensures Valid(t) && t.rows == s.rows && t.cols == s.cols
    ensures forall r, c :: 0 <= r < t.rows && 0 <= c < t.cols ==> IsBlankCell(t.cells[r][c])
  {
    s.(cells := EmptyGrid(s.rows, s.cols))
  }

  /** Resizing twice keeps a cell's content exactly when the cell lies inside
      all three sets of dimensions: content a shrink dropped does not come back. */
  lemma ResizeTwice(s: GridState, r1: nat, c1: nat, r2: nat, c2: nat, r: nat, c: nat)
    requires HasShape(s.cells, s.rows, s.cols)
    requires r < r2 && c < c2
    ensures var t := ResizeGrid(ResizeGrid(s, r1, c1), r2, c2);
      if r < s.rows && c < s.cols && r < r1 && c < c1
      then t.cells[r][c].word == s.cells[r][c].word && ProbabilitiesOf(t.cells[r][c]) == ProbabilitiesOf(s.cells[r][c])
      else IsBlankCell(t.cells[r][c])
  {
  }

  /** A 3x3 grid with "end" at (2,2), shrunk to 2x2 and grown back to 3x3, has
      lost "end" and kept the top-left 2x2 block. */
  lemma ShrinkThenGrowLosesCorner(s: GridState)
    requires HasShape(s.cells, 3, 3) && s.rows == 3 && s.cols == 3
    requires s.cells[2][2].word == "end"
    ensures var t := ResizeGrid(ResizeGrid(s, 2, 2), 3, 3);
      && t.cells[2][2].word == ""
      && forall r, c :: 0 <= r < 2 && 0 <= c < 2 ==> t.cells[r][c].word == s.cells[r][c].word
  {
    ResizeTwice(s, 2, 2, 3, 3, 2, 2);
    forall r, c | 0 <= r < 2 && 0 <= c < 2
      ensures ResizeGrid(ResizeGrid(s, 2, 2), 3, 3).cells[r][c].word == s.cells[r][c].word
    {
      ResizeTwice(s, 2, 2, 3, 3, r, c);
    }
  }
}
