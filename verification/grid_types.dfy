/** The grid's value types: a position, a cell with its three optional
    probabilities, and the words around a position along one axis. */
module GridTypes {
  import opened Options

  /** A cell coordinate; every position the editor builds is non-negative. */
  datatype Position = Position(row: nat, col: nat)

  datatype Cell = Cell(
    id: string,
    word: string,
    rowProbability: Option<real>,
    colProbability: Option<real>,
    combinedProbability: Option<real>)

  /** Rows of cells, outermost index the row. */
  type Grid = seq<seq<Cell>>

  /** The non-blank words strictly before and strictly after a position along one axis. */
  datatype PhraseContext = PhraseContext(before: seq<string>, after: seq<string>)

  /** The three probability fields of a cell, written together. */
  datatype CellProbabilities = CellProbabilities(
    rowProbability: Option<real>,
    colProbability: Option<real>,
    combinedProbability: Option<real>)

  const NoProbabilities := CellProbabilities(None, None, None)

  predicate InRange(cells: Grid, p: Position) {
    p.row < |cells| && p.col < |cells[p.row]|
  }

  /** `cells[r]?.[c]?.word ?? ''`. */
  function WordAt(cells: Grid, p: Position): string {
    if InRange(cells, p) then cells[p.row][p.col].word else ""
  }

  function ProbabilitiesOf(c: Cell): CellProbabilities {
    CellProbabilities(c.rowProbability, c.colProbability, c.combinedProbability)
  }
}
