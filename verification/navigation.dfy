/** Keyboard navigation of the grid: clamped arrow moves, row-major Tab
    order with wrap-around, committing an edit, and the decision table that
    maps one key press to grid and UI store actions or to an undo/redo
    request. The platform check that picks Cmd or Ctrl is folded into the
    event's `cmdOrCtrl` flag. */
module Navigation {
  import opened Options
  import opened Text
  import opened GridTypes
  import opened GridUtils
  import opened GridStore
  import opened UIStore

  /** `Math.max(0, Math.min(hi, v))`. */
  function Clamp(v: int, hi: int): (r: nat)
    ensures 0 <= v <= hi ==> r == v
    ensures v < 0 ==> r == 0
    ensures 0 <= hi < v ==> r == hi
    ensures r <= if hi < 0 then 0 else hi
  {
    if hi < v then (if hi < 0 then 0 else hi) else if v < 0 then 0 else v
  }

  predicate InGrid(p: Position, rows: nat, cols: nat) {
    p.row < rows && p.col < cols
  }

  /** The selection is absent or names a cell of a `rows` x `cols` grid. */
  predicate SelectionInGrid(u: UIState, rows: nat, cols: nat) {
    u.selected.Some? ==> InGrid(u.selected.value, rows, cols)
  }

  /** `moveSelection(deltaRow, deltaCol)`: with no selection, the first cell;
      otherwise the clamped target, selected only when it differs from the current cell. */
  function MoveSelection(u: UIState, rows: nat, cols: nat, dr: int, dc: int): (v: UIState)
    ensures u.selected.None? ==> v.selected == Some(Position(0, 0)) && !v.isEditing
    ensures u.selected.Some? && 0 <= u.selected.value.row + dr < rows && 0 <= u.selected.value.col + dc < cols ==>
      v.selected == Some(Position(u.selected.value.row + dr, u.selected.value.col + dc))
    ensures v == u || (v.selected != u.selected && !v.isEditing && v.editValue == "")
    ensures rows > 0 && cols > 0 ==> SelectionInGrid(v, rows, cols)
    ensures u.selected.Some? && rows > 0 && cols > 0 ==>
      var p := u.selected.value;
      var t := Position(Clamp(p.row + dr, rows - 1), Clamp(p.col + dc, cols - 1));
      v.selected == Some(t) && (t == p ==> v == u)
    ensures v.mode == u.mode && v.apiKey == u.apiKey
  {
    match u.selected
    case None => SelectCell(u, Position(0, 0))
    case Some(p) =>
      var target := Position(Clamp(p.row + dr, rows - 1), Clamp(p.col + dc, cols - 1));
      if target != p then SelectCell(u, target) else u
  }

  /** The row-major successor used by `moveToNextCell`. */
  function NextPosition(p: Position, rows: nat, cols: nat): Position {
    if p.col + 1 >= cols then Position(if p.row + 1 >= rows then 0 else p.row + 1, 0)
    else Position(p.row, p.col + 1)
  }

  /** The row-major predecessor used by `moveToPreviousCell`. */
  function PrevPosition(p: Position, rows: nat, cols: nat): Position
    requires rows > 0 && cols > 0
  {
    if p.col == 0 then Position(if p.row == 0 then rows - 1 else p.row - 1, cols - 1)
    else Position(p.row, p.col - 1)
  }

  /** `moveToNextCell`: the successor of the selection, or the first cell when nothing is selected. */
  function MoveToNextCell(u: UIState, rows: nat, cols: nat): (v: UIState)
    ensures u.selected.None? ==> v.selected == Some(Position(0, 0))
    ensures u.selected.Some? ==> v.selected == Some(NextPosition(u.selected.value, rows, cols))
    ensures !v.isEditing && v.editValue == "" && UIStore.Valid(v)
    ensures v.mode == u.mode && v.apiKey == u.apiKey
    ensures rows > 0 && cols > 0 && SelectionInGrid(u, rows, cols) ==> SelectionInGrid(v, rows, cols)
  {
    SelectCell(u, if u.selected.None? then Position(0, 0) else NextPosition(u.selected.value, rows, cols))
  }

  /** `moveToPreviousCell`: the predecessor of the selection, or the last cell when nothing is selected. */
  function MoveToPreviousCell(u: UIState, rows: nat, cols: nat): (v: UIState)
    requires rows > 0 && cols > 0
    ensures u.selected.None? ==> v.selected == Some(Position(rows - 1, cols - 1))
    ensures u.selected.Some? ==> v.selected == Some(PrevPosition(u.selected.value, rows, cols))
    ensures !v.isEditing && v.editValue == "" && UIStore.Valid(v)
    ensures v.mode == u.mode && v.apiKey == u.apiKey
    ensures SelectionInGrid(u, rows, cols) ==> SelectionInGrid(v, rows, cols)
  {
    SelectCell(u, if u.selected.None? then Position(rows - 1, cols - 1) else PrevPosition(u.selected.value, rows, cols))
  }

  /** A cell's place in row-major order. */
  function Index(p: Position, cols: nat): nat {
    p.row * cols + p.col
  }

  lemma MulMonotone(a: nat, b: nat, c: nat)
    requires a <= b
    ensures a * c <= b * c
  {
    assert b * c == a * c + (b - a) * c;
  }

  /** Inside the grid, the row-major index is below `rows * cols`. */
  lemma IndexInGrid(p: Position, rows: nat, cols: nat)
    requires InGrid(p, rows, cols)
    ensures Index(p, cols) < rows * cols
  {
    MulMonotone(p.row + 1, rows, cols);
  }

  /** Inside the grid, distinct cells have distinct indices. */
  lemma IndexInjective(p: Position, q: Position, cols: nat)
    requires p.col < cols && q.col < cols
    requires Index(p, cols) == Index(q, cols)
    ensures p == q
  {
    if p.row < q.row {
      MulMonotone(p.row + 1, q.row, cols);
      assert false;
    } else if q.row < p.row {
      MulMonotone(q.row + 1, p.row, cols);
      assert false;
    }
  }

  /** Tab order: the next cell of an in-grid cell is the one whose index is one
      more, and the last cell wraps to the first. */
  lemma NextIsSuccessor(p: Position, rows: nat, cols: nat)
    requires InGrid(p, rows, cols)
    ensures InGrid(NextPosition(p, rows, cols), rows, cols)
    ensures Index(NextPosition(p, rows, cols), cols) ==
      if Index(p, cols) + 1 == rows * cols then 0 else Index(p, cols) + 1
  {
    var n := NextPosition(p, rows, cols);
    IndexInGrid(p, rows, cols);
    if p.col + 1 < cols {
      assert Index(n, cols) == Index(p, cols) + 1;
      IndexInGrid(n, rows, cols);
    } else if p.row + 1 < rows {
      Distribute(p.row, cols);
      IndexInGrid(n, rows, cols);
    } else {
      Distribute(p.row, cols);
    }
  }

  lemma Distribute(a: nat, c: nat)
    ensures (a + 1) * c == a * c + c
  {
  }

  /** Shift+Tab order: the previous cell has the index one less, and the first cell wraps to the last. */
  lemma PrevIsPredecessor(p: Position, rows: nat, cols: nat)
    requires InGrid(p, rows, cols)
    ensures InGrid(PrevPosition(p, rows, cols), rows, cols)
    ensures Index(PrevPosition(p, rows, cols), cols) ==
      if Index(p, cols) == 0 then rows * cols - 1 else Index(p, cols) - 1
  {
    if p.col == 0 && p.row > 0 {
      Distribute(p.row - 1, cols);
    } else if p.col == 0 {
      Distribute(rows - 1, cols);
    }
  }

  /** Tab and Shift+Tab undo each other on every cell of the grid. */
  lemma NextPrevInverse(p: Position, rows: nat, cols: nat)
    requires InGrid(p, rows, cols)
    ensures PrevPosition(NextPosition(p, rows, cols), rows, cols) == p
    ensures NextPosition(PrevPosition(p, rows, cols), rows, cols) == p
  {
  }

  /** `confirmEdit`: with a selection, the trimmed edit value is written to the
      selected cell and editing stops; with none, nothing happens. */
  function ConfirmEdit(g: GridState, u: UIState): (r: (GridState, UIState))
    ensures u.selected.None? ==> r == (g, u)
    ensures SameShape(r.0.cells, g.cells) && r.0.rows == g.rows && r.0.cols == g.cols
    ensures u.selected.Some? && InRange(g.cells, u.selected.value) ==>
      r.0.cells[u.selected.value.row][u.selected.value.col].word == Trim(u.editValue)
    ensures forall i, j :: 0 <= i < |g.cells| && 0 <= j < |g.cells[i]| && Some(Position(i, j)) != u.selected ==>
      r.0.cells[i][j] == g.cells[i][j]
    ensures GridStore.Valid(g) ==> GridStore.Valid(r.0)
    ensures u.selected.Some? ==> !r.1.isEditing && r.1.editValue == "" && r.1.selected == u.selected
    ensures r.1.mode == u.mode && r.1.apiKey == u.apiKey
    ensures UIStore.Valid(u) ==> UIStore.Valid(r.1)
  {
    match u.selected
    case None => (g, u)
    case Some(p) => (SetCell(g, p, Trim(u.editValue)), StopEditing(u))
  }

  datatype KeyEvent = KeyEvent(key: string, cmdOrCtrl: bool, shift: bool, alt: bool)

  /** What a key press asks of the grid store's history. */
  datatype HistoryRequest = NoHistory | Undo | Redo

  datatype Outcome = Outcome(grid: GridState, ui: UIState, history: HistoryRequest)

  predicate IsUndoRedo(e: KeyEvent) {
    e.cmdOrCtrl && (e.key == "z" || e.key == "y")
  }

  /** A key press while an edit is open: Enter and Tab commit and move, Escape cancels. */
  function EditingKey(g: GridState, u: UIState, e: KeyEvent): (o: Outcome)
    requires g.rows > 0 && g.cols > 0
    ensures o.history == NoHistory
    ensures o.grid.rows == g.rows && o.grid.cols == g.cols && SameShape(o.grid.cells, g.cells)
    ensures GridStore.Valid(g) ==> GridStore.Valid(o.grid)
    ensures o.grid != g ==> e.key in {"Enter", "Tab"}
    ensures UIStore.Valid(u) ==> UIStore.Valid(o.ui)
    ensures o.ui.mode == u.mode && o.ui.apiKey == u.apiKey
    ensures SelectionInGrid(u, g.rows, g.cols) ==> SelectionInGrid(o.ui, g.rows, g.cols)
  {
    if e.key == "Enter" then
      var c := ConfirmEdit(g, u);
      Outcome(c.0, MoveToNextCell(c.1, g.rows, g.cols), NoHistory)
    else if e.key == "Escape" then Outcome(g, StopEditing(u), NoHistory)
    else if e.key == "Tab" then
      var c := ConfirmEdit(g, u);
      var moved := if e.shift then MoveToPreviousCell(c.1, g.rows, g.cols) else MoveToNextCell(c.1, g.rows, g.cols);
      Outcome(c.0, moved, NoHistory)
    else Outcome(g, u, NoHistory)
  }

  /** A key press with no edit open. Enter on a selection outside the cells
      throws in the source before any store action, so nothing changes. */
  function BrowsingKey(g: GridState, u: UIState, e: KeyEvent): (o: Outcome)
    requires g.rows > 0 && g.cols > 0
    ensures o.history == NoHistory
    ensures o.grid.rows == g.rows && o.grid.cols == g.cols && SameShape(o.grid.cells, g.cells)
    ensures GridStore.Valid(g) ==> GridStore.Valid(o.grid)
    ensures o.grid != g ==> e.key in {"Backspace", "Delete"}
    ensures UIStore.Valid(u) ==> UIStore.Valid(o.ui)
    ensures o.ui.mode == u.mode && o.ui.apiKey == u.apiKey
    ensures SelectionInGrid(u, g.rows, g.cols) ==> SelectionInGrid(o.ui, g.rows, g.cols)
  {
    var ui :=
      if e.key == "ArrowUp" then MoveSelection(u, g.rows, g.cols, -1, 0)
      else if e.key == "ArrowDown" then MoveSelection(u, g.rows, g.cols, 1, 0)
      else if e.key == "ArrowLeft" then MoveSelection(u, g.rows, g.cols, 0, -1)
      else if e.key == "ArrowRight" then MoveSelection(u, g.rows, g.cols, 0, 1)
      else if e.key == "Enter" then
        if u.selected.Some? && InRange(g.cells, u.selected.value) then StartEditing(u, Some(WordAt(g.cells, u.selected.value)), false)
        else u
      else if e.key == "Escape" then ClearSelection(u)
      else if e.key == "Tab" then
        if e.shift then MoveToPreviousCell(u, g.rows, g.cols) else MoveToNextCell(u, g.rows, g.cols)
      else if e.key == "Backspace" || e.key == "Delete" then u
      else if u.selected.Some? && Length(e.key) == 1 && !e.cmdOrCtrl && !e.alt then StartEditing(u, Some(e.key), false)
      else u;
    var grid :=
      if (e.key == "Backspace" || e.key == "Delete") && u.selected.Some? then ClearCell(g, u.selected.value) else g;
    Outcome(grid, ui, NoHistory)
  }

  /** `handleKeyDown`: the undo/redo shortcuts first, whatever the editing
      state, then the editing or the browsing table. */
  function HandleKey(g: GridState, u: UIState, e: KeyEvent): (o: Outcome)
    requires g.rows > 0 && g.cols > 0
    ensures o.history != NoHistory <==> IsUndoRedo(e)
    ensures o.history == Redo <==> e.cmdOrCtrl && ((e.key == "z" && e.shift) || e.key == "y")
    ensures IsUndoRedo(e) ==> o.grid == g && o.ui == u
    ensures o.grid.rows == g.rows && o.grid.cols == g.cols && SameShape(o.grid.cells, g.cells)
    ensures GridStore.Valid(g) ==> GridStore.Valid(o.grid)
    ensures o.grid != g ==> e.key in {"Enter", "Tab", "Backspace", "Delete"}
    ensures UIStore.Valid(u) ==> UIStore.Valid(o.ui)
    ensures o.ui.mode == u.mode && o.ui.apiKey == u.apiKey
    ensures SelectionInGrid(u, g.rows, g.cols) ==> SelectionInGrid(o.ui, g.rows, g.cols)
  {
    if e.cmdOrCtrl && e.key == "z" then Outcome(g, u, if e.shift then Redo else Undo)
    else if e.cmdOrCtrl && e.key == "y" then Outcome(g, u, Redo)
    else
      if u.isEditing then EditingKey(g, u, e) else BrowsingKey(g, u, e)
  }

  /** While editing, keys other than Enter, Escape, Tab and the history shortcuts do nothing. */
  lemma EditingIgnoresOtherKeys(g: GridState, u: UIState, e: KeyEvent)
    requires g.rows > 0 && g.cols > 0
    requires u.isEditing && !IsUndoRedo(e) && e.key !in {"Enter", "Escape", "Tab"}
    ensures HandleKey(g, u, e) == Outcome(g, u, NoHistory)
  {
  }

  /** Enter while editing commits the trimmed value to the selected cell and
      moves on to the next cell in row-major order, closing the edit. */
  lemma EditingEnterCommitsAndAdvances(g: GridState, u: UIState, e: KeyEvent, p: Position)
    requires g.rows > 0 && g.cols > 0
    requires u.isEditing && e.key == "Enter" && u.selected == Some(p) && InRange(g.cells, p)
    ensures var o := HandleKey(g, u, e);
      && o.grid.cells[p.row][p.col].word == Trim(u.editValue)
      && o.ui.selected == Some(NextPosition(p, g.rows, g.cols))
      && !o.ui.isEditing && o.history == NoHistory
  {
  }

  /** Tab while editing commits like Enter; with Shift it moves backwards. */
  lemma EditingTabCommitsAndMoves(g: GridState, u: UIState, e: KeyEvent, p: Position)
    requires g.rows > 0 && g.cols > 0
    requires u.isEditing && e.key == "Tab" && u.selected == Some(p) && InRange(g.cells, p)
    ensures var o := HandleKey(g, u, e);
      && o.grid.cells[p.row][p.col].word == Trim(u.editValue)
      && o.ui.selected == Some(if e.shift then PrevPosition(p, g.rows, g.cols) else NextPosition(p, g.rows, g.cols))
      && !o.ui.isEditing
  {
  }

  /** Escape while editing drops the edit: the grid is untouched and the selection stays. */
  lemma EditingEscapeDiscards(g: GridState, u: UIState, e: KeyEvent)
    requires g.rows > 0 && g.cols > 0
    requires u.isEditing && e.key == "Escape"
    ensures var o := HandleKey(g, u, e);
      o.grid == g && o.ui.selected == u.selected && !o.ui.isEditing && o.ui.editValue == ""
  {
  }

  /** With no edit open, an edit starts only on Enter or on a printable key
      with a selection, and it starts with the cell's word or with that key. */
  lemma BrowsingStartsEditing(g: GridState, u: UIState, e: KeyEvent)
    requires g.rows > 0 && g.cols > 0
    requires !u.isEditing
    ensures var o := HandleKey(g, u, e);
      o.ui.isEditing <==>
        !IsUndoRedo(e) && u.selected.Some? &&
        ((e.key == "Enter" && InRange(g.cells, u.selected.value)) ||
         (Length(e.key) == 1 && !e.cmdOrCtrl && !e.alt))
    ensures var o := HandleKey(g, u, e);
      o.ui.isEditing ==>
        && o.ui.selected == u.selected && !o.ui.selectOnFocus
        && o.ui.editValue == (if e.key == "Enter" then WordAt(g.cells, u.selected.value) else e.key)
  {
  }

  /** Backspace or Delete with no edit open empties the selected cell and nothing else. */
  lemma BrowsingDeleteClearsCell(g: GridState, u: UIState, e: KeyEvent, p: Position)
    requires g.rows > 0 && g.cols > 0
    requires !u.isEditing && e.key in {"Backspace", "Delete"} && u.selected == Some(p) && InRange(g.cells, p)
    ensures var o := HandleKey(g, u, e);
      && IsBlankCell(o.grid.cells[p.row][p.col])
      && (forall i, j :: 0 <= i < |g.cells| && 0 <= j < |g.cells[i]| && Position(i, j) != p ==> o.grid.cells[i][j] == g.cells[i][j])
      && o.ui == u
  {
  }

  /** With no edit open, the arrow keys move the selection by one cell in
      their direction, clamped to the grid, and Tab steps through the cells in
      row-major order (backwards with Shift); none of them touches the grid. */
  lemma BrowsingMoves(g: GridState, u: UIState, e: KeyEvent)
    requires g.rows > 0 && g.cols > 0
    requires !u.isEditing
    ensures var o := HandleKey(g, u, e);
      e.key in {"ArrowUp", "ArrowDown", "ArrowLeft", "ArrowRight", "Tab"} ==> o.grid == g && o.history == NoHistory
    ensures e.key == "ArrowUp" ==> HandleKey(g, u, e).ui == MoveSelection(u, g.rows, g.cols, -1, 0)
    ensures e.key == "ArrowDown" ==> HandleKey(g, u, e).ui == MoveSelection(u, g.rows, g.cols, 1, 0)
    ensures e.key == "ArrowLeft" ==> HandleKey(g, u, e).ui == MoveSelection(u, g.rows, g.cols, 0, -1)
    ensures e.key == "ArrowRight" ==> HandleKey(g, u, e).ui == MoveSelection(u, g.rows, g.cols, 0, 1)
    ensures e.key == "Tab" ==>
      HandleKey(g, u, e).ui == if e.shift then MoveToPreviousCell(u, g.rows, g.cols) else MoveToNextCell(u, g.rows, g.cols)
  {
  }

  /** Escape with no edit open drops the selection. */
  lemma BrowsingEscapeDeselects(g: GridState, u: UIState, e: KeyEvent)
    requires g.rows > 0 && g.cols > 0
    requires !u.isEditing && e.key == "Escape"
    ensures HandleKey(g, u, e).ui.selected == None && HandleKey(g, u, e).grid == g
  {
  }
}
