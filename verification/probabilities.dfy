/** The probability tracker: it compares each new grid with the previous
    snapshot of its words, queues every cell sharing a row or column with a
    changed cell, queues every non-blank cell when an API key arrives, and
    drains the queue by writing each queued cell's row, column and combined
    probabilities into the grid store. The debounce timer and the asynchronous
    scheduling of the writes are not modelled: the queue is drained in order. */
module Probabilities {
  import opened Text
  import opened Options
  import opened GridTypes
  import opened GridUtils
  import opened GridStore
  import opened PhraseUtils
  import opened Completions
  import opened ProbabilityEngine

  /** The key a position has in the pending set: `"row-col"`, the cell-id format. */
  function PositionToKey(p: Position): (k: string)
    ensures Split(k, '-') == [NatToString(p.row), NatToString(p.col)]
  {
    KeyPieces(p);
    CellId(p.row, p.col)
  }

  /** The cell id splits at its one `-` into the row's and the column's digits. */
  lemma KeyPieces(p: Position)
    ensures Split(CellId(p.row, p.col), '-') == [NatToString(p.row), NatToString(p.col)]
  {
    var a, b := NatToString(p.row), NatToString(p.col);
    assert '-' !in a && '-' !in b;
    assert CellId(p.row, p.col) == a + ['-'] + b;
    SplitAtSeparator(a, '-', b);
    SplitNoSeparator(b, '-');
  }

  /** `key.split('-').map(Number)` taken as a position; `None` where a piece is
      not a plain digit string or the column piece is missing (`NaN`). */
  function KeyToPosition(key: string): (r: Option<Position>)
    ensures forall p :: key == PositionToKey(p) ==> r == Some(p)
    ensures '-' !in key ==> r == None
  {
    KeyDecodes(key);
    var pieces := Split(key, '-');
    if |pieces| >= 2 && AllDigits(pieces[0]) && AllDigits(pieces[1])
    then Some(Position(ParseDigits(pieces[0]), ParseDigits(pieces[1])))
    else None
  }

  /** A key without a `-` is one piece, and the pieces of a position's key parse back to its coordinates. */
  lemma KeyDecodes(key: string)
    ensures '-' !in key ==> Split(key, '-') == [key]
    ensures forall p :: key == PositionToKey(p) ==>
      ParseDigits(NatToString(p.row)) == p.row && ParseDigits(NatToString(p.col)) == p.col
  {
    if '-' !in key {
      SplitNoSeparator(key, '-');
    }
    forall p | key == PositionToKey(p)
      ensures ParseDigits(NatToString(p.row)) == p.row && ParseDigits(NatToString(p.col)) == p.col
    {
      ParseNatToString(p.row);
      ParseNatToString(p.col);
    }
  }

  /** Decoding a key gives back the position it was made from. */
  lemma KeyRoundTrip(p: Position)
    ensures KeyToPosition(PositionToKey(p)) == Some(p)
  {
  }

  /** Two positions share a key only if they are equal, so the pending set of
      keys holds each position at most once; the model keeps the positions. */
  lemma KeysIdentifyPositions(p: Position, q: Position)
    ensures PositionToKey(p) == PositionToKey(q) <==> p == q
  {
    if PositionToKey(p) == PositionToKey(q) {
      KeyRoundTrip(p);
      KeyRoundTrip(q);
    }
  }

  predicate Distinct(ps: seq<Position>) {
    forall i, j :: 0 <= i < j < |ps| ==> ps[i] != ps[j]
  }

  /** Adding positions to the insertion-ordered pending set, one by one. */
  function Enqueue(pending: seq<Position>, ps: seq<Position>): (r: seq<Position>)
    ensures |pending| <= |r| && r[..|pending|] == pending
    ensures forall p :: p in r <==> p in pending || p in ps
    ensures Distinct(pending) ==> Distinct(r)
  {
    if |ps| == 0 then pending
    else
      var q := ps[|ps| - 1];
      var before := Enqueue(pending, ps[..|ps| - 1]);
      assert forall p :: p in ps <==> p in ps[..|ps| - 1] || p == q by {
        assert ps == ps[..|ps| - 1] + [q];
      }
      if q in before then before else before + [q]
  }

  /** Strictly earlier in row-major order. */
  predicate RowMajorBefore(a: Position, b: Position) {
    a.row < b.row || (a.row == b.row && a.col < b.col)
  }

  /** The nested `for (row...) for (col...)` scan: every position of the
      `rows` x `cols` rectangle that satisfies `pick`, in row-major order. */
  method PositionsWhere(rows: nat, cols: nat, pick: Position -> bool) returns (ps: seq<Position>)
    ensures forall p :: p in ps <==> p.row < rows && p.col < cols && pick(p)
    ensures forall i, j :: 0 <= i < j < |ps| ==> RowMajorBefore(ps[i], ps[j])
  {
    ps := [];
    var row := 0;
    while row < rows
      invariant row <= rows
      invariant forall p :: p in ps <==> p.row < row && p.col < cols && pick(p)
      invariant forall i, j :: 0 <= i < j < |ps| ==> RowMajorBefore(ps[i], ps[j])
      invariant forall i :: 0 <= i < |ps| ==> ps[i].row < row
    {
      var col := 0;
      while col < cols
        invariant col <= cols
        invariant forall p :: p in ps <==> (p.row < row || (p.row == row && p.col < col)) && p.col < cols && pick(p)
        invariant forall i, j :: 0 <= i < j < |ps| ==> RowMajorBefore(ps[i], ps[j])
        invariant forall i :: 0 <= i < |ps| ==> RowMajorBefore(ps[i], Position(row, col))
      {
        if pick(Position(row, col)) {
          ps := ps + [Position(row, col)];
        }
        col := col + 1;
      }
      row := row + 1;
    }
  }

  /** The current word differs from the snapshot's, a missing entry on either side reading as `''`. */
  predicate Changed(cells: Grid, previous: WordGrid, p: Position)
    ensures Changed(cells, previous, p) ==> InRange(cells, p) || (p.row < |previous| && p.col < |previous[p.row]|)
    ensures previous == WordsOf(cells) ==> !Changed(cells, previous, p)
  {
    WordAt(cells, p) != WordOf(previous, p.row, p.col)
  }

  /** A grid compared with its own snapshot has no changed cell, so skipping
      the comparison for an unchanged snapshot loses nothing. */
  lemma SnapshotHasNoChanges(cells: Grid, p: Position)
    ensures !Changed(cells, WordsOf(cells), p)
  {
  }

  /** The union of the changed cells' affected cells, in first-insertion order. */
  function AffectedUnion(changed: seq<Position>, rows: nat, cols: nat): (r: seq<Position>)
    ensures Distinct(r)
  {
    if |changed| == 0 then []
    else Enqueue(AffectedUnion(changed[..|changed| - 1], rows, cols), AffectedCells(changed[|changed| - 1], rows, cols))
  }

  /** A position is in the union exactly when it shares a row or a column (inside
      the grid) with a changed cell, or is one. */
  lemma {:induction false} AffectedUnionMembers(changed: seq<Position>, rows: nat, cols: nat, q: Position)
    ensures q in AffectedUnion(changed, rows, cols) <==> AnyShares(changed, rows, cols, q)
  {
    if |changed| > 0 {
      var c := changed[|changed| - 1];
      AffectedUnionMembers(changed[..|changed| - 1], rows, cols, q);
      AnySharesLast(changed, rows, cols, q);
      if q in AffectedCells(c, rows, cols) {
        AffectedCellsSound(c, rows, cols, q);
      }
      if SharesLine(c, rows, cols, q) {
        AffectedCellsComplete(c, rows, cols, q);
      }
    }
  }

  /** Some changed cell shares a line with `q`. */
  predicate AnyShares(changed: seq<Position>, rows: nat, cols: nat, q: Position) {
    exists i :: 0 <= i < |changed| && SharesLine(changed[i], rows, cols, q)
  }

  lemma AnySharesLast(changed: seq<Position>, rows: nat, cols: nat, q: Position)
    requires |changed| > 0
    ensures AnyShares(changed, rows, cols, q) <==>
      AnyShares(changed[..|changed| - 1], rows, cols, q) || SharesLine(changed[|changed| - 1], rows, cols, q)
  {
    var pre := changed[..|changed| - 1];
    if AnyShares(changed, rows, cols, q) {
      var i :| 0 <= i < |changed| && SharesLine(changed[i], rows, cols, q);
      if i < |pre| {
        assert pre[i] == changed[i];
      }
    }
    if AnyShares(pre, rows, cols, q) {
      var i :| 0 <= i < |pre| && SharesLine(pre[i], rows, cols, q);
      assert changed[i] == pre[i];
    }
  }

  /** `q` is `c` itself or another cell of `c`'s row or column inside the grid. */
  predicate SharesLine(c: Position, rows: nat, cols: nat, q: Position) {
    q == c || (q.row == c.row && q.col < cols) || (q.col == c.col && q.row < rows)
  }

  /** `q` shares a row or column with a cell of the `rows` x `cols` grid whose word changed. */
  ghost predicate TouchedByChange(cells: Grid, previous: WordGrid, rows: nat, cols: nat, q: Position) {
    exists c: Position :: c.row < rows && c.col < cols && Changed(cells, previous, c) && SharesLine(c, rows, cols, q)
  }

  /** What the hook keeps between renders: the previous words (none before the
      first render) and the pending set. */
  datatype Tracker = Tracker(previous: Option<WordGrid>, pending: seq<Position>)

  const InitialTracker := Tracker(None, [])

  /** The change-detection effect for a new grid. */
  method OnCellsChanged(tr: Tracker, cells: Grid, rows: nat, cols: nat) returns (next: Tracker)
    ensures next.previous == Some(WordsOf(cells))
    ensures |tr.pending| <= |next.pending| && next.pending[..|tr.pending|] == tr.pending
    ensures Distinct(tr.pending) ==> Distinct(next.pending)
    ensures tr.previous.None? ==> next.pending == tr.pending
    ensures forall q :: q in next.pending <==>
      q in tr.pending ||
      (tr.previous.Some? && TouchedByChange(cells, tr.previous.value, rows, cols, q))
  {
    var snapshot := WordsOf(cells);
    if tr.previous.None? {
      return Tracker(Some(snapshot), tr.pending);
    }
    var previous := tr.previous.value;
    if previous == snapshot {
      forall q ensures !TouchedByChange(cells, previous, rows, cols, q) {
        forall c: Position ensures !Changed(cells, previous, c) {
          SnapshotHasNoChanges(cells, c);
        }
      }
      return Tracker(Some(snapshot), tr.pending);
    }
    var changed := PositionsWhere(rows, cols, p => Changed(cells, previous, p));
    var pending := tr.pending;
    if |changed| > 0 {
      var affected := AffectedUnion(changed, rows, cols);
      pending := Enqueue(tr.pending, affected);
      forall q ensures q in affected <==> TouchedByChange(cells, previous, rows, cols, q) {
        AffectedUnionMembers(changed, rows, cols, q);
        if TouchedByChange(cells, previous, rows, cols, q) {
          var c: Position :| c.row < rows && c.col < cols && Changed(cells, previous, c) && SharesLine(c, rows, cols, q);
          assert c in changed;
          var i :| 0 <= i < |changed| && changed[i] == c;
        }
      }
    }
    return Tracker(Some(snapshot), pending);
  }

  /** The cell's word is not blank. */
  predicate HasWord(cells: Grid, p: Position) {
    Trim(WordAt(cells, p)) != ""
  }

  /** The API-key effect: with a key, every non-blank cell joins the pending set. */
  method OnApiKey(tr: Tracker, apiKey: string, cells: Grid, rows: nat, cols: nat) returns (next: Tracker)
    ensures next.previous == tr.previous
    ensures |tr.pending| <= |next.pending| && next.pending[..|tr.pending|] == tr.pending
    ensures apiKey == "" ==> next == tr
    ensures forall q :: q in next.pending <==> q in tr.pending || (apiKey != "" && q.row < rows && q.col < cols && HasWord(cells, q))
  {
    next := tr;
    if apiKey != "" {
      var nonEmpty := PositionsWhere(rows, cols, p => HasWord(cells, p));
      if |nonEmpty| > 0 {
        next := tr.(pending := Enqueue(tr.pending, nonEmpty));
      }
    }
  }

  predicate HasContext(context: PhraseContext)
    ensures HasContext(context) <==> context != PhraseContext([], [])
  {
    |context.before| > 0 || |context.after| > 0
  }

  /** The write one pending cell produces: cleared probabilities for a missing
      or blank cell or a cell with no words around it, `None` (keep the old
      values) when the calculation fails, and otherwise the row probability
      only with row context, the column one only with column context and the
      combined one only with both. */
  function CellUpdate(
    cells: Grid, pos: Position,
    complete: string -> Result<seq<WordSuggestion>>, sqrt: real -> real): (u: Option<CellProbabilities>)
    ensures !InRange(cells, pos) || !HasWord(cells, pos) ==> u == Some(NoProbabilities)
    ensures !HasContext(RowContext(cells, pos)) && !HasContext(ColumnContext(cells, pos)) ==> u == Some(NoProbabilities)
    ensures u.Some? && u.value.rowProbability.Some? ==> HasContext(RowContext(cells, pos))
    ensures u.Some? && u.value.colProbability.Some? ==> HasContext(ColumnContext(cells, pos))
    ensures u.Some? && u.value.combinedProbability.Some? ==>
      HasContext(RowContext(cells, pos)) && HasContext(ColumnContext(cells, pos))
  {
    if !InRange(cells, pos) || !HasWord(cells, pos) then Some(NoProbabilities)
    else
      var rowContext := RowContext(cells, pos);
      var colContext := ColumnContext(cells, pos);
      var hasRow, hasCol := HasContext(rowContext), HasContext(colContext);
      if !hasRow && !hasCol then Some(NoProbabilities)
      else
        match CalculateCellProbabilities(rowContext, colContext, cells[pos.row][pos.col].word, complete, sqrt)
        case Failure(_) => None
        case Success(p) =>
          Some(CellProbabilities(
            if hasRow then Some(p.rowProbability) else None,
            if hasCol then Some(p.colProbability) else None,
            if hasRow && hasCol then Some(p.combinedProbability) else None))
  }

  /** For a non-blank cell with words around it whose calculation succeeds, each
      probability is present exactly when its context is, and carries the
      engine's value. */
  lemma CellUpdateKeepsContextualValues(
    cells: Grid, pos: Position, complete: string -> Result<seq<WordSuggestion>>, sqrt: real -> real)
    requires InRange(cells, pos) && HasWord(cells, pos)
    requires HasContext(RowContext(cells, pos)) || HasContext(ColumnContext(cells, pos))
    requires CalculateCellProbabilities(RowContext(cells, pos), ColumnContext(cells, pos), cells[pos.row][pos.col].word, complete, sqrt).Success?
    ensures var p := CalculateCellProbabilities(RowContext(cells, pos), ColumnContext(cells, pos), cells[pos.row][pos.col].word, complete, sqrt).value;
      var u := CellUpdate(cells, pos, complete, sqrt);
      && u.Some?
      && (HasContext(RowContext(cells, pos)) ==> u.value.rowProbability == Some(p.rowProbability))
      && (HasContext(ColumnContext(cells, pos)) ==> u.value.colProbability == Some(p.colProbability))
      && (HasContext(RowContext(cells, pos)) && HasContext(ColumnContext(cells, pos)) ==>
            u.value.combinedProbability == Some(p.combinedProbability))
  {
  }

  /** A failed calculation leaves the cell's probabilities as they were. */
  lemma FailedCalculationKeepsValues(
    cells: Grid, pos: Position, complete: string -> Result<seq<WordSuggestion>>, sqrt: real -> real)
    requires InRange(cells, pos) && HasWord(cells, pos)
    requires HasContext(RowContext(cells, pos)) || HasContext(ColumnContext(cells, pos))
    ensures CellUpdate(cells, pos, complete, sqrt).None? <==>
      CalculateCellProbabilities(RowContext(cells, pos), ColumnContext(cells, pos), cells[pos.row][pos.col].word, complete, sqrt).Failure?
  {
  }

  /** The probabilities cell `p` should hold once the cells in `done` have
      been processed: its write if it is among them and the write exists, its
      old values otherwise. */
  function Target(
    s: GridState, done: seq<Position>, p: Position,
    complete: string -> Result<seq<WordSuggestion>>, sqrt: real -> real): CellProbabilities
    requires InRange(s.cells, p)
  {
    var u := CellUpdate(s.cells, p, complete, sqrt);
    if p in done && u.Some? then u.value else ProbabilitiesOf(s.cells[p.row][p.col])
  }

  /** `t` is `s` with exactly the writes of the cells in `done`: same shape,
      same words and ids, and each cell's probabilities as `Target` says. */
  predicate Processed(
    t: GridState, s: GridState, done: seq<Position>,
    complete: string -> Result<seq<WordSuggestion>>, sqrt: real -> real)
  {
    && t.rows == s.rows && t.cols == s.cols && SameShape(t.cells, s.cells)
    && forall r, c :: 0 <= r < |s.cells| && 0 <= c < |s.cells[r]| ==>
      && t.cells[r][c].word == s.cells[r][c].word
      && t.cells[r][c].id == s.cells[r][c].id
      && ProbabilitiesOf(t.cells[r][c]) == Target(s, done, Position(r, c), complete, sqrt)
  }

  /** Applying one pending cell's write, if it has one. */
  function WriteOne(
    t: GridState, s: GridState, pos: Position,
    complete: string -> Result<seq<WordSuggestion>>, sqrt: real -> real): GridState
  {
    var u := CellUpdate(s.cells, pos, complete, sqrt);
    if u.Some? then SetCellProbabilities(t, pos, u.value) else t
  }

  lemma WriteOneProcesses(
    t: GridState, s: GridState, pending: seq<Position>, i: nat,
    complete: string -> Result<seq<WordSuggestion>>, sqrt: real -> real)
    requires i < |pending| && Processed(t, s, pending[..i], complete, sqrt)
    ensures Processed(WriteOne(t, s, pending[i], complete, sqrt), s, pending[..i + 1], complete, sqrt)
  {
    var pos := pending[i];
    var t' := WriteOne(t, s, pos, complete, sqrt);
    forall r, c | 0 <= r < |s.cells| && 0 <= c < |s.cells[r]|
      ensures ProbabilitiesOf(t'.cells[r][c]) == Target(s, pending[..i + 1], Position(r, c), complete, sqrt)
    {
      TargetAfter(s, pending, i, Position(r, c), complete, sqrt);
    }
  }

  /** Processing one more pending cell changes that cell's target only, and only when it has a write. */
  lemma TargetAfter(
    s: GridState, pending: seq<Position>, i: nat, p: Position,
    complete: string -> Result<seq<WordSuggestion>>, sqrt: real -> real)
    requires i < |pending| && InRange(s.cells, p)
    ensures var u := CellUpdate(s.cells, p, complete, sqrt);
      Target(s, pending[..i + 1], p, complete, sqrt) ==
        if p == pending[i] && u.Some? then u.value else Target(s, pending[..i], p, complete, sqrt)
  {
    assert pending[..i + 1] == pending[..i] + [pending[i]];
  }

  lemma NothingProcessed(s: GridState, complete: string -> Result<seq<WordSuggestion>>, sqrt: real -> real)
    ensures Processed(s, s, [], complete, sqrt)
  {
  }

  /** `processPendingCalculations`: nothing without an API key or with an empty
      set; otherwise the set is emptied and each pending cell receives the write
      computed from the grid as it was when processing began. Only
      probabilities change, and only those of pending cells. */
  method ProcessPending(
    s: GridState, tr: Tracker, apiKey: string,
    complete: string -> Result<seq<WordSuggestion>>, sqrt: real -> real) returns (t: GridState, next: Tracker)
    ensures apiKey == "" || tr.pending == [] ==> t == s && next == tr
    ensures apiKey != "" ==> next == tr.(pending := [])
    ensures apiKey != "" ==> Processed(t, s, tr.pending, complete, sqrt)
    ensures Valid(s) ==> Valid(t)
  {
    if apiKey == "" || tr.pending == [] {
      return s, tr;
    }
    next := tr.(pending := []);
    t := s;
    NothingProcessed(s, complete, sqrt);
    var i := 0;
    while i < |tr.pending|
      invariant i <= |tr.pending|
      invariant Processed(t, s, tr.pending[..i], complete, sqrt)
      invariant Valid(s) ==> Valid(t)
    {
      WriteOneProcesses(t, s, tr.pending, i, complete, sqrt);
      t := WriteOne(t, s, tr.pending[i], complete, sqrt);
      i := i + 1;
    }
    assert tr.pending[..i] == tr.pending;
  }

  /** A cell that was not pending keeps its probabilities. */
  lemma UnpendingCellsKeepValues(
    t: GridState, s: GridState, pending: seq<Position>, r: nat, c: nat,
    complete: string -> Result<seq<WordSuggestion>>, sqrt: real -> real)
    requires Processed(t, s, pending, complete, sqrt)
    requires r < |s.cells| && c < |s.cells[r]| && Position(r, c) !in pending
    ensures ProbabilitiesOf(t.cells[r][c]) == ProbabilitiesOf(s.cells[r][c])
  {
  }

  /** Writes to two different cells do not interfere, so the order in which the
      concurrent calculations finish does not matter. */
  lemma WritesCommute(s: GridState, p: Position, q: Position, a: CellProbabilities, b: CellProbabilities)
    requires p != q
    ensures SetCellProbabilities(SetCellProbabilities(s, p, a), q, b) == SetCellProbabilities(SetCellProbabilities(s, q, b), p, a)
  {
    var x := SetCellProbabilities(SetCellProbabilities(s, p, a), q, b);
    var y := SetCellProbabilities(SetCellProbabilities(s, q, b), p, a);
    assert forall r :: 0 <= r < |x.cells| ==> x.cells[r] == y.cells[r];
  }
}
