/** The toolbar's row and column controls: +/- buttons that step a dimension
    within [2, 10] and number inputs whose text is parsed and clamped into the
    same range, each ending in a `resizeGrid` call on the grid store. */
module GridSizeControls {
  import opened Options
  import opened Text
  import opened GridTypes
  import opened GridUtils
  import opened GridStore

  const MinSize: nat := 2
  const MaxSize: nat := 10

  /** `Math.max(MIN_SIZE, Math.min(MAX_SIZE, v))`. */
  function ClampSize(v: int): (n: nat)
    ensures MinSize <= n <= MaxSize
    ensures MinSize <= v <= MaxSize ==> n == v
    ensures v < MinSize ==> n == MinSize
    ensures v > MaxSize ==> n == MaxSize
  {
    if MaxSize < v then MaxSize else if v < MinSize then MinSize else v
  }

  /** The new value of a dimension after a +/- click, or `None` when the
      clamped value equals the current one and no resize is issued. */
  function Step(current: nat, delta: int): (r: Option<nat>)
    ensures r.None? <==> ClampSize(current + delta) == current
    ensures r.Some? ==> r.value == ClampSize(current + delta) && r.value != current
  {
    var n := ClampSize(current + delta);
    if n != current then Some(n) else None
  }

  /** The typed value of a dimension, or `None` when the text is NaN to `parseInt`. */
  function Typed(text: string): (r: Option<nat>)
    ensures r.None? <==> ParseInt(text).None?
    ensures r.Some? ==> r.value == ClampSize(ParseInt(text).value)
  {
    match ParseInt(text)
    case None => None
    case Some(v) => Some(ClampSize(v))
  }

  /** Both dimensions within the controls' range. */
  predicate SizeInRange(s: GridState) {
    MinSize <= s.rows <= MaxSize && MinSize <= s.cols <= MaxSize
  }

  /** `handleRowsChange(delta)`. */
  function RowsChange(s: GridState, delta: int): (t: GridState)
    requires GridStore.Valid(s)
    ensures GridStore.Valid(t) && t.cols == s.cols
    ensures t.rows == if Step(s.rows, delta).Some? then ClampSize(s.rows + delta) else s.rows
    ensures Step(s.rows, delta).None? ==> t == s
  {
    match Step(s.rows, delta)
    case None => s
    case Some(n) => ResizeGrid(s, n, s.cols)
  }

  /** `handleColsChange(delta)`. */
  function ColsChange(s: GridState, delta: int): (t: GridState)
    requires GridStore.Valid(s)
    ensures GridStore.Valid(t) && t.rows == s.rows
    ensures t.cols == if Step(s.cols, delta).Some? then ClampSize(s.cols + delta) else s.cols
    ensures Step(s.cols, delta).None? ==> t == s
  {
    match Step(s.cols, delta)
    case None => s
    case Some(n) => ResizeGrid(s, s.rows, n)
  }

  /** `handleRowsInput`: NaN is ignored; any number resizes, even to the current size. */
  function RowsInput(s: GridState, text: string): (t: GridState)
    requires GridStore.Valid(s)
    ensures GridStore.Valid(t) && t.cols == s.cols
    ensures ParseInt(text).None? ==> t == s
    ensures ParseInt(text).Some? ==> t.rows == ClampSize(ParseInt(text).value)
  {
    match Typed(text)
    case None => s
    case Some(n) => ResizeGrid(s, n, s.cols)
  }

  /** `handleColsInput`. */
  function ColsInput(s: GridState, text: string): (t: GridState)
    requires GridStore.Valid(s)
    ensures GridStore.Valid(t) && t.rows == s.rows
    ensures ParseInt(text).None? ==> t == s
    ensures ParseInt(text).Some? ==> t.cols == ClampSize(ParseInt(text).value)
  {
    match Typed(text)
    case None => s
    case Some(n) => ResizeGrid(s, s.rows, n)
  }

  /** `disabled={n <= MIN_SIZE}` on the minus button. */
  predicate DecrementDisabled(n: nat) {
    n <= MinSize
  }

  /** `disabled={n >= MAX_SIZE}` on the plus button. */
  predicate IncrementDisabled(n: nat) {
    n >= MaxSize
  }

  /** Within the range, a button is disabled exactly when its click would resize nothing. */
  lemma DisabledExactlyWhenNoOp(n: nat)
    requires MinSize <= n <= MaxSize
    ensures DecrementDisabled(n) <==> Step(n, -1).None?
    ensures IncrementDisabled(n) <==> Step(n, 1).None?
  {
  }

  /** Inside the range, a click moves the dimension by exactly one. */
  lemma EnabledClickMovesByOne(n: nat)
    requires MinSize <= n <= MaxSize
    ensures !DecrementDisabled(n) ==> Step(n, -1) == Some(n - 1)
    ensures !IncrementDisabled(n) ==> Step(n, 1) == Some(n + 1)
  {
  }

  /** A dimension typed as its own decimal text, as the input displays it, is read back exactly. */
  lemma TypedDisplayedValue(n: nat)
    requires MinSize <= n <= MaxSize
    ensures Typed(NatToString(n)) == Some(n)
  {
    ParseIntReadsDigits(NatToString(n), "");
    assert NatToString(n) + "" == NatToString(n);
    ParseNatToString(n);
  }

  /** Every control keeps both dimensions in [2, 10], starting from the 5 x 5 grid. */
  lemma ControlsKeepSizeInRange(s: GridState, delta: int, text: string)
    requires GridStore.Valid(s) && SizeInRange(s)
    ensures SizeInRange(RowsChange(s, delta)) && SizeInRange(ColsChange(s, delta))
    ensures SizeInRange(RowsInput(s, text)) && SizeInRange(ColsInput(s, text))
    ensures SizeInRange(GridStore.Initial())
  {
  }

  /** Resizing to the current dimensions changes nothing, so an input that
      always resizes is harmless when the number is unchanged. */
  lemma ResizeToSameSize(s: GridState)
    requires GridStore.Valid(s)
    ensures ResizeGrid(s, s.rows, s.cols) == s
  {
    var t := ResizeGrid(s, s.rows, s.cols);
    forall r | 0 <= r < s.rows
      ensures t.cells[r] == s.cells[r]
    {
      forall c | 0 <= c < s.cols
        ensures t.cells[r][c] == s.cells[r][c]
      {
        assert t.cells[r][c] == ResizedCell(s, r, c);
      }
    }
  }
}
