/** The suggestion hook as a state machine. Its two effects and the
    completions of its requests are events; the debounce of the selection is
    left to the caller, which decides when an effect runs. Each request carries
    the request counter's value at the moment it was issued, and its outcome is
    applied only if that value is still the counter's. */
module Suggestions {
  import opened Options
  import opened GridTypes
  import opened ProbabilityEngine

  datatype HookState = HookState(
    suggestions: seq<ScoredWord>,
    loading: bool,
    error: Option<string>,
    requestId: nat)

  const InitialHook := HookState([], false, None, 0)

  datatype Event =
    /** The fetch effect runs with the debounced selection, the API key and the grid. */
    | Run(selected: Option<Position>, apiKey: string, cells: Grid)
    /** The outcome of the request issued with counter value `id`. */
    | Arrive(id: nat, outcome: Result<seq<ScoredWord>>)
    /** The loading effect runs while the selection differs from its debounced value. */
    | SelectionMoving(selected: Option<Position>, apiKey: string)

  /** Some cell other than `pos` holds a non-empty word (`word && !(target)`). */
  predicate HasGridContext(cells: Grid, pos: Position) {
    exists r, c :: 0 <= r < |cells| && 0 <= c < |cells[r]| && cells[r][c].word != "" && !(r == pos.row && c == pos.col)
  }

  /** The nested `some` scan that decides whether a request is worth sending. */
  method ScanForContext(cells: Grid, pos: Position) returns (found: bool)
    ensures found <==> HasGridContext(cells, pos)
  {
    var r := 0;
    while r < |cells|
      invariant r <= |cells|
      invariant forall i, j :: 0 <= i < r && 0 <= j < |cells[i]| ==> cells[i][j].word == "" || (i == pos.row && j == pos.col)
    {
      var c := 0;
      while c < |cells[r]|
        invariant c <= |cells[r]|
        invariant forall j :: 0 <= j < c ==> cells[r][j].word == "" || (r == pos.row && j == pos.col)
      {
        if cells[r][c].word != "" && !(r == pos.row && c == pos.col) {
          return true;
        }
        c := c + 1;
      }
      r := r + 1;
    }
    return false;
  }

  /** The state right after the clear branch: nothing shown, nothing loading, no error. */
  predicate IsCleared(s: HookState) {
    s.suggestions == [] && !s.loading && s.error == None
  }

  /** An outcome applied by the request that is still the latest. */
  function Apply(s: HookState, outcome: Result<seq<ScoredWord>>): (t: HookState)
    ensures t.requestId == s.requestId && !t.loading
    ensures outcome.Success? ==> t.suggestions == outcome.value && t.error == s.error
    ensures outcome.Failure? ==> t.suggestions == [] && t.error == Some(outcome.error)
  {
    match outcome
    case Success(words) => s.(suggestions := words, loading := false)
    case Failure(message) => s.(error := Some(message), suggestions := [], loading := false)
  }

  /** One event, with the clear branch as written: it leaves the request counter alone. */
  function Step(s: HookState, e: Event): (t: HookState)
    ensures t.requestId >= s.requestId
    ensures e.Run? && (e.selected.None? || e.apiKey == "") ==> IsCleared(t) && t.requestId == s.requestId
    ensures e.Run? && e.selected.Some? && e.apiKey != "" ==>
      && t.requestId == s.requestId + 1 && t.error == None
      && (t.loading <==> HasGridContext(e.cells, e.selected.value))
      && (!t.loading ==> t.suggestions == [])
      && (t.loading ==> t.suggestions == s.suggestions)
    ensures e.Arrive? && e.id != s.requestId ==> t == s
    ensures e.Arrive? && e.id == s.requestId ==> t == Apply(s, e.outcome)
    ensures e.SelectionMoving? ==>
      && t.suggestions == s.suggestions && t.error == s.error && t.requestId == s.requestId
      && (t.loading <==> s.loading || (e.selected.Some? && e.apiKey != ""))
  {
    match e
    case Run(selected, apiKey, cells) =>
      if selected.None? || apiKey == "" then s.(suggestions := [], loading := false, error := None)
      else Issue(s, selected.value, cells)
    case Arrive(id, outcome) =>
      if id == s.requestId then Apply(s, outcome) else s
    case SelectionMoving(selected, apiKey) =>
      if selected.Some? && apiKey != "" then s.(loading := true) else s
  }

  /** The fetch's synchronous part: a new request number, loading with no error,
      and at once an empty answer when no other cell holds a word. */
  function Issue(s: HookState, pos: Position, cells: Grid): (t: HookState)
    ensures t.requestId == s.requestId + 1 && t.error == None
    ensures HasGridContext(cells, pos) <==> t.loading
    ensures !HasGridContext(cells, pos) ==> t.suggestions == []
    ensures HasGridContext(cells, pos) ==> t.suggestions == s.suggestions
  {
    var t := s.(requestId := s.requestId + 1, loading := true, error := None);
    if HasGridContext(cells, pos) then t else t.(suggestions := [], loading := false)
  }

  /** The clear branch as evidently intended: it also retires every request in flight. */
  function StepFixed(s: HookState, e: Event): (t: HookState)
    ensures t.requestId >= s.requestId
    ensures e.Run? && (e.selected.None? || e.apiKey == "") ==> t.requestId > s.requestId && IsCleared(t)
    ensures e.Arrive? && e.id != s.requestId ==> t == s
    ensures e.Arrive? && e.id == s.requestId ==> t == Apply(s, e.outcome)
  {
    match e
    case Run(selected, apiKey, cells) =>
      if selected.None? || apiKey == "" then s.(suggestions := [], loading := false, error := None, requestId := s.requestId + 1)
      else Issue(s, selected.value, cells)
    case _ => Step(s, e)
  }

  /** An outcome whose request is no longer the latest changes nothing. */
  lemma StaleOutcomeIgnored(s: HookState, id: nat, outcome: Result<seq<ScoredWord>>)
    requires id < s.requestId
    ensures Step(s, Arrive(id, outcome)) == s
    ensures StepFixed(s, Arrive(id, outcome)) == s
  {
  }

  /** Of two requests, the later one wins: once a new one is issued, the outcome
      of the earlier one is ignored, and the later one's outcome is shown. */
  lemma LatestRequestWins(s: HookState, pos: Position, cells: Grid, early: Result<seq<ScoredWord>>, late: seq<ScoredWord>)
    requires HasGridContext(cells, pos)
    ensures var t := Step(Step(s, Run(Some(pos), "key", cells)), Run(Some(pos), "key", cells));
      && Step(t, Arrive(s.requestId + 1, early)) == t
      && Step(Step(t, Arrive(s.requestId + 1, early)), Arrive(s.requestId + 2, Success(late))).suggestions == late
  {
  }

  /** The state after a sequence of events, with the clear branch as written or corrected. */
  function Replay(s: HookState, events: seq<Event>, fixed: bool): HookState
    decreases |events|
  {
    if |events| == 0 then s
    else
      var t := if fixed then StepFixed(s, events[0]) else Step(s, events[0]);
      Replay(t, events[1..], fixed)
  }

  /** No event lowers the request counter. */
  lemma {:induction false} RequestIdNeverDecreases(s: HookState, events: seq<Event>, fixed: bool)
    ensures Replay(s, events, fixed).requestId >= s.requestId
    decreases |events|
  {
    if |events| > 0 {
      var t := if fixed then StepFixed(s, events[0]) else Step(s, events[0]);
      RequestIdNeverDecreases(t, events[1..], fixed);
    }
  }

  /** Events that neither select a cell with a key nor issue anything. */
  predicate Quiet(e: Event, issued: nat) {
    match e
    case Run(selected, apiKey, _) => selected.None? || apiKey == ""
    case Arrive(id, _) => id <= issued
    case SelectionMoving(_, _) => true
  }

  /** With the corrected clear, once the selection is gone nothing issued
      before is ever shown: as long as no cell is selected, every outcome of an
      earlier request is ignored and the list stays empty. */
  lemma {:induction false} ClearedStaysEmpty(s: HookState, issued: nat, events: seq<Event>)
    requires s.suggestions == [] && issued < s.requestId
    requires forall i :: 0 <= i < |events| ==> Quiet(events[i], issued)
    ensures Replay(s, events, true).suggestions == []
    decreases |events|
  {
    if |events| > 0 {
      var t := StepFixed(s, events[0]);
      assert Quiet(events[0], issued);
      assert t.suggestions == [] && issued < t.requestId;
      assert forall i :: 0 <= i < |events[1..]| ==> Quiet(events[1..][i], issued) by {
        forall i | 0 <= i < |events[1..]| ensures Quiet(events[1..][i], issued) {
          assert events[1..][i] == events[i + 1];
        }
      }
      ClearedStaysEmpty(t, issued, events[1..]);
    }
  }

  /** The corrected hook: a deselection right after issuing a request hides that request's outcome. */
  lemma FixedClearHidesInFlight(s: HookState, pos: Position, cells: Grid, words: seq<ScoredWord>)
    requires HasGridContext(cells, pos)
    ensures var t := StepFixed(StepFixed(s, Run(Some(pos), "key", cells)), Run(None, "key", cells));
      StepFixed(t, Arrive(s.requestId + 1, Success(words))).suggestions == []
  {
  }

  /** As written, the same sequence shows the outcome of the request issued
      for the cell that is no longer selected. */
  lemma WrittenClearShowsInFlight()
    ensures var cells: Grid := [[Cell("0-0", "", None, None, None), Cell("0-1", "moon", None, None, None)]];
      var words := [ScoredWord("sun", 0.5, 0.5)];
      var t := Step(Step(InitialHook, Run(Some(Position(0, 0)), "key", cells)), Run(None, "key", cells));
      && IsCleared(t)
      && Step(t, Arrive(1, Success(words))).suggestions == words
  {
    var cells: Grid := [[Cell("0-0", "", None, None, None), Cell("0-1", "moon", None, None, None)]];
    assert cells[0][1].word != "";
    assert HasGridContext(cells, Position(0, 0));
  }
}
