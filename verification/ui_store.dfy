/** The UI store: the selected cell, the editing state, the suggestion mode
    and the API key, with the actions that replace them. */
module UIStore {
  import opened Options
  import opened GridTypes

  datatype SuggestionMode = RowMode | ColumnMode | Balanced

  datatype UIState = UIState(
    selected: Option<Position>,
    isEditing: bool,
    editValue: string,
    selectOnFocus: bool,
    mode: SuggestionMode,
    apiKey: string)

  /** The initial state; the API key comes from the build environment, `''` when it is unset. */
  function Initial(envKey: Option<string>): (u: UIState)
    ensures u.selected == None && !u.isEditing && u.editValue == "" && !u.selectOnFocus
    ensures u.mode == Balanced
    ensures envKey.None? ==> u.apiKey == ""
    ensures envKey.Some? ==> u.apiKey == envKey.value
    ensures Valid(u)
  {
    UIState(None, false, "", false, Balanced, if envKey.Some? then envKey.value else "")
  }

  /** Select-on-focus is only ever requested for an edit in progress. */
  predicate Valid(u: UIState) {
    !u.isEditing ==> !u.selectOnFocus
  }

  /** `selectCell`: the selection moves and any edit is abandoned. */
  function SelectCell(u: UIState, p: Position): (v: UIState)
    ensures v.selected == Some(p) && !v.isEditing && v.editValue == "" && !v.selectOnFocus
    ensures v.mode == u.mode && v.apiKey == u.apiKey
    ensures Valid(v)
  {
    u.(selected := Some(p), isEditing := false, editValue := "", selectOnFocus := false)
  }

  /** `clearSelection`: no selection and no edit. */
  function ClearSelection(u: UIState): (v: UIState)
    ensures v.selected == None && !v.isEditing && v.editValue == "" && !v.selectOnFocus
    ensures v.mode == u.mode && v.apiKey == u.apiKey
    ensures Valid(v)
  {
    u.(selected := None, isEditing := false, editValue := "", selectOnFocus := false)
  }

  /** `startEditing(initialValue, selectOnFocus)`: editing starts with the given value (`''` when absent). */
  function StartEditing(u: UIState, initialValue: Option<string>, selectOnFocus: bool): (v: UIState)
    ensures v.isEditing && v.selectOnFocus == selectOnFocus
    ensures v.editValue == (if initialValue.Some? then initialValue.value else "")
    ensures v.selected == u.selected && v.mode == u.mode && v.apiKey == u.apiKey
    ensures Valid(v)
  {
    u.(isEditing := true, editValue := if initialValue.Some? then initialValue.value else "", selectOnFocus := selectOnFocus)
  }

  /** `stopEditing`: the edit ends and its value is dropped; the selection stays. */
  function StopEditing(u: UIState): (v: UIState)
    ensures !v.isEditing && v.editValue == "" && !v.selectOnFocus
    ensures v.selected == u.selected && v.mode == u.mode && v.apiKey == u.apiKey
    ensures Valid(v)
  {
    u.(isEditing := false, editValue := "", selectOnFocus := false)
  }

  /** `setEditValue`: only the value changes. */
  function SetEditValue(u: UIState, value: string): (v: UIState)
    ensures v.editValue == value
    ensures v.selected == u.selected && v.isEditing == u.isEditing && v.selectOnFocus == u.selectOnFocus
    ensures v.mode == u.mode && v.apiKey == u.apiKey
    ensures Valid(u) ==> Valid(v)
  {
    u.(editValue := value)
  }

  function SetSuggestionMode(u: UIState, mode: SuggestionMode): (v: UIState)
    ensures v.mode == mode && v == u.(mode := mode)
    ensures Valid(u) ==> Valid(v)
  {
    u.(mode := mode)
  }

  function SetApiKey(u: UIState, key: string): (v: UIState)
    ensures v.apiKey == key && v == u.(apiKey := key)
    ensures Valid(u) ==> Valid(v)
  {
    u.(apiKey := key)
  }

  datatype Action =
    | Select(p: Position)
    | Deselect
    | Start(initialValue: Option<string>, selectOnFocus: bool)
    | Stop
    | Edit(value: string)
    | Mode(mode: SuggestionMode)
    | Key(key: string)

  function Dispatch(u: UIState, a: Action): UIState {
    match a
    case Select(p) => SelectCell(u, p)
    case Deselect => ClearSelection(u)
    case Start(init, focus) => StartEditing(u, init, focus)
    case Stop => StopEditing(u)
    case Edit(value) => SetEditValue(u, value)
    case Mode(mode) => SetSuggestionMode(u, mode)
    case Key(key) => SetApiKey(u, key)
  }

  /** Starting from the initial state, any sequence of actions keeps the store valid. */
  lemma {:induction false} ActionsKeepValid(u: UIState, actions: seq<Action>)
    requires Valid(u)
    ensures Valid(Replay(u, actions))
    decreases |actions|
  {
    if |actions| > 0 {
      ActionsKeepValid(Dispatch(u, actions[0]), actions[1..]);
    }
  }

  function Replay(u: UIState, actions: seq<Action>): UIState
    decreases |actions|
  {
    if |actions| == 0 then u else Replay(Dispatch(u, actions[0]), actions[1..])
  }

  /** Only `setApiKey` touches the key and only `setSuggestionMode` the mode. */
  lemma {:induction false} KeyAndModeChangeOnlyByTheirSetters(u: UIState, actions: seq<Action>)
    requires forall i :: 0 <= i < |actions| ==> !actions[i].Mode? && !actions[i].Key?
    ensures Replay(u, actions).apiKey == u.apiKey && Replay(u, actions).mode == u.mode
    decreases |actions|
  {
    if |actions| > 0 {
      assert forall i :: 0 <= i < |actions[1..]| ==> actions[1..][i] == actions[i + 1];
      KeyAndModeChangeOnlyByTheirSetters(Dispatch(u, actions[0]), actions[1..]);
    }
  }
}
