/** The autocomplete dropdown: the suggestions whose word starts with the
    typed text (ignoring ASCII case), a highlighted index that the arrow keys
    move within the list, and Enter/Tab choosing the highlighted word. */
module AutoComplete {
  import opened Options
  import opened Text
  import opened ProbabilityEngine

  predicate Matches(s: ScoredWord, filterText: string) {
    StartsWith(Lower(s.word), Lower(filterText))
  }

  /** `suggestions.filter(s => s.word.toLowerCase().startsWith(filterText.toLowerCase()))`. */
  function Filter(suggestions: seq<ScoredWord>, filterText: string): (r: seq<ScoredWord>)
    ensures |r| <= |suggestions|
    ensures forall i :: 0 <= i < |r| ==> Matches(r[i], filterText)
    ensures forall s :: s in r <==> s in suggestions && Matches(s, filterText)
  {
    if |suggestions| == 0 then []
    else
      var rest := Filter(suggestions[1..], filterText);
      if Matches(suggestions[0], filterText) then [suggestions[0]] + rest else rest
  }

  /** Filtering keeps the original order: it distributes over concatenation. */
  lemma {:induction false} FilterAppend(a: seq<ScoredWord>, b: seq<ScoredWord>, filterText: string)
    ensures Filter(a + b, filterText) == Filter(a, filterText) + Filter(b, filterText)
  {
    if |a| > 0 {
      assert (a + b)[1..] == a[1..] + b;
      FilterAppend(a[1..], b, filterText);
    } else {
      assert a + b == b;
    }
  }

  /** An empty filter keeps every suggestion. */
  lemma {:induction false} EmptyFilterKeepsAll(suggestions: seq<ScoredWord>)
    ensures Filter(suggestions, "") == suggestions
  {
    if |suggestions| > 0 {
      assert Matches(suggestions[0], "");
      EmptyFilterKeepsAll(suggestions[1..]);
    }
  }

  /** Typing more only narrows the list: the longer filter's matches are a subset. */
  lemma NarrowingFilter(suggestions: seq<ScoredWord>, f: string, more: string)
    ensures forall s :: s in Filter(suggestions, f + more) ==> s in Filter(suggestions, f)
  {
    LowerAppend(f, more);
    forall s | s in Filter(suggestions, f + more)
      ensures s in Filter(suggestions, f)
    {
      StartsWithShorter(Lower(s.word), Lower(f), Lower(more));
    }
  }

  lemma LowerAppend(a: string, b: string)
    ensures Lower(a + b) == Lower(a) + Lower(b)
  {
    var l, r := Lower(a + b), Lower(a) + Lower(b);
    forall i | 0 <= i < |l|
      ensures l[i] == r[i]
    {
      if i < |a| {
        assert (a + b)[i] == a[i];
      } else {
        assert (a + b)[i] == b[i - |a|];
      }
    }
  }

  lemma StartsWithShorter(w: string, x: string, y: string)
    requires StartsWith(w, x + y)
    ensures StartsWith(w, x)
  {
    assert w[..|x|] == w[..|x + y|][..|x|];
  }

  /** The dropdown's state: the highlighted row. */
  datatype Dropdown = Dropdown(selectedIndex: nat)

  /** `useEffect(() => setSelectedIndex(0), [filterText, suggestions])`: a new
      list or filter highlights the first row again. */
  const Reset := Dropdown(0)

  /** The highlighted row exists, or there are no rows. */
  predicate Valid(d: Dropdown, filtered: seq<ScoredWord>) {
    |filtered| == 0 || d.selectedIndex < |filtered|
  }

  /** The reset effect on a new render: when the filter text differs, or the
      suggestions prop is not the same array as before, the highlight goes back
      to the first row; otherwise it stays. The same array has the same contents. */
  function OnInputs(
    d: Dropdown,
    oldSuggestions: seq<ScoredWord>, oldFilter: string,
    newSuggestions: seq<ScoredWord>, newFilter: string,
    sameArray: bool): (e: Dropdown)
    requires sameArray ==> oldSuggestions == newSuggestions
    ensures !sameArray || oldFilter != newFilter ==> e == Reset
    ensures sameArray && oldFilter == newFilter ==> e == d
    ensures Valid(d, Filter(oldSuggestions, oldFilter)) ==> Valid(e, Filter(newSuggestions, newFilter))
  {
    if sameArray && oldFilter == newFilter then d else Reset
  }

  /** The first row is always a valid highlight, whatever the list and filter. */
  lemma ResetIsValid(suggestions: seq<ScoredWord>, filterText: string)
    ensures Valid(Reset, Filter(suggestions, filterText))
  {
  }

  /** Key presses on the list in place. */
  function PressKeys(d: Dropdown, filtered: seq<ScoredWord>, keys: seq<string>): Dropdown
    decreases |keys|
  {
    if |keys| == 0 then d else PressKeys(HandleKey(d, filtered, keys[0]).0, filtered, keys[1..])
  }

  /** From the reset state, any key presses on any filtered list keep the
      highlight on an existing row, so Enter after them chooses a listed word. */
  lemma {:induction false} KeysAfterResetStayValid(suggestions: seq<ScoredWord>, filterText: string, keys: seq<string>)
    ensures var filtered := Filter(suggestions, filterText);
      var d := PressKeys(Reset, filtered, keys);
      Valid(d, filtered) && (|filtered| > 0 ==> HandleKey(d, filtered, "Enter").1 == Some(filtered[d.selectedIndex].word))
  {
    KeysKeepValid(Reset, Filter(suggestions, filterText), keys);
  }

  lemma {:induction false} KeysKeepValid(d: Dropdown, filtered: seq<ScoredWord>, keys: seq<string>)
    requires Valid(d, filtered)
    ensures Valid(PressKeys(d, filtered, keys), filtered)
    decreases |keys|
  {
    if |keys| > 0 {
      KeysKeepValid(HandleKey(d, filtered, keys[0]).0, filtered, keys[1..]);
    }
  }

  /** `handleKeyDown`: the new state and the word handed to `onSelect`, if any. */
  function HandleKey(d: Dropdown, filtered: seq<ScoredWord>, key: string): (r: (Dropdown, Option<string>))
    ensures |filtered| == 0 ==> r == (d, None)
    ensures key != "ArrowDown" && key != "ArrowUp" ==> r.0 == d
    ensures key != "Enter" && key != "Tab" ==> r.1 == None
    ensures r.1.Some? <==> |filtered| > 0 && (key == "Enter" || key == "Tab") && d.selectedIndex < |filtered|
    ensures r.1.Some? ==> r.1.value == filtered[d.selectedIndex].word
    ensures Valid(d, filtered) ==> Valid(r.0, filtered)
  {
    if |filtered| == 0 then (d, None)
    else if key == "ArrowDown" then
      (if d.selectedIndex < |filtered| - 1 then Dropdown(d.selectedIndex + 1) else d, None)
    else if key == "ArrowUp" then
      (if d.selectedIndex > 0 then Dropdown(d.selectedIndex - 1) else d, None)
    else if key == "Enter" || key == "Tab" then
      (d, if d.selectedIndex < |filtered| then Some(filtered[d.selectedIndex].word) else None)
    else (d, None)
  }

  /** ArrowDown moves one row down, stopping at the last row. */
  lemma ArrowDownBounded(d: Dropdown, filtered: seq<ScoredWord>)
    requires |filtered| > 0 && Valid(d, filtered)
    ensures var n := HandleKey(d, filtered, "ArrowDown").0.selectedIndex;
      n == if d.selectedIndex == |filtered| - 1 then d.selectedIndex else d.selectedIndex + 1
  {
  }

  /** ArrowUp moves one row up, stopping at the first row. */
  lemma ArrowUpBounded(d: Dropdown, filtered: seq<ScoredWord>)
    requires |filtered| > 0
    ensures var n := HandleKey(d, filtered, "ArrowUp").0.selectedIndex;
      n == if d.selectedIndex == 0 then 0 else d.selectedIndex - 1
  {
  }

  /** Away from the last row, ArrowDown then ArrowUp comes back. */
  lemma DownThenUp(d: Dropdown, filtered: seq<ScoredWord>)
    requires d.selectedIndex + 1 < |filtered|
    ensures HandleKey(HandleKey(d, filtered, "ArrowDown").0, filtered, "ArrowUp").0 == d
  {
  }

  /** A chosen word comes from a suggestion that matches the filter. */
  lemma ChosenWordMatches(d: Dropdown, suggestions: seq<ScoredWord>, filterText: string, key: string)
    ensures var r := HandleKey(d, Filter(suggestions, filterText), key);
      r.1.Some? ==> exists s :: s in suggestions && Matches(s, filterText) && s.word == r.1.value
  {
    var filtered := Filter(suggestions, filterText);
    var r := HandleKey(d, filtered, key);
    if r.1.Some? {
      assert filtered[d.selectedIndex] in filtered;
    }
  }

  /** `onMouseEnter`: hovering a row highlights it. */
  function Hover(d: Dropdown, filtered: seq<ScoredWord>, index: nat): (e: Dropdown)
    requires index < |filtered|
    ensures e.selectedIndex == index && Valid(e, filtered)
  {
    Dropdown(index)
  }

  /** One rendered row: its word and whether it is highlighted. */
  datatype Row = Row(word: string, highlighted: bool)

  /** The rendered list, or nothing when no suggestion matches. */
  function Render(d: Dropdown, filtered: seq<ScoredWord>): (r: Option<seq<Row>>)
    ensures r.None? <==> |filtered| == 0
    ensures r.Some? ==> |r.value| == |filtered|
    ensures r.Some? ==> forall i :: 0 <= i < |filtered| ==>
      r.value[i].word == filtered[i].word && (r.value[i].highlighted <==> i == d.selectedIndex)
  {
    if |filtered| == 0 then None
    else Some(seq(|filtered|, i requires 0 <= i < |filtered| => Row(filtered[i].word, i == d.selectedIndex)))
  }

  /** In a valid state with rows to show, exactly one row is highlighted, and it is the one Enter would choose. */
  lemma OneHighlightedRow(d: Dropdown, filtered: seq<ScoredWord>)
    requires Valid(d, filtered) && |filtered| > 0
    ensures var rows := Render(d, filtered).value;
      && rows[d.selectedIndex].highlighted
      && (forall i :: 0 <= i < |rows| && rows[i].highlighted ==> i == d.selectedIndex)
      && HandleKey(d, filtered, "Enter").1 == Some(rows[d.selectedIndex].word)
  {
  }
}
