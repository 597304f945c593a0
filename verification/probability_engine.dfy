/** The probability engine: the whole-grid prompt sent for suggestions, the
    conversion of the answer into scored suggestions, and the per-cell row,
    column and combined probabilities read off two completion lists. */
module ProbabilityEngine {
  import opened Text
  import opened Options
  import opened GridTypes
  import opened Completions

  /** The grid as the engine sees it: the words only. */
  type WordGrid = seq<seq<string>>

  /** The marker shown in place of the target cell. */
  const TargetMarker: string := "[___]"
  /** The marker shown for an empty cell. */
  const EmptyMarker: string := ['\U{B7}']
  /** The least column width of the grid picture. */
  const MinWidth: nat := 5
  const Instruction: string := "Suggest ONE word that works well in both the row and column phrases."
  /** What reading `.map` of the missing row throws. */
  const MissingRowError: string := "Cannot read properties of undefined (reading 'map')"

  /** `cells.map(row => row.map(cell => cell.word))`. */
  function WordsOf(cells: Grid): (g: WordGrid)
    ensures |g| == |cells| && forall r :: 0 <= r < |cells| ==> |g[r]| == |cells[r]|
    ensures forall r, c :: 0 <= r < |cells| && 0 <= c < |cells[r]| ==> g[r][c] == cells[r][c].word
  {
    seq(|cells|, r requires 0 <= r < |cells| => seq(|cells[r]|, c requires 0 <= c < |cells[r]| => cells[r][c].word))
  }

  /** `grid[r][c]`, with `''` for a missing row or column (`undefined || '·'` and `'' || '·'` agree). */
  function WordOf(grid: WordGrid, r: nat, c: nat): string {
    if r < |grid| && c < |grid[r]| then grid[r][c] else ""
  }

  function Max(a: nat, b: nat): nat {
    if a < b then b else a
  }

  /** The longest `word.length` of a row, in UTF-16 code units. */
  function MaxInRow(row: seq<string>): nat {
    if |row| == 0 then 0 else Max(MaxInRow(row[..|row| - 1]), Length(row[|row| - 1]))
  }

  /** The alignment width: the longest word of any row in code units, and at least five. */
  function MaxWordLen(grid: WordGrid): nat {
    if |grid| == 0 then MinWidth else Max(MaxWordLen(grid[..|grid| - 1]), MaxInRow(grid[|grid| - 1]))
  }

  lemma {:induction false} MaxInRowBounds(row: seq<string>)
    ensures forall c :: 0 <= c < |row| ==> Length(row[c]) <= MaxInRow(row)
    ensures MaxInRow(row) == 0 || exists c :: 0 <= c < |row| && Length(row[c]) == MaxInRow(row)
  {
    if |row| > 0 {
      var pre := row[..|row| - 1];
      MaxInRowBounds(pre);
      if MaxInRow(row) != 0 && MaxInRow(row) != Length(row[|row| - 1]) {
        var c :| 0 <= c < |pre| && Length(pre[c]) == MaxInRow(pre);
        assert row[c] == pre[c];
      }
    }
  }

  /** The width bounds every word, is at least five, and is five or the length of some word. */
  lemma {:induction false} MaxWordLenBounds(grid: WordGrid)
    ensures MaxWordLen(grid) >= MinWidth
    ensures forall r, c :: 0 <= r < |grid| && 0 <= c < |grid[r]| ==> Length(grid[r][c]) <= MaxWordLen(grid)
    ensures MaxWordLen(grid) == MinWidth ||
            exists r, c :: 0 <= r < |grid| && 0 <= c < |grid[r]| && Length(grid[r][c]) == MaxWordLen(grid)
  {
    if |grid| > 0 {
      var pre, last := grid[..|grid| - 1], grid[|grid| - 1];
      MaxWordLenBounds(pre);
      MaxInRowBounds(last);
      forall r, c | 0 <= r < |grid| && 0 <= c < |grid[r]| ensures Length(grid[r][c]) <= MaxWordLen(grid) {
        if r < |pre| {
          assert grid[r] == pre[r];
        }
      }
      if MaxWordLen(grid) != MinWidth {
        if MaxWordLen(grid) == MaxWordLen(pre) {
          var r, c :| 0 <= r < |pre| && 0 <= c < |pre[r]| && Length(pre[r][c]) == MaxWordLen(pre);
          assert grid[r] == pre[r];
        } else {
          var c :| 0 <= c < |last| && Length(last[c]) == MaxInRow(last);
          assert grid[|grid| - 1][c] == last[c];
        }
      }
    }
  }

  /** `isTarget ? '[___]' : (word || '·')`. */
  function Display(word: string, isTarget: bool): string {
    if isTarget then TargetMarker else if word == "" then EmptyMarker else word
  }

  /** The padded cells of picture row `r`. */
  function PictureCells(grid: WordGrid, pos: Position, r: nat, cols: nat, width: nat): (cells: seq<string>)
    ensures |cells| == cols
  {
    seq(cols, c requires 0 <= c < cols => PadEnd(Display(WordOf(grid, r, c), r == pos.row && c == pos.col), width))
  }

  /** `Row r+1: ` and the padded cells of picture row `r`, joined by ` | `. */
  function RowLine(grid: WordGrid, pos: Position, r: nat, cols: nat, width: nat): string {
    "Row " + NatToString(r + 1) + ": " + Join(PictureCells(grid, pos, r, cols, width), " | ")
  }

  /** The words of the target's row, the target shown as the marker. */
  function RowReading(grid: WordGrid, pos: Position): (ws: seq<string>)
    requires pos.row < |grid|
    ensures |ws| == |grid[pos.row]|
    ensures forall i :: 0 <= i < |ws| ==>
      && (i == pos.col ==> ws[i] == TargetMarker)
      && (i != pos.col && grid[pos.row][i] == "" ==> ws[i] == EmptyMarker)
      && (i != pos.col && grid[pos.row][i] != "" ==> ws[i] == grid[pos.row][i])
  {
    seq(|grid[pos.row]|, i requires 0 <= i < |grid[pos.row]| => Display(grid[pos.row][i], i == pos.col))
  }

  /** The words of the target's column, top to bottom, the target shown as the marker. */
  function ColumnReading(grid: WordGrid, pos: Position): (ws: seq<string>)
    ensures |ws| == |grid|
    ensures forall i :: 0 <= i < |ws| ==>
      && (i == pos.row ==> ws[i] == TargetMarker)
      && (i != pos.row && pos.col >= |grid[i]| ==> ws[i] == EmptyMarker)
      && (i != pos.row && pos.col < |grid[i]| && grid[i][pos.col] == "" ==> ws[i] == EmptyMarker)
      && (i != pos.row && pos.col < |grid[i]| && grid[i][pos.col] != "" ==> ws[i] == grid[i][pos.col])
  {
    seq(|grid|, i requires 0 <= i < |grid| => Display(WordOf(grid, i, pos.col), i == pos.row))
  }

  /** `GRID (RxC):`. */
  function HeaderLine(rows: nat, cols: nat): string {
    "GRID (" + NatToString(rows) + "x" + NatToString(cols) + "):"
  }

  /** `TARGET: Row r+1, Column c+1`, counting from one. */
  function TargetLine(pos: Position): string {
    "TARGET: Row " + NatToString(pos.row + 1) + ", Column " + NatToString(pos.col + 1)
  }

  /** The row reading, space-joined and quoted. */
  function RowReadsLine(grid: WordGrid, pos: Position): string
    requires pos.row < |grid|
  {
    "- Row reads:    \"" + Join(RowReading(grid, pos), " ") + "\""
  }

  /** The column reading, space-joined and quoted. */
  function ColumnReadsLine(grid: WordGrid, pos: Position): string {
    "- Column reads: \"" + Join(ColumnReading(grid, pos), " ") + "\""
  }

  /** The prompt's lines: header, one picture line per row, a blank line, the
      target, its row and column readings, a blank line and the instruction. */
  function PromptLines(grid: WordGrid, pos: Position): (lines: seq<string>)
    requires 0 < |grid| && pos.row < |grid|
    ensures |lines| == |grid| + 7
    ensures lines[0] == HeaderLine(|grid|, |grid[0]|)
    ensures lines[1..|grid| + 1] == PictureLines(grid, pos)
    ensures lines[|grid| + 1..] == ["", TargetLine(pos), RowReadsLine(grid, pos), ColumnReadsLine(grid, pos), "", Instruction]
  {
    var header := [HeaderLine(|grid|, |grid[0]|)];
    var picture := PictureLines(grid, pos);
    var target := ["", TargetLine(pos), RowReadsLine(grid, pos), ColumnReadsLine(grid, pos), "", Instruction];
    ConcatSlices(header, picture, target);
    header + picture + target
  }

  /** One picture line per row, top to bottom. */
  function PictureLines(grid: WordGrid, pos: Position): (ls: seq<string>)
    requires 0 < |grid|
    ensures |ls| == |grid|
    ensures forall r :: 0 <= r < |grid| ==> ls[r] == RowLine(grid, pos, r, |grid[0]|, MaxWordLen(grid))
  {
    var cols, width := |grid[0]|, MaxWordLen(grid);
    seq(|grid|, r requires 0 <= r < |grid| => RowLine(grid, pos, r, cols, width))
  }

  /** Line `1 + r` of the prompt pictures row `r`: `Row r+1: ` and its padded cells joined by ` | `. */
  lemma PromptRowLine(grid: WordGrid, pos: Position, r: nat)
    requires 0 < |grid| && pos.row < |grid| && r < |grid|
    ensures PromptLines(grid, pos)[1 + r] ==
      "Row " + NatToString(r + 1) + ": " + Join(PictureCells(grid, pos, r, |grid[0]|, MaxWordLen(grid)), " | ")
  {
    var lines := PromptLines(grid, pos);
    assert lines[1 + r] == lines[1..|grid| + 1][r];
  }

  /** The parts of `a + b + c` are its slices. */
  lemma ConcatSlices<T>(a: seq<T>, b: seq<T>, c: seq<T>)
    ensures (a + b + c)[..|a|] == a
    ensures (a + b + c)[|a|..|a| + |b|] == b
    ensures (a + b + c)[|a| + |b|..] == c
  {
    assert (a + b + c)[|a|..|a| + |b|] == b;
  }

  /** `buildGridPrompt`: `''` for a grid without rows or without columns in its
      first row; a failure when the target row does not exist; otherwise the
      lines joined by newlines. */
  function BuildGridPrompt(grid: WordGrid, pos: Position): (r: Result<string>)
    ensures (|grid| == 0 || |grid[0]| == 0) <==> r == Success("")
    ensures r.Failure? <==> (|grid| > 0 && |grid[0]| > 0 && pos.row >= |grid|)
    ensures 0 < |grid| && 0 < |grid[0]| && pos.row < |grid| ==> r == Success(Join(PromptLines(grid, pos), "\n"))
  {
    if |grid| == 0 || |grid[0]| == 0 then Success("")
    else if pos.row >= |grid| then Failure(MissingRowError)
    else
      var lines := PromptLines(grid, pos);
      assert |lines| >= 2 && lines[0] != "";
      assert Join(lines, "\n") == lines[0] + "\n" + Join(lines[1..], "\n");
      Success(Join(lines, "\n"))
  }

  /** Every picture cell is exactly as many code units wide as the widest word, as `padEnd` counts. */
  lemma PictureCellsAligned(grid: WordGrid, pos: Position, r: nat)
    requires 0 < |grid|
    ensures var cells := PictureCells(grid, pos, r, |grid[0]|, MaxWordLen(grid));
      forall c :: 0 <= c < |cells| ==> Length(cells[c]) == MaxWordLen(grid)
  {
    MaxWordLenBounds(grid);
    BmpLength(TargetMarker);
    BmpLength(EmptyMarker);
  }

  /** The picture shows the marker in the target cell and every other word as it is. */
  lemma PictureShowsTargetAndWords(grid: WordGrid, pos: Position, r: nat, c: nat)
    requires 0 < |grid| && c < |grid[0]|
    ensures var cell := PictureCells(grid, pos, r, |grid[0]|, MaxWordLen(grid))[c];
      var shown := if r == pos.row && c == pos.col then TargetMarker
                   else if WordOf(grid, r, c) == "" then EmptyMarker else WordOf(grid, r, c);
      StartsWith(cell, shown) && forall i :: |shown| <= i < |cell| ==> cell[i] == ' '
  {
  }

  /** The readings never reveal the target's own word: any word there gives the same readings. */
  lemma ReadingsHideTarget(grid: WordGrid, pos: Position, w: string)
    requires pos.row < |grid| && pos.col < |grid[pos.row]|
    ensures var g := grid[pos.row := grid[pos.row][pos.col := w]];
      RowReading(g, pos) == RowReading(grid, pos) && ColumnReading(g, pos) == ColumnReading(grid, pos)
  {
    var g := grid[pos.row := grid[pos.row][pos.col := w]];
    assert forall i :: 0 <= i < |grid| && i != pos.row ==> WordOf(g, i, pos.col) == WordOf(grid, i, pos.col);
  }

  /** A suggestion as `getSuggestions` returns it. */
  datatype ScoredWord = ScoredWord(word: string, probability: real, combinedScore: real)

  /** `getSuggestions`: no request for an empty prompt; otherwise each word the
      grid-suggestion service returns, in its order, scored by its probability. */
  function GetSuggestions(
    grid: WordGrid,
    pos: Position,
    gridSuggestions: string -> Result<seq<WordSuggestion>>): (r: Result<seq<ScoredWord>>)
    ensures (|grid| == 0 || |grid[0]| == 0) ==> r == Success([])
    ensures r.Success? && (|grid| > 0 && |grid[0]| > 0 && pos.row < |grid|) ==>
      var answer := gridSuggestions(BuildGridPrompt(grid, pos).value);
      && answer.Success?
      && |r.value| == |answer.value|
      && forall i :: 0 <= i < |r.value| ==>
           r.value[i] == ScoredWord(answer.value[i].word, answer.value[i].probability, answer.value[i].probability)
    ensures |grid| > 0 && |grid[0]| > 0 && pos.row < |grid| ==>
      var answer := gridSuggestions(BuildGridPrompt(grid, pos).value);
      && (r.Success? <==> answer.Success?)
      && (answer.Failure? ==> r == Failure(answer.error))
    ensures |grid| > 0 && |grid[0]| > 0 && pos.row >= |grid| ==> r == Failure(MissingRowError)
  {
    match BuildGridPrompt(grid, pos)
    case Failure(e) => Failure(e)
    case Success(prompt) =>
      if prompt == "" then Success([])
      else
        match gridSuggestions(prompt)
        case Failure(e) => Failure(e)
        case Success(ws) =>
          Success(seq(|ws|, i requires 0 <= i < |ws| => ScoredWord(ws[i].word, ws[i].probability, ws[i].probability)))
  }

  /** An empty grid never reaches the service: the answer is the same whatever the service does. */
  lemma EmptyGridMakesNoRequest(grid: WordGrid, pos: Position, s1: string -> Result<seq<WordSuggestion>>, s2: string -> Result<seq<WordSuggestion>>)
    requires |grid| == 0 || |grid[0]| == 0
    ensures GetSuggestions(grid, pos, s1) == GetSuggestions(grid, pos, s2) == Success([])
  {
  }

  /** The probability of the first suggestion for `w`, or 0 when none matches (`find(...)?.probability ?? 0`). */
  function Lookup(sugs: seq<WordSuggestion>, w: string): (p: real)
    ensures (forall i :: 0 <= i < |sugs| ==> sugs[i].word != w) ==> p == 0.0
    ensures (forall i :: 0 <= i < |sugs| ==> 0.0 <= sugs[i].probability <= 1.0) ==> 0.0 <= p <= 1.0
  {
    if |sugs| == 0 then 0.0
    else if sugs[0].word == w then sugs[0].probability
    else
      assert forall i :: 1 <= i < |sugs| ==> sugs[i] == sugs[1..][i - 1];
      Lookup(sugs[1..], w)
  }

  /** The lookup answers 0 when no suggestion is for `w`, and otherwise the
      probability of the first suggestion for `w`. */
  lemma {:induction false} LookupSpec(sugs: seq<WordSuggestion>, w: string)
    ensures (forall i :: 0 <= i < |sugs| ==> sugs[i].word != w) ==> Lookup(sugs, w) == 0.0
    ensures (exists i :: 0 <= i < |sugs| && sugs[i].word == w) ==>
      exists i :: 0 <= i < |sugs| && sugs[i].word == w && Lookup(sugs, w) == sugs[i].probability
              && forall j :: 0 <= j < i ==> sugs[j].word != w
  {
    if |sugs| > 0 && sugs[0].word != w {
      LookupSpec(sugs[1..], w);
      assert forall i :: 1 <= i < |sugs| ==> sugs[i] == sugs[1..][i - 1];
      if exists i :: 0 <= i < |sugs| && sugs[i].word == w {
        var i :| 0 <= i < |sugs| && sugs[i].word == w;
        assert sugs[1..][i - 1].word == w;
        var k :| 0 <= k < |sugs[1..]| && sugs[1..][k].word == w && Lookup(sugs[1..], w) == sugs[1..][k].probability
              && forall j :: 0 <= j < k ==> sugs[1..][j].word != w;
        assert sugs[k + 1].word == w;
      }
    }
  }

  /** The lookup answers the probability of the first suggestion for `w`. */
  lemma {:induction false} LookupFirst(sugs: seq<WordSuggestion>, w: string, i: nat)
    requires i < |sugs| && sugs[i].word == w
    requires forall j :: 0 <= j < i ==> sugs[j].word != w
    ensures Lookup(sugs, w) == sugs[i].probability
  {
    if i > 0 {
      assert sugs[0].word != w;
      LookupFirst(sugs[1..], w, i - 1);
    }
  }

  /** `p || 0.01`: a zero probability counts as 0.01 in the combined score. */
  function Floor(p: real): (q: real)
    ensures q != 0.0
    ensures p != 0.0 ==> q == p
  {
    if p == 0.0 then 0.01 else p
  }

  /** `Math.sqrt((rowProb || 0.01) * (colProb || 0.01))`, the square root a parameter. */
  function CombinedScore(rowP: real, colP: real, sqrt: real -> real): real {
    sqrt(Floor(rowP) * Floor(colP))
  }

  /** The three numbers `calculateCellProbabilities` resolves with. */
  datatype EngineProbabilities = EngineProbabilities(rowProbability: real, colProbability: real, combinedProbability: real)

  /** `getWordCompletions` over a configured client, with the default number of completions. */
  function ClientCompletions(clientReady: bool, request: (string, nat) -> Result<seq<Option<string>>>): string -> Result<seq<WordSuggestion>> {
    (prompt: string) => GetWordCompletions(clientReady, prompt, DefaultCompletions, request)
  }

  /** The completions for one phrase: none asked for when nothing precedes the cell. */
  function PhraseCompletions(context: PhraseContext, complete: string -> Result<seq<WordSuggestion>>): (r: Result<seq<WordSuggestion>>)
    ensures context.before == [] ==> r == Success([])
    ensures context.before != [] ==> r == complete(Join(context.before, " "))
  {
    if |context.before| > 0 then complete(Join(context.before, " ")) else Success([])
  }

  /** `calculateCellProbabilities` over a completion service `complete` (in the
      application `ClientCompletions`): the probability of the lower-case trimmed
      word among the completions of the words before it in its row and in its
      column, and the square root (`sqrt`, a parameter) of their product with a
      zero counted as 0.01. Either completion failing fails the whole, the row's
      first. */
  function CalculateCellProbabilities(
    rowContext: PhraseContext,
    colContext: PhraseContext,
    word: string,
    complete: string -> Result<seq<WordSuggestion>>,
    sqrt: real -> real): (r: Result<EngineProbabilities>)
    ensures r.Success? <==> PhraseCompletions(rowContext, complete).Success? && PhraseCompletions(colContext, complete).Success?
    ensures PhraseCompletions(rowContext, complete).Failure? ==> r == Failure(PhraseCompletions(rowContext, complete).error)
    ensures r.Success? ==> r.value.combinedProbability == CombinedScore(r.value.rowProbability, r.value.colProbability, sqrt)
    ensures r.Success? && rowContext.before == [] ==> r.value.rowProbability == 0.0
    ensures r.Success? && colContext.before == [] ==> r.value.colProbability == 0.0
  {
    Combine(PhraseCompletions(rowContext, complete), PhraseCompletions(colContext, complete), Trim(Lower(word)), sqrt)
  }

  /** The probabilities of `w` read off the row's and the column's completions. */
  function Combine(
    rowC: Result<seq<WordSuggestion>>,
    colC: Result<seq<WordSuggestion>>,
    w: string,
    sqrt: real -> real): (r: Result<EngineProbabilities>)
    ensures r.Success? <==> rowC.Success? && colC.Success?
    ensures rowC.Failure? ==> r == Failure(rowC.error)
    ensures rowC.Success? && colC.Failure? ==> r == Failure(colC.error)
    ensures r.Success? ==> r.value.combinedProbability == CombinedScore(r.value.rowProbability, r.value.colProbability, sqrt)
  {
    match rowC
    case Failure(e) => Failure(e)
    case Success(rowSugs) =>
      match colC
      case Failure(e) => Failure(e)
      case Success(colSugs) =>
        var rowP := Lookup(rowSugs, w);
        var colP := Lookup(colSugs, w);
        Success(EngineProbabilities(rowP, colP, CombinedScore(rowP, colP, sqrt)))
  }

  /** The calculation fails exactly when a completion fails, with the row's
      error first; otherwise each probability is that of the first suggestion
      for the word, 0 when none matches, and the combined one is `sqrt` of their
      product with a zero counted as 0.01. */
  lemma CombineSpec(rowC: Result<seq<WordSuggestion>>, colC: Result<seq<WordSuggestion>>, w: string, sqrt: real -> real)
    ensures var r := Combine(rowC, colC, w, sqrt);
      r.Success? ==>
        && ((forall i :: 0 <= i < |rowC.value| ==> rowC.value[i].word != w) ==> r.value.rowProbability == 0.0)
        && ((forall i :: 0 <= i < |colC.value| ==> colC.value[i].word != w) ==> r.value.colProbability == 0.0)
    ensures var r := Combine(rowC, colC, w, sqrt);
      r.Success? ==>
        && (forall i :: 0 <= i < |rowC.value| && rowC.value[i].word == w && (forall j :: 0 <= j < i ==> rowC.value[j].word != w) ==>
              r.value.rowProbability == rowC.value[i].probability)
        && (forall i :: 0 <= i < |colC.value| && colC.value[i].word == w && (forall j :: 0 <= j < i ==> colC.value[j].word != w) ==>
              r.value.colProbability == colC.value[i].probability)
  {
    if rowC.Success? && colC.Success? {
      var r := Combine(rowC, colC, w, sqrt);
      assert r.value.rowProbability == Lookup(rowC.value, w);
      assert r.value.colProbability == Lookup(colC.value, w);
      FirstMatchIsLookedUp(rowC.value, w);
      FirstMatchIsLookedUp(colC.value, w);
    } else {
      assert Combine(rowC, colC, w, sqrt).Failure?;
    }
  }

  /** Every first suggestion for `w` carries the looked-up probability. */
  lemma FirstMatchIsLookedUp(sugs: seq<WordSuggestion>, w: string)
    ensures forall i :: 0 <= i < |sugs| && sugs[i].word == w && (forall j :: 0 <= j < i ==> sugs[j].word != w) ==>
      Lookup(sugs, w) == sugs[i].probability
  {
    forall i | 0 <= i < |sugs| && sugs[i].word == w && (forall j :: 0 <= j < i ==> sugs[j].word != w)
      ensures Lookup(sugs, w) == sugs[i].probability
    {
      LookupFirst(sugs, w, i);
    }
  }

  /** A direction with no preceding words asks for nothing and scores 0. */
  lemma NoPrecedingWordsScoresZero(
    rowContext: PhraseContext, colContext: PhraseContext, word: string,
    complete: string -> Result<seq<WordSuggestion>>, sqrt: real -> real)
    ensures var r := CalculateCellProbabilities(rowContext, colContext, word, complete, sqrt);
      && (rowContext.before == [] && r.Success? ==> r.value.rowProbability == 0.0)
      && (colContext.before == [] && r.Success? ==> r.value.colProbability == 0.0)
  {
    CombineSpec(PhraseCompletions(rowContext, complete), PhraseCompletions(colContext, complete), Trim(Lower(word)), sqrt);
  }

  /** With no words before the cell in either direction nothing is requested and
      both probabilities are 0, whether or not a client is configured. */
  lemma NoPrecedingWordsNeedsNoClient(
    rowContext: PhraseContext, colContext: PhraseContext, word: string,
    clientReady: bool, request: (string, nat) -> Result<seq<Option<string>>>, sqrt: real -> real)
    requires rowContext.before == [] && colContext.before == []
    ensures CalculateCellProbabilities(rowContext, colContext, word, ClientCompletions(clientReady, request), sqrt)
         == Success(EngineProbabilities(0.0, 0.0, sqrt(0.01 * 0.01)))
  {
  }

  /** Without a client, any preceding word makes the calculation fail with the client error. */
  lemma NoClientFails(
    rowContext: PhraseContext, colContext: PhraseContext, word: string,
    request: (string, nat) -> Result<seq<Option<string>>>, sqrt: real -> real)
    requires rowContext.before != [] || colContext.before != []
    ensures CalculateCellProbabilities(rowContext, colContext, word, ClientCompletions(false, request), sqrt)
         == Failure("OpenAI client not initialized.")
  {
    var complete := ClientCompletions(false, request);
    if rowContext.before != [] {
      assert PhraseCompletions(rowContext, complete) == GetWordCompletions(false, Join(rowContext.before, " "), DefaultCompletions, request);
    } else {
      assert PhraseCompletions(colContext, complete) == GetWordCompletions(false, Join(colContext.before, " "), DefaultCompletions, request);
    }
  }

  /** Only the words before the cell matter: the words after it are never sent. */
  lemma WordsAfterAreIgnored(
    rowContext: PhraseContext, colContext: PhraseContext, rowAfter: seq<string>, colAfter: seq<string>, word: string,
    complete: string -> Result<seq<WordSuggestion>>, sqrt: real -> real)
    ensures CalculateCellProbabilities(rowContext, colContext, word, complete, sqrt)
         == CalculateCellProbabilities(rowContext.(after := rowAfter), colContext.(after := colAfter), word, complete, sqrt)
  {
    assert PhraseCompletions(rowContext.(after := rowAfter), complete) == PhraseCompletions(rowContext, complete);
    assert PhraseCompletions(colContext.(after := colAfter), complete) == PhraseCompletions(colContext, complete);
  }

  /** The word is matched without regard to ASCII case. */
  lemma WordCaseIgnored(
    rowContext: PhraseContext, colContext: PhraseContext, word: string,
    complete: string -> Result<seq<WordSuggestion>>, sqrt: real -> real)
    ensures CalculateCellProbabilities(rowContext, colContext, word, complete, sqrt)
         == CalculateCellProbabilities(rowContext, colContext, Lower(word), complete, sqrt)
  {
    LowerIdempotent(word);
    assert Trim(Lower(Lower(word))) == Trim(Lower(word));
  }
}
