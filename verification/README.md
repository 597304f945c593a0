# gridpoem core in Dafny

gridpoem is a word-grid poem editor. The user fills a rows x cols grid of
words (2 to 10 each way, 5 x 5 at start). Each word is read along its row and
along its column. A language model is asked how likely each word is after the
words before it, and the editor shades the cell accordingly. For the selected
cell it offers suggestions in a panel and in an autocomplete dropdown. The grid
is driven from the keyboard: arrows, Tab, Enter, Escape, Backspace and
undo/redo shortcuts.

This project models the editor's logic as immutable datatypes and pure
functions, with a few methods where the source loops. Each module follows one
source file:

| module (file) | models |
|---|---|
| `Text` (text.dfy) | JavaScript `trim` and its white-space set, ASCII `toLowerCase`, `join`, `split` on one character, `padEnd`, `Number` of a digit string and `parseInt(s, 10)` |
| `Options` (options.dfy) | `Option` for `null`/`undefined`, and `Result` for a thrown error or a rejected promise |
| `GridTypes`, `GridUtils` (grid_types.dfy, grid_utils.dfy) | `Cell`, `Position`, `PhraseContext`, and `createEmptyCell`/`createEmptyGrid` |
| `GridStore` (grid_store.dfy) | the grid store's state and its five actions |
| `UIStore` (ui_store.dfy) | the UI store's state and its seven actions |
| `PhraseUtils` (phrase_utils.dfy) | row and column context, the affected cells of an edit, and the `___` prompt |
| `Completions` (completions.dfy) | `getWordCompletions` after the HTTP call: normalise, count, divide, stable sort, cut to 8 |
| `ProbabilityEngine` (probability_engine.dfy) | `buildGridPrompt`, `getSuggestions` and `calculateCellProbabilities` |
| `Probabilities` (probabilities.dfy) | the probability hook: the key round trip, snapshot diffing, the pending queue and its processing |
| `Suggestions` (suggestions.dfy) | the suggestion hook's request counter as an event machine |
| `Cache` (cache.dfy) | the probability cache as an LRU sequence of entries with normalised keys |
| `Navigation` (navigation.dfy) | selection moves, Tab order, `confirmEdit` and the `handleKeyDown` decision table |
| `GridSizeControls` (grid_size_controls.dfy) | the +/- buttons and number inputs that resize the grid |
| `AutoComplete` (autocomplete.dfy) | the prefix filter and the highlighted-row state machine |
| `ColorUtils` (color_utils.dfy) | probability buckets for the CSS class and the colour band |

The source's effectful parts become parameters:
- The language-model service is a function from prompt to `Result`. Its client handle is a boolean.
- `Math.sqrt` is a function parameter `sqrt`.
- The environment's API key is an `Option<string>`.
- Asynchronous completions of requests are events.

## Model

| member | source | states |
|---|---|---|
| Text.TrimRemovesOnlyOuterWhitespace | src/utils/phraseUtils.ts:17 | `trim()` returns a contiguous slice of its input, and everything cut off on either side is white space |
| Text.TrimEmptyIffAllWhitespace | src/hooks/useProbabilities.ts:47 | `word.trim()` is empty exactly when every character of the word is white space |
| Text.Trim | src/services/openai.ts:37 | the trimmed text is no longer than the input and starts and ends with a non-white-space character, or is empty |
| Text.TrimmedTrimIsIdentity | src/services/cache.ts:14 | text with no white space at either end is unchanged by `trim()` |
| Text.Lower | src/services/cache.ts:14 | `toLowerCase()` keeps the length and lowers each character in place (ASCII letters only) |
| Text.LowerIdempotent | src/services/cache.ts:14 | lowering twice is the same as lowering once |
| Text.Length | src/services/probabilityEngine.ts:18 | a string's `length` counts UTF-16 code units: at least one per character and at most two |
| Text.LengthAppend | src/services/probabilityEngine.ts:32 | the `length` of a concatenation is the sum of the `length`s |
| Text.BmpLength | src/services/probabilityEngine.ts:31 | text inside the Basic Multilingual Plane, such as `[___]` and `·`, has one code unit per character |
| Text.AstralCharIsTwoUnits | src/services/probabilityEngine.ts:18 | a character outside the Basic Multilingual Plane, such as U+1F319, has `length` 2 |
| Text.PadEnd | src/services/probabilityEngine.ts:32 | `padEnd(width)` keeps the text as a prefix, only adds spaces, and reaches exactly `width` UTF-16 code units unless the text is already that long |
| Text.NatToString | src/hooks/useProbabilities.ts:23 | a number's decimal text is non-empty and all digits |
| Text.ParseNatToString | src/hooks/useProbabilities.ts:27 | `Number` of a number's decimal text gives the number back |
| Text.NatToStringInjective | src/hooks/useProbabilities.ts:23 | different numbers have different decimal texts |
| Text.SplitNoSeparator | src/hooks/useProbabilities.ts:27 | `split` of text without the separator is the one-piece list |
| Text.SplitAtSeparator | src/hooks/useProbabilities.ts:27 | `split` of `a + sep + b` (no `sep` in `a`) is `a` followed by the pieces of `b` |
| Text.LeadingDigits | src/components/Toolbar/GridSizeControls.tsx:26 | the digits `parseInt` reads are the longest all-digit prefix: the next character, if any, is not a digit |
| Text.ParseIntSkipsWhitespace | src/components/Toolbar/GridSizeControls.tsx:26 | `parseInt` ignores leading white space |
| Text.ParseIntReadsDigits | src/components/Toolbar/GridSizeControls.tsx:26 | `parseInt` reads an unsigned digit run up to the first non-digit |
| Text.ParseIntReadsNegative | src/components/Toolbar/GridSizeControls.tsx:26 | a leading minus negates the digit run that follows |
| Text.ParseIntReadsNumber | src/components/Toolbar/GridSizeControls.tsx:26-27 | after any white space, the optional minus and decimal text of any integer is read back as that integer, whatever non-digit text follows |
| Text.ParseIntWithoutDigits | src/components/Toolbar/GridSizeControls.tsx:26-27 | text with no digit parses to NaN (`None`), so the input handler ignores it |
| GridUtils.CellIdInjective | src/utils/gridUtils.ts:8 | the id `"row-col"` determines the coordinates: different cells never share an id |
| GridUtils.EmptyGrid | src/store/gridStore.ts:39-43 | `createEmptyGrid(rows, cols)` has `rows` rows of `cols` cells, each blank and carrying the id of its coordinates |
| GridUtils.CreateEmptyGrid | src/utils/gridUtils.ts:19-31 | the nested loop builds `rows` rows of `cols` cells, cell `(r, c)` being `createEmptyCell(r, c)`, the same grid as the store's version |
| GridUtils.EmptyGridWithNoRows | src/utils/gridUtils.ts:19-22 | zero rows give the empty grid, whatever the column count |
| GridStore.Initial | src/store/gridStore.ts:48-50 | the store starts as a 5 x 5 grid of blank cells and satisfies the shape invariant |
| GridStore.MapAt | src/store/gridStore.ts:54-60 | the `map`/`map` update changes exactly the cell at the position, keeps the shape, and is the identity for a position outside the grid |
| GridStore.SetCell | src/store/gridStore.ts:52-62 | only the target's word changes, its id and probabilities stay, no other cell changes, the invariant is kept, and an outside position changes nothing |
| GridStore.SetCellProbabilities | src/store/gridStore.ts:64-74 | only the target's three probabilities change, its word and id stay, no other cell changes, and an outside position changes nothing |
| GridStore.ClearCell | src/store/gridStore.ts:76-86 | the target becomes a blank cell with id `"r-c"` and no other cell changes; an outside position changes nothing |
| GridStore.ResizeGrid | src/store/gridStore.ts:88-102 | the new grid has the requested dimensions; a cell inside the old grid keeps its word and probabilities and is re-stamped with its id; every other cell is blank |
| GridStore.ClearGrid | src/store/gridStore.ts:104-107 | every cell becomes blank and the dimensions are kept |
| GridStore.ResizeTwice | src/store/gridStore.ts:88-102 | after two resizes a cell keeps its content exactly when it lies inside all three grids |
| GridStore.ShrinkThenGrowLosesCorner | src/store/gridStore.ts:92-98 | shrinking 3 x 3 to 2 x 2 and growing back blanks the word at (2, 2) and keeps the 2 x 2 overlap |
| UIStore.Initial | src/store/uiStore.ts:27-33 | no selection, no edit, `editValue` `''`, mode balanced, and the API key from the environment or `''` |
| UIStore.SelectCell | src/store/uiStore.ts:35-41 | the selection becomes the position, any edit is dropped, and mode and key are kept |
| UIStore.ClearSelection | src/store/uiStore.ts:43-49 | no selection and no edit, with mode and key kept |
| UIStore.StartEditing | src/store/uiStore.ts:51-56 | editing starts with the given value (`''` when absent) and the given select-on-focus flag; the selection is kept |
| UIStore.StopEditing | src/store/uiStore.ts:58-63 | editing, value and select-on-focus are cleared and the selection is kept |
| UIStore.SetEditValue | src/store/uiStore.ts:65-68 | only the edit value changes |
| UIStore.SetSuggestionMode | src/store/uiStore.ts:70-73 | only the mode changes |
| UIStore.SetApiKey | src/store/uiStore.ts:75-78 | only the API key changes |
| UIStore.ActionsKeepValid | src/store/uiStore.ts:35-78 | no sequence of actions ever leaves select-on-focus set without an edit in progress |
| UIStore.KeyAndModeChangeOnlyByTheirSetters | src/store/uiStore.ts:35-78 | a sequence of actions with no `setApiKey` or `setSuggestionMode` leaves the key and the mode as they were |
| PhraseUtils.NonBlankWords | src/utils/phraseUtils.ts:16-21 | the collected words are never more than the words scanned |
| PhraseUtils.NonBlankWordsAreTrimmed | src/utils/phraseUtils.ts:17-20 | every collected word is non-empty and trimmed |
| PhraseUtils.NonBlankWordsAppend | src/utils/phraseUtils.ts:15-29 | collecting keeps scan order: collecting a concatenation concatenates the collections |
| PhraseUtils.NonBlankWordsMembers | src/utils/phraseUtils.ts:16-21 | a word is collected exactly when it is the non-empty trimmed text of some scanned word |
| PhraseUtils.RowContext | src/utils/phraseUtils.ts:6-32 | a row index with no row gives `{before: [], after: []}`; otherwise `before` is the trimmed non-empty words left of the position and `after` those right of it, each in left-to-right order with repeats kept |
| PhraseUtils.ColumnContext | src/utils/phraseUtils.ts:37-58 | `before` is the trimmed non-empty words above the position and `after` those below it, each top to bottom with repeats kept, a row too short for the column giving nothing; `before` holds at most one word per row above, and with the position's row present the two together hold at most one word per other row |
| PhraseUtils.ContextWordsTrimmed | src/utils/phraseUtils.ts:15-56 | every word of a row or column context is non-empty and has no white space at either end |
| PhraseUtils.RowContextTrimmed | src/utils/phraseUtils.ts:15-29 | the row context's words are non-empty and trimmed |
| PhraseUtils.ColumnContextTrimmed | src/utils/phraseUtils.ts:41-55 | the column context's words are non-empty and trimmed |
| PhraseUtils.RowContextMembers | src/utils/phraseUtils.ts:6-32 | a word is in `before` exactly when it is the trimmed non-empty word of a cell left of the position, and in `after` exactly when of a cell to its right |
| PhraseUtils.ColumnContextMembers | src/utils/phraseUtils.ts:37-58 | the same down the column: above goes to `before`, below goes to `after`, and rows without that column contribute nothing |
| PhraseUtils.ColumnAboveMembers | src/utils/phraseUtils.ts:41-47 | a word is in the column's `before` exactly when it is the trimmed non-empty word of a cell above |
| PhraseUtils.ColumnBelowMembers | src/utils/phraseUtils.ts:49-55 | a word is in the column's `after` exactly when it is the trimmed non-empty word of a cell below |
| PhraseUtils.ContextIgnoresTarget | src/utils/phraseUtils.ts:16-28 | rewriting the target cell changes neither of its contexts |
| PhraseUtils.ColumnContextIsTransposedRowContext | src/utils/phraseUtils.ts:37-58 | the column context of a rectangular grid is the row context of its transpose |
| PhraseUtils.IndicesExcept | src/utils/phraseUtils.ts:67-78 | the loop with `!==` visits every index below the bound except the skipped one, ascending, each once |
| PhraseUtils.AffectedCells | src/utils/phraseUtils.ts:63-84 | the list is never empty and ends with the position itself, and every entry shares the position's row or its column |
| PhraseUtils.AffectedCellsSpec | src/utils/phraseUtils.ts:63-84 | an in-range position affects `(cols-1)+(rows-1)+1` pairwise-distinct positions, with the position itself last |
| PhraseUtils.AffectedCellsComplete | src/utils/phraseUtils.ts:63-84 | every other cell of the position's row and column inside the grid is affected, and so is the position |
| PhraseUtils.AffectedCellsSound | src/utils/phraseUtils.ts:63-84 | only the position and cells of its row or column inside the grid are affected |
| PhraseUtils.ContextToPrompt | src/utils/phraseUtils.ts:89-104 | the prompt is the `before` words and a space (if any), then `___`, then a space and the `after` words (if any); there is no blank segment |
| PhraseUtils.JoinOfTwo | src/utils/phraseUtils.ts:103 | joining two parts puts one separator between them |
| PhraseUtils.JoinOfThree | src/utils/phraseUtils.ts:103 | joining three parts puts one separator between each neighbouring pair |
| PhraseUtils.SunRisesPrompt | src/utils/phraseUtils.ts:89-104 | `{before: ["sun"], after: ["rises"]}` renders as `"sun ___ rises"` |
| Completions.FirstToken | src/services/openai.ts:67 | `split(/\s+/)[0]` is the prefix before the first white space: it holds no white space and stops at one |
| Completions.KeepWordChars | src/services/openai.ts:67 | deleting `[^a-z'-]` (case-insensitive) leaves only letters, `'` and `-` that were in the text |
| Completions.NormaliseChoice | src/services/openai.ts:64-68 | a kept word is non-empty and made of lower-case letters, `'` and `-` only |
| Completions.NormalisedWords | src/services/openai.ts:63-68 | skipped choices contribute nothing: every collected word is non-empty |
| Completions.FirstIndex | src/services/openai.ts:61-79 | the first occurrence of a word, found exactly when the word occurs |
| Completions.TallySpec | src/services/openai.ts:61-79 | the word map has each word once, its count is the number of occurrences, its words are exactly those that occur, and they are in first-occurrence order |
| Completions.ToSuggestions | src/services/openai.ts:82-88 | each map entry becomes its word with probability count over `numCompletions`, in map order |
| Completions.SortDescending | src/services/openai.ts:90 | the sort is a permutation and orders by non-increasing probability |
| Completions.SortKeepsTieOrder | src/services/openai.ts:90 | the sort is stable: entries with equal probability keep their input order |
| Completions.InsertSorted | src/services/openai.ts:90 | inserting one entry into a sorted list keeps it sorted |
| Completions.InsertKeepsTieOrder | src/services/openai.ts:90 | inserting an entry that comes earlier in input order keeps equal-probability entries in input order |
| Completions.PermutationKeepsDistinctWords | src/services/openai.ts:90 | reordering a list whose words are distinct keeps them distinct |
| Completions.RankedEntries | src/services/openai.ts:61-90 | before the cut, the sorted list holds every normalised word exactly once, each with its count over `numCompletions` |
| Completions.RankedTieOrder | src/services/openai.ts:61-90 | in the sorted list, words of equal probability appear in the order they first occurred among the choices |
| Completions.Aggregate | src/services/openai.ts:60-91 | at most 8 suggestions, and at least one exactly when some choice yields a non-empty normalised word |
| Completions.AggregateSpec | src/services/openai.ts:61-91 | the result has at most 8 entries, sorted by non-increasing probability, each word once, each a normalised choice with probability count over `numCompletions`, and ties in first-occurrence order |
| Completions.AggregateDropsOnlyLessProbable | src/services/openai.ts:90-91 | a word is left out only when 8 entries were kept, each at least as probable as it |
| Completions.Take | src/services/openai.ts:91 | `slice(0, n)` is a prefix of at most `n` entries, and the whole list when it is shorter |
| Completions.GetWordCompletions | src/services/openai.ts:29-91 | no client fails before any request; a blank prompt gives `[]` without a request; otherwise the trimmed prompt is sent, a failed request passes its error on, and a successful one gives the aggregated choices; any success has at most 8 entries |
| ProbabilityEngine.WordsOf | src/hooks/useSuggestions.ts:54-56 | the word grid has the cells' shape and each entry is its cell's word |
| ProbabilityEngine.MaxWordLenBounds | src/services/probabilityEngine.ts:15-20 | the column width is at least 5, at least every word's `length` in UTF-16 code units, and is either 5 or some word's `length` |
| ProbabilityEngine.MaxInRowBounds | src/services/probabilityEngine.ts:17-19 | a row's longest `length`, in UTF-16 code units, bounds every word of the row and is the `length` of one of them |
| ProbabilityEngine.BuildGridPrompt | src/services/probabilityEngine.ts:7-53 | the prompt is `''` exactly for a grid with no rows or no columns in its first row, the call throws exactly when the target row does not exist, and otherwise the prompt is the prompt lines joined by newlines |
| ProbabilityEngine.PromptLines | src/services/probabilityEngine.ts:22-50 | `rows + 7` lines: the `GRID (RxC):` header, one picture line per row, then a blank line, `TARGET: Row r+1, Column c+1`, the quoted row reading, the quoted column reading, a blank line and the instruction |
| ProbabilityEngine.PictureLines | src/services/probabilityEngine.ts:26-35 | one picture line per row, top to bottom, each `Row r+1: ` with that row's padded cells |
| ProbabilityEngine.PromptRowLine | src/services/probabilityEngine.ts:26-35 | line `1 + r` of the prompt is `Row r+1: ` followed by row `r`'s padded cells joined by ` \| ` |
| ProbabilityEngine.PictureCells | src/services/probabilityEngine.ts:27-33 | each picture row has one cell per column of the first row |
| ProbabilityEngine.PictureCellsAligned | src/services/probabilityEngine.ts:32 | every picture cell is exactly the column width in UTF-16 code units, as `padEnd` counts, so the columns line up |
| ProbabilityEngine.PictureShowsTargetAndWords | src/services/probabilityEngine.ts:29-32 | a picture cell shows `[___]` for the target, `·` for an empty cell and the word otherwise, followed by spaces only |
| ProbabilityEngine.RowReading | src/services/probabilityEngine.ts:38-40 | the row reading has one entry per cell of the target's row: `[___]` at the target, `·` for an empty word, and the word itself otherwise |
| ProbabilityEngine.ColumnReading | src/services/probabilityEngine.ts:41-43 | the column reading has one entry per row: `[___]` at the target's row, `·` for an empty word or a row too short for the column, and the word itself otherwise |
| ProbabilityEngine.ReadingsHideTarget | src/services/probabilityEngine.ts:38-43 | the readings never show the target's own word: any word there gives the same readings |
| ProbabilityEngine.GetSuggestions | src/services/probabilityEngine.ts:59-76 | an empty grid gives `[]` without a request; a target row that does not exist fails with the `map` error; otherwise the result succeeds exactly when the service does, a service failure passes its error on, and each word the service returns is kept, in order, with `combinedScore` equal to its probability |
| ProbabilityEngine.EmptyGridMakesNoRequest | src/services/probabilityEngine.ts:62-66 | for an empty grid the answer does not depend on the service, so no request is made |
| ProbabilityEngine.LookupSpec | src/services/probabilityEngine.ts:95-99 | the probability is that of the first completion equal to the word, or 0 when none matches |
| ProbabilityEngine.Lookup | src/services/probabilityEngine.ts:95-99 | with no completion equal to the word the probability is 0; when every completion's probability lies in [0, 1], so does the looked-up one |
| ProbabilityEngine.LookupFirst | src/services/probabilityEngine.ts:95-98 | when completion `i` is the first equal to the word, the probability is that of completion `i` |
| ProbabilityEngine.FirstMatchIsLookedUp | src/services/probabilityEngine.ts:95-98 | every completion that is the first equal to the word carries the looked-up probability |
| ProbabilityEngine.Floor | src/services/probabilityEngine.ts:101 | `p \|\| 0.01` is never zero and is `p` whenever `p` is not zero |
| ProbabilityEngine.PhraseCompletions | src/services/probabilityEngine.ts:90-91 | completions are requested, for the `before` words joined by spaces, only when `before` is non-empty; otherwise the answer is `[]` |
| ProbabilityEngine.CalculateCellProbabilities | src/services/probabilityEngine.ts:82-105 | the result succeeds exactly when both completion requests do, a failed row request passes its error on, a direction with no preceding words scores 0, and the combined probability is `sqrt` of the product with 0 read as 0.01 |
| ProbabilityEngine.Combine | src/services/probabilityEngine.ts:89-104 | the result fails exactly when a completion list failed, with the row's error first, and the combined probability is `sqrt` of the product of the two with 0 read as 0.01 |
| ProbabilityEngine.CombineSpec | src/services/probabilityEngine.ts:94-99 | on success the row and column probabilities are those of the first completion equal to the word in each list, or 0 when none is |
| ProbabilityEngine.NoPrecedingWordsScoresZero | src/services/probabilityEngine.ts:89-99 | a direction with no preceding words scores 0 |
| ProbabilityEngine.NoPrecedingWordsNeedsNoClient | src/services/probabilityEngine.ts:89-104 | with no preceding words either way, nothing is requested and the answer is (0, 0, sqrt(0.0001)) even without a client |
| ProbabilityEngine.NoClientFails | src/services/openai.ts:33-35 | without a client, any preceding word makes the calculation fail with the client error |
| ProbabilityEngine.WordsAfterAreIgnored | src/services/probabilityEngine.ts:89-92 | the words after the cell never influence the result |
| ProbabilityEngine.WordCaseIgnored | src/services/probabilityEngine.ts:87 | the word is matched lower-cased: its ASCII case does not matter |
| Probabilities.PositionToKey | src/hooks/useProbabilities.ts:23 | the key splits at `-` into exactly the row's and the column's decimal digits |
| Probabilities.KeyPieces | src/hooks/useProbabilities.ts:23 | the cell id splits at `-` into exactly the row's and the column's decimal digits |
| Probabilities.KeyToPosition | src/hooks/useProbabilities.ts:26-29 | the key of any position decodes to that position, and a key without `-` decodes to no position (`NaN`) |
| Probabilities.KeyDecodes | src/hooks/useProbabilities.ts:26-29 | a key without `-` is one piece, and the digits of a position's key parse back to its coordinates |
| Probabilities.KeyRoundTrip | src/hooks/useProbabilities.ts:23-29 | `keyToPosition(positionToKey(p))` gives back `p` |
| Probabilities.KeysIdentifyPositions | src/hooks/useProbabilities.ts:23 | two positions have the same key exactly when they are equal |
| Probabilities.Enqueue | src/hooks/useProbabilities.ts:103-111 | adding to the pending set keeps what was there in front, in order, has exactly the old and new members, and adds no duplicate |
| Probabilities.PositionsWhere | src/hooks/useProbabilities.ts:135-144 | the nested scan yields exactly the in-grid positions it picks, in strictly row-major order |
| Probabilities.Changed | src/hooks/useProbabilities.ts:137-140 | a changed cell lies inside the current grid or the previous snapshot, and no cell differs from a snapshot of the same grid |
| Probabilities.SnapshotHasNoChanges | src/hooks/useProbabilities.ts:126-129 | a grid compared with its own snapshot has no changed cell, so the early return loses nothing |
| Probabilities.AffectedUnion | src/hooks/useProbabilities.ts:150-158 | the union of the affected sets has no duplicate |
| Probabilities.AffectedUnionMembers | src/hooks/useProbabilities.ts:150-158 | a position is in the union exactly when it is a changed cell or shares its row or column inside the grid |
| Probabilities.OnCellsChanged | src/hooks/useProbabilities.ts:114-164 | the snapshot is updated; the first render queues nothing; otherwise the pending set grows, without duplicates and keeping its old members first, by exactly the cells sharing a line with a changed cell (a missing word reading as `''`) |
| Probabilities.OnApiKey | src/hooks/useProbabilities.ts:167-182 | with a key, every in-grid cell with a non-blank word joins the pending set; without one nothing changes |
| Probabilities.HasContext | src/hooks/useProbabilities.ts:62-63 | a context counts exactly when it is not the empty pair `{before: [], after: []}` |
| Probabilities.CellUpdate | src/hooks/useProbabilities.ts:43-86 | a missing or blank cell gets three nulls, and so does a non-blank cell with neither row nor column context; a row probability appears only with row context, a column one only with column context, and the combined one only with both |
| Probabilities.CellUpdateKeepsContextualValues | src/hooks/useProbabilities.ts:75-86 | when the calculation succeeds, each probability whose context exists carries the engine's value |
| Probabilities.FailedCalculationKeepsValues | src/hooks/useProbabilities.ts:87-90 | the cell's probabilities are kept exactly when the calculation fails |
| Probabilities.WriteOneProcesses | src/hooks/useProbabilities.ts:42-91 | processing one more pending cell writes exactly that cell's update, or nothing when it has none |
| Probabilities.ProcessPending | src/hooks/useProbabilities.ts:32-94 | without a key or with nothing pending nothing happens; otherwise the pending set is emptied and every pending cell gets its update while other cells, words and ids are kept |
| Probabilities.UnpendingCellsKeepValues | src/hooks/useProbabilities.ts:38-42 | a cell that was not pending keeps its probabilities |
| Probabilities.WritesCommute | src/store/gridStore.ts:64-74 | probability writes to different cells commute, so the order in which calculations settle does not matter |
| Suggestions.ScanForContext | src/hooks/useSuggestions.ts:59-63 | the nested `some` finds a word exactly when some cell other than the target holds a non-empty word |
| Suggestions.Apply | src/hooks/useSuggestions.ts:82-94 | a success shows its words, and a failure shows no words and its error; either stops loading |
| Suggestions.Issue | src/hooks/useSuggestions.ts:46-72 | each fetch takes the next request id, clears the error, and is loading exactly when there is context; with context the previous list stays shown while loading, and without context the list is `[]` at once |
| Suggestions.Step | src/hooks/useSuggestions.ts:37-109 | the request id never decreases; the clear branch shows nothing, stops loading, drops the error and leaves the id alone; a fetch takes the next id, drops the error and loads exactly when another cell holds a word, keeping the previous list while it loads; an outcome with the latest id is applied and any other changes nothing; a moving selection only turns loading on, and only with a selection and a key |
| Suggestions.StaleOutcomeIgnored | src/hooks/useSuggestions.ts:82-94 | the outcome of an older request, success or failure, changes nothing |
| Suggestions.LatestRequestWins | src/hooks/useSuggestions.ts:47-85 | after requests A then B, a late answer for A does not replace B's, and B's answer is shown |
| Suggestions.RequestIdNeverDecreases | src/hooks/useSuggestions.ts:47 | no sequence of events lowers the request counter |
| Suggestions.StepFixed | src/hooks/useSuggestions.ts:39-44 | with the corrected clear branch, clearing also retires every request in flight; an outcome with the latest id is applied and any other changes nothing |
| Suggestions.ClearedStaysEmpty | src/hooks/useSuggestions.ts:39-44 | with the corrected clear branch, a cleared list stays empty until a new request is issued, whatever older answers arrive |
| Suggestions.FixedClearHidesInFlight | src/hooks/useSuggestions.ts:39-44 | with the corrected clear branch, deselecting right after a request hides that request's answer |
| Suggestions.WrittenClearShowsInFlight | src/hooks/useSuggestions.ts:39-44 | as written, deselecting right after a request still shows that request's answer when it arrives |
| Cache.CreateCacheKey | src/services/cache.ts:12-15 | `createCacheKey` is the context joined by `\|`, then the word part that `getCached` and `setCache` build |
| Cache.KeyFor | src/services/cache.ts:24 | the key starts with the context followed by `::` |
| Cache.Lookup | src/services/cache.ts:23-27 | a key is found exactly when an entry has it, and then with that entry's value (`null` on a miss) |
| Cache.Remove | src/services/cache.ts:23-38 | removing a key loses only that key and keeps the one-entry-per-key invariant |
| Cache.Get | src/services/cache.ts:23-27 | `getCached` answers the stored value or a miss, and keeps the cache valid |
| Cache.Set | src/services/cache.ts:35-38 | `setCache` keeps one entry per key and at most 1000 entries |
| Cache.GetCached | src/services/cache.ts:23-27 | `getCached` answers what is stored under the context and normalised word, and keeps the cache valid |
| Cache.SetCache | src/services/cache.ts:35-38 | `setCache` keeps the cache valid and leaves the probability stored under the context and normalised word |
| Cache.GetAfterSet | src/services/cache.ts:23-38 | a value just stored under a key is found under that key |
| Cache.GetCachedAfterSetCache | src/services/cache.ts:23-38 | after `setCache(context, word, p)`, `getCached(context, word)` answers `p`, and so does the same word in another ASCII case or with other outer white space |
| Cache.SetLeavesOtherKeys | src/services/cache.ts:35-38 | storing under one key leaves every other key's value alone, except the least recently used entry evicted when a new key arrives in a full cache |
| Cache.LookupAfterEviction | src/services/cache.ts:4-7 | evicting the least recently used entry loses only its key |
| Cache.GetKeepsContents | src/services/cache.ts:23-27 | a lookup changes recency only, never what any key maps to |
| Cache.KeyIgnoresCaseAndSpace | src/services/cache.ts:24 | words differing only in ASCII case or surrounding white space share one key |
| Cache.LowerTrimCommute | src/services/cache.ts:14 | lower-casing and trimming commute |
| Cache.KeyForInjective | src/services/cache.ts:24 | for contexts without `:`, equal keys mean equal contexts and equal normalised words |
| Cache.SeparatedInjective | src/services/cache.ts:24 | a context without `:` followed by `::` and a word determines both the context and the word |
| Cache.ContextSeparatorCollides | src/services/cache.ts:24 | a context containing `::` can collide: context `a::b` with word `c` and context `a` with word `b::c` share one key |
| Cache.ClearCache | src/services/cache.ts:43-45 | the cleared cache is valid and every lookup in it misses |
| Cache.Size | src/services/cache.ts:50-52 | the size of a valid cache is at most 1000, and a cache of size 0 answers every lookup with a miss |
| Cache.ClearedCacheMisses | src/services/cache.ts:43-52 | after `clearCache` the size is 0 and every lookup misses, leaving the cache empty |
| Cache.SetSize | src/services/cache.ts:35-38 | setting a key grows the cache by at most one entry, and by exactly one for a new key while there is room |
| Navigation.Clamp | src/hooks/useGridNavigation.ts:36-37 | `max(0, min(hi, v))` keeps an in-range value, sends a negative one to 0 and a large one to `hi` |
| Navigation.MoveSelection | src/hooks/useGridNavigation.ts:28-44 | no selection selects (0, 0); otherwise the selection becomes the target clamped to the grid in each coordinate, and when that is the current cell nothing changes; a change drops the edit; the selection stays in the grid |
| Navigation.MoveToNextCell | src/hooks/useGridNavigation.ts:46-67 | no selection selects (0, 0); otherwise the row-major successor is selected, wrapping from the last cell to (0, 0); the edit is dropped and an in-grid selection stays in the grid |
| Navigation.MoveToPreviousCell | src/hooks/useGridNavigation.ts:69-90 | no selection selects the last cell; otherwise the row-major predecessor is selected, wrapping from (0, 0) to the last cell; the edit is dropped and an in-grid selection stays in the grid |
| Navigation.NextIsSuccessor | src/hooks/useGridNavigation.ts:52-64 | the next cell has row-major index one more, and the last cell wraps to index 0 |
| Navigation.PrevIsPredecessor | src/hooks/useGridNavigation.ts:75-87 | the previous cell has row-major index one less, and (0, 0) wraps to the last cell |
| Navigation.IndexInjective | src/hooks/useGridNavigation.ts:52-87 | inside a row width, different cells have different row-major indices |
| Navigation.NextPrevInverse | src/hooks/useGridNavigation.ts:46-90 | for an in-grid cell, Shift+Tab undoes Tab and Tab undoes Shift+Tab |
| Navigation.ConfirmEdit | src/hooks/useGridNavigation.ts:92-98 | with a selection, the trimmed edit value is written to that cell only and editing stops; with none nothing happens |
| Navigation.EditingKey | src/hooks/useGridNavigation.ts:136-156 | while editing, a key never asks for history, keeps the shape and the stores' invariants, keeps the selection in the grid, and changes the grid only on Enter or Tab |
| Navigation.BrowsingKey | src/hooks/useGridNavigation.ts:158-222 | without an edit, a key never asks for history, keeps the shape and the invariants, keeps the selection in the grid, and changes the grid only on Backspace or Delete |
| Navigation.HandleKey | src/hooks/useGridNavigation.ts:114-222 | Cmd/Ctrl+Z is undo, with Shift redo, and Cmd/Ctrl+Y is redo, decided first and changing nothing else; any other key keeps the grid's shape, the stores' invariants, mode and key, and a selection inside the grid |
| Navigation.EditingIgnoresOtherKeys | src/hooks/useGridNavigation.ts:137-155 | while editing, keys other than Enter, Escape and Tab do nothing |
| Navigation.EditingEnterCommitsAndAdvances | src/hooks/useGridNavigation.ts:138-142 | Enter while editing writes the trimmed value to the selected cell and moves to the next cell, closing the edit |
| Navigation.EditingTabCommitsAndMoves | src/hooks/useGridNavigation.ts:146-153 | Tab while editing commits like Enter and moves forward, or backward with Shift |
| Navigation.EditingEscapeDiscards | src/hooks/useGridNavigation.ts:143-145 | Escape while editing leaves the grid alone, keeps the selection and drops the edit |
| Navigation.BrowsingStartsEditing | src/hooks/useGridNavigation.ts:180-221 | without an edit, an edit starts exactly on Enter over an in-grid selection or on a key whose `length` is one UTF-16 code unit, with no Cmd/Ctrl/Alt and a selection, starting with the cell's word or with the key |
| Navigation.BrowsingDeleteClearsCell | src/hooks/useGridNavigation.ts:202-208 | Backspace or Delete empties the selected cell and changes nothing else |
| Navigation.BrowsingEscapeDeselects | src/hooks/useGridNavigation.ts:188-191 | Escape without an edit drops the selection and leaves the grid alone |
| Navigation.BrowsingMoves | src/hooks/useGridNavigation.ts:158-200 | without an edit, ArrowUp, ArrowDown, ArrowLeft and ArrowRight move the selection by (-1, 0), (1, 0), (0, -1) and (0, 1), and Tab moves to the next cell (the previous one with Shift); none of them touches the grid or asks for history |
| GridSizeControls.ClampSize | src/components/Toolbar/GridSizeControls.tsx:12 | `max(2, min(10, v))` lies in [2, 10] and is `v` when `v` already does |
| GridSizeControls.Step | src/components/Toolbar/GridSizeControls.tsx:11-16 | a click resizes to the clamped value, and resizes not at all exactly when that equals the current one |
| GridSizeControls.Typed | src/components/Toolbar/GridSizeControls.tsx:26-28 | typed text is ignored exactly when `parseInt` gives NaN, and otherwise gives the clamped number |
| GridSizeControls.RowsChange | src/components/Toolbar/GridSizeControls.tsx:11-16 | the row count becomes the clamped sum when that differs, the column count is passed through, and nothing changes otherwise |
| GridSizeControls.ColsChange | src/components/Toolbar/GridSizeControls.tsx:18-23 | the column count becomes the clamped sum when that differs, the row count is passed through, and nothing changes otherwise |
| GridSizeControls.RowsInput | src/components/Toolbar/GridSizeControls.tsx:25-31 | NaN is ignored; a number always resizes the rows to its clamped value with the columns kept |
| GridSizeControls.ColsInput | src/components/Toolbar/GridSizeControls.tsx:33-39 | NaN is ignored; a number always resizes the columns to its clamped value with the rows kept |
| GridSizeControls.DisabledExactlyWhenNoOp | src/components/Toolbar/GridSizeControls.tsx:49 | within [2, 10], the minus button is disabled at 2 and the plus button at 10, exactly when a click would resize nothing |
| GridSizeControls.EnabledClickMovesByOne | src/components/Toolbar/GridSizeControls.tsx:11-23 | an enabled button moves the dimension by exactly one |
| GridSizeControls.TypedDisplayedValue | src/components/Toolbar/GridSizeControls.tsx:57 | the displayed value, typed back, is read as itself |
| GridSizeControls.ControlsKeepSizeInRange | src/components/Toolbar/GridSizeControls.tsx:11-39 | every control keeps both dimensions in [2, 10], as the initial 5 x 5 grid is |
| GridSizeControls.ResizeToSameSize | src/components/Toolbar/GridSizeControls.tsx:29 | resizing to the current size changes nothing, so an input that always resizes is harmless |
| AutoComplete.Filter | src/components/Suggestions/AutoComplete.tsx:19-21 | the filtered list holds exactly the suggestions whose lower-cased word starts with the lower-cased filter |
| AutoComplete.FilterAppend | src/components/Suggestions/AutoComplete.tsx:19-21 | filtering keeps the original order: it distributes over concatenation |
| AutoComplete.EmptyFilterKeepsAll | src/components/Suggestions/AutoComplete.tsx:19-21 | an empty filter keeps every suggestion |
| AutoComplete.NarrowingFilter | src/components/Suggestions/AutoComplete.tsx:19-21 | typing more only narrows the list |
| AutoComplete.HandleKey | src/components/Suggestions/AutoComplete.tsx:44-77 | with no rows nothing happens; only the arrows move the highlight; a word is chosen exactly on Enter or Tab over an existing row, and it is that row's word; the highlight stays on a row |
| AutoComplete.ArrowDownBounded | src/components/Suggestions/AutoComplete.tsx:49-54 | ArrowDown moves one row down and stops at the last row |
| AutoComplete.ArrowUpBounded | src/components/Suggestions/AutoComplete.tsx:55-58 | ArrowUp moves one row up and stops at the first row |
| AutoComplete.DownThenUp | src/components/Suggestions/AutoComplete.tsx:49-58 | away from the last row, ArrowDown then ArrowUp returns to the same row |
| AutoComplete.ChosenWordMatches | src/components/Suggestions/AutoComplete.tsx:59-70 | a chosen word comes from a suggestion that matches the filter |
| AutoComplete.OnInputs | src/components/Suggestions/AutoComplete.tsx:24-26 | a new filter text or a new suggestions array puts the highlight back on the first row, otherwise it stays, and a valid highlight stays valid for the new list |
| AutoComplete.ResetIsValid | src/components/Suggestions/AutoComplete.tsx:24-26 | the first row is a valid highlight for any suggestions and filter |
| AutoComplete.KeysAfterResetStayValid | src/components/Suggestions/AutoComplete.tsx:24-77 | after the reset, any key presses keep the highlight on an existing row, and Enter then chooses that row's word |
| AutoComplete.KeysKeepValid | src/components/Suggestions/AutoComplete.tsx:44-77 | from a valid highlight, any key presses keep it valid |
| AutoComplete.Hover | src/components/Suggestions/AutoComplete.tsx:111 | hovering a row highlights exactly that row |
| AutoComplete.Render | src/components/Suggestions/AutoComplete.tsx:85-128 | nothing is rendered exactly when no suggestion matches; otherwise one row per match, in order, highlighted exactly at the highlighted index |
| AutoComplete.OneHighlightedRow | src/components/Suggestions/AutoComplete.tsx:99-125 | exactly one row is highlighted, and it is the one Enter would choose |
| ColorUtils.Clamp01 | src/utils/colorUtils.ts:43 | `max(0, min(1, p))` lies in [0, 1] and keeps a value already there |
| ColorUtils.ProbabilityToClass | src/utils/colorUtils.ts:37-56 | `null` is `prob-unknown`; otherwise the clamped value picks the bucket, half-open at 0.2, 0.4, 0.6 and 0.8 |
| ColorUtils.ClassMonotone | src/utils/colorUtils.ts:45-55 | a larger probability never lands in a lower bucket |
| ColorUtils.ClassOfOutOfRange | src/utils/colorUtils.ts:43 | negative values are very low and values above 1 are very high |
| ColorUtils.ClassNamesDistinct | src/utils/colorUtils.ts:37-56 | different buckets have different class names |
| ColorUtils.ProbabilityToBand | src/utils/colorUtils.ts:5-31 | `null` is transparent; otherwise the clamped value is red below 0.33, neutral below 0.66, and green from 0.66 |
| ColorUtils.BandAgreesWithClass | src/utils/colorUtils.ts:5-56 | the very-low class is always red, medium is always neutral and very-high is always green, while the low class straddles the red/neutral edge (0.3 and 0.35) |

## Left out

- The HTTP request to the language model (src/services/openai.ts:42-58), the client handle and `initializeOpenAI`: the request is a function parameter and the handle is a boolean.
- `getGridSuggestions` is imported by src/services/probabilityEngine.ts:2 but is not part of this model. `getSuggestions` takes it as a parameter.
- `Math.sqrt` in the combined probability is a parameter `sqrt`. Floating-point rounding is not modelled: probabilities are reals.
- The rgba arithmetic and rounding inside each colour band (src/utils/colorUtils.ts:16-30): only the choice of band is modelled.
- The percentage shown in the dropdown (src/components/Suggestions/AutoComplete.tsx:102) and the rest of the rendering.
- The logprob tracking in `getWordCompletions` (src/services/openai.ts:70-76): it is computed but never used.
- lru-cache's five-minute expiry. The cache is modelled as a least-recently-used list of at most 1000 entries, which is this model's reading of the library; the library itself is not part of this model. The cache is also never called by the engine.
- zundo's undo/redo history: a key press only reports the undo or redo it asks for.
- React's effect scheduling, `useDebounce`/`useDebouncedCallback` (300 ms) and the key listeners: effects and answers are events, and the caller decides their order.
- `Promise.all`/`allSettled`. The pending cells are processed one after another. When both completion requests fail, the row's error is reported, while in the source the first rejection to settle wins.
- The platform check that picks Cmd or Ctrl (src/hooks/useGridNavigation.ts:116-117) is folded into one `cmdOrCtrl` flag.
- JavaScript's full Unicode `toLowerCase`: `Lower` folds ASCII letters only.
- Strings are sequences of Unicode scalar values, so a lone surrogate cannot occur. Where the source reads `length` (the column width, `padEnd`, the printable-key test), the model uses `Text.Length`, which counts UTF-16 code units. Other character positions are indexed by character.
- AutoComplete.OnInputs: the reset happens in the same step as the change. In the source the effect runs after a render, and that one render may highlight no row.
- The `suggestionMode` field is stored and set but never read by the engine, so no mode-weighted scoring exists to model.
- Navigation.HandleKey: requires at least one row and one column. The size controls keep both in [2, 10], and with zero columns `moveToPreviousCell` would select column -1.
- Navigation.BrowsingKey: Enter over a selection outside the grid throws in the source (src/hooks/useGridNavigation.ts:183); the model leaves both stores unchanged.
- Completions.GetWordCompletions: requires at least one completion (`n > 0`). The source's default is 10, and `count / 0` would be Infinity.
- Probabilities.KeyToPosition: a key that is not two digit runs gives `None`, where `Number` would give `NaN` or read a number with white space or a sign. Only keys made by `positionToKey` are decoded.
- GridStore.ResizeGrid: requires the store's shape invariant (the matrix has the recorded dimensions), which every action keeps.
- ProbabilityEngine.BuildGridPrompt: a grid whose first row is shorter than others is pictured with the first row's width, as in the source. Missing cells show as `·`, and a missing target row is a failure, where the source throws a TypeError.

## Findings

| source | as written | input that shows it | evidently intended | confidence | as-written member | corrected member |
|---|---|---|---|---|---|---|
| src/hooks/useSuggestions.ts:39-44 | The clear branch (no selected cell or no API key) empties the list but does not advance `requestIdRef`. A request issued just before is therefore still the latest, and its answer is applied when it arrives (line 82). The panel shows a non-empty list even with no selection (src/components/Suggestions/SuggestionPanel.tsx:116). | Grid `[["", "moon"]]`. Select (0, 0) with a key, which issues request 1. Deselect, which clears. Request 1 then answers `["sun"]`, and the list shows `sun` with no cell selected. | Clearing also retires the requests in flight, so that an answer for a cell that is no longer selected is never shown. | not executed | Suggestions.WrittenClearShowsInFlight | Suggestions.FixedClearHidesInFlight |
