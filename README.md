# Sudoku game engine — a Dafny model

This project models the game logic of an Android Sudoku app and proves properties of it:

- **move validation**: `SudokuValidator`, covering `isValidMove`, `isComplete` and `checkErrors`;
- **puzzle generation**: `SudokuGenerator`. It fills a grid by backtracking, empties a number of squares that depends on the difficulty, and converts the result to board squares;
- **the view-model**: `SudokuViewModel`. It holds the published `GameState` and the one-second timer, handles player input (select, enter, clear, notes, hint), detects completion and reports it to the statistics store;
- **the statistics store**: `StatisticsRepository` plus the `Statistics` record. The store is a key/value map read with defaults and updated when a game starts, when a game completes, and on reset;
- **the constants**: the difficulty levels' removal counts and the `MM:SS` time format.

Modules, one per concern:

| module | file | models |
|---|---|---|
| `Grid` | grid.dfy | positions, units (row, column, 3x3 box), solved grids |
| `Cells` | cells.dfy | `Cell` and the 9x9 board of cells |
| `Validator` | validator.dfy | `SudokuValidator` |
| `Difficulties` | difficulty.dfy | `Difficulty` |
| `Stats` | statistics.dfy | `Statistics` |
| `StatisticsRepo` | repository.dfy | `StatisticsRepository` |
| `TimeFormat` | timeformat.dfy | `formatTime` |
| `Generator` | generator.dfy | `SudokuGenerator` |
| `GameStates` | gamestate.dfy | `GameState` and the view-model's initial state |
| `ViewModel` | viewmodel.dfy | `SudokuViewModel` |

How code maps to Dafny:

- **Validator.** The validator is pure code, so it is modelled with functions. Each scan loop of `isValidMove` is a recursive function, and a lemma ties each scan to a reference predicate: "no peer holds the value" (`NoPeerHolds`).
- **Generator.**
  - `fillBoard` works in place on an `array2<int>`. Its backtracking is three mutually recursive methods. They terminate because the number of empty squares goes down.
  - `removeCells` is a method with the source's loops.
  - The random shuffles are a nondeterministic choice (`:|`) of a permutation, so every property holds for every shuffle.
- **Statistics store.** The store is a class whose `preferences` field is a `map<Key, int>`. The larger `edit { }` block of `updateStatisticsOnGameComplete` is a pure function on that map, `CompletionEdit`. It performs the same writes in the same order, and the method assigns its result. `incrementGamesPlayed` and `resetStatistics` make their single write, or the clear, directly on the field.
- **View-model.** The view-model is a class whose methods assign its `gameState` and `timerRunning` fields. The transitions that touch the board or the selection also exist as functions on `GameState`: select, enter, clear, hint, update and the completion check. The lemmas about those transitions are stated on the functions, and each such method's contract ties it to its function. `toggleNotesMode`, `tick` and the timer methods each change one or two fields, and their contracts state the new values directly.

## Model

Paths are relative to the repository root.

| member | source | states |
|---|---|---|
| Grid.BoxStart | app/src/main/java/com/sudoku/game/logic/SudokuValidator.kt:25-26 | `(i / 3) * 3` is a multiple of 3 in 0..6 whose three-index box contains i |
| Grid.BoxRange | app/src/main/java/com/sudoku/game/logic/SudokuValidator.kt:25-28 | the box scanned from `BoxStart(i)` holds exactly the indices whose box start equals i's, so the scan stays on the board and covers i's box |
| Grid.SolutionUnitsArePermutations | app/src/main/java/com/sudoku/game/logic/SudokuGenerator.kt:41-58 | in a full, duplicate-free grid of digits, every row, column and box is a permutation of 1..9 |
| Cells.NewCell | app/src/main/java/com/sudoku/game/model/Cell.kt:3-10 | `Cell(row, col, value)` has the given position and value, is not given, not in error, and has no notes |
| Cells.ReplaceCell | app/src/main/java/com/sudoku/game/viewmodel/SudokuViewModel.kt:142-150 | the rebuilt board has the new cell at (row, col) and every other square unchanged |
| Validator.RowClear | app/src/main/java/com/sudoku/game/logic/SudokuValidator.kt:11-15 | the row loop of `isValidMove` from column c on; its meaning is stated by RowClearIff |
| Validator.ColClear | app/src/main/java/com/sudoku/game/logic/SudokuValidator.kt:18-22 | the column loop from row r on; its meaning is stated by ColClearIff |
| Validator.BoxRowClear | app/src/main/java/com/sudoku/game/logic/SudokuValidator.kt:28-32 | the inner box loop over one box row; its meaning is stated by BoxRowClearIff |
| Validator.BoxClear | app/src/main/java/com/sudoku/game/logic/SudokuValidator.kt:25-33 | the box loops; its meaning is stated by BoxClearIff |
| Validator.RowClearIff | app/src/main/java/com/sudoku/game/logic/SudokuValidator.kt:11-15 | the row scan from column c passes exactly when no other column ≥ c of the row holds num |
| Validator.ColClearIff | app/src/main/java/com/sudoku/game/logic/SudokuValidator.kt:18-22 | the column scan from row r passes exactly when no other row ≥ r of the column holds num |
| Validator.BoxRowClearIff | app/src/main/java/com/sudoku/game/logic/SudokuValidator.kt:28-32 | the inner box loop passes exactly when no square of that box row other than (row, col) holds num |
| Validator.BoxClearIff | app/src/main/java/com/sudoku/game/logic/SudokuValidator.kt:27-33 | the box scan passes exactly when no box square other than (row, col) holds num |
| Validator.ScansFindPeers | app/src/main/java/com/sudoku/game/logic/SudokuValidator.kt:10-33 | the three scans together pass exactly when no peer (same row, column or box, other square) holds num |
| Validator.IsValidMove | app/src/main/java/com/sudoku/game/logic/SudokuValidator.kt:7-36 | 0 is always valid; any other num is valid exactly when no peer holds it |
| Validator.ValidMoveIgnoresOwnSquare | app/src/main/java/com/sudoku/game/logic/SudokuValidator.kt:11-33 | the verdict at (row, col) depends only on the other 80 squares |
| Validator.IsComplete | app/src/main/java/com/sudoku/game/logic/SudokuValidator.kt:38-54 | complete implies no empty square; complete exactly when the board is full and no row, column or box repeats a value |
| Validator.CompleteUnitsArePermutations | app/src/main/java/com/sudoku/game/logic/SudokuValidator.kt:38-54 | a complete board of digits has every row, column and box a permutation of 1..9 |
| Validator.CheckErrors | app/src/main/java/com/sudoku/game/logic/SudokuValidator.kt:56-67 | shape kept; a filled non-given square gets `isError` exactly when a peer holds its value on the input board; given and empty squares come back unchanged, stale flag included |
| Validator.Annotated | app/src/main/java/com/sudoku/game/logic/SudokuValidator.kt:57-65 | one square of `checkErrors`: only `isError` may change; for a filled non-given square it is set exactly when a peer holds the value; other squares come back unchanged |
| Validator.CheckErrorsKeepsValues | app/src/main/java/com/sudoku/game/logic/SudokuValidator.kt:56-67 | re-annotation changes no value and no completion verdict |
| Validator.CheckErrorsIdempotent | app/src/main/java/com/sudoku/game/logic/SudokuValidator.kt:56-67 | annotating twice equals annotating once |
| Validator.CheckErrorsOnDuplicateFree | app/src/main/java/com/sudoku/game/logic/SudokuValidator.kt:59-61 | on a board without duplicates no filled non-given square is flagged |
| Validator.CheckErrorsMakesAccurate | app/src/main/java/com/sudoku/game/logic/SudokuValidator.kt:56-67 | afterwards every flag is accurate; on a board whose flags are accurate nothing changes |
| Validator.SameValuesSameVerdicts | app/src/main/java/com/sudoku/game/logic/SudokuValidator.kt:7-36 | boards with the same values give the same move verdicts everywhere |
| Validator.SameValuesSameCompletion | app/src/main/java/com/sudoku/game/logic/SudokuValidator.kt:38-54 | boards with the same values are complete alike |
| Difficulties.Difficulty.CellsToRemove | app/src/main/java/com/sudoku/game/model/Difficulty.kt:6-11 | 30, 40, 50, 60 in declaration order (`30 + 10 * ordinal`) |
| Difficulties.Difficulty.Ordinal | app/src/main/java/com/sudoku/game/model/Difficulty.kt:6-11 | declaration position below 4 |
| Difficulties.CellsToRemoveIncreasing | app/src/main/java/com/sudoku/game/model/Difficulty.kt:7-10 | later levels remove strictly more squares, and none removes more than 81 |
| Difficulties.OrdinalInjective | app/src/main/java/com/sudoku/game/model/Difficulty.kt:6-11 | distinct levels have distinct positions |
| Stats.DefaultStatistics | app/src/main/java/com/sudoku/game/model/Statistics.kt:3-16 | all counts, total time and streaks 0; every best time `Long.MAX_VALUE` |
| Stats.Statistics.GetBestTime | app/src/main/java/com/sudoku/game/model/Statistics.kt:18-25 | the level's best time is the level's entry among the four best-time fields, in the order the levels are declared |
| Stats.Statistics.GetCompletedCount | app/src/main/java/com/sudoku/game/model/Statistics.kt:27-34 | the level's completed count is the level's entry among the four count fields, in the order the levels are declared |
| Stats.Statistics.WithBestTime | app/src/main/java/com/sudoku/game/model/Statistics.kt:18-25 | `getBestTime(d)` reads d's own field: replacing it changes no other level's best time and no other field |
| Stats.Statistics.WithCompletedCount | app/src/main/java/com/sudoku/game/model/Statistics.kt:27-34 | `getCompletedCount(d)` reads d's own field: replacing it changes no other level's count and no other field |
| Stats.AccessorsDetermineRecord | app/src/main/java/com/sudoku/game/model/Statistics.kt:18-34 | the accessors over the four levels plus the shared fields determine the record |
| StatisticsRepo.Read | app/src/main/java/com/sudoku/game/data/StatisticsRepository.kt:35-51 | the `statisticsFlow` mapping from preferences to a record; its meaning is stated by ReadField |
| StatisticsRepo.ReadField | app/src/main/java/com/sudoku/game/data/StatisticsRepository.kt:35-51 | every field reads its stored value or its default (0, or `Long.MAX_VALUE` for best times) |
| StatisticsRepo.ReadAccessors | app/src/main/java/com/sudoku/game/data/StatisticsRepository.kt:35-51 | each level's accessors read that level's keys with their defaults |
| StatisticsRepo.ReadEmpty | app/src/main/java/com/sudoku/game/data/StatisticsRepository.kt:35-51 | an empty store reads as the default record |
| StatisticsRepo.ReadDeterminesStore | app/src/main/java/com/sudoku/game/data/StatisticsRepository.kt:35-51 | for stores with the same keys, reading equal holds exactly when the stores are equal |
| StatisticsRepo.ReadAfterWrite | app/src/main/java/com/sudoku/game/data/StatisticsRepository.kt:35-51 | one `preferences[key] = v` reads as the record with that one field replaced |
| StatisticsRepo.RecordCompletion | app/src/main/java/com/sudoku/game/data/StatisticsRepository.kt:53-106 | games played, games completed and current streak +1; total time + time; longest streak = max(old, new current); level's best = min(old, time); level's count +1; other levels untouched |
| StatisticsRepo.RecordCompletionField | app/src/main/java/com/sudoku/game/data/StatisticsRepository.kt:53-106 | the completion record key by key, every unwritten key kept |
| StatisticsRepo.CompletionAsWrites | app/src/main/java/com/sudoku/game/data/StatisticsRepository.kt:55-104 | the completion record equals the source's sequence of conditional single-field writes |
| StatisticsRepo.CompletionEdit | app/src/main/java/com/sudoku/game/data/StatisticsRepository.kt:53-106 | the keys present after the edit: the old ones, the four always written, the longest streak when beaten, the best time when beaten, the level's count |
| StatisticsRepo.TotalsEdit | app/src/main/java/com/sudoku/game/data/StatisticsRepository.kt:55-68 | the level-independent writes add exactly their keys (longest streak only when beaten) and keep every other key's reading |
| StatisticsRepo.LevelEdit | app/src/main/java/com/sudoku/game/data/StatisticsRepository.kt:71-104 | the level's writes add the best-time key only for a faster time, and always the count key |
| StatisticsRepo.CompletionEditKeepsOthers | app/src/main/java/com/sudoku/game/data/StatisticsRepository.kt:53-106 | keys the edit does not write are kept, present or absent |
| StatisticsRepo.TotalsEditReads | app/src/main/java/com/sudoku/game/data/StatisticsRepository.kt:55-68 | the level-independent writes read as the corresponding record updates |
| StatisticsRepo.LevelEditReads | app/src/main/java/com/sudoku/game/data/StatisticsRepository.kt:71-104 | the level's writes read as the corresponding record updates |
| StatisticsRepo.CompletionEditReads | app/src/main/java/com/sudoku/game/data/StatisticsRepository.kt:53-106 | the edit transaction reads back as the completion record of what was stored |
| StatisticsRepo.StatisticsRepository.constructor | app/src/main/java/com/sudoku/game/data/StatisticsRepository.kt:15-17 | the store opens on whatever preferences were persisted before |
| StatisticsRepo.StatisticsRepository.UpdateStatisticsOnGameComplete | app/src/main/java/com/sudoku/game/data/StatisticsRepository.kt:53-106 | the store becomes the completion edit of the old store, which reads as the completion record of the old reading |
| StatisticsRepo.StatisticsRepository.IncrementGamesPlayed | app/src/main/java/com/sudoku/game/data/StatisticsRepository.kt:108-113 | only the games-played key changes, by +1 over its stored value or default |
| StatisticsRepo.StatisticsRepository.ResetStatistics | app/src/main/java/com/sudoku/game/data/StatisticsRepository.kt:115-119 | the store is empty and reads as the default record |
| StatisticsRepo.StartThenComplete | app/src/main/java/com/sudoku/game/data/StatisticsRepository.kt:53-113 | a game started and then completed adds 2 to games played but 1 to games completed |
| TimeFormat.TruncDiv | app/src/main/java/com/sudoku/game/ui/screens/GameScreen.kt:118 | Kotlin's `Long` division rounds toward zero: for a nonnegative dividend the quotient is nonnegative and leaves a remainder in [0, b); for a negative one, a quotient ≤ 0 leaves a remainder in (-b, 0] |
| TimeFormat.TruncMod | app/src/main/java/com/sudoku/game/ui/screens/GameScreen.kt:119 | Kotlin's remainder: quotient·60 + remainder = seconds; in [0, 60) for nonnegative input |
| TimeFormat.Decimal | app/src/main/java/com/sudoku/game/ui/screens/GameScreen.kt:120 | `%d` digits: one or more decimal digits; one digit exactly below 10, two for 10..99 |
| TimeFormat.DecimalRoundTrip | app/src/main/java/com/sudoku/game/ui/screens/GameScreen.kt:120 | the digits read back to the number |
| TimeFormat.LeadingZero | app/src/main/java/com/sudoku/game/ui/screens/GameScreen.kt:120 | a `0` pad does not change the number read |
| TimeFormat.Pad2 | app/src/main/java/com/sudoku/game/ui/screens/GameScreen.kt:120 | `%02d` of a nonnegative number: at least two digits that read back to the number, exactly two below 100, no leading zero from 10 on; a negative number starts with its minus sign |
| TimeFormat.FormatTime | app/src/main/java/com/sudoku/game/ui/screens/GameScreen.kt:117-121 | for nonnegative input: all digits except a `:` third from the end, at least 5 characters, exactly 5 below 6000 seconds |
| TimeFormat.FormatTimeShows | app/src/main/java/com/sudoku/game/ui/screens/GameScreen.kt:117-121 | for nonnegative input the part before the `:` reads as seconds / 60 and starts with `0` exactly when that is below 10; the two characters after it read as seconds % 60 |
| TimeFormat.FormatTimeRoundTrip | app/src/main/java/com/sudoku/game/ui/screens/GameScreen.kt:118-120 | minutes·60 + seconds read back from the text equals the input |
| Generator.IsValid | app/src/main/java/com/sudoku/game/logic/SudokuGenerator.kt:61-78 | false exactly when num occurs anywhere in the row, column or box, the square itself included |
| Generator.IsValidAgreesWithValidator | app/src/main/java/com/sudoku/game/logic/SudokuGenerator.kt:61-78 | on an empty square and a nonzero digit the generator's check equals the validator's move check |
| Generator.DigitRange | app/src/main/java/com/sudoku/game/logic/SudokuGenerator.kt:44 | nine entries holding exactly 1..9 |
| Generator.Shuffle | app/src/main/java/com/sudoku/game/logic/SudokuGenerator.kt:44 | `shuffled()` at line 44, and line 90's in-place `positions.shuffle()` modelled as a fresh shuffled sequence (the list is not read again): some ordering of the same entries, the same length, every entry one of the input's |
| Generator.ShuffleMembers | app/src/main/java/com/sudoku/game/logic/SudokuGenerator.kt:44-45 | every entry of a shuffle is an entry of the original |
| Generator.FillBoard | app/src/main/java/com/sudoku/game/logic/SudokuGenerator.kt:40-59 | true means no empty square is left; false means the array is as on entry; filled squares are never overwritten and only digits are written; a duplicate-free board stays duplicate-free |
| Generator.TryDigits | app/src/main/java/com/sudoku/game/logic/SudokuGenerator.kt:43-54 | the shuffled digit loop at the first empty square, with the same four guarantees |
| Generator.TryDigit | app/src/main/java/com/sudoku/game/logic/SudokuGenerator.kt:46-52 | one digit: if it passes the check, place it, recurse and undo on failure; same four guarantees |
| Generator.GenerateCompleteSudoku | app/src/main/java/com/sudoku/game/logic/SudokuGenerator.kt:34-38 | the grid returned is a solution, or the all-zero grid when the unchecked fill failed |
| Generator.FillResult | app/src/main/java/com/sudoku/game/logic/SudokuGenerator.kt:34-38 | a fill from the empty grid leaves a solution or the empty grid |
| Generator.ShuffleKeepsDistinct | app/src/main/java/com/sudoku/game/logic/SudokuGenerator.kt:90 | a shuffle of a list without repeats has none and the same length |
| Generator.RowMajorDistinct | app/src/main/java/com/sudoku/game/logic/SudokuGenerator.kt:84-88 | the 81 positions listed row by row are distinct and on the board |
| Generator.RemovalCount | app/src/main/java/com/sudoku/game/logic/SudokuGenerator.kt:92-96 | `removeCells` empties count squares, 0 for non-positive count, at most 81 |
| Generator.RemoveCells | app/src/main/java/com/sudoku/game/logic/SudokuGenerator.kt:80-97 | exactly RemovalCount(count) distinct positions become 0, and every other square keeps its value |
| Generator.ToCells | app/src/main/java/com/sudoku/game/logic/SudokuGenerator.kt:20-29 | one square per grid value at its own row and column; given exactly when nonzero; no flag, no notes |
| Generator.FreshPuzzleHasNoErrors | app/src/main/java/com/sudoku/game/logic/SudokuGenerator.kt:20-29 | `checkErrors` changes nothing on a freshly converted puzzle |
| Generator.GivenCount | app/src/main/java/com/sudoku/game/logic/SudokuGenerator.kt:17-26 | a board that is given everywhere except the removed positions has 81 − removed given squares |
| Generator.PuzzleBoard | app/src/main/java/com/sudoku/game/logic/SudokuGenerator.kt:14-29 | the converted puzzle shows the solution's value or 0. For a real solution, a square is given exactly when it was not removed, and the number of given squares is 81 − removed |
| Generator.GeneratePuzzle | app/src/main/java/com/sudoku/game/logic/SudokuGenerator.kt:9-32 | CellsToRemove() positions removed; each square shows the solution's value or 0 at its own position, given exactly when nonzero, with no flag and no notes; for a real solution the board has 81 − CellsToRemove() given squares |
| GameStates.InitialState | app/src/main/java/com/sudoku/game/viewmodel/SudokuViewModel.kt:26-35 | every square `Cell(row, col, 0)`, all-zero solution, nothing selected, Easy, not complete, no mistakes, no time, notes mode off |
| ViewModel.Selected | app/src/main/java/com/sudoku/game/viewmodel/SudokuViewModel.kt:70-75 | selecting the selected square clears the selection, any other square becomes the selection; nothing else changes |
| ViewModel.SelectTwice | app/src/main/java/com/sudoku/game/viewmodel/SudokuViewModel.kt:70-75 | selecting one square twice restores the state exactly when nothing or that square was selected |
| ViewModel.ToggleNote | app/src/main/java/com/sudoku/game/viewmodel/SudokuViewModel.kt:86-90 | the number's membership flips; every other note is kept |
| ViewModel.ToggleNoteTwice | app/src/main/java/com/sudoku/game/viewmodel/SudokuViewModel.kt:86-90 | toggling twice restores the notes |
| ViewModel.UpdatedBoard | app/src/main/java/com/sudoku/game/viewmodel/SudokuViewModel.kt:141-156 | the values are those of the old board with (row, col) set; every flag is accurate. Each square is its incoming cell apart from `isError`, and empty or given squares keep their incoming flag |
| ViewModel.WithCell | app/src/main/java/com/sudoku/game/viewmodel/SudokuViewModel.kt:141-156 | only the board changes, its values only at (row, col) |
| ViewModel.WithCellKeepingValue | app/src/main/java/com/sudoku/game/viewmodel/SudokuViewModel.kt:141-156 | a replacement with the same value, given flag and error flag recomputes nothing on an accurately flagged board |
| ViewModel.WithCompletionChecked | app/src/main/java/com/sudoku/game/viewmodel/SudokuViewModel.kt:158-161 | only `isComplete` changes: it becomes true when the board is complete and is never reset |
| ViewModel.EnteredValue | app/src/main/java/com/sudoku/game/viewmodel/SudokuViewModel.kt:93-105 | only the board and the mistake count change; the values change only at (row, col), to the number |
| ViewModel.AfterEnterNumber | app/src/main/java/com/sudoku/game/viewmodel/SudokuViewModel.kt:77-110 | the state after `enterNumber` stays well formed |
| ViewModel.AfterClearCell | app/src/main/java/com/sudoku/game/viewmodel/SudokuViewModel.kt:112-120 | the state after `clearCell` stays well formed |
| ViewModel.AfterHint | app/src/main/java/com/sudoku/game/viewmodel/SudokuViewModel.kt:128-139 | the state after `getHint` stays well formed |
| ViewModel.NewGame | app/src/main/java/com/sudoku/game/viewmodel/SudokuViewModel.kt:53-61 | the new puzzle with nothing selected, not complete, no mistakes, no time, notes mode at its default off |
| ViewModel.IgnoredWithoutEditableSelection | app/src/main/java/com/sudoku/game/viewmodel/SudokuViewModel.kt:77-139 | with no selection or a given square selected, enter, clear and hint change nothing |
| ViewModel.NotesInputKeepsValues | app/src/main/java/com/sudoku/game/viewmodel/SudokuViewModel.kt:84-91 | notes input toggles the square's note; no value, mistake count or completion flag changes |
| ViewModel.NotesToggleTwice | app/src/main/java/com/sudoku/game/viewmodel/SudokuViewModel.kt:84-91 | in notes mode, entering the same number twice restores the state |
| ViewModel.ValueInputWritesSquare | app/src/main/java/com/sudoku/game/viewmodel/SudokuViewModel.kt:92-98 | value input writes the number and clears the notes; other squares change at most their flag; only board, mistakes and completion change |
| ViewModel.MistakeCounted | app/src/main/java/com/sudoku/game/viewmodel/SudokuViewModel.kt:101-105 | mistakes grow by 1 exactly on editable value input of a nonzero number that a peer already holds, else stay |
| ViewModel.HintWritesSolution | app/src/main/java/com/sudoku/game/viewmodel/SudokuViewModel.kt:135-138 | a hint writes the solution's value with no notes and counts no mistake |
| ViewModel.ClearKeepsStaleFlag | app/src/main/java/com/sudoku/game/viewmodel/SudokuViewModel.kt:112-120 | clearing empties the square and its notes but keeps its old `isError`; completion and mistakes are untouched |
| ViewModel.WithCellKeepsGivens | app/src/main/java/com/sudoku/game/viewmodel/SudokuViewModel.kt:141-156 | replacing a non-given square by a non-given cell keeps every given square and every given flag |
| ViewModel.EnterKeepsGivens | app/src/main/java/com/sudoku/game/viewmodel/SudokuViewModel.kt:77-110 | `enterNumber` keeps every given square and given flag |
| ViewModel.ClearKeepsGivens | app/src/main/java/com/sudoku/game/viewmodel/SudokuViewModel.kt:112-120 | `clearCell` keeps every given square and given flag |
| ViewModel.HintKeepsGivens | app/src/main/java/com/sudoku/game/viewmodel/SudokuViewModel.kt:128-139 | `getHint` keeps every given square and given flag |
| ViewModel.CompletionSticks | app/src/main/java/com/sudoku/game/viewmodel/SudokuViewModel.kt:158-161 | no input resets `isComplete`; it becomes true only on a complete board |
| ViewModel.CompletionRefires | app/src/main/java/com/sudoku/game/viewmodel/SudokuViewModel.kt:77-110 | on a completed board, re-entering an editable square's own value runs the completion path again (no `isComplete` guard) |
| ViewModel.HintRefires | app/src/main/java/com/sudoku/game/viewmodel/SudokuViewModel.kt:128-139 | on a completed board, a hint on an editable square that already holds the solution's value runs the completion path again (no `isComplete` guard) |
| ViewModel.SudokuViewModel.constructor | app/src/main/java/com/sudoku/game/viewmodel/SudokuViewModel.kt:19-49 | the initial state, no timer, the given store |
| ViewModel.SudokuViewModel.StartNewGame | app/src/main/java/com/sudoku/game/viewmodel/SudokuViewModel.kt:51-68 | a fresh, accurately flagged state for the level; timer running; squares show 0 or the solution's value; the store counts one more game played |
| ViewModel.SudokuViewModel.SelectCell | app/src/main/java/com/sudoku/game/viewmodel/SudokuViewModel.kt:70-75 | the state becomes `Selected(old, row, col)`; timer untouched |
| ViewModel.SudokuViewModel.EnterNumber | app/src/main/java/com/sudoku/game/viewmodel/SudokuViewModel.kt:77-110 | the state becomes `AfterEnterNumber`; on completion the timer stops and the store gets the completion edit, otherwise timer and store are untouched |
| ViewModel.SudokuViewModel.EnterValue | app/src/main/java/com/sudoku/game/viewmodel/SudokuViewModel.kt:92-105 | the state becomes `EnteredValue` |
| ViewModel.SudokuViewModel.ClearCell | app/src/main/java/com/sudoku/game/viewmodel/SudokuViewModel.kt:112-120 | the state becomes `AfterClearCell`; no completion check, timer untouched |
| ViewModel.SudokuViewModel.ToggleNotesMode | app/src/main/java/com/sudoku/game/viewmodel/SudokuViewModel.kt:122-126 | only notes mode flips |
| ViewModel.SudokuViewModel.GetHint | app/src/main/java/com/sudoku/game/viewmodel/SudokuViewModel.kt:128-139 | the state becomes `AfterHint`; on completion the timer stops and the store gets the completion edit |
| ViewModel.SudokuViewModel.UpdateCell | app/src/main/java/com/sudoku/game/viewmodel/SudokuViewModel.kt:141-156 | the state becomes `WithCell`, flags accurate |
| ViewModel.SudokuViewModel.CheckCompletion | app/src/main/java/com/sudoku/game/viewmodel/SudokuViewModel.kt:158-170 | on a complete board: marked complete, timer stopped, completion edit with the state's level and time; otherwise nothing changes |
| ViewModel.SudokuViewModel.StartTimer | app/src/main/java/com/sudoku/game/viewmodel/SudokuViewModel.kt:172-182 | the timer runs afterwards, whatever it did before |
| ViewModel.SudokuViewModel.StopTimer | app/src/main/java/com/sudoku/game/viewmodel/SudokuViewModel.kt:184-186 | the timer is stopped |
| ViewModel.SudokuViewModel.Tick | app/src/main/java/com/sudoku/game/viewmodel/SudokuViewModel.kt:174-180 | one second is added while the timer runs, nothing otherwise |
| ViewModel.SudokuViewModel.PauseGame | app/src/main/java/com/sudoku/game/viewmodel/SudokuViewModel.kt:188-190 | the timer is stopped, the state kept |
| ViewModel.SudokuViewModel.ResumeGame | app/src/main/java/com/sudoku/game/viewmodel/SudokuViewModel.kt:192-196 | the timer runs afterwards exactly when it ran before or the game is not complete |
| ViewModel.SudokuViewModel.OnCleared | app/src/main/java/com/sudoku/game/viewmodel/SudokuViewModel.kt:198-201 | the timer is stopped |

Behaviour of the code that a reader might not expect, modelled as written:

- `enterNumber` and `getHint` have no `isComplete` guard, so a completed game can be recorded in the store again. Re-entering a square's own value does it (CompletionRefires), and so does a hint on a square that already holds the solution's value (HintRefires).
- `clearCell` runs no completion check.
- A cleared square keeps its old `isError`, because `checkErrors` skips empty squares.
- `startNewGame` does not pass `notesMode`, so notes mode goes back to its default, off.
- `gamesPlayed` goes up when a game starts and again when it is completed.

## Left out

- Asynchronous work (`viewModelScope.launch`, the `statisticsFlow` collection, DataStore `edit`) happens synchronously, in program order. An interleaving of a store update with another input is not modelled.
- The timer coroutine (`delay(1000)` in a loop) is the `timerRunning` flag plus `Tick`. Real time and job cancellation are not modelled.
- `Statistics()` in the view-model reads the store directly. It does not model the `StateFlow` that follows the store with a delay.
- The random number generator: `shuffled()` and `shuffle()` are an arbitrary permutation chosen by the verifier.
- GenerateCompleteSudoku: search completeness, meaning that the fill from an empty grid always succeeds, is not proved. The contract therefore says "a solution, or the empty grid", and the puzzle properties that need a solution are stated under that condition.
- `Int`/`Long` overflow, for example of `totalTime`, the streaks or `timeElapsed`, is not modelled: integers are unbounded.
- `String.format` locale behaviour: `%02d` is modelled with ASCII digits only.
- ViewModel.SudokuViewModel.SelectCell: the model requires the position to lie on the board. The source accepts any pair, and a later input then fails with an index error, which is not modelled.
- The Compose UI is not part of this model: the screens, the board and number-pad components, the navigation in `MainActivity`, the colour constants, and `GameScreen.kt` apart from `formatTime`.
- `SudokuViewModelFactory` (reflective construction) is not part of this model.
