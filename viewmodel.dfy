/** The game's view-model: how selecting, entering, clearing and hinting change the game
    state, when a game counts as completed, the elapsed-time timer, and the statistics
    updates it triggers. The state transitions are given as functions; the view-model class
    applies them step by step to its state field. */
module ViewModel {
  import opened Grid
  import opened Cells
  import opened Difficulties
  import opened Validator
  import opened Stats
  import opened StatisticsRepo
  import opened Generator
  import opened GameStates

  /** `selectCell`: selecting the selected square deselects it; any other square becomes the selection. */
  function Selected(s: GameState, row: int, col: int): (t: GameState)
    ensures t.selectedCell == (if s.selectedCell == Some((row, col)) then None else Some((row, col)))
    ensures t == s.(selectedCell := t.selectedCell)
  {
    s.(selectedCell := if s.selectedCell == Some((row, col)) then None else Some((row, col)))
  }

  /** Pencil-note toggle: number is removed when present and added when absent. */
  function ToggleNote(notes: set<int>, number: int): (r: set<int>)
    ensures number in r <==> number !in notes
    ensures forall x :: x != number ==> (x in r <==> x in notes)
  {
    if number in notes then notes - {number} else notes + {number}
  }

  /** The square at (r, c) of the board `updateCell` is given, before flags are recomputed. */
  function Incoming(b: Board, row: int, col: int, newCell: Cell, r: int, c: int): Cell
    requires IsBoard(b) && InGrid(r, c)
  {
    if r == row && c == col then newCell else b[r][c]
  }

  /** The board `updateCell` publishes: (row, col) replaced, then every flag recomputed. */
  lemma UpdatedBoard(b: Board, row: int, col: int, newCell: Cell)
    requires IsBoard(b) && InGrid(row, col)
    ensures var t := CheckErrors(ReplaceCell(b, row, col, newCell));
      && Values(t) == Place(Values(b), row, col, newCell.value)
      && FlagsAccurate(t)
      && forall r, c :: InGrid(r, c) ==>
        var src := Incoming(b, row, col, newCell, r, c);
        t[r][c] == src.(isError := t[r][c].isError)
        && (src.value == 0 || src.isInitial ==> t[r][c].isError == src.isError)
  {
    var b' := ReplaceCell(b, row, col, newCell);
    CheckErrorsKeepsValues(b');
    CheckErrorsMakesAccurate(b');
    GridExt(Values(b'), Place(Values(b), row, col, newCell.value));
  }

  /** `updateCell`: only the board changes, and its values change only at (row, col); the
      squares themselves are described by UpdatedBoard. */
  function WithCell(s: GameState, row: int, col: int, newCell: Cell): (t: GameState)
    requires WellFormed(s) && InGrid(row, col)
    ensures WellFormed(t) && t == s.(board := t.board)
    ensures Values(t.board) == Place(Values(s.board), row, col, newCell.value)
  {
    UpdatedBoard(s.board, row, col, newCell);
    s.(board := CheckErrors(ReplaceCell(s.board, row, col, newCell)))
  }

  /** `checkCompletion`'s effect on the state: the game is marked complete when the board is. */
  function WithCompletionChecked(s: GameState): (t: GameState)
    requires WellFormed(s)
    ensures WellFormed(t) && t == s.(isComplete := t.isComplete)
    ensures t.isComplete == (s.isComplete || IsComplete(s.board))
  {
    if IsComplete(s.board) then s.(isComplete := true) else s
  }

  /** The selected square, when there is one and it is not a given square. */
  predicate Editable(s: GameState)
    requires WellFormed(s)
  {
    s.selectedCell.Some? && !s.board[s.selectedCell.value.0][s.selectedCell.value.1].isInitial
  }

  /** Normal input at (row, col): the number is written and the notes cleared, and a mistake
      is counted when the number is nonzero and conflicts on the updated board. */
  function EnteredValue(s: GameState, row: int, col: int, number: int): (t: GameState)
    requires WellFormed(s) && InGrid(row, col)
    ensures WellFormed(t) && t == s.(board := t.board, mistakes := t.mistakes)
    ensures Values(t.board) == Place(Values(s.board), row, col, number)
  {
    var s1 := WithCell(s, row, col, s.board[row][col].(value := number, notes := {}));
    if number != 0 && !IsValidMove(s1.board, row, col, number) then s1.(mistakes := s1.mistakes + 1) else s1
  }

  /** `enterNumber`: without an editable selection nothing changes. In notes mode the number's
      note is toggled. Otherwise the number is entered and completion is checked. */
  function AfterEnterNumber(s: GameState, number: int): (t: GameState)
    requires WellFormed(s)
    ensures WellFormed(t)
  {
    if !Editable(s) then s
    else
      var (row, col) := s.selectedCell.value;
      var cell := s.board[row][col];
      if s.notesMode then WithCell(s, row, col, cell.(notes := ToggleNote(cell.notes, number)))
      else WithCompletionChecked(EnteredValue(s, row, col, number))
  }

  /** `enterNumber` runs `checkCompletion` and it finds the board complete. */
  predicate EnterNumberCompletes(s: GameState, number: int)
    requires WellFormed(s)
  {
    Editable(s) && !s.notesMode && IsComplete(EnteredValue(s, s.selectedCell.value.0, s.selectedCell.value.1, number).board)
  }

  /** `clearCell`: the editable selected square is emptied and its notes dropped. */
  function AfterClearCell(s: GameState): (t: GameState)
    requires WellFormed(s)
    ensures WellFormed(t)
  {
    if !Editable(s) then s
    else
      var (row, col) := s.selectedCell.value;
      var cell := s.board[row][col];
      WithCell(s, row, col, cell.(value := 0, notes := {}))
  }

  /** `getHint`: the editable selected square gets the solution's value, its notes are dropped
      and completion is checked. */
  function AfterHint(s: GameState): (t: GameState)
    requires WellFormed(s)
    ensures WellFormed(t)
  {
    if !Editable(s) then s
    else
      var (row, col) := s.selectedCell.value;
      var cell := s.board[row][col];
      WithCompletionChecked(WithCell(s, row, col, cell.(value := s.solution[row][col], notes := {})))
  }

  /** `getHint` runs `checkCompletion` and it finds the board complete. */
  predicate HintCompletes(s: GameState)
    requires WellFormed(s)
  {
    Editable(s) && IsComplete(AfterHint(s).board)
  }

  /** The state `startNewGame` publishes: the new puzzle, nothing selected, not complete, no
      mistakes, no time, and notes mode back to its default off. */
  function NewGame(board: Board, solution: IntGrid, difficulty: Difficulty): (s: GameState)
    requires IsBoard(board) && IsGrid(solution)
    ensures WellFormed(s) && s.board == board && s.solution == solution && s.difficulty == difficulty
    ensures s.selectedCell == None && !s.isComplete && s.mistakes == 0 && s.timeElapsed == 0 && !s.notesMode
  {
    GameState(board, solution, None, difficulty, false, 0, 0, false)
  }

  /** Selecting the same square twice restores the state exactly when nothing, or that
      square, was selected before. */
  lemma SelectTwice(s: GameState, row: int, col: int)
    ensures Selected(Selected(s, row, col), row, col) == s <==> s.selectedCell == None || s.selectedCell == Some((row, col))
  {
  }

  lemma ToggleNoteTwice(notes: set<int>, number: int)
    ensures ToggleNote(ToggleNote(notes, number), number) == notes
  {
  }

  /** Replacing a square by one with the same value, the same given flag and the same conflict
      flag recomputes nothing on a board whose flags are accurate. */
  lemma WithCellKeepingValue(s: GameState, row: int, col: int, newCell: Cell)
    requires WellFormed(s) && InGrid(row, col) && FlagsAccurate(s.board)
    requires newCell.value == s.board[row][col].value && newCell.isInitial == s.board[row][col].isInitial
    requires newCell.isError == s.board[row][col].isError
    ensures WithCell(s, row, col, newCell) == s.(board := ReplaceCell(s.board, row, col, newCell))
  {
    var b := ReplaceCell(s.board, row, col, newCell);
    GridExt(Values(b), Values(s.board));
    SameValuesSameVerdicts(b, s.board);
    assert FlagsAccurate(b);
    CheckErrorsMakesAccurate(b);
  }

  /** In notes mode, entering the same number twice on an editable square gives back the
      state it started from: the note is toggled on and off, and no flag moves. */
  lemma NotesToggleTwice(s: GameState, number: int)
    requires WellFormed(s) && FlagsAccurate(s.board) && Editable(s) && s.notesMode
    ensures AfterEnterNumber(AfterEnterNumber(s, number), number) == s
  {
    var (row, col) := s.selectedCell.value;
    var cell := s.board[row][col];
    var once := cell.(notes := ToggleNote(cell.notes, number));
    WithCellKeepingValue(s, row, col, once);
    var t := AfterEnterNumber(s, number);
    assert t == s.(board := ReplaceCell(s.board, row, col, once));
    assert FlagsAccurate(t.board);
    ToggleNoteTwice(cell.notes, number);
    WithCellKeepingValue(t, row, col, cell);
    BoardExt(ReplaceCell(t.board, row, col, cell), s.board);
  }

  /** Normal input counts a mistake exactly when the number is nonzero and a peer of the
      square already held it; notes input and input on a given square count none. */
  lemma MistakeCounted(s: GameState, number: int)
    requires WellFormed(s)
    ensures var t := AfterEnterNumber(s, number);
      t.mistakes == s.mistakes +
        if Editable(s) && !s.notesMode && number != 0
           && !NoPeerHolds(s.board, s.selectedCell.value.0, s.selectedCell.value.1, number)
        then 1 else 0
  {
    if Editable(s) && !s.notesMode {
      var (row, col) := s.selectedCell.value;
      var s1 := WithCell(s, row, col, s.board[row][col].(value := number, notes := {}));
      assert NoPeerHolds(s1.board, row, col, number) == NoPeerHolds(s.board, row, col, number) by {
        assert forall r, c :: IsPeer(row, col, r, c) ==> s1.board[r][c].value == s.board[r][c].value;
      }
    }
  }

  /** Without a selection, or with a given square selected, entering, clearing and hinting
      leave the state as it is. */
  lemma IgnoredWithoutEditableSelection(s: GameState, number: int)
    requires WellFormed(s) && !Editable(s)
    ensures AfterEnterNumber(s, number) == s && AfterClearCell(s) == s && AfterHint(s) == s
  {
  }

  /** Notes input toggles the selected square's note and changes no value of the board, no
      mistake count and no completion flag. */
  lemma NotesInputKeepsValues(s: GameState, number: int)
    requires WellFormed(s) && Editable(s) && s.notesMode
    ensures var t := AfterEnterNumber(s, number);
      var (row, col) := s.selectedCell.value;
      && t == s.(board := t.board)
      && Values(t.board) == Values(s.board)
      && t.board[row][col].notes == ToggleNote(s.board[row][col].notes, number)
  {
    var (row, col) := s.selectedCell.value;
    var cell := s.board[row][col];
    UpdatedBoard(s.board, row, col, cell.(notes := ToggleNote(cell.notes, number)));
    GridExt(Place(Values(s.board), row, col, cell.value), Values(s.board));
  }

  /** Value input writes the number into the selected square and clears its notes; every
      other square keeps its contents apart from its conflict flag, and only the board and
      the mistake count change. */
  lemma ValueInputWritesSquare(s: GameState, number: int)
    requires WellFormed(s) && Editable(s) && !s.notesMode
    ensures var t := AfterEnterNumber(s, number);
      var (row, col) := s.selectedCell.value;
      && t == s.(board := t.board, mistakes := t.mistakes, isComplete := t.isComplete)
      && t.board[row][col] == s.board[row][col].(value := number, notes := {}, isError := t.board[row][col].isError)
      && forall r, c :: InGrid(r, c) && (r != row || c != col) ==>
        t.board[r][c] == s.board[r][c].(isError := t.board[r][c].isError)
  {
    var (row, col) := s.selectedCell.value;
    UpdatedBoard(s.board, row, col, s.board[row][col].(value := number, notes := {}));
  }

  /** A hint writes the solution's value into the editable selected square, with no notes,
      and never counts a mistake. */
  lemma HintWritesSolution(s: GameState)
    requires WellFormed(s) && Editable(s)
    ensures var t := AfterHint(s);
      var (row, col) := s.selectedCell.value;
      t.board[row][col].value == s.solution[row][col] && t.board[row][col].notes == {}
      && t.mistakes == s.mistakes && t.solution == s.solution
  {
  }

  /** Clearing empties the square and drops its notes but keeps whatever conflict flag it had,
      and does not look at completion: a completed game stays marked complete. */
  lemma ClearKeepsStaleFlag(s: GameState)
    requires WellFormed(s) && Editable(s)
    ensures var t := AfterClearCell(s);
      var (row, col) := s.selectedCell.value;
      t.board[row][col] == s.board[row][col].(value := 0, notes := {})
      && t.isComplete == s.isComplete && t.mistakes == s.mistakes
  {
  }

  /** t has the same given squares as s, holding the same values. */
  ghost predicate GivensKept(s: GameState, t: GameState)
    requires WellFormed(s) && WellFormed(t)
  {
    forall r, c :: InGrid(r, c) ==>
      t.board[r][c].isInitial == s.board[r][c].isInitial
      && (s.board[r][c].isInitial ==> t.board[r][c] == s.board[r][c])
  }

  /** `updateCell` on a non-given square with a non-given cell changes no given square and no
      given flag. */
  lemma WithCellKeepsGivens(s: GameState, row: int, col: int, newCell: Cell)
    requires WellFormed(s) && InGrid(row, col) && !s.board[row][col].isInitial && !newCell.isInitial
    ensures GivensKept(s, WithCell(s, row, col, newCell))
  {
    UpdatedBoard(s.board, row, col, newCell);
  }

  /** No input changes a given square, and no square gains or loses its given flag. */
  lemma EnterKeepsGivens(s: GameState, number: int)
    requires WellFormed(s)
    ensures GivensKept(s, AfterEnterNumber(s, number))
  {
    if Editable(s) {
      var (row, col) := s.selectedCell.value;
      var cell := s.board[row][col];
      if s.notesMode {
        WithCellKeepsGivens(s, row, col, cell.(notes := ToggleNote(cell.notes, number)));
      } else {
        WithCellKeepsGivens(s, row, col, cell.(value := number, notes := {}));
      }
    }
  }

  lemma ClearKeepsGivens(s: GameState)
    requires WellFormed(s)
    ensures GivensKept(s, AfterClearCell(s))
  {
    if Editable(s) {
      var (row, col) := s.selectedCell.value;
      WithCellKeepsGivens(s, row, col, s.board[row][col].(value := 0, notes := {}));
    }
  }

  lemma HintKeepsGivens(s: GameState)
    requires WellFormed(s)
    ensures GivensKept(s, AfterHint(s))
  {
    if Editable(s) {
      var (row, col) := s.selectedCell.value;
      WithCellKeepsGivens(s, row, col, s.board[row][col].(value := s.solution[row][col], notes := {}));
    }
  }

  /** Once complete, a game stays complete under every input; it becomes complete only on a
      complete board. */
  lemma CompletionSticks(s: GameState, number: int)
    requires WellFormed(s)
    ensures forall t :: t in {AfterEnterNumber(s, number), AfterClearCell(s), AfterHint(s)} ==>
      (s.isComplete ==> t.isComplete) && (t.isComplete && !s.isComplete ==> IsComplete(t.board))
  {
  }

  /** `enterNumber` does not look at `isComplete`: writing a square's own value again on a
      completed board runs the completion path again, so the store records a second
      completion of the same game. */
  lemma CompletionRefires(s: GameState)
    requires WellFormed(s) && Editable(s) && !s.notesMode && IsComplete(s.board)
    ensures EnterNumberCompletes(s, s.board[s.selectedCell.value.0][s.selectedCell.value.1].value)
  {
    var (row, col) := s.selectedCell.value;
    var n := s.board[row][col].value;
    var t := EnteredValue(s, row, col, n);
    GridExt(Place(Values(s.board), row, col, n), Values(s.board));
    SameValuesSameCompletion(t.board, s.board);
    assert IsComplete(t.board);
  }

  /** `getHint` does not look at `isComplete` either: on a completed board, a hint on a square
      that already holds the solution's value runs the completion path again. */
  lemma HintRefires(s: GameState)
    requires WellFormed(s) && Editable(s) && IsComplete(s.board)
    requires s.board[s.selectedCell.value.0][s.selectedCell.value.1].value == s.solution[s.selectedCell.value.0][s.selectedCell.value.1]
    ensures HintCompletes(s)
  {
    var (row, col) := s.selectedCell.value;
    var cell := s.board[row][col];
    var t := WithCell(s, row, col, cell.(value := s.solution[row][col], notes := {}));
    GridExt(Place(Values(s.board), row, col, s.solution[row][col]), Values(s.board));
    SameValuesSameCompletion(t.board, s.board);
    assert IsComplete(t.board);
  }

  /** The view-model: the published game state, whether the one-second timer job is running,
      and the statistics store it reports to. */
  class SudokuViewModel {
    var gameState: GameState
    var timerRunning: bool
    const statisticsRepository: StatisticsRepository

    /** The published state is well formed and its conflict flags are accurate. */
    ghost predicate Valid()
      reads this
    {
      WellFormed(gameState) && FlagsAccurate(gameState.board)
    }

    /** A view-model before any game: the initial state and no timer. */
    constructor (repository: StatisticsRepository)
      ensures Valid() && gameState == InitialState() && !timerRunning
      ensures statisticsRepository == repository
    {
      gameState := InitialState();
      timerRunning := false;
      statisticsRepository := repository;
    }

    /** The statistics the view-model shows: what the store reads as. */
    function Statistics(): Statistics
      reads statisticsRepository
    {
      statisticsRepository.Current()
    }

    /** `startNewGame`: a generated puzzle becomes the state, the timer (re)starts and the
        store counts one more game played. */
    method StartNewGame(difficulty: Difficulty)
      modifies this, statisticsRepository
      ensures Valid() && timerRunning
      ensures !gameState.isComplete && gameState.mistakes == 0 && gameState.timeElapsed == 0
      ensures gameState.selectedCell == None && !gameState.notesMode && gameState.difficulty == difficulty
      ensures IsSolution(gameState.solution) || gameState.solution == EmptyGrid()
      ensures forall r, c :: InGrid(r, c) ==>
        gameState.board[r][c].value == 0 || gameState.board[r][c].value == gameState.solution[r][c]
      ensures forall r, c :: InGrid(r, c) ==>
        gameState.board[r][c].row == r && gameState.board[r][c].col == c
        && (gameState.board[r][c].isInitial <==> gameState.board[r][c].value != 0)
        && !gameState.board[r][c].isError && gameState.board[r][c].notes == {}
      ensures IsSolution(gameState.solution) ==> |Givens(gameState.board)| == 81 - difficulty.CellsToRemove()
      ensures Statistics() == old(Statistics()).(gamesPlayed := old(Statistics()).gamesPlayed + 1)
    {
      var board, solution, removed := GeneratePuzzle(difficulty);
      gameState := NewGame(board, solution, difficulty);
      StartTimer();
      statisticsRepository.IncrementGamesPlayed();
    }

    /** `selectCell`. */
    method SelectCell(row: int, col: int)
      requires Valid() && InGrid(row, col)
      modifies this
      ensures Valid() && gameState == Selected(old(gameState), row, col)
      ensures timerRunning == old(timerRunning)
    {
      gameState := gameState.(selectedCell := if gameState.selectedCell == Some((row, col)) then None else Some((row, col)));
    }

    /** `enterNumber`; completion stops the timer and records the game in the store. */
    method EnterNumber(number: int)
      requires Valid()
      modifies this, statisticsRepository
      ensures Valid() && gameState == AfterEnterNumber(old(gameState), number)
      ensures timerRunning == (old(timerRunning) && !EnterNumberCompletes(old(gameState), number))
      ensures statisticsRepository.preferences ==
        if EnterNumberCompletes(old(gameState), number)
        then CompletionEdit(old(statisticsRepository.preferences), gameState.difficulty, gameState.timeElapsed)
        else old(statisticsRepository.preferences)
    {
      if gameState.selectedCell.None? {
        return;
      }
      var (row, col) := gameState.selectedCell.value;
      var cell := gameState.board[row][col];
      if cell.isInitial {
        return;
      }
      if gameState.notesMode {
        UpdateCell(row, col, cell.(notes := ToggleNote(cell.notes, number)));
      } else {
        EnterValue(row, col, number);
        CheckCompletion();
      }
    }

    /** The normal-input part of `enterNumber`. */
    method EnterValue(row: int, col: int, number: int)
      requires Valid() && InGrid(row, col)
      modifies this
      ensures Valid() && gameState == EnteredValue(old(gameState), row, col, number)
      ensures timerRunning == old(timerRunning)
    {
      var cell := gameState.board[row][col];
      UpdateCell(row, col, cell.(value := number, notes := {}));
      if number != 0 && !IsValidMove(gameState.board, row, col, number) {
        gameState := gameState.(mistakes := gameState.mistakes + 1);
      }
    }

    /** `clearCell`: no completion check follows. */
    method ClearCell()
      requires Valid()
      modifies this
      ensures Valid() && gameState == AfterClearCell(old(gameState))
      ensures timerRunning == old(timerRunning)
    {
      if gameState.selectedCell.None? {
        return;
      }
      var (row, col) := gameState.selectedCell.value;
      var cell := gameState.board[row][col];
      if cell.isInitial {
        return;
      }
      UpdateCell(row, col, cell.(value := 0, notes := {}));
    }

    /** `toggleNotesMode`. */
    method ToggleNotesMode()
      modifies this
      ensures gameState == old(gameState).(notesMode := !old(gameState).notesMode)
      ensures timerRunning == old(timerRunning)
    {
      gameState := gameState.(notesMode := !gameState.notesMode);
    }

    /** `getHint`; completion stops the timer and records the game in the store. */
    method GetHint()
      requires Valid()
      modifies this, statisticsRepository
      ensures Valid() && gameState == AfterHint(old(gameState))
      ensures timerRunning == (old(timerRunning) && !HintCompletes(old(gameState)))
      ensures statisticsRepository.preferences ==
        if HintCompletes(old(gameState))
        then CompletionEdit(old(statisticsRepository.preferences), gameState.difficulty, gameState.timeElapsed)
        else old(statisticsRepository.preferences)
    {
      if gameState.selectedCell.None? {
        return;
      }
      var (row, col) := gameState.selectedCell.value;
      var cell := gameState.board[row][col];
      if cell.isInitial {
        return;
      }
      var correctValue := gameState.solution[row][col];
      UpdateCell(row, col, cell.(value := correctValue, notes := {}));
      CheckCompletion();
    }

    /** `updateCell`. */
    method UpdateCell(row: int, col: int, newCell: Cell)
      requires Valid() && InGrid(row, col)
      modifies this
      ensures Valid() && gameState == WithCell(old(gameState), row, col, newCell)
      ensures timerRunning == old(timerRunning)
    {
      var newBoard := ReplaceCell(gameState.board, row, col, newCell);
      var boardWithErrors := CheckErrors(newBoard);
      gameState := gameState.(board := boardWithErrors);
    }

    /** `checkCompletion`: on a complete board the game is marked complete, the timer stops and
        the store records the completion with the state's level and elapsed time. */
    method CheckCompletion()
      requires Valid()
      modifies this, statisticsRepository
      ensures Valid() && gameState == WithCompletionChecked(old(gameState))
      ensures timerRunning == (old(timerRunning) && !IsComplete(old(gameState).board))
      ensures statisticsRepository.preferences ==
        if IsComplete(old(gameState).board)
        then CompletionEdit(old(statisticsRepository.preferences), gameState.difficulty, gameState.timeElapsed)
        else old(statisticsRepository.preferences)
    {
      if IsComplete(gameState.board) {
        gameState := gameState.(isComplete := true);
        StopTimer();
        statisticsRepository.UpdateStatisticsOnGameComplete(gameState.difficulty, gameState.timeElapsed);
      }
    }

    /** `startTimer`: any running job is cancelled and a new one started. */
    method StartTimer()
      modifies this
      ensures timerRunning && gameState == old(gameState)
    {
      timerRunning := true;
    }

    /** `stopTimer`. */
    method StopTimer()
      modifies this
      ensures !timerRunning && gameState == old(gameState)
    {
      timerRunning := false;
    }

    /** One iteration of the timer job's loop: a second passes while the job runs. */
    method Tick()
      modifies this
      ensures timerRunning == old(timerRunning)
      ensures gameState == if timerRunning then old(gameState).(timeElapsed := old(gameState).timeElapsed + 1) else old(gameState)
    {
      if timerRunning {
        gameState := gameState.(timeElapsed := gameState.timeElapsed + 1);
      }
    }

    /** `pauseGame`. */
    method PauseGame()
      modifies this
      ensures !timerRunning && gameState == old(gameState)
    {
      StopTimer();
    }

    /** `resumeGame`: the timer restarts only for a game not yet complete. */
    method ResumeGame()
      modifies this
      ensures timerRunning == (old(timerRunning) || !gameState.isComplete) && gameState == old(gameState)
    {
      if !gameState.isComplete {
        StartTimer();
      }
    }

    /** `onCleared`. */
    method OnCleared()
      modifies this
      ensures !timerRunning && gameState == old(gameState)
    {
      StopTimer();
    }
  }
}
