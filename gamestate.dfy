/** The state of one game as the view-model publishes it. */
module GameStates {
  import opened Grid
  import opened Cells
  import opened Difficulties

  datatype Option<T> = None | Some(value: T)

  /** The board shown, the solution grid, the selected square if any, the level, whether
      the game has been completed, the mistake count, the seconds elapsed and whether
      input goes to the pencil notes. */
  datatype GameState = GameState(
    board: Board,
    solution: IntGrid,
    selectedCell: Option<(int, int)>,
    difficulty: Difficulty,
    isComplete: bool,
    mistakes: int,
    timeElapsed: int,
    notesMode: bool)

  /** A 9x9 board and solution, and a selection that lies on the board. */
  predicate WellFormed(s: GameState) {
    && IsBoard(s.board)
    && IsGrid(s.solution)
    && (s.selectedCell.Some? ==> InGrid(s.selectedCell.value.0, s.selectedCell.value.1))
  }

  /** The state before any game: every square `Cell(row, col, 0)`, an all-zero solution and the defaults. */
  function InitialState(): (s: GameState)
    ensures WellFormed(s) && Values(s.board) == EmptyGrid() && s.solution == EmptyGrid()
    ensures forall r, c :: InGrid(r, c) ==> s.board[r][c] == NewCell(r, c, 0)
    ensures s.selectedCell == None && s.difficulty == Easy && !s.isComplete
    ensures s.mistakes == 0 && s.timeElapsed == 0 && !s.notesMode
  {
    var board := seq(9, r requires 0 <= r < 9 => seq(9, c requires 0 <= c < 9 => NewCell(r, c, 0)));
    GridExt(Values(board), EmptyGrid());
    GameState(board, EmptyGrid(), None, Easy, false, 0, 0, false)
  }
}
