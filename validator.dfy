/** The move validator: whether a value may stand at a position given the other
    squares of the board, whether a board is solved, and the conflict flags. */
module Validator {
  import opened Grid
  import opened Cells

  /** No peer of (row, col) on the board holds num: the reference meaning of a valid move. */
  ghost predicate NoPeerHolds(board: Board, row: int, col: int, num: int)
    requires IsBoard(board) && InGrid(row, col)
  {
    forall r, c :: IsPeer(row, col, r, c) ==> board[r][c].value != num
  }

  /** Row loop of the check, from column c on: false as soon as another column of the row holds num. */
  function RowClear(board: Board, row: int, col: int, num: int, c: int): bool
    requires IsBoard(board) && InGrid(row, col) && 0 <= c <= 9
    decreases 9 - c
  {
    if c == 9 then true
    else if c != col && board[row][c].value == num then false
    else RowClear(board, row, col, num, c + 1)
  }

  /** Column loop of the check, from row r on: false as soon as another row of the column holds num. */
  function ColClear(board: Board, row: int, col: int, num: int, r: int): bool
    requires IsBoard(board) && InGrid(row, col) && 0 <= r <= 9
    decreases 9 - r
  {
    if r == 9 then true
    else if r != row && board[r][col].value == num then false
    else ColClear(board, row, col, num, r + 1)
  }

  /** Inner box loop: columns c .. BoxStart(col) + 2 of box row r. */
  function BoxRowClear(board: Board, row: int, col: int, num: int, r: int, c: int): bool
    requires IsBoard(board) && InGrid(row, col) && 0 <= r < 9
    requires BoxStart(col) <= c <= BoxStart(col) + 3
    decreases BoxStart(col) + 3 - c
  {
    if c == BoxStart(col) + 3 then true
    else if (r != row || c != col) && board[r][c].value == num then false
    else BoxRowClear(board, row, col, num, r, c + 1)
  }

  /** Outer box loop: box rows r .. BoxStart(row) + 2. */
  function BoxClear(board: Board, row: int, col: int, num: int, r: int): bool
    requires IsBoard(board) && InGrid(row, col)
    requires BoxStart(row) <= r <= BoxStart(row) + 3
    decreases BoxStart(row) + 3 - r
  {
    if r == BoxStart(row) + 3 then true
    else if !BoxRowClear(board, row, col, num, r, BoxStart(col)) then false
    else BoxClear(board, row, col, num, r + 1)
  }

  lemma {:induction false} RowClearIff(board: Board, row: int, col: int, num: int, c: int)
    requires IsBoard(board) && InGrid(row, col) && 0 <= c <= 9
    ensures RowClear(board, row, col, num, c) <==>
            forall k :: c <= k < 9 && k != col ==> board[row][k].value != num
    decreases 9 - c
  {
    if c < 9 {
      RowClearIff(board, row, col, num, c + 1);
    }
  }

  lemma {:induction false} ColClearIff(board: Board, row: int, col: int, num: int, r: int)
    requires IsBoard(board) && InGrid(row, col) && 0 <= r <= 9
    ensures ColClear(board, row, col, num, r) <==>
            forall k :: r <= k < 9 && k != row ==> board[k][col].value != num
    decreases 9 - r
  {
    if r < 9 {
      ColClearIff(board, row, col, num, r + 1);
    }
  }

  lemma {:induction false} BoxRowClearIff(board: Board, row: int, col: int, num: int, r: int, c: int)
    requires IsBoard(board) && InGrid(row, col) && 0 <= r < 9
    requires BoxStart(col) <= c <= BoxStart(col) + 3
    ensures BoxRowClear(board, row, col, num, r, c) <==>
            forall k :: c <= k < BoxStart(col) + 3 && (r != row || k != col) ==> board[r][k].value != num
    decreases BoxStart(col) + 3 - c
  {
    if c < BoxStart(col) + 3 {
      BoxRowClearIff(board, row, col, num, r, c + 1);
    }
  }

  lemma {:induction false} BoxClearIff(board: Board, row: int, col: int, num: int, r: int)
    requires IsBoard(board) && InGrid(row, col)
    requires BoxStart(row) <= r <= BoxStart(row) + 3
    ensures BoxClear(board, row, col, num, r) <==>
            forall i, k :: r <= i < BoxStart(row) + 3 && BoxStart(col) <= k < BoxStart(col) + 3 && (i != row || k != col)
              ==> board[i][k].value != num
    decreases BoxStart(row) + 3 - r
  {
    if r < BoxStart(row) + 3 {
      BoxRowClearIff(board, row, col, num, r, BoxStart(col));
      BoxClearIff(board, row, col, num, r + 1);
    }
  }

  /** The three scans together find a conflict exactly when some peer holds num. */
  lemma ScansFindPeers(board: Board, row: int, col: int, num: int)
    requires IsBoard(board) && InGrid(row, col)
    ensures (RowClear(board, row, col, num, 0) && ColClear(board, row, col, num, 0) && BoxClear(board, row, col, num, BoxStart(row)))
            <==> NoPeerHolds(board, row, col, num)
  {
    RowClearIff(board, row, col, num, 0);
    ColClearIff(board, row, col, num, 0);
    BoxClearIff(board, row, col, num, BoxStart(row));
    var b0, b1 := BoxStart(row), BoxStart(col);
    if NoPeerHolds(board, row, col, num) {
      forall i, k | b0 <= i < b0 + 3 && b1 <= k < b1 + 3 && (i != row || k != col)
        ensures board[i][k].value != num
      {
        BoxRange(row, i);
        BoxRange(col, k);
        assert IsPeer(row, col, i, k);
      }
      forall k | 0 <= k < 9 && k != col ensures board[row][k].value != num {
        assert IsPeer(row, col, row, k);
      }
      forall k | 0 <= k < 9 && k != row ensures board[k][col].value != num {
        assert IsPeer(row, col, k, col);
      }
    }
    if RowClear(board, row, col, num, 0) && ColClear(board, row, col, num, 0) && BoxClear(board, row, col, num, b0) {
      forall r, c | IsPeer(row, col, r, c) ensures board[r][c].value != num {
        if r != row && c != col {
          BoxRange(row, r);
          BoxRange(col, c);
        }
      }
    }
  }

  /** `isValidMove`: 0 is always allowed; any other value is allowed exactly when no
      other square of the row, the column or the 3x3 box already holds it. The square
      (row, col) itself is never compared, so its current value does not matter. */
  function IsValidMove(board: Board, row: int, col: int, num: int): (ok: bool)
    requires IsBoard(board) && InGrid(row, col)
    ensures num == 0 ==> ok
    ensures ok <==> num == 0 || NoPeerHolds(board, row, col, num)
  {
    ScansFindPeers(board, row, col, num);
    if num == 0 then true
    else RowClear(board, row, col, num, 0) && ColClear(board, row, col, num, 0) && BoxClear(board, row, col, num, BoxStart(row))
  }

  /** The verdict on (row, col) does not depend on what (row, col) itself holds. */
  lemma ValidMoveIgnoresOwnSquare(b1: Board, b2: Board, row: int, col: int, num: int)
    requires IsBoard(b1) && IsBoard(b2) && InGrid(row, col)
    requires forall r, c :: InGrid(r, c) && (r != row || c != col) ==> b1[r][c].value == b2[r][c].value
    ensures IsValidMove(b1, row, col, num) == IsValidMove(b2, row, col, num)
  {
  }

  /** Some square of the board is empty (`board.any { row -> row.any { it.value == 0 } }`). */
  predicate AnyEmpty(board: Board)
    requires IsBoard(board)
  {
    exists r, c :: 0 <= r < 9 && 0 <= c < 9 && board[r][c].value == 0
  }

  /** `isComplete`: every square filled and every square's value a valid move where it stands;
      equivalently, the board is full and no row, column or box holds a value twice. */
  function IsComplete(board: Board): (done: bool)
    requires IsBoard(board)
    ensures done ==> forall r, c :: InGrid(r, c) ==> board[r][c].value != 0
    ensures done <==> Full(Values(board)) && DuplicateFree(Values(board))
  {
    var g := Values(board);
    assert DuplicateFree(g) <==> forall r, c :: 0 <= r < 9 && 0 <= c < 9 && g[r][c] != 0 ==> IsValidMove(board, r, c, board[r][c].value);
    !AnyEmpty(board) && forall r, c :: 0 <= r < 9 && 0 <= c < 9 ==> IsValidMove(board, r, c, board[r][c].value)
  }

  /** A complete board whose values are digits has every unit a permutation of 1..9. */
  lemma CompleteUnitsArePermutations(board: Board)
    requires IsBoard(board) && IsComplete(board) && DigitsOnly(Values(board))
    ensures forall i :: 0 <= i < 9 ==> IsDigitPermutation(Values(board)[i])
    ensures forall j :: 0 <= j < 9 ==> IsDigitPermutation(Column(Values(board), j))
    ensures forall b :: 0 <= b < 9 ==> IsDigitPermutation(Box(Values(board), b))
  {
    SolutionUnitsArePermutations(Values(board));
  }

  /** What `checkErrors` does to a single square. */
  function Annotated(board: Board, r: int, c: int): (a: Cell)
    requires IsBoard(board) && InGrid(r, c)
    ensures a == board[r][c].(isError := a.isError)
    ensures board[r][c].value != 0 && !board[r][c].isInitial ==>
      (a.isError <==> !NoPeerHolds(board, r, c, board[r][c].value))
    ensures board[r][c].value == 0 || board[r][c].isInitial ==> a == board[r][c]
  {
    var cell := board[r][c];
    if cell.value != 0 && !cell.isInitial then cell.(isError := !IsValidMove(board, r, c, cell.value))
    else cell
  }

  /** `checkErrors`: the same board with the conflict flag of every filled, non-given square
      recomputed: it is set exactly when a peer holds the same value. Given and empty squares
      are returned as they were, stale flag included. */
  function CheckErrors(board: Board): (result: Board)
    requires IsBoard(board)
    ensures IsBoard(result)
    ensures forall r, c :: InGrid(r, c) ==>
      var cell := board[r][c];
      if cell.value != 0 && !cell.isInitial then result[r][c] == cell.(isError := !NoPeerHolds(board, r, c, cell.value))
      else result[r][c] == cell
  {
    seq(9, r requires 0 <= r < 9 => seq(9, c requires 0 <= c < 9 => Annotated(board, r, c)))
  }

  /** Re-annotation changes no value, so the move verdicts and completion are the same afterwards. */
  lemma CheckErrorsKeepsValues(board: Board)
    requires IsBoard(board)
    ensures Values(CheckErrors(board)) == Values(board)
    ensures IsComplete(CheckErrors(board)) == IsComplete(board)
  {
    var g1, g2 := Values(CheckErrors(board)), Values(board);
    forall r | 0 <= r < 9 ensures g1[r] == g2[r] {
      assert forall c :: 0 <= c < 9 ==> g1[r][c] == g2[r][c];
    }
  }

  /** Annotating twice is annotating once. */
  lemma CheckErrorsIdempotent(board: Board)
    requires IsBoard(board)
    ensures CheckErrors(CheckErrors(board)) == CheckErrors(board)
  {
    var once := CheckErrors(board);
    CheckErrorsKeepsValues(board);
    forall r, c | InGrid(r, c) ensures CheckErrors(once)[r][c] == once[r][c] {
      assert NoPeerHolds(once, r, c, board[r][c].value) == NoPeerHolds(board, r, c, board[r][c].value);
    }
    BoardExt(CheckErrors(once), once);
  }

  /** On a board without duplicates no filled, non-given square is flagged. */
  lemma CheckErrorsOnDuplicateFree(board: Board)
    requires IsBoard(board) && DuplicateFree(Values(board))
    ensures forall r, c :: InGrid(r, c) && board[r][c].value != 0 && !board[r][c].isInitial ==> !CheckErrors(board)[r][c].isError
  {
    forall r, c | InGrid(r, c) && board[r][c].value != 0 && !board[r][c].isInitial
      ensures NoPeerHolds(board, r, c, board[r][c].value)
    {
      assert Values(board)[r][c] == board[r][c].value;
    }
  }

  /** Every filled, non-given square is flagged exactly when a peer holds its value. */
  ghost predicate FlagsAccurate(board: Board)
    requires IsBoard(board)
  {
    forall r, c :: InGrid(r, c) && board[r][c].value != 0 && !board[r][c].isInitial ==>
      (board[r][c].isError <==> !NoPeerHolds(board, r, c, board[r][c].value))
  }

  /** After `checkErrors` the flags are accurate, and on a board whose flags are already
      accurate it changes nothing. */
  lemma CheckErrorsMakesAccurate(board: Board)
    requires IsBoard(board)
    ensures FlagsAccurate(CheckErrors(board))
    ensures FlagsAccurate(board) ==> CheckErrors(board) == board
  {
    var once: Board := CheckErrors(board);
    CheckErrorsKeepsValues(board);
    forall r: int, c: int | InGrid(r, c) && once[r][c].value != 0 && !once[r][c].isInitial
      ensures once[r][c].isError <==> !NoPeerHolds(once, r, c, once[r][c].value)
    {
      assert NoPeerHolds(once, r, c, board[r][c].value) == NoPeerHolds(board, r, c, board[r][c].value);
    }
    if FlagsAccurate(board) {
      BoardExt(once, board);
    }
  }

  /** Move verdicts depend on the values of the board only. */
  lemma SameValuesSameVerdicts(b1: Board, b2: Board)
    requires IsBoard(b1) && IsBoard(b2) && Values(b1) == Values(b2)
    ensures forall r, c, v :: InGrid(r, c) ==> NoPeerHolds(b1, r, c, v) == NoPeerHolds(b2, r, c, v)
  {
    assert forall r, c :: InGrid(r, c) ==> b1[r][c].value == Values(b1)[r][c] == b2[r][c].value;
  }

  /** Completion depends on the values of the board only. */
  lemma SameValuesSameCompletion(b1: Board, b2: Board)
    requires IsBoard(b1) && IsBoard(b2) && Values(b1) == Values(b2)
    ensures IsComplete(b1) == IsComplete(b2)
  {
  }
}
