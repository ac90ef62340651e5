/** The puzzle generator: a complete grid filled by randomised backtracking, a copy with
    a difficulty-dependent number of squares emptied at random positions, and its
    conversion to board squares. The random shuffles are modelled as an arbitrary
    permutation chosen by the verifier, so every property holds for every shuffle. */
module Generator {
  import opened Grid
  import opened Cells
  import opened Difficulties
  import Validator

  /** `isValid`: num occurs nowhere in the row, nowhere in the column and nowhere in the
      3x3 box of (row, col) of the board being filled. Unlike the validator, the square
      itself is also compared. */
  function IsValid(board: array2<int>, row: int, col: int, num: int): (ok: bool)
    requires board.Length0 == 9 && board.Length1 == 9 && InGrid(row, col)
    reads board
    ensures ok <==> forall r, c :: InGrid(r, c) && SameUnit(row, col, r, c) ==> board[r, c] != num
  {
    var boxRow, boxCol := BoxStart(row), BoxStart(col);
    assert (forall r, c :: InGrid(r, c) && SameUnit(row, col, r, c) ==> board[r, c] != num) <==>
      (!(exists c :: 0 <= c < 9 && board[row, c] == num)
       && !(exists r :: 0 <= r < 9 && board[r, col] == num)
       && forall i, j :: boxRow <= i < boxRow + 3 && boxCol <= j < boxCol + 3 ==> board[i, j] != num) by {
      forall r, c | InGrid(r, c) ensures SameUnit(row, col, r, c) <==> r == row || c == col || (boxRow <= r < boxRow + 3 && boxCol <= c < boxCol + 3) {
        BoxRange(row, r);
        BoxRange(col, c);
      }
    }
    if exists c :: 0 <= c < 9 && board[row, c] == num then false
    else if exists r :: 0 <= r < 9 && board[r, col] == num then false
    else forall i, j :: boxRow <= i < boxRow + 3 && boxCol <= j < boxCol + 3 ==> board[i, j] != num
  }

  /** The grid an array currently holds. */
  function Snapshot(a: array2<int>): (g: IntGrid)
    requires a.Length0 == 9 && a.Length1 == 9
    reads a
    ensures IsGrid(g) && forall r, c :: InGrid(r, c) ==> g[r][c] == a[r, c]
  {
    seq(9, r requires 0 <= r < 9 reads a => seq(9, c requires 0 <= c < 9 reads a => a[r, c]))
  }

  /** On an empty square the generator's check and the player's move check agree. */
  lemma IsValidAgreesWithValidator(a: array2<int>, board: Board, row: int, col: int, num: int)
    requires a.Length0 == 9 && a.Length1 == 9 && IsBoard(board) && Snapshot(a) == Values(board)
    requires InGrid(row, col) && board[row][col].value == 0 && num != 0
    ensures IsValid(a, row, col, num) == Validator.IsValidMove(board, row, col, num)
  {
    assert forall r, c :: InGrid(r, c) ==> a[r, c] == Snapshot(a)[r][c];
  }

  ghost predicate FullArray(a: array2<int>)
    requires a.Length0 == 9 && a.Length1 == 9
    reads a
  {
    forall r, c :: InGrid(r, c) ==> a[r, c] != 0
  }

  /** No nonzero value occurs twice in a row, column or box of the array. */
  ghost predicate DuplicateFreeArray(a: array2<int>)
    requires a.Length0 == 9 && a.Length1 == 9
    reads a
  {
    forall r1, c1, r2, c2 :: InGrid(r1, c1) && IsPeer(r1, c1, r2, c2) && a[r1, c1] != 0 ==> a[r1, c1] != a[r2, c2]
  }

  /** The array conditions are the grid conditions of its snapshot. */
  lemma SnapshotConditions(a: array2<int>)
    requires a.Length0 == 9 && a.Length1 == 9
    ensures FullArray(a) <==> Full(Snapshot(a))
    ensures DuplicateFreeArray(a) <==> DuplicateFree(Snapshot(a))
  {
  }

  /** Positions of the empty squares; their number bounds the backtracking depth. */
  ghost function EmptyCells(a: array2<int>): set<(int, int)>
    requires a.Length0 == 9 && a.Length1 == 9
    reads a
  {
    set r, c | 0 <= r < 9 && 0 <= c < 9 && a[r, c] == 0 :: (r, c)
  }

  /** `1..9`. */
  function DigitRange(): (s: seq<int>)
    ensures |s| == 9 && forall x :: x in s <==> 1 <= x <= 9
  {
    [1, 2, 3, 4, 5, 6, 7, 8, 9]
  }

  /** s is a reordering of t: the same elements with the same multiplicities. */
  predicate IsShuffle<T(==)>(s: seq<T>, t: seq<T>) {
    multiset(s) == multiset(t)
  }

  /** A reordering has the original's length, and every entry of it is an entry of the original. */
  lemma ShuffleMembers<T>(s: seq<T>, t: seq<T>)
    requires IsShuffle(s, t)
    ensures |s| == |t| && forall i :: 0 <= i < |s| ==> s[i] in t
  {
    assert |multiset(s)| == |multiset(t)|;
    forall i | 0 <= i < |s| ensures s[i] in t {
      assert s[i] in multiset(s);
    }
  }

  /** `shuffled()` / `shuffle()`: some reordering of t. */
  method Shuffle<T(==)>(t: seq<T>) returns (s: seq<T>)
    ensures IsShuffle(s, t) && |s| == |t|
    ensures forall i :: 0 <= i < |s| ==> s[i] in t
  {
    assert IsShuffle(t, t);
    s :| IsShuffle(s, t);
    ShuffleMembers(s, t);
  }

  /** `fillBoard`: finds the first empty square in row-major order; if there is none the
      board is complete. Otherwise tries the digits in a shuffled order, placing each one
      that passes the check and recursing; a failed recursion is undone. When no digit
      leads to a completion the board is left as it was and false is returned.
      Every square that held a value keeps it, every value written is a digit, and a
      duplicate-free board stays duplicate-free. */
  method FillBoard(board: array2<int>) returns (ok: bool)
    requires board.Length0 == 9 && board.Length1 == 9
    modifies board
    ensures ok ==> FullArray(board)
    ensures !ok ==> unchanged(board)
    ensures forall r, c :: InGrid(r, c) ==>
      board[r, c] == old(board[r, c]) || (old(board[r, c]) == 0 && 1 <= board[r, c] <= 9)
    ensures old(DuplicateFreeArray(board)) ==> DuplicateFreeArray(board)
    decreases |EmptyCells(board)|
  {
    var row := 0;
    while row < 9
      invariant 0 <= row <= 9
      invariant forall r, c :: 0 <= r < row && 0 <= c < 9 ==> board[r, c] != 0
    {
      var col := 0;
      while col < 9
        invariant 0 <= col <= 9
        invariant forall c :: 0 <= c < col ==> board[row, c] != 0
      {
        if board[row, col] == 0 {
          ok := TryDigits(board, row, col);
          return;
        }
        col := col + 1;
      }
      row := row + 1;
    }
    return true;
  }

  /** The body of `fillBoard` for its first empty square (row, col): the shuffled digit loop. */
  method TryDigits(board: array2<int>, row: int, col: int) returns (ok: bool)
    requires board.Length0 == 9 && board.Length1 == 9 && InGrid(row, col) && board[row, col] == 0
    requires forall r, c :: InGrid(r, c) && (r < row || (r == row && c < col)) ==> board[r, c] != 0
    modifies board
    ensures ok ==> FullArray(board)
    ensures !ok ==> unchanged(board)
    ensures forall r, c :: InGrid(r, c) ==>
      board[r, c] == old(board[r, c]) || (old(board[r, c]) == 0 && 1 <= board[r, c] <= 9)
    ensures old(DuplicateFreeArray(board)) ==> DuplicateFreeArray(board)
    decreases |EmptyCells(board)|, 1
  {
    // `(1..9).shuffled()`: some ordering of the nine digits, each once.
    var numbers := Shuffle(DigitRange());
    var i := 0;
    while i < |numbers|
      invariant 0 <= i <= |numbers|
      invariant unchanged(board)
    {
      var num := numbers[i];
      var filled := TryDigit(board, row, col, num);
      if filled {
        return true;
      }
      i := i + 1;
    }
    return false;
  }

  /** One pass of the digit loop: when num passes the check, `board[row][col] = num`, recurse,
      and undo on failure. */
  method TryDigit(board: array2<int>, row: int, col: int, num: int) returns (filled: bool)
    requires board.Length0 == 9 && board.Length1 == 9 && InGrid(row, col) && board[row, col] == 0
    requires 1 <= num <= 9
    modifies board
    ensures filled ==> FullArray(board)
    ensures !filled ==> unchanged(board)
    ensures forall r, c :: InGrid(r, c) ==>
      board[r, c] == old(board[r, c]) || (old(board[r, c]) == 0 && 1 <= board[r, c] <= 9)
    ensures old(DuplicateFreeArray(board)) ==> DuplicateFreeArray(board)
    decreases |EmptyCells(board)|, 0
  {
    if !IsValid(board, row, col, num) {
      return false;
    }
    ghost var empty := EmptyCells(board);
    ghost var wasFree := DuplicateFreeArray(board);
    assert (row, col) in empty;
    board[row, col] := num;
    assert EmptyCells(board) == empty - {(row, col)};
    assert wasFree ==> DuplicateFreeArray(board) by {
      if wasFree {
        forall r1, c1, r2, c2 | InGrid(r1, c1) && IsPeer(r1, c1, r2, c2) && board[r1, c1] != 0
          ensures board[r1, c1] != board[r2, c2]
        {
          if r1 == row && c1 == col {
            assert SameUnit(row, col, r2, c2);
          } else if r2 == row && c2 == col {
            assert SameUnit(row, col, r1, c1);
          }
        }
      }
    }
    filled := FillBoard(board);
    if filled {
      return;
    }
    board[row, col] := 0;
  }

  /** `generateCompleteSudoku`: fills an all-empty grid. The result of the fill is not
      inspected, so the grid returned is a solution or, had the search failed, still empty. */
  method GenerateCompleteSudoku() returns (solution: IntGrid)
    ensures IsGrid(solution)
    ensures IsSolution(solution) || solution == EmptyGrid()
  {
    var board := new int[9, 9]((i, j) => 0);
    assert forall r, c :: InGrid(r, c) ==> board[r, c] == 0;
    assert DuplicateFreeArray(board);
    var ok := FillBoard(board);
    solution := Snapshot(board);
    SnapshotConditions(board);
    FillResult(solution, ok);
  }

  /** What a fill started from the empty grid leaves: a solution, or the empty grid. */
  lemma FillResult(g: IntGrid, ok: bool)
    requires IsGrid(g) && DigitsOnly(g) && DuplicateFree(g)
    requires ok ==> Full(g)
    requires !ok ==> forall r, c :: InGrid(r, c) ==> g[r][c] == 0
    ensures IsSolution(g) || g == EmptyGrid()
  {
    if !ok {
      GridExt(g, EmptyGrid());
    }
  }

  /** A reordering of a sequence without repeats has no repeats. */
  lemma ShuffleKeepsDistinct<T>(s: seq<T>, t: seq<T>)
    requires IsShuffle(s, t) && Distinct(t)
    ensures Distinct(s) && |s| == |t|
  {
    DistinctMultiplicity(s);
    DistinctMultiplicity(t);
    assert |multiset(s)| == |s| && |multiset(t)| == |t|;
  }

  /** No repeats exactly when every element occurs at most once. */
  lemma {:induction false} DistinctMultiplicity<T>(s: seq<T>)
    ensures Distinct(s) <==> forall x :: multiset(s)[x] <= 1
  {
    if s != [] {
      var t := s[1..];
      DistinctMultiplicity(t);
      assert s == [s[0]] + t;
      assert multiset(s) == multiset{s[0]} + multiset(t);
      assert Distinct(s) <==> s[0] !in t && Distinct(t) by {
        if Distinct(s) {
          forall i, j | 0 <= i < j < |t| ensures t[i] != t[j] {
            assert t[i] == s[i + 1] && t[j] == s[j + 1];
          }
          forall j | 0 <= j < |t| ensures t[j] != s[0] {
            assert t[j] == s[j + 1];
          }
        }
        if s[0] !in t && Distinct(t) {
          forall i, j | 0 <= i < j < |s| ensures s[i] != s[j] {
            if i == 0 {
              assert s[j] == t[j - 1];
            } else {
              assert s[i] == t[i - 1] && s[j] == t[j - 1];
            }
          }
        }
      }
      if forall x :: multiset(s)[x] <= 1 {
        assert multiset(s)[s[0]] == multiset(t)[s[0]] + 1;
        forall x ensures multiset(t)[x] <= 1 {
          assert multiset(s)[x] >= multiset(t)[x];
        }
      }
      if s[0] !in t && Distinct(t) {
        forall x ensures multiset(s)[x] <= 1 {
          if x == s[0] {
            assert multiset(t)[x] == 0;
          }
        }
      }
    }
  }

  /** The row-major position list 0..80 of `removeCells`. */
  ghost predicate RowMajor(positions: seq<(int, int)>) {
    forall k :: 0 <= k < |positions| ==> positions[k] == (k / 9, k % 9)
  }

  lemma RowMajorDistinct(positions: seq<(int, int)>)
    requires RowMajor(positions) && |positions| == 81
    ensures Distinct(positions)
    ensures forall k :: 0 <= k < 81 ==> InGrid(positions[k].0, positions[k].1)
  {
    forall i, j | 0 <= i < j < 81 ensures positions[i] != positions[j] {
      assert i == 9 * (i / 9) + i % 9 && j == 9 * (j / 9) + j % 9;
    }
  }

  /** How many squares `removeCells` empties: `count`, but none when it is not positive and
      at most the 81 of the board. */
  function RemovalCount(count: int): (n: nat)
    ensures n <= 81
    ensures count <= 0 ==> n == 0
    ensures 0 <= count <= 81 ==> n == count
    ensures count >= 81 ==> n == 81
  {
    if count <= 0 then 0 else if count >= 81 then 81 else count
  }

  /** `removeCells`: lists all 81 positions row by row, shuffles them, and empties positions
      from the front of the shuffled list until `count` have been emptied. `removed` is
      the set of emptied positions: exactly RemovalCount(count) distinct squares are set to 0
      and every other square keeps its value. */
  method RemoveCells(board: array2<int>, count: int) returns (ghost removed: set<(int, int)>)
    requires board.Length0 == 9 && board.Length1 == 9
    modifies board
    ensures |removed| == RemovalCount(count)
    ensures forall p :: p in removed ==> InGrid(p.0, p.1)
    ensures forall r, c :: InGrid(r, c) ==> board[r, c] == if (r, c) in removed then 0 else old(board[r, c])
  {
    var removedCount := 0;
    var positions: seq<(int, int)> := [];
    for i := 0 to 9
      invariant |positions| == 9 * i && RowMajor(positions)
    {
      for j := 0 to 9
        invariant |positions| == 9 * i + j && RowMajor(positions)
      {
        positions := positions + [(i, j)];
      }
    }
    RowMajorDistinct(positions);
    // `positions.shuffle()`: some reordering of the list.
    var shuffled := Shuffle(positions);
    ShuffleKeepsDistinct(shuffled, positions);

    removed := {};
    var k := 0;
    while k < |shuffled|
      invariant 0 <= k <= |shuffled| && removedCount == k && |removed| == k
      invariant k == 0 || k <= count
      invariant forall p :: p in removed ==> InGrid(p.0, p.1)
      invariant forall i :: k <= i < |shuffled| ==> shuffled[i] !in removed
      invariant forall r, c :: InGrid(r, c) ==> board[r, c] == if (r, c) in removed then 0 else old(board[r, c])
    {
      if removedCount >= count {
        break;
      }
      var (row, col) := shuffled[k];
      board[row, col] := 0;
      removedCount := removedCount + 1;
      removed := removed + {(row, col)};
      k := k + 1;
    }
  }

  /** The conversion of `generatePuzzle`: one square per grid value, at its own position, given
      exactly when it is filled, with no conflict flag and no notes. */
  function ToCells(g: IntGrid): (b: Board)
    requires IsGrid(g)
    ensures IsBoard(b) && Values(b) == g
    ensures forall r, c :: InGrid(r, c) ==>
      b[r][c].row == r && b[r][c].col == c && (b[r][c].isInitial <==> g[r][c] != 0)
      && !b[r][c].isError && b[r][c].notes == {}
  {
    var b := seq(9, r requires 0 <= r < 9 => seq(9, c requires 0 <= c < 9 => NewCell(r, c, g[r][c]).(isInitial := g[r][c] != 0)));
    GridExt(Values(b), g);
    b
  }

  /** A fresh puzzle shows no conflicts: every filled square is a given one, and given
      squares are never flagged. */
  lemma FreshPuzzleHasNoErrors(g: IntGrid)
    requires IsGrid(g)
    ensures Validator.CheckErrors(ToCells(g)) == ToCells(g)
  {
    BoardExt(Validator.CheckErrors(ToCells(g)), ToCells(g));
  }

  /** All 81 positions of the grid. */
  ghost function AllPositions(): set<(int, int)> {
    set r, c | 0 <= r < 9 && 0 <= c < 9 :: (r, c)
  }

  lemma AllPositionsCount()
    ensures |AllPositions()| == 81
  {
    var ps := seq(81, k => (k / 9, k % 9));
    RowMajorDistinct(ps);
    SetOfCard(ps);
    forall p | p in AllPositions() ensures p in SetOf(ps) {
      assert ps[9 * p.0 + p.1] == p;
    }
    assert SetOf(ps) == AllPositions();
  }

  /** Positions of the given squares of a board. */
  ghost function Givens(b: Board): set<(int, int)>
    requires IsBoard(b)
  {
    set r, c | 0 <= r < 9 && 0 <= c < 9 && b[r][c].isInitial :: (r, c)
  }

  /** A board given everywhere except at the removed positions has 81 - |removed| givens. */
  lemma GivenCount(b: Board, removed: set<(int, int)>)
    requires IsBoard(b) && forall p :: p in removed ==> InGrid(p.0, p.1)
    requires forall r, c :: InGrid(r, c) ==> (b[r][c].isInitial <==> (r, c) !in removed)
    ensures |Givens(b)| == 81 - |removed|
  {
    assert Givens(b) == AllPositions() - removed;
    assert AllPositions() == Givens(b) + removed;
    AllPositionsCount();
  }

  /** The board made from a solution with the removed positions emptied. */
  lemma PuzzleBoard(solution: IntGrid, g: IntGrid, removed: set<(int, int)>)
    requires IsGrid(solution) && IsGrid(g) && forall p :: p in removed ==> InGrid(p.0, p.1)
    requires forall r, c :: InGrid(r, c) ==> g[r][c] == if (r, c) in removed then 0 else solution[r][c]
    ensures var b := ToCells(g);
      forall r, c :: InGrid(r, c) ==>
        b[r][c].value == (if (r, c) in removed then 0 else solution[r][c])
        && b[r][c].row == r && b[r][c].col == c
        && (b[r][c].isInitial <==> b[r][c].value != 0)
        && !b[r][c].isError && b[r][c].notes == {}
    ensures IsSolution(solution) ==> forall r, c :: InGrid(r, c) ==> (ToCells(g)[r][c].isInitial <==> (r, c) !in removed)
    ensures IsSolution(solution) ==> |Givens(ToCells(g))| == 81 - |removed|
  {
    var b: Board := ToCells(g);
    assert forall r: int, c: int :: InGrid(r, c) ==> b[r][c].value == g[r][c];
    if IsSolution(solution) {
      GivenCount(b, removed);
    }
  }

  /** `generatePuzzle`: a complete grid, a copy of it with CellsToRemove() squares emptied, and
      that copy as board squares. Every square of the board shows the solution's value or is
      empty, and it is given exactly when it is not one of the removed squares, provided the
      fill produced a solution; the board then has 81 - CellsToRemove() given squares. */
  method GeneratePuzzle(difficulty: Difficulty) returns (board: Board, solution: IntGrid, ghost removed: set<(int, int)>)
    ensures IsBoard(board) && IsGrid(solution)
    ensures IsSolution(solution) || solution == EmptyGrid()
    ensures |removed| == difficulty.CellsToRemove()
    ensures forall p :: p in removed ==> InGrid(p.0, p.1)
    ensures forall r, c :: InGrid(r, c) ==>
      board[r][c].value == (if (r, c) in removed then 0 else solution[r][c])
      && board[r][c].row == r && board[r][c].col == c
      && (board[r][c].isInitial <==> board[r][c].value != 0)
      && !board[r][c].isError && board[r][c].notes == {}
    ensures IsSolution(solution) ==> forall r, c :: InGrid(r, c) ==> (board[r][c].isInitial <==> (r, c) !in removed)
    ensures IsSolution(solution) ==> |Givens(board)| == 81 - difficulty.CellsToRemove()
  {
    solution := GenerateCompleteSudoku();
    var puzzle := new int[9, 9]((i, j) => if 0 <= i < 9 && 0 <= j < 9 then solution[i][j] else 0);
    removed := RemoveCells(puzzle, difficulty.CellsToRemove());
    var g := Snapshot(puzzle);
    PuzzleBoard(solution, g, removed);
    board := ToCells(g);
  }
}
