/** One square of the playing board and the 9x9 board of them. */
module Cells {
  import opened Grid

  /** A board square: its position, its value (0 = empty), whether it was given by
      the puzzle, whether it is currently flagged as conflicting, and its pencil notes. */
  datatype Cell = Cell(row: int, col: int, value: int, isInitial: bool, isError: bool, notes: set<int>)

  /** `Cell(row, col, value)` with the defaults of the data class: not given, not in error, no notes. */
  function NewCell(row: int, col: int, value: int): (c: Cell)
    ensures c.row == row && c.col == col && c.value == value
    ensures !c.isInitial && !c.isError && c.notes == {}
  {
    Cell(row, col, value, false, false, {})
  }

  type Board = seq<seq<Cell>>

  predicate IsBoard(b: Board) {
    |b| == 9 && forall r :: 0 <= r < 9 ==> |b[r]| == 9
  }

  /** The grid of values shown on a board. */
  function Values(b: Board): (g: IntGrid)
    requires IsBoard(b)
    ensures IsGrid(g) && forall r, c :: InGrid(r, c) ==> g[r][c] == b[r][c].value
  {
    seq(9, r requires 0 <= r < 9 => seq(9, c requires 0 <= c < 9 => b[r][c].value))
  }

  /** Board equality from equality of every square. */
  lemma BoardExt(a: Board, b: Board)
    requires IsBoard(a) && IsBoard(b)
    requires forall r, c :: InGrid(r, c) ==> a[r][c] == b[r][c]
    ensures a == b
  {
    forall r | 0 <= r < 9 ensures a[r] == b[r] {
      assert forall c :: 0 <= c < 9 ==> a[r][c] == b[r][c];
    }
  }

  /** The board with the square at (row, col) replaced by cell, every other square kept. */
  function ReplaceCell(b: Board, row: int, col: int, cell: Cell): (b': Board)
    requires IsBoard(b) && InGrid(row, col)
    ensures IsBoard(b') && b'[row][col] == cell
    ensures forall r, c :: InGrid(r, c) && (r != row || c != col) ==> b'[r][c] == b[r][c]
  {
    b[row := b[row][col := cell]]
  }
}
