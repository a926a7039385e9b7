/** The 5x5 board of the Defuse game: cells and the Manhattan distance between them. */
module Grid {

  /** Side length of the square board (`size` in the component). */
  const Size: int := 5

  /** A board cell, addressed by row and column. */
  datatype Cell = Cell(row: int, col: int)

  /** True if the cell lies on the board. */
  predicate OnBoard(c: Cell) {
    0 <= c.row < Size && 0 <= c.col < Size
  }

  /** Absolute value (`Math.abs` on the integer differences of coordinates). */
  function Abs(x: int): (r: nat)
    ensures r == x || r == -x
  {
    if x < 0 then -x else x
  }

  /** Manhattan distance |dr| + |dc| between two cells. */
  function Distance(a: Cell, b: Cell): (d: nat)
    ensures d == 0 <==> a == b
  {
    Abs(a.row - b.row) + Abs(a.col - b.col)
  }

  /** The distance depends only on |dr| + |dc|, so swapping the two cells changes nothing. */
  lemma DistanceSymmetric(a: Cell, b: Cell)
    ensures Distance(a, b) == Distance(b, a)
  {
  }
}
