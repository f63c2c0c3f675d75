/**
 * Row-major arithmetic on the fixed 10 x 10 board of main.js: a cell is an
 * integer in [0, 100), cell `p` lies in row `p / 10` and column `p % 10`.
 */
module Grid {
  /** The four headings of the snake ('left', 'right', 'top', 'bottom'). */
  datatype Direction = Left | Right | Top | Bottom

  const Width: int := 10
  const CellCount: int := Width * Width

  predicate OnGrid(p: int) { 0 <= p < CellCount }

  function Row(p: int): int { p / Width }
  function Col(p: int): int { p % Width }

  predicate InBounds(row: int, col: int) { 0 <= row < Width && 0 <= col < Width }

  /** A heading as a (row, column) displacement: the reference the helpers below are proved against. */
  function Offset(d: Direction): (int, int)
  {
    match d
    case Left => (0, -1)
    case Right => (0, 1)
    case Top => (-1, 0)
    case Bottom => (1, 0)
  }

  /** getNextPosition: the cell one step away, without any bounds check. */
  function NextPosition(d: Direction, p: int): (r: int)
    ensures r - p == Offset(d).0 * Width + Offset(d).1
  {
    match d
    case Right => p + 1
    case Left => p - 1
    case Top => p - 10
    case Bottom => p + 10
  }

  /**
   * isTouchingEdges. JavaScript's `%` truncates where Dafny's is Euclidean,
   * but both agree on whether the remainder is zero, which is all it tests.
   */
  function IsTouchingEdges(d: Direction, p: int): (r: bool)
    ensures OnGrid(p) ==> (r <==> !InBounds(Row(p) + Offset(d).0, Col(p) + Offset(d).1))
  {
    var touchingRight := d == Right && (p + 1) % 10 == 0;
    var touchingLeft := d == Left && p % 10 == 0;
    var touchingTop := d == Top && p < 10;
    var touchingBottom := d == Bottom && p >= 90;
    touchingRight || touchingBottom || touchingLeft || touchingTop
  }

  /** isOpposite: true exactly when the two headings cancel each other out. */
  function IsOpposite(a: Direction, b: Direction): (r: bool)
    ensures r <==> Offset(a).0 + Offset(b).0 == 0 && Offset(a).1 + Offset(b).1 == 0
  {
    (a == Right && b == Left) ||
    (a == Left && b == Right) ||
    (a == Top && b == Bottom) ||
    (a == Bottom && b == Top)
  }

  lemma OppositeIsSymmetricAndIrreflexive(a: Direction, b: Direction)
    ensures IsOpposite(a, b) <==> IsOpposite(b, a)
    ensures !IsOpposite(a, a)
  {
  }

  /** Two headings are opposite exactly when the second step undoes the first. */
  lemma OppositeUndoesStep(a: Direction, b: Direction, p: int)
    ensures IsOpposite(a, b) <==> NextPosition(b, NextPosition(a, p)) == p
  {
  }

  /**
   * A move that does not touch an edge lands on the board, in the
   * neighbouring cell given by the heading's row and column offset; in
   * particular left and right moves stay in the same row.
   */
  lemma NextPositionStaysOnGrid(d: Direction, p: int)
    requires OnGrid(p) && !IsTouchingEdges(d, p)
    ensures OnGrid(NextPosition(d, p))
    ensures Row(NextPosition(d, p)) == Row(p) + Offset(d).0
    ensures Col(NextPosition(d, p)) == Col(p) + Offset(d).1
  {
  }

  /** The four edge cases singled out for the 10 x 10 board, and two interior moves. */
  lemma EdgeExamples()
    ensures IsTouchingEdges(Right, 9) && IsTouchingEdges(Left, 0)
    ensures IsTouchingEdges(Top, 5) && IsTouchingEdges(Bottom, 90)
    ensures !IsTouchingEdges(Right, 8) && NextPosition(Right, 8) == 9
    ensures !IsTouchingEdges(Top, 15) && NextPosition(Top, 15) == 5
  {
  }
}
