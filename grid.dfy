/** The playing field of the snake game: a 400 x 400 pixel canvas divided
    into 20 x 20 pixel cells, the four headings, one step of movement and
    the membership test the game uses for self-collision (script.js). */
module Grid {

  /** Canvas size in pixels and the size of one cell (script.js:29-31). */
  const WIDTH: int := 400
  const HEIGHT: int := 400
  const BOX: int := 20

  /** Number of columns and rows of the grid. */
  const COLS: int := WIDTH / BOX
  const ROWS: int := HEIGHT / BOX

  /** A cell, given by the pixel coordinates of its top-left corner. */
  datatype Cell = Cell(x: int, y: int)

  /** The four headings; the source keeps them as the strings "LEFT",
      "UP", "RIGHT" and "DOWN". */
  datatype Direction = Left | Up | Right | Down

  /** Inside the canvas: exactly the negation of the wall test of
      script.js:255-256. */
  predicate InBounds(c: Cell) {
    0 <= c.x < WIDTH && 0 <= c.y < HEIGHT
  }

  /** Both coordinates are whole multiples of the cell size. */
  predicate Aligned(c: Cell) {
    c.x % BOX == 0 && c.y % BOX == 0
  }

  /** A cell the game can draw: aligned and inside the canvas. */
  predicate OnGrid(c: Cell) {
    InBounds(c) && Aligned(c)
  }

  /** Every cell of `s` is on the grid. */
  predicate AllOnGrid(s: seq<Cell>) {
    forall i :: 0 <= i < |s| ==> OnGrid(s[i])
  }

  /** No cell occurs twice. */
  predicate Distinct(s: seq<Cell>) {
    forall i, j :: 0 <= i < j < |s| ==> s[i] != s[j]
  }

  /** The heading that undoes `d`. */
  function Opposite(d: Direction): (r: Direction)
    ensures r != d
    ensures d == Left <==> r == Right
    ensures d == Right <==> r == Left
    ensures d == Up <==> r == Down
    ensures d == Down <==> r == Up
  {
    match d
    case Left => Right
    case Right => Left
    case Up => Down
    case Down => Up
  }

  /** The cell one box away from `c` in heading `d` (script.js:238-241).
      There is no wrap-around: the result may lie outside the canvas. */
  function Move(c: Cell, d: Direction): (r: Cell)
    ensures (r.x == c.x && (r.y == c.y - BOX || r.y == c.y + BOX))
         || (r.y == c.y && (r.x == c.x - BOX || r.x == c.x + BOX))
    ensures d == Left ==> r.x < c.x
    ensures d == Right ==> r.x > c.x
    ensures d == Up ==> r.y < c.y
    ensures d == Down ==> r.y > c.y
    ensures Aligned(c) ==> Aligned(r)
  {
    match d
    case Left => Cell(c.x - BOX, c.y)
    case Up => Cell(c.x, c.y - BOX)
    case Right => Cell(c.x + BOX, c.y)
    case Down => Cell(c.x, c.y + BOX)
  }

  /** Turning round twice restores the heading. */
  lemma OppositeTwice(d: Direction)
    ensures Opposite(Opposite(d)) == d
  {
  }

  /** Moving back undoes a move. */
  lemma MoveThenBack(c: Cell, d: Direction)
    ensures Move(Move(c, d), Opposite(d)) == c
  {
  }

  /** `collision(head, array)` of script.js:269-271: does any segment sit on
      `head`? Scans from the front, as `Array.prototype.some` does. */
  function Collision(head: Cell, segments: seq<Cell>): (r: bool)
    ensures r <==> head in segments
  {
    if segments == [] then false
    else segments[0] == head || Collision(head, segments[1..])
  }
}
