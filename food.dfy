/** Food placement by rejection sampling (`placeFood`, script.js:56-65).
    Each iteration of the source draws a column and a row with
    `Math.floor(Math.random() * 20)`; here those draws come from the caller
    as a sequence, so the model is deterministic. */
module Food {
  import opened Grid

  /** One sample: the column and row indices that `Math.floor(Math.random()
      * (canvas.width / box))` and its `height` twin produce, each in [0, 20). */
  datatype Draw = Draw(col: int, row: int)

  /** A draw the random source can actually produce. */
  predicate ValidDraw(d: Draw) {
    0 <= d.col < COLS && 0 <= d.row < ROWS
  }

  /** The candidate cell of one draw, scaled by the box size
      (script.js:59-60). */
  function DrawCell(d: Draw): (c: Cell)
    requires ValidDraw(d)
    ensures OnGrid(c)
  {
    Cell(d.col * BOX, d.row * BOX)
  }

  /** Every drawable cell is the candidate of exactly one draw: the sampling
      can reach the whole grid. */
  lemma DrawCellOnto(c: Cell)
    requires OnGrid(c)
    ensures ValidDraw(Draw(c.x / BOX, c.y / BOX))
    ensures DrawCell(Draw(c.x / BOX, c.y / BOX)) == c
  {
  }

  /** Distinct draws give distinct cells. */
  lemma DrawCellInjective(d: Draw, e: Draw)
    requires ValidDraw(d) && ValidDraw(e)
    requires DrawCell(d) == DrawCell(e)
    ensures d == e
  {
  }

  /** Every draw in the sequence is one the random source can produce. */
  predicate ValidDraws(draws: seq<Draw>) {
    forall i :: 0 <= i < |draws| ==> ValidDraw(draws[i])
  }

  /** Some draw lands on a cell that `body` does not occupy. The source's loop
      runs until that happens and never ends when none exists, so this is
      what every caller of `placeFood` relies on. */
  predicate HasFree(body: seq<Cell>, draws: seq<Draw>) {
    ValidDraws(draws) && exists i :: 0 <= i < |draws| && DrawCell(draws[i]) !in body
  }

  /** The index of the draw the loop accepts: the first one whose cell is not
      occupied; every earlier draw was rejected. */
  function FirstFreeIndex(body: seq<Cell>, draws: seq<Draw>): (k: nat)
    requires HasFree(body, draws)
    ensures k < |draws| && DrawCell(draws[k]) !in body
    ensures forall j :: 0 <= j < k ==> DrawCell(draws[j]) in body
    decreases |draws|
  {
    if DrawCell(draws[0]) !in body then 0
    else
      var i :| 0 <= i < |draws| && DrawCell(draws[i]) !in body;
      assert DrawCell(draws[1..][i - 1]) !in body;
      1 + FirstFreeIndex(body, draws[1..])
  }

  /** Where `placeFood` puts the food: on the grid, off every segment of the
      snake it was given, and at the first such draw. */
  function PlacedFood(body: seq<Cell>, draws: seq<Draw>): (c: Cell)
    requires HasFree(body, draws)
    ensures OnGrid(c) && c !in body
    ensures exists k :: 0 <= k < |draws| && c == DrawCell(draws[k])
  {
    DrawCell(draws[FirstFreeIndex(body, draws)])
  }

  /** A single fresh draw is taken as it is. */
  lemma FirstDrawFree(body: seq<Cell>, draws: seq<Draw>)
    requires HasFree(body, draws)
    requires DrawCell(draws[0]) !in body
    ensures PlacedFood(body, draws) == DrawCell(draws[0])
  {
  }

  /** An occupied first draw is discarded and the search goes on with the
      rest, as the `do ... while (collisionWithSnake)` loop does. */
  lemma FirstDrawTaken(body: seq<Cell>, draws: seq<Draw>)
    requires HasFree(body, draws)
    requires DrawCell(draws[0]) in body
    ensures HasFree(body, draws[1..])
    ensures PlacedFood(body, draws) == PlacedFood(body, draws[1..])
  {
    var k := FirstFreeIndex(body, draws);
    assert DrawCell(draws[1..][k - 1]) !in body;
  }

  /** The sampling loop of `placeFood` (script.js:57-62): it draws a cell,
      tests it against the snake with `some`, and repeats while it is
      occupied. The result is the cell `food` is then set to. */
  method SampleFreeCell(body: seq<Cell>, draws: seq<Draw>) returns (c: Cell)
    requires HasFree(body, draws)
    ensures c == PlacedFood(body, draws)
    ensures OnGrid(c) && c !in body
  {
    ghost var k := FirstFreeIndex(body, draws);
    var i := 0;
    var collisionWithSnake: bool;
    c := DrawCell(draws[i]);
    collisionWithSnake := Collision(c, body);
    i := i + 1;
    while collisionWithSnake
      invariant 1 <= i <= k + 1
      invariant c == DrawCell(draws[i - 1])
      invariant collisionWithSnake <==> c in body
      decreases k + 1 - i
    {
      c := DrawCell(draws[i]);
      collisionWithSnake := Collision(c, body);
      i := i + 1;
    }
  }
}
