/** The game state of script.js (the module-level `snake`, `direction`,
    `food`, `score` and `gameRunning`) as a value, with one tick of
    `update()` (script.js:234-267) and `resetGame()` (script.js:48-53) as
    functions on it, and the properties they have. */
module Rules {
  import opened Wrappers
  import opened Grid
  import opened Food

  /** The whole game state. `snake` lists the segments head first. */
  datatype State = State(
    snake: seq<Cell>,
    direction: Direction,
    food: Option<Cell>,
    score: nat,
    running: bool)

  /** The state before the first game (script.js:33-39): `food = {}` has no
      coordinates, so it is modelled as no food at all. */
  const INITIAL: State := State([], Right, None, 0, false)

  /** The cell a new game starts from (script.js:49): (9 * box, 10 * box). */
  const START: Cell := Cell(9 * BOX, 10 * BOX)

  /** What every reachable state satisfies: segments are box-aligned cells
      of the canvas and pairwise distinct, placed food is on the grid, and
      while the game runs the snake is one segment longer than the score. */
  predicate Inv(st: State) {
    && AllOnGrid(st.snake)
    && Distinct(st.snake)
    && (st.food.Some? ==> OnGrid(st.food.value))
    && (st.running ==> |st.snake| == st.score + 1)
  }

  /** Where the head goes this tick (script.js:235-241). */
  function NewHead(st: State): Cell
    requires st.snake != []
  {
    Move(st.snake[0], st.direction)
  }

  /** The new head lands on the food (script.js:244). */
  predicate Eats(st: State)
    requires st.snake != []
  {
    st.food == Some(NewHead(st))
  }

  /** What `update()` needs: a head to move from and, when the snake eats,
      random draws that eventually give `placeFood` a free cell. */
  predicate CanAdvance(st: State, draws: seq<Draw>) {
    st.snake != [] && (Eats(st) ==> HasFree(st.snake, draws))
  }

  /** One call of `update()`. An eaten food adds one to the score and is
      replaced before anything else; otherwise the tail is popped. Only then
      are the walls and the remaining segments checked: a hit stops the game
      without adding the head, a clear tick adds it at the front. */
  function Advance(st: State, draws: seq<Draw>): State
    requires CanAdvance(st, draws)
  {
    var head := NewHead(st);
    var st1 :=
      if st.food == Some(head)
      then st.(score := st.score + 1, food := Some(PlacedFood(st.snake, draws)))
      else st.(snake := st.snake[..|st.snake| - 1]);
    if !InBounds(head) || Collision(head, st1.snake) then st1.(running := false)
    else st1.(snake := [head] + st1.snake)
  }

  /** `gameLoop()`'s guard (script.js:274): no tick once the game stopped. */
  function Loop(st: State, draws: seq<Draw>): (r: State)
    requires st.running ==> CanAdvance(st, draws)
    ensures !st.running ==> r == st
  {
    if !st.running then st else Advance(st, draws)
  }

  /** `resetGame()`: a one-segment snake at START heading right, food placed
      against that new snake, score zero. `gameRunning` is not touched. */
  function Restart(st: State, draws: seq<Draw>): State
    requires HasFree([START], draws)
  {
    st.(snake := [START], direction := Right,
        food := Some(PlacedFood([START], draws)), score := 0)
  }

  // ---------------------------------------------------------------------
  // One tick of update()

  /** A tick that eats neither pops nor keeps the food: the score and the
      heading are unchanged, and the tail is gone whatever happens next. */
  lemma TickWithoutFood(st: State, draws: seq<Draw>)
    requires CanAdvance(st, draws) && !Eats(st)
    ensures Advance(st, draws).score == st.score
    ensures Advance(st, draws).food == st.food
    ensures Advance(st, draws).direction == st.direction
    ensures var r := Advance(st, draws);
      r.snake == st.snake[..|st.snake| - 1] || r.snake == [NewHead(st)] + st.snake[..|st.snake| - 1]
  {
  }

  /** A surviving tick without food moves the snake one box: the new head in
      front of all but the last old segment. Length, score, food and the
      running flag stay as they were. */
  lemma PlainTick(st: State, draws: seq<Draw>)
    requires CanAdvance(st, draws) && !Eats(st)
    requires InBounds(NewHead(st)) && NewHead(st) !in st.snake[..|st.snake| - 1]
    ensures var r := Advance(st, draws);
      && r.snake == [Move(st.snake[0], st.direction)] + st.snake[..|st.snake| - 1]
      && |r.snake| == |st.snake|
      && r.score == st.score && r.food == st.food
      && r.direction == st.direction && r.running == st.running
  {
  }

  /** A tick that eats adds exactly one to the score and keeps the tail;
      the food moves to the first free draw, which avoids every old segment.
      If the tick survives, the snake is one longer: the new head in front of
      all the old segments. */
  lemma EatingTick(st: State, draws: seq<Draw>)
    requires CanAdvance(st, draws) && Eats(st)
    ensures var r := Advance(st, draws);
      && r.score == st.score + 1
      && r.food == Some(PlacedFood(st.snake, draws))
      && r.food.value !in st.snake
      && r.direction == st.direction
      && var survives := InBounds(NewHead(st)) && NewHead(st) !in st.snake;
      && (survives ==> r.running == st.running && r.snake == [NewHead(st)] + st.snake)
      && (survives ==> |r.snake| == |st.snake| + 1)
      && (!survives ==> !r.running && r.snake == st.snake)
  {
  }

  /** The game ends on a tick, and the head is not added, exactly when the
      new head leaves the canvas or lands on a segment still present after
      the optional tail pop. On a fatal tick without food the tail is gone
      all the same. */
  lemma GameOverExactly(st: State, draws: seq<Draw>)
    requires CanAdvance(st, draws)
    ensures var body := if Eats(st) then st.snake else st.snake[..|st.snake| - 1];
      var survives := InBounds(NewHead(st)) && NewHead(st) !in body;
      var r := Advance(st, draws);
      && (r.running <==> st.running && survives)
      && (survives ==> r.snake == [NewHead(st)] + body)
      && (!survives ==> r.snake == body)
  {
  }

  /** The snake may follow its own tail: moving onto the cell the last
      segment occupies is legal, because that segment has just been popped.
      The result is the old snake rotated by one. */
  lemma ChaseTail(st: State, draws: seq<Draw>)
    requires Inv(st) && CanAdvance(st, draws) && !Eats(st)
    requires NewHead(st) == st.snake[|st.snake| - 1]
    ensures Advance(st, draws).running == st.running
    ensures Advance(st, draws).snake == [st.snake[|st.snake| - 1]] + st.snake[..|st.snake| - 1]
  {
    var n := |st.snake|;
    var last := st.snake[n - 1];
    assert last !in st.snake[..n - 1];
    assert OnGrid(last);
  }

  /** The length changes only through food: a surviving tick grows the
      snake by one exactly when it eats and keeps it otherwise; a fatal tick
      shrinks it by one exactly when it does not eat. */
  lemma LengthOnlyGrowsByFood(st: State, draws: seq<Draw>)
    requires CanAdvance(st, draws) && st.running
    ensures var r := Advance(st, draws);
      |r.snake| == |st.snake| + (if Eats(st) then 1 else 0) - (if r.running then 0 else 1)
  {
    GameOverExactly(st, draws);
  }

  /** Food is placed before the head is added, so it can be placed on the
      new head itself: here the snake survives with the food beneath it. */
  lemma FoodCanLandOnHead()
    ensures var st := State([Cell(0, 0)], Right, Some(Cell(BOX, 0)), 0, true);
      && CanAdvance(st, [Draw(1, 0)])
      && var r := Advance(st, [Draw(1, 0)]);
      r.running && r.food == Some(r.snake[0])
  {
    var st := State([Cell(0, 0)], Right, Some(Cell(BOX, 0)), 0, true);
    assert DrawCell(Draw(1, 0)) !in st.snake;
    assert PlacedFood(st.snake, [Draw(1, 0)]) == Cell(BOX, 0);
  }

  // ---------------------------------------------------------------------
  // The invariant

  /** Dropping the tail keeps segments on the grid and distinct. */
  lemma PopKeepsInv(s: seq<Cell>)
    requires s != []
    requires AllOnGrid(s) && Distinct(s)
    ensures AllOnGrid(s[..|s| - 1]) && Distinct(s[..|s| - 1])
  {
  }

  /** Adding a fresh on-grid head keeps segments on the grid and distinct. */
  lemma PushKeepsInv(h: Cell, s: seq<Cell>)
    requires OnGrid(h) && h !in s
    requires AllOnGrid(s) && Distinct(s)
    ensures AllOnGrid([h] + s) && Distinct([h] + s)
  {
    var t := [h] + s;
    forall i, j | 0 <= i < j < |t|
      ensures t[i] != t[j]
    {
      if i == 0 {
        assert t[j] == s[j - 1];
      } else {
        assert t[i] == s[i - 1] && t[j] == s[j - 1];
      }
    }
    forall i | 0 <= i < |t|
      ensures OnGrid(t[i])
    {
      if i > 0 {
        assert t[i] == s[i - 1];
      }
    }
  }

  /** Every tick keeps the invariant: segments stay aligned, inside the
      canvas and pairwise distinct, food stays on the grid, and a running
      snake stays one longer than the score. */
  lemma AdvanceKeepsInv(st: State, draws: seq<Draw>)
    requires Inv(st) && CanAdvance(st, draws)
    ensures Inv(Advance(st, draws))
  {
    var head := NewHead(st);
    var body := if Eats(st) then st.snake else st.snake[..|st.snake| - 1];
    if !Eats(st) {
      PopKeepsInv(st.snake);
    }
    assert AllOnGrid(body);
    assert Aligned(st.snake[0]);
    if InBounds(head) && head !in body {
      PushKeepsInv(head, body);
    }
  }

  /** The guarded tick keeps the invariant too. */
  lemma LoopKeepsInv(st: State, draws: seq<Draw>)
    requires Inv(st) && (st.running ==> CanAdvance(st, draws))
    ensures Inv(Loop(st, draws))
  {
    if st.running {
      AdvanceKeepsInv(st, draws);
    }
  }

  /** The state before the first game satisfies the invariant. */
  lemma InitialInv()
    ensures Inv(INITIAL)
  {
  }

  // ---------------------------------------------------------------------
  // resetGame()

  /** After a reset: the snake is the single segment (180, 200) heading
      right, the score is zero, the food is on the grid and not on (180, 200),
      the running flag is as it was, and the invariant holds whatever the
      state before. */
  lemma RestartFacts(st: State, draws: seq<Draw>)
    requires HasFree([START], draws)
    ensures var r := Restart(st, draws);
      && r.snake == [Cell(180, 200)]
      && r.direction == Right
      && r.score == 0
      && r.food.Some? && r.food.value != Cell(180, 200) && OnGrid(r.food.value)
      && r.running == st.running
      && Inv(r)
  {
    var r := Restart(st, draws);
    assert OnGrid(r.snake[0]);
  }

  /** A reset can always place food as long as the random source reaches
      some cell other than the start cell. */
  lemma RestartPossible(draws: seq<Draw>)
    requires ValidDraws(draws)
    requires exists i :: 0 <= i < |draws| && DrawCell(draws[i]) != START
    ensures HasFree([START], draws)
  {
    var i :| 0 <= i < |draws| && DrawCell(draws[i]) != START;
    assert DrawCell(draws[i]) !in [START];
  }
}
