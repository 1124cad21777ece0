/** The module-level state of script.js and the code that updates it in
    place: `resetGame`, `placeFood`, `update`, the `gameRunning` guard of
    `gameLoop`, the key and button handlers, and the places where the menu
    buttons start and stop the game. Each method is proved to move the state
    exactly as the corresponding function of `Rules` or `Controls` says. */
module Engine {
  import opened Wrappers
  import opened Grid
  import opened Food
  import opened Controls
  import opened Rules

  class Game {
    var snake: seq<Cell>
    var direction: Direction
    var food: Option<Cell>
    var score: nat
    var running: bool

    /** The fields as one value. */
    function Model(): State
      reads this
    {
      State(snake, direction, food, score, running)
    }

    ghost predicate Valid()
      reads this
    {
      Inv(Model())
    }

    /** The declarations of script.js:33-39. */
    constructor ()
      ensures Model() == INITIAL && Valid()
    {
      snake := [];
      direction := Right;
      food := None;
      score := 0;
      running := false;
    }

    /** `placeFood()`: sample until a free cell comes up and put the food
        there. Only `food` changes. */
    method PlaceFood(draws: seq<Draw>)
      requires HasFree(snake, draws)
      modifies this`food
      ensures food == Some(PlacedFood(snake, draws))
      ensures OnGrid(food.value) && food.value !in snake
      ensures old(Valid()) ==> Valid()
    {
      var c := SampleFreeCell(snake, draws);
      food := Some(c);
    }

    /** `resetGame()`. */
    method Reset(draws: seq<Draw>)
      requires HasFree([START], draws)
      modifies this`snake, this`direction, this`food, this`score
      ensures Model() == Restart(old(Model()), draws)
      ensures Valid()
    {
      snake := [START];
      direction := Right;
      PlaceFood(draws);
      score := 0;
      RestartFacts(old(Model()), draws);
    }

    /** The "Play" and "Play again" buttons (script.js:115-121, 149-155):
        reset and set the running flag. The immediate first `gameLoop()` call
        is the caller's next `Tick`. */
    method Play(draws: seq<Draw>)
      requires HasFree([START], draws)
      modifies this
      ensures Model() == Restart(old(Model()), draws).(running := true)
      ensures Valid()
    {
      Reset(draws);
      running := true;
    }

    /** The "Customize", "Adjust speed" and "Quit" buttons
        (script.js:125, 131, 136): the game stops, nothing else changes. */
    method Stop()
      requires Valid()
      modifies this`running
      ensures Model() == old(Model()).(running := false)
      ensures Valid()
    {
      running := false;
    }

    /** `update()`: pop the tail or eat, then check walls and body, then
        add the head. */
    method Update(draws: seq<Draw>)
      requires Valid() && CanAdvance(Model(), draws)
      modifies this
      ensures Model() == Advance(old(Model()), draws)
      ensures Valid()
    {
      AdvanceKeepsInv(Model(), draws);
      var snakeX := snake[0].x;
      var snakeY := snake[0].y;

      if direction == Left { snakeX := snakeX - BOX; }
      else if direction == Up { snakeY := snakeY - BOX; }
      else if direction == Right { snakeX := snakeX + BOX; }
      else if direction == Down { snakeY := snakeY + BOX; }

      var newHead := Cell(snakeX, snakeY);
      if food == Some(newHead) {
        score := score + 1;
        PlaceFood(draws);
      } else {
        snake := snake[..|snake| - 1];
      }

      if snakeX < 0 || snakeY < 0 || snakeX >= WIDTH || snakeY >= HEIGHT
         || Collision(newHead, snake) {
        running := false;
        return;
      }

      snake := [newHead] + snake;
    }

    /** One run of `gameLoop()` without the drawing and the timer: nothing
        happens once the game has stopped. */
    method Tick(draws: seq<Draw>)
      requires Valid() && (running ==> CanAdvance(Model(), draws))
      modifies this
      ensures Model() == Loop(old(Model()), draws)
      ensures Valid()
    {
      if !running {
        return;
      }
      Update(draws);
    }

    /** The keydown handler (script.js:195-201). Only the heading can
        change, only while the game runs, and never to its reverse. */
    method KeyDown(key: Key)
      requires Valid()
      modifies this`direction
      ensures direction == if old(running) then Steer(old(direction), key) else old(direction)
      ensures direction != Opposite(old(direction))
      ensures Valid()
    {
      if !running {
        return;
      }
      if key == Arrow(Left) && direction != Right { direction := Left; }
      else if key == Arrow(Up) && direction != Down { direction := Up; }
      else if key == Arrow(Right) && direction != Left { direction := Right; }
      else if key == Arrow(Down) && direction != Up { direction := Down; }
    }

    /** One of the four on-screen buttons (script.js:204-207): the same
        effect as the matching arrow key. */
    method Press(button: Direction)
      requires Valid()
      modifies this`direction
      ensures direction == if old(running) then Steer(old(direction), Arrow(button)) else old(direction)
      ensures direction != Opposite(old(direction))
      ensures Valid()
    {
      if running && direction != Opposite(button) {
        direction := button;
      }
    }
  }

  /** A client: the scenario of a one-segment snake eating the food just to
      its right grows to two segments and scores a point, and the food moves
      to the cell of the one draw supplied. */
  method EatScenario() returns (g: Game)
    ensures g.snake == [Cell(120, 100), Cell(100, 100)] && g.score == 1 && g.running
    ensures g.food == Some(Cell(0, 0))
  {
    g := new Game();
    g.snake, g.food, g.running := [Cell(100, 100)], Some(Cell(120, 100)), true;
    assert DrawCell([Draw(0, 0)][0]) !in g.snake;
    g.Tick([Draw(0, 0)]);
  }
}
