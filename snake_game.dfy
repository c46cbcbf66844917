/**
 * The Snake game object: the fields `gameState` holds and the operations
 * that update them in place. Every operation is proved to follow the rules
 * in module Snake. The entry points establish or keep the object invariant
 * `Valid()`; the helper steps they call are specified by their new state
 * only, and some of them may leave `Valid()` broken for the caller to mend.
 */
module SnakeGame {
  import opened Util
  import opened Particles
  import opened Snake

  /** The keys `handleKeyPress` reacts to. */
  datatype Key = Space | Enter | ArrowUp | ArrowDown | ArrowLeft | ArrowRight | OtherKey

  /** The direction an arrow key asks for. */
  function KeyDirection(key: Key): Option<Direction>
  {
    match key
    case ArrowUp => Some(Up)
    case ArrowDown => Some(Down)
    case ArrowLeft => Some(Left)
    case ArrowRight => Some(Right)
    case _ => None
  }

  /** The scan over the body made by `updateGame` and `generateFood`: is `c` one of its cells? */
  method OnSnake(body: seq<Cell>, c: Cell) returns (hit: bool)
    ensures hit <==> c in body
  {
    var i := 0;
    while i < |body|
      invariant 0 <= i <= |body|
      invariant forall j :: 0 <= j < i ==> body[j] != c
    {
      if body[i] == c {
        return true;
      }
      i := i + 1;
    }
    return false;
  }

  /**
   * The do-while loop of `generateFood`: draw candidate cells until one is
   * off the body. `draws` stands for the successive random draws.
   */
  method PickFood(draws: seq<Cell>, body: seq<Cell>) returns (food: Cell)
    requires HasFreeDraw(draws, body)
    ensures food == FirstFree(draws, body)
  {
    var k := 1;
    food := draws[0];
    var onSnake := OnSnake(body, food);
    while onSnake
      invariant 1 <= k <= |draws|
      invariant food == draws[k - 1]
      invariant onSnake <==> food in body
      invariant HasFreeDraw(draws[k - 1..], body)
      invariant FirstFree(draws[k - 1..], body) == FirstFree(draws, body)
      decreases |draws| - k
    {
      var rest := draws[k - 1..];
      assert rest[0] == food && rest[1..] == draws[k..];
      var i :| 0 <= i < |rest| && rest[i] !in body;
      assert draws[k..][i - 1] == rest[i];
      food := draws[k];
      onSnake := OnSnake(body, food);
      k := k + 1;
    }
    assert draws[k - 1..][0] == food;
  }

  class Game {
    /** Cells per side of the square canvas; a resize is not modelled. */
    const gridCount: int
    var snake: seq<Cell>
    var food: Cell
    var direction: Direction
    var nextDirection: Direction
    var score: int
    var highScore: int
    var level: int
    var gameOver: bool
    var paused: bool
    var speed: int
    var lastTime: real
    var particles: seq<Particle>

    /** The fields as one value of the specification. */
    function State(): SnakeState
      reads this
    {
      SnakeState(snake, food, direction, nextDirection, score, highScore, level, speed,
                 gameOver, paused, particles)
    }

    /** The object invariant: see `Invariant` in module Snake. */
    ghost predicate Valid()
      reads this
    {
      Invariant(State(), gridCount)
    }

    /** The state at page load: no run yet, the stored high score. */
    constructor (canvasWidth: nat, storedHighScore: int)
      ensures Valid()
      ensures gridCount == GridCount(canvasWidth) && lastTime == 0.0
      ensures State() == SnakeState([], Cell(0, 0), Right, Right, 0, storedHighScore, 1,
                                    InitialSpeed, true, false, [])
    {
      gridCount := GridCount(canvasWidth);
      snake := [];
      food := Cell(0, 0);
      direction := Right;
      nextDirection := Right;
      score := 0;
      highScore := storedHighScore;
      level := 1;
      gameOver := true;
      paused := false;
      speed := InitialSpeed;
      lastTime := 0.0;
      particles := [];
    }

    /** `changeDirection`: buffer the request unless it reverses the current direction. */
    method ChangeDirection(newDirection: Direction)
      requires Valid()
      modifies this`nextDirection
      ensures Valid()
      ensures nextDirection == if Accepts(direction, newDirection) then newDirection
                               else old(nextDirection)
      ensures nextDirection != Opposite(direction)
    {
      if (newDirection == Up && direction != Down)
         || (newDirection == Down && direction != Up)
         || (newDirection == Left && direction != Right)
         || (newDirection == Right && direction != Left)
      {
        nextDirection := newDirection;
      }
    }

    /** The `touchend` handler: a swipe from (startX, startY) to (endX, endY). */
    method Swipe(startX: real, startY: real, endX: real, endY: real)
      requires Valid()
      modifies this`nextDirection
      ensures Valid()
      ensures var r := SwipeDirection(endX - startX, endY - startY, direction);
        nextDirection == if gameOver || paused || r.None? then old(nextDirection) else r.value
    {
      if !gameOver && !paused {
        var diffX := endX - startX;
        var diffY := endY - startY;
        if AbsReal(diffX) > AbsReal(diffY) {
          if diffX > 0.0 && direction != Left {
            ChangeDirection(Right);
          } else if diffX < 0.0 && direction != Right {
            ChangeDirection(Left);
          }
        } else {
          if diffY > 0.0 && direction != Up {
            ChangeDirection(Down);
          } else if diffY < 0.0 && direction != Down {
            ChangeDirection(Up);
          }
        }
      }
    }

    /** `generateFood`: the first random candidate cell that is off the snake. */
    method GenerateFood(draws: seq<Cell>)
      requires HasFreeDraw(draws, snake)
      modifies this`food
      ensures food == FirstFree(draws, snake)
    {
      food := PickFood(draws, snake);
    }

    /** `resetGameState`: start a new run at the centre of the grid. */
    method ResetGameState(draws: seq<Cell>)
      requires AllInGrid(draws, gridCount) && HasFreeDraw(draws, InitialBody(gridCount))
      modifies this`snake, this`food, this`direction, this`nextDirection, this`score,
               this`level, this`gameOver, this`paused, this`speed, this`particles
      ensures Valid()
      ensures State() == NewRun(gridCount, old(highScore), draws)
    {
      ghost var run := NewRun(gridCount, highScore, draws);
      assert Invariant(run, gridCount) by {
        NewRunIsValid(gridCount, highScore, draws);
      }
      snake := InitialBody(gridCount);
      direction := Right;
      nextDirection := Right;
      score := 0;
      level := 1;
      gameOver := false;
      paused := false;
      speed := InitialSpeed;
      particles := [];
      GenerateFood(draws);
      assert State() == run;
    }

    /** `startGame`: a new run, and a first frame at time `now`. */
    method StartGame(now: real, draws: seq<Cell>)
      requires AllInGrid(draws, gridCount) && HasFreeDraw(draws, InitialBody(gridCount))
      modifies this
      ensures Valid()
      ensures State() == NewRun(gridCount, old(highScore), draws)
      ensures lastTime == now
    {
      ResetGameState(draws);
      lastTime := now;
      GameLoop(lastTime, []);
    }

    /** `togglePause`: flip the pause flag unless the run is over; resuming restarts the clock at `now`. */
    method TogglePause(now: real)
      requires Valid()
      modifies this
      ensures Valid()
      ensures old(gameOver) ==> State() == old(State()) && lastTime == old(lastTime)
      ensures !old(gameOver) ==>
        State() == old(State()).(paused := !old(paused))
        && lastTime == if old(paused) then now else old(lastTime)
    {
      if gameOver {
        return;
      }
      paused := !paused;
      if !paused {
        lastTime := now;
        GameLoop(lastTime, []);
      }
    }

    /** `resetGame`: stop the run without touching the high score. */
    method ResetGame()
      requires Valid()
      modifies this`gameOver
      ensures Valid()
      ensures State() == old(State()).(gameOver := true)
    {
      gameOver := true;
    }

    /**
     * `gameLoop(currentTime)`: nothing while the run is over or paused;
     * otherwise one tick when more than `speed` milliseconds have passed
     * since the last tick, and only then does the clock move.
     */
    method GameLoop(currentTime: real, draws: seq<Cell>)
      requires Valid()
      requires !gameOver && !paused && currentTime - lastTime > speed as real
               ==> DrawsSuffice(State(), gridCount, draws)
      modifies this
      ensures Valid()
      ensures old(gameOver) || old(paused) || currentTime - old(lastTime) <= old(speed) as real
              ==> State() == old(State()) && lastTime == old(lastTime)
      ensures !old(gameOver) && !old(paused) && currentTime - old(lastTime) > old(speed) as real
              ==> State() == Tick(old(State()), gridCount, draws) && lastTime == currentTime
    {
      if gameOver || paused {
        return;
      }
      var deltaTime := currentTime - lastTime;
      if deltaTime > speed as real {
        lastTime := currentTime;
        UpdateGame(draws);
      }
    }

    /** `updateGame`: one tick of the run. */
    method UpdateGame(draws: seq<Cell>)
      requires Valid() && !gameOver
      requires DrawsSuffice(State(), gridCount, draws)
      modifies this
      ensures Valid()
      ensures State() == Tick(old(State()), gridCount, draws)
      ensures lastTime == old(lastTime)
    {
      ghost var s := State();
      TickPreservesInvariant(s, gridCount, draws);
      direction := nextDirection;
      var head := NextHead(snake[0], direction);
      if head.x < 0 || head.x >= gridCount || head.y < 0 || head.y >= gridCount {
        GameOver();
        return;
      }
      var hit := OnSnake(snake, head);
      if hit {
        GameOver();
        return;
      }
      MoveHead(head, draws);
    }

    /**
     * The rest of `updateGame` once the new head is known to be free:
     * push it, then eat or drop the tail, then age the particles.
     */
    method MoveHead(head: Cell, draws: seq<Cell>)
      requires |snake| >= 1 && (head == food ==> HasFreeDraw(draws, [head] + snake))
      modifies this`snake, this`score, this`food, this`level, this`speed, this`particles
      ensures State() == Step(old(State()), head, draws)
    {
      snake := [head] + snake;
      if head == food {
        score := score + 10 * level;
        GenerateFood(draws);
        var newLevel := score / 100 + 1;
        if newLevel > level {
          LevelUp();
        }
      } else {
        snake := snake[..|snake| - 1];
      }
      UpdateParticles();
    }

    /** `levelUp`: one level up, and the tick interval for the new level. */
    method LevelUp()
      modifies this`level, this`speed
      ensures level == old(level) + 1 && speed == SpeedForLevel(level)
      ensures MaxSpeed <= speed <= InitialSpeed || level < 1
    {
      level := level + 1;
      speed := Max(MaxSpeed, InitialSpeed - (level - 1) * SpeedIncrease);
    }

    /**
     * `updateParticles`: walk the list from the back, decrement each life
     * and splice out the particles whose life has run out.
     */
    method UpdateParticles()
      modifies this`particles
      ensures particles == Aged(old(particles))
    {
      var list := particles;
      var i := |list|;
      while i > 0
        invariant 0 <= i <= |old(particles)|
        invariant list == old(particles)[..i] + Aged(old(particles)[i..])
      {
        i := i - 1;
        AgedFrom(old(particles), i);
        var particle := Decremented(list[i]);
        if particle.life <= 0.0 {
          list := list[..i] + list[i + 1..];
        } else {
          list := list[..i] + [particle] + list[i + 1..];
        }
      }
      particles := list;
    }

    /** `gameOver`: the run ends and the high score is raised to the score if beaten. */
    method GameOver()
      modifies this`gameOver, this`highScore
      ensures State() == EndRun(old(State()))
    {
      gameOver := true;
      if score > highScore {
        highScore := score;
      }
    }

    /**
     * `handleKeyPress`: space toggles the pause of a running game, enter
     * starts a run when none is going, and the arrow keys steer a running,
     * unpaused snake.
     */
    method HandleKeyPress(key: Key, now: real, draws: seq<Cell>)
      requires Valid()
      requires key == Enter && gameOver
               ==> AllInGrid(draws, gridCount) && HasFreeDraw(draws, InitialBody(gridCount))
      modifies this
      ensures Valid()
      ensures key == Space && !old(gameOver) ==>
        State() == old(State()).(paused := !old(paused))
        && lastTime == if old(paused) then now else old(lastTime)
      ensures key == Enter && old(gameOver) ==>
        State() == NewRun(gridCount, old(highScore), draws) && lastTime == now
      ensures KeyDirection(key).Some? && !old(gameOver) && !old(paused) ==>
        State() == old(State()).(nextDirection :=
          if Accepts(old(direction), KeyDirection(key).value) then KeyDirection(key).value
          else old(nextDirection))
        && lastTime == old(lastTime)
      ensures (key == Space && old(gameOver)) || (key == Enter && !old(gameOver))
              || key == OtherKey || (KeyDirection(key).Some? && (old(gameOver) || old(paused)))
              ==> State() == old(State()) && lastTime == old(lastTime)
    {
      if key == Space {
        if !gameOver {
          TogglePause(now);
        }
      }
      if key == Enter && gameOver {
        StartGame(now, draws);
      }
      if !gameOver && !paused {
        match key {
          case ArrowUp => ChangeDirection(Up);
          case ArrowDown => ChangeDirection(Down);
          case ArrowLeft => ChangeDirection(Left);
          case ArrowRight => ChangeDirection(Right);
          case _ =>
        }
      }
    }
  }
}
