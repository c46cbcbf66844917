/**
 * The Flappy game object: the fields `flappyState` holds and the operations
 * that update them in place. Every operation is proved to follow the rules
 * in module Flappy. The entry points establish or keep the object invariant
 * `Valid()`; the helper steps they call are specified by their new state
 * only, and some of them may leave `Valid()` broken for the caller to mend.
 */
module FlappyGame {
  import opened Util
  import opened Particles
  import opened Flappy

  /** The keys `handleFlappyKeyPress` reacts to. */
  datatype Key = Space | Enter | OtherKey

  /**
   * The loop of `checkScore` over the pipe list: each unscored pipe whose
   * right edge the bird at `birdX` has passed is marked and counted.
   */
  method ScorePass(ps: seq<Pipe>, birdX: real) returns (scored: seq<Pipe>, points: int)
    ensures scored == ScorePipes(ps, birdX)
    ensures points == NewlyPassed(ps, birdX)
  {
    scored := ps;
    points := 0;
    var i := 0;
    while i < |scored|
      invariant 0 <= i <= |scored| == |ps|
      invariant scored == ScorePipes(ps[..i], birdX) + ps[i..]
      invariant points == NewlyPassed(ps[..i], birdX)
    {
      ScorePassStep(ps, birdX, i);
      var pipe := scored[i];
      if !pipe.passed && birdX > pipe.x + pipe.width {
        points := points + 1;
        pipe := pipe.(passed := true, highlight := true, highlightTimer := HighlightFrames);
      }
      assert pipe == ScorePipe(ps[i], birdX);
      scored := scored[..i] + [pipe] + scored[i + 1..];
      i := i + 1;
    }
    assert ps[..i] == ps;
  }

  class Game {
    /** The canvas size in pixels; a resize is not modelled. */
    const width: real
    const height: real
    var bird: Bird
    var pipes: seq<Pipe>
    var score: int
    var highScore: int
    var gameOver: bool
    var paused: bool
    var speed: real
    var lastTime: real
    var pipeTimer: real
    var particles: seq<Particle>
    var lastScore: int

    /** The fields as one value of the specification. */
    function State(): FlappyState
      reads this
    {
      FlappyState(bird, pipes, score, highScore, gameOver, paused, speed, pipeTimer,
                  particles, lastScore)
    }

    /** The object invariant: see `Invariant` in module Flappy. */
    ghost predicate Valid()
      reads this
    {
      Invariant(State())
    }

    /** The state at page load on a canvas `canvasWidth` wide: no run yet, the stored high score. */
    constructor (canvasWidth: nat, storedHighScore: int)
      ensures Valid()
      ensures width == canvasWidth as real && height == CanvasHeight(canvasWidth) as real
      ensures lastTime == 0.0
      ensures State() == FlappyState(Bird(0.0, 0.0, 0.0, 0.0), [], 0, storedHighScore, true, false,
                                     InitialSpeed, 0.0, [], 0)
    {
      width := canvasWidth as real;
      height := CanvasHeight(canvasWidth) as real;
      bird := Bird(0.0, 0.0, 0.0, 0.0);
      pipes := [];
      score := 0;
      highScore := storedHighScore;
      gameOver := true;
      paused := false;
      speed := InitialSpeed;
      lastTime := 0.0;
      pipeTimer := 0.0;
      particles := [];
      lastScore := 0;
    }

    /**
     * `handleFlappyKeyPress`: space resumes a paused run or makes the bird
     * jump in a running one; enter starts a run when none is going. `draw`
     * is the random value for a pipe the first frame may generate.
     */
    method HandleKeyPress(key: Key, now: real, draw: real)
      requires 0.0 <= draw < 1.0
      requires Valid()
      modifies this
      ensures Valid()
      ensures key == Space && !old(gameOver) && old(paused) ==>
        State() == Update(old(State()).(paused := false), width, height, 0.0, draw)
        && lastTime == now
      ensures key == Space && !old(gameOver) && !old(paused) ==>
        State() == old(State()).(bird := old(bird).(velocity := JumpForce))
        && lastTime == old(lastTime)
      ensures key == Enter && old(gameOver) ==>
        State() == Update(NewRun(width, height, old(highScore)), width, height, 0.0, draw)
        && lastTime == now
      ensures (key == Space && old(gameOver)) || (key == Enter && !old(gameOver)) || key == OtherKey
              ==> State() == old(State()) && lastTime == old(lastTime)
    {
      if key == Space {
        if !gameOver {
          if paused {
            TogglePause(now, draw);
          } else {
            Jump();
          }
        }
      }
      if key == Enter && gameOver {
        Start(now, draw);
      }
    }

    /** `birdJump`: in a running, unpaused game the bird's velocity becomes the jump force. */
    method Jump()
      requires Valid()
      modifies this`bird
      ensures Valid()
      ensures old(gameOver) || old(paused) ==> bird == old(bird)
      ensures !old(gameOver) && !old(paused) ==>
        bird == old(bird).(velocity := JumpForce)
    {
      if gameOver || paused {
        return;
      }
      bird := bird.(velocity := JumpForce);
    }

    /** `startFlappyGame`: a new run, and its first frame at time `now` with no time elapsed. */
    method Start(now: real, draw: real)
      requires 0.0 <= draw < 1.0
      modifies this
      ensures Valid()
      ensures State() == Update(NewRun(width, height, old(highScore)), width, height, 0.0, draw)
      ensures lastTime == now
    {
      ResetState();
      lastTime := now;
      GameLoop(lastTime, draw);
    }

    /** `resetFlappyGameState`: the bird at (w / 5, h / 2) at rest, no pipes, the initial speed. */
    method ResetState()
      modifies this
      ensures Valid()
      ensures State() == NewRun(width, height, old(highScore))
      ensures lastTime == old(lastTime)
    {
      bird := Bird(width * 0.2, height * 0.5, 0.0, 0.0);
      pipes := [];
      score := 0;
      gameOver := false;
      paused := false;
      speed := InitialSpeed;
      pipeTimer := 0.0;
      particles := [];
      lastScore := 0;
    }

    /**
     * `toggleFlappyPause`: flip the pause flag unless the run is over;
     * resuming restarts the clock at `now` and runs a frame at once.
     */
    method TogglePause(now: real, draw: real)
      requires 0.0 <= draw < 1.0
      requires Valid()
      modifies this
      ensures Valid()
      ensures old(gameOver) ==> State() == old(State()) && lastTime == old(lastTime)
      ensures !old(gameOver) && !old(paused) ==>
        State() == old(State()).(paused := true) && lastTime == old(lastTime)
      ensures !old(gameOver) && old(paused) ==>
        State() == Update(old(State()).(paused := false), width, height, 0.0, draw)
        && lastTime == now
    {
      if gameOver {
        return;
      }
      paused := !paused;
      if !paused {
        ghost var resumed := State();
        assert resumed == old(State()).(paused := false);
        lastTime := now;
        assert State() == resumed;
        GameLoop(lastTime, draw);
      }
    }

    /** `resetFlappyGame`: stop the run without touching the high score. */
    method Reset()
      requires Valid()
      modifies this`gameOver
      ensures Valid()
      ensures State() == old(State()).(gameOver := true)
    {
      gameOver := true;
    }

    /**
     * `flappyGameLoop(currentTime)`: nothing while the run is over or
     * paused; otherwise one update by the time since the last frame, and
     * the clock moves to `currentTime`.
     */
    method GameLoop(currentTime: real, draw: real)
      requires 0.0 <= draw < 1.0
      requires Valid()
      modifies this
      ensures Valid()
      ensures old(gameOver) || old(paused) ==> State() == old(State()) && lastTime == old(lastTime)
      ensures !old(gameOver) && !old(paused) ==>
        State() == Update(old(State()), width, height, currentTime - old(lastTime), draw)
        && lastTime == currentTime
    {
      if gameOver || paused {
        return;
      }
      ghost var s := State();
      var deltaTime := currentTime - lastTime;
      lastTime := currentTime;
      assert State() == s;
      UpdateGame(deltaTime, draw);
    }

    /** `updateFlappyGame(deltaTime)`: one frame of the run. */
    method UpdateGame(deltaTime: real, draw: real)
      requires 0.0 <= draw < 1.0
      requires Valid()
      modifies this
      ensures Valid()
      ensures State() == Update(old(State()), width, height, deltaTime, draw)
      ensures lastTime == old(lastTime)
    {
      ghost var s := State();
      var velocity := bird.velocity + Gravity;
      bird := bird.(velocity := velocity, y := bird.y + velocity,
                    rotation := MinReal(MaxReal(velocity * 0.05, -1.0), 1.0));
      assert bird == Fall(s.bird);
      var groundHeight := height * 0.2;
      if bird.y + 10.0 > height - groundHeight {
        bird := bird.(y := height - groundHeight - 10.0);
        GameOver();
        UpdatePreservesInvariant(s, width, height, deltaTime, draw);
        return;
      }
      if bird.y < 0.0 {
        bird := bird.(y := 0.0, velocity := 0.0);
      }
      AdvanceFrame(deltaTime, draw);
      UpdatePreservesInvariant(s, width, height, deltaTime, draw);
    }

    /** The steps of `updateFlappyGame` after the bird has moved and is off the ground. */
    method AdvanceFrame(deltaTime: real, draw: real)
      requires 0.0 <= draw < 1.0
      modifies this`pipes, this`pipeTimer, this`gameOver, this`highScore, this`score,
               this`particles, this`speed, this`lastScore
      ensures State() == Advance(old(State()), width, height, deltaTime, draw)
    {
      RunPipeClock(deltaTime, draw);
      UpdatePipes();
      CheckCollisions();
      CheckScore();
      UpdateParticles();
      SpeedUp();
    }

    /** The pipe clock of `updateFlappyGame`: past one period a pipe is generated and the clock restarts. */
    method RunPipeClock(deltaTime: real, draw: real)
      requires 0.0 <= draw < 1.0
      modifies this`pipes, this`pipeTimer
      ensures State() == PipeClock(old(State()), width, height, deltaTime, draw)
    {
      pipeTimer := pipeTimer + deltaTime;
      if pipeTimer > PipeFrequency {
        GeneratePipe(draw);
        pipeTimer := 0.0;
      }
    }

    /** The speed rule at the end of `updateFlappyGame`. */
    method SpeedUp()
      modifies this`speed, this`lastScore
      ensures State() == SpeedRule(old(State()))
    {
      if score > lastScore && score % 5 == 0 {
        speed := MinReal(MaxSpeed, InitialSpeed + score as real * SpeedIncrease);
        lastScore := score;
      }
    }

    /** `generatePipe`: a new pipe at the right edge; `draw` is the value of `Math.random()`. */
    method GeneratePipe(draw: real)
      requires 0.0 <= draw < 1.0
      modifies this`pipes
      ensures pipes == old(pipes) + [NewPipe(width, height, draw)]
      ensures height * 0.5 > MinPipeHeight ==>
        MinPipeHeight <= pipes[|pipes| - 1].topHeight < height * 0.5
    {
      var maxHeight := height * 0.5;
      var topPipeHeight := MinPipeHeight + Share(draw, maxHeight - MinPipeHeight);
      var bottomPipeY := topPipeHeight + PipeGap;
      var bottomPipeHeight := height - bottomPipeY - height * 0.2;
      pipes := pipes + [Pipe(width, PipeWidth, topPipeHeight, bottomPipeY, bottomPipeHeight,
                             false, false, 0)];
      if height * 0.5 > MinPipeHeight {
        NewPipeGeometry(width, height, draw);
      }
    }

    /**
     * `updatePipes`: walk the list from the back, move each pipe, count its
     * highlight down and splice it out once it is off screen.
     */
    method UpdatePipes()
      modifies this`pipes
      ensures pipes == MovedPipes(old(pipes), speed)
    {
      var list := pipes;
      var i := |list|;
      while i > 0
        invariant 0 <= i <= |old(pipes)|
        invariant list == old(pipes)[..i] + MovedPipes(old(pipes)[i..], speed)
      {
        i := i - 1;
        MovedPipesFrom(old(pipes), speed, i);
        assert list[..i] == old(pipes)[..i] && list[i] == old(pipes)[i];
        assert list[i + 1..] == MovedPipes(old(pipes)[i + 1..], speed);
        var pipe := list[i];
        pipe := pipe.(x := pipe.x - speed);
        if pipe.highlight {
          pipe := pipe.(highlightTimer := pipe.highlightTimer - 1);
          if pipe.highlightTimer <= 0 {
            pipe := pipe.(highlight := false);
          }
        }
        assert pipe == MovePipe(old(pipes)[i], speed);
        if pipe.x + pipe.width < 0.0 {
          list := list[..i] + list[i + 1..];
        } else {
          list := list[..i] + [pipe] + list[i + 1..];
        }
      }
      pipes := list;
    }

    /** `checkCollisions`: the first pipe the bird's box overlaps ends the run. */
    method CheckCollisions()
      modifies this`gameOver, this`highScore
      ensures State() == CollisionCheck(old(State()))
    {
      var i := 0;
      while i < |pipes|
        invariant 0 <= i <= |pipes|
        invariant forall j :: 0 <= j < i ==> !Collides(bird, pipes[j])
        invariant gameOver == old(gameOver) && highScore == old(highScore)
      {
        var pipe := pipes[i];
        if bird.x + BirdSize > pipe.x && bird.x < pipe.x + pipe.width
           && (bird.y < pipe.topHeight || bird.y + BirdSize > pipe.bottomY)
        {
          assert Collides(bird, pipes[i]);
          GameOver();
          return;
        }
        i := i + 1;
      }
    }

    /** `checkScore`: every pipe the bird has just got past earns a point and is marked. */
    method CheckScore()
      modifies this`pipes, this`score
      ensures State() == ScoreCheck(old(State()))
    {
      var scored, points := ScorePass(pipes, bird.x);
      pipes := scored;
      score := score + points;
    }

    /**
     * `updateFlappyParticles`: walk the list from the back, decrement each
     * life and splice out the particles whose life has run out.
     */
    method UpdateParticles()
      modifies this`particles
      ensures particles == Aged(old(particles))
    {
      var list := particles;
      var i := |list|;
      while i > 0
        invariant 0 <= i <= |old(particles)|
        invariant list == old(particles)[..i] + Aged(old(particles)[i..])
      {
        i := i - 1;
        AgedFrom(old(particles), i);
        var particle := Decremented(list[i]);
        if particle.life <= 0.0 {
          list := list[..i] + list[i + 1..];
        } else {
          list := list[..i] + [particle] + list[i + 1..];
        }
      }
      particles := list;
    }

    /** `flappyGameOver`: the run ends and the high score is raised to the score if beaten. */
    method GameOver()
      modifies this`gameOver, this`highScore
      ensures State() == EndRun(old(State()))
    {
      gameOver := true;
      if score > highScore {
        highScore := score;
      }
    }
  }
}
