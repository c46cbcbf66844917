/**
 * The rules of the Flappy game as pure functions over exact reals: the
 * bird's fall, the pipe list, the collision test, the scoring pass, the
 * speed rule and one whole update. The class in module FlappyGame updates
 * its fields step by step and is proved to follow these functions.
 */
module Flappy {
  import opened Util
  import opened Particles

  const Gravity: real := 0.5
  const JumpForce: real := -8.0
  /** Vertical gap between the two halves of a pipe. */
  const PipeGap: real := 150.0
  /** Milliseconds between two pipes. */
  const PipeFrequency: real := 150.0
  const InitialSpeed: real := 5.0
  const SpeedIncrease: real := 0.1
  const MaxSpeed: real := 8.0
  /** Side of the bird's square hit box. */
  const BirdSize: real := 20.0
  const PipeWidth: real := 80.0
  const MinPipeHeight: real := 50.0
  /** Frames a scored pipe stays highlighted. */
  const HighlightFrames: int := 10

  datatype Bird = Bird(x: real, y: real, velocity: real, rotation: real)

  datatype Pipe = Pipe(
    x: real,
    width: real,
    topHeight: real,       // bottom edge of the upper half
    bottomY: real,         // top edge of the lower half
    bottomHeight: real,
    passed: bool,          // already scored
    highlight: bool,
    highlightTimer: int)

  /** Everything one run of the game keeps, apart from the frame clock. */
  datatype FlappyState = FlappyState(
    bird: Bird,
    pipes: seq<Pipe>,
    score: int,
    highScore: int,
    gameOver: bool,
    paused: bool,
    speed: real,           // pixels a pipe moves per frame
    pipeTimer: real,       // milliseconds since the last pipe
    particles: seq<Particle>,
    lastScore: int)        // the score at the last speed change

  /** The canvas height: one and a half times the width, truncated to whole pixels. */
  function CanvasHeight(width: nat): (h: nat)
    ensures 2 * h <= 3 * width < 2 * h + 2
  {
    width * 3 / 2
  }

  /** The y coordinate of the top of the ground strip (the lowest fifth of the canvas). */
  function GroundLine(height: real): real
  {
    height - height * 0.2
  }

  /** The bird's tilt: a twentieth of its velocity, clamped to [-1, 1]. */
  function Rotation(velocity: real): (r: real)
    ensures -1.0 <= r <= 1.0
    ensures -20.0 <= velocity <= 20.0 ==> r == velocity * 0.05
    ensures velocity < -20.0 ==> r == -1.0
    ensures velocity > 20.0 ==> r == 1.0
  {
    MinReal(MaxReal(velocity * 0.05, -1.0), 1.0)
  }

  /** One explicit Euler step of the bird under gravity. */
  function Fall(b: Bird): Bird
  {
    var v := b.velocity + Gravity;
    b.(velocity := v, y := b.y + v, rotation := Rotation(v))
  }

  /**
   * `generatePipe` on a `w` by `h` canvas, where `draw` is the value of
   * `Math.random()`: a pipe at the right edge with a random gap.
   */
  function NewPipe(w: real, h: real, draw: real): Pipe
  {
    var topHeight := MinPipeHeight + Share(draw, h * 0.5 - MinPipeHeight);
    var bottomY := topHeight + PipeGap;
    Pipe(w, PipeWidth, topHeight, bottomY, h - bottomY - h * 0.2, false, false, 0)
  }

  /** The random share `draw * span` of a span; a draw in [0, 1) of a positive span stays inside it. */
  function Share(draw: real, span: real): (r: real)
    ensures 0.0 <= draw < 1.0 && span > 0.0 ==> 0.0 <= r < span
  {
    if 0.0 <= draw < 1.0 && span > 0.0 then
      FractionBelow(draw, span);
      draw * span
    else
      draw * span
  }

  /** One frame of a single pipe: it moves left and its highlight counts down. */
  function MovePipe(p: Pipe, speed: real): Pipe
  {
    var timer := if p.highlight then p.highlightTimer - 1 else p.highlightTimer;
    p.(x := p.x - speed, highlightTimer := timer, highlight := p.highlight && timer > 0)
  }

  /** The pipe has left the screen on the left. */
  predicate OffScreen(p: Pipe)
  {
    p.x + p.width < 0.0
  }

  /** `updatePipes`: every pipe moves, and the pipes then off screen are dropped. */
  function MovedPipes(ps: seq<Pipe>, speed: real): (r: seq<Pipe>)
    ensures |r| <= |ps|
    ensures forall i :: 0 <= i < |r| ==> !OffScreen(r[i])
  {
    if ps == [] then []
    else
      var p := MovePipe(ps[0], speed);
      (if OffScreen(p) then [] else [p]) + MovedPipes(ps[1..], speed)
  }

  /**
   * The test of `checkCollisions`: the bird's box overlaps the pipe
   * horizontally and reaches above the gap or below it. All comparisons
   * are strict, so touching an edge is no collision.
   */
  predicate Collides(b: Bird, p: Pipe)
  {
    b.x + BirdSize > p.x && b.x < p.x + p.width
    && (b.y < p.topHeight || b.y + BirdSize > p.bottomY)
  }

  predicate HitsAnyPipe(b: Bird, ps: seq<Pipe>)
  {
    exists i :: 0 <= i < |ps| && Collides(b, ps[i])
  }

  /** The bird, at horizontal position `birdX`, has just got past this unscored pipe. */
  predicate Passes(birdX: real, p: Pipe)
  {
    !p.passed && birdX > p.x + p.width
  }

  function ScorePipe(p: Pipe, birdX: real): Pipe
  {
    if Passes(birdX, p) then p.(passed := true, highlight := true, highlightTimer := HighlightFrames)
    else p
  }

  /** The pipe list after `checkScore`: every pipe just got past is marked passed and highlighted. */
  function ScorePipes(ps: seq<Pipe>, birdX: real): (r: seq<Pipe>)
    ensures |r| == |ps|
  {
    seq(|ps|, i requires 0 <= i < |ps| => ScorePipe(ps[i], birdX))
  }

  /** The points `checkScore` awards: one per pipe just got past. */
  function NewlyPassed(ps: seq<Pipe>, birdX: real): (n: int)
    ensures 0 <= n <= |ps|
  {
    if ps == [] then 0
    else NewlyPassed(ps[..|ps| - 1], birdX) + (if Passes(birdX, ps[|ps| - 1]) then 1 else 0)
  }

  /** The speed rule: `initialSpeed + score * speedIncrease`, capped at `maxSpeed`. */
  function SpeedFor(score: int): real
  {
    MinReal(MaxSpeed, InitialSpeed + score as real * SpeedIncrease)
  }

  /** `flappyGameOver`: the run ends and the high score is raised to the score if beaten. */
  function EndRun(s: FlappyState): (t: FlappyState)
    ensures t.gameOver && t.highScore >= s.highScore && t.highScore >= s.score
    ensures t.highScore == s.highScore || t.highScore == s.score
    ensures t.(gameOver := s.gameOver, highScore := s.highScore) == s
  {
    s.(gameOver := true, highScore := if s.score > s.highScore then s.score else s.highScore)
  }

  /** `resetFlappyGameState` on a `w` by `h` canvas; the high score carries over. */
  function NewRun(w: real, h: real, highScore: int): FlappyState
  {
    FlappyState(Bird(w * 0.2, h * 0.5, 0.0, 0.0), [], 0, highScore, false, false,
                InitialSpeed, 0.0, [], 0)
  }

  /**
   * The pipe clock of `updateFlappyGame`: `deltaTime` milliseconds pass, and
   * past one period a new pipe is generated and the clock restarts.
   */
  function PipeClock(s: FlappyState, w: real, h: real, deltaTime: real, draw: real): FlappyState
  {
    var timer := s.pipeTimer + deltaTime;
    if timer > PipeFrequency then s.(pipes := s.pipes + [NewPipe(w, h, draw)], pipeTimer := 0.0)
    else s.(pipeTimer := timer)
  }

  /** `checkCollisions` on a state: the run ends if the bird overlaps a pipe. */
  function CollisionCheck(s: FlappyState): FlappyState
  {
    if HitsAnyPipe(s.bird, s.pipes) then EndRun(s) else s
  }

  /** `checkScore` on a state: the pipes got past are marked and each earns a point. */
  function ScoreCheck(s: FlappyState): FlappyState
  {
    s.(pipes := ScorePipes(s.pipes, s.bird.x), score := s.score + NewlyPassed(s.pipes, s.bird.x))
  }

  /** The speed rule at the end of `updateFlappyGame`: applied when the score lands on a new multiple of five. */
  function SpeedRule(s: FlappyState): FlappyState
  {
    if s.score > s.lastScore && s.score % 5 == 0 then
      s.(speed := SpeedFor(s.score), lastScore := s.score)
    else s
  }

  /**
   * `updateFlappyGame(deltaTime)` on a `w` by `h` canvas, where `draw` is
   * the value `Math.random()` gives if a pipe is generated.
   */
  function Update(s: FlappyState, w: real, h: real, deltaTime: real, draw: real): FlappyState
  {
    var fallen := Fall(s.bird);
    if fallen.y + 10.0 > GroundLine(h) then
      EndRun(s.(bird := fallen.(y := GroundLine(h) - 10.0)))
    else
      var b := if fallen.y < 0.0 then fallen.(y := 0.0, velocity := 0.0) else fallen;
      Advance(s.(bird := b), w, h, deltaTime, draw)
  }

  /**
   * The rest of a frame once the bird has moved and is off the ground:
   * the pipe clock, `updatePipes`, `checkCollisions`, `checkScore`,
   * `updateFlappyParticles` and the speed rule, in this order.
   */
  function Advance(s: FlappyState, w: real, h: real, deltaTime: real, draw: real): FlappyState
  {
    var clocked := PipeClock(s, w, h, deltaTime, draw);
    var moved := clocked.(pipes := MovedPipes(clocked.pipes, clocked.speed));
    var scored := ScoreCheck(CollisionCheck(moved));
    SpeedRule(scored.(particles := Aged(scored.particles)))
  }

  /**
   * The relations every state keeps: scores are never negative, the speed
   * is the one the speed rule gives for the score at the last change, and
   * the pipe timer never holds more than one period.
   */
  predicate Invariant(s: FlappyState)
  {
    0 <= s.lastScore <= s.score && s.speed == SpeedFor(s.lastScore)
    && s.pipeTimer <= PipeFrequency
  }

  // ---------------------------------------------------------------------
  // The bird.

  /** The speed rule keeps the speed within [5, 8] and never lowers it as the score grows. */
  lemma SpeedForBounds(a: int, b: int)
    requires 0 <= a <= b
    ensures InitialSpeed <= SpeedFor(a) <= SpeedFor(b) <= MaxSpeed
  {
  }

  /**
   * Hitting the ground: the bird is put on the ground, the run ends with the
   * high-score rule, and nothing else of the frame happens.
   */
  lemma UpdateHitsGround(s: FlappyState, w: real, h: real, deltaTime: real, draw: real)
    requires Fall(s.bird).y + 10.0 > GroundLine(h)
    ensures var t := Update(s, w, h, deltaTime, draw);
      t.gameOver && t.bird.y == GroundLine(h) - 10.0
      && t.bird.velocity == s.bird.velocity + Gravity
      && t.highScore == Max(s.highScore, s.score)
      && t.pipes == s.pipes && t.score == s.score && t.pipeTimer == s.pipeTimer
      && t.particles == s.particles && t.speed == s.speed
  {
  }

  /**
   * In the air: gravity adds 0.5 to the velocity and the bird moves by the
   * new velocity; above the ceiling it is stopped at y = 0, which does not
   * end the run. The tilt follows the velocity before the ceiling stop.
   */
  lemma UpdateFlight(s: FlappyState, w: real, h: real, deltaTime: real, draw: real)
    requires Fall(s.bird).y + 10.0 <= GroundLine(h)
    ensures var t := Update(s, w, h, deltaTime, draw);
      var v := s.bird.velocity + Gravity;
      && t.bird.x == s.bird.x
      && t.bird.rotation == Rotation(v)
      && -1.0 <= t.bird.rotation <= 1.0
      && (s.bird.y + v >= 0.0 ==> t.bird.y == s.bird.y + v && t.bird.velocity == v)
      && (s.bird.y + v < 0.0 ==> t.bird.y == 0.0 && t.bird.velocity == 0.0)
      && t.gameOver == (s.gameOver || HitsAnyPipe(t.bird, MovedPipes(
           if s.pipeTimer + deltaTime > PipeFrequency then s.pipes + [NewPipe(w, h, draw)]
           else s.pipes, s.speed)))
  {
  }

  /** A jump followed by a frame in the air leaves the bird rising at 7.5 pixels per frame. */
  lemma JumpThenFall(b: Bird)
    ensures Fall(b.(velocity := JumpForce)).velocity == -7.5
    ensures Fall(b.(velocity := JumpForce)).y == b.y - 7.5
  {
  }

  // ---------------------------------------------------------------------
  // Pipes.

  /** A new pipe starts at the right edge, unscored, with a gap of 150 whose top is in [50, h / 2). */
  lemma NewPipeGeometry(w: real, h: real, draw: real)
    requires 0.0 <= draw < 1.0 && h * 0.5 > MinPipeHeight
    ensures var p := NewPipe(w, h, draw);
      p.x == w && p.width == PipeWidth && !p.passed && !p.highlight
      && MinPipeHeight <= p.topHeight < h * 0.5
      && p.bottomY == p.topHeight + PipeGap
      && p.bottomY + p.bottomHeight == GroundLine(h)
  {
  }

  /** A fraction in [0, 1) of a positive span stays below the span. */
  lemma FractionBelow(fraction: real, span: real)
    requires 0.0 <= fraction < 1.0 && span > 0.0
    ensures 0.0 <= fraction * span < span
  {
    assert (1.0 - fraction) * span == span - fraction * span;
    assert (1.0 - fraction) * span > 0.0;
  }

  /** Moving the pipes of a suffix: the pipe at its front is handled first, then the rest. */
  lemma MovedPipesFrom(ps: seq<Pipe>, speed: real, i: nat)
    requires i < |ps|
    ensures MovedPipes(ps[i..], speed)
         == (if OffScreen(MovePipe(ps[i], speed)) then [] else [MovePipe(ps[i], speed)])
            + MovedPipes(ps[i + 1..], speed)
  {
    assert ps[i..][0] == ps[i] && ps[i..][1..] == ps[i + 1..];
  }

  /** Moving distributes over concatenation: the surviving pipes keep their order. */
  lemma {:induction false} MovedPipesAppend(a: seq<Pipe>, b: seq<Pipe>, speed: real)
    ensures MovedPipes(a + b, speed) == MovedPipes(a, speed) + MovedPipes(b, speed)
  {
    if a == [] {
      assert a + b == b;
    } else {
      assert (a + b)[0] == a[0];
      assert (a + b)[1..] == a[1..] + b;
      MovedPipesAppend(a[1..], b, speed);
    }
  }

  /**
   * A pipe is in the moved list exactly when it is the moved form of an old
   * pipe that is still on screen: exactly the pipes with x + width < 0 go.
   */
  lemma {:induction false} MovedPipesMembers(ps: seq<Pipe>, speed: real, q: Pipe)
    ensures q in MovedPipes(ps, speed) <==>
      exists i :: 0 <= i < |ps| && q == MovePipe(ps[i], speed) && !OffScreen(q)
  {
    if ps != [] {
      MovedPipesMembers(ps[1..], speed, q);
      if exists i :: 0 <= i < |ps| && q == MovePipe(ps[i], speed) && !OffScreen(q) {
        var i :| 0 <= i < |ps| && q == MovePipe(ps[i], speed) && !OffScreen(q);
        if i > 0 {
          assert ps[1..][i - 1] == ps[i];
        }
      }
      if exists i :: 0 <= i < |ps[1..]| && q == MovePipe(ps[1..][i], speed) && !OffScreen(q) {
        var i :| 0 <= i < |ps[1..]| && q == MovePipe(ps[1..][i], speed) && !OffScreen(q);
        assert ps[i + 1] == ps[1..][i];
      }
    }
  }

  /** A highlighted pipe's timer drops by one and the highlight clears once it reaches zero. */
  lemma MovePipeHighlight(p: Pipe, speed: real)
    requires p.highlight
    ensures MovePipe(p, speed).highlightTimer == p.highlightTimer - 1
    ensures MovePipe(p, speed).highlight <==> p.highlightTimer - 1 > 0
    ensures MovePipe(p, speed).x == p.x - speed
  {
  }

  // ---------------------------------------------------------------------
  // Collisions.

  /** Touching an edge of a pipe, or flying inside its gap, is no collision. */
  lemma EdgesDoNotCollide(b: Bird, p: Pipe)
    ensures b.x + BirdSize <= p.x ==> !Collides(b, p)
    ensures b.x >= p.x + p.width ==> !Collides(b, p)
    ensures p.topHeight <= b.y && b.y + BirdSize <= p.bottomY ==> !Collides(b, p)
  {
  }

  /**
   * A collision ends the run but the frame goes on: the pipes are still
   * scored, so a run can end with more points than its recorded high score.
   * Both pipes have gap tops `generatePipe` can draw on a 600 by 900 canvas,
   * and the bird touches neither before the frame.
   */
  lemma HighScoreCanMissLastPoint()
    ensures var s := FlappyState(Bird(120.0, 400.0, 0.0, 0.0),
                                 [Pipe(40.0, 80.0, 300.0, 450.0, 270.0, false, false, 0),
                                  Pipe(140.0, 80.0, 420.0, 570.0, 150.0, false, false, 0)],
                                 0, 0, false, false, 5.0, 0.0, [], 0);
      var t := Update(s, 600.0, 900.0, 16.0, 0.0);
      && Invariant(s) && !HitsAnyPipe(s.bird, s.pipes)
      && (forall p :: p in s.pipes ==> MinPipeHeight <= p.topHeight < 900.0 * 0.5)
      && t.gameOver && t.score == 1 && t.highScore == 0
  {
    var s := FlappyState(Bird(120.0, 400.0, 0.0, 0.0),
                         [Pipe(40.0, 80.0, 300.0, 450.0, 270.0, false, false, 0),
                          Pipe(140.0, 80.0, 420.0, 570.0, 150.0, false, false, 0)],
                         0, 0, false, false, 5.0, 0.0, [], 0);
    var b := Fall(s.bird);
    assert b == Bird(120.0, 400.5, 0.5, 0.025);
    var moved := MovedPipes(s.pipes, 5.0);
    assert moved == [Pipe(35.0, 80.0, 300.0, 450.0, 270.0, false, false, 0),
                     Pipe(135.0, 80.0, 420.0, 570.0, 150.0, false, false, 0)] by {
      assert s.pipes[1..][1..] == [];
    }
    assert Collides(b, moved[1]);
    assert HitsAnyPipe(b, moved);
    assert NewlyPassed(moved, b.x) == 1 by {
      assert moved[..1] == [moved[0]];
      assert moved[..1][..0] == [];
    }
  }

  // ---------------------------------------------------------------------
  // Scoring.

  /** The scoring pass adds exactly one point per pipe just got past. */
  lemma {:induction false} NewlyPassedCounts(ps: seq<Pipe>, birdX: real)
    ensures NewlyPassed(ps, birdX) == |set i | 0 <= i < |ps| && Passes(birdX, ps[i])|
  {
    if ps != [] {
      var n := |ps| - 1;
      NewlyPassedCounts(ps[..n], birdX);
      var before := set i | 0 <= i < n && Passes(birdX, ps[..n][i]);
      var after := set i | 0 <= i < |ps| && Passes(birdX, ps[i]);
      assert before == set i | 0 <= i < n && Passes(birdX, ps[i]);
      if Passes(birdX, ps[n]) {
        assert after == before + {n};
      } else {
        assert after == before;
      }
    }
  }

  /** The scoring pass adds nothing exactly when no pipe is newly got past. */
  lemma {:induction false} NothingNewlyPassed(ps: seq<Pipe>, birdX: real)
    ensures NewlyPassed(ps, birdX) == 0 <==> forall i :: 0 <= i < |ps| ==> !Passes(birdX, ps[i])
  {
    if ps != [] {
      var n := |ps| - 1;
      NothingNewlyPassed(ps[..n], birdX);
      assert forall i :: 0 <= i < n ==> ps[..n][i] == ps[i];
    }
  }

  /**
   * One step of the scoring pass over `ps`: with the first `i` pipes scored,
   * scoring pipe `i` in place gives the first `i + 1` scored.
   */
  lemma ScorePassStep(ps: seq<Pipe>, birdX: real, i: nat)
    requires i < |ps|
    ensures var list := ScorePipes(ps[..i], birdX) + ps[i..];
      && list[i] == ps[i]
      && list[..i] + [ScorePipe(ps[i], birdX)] + list[i + 1..]
         == ScorePipes(ps[..i + 1], birdX) + ps[i + 1..]
    ensures NewlyPassed(ps[..i + 1], birdX)
         == NewlyPassed(ps[..i], birdX) + (if Passes(birdX, ps[i]) then 1 else 0)
  {
    assert ps[..i + 1][..i] == ps[..i];
    var list := ScorePipes(ps[..i], birdX) + ps[i..];
    assert list[..i] == ScorePipes(ps[..i], birdX);
    assert list[i + 1..] == ps[i + 1..];
    assert ScorePipes(ps[..i + 1], birdX) == ScorePipes(ps[..i], birdX) + [ScorePipe(ps[i], birdX)];
  }

  /**
   * After the scoring pass a pipe is marked passed exactly when it was
   * passed before or the bird is beyond its right edge; where the pipe is
   * does not change.
   */
  lemma ScorePipesMarks(ps: seq<Pipe>, birdX: real)
    ensures forall i :: 0 <= i < |ps| ==>
      && ScorePipes(ps, birdX)[i].passed == (ps[i].passed || birdX > ps[i].x + ps[i].width)
      && ScorePipes(ps, birdX)[i].x == ps[i].x && ScorePipes(ps, birdX)[i].width == ps[i].width
      && ScorePipes(ps, birdX)[i].topHeight == ps[i].topHeight
      && ScorePipes(ps, birdX)[i].bottomY == ps[i].bottomY
  {
  }

  /** A pipe once scored is never scored again: a second pass finds nothing. */
  lemma ScoreOnce(ps: seq<Pipe>, birdX: real)
    ensures NewlyPassed(ScorePipes(ps, birdX), birdX) == 0
    ensures ScorePipes(ScorePipes(ps, birdX), birdX) == ScorePipes(ps, birdX)
  {
    var r := ScorePipes(ps, birdX);
    assert forall i :: 0 <= i < |r| ==> !Passes(birdX, r[i]);
    NothingNewlyPassed(r, birdX);
  }

  // ---------------------------------------------------------------------
  // A whole update.

  /**
   * An update keeps the invariant, never lowers the score or the speed, and
   * keeps the speed within [5, 8]; the speed changes only when the score has
   * moved past the last change and landed on a multiple of five.
   */
  lemma UpdatePreservesInvariant(s: FlappyState, w: real, h: real, deltaTime: real, draw: real)
    requires Invariant(s)
    ensures var t := Update(s, w, h, deltaTime, draw);
      Invariant(t)
      && t.score >= s.score && t.speed >= s.speed
      && InitialSpeed <= t.speed <= MaxSpeed
      && (t.speed != s.speed || t.lastScore != s.lastScore ==>
            t.score % 5 == 0 && t.score > s.lastScore && t.lastScore == t.score)
  {
    var t := Update(s, w, h, deltaTime, draw);
    SpeedForBounds(s.lastScore, t.lastScore);
  }

  /** The score an update reaches: the old score plus one per pipe got past after moving. */
  lemma UpdateScore(s: FlappyState, w: real, h: real, deltaTime: real, draw: real)
    requires Fall(s.bird).y + 10.0 <= GroundLine(h)
    ensures var t := Update(s, w, h, deltaTime, draw);
      var pipes := MovedPipes(if s.pipeTimer + deltaTime > PipeFrequency
                              then s.pipes + [NewPipe(w, h, draw)] else s.pipes, s.speed);
      t.score == s.score + NewlyPassed(pipes, t.bird.x)
      && t.pipes == ScorePipes(pipes, t.bird.x)
      && t.particles == Aged(s.particles)
      && t.pipeTimer == (if s.pipeTimer + deltaTime > PipeFrequency then 0.0
                         else s.pipeTimer + deltaTime)
  {
  }
}
