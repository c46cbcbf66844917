/**
 * The rules of the Snake game as pure functions: the state of one run, the
 * anti-reversal rule, the swipe decision, one tick of the game and the
 * level/speed formula. The class in module SnakeGame updates its fields
 * step by step and is proved to follow these functions.
 */
module Snake {
  import opened Util
  import opened Particles

  /** Pixels per grid cell. */
  const GridSize: nat := 20
  /** Tick interval, in milliseconds, at level 1. */
  const InitialSpeed: int := 150
  /** Milliseconds taken off the tick interval per level. */
  const SpeedIncrease: int := 5
  /** The shortest tick interval. */
  const MaxSpeed: int := 50

  datatype Direction = Up | Down | Left | Right

  datatype Cell = Cell(x: int, y: int)

  /** Everything one run of the game keeps, apart from the frame clock. */
  datatype SnakeState = SnakeState(
    body: seq<Cell>,            // head first
    food: Cell,
    direction: Direction,
    nextDirection: Direction,   // buffered input, applied at the next tick
    score: int,
    highScore: int,
    level: int,
    speed: int,                 // tick interval in milliseconds
    gameOver: bool,
    paused: bool,
    particles: seq<Particle>)

  function Opposite(d: Direction): Direction
  {
    match d
    case Up => Down
    case Down => Up
    case Left => Right
    case Right => Left
  }

  /** The number of cells per side of a square canvas `canvasWidth` pixels wide. */
  function GridCount(canvasWidth: nat): (g: nat)
    ensures g * GridSize <= canvasWidth < (g + 1) * GridSize
  {
    canvasWidth / GridSize
  }

  predicate InGrid(c: Cell, g: int)
  {
    0 <= c.x < g && 0 <= c.y < g
  }

  predicate AllInGrid(body: seq<Cell>, g: int)
  {
    forall i :: 0 <= i < |body| ==> InGrid(body[i], g)
  }

  /** No two cells of the body coincide. */
  predicate Distinct(body: seq<Cell>)
  {
    forall i, j :: 0 <= i < j < |body| ==> body[i] != body[j]
  }

  /**
   * The test `changeDirection` makes before buffering `requested` while the
   * snake moves in `current`: one clause per requested direction.
   */
  function Accepts(current: Direction, requested: Direction): (ok: bool)
    ensures ok <==> requested != Opposite(current)
  {
    (requested == Up && current != Down)
    || (requested == Down && current != Up)
    || (requested == Left && current != Right)
    || (requested == Right && current != Left)
  }

  /**
   * The direction the `touchend` handler asks for after a swipe of
   * (`dx`, `dy`) pixels while the snake moves in `current`, if any: the
   * dominant axis decides, a tie counts as vertical, and a swipe back
   * against the current direction asks for nothing.
   */
  function SwipeDirection(dx: real, dy: real, current: Direction): (r: Option<Direction>)
    ensures r.Some? ==> r.value != Opposite(current)
    ensures r.Some? && (r.value == Left || r.value == Right) <==> r.Some? && AbsReal(dx) > AbsReal(dy)
    ensures r == Some(Right) <==> AbsReal(dx) > AbsReal(dy) && dx > 0.0 && current != Left
    ensures r == Some(Left) <==> AbsReal(dx) > AbsReal(dy) && dx < 0.0 && current != Right
    ensures r == Some(Down) <==> AbsReal(dx) <= AbsReal(dy) && dy > 0.0 && current != Up
    ensures r == Some(Up) <==> AbsReal(dx) <= AbsReal(dy) && dy < 0.0 && current != Down
  {
    if AbsReal(dx) > AbsReal(dy) then
      if dx > 0.0 && current != Left then Some(Right)
      else if dx < 0.0 && current != Right then Some(Left)
      else None
    else
      if dy > 0.0 && current != Up then Some(Down)
      else if dy < 0.0 && current != Down then Some(Up)
      else None
  }

  function AbsReal(v: real): real { if v < 0.0 then -v else v }

  /** The cell next to `c` in direction `d`; y grows downwards. */
  function NextHead(c: Cell, d: Direction): (h: Cell)
    ensures h != c
    ensures (h.x - c.x) * (h.x - c.x) + (h.y - c.y) * (h.y - c.y) == 1
  {
    match d
    case Up => c.(y := c.y - 1)
    case Down => c.(y := c.y + 1)
    case Left => c.(x := c.x - 1)
    case Right => c.(x := c.x + 1)
  }

  /** `levelUp`'s tick interval for `level`: five milliseconds less per level, never below 50. */
  function SpeedForLevel(level: int): (speed: int)
    ensures MaxSpeed <= speed
    ensures level >= 1 ==> speed <= InitialSpeed
    ensures speed == MaxSpeed || speed == InitialSpeed - (level - 1) * SpeedIncrease
    ensures speed > MaxSpeed <==> level < 21
  {
    Max(MaxSpeed, InitialSpeed - (level - 1) * SpeedIncrease)
  }

  /** The high-score rule of `gameOver`: the stored best is raised to the score when the score beats it. */
  function HighScoreAfter(highScore: int, score: int): (r: int)
    ensures r >= highScore && r >= score
    ensures r == highScore || r == score
  {
    if score > highScore then score else highScore
  }

  /** The body of a new run: three cells in a row at the centre, heading right. */
  function InitialBody(g: int): (body: seq<Cell>)
    ensures |body| == 3 && Distinct(body)
    ensures body[0] == NextHead(body[1], Right)
    ensures body[1] == NextHead(body[2], Right)
    ensures AllInGrid(body, g) <==> g >= 4
  {
    var c := g / 2;
    var body := [Cell(c, c), Cell(c - 1, c), Cell(c - 2, c)];
    assert g >= 4 <==> c >= 2;
    assert g >= 4 ==> c < g;
    assert g < 4 ==> !InGrid(body[2], g);
    body
  }

  /** Some candidate food cell is off the body. */
  predicate HasFreeDraw(draws: seq<Cell>, body: seq<Cell>)
  {
    exists i :: 0 <= i < |draws| && draws[i] !in body
  }

  /**
   * `generateFood`'s retry loop: the first of the random candidate cells
   * `draws` that is not on the body.
   */
  function FirstFree(draws: seq<Cell>, body: seq<Cell>): (food: Cell)
    requires HasFreeDraw(draws, body)
    ensures food !in body
    ensures exists k :: 0 <= k < |draws| && food == draws[k]
                        && forall j :: 0 <= j < k ==> draws[j] in body
  {
    if draws[0] !in body then draws[0]
    else
      var i :| 0 <= i < |draws| && draws[i] !in body;
      assert draws[1..][i - 1] == draws[i];
      var r := FirstFree(draws[1..], body);
      var k :| 0 <= k < |draws[1..]| && r == draws[1..][k]
        && forall j :: 0 <= j < k ==> draws[1..][j] in body;
      assert draws[k + 1] == r;
      assert forall j :: 1 <= j < k + 1 ==> draws[j] == draws[1..][j - 1];
      r
  }

  /** The head position a tick of `s` tries to move to. */
  function Target(s: SnakeState): Cell
    requires |s.body| >= 1
  {
    NextHead(s.body[0], s.nextDirection)
  }

  /** The tick ends the run: the target leaves the grid or hits the body (the tail included). */
  predicate Crashes(s: SnakeState, g: int)
    requires |s.body| >= 1
  {
    !InGrid(Target(s), g) || Target(s) in s.body
  }

  /** The tick moves onto the food. */
  predicate Eats(s: SnakeState, g: int)
    requires |s.body| >= 1
  {
    !Crashes(s, g) && Target(s) == s.food
  }

  /**
   * What the random source must provide for a tick: every candidate lies in
   * the grid (`Math.floor(Math.random() * gridCount)` on both axes), and when
   * the snake eats, some candidate is off the grown body (otherwise
   * `generateFood` never returns).
   */
  predicate DrawsSuffice(s: SnakeState, g: int, draws: seq<Cell>)
    requires |s.body| >= 1
  {
    AllInGrid(draws, g)
    && (Eats(s, g) ==> HasFreeDraw(draws, [Target(s)] + s.body))
  }

  /** Applies the game-over rule: the run stops and the high score is raised to the score. */
  function EndRun(s: SnakeState): SnakeState
  {
    s.(gameOver := true, highScore := HighScoreAfter(s.highScore, s.score))
  }

  /**
   * One call of `updateGame`: apply the buffered direction, move the head,
   * end the run on a crash (body untouched), otherwise push the new head and
   * either eat (score, food, level, speed) or drop the tail; then age the
   * particles.
   */
  function Tick(s: SnakeState, g: int, draws: seq<Cell>): SnakeState
    requires |s.body| >= 1 && DrawsSuffice(s, g, draws)
  {
    var t := s.(direction := s.nextDirection);
    if Crashes(s, g) then EndRun(t) else Step(t, Target(s), draws)
  }

  /**
   * The part of `updateGame` after the crash checks: push the new head `h`,
   * then eat (score, food, level, speed) or drop the tail, then age the
   * particles.
   */
  function Step(s: SnakeState, h: Cell, draws: seq<Cell>): SnakeState
    requires |s.body| >= 1 && (h == s.food ==> HasFreeDraw(draws, [h] + s.body))
  {
    if h == s.food then
      var body := [h] + s.body;
      var score := s.score + 10 * s.level;
      var leveled := score / 100 + 1 > s.level;
      var level := if leveled then s.level + 1 else s.level;
      s.(body := body, score := score, food := FirstFree(draws, body), level := level,
         speed := if leveled then SpeedForLevel(level) else s.speed,
         particles := Aged(s.particles))
    else
      s.(body := [h] + s.body[..|s.body| - 1], particles := Aged(s.particles))
  }

  /**
   * `resetGameState`: the state a new run starts in; the first food is the
   * first candidate off the initial body, and the high score carries over.
   */
  function NewRun(g: int, highScore: int, draws: seq<Cell>): (s: SnakeState)
    requires HasFreeDraw(draws, InitialBody(g))
  {
    var body := InitialBody(g);
    SnakeState(body, FirstFree(draws, body), Right, Right, 0, highScore, 1, InitialSpeed,
               false, false, [])
  }

  /** A new run starts with every invariant of a running game in place. */
  lemma NewRunIsValid(g: int, highScore: int, draws: seq<Cell>)
    requires AllInGrid(draws, g) && HasFreeDraw(draws, InitialBody(g))
    ensures var s := NewRun(g, highScore, draws);
      ScoreInvariant(s) && Distinct(s.body) && |s.body| == 3 && s.score == 0
      && (g >= 4 ==> AllInGrid(s.body, g))
      && s.food !in s.body && InGrid(s.food, g)
      && s.body[0] == NextHead(s.body[1], s.direction)
      && s.nextDirection != Opposite(s.direction)
  {
    var s := NewRun(g, highScore, draws);
    var k :| 0 <= k < |draws| && s.food == draws[k]
      && forall j :: 0 <= j < k ==> draws[j] in InitialBody(g);
    assert InGrid(draws[k], g);
  }

  /** The score, level and speed relations every state of a run keeps. */
  predicate ScoreInvariant(s: SnakeState)
  {
    s.score >= 0 && 1 <= s.level <= s.score / 100 + 1 && s.speed == SpeedForLevel(s.level)
  }

  /**
   * The invariant of the game object: the score relations; a body without
   * repeated cells that, on a grid of at least four cells a side, lies inside
   * it (a smaller grid puts the initial tail off the grid); a buffered
   * direction that never reverses the current one; and while the run goes
   * on, a head next to the neck in the current direction and food on a free
   * grid cell.
   */
  predicate Invariant(s: SnakeState, g: int)
  {
    && ScoreInvariant(s)
    && Distinct(s.body)
    && (g >= 4 ==> AllInGrid(s.body, g))
    && s.nextDirection != Opposite(s.direction)
    && (!s.gameOver ==>
          && |s.body| >= 2
          && s.body[0] == NextHead(s.body[1], s.direction)
          && s.food !in s.body
          && InGrid(s.food, g))
  }

  // ---------------------------------------------------------------------
  // Properties of a tick.

  /**
   * A crash ends the run, leaves the body, score and food as they were and
   * raises the high score to the score if it is beaten.
   */
  lemma TickCrash(s: SnakeState, g: int, draws: seq<Cell>)
    requires |s.body| >= 1 && DrawsSuffice(s, g, draws)
    requires Crashes(s, g)
    ensures var t := Tick(s, g, draws);
      t.gameOver && t.body == s.body && t.score == s.score && t.food == s.food
      && t.highScore == Max(s.highScore, s.score) && t.direction == s.nextDirection
      && t.particles == s.particles
  {
  }

  /** Moving into the tail cell is a crash, even though the tail would have moved on. */
  lemma TailIsSolid(s: SnakeState, g: int, draws: seq<Cell>)
    requires |s.body| >= 1 && DrawsSuffice(s, g, draws)
    requires Target(s) == s.body[|s.body| - 1]
    ensures Tick(s, g, draws).gameOver && Tick(s, g, draws).body == s.body
  {
  }

  /**
   * A successful move pushes the new head; the body keeps its old cells
   * when the snake eats and loses its tail otherwise, so the length grows by
   * exactly one on food and is unchanged otherwise.
   */
  lemma TickMove(s: SnakeState, g: int, draws: seq<Cell>)
    requires |s.body| >= 1 && DrawsSuffice(s, g, draws)
    requires !Crashes(s, g) && !s.gameOver
    ensures var t := Tick(s, g, draws);
      !t.gameOver && t.direction == s.nextDirection && t.body[0] == Target(s)
      && (Eats(s, g) ==> t.body == [Target(s)] + s.body && |t.body| == |s.body| + 1)
      && (!Eats(s, g) ==> t.body == [Target(s)] + s.body[..|s.body| - 1] && |t.body| == |s.body|)
      && t.particles == Aged(s.particles)
  {
  }

  /** The body stays free of repeated cells and inside the grid. */
  lemma TickKeepsBody(s: SnakeState, g: int, draws: seq<Cell>)
    requires |s.body| >= 1 && DrawsSuffice(s, g, draws)
    ensures Distinct(s.body) ==> Distinct(Tick(s, g, draws).body)
    ensures AllInGrid(s.body, g) ==> AllInGrid(Tick(s, g, draws).body, g)
  {
    var t := Tick(s, g, draws);
    if !Crashes(s, g) {
      var h := Target(s);
      var rest := if Eats(s, g) then s.body else s.body[..|s.body| - 1];
      assert t.body == [h] + rest;
      assert forall c :: c in rest ==> c in s.body;
      if Distinct(s.body) {
        forall i, j | 0 <= i < j < |t.body| ensures t.body[i] != t.body[j] {
          if i == 0 {
            assert t.body[j] == rest[j - 1];
          } else {
            assert t.body[i] == s.body[i - 1] && t.body[j] == s.body[j - 1];
          }
        }
      }
      if AllInGrid(s.body, g) {
        forall i | 0 <= i < |t.body| ensures InGrid(t.body[i], g) {
          if i > 0 {
            assert t.body[i] == s.body[i - 1];
          }
        }
      }
    }
  }

  /** The food is never on the body and lies inside the grid. */
  lemma TickKeepsFood(s: SnakeState, g: int, draws: seq<Cell>)
    requires |s.body| >= 1 && DrawsSuffice(s, g, draws)
    requires s.food !in s.body && InGrid(s.food, g)
    ensures Tick(s, g, draws).food !in Tick(s, g, draws).body
    ensures InGrid(Tick(s, g, draws).food, g)
  {
    var t := Tick(s, g, draws);
    if Eats(s, g) {
      var k :| 0 <= k < |draws| && t.food == draws[k]
        && forall j :: 0 <= j < k ==> draws[j] in [Target(s)] + s.body;
      assert InGrid(draws[k], g);
    } else if !Crashes(s, g) {
      assert forall c :: c in s.body[..|s.body| - 1] ==> c in s.body;
    }
  }

  /**
   * Eating adds ten points per level (the level before any level-up), the
   * level rises by at most one per tick, and the score relations are kept,
   * so the tick interval stays within [50, 150].
   */
  lemma TickScore(s: SnakeState, g: int, draws: seq<Cell>)
    requires |s.body| >= 1 && DrawsSuffice(s, g, draws)
    requires ScoreInvariant(s)
    ensures var t := Tick(s, g, draws);
      ScoreInvariant(t)
      && t.score == s.score + (if Eats(s, g) then 10 * s.level else 0)
      && (t.level == s.level || t.level == s.level + 1)
      && (t.level == s.level + 1 <==> Eats(s, g) && t.score / 100 + 1 > s.level)
      && MaxSpeed <= t.speed <= InitialSpeed
  {
    var t := Tick(s, g, draws);
    if Eats(s, g) {
      assert t.score == s.score + 10 * s.level;
      assert s.score / 100 <= t.score / 100;
    }
  }

  /**
   * The level can fall behind `floor(score / 100) + 1`: from level 11 a
   * single meal is worth more than 100 points, yet the level rises by one.
   * Meals from a new run pass through score 1390 at level 14, and the next
   * one gives 1530 at level 15.
   */
  lemma LevelCanLag()
    ensures var s := SnakeState([Cell(5, 5), Cell(4, 5), Cell(3, 5)], Cell(6, 5), Right, Right,
                                1390, 0, 14, SpeedForLevel(14), false, false, []);
      && ScoreInvariant(s) && DrawsSuffice(s, 20, [Cell(0, 0)])
      && var t := Tick(s, 20, [Cell(0, 0)]);
      t.score == 1530 && t.level == 15 && t.score / 100 + 1 == 16
  {
    var s := SnakeState([Cell(5, 5), Cell(4, 5), Cell(3, 5)], Cell(6, 5), Right, Right,
                        1390, 0, 14, SpeedForLevel(14), false, false, []);
    assert Target(s) == Cell(6, 5);
    assert Eats(s, 20);
    assert HasFreeDraw([Cell(0, 0)], [Cell(6, 5)] + s.body) by {
      assert [Cell(0, 0)][0] !in [Cell(6, 5)] + s.body;
    }
  }

  /** A tick of a running game keeps the invariant. */
  lemma TickPreservesInvariant(s: SnakeState, g: int, draws: seq<Cell>)
    requires Invariant(s, g) && !s.gameOver && DrawsSuffice(s, g, draws)
    ensures Invariant(Tick(s, g, draws), g)
  {
    TickKeepsBody(s, g, draws);
    TickKeepsFood(s, g, draws);
    TickScore(s, g, draws);
    var t := Tick(s, g, draws);
    if !Crashes(s, g) {
      assert t.body[1] == s.body[0];
    }
  }

  /**
   * The anti-reversal rule keeps the snake off its own neck: when the
   * buffered direction is not the reverse of the direction the head came
   * from, the next target is not the second cell of the body.
   */
  lemma NeverIntoNeck(s: SnakeState)
    requires |s.body| >= 2 && s.body[0] == NextHead(s.body[1], s.direction)
    requires s.nextDirection != Opposite(s.direction)
    ensures Target(s) != s.body[1]
  {
  }

  /**
   * Which moves can happen when the body already covers every cell of the
   * grid: none, because the target is either off the grid or on the body.
   */
  lemma FullGridAlwaysCrashes(s: SnakeState, g: int)
    requires |s.body| >= 1
    requires forall c :: InGrid(c, g) ==> c in s.body
    ensures Crashes(s, g)
  {
  }
}
