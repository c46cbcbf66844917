# Snake and Flappy: the game engines in Dafny

This project models the two browser games of the repository, `script.js` (Snake)
and `flappy.js` (Flappy), apart from their canvas, DOM and audio code.

**Snake** is played on a square grid of `gridCount` cells a side, where
`gridCount` is the canvas width divided by 20 and rounded down. The snake is a
list of cells, head first. Each tick applies the buffered direction and moves
the head one cell. The run ends when the head leaves the grid or lands on the
body, and the tail cell counts as body. Otherwise the new head is pushed. On
food the snake eats: the score grows by `10 * level`, new food is drawn off
the body, and the level may rise by one. Each new level takes 5 ms off the
tick interval, down to 50 ms. Without food the tail is dropped. Around the
tick sit the anti-reversal rule, the swipe decision, the frame throttle, the
pause/reset/start transitions and the high-score rule.

**Flappy** has one bird and a list of pipes on a canvas `h = floor(1.5 w)`
high. Each frame takes one Euler step under gravity (0.5 per frame). The bird
stops at the ceiling, and a bird that reaches the ground strip (the lowest
fifth) ends the run. The pipe clock adds each frame's elapsed time, and in
the first frame that takes it past 150 ms a pipe is generated and the clock
restarts at 0, so the excess over 150 ms is dropped. The pipes move left by the current speed and are dropped once off screen. The
collision test uses strict comparisons on a 20-pixel box. Each pipe got past
is scored once. The speed is `min(8, 5 + 0.1 * score)`, updated only when the
score lands on a new multiple of five.

Both games keep a list of short-lived particles, whose life counters tick down
(module `Particles`). Both also share the colour helper `hexToRgb` (module
`Color`), which is modelled with JavaScript's own `replace`, `substring`,
`parseInt(_, 16)` and number-to-text rules.

Each game has two parts:

- **A pure specification**, in modules `Snake` and `Flappy`. It gives the state
  as a datatype and the transitions as functions (`Snake.Tick`,
  `Flappy.Update`), with lemmas for the rules the code promises.
- **A class `Game`**, in modules `SnakeGame` and `FlappyGame`. Its fields are
  the game's global state object. Its methods change them step by step as the
  JavaScript functions do, and each method proves that its new `State()` is
  what the specification gives. The entry points (the constructor, the key
  and touch handlers, start, pause, reset and the frame loop with its
  update) establish the object invariant `Valid()` or, given it, keep it. The helper steps
  they call (`GenerateFood`, `MoveHead`, `LevelUp`, `UpdateParticles`,
  `GameOver`, and Flappy's `AdvanceFrame`, `RunPipeClock`, `SpeedUp`,
  `GeneratePipe`, `UpdatePipes`, `CheckCollisions`, `CheckScore`,
  `UpdateParticles`, `GameOver`) are specified by their new state alone; one
  of them called on its own can break `Valid()` (for example `LevelUp` can
  raise the level above `floor(score / 100) + 1`).

Random numbers are parameters:

- Snake's `generateFood` gets the sequence of candidate cells its retry loop
  would draw. Each candidate lies in the grid, and some candidate is off the
  body.
- Flappy's `generatePipe` gets the value `draw` of `Math.random()`, with
  `0 <= draw < 1`.

The clock (`performance.now()` or the animation-frame time) is a `real`
parameter. Flappy's positions and speeds are exact `real`s.

Points where the model follows the code rather than a tidier reading of it:

- The Snake level rises by at most one per tick. From level 11 on, one meal is
  worth more than 100 points, so the level can fall behind
  `floor(score / 100) + 1` (`Snake.LevelCanLag`).
- A Flappy collision ends the run, but the rest of the frame still runs.
  `checkScore` can then add a point after `flappyGameOver` has recorded the
  high score, so the recorded high score misses it
  (`Flappy.HighScoreCanMissLastPoint`).
- `hexToRgb` reads only `#rrggbb`. The death and collision bursts colour
  their particles `hsl(...)`, which comes out as `NaN, NaN, n`, with `n`
  read from the first two characters of the hue (`Color.HslIsNotParsed`).
- On a Snake grid smaller than 4 cells a side, the initial tail lies off the
  grid (`Snake.InitialBody`). The body invariant therefore holds only from 4
  cells a side up.

## Model

| member | source | states |
|---|---|---|
| Particles.Aged | script.js:556-576 | the aged list is no longer than the old one, and every particle left in it has a positive life |
| Particles.AgedSingle | script.js:569-574 | one particle survives exactly when its life was above one, with its life lowered by one |
| Particles.AgedAppend | script.js:562-575 | aging distributes over concatenation, so survivors keep their relative order |
| Particles.AgedMembers | script.js:569-574 | a particle is in the aged list iff it is the decremented form of an old particle whose new life is positive |
| Color.FirstIndex | script.js:1020 | the index found holds the character, and no earlier position does |
| Color.DropFirst | script.js:1020 | `replace('#', '')` leaves a string without `#` unchanged, and otherwise is one character shorter |
| Color.DropFirstRemovesFirst | script.js:1020 | `replace` cuts out exactly the first `#` and keeps everything else in order |
| Color.Substring | script.js:1023-1025 | `substring` is the slice `s[start..end]` when `end` is within the string, and never longer than `end - start` |
| Color.IsWhiteSpace | script.js:1023-1025 | the characters `parseInt` skips in front: tab, line feed, vertical tab, form feed, carriage return, space, no-break space, the Unicode space separators, the line and paragraph separators and the byte-order mark; used by `TrimStart` and `TrimStartDropsWhiteSpace` |
| Color.TrimStart | script.js:1023-1025 | what `parseInt` reads on from is a suffix of the text that does not start with white space |
| Color.TrimStartDropsWhiteSpace | script.js:1023-1025 | everything `parseInt` skips in front is white space |
| Color.DigitRun | script.js:1023-1025 | the digits `parseInt` reads are the longest prefix of hexadecimal digits |
| Color.NatText | script.js:1027 | a number prints as decimal digits with no leading zero |
| Color.NatTextRoundTrip | script.js:1027 | reading back the decimal text of `n` gives `n` |
| Color.HexChar | script.js:8-11 | each lower-case hexadecimal digit character parses to the digit value it encodes |
| Color.ParseIntHex | script.js:1023-1025 | `parseInt(_, 16)`: skip white space, an optional sign and `0x`, read the longest run of hex digits, NaN when there is none; pinned by the lemmas below |
| Color.HexValue | script.js:1023-1025 | the value of a run of hexadecimal digits read most significant first, each digit multiplying the value so far by 16; pinned by `ParseHexPair` and `ShortHexValues` |
| Color.NumberText | script.js:1027 | the template literal's text of an integer or NaN; pinned by `NatTextRoundTrip` |
| Color.HexToRgb | script.js:1018-1028 | `hexToRgb`: drop the first `#`, parse the slices [0, 2), [2, 4) and [4, 6) in base 16 and join them with ", "; pinned by the lemmas below |
| Color.PairValue | script.js:1023-1025 | two hexadecimal digits denote a channel value below 256 |
| Color.ParseHexPair | script.js:1023-1025 | `parseInt(_, 16)` of any two hexadecimal digits, upper or lower case, gives their value |
| Color.ParseHexByte | script.js:1023-1025 | `parseInt(_, 16)` reads back the two lower-case digits `HexByte` writes for a channel |
| Color.HexToRgbOfHexDigits | script.js:1018-1028 | `#` followed by any six hexadecimal digits, in either case, becomes the decimal text of its three digit pairs |
| Color.HexToRgbOfHexColor | script.js:1018-1028 | a colour written `#rrggbb` becomes the text `r, g, b` of its three channel values |
| Color.LevelUpColours | script.js:521 | the level-up colours `#FFD700` and `#FFA500` become `255, 215, 0` and `255, 165, 0` |
| Color.ParseIntHexOfNonDigit | script.js:1023-1025 | text starting with a character that is neither white space, a sign nor a hex digit parses to NaN |
| Color.HslIsNotParsed | script.js:624 | an `hsl(...)` colour comes out as `NaN, NaN` and a third value read from the first two characters of the hue |
| Color.ShortHexIsNotExpanded | script.js:1018-1028 | the three-digit form `#fff` is not expanded: it yields `255, 15, NaN` |
| Snake.Target | script.js:419-435 | the cell next to the head in the buffered direction; pinned by `TickMove` (a successful move puts the head there) and `NeverIntoNeck` |
| Snake.Eats | script.js:456 | the move succeeds and lands on the food; pinned by `TickMove` (the body grows by one iff it holds) and `TickScore` |
| Snake.Crashes | script.js:437-450 | the new head is off the grid or on a body cell; pinned by `TickCrash` and `TailIsSolid` |
| Snake.EndRun | script.js:579-594 | `gameOver`: the run ends and the high score becomes the larger of high score and score |
| Snake.Step | script.js:452-485 | the part of `updateGame` after the crash tests: push the head, then eat or drop the tail, then age the particles; pinned by `TickMove`, `TickScore`, `TickKeepsFood` |
| Snake.Tick | script.js:414-486 | `updateGame`: apply the buffered direction, then crash or step; pinned by the `Tick` lemmas below |
| Snake.NewRun | script.js:268-294 | `resetGameState`: three cells at the centre heading right, score 0, level 1, interval 150, food from the draws; pinned by `NewRunIsValid` |
| Snake.GridCount | script.js:438 | the grid has the largest cell count whose cells of 20 pixels fit in the canvas width |
| Snake.Accepts | script.js:241-251 | a requested direction is accepted iff it is not the reverse of the current direction |
| Snake.SwipeDirection | script.js:150-174 | the longer axis of the swipe decides (a tie counts as vertical), its sign picks the direction, and a direction that reverses the current one is never asked for; each of the four outcomes is characterised both ways |
| Snake.NextHead | script.js:419-435 | the new head is a grid neighbour of the old head |
| Snake.SpeedForLevel | script.js:489-493 | the tick interval is 5 ms shorter per level, never below 50 and never above 150, and stays above 50 exactly until level 21 |
| Snake.HighScoreAfter | script.js:589-594 | the new high score is the larger of the old high score and the score |
| Snake.InitialBody | script.js:268-276 | a new run has three distinct cells in a row, each one step right of the next, heading right, and lies inside the grid iff the grid has at least 4 cells a side |
| Snake.FirstFree | script.js:297-316 | the food is off the body and is the first candidate draw that is off the body |
| Snake.NewRunIsValid | script.js:268-294 | a new run starts with score 0, level 1, interval 150, three distinct cells, and food on a free grid cell |
| Snake.TickCrash | script.js:437-450 | a crash ends the run, leaves the body, score and food unchanged, and raises the high score to the score if beaten |
| Snake.TailIsSolid | script.js:444-450 | moving into the tail cell is a crash, even though the tail would have moved away |
| Snake.TickMove | script.js:452-482 | a successful move pushes the new head; the body grows by exactly one cell when eating and keeps its length otherwise, losing its tail |
| Snake.TickKeepsBody | script.js:437-482 | a tick keeps the body free of repeated cells and inside the grid |
| Snake.TickKeepsFood | script.js:297-316 | after a tick the food is still off the body and inside the grid |
| Snake.TickScore | script.js:456-472 | eating adds 10 times the old level; the level rises by at most one, exactly when the snake eats and `floor(score / 100) + 1` of the new score exceeds the old level; the interval stays in [50, 150] |
| Snake.LevelCanLag | script.js:469-471 | from score 1390 at level 14, which a run reaches, one meal gives score 1530 but only level 15 |
| Snake.TickPreservesInvariant | script.js:414-486 | a tick of a running game keeps the whole game invariant |
| Snake.NeverIntoNeck | script.js:241-251 | the anti-reversal rule keeps the next head off the snake's second cell |
| Snake.FullGridAlwaysCrashes | script.js:437-450 | when the body covers the whole grid, every move crashes |
| SnakeGame.KeyDirection | script.js:223-236 | the four arrow keys ask for up, down, left and right, and every other key for no direction; pinned by `SnakeGame.Game.HandleKeyPress` |
| SnakeGame.OnSnake | script.js:445-450 | the scan over the body finds a hit iff the cell is on the body |
| SnakeGame.PickFood | script.js:297-316 | the do-while retry loop returns the first candidate draw that is off the body |
| SnakeGame.Game.constructor | script.js:17-36 | the page starts with no run (game over), level 1, interval 150 and the stored high score |
| SnakeGame.Game.ChangeDirection | script.js:241-251 | the buffered direction becomes the request iff it does not reverse the current direction, and it never reverses it |
| SnakeGame.Game.Swipe | script.js:150-174 | in a running, unpaused game a swipe buffers the direction the swipe decision gives; otherwise nothing changes |
| SnakeGame.Game.GenerateFood | script.js:297-320 | the food becomes the first candidate draw that is off the body |
| SnakeGame.Game.ResetGameState | script.js:268-294 | the state becomes a new run with the high score carried over, and the invariant holds |
| SnakeGame.Game.StartGame | script.js:254-265 | a new run is set up and the clock is set to `now` |
| SnakeGame.Game.TogglePause | script.js:346-362 | nothing changes once the run is over; otherwise only the pause flag flips, and resuming sets the clock to `now` |
| SnakeGame.Game.ResetGame | script.js:365-379 | the run is stopped and nothing else changes |
| SnakeGame.Game.GameLoop | script.js:393-411 | nothing happens while over or paused; a tick happens, and the clock moves, exactly when more than `speed` ms have passed |
| SnakeGame.Game.UpdateGame | script.js:414-486 | the new state is the tick of the old state, and the invariant is kept |
| SnakeGame.Game.MoveHead | script.js:452-485 | the new head is pushed; on food the score grows by 10 times the level, new food is drawn and the level-up rule runs, otherwise the tail is dropped; the particles age |
| SnakeGame.Game.LevelUp | script.js:489-493 | the level rises by one and the interval becomes the formula's value for the new level |
| SnakeGame.Game.UpdateParticles | script.js:556-576 | the backward splice loop leaves exactly the aged list |
| SnakeGame.Game.GameOver | script.js:579-594 | the run ends and the high score becomes the larger of high score and score |
| SnakeGame.Game.HandleKeyPress | script.js:207-238 | space pauses or resumes a running game; enter starts a run when none is going; arrows steer a running, unpaused snake; every other case leaves the state unchanged |
| Flappy.CanvasHeight | flappy.js:96-99 | the canvas height is one and a half times the width, rounded down to whole pixels |
| Flappy.Fall | flappy.js:379-383 | one Euler step: the velocity grows by 0.5, the bird moves by the new velocity, and the tilt follows it; pinned by `UpdateFlight` and `JumpThenFall` |
| Flappy.NewPipe | flappy.js:435-459 | `generatePipe`'s pipe; pinned by `NewPipeGeometry` |
| Flappy.MovePipe | flappy.js:465-474 | one pipe moved left by the speed, its highlight timer run down; pinned by `MovePipeHighlight` |
| Flappy.GroundLine | flappy.js:386-387 | the top of the ground strip lies a fifth of the canvas height above the bottom; pinned by `UpdateHitsGround` and `NewPipeGeometry` |
| Flappy.OffScreen | flappy.js:478 | a pipe is off screen once its right edge is strictly left of x = 0; pinned by `MovedPipes` and `MovedPipesMembers` |
| Flappy.HitsAnyPipe | flappy.js:487-496 | some pipe in the list collides with the bird; pinned by `UpdateFlight` and `HighScoreCanMissLastPoint` |
| Flappy.CollisionCheck | flappy.js:485-511 | `checkCollisions`: the run ends, with the high-score rule, iff the bird overlaps some pipe; pinned by `UpdateFlight` and `FlappyGame.Game.CheckCollisions` |
| Flappy.Passes | flappy.js:542 | a pipe not yet scored whose right edge is strictly left of the bird; pinned by `NewlyPassedCounts` and `ScorePipesMarks` |
| Flappy.ScoreCheck | flappy.js:537-546 | `checkScore`: the pipes got past are marked and the score rises by their number; pinned by `NewlyPassedCounts`, `ScorePipesMarks` and `FlappyGame.Game.CheckScore` |
| Flappy.Collides | flappy.js:489-496 | the strict box-overlap test; pinned by `EdgesDoNotCollide` and `CheckCollisions` |
| Flappy.ScorePipe | flappy.js:540-545 | a pipe newly got past is marked passed and highlighted for 10 frames, any other pipe is unchanged; pinned by `ScorePipesMarks` |
| Flappy.SpeedFor | flappy.js:420 | `min(8, 5 + 0.1 * score)`; pinned by `SpeedForBounds` |
| Flappy.NewRun | flappy.js:275-300 | `resetFlappyGameState`: the bird at (w / 5, h / 2) at rest, no pipes, score 0, speed 5; pinned by `ResetState` |
| Flappy.PipeClock | flappy.js:399-404 | the pipe clock step: add the elapsed time, and past 150 ms generate a pipe and restart at 0; pinned by `UpdateScore` |
| Flappy.SpeedRule | flappy.js:419-423 | the speed rule step; pinned by `UpdatePreservesInvariant` |
| Flappy.Advance | flappy.js:399-423 | the rest of the frame once the bird is in the air: pipe clock, move, collisions, scoring, particles, speed rule |
| Flappy.Update | flappy.js:367-424 | `updateFlappyGame`: fall, end the run at the ground, stop at the ceiling, then the rest of the frame; pinned by `UpdateHitsGround`, `UpdateFlight`, `UpdateScore` and `UpdatePreservesInvariant` |
| Flappy.Rotation | flappy.js:383 | the tilt is a twentieth of the velocity, clamped to [-1, 1] |
| Flappy.Share | flappy.js:443 | a random share of a positive span stays within [0, span) |
| Flappy.MovedPipes | flappy.js:462-482 | no pipe left after moving is off screen, and the list does not grow |
| Flappy.ScorePipes | flappy.js:537-546 | scoring keeps one pipe for every pipe, in place |
| Flappy.NewlyPassed | flappy.js:540-543 | the points awarded are between 0 and the number of pipes |
| Flappy.EndRun | flappy.js:601-608 | game over sets only the game-over flag and the high score, which becomes the larger of high score and score |
| Flappy.SpeedForBounds | flappy.js:419-422 | the speed formula stays in [5, 8] and never decreases as the score grows |
| Flappy.UpdateHitsGround | flappy.js:379-391 | a bird below the ground line is put on it, the run ends with the high-score rule, and nothing else of the frame happens |
| Flappy.UpdateFlight | flappy.js:379-397 | in the air the velocity grows by 0.5 and the bird moves by the new velocity; at the ceiling it is stopped at y = 0 without ending the run; a collision with a moved pipe ends the run |
| Flappy.JumpThenFall | flappy.js:379-380 | a jump followed by one frame leaves the bird rising at 7.5 pixels per frame |
| Flappy.NewPipeGeometry | flappy.js:435-459 | a new pipe starts at the right edge, unscored and unhighlighted, with its gap top in [50, h/2), a gap of 150 and its bottom half ending at the ground line |
| Flappy.FractionBelow | flappy.js:443 | a draw in [0, 1) times a positive span is below the span |
| Flappy.MovedPipesAppend | flappy.js:462-482 | moving distributes over concatenation, so surviving pipes keep their order |
| Flappy.MovedPipesMembers | flappy.js:462-482 | a pipe is in the moved list iff it is the moved form of an old pipe and is not off screen |
| Flappy.MovePipeHighlight | flappy.js:466-474 | a highlighted pipe's timer drops by one, and the highlight clears once the timer reaches zero |
| Flappy.EdgesDoNotCollide | flappy.js:489-496 | touching a pipe's edge, or flying inside its gap, is no collision |
| Flappy.HighScoreCanMissLastPoint | flappy.js:407-413 | from a state `generatePipe` can produce and with no overlap yet, a frame with both a collision and a newly passed pipe ends with score 1 and high score 0 |
| Flappy.NewlyPassedCounts | flappy.js:537-546 | the points awarded equal the number of pipes newly got past |
| Flappy.NothingNewlyPassed | flappy.js:540-543 | no point is awarded iff no pipe is newly got past |
| Flappy.ScorePassStep | flappy.js:540-545 | scoring the next pipe in place extends the scored prefix by that pipe and the points by one iff it is newly got past |
| Flappy.ScorePipesMarks | flappy.js:537-546 | after scoring, each pipe is marked passed iff it was passed before or the bird is beyond its right edge; its geometry is unchanged |
| Flappy.ScoreOnce | flappy.js:540-544 | a pipe once scored is never scored again, and a second scoring pass changes nothing |
| Flappy.UpdatePreservesInvariant | flappy.js:367-424 | a frame keeps the invariant and never lowers the score or the speed; the speed stays in [5, 8] and changes only when the score lands on a new multiple of five |
| Flappy.UpdateScore | flappy.js:398-417 | the score grows by one per moved pipe got past, the pipes are the scored moved list, the particles are aged, and the pipe timer restarts at 0 after a pipe |
| FlappyGame.ScorePass | flappy.js:537-560 | the loop over the pipes returns the scored list and one point per pipe newly got past |
| FlappyGame.Game.constructor | flappy.js:21-41 | the page starts with no run (game over), the initial speed and the stored high score, on a canvas of the given width |
| FlappyGame.Game.HandleKeyPress | flappy.js:203-220 | space resumes a paused run or makes the bird jump in a running one; enter starts a run when none is going; every other case changes nothing |
| FlappyGame.Game.Jump | flappy.js:223-236 | in a running, unpaused game the velocity becomes -8 whatever it was; otherwise nothing changes |
| FlappyGame.Game.Start | flappy.js:261-272 | a new run starts, and its first frame runs with no time elapsed |
| FlappyGame.Game.ResetState | flappy.js:275-300 | the state becomes a new run with the high score carried over, and the invariant holds |
| FlappyGame.Game.TogglePause | flappy.js:303-319 | nothing changes once the run is over; pausing only sets the flag; resuming sets the clock to `now` and runs a frame |
| FlappyGame.Game.Reset | flappy.js:322-336 | the run is stopped and nothing else changes |
| FlappyGame.Game.GameLoop | flappy.js:350-364 | nothing happens while over or paused; otherwise one frame runs with the time since the last frame, and the clock moves |
| FlappyGame.Game.UpdateGame | flappy.js:367-424 | the new state is the update of the old state, and the invariant is kept |
| FlappyGame.Game.AdvanceFrame | flappy.js:399-417 | the steps after the bird has moved are the pipe clock, moving, collisions, scoring, particles and the speed rule, in order |
| FlappyGame.Game.RunPipeClock | flappy.js:399-404 | past 150 ms a pipe is generated and the clock restarts at 0, dropping the excess |
| FlappyGame.Game.SpeedUp | flappy.js:419-423 | the speed rule changes speed and last score only when the score is above the last change and a multiple of five |
| FlappyGame.Game.GeneratePipe | flappy.js:435-459 | one new pipe is appended, with its gap top in [50, h/2) whenever h/2 > 50 |
| FlappyGame.Game.UpdatePipes | flappy.js:462-482 | the backward splice loop leaves exactly the moved list |
| FlappyGame.Game.CheckCollisions | flappy.js:485-511 | the run ends, with the high-score rule, iff the bird overlaps some pipe |
| FlappyGame.Game.CheckScore | flappy.js:537-560 | the pipes become the scored list and the score grows by the points awarded |
| FlappyGame.Game.UpdateParticles | flappy.js:578-598 | the backward splice loop leaves exactly the aged list |
| FlappyGame.Game.GameOver | flappy.js:601-619 | the run ends and the high score becomes the larger of high score and score |

## Left out

- Drawing (`draw*`, `drawGrid`, gradients, stars, clouds), the background and ground scroll offsets, and the star twinkle: presentation only.
- DOM lookups, event-listener registration, button states and texts, `setTimeout` screens: platform glue.
- `localStorage`: the stored high score is an integer argument of the constructors. The source reads it as a string (`getItem(...) || 0`), and that coercion is host behaviour.
- Web Audio (`createSound`, `toggleSound`, `toggleFlappySound`): fire-and-forget foreign calls.
- `requestAnimationFrame` and `cancelAnimationFrame`: one call of a `GameLoop` method stands for one scheduled frame, with the frame time as its argument.
- Canvas resizing (`resizeCanvas`, `resizeFlappyCanvas`, and the reset a Flappy resize makes): the canvas size is fixed when the game object is built.
- IEEE double rounding: Flappy positions, speeds and the 0.1 speed step are exact reals.
- Particle spawning (`createFoodParticles`, `createScoreParticles`, `createLevelUpEffect`, `createDeathEffect`, `createJumpParticles`, `createCollisionParticles`), and particle position, speed and damping. Their geometry is cosmetic random floating point, and only the life counter and the removal rule are modelled.
- SnakeGame.Game.UpdateGame: does not add the score and level-up particles the source adds when the snake eats.
- SnakeGame.Game.MoveHead: does not add the score particles either; it is the part of `updateGame` after the crash tests.
- SnakeGame.Game.GenerateFood: does not add the food-appearance particles. It also requires some candidate draw to be off the body, because with the grid full the source's retry loop never ends.
- SnakeGame.Game.GameOver: does not add the death-effect particles.
- FlappyGame.Game.Jump: does not add the jump particles.
- FlappyGame.Game.CheckCollisions: does not add the collision particles.
- FlappyGame.Game.CheckScore: does not add the "+1" particles.
- SnakeGame.Game.constructor: the source starts with an empty food object (`food: {}`), and the model uses the cell (0, 0); no rule reads the food before a run starts.
- The two files both declare global `hexToRgb` and `createScoreParticles`, and the later script's definitions win on a page that loads both. Each file is treated as its own program. The two `hexToRgb` copies (script.js:1018-1028, flappy.js:967-977) are identical and modelled once.
- Number-to-text for magnitudes of 10^21 and above (exponent notation) is not modelled: `parseInt` of at most two digits stays far below it.
