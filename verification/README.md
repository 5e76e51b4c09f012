# Breakout game logic, modelled in Dafny

This project models the game logic of a small Siv3D breakout game
(`PS22b_Shinochi_2024T1/Main.cpp`). A paddle follows the cursor and
bounces a ball into a 5 × 20 grid of bricks. A brick that is hit is taken
out of play. The ball bounces off the ceiling and the side walls. The game
is over once the ball falls below the screen, and the R key restarts it.

The model is functional. Ball, paddle and brick table are immutable values,
and each of the program's update and collision routines is a pure function.
One pass of `Main`'s inner frame loop is the function `Game.Frame`.

| module | file | models |
|---|---|---|
| `Constants` | `constants.dfy` | the `constants` namespace and the literal numbers in the classes |
| `Geometry` | `geometry.dfy` | `Vec2`, `Circle`, `Rect`; `Vec2::setLength`, `Rect::center` (as `CenterX`) and `Circle::moveBy` (as `MoveBy`), defined concretely; and the engine services taken as parameters |
| `BallMotion` | `ball.dfy` | class `Ball`: the constructor, the speed ramp and `Update` |
| `Bricks` | `bricks.dfy` | class `Bricks`: the constructor and `Intersects` |
| `Paddle` | `paddle.dfy` | class `Paddle`: the constructor, `Update` and `Intersects` |
| `Wall` | `wall.dfy` | struct `Wall`: `Intersects` |
| `Game` | `game.dfy` | the `gameOver` flag, restart, and one frame of `Main` |

## How the engine is represented

- Ball position, velocity and time are `real`s, standing for the program's
  `double`s. Rectangles keep the engine's integer `Rect`. The cursor's
  x coordinate and the screen width and height are integers too.
- The engine's geometry tests are function values in an `Engine` record.
  These are `Rect::intersects(Circle)`, the bottom-edge test and the
  top-edge test. The model never re-derives them. Every property holds
  whatever these tests answer.
- `Vec2::length` is also a function value in `Engine`. Facts about speed
  assume `NormLaws`. Under these laws a length is never negative, and it is
  zero only for the zero vector. The unit vertical vector has length one.
  Positive scaling scales the length, and mirroring in either axis keeps it.
  The Euclidean length satisfies all of these laws, so no square root
  appears anywhere.
- `Vec2::setLength` returns a zero vector unchanged and scales any other
  vector by `l / length`. This is the engine's own behaviour, taken as given.
- Some engine geometry is defined concretely. `Rect::center` is `CenterX`,
  and `Circle::moveBy` is `MoveBy`. A paddle built with
  `Rect(Arg::center(x, 500), SIZE)` gets its top-left corner at the centre
  minus half the size, in integer arithmetic, as Siv3D's
  `Rect(Arg::center, Size)` does.
- Delta time, the cursor, the screen size and the R key are the fields of
  `Game.Input`, one value per frame.

## Where the model follows the code rather than the comments

- Inside `if (!gameOver)` there is only the lose check (Main.cpp:205-214).
  The paddle, ball and collision updates at Main.cpp:218-226 run every
  frame, also after the game is over. `Game.Frame` does the same, and
  `Game.UpdatesIgnoreGameOver` states it. The comment at Main.cpp:204 says
  updating happens only while the game is not over, and the placeholder
  comment at Main.cpp:207 marks where the updates were meant to go. The code
  does not skip them.
- The lose check looks at the ball's position from the end of the previous
  frame. It runs before this frame's move.
- Only the ramp-up `Ball` constructor is live (Main.cpp:58). The fixed-speed
  constructor at Main.cpp:53 is commented out, so `SPEED` is unused.
- `gameOver` is declared inside the outer `while`. The inner loop ends only
  when `System::Update()` returns false, which is when the program exits.
  So the flag is set to false once, at start-up.
- A restart happens at the end of the same frame in which R is pressed.
  The new paddle is centred on that frame's cursor.

## Model

| member | source | states |
|---|---|---|
| Geometry.SetLength | PS22b_Shinochi_2024T1/Main.cpp:66 | a zero-length vector is kept; any other vector set to a positive length has exactly that length afterwards and keeps its direction (parallel, same component signs) |
| BallMotion.NewBall | PS22b_Shinochi_2024T1/Main.cpp:58 | the live constructor: the clock starts at zero and the ball moves straight up at the ramp's speed for time zero |
| BallMotion.TargetSpeed | PS22b_Shinochi_2024T1/Main.cpp:65 | the ramped speed never exceeds `MAX_SPEED` and is at least `INITIAL_SPEED` for any non-negative elapsed time |
| BallMotion.TargetSpeedMonotone | PS22b_Shinochi_2024T1/Main.cpp:65 | the ramped speed is non-decreasing in elapsed time |
| BallMotion.TargetSpeedCap | PS22b_Shinochi_2024T1/Main.cpp:65 | the speed is capped exactly from (600 − 400) / 10 = 20 seconds on, and strictly increases before the cap |
| BallMotion.Update | PS22b_Shinochi_2024T1/Main.cpp:61-69 | the clock advances by exactly the frame time; the velocity gets the ramped speed for the new time without turning; the ball moves by the new velocity times the frame time |
| Bricks.Layout | PS22b_Shinochi_2024T1/Main.cpp:83-96 | the table has 100 bricks; the brick of column `x`, row `y` sits at index `y*20+x`, is 40×20, with left edge `x*40` and top edge `60+y*20` |
| Bricks.Build | PS22b_Shinochi_2024T1/Main.cpp:83-96 | the constructor's two nested loops fill exactly the table `Layout` describes |
| Bricks.FirstHit | PS22b_Shinochi_2024T1/Main.cpp:102-107 | the scan returns the lowest index whose brick intersects the ball, or reports that no brick does |
| Bricks.Intersects | PS22b_Shinochi_2024T1/Main.cpp:99-127 | with no brick hit nothing changes; otherwise only the lowest-index brick hit moves up by 600 and no other brick changes, and exactly one velocity component is negated: the vertical one if the brick's top or bottom edge is touched, else the horizontal one; position, clock and speed are kept |
| Bricks.HitHasFirst | PS22b_Shinochi_2024T1/Main.cpp:102-107 | whenever some brick intersects the ball there is a lowest-index one, so the two cases of `Intersects` cover every table |
| Bricks.AtMostOneBrickPerCall | PS22b_Shinochi_2024T1/Main.cpp:102-125 | the set of changed table entries is empty when no brick is hit and is exactly the first brick hit otherwise, even when the ball overlaps several bricks |
| Bricks.LayoutAllLive | PS22b_Shinochi_2024T1/Main.cpp:83-96 | a freshly built table is well formed and every brick in it is in play |
| Bricks.RemovedBricksOffScreen | PS22b_Shinochi_2024T1/Main.cpp:121 | in a well-formed table, every brick out of play lies wholly above the top of the screen |
| Bricks.IntersectsKeepsWellFormed | PS22b_Shinochi_2024T1/Main.cpp:104-124 | a collision keeps every brick at its cell or at least 600 above it, never puts a brick back in play, and hitting a brick in play takes exactly that brick out of play |
| Paddle.NewPaddle | PS22b_Shinochi_2024T1/Main.cpp:144 | a new paddle is 60×10, centred on the cursor's x and on row 500 |
| Paddle.Update | PS22b_Shinochi_2024T1/Main.cpp:158-160 | only the left edge moves, to half a paddle width left of the cursor; a 60-wide paddle is then centred on the cursor; row and size are kept |
| Paddle.Intersects | PS22b_Shinochi_2024T1/Main.cpp:147-155 | nothing changes unless the ball moves down and touches the paddle; then the ball leaves upward at exactly `INITIAL_SPEED`, its horizontal direction has the sign of its offset from the paddle centre, and it travels along (offset × 10, reversed vertical speed) |
| Wall.Intersects | PS22b_Shinochi_2024T1/Main.cpp:171-184 | the vertical velocity changes iff the ball is above the ceiling moving up, and the horizontal iff it is past a side wall moving outward; each change is a negation; afterwards a ball above the ceiling is not moving up, and, for a non-negative screen width, a ball past a side wall is not moving further out |
| Wall.IntersectsKeepsSpeed | PS22b_Shinochi_2024T1/Main.cpp:171-184 | a wall bounce keeps the ball's speed |
| Wall.IntersectsIdempotent | PS22b_Shinochi_2024T1/Main.cpp:171-184 | with a non-negative screen width, bouncing twice gives the same result as bouncing once |
| Wall.NegativeWidthNotIdempotent | PS22b_Shinochi_2024T1/Main.cpp:179-180 | for a negative screen width the bounce is not idempotent, so the width premise is needed |
| Game.Start | PS22b_Shinochi_2024T1/Main.cpp:247-251 | the state a restart rebuilds, which is also the start-up state built at Main.cpp:190-192 with the flag cleared at Main.cpp:200: not game over, every brick in play, and a valid session |
| Game.Frame | PS22b_Shinochi_2024T1/Main.cpp:200-252 | the flag is on after a frame iff it was on or the ball was below the screen, and R was not pressed; R while game over restores the starting state; otherwise the paddle follows the cursor and the clock advances, game over or not |
| Game.UpdatesIgnoreGameOver | PS22b_Shinochi_2024T1/Main.cpp:205-226 | without a restart, a frame moves the paddle, the ball and the bricks the same way whether or not the game is over |
| Game.FrameKeepsValid | PS22b_Shinochi_2024T1/Main.cpp:218-226 | with a non-negative frame time, every frame keeps the brick table well formed, the paddle's size and row, a non-negative clock and a speed between 400 and 600, and leaves the paddle centred on the cursor |

## Left out

- Drawing is left out because it is pure rendering. This covers every `Draw`
  method, the `HSV` colours, `stretched` and `rounded`, and the font asset
  with the "GameOver" text.
- The engine's geometry tests and its vector length are taken as given and
  not modelled. This covers `Rect::intersects(Circle)`, the `bottom()` and
  `top()` edge tests, and `Vec2::length`.
- The frame scheduler is left out. The two nested `while (System::Update())`
  loops are not modelled, and the model covers one frame.
- The model does not use floating point. Doubles are exact reals, so rounding
  in `setLength` and in the motion is not modelled. Speed results are
  therefore exact under `NormLaws`.
- Integer overflow is not modelled. Each hit on a brick subtracts 600 from its
  32-bit `y`, and this would wrap only after millions of hits on the same brick.
- `SPEED` and the fixed-speed `Ball` constructor are left out. They are
  commented-out code.
