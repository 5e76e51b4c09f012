/** The tuning constants of the game, as declared in its `constants` namespace
    together with the literal numbers its classes use. */
module Constants {

  /** Brick size (`constants::brick::SIZE`). */
  const BRICK_WIDTH: int := 40
  const BRICK_HEIGHT: int := 20

  /** Number of brick rows and columns, and their product. */
  const Y_COUNT: nat := 5
  const X_COUNT: nat := 20
  const MAX: nat := Y_COUNT * X_COUNT

  /** Screen row of the top edge of the first brick row. */
  const BRICK_TOP: int := 60

  /** How far up a hit brick is moved to take it out of play. */
  const REMOVAL_OFFSET: int := 600

  /** Ball speeds, in pixels per second, and the ramp rate, in pixels per second per second. */
  const INITIAL_SPEED: real := 400.0
  const SPEED_INCREMENT: real := 10.0
  const MAX_SPEED: real := 600.0

  /** Where a new ball is placed, and its radius. */
  const BALL_START_X: real := 400.0
  const BALL_START_Y: real := 400.0
  const BALL_RADIUS: real := 8.0

  /** Paddle size (`constants::paddle::SIZE`) and the screen row its centre sits on. */
  const PADDLE_WIDTH: int := 60
  const PADDLE_HEIGHT: int := 10
  const PADDLE_CENTER_Y: int := 500

  /** Gain applied to the ball's horizontal offset from the paddle centre on a paddle bounce. */
  const DEFLECTION_GAIN: real := 10.0
}
