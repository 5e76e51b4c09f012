/** The paddle: cursor tracking and the angled bounce (class `Paddle`). */
module Paddle {
  import opened Constants
  import opened Geometry
  import opened BallMotion

  /** The `Paddle` constructor: a 60 by 10 rectangle centred on the cursor's
      horizontal position and on screen row 500. */
  function NewPaddle(cursorX: int): (p: Rect)
    ensures p.w == PADDLE_WIDTH && p.h == PADDLE_HEIGHT
    ensures CenterX(p) == cursorX as real
    ensures p.y + p.h / 2 == PADDLE_CENTER_Y
  {
    Rect(cursorX - PADDLE_WIDTH / 2, PADDLE_CENTER_Y - PADDLE_HEIGHT / 2, PADDLE_WIDTH, PADDLE_HEIGHT)
  }

  /** `Paddle::Update`: only the left edge moves, to half a paddle width left of
      the cursor, so a paddle of the configured width is centred on the cursor
      and its row and size stay as they were. */
  function Update(p: Rect, cursorX: int): (r: Rect)
    ensures r.y == p.y && r.w == p.w && r.h == p.h
    ensures r.x + PADDLE_WIDTH / 2 == cursorX
    ensures p.w == PADDLE_WIDTH ==> CenterX(r) == cursorX as real
  {
    p.(x := cursorX - PADDLE_WIDTH / 2)
  }

  /** The paddle reacts only to a ball moving down that touches it. */
  predicate Fires(p: Rect, ball: Ball, e: Engine) {
    0.0 < ball.velocity.y && e.intersects(p, ball.circle)
  }

  /** The unscaled bounce direction: horizontal offset from the paddle centre
      times the gain, and the vertical velocity reversed. */
  function Deflection(p: Rect, ball: Ball): Vec2 {
    Vec2((ball.circle.x - CenterX(p)) * DEFLECTION_GAIN, -ball.velocity.y)
  }

  /** `Paddle::Intersects`. When it does not fire the ball is untouched. When it
      fires, only the velocity changes: with a true length, the ball leaves
      upward at exactly the initial speed, heading left of the centre line when
      it hit left of the paddle centre, right when right, straight up when dead
      centre, along the direction (offset times gain, reversed vertical speed). */
  function Intersects(p: Rect, ball: Ball, e: Engine): (r: Ball)
    ensures r.circle == ball.circle && r.elapsedTime == ball.elapsedTime
    ensures !Fires(p, ball, e) ==> r == ball
    ensures Fires(p, ball, e) && NormLaws(e.length) ==>
              && r.velocity.y < 0.0
              && e.length(r.velocity) == INITIAL_SPEED
              && Sign(r.velocity.x) == Sign(ball.circle.x - CenterX(p))
              && Cross(r.velocity, Deflection(p, ball)) == 0.0
  {
    if Fires(p, ball, e) then
      var d := Deflection(p, ball);
      ball.(velocity := SetLength(d, INITIAL_SPEED, e.length))
    else
      ball
  }
}
