/** Reflection off the ceiling and the side walls (struct `Wall`). */
module Wall {
  import opened Geometry
  import opened BallMotion

  /** Moving up while above the ceiling. */
  predicate HitsCeiling(ball: Ball) {
    ball.circle.y < 0.0 && ball.velocity.y < 0.0
  }

  /** Moving left while past the left wall, or right while past the right wall at `width`. */
  predicate HitsSide(ball: Ball, width: int) {
    || (ball.circle.x < 0.0 && ball.velocity.x < 0.0)
    || (width as real < ball.circle.x && 0.0 < ball.velocity.x)
  }

  /** `Wall::Intersects`. The vertical velocity changes exactly when the ball
      moves up above the ceiling and the horizontal velocity exactly when it
      moves outward past a side wall; each change is a negation, and position
      and clock are kept. Afterwards a ball above the ceiling is not
      moving up, and with a non-negative width a ball past a side wall is not
      moving further out. */
  function Intersects(ball: Ball, width: int): (r: Ball)
    ensures r.circle == ball.circle && r.elapsedTime == ball.elapsedTime
    ensures r.velocity.y != ball.velocity.y <==> HitsCeiling(ball)
    ensures r.velocity.x != ball.velocity.x <==> HitsSide(ball, width)
    ensures r.velocity.y == ball.velocity.y || r.velocity.y == -ball.velocity.y
    ensures r.velocity.x == ball.velocity.x || r.velocity.x == -ball.velocity.x
    ensures ball.circle.y < 0.0 ==> 0.0 <= r.velocity.y
    ensures 0 <= width && ball.circle.x < 0.0 ==> 0.0 <= r.velocity.x
    ensures 0 <= width && width as real < ball.circle.x ==> r.velocity.x <= 0.0
  {
    var v := ball.velocity;
    var afterCeiling := if HitsCeiling(ball) then FlipY(v) else v;
    var afterSides := if HitsSide(ball, width) then FlipX(afterCeiling) else afterCeiling;
    ball.(velocity := afterSides)
  }

  /** Reflection only mirrors the velocity, so its length is kept. */
  lemma IntersectsKeepsSpeed(ball: Ball, width: int, len: Vec2 -> real)
    requires NormLaws(len)
    ensures len(Intersects(ball, width).velocity) == len(ball.velocity)
  {
  }

  /** With a non-negative width one reflection settles the ball: reflecting again changes nothing. */
  lemma IntersectsIdempotent(ball: Ball, width: int)
    requires 0 <= width
    ensures Intersects(Intersects(ball, width), width) == Intersects(ball, width)
  {
  }

  /** The non-negative width is needed: on a negative-width screen a ball left
      of the left wall but right of the "right wall" is sent back and forth. */
  lemma NegativeWidthNotIdempotent()
    ensures var ball := Ball(Vec2(-50.0, 0.0), Circle(-1.0, 100.0, 8.0), 0.0);
            Intersects(Intersects(ball, -10), -10) != Intersects(ball, -10)
  {
  }
}
