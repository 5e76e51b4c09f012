/** The ball: its motion and the speed ramp (class `Ball`). */
module BallMotion {
  import opened Constants
  import opened Geometry

  /** Velocity, the circle drawn on screen, and the seconds accumulated since the ball was made. */
  datatype Ball = Ball(velocity: Vec2, circle: Circle, elapsedTime: real)

  /** The speed the ball is driven at after `t` seconds: the initial speed plus
      the per-second increment, never more than the maximum speed. */
  function TargetSpeed(t: real): (s: real)
    ensures s <= MAX_SPEED
    ensures 0.0 <= t ==> INITIAL_SPEED <= s
  {
    var ramped := INITIAL_SPEED + t * SPEED_INCREMENT;
    if MAX_SPEED < ramped then MAX_SPEED else ramped
  }

  /** The ramp never slows the ball down as time goes on. */
  lemma TargetSpeedMonotone(t1: real, t2: real)
    requires t1 <= t2
    ensures TargetSpeed(t1) <= TargetSpeed(t2)
  {
  }

  /** The ramp is capped exactly from the moment the increments have covered the
      gap between initial and maximum speed (twenty seconds), and strictly
      increasing before that. */
  lemma TargetSpeedCap(t1: real, t2: real)
    ensures TargetSpeed(t1) == MAX_SPEED <==> (MAX_SPEED - INITIAL_SPEED) / SPEED_INCREMENT <= t1
    ensures t1 < t2 && TargetSpeed(t1) < MAX_SPEED ==> TargetSpeed(t1) < TargetSpeed(t2)
  {
  }

  /** The live constructor: the ball starts at (400, 400) with radius 8, moving
      straight up at the speed the ramp prescribes for time zero. */
  function NewBall(): (b: Ball)
    ensures b.elapsedTime == 0.0
    ensures b.velocity.x == 0.0 && b.velocity.y < 0.0
    ensures -b.velocity.y == TargetSpeed(b.elapsedTime)
  {
    Ball(Vec2(0.0, -INITIAL_SPEED), Circle(BALL_START_X, BALL_START_Y, BALL_RADIUS), 0.0)
  }

  /** `Ball::Update` for a frame of `dt` seconds: the clock advances by `dt`, the
      velocity is rescaled to the ramped speed for the new time without turning,
      and the ball moves by the rescaled velocity times `dt`. */
  function Update(b: Ball, dt: real, len: Vec2 -> real): (r: Ball)
    ensures r.elapsedTime == b.elapsedTime + dt
    ensures r.circle == MoveBy(b.circle, Times(r.velocity, dt))
    ensures NormLaws(len) && b.velocity != Vec2(0.0, 0.0) && 0.0 <= r.elapsedTime ==>
              && len(r.velocity) == TargetSpeed(r.elapsedTime)
              && Cross(r.velocity, b.velocity) == 0.0
              && SameSigns(r.velocity, b.velocity)
  {
    var t := b.elapsedTime + dt;
    var v := SetLength(b.velocity, TargetSpeed(t), len);
    Ball(v, MoveBy(b.circle, Times(v, dt)), t)
  }
}
