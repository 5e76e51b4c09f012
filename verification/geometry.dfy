/** The engine's geometry values, and the engine services the game relies on
    but does not implement, taken as parameters. */
module Geometry {

  /** A 2-D vector of doubles (the engine's `Vec2`). */
  datatype Vec2 = Vec2(x: real, y: real)

  function Times(v: Vec2, k: real): Vec2 {
    Vec2(v.x * k, v.y * k)
  }

  /** The vector mirrored in the vertical axis: horizontal component negated. */
  function FlipX(v: Vec2): Vec2 {
    Vec2(-v.x, v.y)
  }

  /** The vector mirrored in the horizontal axis: vertical component negated. */
  function FlipY(v: Vec2): Vec2 {
    Vec2(v.x, -v.y)
  }

  /** Zero exactly when the two vectors are parallel. */
  function Cross(a: Vec2, b: Vec2): real {
    a.x * b.y - a.y * b.x
  }

  function Sign(r: real): int {
    if r < 0.0 then -1 else if r == 0.0 then 0 else 1
  }

  /** Componentwise the same signs: together with a zero cross product, `a` is a positive multiple of `b`. */
  predicate SameSigns(a: Vec2, b: Vec2) {
    Sign(a.x) == Sign(b.x) && Sign(a.y) == Sign(b.y)
  }

  /** A circle of doubles (the engine's `Circle`): centre and radius. */
  datatype Circle = Circle(x: real, y: real, r: real)

  /** The circle translated by `d` (`Circle::moveBy`). */
  function MoveBy(c: Circle, d: Vec2): Circle {
    Circle(c.x + d.x, c.y + d.y, c.r)
  }

  /** An integer rectangle (the engine's `Rect`): top-left corner, width and height. */
  datatype Rect = Rect(x: int, y: int, w: int, h: int)

  /** Horizontal coordinate of the rectangle's centre (`Rect::center().x`, computed in doubles). */
  function CenterX(r: Rect): real {
    r.x as real + r.w as real * 0.5
  }

  /** The engine services the game calls but does not define. `intersects` is
      `Rect::intersects(Circle)`; `bottomIntersects` and `topIntersects` are
      `rect.bottom().intersects(circle)` and `rect.top().intersects(circle)`;
      `length` is `Vec2::length`. None of them is re-derived here. */
  datatype Engine = Engine(
    intersects: (Rect, Circle) -> bool,
    bottomIntersects: (Rect, Circle) -> bool,
    topIntersects: (Rect, Circle) -> bool,
    length: Vec2 -> real)

  /** The laws of a length that the game's reasoning relies on, all true of
      the Euclidean length `Vec2::length` computes: it is never negative and
      is zero only for the zero vector, the vertical unit vector has length
      one, scaling by a positive factor scales it by that factor, and
      mirroring in either axis keeps it. Magnitude facts
      are stated in terms of the engine's `length` under these laws, so no
      square root appears. */
  ghost predicate NormLaws(len: Vec2 -> real) {
    && (forall v :: 0.0 <= len(v) && (len(v) == 0.0 <==> v == Vec2(0.0, 0.0)))
    && len(Vec2(0.0, 1.0)) == 1.0
    && (forall v, k :: 0.0 < k ==> len(Times(v, k)) == k * len(v))
    && (forall v :: len(FlipX(v)) == len(v))
    && (forall v :: len(FlipY(v)) == len(v))
  }

  /** `Vec2::setLength`: a zero-length vector is returned unchanged, any other
      vector is scaled by `l / len(v)`. Under the norm laws, a non-zero vector
      set to a positive length `l` has length `l` afterwards and points the
      way it pointed before (parallel, with the same component signs). */
  function SetLength(v: Vec2, l: real, len: Vec2 -> real): (r: Vec2)
    ensures len(v) == 0.0 ==> r == v
    ensures NormLaws(len) && v != Vec2(0.0, 0.0) && 0.0 < l ==>
              len(r) == l && Cross(r, v) == 0.0 && SameSigns(r, v)
  {
    if len(v) == 0.0 then v
    else Times(v, l / len(v))
  }
}
