/** The brick table: its layout and the ball-brick collision (class `Bricks`). */
module Bricks {
  import opened Constants
  import opened Geometry
  import opened BallMotion

  /** Position in the row-major table of the brick in column `col` of row `row`. */
  function Index(col: int, row: int): int {
    row * X_COUNT + col
  }

  predicate InGrid(col: int, row: int) {
    0 <= col < X_COUNT && 0 <= row < Y_COUNT
  }

  /** The table as the constructor lays it out, described entry by entry: entry
      `i` holds the brick of column `i % X_COUNT` in row `i / X_COUNT`. The
      contract restates this in grid coordinates: the brick of column `col` in
      row `row` sits at index `row * X_COUNT + col`, is 40 wide and 20 high, has
      its left edge at `col * 40` and its top edge at `60 + row * 20`. */
  function Layout(): (t: seq<Rect>)
    ensures |t| == MAX
    ensures forall col, row :: InGrid(col, row) ==>
              0 <= Index(col, row) < MAX &&
              t[Index(col, row)] == Rect(col * BRICK_WIDTH, BRICK_TOP + row * BRICK_HEIGHT, BRICK_WIDTH, BRICK_HEIGHT)
  {
    seq(MAX, i requires 0 <= i < MAX =>
      Rect((i % X_COUNT) * BRICK_WIDTH, BRICK_TOP + (i / X_COUNT) * BRICK_HEIGHT, BRICK_WIDTH, BRICK_HEIGHT))
  }

  /** The `Bricks` constructor: two nested loops, rows outside and columns
      inside, writing each brick at index `y * X_COUNT + x`. The table it fills
      is exactly `Layout()`. */
  method Build() returns (t: seq<Rect>)
    ensures t == Layout()
  {
    var table := new Rect[MAX];
    var y := 0;
    while y < Y_COUNT
      invariant 0 <= y <= Y_COUNT
      invariant forall j :: 0 <= j < y * X_COUNT ==> table[j] == Layout()[j]
    {
      var x := 0;
      while x < X_COUNT
        invariant 0 <= x <= X_COUNT
        invariant forall j :: 0 <= j < y * X_COUNT + x ==> table[j] == Layout()[j]
      {
        table[Index(x, y)] := Rect(x * BRICK_WIDTH, BRICK_TOP + y * BRICK_HEIGHT, BRICK_WIDTH, BRICK_HEIGHT);
        x := x + 1;
      }
      y := y + 1;
    }
    t := table[..];
  }

  /** Brick `k` is the lowest-index brick whose rectangle intersects circle `c`. */
  predicate IsFirstHit(table: seq<Rect>, c: Circle, e: Engine, k: int) {
    && 0 <= k < |table|
    && e.intersects(table[k], c)
    && forall j :: 0 <= j < k ==> !e.intersects(table[j], c)
  }

  /** No brick of the table intersects circle `c`. */
  predicate NoneHit(table: seq<Rect>, c: Circle, e: Engine) {
    forall j :: 0 <= j < |table| ==> !e.intersects(table[j], c)
  }

  /** Result of a scan: no brick hit, or the index of the first brick hit. */
  datatype Hit = NoHit | HitAt(index: nat)

  /** The scan of `Bricks::Intersects` from index `from` on, stopping at the first brick hit. */
  function FirstHit(table: seq<Rect>, c: Circle, e: Engine, from: nat): (h: Hit)
    requires from <= |table|
    ensures h.HitAt? ==> from <= h.index < |table| && e.intersects(table[h.index], c)
    ensures h.HitAt? ==> forall j :: from <= j < h.index ==> !e.intersects(table[j], c)
    ensures h.NoHit? ==> forall j :: from <= j < |table| ==> !e.intersects(table[j], c)
    decreases |table| - from
  {
    if from == |table| then NoHit
    else if e.intersects(table[from], c) then HitAt(from)
    else FirstHit(table, c, e, from + 1)
  }

  /** The corner-first tie-break: a hit counts as vertical when the ball
      touches the brick's bottom or top edge, whatever else it touches. */
  predicate VerticalHit(brick: Rect, c: Circle, e: Engine) {
    e.bottomIntersects(brick, c) || e.topIntersects(brick, c)
  }

  /** The two cases of `Intersects` cover every table: when some brick
      intersects the ball, there is a lowest-index one. */
  lemma HitHasFirst(table: seq<Rect>, c: Circle, e: Engine)
    requires !NoneHit(table, c, e)
    ensures exists k :: IsFirstHit(table, c, e, k)
  {
    var h := FirstHit(table, c, e, 0);
    assert IsFirstHit(table, c, e, h.index);
  }

  /** A brick taken out of play: the same rectangle moved up by the removal offset. */
  function Removed(brick: Rect): Rect {
    brick.(y := brick.y - REMOVAL_OFFSET)
  }

  /** The bricks after a collision check, and the ball after it. */
  datatype Resolved = Resolved(bricks: seq<Rect>, ball: Ball)

  /** `Bricks::Intersects`. If no brick intersects the ball, nothing changes.
      Otherwise only the lowest-index brick hit is affected: it moves up by
      600, no other brick changes, and exactly one velocity component of the
      ball is negated (the vertical one when the brick's top or bottom edge is
      touched, the horizontal one otherwise). The ball's position, clock and
      speed are untouched in every case. */
  function Intersects(table: seq<Rect>, ball: Ball, e: Engine): (r: Resolved)
    ensures |r.bricks| == |table|
    ensures r.ball.circle == ball.circle && r.ball.elapsedTime == ball.elapsedTime
    ensures NormLaws(e.length) ==> e.length(r.ball.velocity) == e.length(ball.velocity)
    ensures NoneHit(table, ball.circle, e) ==> r == Resolved(table, ball)
    ensures forall k :: IsFirstHit(table, ball.circle, e, k) ==>
              && r.bricks == table[k := Removed(table[k])]
              && (VerticalHit(table[k], ball.circle, e) ==>
                    r.ball.velocity == Vec2(ball.velocity.x, -ball.velocity.y))
              && (!VerticalHit(table[k], ball.circle, e) ==>
                    r.ball.velocity == Vec2(-ball.velocity.x, ball.velocity.y))
  {
    match FirstHit(table, ball.circle, e, 0)
    case NoHit => Resolved(table, ball)
    case HitAt(i) =>
      var v := ball.velocity;
      var v' := if VerticalHit(table[i], ball.circle, e) then FlipY(v) else FlipX(v);
      Resolved(table[i := Removed(table[i])], ball.(velocity := v'))
  }

  /** Indices whose brick differs between two tables of the same length. */
  function Changed(before: seq<Rect>, after: seq<Rect>): set<int>
    requires |before| == |after|
  {
    set j | 0 <= j < |before| && before[j] != after[j]
  }

  /** At most one brick per call: no brick changes when none is hit, and
      exactly the first brick hit changes otherwise, even when the ball overlaps
      several bricks at once. */
  lemma AtMostOneBrickPerCall(table: seq<Rect>, ball: Ball, e: Engine)
    ensures NoneHit(table, ball.circle, e) ==> Changed(table, Intersects(table, ball, e).bricks) == {}
    ensures forall k :: IsFirstHit(table, ball.circle, e, k) ==> Changed(table, Intersects(table, ball, e).bricks) == {k}
  {
  }

  /** The table keeps its shape: every brick is either at its layout cell
      (still in play) or at least one removal offset above it (out of play),
      with its horizontal position and size unchanged. */
  predicate Displaced(home: Rect, brick: Rect) {
    && brick.x == home.x && brick.w == home.w && brick.h == home.h
    && (brick.y == home.y || brick.y <= home.y - REMOVAL_OFFSET)
  }

  ghost predicate WellFormed(table: seq<Rect>) {
    |table| == MAX && forall i :: 0 <= i < MAX ==> Displaced(Layout()[i], table[i])
  }

  /** Indices of the bricks still in play. */
  ghost function Live(table: seq<Rect>): set<int> {
    set i | 0 <= i < |table| && i < MAX && table[i] == Layout()[i]
  }

  /** A fresh table is well formed with every brick in play. */
  lemma LayoutAllLive()
    ensures WellFormed(Layout())
    ensures forall i :: 0 <= i < MAX ==> i in Live(Layout())
  {
  }

  /** Every brick out of play lies wholly above the top of the screen. */
  lemma RemovedBricksOffScreen(table: seq<Rect>, i: int)
    requires WellFormed(table)
    requires 0 <= i < MAX && i !in Live(table)
    ensures table[i].y + table[i].h < 0
  {
  }

  /** Collision keeps the table well formed and never puts a brick back in
      play; hitting a brick in play takes exactly that brick out of play. */
  lemma IntersectsKeepsWellFormed(table: seq<Rect>, ball: Ball, e: Engine)
    requires WellFormed(table)
    ensures WellFormed(Intersects(table, ball, e).bricks)
    ensures Live(Intersects(table, ball, e).bricks) <= Live(table)
    ensures forall k :: IsFirstHit(table, ball.circle, e, k) && k in Live(table) ==>
              Live(Intersects(table, ball, e).bricks) == Live(table) - {k}
  {
  }
}
