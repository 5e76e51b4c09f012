/** The session of `Main`: the game-over flag, restart, and one pass of the frame loop. */
module Game {
  import opened Constants
  import opened Geometry
  import BallMotion
  import Bricks
  import Paddle
  import Wall

  /** Everything `Main` keeps between frames. */
  datatype Session = Session(bricks: seq<Rect>, ball: BallMotion.Ball, paddle: Rect, gameOver: bool)

  /** What the engine supplies for one frame: `Scene::DeltaTime`, `Cursor::Pos().x`,
      `Scene::Width`, `Scene::Height` and `KeyR.down()`. */
  datatype Input = Input(deltaTime: real, cursorX: int, width: int, height: int, restartPressed: bool)

  /** The shape every session keeps, for an engine length `len`: the brick table
      is well formed, the paddle has its size and row, the ball's clock is not
      negative and its speed lies between the initial and the maximum speed. */
  ghost predicate Valid(s: Session, len: Vec2 -> real) {
    && Bricks.WellFormed(s.bricks)
    && s.paddle.w == PADDLE_WIDTH && s.paddle.h == PADDLE_HEIGHT
    && s.paddle.y == PADDLE_CENTER_Y - PADDLE_HEIGHT / 2
    && 0.0 <= s.ball.elapsedTime
    && INITIAL_SPEED <= len(s.ball.velocity) <= MAX_SPEED
  }

  /** The state `Main` starts from, and the one a restart rebuilds: freshly
      constructed bricks, ball and paddle, not game over. With every brick in
      play and a ball at the initial speed it is a valid session. */
  function Start(cursorX: int): (s: Session)
    ensures !s.gameOver
    ensures forall i :: 0 <= i < MAX ==> i in Bricks.Live(s.bricks)
    ensures forall len :: NormLaws(len) ==> Valid(s, len)
  {
    Bricks.LayoutAllLive();
    var s := Session(Bricks.Layout(), BallMotion.NewBall(), Paddle.NewPaddle(cursorX), false);
    assert forall len :: NormLaws(len) ==> Valid(s, len) by {
      forall len | NormLaws(len)
        ensures len(s.ball.velocity) == INITIAL_SPEED
      {
        assert s.ball.velocity == FlipY(Times(Vec2(0.0, 1.0), INITIAL_SPEED));
        assert len(Times(Vec2(0.0, 1.0), INITIAL_SPEED)) == INITIAL_SPEED * 1.0;
      }
    }
    s
  }

  /** The lose condition: the ball is below the bottom of the screen. */
  predicate Falls(s: Session, height: int) {
    height as real < s.ball.circle.y
  }

  /** The updates and collisions of one frame, in the loop's order: paddle,
      ball, bricks, walls, paddle bounce. The game-over flag is not consulted. */
  function Physics(s: Session, input: Input, e: Engine): Session {
    var paddle := Paddle.Update(s.paddle, input.cursorX);
    var moved := BallMotion.Update(s.ball, input.deltaTime, e.length);
    var hit := Bricks.Intersects(s.bricks, moved, e);
    var walled := Wall.Intersects(hit.ball, input.width);
    Session(hit.bricks, Paddle.Intersects(paddle, walled, e), paddle, s.gameOver)
  }

  /** One pass of the inner frame loop of `Main`. The flag turns on only when
      the ball was below the screen at the start of the frame, and then stays on
      until the restart key is pressed; pressing it while game over rebuilds the
      starting state, and pressing it otherwise does nothing. In every frame
      without a restart the paddle follows the cursor and the ball's clock
      advances, game over or not. */
  function Frame(s: Session, input: Input, e: Engine): (r: Session)
    ensures r.gameOver <==> (s.gameOver || Falls(s, input.height)) && !input.restartPressed
    ensures (s.gameOver || Falls(s, input.height)) && input.restartPressed ==> r == Start(input.cursorX)
    ensures !(s.gameOver || Falls(s, input.height)) || !input.restartPressed ==>
              && r.paddle == s.paddle.(x := input.cursorX - PADDLE_WIDTH / 2)
              && r.ball.elapsedTime == s.ball.elapsedTime + input.deltaTime
              && |r.bricks| == |s.bricks|
  {
    var gameOver := s.gameOver || Falls(s, input.height);
    var next := Physics(s, input, e);
    if gameOver && input.restartPressed then Start(input.cursorX)
    else next.(gameOver := gameOver)
  }

  /** The flag gates only the lose check: without a restart, a frame moves the
      paddle, the ball and the bricks exactly the same way whether or not the
      game is over. */
  lemma UpdatesIgnoreGameOver(s: Session, input: Input, e: Engine)
    requires !input.restartPressed
    ensures var over := Frame(s.(gameOver := true), input, e);
            var playing := Frame(s.(gameOver := false), input, e);
            over.bricks == playing.bricks && over.ball == playing.ball && over.paddle == playing.paddle
  {
  }

  /** Every frame with a non-negative time step keeps a session valid, and
      leaves the paddle centred on the cursor. */
  lemma FrameKeepsValid(s: Session, input: Input, e: Engine)
    requires NormLaws(e.length)
    requires Valid(s, e.length)
    requires 0.0 <= input.deltaTime
    ensures Valid(Frame(s, input, e), e.length)
    ensures CenterX(Frame(s, input, e).paddle) == input.cursorX as real
  {
  }
}
