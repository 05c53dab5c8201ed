/** What every input and every tick of Quarry keeps: the ball envelope, the pace, the
    paddle and the capsules; and that no ball or brick row is tunnelled through. */
module QuarryBalls {
  import opened Arcade
  import opened Basics
  import opened QuarryRules

  function Abs(v: int): nat
  {
    if v < 0 then -v else v
  }

  /** A ball in flight: between the side walls, under the ceiling, never vertical and
      never stationary. */
  predicate Envelope(b: Ball)
  {
    && BALL_R <= b.x <= FIELD_W - BALL_R
    && BALL_R <= b.y
    && 8 <= Abs(b.vx) <= 2 * BALL_SPEED_MAX
    && BALL_SPEED <= Abs(b.vy) <= BALL_SPEED_MAX
  }

  /** A ball in play between ticks is also not below the field. */
  predicate InField(b: Ball)
  {
    Envelope(b) && b.y <= FIELD_H + BALL_R
  }

  predicate Falling(c: Capsule)
  {
    BRICK_W / 2 <= c.x <= 7 * BRICK_W + BRICK_W / 2 && BRICK_TOP <= c.y < FIELD_H && c.kind < 4
  }

  /** The paddle and the pace. */
  predicate Rig(g: Game)
  {
    && g.speed % SPEED_STEP == 0
    && BaseSpeed(g.level) <= g.speed
    && 0 <= g.paddleX <= FIELD_W - PADDLE_W
    && 0 <= g.target <= FIELD_W - PADDLE_W
    && forall c :: c in g.capsules ==> Falling(c)
  }

  predicate BallsInField(balls: seq<Ball>)
  {
    |balls| <= MAX_BALLS && forall b :: b in balls ==> InField(b)
  }

  predicate Fair(g: Game)
  {
    && Rig(g)
    && BallsInField(g.balls)
    && g.lives <= START_LIVES
    && g.tick <= MAX_TICKS
    && (!g.over ==> g.tick < MAX_TICKS && g.lives >= 1 && (g.held || g.balls != []))
  }

  lemma NewGameFair(draws: Draws)
    ensures Fair(NewGame(draws))
  {
    hide WallAt;
  }

  // ----- one sub-step -----

  lemma MoveKeepsEnvelope(b: Ball)
    requires Envelope(b)
    ensures Envelope(Move(b))
  {
  }

  /** Hitting a brick sends the ball back to the height it came from. */
  lemma StrikeKeepsEnvelope(twin: Twin, draws: Draws, g: Game, b: Ball)
    requires Envelope(b)
    ensures Envelope(Strike(twin, draws, g, b).ball) && !Strike(twin, draws, g, b).stuck
  {
    BrickZone(b.x, b.y);
    hide HitBrick, BrickAt;
  }

  lemma BrickZone(x: int, y: int)
    ensures BrickAt(x, y) >= 0 ==> BRICK_TOP <= y < BRICK_TOP + BRICK_ROWS * BRICK_H
  {
  }

  /** Hitting a brick leaves the paddle, the pace, the balls and the clock alone. */
  predicate SameRig(g: Game, h: Game)
  {
    && h.speed == g.speed && h.level == g.level && h.paddleX == g.paddleX && h.paddleW == g.paddleW
    && h.target == g.target && h.balls == g.balls && h.lives == g.lives && h.tick == g.tick
    && h.over == g.over && h.held == g.held && h.catching == g.catching && h.slow == g.slow && h.rally == g.rally
  }

  lemma HitKeepsRig(twin: Twin, draws: Draws, g: Game, index: nat)
    requires index < CELLS
    ensures SameRig(g, HitBrick(twin, draws, g, index))
    ensures Rig(g) ==> Rig(HitBrick(twin, draws, g, index))
  {
    var h := HitBrick(twin, draws, g, index);
    CapsuleFalls(draws, index);
    hide CapsuleOf, Drops, BaseSpeed;
    assert h.capsules == g.capsules || h.capsules == g.capsules + [CapsuleOf(draws, index)];
  }

  lemma CapsuleFalls(draws: Draws, index: nat)
    requires index < CELLS
    ensures Falling(CapsuleOf(draws, index))
  {
    assert 0 <= index / 8 <= 3;
  }

  lemma StrikeKeepsRig(twin: Twin, draws: Draws, g: Game, b: Ball)
    ensures SameRig(g, Strike(twin, draws, g, b).game)
    ensures Rig(g) ==> Rig(Strike(twin, draws, g, b).game)
  {
    var cell := BrickAt(b.x, b.y);
    if cell >= 0 {
      HitKeepsRig(twin, draws, g, cell);
    }
    hide HitBrick, BrickAt, Rig;
  }

  lemma DeflectInRange(offset: int, speed: Pace, width: PaddleWidth)
    ensures 8 <= Abs(Deflect(offset, speed, width)) <= 2 * BALL_SPEED_MAX
  {
    hide TruncDiv;
  }

  lemma BounceKeeps(g: Game, b: Ball)
    requires Rig(g) && Envelope(b)
    ensures Rig(Bounce(g, b).game) && InField(Bounce(g, b).ball)
    ensures Bounce(g, b).ball.vy < 0 && Bounce(g, b).ball.y == PADDLE_Y - BALL_R
  {
    RampKeepsRig(g);
    DeflectInRange(b.x - (g.paddleX + g.paddleW / 2), Ramp(g).speed, g.paddleW);
    hide Deflect, Rig, Ramp;
  }

  lemma RampKeepsRig(g: Game)
    requires Rig(g)
    ensures Rig(Ramp(g))
  {
    hide Falling, BaseSpeed;
  }

  /** What a sub-step keeps of the game around the ball. */
  predicate Carries(g: Game, h: Game)
  {
    && (Rig(g) ==> Rig(h))
    && h.balls == g.balls && h.lives == g.lives && h.tick == g.tick && h.over == g.over
    && h.level == g.level
    && (g.held ==> h.held)
  }

  lemma MeetKeeps(g: Game, b: Ball)
    requires Rig(g) && Envelope(b)
    ensures Envelope(Meet(g, b).ball)
    ensures Carries(g, Meet(g, b).game)
    ensures Meet(g, b).stuck ==> Meet(g, b).game.held
    ensures Meet(g, b).game.held ==> g.held || Meet(g, b).stuck
  {
    BounceKeeps(g, b);
    BounceCarries(g, b);
    hide Bounce, MeetsPaddle, Envelope, BaseSpeed, Falling;
  }

  lemma SubStepKeeps(twin: Twin, draws: Draws, g: Game, b: Ball)
    requires Rig(g) && Envelope(b)
    ensures Envelope(SubStep(twin, draws, g, b).ball)
    ensures Carries(g, SubStep(twin, draws, g, b).game)
    ensures SubStep(twin, draws, g, b).stuck ==> SubStep(twin, draws, g, b).game.held
    ensures SubStep(twin, draws, g, b).game.held ==> g.held || SubStep(twin, draws, g, b).stuck
  {
    hide Move, Strike, Meet, Rig, Envelope;
    MoveKeepsEnvelope(b);
    StrikeKeepsEnvelope(twin, draws, g, Move(b));
    StrikeKeepsRig(twin, draws, g, Move(b));
    var f := Strike(twin, draws, g, Move(b));
    MeetKeeps(f.game, f.ball);
  }

  lemma BounceCarries(g: Game, b: Ball)
    ensures Bounce(g, b).game.balls == g.balls && Bounce(g, b).game.lives == g.lives
    ensures Bounce(g, b).game.tick == g.tick && Bounce(g, b).game.over == g.over
    ensures Bounce(g, b).game.level == g.level && Bounce(g, b).game.held == g.held
    ensures !Bounce(g, b).stuck
  {
    hide Deflect;
  }

  lemma StepBallKeeps(twin: Twin, draws: Draws, g: Game, b: Ball)
    requires Rig(g) && Envelope(b)
    ensures Envelope(StepBall(twin, draws, g, b).ball)
    ensures Carries(g, StepBall(twin, draws, g, b).game)
    ensures Survives(StepBall(twin, draws, g, b)) ==> InField(StepBall(twin, draws, g, b).ball)
    ensures StepBall(twin, draws, g, b).stuck ==> StepBall(twin, draws, g, b).game.held
  {
    hide SubStep, Envelope, Rig;
    SubStepKeeps(twin, draws, g, b);
    var f := SubStep(twin, draws, g, b);
    if !f.stuck {
      SubStepKeeps(twin, draws, f.game, f.ball);
    }
  }

  lemma {:induction false} StepBallsFromKeeps(twin: Twin, draws: Draws, g: Game, flying: seq<Ball>, kept: seq<Ball>)
    requires Rig(g)
    requires forall b :: b in flying ==> Envelope(b)
    requires forall b :: b in kept ==> InField(b)
    requires |kept| + |flying| <= MAX_BALLS
    ensures var h := StepBallsFrom(twin, draws, g, flying, kept);
      Rig(h) && BallsInField(h.balls)
      && h.lives == g.lives && h.tick == g.tick && h.over == g.over && h.level == g.level
    decreases |flying|
  {
    hide StepBall, Envelope, Survives;
    if flying != [] {
      assert flying[0] in flying;
      var f := StepBall(twin, draws, g, flying[0]);
      StepBallKeeps(twin, draws, g, flying[0]);
      StepBallsFromKeeps(twin, draws, f.game, flying[1..], if Survives(f) then kept + [f.ball] else kept);
    }
    hide Rig;
  }

  // ----- capsules -----

  lemma SplitInField(balls: seq<Ball>)
    requires BallsInField(balls)
    ensures BallsInField(Split(balls))
  {
    forall b | b in Split(balls) ensures InField(b) {
      var i :| 0 <= i < |Split(balls)| && Split(balls)[i] == b;
      assert balls[if i < |balls| then i else i - |balls|] in balls;
    }
  }

  lemma ApplyCapsuleKeeps(g: Game, kind: nat)
    requires Rig(g) && BallsInField(g.balls)
    ensures Rig(ApplyCapsule(g, kind)) && BallsInField(ApplyCapsule(g, kind).balls)
    ensures var h := ApplyCapsule(g, kind);
      h.lives == g.lives && h.tick == g.tick && h.over == g.over && h.level == g.level && h.held == g.held
      && (g.balls == [] <==> h.balls == [])
  {
    SplitInField(g.balls);
    hide BallsInField, BaseSpeed, Falling;
  }

  lemma {:induction false} StepCapsulesFromKeeps(g: Game, falling: seq<Capsule>, kept: seq<Capsule>)
    requires Rig(g) && BallsInField(g.balls)
    requires forall c :: c in falling ==> Falling(c)
    requires forall c :: c in kept ==> Falling(c)
    ensures var h := StepCapsulesFrom(g, falling, kept);
      Rig(h) && BallsInField(h.balls)
      && h.lives == g.lives && h.tick == g.tick && h.over == g.over && h.level == g.level && h.held == g.held
      && (g.balls == [] <==> h.balls == [])
    decreases |falling|
  {
    hide BallsInField, BaseSpeed, ApplyCapsule, Catches;
    if falling != [] {
      assert falling[0] in falling;
      var c := falling[0].(y := falling[0].y + CAPSULE_SPEED);
      if Catches(g, c) {
        ApplyCapsuleKeeps(g, c.kind);
        StepCapsulesFromKeeps(ApplyCapsule(g, c.kind), falling[1..], kept);
      } else {
        StepCapsulesFromKeeps(g, falling[1..], if c.y < FIELD_H then kept + [c] else kept);
      }
    }
  }

  lemma StepCapsulesKeeps(g: Game)
    requires Rig(g) && BallsInField(g.balls)
    ensures var h := StepCapsules(g);
      Rig(h) && BallsInField(h.balls)
      && h.lives == g.lives && h.tick == g.tick && h.over == g.over && h.level == g.level && h.held == g.held
      && (g.balls == [] <==> h.balls == [])
  {
    hide BallsInField, BaseSpeed, StepCapsulesFrom, Falling;
    StepCapsulesFromKeeps(g.(capsules := []), g.capsules, []);
  }

  lemma StepBallsKeeps(twin: Twin, draws: Draws, g: Game)
    requires Rig(g) && BallsInField(g.balls)
    ensures var h := StepBalls(twin, draws, g);
      Rig(h) && BallsInField(h.balls)
      && h.lives == g.lives && h.tick == g.tick && h.over == g.over && h.level == g.level
  {
    AllEnvelope(g.balls);
    hide BaseSpeed, StepBallsFrom, Falling, InField, Envelope;
    StepBallsFromKeeps(twin, draws, g.(balls := []), g.balls, []);
  }

  // ----- inputs and ticks -----

  /** Any input keeps the invariant. */
  lemma ApplyFair(g: Game, action: int, value: int)
    requires Fair(g)
    ensures Fair(Apply(g, action, value))
  {
    if action == ACTION_LAUNCH {
      LaunchFair(g);
    }
    hide Launch, Falling, BaseSpeed, InField;
  }

  lemma LaunchFair(g: Game)
    requires Fair(g)
    ensures Fair(Launch(g))
  {
    var b := Ball(g.paddleX + g.paddleW / 2, PADDLE_Y - BALL_R, g.speed / 2, -(g.speed as int));
    assert InField(b);
    hide Falling, BaseSpeed, InField;
  }

  lemma BeginKeeps(g: Game)
    requires Fair(g) && !g.over
    ensures var b := Begin(g);
      Rig(b) && BallsInField(b.balls) && b.tick == g.tick + 1 && b.lives == g.lives && !b.over
      && b.held == g.held && b.level == g.level && (g.held || b.balls != [])
  {
    hide Falling, BaseSpeed, InField;
  }

  lemma BaseSpeedFits(level: nat)
    ensures BaseSpeed(level) % SPEED_STEP == 0
  {
  }

  lemma LoseLifeKeeps(g: Game)
    requires Rig(g) && BallsInField(g.balls) && !g.over && 1 <= g.lives <= START_LIVES
    ensures var h := LoseLife(g);
      Rig(h) && BallsInField(h.balls) && h.tick == g.tick && h.lives <= START_LIVES
      && (!h.over ==> h.lives >= 1 && (h.held || h.balls != []))
  {
    BaseSpeedFits(g.level);
    hide Falling, BaseSpeed, InField;
  }

  lemma NextWallKeeps(draws: Draws, g: Game)
    requires Rig(g) && BallsInField(g.balls) && g.lives <= START_LIVES
    requires !g.over ==> g.lives >= 1 && (g.held || g.balls != [])
    ensures var h := NextWall(draws, g);
      Rig(h) && BallsInField(h.balls) && h.tick == g.tick && h.lives <= START_LIVES && h.over == g.over
      && (!h.over ==> h.lives >= 1 && (h.held || h.balls != []))
  {
    BaseSpeedFits(g.level + 1);
    hide Falling, BaseSpeed, InField, WallAt, WallCleared;
  }

  /** Every tick keeps the invariant, and until the run is over it is one tick. */
  lemma StepFair(twin: Twin, draws: Draws, g: Game)
    requires Fair(g)
    ensures Fair(Step(twin, draws, g))
    ensures Step(twin, draws, g).tick == if g.over then g.tick else g.tick + 1
  {
    hide BaseSpeed, InField, StepCapsules, StepBalls, LoseLife, NextWall, Begin, Falling;
    if !g.over {
      var b := Begin(g);
      BeginKeeps(g);
      if b.held {
        StepCapsulesKeeps(b);
      } else {
        var s := StepBalls(twin, draws, b);
        StepBallsKeeps(twin, draws, b);
        StepCapsulesKeeps(s);
        LoseLifeKeeps(StepCapsules(s));
        NextWallKeeps(draws, LoseLife(StepCapsules(s)));
      }
    }
  }

  lemma AllEnvelope(balls: seq<Ball>)
    requires BallsInField(balls)
    ensures forall b :: b in balls ==> Envelope(b)
  {
    hide Envelope;
  }

  // ----- no tunnelling -----

  /** A descending sub-step from above the contact band ends in it or still above it. */
  lemma NoSubStepSkipsTheBand(twin: Twin, draws: Draws, g: Game, b: Ball)
    requires Envelope(b) && b.y <= PADDLE_Y - BALL_R
    ensures var c := SubStep(twin, draws, g, b).ball;
      c.y <= PADDLE_Y - BALL_R || InBand(c.y)
  {
    BrickZone(Move(b).x, Move(b).y);
    hide HitBrick, BrickAt, Deflect;
  }

  /** A ball that comes down onto the paddle does not go on down. */
  lemma PaddleReturns(twin: Twin, draws: Draws, g: Game, b: Ball)
    requires Envelope(b)
    requires !SubStep(twin, draws, g, b).stuck && InBand(SubStep(twin, draws, g, b).ball.y)
    requires SubStep(twin, draws, g, b).ball.vy > 0
    ensures !OnPaddle(g, SubStep(twin, draws, g, b).ball.x)
  {
    StrikeKeepsRig(twin, draws, g, Move(b));
    hide Strike, Deflect, Move, Rig;
  }

  /** The path of one ball: each position follows from the one before by a sub-step of
      whatever the game was then, and the ball was never caught. */
  predicate BallPath(twin: Twin, draws: Draws, games: seq<Game>, balls: seq<Ball>)
  {
    && |balls| == |games| + 1
    && Envelope(balls[0])
    && forall i :: 0 <= i < |games| ==>
         && Rig(games[i])
         && SubStep(twin, draws, games[i], balls[i])
            == Flight(SubStep(twin, draws, games[i], balls[i]).game, balls[i + 1], false)
  }

  /** However long its path and whatever the paddle did meanwhile, a ball that got from
      above the paddle to below its reach was, at some sub-step inside the contact band,
      off the paddle sideways. */
  lemma {:induction false} LostBallMissedThePaddle(twin: Twin, draws: Draws, games: seq<Game>, balls: seq<Ball>)
    requires BallPath(twin, draws, games, balls)
    requires balls[0].y <= PADDLE_Y - BALL_R && balls[|games|].y > PADDLE_Y + PADDLE_H + BALL_R
    ensures exists i :: 0 <= i < |games| && InBand(balls[i + 1].y) && !OnPaddle(games[i], balls[i + 1].x)
    decreases |games|
  {
    hide SubStep, OnPaddle, Rig, Envelope;
    var g, b, c := games[0], balls[0], balls[1];
    assert SubStep(twin, draws, games[0], balls[0]).ball == balls[1];
    SubStepKeeps(twin, draws, g, b);
    NoSubStepSkipsTheBand(twin, draws, g, b);
    if InBand(c.y) && c.y > PADDLE_Y - BALL_R {
      BelowTheLine(twin, draws, g, b);
      assert !OnPaddle(games[0], balls[0 + 1].x);
    } else {
      PathTail(twin, draws, games, balls);
      LostBallMissedThePaddle(twin, draws, games[1..], balls[1..]);
      var i :| 0 <= i < |games[1..]| && InBand(balls[1..][i + 1].y) && !OnPaddle(games[1..][i], balls[1..][i + 1].x);
      assert InBand(balls[(i + 1) + 1].y) && !OnPaddle(games[i + 1], balls[(i + 1) + 1].x);
    }
  }

  lemma PathTail(twin: Twin, draws: Draws, games: seq<Game>, balls: seq<Ball>)
    requires BallPath(twin, draws, games, balls) && games != []
    ensures BallPath(twin, draws, games[1..], balls[1..])
  {
    hide SubStep, Rig, Envelope;
    SubStepKeeps(twin, draws, games[0], balls[0]);
    assert SubStep(twin, draws, games[0], balls[0]).ball == balls[1];
    forall i | 0 <= i < |games[1..]|
      ensures Rig(games[1..][i]) && SubStep(twin, draws, games[1..][i], balls[1..][i])
           == Flight(SubStep(twin, draws, games[1..][i], balls[1..][i]).game, balls[1..][i + 1], false)
    {
      assert games[1..][i] == games[i + 1] && balls[1..][i] == balls[i + 1] && balls[1..][i + 1] == balls[(i + 1) + 1];
    }
  }

  /** Crossing below the line of the paddle's return takes a descent the paddle missed. */
  lemma BelowTheLine(twin: Twin, draws: Draws, g: Game, b: Ball)
    requires Rig(g) && Envelope(b) && b.y <= PADDLE_Y - BALL_R
    requires SubStep(twin, draws, g, b).ball.y > PADDLE_Y - BALL_R && !SubStep(twin, draws, g, b).stuck
    requires InBand(SubStep(twin, draws, g, b).ball.y)
    ensures !OnPaddle(g, SubStep(twin, draws, g, b).ball.x)
  {
    if SubStep(twin, draws, g, b).ball.vy > 0 {
      PaddleReturns(twin, draws, g, b);
    } else {
      CameDown(twin, draws, g, b);
    }
  }

  lemma CameDown(twin: Twin, draws: Draws, g: Game, b: Ball)
    requires Envelope(b) && b.y <= PADDLE_Y - BALL_R
    requires SubStep(twin, draws, g, b).ball.y > PADDLE_Y - BALL_R
    ensures SubStep(twin, draws, g, b).ball.vy > 0
  {
    BrickZone(Move(b).x, Move(b).y);
    hide HitBrick, BrickAt, Deflect;
  }

  /** The band of bricks a height is in: -1 above the wall, 4 below it. */
  function RowOf(y: int): int
  {
    if y < BRICK_TOP then -1 else Min((y - BRICK_TOP) / BRICK_H, BRICK_ROWS)
  }

  /** No sub-step passes a brick row by: before the reflection, after it, and over the
      whole sub-step the row changes by at most one. */
  lemma NoRowIsSkipped(twin: Twin, draws: Draws, g: Game, b: Ball)
    requires Envelope(b)
    ensures Abs(RowOf(Move(b).y) - RowOf(b.y)) <= 1
    ensures var f := Strike(twin, draws, g, Move(b));
      Abs(RowOf(f.ball.y) - RowOf(Move(b).y)) <= 1 && Abs(RowOf(f.ball.y) - RowOf(b.y)) <= 1
  {
    BrickZone(Move(b).x, Move(b).y);
    hide HitBrick, BrickAt;
  }
}
