/** The core's own form of Quarry: one object with fixed arrays of balls, capsules and
    bricks, rewritten and compacted in place. Each method is proved to do what the rules
    say of the lists those arrays hold. */
module QuarryCore {
  import opened Arcade
  import opened Basics
  import opened QuarryRules
  import QuarryRuns

  class State {
    const draws: Draws
    const bricks: array<Tier>
    const balls: array<Ball>
    const capsules: array<Capsule>
    var tick: nat
    var level: nat
    var score: nat
    var lives: int
    var paddleX: int
    var paddleW: PaddleWidth
    var target: int
    var ballCount: nat
    var capsuleCount: nat
    var held: bool
    var catching: bool
    var slow: nat
    var over: bool
    var bricksBroken: nat
    var speed: Pace
    var rally: nat
    ghost var hits: nat
    ghost var caught: nat
    ghost var refused: nat

    ghost predicate Valid()
      reads this
    {
      && bricks.Length == CELLS && balls.Length == MAX_BALLS && capsules.Length == MAX_CAPSULES
      && ballCount <= MAX_BALLS && capsuleCount <= MAX_CAPSULES
    }

    /** The game with the given lists in place of the arrays being rewritten. */
    ghost function With(bs: seq<Ball>, cs: seq<Capsule>): Game
      requires Valid()
      reads this, bricks
    {
      Game(tick, level, score, lives, bricks[..], paddleX, paddleW, target, bs, cs, held, catching, slow, over,
           bricksBroken, speed, rally, hits, caught, refused)
    }

    ghost function Model(): Game
      requires Valid()
      reads this, bricks, balls, capsules
    {
      With(balls[..ballCount], capsules[..capsuleCount])
    }

    constructor (draws: Draws)
      ensures Valid() && fresh(bricks) && fresh(balls) && fresh(capsules) && this.draws == draws
      ensures Model() == NewGame(draws)
    {
      this.draws := draws;
      bricks := new Tier[CELLS](i requires 0 <= i < CELLS => TierAt(draws, 0, i / 8, i % 8));
      balls := new Ball[MAX_BALLS](_ => Ball(0, 0, 0, 0));
      capsules := new Capsule[MAX_CAPSULES](_ => Capsule(0, 0, 0));
      tick, level, score, lives := 0, 0, 0, START_LIVES;
      paddleX, paddleW, target := (FIELD_W - PADDLE_W) / 2, PADDLE_W, (FIELD_W - PADDLE_W) / 2;
      ballCount, capsuleCount, held, catching, slow, over := 0, 0, true, false, 0, false;
      bricksBroken, speed, rally, hits, caught, refused := 0, BALL_SPEED, 0, 0, 0, 0;
      new;
      assert bricks[..] == WallAt(draws, 0);
    }

    // ----- bricks and capsules -----

    /** The core's brick lookup divides toward zero; to the right of the left wall that
        is the page's rounding down. */
    static method BrickIn(x: int, y: int) returns (cell: int)
      requires x >= 0
      ensures cell == BrickAt(x, y)
    {
      if y < BRICK_TOP {
        return -1;
      }
      var row := TruncDiv(y - BRICK_TOP, BRICK_H);
      var col := TruncDiv(x, BRICK_W);
      if row < 0 || row >= BRICK_ROWS || col < 0 || col >= BRICK_COLS {
        return -1;
      }
      return row * BRICK_COLS + col;
    }

    method DropCapsule(index: nat)
      requires Valid() && index < CELLS
      modifies this`capsuleCount, this`refused, capsules
      ensures Valid()
      ensures Model() == QuarryRules.DropCapsule(Core, draws, old(Model()), index)
    {
      hide CapsuleOf, Drops;
      if capsuleCount >= MAX_CAPSULES {
        ghost var due := Drops(draws, index);
        refused := if due then refused + 1 else refused;
        return;
      }
      if !Drops(draws, index) {
        return;
      }
      ghost var was := capsules[..capsuleCount];
      capsules[capsuleCount] := CapsuleOf(draws, index);
      capsuleCount := capsuleCount + 1;
      assert capsules[..capsuleCount] == was + [CapsuleOf(draws, index)];
    }

    method TakeHit(index: nat)
      requires Valid() && index < CELLS && bricks[index] > 0
      modifies this`hits, bricks
      ensures Valid()
      ensures Model() == old(Model()).(bricks := old(bricks[..])[index := old(bricks[index]) - 1],
                                       hits := old(hits) + 1)
    {
      var left: Tier := bricks[index] - 1;
      bricks[index] := left;
      hits := hits + 1;
      assert bricks[..] == old(bricks[..])[index := left];
    }

    method PayBreak(pay: nat)
      requires Valid()
      modifies this`score, this`bricksBroken
      ensures Valid()
      ensures Model() == old(Model()).(score := old(score) + pay, bricksBroken := old(bricksBroken) + 1)
    {
      score := score + pay;
      bricksBroken := bricksBroken + 1;
    }

    method HitBrick(index: nat)
      requires Valid() && index < CELLS
      modifies this`hits, this`score, this`bricksBroken, this`capsuleCount, this`refused, bricks, capsules
      ensures Valid()
      ensures Model() == QuarryRules.HitBrick(Core, draws, old(Model()), index)
    {
      hide QuarryRules.DropCapsule, BrickScore;
      var tier := bricks[index];
      if tier == EMPTY || tier == SOLID {
        return;
      }
      TakeHit(index);
      if tier - 1 == EMPTY {
        PayBreak(BrickScore(Min(tier, 3)) * speed / BALL_SPEED);
        DropCapsule(index);
      } else {
        score := score + 10;
      }
    }

    /** Every ball splits in place, oldest first, while there is room. */
    method SplitBalls()
      requires Valid()
      modifies this`ballCount, balls
      ensures Valid()
      ensures balls[..ballCount] == Split(old(balls[..ballCount]))
    {
      ghost var was := balls[..ballCount];
      var existing := ballCount;
      ghost var born := Min(|was|, Max(0, MAX_BALLS - |was|));
      ghost var mirrors := seq(born, i requires 0 <= i < born => Mirror(was[i]));
      assert was + mirrors[..0] == was;
      var i := 0;
      while i < existing && ballCount < MAX_BALLS
        invariant 0 <= i <= born && ballCount == existing + i && ballCount <= MAX_BALLS
        invariant balls[..ballCount] == was + mirrors[..i]
      {
        var source := balls[i];
        assert source == (was + mirrors[..i])[i] == was[i];
        balls[ballCount] := Ball(source.x, source.y, -source.vx, source.vy);
        ballCount := ballCount + 1;
        assert balls[..ballCount] == was + mirrors[..i] + [mirrors[i]];
        assert mirrors[..i + 1] == mirrors[..i] + [mirrors[i]];
        i := i + 1;
      }
      assert mirrors[..born] == mirrors;
    }

    method PayCapsule()
      requires Valid()
      modifies this`score, this`caught
      ensures Valid()
      ensures With(balls[..ballCount], [])
           == old(With(balls[..ballCount], [])).(score := old(score) + CAPSULE_SCORE, caught := old(caught) + 1)
    {
      score := score + CAPSULE_SCORE;
      caught := caught + 1;
    }

    method ApplyCapsule(kind: nat)
      requires Valid()
      modifies this`score, this`caught, this`paddleW, this`slow, this`catching, this`ballCount, balls
      ensures Valid()
      ensures With(balls[..ballCount], []) == QuarryRules.ApplyCapsule(old(With(balls[..ballCount], [])), kind)
    {
      hide Split;
      PayCapsule();
      if kind == CAPSULE_WIDEN {
        paddleW := Min(paddleW + 128, 1024);
      } else if kind == CAPSULE_MULTI {
        SplitBalls();
      } else if kind == CAPSULE_SLOW {
        slow := SLOW_TICKS;
      } else {
        catching := true;
      }
    }

    method StepCapsules()
      requires Valid()
      modifies this`score, this`caught, this`paddleW, this`slow, this`catching, this`ballCount, this`capsuleCount
      modifies balls, capsules
      ensures Valid()
      ensures Model() == QuarryRules.StepCapsules(old(Model()))
    {
      hide QuarryRules.ApplyCapsule;
      ghost var was := capsules[..capsuleCount];
      ghost var due := QuarryRules.StepCapsules(old(Model()));
      var kept := 0;
      var i := 0;
      var count := capsuleCount;
      assert was == capsules[0..count] && capsules[..0] == [];
      while i < count
        invariant 0 <= kept <= i <= count == capsuleCount && Valid()
        invariant StepCapsulesFrom(With(balls[..ballCount], []), capsules[i..count], capsules[..kept]) == due
      {
        ghost var falling := capsules[i..count];
        assert falling[0] == capsules[i] && falling[1..] == capsules[i + 1..count];
        var capsule := capsules[i];
        capsule := capsule.(y := capsule.y + CAPSULE_SPEED);
        ghost var g := With(balls[..ballCount], []);
        assert Catches(g, capsule) == (PADDLE_Y <= capsule.y <= PADDLE_Y + PADDLE_H + CAPSULE_SPEED
                                       && paddleX <= capsule.x <= paddleX + paddleW);
        var isCaught := capsule.y >= PADDLE_Y && capsule.y <= PADDLE_Y + PADDLE_H + CAPSULE_SPEED
                        && capsule.x >= paddleX && capsule.x <= paddleX + paddleW;
        if isCaught {
          ApplyCapsule(capsule.kind);
        } else if capsule.y < FIELD_H {
          ghost var before := capsules[..kept];
          capsules[kept] := capsule;
          kept := kept + 1;
          assert capsules[..kept] == before + [capsule];
          assert capsules[i + 1..count] == falling[1..];
        }
        i := i + 1;
      }
      assert capsules[count..count] == [];
      capsuleCount := kept;
    }

    // ----- inputs -----

    method SpawnBall(vx: int)
      requires Valid()
      modifies this`ballCount, balls
      ensures Valid()
      ensures balls[..ballCount] == if old(ballCount) >= MAX_BALLS then old(balls[..ballCount]) else
        old(balls[..ballCount]) + [Ball(paddleX + paddleW / 2, PADDLE_Y - BALL_R, vx, -(speed as int))]
    {
      if ballCount >= MAX_BALLS {
        return;
      }
      ghost var was := balls[..ballCount];
      balls[ballCount] := Ball(paddleX + paddleW / 2, PADDLE_Y - BALL_R, vx, -(speed as int));
      ballCount := ballCount + 1;
      assert balls[..ballCount] == was + [balls[ballCount - 1]];
    }

    method Apply(action: int, value: int)
      requires Valid()
      modifies this`target, this`held, this`ballCount, balls
      ensures Valid()
      ensures Model() == QuarryRules.Apply(old(Model()), action, value)
    {
      if over {
        return;
      }
      if action == ACTION_TARGET {
        target := Min(Max(value, 0), FIELD_W - paddleW);
      } else if action == ACTION_LAUNCH {
        if held {
          held := false;
          SpawnBall(speed / 2);
        }
      }
    }

    // ----- balls -----

    /** The game around the balls, whose array is being rewritten. */
    ghost function Scene(): Game
      requires Valid()
      reads this, bricks, capsules
    {
      With([], capsules[..capsuleCount])
    }

    /** Move ball i and reflect it off the side walls and the ceiling. */
    method MoveBall(i: nat)
      requires Valid() && i < MAX_BALLS
      modifies balls
      ensures balls[i] == Move(old(balls[i]))
      ensures forall k :: 0 <= k < MAX_BALLS && k != i ==> balls[k] == old(balls[k])
    {
      balls[i] := balls[i].(x := balls[i].x + balls[i].vx, y := balls[i].y + balls[i].vy);
      if balls[i].x - BALL_R < 0 {
        balls[i] := balls[i].(x := BALL_R, vx := -balls[i].vx);
      } else if balls[i].x + BALL_R > FIELD_W {
        balls[i] := balls[i].(x := FIELD_W - BALL_R, vx := -balls[i].vx);
      }
      if balls[i].y - BALL_R < 0 {
        balls[i] := balls[i].(y := BALL_R, vy := -balls[i].vy);
      }
    }

    method StrikeBrick(i: nat)
      requires Valid() && i < MAX_BALLS && balls[i].x >= 0
      modifies this`hits, this`score, this`bricksBroken, this`capsuleCount, this`refused, bricks, capsules, balls
      ensures Valid()
      ensures Strike(Core, draws, old(Scene()), old(balls[i])) == Flight(Scene(), balls[i], false)
      ensures forall k :: 0 <= k < MAX_BALLS && k != i ==> balls[k] == old(balls[k])
    {
      hide QuarryRules.HitBrick, BrickAt;
      var cell := BrickIn(balls[i].x, balls[i].y);
      if cell >= 0 && bricks[cell] != EMPTY {
        HitBrickUnseen(cell);
        balls[i] := balls[i].(vy := -balls[i].vy);
        balls[i] := balls[i].(y := balls[i].y + balls[i].vy);
      }
    }

    /** A brick hit does not look at the balls. */
    method HitBrickUnseen(cell: nat)
      requires Valid() && cell < CELLS
      modifies this`hits, this`score, this`bricksBroken, this`capsuleCount, this`refused, bricks, capsules
      ensures Valid()
      ensures Scene() == QuarryRules.HitBrick(Core, draws, old(Scene()), cell)
    {
      HitIgnoresBalls(draws, Model(), cell);
      hide QuarryRules.HitBrick;
      HitBrick(cell);
    }

    static lemma HitIgnoresBalls(draws: Draws, g: Game, cell: nat)
      requires cell < CELLS
      ensures QuarryRules.HitBrick(Core, draws, g.(balls := []), cell)
           == QuarryRules.HitBrick(Core, draws, g, cell).(balls := [])
    {
      hide QuarryRules.DropCapsule, BrickScore;
      var tier := g.bricks[cell];
      if tier > 0 {
        var h := g.(bricks := g.bricks[cell := tier - 1], hits := g.hits + 1);
        DropIgnoresBalls(draws, h.(score := h.score + BrickScore(Min(tier, 3)) * g.speed / BALL_SPEED,
                                   bricksBroken := h.bricksBroken + 1), cell);
      }
    }

    static lemma DropIgnoresBalls(draws: Draws, g: Game, cell: nat)
      ensures QuarryRules.DropCapsule(Core, draws, g.(balls := []), cell)
           == QuarryRules.DropCapsule(Core, draws, g, cell).(balls := [])
    {
      hide CapsuleOf, Drops;
    }

    method RampUp()
      requires Valid()
      modifies this`rally, this`speed
      ensures Valid()
      ensures With([], []) == Ramp(old(With([], [])))
    {
      rally := rally + 1;
      if rally >= SPEED_RALLY {
        rally := 0;
        speed := Min(speed + SPEED_STEP, BALL_SPEED_MAX);
      }
    }

    method BounceBall(i: nat)
      requires Valid() && i < MAX_BALLS
      modifies this`rally, this`speed, balls
      ensures Valid()
      ensures Bounce(old(Scene()), old(balls[i])) == Flight(Scene(), balls[i], false)
      ensures forall k :: 0 <= k < MAX_BALLS && k != i ==> balls[k] == old(balls[k])
    {
      hide TruncDiv, Ramp;
      SceneRamps();
      var centre := paddleX + paddleW / 2;
      var offset := balls[i].x - centre;
      var vx := TruncDiv(offset * speed * 2, paddleW / 2);
      var floor := speed / 4;
      if vx > -floor && vx < floor {
        vx := if offset < 0 then -floor else floor;
      }
      balls[i] := balls[i].(vx := Min(Max(vx, -2 * speed), 2 * speed));
      balls[i] := balls[i].(vy := -(speed as int));
      balls[i] := balls[i].(y := PADDLE_Y - BALL_R);
    }

    method SceneRamps()
      requires Valid()
      modifies this`rally, this`speed
      ensures Valid()
      ensures Scene() == Ramp(old(Scene()))
    {
      RampUp();
    }

    /** One sub-step of ball i; true when the paddle caught it. */
    method SubStepBall(i: nat) returns (stuck: bool)
      requires Valid() && i < MAX_BALLS
      modifies this`hits, this`score, this`bricksBroken, this`capsuleCount, this`refused, this`rally, this`speed
      modifies this`held, this`catching, bricks, capsules, balls
      ensures Valid()
      ensures SubStep(Core, draws, old(Scene()), old(balls[i])) == Flight(Scene(), balls[i], stuck)
      ensures forall k :: 0 <= k < MAX_BALLS && k != i ==> balls[k] == old(balls[k])
    {
      hide Strike, Bounce;
      MovedIsInside(balls[i]);
      MoveBall(i);
      hide Move;
      StrikeBrick(i);
      var ball := balls[i];
      if ball.vy > 0 && ball.y + BALL_R >= PADDLE_Y && ball.y - BALL_R <= PADDLE_Y + PADDLE_H
         && ball.x >= paddleX && ball.x <= paddleX + paddleW {
        if catching {
          held := true;
          catching := false;
          return true;
        }
        BounceBall(i);
      }
      return false;
    }

    static lemma MovedIsInside(b: Ball)
      ensures BALL_R <= Move(b).x <= FIELD_W - BALL_R
    {
    }

    /** One tick of ball i; false when it is gone. */
    method StepBall(i: nat) returns (alive: bool)
      requires Valid() && i < MAX_BALLS
      modifies this`hits, this`score, this`bricksBroken, this`capsuleCount, this`refused, this`rally, this`speed
      modifies this`held, this`catching, bricks, capsules, balls
      ensures Valid()
      ensures var f := QuarryRules.StepBall(Core, draws, old(Scene()), old(balls[i]));
        f.game == Scene() && f.ball == balls[i] && alive == (f.stuck || f.ball.y - BALL_R <= FIELD_H)
      ensures forall k :: 0 <= k < MAX_BALLS && k != i ==> balls[k] == old(balls[k])
    {
      hide SubStep;
      var steps := if slow > 0 then 1 else 2;
      var stuck := SubStepBall(i);
      if stuck {
        return true;
      }
      if steps == 2 {
        stuck := SubStepBall(i);
        if stuck {
          return true;
        }
      }
      return balls[i].y - BALL_R <= FIELD_H;
    }

    /** What one turn of the loop below does to the balls still flying and those kept. */
    static lemma OneBallMore(draws: Draws, g: Game, flying: seq<Ball>, kept: seq<Ball>)
      requires flying != []
      ensures var f := QuarryRules.StepBall(Core, draws, g, flying[0]);
        StepBallsFrom(Core, draws, g, flying, kept)
        == StepBallsFrom(Core, draws, f.game, flying[1..], if Survives(f) then kept + [f.ball] else kept)
    {
      hide QuarryRules.StepBall, Survives;
    }

    method StepBalls()
      requires Valid()
      modifies this`hits, this`score, this`bricksBroken, this`capsuleCount, this`refused, this`rally, this`speed
      modifies this`held, this`catching, this`ballCount, bricks, capsules, balls
      ensures Valid()
      ensures Model() == QuarryRules.StepBalls(Core, draws, old(Model()))
    {
      hide QuarryRules.StepBall, StepBallsFrom;
      ghost var due := QuarryRules.StepBalls(Core, draws, old(Model()));
      var count := ballCount;
      var kept := 0;
      var i := 0;
      assert balls[0..count] == balls[..count] && balls[..0] == [];
      while i < count
        invariant 0 <= kept <= i <= count == ballCount && Valid()
        invariant StepBallsFrom(Core, draws, Scene(), balls[i..count], balls[..kept]) == due
      {
        kept := KeepOrDrop(i, count, kept);
        i := i + 1;
      }
      NoneLeft(draws, Scene(), balls[count..count], balls[..kept]);
      ballCount := kept;
    }

    static lemma NoneLeft(draws: Draws, g: Game, flying: seq<Ball>, kept: seq<Ball>)
      requires flying == []
      ensures StepBallsFrom(Core, draws, g, flying, kept) == g.(balls := kept)
    {
    }

    /** Step ball i, and move it down to the kept ones if it is still in play. */
    method KeepOrDrop(i: nat, count: nat, kept: nat) returns (keptNow: nat)
      requires Valid() && kept <= i < count <= MAX_BALLS
      modifies this`hits, this`score, this`bricksBroken, this`capsuleCount, this`refused, this`rally, this`speed
      modifies this`held, this`catching, bricks, capsules, balls
      ensures Valid() && kept <= keptNow <= i + 1
      ensures StepBallsFrom(Core, draws, Scene(), balls[i + 1..count], balls[..keptNow])
           == old(StepBallsFrom(Core, draws, Scene(), balls[i..count], balls[..kept]))
    {
      hide QuarryRules.StepBall, StepBallsFrom;
      ghost var flying, before := balls[i..count], balls[..kept];
      OneBallMore(draws, Scene(), flying, before);
      var alive := StepBall(i);
      keptNow := kept;
      if alive && !held {
        balls[kept] := balls[i];
        keptNow := kept + 1;
        assert balls[..keptNow] == before + [balls[kept]];
      } else {
        assert balls[..keptNow] == before;
      }
      assert balls[i + 1..count] == flying[1..];
    }

    // ----- a tick -----

    method CountTick()
      requires Valid()
      modifies this`tick, this`slow
      ensures Valid()
      ensures Model() == old(Model()).(tick := old(tick) + 1, slow := if old(slow) > 0 then old(slow) - 1 else 0)
    {
      tick := tick + 1;
      if slow > 0 {
        slow := slow - 1;
      }
    }

    method BeginTick()
      requires Valid()
      modifies this`tick, this`slow, this`paddleX
      ensures Valid()
      ensures Model() == Begin(old(Model()))
    {
      CountTick();
      var delta := target - paddleX;
      if delta > PADDLE_SPEED {
        paddleX := paddleX + PADDLE_SPEED;
      } else if delta < -PADDLE_SPEED {
        paddleX := paddleX - PADDLE_SPEED;
      } else {
        paddleX := target;
      }
      paddleX := Min(Max(paddleX, 0), FIELD_W - paddleW);
    }

    method RestPaddle()
      requires Valid()
      modifies this`paddleW, this`speed, this`rally
      ensures Valid()
      ensures Model() == old(Model()).(paddleW := PADDLE_W, speed := BaseSpeed(level), rally := 0)
    {
      hide BaseSpeed;
      paddleW := PADDLE_W;
      speed := BaseSpeed(level);
      rally := 0;
    }

    method DropEffects()
      requires Valid()
      modifies this`lives, this`catching, this`slow
      ensures Valid()
      ensures Model() == old(Model()).(lives := old(lives) - 1, catching := false, slow := 0)
    {
      lives := lives - 1;
      catching := false;
      slow := 0;
    }

    method CheckLife()
      requires Valid()
      modifies this`lives, this`catching, this`slow, this`paddleW, this`speed, this`rally, this`over, this`held
      ensures Valid()
      ensures Model() == LoseLife(old(Model()))
    {
      hide BaseSpeed;
      if ballCount == 0 && !held {
        DropEffects();
        RestPaddle();
        if lives <= 0 {
          over := true;
        } else {
          held := true;
        }
      }
    }

    method IsCleared() returns (cleared: bool)
      requires Valid()
      ensures cleared == WallCleared(bricks[..])
    {
      for i := 0 to CELLS
        invariant forall k :: 0 <= k < i ==> bricks[k] == EMPTY || bricks[k] == SOLID
      {
        if bricks[i] != EMPTY && bricks[i] != SOLID {
          assert bricks[..][i] == bricks[i];
          return false;
        }
      }
      return true;
    }

    method BuildWall()
      requires Valid()
      modifies bricks
      ensures bricks[..] == WallAt(draws, level)
    {
      hide TierAt;
      for row := 0 to 4
        invariant forall k :: 0 <= k < 8 * row ==> bricks[k] == TierAt(draws, level, k / 8, k % 8)
      {
        for col := 0 to 8
          invariant forall k :: 0 <= k < 8 * row + col ==> bricks[k] == TierAt(draws, level, k / 8, k % 8)
        {
          assert (row * 8 + col) / 8 == row && (row * 8 + col) % 8 == col;
          bricks[row * 8 + col] := TierAt(draws, level, row, col);
        }
      }
    }

    method ClearField()
      requires Valid()
      modifies this`ballCount, this`capsuleCount, this`held
      ensures Valid()
      ensures Model() == old(Model()).(balls := [], capsules := [], held := true)
    {
      ballCount := 0;
      capsuleCount := 0;
      held := true;
    }

    method CheckWall()
      requires Valid()
      modifies this`level, this`score, this`ballCount, this`capsuleCount, this`held, this`paddleW, this`speed
      modifies this`rally, bricks
      ensures Valid()
      ensures Model() == NextWall(draws, old(Model()))
    {
      hide BaseSpeed, WallAt, WallCleared;
      var cleared := IsCleared();
      if cleared {
        level := level + 1;
        score := score + 1000;
        BuildWall();
        ClearField();
        RestPaddle();
      }
    }

    /** A tick with the balls in flight, up to the clock. */
    method PlayTick()
      requires Valid()
      modifies this, bricks, balls, capsules
      ensures Valid()
      ensures Model() == NextWall(draws, LoseLife(QuarryRules.StepCapsules(
                           QuarryRules.StepBalls(Core, draws, old(Model())))))
    {
      hide QuarryRules.StepBalls, QuarryRules.StepCapsules, LoseLife, NextWall;
      StepBalls();
      StepCapsules();
      CheckLife();
      CheckWall();
    }

    method CheckClock()
      requires Valid()
      modifies this`over
      ensures Valid()
      ensures Model() == End(old(Model()))
    {
      if tick >= MAX_TICKS {
        over := true;
      }
    }

    method Step()
      requires Valid()
      modifies this, bricks, balls, capsules
      ensures Valid()
      ensures Model() == QuarryRules.Step(Core, draws, old(Model()))
    {
      hide QuarryRules.StepBalls, QuarryRules.StepCapsules, LoseLife, NextWall, Begin, End;
      if over {
        return;
      }
      BeginTick();
      if held {
        StepCapsules();
        CheckClock();
        return;
      }
      PlayTick();
      CheckClock();
    }
  }

  /** Apply the events that are due, in order. */
  method DrainEvents(state: State, events: seq<Event>, from: nat) returns (index: nat)
    requires state.Valid() && from <= |events|
    modifies state, state.balls
    ensures state.Valid() && index <= |events|
    ensures QuarryRuns.Drain(Core, old(state.Model()), events[from..])
         == QuarryRuns.Drained(state.Model(), events[index..])
  {
    hide QuarryRules.Apply;
    index := from;
    while index < |events| && TargetTick(events[index].tick) == state.tick
      invariant index <= |events| && state.Valid()
      invariant QuarryRuns.Drain(Core, state.Model(), events[index..])
             == QuarryRuns.Drain(Core, old(state.Model()), events[from..])
    {
      assert events[index..][0] == events[index] && events[index..][1..] == events[index + 1..];
      state.Apply(events[index].action, events[index].value);
      index := index + 1;
    }
    if index < |events| {
      assert events[index..][0] == events[index];
    }
  }

  /** Replay a log, as the verifier does. */
  method Replay(draws: Draws, events: seq<Event>) returns (outcome: Outcome)
    ensures var g := QuarryRuns.Replay(Core, draws, events);
      outcome == Outcome(g.score, g.bricksBroken, g.tick)
  {
    hide QuarryRules.Step, QuarryRuns.Drain, NewGame, QuarryRuns.Loop;
    var state := new State(draws);
    var index := 0;
    var guard := 0;
    ghost var due := QuarryRuns.Replay(Core, draws, events);
    assert events[0..] == events;
    while !state.over && guard < QuarryRuns.GUARD
      invariant 0 <= index <= |events| && 0 <= guard <= QuarryRuns.GUARD
      invariant state.Valid() && state.draws == draws
      invariant fresh(state) && fresh(state.bricks) && fresh(state.balls) && fresh(state.capsules)
      invariant QuarryRuns.Loop(Core, draws, state.Model(), events[index..], QuarryRuns.GUARD - guard) == due
    {
      QuarryRuns.LoopUnfolds(Core, draws, state.Model(), events[index..], QuarryRuns.GUARD - guard);
      guard := guard + 1;
      index := DrainEvents(state, events, index);
      state.Step();
    }
    QuarryRuns.LoopUnfolds(Core, draws, state.Model(), events[index..], QuarryRuns.GUARD - guard);
    return Outcome(state.score, state.bricksBroken, state.tick);
  }
}
