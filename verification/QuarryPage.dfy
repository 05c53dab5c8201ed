/** The page's own form of Quarry: an object whose lists are pushed to and replaced.
    Each method is proved to do what the rules say, with no cap on falling capsules. */
module QuarryPage {
  import opened Arcade
  import opened Basics
  import opened QuarryRules
  import QuarryRuns

  class State {
    const draws: Draws
    var tick: nat
    var level: nat
    var score: nat
    var lives: int
    var bricks: Wall
    var paddleX: int
    var paddleW: PaddleWidth
    var target: int
    var balls: seq<Ball>
    var capsules: seq<Capsule>
    var held: bool
    var catching: bool
    var slow: nat
    var over: bool
    var bricksBroken: nat
    var speed: Pace
    var rally: nat
    ghost var hits: nat
    ghost var caught: nat
    ghost var refused: nat

    ghost function With(bs: seq<Ball>, cs: seq<Capsule>): Game
      reads this
    {
      Game(tick, level, score, lives, bricks, paddleX, paddleW, target, bs, cs, held, catching, slow, over,
           bricksBroken, speed, rally, hits, caught, refused)
    }

    ghost function Model(): Game
      reads this
    {
      With(balls, capsules)
    }

    constructor (draws: Draws)
      ensures Model() == NewGame(draws) && this.draws == draws
    {
      this.draws := draws;
      tick, level, score, lives, bricks := 0, 0, 0, START_LIVES, WallAt(draws, 0);
      paddleX, paddleW, target := (FIELD_W - PADDLE_W) / 2, PADDLE_W, (FIELD_W - PADDLE_W) / 2;
      balls, capsules, held, catching, slow, over := [], [], true, false, 0, false;
      bricksBroken, speed, rally, hits, caught, refused := 0, BALL_SPEED, 0, 0, 0, 0;
    }

    // ----- bricks and capsules -----

    method MaybeDropCapsule(index: nat)
      modifies this`capsules, this`refused
      ensures Model() == DropCapsule(Page, draws, old(Model()), index)
    {
      hide CapsuleOf, Drops;
      if !Drops(draws, index) {
        return;
      }
      ghost var full := |capsules| >= MAX_CAPSULES;
      refused := if full then refused + 1 else refused;
      capsules := capsules + [CapsuleOf(draws, index)];
    }

    method PayBreak(pay: nat)
      modifies this`score, this`bricksBroken
      ensures Model() == old(Model()).(score := old(score) + pay, bricksBroken := old(bricksBroken) + 1)
    {
      score := score + pay;
      bricksBroken := bricksBroken + 1;
    }

    method HitBrick(index: nat)
      requires index < CELLS
      modifies this`bricks, this`hits, this`score, this`bricksBroken, this`capsules, this`refused
      ensures Model() == QuarryRules.HitBrick(Page, draws, old(Model()), index)
    {
      hide DropCapsule, BrickScore;
      var tier := bricks[index];
      if tier == EMPTY || tier == SOLID {
        return;
      }
      bricks := bricks[index := tier - 1];
      hits := hits + 1;
      if tier - 1 == EMPTY {
        PayBreak(BrickScore(Min(tier, 3)) * speed / BALL_SPEED);
        MaybeDropCapsule(index);
      } else {
        score := score + 10;
      }
    }

    method SplitBalls()
      modifies this`balls
      ensures balls == Split(old(balls))
    {
      var born := [];
      var i := 0;
      ghost var room := Min(|balls|, Max(0, MAX_BALLS - |balls|));
      while i < |balls| && |balls| + |born| < MAX_BALLS
        invariant 0 <= i <= room && balls == old(balls)
        invariant born == seq(i, k requires 0 <= k < i <= |old(balls)| => Mirror(old(balls)[k]))
      {
        born := born + [Ball(balls[i].x, balls[i].y, -balls[i].vx, balls[i].vy)];
        i := i + 1;
      }
      balls := balls + born;
    }

    method ApplyCapsule(kind: nat)
      modifies this`score, this`caught, this`paddleW, this`slow, this`catching, this`balls
      ensures With(balls, []) == QuarryRules.ApplyCapsule(old(With(balls, [])), kind)
    {
      hide Split;
      PayCapsule();
      if kind == CAPSULE_WIDEN {
        paddleW := Min(paddleW + 128, 1024);
      } else if kind == CAPSULE_MULTI {
        SplitBalls();
      } else if kind == CAPSULE_SLOW {
        slow := SLOW_TICKS;
      } else {
        catching := true;
      }
    }

    method PayCapsule()
      modifies this`score, this`caught
      ensures With(balls, []) == old(With(balls, [])).(score := old(score) + CAPSULE_SCORE, caught := old(caught) + 1)
    {
      score := score + CAPSULE_SCORE;
      caught := caught + 1;
    }

    method StepCapsules()
      modifies this`score, this`caught, this`paddleW, this`slow, this`catching, this`balls, this`capsules
      ensures Model() == QuarryRules.StepCapsules(old(Model()))
    {
      hide QuarryRules.ApplyCapsule;
      ghost var due := QuarryRules.StepCapsules(old(Model()));
      var kept := [];
      var i := 0;
      assert capsules[0..] == capsules;
      while i < |capsules|
        invariant 0 <= i <= |capsules| && capsules == old(capsules)
        invariant StepCapsulesFrom(With(balls, []), capsules[i..], kept) == due
      {
        assert capsules[i..][0] == capsules[i] && capsules[i..][1..] == capsules[i + 1..];
        var capsule := capsules[i].(y := capsules[i].y + CAPSULE_SPEED);
        ghost var g := With(balls, []);
        assert Catches(g, capsule) == (PADDLE_Y <= capsule.y <= PADDLE_Y + PADDLE_H + CAPSULE_SPEED
                                       && paddleX <= capsule.x <= paddleX + paddleW);
        var isCaught := capsule.y >= PADDLE_Y && capsule.y <= PADDLE_Y + PADDLE_H + CAPSULE_SPEED
                        && capsule.x >= paddleX && capsule.x <= paddleX + paddleW;
        if isCaught {
          ApplyCapsule(capsule.kind);
        } else if capsule.y < FIELD_H {
          kept := kept + [capsule];
        }
        i := i + 1;
      }
      capsules := kept;
    }

    // ----- inputs -----

    method ApplyAction(action: int, value: int)
      modifies this`target, this`held, this`balls
      ensures Model() == Apply(old(Model()), action, value)
    {
      if over {
        return;
      }
      if action == ACTION_TARGET {
        target := Max(0, Min(FIELD_W - paddleW, value));
      } else if action == ACTION_LAUNCH {
        if held {
          held := false;
          if |balls| < MAX_BALLS {
            balls := balls + [Ball(paddleX + paddleW / 2, PADDLE_Y - BALL_R, speed / 2, -(speed as int))];
          }
        }
      }
    }

    // ----- balls -----

    method BounceOffPaddle(ball: Ball) returns (bounced: Ball)
      modifies this`rally, this`speed
      ensures Bounce(old(Model()), ball) == Flight(Model(), bounced, false)
    {
      hide TruncDiv, Ramp;
      RampUp();
      var offset := ball.x - (paddleX + paddleW / 2);
      var vx := TruncDiv(offset * speed * 2, paddleW / 2);
      var floor := speed / 4;
      if vx > -floor && vx < floor {
        vx := if offset < 0 then -floor else floor;
      }
      bounced := Ball(ball.x, PADDLE_Y - BALL_R, Max(-2 * speed, Min(2 * speed, vx)), -(speed as int));
    }

    method RampUp()
      modifies this`rally, this`speed
      ensures Model() == Ramp(old(Model()))
    {
      rally := rally + 1;
      if rally >= SPEED_RALLY {
        rally := 0;
        speed := Min(BALL_SPEED_MAX, speed + SPEED_STEP);
      }
    }

    method Reflect(ball: Ball) returns (moved: Ball)
      ensures moved == Move(ball)
    {
      moved := ball.(x := ball.x + ball.vx, y := ball.y + ball.vy);
      if moved.x - BALL_R < 0 {
        moved := moved.(x := BALL_R, vx := -moved.vx);
      } else if moved.x + BALL_R > FIELD_W {
        moved := moved.(x := FIELD_W - BALL_R, vx := -moved.vx);
      }
      if moved.y - BALL_R < 0 {
        moved := moved.(y := BALL_R, vy := -moved.vy);
      }
    }

    method SubStepBall(ball: Ball) returns (moved: Ball, stuck: bool)
      modifies this`bricks, this`hits, this`score, this`bricksBroken, this`capsules, this`refused
      modifies this`rally, this`speed, this`held, this`catching
      ensures SubStep(Page, draws, old(Model()), ball) == Flight(Model(), moved, stuck)
    {
      hide QuarryRules.HitBrick, Bounce, Move, BrickAt;
      moved := Reflect(ball);
      var index := BrickAt(moved.x, moved.y);
      if index >= 0 && bricks[index] != EMPTY {
        HitBrick(index);
        moved := moved.(vy := -moved.vy, y := moved.y - moved.vy);
      }
      if moved.vy > 0 && moved.y + BALL_R >= PADDLE_Y && moved.y - BALL_R <= PADDLE_Y + PADDLE_H
         && moved.x >= paddleX && moved.x <= paddleX + paddleW {
        if catching {
          held := true;
          catching := false;
          return moved, true;
        }
        moved := BounceOffPaddle(moved);
      }
      stuck := false;
    }

    method StepOneBall(ball: Ball) returns (moved: Ball, alive: bool)
      modifies this`bricks, this`hits, this`score, this`bricksBroken, this`capsules, this`refused
      modifies this`rally, this`speed, this`held, this`catching
      ensures var f := StepBall(Page, draws, old(Model()), ball);
        f.game == Model() && f.ball == moved && alive == (f.stuck || f.ball.y - BALL_R <= FIELD_H)
    {
      hide SubStep;
      var steps := if slow > 0 then 1 else 2;
      var stuck;
      moved, stuck := SubStepBall(ball);
      if stuck {
        return moved, true;
      }
      if steps == 2 {
        moved, stuck := SubStepBall(moved);
        if stuck {
          return moved, true;
        }
      }
      alive := moved.y - BALL_R <= FIELD_H;
    }

    /** The balls of a tick; the list is replaced when all have moved. */
    method StepAllBalls()
      modifies this`bricks, this`hits, this`score, this`bricksBroken, this`capsules, this`refused
      modifies this`rally, this`speed, this`held, this`catching, this`balls
      ensures Model() == StepBalls(Page, draws, old(Model()))
    {
      hide StepBall;
      ghost var due := StepBalls(Page, draws, old(Model()));
      var flying := balls;
      balls := [];
      var alive := [];
      var i := 0;
      assert flying[0..] == flying;
      while i < |flying|
        invariant 0 <= i <= |flying| && balls == []
        invariant StepBallsFrom(Page, draws, Model(), flying[i..], alive) == due
      {
        assert flying[i..][0] == flying[i] && flying[i..][1..] == flying[i + 1..];
        var moved, keep := StepOneBall(flying[i]);
        if keep && !held {
          alive := alive + [moved];
        }
        i := i + 1;
      }
      balls := alive;
    }

    // ----- a tick -----

    method BeginTick()
      modifies this`tick, this`slow, this`paddleX
      ensures Model() == Begin(old(Model()))
    {
      tick := tick + 1;
      if slow > 0 {
        slow := slow - 1;
      }
      var delta := target - paddleX;
      var near := if delta > PADDLE_SPEED then paddleX + PADDLE_SPEED
                  else if delta < -PADDLE_SPEED then paddleX - PADDLE_SPEED
                  else target;
      paddleX := Max(0, Min(FIELD_W - paddleW, near));
    }

    method RestPaddle()
      modifies this`paddleW, this`speed, this`rally
      ensures Model() == old(Model()).(paddleW := PADDLE_W, speed := BaseSpeed(level), rally := 0)
    {
      PageBaseSpeed(level);
      hide BaseSpeed;
      paddleW := PADDLE_W;
      speed := Min(BALL_SPEED_MAX, BALL_SPEED + level * SPEED_STEP);
      rally := 0;
    }

    /** The page does not cut the level off at 64 first; the ceiling makes that no
        difference. */
    static lemma PageBaseSpeed(level: nat)
      ensures Min(BALL_SPEED_MAX, BALL_SPEED + level * SPEED_STEP) == BaseSpeed(level)
    {
    }

    method DropEffects()
      modifies this`lives, this`catching, this`slow
      ensures Model() == old(Model()).(lives := old(lives) - 1, catching := false, slow := 0)
    {
      lives := lives - 1;
      catching := false;
      slow := 0;
    }

    method CheckLife()
      modifies this`lives, this`catching, this`slow, this`paddleW, this`speed, this`rally, this`over, this`held
      ensures Model() == LoseLife(old(Model()))
    {
      hide BaseSpeed;
      if |balls| == 0 && !held {
        DropEffects();
        RestPaddle();
        if lives <= 0 {
          over := true;
        } else {
          held := true;
        }
      }
    }

    method IsCleared() returns (cleared: bool)
      ensures cleared == WallCleared(bricks)
    {
      for i := 0 to CELLS
        invariant forall k :: 0 <= k < i ==> bricks[k] == EMPTY || bricks[k] == SOLID
      {
        if bricks[i] != EMPTY && bricks[i] != SOLID {
          return false;
        }
      }
      return true;
    }

    method EmptyField()
      modifies this`balls, this`capsules, this`held
      ensures Model() == old(Model()).(balls := [], capsules := [], held := true)
    {
      balls := [];
      capsules := [];
      held := true;
    }

    method RaiseWall()
      modifies this`level, this`score, this`bricks
      ensures Model() == old(Model()).(level := old(level) + 1, score := old(score) + 1000,
                                       bricks := WallAt(draws, old(level) + 1))
    {
      hide WallAt;
      level := level + 1;
      score := score + 1000;
      bricks := WallAt(draws, level);
    }

    method CheckWall()
      modifies this`level, this`score, this`bricks, this`balls, this`capsules, this`held
      modifies this`paddleW, this`speed, this`rally
      ensures Model() == NextWall(draws, old(Model()))
    {
      hide BaseSpeed, WallAt, WallCleared;
      var cleared := IsCleared();
      if cleared {
        RaiseWall();
        EmptyField();
        RestPaddle();
      }
    }

    method CheckClock()
      modifies this`over
      ensures Model() == End(old(Model()))
    {
      if tick >= MAX_TICKS {
        over := true;
      }
    }

    method StepTick()
      modifies this
      ensures Model() == Step(Page, draws, old(Model()))
    {
      hide StepBalls, QuarryRules.StepCapsules, LoseLife, NextWall, Begin, End;
      if over {
        return;
      }
      BeginTick();
      if held {
        StepCapsules();
        CheckClock();
        return;
      }
      StepAllBalls();
      StepCapsules();
      CheckLife();
      CheckWall();
      CheckClock();
    }
  }

  /** Replay a log and return the state it ends in. */
  method Replay(draws: Draws, events: seq<Event>) returns (state: State)
    ensures fresh(state) && state.Model() == QuarryRuns.Replay(Page, draws, events)
  {
    hide Step, Apply, NewGame, QuarryRuns.Loop;
    state := new State(draws);
    var index := 0;
    var guard := 0;
    ghost var due := QuarryRuns.Replay(Page, draws, events);
    assert events[0..] == events;
    while !state.over && guard < QuarryRuns.GUARD
      invariant 0 <= index <= |events| && 0 <= guard <= QuarryRuns.GUARD
      invariant state.draws == draws && fresh(state)
      invariant QuarryRuns.Loop(Page, draws, state.Model(), events[index..], QuarryRuns.GUARD - guard) == due
    {
      QuarryRuns.LoopUnfolds(Page, draws, state.Model(), events[index..], QuarryRuns.GUARD - guard);
      guard := guard + 1;
      ghost var drained := QuarryRuns.Drain(Page, state.Model(), events[index..]);
      while index < |events| && events[index].tick == state.tick
        invariant 0 <= index <= |events| && state.draws == draws && fresh(state)
        invariant QuarryRuns.Drain(Page, state.Model(), events[index..]) == drained
        decreases |events| - index
      {
        assert events[index..][0] == events[index] && events[index..][1..] == events[index + 1..];
        state.ApplyAction(events[index].action, events[index].value);
        index := index + 1;
      }
      if index < |events| {
        assert events[index..][0] == events[index];
      }
      assert drained == QuarryRuns.Drained(state.Model(), events[index..]);
      state.StepTick();
    }
    QuarryRuns.LoopUnfolds(Page, draws, state.Model(), events[index..], QuarryRuns.GUARD - guard);
  }
}
