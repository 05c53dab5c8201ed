/** The paddle of Quarry: it never moves faster than its speed, however it is aimed and
    widened, and what it can stick out of the field. */
module QuarryPaddle {
  import opened Arcade
  import opened Basics
  import opened QuarryRules
  import opened QuarryBalls
  import QuarryLedger
  import opened QuarryRuns

  /** The most a widened paddle can stick out: it was on a capsule in the last column. */
  const OVERHANG: int := 64

  predicate SticksOutLittle(g: Game)
  {
    g.paddleX + g.paddleW <= FIELD_W + OVERHANG
  }

  predicate SamePaddle(g: Game, h: Game)
  {
    h.paddleX == g.paddleX && h.paddleW == g.paddleW
  }

  // ----- what moves and resizes it -----

  lemma MeetKeepsPaddle(g: Game, b: Ball)
    ensures SamePaddle(g, Meet(g, b).game)
  {
    hide Deflect, MeetsPaddle;
  }

  lemma SubStepKeepsPaddle(twin: Twin, draws: Draws, g: Game, b: Ball)
    ensures SamePaddle(g, SubStep(twin, draws, g, b).game)
  {
    hide Move, Strike, Meet;
    var f := Strike(twin, draws, g, Move(b));
    StrikeKeepsRig(twin, draws, g, Move(b));
    MeetKeepsPaddle(f.game, f.ball);
  }

  lemma {:induction false} BallsKeepPaddle(twin: Twin, draws: Draws, g: Game, flying: seq<Ball>, kept: seq<Ball>)
    ensures SamePaddle(g, StepBallsFrom(twin, draws, g, flying, kept))
    decreases |flying|
  {
    hide SubStep, Survives;
    if flying != [] {
      var first := SubStep(twin, draws, g, flying[0]);
      SubStepKeepsPaddle(twin, draws, g, flying[0]);
      SubStepKeepsPaddle(twin, draws, first.game, first.ball);
      var f := StepBall(twin, draws, g, flying[0]);
      BallsKeepPaddle(twin, draws, f.game, flying[1..], if Survives(f) then kept + [f.ball] else kept);
    }
  }

  /** A capsule can widen the paddle only where the paddle is under it, and none falls
      further right than the last column. */
  lemma CatchSticksOutLittle(g: Game, c: Capsule)
    requires SticksOutLittle(g) && Catches(g, c) && Falling(c.(y := c.y - CAPSULE_SPEED))
    ensures SticksOutLittle(ApplyCapsule(g, c.kind)) && ApplyCapsule(g, c.kind).paddleX == g.paddleX
  {
    hide Split;
  }

  lemma {:induction false} CapsulesStickOutLittle(g: Game, falling: seq<Capsule>, kept: seq<Capsule>)
    requires SticksOutLittle(g) && forall c :: c in falling ==> Falling(c)
    ensures var h := StepCapsulesFrom(g, falling, kept); SticksOutLittle(h) && h.paddleX == g.paddleX
    decreases |falling|
  {
    hide Falling, Catches, ApplyCapsule;
    if falling != [] {
      assert falling[0] in falling;
      var c := falling[0].(y := falling[0].y + CAPSULE_SPEED);
      assert c.(y := c.y - CAPSULE_SPEED) == falling[0];
      if Catches(g, c) {
        CatchSticksOutLittle(g, c);
        CapsulesStickOutLittle(ApplyCapsule(g, c.kind), falling[1..], kept);
      } else {
        CapsulesStickOutLittle(g, falling[1..], if c.y < FIELD_H then kept + [c] else kept);
      }
    }
  }

  lemma CapsulesOfGame(g: Game)
    requires SticksOutLittle(g) && Rig(g)
    ensures SticksOutLittle(StepCapsules(g)) && StepCapsules(g).paddleX == g.paddleX
  {
    hide StepCapsulesFrom, Falling, BaseSpeed;
    CapsulesStickOutLittle(g.(capsules := []), g.capsules, []);
  }

  lemma AfterCapsules(draws: Draws, g: Game)
    requires SticksOutLittle(g) && g.paddleX <= FIELD_W - PADDLE_W
    ensures var h := End(NextWall(draws, LoseLife(g))); SticksOutLittle(h) && h.paddleX == g.paddleX
    ensures SticksOutLittle(End(g)) && End(g).paddleX == g.paddleX
  {
    hide WallAt, WallCleared, BaseSpeed;
  }

  // ----- a tick -----

  /** Just after it has moved the paddle is wholly in the field. */
  lemma MovedIntoTheField(g: Game)
    requires Fair(g) && !g.over
    ensures 0 <= Begin(g).paddleX && Begin(g).paddleX + Begin(g).paddleW <= FIELD_W
  {
    hide Falling, BallsInField, BaseSpeed;
  }

  /** A tick moves the paddle once, and leaves it sticking out by 64 at the most. */
  lemma StepMovesOnce(twin: Twin, draws: Draws, g: Game)
    requires Fair(g) && !g.over
    ensures Step(twin, draws, g).paddleX == Begin(g).paddleX
    ensures SticksOutLittle(Step(twin, draws, g))
  {
    var b := Begin(g);
    MovedIntoTheField(g);
    BeginKeeps(g);
    BallsKeepPaddle(twin, draws, b.(balls := []), b.balls, []);
    StepBallsKeeps(twin, draws, b);
    StepUnfolds(twin, draws, g);
    BallsUnfold(twin, draws, b);
    hide *;
    InFieldSticksOutLittle(b);
    if b.held {
      CapsulesOfGame(b);
      RigBounds(b);
      AfterCapsules(draws, StepCapsules(b));
    } else {
      var s := StepBalls(twin, draws, b);
      SamePaddleMeans(b.(balls := []), s);
      InFieldSticksOutLittle(s);
      CapsulesOfGame(s);
      RigBounds(s);
      AfterCapsules(draws, StepCapsules(s));
    }
  }

  lemma StepUnfolds(twin: Twin, draws: Draws, g: Game)
    ensures !g.over ==>
      Step(twin, draws, g) == (
        if Begin(g).held then End(StepCapsules(Begin(g)))
        else End(NextWall(draws, LoseLife(StepCapsules(StepBalls(twin, draws, Begin(g)))))))
  {
    hide Begin, End, NextWall, LoseLife, StepCapsules, StepBalls;
  }

  lemma BallsUnfold(twin: Twin, draws: Draws, g: Game)
    ensures StepBalls(twin, draws, g) == StepBallsFrom(twin, draws, g.(balls := []), g.balls, [])
  {
    hide StepBallsFrom;
  }

  lemma SamePaddleMeans(g: Game, h: Game)
    requires SamePaddle(g, h)
    ensures h.paddleX == g.paddleX && h.paddleW == g.paddleW
  {
  }

  lemma InFieldSticksOutLittle(g: Game)
    ensures g.paddleX + g.paddleW <= FIELD_W ==> SticksOutLittle(g)
  {
  }

  lemma RigBounds(g: Game)
    requires Rig(g)
    ensures g.paddleX <= FIELD_W - PADDLE_W
  {
    hide Falling, BaseSpeed;
  }

  /** The clamp is the one thing that can move the paddle further than its speed: it does
      exactly when the paddle sticks out by more than that. */
  lemma KeepsItsSpeedExactlyWhen(g: Game)
    requires Fair(g) && !g.over
    ensures Abs(Begin(g).paddleX - g.paddleX) <= PADDLE_SPEED <==> g.paddleX + g.paddleW <= FIELD_W + PADDLE_SPEED
  {
    hide Falling, BallsInField, BaseSpeed;
  }

  // ----- towards its aim -----

  /** How far the paddle is from where it is aimed. */
  function Distance(g: Game): nat
  {
    Abs(g.target - g.paddleX)
  }

  predicate AimsInside(g: Game, width: int)
  {
    0 <= g.target <= 3840 - width
  }

  /** A tick takes the paddle 112 nearer to an aim inside the field, all the way if it is no
      further off; from a place in the field exactly that. It counts itself and runs down
      the slow. */
  lemma TickApproaches(g: Game)
    requires AimsInside(g, g.paddleW)
    ensures var h := Begin(g);
      && Distance(h) <= Max(0, Distance(g) - 112)
      && (0 <= g.paddleX <= 3840 - g.paddleW ==> Distance(h) == Max(0, Distance(g) - 112))
      && (Distance(g) <= 112 ==> h.paddleX == g.target)
      && h == g.(tick := g.tick + 1, slow := Max(0, g.slow - 1), paddleX := h.paddleX)
  {
  }

  lemma {:induction false} BallsKeepAim(twin: Twin, draws: Draws, g: Game, flying: seq<Ball>, kept: seq<Ball>)
    ensures StepBallsFrom(twin, draws, g, flying, kept).target == g.target
    decreases |flying|
  {
    hide SubStep, Survives;
    if flying != [] {
      var first := SubStep(twin, draws, g, flying[0]);
      SubStepKeepsAim(twin, draws, g, flying[0]);
      SubStepKeepsAim(twin, draws, first.game, first.ball);
      var f := StepBall(twin, draws, g, flying[0]);
      BallsKeepAim(twin, draws, f.game, flying[1..], if Survives(f) then kept + [f.ball] else kept);
    }
  }

  lemma SubStepKeepsAim(twin: Twin, draws: Draws, g: Game, b: Ball)
    ensures SubStep(twin, draws, g, b).game.target == g.target
  {
    StrikeKeepsRig(twin, draws, g, Move(b));
    hide Move, Strike, Deflect, MeetsPaddle;
  }

  lemma {:induction false} CapsulesKeepAim(g: Game, falling: seq<Capsule>, kept: seq<Capsule>)
    ensures StepCapsulesFrom(g, falling, kept).target == g.target
    decreases |falling|
  {
    hide Catches, Split;
    if falling != [] {
      var c := falling[0].(y := falling[0].y + CAPSULE_SPEED);
      if Catches(g, c) {
        CapsulesKeepAim(ApplyCapsule(g, c.kind), falling[1..], kept);
      } else {
        CapsulesKeepAim(g, falling[1..], if c.y < FIELD_H then kept + [c] else kept);
      }
    }
  }

  lemma LaterKeepAim(draws: Draws, g: Game)
    ensures End(g).target == g.target && End(NextWall(draws, LoseLife(g))).target == g.target
  {
    hide WallAt, WallCleared, BaseSpeed;
  }

  lemma StepKeepsAim(twin: Twin, draws: Draws, g: Game)
    requires !g.over
    ensures Step(twin, draws, g).target == g.target
  {
    var b := Begin(g);
    var s := if b.held then b else StepBalls(twin, draws, b);
    StepUnfolds(twin, draws, g);
    BallsUnfold(twin, draws, b);
    BallsKeepAim(twin, draws, b.(balls := []), b.balls, []);
    CapsulesKeepAim(s.(capsules := []), s.capsules, []);
    LaterKeepAim(draws, StepCapsules(s));
    hide StepBalls, StepBallsFrom, StepCapsulesFrom, NextWall, LoseLife, End, Step;
  }

  /** The game after a number of ticks with nothing emitted. */
  function AfterTicks(twin: Twin, draws: Draws, g: Game, n: nat): Game
    decreases n
  {
    if n == 0 then g else AfterTicks(twin, draws, Step(twin, draws, g), n - 1)
  }

  /** Whatever else happens, an aim that fits the widest paddle is reached in as many ticks as
      112 goes into the distance, rounded up, unless the run is over first. */
  lemma {:induction false} AimIsReached(twin: Twin, draws: Draws, g: Game, n: nat)
    requires Fair(g) && AimsInside(g, 1024)
    ensures var h := AfterTicks(twin, draws, g, n); h.over || Distance(h) <= Max(0, Distance(g) - 112 * n)
    decreases n
  {
    hide Fair, Step, Begin;
    if n > 0 {
      var next := Step(twin, draws, g);
      StepFair(twin, draws, g);
      if g.over {
        StaysOver(twin, draws, g, n);
      } else {
        StepKeepsAim(twin, draws, g);
        TickApproaches(g);
        StepMovesOnce(twin, draws, g);
        AimIsReached(twin, draws, next, n - 1);
      }
    }
  }

  lemma {:induction false} StaysOver(twin: Twin, draws: Draws, g: Game, n: nat)
    requires g.over
    ensures AfterTicks(twin, draws, g, n) == g
    decreases n
  {
    if n > 0 {
      assert Step(twin, draws, g) == g;
      hide Step;
      StaysOver(twin, draws, g, n - 1);
    }
  }

  // ----- whole runs -----

  /** What every game of every run satisfies, between any input and any tick. */
  predicate Held(draws: Draws, g: Game)
  {
    Sound(draws, g) && SticksOutLittle(g)
  }

  lemma NewGameHeld(draws: Draws)
    ensures Held(draws, NewGame(draws))
  {
    NewGameSound(draws);
    hide Sound, WallAt;
  }

  lemma ApplyHeld(draws: Draws, g: Game, action: int, value: int)
    requires Held(draws, g)
    ensures Held(draws, Apply(g, action, value))
    ensures SamePaddle(g, Apply(g, action, value))
  {
    ApplySound(draws, g, action, value);
    hide Sound;
  }

  /** A tick keeps it, and moves the paddle no further than its speed. */
  lemma PaddleKeepsItsSpeed(twin: Twin, draws: Draws, g: Game)
    requires Held(draws, g)
    ensures Held(draws, Step(twin, draws, g))
    ensures Abs(Step(twin, draws, g).paddleX - g.paddleX) <= PADDLE_SPEED
  {
    StepSound(twin, draws, g);
    if g.over {
      assert Step(twin, draws, g) == g;
    } else {
      hide Step, Fair, QuarryLedger.Ledger;
      StepMovesOnce(twin, draws, g);
      KeepsItsSpeedExactlyWhen(g);
    }
    hide Begin;
  }

  lemma {:induction false} RunHeld(twin: Twin, draws: Draws, inputs: seq<Input>)
    ensures Held(draws, Sit(twin, draws, inputs).game)
    decreases |inputs|
  {
    hide Held, Apply, Step, NewGame, SamePaddle;
    if inputs == [] {
      NewGameHeld(draws);
    } else {
      var before := inputs[..|inputs| - 1];
      RunHeld(twin, draws, before);
      var g := Sit(twin, draws, before).game;
      match inputs[|inputs| - 1]
      case Tick => PaddleKeepsItsSpeed(twin, draws, g);
      case Emit(action, value) => ApplyHeld(draws, g, action, value);
    }
  }

  /** On every run, whatever was aimed and launched and whenever, the paddle sticks out by
      64 at the most and the next tick moves it no further than its speed. */
  lemma EveryRunKeepsItsSpeed(twin: Twin, draws: Draws, inputs: seq<Input>)
    ensures var g := Sit(twin, draws, inputs).game;
      0 <= g.paddleX && g.paddleX + g.paddleW <= FIELD_W + OVERHANG
      && Abs(Step(twin, draws, g).paddleX - g.paddleX) <= PADDLE_SPEED
  {
    hide *;
    var g := Sit(twin, draws, inputs).game;
    RunHeld(twin, draws, inputs);
    HeldMeans(draws, g);
    PaddleKeepsItsSpeed(twin, draws, g);
  }

  lemma HeldMeans(draws: Draws, g: Game)
    requires Held(draws, g)
    ensures 0 <= g.paddleX && g.paddleX + g.paddleW <= FIELD_W + OVERHANG
  {
    hide BallsInField, Falling, BaseSpeed, QuarryLedger.Ledger;
  }

  // ----- sticking out, exactly -----

  predicate SticksOut(g: Game)
  {
    g.paddleX + g.paddleW > FIELD_W
  }

  /** A widening capsule that comes into reach this tick, not left of the paddle. */
  predicate IsDueWiden(x: int, c: Capsule)
  {
    c.kind == CAPSULE_WIDEN && x <= c.x
    && PADDLE_Y <= c.y + CAPSULE_SPEED <= PADDLE_Y + PADDLE_H + CAPSULE_SPEED
  }

  function DueWidens(x: int, capsules: seq<Capsule>): nat
  {
    if capsules == [] then 0
    else (if IsDueWiden(x, capsules[0]) then 1 else 0) + DueWidens(x, capsules[1..])
  }

  /** What a tick's capsules will make of the paddle where it now is. */
  predicate WillStickOut(g: Game)
  {
    && g.paddleX > FIELD_W - 1024
    && Min(1024, g.paddleW + 128 * DueWidens(g.paddleX, g.capsules)) > FIELD_W - g.paddleX
  }

  /** Far enough right, the paddle is under every capsule that is not left of it. */
  lemma CatchesDue(g: Game, c: Capsule)
    requires Falling(c) && FIELD_W - 1024 < g.paddleX
    ensures var fallen := c.(y := c.y + CAPSULE_SPEED);
      IsDueWiden(g.paddleX, c) <==> Catches(g, fallen) && c.kind == CAPSULE_WIDEN
  {
  }

  lemma WidthOf(g: Game, kind: nat)
    ensures ApplyCapsule(g, kind).paddleX == g.paddleX
    ensures ApplyCapsule(g, kind).paddleW
         == if kind == CAPSULE_WIDEN then Min(g.paddleW + 128, 1024) else g.paddleW
  {
    hide Split;
  }

  lemma {:induction false} CapsulesWiden(g: Game, falling: seq<Capsule>, kept: seq<Capsule>)
    requires FIELD_W - 1024 < g.paddleX && forall c :: c in falling ==> Falling(c)
    ensures StepCapsulesFrom(g, falling, kept).paddleW
         == Min(1024, g.paddleW + 128 * DueWidens(g.paddleX, falling))
    decreases |falling|
  {
    hide Falling, Catches, ApplyCapsule, IsDueWiden;
    if falling != [] {
      assert falling[0] in falling;
      CatchesDue(g, falling[0]);
      var c := falling[0].(y := falling[0].y + CAPSULE_SPEED);
      if Catches(g, c) {
        WidthOf(g, c.kind);
        CapsulesWiden(ApplyCapsule(g, c.kind), falling[1..], kept);
      } else {
        CapsulesWiden(g, falling[1..], if c.y < FIELD_H then kept + [c] else kept);
      }
    }
  }

  /** The capsules of a tick leave the paddle sticking out exactly when it is far enough
      right and enough of them are due. */
  lemma CapsulesStickOutExactlyWhen(g: Game)
    requires Rig(g)
    ensures SticksOut(StepCapsules(g)) <==> WillStickOut(g)
    ensures StepCapsules(g).paddleX == g.paddleX
  {
    hide StepCapsulesFrom, Falling, BaseSpeed, DueWidens;
    CapsulesKeepPlace(g.(capsules := []), g.capsules, []);
    if FIELD_W - 1024 < g.paddleX {
      CapsulesWiden(g.(capsules := []), g.capsules, []);
    }
  }

  lemma {:induction false} CapsulesKeepPlace(g: Game, falling: seq<Capsule>, kept: seq<Capsule>)
    ensures StepCapsulesFrom(g, falling, kept).paddleX == g.paddleX
    decreases |falling|
  {
    hide Catches, ApplyCapsule;
    if falling != [] {
      var c := falling[0].(y := falling[0].y + CAPSULE_SPEED);
      WidthOf(g, c.kind);
      if Catches(g, c) {
        CapsulesKeepPlace(ApplyCapsule(g, c.kind), falling[1..], kept);
      } else {
        CapsulesKeepPlace(g, falling[1..], if c.y < FIELD_H then kept + [c] else kept);
      }
    }
  }

  // A capsule dropped in a tick is far above the paddle, so not due in it.

  lemma {:induction false} DueOfAppend(x: int, a: seq<Capsule>, c: Capsule)
    ensures DueWidens(x, a + [c]) == DueWidens(x, a) + if IsDueWiden(x, c) then 1 else 0
  {
    hide IsDueWiden;
    if a == [] {
      assert [c][1..] == [];
    } else {
      assert (a + [c])[1..] == a[1..] + [c];
      DueOfAppend(x, a[1..], c);
    }
  }

  lemma HitKeepsDue(twin: Twin, draws: Draws, g: Game, index: nat, x: int)
    requires index < CELLS
    ensures DueWidens(x, HitBrick(twin, draws, g, index).capsules) == DueWidens(x, g.capsules)
  {
    CapsuleFalls(draws, index);
    DueOfAppend(x, g.capsules, CapsuleOf(draws, index));
    NotDueYet(draws, index, x);
    hide DueWidens, CapsuleOf, Drops, BrickScore, IsDueWiden, Falling;
  }

  lemma NotDueYet(draws: Draws, index: nat, x: int)
    requires index < CELLS
    ensures !IsDueWiden(x, CapsuleOf(draws, index))
  {
  }

  lemma SubStepKeepsDue(twin: Twin, draws: Draws, g: Game, b: Ball, x: int)
    ensures DueWidens(x, SubStep(twin, draws, g, b).game.capsules) == DueWidens(x, g.capsules)
  {
    hide DueWidens, HitBrick, Move, BrickAt, Bounce, MeetsPaddle;
    var m := Move(b);
    var cell := BrickAt(m.x, m.y);
    if 0 <= cell < CELLS {
      HitKeepsDue(twin, draws, g, cell, x);
    }
    var f := Strike(twin, draws, g, m);
    MeetKeepsCapsules(f.game, f.ball);
  }

  lemma MeetKeepsCapsules(g: Game, b: Ball)
    ensures Meet(g, b).game.capsules == g.capsules
  {
    hide Deflect, MeetsPaddle;
  }

  lemma {:induction false} BallsKeepDue(twin: Twin, draws: Draws, g: Game, flying: seq<Ball>, kept: seq<Ball>, x: int)
    ensures DueWidens(x, StepBallsFrom(twin, draws, g, flying, kept).capsules) == DueWidens(x, g.capsules)
    decreases |flying|
  {
    hide SubStep, Survives, DueWidens;
    if flying != [] {
      var first := SubStep(twin, draws, g, flying[0]);
      SubStepKeepsDue(twin, draws, g, flying[0], x);
      SubStepKeepsDue(twin, draws, first.game, first.ball, x);
      var f := StepBall(twin, draws, g, flying[0]);
      BallsKeepDue(twin, draws, f.game, flying[1..], if Survives(f) then kept + [f.ball] else kept, x);
    }
  }

  lemma AfterCapsulesSticksOut(draws: Draws, g: Game)
    requires g.paddleX <= FIELD_W - PADDLE_W
    ensures var h := End(NextWall(draws, LoseLife(g)));
      SticksOut(h) <==> h.lives == g.lives && h.level == g.level && SticksOut(g)
    ensures SticksOut(End(g)) == SticksOut(g) && End(g).lives == g.lives && End(g).level == g.level
  {
    hide WallAt, WallCleared, BaseSpeed;
  }

  /** Exactly when a tick ends with the paddle outside the field: it loses no life and
      clears no wall, and the capsules in the air before it will stick it out. */
  lemma SticksOutExactlyWhen(twin: Twin, draws: Draws, g: Game)
    requires Fair(g) && !g.over
    ensures SticksOut(Step(twin, draws, g)) <==>
      (Step(twin, draws, g).lives == g.lives && Step(twin, draws, g).level == g.level && WillStickOut(Begin(g)))
    ensures g.held ==> (SticksOut(Step(twin, draws, g)) <==> WillStickOut(Begin(g)))
  {
    var b := Begin(g);
    BeginKeeps(g);
    StepUnfolds(twin, draws, g);
    BallsUnfold(twin, draws, b);
    hide *;
    if b.held {
      CapsulesStickOutExactlyWhen(b);
      WillMeans(b);
      StepCapsulesKeeps(b);
      RigBounds(b);
      AfterCapsulesSticksOut(draws, StepCapsules(b));
    } else {
      var s := StepBalls(twin, draws, b);
      StepBallsKeeps(twin, draws, b);
      BallsKeepPaddle(twin, draws, b.(balls := []), b.balls, []);
      SamePaddleMeans(b.(balls := []), s);
      BallsKeepDue(twin, draws, b.(balls := []), b.balls, [], b.paddleX);
      CapsulesStickOutExactlyWhen(s);
      WillMeans(s);
      WillMeans(b);
      StepCapsulesKeeps(s);
      RigBounds(s);
      AfterCapsulesSticksOut(draws, StepCapsules(s));
    }
  }

  lemma WillMeans(g: Game)
    ensures WillStickOut(g) <==>
      (g.paddleX > FIELD_W - 1024
       && Min(1024, g.paddleW + 128 * DueWidens(g.paddleX, g.capsules)) > FIELD_W - g.paddleX)
  {
  }

  /** The paddle can leave the field, until the next tick: 896 wide, over a widening capsule
      in the last column. This is a state that satisfies Fair, not one derived from a log. */
  lemma WideningSticksOut(twin: Twin, draws: Draws, g: Game)
    requires Fair(g) && !g.over && g.held
    requires g.paddleX == g.target == 2880 && g.paddleW == 896
    requires g.capsules == [Capsule(2880, PADDLE_Y, CAPSULE_WIDEN)]
    ensures Step(twin, draws, g).paddleX + Step(twin, draws, g).paddleW == FIELD_W + OVERHANG
  {
    hide Fair, Step, Split;
    var b := Begin(g);
    var start := b.(capsules := []);
    var c := Capsule(2880, PADDLE_Y + CAPSULE_SPEED, CAPSULE_WIDEN);
    assert g.capsules[1..] == [] && Catches(start, c);
    assert StepCapsules(b) == StepCapsulesFrom(ApplyCapsule(start, c.kind), [], []);
    StepUnfolds(twin, draws, g);
  }
}
