/** Where every hit and every point of Quarry comes from, exactly, across walls. */
module QuarryLedger {
  import opened Arcade
  import opened Basics
  import opened QuarryRules

  function HitPoints(bricks: seq<Tier>): nat
  {
    if bricks == [] then 0 else Max(bricks[0], 0) + HitPoints(bricks[1..])
  }

  function Breakable(bricks: seq<Tier>): nat
  {
    if bricks == [] then 0 else (if bricks[0] > 0 then 1 else 0) + Breakable(bricks[1..])
  }

  /** The hits that clear every wall below a level. */
  function HitsBelow(draws: Draws, level: nat): nat
  {
    if level == 0 then 0 else HitsBelow(draws, level - 1) + HitPoints(WallAt(draws, level - 1))
  }

  function BricksBelow(draws: Draws, level: nat): nat
  {
    if level == 0 then 0 else BricksBelow(draws, level - 1) + Breakable(WallAt(draws, level - 1))
  }

  /** Points whose amount does not depend on the pace. */
  function FlatPoints(g: Game): int
  {
    10 * (g.hits - g.bricksBroken) + 100 * g.caught + 1000 * g.level
  }

  /** Every hit was made on a wall already cleared or is missing from this one; so for
      every broken brick; and the score is the flat points plus 50 to 150 a break. */
  predicate Ledger(draws: Draws, g: Game)
  {
    && g.hits == HitsBelow(draws, g.level) + HitPoints(WallAt(draws, g.level)) - HitPoints(g.bricks)
    && g.bricksBroken == BricksBelow(draws, g.level) + Breakable(WallAt(draws, g.level)) - Breakable(g.bricks)
    && 50 * g.bricksBroken <= g.score - FlatPoints(g) <= 150 * g.bricksBroken
    && g.caught + |g.capsules| <= g.bricksBroken <= g.hits
    && g.level <= g.tick
  }

  lemma {:induction false} OneHitLess(bricks: seq<Tier>, i: nat)
    requires i < |bricks| && bricks[i] > 0
    ensures HitPoints(bricks[i := bricks[i] - 1]) == HitPoints(bricks) - 1
    ensures Breakable(bricks[i := bricks[i] - 1]) == Breakable(bricks) - (if bricks[i] == 1 then 1 else 0)
  {
    var hit := bricks[i := bricks[i] - 1];
    if i == 0 {
      assert hit[1..] == bricks[1..];
    } else {
      OneHitLess(bricks[1..], i - 1);
      assert hit[1..] == bricks[1..][i - 1 := bricks[i] - 1];
    }
  }

  lemma {:induction false} ClearedWallHasNone(bricks: seq<Tier>)
    requires WallCleared(bricks)
    ensures HitPoints(bricks) == 0 && Breakable(bricks) == 0
  {
    if bricks != [] {
      ClearedWallHasNone(bricks[1..]);
    }
  }

  lemma {:induction false} WallIsSmall(bricks: seq<Tier>)
    ensures Breakable(bricks) <= |bricks| && Breakable(bricks) <= HitPoints(bricks) <= 3 * |bricks|
  {
    if bricks != [] {
      WallIsSmall(bricks[1..]);
    }
  }

  /** What a break pays: the listed fifty at the starting pace, more when faster. */
  lemma BreakPays(tier: Tier, speed: Pace)
    requires tier == 1
    ensures 50 <= BrickScore(Min(tier, 3)) * speed / BALL_SPEED <= 150
  {
    assert 50 * BALL_SPEED <= 50 * speed <= 150 * BALL_SPEED;
  }

  lemma PartialHitIsBooked(draws: Draws, g: Game, index: nat)
    requires index < CELLS && Ledger(draws, g) && g.bricks[index] > 1
    ensures Ledger(draws, g.(bricks := g.bricks[index := g.bricks[index] - 1], hits := g.hits + 1,
                             score := g.score + 10))
  {
    OneHitLess(g.bricks, index);
    hide HitPoints, Breakable, HitsBelow, BricksBelow, WallAt;
  }

  lemma BreakIsBooked(draws: Draws, g: Game, index: nat, pay: nat, capsule: Capsule)
    requires index < CELLS && Ledger(draws, g) && g.bricks[index] == 1 && 50 <= pay <= 150
    ensures Ledger(draws, g.(bricks := g.bricks[index := 0], hits := g.hits + 1, score := g.score + pay,
                             bricksBroken := g.bricksBroken + 1, capsules := g.capsules + [capsule]))
  {
    OneHitLess(g.bricks, index);
    hide HitPoints, Breakable, HitsBelow, BricksBelow, WallAt;
  }

  /** A dropped capsule is one the break has room for on the books. */
  lemma DropIsBooked(twin: Twin, draws: Draws, g: Game, index: nat)
    requires index < CELLS && Ledger(draws, g.(capsules := g.capsules + [CapsuleOf(draws, index)]))
    ensures Ledger(draws, DropCapsule(twin, draws, g, index))
  {
    var roomy := g.(capsules := g.capsules + [CapsuleOf(draws, index)]);
    FewerCapsules(draws, roomy, roomy.capsules, g.capsules);
    assert roomy.(capsules := roomy.capsules) == roomy && roomy.(capsules := g.capsules) == g;
    hide Drops, CapsuleOf, Ledger;
    SameBooksSameLedger(draws, roomy, roomy.(refused := g.refused + 1));
    SameBooksSameLedger(draws, g, g.(refused := g.refused + 1));
  }

  lemma HitIsBooked(twin: Twin, draws: Draws, g: Game, index: nat)
    requires index < CELLS && Ledger(draws, g)
    ensures Ledger(draws, HitBrick(twin, draws, g, index))
  {
    hide Ledger, DropCapsule, CapsuleOf, BrickScore;
    var tier := g.bricks[index];
    if tier > 1 {
      PartialHitIsBooked(draws, g, index);
    } else if tier == 1 {
      var pay := BrickScore(Min(tier, 3)) * g.speed / BALL_SPEED;
      BreakPays(tier, g.speed);
      BreakIsBooked(draws, g, index, pay, CapsuleOf(draws, index));
      DropIsBooked(twin, draws, g.(bricks := g.bricks[index := 0], hits := g.hits + 1, score := g.score + pay,
                                   bricksBroken := g.bricksBroken + 1), index);
    }
  }

  /** Booked fields that a function leaves alone. */
  predicate SameBooks(g: Game, h: Game)
  {
    && h.hits == g.hits && h.bricks == g.bricks && h.bricksBroken == g.bricksBroken && h.score == g.score
    && h.caught == g.caught && h.capsules == g.capsules && h.level == g.level && h.tick == g.tick
  }

  lemma SameBooksSameLedger(draws: Draws, g: Game, h: Game)
    requires SameBooks(g, h) && Ledger(draws, g)
    ensures Ledger(draws, h)
  {
    hide HitPoints, Breakable, HitsBelow, BricksBelow, WallAt;
  }

  lemma MeetKeepsBooks(g: Game, b: Ball)
    ensures SameBooks(g, Meet(g, b).game)
  {
    hide Deflect, MeetsPaddle;
  }

  lemma StrikeIsBooked(twin: Twin, draws: Draws, g: Game, b: Ball)
    requires Ledger(draws, g)
    ensures Ledger(draws, Strike(twin, draws, g, b).game)
  {
    var cell := BrickAt(b.x, b.y);
    hide BrickAt, HitBrick, Ledger;
    if cell >= 0 {
      HitIsBooked(twin, draws, g, cell);
    }
  }

  lemma SubStepIsBooked(twin: Twin, draws: Draws, g: Game, b: Ball)
    requires Ledger(draws, g)
    ensures Ledger(draws, SubStep(twin, draws, g, b).game)
  {
    hide Move, Ledger, Strike, Meet, SameBooks;
    StrikeIsBooked(twin, draws, g, Move(b));
    var f := Strike(twin, draws, g, Move(b));
    MeetKeepsBooks(f.game, f.ball);
    SameBooksSameLedger(draws, f.game, Meet(f.game, f.ball).game);
  }

  lemma StepBallIsBooked(twin: Twin, draws: Draws, g: Game, b: Ball)
    requires Ledger(draws, g)
    ensures Ledger(draws, StepBall(twin, draws, g, b).game)
  {
    hide SubStep, Ledger;
    SubStepIsBooked(twin, draws, g, b);
    var f := SubStep(twin, draws, g, b);
    SubStepIsBooked(twin, draws, f.game, f.ball);
  }

  lemma {:induction false} StepBallsAreBooked(twin: Twin, draws: Draws, g: Game, flying: seq<Ball>, kept: seq<Ball>)
    requires Ledger(draws, g)
    ensures Ledger(draws, StepBallsFrom(twin, draws, g, flying, kept))
    decreases |flying|
  {
    hide StepBall, Ledger, Survives;
    if flying == [] {
      SameBooksSameLedger(draws, g, g.(balls := kept));
    } else {
      var f := StepBall(twin, draws, g, flying[0]);
      StepBallIsBooked(twin, draws, g, flying[0]);
      StepBallsAreBooked(twin, draws, f.game, flying[1..], if Survives(f) then kept + [f.ball] else kept);
    }
  }

  lemma {:induction false} CapsulesAreBooked(draws: Draws, g: Game, falling: seq<Capsule>, kept: seq<Capsule>)
    requires Ledger(draws, g.(capsules := kept + falling))
    ensures Ledger(draws, StepCapsulesFrom(g, falling, kept))
    decreases |falling|
  {
    if falling == [] {
      assert kept + falling == kept;
    } else {
      var c := falling[0].(y := falling[0].y + CAPSULE_SPEED);
      FewerCapsules(draws, g, kept + falling, kept + falling[1..]);
      if Catches(g, c) {
        CaughtOne(draws, g, kept, falling);
        CapsulesAreBooked(draws, ApplyCapsule(g, c.kind), falling[1..], kept);
      } else if c.y < FIELD_H {
        FewerCapsules(draws, g, kept + falling, kept + [c] + falling[1..]);
        CapsulesAreBooked(draws, g, falling[1..], kept + [c]);
      } else {
        CapsulesAreBooked(draws, g, falling[1..], kept);
      }
      hide Ledger, Catches, ApplyCapsule;
    }
  }

  lemma FewerCapsules(draws: Draws, g: Game, more: seq<Capsule>, fewer: seq<Capsule>)
    requires Ledger(draws, g.(capsules := more)) && |fewer| <= |more|
    ensures Ledger(draws, g.(capsules := fewer))
  {
    hide HitPoints, Breakable, HitsBelow, BricksBelow, WallAt;
  }

  lemma CaughtOne(draws: Draws, g: Game, kept: seq<Capsule>, falling: seq<Capsule>)
    requires falling != [] && Ledger(draws, g.(capsules := kept + falling))
    ensures Ledger(draws, ApplyCapsule(g, falling[0].kind).(capsules := kept + falling[1..]))
  {
    hide ApplyCapsule, HitPoints, Breakable, HitsBelow, BricksBelow, WallAt;
    CapsulePays(g, falling[0].kind);
  }

  lemma CapsulePays(g: Game, kind: nat)
    ensures var h := ApplyCapsule(g, kind);
      && h.score == g.score + CAPSULE_SCORE && h.caught == g.caught + 1
      && h.hits == g.hits && h.bricks == g.bricks && h.bricksBroken == g.bricksBroken
      && h.level == g.level && h.tick == g.tick
  {
    hide Split;
  }

  /** Clearing a wall closes its account: every one of its hits has been made. */
  lemma NextWallIsBooked(draws: Draws, g: Game)
    requires Ledger(draws, g) && g.level < g.tick
    ensures Ledger(draws, NextWall(draws, g))
  {
    if WallCleared(g.bricks) {
      ClearedWallHasNone(g.bricks);
    }
    hide HitPoints, Breakable, WallAt, WallCleared, BaseSpeed;
  }

  lemma NewGameIsBooked(draws: Draws)
    ensures Ledger(draws, NewGame(draws))
  {
    hide HitPoints, Breakable, WallAt;
  }

  lemma ApplyIsBooked(draws: Draws, g: Game, action: int, value: int)
    requires Ledger(draws, g)
    ensures Ledger(draws, Apply(g, action, value))
  {
    SameBooksSameLedger(draws, g, Apply(g, action, value));
  }

  lemma LoseLifeIsBooked(draws: Draws, g: Game)
    requires Ledger(draws, g)
    ensures Ledger(draws, LoseLife(g))
  {
    hide BaseSpeed, Ledger;
    SameBooksSameLedger(draws, g, LoseLife(g));
  }


  lemma BeginIsBooked(draws: Draws, g: Game)
    requires Ledger(draws, g)
    ensures Ledger(draws, Begin(g)) && Begin(g).level < Begin(g).tick
  {
    hide HitPoints, Breakable, HitsBelow, BricksBelow, WallAt;
  }

  lemma TickAndLevelStay(twin: Twin, draws: Draws, g: Game)
    ensures StepCapsules(g).tick == g.tick && StepCapsules(g).level == g.level
    ensures StepBalls(twin, draws, g).tick == g.tick && StepBalls(twin, draws, g).level == g.level
    ensures LoseLife(g).tick == g.tick && LoseLife(g).level == g.level
  {
    CapsulesKeepClock(g.(capsules := []), g.capsules, []);
    BallsKeepClock(twin, draws, g.(balls := []), g.balls, []);
    hide StepCapsulesFrom, StepBallsFrom, BaseSpeed;
  }

  lemma {:induction false} CapsulesKeepClock(g: Game, falling: seq<Capsule>, kept: seq<Capsule>)
    ensures StepCapsulesFrom(g, falling, kept).tick == g.tick
    ensures StepCapsulesFrom(g, falling, kept).level == g.level
    decreases |falling|
  {
    hide Catches, Split;
    if falling != [] {
      var c := falling[0].(y := falling[0].y + CAPSULE_SPEED);
      CapsulesKeepClock(ApplyCapsule(g, c.kind), falling[1..], kept);
      CapsulesKeepClock(g, falling[1..], if c.y < FIELD_H then kept + [c] else kept);
    }
  }

  lemma StrikeKeepsClock(twin: Twin, draws: Draws, g: Game, b: Ball)
    ensures Strike(twin, draws, g, b).game.tick == g.tick && Strike(twin, draws, g, b).game.level == g.level
  {
    hide BrickAt, CapsuleOf, Drops, BrickScore;
  }

  lemma SubStepKeepsClock(twin: Twin, draws: Draws, g: Game, b: Ball)
    ensures SubStep(twin, draws, g, b).game.tick == g.tick && SubStep(twin, draws, g, b).game.level == g.level
  {
    hide Move, Strike, Meet;
    StrikeKeepsClock(twin, draws, g, Move(b));
    MeetKeepsBooks(Strike(twin, draws, g, Move(b)).game, Strike(twin, draws, g, Move(b)).ball);
  }

  lemma {:induction false} BallsKeepClock(twin: Twin, draws: Draws, g: Game, flying: seq<Ball>, kept: seq<Ball>)
    ensures StepBallsFrom(twin, draws, g, flying, kept).tick == g.tick
    ensures StepBallsFrom(twin, draws, g, flying, kept).level == g.level
    decreases |flying|
  {
    hide SubStep, Survives;
    if flying != [] {
      var first := SubStep(twin, draws, g, flying[0]);
      SubStepKeepsClock(twin, draws, g, flying[0]);
      SubStepKeepsClock(twin, draws, first.game, first.ball);
      var f := StepBall(twin, draws, g, flying[0]);
      BallsKeepClock(twin, draws, f.game, flying[1..], if Survives(f) then kept + [f.ball] else kept);
    }
  }

  /** Every tick keeps the ledger. */
  lemma StepIsBooked(twin: Twin, draws: Draws, g: Game)
    requires Ledger(draws, g)
    ensures Ledger(draws, Step(twin, draws, g))
  {
    hide Ledger, StepBallsFrom, StepCapsulesFrom, LoseLife, NextWall, Begin;
    if !g.over {
      var b := Begin(g);
      BeginIsBooked(draws, g);
      TickAndLevelStay(twin, draws, b);
      if b.held {
        CapsulesKeepLedger(draws, b);
        EndIsBooked(draws, StepCapsules(b));
      } else {
        var s := StepBalls(twin, draws, b);
        SameBooksSameLedger(draws, b, b.(balls := []));
        StepBallsAreBooked(twin, draws, b.(balls := []), b.balls, []);
        TickAndLevelStay(twin, draws, s);
        CapsulesKeepLedger(draws, s);
        var c := StepCapsules(s);
        TickAndLevelStay(twin, draws, c);
        LoseLifeIsBooked(draws, c);
        NextWallIsBooked(draws, LoseLife(c));
        EndIsBooked(draws, NextWall(draws, LoseLife(c)));
      }
    }
  }

  lemma CapsulesKeepLedger(draws: Draws, g: Game)
    requires Ledger(draws, g)
    ensures Ledger(draws, StepCapsules(g))
  {
    assert [] + g.capsules == g.capsules;
    assert g.(capsules := []).(capsules := [] + g.capsules) == g;
    CapsulesAreBooked(draws, g.(capsules := []), g.capsules, []);
    hide Ledger, StepCapsulesFrom;
  }

  lemma EndIsBooked(draws: Draws, g: Game)
    requires Ledger(draws, g)
    ensures Ledger(draws, End(g))
  {
    SameBooksSameLedger(draws, g, End(g));
    hide Ledger;
  }

  lemma {:induction false} WallsAreSmall(draws: Draws, level: nat)
    ensures BricksBelow(draws, level) <= 32 * level && HitsBelow(draws, level) <= 96 * level
  {
    hide WallAt, HitPoints, Breakable;
    if level > 0 {
      WallIsSmall(WallAt(draws, level - 1));
      WallsAreSmall(draws, level - 1);
    }
  }

  /** The score of any run fits a u32 with room to spare. */
  lemma ScoreFits(draws: Draws, g: Game)
    requires Ledger(draws, g) && g.tick <= MAX_TICKS
    ensures g.score <= 9960 * (g.level + 1) < U32_LIMIT
    ensures g.bricksBroken <= 32 * (g.level + 1)
  {
    WallsAreSmall(draws, g.level);
    WallIsSmall(WallAt(draws, g.level));
    hide WallAt, HitPoints, Breakable, HitsBelow, BricksBelow;
  }
}
