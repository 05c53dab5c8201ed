/** The core's Quarry and the page's: where they agree, and the two places they do not. */
module QuarryTwins {
  import opened Arcade
  import opened Basics
  import opened QuarryRules
  import opened QuarryRuns

  /** The same game, or two games in each of which a capsule came due with sixteen
      already falling. */
  predicate Same(a: Game, b: Game)
  {
    a == b || (a.refused > 0 && b.refused > 0)
  }

  predicate SameFlight(a: Flight, b: Flight)
  {
    a == b || (a.game.refused > 0 && b.game.refused > 0)
  }

  // ----- a refused capsule is never forgotten -----

  lemma StrikeRemembers(twin: Twin, draws: Draws, g: Game, b: Ball)
    ensures g.refused <= Strike(twin, draws, g, b).game.refused
  {
    hide BrickAt, CapsuleOf, Drops, BrickScore;
  }

  lemma MeetRemembers(g: Game, b: Ball)
    ensures Meet(g, b).game.refused == g.refused
  {
    hide Deflect, MeetsPaddle;
  }

  lemma SubStepRemembers(twin: Twin, draws: Draws, g: Game, b: Ball)
    ensures g.refused <= SubStep(twin, draws, g, b).game.refused
  {
    hide Move, Strike, Meet;
    StrikeRemembers(twin, draws, g, Move(b));
    MeetRemembers(Strike(twin, draws, g, Move(b)).game, Strike(twin, draws, g, Move(b)).ball);
  }

  lemma StepBallRemembers(twin: Twin, draws: Draws, g: Game, b: Ball)
    ensures g.refused <= StepBall(twin, draws, g, b).game.refused
  {
    hide SubStep;
    var f := SubStep(twin, draws, g, b);
    SubStepRemembers(twin, draws, g, b);
    SubStepRemembers(twin, draws, f.game, f.ball);
  }

  lemma {:induction false} StepBallsRemember(twin: Twin, draws: Draws, g: Game, flying: seq<Ball>, kept: seq<Ball>)
    ensures g.refused <= StepBallsFrom(twin, draws, g, flying, kept).refused
    decreases |flying|
  {
    hide StepBall, Survives;
    if flying != [] {
      var f := StepBall(twin, draws, g, flying[0]);
      StepBallRemembers(twin, draws, g, flying[0]);
      StepBallsRemember(twin, draws, f.game, flying[1..], if Survives(f) then kept + [f.ball] else kept);
    }
  }

  lemma {:induction false} CapsulesRemember(g: Game, falling: seq<Capsule>, kept: seq<Capsule>)
    ensures StepCapsulesFrom(g, falling, kept).refused == g.refused
    ensures StepCapsulesFrom(g, falling, kept).target == g.target
    decreases |falling|
  {
    hide Catches, Split;
    if falling != [] {
      var c := falling[0].(y := falling[0].y + CAPSULE_SPEED);
      CapsulesRemember(ApplyCapsule(g, c.kind), falling[1..], kept);
      CapsulesRemember(g, falling[1..], if c.y < FIELD_H then kept + [c] else kept);
    }
  }

  lemma AfterBallsRemembers(draws: Draws, g: Game)
    ensures End(NextWall(draws, LoseLife(StepCapsules(g)))).refused == g.refused
    ensures End(StepCapsules(g)).refused == g.refused
    ensures End(NextWall(draws, LoseLife(StepCapsules(g)))).target == g.target
    ensures End(StepCapsules(g)).target == g.target
  {
    CapsulesRemember(g.(capsules := []), g.capsules, []);
    hide StepCapsulesFrom, BaseSpeed, WallAt, WallCleared;
  }

  lemma StepRemembers(twin: Twin, draws: Draws, g: Game)
    ensures g.refused <= Step(twin, draws, g).refused
  {
    hide StepBallsFrom, StepCapsules, LoseLife, NextWall, End;
    if !g.over {
      var b := Begin(g);
      AfterBallsRemembers(draws, b);
      AfterBallsRemembers(draws, StepBalls(twin, draws, b));
      StepBallsRemember(twin, draws, b.(balls := []), b.balls, []);
    }
  }

  lemma {:induction false} DrainRemembers(twin: Twin, g: Game, events: seq<Event>)
    ensures Drain(twin, g, events).game.refused == g.refused
    decreases |events|
  {
    if events != [] {
      DrainRemembers(twin, Apply(g, events[0].action, events[0].value), events[1..]);
    }
  }

  lemma {:induction false} LoopRemembers(twin: Twin, draws: Draws, g: Game, events: seq<Event>, guard: nat)
    ensures g.refused <= Loop(twin, draws, g, events, guard).refused
    decreases guard
  {
    hide Step, Drain;
    if !g.over && guard > 0 {
      var d := Drain(twin, g, events);
      DrainRemembers(twin, g, events);
      StepRemembers(twin, draws, d.game);
      LoopRemembers(twin, draws, Step(twin, draws, d.game), d.rest, guard - 1);
    }
  }

  // ----- agreement -----

  lemma DropTwins(draws: Draws, g: Game, index: nat)
    ensures Same(DropCapsule(Core, draws, g, index), DropCapsule(Page, draws, g, index))
  {
    hide CapsuleOf, Drops;
  }

  lemma HitTwins(draws: Draws, g: Game, index: nat)
    requires index < CELLS
    ensures Same(HitBrick(Core, draws, g, index), HitBrick(Page, draws, g, index))
  {
    hide DropCapsule, BrickScore;
    var tier := g.bricks[index];
    if tier > 0 {
      var h := g.(bricks := g.bricks[index := tier - 1], hits := g.hits + 1);
      DropTwins(draws, h.(score := h.score + BrickScore(Min(tier, 3)) * g.speed / BALL_SPEED,
                          bricksBroken := h.bricksBroken + 1), index);
    }
  }

  lemma SubStepTwins(draws: Draws, g: Game, b: Ball)
    ensures SameFlight(SubStep(Core, draws, g, b), SubStep(Page, draws, g, b))
  {
    var m := Move(b);
    var cell := BrickAt(m.x, m.y);
    hide HitBrick, BrickAt, Move, Meet;
    if cell >= 0 {
      HitTwins(draws, g, cell);
    }
    var c, p := Strike(Core, draws, g, m), Strike(Page, draws, g, m);
    MeetRemembers(c.game, c.ball);
    MeetRemembers(p.game, p.ball);
  }

  lemma StepBallTwins(draws: Draws, g: Game, b: Ball)
    ensures SameFlight(StepBall(Core, draws, g, b), StepBall(Page, draws, g, b))
  {
    hide SubStep;
    SubStepTwins(draws, g, b);
    var c, p := SubStep(Core, draws, g, b), SubStep(Page, draws, g, b);
    if c == p {
      SubStepTwins(draws, c.game, c.ball);
    }
    SubStepRemembers(Core, draws, c.game, c.ball);
    SubStepRemembers(Page, draws, p.game, p.ball);
  }

  lemma {:induction false} StepBallsTwins(draws: Draws, g: Game, flying: seq<Ball>, kept: seq<Ball>)
    ensures Same(StepBallsFrom(Core, draws, g, flying, kept), StepBallsFrom(Page, draws, g, flying, kept))
    decreases |flying|
  {
    hide StepBall, Survives;
    if flying != [] {
      StepBallTwins(draws, g, flying[0]);
      var c, p := StepBall(Core, draws, g, flying[0]), StepBall(Page, draws, g, flying[0]);
      if c == p {
        StepBallsTwins(draws, c.game, flying[1..], if Survives(c) then kept + [c.ball] else kept);
      } else {
        StepBallsRemember(Core, draws, c.game, flying[1..], if Survives(c) then kept + [c.ball] else kept);
        StepBallsRemember(Page, draws, p.game, flying[1..], if Survives(p) then kept + [p.ball] else kept);
      }
    }
  }

  lemma StepTwins(draws: Draws, g: Game)
    ensures Same(Step(Core, draws, g), Step(Page, draws, g))
  {
    hide StepBallsFrom, StepCapsules, LoseLife, NextWall, End, Begin;
    var b := Begin(g);
    StepBallsTwins(draws, b.(balls := []), b.balls, []);
    AfterBallsRemembers(draws, StepBalls(Core, draws, b));
    AfterBallsRemembers(draws, StepBalls(Page, draws, b));
  }

  lemma {:induction false} DrainTwins(g: Game, events: seq<Event>)
    requires forall e :: e in events ==> 0 <= e.tick
    ensures Drain(Core, g, events) == Drain(Page, g, events)
    ensures forall e :: e in Drain(Core, g, events).rest ==> 0 <= e.tick
    decreases |events|
  {
    hide Apply;
    if events != [] {
      assert events[0] in events;
      DrainTwins(Apply(g, events[0].action, events[0].value), events[1..]);
    }
  }

  lemma {:induction false} LoopTwins(draws: Draws, g: Game, events: seq<Event>, guard: nat)
    requires forall e :: e in events ==> 0 <= e.tick
    ensures Same(Loop(Core, draws, g, events, guard), Loop(Page, draws, g, events, guard))
    decreases guard
  {
    hide Step, Drain;
    if !g.over && guard > 0 {
      DrainTwins(g, events);
      var d := Drain(Core, g, events);
      StepTwins(draws, d.game);
      var c, p := Step(Core, draws, d.game), Step(Page, draws, d.game);
      if c == p {
        LoopTwins(draws, c, d.rest, guard - 1);
      } else {
        LoopRemembers(Core, draws, c, d.rest, guard - 1);
        LoopRemembers(Page, draws, p, d.rest, guard - 1);
      }
    }
  }

  /** On every log without a negative tick the two replays end in the very same game,
      unless a capsule came due with sixteen already falling; and that happens in the one
      exactly when it happens in the other. */
  lemma TwinsAgree(draws: Draws, events: seq<Event>)
    requires forall e :: e in events ==> 0 <= e.tick
    ensures Replay(Core, draws, events).refused == 0 <==> Replay(Page, draws, events).refused == 0
    ensures Replay(Core, draws, events).refused == 0 ==> Replay(Core, draws, events) == Replay(Page, draws, events)
  {
    hide Loop, NewGame;
    LoopTwins(draws, NewGame(draws), events, GUARD);
  }

  // ----- negative ticks -----

  /** A log as the core reads it. */
  function Clamped(events: seq<Event>): (clamped: seq<Event>)
    ensures forall e :: e in clamped ==> 0 <= e.tick
  {
    if events == [] then [] else [events[0].(tick := TargetTick(events[0].tick))] + Clamped(events[1..])
  }

  lemma {:induction false} DrainClamped(g: Game, events: seq<Event>)
    ensures var d := Drain(Core, g, events);
      Drain(Core, g, Clamped(events)) == Drained(d.game, Clamped(d.rest))
    decreases |events|
  {
    hide Apply;
    if events != [] {
      assert Clamped(events)[1..] == Clamped(events[1..]);
      DrainClamped(Apply(g, events[0].action, events[0].value), events[1..]);
    }
  }

  lemma {:induction false} LoopClamped(draws: Draws, g: Game, events: seq<Event>, guard: nat)
    ensures Loop(Core, draws, g, Clamped(events), guard) == Loop(Core, draws, g, events, guard)
    decreases guard
  {
    hide Step, Drain, Clamped;
    if !g.over && guard > 0 {
      DrainClamped(g, events);
      var d := Drain(Core, g, events);
      LoopClamped(draws, Step(Core, draws, d.game), d.rest, guard - 1);
    }
  }

  /** So for any log at all, the core replays it as the page replays its clamped form. */
  lemma CoreIsPageClamped(draws: Draws, events: seq<Event>)
    requires Replay(Core, draws, events).refused == 0
    ensures Replay(Core, draws, events) == Replay(Page, draws, Clamped(events))
  {
    hide Loop, NewGame, Clamped;
    LoopClamped(draws, NewGame(draws), events, GUARD);
    TwinsAgree(draws, Clamped(events));
  }

  /** The page never gets past a negative tick: no event of such a log is applied. */
  lemma {:induction false} PageStopsAtNegative(draws: Draws, g: Game, events: seq<Event>, guard: nat)
    requires events != [] && events[0].tick < 0
    ensures Loop(Page, draws, g, events, guard) == Loop(Page, draws, g, [], guard)
    decreases guard
  {
    hide Step;
    if !g.over && guard > 0 {
      assert Drain(Page, g, events) == Drained(g, events) && Drain(Page, g, []) == Drained(g, []);
      PageStopsAtNegative(draws, Step(Page, draws, g), events, guard - 1);
    }
  }

  lemma {:induction false} TargetStays(twin: Twin, draws: Draws, g: Game, guard: nat)
    ensures Loop(twin, draws, g, [], guard).target == g.target
    decreases guard
  {
    hide Step;
    if !g.over && guard > 0 {
      assert Drain(twin, g, []) == Drained(g, []);
      StepKeepsTarget(twin, draws, g);
      TargetStays(twin, draws, Step(twin, draws, g), guard - 1);
    }
  }

  lemma StepKeepsTarget(twin: Twin, draws: Draws, g: Game)
    ensures Step(twin, draws, g).target == g.target
  {
    hide StepBallsFrom, StepCapsules, LoseLife, NextWall, End;
    if !g.over {
      var b := Begin(g);
      AfterBallsRemembers(draws, b);
      AfterBallsRemembers(draws, StepBalls(twin, draws, b));
      BallsKeepTarget(twin, draws, b.(balls := []), b.balls, []);
    }
  }

  lemma StrikeKeepsTarget(twin: Twin, draws: Draws, g: Game, b: Ball)
    ensures Strike(twin, draws, g, b).game.target == g.target
  {
    hide BrickAt, CapsuleOf, Drops, BrickScore;
  }

  lemma MeetKeepsTarget(g: Game, b: Ball)
    ensures Meet(g, b).game.target == g.target
  {
    hide Deflect, MeetsPaddle;
  }

  lemma SubStepKeepsTarget(twin: Twin, draws: Draws, g: Game, b: Ball)
    ensures SubStep(twin, draws, g, b).game.target == g.target
  {
    hide Move, Strike, Meet;
    StrikeKeepsTarget(twin, draws, g, Move(b));
    MeetKeepsTarget(Strike(twin, draws, g, Move(b)).game, Strike(twin, draws, g, Move(b)).ball);
  }

  lemma {:induction false} BallsKeepTarget(twin: Twin, draws: Draws, g: Game, flying: seq<Ball>, kept: seq<Ball>)
    ensures StepBallsFrom(twin, draws, g, flying, kept).target == g.target
    decreases |flying|
  {
    hide SubStep, Survives;
    if flying != [] {
      var first := SubStep(twin, draws, g, flying[0]);
      SubStepKeepsTarget(twin, draws, g, flying[0]);
      SubStepKeepsTarget(twin, draws, first.game, first.ball);
      var f := StepBall(twin, draws, g, flying[0]);
      BallsKeepTarget(twin, draws, f.game, flying[1..], if Survives(f) then kept + [f.ball] else kept);
    }
  }

  /** Tick -1 passes the page's validator, and there the twins part: one aim, which the
      core takes and the page never reaches. */
  lemma TwinsPartAtMinusOne(draws: Draws)
    ensures var log := [Event(ACTION_TARGET, -1, 0)];
      Replay(Core, draws, log).target == 0 && Replay(Page, draws, log).target == 1600
  {
    var log := [Event(ACTION_TARGET, -1, 0)];
    var start := NewGame(draws);
    PageStopsAtNegative(draws, start, log, GUARD);
    TargetStays(Page, draws, start, GUARD);
    FirstAim(draws, start, log);
    LoopUnfolds(Core, draws, start, log, GUARD);
    var d := Drain(Core, start, log);
    StepKeepsTarget(Core, draws, d.game);
    TargetStays(Core, draws, Step(Core, draws, d.game), GUARD - 1);
    hide Loop, Step, WallAt, Drain;
  }

  lemma FirstAim(draws: Draws, g: Game, log: seq<Event>)
    requires log == [Event(ACTION_TARGET, -1, 0)] && g.tick == 0 && !g.over
    ensures Drain(Core, g, log) == Drained(g.(target := 0), [])
  {
    assert log[1..] == [];
  }
}
