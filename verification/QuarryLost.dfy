/** Why a ball is lost, over whole runs: beside the balls of a run goes, for each, whether
    it has been off the paddle at a sub-step inside the contact band. A ball born by a
    split is where its parent is, and has its parent's record. */
module QuarryLost {
  import opened Arcade
  import opened Basics
  import opened QuarryRules
  import opened QuarryBalls
  import opened QuarryRuns

  const LINE: int := 4816 // PADDLE_Y - BALL_R

  /** A sub-step inside the band that ends beside the paddle. */
  predicate Misses(twin: Twin, draws: Draws, g: Game, b: Ball)
  {
    var c := SubStep(twin, draws, g, b).ball;
    InBand(c.y) && !OnPaddle(g, c.x)
  }

  /** A ball's record after a tick. */
  function Record(twin: Twin, draws: Draws, g: Game, b: Ball, missed: bool): bool
  {
    var first := SubStep(twin, draws, g, b);
    var once := missed || Misses(twin, draws, g, b);
    if g.slow > 0 || first.stuck then once else once || Misses(twin, draws, first.game, first.ball)
  }

  /** A ball below the paddle's line has missed it. */
  predicate Accounted(b: Ball, missed: bool)
  {
    b.y > LINE ==> missed
  }

  predicate IsLost(f: Flight)
  {
    !f.stuck && f.ball.y - BALL_R > FIELD_H
  }

  // ----- one ball -----

  lemma SubStepAccounted(twin: Twin, draws: Draws, g: Game, b: Ball, missed: bool)
    requires Rig(g) && Envelope(b) && Accounted(b, missed)
    ensures var f := SubStep(twin, draws, g, b);
      !f.stuck ==> Accounted(f.ball, missed || Misses(twin, draws, g, b))
  {
    hide SubStep, Rig, Envelope, OnPaddle;
    if b.y <= LINE {
      NoSubStepSkipsTheBand(twin, draws, g, b);
      var f := SubStep(twin, draws, g, b);
      if f.ball.y > LINE && !f.stuck {
        BelowTheLine(twin, draws, g, b);
      }
    }
  }

  lemma StepBallAccounted(twin: Twin, draws: Draws, g: Game, b: Ball, missed: bool)
    requires Rig(g) && Envelope(b) && Accounted(b, missed)
    ensures var f := StepBall(twin, draws, g, b);
      !f.stuck ==> Accounted(f.ball, Record(twin, draws, g, b, missed))
  {
    hide SubStep, Rig, Envelope, Misses, Accounted;
    var first := SubStep(twin, draws, g, b);
    SubStepKeeps(twin, draws, g, b);
    SubStepAccounted(twin, draws, g, b, missed);
    if g.slow == 0 && !first.stuck {
      SubStepAccounted(twin, draws, first.game, first.ball, missed || Misses(twin, draws, g, b));
    }
  }

  // ----- all the balls -----

  function First(missed: seq<bool>): bool
  {
    missed != [] && missed[0]
  }

  function Others(missed: seq<bool>): seq<bool>
  {
    if missed == [] then [] else missed[1..]
  }

  /** The records of the balls that are still in play after a tick. */
  function Records(twin: Twin, draws: Draws, g: Game, flying: seq<Ball>, missed: seq<bool>): seq<bool>
    decreases |flying|
  {
    if flying == [] then []
    else
      var f := StepBall(twin, draws, g, flying[0]);
      (if Survives(f) then [Record(twin, draws, g, flying[0], First(missed))] else [])
      + Records(twin, draws, f.game, flying[1..], Others(missed))
  }

  /** Each ball in turn that this tick loses below the field has missed the paddle. */
  predicate LosesOnlyMissed(twin: Twin, draws: Draws, g: Game, flying: seq<Ball>, missed: seq<bool>)
    decreases |flying|
  {
    flying == [] || (
      var f := StepBall(twin, draws, g, flying[0]);
      && (IsLost(f) ==> Record(twin, draws, g, flying[0], First(missed)))
      && LosesOnlyMissed(twin, draws, f.game, flying[1..], Others(missed)))
  }

  predicate AllAccounted(balls: seq<Ball>, missed: seq<bool>)
  {
    |missed| == |balls| && forall i :: 0 <= i < |balls| ==> Accounted(balls[i], missed[i])
  }

  lemma {:induction false} BallsAccounted(twin: Twin, draws: Draws, g: Game, flying: seq<Ball>, kept: seq<Ball>,
                                          missed: seq<bool>, keptMissed: seq<bool>)
    requires Rig(g) && forall b :: b in flying ==> Envelope(b)
    requires AllAccounted(flying, missed) && AllAccounted(kept, keptMissed)
    ensures LosesOnlyMissed(twin, draws, g, flying, missed)
    ensures AllAccounted(StepBallsFrom(twin, draws, g, flying, kept).balls,
                         keptMissed + Records(twin, draws, g, flying, missed))
    decreases |flying|
  {
    hide *;
    AccountedLengths(flying, missed);
    BallsUnfold(twin, draws, g, flying, kept, missed);
    if flying == [] {
      assert keptMissed + [] == keptMissed;
    } else {
      var b := flying[0];
      assert b in flying;
      var f, r := StepBall(twin, draws, g, b), Record(twin, draws, g, b, missed[0]);
      StepBallKeeps(twin, draws, g, b);
      CarriesRig(g, f.game);
      AccountedFirst(flying, missed);
      StepBallAccounted(twin, draws, g, b, missed[0]);
      LostIsBelow(f, r);
      StuckIsHeld(twin, draws, g, b);
      AccountedMore(kept, keptMissed, f.ball, r);
      var nextKept := if Survives(f) then kept + [f.ball] else kept;
      var nextMissed := if Survives(f) then keptMissed + [r] else keptMissed;
      BallsAccounted(twin, draws, f.game, flying[1..], nextKept, missed[1..], nextMissed);
      var rest := Records(twin, draws, f.game, flying[1..], missed[1..]);
      assert (keptMissed + [r]) + rest == keptMissed + ([r] + rest);
      assert [] + rest == rest;
    }
  }

  lemma BallsUnfold(twin: Twin, draws: Draws, g: Game, flying: seq<Ball>, kept: seq<Ball>, missed: seq<bool>)
    requires |missed| == |flying|
    ensures flying == [] ==>
      (StepBallsFrom(twin, draws, g, flying, kept).balls == kept
       && Records(twin, draws, g, flying, missed) == [] && LosesOnlyMissed(twin, draws, g, flying, missed))
    ensures flying != [] ==>
      var f, r := StepBall(twin, draws, g, flying[0]), Record(twin, draws, g, flying[0], missed[0]);
      && StepBallsFrom(twin, draws, g, flying, kept)
         == StepBallsFrom(twin, draws, f.game, flying[1..], if Survives(f) then kept + [f.ball] else kept)
      && Records(twin, draws, g, flying, missed)
         == (if Survives(f) then [r] else []) + Records(twin, draws, f.game, flying[1..], missed[1..])
      && (LosesOnlyMissed(twin, draws, g, flying, missed)
          <==> (IsLost(f) ==> r) && LosesOnlyMissed(twin, draws, f.game, flying[1..], missed[1..]))
  {
    hide StepBall, Record, Survives, IsLost;
  }

  lemma CarriesRig(g: Game, h: Game)
    requires Rig(g) && Carries(g, h)
    ensures Rig(h)
  {
    hide Rig;
  }

  lemma AccountedLengths(balls: seq<Ball>, missed: seq<bool>)
    requires AllAccounted(balls, missed)
    ensures |missed| == |balls|
  {
  }

  lemma AccountedFirst(balls: seq<Ball>, missed: seq<bool>)
    requires AllAccounted(balls, missed) && balls != []
    ensures missed != [] && Accounted(balls[0], missed[0]) && AllAccounted(balls[1..], missed[1..])
  {
    hide Accounted;
  }

  lemma AccountedMore(balls: seq<Ball>, missed: seq<bool>, b: Ball, r: bool)
    requires AllAccounted(balls, missed)
    ensures Accounted(b, r) ==> AllAccounted(balls + [b], missed + [r])
  {
    hide Accounted;
  }

  lemma LostIsBelow(f: Flight, missed: bool)
    ensures (!f.stuck ==> Accounted(f.ball, missed)) ==> (IsLost(f) ==> missed)
  {
  }

  /** A caught ball leaves the list: the game is held. */
  lemma StuckIsHeld(twin: Twin, draws: Draws, g: Game, b: Ball)
    requires Rig(g) && Envelope(b)
    ensures StepBall(twin, draws, g, b).stuck ==> !Survives(StepBall(twin, draws, g, b))
  {
    StepBallKeeps(twin, draws, g, b);
    hide StepBall, Rig, Envelope;
  }

  // ----- splits -----

  function SplitRecords(missed: seq<bool>): seq<bool>
  {
    var born := Min(|missed|, Max(0, MAX_BALLS - |missed|));
    missed + missed[..born]
  }

  lemma SplitAccounted(balls: seq<Ball>, missed: seq<bool>)
    requires AllAccounted(balls, missed)
    ensures AllAccounted(Split(balls), SplitRecords(missed))
  {
    var s, m := Split(balls), SplitRecords(missed);
    forall i | 0 <= i < |s| ensures Accounted(s[i], m[i]) {
      assert Accounted(balls[if i < |balls| then i else i - |balls|], missed[if i < |balls| then i else i - |balls|]);
    }
  }

  function CapsuleRecords(g: Game, falling: seq<Capsule>, missed: seq<bool>): seq<bool>
    decreases |falling|
  {
    if falling == [] then missed
    else
      var c := falling[0].(y := falling[0].y + CAPSULE_SPEED);
      if !Catches(g, c) then CapsuleRecords(g, falling[1..], missed)
      else CapsuleRecords(ApplyCapsule(g, c.kind), falling[1..],
                          if c.kind == CAPSULE_MULTI then SplitRecords(missed) else missed)
  }

  lemma {:induction false} CapsulesAccounted(g: Game, falling: seq<Capsule>, kept: seq<Capsule>, missed: seq<bool>)
    requires AllAccounted(g.balls, missed)
    ensures AllAccounted(StepCapsulesFrom(g, falling, kept).balls, CapsuleRecords(g, falling, missed))
    decreases |falling|
  {
    hide Catches, AllAccounted, Split, SplitRecords;
    if falling != [] {
      var c := falling[0].(y := falling[0].y + CAPSULE_SPEED);
      SplitAccounted(g.balls, missed);
      if Catches(g, c) {
        CapsulesAccounted(ApplyCapsule(g, c.kind), falling[1..], kept,
                          if c.kind == CAPSULE_MULTI then SplitRecords(missed) else missed);
      } else {
        CapsulesAccounted(g, falling[1..], if c.y < FIELD_H then kept + [c] else kept, missed);
      }
    }
  }

  // ----- ticks, inputs and runs -----

  function StepRecords(twin: Twin, draws: Draws, g: Game, missed: seq<bool>): seq<bool>
  {
    if g.over then missed
    else
      var b := Begin(g);
      if b.held then CapsuleRecords(b.(capsules := []), b.capsules, missed)
      else
        var s := StepBalls(twin, draws, b);
        var after := CapsuleRecords(s.(capsules := []), s.capsules,
                                    Records(twin, draws, b.(balls := []), b.balls, missed));
        if WallCleared(s.bricks) then [] else after
  }

  function ApplyRecords(g: Game, action: int, missed: seq<bool>): seq<bool>
  {
    if !g.over && action == ACTION_LAUNCH && g.held && |g.balls| < MAX_BALLS then missed + [false] else missed
  }

  lemma ApplyAccounted(g: Game, action: int, value: int, missed: seq<bool>)
    requires AllAccounted(g.balls, missed)
    ensures AllAccounted(Apply(g, action, value).balls, ApplyRecords(g, action, missed))
  {
  }

  lemma TickLosesOnlyMissed(twin: Twin, draws: Draws, g: Game, missed: seq<bool>)
    requires Fair(g) && !g.over && AllAccounted(g.balls, missed)
    ensures LosesOnlyMissed(twin, draws, Begin(g).(balls := []), g.balls, missed)
    ensures AllAccounted(StepBalls(twin, draws, Begin(g)).balls,
                         Records(twin, draws, Begin(g).(balls := []), g.balls, missed))
  {
    var b := Begin(g);
    BeginKeeps(g);
    AllEnvelope(b.balls);
    RigByPlace(b);
    hide Rig, Envelope, BallsInField, Fair, LosesOnlyMissed, Records, StepBallsFrom, AllAccounted;
    NoneAccounted();
    BallsAccounted(twin, draws, b.(balls := []), b.balls, [], missed, []);
    assert [] + Records(twin, draws, b.(balls := []), b.balls, missed)
        == Records(twin, draws, b.(balls := []), b.balls, missed);
  }

  lemma NoneAccounted()
    ensures AllAccounted([], [])
  {
  }

  lemma RigByPlace(g: Game)
    ensures Rig(g) ==> Rig(g.(balls := []))
  {
    hide Falling, BaseSpeed;
  }

  lemma StepAccounted(twin: Twin, draws: Draws, g: Game, missed: seq<bool>)
    requires Fair(g) && AllAccounted(g.balls, missed)
    ensures AllAccounted(Step(twin, draws, g).balls, StepRecords(twin, draws, g, missed))
  {
    hide Fair, Records, StepBalls, StepCapsulesFrom, CapsuleRecords, AllAccounted, WallCleared, WallAt;
    if !g.over {
      var b := Begin(g);
      if b.held {
        CapsulesAccounted(b.(capsules := []), b.capsules, [], missed);
        EndKeepsBalls(draws, StepCapsules(b));
      } else {
        var s := StepBalls(twin, draws, b);
        TickLosesOnlyMissed(twin, draws, g, missed);
        CapsulesAccounted(s.(capsules := []), s.capsules, [],
                          Records(twin, draws, b.(balls := []), b.balls, missed));
        CapsulesKeepBricks(s.(capsules := []), s.capsules, []);
        EndKeepsBalls(draws, StepCapsules(s));
        NoneAccounted();
      }
    }
  }

  lemma {:induction false} CapsulesKeepBricks(g: Game, falling: seq<Capsule>, kept: seq<Capsule>)
    ensures StepCapsulesFrom(g, falling, kept).bricks == g.bricks
    decreases |falling|
  {
    hide Catches, Split;
    if falling != [] {
      var c := falling[0].(y := falling[0].y + CAPSULE_SPEED);
      if Catches(g, c) {
        CapsulesKeepBricks(ApplyCapsule(g, c.kind), falling[1..], kept);
      } else {
        CapsulesKeepBricks(g, falling[1..], if c.y < FIELD_H then kept + [c] else kept);
      }
    }
  }

  lemma EndKeepsBalls(draws: Draws, g: Game)
    ensures End(g).balls == g.balls
    ensures End(NextWall(draws, LoseLife(g))).balls == if WallCleared(g.bricks) then [] else g.balls
  {
    hide WallAt, WallCleared, BaseSpeed;
  }

  /** The records of a session's balls. */
  function RunRecords(twin: Twin, draws: Draws, inputs: seq<Input>): seq<bool>
    decreases |inputs|
  {
    if inputs == [] then []
    else
      var before := inputs[..|inputs| - 1];
      var g, missed := Sit(twin, draws, before).game, RunRecords(twin, draws, before);
      match inputs[|inputs| - 1]
      case Tick => StepRecords(twin, draws, g, missed)
      case Emit(action, _) => ApplyRecords(g, action, missed)
  }

  lemma {:induction false} RunAccounted(twin: Twin, draws: Draws, inputs: seq<Input>)
    ensures AllAccounted(Sit(twin, draws, inputs).game.balls, RunRecords(twin, draws, inputs))
    ensures Fair(Sit(twin, draws, inputs).game)
    decreases |inputs|
  {
    hide Fair, Step, Apply, NewGame, AllAccounted, StepRecords, ApplyRecords;
    if inputs == [] {
      NewGameFair(draws);
      NoBallsYet(draws);
      NoneAccounted();
    } else {
      var before := inputs[..|inputs| - 1];
      RunAccounted(twin, draws, before);
      var g, missed := Sit(twin, draws, before).game, RunRecords(twin, draws, before);
      match inputs[|inputs| - 1]
      case Tick =>
        StepAccounted(twin, draws, g, missed);
        StepFair(twin, draws, g);
      case Emit(action, value) =>
        ApplyAccounted(g, action, value, missed);
        ApplyFair(g, action, value);
    }
  }

  lemma NoBallsYet(draws: Draws)
    ensures NewGame(draws).balls == []
  {
    hide WallAt;
  }

  /** On every run, each ball that a tick loses below the field was, at some sub-step
      inside the contact band, off the paddle: its own, or its parent's before a split. */
  lemma EveryLostBallMissedThePaddle(twin: Twin, draws: Draws, inputs: seq<Input>)
    requires !Sit(twin, draws, inputs).game.over
    ensures var g := Sit(twin, draws, inputs).game;
      LosesOnlyMissed(twin, draws, Begin(g).(balls := []), g.balls, RunRecords(twin, draws, inputs))
  {
    hide *;
    RunAccounted(twin, draws, inputs);
    TickLosesOnlyMissed(twin, draws, Sit(twin, draws, inputs).game, RunRecords(twin, draws, inputs));
  }
}
