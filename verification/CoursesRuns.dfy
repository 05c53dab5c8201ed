/** Whole runs of Courses: a replay always ends and its guard never cuts it short,
    and the log a live session records replays to that session's own game. */
module CoursesRuns {
  import opened Arcade
  import opened CoursesBag
  import opened CoursesBoard
  import opened CoursesRules
  import opened CoursesInvariants

  /** The bounds a submitted log is held to before it is replayed. */
  const MAX_EVENTS: nat := 20000

  const GUARD: nat := 1080000 // MAX_PIECES * 60 * 60

  /** Step up to a tick, or to the end of the run. */
  function StepTo(draws: Draws, g: Game, target: nat): Game
    decreases if g.over then 0 else 1, target - g.tick
  {
    if g.over || g.tick >= target then g
    else
      StepTicksOrEnds(draws, g);
      StepTo(draws, Step(draws, g), target)
  }

  lemma StepTicksOrEnds(draws: Draws, g: Game)
    ensures g.over || Step(draws, g).over || Step(draws, g).tick == g.tick + 1
  {
    hide Collides, Stamp, Cleared, FullRows, OffBoard, ClearPoints, PieceAt;
    if !g.over && g.hasPiece {
      TickIsCountedByStep(draws, g);
      TickIsCountedByStep(draws, Fall(g));
    }
    if !g.over && !g.hasPiece {
      TickIsCountedByStep(draws, Spawn(draws, g));
      TickIsCountedByStep(draws, Fall(Spawn(draws, g)));
    }
    hide Rest, Fall;
  }

  /** Step until the run is over, at most guard times. */
  function RunOut(draws: Draws, g: Game, guard: nat): Game
    decreases guard
  {
    if g.over || guard == 0 then g else RunOut(draws, Step(draws, g), guard - 1)
  }

  /** Every event in turn, each at its tick. */
  function Play(draws: Draws, g: Game, events: seq<Event>): Game
    decreases |events|
  {
    if events == [] then g
    else
      var t := StepTo(draws, g, TargetTick(events[0].tick));
      if t.over then t else Play(draws, Apply(draws, t, events[0].action), events[1..])
  }

  function Replay(draws: Draws, events: seq<Event>): Game
  {
    RunOut(draws, Play(draws, Start(draws), events), GUARD)
  }

  // ----- how long a run can be -----

  /** The most ticks one piece can take between two inputs. */
  const SPAN: nat := 1278 // 26 * 48 + LOCK_DELAY

  /** What the piece in play may still take if nothing is pressed. */
  function Patience(g: Game): int
  {
    if Grounded(g) then LOCK_DELAY - g.lockCounter
    else 48 * (TOTAL_HEIGHT - 1 - g.y) - g.gravityCounter + LOCK_DELAY
  }

  /** A measure each tick spends from and each input adds at most SPAN to. */
  function Fuel(g: Game): int
  {
    if g.over then 0 else SPAN * (MAX_PIECES - g.index) + Patience(g)
  }

  lemma PatienceInRange(g: Game)
    requires Sound(g) && !g.over
    ensures 1 <= Patience(g) <= SPAN
  {
    hide Books;
    if !Grounded(g) {
      FitsAboveFloor(g.board, g.piece, g.rotation, g.x, g.y + 1);
    }
    hide Collides;
  }

  lemma FuelInRange(g: Game)
    requires Sound(g)
    ensures 0 <= Fuel(g) <= SPAN * (MAX_PIECES - g.index) + SPAN
    ensures g.over <==> Fuel(g) == 0
    ensures !g.over ==> Fuel(g) > SPAN * (MAX_PIECES - g.index)
  {
    if !g.over {
      PatienceInRange(g);
    }
    hide Placed, Clocks, Patience;
  }

  /** A lock deals the next piece or ends the run. */
  lemma LockDealsNext(draws: Draws, g: Game)
    requires g.index <= MAX_PIECES
    ensures Lock(draws, g).over || Lock(draws, g).index == g.index + 1
  {
    hide Collides, Stamp, Cleared, FullRows, OffBoard, ClearPoints, PieceAt;
  }

  /** Whether this tick locks the piece. */
  predicate LocksNow(g: Game)
  {
    Grounded(Fall(g)) && Fall(g).lockCounter + 1 >= LOCK_DELAY
  }

  lemma StepInPlaySpends(draws: Draws, g: Game)
    requires Sound(g) && !g.over && !LocksNow(g)
    ensures Fuel(Step(draws, g)) <= Fuel(g) - 1
  {
    hide Books, Lock, Collides, GravityInterval;
    if !Grounded(g) {
      FitsAboveFloor(g.board, g.piece, g.rotation, g.x, g.y + 1);
    }
    GravityInRange(g.level);
  }

  lemma GravityInRange(level: nat)
    ensures 1 <= GravityInterval(level) <= 48
  {
  }

  lemma LockingStepDealsNext(draws: Draws, g: Game)
    requires Sound(g) && !g.over && LocksNow(g)
    ensures Step(draws, g).over || Step(draws, g).index == g.index + 1
  {
    hide Lock, HitsAt, Fall, Clocks, NoRowFull, CoursesBoard.Filled;
    FallSound(g);
    FallKeepsIndex(g);
    LockDealsNext(draws, Fall(g).(lockCounter := Fall(g).lockCounter + 1));
    LockFollows(draws, g);
  }

  lemma FallKeepsIndex(g: Game)
    ensures Fall(g).index == g.index && Fall(g).over == g.over
  {
    hide HitsAt, GravityInterval;
  }

  lemma LockFollows(draws: Draws, g: Game)
    requires g.hasPiece && !g.over && LocksNow(g)
    ensures var locked := Lock(draws, Fall(g).(lockCounter := Fall(g).lockCounter + 1));
      Step(draws, g) == locked.(tick := locked.tick + 1)
  {
    hide Fall, Lock, HitsAt;
  }

  /** Every tick spends. */
  lemma StepSpends(draws: Draws, g: Game)
    requires Sound(g) && !g.over
    ensures Fuel(Step(draws, g)) <= Fuel(g) - 1
  {
    if LocksNow(g) {
      StepSound(draws, g);
      LockingStepDealsNext(draws, g);
      FuelInRange(g);
      FuelInRange(Step(draws, g));
      hide Sound, Step, Fuel, Fall, Grounded;
    } else {
      StepInPlaySpends(draws, g);
    }
  }

  lemma ApplyKeepsClock(draws: Draws, g: Game, action: int)
    ensures g.index <= Apply(draws, g, action).index && Apply(draws, g, action).tick == g.tick
  {
    hide Shift, Rotate, SoftDrop, HardDrop, Hold;
    QuietInputsKeepClock(g);
    HardDropKeepsClock(draws, g);
    HoldKeepsClock(draws, g);
  }

  lemma QuietInputsKeepClock(g: Game)
    ensures forall dx :: Shift(g, dx).tick == g.tick && Shift(g, dx).index == g.index
    ensures forall r: Turn :: Rotate(g, r).tick == g.tick && Rotate(g, r).index == g.index
    ensures SoftDrop(g).tick == g.tick && SoftDrop(g).index == g.index
  {
    hide HitsAt, FirstKick, Kick;
  }

  lemma HardDropKeepsClock(draws: Draws, g: Game)
    ensures g.index <= HardDrop(draws, g).index && HardDrop(draws, g).tick == g.tick
  {
    hide Stamp, Cleared, FullRows, OffBoard, ClearPoints, PieceAt, Landing, Collides;
  }

  lemma HoldKeepsClock(draws: Draws, g: Game)
    ensures g.index <= Hold(draws, g).index && Hold(draws, g).tick == g.tick
  {
    hide PieceAt, Collides;
  }

  /** An input adds at most SPAN, whatever it is. */
  lemma ApplyAdds(draws: Draws, g: Game, action: int)
    requires Sound(g)
    ensures Fuel(Apply(draws, g, action)) <= Fuel(g) + SPAN
  {
    ApplySound(draws, g, action);
    ApplyKeepsClock(draws, g, action);
    FuelInRange(g);
    FuelInRange(Apply(draws, g, action));
    if g.over {
      assert Apply(draws, g, action) == g;
    }
    hide Apply, Fuel, Sound;
  }

  lemma RunOutUnfolds(draws: Draws, g: Game, guard: nat)
    ensures RunOut(draws, g, guard)
         == if g.over || guard == 0 then g else RunOut(draws, Step(draws, g), guard - 1)
  {
    hide Step;
  }

  /** With enough steps left a run ends, within as many ticks as it had fuel. */
  lemma {:induction false} RunOutEnds(draws: Draws, g: Game, guard: nat)
    requires Sound(g) && Fuel(g) <= guard
    ensures Sound(RunOut(draws, g, guard)) && RunOut(draws, g, guard).over
    ensures RunOut(draws, g, guard).tick <= g.tick + Fuel(g)
    ensures RunOut(draws, g, guard).score
         <= g.score + 14450 * (RunOut(draws, g, guard).locked - g.locked)
    decreases guard
  {
    hide *;
    FuelInRange(g);
    RunOutUnfolds(draws, g, guard);
    if !g.over {
      StepSpends(draws, g);
      StepSound(draws, g);
      RunOutEnds(draws, Step(draws, g), guard - 1);
    }
  }

  /** Any guard that covers the fuel gives the same end: it never cuts a run short. */
  lemma {:induction false} GuardNeverBinds(draws: Draws, g: Game, guard: nat, more: nat)
    requires Sound(g) && Fuel(g) <= guard <= more
    ensures RunOut(draws, g, guard) == RunOut(draws, g, more)
    decreases guard
  {
    hide *;
    FuelInRange(g);
    RunOutUnfolds(draws, g, guard);
    RunOutUnfolds(draws, g, more);
    if !g.over {
      StepSpends(draws, g);
      StepSound(draws, g);
      GuardNeverBinds(draws, Step(draws, g), guard - 1, more - 1);
    }
  }

  lemma {:induction false} StepToSpends(draws: Draws, g: Game, target: nat)
    requires Sound(g)
    ensures Sound(StepTo(draws, g, target))
    ensures StepTo(draws, g, target).tick + Fuel(StepTo(draws, g, target)) <= g.tick + Fuel(g)
    ensures StepTo(draws, g, target).score
         <= g.score + 14450 * (StepTo(draws, g, target).locked - g.locked)
    decreases if g.over then 0 else 1, target - g.tick
  {
    hide Fuel, Sound, Step;
    if !g.over && g.tick < target {
      StepTicksOrEnds(draws, g);
      StepSpends(draws, g);
      StepSound(draws, g);
      StepToSpends(draws, Step(draws, g), target);
    }
  }

  lemma {:induction false} PlaySpends(draws: Draws, g: Game, events: seq<Event>)
    requires Sound(g)
    ensures Sound(Play(draws, g, events))
    ensures Play(draws, g, events).tick + Fuel(Play(draws, g, events))
         <= g.tick + Fuel(g) + SPAN * |events|
    ensures Play(draws, g, events).score
         <= g.score + 14450 * (Play(draws, g, events).locked - g.locked) + |events|
    decreases |events|
  {
    hide Fuel, Sound, StepTo, Apply;
    if events != [] {
      var t := StepTo(draws, g, TargetTick(events[0].tick));
      StepToSpends(draws, g, TargetTick(events[0].tick));
      if !t.over {
        ApplyAdds(draws, t, events[0].action);
        ApplySound(draws, t, events[0].action);
        ApplyKeepsClock(draws, t, events[0].action);
        PlaySpends(draws, Apply(draws, t, events[0].action), events[1..]);
      }
    }
  }

  /** Every replay ends, whatever its events say and whatever ticks they name: at most
      SPAN ticks for each piece and each event, and no larger guard changes it. */
  lemma ReplayEnds(draws: Draws, events: seq<Event>, more: nat)
    ensures Sound(Replay(draws, events)) && Replay(draws, events).over
    ensures Replay(draws, events).tick <= SPAN * (MAX_PIECES + |events|)
    ensures more >= GUARD ==> Replay(draws, events) == RunOut(draws, Play(draws, Start(draws), events), more)
  {
    var start := Start(draws);
    StartSound(draws);
    StartIsDealt(draws);
    FuelInRange(start);
    var played := Play(draws, start, events);
    PlaySpends(draws, start, events);
    FuelInRange(played);
    PlayKeepsIndex(draws, start, events);
    hide Fuel, Sound, Play, RunOut, Start;
    RunOutEnds(draws, played, GUARD);
    if more >= GUARD {
      GuardNeverBinds(draws, played, GUARD, more);
    }
  }

  lemma StartIsDealt(draws: Draws)
    ensures Start(draws).index == 1 && Start(draws).tick == 0
  {
    hide Collides, PieceAt;
  }

  lemma RestKeepsIndex(draws: Draws, g: Game)
    ensures g.index <= Rest(draws, g).index && Fall(g).index == g.index
    ensures g.index <= Spawn(draws, g).index
  {
    hide Collides, Stamp, Cleared, FullRows, OffBoard, ClearPoints, PieceAt;
  }

  lemma StepKeepsIndex(draws: Draws, g: Game)
    ensures g.index <= Step(draws, g).index
  {
    var s := if g.hasPiece then g else Spawn(draws, g);
    RestKeepsIndex(draws, g);
    RestKeepsIndex(draws, s);
    RestKeepsIndex(draws, Fall(s));
    hide Rest, Fall, Spawn;
  }

  lemma {:induction false} StepToKeepsIndex(draws: Draws, g: Game, target: nat)
    ensures g.index <= StepTo(draws, g, target).index
    decreases if g.over then 0 else 1, target - g.tick
  {
    hide Step;
    if !g.over && g.tick < target {
      StepTicksOrEnds(draws, g);
      StepKeepsIndex(draws, g);
      StepToKeepsIndex(draws, Step(draws, g), target);
    }
  }

  lemma {:induction false} PlayKeepsIndex(draws: Draws, g: Game, events: seq<Event>)
    requires Sound(g)
    ensures g.index <= Play(draws, g, events).index
    decreases |events|
  {
    hide StepTo, Apply, Sound;
    if events != [] {
      var t := StepTo(draws, g, TargetTick(events[0].tick));
      StepToKeepsIndex(draws, g, TargetTick(events[0].tick));
      StepToSpends(draws, g, TargetTick(events[0].tick));
      if !t.over {
        ApplyKeepsClock(draws, t, events[0].action);
        ApplySound(draws, t, events[0].action);
        PlayKeepsIndex(draws, Apply(draws, t, events[0].action), events[1..]);
      }
    }
  }

  /** What a run can be worth: the score of any log short enough to be accepted fits a
      u32, and no run passes 120 lines. */
  lemma ReplayScoreFits(draws: Draws, events: seq<Event>)
    ensures Replay(draws, events).score <= 14450 * MAX_PIECES + |events|
    ensures |events| <= MAX_EVENTS ==> Replay(draws, events).score < U32_LIMIT
    ensures Replay(draws, events).lines <= 120
  {
    var start := Start(draws);
    StartSound(draws);
    StartIsDealt(draws);
    FuelInRange(start);
    var played := Play(draws, start, events);
    PlaySpends(draws, start, events);
    PlayKeepsIndex(draws, start, events);
    FuelInRange(played);
    hide Fuel, Play, RunOut, Start, Placed, Clocks;
    RunOutEnds(draws, played, GUARD);
    LineCeiling(RunOut(draws, played, GUARD));
  }

  // ----- recording -----

  /** What can happen to a live run: a key, or the clock. */
  datatype Input = Press(action: int) | Tick

  datatype Session = Session(game: Game, log: seq<Event>)

  /** A press is logged at the tick it happens in, unless the run is over. */
  function Live(draws: Draws, s: Session, input: Input): Session
  {
    match input
    case Tick => s.(game := Step(draws, s.game))
    case Press(action) =>
      if s.game.over then s
      else Session(Apply(draws, s.game, action), s.log + [Event(action, s.game.tick, 0)])
  }

  /** A session after some inputs, in any order. */
  function Sit(draws: Draws, inputs: seq<Input>): Session
  {
    if inputs == [] then Session(Start(draws), [])
    else Live(draws, Sit(draws, inputs[..|inputs| - 1]), inputs[|inputs| - 1])
  }

  lemma {:induction false} PlayAppend(draws: Draws, g: Game, events: seq<Event>, e: Event)
    ensures Play(draws, g, events + [e])
         == Apply(draws, StepTo(draws, Play(draws, g, events), TargetTick(e.tick)), e.action)
    decreases |events|
  {
    hide Step;
    if events == [] {
      assert [e][1..] == [];
      var t := StepTo(draws, g, TargetTick(e.tick));
      if t.over {
        OverStays(draws, t, e);
      }
    } else {
      var all := events + [e];
      assert all[0] == events[0] && all[1..] == events[1..] + [e];
      var t := StepTo(draws, g, TargetTick(events[0].tick));
      if t.over {
        OverStays(draws, t, e);
      } else {
        PlayAppend(draws, Apply(draws, t, events[0].action), events[1..], e);
      }
    }
  }

  lemma OverStays(draws: Draws, g: Game, e: Event)
    requires g.over
    ensures StepTo(draws, g, TargetTick(e.tick)) == g && Apply(draws, g, e.action) == g
  {
  }

  /** One more tick is one more step. */
  lemma {:induction false} StepToOneMore(draws: Draws, g: Game, target: nat)
    requires Sound(g) && g.tick <= target
    ensures var t := StepTo(draws, g, target);
      t.tick <= target && (!t.over ==> t.tick == target && StepTo(draws, g, target + 1) == Step(draws, t))
    decreases if g.over then 0 else 1, target - g.tick
  {
    hide Sound;
    if !g.over {
      StepTicksOrEnds(draws, g);
      StepSound(draws, g);
      hide Step;
      if g.tick < target {
        StepToOneMore(draws, Step(draws, g), target);
      } else {
        var next := Step(draws, g);
        assert StepTo(draws, next, target + 1) == next;
      }
    }
  }

  /** What the recorder keeps true: replaying the log so far, up to the session's own
      tick, gives the session's own game. */
  predicate Recorded(draws: Draws, s: Session)
  {
    var played := Play(draws, Start(draws), s.log);
    Sound(played) && played.tick <= s.game.tick && StepTo(draws, played, s.game.tick) == s.game
  }

  lemma OverSteps(draws: Draws, g: Game)
    ensures g.over ==> Step(draws, g) == g
  {
  }

  lemma LiveKeepsRecorded(draws: Draws, s: Session, input: Input)
    requires Recorded(draws, s)
    ensures Recorded(draws, Live(draws, s, input))
  {
    hide Step, Apply, Sound, Start, Play, StepTo;
    var played := Play(draws, Start(draws), s.log);
    StepToSpends(draws, played, s.game.tick);
    StepTicksOrEnds(draws, s.game);
    StepSound(draws, s.game);
    OverSteps(draws, s.game);
    match input
    case Tick =>
      StepToOneMore(draws, played, s.game.tick);
    case Press(action) =>
      if !s.game.over {
        PlayAppend(draws, Start(draws), s.log, Event(action, s.game.tick, 0));
        ApplySound(draws, s.game, action);
        ApplyKeepsClock(draws, s.game, action);
        StepToUnfolds(draws, Apply(draws, s.game, action), s.game.tick);
      }
  }

  lemma {:induction false} SitIsRecorded(draws: Draws, inputs: seq<Input>)
    ensures Recorded(draws, Sit(draws, inputs))
  {
    hide Start;
    if inputs == [] {
      StartSound(draws);
      hide Sound;
    } else {
      hide Recorded, Live;
      SitIsRecorded(draws, inputs[..|inputs| - 1]);
      LiveKeepsRecorded(draws, Sit(draws, inputs[..|inputs| - 1]), inputs[|inputs| - 1]);
    }
  }

  lemma {:induction false} RunOutFromLater(draws: Draws, g: Game, target: nat, guard: nat)
    requires Sound(g) && Fuel(g) <= guard
    ensures RunOut(draws, StepTo(draws, g, target), guard) == RunOut(draws, g, guard)
    decreases if g.over then 0 else 1, target - g.tick
  {
    hide *;
    FuelInRange(g);
    StepToUnfolds(draws, g, target);
    RunOutUnfolds(draws, g, guard);
    if !g.over && g.tick < target {
      StepTicksOrEnds(draws, g);
      StepSound(draws, g);
      StepSpends(draws, g);
      RunOutFromLater(draws, Step(draws, g), target, guard);
      GuardNeverBinds(draws, Step(draws, g), guard - 1, guard);
    }
  }

  lemma StepToUnfolds(draws: Draws, g: Game, target: nat)
    ensures StepTo(draws, g, target)
         == if g.over || g.tick >= target then g else StepTo(draws, Step(draws, g), target)
  {
    hide Step;
  }

  /** Record and replay: whatever was pressed and whenever, the log replays to the very
      game the session reaches when it is left to run out; so a session played to its
      end is reproduced exactly, score, lines and ticks included. */
  lemma RecordThenReplay(draws: Draws, inputs: seq<Input>)
    ensures var s := Sit(draws, inputs);
      Replay(draws, s.log) == RunOut(draws, s.game, GUARD)
      && (s.game.over ==> Replay(draws, s.log) == s.game)
  {
    var s := Sit(draws, inputs);
    SitIsRecorded(draws, inputs);
    StartSound(draws);
    StartIsDealt(draws);
    PlayKeepsIndex(draws, Start(draws), s.log);
    var played := Play(draws, Start(draws), s.log);
    FuelInRange(played);
    hide Step, Sound, Fuel, Play, StepTo, Start, Sit;
    RunOutFromLater(draws, played, s.game.tick, GUARD);
  }

  /** The recorder writes its ticks in order, none negative and none past the game. */
  lemma {:induction false} LogIsInOrder(draws: Draws, inputs: seq<Input>)
    ensures InOrder(Sit(draws, inputs))
  {
    hide Start, Step, Apply;
    if inputs != [] {
      LogIsInOrder(draws, inputs[..|inputs| - 1]);
      LiveKeepsOrder(draws, Sit(draws, inputs[..|inputs| - 1]), inputs[|inputs| - 1]);
      hide Live;
    }
  }

  predicate InOrder(s: Session)
  {
    forall i, j :: 0 <= i <= j < |s.log| ==> 0 <= s.log[i].tick <= s.log[j].tick <= s.game.tick
  }

  lemma LiveKeepsOrder(draws: Draws, s: Session, input: Input)
    requires InOrder(s)
    ensures InOrder(Live(draws, s, input))
  {
    LiveTickGrows(draws, s, input);
    hide Step, Apply;
  }

  lemma LiveTickGrows(draws: Draws, s: Session, input: Input)
    ensures s.game.tick <= Live(draws, s, input).game.tick
  {
    StepKeepsOrCountsTick(draws, s.game);
    match input
    case Tick =>
    case Press(action) => ApplyKeepsClock(draws, s.game, action);
  }

  lemma StepKeepsOrCountsTick(draws: Draws, g: Game)
    ensures g.tick <= Step(draws, g).tick
  {
    var s := if g.hasPiece then g else Spawn(draws, g);
    TickIsCountedByStep(draws, s);
    TickIsCountedByStep(draws, Fall(s));
    hide Rest, Fall, Collides, PieceAt;
  }
}
