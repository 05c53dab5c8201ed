/** The page's own replay of Courses, which refuses a malformed log as it walks it, and
    when it and the verifier's core give the same game. */
module CoursesPage {
  import opened Arcade
  import opened Basics
  import opened CoursesBag
  import opened CoursesBoard
  import opened CoursesInvariants
  import opened CoursesRules
  import opened CoursesRuns
  import opened EventLog
  import CoursesPageState
  import CoursesWell

  datatype Result<+T> = Ok(value: T) | Err(problem: Problem)

  /** What the page finds wrong with an event when it comes to it, if anything: previous
      is the tick before it, sameTick how many events that tick has had. */
  function Complaint(raw: Raw, previous: int, sameTick: nat): Option<Problem>
  {
    if !IsEvent(COURSES, raw) then Some(NotAnEvent)
    else if !HasIntegers(COURSES, raw) then Some(NotIntegers)
    else if TickOf(raw) < previous then Some(GoesBackwards)
    else if !IsKnown(COURSES, raw) then Some(UnknownAction)
    else if TickOf(raw) == previous && sameTick + 1 > COURSES.perTick then Some(TooManyInOneTick)
    else None
  }

  function SameTick(raw: Raw, previous: int, sameTick: nat): nat
  {
    if TickOf(raw) == previous then sameTick + 1 else 1
  }

  /** Walk the log, checking each event before stepping to it; stop when the run is over. */
  function PagePlay(draws: Draws, g: Game, log: seq<Raw>, previous: nat, sameTick: nat): Result<Game>
    decreases |log|
  {
    if log == [] then Ok(g)
    else
      var raw := log[0];
      var complaint := Complaint(raw, previous, sameTick);
      if complaint.Some? then Err(complaint.value)
      else
        var t := StepTo(draws, g, TickOf(raw));
        if t.over then Ok(t)
        else PagePlay(draws, Apply(draws, t, ActionOf(raw)), log[1..], TickOf(raw), SameTick(raw, previous, sameTick))
  }

  function PageReplay(draws: Draws, log: seq<Raw>): Result<Game>
  {
    if |log| > COURSES.most then Err(TooMany)
    else
      match PagePlay(draws, Start(draws), log, 0, 0)
      case Err(problem) => Err(problem)
      case Ok(g) => Ok(RunOut(draws, g, GUARD))
  }

  method Replay(draws: Draws, log: seq<Raw>) returns (result: Result<Outcome>)
    ensures match PageReplay(draws, log)
      case Err(problem) => result == Err(problem)
      case Ok(g) => result == Ok(Outcome(g.score, g.lines, g.tick))
  {
    hide Step, Apply, Spawn, Complaint, NoRowFull, CoursesWell.RowsOf;
    if |log| > COURSES.most {
      return Err(TooMany);
    }
    var state := new CoursesPageState.State(draws);
    state.Spawn();
    ghost var played := PagePlay(draws, state.Model(), log, 0, 0);
    var previous: nat, sameTick: nat := 0, 0;
    var i := 0;
    while i < |log|
      invariant 0 <= i <= |log|
      invariant state.Valid() && state.draws == draws && fresh(state) && fresh(state.board)
      invariant PagePlay(draws, state.Model(), log[i..], previous, sameTick) == played
      decreases |log| - i
    {
      var raw := log[i];
      assert log[i..][0] == raw && log[i..][1..] == log[i + 1..];
      var complaint := Complaint(raw, previous, sameTick);
      if complaint.Some? {
        return Err(complaint.value);
      }
      ComplaintMeans(raw, previous, sameTick);
      var target := TickOf(raw);
      sameTick := SameTick(raw, previous, sameTick);
      ghost var reached := StepTo(draws, state.Model(), target);
      while state.tick < target && !state.over
        invariant state.Valid() && state.draws == draws && fresh(state) && fresh(state.board)
        invariant StepTo(draws, state.Model(), target) == reached
        decreases if state.over then 0 else 1, target - state.tick
      {
        StepTicksOrEnds(draws, state.Model());
        StepToUnfolds(draws, state.Model(), target);
        state.StepTick();
      }
      if state.over {
        break;
      }
      state.ApplyAction(ActionOf(raw));
      previous := target;
      i := i + 1;
    }
    assert played == Ok(state.Model());
    ghost var end := RunOut(draws, state.Model(), GUARD);
    var guard := 0;
    while !state.over && guard < GUARD
      invariant 0 <= guard <= GUARD
      invariant state.Valid() && state.draws == draws && fresh(state) && fresh(state.board)
      invariant RunOut(draws, state.Model(), GUARD - guard) == end
    {
      RunOutUnfolds(draws, state.Model(), GUARD - guard);
      state.StepTick();
      guard := guard + 1;
    }
    return Ok(Outcome(state.score, state.lines, state.tick));
  }

  lemma ComplaintMeans(raw: Raw, previous: nat, sameTick: nat)
    requires Complaint(raw, previous, sameTick).None?
    ensures IsFine(COURSES, raw) && TickOf(raw) >= previous
  {
  }

  // ----- the same game as the core -----

  /** Ticks that the copy to the core leaves as they are. */
  predicate TicksFit(log: seq<Raw>)
  {
    forall i :: 0 <= i < |log| ==> TickOf(log[i]) < 0x8000_0000
  }

  lemma WireTail(log: seq<Raw>)
    requires log != []
    ensures Wire(log)[0] == WireEvent(log[0]) && Wire(log)[1..] == Wire(log[1..])
  {
    hide ToInt32;
  }

  lemma {:induction false} PagePlayIsPlay(draws: Draws, g: Game, log: seq<Raw>, previous: nat, sameTick: nat)
    requires TicksFit(log) && PagePlay(draws, g, log, previous, sameTick).Ok?
    ensures Play(draws, g, Wire(log)) == PagePlay(draws, g, log, previous, sameTick).value
    decreases |log|
  {
    hide StepTo, Apply, Complaint, Wire, ToInt32, WireEvent;
    if log != [] {
      var raw := log[0];
      WireTail(log);
      ComplaintMeans(raw, previous, sameTick);
      WiredEvent(raw);
      var t := StepTo(draws, g, TickOf(raw));
      if !t.over {
        PagePlayIsPlay(draws, Apply(draws, t, ActionOf(raw)), log[1..], TickOf(raw), SameTick(raw, previous, sameTick));
      }
    }
  }

  lemma WiredEvent(raw: Raw)
    requires IsKnown(COURSES, raw) && 0 <= TickOf(raw) < 0x8000_0000
    ensures WireEvent(raw).action == ActionOf(raw) && TargetTick(WireEvent(raw).tick) == TickOf(raw)
  {
  }

  /** Whatever log the page scores, the core scores with the very same game, as long as
      every tick fits 31 bits; for a log the page walked to its end or to the run's. */
  lemma PageScoresAsTheCore(draws: Draws, log: seq<Raw>)
    requires TicksFit(log) && PageReplay(draws, log).Ok?
    ensures PageReplay(draws, log).value == CoursesRuns.Replay(draws, Wire(log))
  {
    hide Start, RunOut, Play, PagePlay, Wire;
    PagePlayIsPlay(draws, Start(draws), log, 0, 0);
  }

  // ----- what the page refuses -----

  /** How many events of the log so far name the tick of the last. */
  lemma {:induction false} AcceptedIsPlayed(draws: Draws, g: Game, log: seq<Raw>, i: nat, previous: nat, sameTick: nat)
    requires Accepted(COURSES, log) && i <= |log| && (i < |log| ==> TickOf(log[0]) >= 0)
    requires i > 0 ==> previous == TickOf(log[i - 1])
    requires i == 0 ==> previous == 0
    requires sameTick == Count(log[..i], previous)
    ensures PagePlay(draws, g, log[i..], previous, sameTick).Ok?
    decreases |log| - i
  {
    hide StepTo, Apply, Accepted, Complaint;
    if i < |log| {
      var raw := log[i];
      assert log[i..][0] == raw && log[i..][1..] == log[i + 1..];
      NextIsFine(log, i, previous, sameTick);
      var t := StepTo(draws, g, TickOf(raw));
      if !t.over {
        var next := Apply(draws, t, ActionOf(raw));
        AcceptedIsPlayed(draws, next, log, i + 1, TickOf(raw), SameTick(raw, previous, sameTick));
      }
    }
  }

  lemma NextIsFine(log: seq<Raw>, i: nat, previous: nat, sameTick: nat)
    requires Accepted(COURSES, log) && i < |log| && TickOf(log[0]) >= 0
    requires i > 0 ==> previous == TickOf(log[i - 1])
    requires i == 0 ==> previous == 0
    requires sameTick == Count(log[..i], previous)
    ensures Complaint(log[i], previous, sameTick).None? && TickOf(log[i]) >= 0
    ensures SameTick(log[i], previous, sameTick) == Count(log[..i + 1], TickOf(log[i]))
  {
    var tick := TickOf(log[i]);
    assert IsFine(COURSES, log[i]);
    assert TickOf(log[0]) <= tick;
    assert i > 0 ==> TickOf(log[i - 1]) <= tick;
    assert log[..i + 1][..i] == log[..i];
    NoneLater(log[..i], previous, tick);
    CountGrows(log, i + 1, tick);
    assert Count(log, tick) <= COURSES.perTick;
    hide Accepted, IsFine;
  }

  /** Of the logs the validator lets through, the page refuses exactly those that start
      at tick -1. */
  lemma PageRefusesOnlyMinusOne(draws: Draws, log: seq<Raw>)
    requires Accepted(COURSES, log)
    ensures PageReplay(draws, log).Err? <==> log != [] && TickOf(log[0]) == -1
  {
    assert log != [] ==> IsFine(COURSES, log[0]) && TickOf(log[0]) >= -1;
    hide Start, RunOut, StepTo, Apply, Accepted;
    if log == [] || TickOf(log[0]) >= 0 {
      assert log[0..] == log && log[..0] == [];
      AcceptedIsPlayed(draws, Start(draws), log, 0, 0, 0);
    }
  }

  /** So for every log that is let through, starts at no negative tick and names none past
      31 bits, page and core end in the same game. */
  lemma PageAgreesWithTheCore(draws: Draws, log: seq<Raw>)
    requires Accepted(COURSES, log) && TicksFit(log) && (log != [] ==> TickOf(log[0]) >= 0)
    ensures PageReplay(draws, log) == Ok(CoursesRuns.Replay(draws, Wire(log)))
  {
    hide *;
    PageRefusesOnlyMinusOne(draws, log);
    PageScoresAsTheCore(draws, log);
  }

  // ----- ticks past 31 bits -----

  /** The events before the first that names a tick past 31 bits. */
  function Early(log: seq<Raw>): seq<Raw>
  {
    if log == [] || TickOf(log[0]) >= 0x8000_0000 then [] else [log[0]] + Early(log[1..])
  }

  lemma {:induction false} PagePlaysEarly(draws: Draws, g: Game, log: seq<Raw>, previous: nat, sameTick: nat)
    requires Sound(g) && PagePlay(draws, g, log, previous, sameTick).Ok?
    requires g.tick + Fuel(g) + SPAN * |log| < 0x8000_0000
    ensures RunOut(draws, Play(draws, g, Wire(Early(log))), GUARD)
         == RunOut(draws, PagePlay(draws, g, log, previous, sameTick).value, GUARD)
    decreases |log|
  {
    hide Sound, Fuel, StepTo, Apply, Complaint, Wire, ToInt32, WireEvent, RunOut;
    if log != [] {
      var raw := log[0];
      ComplaintMeans(raw, previous, sameTick);
      StepToSpends(draws, g, TickOf(raw));
      StepToArrives(draws, g, TickOf(raw));
      var t := StepTo(draws, g, TickOf(raw));
      FuelInRange(g);
      FuelInRange(t);
      if TickOf(raw) >= 0x8000_0000 {
        assert t.over;
        RunOutFromLater(draws, g, TickOf(raw), GUARD);
      } else {
        var early := Early(log);
        assert early[0] == raw && early[1..] == Early(log[1..]);
        WireTail(early);
        WiredEvent(raw);
        if !t.over {
          var next := Apply(draws, t, ActionOf(raw));
          ApplySound(draws, t, ActionOf(raw));
          ApplyAdds(draws, t, ActionOf(raw));
          ApplyKeepsClock(draws, t, ActionOf(raw));
          PagePlaysEarly(draws, next, log[1..], TickOf(raw), SameTick(raw, previous, sameTick));
        }
      }
    }
  }

  /** Whatever log the page scores, its game is the core's of the events before any tick
      past 31 bits: the run is over long before the rest. */
  lemma PageScoresTheEarly(draws: Draws, log: seq<Raw>)
    requires PageReplay(draws, log).Ok?
    ensures PageReplay(draws, log).value == CoursesRuns.Replay(draws, Wire(Early(log)))
  {
    hide Start, RunOut, Play, PagePlay, Wire, Early, Fuel, Sound;
    var start := Start(draws);
    StartSound(draws);
    StartIsDealt(draws);
    FuelInRange(start);
    PagePlaysEarly(draws, start, log, 0, 0);
  }

  /** So page and core agree on an admitted log that starts in the run, as long as the core
      is handed only what comes before such a tick. */
  lemma PageAgreesOnTheEarly(draws: Draws, log: seq<Raw>)
    requires Accepted(COURSES, log) && (log != [] ==> TickOf(log[0]) >= 0)
    ensures PageReplay(draws, log) == Ok(CoursesRuns.Replay(draws, Wire(Early(log))))
  {
    hide *;
    PageRefusesOnlyMinusOne(draws, log);
    PageScoresTheEarly(draws, log);
  }

  // ----- where they part -----

  lemma LockKeepsHold(draws: Draws, g: Game)
    ensures Lock(draws, g).hasHold == g.hasHold
  {
    hide Collides, Stamp, Cleared, FullRows, OffBoard, ClearPoints, PieceAt;
  }

  lemma FallKeepsHold(g: Game)
    ensures Fall(g).hasHold == g.hasHold
  {
    hide HitsAt, GravityInterval;
  }

  lemma RestKeepsHold(draws: Draws, g: Game)
    ensures Rest(draws, g).hasHold == g.hasHold
  {
    hide HitsAt, Lock;
    LockKeepsHold(draws, g.(lockCounter := g.lockCounter + 1));
  }

  lemma StepKeepsHold(draws: Draws, g: Game)
    ensures Step(draws, g).hasHold == g.hasHold
  {
    hide Collides, PieceAt, Fall, Rest;
    var s := if g.hasPiece then g else Spawn(draws, g);
    FallKeepsHold(s);
    RestKeepsHold(draws, Fall(s));
  }

  lemma {:induction false} StepToKeepsHold(draws: Draws, g: Game, target: nat)
    ensures StepTo(draws, g, target).hasHold == g.hasHold
    decreases if g.over then 0 else 1, target - g.tick
  {
    hide Step;
    if !g.over && g.tick < target {
      StepTicksOrEnds(draws, g);
      StepKeepsHold(draws, g);
      StepToKeepsHold(draws, Step(draws, g), target);
    }
  }

  lemma {:induction false} RunOutKeepsHold(draws: Draws, g: Game, guard: nat)
    ensures RunOut(draws, g, guard).hasHold == g.hasHold
    decreases guard
  {
    hide Step;
    if !g.over && guard > 0 {
      StepKeepsHold(draws, g);
      RunOutKeepsHold(draws, Step(draws, g), guard - 1);
    }
  }

  /** No run lasts 2^31 ticks without an input. */
  lemma OverLongBefore(draws: Draws)
    ensures StepTo(draws, Start(draws), 0x8000_0000).over
  {
    var start := Start(draws);
    StartSound(draws);
    StartIsDealt(draws);
    FuelInRange(start);
    hide Fuel, Start;
    StepToSpends(draws, start, 0x8000_0000);
    var end := StepTo(draws, start, 0x8000_0000);
    FuelInRange(end);
    StepToArrives(draws, start, 0x8000_0000);
  }

  lemma {:induction false} StepToArrives(draws: Draws, g: Game, target: nat)
    ensures StepTo(draws, g, target).over || StepTo(draws, g, target).tick >= target
    decreases if g.over then 0 else 1, target - g.tick
  {
    hide Step;
    if !g.over && g.tick < target {
      StepTicksOrEnds(draws, g);
      StepToArrives(draws, Step(draws, g), target);
    }
  }

  lemma FirstHold(draws: Draws)
    ensures !Start(draws).hasHold && Start(draws).tick == 0 && !Start(draws).over
    ensures Apply(draws, Start(draws), ACTION_HOLD).hasHold
  {
    StartSound(draws);
    NewPieceFits(draws);
    hide Collides, PieceAt;
  }

  lemma NewPieceFits(draws: Draws)
    ensures !Start(draws).over
  {
    FitsEmptyBoard(PieceAt(draws, 0));
    hide Collides, PieceAt, EmptyRows;
  }

  lemma FitsEmptyBoard(piece: Kind)
    ensures !Collides(EmptyRows(TOTAL_HEIGHT), piece, 0, 3, 0)
  {
    ShapeFacts(piece, 0);
    hide Shape;
  }

  /** A tick of 2^31 is let through, and wraps in the copy to the core: the core holds a
      piece at once, where the page's run is long over before it comes to the event. */
  lemma LateTickWraps(draws: Draws)
    ensures var log := [Items([Int(ACTION_HOLD), Int(0x8000_0000)])];
      Accepted(COURSES, log) && PageReplay(draws, log).Ok?
      && !PageReplay(draws, log).value.hasHold && CoursesRuns.Replay(draws, Wire(log)).hasHold
  {
    var log := [Items([Int(ACTION_HOLD), Int(0x8000_0000)])];
    var start := Start(draws);
    OneEventIsAccepted(log);
    OverLongBefore(draws);
    FirstHold(draws);
    hide Start, Apply, RunOut, Accepted, IsFine, ToInt32;
    StepToKeepsHold(draws, start, 0x8000_0000);
    RunOutKeepsHold(draws, StepTo(draws, start, 0x8000_0000), GUARD);
    assert Complaint(log[0], 0, 0).None?;
    assert PagePlay(draws, start, log, 0, 0) == Ok(StepTo(draws, start, 0x8000_0000));
    WrappedHold(draws, log);
    RunOutKeepsHold(draws, Apply(draws, start, ACTION_HOLD), GUARD);
  }

  lemma OneEventIsAccepted(log: seq<Raw>)
    requires log == [Items([Int(ACTION_HOLD), Int(0x8000_0000)])]
    ensures Accepted(COURSES, log)
  {
    assert log[..0] == [];
    assert Count(log[..0], 0x8000_0000) == 0;
    assert Count(log, TickOf(log[0])) == 1;
  }

  lemma WrappedHold(draws: Draws, log: seq<Raw>)
    requires log == [Items([Int(ACTION_HOLD), Int(0x8000_0000)])]
    requires Start(draws).tick == 0 && !Start(draws).over
    ensures Play(draws, Start(draws), Wire(log)) == Apply(draws, Start(draws), ACTION_HOLD)
  {
    hide Start, Apply;
    assert WireEvent(log[0]) == Event(ACTION_HOLD, -0x8000_0000, 0);
    assert Wire(log) == [Event(ACTION_HOLD, -0x8000_0000, 0)];
    assert Wire(log)[1..] == [];
  }
}
