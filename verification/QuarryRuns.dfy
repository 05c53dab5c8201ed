/** Whole runs of Quarry: a replay always ends and its guard never binds, each event of
    a log in order is applied once at its own tick, and a live session replays to
    itself. */
module QuarryRuns {
  import opened Arcade
  import opened QuarryRules
  import opened QuarryBalls
  import opened QuarryLedger

  const GUARD: nat := 7201 // MAX_TICKS + 1

  /** The tick a log names, as each twin reads it: the core clamps a negative one. */
  function TickOf(twin: Twin, e: Event): int
  {
    if twin.Core? then TargetTick(e.tick) else e.tick
  }

  datatype Drained = Drained(game: Game, rest: seq<Event>)

  /** Apply the events at the front of the log that are due now. */
  function Drain(twin: Twin, g: Game, events: seq<Event>): Drained
    decreases |events|
  {
    if events != [] && TickOf(twin, events[0]) == g.tick
    then Drain(twin, Apply(g, events[0].action, events[0].value), events[1..])
    else Drained(g, events)
  }

  /** The replay loop: drain, step, until the run is over or the guard is spent. */
  function Loop(twin: Twin, draws: Draws, g: Game, events: seq<Event>, guard: nat): Game
    decreases guard
  {
    if g.over || guard == 0 then g
    else
      var d := Drain(twin, g, events);
      Loop(twin, draws, Step(twin, draws, d.game), d.rest, guard - 1)
  }

  function Replay(twin: Twin, draws: Draws, events: seq<Event>): Game
  {
    Loop(twin, draws, NewGame(draws), events, GUARD)
  }

  // ----- ending -----

  predicate Sound(draws: Draws, g: Game)
  {
    Fair(g) && Ledger(draws, g)
  }

  lemma ApplySound(draws: Draws, g: Game, action: int, value: int)
    requires Sound(draws, g)
    ensures Sound(draws, Apply(g, action, value)) && Apply(g, action, value).tick == g.tick
    ensures Apply(g, action, value).over == g.over
  {
    ApplyFair(g, action, value);
    ApplyIsBooked(draws, g, action, value);
    hide Fair, Ledger;
  }

  lemma StepSound(twin: Twin, draws: Draws, g: Game)
    requires Sound(draws, g)
    ensures Sound(draws, Step(twin, draws, g))
    ensures Step(twin, draws, g).tick == if g.over then g.tick else g.tick + 1
  {
    hide Fair, Ledger, Step;
    StepFair(twin, draws, g);
    StepIsBooked(twin, draws, g);
  }

  lemma {:induction false} DrainSound(twin: Twin, draws: Draws, g: Game, events: seq<Event>)
    requires Sound(draws, g)
    ensures Sound(draws, Drain(twin, g, events).game)
    ensures Drain(twin, g, events).game.tick == g.tick && Drain(twin, g, events).game.over == g.over
    decreases |events|
  {
    hide Sound, Apply;
    if events != [] && TickOf(twin, events[0]) == g.tick {
      ApplySound(draws, g, events[0].action, events[0].value);
      DrainSound(twin, draws, Apply(g, events[0].action, events[0].value), events[1..]);
    }
  }

  lemma OverByTheClock(draws: Draws, g: Game)
    requires Sound(draws, g)
    ensures g.tick <= MAX_TICKS && (!g.over ==> g.tick < MAX_TICKS)
  {
    hide Rig, BallsInField, Ledger;
  }

  /** A guard that covers the ticks left ends every run, and a larger one changes
      nothing. */
  lemma {:induction false} LoopEnds(twin: Twin, draws: Draws, g: Game, events: seq<Event>, guard: nat, more: nat)
    requires Sound(draws, g) && MAX_TICKS - g.tick <= guard <= more
    ensures var h := Loop(twin, draws, g, events, guard);
      Sound(draws, h) && h.over && h == Loop(twin, draws, g, events, more)
    decreases guard
  {
    hide *;
    OverByTheClock(draws, g);
    LoopUnfolds(twin, draws, g, events, guard);
    LoopUnfolds(twin, draws, g, events, more);
    if !g.over {
      var d := Drain(twin, g, events);
      DrainSound(twin, draws, g, events);
      StepSound(twin, draws, d.game);
      LoopEnds(twin, draws, Step(twin, draws, d.game), d.rest, guard - 1, more - 1);
    }
  }

  lemma LoopUnfolds(twin: Twin, draws: Draws, g: Game, events: seq<Event>, guard: nat)
    ensures var d := Drain(twin, g, events);
      Loop(twin, draws, g, events, guard)
      == if g.over || guard == 0 then g else Loop(twin, draws, Step(twin, draws, d.game), d.rest, guard - 1)
  {
    hide Step, Drain;
  }

  lemma NewGameSound(draws: Draws)
    ensures Sound(draws, NewGame(draws)) && NewGame(draws).tick == 0 && !NewGame(draws).over
  {
    NewGameFair(draws);
    NewGameIsBooked(draws);
    hide Fair, Ledger, WallAt;
  }

  /** Every replay, of any log, ends by the clock with its books in order, its score
      inside a u32, and its guard never the reason. */
  lemma ReplayEnds(twin: Twin, draws: Draws, events: seq<Event>, more: nat)
    ensures var h := Replay(twin, draws, events);
      Sound(draws, h) && h.over && h.tick <= MAX_TICKS && h.score < U32_LIMIT
      && (more >= GUARD ==> h == Loop(twin, draws, NewGame(draws), events, more))
  {
    hide Sound, Fair, Ledger, Loop, NewGame, Step, Replay;
    NewGameSound(draws);
    LoopEnds(twin, draws, NewGame(draws), events, GUARD, if more >= GUARD then more else GUARD);
    ReplayIsLoop(twin, draws, events);
    OverByTheClock(draws, Replay(twin, draws, events));
    SoundScoreFits(draws, Replay(twin, draws, events));
  }

  lemma ReplayIsLoop(twin: Twin, draws: Draws, events: seq<Event>)
    ensures Replay(twin, draws, events) == Loop(twin, draws, NewGame(draws), events, GUARD)
  {
  }

  lemma SoundScoreFits(draws: Draws, g: Game)
    requires Sound(draws, g)
    ensures g.score < U32_LIMIT
  {
    OverByTheClock(draws, g);
    ScoreFits(draws, g);
    hide Fair, Ledger;
  }

  // ----- each event once, in order, at its own tick -----

  /** The events of a log that name a tick. */
  function At(events: seq<Event>, tick: int): seq<Event>
  {
    if events == [] then []
    else (if events[0].tick == tick then [events[0]] else []) + At(events[1..], tick)
  }

  function ApplyAll(g: Game, events: seq<Event>): Game
    decreases |events|
  {
    if events == [] then g else ApplyAll(Apply(g, events[0].action, events[0].value), events[1..])
  }

  /** The plain meaning of a log: at each tick apply the events that name it, and step. */
  function ByTick(twin: Twin, draws: Draws, g: Game, events: seq<Event>, ticks: nat): Game
    decreases ticks
  {
    if g.over || ticks == 0 then g
    else ByTick(twin, draws, Step(twin, draws, ApplyAll(g, At(events, g.tick))), events, ticks - 1)
  }

  predicate InOrder(events: seq<Event>)
  {
    forall i, j :: 0 <= i <= j < |events| ==> events[i].tick <= events[j].tick
  }

  lemma {:induction false} NothingAt(events: seq<Event>, tick: int)
    requires forall e :: e in events ==> e.tick != tick
    ensures At(events, tick) == []
  {
    if events != [] {
      assert events[0] in events;
      NothingAt(events[1..], tick);
    }
  }

  /** Draining an ordered log applies exactly the events of this tick and leaves those
      of later ticks as they were. */
  lemma {:induction false} DrainIsAt(twin: Twin, draws: Draws, g: Game, events: seq<Event>)
    requires Sound(draws, g) && InOrder(events)
    requires forall e :: e in events ==> g.tick <= e.tick
    ensures var d := Drain(twin, g, events);
      d.game == ApplyAll(g, At(events, g.tick)) && InOrder(d.rest)
      && (forall e :: e in d.rest ==> g.tick < e.tick)
      && (forall t :: t > g.tick ==> At(d.rest, t) == At(events, t))
    decreases |events|
  {
    hide Sound, Apply;
    if events != [] {
      var e := events[0];
      assert e in events;
      if e.tick == g.tick {
        ApplySound(draws, g, e.action, e.value);
        assert InOrder(events[1..]);
        DrainIsAt(twin, draws, Apply(g, e.action, e.value), events[1..]);
        assert At(events, g.tick)[1..] == At(events[1..], g.tick);
        assert forall t :: t > g.tick ==> At(events, t) == At(events[1..], t);
      } else {
        forall f | f in events ensures g.tick < f.tick {
          var i :| 0 <= i < |events| && events[i] == f;
          assert events[0].tick <= events[i].tick;
        }
        NothingAt(events, g.tick);
      }
    }
  }

  /** Two logs that agree from a tick on mean the same from there. */
  lemma {:induction false} ByTickLooksAhead(twin: Twin, draws: Draws, g: Game, a: seq<Event>, b: seq<Event>, ticks: nat)
    requires Sound(draws, g)
    requires forall t :: t >= g.tick ==> At(a, t) == At(b, t)
    ensures ByTick(twin, draws, g, a, ticks) == ByTick(twin, draws, g, b, ticks)
    decreases ticks
  {
    hide Sound, Step, ApplyAll, At;
    if !g.over && ticks > 0 {
      var now := ApplyAll(g, At(a, g.tick));
      ApplyAllSound(draws, g, At(a, g.tick));
      StepSound(twin, draws, now);
      ByTickLooksAhead(twin, draws, Step(twin, draws, now), a, b, ticks - 1);
    }
  }

  lemma {:induction false} ApplyAllSound(draws: Draws, g: Game, events: seq<Event>)
    requires Sound(draws, g)
    ensures Sound(draws, ApplyAll(g, events)) && ApplyAll(g, events).tick == g.tick
    ensures ApplyAll(g, events).over == g.over && (g.over ==> ApplyAll(g, events) == g)
    decreases |events|
  {
    hide Sound;
    if events != [] {
      ApplySound(draws, g, events[0].action, events[0].value);
      ApplyAllSound(draws, Apply(g, events[0].action, events[0].value), events[1..]);
    }
  }

  lemma {:induction false} LoopIsByTick(twin: Twin, draws: Draws, g: Game, events: seq<Event>, guard: nat)
    requires Sound(draws, g) && InOrder(events)
    requires forall e :: e in events ==> g.tick <= e.tick
    ensures Loop(twin, draws, g, events, guard) == ByTick(twin, draws, g, events, guard)
    decreases guard
  {
    hide Sound, Step, Drain, ApplyAll, At;
    LoopUnfolds(twin, draws, g, events, guard);
    if !g.over && guard > 0 {
      var d := Drain(twin, g, events);
      DrainIsAt(twin, draws, g, events);
      DrainSound(twin, draws, g, events);
      StepSound(twin, draws, d.game);
      var next := Step(twin, draws, d.game);
      LoopIsByTick(twin, draws, next, d.rest, guard - 1);
      ByTickLooksAhead(twin, draws, next, d.rest, events, guard - 1);
    }
    hide Loop;
  }

  /** On a log in order with no negative tick, a replay applies every event that comes
      before the end exactly once, in the log's order, at the tick it names. */
  lemma OrderedReplayIsByTick(twin: Twin, draws: Draws, events: seq<Event>)
    requires InOrder(events) && forall e :: e in events ==> 0 <= e.tick
    ensures Replay(twin, draws, events) == ByTick(twin, draws, NewGame(draws), events, GUARD)
  {
    hide Loop, ByTick, InOrder, Sound;
    NewGameSound(draws);
    hide NewGame;
    LoopIsByTick(twin, draws, NewGame(draws), events, GUARD);
  }

  // ----- recording -----

  /** What can happen to a live run: an aim or a launch, or the clock. */
  datatype Input = Emit(action: int, value: int) | Tick

  datatype Session = Session(game: Game, log: seq<Event>)

  function Live(twin: Twin, draws: Draws, s: Session, input: Input): Session
  {
    match input
    case Tick => s.(game := Step(twin, draws, s.game))
    case Emit(action, value) =>
      Session(Apply(s.game, action, value), s.log + [Event(action, s.game.tick, value)])
  }

  function Sit(twin: Twin, draws: Draws, inputs: seq<Input>): Session
  {
    if inputs == [] then Session(NewGame(draws), [])
    else Live(twin, draws, Sit(twin, draws, inputs[..|inputs| - 1]), inputs[|inputs| - 1])
  }

  /** The game after a number of ticks of a log, before the events of the next. */
  function Frame(twin: Twin, draws: Draws, events: seq<Event>, ticks: nat): Game
  {
    ByTick(twin, draws, NewGame(draws), events, ticks)
  }

  lemma {:induction false} AtAppend(events: seq<Event>, e: Event, tick: int)
    ensures At(events + [e], tick) == At(events, tick) + (if e.tick == tick then [e] else [])
  {
    hide At;
    AtUnfolds(events, tick);
    AtUnfolds(events + [e], tick);
    if events == [] {
      AtUnfolds([], tick);
      assert (events + [e])[1..] == [];
    } else {
      assert (events + [e])[0] == events[0] && (events + [e])[1..] == events[1..] + [e];
      AtAppend(events[1..], e, tick);
    }
  }

  lemma AtUnfolds(events: seq<Event>, tick: int)
    ensures At(events, tick)
         == if events == [] then [] else (if events[0].tick == tick then [events[0]] else []) + At(events[1..], tick)
  {
  }

  lemma {:induction false} ApplyAllAppend(g: Game, events: seq<Event>, e: Event)
    ensures ApplyAll(g, events + [e]) == Apply(ApplyAll(g, events), e.action, e.value)
    decreases |events|
  {
    hide Apply;
    if events == [] {
      assert [e][1..] == [];
    } else {
      assert (events + [e])[0] == events[0] && (events + [e])[1..] == events[1..] + [e];
      ApplyAllAppend(Apply(g, events[0].action, events[0].value), events[1..], e);
    }
  }

  /** One more tick at the end is one more step. */
  lemma {:induction false} ByTickOneMore(twin: Twin, draws: Draws, g: Game, events: seq<Event>, ticks: nat)
    requires Sound(draws, g)
    ensures var h := ByTick(twin, draws, g, events, ticks);
      Sound(draws, h) && h.tick <= g.tick + ticks && (!h.over ==> h.tick == g.tick + ticks)
      && ByTick(twin, draws, g, events, ticks + 1) == Step(twin, draws, ApplyAll(h, At(events, h.tick)))
    decreases ticks
  {
    hide Sound, Step, At;
    ApplyAllSound(draws, g, At(events, g.tick));
    StepSound(twin, draws, ApplyAll(g, At(events, g.tick)));
    OverSteps(twin, draws, g);
    hide ApplyAll;
    if !g.over && ticks > 0 {
      ByTickOneMore(twin, draws, Step(twin, draws, ApplyAll(g, At(events, g.tick))), events, ticks - 1);
    }
  }

  lemma OverSteps(twin: Twin, draws: Draws, g: Game)
    ensures g.over ==> Step(twin, draws, g) == g
  {
  }

  /** A log in order, none of it negative and none ahead of a tick. */
  predicate UpTo(log: seq<Event>, tick: nat)
  {
    InOrder(log) && forall e :: e in log ==> 0 <= e.tick <= tick
  }

  /** What the recorder keeps true: the game is the log's frame at its own tick with that
      tick's events applied. */
  predicate Recorded(twin: Twin, draws: Draws, s: Session)
  {
    var f := Frame(twin, draws, s.log, s.game.tick);
    && UpTo(s.log, s.game.tick)
    && Sound(draws, f) && f.tick == s.game.tick
    && s.game == ApplyAll(f, At(s.log, s.game.tick))
  }

  /** Events not yet due do not show in a frame. */
  lemma {:induction false} ByTickLooksBack(twin: Twin, draws: Draws, g: Game, a: seq<Event>, b: seq<Event>, ticks: nat)
    requires Sound(draws, g)
    requires forall t :: t < g.tick + ticks ==> At(a, t) == At(b, t)
    ensures ByTick(twin, draws, g, a, ticks) == ByTick(twin, draws, g, b, ticks)
    decreases ticks
  {
    hide Sound, Step, ApplyAll, At;
    if !g.over && ticks > 0 {
      var now := ApplyAll(g, At(a, g.tick));
      ApplyAllSound(draws, g, At(a, g.tick));
      StepSound(twin, draws, now);
      ByTickLooksBack(twin, draws, Step(twin, draws, now), a, b, ticks - 1);
    }
  }

  /** An event logged now does not change the frame it is logged in. */
  lemma FrameOfAppend(twin: Twin, draws: Draws, log: seq<Event>, e: Event)
    requires e.tick >= 0
    ensures Frame(twin, draws, log + [e], e.tick) == Frame(twin, draws, log, e.tick)
  {
    forall t | t < e.tick ensures At(log, t) == At(log + [e], t) {
      AtAppend(log, e, t);
    }
    hide At, Sound, NewGame, ByTick;
    NewGameSound(draws);
    ByTickLooksBack(twin, draws, NewGame(draws), log, log + [e], e.tick);
  }

  lemma UpToAppend(log: seq<Event>, e: Event)
    requires e.tick >= 0 && UpTo(log, e.tick)
    ensures UpTo(log + [e], e.tick)
  {
    forall i | 0 <= i < |log| ensures log[i].tick <= e.tick {
      assert log[i] in log;
    }
  }

  lemma EmitKeepsRecorded(twin: Twin, draws: Draws, s: Session, action: int, value: int)
    requires Recorded(twin, draws, s)
    ensures Recorded(twin, draws, Live(twin, draws, s, Emit(action, value)))
  {
    hide Sound, Frame, ApplyAll, At, Apply, UpTo;
    var tick := s.game.tick;
    var e := Event(action, tick, value);
    var f := Frame(twin, draws, s.log, tick);
    FrameOfAppend(twin, draws, s.log, e);
    UpToAppend(s.log, e);
    AtAppend(s.log, e, tick);
    ApplyAllAppend(f, At(s.log, tick), e);
    ApplyAllSound(draws, f, At(s.log, tick));
    ApplySound(draws, s.game, action, value);
  }

  /** The next frame is a step from this one's events. */
  lemma NextFrame(twin: Twin, draws: Draws, log: seq<Event>, tick: nat)
    ensures var f := Frame(twin, draws, log, tick);
      Sound(draws, f) && Frame(twin, draws, log, tick + 1) == Step(twin, draws, ApplyAll(f, At(log, f.tick)))
  {
    hide Sound, NewGame, ByTick, ApplyAll, Step, At;
    NewGameSound(draws);
    ByTickOneMore(twin, draws, NewGame(draws), log, tick);
  }

  lemma UpToLater(log: seq<Event>, tick: nat)
    requires UpTo(log, tick)
    ensures UpTo(log, tick + 1) && forall t :: t > tick ==> At(log, t) == []
  {
    forall t | t > tick ensures At(log, t) == [] {
      LaterThanAll(log, t);
    }
  }

  lemma TickKeepsRecorded(twin: Twin, draws: Draws, s: Session)
    requires Recorded(twin, draws, s)
    ensures Recorded(twin, draws, Live(twin, draws, s, Tick))
  {
    hide Sound, Frame, ApplyAll, Step, At, UpTo;
    var tick := s.game.tick;
    NextFrame(twin, draws, s.log, tick);
    ApplyAllSound(draws, Frame(twin, draws, s.log, tick), At(s.log, tick));
    OverSteps(twin, draws, s.game);
    StepSound(twin, draws, s.game);
    UpToLater(s.log, tick);
    NoMore(Step(twin, draws, s.game));
  }

  lemma NoMore(g: Game)
    ensures ApplyAll(g, []) == g
  {
  }

  lemma LaterThanAll(events: seq<Event>, tick: int)
    requires forall e :: e in events ==> e.tick < tick
    ensures At(events, tick) == []
  {
    NothingAt(events, tick);
  }

  lemma {:induction false} SitIsRecorded(twin: Twin, draws: Draws, inputs: seq<Input>)
    ensures Recorded(twin, draws, Sit(twin, draws, inputs))
  {
    if inputs == [] {
      NewGameSound(draws);
      hide Sound, NewGame;
    } else {
      hide Recorded, Live;
      var before := inputs[..|inputs| - 1];
      SitIsRecorded(twin, draws, before);
      match inputs[|inputs| - 1]
      case Tick => TickKeepsRecorded(twin, draws, Sit(twin, draws, before));
      case Emit(action, value) => EmitKeepsRecorded(twin, draws, Sit(twin, draws, before), action, value);
    }
  }

  /** Record and replay: whatever was aimed and launched and whenever, the log replays to
      the very game the session reaches when it is left to run out; so a session played
      to its end is reproduced exactly. */
  lemma RecordThenReplay(twin: Twin, draws: Draws, inputs: seq<Input>)
    ensures var s := Sit(twin, draws, inputs);
      Replay(twin, draws, s.log) == Loop(twin, draws, s.game, [], GUARD)
      && (s.game.over ==> Replay(twin, draws, s.log) == s.game)
  {
    var s := Sit(twin, draws, inputs);
    SitIsRecorded(twin, draws, inputs);
    hide Sit;
    SessionReplays(twin, draws, s);
    LoopUnfolds(twin, draws, s.game, [], GUARD);
    hide Recorded, Replay, Loop;
  }

  lemma SessionReplays(twin: Twin, draws: Draws, s: Session)
    requires Recorded(twin, draws, s)
    ensures Replay(twin, draws, s.log) == Loop(twin, draws, s.game, [], GUARD)
  {
    var start, tick := NewGame(draws), s.game.tick;
    NewGameSound(draws);
    var f := Frame(twin, draws, s.log, tick);
    ApplyAllSound(draws, f, At(s.log, tick));
    OverByTheClock(draws, s.game);
    hide Sound, NewGame, Loop, ByTick, ApplyAll, At;
    assert UpTo(s.log, tick);
    OrderedReplayIsByTick(twin, draws, s.log);
    ByTickSplits(twin, draws, start, s.log, tick, GUARD - tick);
    LastFrame(twin, draws, s, GUARD - tick);
    hide Recorded;
    LoopEnds(twin, draws, s.game, [], GUARD - tick, GUARD);
  }

  lemma {:induction false} ByTickSplits(twin: Twin, draws: Draws, g: Game, events: seq<Event>, first: nat, then_: nat)
    ensures ByTick(twin, draws, g, events, first + then_)
         == ByTick(twin, draws, ByTick(twin, draws, g, events, first), events, then_)
    decreases first
  {
    hide Step, ApplyAll, At;
    if !g.over && first > 0 {
      ByTickSplits(twin, draws, Step(twin, draws, ApplyAll(g, At(events, g.tick))), events, first - 1, then_);
    }
  }

  /** From the session's own frame on there is nothing left in the log. */
  lemma LastFrame(twin: Twin, draws: Draws, s: Session, ticks: nat)
    requires Recorded(twin, draws, s) && ticks > 0
    ensures ByTick(twin, draws, Frame(twin, draws, s.log, s.game.tick), s.log, ticks)
         == Loop(twin, draws, s.game, [], ticks)
  {
    hide Sound, Frame, ApplyAll, Step, Loop, UpTo;
    var tick := s.game.tick;
    var f := Frame(twin, draws, s.log, tick);
    ApplyAllSound(draws, f, At(s.log, tick));
    NoMore(s.game);
    LoopIsByTick(twin, draws, s.game, [], ticks);
    hide At;
    if !f.over {
      StepSound(twin, draws, s.game);
      UpToLater(s.log, tick);
      EmptyLog();
      ByTickLooksAhead(twin, draws, Step(twin, draws, s.game), s.log, [], ticks - 1);
    }
  }

  lemma EmptyLog()
    ensures forall t :: At([], t) == []
  {
  }
}
