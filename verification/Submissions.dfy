/** From the player to the score: a session played at a player's pace to its end writes a
    log that the gate lets through, and the verifier scores it as the player saw it. */
module Submissions {
  import opened Arcade
  import opened Basics
  import opened EventLog
  import C = CoursesRuns
  import CoursesInvariants
  import CoursesRules
  import Q = QuarryRuns
  import QuarryBalls
  import QuarryRules

  // ----- the log as it is sent -----

  function Sent(l: Limits, e: Event): Raw
  {
    Items(if l.isPair then [Int(e.action), Int(e.tick)] else [Int(e.action), Int(e.tick), Int(e.value)])
  }

  function SentLog(l: Limits, log: seq<Event>): (sent: seq<Raw>)
    ensures |sent| == |log|
  {
    seq(|log|, i requires 0 <= i < |log| => Sent(l, log[i]))
  }

  lemma SentMore(l: Limits, log: seq<Event>, e: Event)
    ensures SentLog(l, log + [e]) == SentLog(l, log) + [Sent(l, e)]
  {
  }

  /** An event the copy to the core leaves alone. */
  predicate FitsWire(l: Limits, e: Event)
  {
    && -0x8000_0000 <= e.action < 0x8000_0000
    && -0x8000_0000 <= e.tick < 0x8000_0000
    && -0x8000_0000 <= e.value < 0x8000_0000
    && (l.isPair ==> e.value == 0)
  }

  lemma SentIsWired(l: Limits, log: seq<Event>)
    requires forall i :: 0 <= i < |log| ==> FitsWire(l, log[i])
    ensures Wire(SentLog(l, log)) == log
  {
    forall i | 0 <= i < |log| ensures Wire(SentLog(l, log))[i] == log[i] {
      assert FitsWire(l, log[i]);
    }
  }

  lemma CountSent(l: Limits, log: seq<Event>, e: Event, tick: int)
    ensures Count(SentLog(l, log + [e]), tick)
         == Count(SentLog(l, log), tick) + if e.tick == tick then 1 else 0
  {
    SentMore(l, log, e);
    var all := SentLog(l, log + [e]);
    assert all[..|all| - 1] == SentLog(l, log);
    hide SentLog;
  }

  /** No tick of the log has more than so many events. */
  ghost predicate AtMost(l: Limits, log: seq<Event>)
  {
    forall t :: Count(SentLog(l, log), t) <= l.perTick
  }

  /** What the gate asks, of the events themselves. */
  lemma SentIsAccepted(l: Limits, log: seq<Event>)
    requires |log| <= l.most && AtMost(l, log)
    requires forall i :: 0 <= i < |log| ==> 0 <= log[i].action <= l.lastAction && 0 <= log[i].tick
    requires l.lastTick.Some? ==> forall i :: 0 <= i < |log| ==> log[i].tick <= l.lastTick.value
    requires forall i, j :: 0 <= i <= j < |log| ==> log[i].tick <= log[j].tick
    ensures Accepted(l, SentLog(l, log))
  {
    var sent := SentLog(l, log);
    forall i | 0 <= i < |sent| ensures IsFine(l, sent[i]) && TickOf(sent[i]) == log[i].tick {
    }
    hide IsFine, SentLog, Count;
  }

  // ----- Courses -----

  /** The presses since the last tick. */
  function Burst(inputs: seq<C.Input>): nat
    decreases |inputs|
  {
    if inputs == [] || inputs[|inputs| - 1].Tick? then 0 else Burst(inputs[..|inputs| - 1]) + 1
  }

  /** Known keys only, and at most eight between two ticks. */
  predicate Playable(inputs: seq<C.Input>)
    decreases |inputs|
  {
    inputs == [] || (
      && Playable(inputs[..|inputs| - 1])
      && Burst(inputs) <= COURSES.perTick
      && (inputs[|inputs| - 1].Press? ==> 0 <= inputs[|inputs| - 1].action <= CoursesRules.ACTION_HOLD))
  }

  /** What such a session's log is like, while it is being written. */
  ghost predicate Proper(s: C.Session, burst: nat)
  {
    && (forall i :: 0 <= i < |s.log| ==> 0 <= s.log[i].action <= CoursesRules.ACTION_HOLD && s.log[i].value == 0)
    && AtMost(COURSES, s.log)
    && (s.game.over || Count(SentLog(COURSES, s.log), s.game.tick) <= burst)
  }

  lemma {:induction false} NoneYet(l: Limits, log: seq<Event>, tick: int)
    requires forall i :: 0 <= i < |log| ==> log[i].tick < tick
    ensures Count(SentLog(l, log), tick) == 0
    decreases |log|
  {
    if log == [] {
      assert SentLog(l, log) == [];
    } else {
      var before := log[..|log| - 1];
      NoneYet(l, before, tick);
      assert before + [log[|log| - 1]] == log;
      CountSent(l, before, log[|log| - 1], tick);
      hide SentLog, Count;
    }
  }

  lemma {:induction false} SitIsProper(draws: Draws, inputs: seq<C.Input>)
    requires Playable(inputs)
    ensures Proper(C.Sit(draws, inputs), Burst(inputs))
    decreases |inputs|
  {
    hide CoursesRules.Start, CoursesRules.Step, CoursesRules.Apply, SentLog, Count, AtMost, C.InOrder;
    if inputs == [] {
      NothingSent(COURSES);
    } else {
      var before, input := inputs[..|inputs| - 1], inputs[|inputs| - 1];
      var s := C.Sit(draws, before);
      SitIsProper(draws, before);
      C.LogIsInOrder(draws, before);
      match input
      case Tick =>
        TickIsProper(draws, s, before);
      case Press(action) =>
        if !s.game.over {
          PressIsProper(draws, s, action, Burst(before));
        }
    }
  }

  lemma NothingSent(l: Limits)
    ensures AtMost(l, []) && forall t :: Count(SentLog(l, []), t) == 0
  {
  }

  lemma TickIsProper(draws: Draws, s: C.Session, before: seq<C.Input>)
    requires s == C.Sit(draws, before) && Proper(s, Burst(before)) && C.InOrder(s)
    ensures Proper(C.Live(draws, s, C.Input.Tick), 0)
  {
    hide CoursesRules.Step, SentLog, Count, AtMost, C.Sit;
    SitIsSound(draws, before);
    CoursesInvariants.StepSound(draws, s.game);
    if !s.game.over {
      NoneYet(COURSES, s.log, s.game.tick + 1);
    } else {
      C.OverSteps(draws, s.game);
    }
  }

  lemma SitIsSound(draws: Draws, inputs: seq<C.Input>)
    ensures CoursesInvariants.Sound(C.Sit(draws, inputs).game)
  {
    C.SitIsRecorded(draws, inputs);
    var s := C.Sit(draws, inputs);
    C.StepToSpends(draws, C.Play(draws, CoursesRules.Start(draws), s.log), s.game.tick);
    hide *;
  }

  lemma PressIsProper(draws: Draws, s: C.Session, action: int, burst: nat)
    requires Proper(s, burst) && !s.game.over && burst < COURSES.perTick
    requires 0 <= action <= CoursesRules.ACTION_HOLD
    ensures Proper(C.Live(draws, s, C.Input.Press(action)), burst + 1)
  {
    hide CoursesRules.Apply, SentLog, Count;
    var e := Event(action, s.game.tick, 0);
    C.ApplyKeepsClock(draws, s.game, action);
    forall t ensures Count(SentLog(COURSES, s.log + [e]), t) <= COURSES.perTick {
      CountSent(COURSES, s.log, e, t);
    }
    CountSent(COURSES, s.log, e, s.game.tick);
  }

  /** A Courses session of known keys, no more than eight between two ticks and 8192 in
      all, played to its end, is let through, and replays to the session's own game. */
  lemma CoursesSessionCounts(draws: Draws, inputs: seq<C.Input>)
    requires Playable(inputs) && |C.Sit(draws, inputs).log| <= 8192 && C.Sit(draws, inputs).game.over
    ensures var s := C.Sit(draws, inputs); var sent := SentLog(COURSES, s.log);
      Accepted(COURSES, sent) && C.Replay(draws, Wire(sent)) == s.game
  {
    var s := C.Sit(draws, inputs);
    SitIsProper(draws, inputs);
    C.LogIsInOrder(draws, inputs);
    C.RecordThenReplay(draws, inputs);
    C.ReplayEnds(draws, s.log, 0);
    hide C.Sit, C.Replay, SentLog, Count, AtMost, Wire;
    SentIsAccepted(COURSES, s.log);
    SentIsWired(COURSES, s.log);
  }

  /** So the verifier reports what the player saw. */
  method SubmitCourses(draws: Draws, ghost inputs: seq<C.Input>, log: seq<Event>) returns (v: Verdict)
    requires Playable(inputs) && |log| <= 8192
    requires C.Sit(draws, inputs).log == log && C.Sit(draws, inputs).game.over
    ensures var g := C.Sit(draws, inputs).game; v == Scored(Outcome(g.score, g.lines, g.tick))
  {
    hide *;
    CoursesSessionCounts(draws, inputs);
    v := VerifyCourses(draws, SentLog(COURSES, log));
  }

  // ----- Quarry -----

  function QuarryBurst(inputs: seq<Q.Input>): nat
    decreases |inputs|
  {
    if inputs == [] || inputs[|inputs| - 1].Tick? then 0 else QuarryBurst(inputs[..|inputs| - 1]) + 1
  }

  /** Aims and launches only, at most four between two ticks, and nothing once it is over. */
  predicate QuarryPlayable(draws: Draws, inputs: seq<Q.Input>)
    decreases |inputs|
  {
    inputs == [] || (
      var before, input := inputs[..|inputs| - 1], inputs[|inputs| - 1];
      && QuarryPlayable(draws, before)
      && !Q.Sit(QuarryRules.Core, draws, before).game.over
      && QuarryBurst(inputs) <= QUARRY.perTick
      && (input.Emit? ==> 0 <= input.action <= QuarryRules.ACTION_LAUNCH
                          && -0x8000_0000 <= input.value < 0x8000_0000))
  }

  ghost predicate QuarryProper(s: Q.Session, burst: nat)
  {
    && (forall i :: 0 <= i < |s.log| ==> 0 <= s.log[i].action <= QuarryRules.ACTION_LAUNCH
                                         && -0x8000_0000 <= s.log[i].value < 0x8000_0000)
    && AtMost(QUARRY, s.log)
    && Count(SentLog(QUARRY, s.log), s.game.tick) <= burst
  }

  lemma {:induction false} QuarrySitIsProper(draws: Draws, inputs: seq<Q.Input>)
    requires QuarryPlayable(draws, inputs)
    ensures QuarryProper(Q.Sit(QuarryRules.Core, draws, inputs), QuarryBurst(inputs))
    decreases |inputs|
  {
    hide QuarryRules.Step, QuarryRules.Apply, QuarryRules.NewGame, SentLog, Count, AtMost;
    if inputs == [] {
      NothingSent(QUARRY);
    } else {
      var before, input := inputs[..|inputs| - 1], inputs[|inputs| - 1];
      var s := Q.Sit(QuarryRules.Core, draws, before);
      QuarrySitIsProper(draws, before);
      match input
      case Tick =>
        QuarryTickIsProper(draws, s, before);
      case Emit(action, value) =>
        EmitIsProper(draws, s, action, value, QuarryBurst(before));
    }
  }

  lemma QuarryTickIsProper(draws: Draws, s: Q.Session, before: seq<Q.Input>)
    requires s == Q.Sit(QuarryRules.Core, draws, before) && !s.game.over && QuarryProper(s, QuarryBurst(before))
    ensures QuarryProper(Q.Live(QuarryRules.Core, draws, s, Q.Input.Tick), 0)
  {
    hide QuarryRules.Step, SentLog, Count, AtMost, Q.Sit;
    QuarrySitIsOrdered(draws, before);
    QuarryBalls.StepFair(QuarryRules.Core, draws, s.game);
    NoneYet(QUARRY, s.log, s.game.tick + 1);
  }

  lemma QuarrySitIsOrdered(draws: Draws, inputs: seq<Q.Input>)
    ensures var s := Q.Sit(QuarryRules.Core, draws, inputs);
      && QuarryBalls.Fair(s.game) && s.game.tick <= QuarryRules.MAX_TICKS
      && (forall i, j :: 0 <= i <= j < |s.log| ==> s.log[i].tick <= s.log[j].tick)
      && (forall i :: 0 <= i < |s.log| ==> 0 <= s.log[i].tick <= s.game.tick)
  {
    var s := Q.Sit(QuarryRules.Core, draws, inputs);
    Q.SitIsRecorded(QuarryRules.Core, draws, inputs);
    var f := Q.Frame(QuarryRules.Core, draws, s.log, s.game.tick);
    Q.ApplyAllSound(draws, f, Q.At(s.log, s.game.tick));
    Q.OverByTheClock(draws, s.game);
    hide Q.Sit, Q.ApplyAll, Q.Frame, Q.At, QuarryBalls.Fair, Q.Sound;
    forall i | 0 <= i < |s.log| ensures 0 <= s.log[i].tick <= s.game.tick {
      assert s.log[i] in s.log;
    }
    SoundIsFair(draws, s.game);
  }

  lemma SoundIsFair(draws: Draws, g: QuarryRules.Game)
    requires Q.Sound(draws, g)
    ensures QuarryBalls.Fair(g)
  {
    hide QuarryBalls.Fair;
  }

  lemma EmitIsProper(draws: Draws, s: Q.Session, action: int, value: int, burst: nat)
    requires QuarryProper(s, burst) && burst < QUARRY.perTick
    requires 0 <= action <= QuarryRules.ACTION_LAUNCH && -0x8000_0000 <= value < 0x8000_0000
    ensures QuarryProper(Q.Live(QuarryRules.Core, draws, s, Q.Input.Emit(action, value)), burst + 1)
  {
    hide SentLog, Count;
    var e := Event(action, s.game.tick, value);
    forall t ensures Count(SentLog(QUARRY, s.log + [e]), t) <= QUARRY.perTick {
      CountSent(QUARRY, s.log, e, t);
    }
    CountSent(QUARRY, s.log, e, s.game.tick);
  }

  /** A Quarry session of aims and launches, no more than four between two ticks and 4000
      in all, played to its end and no further, is let through, and replays to the
      session's own game. */
  lemma QuarrySessionCounts(draws: Draws, inputs: seq<Q.Input>)
    requires QuarryPlayable(draws, inputs)
    requires var s := Q.Sit(QuarryRules.Core, draws, inputs); |s.log| <= QUARRY.most && s.game.over
    ensures var s := Q.Sit(QuarryRules.Core, draws, inputs); var sent := SentLog(QUARRY, s.log);
      Accepted(QUARRY, sent) && Q.Replay(QuarryRules.Core, draws, Wire(sent)) == s.game
  {
    var s := Q.Sit(QuarryRules.Core, draws, inputs);
    QuarrySitIsProper(draws, inputs);
    QuarrySitIsOrdered(draws, inputs);
    Q.RecordThenReplay(QuarryRules.Core, draws, inputs);
    hide Q.Sit, Q.Replay, SentLog, Count, AtMost, Wire, QuarryBalls.Fair;
    SentIsAccepted(QUARRY, s.log);
    SentIsWired(QUARRY, s.log);
  }

  method SubmitQuarry(draws: Draws, ghost inputs: seq<Q.Input>, log: seq<Event>) returns (v: Verdict)
    requires QuarryPlayable(draws, inputs) && |log| <= QUARRY.most
    requires var s := Q.Sit(QuarryRules.Core, draws, inputs); s.log == log && s.game.over
    ensures var g := Q.Sit(QuarryRules.Core, draws, inputs).game;
      v == Scored(Outcome(g.score, g.bricksBroken, g.tick))
  {
    hide *;
    QuarrySessionCounts(draws, inputs);
    v := VerifyQuarry(draws, SentLog(QUARRY, log));
  }
}
