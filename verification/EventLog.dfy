/** The gate in front of the verifier: which submitted logs are replayed at all, what the
    core is handed of them, and when the page's own replay gives the same answer. */
module EventLog {
  import opened Arcade
  import opened Basics
  import CoursesCore
  import CoursesRules
  import CoursesRuns
  import QuarryCore
  import QuarryRoom
  import QuarryRules
  import QuarryRuns
  import QuarryTwins

  /** A member of a submitted event: an integer, nothing, or anything else. */
  datatype Item = Int(value: int) | Undefined | Other

  datatype Raw = NotAList | Items(items: seq<Item>)

  datatype Problem =
    | TooMany
    | NotAnEvent
    | NotIntegers
    | UnknownAction
    | GoesBackwards
    | PastTheEnd
    | TooManyInOneTick

  /** What one game allows of a log. */
  datatype Limits = Limits(most: nat, perTick: nat, isPair: bool, lastAction: int, lastTick: Option<int>)

  const COURSES: Limits := Limits(20000, 8, true, CoursesRules.ACTION_HOLD, None)
  const QUARRY: Limits := Limits(4000, 4, false, QuarryRules.ACTION_LAUNCH, Some(7200))

  /** The core's event buffer. */
  const BUFFER: nat := 8192

  // ----- the validators -----

  predicate IsEvent(l: Limits, raw: Raw)
  {
    raw.Items? && (if l.isPair then |raw.items| == 2 else |raw.items| >= 2)
  }

  predicate HasIntegers(l: Limits, raw: Raw)
  {
    && IsEvent(l, raw) && raw.items[0].Int? && raw.items[1].Int?
    && (|raw.items| > 2 ==> !raw.items[2].Other?)
  }

  function ActionOf(raw: Raw): int
  {
    if raw.Items? && |raw.items| >= 2 && raw.items[0].Int? then raw.items[0].value else 0
  }

  function TickOf(raw: Raw): int
  {
    if raw.Items? && |raw.items| >= 2 && raw.items[1].Int? then raw.items[1].value else 0
  }

  /** The value lane, zero where there is none. */
  function ValueOf(raw: Raw): int
  {
    if raw.Items? && |raw.items| > 2 && raw.items[2].Int? then raw.items[2].value else 0
  }

  predicate IsKnown(l: Limits, raw: Raw)
  {
    0 <= ActionOf(raw) <= l.lastAction
  }

  predicate InTime(l: Limits, raw: Raw)
  {
    l.lastTick.Some? ==> TickOf(raw) <= l.lastTick.value
  }

  predicate IsFine(l: Limits, raw: Raw)
  {
    HasIntegers(l, raw) && IsKnown(l, raw) && InTime(l, raw)
  }

  /** How many events name a tick. */
  function Count(log: seq<Raw>, tick: int): nat
  {
    if log == [] then 0
    else Count(log[..|log| - 1], tick) + if TickOf(log[|log| - 1]) == tick then 1 else 0
  }

  predicate InOrder(log: seq<Raw>)
  {
    forall i, j :: 0 <= i <= j < |log| ==> TickOf(log[i]) <= TickOf(log[j])
  }

  predicate Sparse(l: Limits, log: seq<Raw>)
  {
    forall i :: 0 <= i < |log| ==> Count(log, TickOf(log[i])) <= l.perTick
  }

  /** A log shaped like something a player could produce. */
  predicate Accepted(l: Limits, log: seq<Raw>)
  {
    && |log| <= l.most
    && (forall i :: 0 <= i < |log| ==> IsFine(l, log[i]) && TickOf(log[i]) >= -1)
    && InOrder(log) && Sparse(l, log)
  }

  /** The log has the fault it is refused for. */
  predicate HasFault(l: Limits, log: seq<Raw>, problem: Problem)
  {
    match problem
    case TooMany => |log| > l.most
    case NotAnEvent => exists i :: 0 <= i < |log| && !IsEvent(l, log[i])
    case NotIntegers => exists i :: 0 <= i < |log| && IsEvent(l, log[i]) && !HasIntegers(l, log[i])
    case UnknownAction => exists i :: 0 <= i < |log| && !IsKnown(l, log[i])
    case GoesBackwards => exists i :: 0 <= i < |log| && TickOf(log[i]) < if i == 0 then -1 else TickOf(log[i - 1])
    case PastTheEnd => exists i :: 0 <= i < |log| && !InTime(l, log[i])
    case TooManyInOneTick => exists i :: 0 <= i < |log| && Count(log, TickOf(log[i])) > l.perTick
  }

  /** Nothing is refused but what has a fault, and every fault is refused. */
  method Validate(l: Limits, log: seq<Raw>) returns (problem: Option<Problem>)
    ensures problem.None? <==> Accepted(l, log)
    ensures problem.Some? ==> HasFault(l, log, problem.value)
  {
    if |log| > l.most {
      return Some(TooMany);
    }
    var previous, perTick := -1, 0;
    var i := 0;
    GoodAtFirst(l, log);
    hide *;
    while i < |log|
      invariant 0 <= i <= |log| && GoodSoFar(l, log, i, previous, perTick)
    {
      var raw := log[i];
      if !IsEvent(l, raw) {
        FaultAt(l, log, i, NotAnEvent);
        return Some(NotAnEvent);
      }
      if !HasIntegers(l, raw) {
        FaultAt(l, log, i, NotIntegers);
        return Some(NotIntegers);
      }
      if !IsKnown(l, raw) {
        FaultAt(l, log, i, UnknownAction);
        return Some(UnknownAction);
      }
      var tick := TickOf(raw);
      GoodMeans(l, log, i, previous, perTick);
      if tick < previous {
        FaultAt(l, log, i, GoesBackwards);
        return Some(GoesBackwards);
      }
      if !InTime(l, raw) {
        FaultAt(l, log, i, PastTheEnd);
        return Some(PastTheEnd);
      }
      perTick := if tick == previous then perTick + 1 else 1;
      if perTick > l.perTick {
        CountGrows(log, i + 1, tick);
        FaultAt(l, log, i, TooManyInOneTick);
        return Some(TooManyInOneTick);
      }
      GoodNext(l, log, i, previous, tick);
      previous := tick;
      i := i + 1;
    }
    GoodToTheEnd(l, log, previous, perTick);
    return None;
  }

  /** The log so far has no fault; previous is the tick of its last event, perTick how many
      events that tick has had. */
  predicate GoodSoFar(l: Limits, log: seq<Raw>, i: nat, previous: int, perTick: nat)
    requires i <= |log|
  {
    && previous == (if i == 0 then -1 else TickOf(log[i - 1]))
    && perTick == Count(log[..i], previous)
    && (forall k :: 0 <= k < i ==> IsFine(l, log[k]) && -1 <= TickOf(log[k]) <= previous)
    && (forall j, k :: 0 <= j <= k < i ==> TickOf(log[j]) <= TickOf(log[k]))
    && (forall k :: 0 <= k < i ==> Count(log[..i], TickOf(log[k])) <= l.perTick)
  }

  lemma GoodAtFirst(l: Limits, log: seq<Raw>)
    ensures GoodSoFar(l, log, 0, -1, 0)
  {
    assert log[..0] == [];
  }

  /** What the next event makes of the counter. */
  lemma GoodMeans(l: Limits, log: seq<Raw>, i: nat, previous: int, perTick: nat)
    requires i < |log| && GoodSoFar(l, log, i, previous, perTick)
    ensures previous == if i == 0 then -1 else TickOf(log[i - 1])
    ensures var tick := TickOf(log[i]);
      tick >= previous ==> Count(log[..i + 1], tick) == if tick == previous then perTick + 1 else 1
  {
    hide IsFine;
    assert log[..i + 1][..i] == log[..i];
    NoneLater(log[..i], previous, TickOf(log[i]));
  }

  lemma GoodNext(l: Limits, log: seq<Raw>, i: nat, previous: int, tick: int)
    requires i < |log| && tick == TickOf(log[i]) >= previous
    requires exists perTick: nat :: GoodSoFar(l, log, i, previous, perTick)
    requires HasIntegers(l, log[i]) && IsKnown(l, log[i]) && InTime(l, log[i])
    requires Count(log[..i + 1], tick) <= l.perTick
    ensures GoodSoFar(l, log, i + 1, tick, Count(log[..i + 1], tick))
  {
    hide HasIntegers, IsKnown, InTime;
    assert log[..i + 1][..i] == log[..i];
  }

  lemma GoodToTheEnd(l: Limits, log: seq<Raw>, previous: int, perTick: nat)
    requires |log| <= l.most && GoodSoFar(l, log, |log|, previous, perTick)
    ensures Accepted(l, log)
  {
    hide IsFine;
    assert log[..|log|] == log;
  }

  lemma FaultAt(l: Limits, log: seq<Raw>, i: nat, problem: Problem)
    requires i < |log|
    requires match problem
      case TooMany => false
      case NotAnEvent => !IsEvent(l, log[i])
      case NotIntegers => IsEvent(l, log[i]) && !HasIntegers(l, log[i])
      case UnknownAction => !IsKnown(l, log[i])
      case GoesBackwards => TickOf(log[i]) < if i == 0 then -1 else TickOf(log[i - 1])
      case PastTheEnd => !InTime(l, log[i])
      case TooManyInOneTick => Count(log, TickOf(log[i])) > l.perTick
    ensures HasFault(l, log, problem) && !Accepted(l, log)
  {
  }

  lemma {:induction false} NoneLater(log: seq<Raw>, previous: int, tick: int)
    requires forall i :: 0 <= i < |log| ==> TickOf(log[i]) <= previous
    ensures tick > previous ==> Count(log, tick) == 0
  {
    if log != [] {
      NoneLater(log[..|log| - 1], previous, tick);
    }
  }

  lemma {:induction false} CountGrows(log: seq<Raw>, k: nat, tick: int)
    requires k <= |log|
    ensures Count(log[..k], tick) <= Count(log, tick)
    decreases |log|
  {
    if k < |log| {
      assert log[..|log| - 1][..k] == log[..k];
      CountGrows(log[..|log| - 1], k, tick);
    } else {
      assert log[..k] == log;
    }
  }

  // ----- what a player could produce -----

  /** In a log in order, the events of the last tick are the last of the log. */
  lemma {:induction false} CountIsTheEnd(log: seq<Raw>)
    requires InOrder(log) && log != []
    ensures var tick := TickOf(log[|log| - 1]);
      var count := Count(log, tick);
      && 1 <= count <= |log| && TickOf(log[|log| - count]) == tick
      && (count < |log| ==> TickOf(log[|log| - count - 1]) < tick)
  {
    var before := log[..|log| - 1];
    var tick := TickOf(log[|log| - 1]);
    if before != [] {
      if TickOf(before[|before| - 1]) == tick {
        CountIsTheEnd(before);
      } else {
        NoneLater(before, TickOf(before[|before| - 1]), tick);
      }
    }
  }

  /** All the events of a tick are counted by the time of one of them. */
  lemma {:induction false} CountedBySome(log: seq<Raw>, tick: int) returns (e: nat)
    requires Count(log, tick) > 0
    ensures e < |log| && TickOf(log[e]) == tick && Count(log[..e + 1], tick) == Count(log, tick)
  {
    var last := |log| - 1;
    if TickOf(log[last]) == tick {
      e := last;
      assert log[..last + 1] == log;
    } else {
      e := CountedBySome(log[..last], tick);
      assert log[..last][..e + 1] == log[..e + 1];
    }
  }

  predicate IsSpaced(log: seq<Raw>, n: nat)
  {
    forall i :: 0 <= i && i + n < |log| ==> TickOf(log[i]) < TickOf(log[i + n])
  }

  /** In a log in order, no tick has more than n events exactly when every event is at a later
      tick than the n-th before it. */
  lemma SparseIsSpaced(l: Limits, log: seq<Raw>)
    requires InOrder(log) && l.perTick >= 1
    ensures Sparse(l, log) <==> IsSpaced(log, l.perTick)
  {
    hide Count;
    if Sparse(l, log) {
      forall i | 0 <= i && i + l.perTick < |log| ensures TickOf(log[i]) < TickOf(log[i + l.perTick]) {
        SparseHere(log, i, l.perTick);
      }
    }
    if IsSpaced(log, l.perTick) {
      forall i | 0 <= i < |log| ensures Count(log, TickOf(log[i])) <= l.perTick {
        SpacedHere(log, TickOf(log[i]), l.perTick);
      }
    }
  }

  lemma SparseHere(log: seq<Raw>, i: nat, n: nat)
    requires InOrder(log) && i + n < |log| && Count(log, TickOf(log[i + n])) <= n
    ensures TickOf(log[i]) < TickOf(log[i + n])
  {
    hide Count, TickOf;
    var upTo := log[..i + n + 1];
    CountIsTheEnd(upTo);
    CountGrows(log, i + n + 1, TickOf(log[i + n]));
    assert upTo[|upTo| - 1] == log[i + n];
  }

  lemma SpacedHere(log: seq<Raw>, tick: int, n: nat)
    requires InOrder(log) && IsSpaced(log, n)
    ensures Count(log, tick) <= n
  {
    hide Count, TickOf;
    if Count(log, tick) > 0 {
      var e := CountedBySome(log, tick);
      CountIsTheEnd(log[..e + 1]);
      assert forall k :: e + 1 - Count(log, tick) <= k <= e ==> TickOf(log[k]) == tick;
      assert e >= n ==> TickOf(log[e - n]) < TickOf(log[(e - n) + n]);
    }
  }

  /** A Courses log is admitted exactly when it is at most twenty thousand pairs of integers,
      an action from 0 to 6 and a tick from -1 on, in the order of their ticks and with at
      most eight in one. */
  lemma CoursesAdmits(log: seq<Raw>)
    ensures Accepted(COURSES, log) <==>
      && |log| <= 20000
      && (forall i :: 0 <= i < |log| ==>
            log[i] == Items([Int(ActionOf(log[i])), Int(TickOf(log[i]))])
            && 0 <= ActionOf(log[i]) <= 6 && -1 <= TickOf(log[i]))
      && InOrder(log) && IsSpaced(log, 8)
  {
    if InOrder(log) {
      SparseIsSpaced(COURSES, log);
    }
    hide Sparse, IsSpaced;
    forall i | 0 <= i < |log|
      ensures HasIntegers(COURSES, log[i]) <==> log[i] == Items([Int(ActionOf(log[i])), Int(TickOf(log[i]))])
    {
    }
  }

  /** A Quarry log exactly when it is at most four thousand events of an action 0 or 1, a tick
      from -1 to 7200 and, if anything follows, an integer or nothing; in order, and with at
      most four in one tick. */
  lemma QuarryAdmits(log: seq<Raw>)
    ensures Accepted(QUARRY, log) <==>
      && |log| <= 4000
      && (forall i :: 0 <= i < |log| ==>
            && log[i].Items? && |log[i].items| >= 2
            && log[i].items[0] in [Int(0), Int(1)] && log[i].items[1] == Int(TickOf(log[i]))
            && -1 <= TickOf(log[i]) <= 7200
            && (|log[i].items| > 2 ==> log[i].items[2].Int? || log[i].items[2] == Undefined))
      && InOrder(log) && IsSpaced(log, 4)
  {
    if InOrder(log) {
      SparseIsSpaced(QUARRY, log);
    }
    hide Sparse, IsSpaced;
  }

  // ----- what reaches the core -----

  /** JavaScript's "x | 0". */
  function ToInt32(x: int): (r: int)
    ensures -0x8000_0000 <= r < 0x8000_0000
    ensures -0x8000_0000 <= x < 0x8000_0000 ==> r == x
    ensures (x - r) % 0x1_0000_0000 == 0
  {
    (x + 0x8000_0000) % 0x1_0000_0000 - 0x8000_0000
  }

  function WireEvent(raw: Raw): Event
  {
    Event(ToInt32(ActionOf(raw)), ToInt32(TickOf(raw)), ToInt32(ValueOf(raw)))
  }

  /** The three lanes of every event, as copied into the core's buffer. */
  function Wire(log: seq<Raw>): (events: seq<Event>)
    ensures |events| == |log|
  {
    seq(|log|, i requires 0 <= i < |log| => WireEvent(log[i]))
  }

  datatype Verdict = Refused(problem: Problem) | Scored(outcome: Outcome)

  /** Check, copy, replay: the score is the core's, and the log's own claim is not read. */
  method VerifyCourses(draws: Draws, log: seq<Raw>) returns (v: Verdict)
    ensures v.Scored? <==> Accepted(COURSES, log) && |log| <= 8192
    ensures v.Scored? ==> var g := CoursesRuns.Replay(draws, Wire(log)); v.outcome == Outcome(g.score, g.lines, g.tick)
  {
    hide Accepted, HasFault;
    var problem := Validate(COURSES, log);
    if problem.Some? {
      return Refused(problem.value);
    }
    if |log| > BUFFER {
      return Refused(TooMany);
    }
    var outcome := CoursesCore.Replay(draws, Wire(log));
    return Scored(outcome);
  }

  method VerifyQuarry(draws: Draws, log: seq<Raw>) returns (v: Verdict)
    ensures v.Scored? <==> Accepted(QUARRY, log)
    ensures v.Scored? ==>
      var g := QuarryRuns.Replay(QuarryRules.Core, draws, Wire(log));
      v.outcome == Outcome(g.score, g.bricksBroken, g.tick)
  {
    var problem := Validate(QUARRY, log);
    hide Accepted, HasFault;
    if problem.Some? {
      return Refused(problem.value);
    }
    var outcome := QuarryCore.Replay(draws, Wire(log));
    return Scored(outcome);
  }

  /** What the core is handed of an accepted Quarry log is what was sent. */
  lemma WiredTicks(log: seq<Raw>)
    requires Accepted(QUARRY, log)
    ensures QuarryRuns.InOrder(Wire(log))
    ensures forall i :: 0 <= i < |log| ==> Wire(log)[i].action == ActionOf(log[i]) && Wire(log)[i].tick == TickOf(log[i])
  {
    hide ToInt32;
    forall i | 0 <= i < |log|
      ensures Wire(log)[i].action == ActionOf(log[i]) && Wire(log)[i].tick == TickOf(log[i])
    {
      assert IsFine(QUARRY, log[i]) && TickOf(log[i]) >= -1;
    }
  }

  /** An accepted Quarry log with no tick before the run is applied event by event at the
      ticks it names, by both twins; and the page's game is the one the core scores,
      unless a capsule came due with sixteen already falling. */
  lemma AcceptedQuarryLogReplaysAlike(draws: Draws, log: seq<Raw>)
    requires Accepted(QUARRY, log) && (log != [] ==> TickOf(log[0]) >= 0)
    ensures var events := Wire(log);
      var core := QuarryRuns.Replay(QuarryRules.Core, draws, events);
      && core == QuarryRuns.ByTick(QuarryRules.Core, draws, QuarryRules.NewGame(draws), events, QuarryRuns.GUARD)
      && (core.refused == 0 ==> core == QuarryRuns.Replay(QuarryRules.Page, draws, events))
  {
    var events := Wire(log);
    WiredTicks(log);
    NoneBeforeTheRun(log);
    hide *;
    QuarryRuns.OrderedReplayIsByTick(QuarryRules.Core, draws, events);
    QuarryTwins.TwinsAgree(draws, events);
  }

  /** On a seed by which no more than sixteen cells drop a capsule, always. */
  lemma AcceptedQuarryLogReplaysAlikeOnSeed(draws: Draws, log: seq<Raw>)
    requires Accepted(QUARRY, log) && (log != [] ==> TickOf(log[0]) >= 0)
    requires QuarryRoom.Droppers(draws, QuarryRules.CELLS) <= QuarryRules.MAX_CAPSULES
    ensures QuarryRuns.Replay(QuarryRules.Core, draws, Wire(log))
         == QuarryRuns.Replay(QuarryRules.Page, draws, Wire(log))
  {
    NoneBeforeTheRun(log);
    hide *;
    QuarryRoom.TwinsAgreeOnSeed(draws, Wire(log));
  }

  lemma NoneBeforeTheRun(log: seq<Raw>)
    requires Accepted(QUARRY, log) && (log != [] ==> TickOf(log[0]) >= 0)
    ensures forall e :: e in Wire(log) ==> 0 <= e.tick
  {
    WiredTicks(log);
    forall i | 0 <= i < |log| ensures 0 <= Wire(log)[i].tick {
      assert TickOf(log[0]) <= TickOf(log[i]);
    }
    hide Accepted, ToInt32;
  }
}
