/** The pieces a run of Courses is dealt: over any session and any replay they are the pieces
    of the seven-bag, from the first, in order and without a gap. */
module CoursesDeals {
  import opened Arcade
  import opened CoursesBag
  import opened CoursesBoard
  import opened CoursesRules
  import opened CoursesInvariants
  import opened CoursesRuns

  // ----- what comes into play -----

  /** The game after some inputs. */
  function GameAfter(draws: Draws, inputs: seq<Input>): Game
  {
    Sit(draws, inputs).game
  }

  /** The kinds that came into play as a run was dealt them: the one it starts with, and the
      one in play after every input or tick that raised the count of pieces. */
  function Dealt(draws: Draws, inputs: seq<Input>): seq<Kind>
  {
    if inputs == [] then [GameAfter(draws, []).piece]
    else
      var earlier := inputs[..|inputs| - 1];
      var now := GameAfter(draws, inputs);
      Dealt(draws, earlier) + if now.index > GameAfter(draws, earlier).index then [now.piece] else []
  }

  /** Of a game and what it turned into: the next of the deal came, or none did. */
  predicate DealsInTurn(draws: Draws, g: Game, h: Game)
  {
    h.index == g.index || (g.index < 300 && h.index == g.index + 1 && h.piece == PieceAt(draws, g.index))
  }

  lemma SpawnDealsInTurn(draws: Draws, g: Game)
    ensures DealsInTurn(draws, g, Spawn(draws, g))
  {
    hide PieceAt, Collides;
  }

  lemma LockDealsInTurn(draws: Draws, g: Game)
    ensures DealsInTurn(draws, g, Lock(draws, g))
  {
    SpawnDealsInTurn(draws, Settle(g));
    SettleDealsNone(g);
    hide Spawn, Settle, PieceAt;
  }

  lemma SettleDealsNone(g: Game)
    ensures Settle(g).index == g.index
  {
    hide Stamp, Cleared, FullRows, OffBoard, ClearPoints;
  }

  lemma ApplyDealsInTurn(draws: Draws, g: Game, action: int)
    ensures DealsInTurn(draws, g, Apply(draws, g, action))
  {
    hide Shift, Rotate, SoftDrop, HardDrop, Hold, PieceAt;
    QuietInputsKeepClock(g);
    HardDropDealsInTurn(draws, g);
    HoldDealsInTurn(draws, g);
  }

  lemma HardDropDealsInTurn(draws: Draws, g: Game)
    ensures DealsInTurn(draws, g, HardDrop(draws, g))
  {
    hide Lock, Landing, PieceAt;
    LockDealsInTurn(draws, g.(y := RestRow(g), score := g.score + (RestRow(g) - g.y) * HARD_DROP_POINTS));
  }

  lemma HoldDealsInTurn(draws: Draws, g: Game)
    ensures DealsInTurn(draws, g, Hold(draws, g))
  {
    hide Spawn, Enter, PieceAt;
    SpawnDealsInTurn(draws, g.(hold := g.piece, hasHold := true));
    EnterDealsNone(g, g.hold);
  }

  lemma EnterDealsNone(g: Game, kind: Kind)
    ensures Enter(g, kind).index == g.index
  {
    hide Collides;
  }

  lemma RestDealsInTurn(draws: Draws, g: Game)
    ensures DealsInTurn(draws, g, Rest(draws, g))
  {
    LockDealsInTurn(draws, g.(lockCounter := g.lockCounter + 1));
    hide Lock, HitsAt, PieceAt;
  }

  lemma StepDealsInTurn(draws: Draws, g: Game)
    requires Sound(g)
    ensures DealsInTurn(draws, g, Step(draws, g))
  {
    if !g.over {
      FallKeepsIndex(g);
      RestDealsInTurn(draws, Fall(g));
    }
    hide Rest, Fall, PieceAt, Books, Clocks, HitsAt;
  }

  lemma LiveDealsInTurn(draws: Draws, s: Session, input: Input)
    requires Sound(s.game)
    ensures DealsInTurn(draws, s.game, Live(draws, s, input).game)
  {
    hide Sound, Step, Apply, DealsInTurn;
    match input
    case Tick => StepDealsInTurn(draws, s.game);
    case Press(action) =>
      ApplyDealsInTurn(draws, s.game, action);
      NoneDealsInTurn(draws, s.game);
  }

  lemma NoneDealsInTurn(draws: Draws, g: Game)
    ensures DealsInTurn(draws, g, g)
  {
  }

  lemma SitSound(draws: Draws, inputs: seq<Input>)
    ensures Sound(GameAfter(draws, inputs))
  {
    SitIsRecorded(draws, inputs);
    var s := Sit(draws, inputs);
    StepToSpends(draws, Play(draws, Start(draws), s.log), s.game.tick);
    hide Sit, Play, StepTo, Sound, Start;
  }

  // ----- the deal -----

  /** The pieces of the seven-bag from the first on, at most three hundred. */
  predicate IsTheDeal(draws: Draws, kinds: seq<Kind>)
  {
    |kinds| <= 300 && forall k :: 0 <= k < |kinds| ==> kinds[k] == PieceAt(draws, k)
  }

  /** Whatever is pressed and whenever, the k-th piece a run is dealt is the k-th of the
      seven-bag, and as many have come as the run counts. */
  lemma {:induction false} DealtIsTheDeal(draws: Draws, inputs: seq<Input>)
    ensures |Dealt(draws, inputs)| == GameAfter(draws, inputs).index
    ensures IsTheDeal(draws, Dealt(draws, inputs))
    decreases |inputs|
  {
    hide PieceAt, Live, Start;
    if inputs == [] {
      FirstIsDealt(draws);
    } else {
      var earlier, last := inputs[..|inputs| - 1], inputs[|inputs| - 1];
      DealtIsTheDeal(draws, earlier);
      SitSound(draws, earlier);
      LiveDealsInTurn(draws, Sit(draws, earlier), last);
      hide Sound;
    }
  }

  lemma FirstIsDealt(draws: Draws)
    ensures Start(draws).index == 1 && Start(draws).piece == PieceAt(draws, 0)
  {
    hide Collides, PieceAt;
  }

  // ----- fairness -----

  lemma InTheWindow(kinds: seq<Kind>, start: nat, span: nat, at: nat)
    requires start <= at < start + span <= |kinds|
    ensures kinds[at] in kinds[start..start + span]
  {
    assert kinds[start..start + span][at - start] == kinds[at];
  }

  /** Of the pieces a run is dealt, each seven from a multiple of seven on hold each kind ... */
  lemma SevenHoldEachKind(draws: Draws, inputs: seq<Input>, block: nat, kind: Kind)
    requires 7 * block + 7 <= |Dealt(draws, inputs)|
    ensures kind in Dealt(draws, inputs)[7 * block..7 * block + 7]
  {
    hide Dealt, PieceAt;
    DealtIsTheDeal(draws, inputs);
    var at := BlockDealsEach(draws, block, kind);
    InTheWindow(Dealt(draws, inputs), 7 * block, 7, at);
  }

  /** ... none of them twice ... */
  lemma SevenHoldNoneTwice(draws: Draws, inputs: seq<Input>, block: nat, r: nat, q: nat)
    requires 7 * block + 7 <= |Dealt(draws, inputs)| && r < q < 7
    ensures Dealt(draws, inputs)[7 * block + r] != Dealt(draws, inputs)[7 * block + q]
  {
    hide Dealt, PieceAt;
    DealtIsTheDeal(draws, inputs);
    if PieceAt(draws, 7 * block + r) == PieceAt(draws, 7 * block + q) {
      BlockDealsNoneTwice(draws, block, r, q);
    }
  }

  /** ... and any thirteen in a row hold every kind. */
  lemma ThirteenHoldEachKind(draws: Draws, inputs: seq<Input>, start: nat, kind: Kind)
    requires start + 13 <= |Dealt(draws, inputs)|
    ensures kind in Dealt(draws, inputs)[start..start + 13]
  {
    hide Dealt, PieceAt;
    DealtIsTheDeal(draws, inputs);
    EveryWindowOfThirteen(draws, start, kind);
    var at :| start <= at < start + 13 && PieceAt(draws, at) == kind;
    InTheWindow(Dealt(draws, inputs), start, 13, at);
  }

  // ----- replays are sessions -----

  lemma {:induction false} StepToIsTicks(draws: Draws, inputs: seq<Input>, target: nat)
    returns (more: seq<Input>)
    ensures GameAfter(draws, more) == StepTo(draws, GameAfter(draws, inputs), target)
    decreases var g := GameAfter(draws, inputs); if g.over then 0 else 1, target - GameAfter(draws, inputs).tick
  {
    hide Step, Start;
    var g := GameAfter(draws, inputs);
    more := inputs;
    if !g.over && g.tick < target {
      StepTicksOrEnds(draws, g);
      TickFollows(draws, inputs);
      more := StepToIsTicks(draws, inputs + [Tick], target);
    }
  }

  lemma NothingYet(draws: Draws)
    ensures GameAfter(draws, []) == Start(draws)
  {
  }

  lemma TickFollows(draws: Draws, inputs: seq<Input>)
    ensures GameAfter(draws, inputs + [Tick]) == Step(draws, GameAfter(draws, inputs))
  {
    hide Step, Start;
    assert (inputs + [Tick])[..|inputs|] == inputs;
  }

  lemma PressFollows(draws: Draws, inputs: seq<Input>, action: int)
    ensures var g := GameAfter(draws, inputs);
      GameAfter(draws, inputs + [Press(action)]) == if g.over then g else Apply(draws, g, action)
  {
    hide Apply, Start;
    assert (inputs + [Press(action)])[..|inputs|] == inputs;
  }

  lemma {:induction false} PlayIsSession(draws: Draws, inputs: seq<Input>, events: seq<Event>)
    returns (more: seq<Input>)
    ensures GameAfter(draws, more) == Play(draws, GameAfter(draws, inputs), events)
    decreases |events|
  {
    hide Step, Start, StepTo, Apply, GameAfter;
    more := inputs;
    if events != [] {
      more := StepToIsTicks(draws, inputs, TargetTick(events[0].tick));
      if !GameAfter(draws, more).over {
        PressFollows(draws, more, events[0].action);
        more := PlayIsSession(draws, more + [Press(events[0].action)], events[1..]);
      }
    }
  }

  lemma {:induction false} RunOutIsTicks(draws: Draws, inputs: seq<Input>, guard: nat) returns (more: seq<Input>)
    ensures GameAfter(draws, more) == RunOut(draws, GameAfter(draws, inputs), guard)
    decreases guard
  {
    hide Step, Start, GameAfter;
    more := inputs;
    if !GameAfter(draws, inputs).over && guard > 0 {
      TickFollows(draws, inputs);
      more := RunOutIsTicks(draws, inputs + [Tick], guard - 1);
    }
  }

  /** Whatever a log says, its replay is a game somebody could have played: the same presses
      and ticks, one after another. What holds after all of these holds of every replay. */
  lemma ReplayIsSession(draws: Draws, events: seq<Event>) returns (inputs: seq<Input>)
    ensures GameAfter(draws, inputs) == Replay(draws, events)
  {
    NothingYet(draws);
    hide GameAfter, Play, RunOut, Start;
    inputs := PlayIsSession(draws, [], events);
    inputs := RunOutIsTicks(draws, inputs, GUARD);
  }

  /** So a replay too is dealt the pieces of the bag in order, as many as it counts. */
  lemma ReplayIsDealtTheDeal(draws: Draws, events: seq<Event>) returns (inputs: seq<Input>)
    ensures GameAfter(draws, inputs) == Replay(draws, events)
    ensures |Dealt(draws, inputs)| == Replay(draws, events).index
    ensures IsTheDeal(draws, Dealt(draws, inputs))
  {
    hide GameAfter, Replay, Dealt, IsTheDeal;
    inputs := ReplayIsSession(draws, events);
    DealtIsTheDeal(draws, inputs);
  }
}
