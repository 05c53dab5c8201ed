/** The lock delay of Courses: what the cap on resets does bound, and what it does not. */
module CoursesLockDelay {
  import opened Arcade
  import opened CoursesBag
  import opened CoursesBoard
  import opened CoursesRules
  import opened CoursesInvariants
  import opened CoursesRuns

  function After(draws: Draws, g: Game, input: Input): Game
  {
    match input
    case Tick => Step(draws, g)
    case Press(action) => Apply(draws, g, action)
  }

  function AfterAll(draws: Draws, g: Game, inputs: seq<Input>): Game
    decreases |inputs|
  {
    if inputs == [] then g else AfterAll(draws, After(draws, g, inputs[0]), inputs[1..])
  }

  // ----- the budget -----

  /** Grounded ticks the piece in play has left on the row it has reached. */
  function Budget(g: Game): int
  {
    (LOCK_RESETS - g.lockResets) * LOCK_DELAY + (LOCK_DELAY - g.lockCounter)
  }

  /** The same piece, not swapped away, and no new lowest row. */
  predicate SameStay(g: Game, h: Game)
  {
    && !h.over
    && h.index == g.index
    && h.locked == g.locked
    && h.holdUsed == g.holdUsed
    && h.lockFloor == g.lockFloor
  }

  predicate Stays(draws: Draws, g: Game, inputs: seq<Input>)
    decreases |inputs|
  {
    hide *;
    inputs == []
    || (SameStay(g, After(draws, g, inputs[0])) && Stays(draws, After(draws, g, inputs[0]), inputs[1..]))
  }

  /** Whether a tick ends with the piece resting on something. */
  predicate EndsGrounded(g: Game)
  {
    !g.over && Grounded(Fall(g))
  }

  function GroundedTicks(draws: Draws, g: Game, inputs: seq<Input>): nat
    decreases |inputs|
  {
    hide *;
    if inputs == [] then 0
    else
      var rest := GroundedTicks(draws, After(draws, g, inputs[0]), inputs[1..]);
      if inputs[0].Tick? && EndsGrounded(g) then rest + 1 else rest
  }

  lemma TickSpendsBudget(draws: Draws, g: Game)
    requires Sound(g) && !g.over && SameStay(g, Step(draws, g))
    ensures Budget(Step(draws, g)) + (if EndsGrounded(g) then 1 else 0) <= Budget(g)
  {
    hide Books, HitsAt, Lock, GravityInterval;
    if LocksNow(g) {
      LockCounts(draws, Fall(g).(lockCounter := Fall(g).lockCounter + 1));
    }
  }

  lemma LockCounts(draws: Draws, g: Game)
    ensures Lock(draws, g).locked == g.locked + 1
  {
    hide Collides, Stamp, Cleared, FullRows, OffBoard, ClearPoints, PieceAt;
  }

  lemma PressSpendsBudget(draws: Draws, g: Game, action: int)
    requires Sound(g) && !g.over && SameStay(g, Apply(draws, g, action))
    ensures Budget(Apply(draws, g, action)) <= Budget(g)
  {
    hide Books, HitsAt, Lock, FirstKick, Kick, RestRow, Enter, PieceAt;
    if action == ACTION_HARD_DROP {
      var rest := RestRow(g);
      LandingBelow(g);
      LockCounts(draws, g.(y := rest, score := g.score + (rest - g.y) * HARD_DROP_POINTS));
    }
    if action == ACTION_HOLD {
      HoldIsUsed(draws, g);
    }
  }

  lemma LandingBelow(g: Game)
    ensures g.y <= RestRow(g)
  {
    hide Collides;
  }

  lemma HoldIsUsed(draws: Draws, g: Game)
    ensures Hold(draws, g) == g || (!g.holdUsed && Hold(draws, g).holdUsed)
  {
    hide Collides, PieceAt;
  }

  /** However a piece is moved and turned, the ticks it ends grounded are paid from one
      budget until it reaches a strictly new row. */
  lemma {:induction false} StayIsPaidFor(draws: Draws, g: Game, inputs: seq<Input>)
    requires Sound(g) && !g.over && Stays(draws, g, inputs)
    ensures Sound(AfterAll(draws, g, inputs)) && !AfterAll(draws, g, inputs).over
    ensures Budget(AfterAll(draws, g, inputs)) + GroundedTicks(draws, g, inputs) <= Budget(g)
    decreases |inputs|
  {
    if inputs != [] {
      var next := After(draws, g, inputs[0]);
      match inputs[0] {
        case Tick =>
          TickSpendsBudget(draws, g);
          StepSound(draws, g);
        case Press(action) =>
          PressSpendsBudget(draws, g, action);
          ApplySound(draws, g, action);
      }
      StayIsPaidFor(draws, next, inputs[1..]);
    }
    hide Sound, Step, Apply, Budget, EndsGrounded;
  }

  /** For one piece and one lowest row at most (LOCK_RESETS + 1) * LOCK_DELAY ticks end
      grounded, the one that locks it included, whatever is pressed. */
  lemma LockDelayIsBounded(draws: Draws, g: Game, inputs: seq<Input>)
    requires Sound(g) && !g.over && Stays(draws, g, inputs)
    ensures GroundedTicks(draws, g, inputs) + 1 <= (LOCK_RESETS + 1) * LOCK_DELAY == 480
    ensures Budget(AfterAll(draws, g, inputs)) <= 480 - GroundedTicks(draws, g, inputs)
  {
    StayIsPaidFor(draws, g, inputs);
    hide Books, Placed;
  }

  /** With the budget spent down to its last tick, a grounded tick locks the piece. */
  lemma SpentBudgetLocks(draws: Draws, g: Game)
    requires Sound(g) && !g.over && Budget(g) == 1 && EndsGrounded(g)
    ensures Step(draws, g).locked == g.locked + 1
  {
    hide Books, HitsAt, Lock, GravityInterval;
    LockCounts(draws, Fall(g).(lockCounter := Fall(g).lockCounter + 1));
  }

  /** The lowest row reached only grows while a piece is in play. */
  lemma FloorOnlyGrows(draws: Draws, g: Game, input: Input)
    requires Sound(g) && !g.over
    requires After(draws, g, input).index == g.index && After(draws, g, input).locked == g.locked
    requires After(draws, g, input).holdUsed == g.holdUsed
    ensures g.lockFloor <= After(draws, g, input).lockFloor
  {
    hide Sound, Step, Apply;
    match input
    case Tick => TickKeepsFloor(draws, g);
    case Press(action) => PressKeepsFloor(draws, g, action);
  }

  lemma TickKeepsFloor(draws: Draws, g: Game)
    requires Sound(g) && !g.over && Step(draws, g).locked == g.locked
    ensures g.lockFloor <= Step(draws, g).lockFloor
  {
    hide Books, HitsAt, Lock, Fall;
    FallKeepsFloor(g);
    LockCounts(draws, Fall(g).(lockCounter := Fall(g).lockCounter + 1));
  }

  lemma FallKeepsFloor(g: Game)
    ensures Fall(g).lockFloor == g.lockFloor && Fall(g).locked == g.locked
  {
    hide HitsAt, GravityInterval;
  }

  lemma QuietInputsKeepFloor(g: Game)
    ensures forall dx :: Shift(g, dx).lockFloor == g.lockFloor
    ensures forall r: Turn :: Rotate(g, r).lockFloor == g.lockFloor
    ensures SoftDrop(g).lockFloor == g.lockFloor
  {
    hide HitsAt, FirstKick, Kick;
  }

  lemma PressKeepsFloor(draws: Draws, g: Game, action: int)
    requires Sound(g) && !g.over
    requires Apply(draws, g, action).locked == g.locked && Apply(draws, g, action).holdUsed == g.holdUsed
    ensures g.lockFloor <= Apply(draws, g, action).lockFloor
  {
    hide Sound, Shift, Rotate, SoftDrop, HardDrop, Hold;
    QuietInputsKeepFloor(g);
    HardDropCounts(draws, g);
    HoldIsUsed(draws, g);
  }

  lemma HardDropCounts(draws: Draws, g: Game)
    ensures HardDrop(draws, g).locked == g.locked + 1
  {
    hide Lock, RestRow;
    var rest := RestRow(g);
    LandingBelow(g);
    LockCounts(draws, g.(y := rest, score := g.score + (rest - g.y) * HARD_DROP_POINTS));
  }

  // ----- one hold per piece -----

  /** Until it locks, a piece taken by a hold cannot be held again. */
  lemma KeepsTheHeld(draws: Draws, g: Game, input: Input)
    requires Sound(g) && !g.over && g.holdUsed && After(draws, g, input).locked == g.locked
    ensures var h := After(draws, g, input);
      h.holdUsed && h.piece == g.piece && h.hold == g.hold && !h.over
  {
    hide Sound, Step, Apply;
    match input
    case Tick => TickKeepsTheHeld(draws, g);
    case Press(action) => PressKeepsTheHeld(draws, g, action);
  }

  lemma FallKeepsTheHeld(g: Game)
    ensures var h := Fall(g);
      h.holdUsed == g.holdUsed && h.piece == g.piece && h.hold == g.hold && h.over == g.over && h.locked == g.locked
  {
    hide HitsAt, GravityInterval;
  }

  lemma TickKeepsTheHeld(draws: Draws, g: Game)
    requires Sound(g) && !g.over && g.holdUsed && Step(draws, g).locked == g.locked
    ensures var h := Step(draws, g); h.holdUsed && h.piece == g.piece && h.hold == g.hold && !h.over
  {
    hide Books, HitsAt, Lock, Fall;
    FallKeepsTheHeld(g);
    LockCounts(draws, Fall(g).(lockCounter := Fall(g).lockCounter + 1));
  }

  lemma ShiftKeepsTheHeld(g: Game, dx: int)
    ensures SameHeld(g, Shift(g, dx))
  {
    hide HitsAt;
  }

  lemma RotateKeepsTheHeld(g: Game, r: Turn)
    ensures SameHeld(g, Rotate(g, r))
  {
    hide HitsAt, FirstKick, Kick;
  }

  lemma SoftDropKeepsTheHeld(g: Game)
    ensures SameHeld(g, SoftDrop(g))
  {
    hide HitsAt;
  }

  predicate SameHeld(g: Game, h: Game)
  {
    h.holdUsed == g.holdUsed && h.piece == g.piece && h.hold == g.hold && h.over == g.over
  }

  lemma PressKeepsTheHeld(draws: Draws, g: Game, action: int)
    requires !g.over && g.holdUsed && Apply(draws, g, action).locked == g.locked
    ensures SameHeld(g, Apply(draws, g, action))
  {
    hide Shift, Rotate, SoftDrop, HardDrop;
    ShiftKeepsTheHeld(g, -1);
    ShiftKeepsTheHeld(g, 1);
    RotateKeepsTheHeld(g, (g.rotation + 1) % 4);
    RotateKeepsTheHeld(g, (g.rotation + 3) % 4);
    SoftDropKeepsTheHeld(g);
    HardDropCounts(draws, g);
  }

  lemma {:induction false} LockedOnlyGrows(draws: Draws, g: Game, inputs: seq<Input>)
    requires Sound(g)
    ensures g.locked <= AfterAll(draws, g, inputs).locked
    decreases |inputs|
  {
    hide Sound, Step, Apply;
    if inputs != [] {
      AfterIsSound(draws, g, inputs[0]);
      LockedOnlyGrows(draws, After(draws, g, inputs[0]), inputs[1..]);
    }
  }

  lemma AfterIsSound(draws: Draws, g: Game, input: Input)
    requires Sound(g)
    ensures Sound(After(draws, g, input)) && g.locked <= After(draws, g, input).locked
  {
    hide Sound, Step, Apply;
    match input
    case Tick => StepSound(draws, g);
    case Press(action) => ApplySound(draws, g, action);
  }

  /** One swap per piece, over any inputs and ticks: once held, nothing pressed before it
      locks changes which piece is in play or which is put away. */
  lemma {:induction false} OneHoldPerPiece(draws: Draws, g: Game, inputs: seq<Input>)
    requires Sound(g) && !g.over && g.holdUsed && AfterAll(draws, g, inputs).locked == g.locked
    ensures var h := AfterAll(draws, g, inputs); h.holdUsed && h.piece == g.piece && h.hold == g.hold && !h.over
    decreases |inputs|
  {
    hide Sound, After;
    if inputs != [] {
      var next := After(draws, g, inputs[0]);
      AfterIsSound(draws, g, inputs[0]);
      LockedOnlyGrows(draws, next, inputs[1..]);
      KeepsTheHeld(draws, g, inputs[0]);
      OneHoldPerPiece(draws, next, inputs[1..]);
    }
  }
}
