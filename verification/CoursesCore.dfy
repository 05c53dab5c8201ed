/** The core's own form of Courses: one object with a flat board, updated in place.
    Each method is proved to do what the rules say. */
module CoursesCore {
  import opened Arcade
  import opened Basics
  import opened CoursesBag
  import opened CoursesBoard
  import opened CoursesRules
  import CoursesRuns
  import opened CoursesWell

  class State {
    const draws: Draws
    const board: array<nat>
    var tick: nat
    var index: nat
    var piece: Kind
    var hasPiece: bool
    var rotation: Turn
    var x: int
    var y: int
    var hold: Kind
    var hasHold: bool
    var holdUsed: bool
    var score: nat
    var lines: nat
    var level: nat
    var gravityCounter: nat
    var lockCounter: nat
    var lockResets: nat
    var lockFloor: int
    var backToBack: bool
    var over: bool
    ghost var locked: nat
    ghost var lost: nat

    ghost predicate Valid()
    {
      board.Length == CELLS
    }

    ghost function Rows(): Board
      requires Valid()
      reads board
    {
      RowsOf(board[..])
    }

    ghost function Model(): Game
      requires Valid()
      reads this, board
    {
      Game(Rows(), tick, index, piece, hasPiece, rotation, x, y, hold, hasHold, holdUsed, score, lines,
           level, gravityCounter, lockCounter, lockResets, lockFloor, backToBack, over, locked, lost)
    }

    constructor (draws: Draws)
      ensures Valid() && fresh(board) && this.draws == draws
      ensures Model() == NewGame()
    {
      this.draws := draws;
      board := new nat[CELLS](_ => 0);
      tick, index, piece, hasPiece, rotation, x, y := 0, 0, 0, false, 0, 0, 0;
      hold, hasHold, holdUsed, score, lines, level := 0, false, false, 0, 0, 0;
      gravityCounter, lockCounter, lockResets, lockFloor := 0, 0, 0, 0;
      backToBack, over, locked, lost := false, false, 0, 0;
      new;
      ZerosAreEmptyRows(board[..]);
    }

    method CollidesAt(piece: Kind, rotation: Turn, x: int, y: int) returns (hit: bool)
      requires Valid()
      ensures hit == Collides(Rows(), piece, rotation, x, y)
    {
      hide Collides, RowsOf;
      hit := CollidesOn(board, piece, rotation, x, y);
    }

    // The next three are steps of spawn and hold, kept apart so that each is proved on
    // its own: the piece, its place, and its clocks.
    method Take(kind: Kind)
      requires Valid()
      modifies this
      ensures Model() == old(Model()).(piece := kind, hasPiece := true)
    {
      hide RowsOf;
      piece := kind;
      hasPiece := true;
    }

    method ToTheTop()
      requires Valid()
      modifies this
      ensures Model() == old(Model()).(rotation := 0, x := 3, y := 0)
    {
      hide RowsOf;
      rotation, x, y := 0, 3, 0;
    }

    method RestartClocks()
      requires Valid()
      modifies this
      ensures Model() == old(Model()).(gravityCounter := 0, lockCounter := 0, lockResets := 0, lockFloor := 0)
    {
      hide RowsOf;
      gravityCounter := 0;
      lockFloor := 0;
      RestartLock();
    }

    method RestartLock()
      requires Valid()
      modifies this
      ensures Model() == old(Model()).(lockCounter := 0, lockResets := 0)
    {
      hide RowsOf;
      lockCounter := 0;
      lockResets := 0;
    }

    method EnterPlay(kind: Kind)
      requires Valid()
      modifies this
      ensures Model() == Enter(old(Model()), kind)
    {
      hide Collides, RowsOf;
      Take(kind);
      ToTheTop();
      RestartClocks();
      var blocked := CollidesAt(piece, 0, x, y);
      if blocked {
        over := true;
      }
    }

    method Spawn()
      requires Valid()
      modifies this
      ensures Model() == CoursesRules.Spawn(draws, old(Model()))
    {
      hide Collides, PieceAt, RowsOf;
      if index >= MAX_PIECES {
        over := true;
        return;
      }
      var next := DealPiece(draws, index);
      EnterPlay(next);
      index := index + 1;
      holdUsed := false;
    }

    method StampPiece()
      requires Valid()
      modifies board
      ensures Rows() == Stamp(old(Rows()), piece, rotation, x, y)
    {
      hide Stamp, RowsOf;
      StampOn(board, piece, rotation, x, y);
    }

    method ClearRows() returns (cleared: nat)
      requires Valid()
      modifies board
      ensures Rows() == Cleared(old(Rows()))
      ensures cleared == FullRows(old(Rows()))
    {
      hide Cleared, FullRows, RowsOf;
      cleared := ClearRowsOf(board);
    }

    method CountLines(cleared: nat)
      requires Valid()
      modifies this
      ensures Model() == old(Model()).(lines := old(lines) + cleared, level := LevelFor(old(lines) + cleared),
                                       backToBack := cleared == 4)
    {
      hide RowsOf, LevelFor;
      lines := lines + cleared;
      level := LevelFor(lines);
      backToBack := cleared == 4;
    }

    method Award(cleared: nat)
      requires Valid()
      modifies this
      ensures Model() == if cleared == 0 then old(Model()) else
        old(Model()).(score := old(score) + ClearPoints(cleared, old(level), old(backToBack)),
                      lines := old(lines) + cleared,
                      level := LevelFor(old(lines) + cleared),
                      backToBack := cleared == 4)
    {
      hide RowsOf, LineScore, LevelFor;
      if cleared > 0 {
        var points := LineScore(Min(cleared, 4)) * (level + 1);
        if cleared == 4 && backToBack {
          points := points * BACK_TO_BACK_MULTIPLIER / BACK_TO_BACK_DIVISOR;
        }
        score := score + points;
        CountLines(cleared);
      }
    }

    method LeavePlay(ghost off: nat)
      requires Valid()
      modifies this
      ensures Model() == old(Model()).(hasPiece := false, locked := old(locked) + 1, lost := old(lost) + off)
    {
      hide RowsOf;
      hasPiece := false;
      locked, lost := locked + 1, lost + off;
    }

    method StampAndClear() returns (cleared: nat)
      requires Valid()
      modifies board
      ensures var stamped := Stamp(old(Rows()), piece, rotation, x, y);
        Rows() == Cleared(stamped) && cleared == FullRows(stamped)
    {
      hide Stamp, Cleared, FullRows;
      StampPiece();
      cleared := ClearRows();
    }

    method SettlePiece()
      requires Valid()
      modifies this, board
      ensures Model() == Settle(old(Model()))
    {
      hide Stamp, Cleared, FullRows, Shape, OffBoard, RowsOf, ClearPoints, LevelFor;
      var cleared := StampAndClear();
      Award(cleared);
      LeavePlay(OffBoard(Shape(piece, rotation), x, y));
    }

    method LockPiece()
      requires Valid()
      modifies this, board
      ensures Model() == CoursesRules.Lock(draws, old(Model()))
    {
      hide Settle, CoursesRules.Spawn, RowsOf;
      SettlePiece();
      Spawn();
    }

    method ResetLock()
      requires Valid()
      modifies this
      ensures Model() == CoursesRules.ResetLock(old(Model()))
    {
      if lockCounter > 0 && lockResets < LOCK_RESETS {
        lockCounter := 0;
        lockResets := lockResets + 1;
      }
    }

    method Shift(dx: int)
      requires Valid()
      modifies this
      ensures Model() == CoursesRules.Shift(old(Model()), dx)
    {
      hide Collides, RowsOf, CoursesRules.ResetLock;
      var hit := CollidesAt(piece, rotation, x + dx, y);
      if !hit {
        Slide(dx);
        ResetLock();
      }
    }

    method Slide(dx: int)
      requires Valid()
      modifies this`x
      ensures Model() == old(Model()).(x := old(x) + dx)
    {
      hide RowsOf;
      x := x + dx;
    }

    method TurnTo(next: Turn, dx: int, dy: int)
      requires Valid()
      modifies this
      ensures Model() == old(Model()).(rotation := next, x := old(x) + dx, y := old(y) + dy)
    {
      hide RowsOf;
      rotation := next;
      x := x + dx;
      y := y + dy;
    }

    method Rotate(next: Turn)
      requires Valid()
      modifies this
      ensures Model() == CoursesRules.Rotate(old(Model()), next)
    {
      hide Collides, FirstKick, RowsOf, CoursesRules.ResetLock;
      var k := 0;
      while k < 7
        invariant 0 <= k <= 7
        invariant Model() == old(Model())
        invariant forall i :: 0 <= i < k ==> KickHits(Model(), next, i)
      {
        var kick := Kick(k);
        var hit := CollidesAt(piece, next, x + kick.x, y + kick.y);
        assert hit == KickHits(Model(), next, k);
        if !hit {
          KickIsFirst(Model(), next, k);
          TurnTo(next, kick.x, kick.y);
          ResetLock();
          return;
        }
        k := k + 1;
      }
      NoKickFits(Model(), next);
    }

    /** Let the piece down as far as it goes. */
    method DropToRest() returns (dropped: nat)
      requires Valid()
      modifies this`y
      ensures y == RestRow(old(Model())) && dropped == y - old(y)
    {
      hide Collides;
      dropped := 0;
      var hit := CollidesAt(piece, rotation, x, y + 1);
      while !hit
        invariant y == old(y) + dropped
        invariant hit == Collides(Rows(), piece, rotation, x, y + 1)
        invariant Landing(Rows(), piece, rotation, x, y) == RestRow(old(Model()))
        decreases TOTAL_HEIGHT - y
      {
        FitsAboveFloor(Rows(), piece, rotation, x, y + 1);
        y := y + 1;
        dropped := dropped + 1;
        hit := CollidesAt(piece, rotation, x, y + 1);
      }
    }

    method HardDrop()
      requires Valid()
      modifies this, board
      ensures Model() == CoursesRules.HardDrop(draws, old(Model()))
    {
      hide Collides, CoursesRules.Lock, RestRow, RowsOf;
      var dropped := DropToRest();
      score := score + dropped * HARD_DROP_POINTS;
      LockPiece();
    }

    method Hold()
      requires Valid()
      modifies this
      ensures Model() == CoursesRules.Hold(draws, old(Model()))
    {
      hide Collides, CoursesRules.Spawn, RowsOf;
      if holdUsed {
        return;
      }
      var held := if hasHold then Some(hold) else None;
      hold := piece;
      hasHold := true;
      match held {
        case None =>
          Spawn();
          holdUsed := true;
        case Some(kind) =>
          holdUsed := true;
          EnterPlay(kind);
      }
    }

    method Apply(action: int, value: int)
      requires Valid()
      modifies this, board
      ensures Model() == CoursesRules.Apply(draws, old(Model()), action)
    {
      hide CoursesRules.Shift, CoursesRules.Rotate, CoursesRules.HardDrop, CoursesRules.Hold, Collides;
      if over || !hasPiece {
        return;
      }
      if action == ACTION_LEFT {
        Shift(-1);
      } else if action == ACTION_RIGHT {
        Shift(1);
      } else if action == ACTION_ROTATE_CW || action == ACTION_ROTATE_CCW {
        Rotate(if action == ACTION_ROTATE_CW then (rotation + 1) % 4 else (rotation + 3) % 4);
      } else if action == ACTION_SOFT_DROP {
        var hit := CollidesAt(piece, rotation, x, y + 1);
        if !hit {
          y := y + 1;
          score := score + SOFT_DROP_POINTS;
          gravityCounter := 0;
        }
      } else if action == ACTION_HARD_DROP {
        HardDrop();
      } else if action == ACTION_HOLD {
        Hold();
      }
    }

    method Fall()
      requires Valid()
      modifies this
      ensures Model() == CoursesRules.Fall(old(Model()))
    {
      hide Collides, GravityInterval, RowsOf;
      gravityCounter := gravityCounter + 1;
      if gravityCounter >= GravityInterval(level) {
        gravityCounter := 0;
        var blocked := CollidesAt(piece, rotation, x, y + 1);
        if !blocked {
          y := y + 1;
        }
      }
    }

    method Rest()
      requires Valid()
      modifies this, board
      ensures Model() == CoursesRules.Rest(draws, old(Model()))
    {
      hide Collides, Lock, RowsOf;
      var grounded := CollidesAt(piece, rotation, x, y + 1);
      if grounded {
        lockCounter := lockCounter + 1;
        if lockCounter >= LOCK_DELAY {
          LockPiece();
        }
      } else if y > lockFloor {
        lockFloor := y;
        lockCounter := 0;
        lockResets := 0;
      }
    }

    method Step()
      requires Valid()
      modifies this, board
      ensures Model() == CoursesRules.Step(draws, old(Model()))
    {
      hide Collides, CoursesRules.Spawn, CoursesRules.Fall, CoursesRules.Rest, RowsOf;
      if over {
        return;
      }
      if !hasPiece {
        Spawn();
      }
      if over {
        return;
      }
      Fall();
      Rest();
      tick := tick + 1;
    }
  }

  /** Replay a log, as the verifier does. */
  method Replay(draws: Draws, events: seq<Event>) returns (outcome: Outcome)
    ensures var g := CoursesRuns.Replay(draws, events);
      outcome == Outcome(g.score, g.lines, g.tick)
  {
    hide CoursesRules.Step, CoursesRules.Apply, CoursesRules.Spawn;
    var state := new State(draws);
    state.Spawn();
    ghost var start := state.Model();
    ghost var played := CoursesRuns.Play(draws, start, events);
    var i := 0;
    while i < |events|
      invariant 0 <= i <= |events|
      invariant state.Valid() && state.draws == draws && fresh(state) && fresh(state.board)
      invariant CoursesRuns.Play(draws, state.Model(), events[i..]) == played
      decreases |events| - i
    {
      var event := events[i];
      assert events[i..][0] == event && events[i..][1..] == events[i + 1..];
      var target := TargetTick(event.tick);
      ghost var reached := CoursesRuns.StepTo(draws, state.Model(), target);
      while state.tick < target && !state.over
        invariant state.Valid() && state.draws == draws && fresh(state) && fresh(state.board)
        invariant CoursesRuns.StepTo(draws, state.Model(), target) == reached
        decreases if state.over then 0 else 1, target - state.tick
      {
        CoursesRuns.StepTicksOrEnds(draws, state.Model());
        CoursesRuns.StepToUnfolds(draws, state.Model(), target);
        state.Step();
      }
      if state.over {
        break;
      }
      state.Apply(event.action, event.value);
      i := i + 1;
    }
    assert state.Model() == played;
    var guard := 0;
    while !state.over && guard < CoursesRuns.GUARD
      invariant 0 <= guard <= CoursesRuns.GUARD
      invariant state.Valid() && state.draws == draws && fresh(state) && fresh(state.board)
      invariant CoursesRuns.RunOut(draws, state.Model(), CoursesRuns.GUARD - guard)
             == CoursesRuns.RunOut(draws, played, CoursesRuns.GUARD)
    {
      CoursesRuns.RunOutUnfolds(draws, state.Model(), CoursesRuns.GUARD - guard);
      state.Step();
      guard := guard + 1;
    }
    CoursesRuns.RunOutUnfolds(draws, state.Model(), CoursesRuns.GUARD - guard);
    return Outcome(state.score, state.lines, state.tick);
  }
}
