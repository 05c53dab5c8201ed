/** The page's own form of Courses: an object whose piece and hold may be null, and which
    goes on showing its last piece after the run is over. Each method is proved to do what
    the rules say, and no clear ever asks for a line score the table does not have. */
module CoursesPageState {
  import opened Arcade
  import opened Basics
  import opened CoursesBag
  import opened CoursesBoard
  import opened CoursesInvariants
  import opened CoursesRules
  import opened CoursesWell

  class State {
    const draws: Draws
    const board: array<nat>
    var tick: nat
    var index: nat
    var piece: Option<Kind>
    var rotation: Turn
    var x: int
    var y: int
    var hold: Option<Kind>
    var holdUsed: bool
    var score: nat
    var lines: nat
    var level: nat
    var gravityCounter: nat
    var lockCounter: nat
    var lockResets: nat
    var lockFloor: int
    var backToBack: bool
    var over: bool
    ghost var locked: nat
    ghost var lost: nat
    /** The piece shown has locked, and no other has come. */
    ghost var isShownOnly: bool

    ghost predicate Fits()
    {
      board.Length == CELLS
    }

    ghost predicate Valid()
      reads this, board
    {
      Fits() && NoRowFull(Rows()) && (isShownOnly ==> over)
    }

    ghost function Rows(): Board
      requires Fits()
      reads board
    {
      RowsOf(board[..])
    }

    ghost function Model(): Game
      requires Fits()
      reads this, board
    {
      Game(Rows(), tick, index, if piece.Some? then piece.value else 0, piece.Some? && !isShownOnly, rotation, x, y,
           if hold.Some? then hold.value else 0, hold.Some?, holdUsed, score, lines, level, gravityCounter,
           lockCounter, lockResets, lockFloor, backToBack, over, locked, lost)
    }

    constructor (draws: Draws)
      ensures Valid() && fresh(board) && this.draws == draws
      ensures Model() == NewGame()
    {
      this.draws := draws;
      board := new nat[CELLS](_ => 0);
      tick, index, piece, rotation, x, y := 0, 0, None, 0, 0, 0;
      hold, holdUsed, score, lines, level := None, false, 0, 0, 0;
      gravityCounter, lockCounter, lockResets, lockFloor := 0, 0, 0, 0;
      backToBack, over, locked, lost, isShownOnly := false, false, 0, 0, false;
      new;
      ZerosAreEmptyRows(board[..]);
      EmptyWell(TOTAL_HEIGHT);
    }

    method CollidesAt(kind: Kind, rotation: Turn, x: int, y: int) returns (hit: bool)
      requires Fits()
      ensures hit == Collides(Rows(), kind, rotation, x, y)
    {
      hide Collides, RowsOf;
      hit := CollidesOn(board, kind, rotation, x, y);
    }

    // ----- entering play -----

    method Show(kind: Kind)
      requires Fits()
      modifies this`piece, this`isShownOnly
      ensures piece == Some(kind) && !isShownOnly
      ensures Model() == old(Model()).(piece := kind, hasPiece := true)
    {
      hide RowsOf;
      piece := Some(kind);
      isShownOnly := false;
    }

    method ToTheTop()
      requires Fits()
      modifies this`rotation, this`x, this`y
      ensures Model() == old(Model()).(rotation := 0, x := 3, y := 0)
    {
      hide RowsOf;
      rotation, x, y := 0, 3, 0;
    }

    method RestartLock()
      requires Fits()
      modifies this`lockCounter, this`lockResets
      ensures Model() == old(Model()).(lockCounter := 0, lockResets := 0)
    {
      hide RowsOf;
      lockCounter := 0;
      lockResets := 0;
    }

    method RestartClocks()
      requires Fits()
      modifies this`gravityCounter, this`lockFloor, this`lockCounter, this`lockResets
      ensures Model() == old(Model()).(gravityCounter := 0, lockCounter := 0, lockResets := 0, lockFloor := 0)
    {
      hide RowsOf;
      gravityCounter := 0;
      lockFloor := 0;
      RestartLock();
    }

    method EnterPlay(kind: Kind)
      requires Fits()
      modifies this
      ensures Model() == Enter(old(Model()), kind)
      ensures piece == Some(kind) && !isShownOnly
    {
      hide Collides, RowsOf;
      Show(kind);
      ToTheTop();
      RestartClocks();
      var blocked := CollidesAt(kind, 0, x, y);
      if blocked {
        over := true;
      }
    }

    /** The next piece; with none left the run is over and the last is still shown. */
    method Spawn()
      requires Fits()
      modifies this
      ensures Model() == CoursesRules.Spawn(draws, old(Model()))
      ensures !over ==> piece.Some? && !isShownOnly
    {
      hide Collides, PieceAt, RowsOf;
      if index >= MAX_PIECES {
        over := true;
        return;
      }
      var next := DealPiece(draws, index);
      EnterPlay(next);
      index := index + 1;
      holdUsed := false;
    }

    // ----- locking -----

    method CountLines(cleared: nat)
      requires Fits()
      modifies this`lines, this`level, this`backToBack
      ensures Model() == old(Model()).(lines := old(lines) + cleared, level := LevelFor(old(lines) + cleared),
                                       backToBack := cleared == 4)
    {
      hide RowsOf, LevelFor;
      lines := lines + cleared;
      level := LevelFor(lines);
      backToBack := cleared == 4;
    }

    /** LINE_SCORES is indexed as it stands, without a cap. */
    method Award(cleared: nat)
      requires Fits() && cleared <= 4
      modifies this`score, this`lines, this`level, this`backToBack
      ensures Model() == if cleared == 0 then old(Model()) else
        old(Model()).(score := old(score) + ClearPoints(cleared, old(level), old(backToBack)),
                      lines := old(lines) + cleared,
                      level := LevelFor(old(lines) + cleared),
                      backToBack := cleared == 4)
    {
      hide RowsOf, LineScore, LevelFor;
      if cleared > 0 {
        var points := LineScore(cleared) * (level + 1);
        if cleared == 4 && backToBack {
          points := points * BACK_TO_BACK_MULTIPLIER / BACK_TO_BACK_DIVISOR;
        }
        score := score + points;
        CountLines(cleared);
      }
    }

    ghost method LeavePlay(off: nat)
      requires Fits()
      modifies this`isShownOnly, this`locked, this`lost
      ensures isShownOnly
      ensures Model() == old(Model()).(hasPiece := false, locked := old(locked) + 1, lost := old(lost) + off)
    {
      hide RowsOf;
      isShownOnly := true;
      locked, lost := locked + 1, lost + off;
    }

    method StampAndClear(kind: Kind) returns (cleared: nat)
      requires Fits() && NoRowFull(Rows())
      modifies board
      ensures var stamped := Stamp(old(Rows()), kind, rotation, x, y);
        Rows() == Cleared(stamped) && cleared == FullRows(stamped) <= 4
      ensures NoRowFull(Rows())
    {
      hide Stamp, Cleared, FullRows, Full, RowsOf;
      AtMostFourRows(Rows(), kind, rotation, x, y);
      StampOn(board, kind, rotation, x, y);
      ClearedIsOpen(Rows());
      cleared := ClearRowsOf(board);
    }

    method SettlePiece()
      requires Fits() && NoRowFull(Rows()) && piece.Some?
      modifies this, board
      ensures Model() == Settle(old(Model())) && NoRowFull(Rows())
    {
      hide Stamp, Cleared, FullRows, Shape, OffBoard, RowsOf, ClearPoints, LevelFor, NoRowFull;
      var cleared := StampAndClear(piece.value);
      Award(cleared);
      LeavePlay(OffBoard(Shape(piece.value, rotation), x, y));
    }

    method LockPiece()
      requires Fits() && NoRowFull(Rows()) && piece.Some?
      modifies this, board
      ensures Valid() && Model() == CoursesRules.Lock(draws, old(Model()))
    {
      hide Settle, CoursesRules.Spawn, RowsOf, NoRowFull;
      SettlePiece();
      Spawn();
    }

    // ----- inputs -----

    method ResetLock()
      requires Fits()
      modifies this`lockCounter, this`lockResets
      ensures Model() == CoursesRules.ResetLock(old(Model()))
    {
      hide RowsOf;
      if lockCounter > 0 && lockResets < LOCK_RESETS {
        lockCounter := 0;
        lockResets := lockResets + 1;
      }
    }

    method Slide(dx: int)
      requires Fits()
      modifies this`x
      ensures Model() == old(Model()).(x := old(x) + dx)
    {
      hide RowsOf;
      x := x + dx;
    }

    method Move(dx: int)
      requires Valid() && piece.Some? && !isShownOnly
      modifies this`x, this`lockCounter, this`lockResets
      ensures Valid() && Model() == CoursesRules.Shift(old(Model()), dx)
    {
      hide Collides, RowsOf, CoursesRules.ResetLock, NoRowFull;
      var hit := CollidesAt(piece.value, rotation, x + dx, y);
      if !hit {
        Slide(dx);
        ResetLock();
      }
    }

    method TurnTo(next: Turn, dx: int, dy: int)
      requires Fits()
      modifies this`rotation, this`x, this`y
      ensures Model() == old(Model()).(rotation := next, x := old(x) + dx, y := old(y) + dy)
    {
      hide RowsOf;
      rotation := next;
      x := x + dx;
      y := y + dy;
    }

    method Rotate(direction: int)
      requires Valid() && piece.Some? && !isShownOnly
      modifies this`rotation, this`x, this`y, this`lockCounter, this`lockResets
      ensures Valid()
      ensures Model() == CoursesRules.Rotate(old(Model()), (old(rotation) + if direction > 0 then 1 else 3) % 4)
    {
      hide Collides, FirstKick, RowsOf, CoursesRules.ResetLock, NoRowFull;
      var next := (rotation + if direction > 0 then 1 else 3) % 4;
      var k := 0;
      while k < 7
        invariant 0 <= k <= 7
        invariant Valid() && Model() == old(Model())
        invariant forall i :: 0 <= i < k ==> KickHits(Model(), next, i)
      {
        var kick := Kick(k);
        var hit := CollidesAt(piece.value, next, x + kick.x, y + kick.y);
        assert hit == KickHits(Model(), next, k);
        if !hit {
          KickIsFirst(Model(), next, k);
          TurnTo(next, kick.x, kick.y);
          ResetLock();
          return;
        }
        k := k + 1;
      }
      NoKickFits(Model(), next);
    }

    method DropToRest() returns (dropped: nat)
      requires Fits() && piece.Some?
      modifies this`y
      ensures y == RestRow(old(Model())) && dropped == y - old(y)
    {
      hide Collides, RowsOf;
      dropped := 0;
      var hit := CollidesAt(piece.value, rotation, x, y + 1);
      while !hit
        invariant y == old(y) + dropped
        invariant hit == Collides(Rows(), piece.value, rotation, x, y + 1)
        invariant Landing(Rows(), piece.value, rotation, x, y) == RestRow(old(Model()))
        decreases TOTAL_HEIGHT - y
      {
        FitsAboveFloor(Rows(), piece.value, rotation, x, y + 1);
        y := y + 1;
        dropped := dropped + 1;
        hit := CollidesAt(piece.value, rotation, x, y + 1);
      }
    }

    method HardDrop()
      requires Valid() && piece.Some? && !isShownOnly
      modifies this, board
      ensures Valid() && Model() == CoursesRules.HardDrop(draws, old(Model()))
    {
      hide Collides, CoursesRules.Lock, RestRow, RowsOf, NoRowFull;
      var dropped := DropToRest();
      score := score + dropped * HARD_DROP_POINTS;
      LockPiece();
    }

    method SoftDrop()
      requires Valid() && piece.Some? && !isShownOnly
      modifies this`y, this`score, this`gravityCounter
      ensures Valid() && Model() == CoursesRules.SoftDrop(old(Model()))
    {
      hide Collides, RowsOf, NoRowFull;
      var hit := CollidesAt(piece.value, rotation, x, y + 1);
      if !hit {
        y := y + 1;
        score := score + SOFT_DROP_POINTS;
        gravityCounter := 0;
      }
    }

    method HoldPiece()
      requires Valid() && piece.Some? && !isShownOnly
      modifies this
      ensures Valid() && Model() == CoursesRules.Hold(draws, old(Model()))
    {
      hide Collides, CoursesRules.Spawn, RowsOf, NoRowFull;
      if holdUsed {
        return;
      }
      var held := hold;
      hold := piece;
      match held {
        case None =>
          Spawn();
          holdUsed := true;
        case Some(kind) =>
          holdUsed := true;
          EnterPlay(kind);
      }
    }

    method ApplyAction(action: int)
      requires Valid()
      modifies this, board
      ensures Valid() && Model() == CoursesRules.Apply(draws, old(Model()), action)
    {
      hide CoursesRules.Shift, CoursesRules.Rotate, CoursesRules.HardDrop, CoursesRules.Hold, CoursesRules.SoftDrop;
      hide Collides, RowsOf, NoRowFull;
      if over || piece.None? {
        return;
      }
      if action == ACTION_LEFT {
        Move(-1);
      } else if action == ACTION_RIGHT {
        Move(1);
      } else if action == ACTION_ROTATE_CW {
        Rotate(1);
      } else if action == ACTION_ROTATE_CCW {
        Rotate(-1);
      } else if action == ACTION_SOFT_DROP {
        SoftDrop();
      } else if action == ACTION_HARD_DROP {
        HardDrop();
      } else if action == ACTION_HOLD {
        HoldPiece();
      }
    }

    // ----- a tick -----

    method Fall()
      requires Valid() && piece.Some? && !isShownOnly
      modifies this`gravityCounter, this`y
      ensures Valid() && Model() == CoursesRules.Fall(old(Model()))
    {
      hide Collides, GravityInterval, RowsOf, NoRowFull;
      gravityCounter := gravityCounter + 1;
      if gravityCounter >= GravityInterval(level) {
        gravityCounter := 0;
        var blocked := CollidesAt(piece.value, rotation, x, y + 1);
        if !blocked {
          y := y + 1;
        }
      }
    }

    method ReachRow()
      requires Fits()
      modifies this`lockFloor, this`lockCounter, this`lockResets
      ensures Model() == old(Model()).(lockFloor := old(y), lockCounter := 0, lockResets := 0)
    {
      hide RowsOf;
      lockFloor := y;
      lockCounter := 0;
      lockResets := 0;
    }

    method Rest()
      requires Valid() && piece.Some? && !isShownOnly
      modifies this, board
      ensures Valid() && Model() == CoursesRules.Rest(draws, old(Model()))
    {
      hide Collides, Lock, RowsOf, NoRowFull;
      var grounded := CollidesAt(piece.value, rotation, x, y + 1);
      if grounded {
        lockCounter := lockCounter + 1;
        if lockCounter >= LOCK_DELAY {
          LockPiece();
        }
      } else if y > lockFloor {
        ReachRow();
      }
    }

    method StepTick()
      requires Valid()
      modifies this, board
      ensures Valid() && Model() == CoursesRules.Step(draws, old(Model()))
    {
      hide Collides, CoursesRules.Spawn, CoursesRules.Fall, CoursesRules.Rest, RowsOf, NoRowFull;
      if over {
        return;
      }
      if piece.None? {
        Spawn();
      }
      if over {
        return;
      }
      Fall();
      Rest();
      tick := tick + 1;
    }
  }
}
