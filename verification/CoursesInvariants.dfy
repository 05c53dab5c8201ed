/** What every input and every tick of Courses keeps: the piece in play fits, no row
    is left full, and no cell or piece is gained or lost unaccounted. */
module CoursesInvariants {
  import opened Arcade
  import opened Basics
  import opened CoursesBag
  import opened CoursesBoard
  import opened CoursesRules

  predicate NoRowFull(b: Board)
  {
    forall i :: 0 <= i < |b| ==> !Full(b[i])
  }

  /** The ledger of the well: every locked piece's four cells are on the board, off
      the top, or went with a cleared row. */
  predicate Books(g: Game)
  {
    && NoRowFull(g.board)
    && Filled(g.board) + 10 * g.lines + g.lost == 4 * g.locked
    && g.level == LevelFor(g.lines)
    && g.locked <= g.index <= MAX_PIECES
  }

  /** The piece in play: it overlaps nothing, its row is in range, and every piece
      dealt is locked, held or this one. */
  predicate Placed(g: Game)
  {
    && g.hasPiece
    && !HitsAt(g, g.x, g.y)
    && -5 <= g.y <= TOTAL_HEIGHT - 2
    && g.locked + 1 + (if g.hasHold then 1 else 0) == g.index
  }

  predicate Clocks(g: Game)
  {
    && 0 <= g.lockFloor
    && g.gravityCounter < 48
    && g.lockCounter < LOCK_DELAY
    && g.lockResets <= LOCK_RESETS
  }

  predicate Sound(g: Game)
  {
    Books(g) && (!g.over ==> Placed(g) && Clocks(g))
  }

  // ----- entering play -----

  lemma EnterSound(g: Game, piece: Kind)
    requires Books(g) && !g.over
    requires g.locked + 1 + (if g.hasHold then 1 else 0) == g.index
    ensures Sound(Enter(g, piece))
  {
    hide Collides, Filled, Full;
  }

  lemma SpawnSound(draws: Draws, g: Game)
    requires Books(g) && !g.over
    requires g.locked + (if g.hasHold then 1 else 0) == g.index
    ensures Sound(Spawn(draws, g))
    ensures Spawn(draws, g).locked == g.locked && Spawn(draws, g).score == g.score
  {
    hide Collides, Filled, Full, PieceAt;
  }

  lemma StartSound(draws: Draws)
    ensures Sound(Start(draws)) && Start(draws).score == 0 && Start(draws).locked == 0
  {
    EmptyWell(TOTAL_HEIGHT);
    hide Filled, EmptyRows, Full;
    SpawnSound(draws, NewGame());
  }

  lemma EmptyWell(n: nat)
    ensures Filled(EmptyRows(n)) == 0
    ensures forall i :: 0 <= i < n ==> !Full(EmptyRows(n)[i])
  {
    EmptyRowsFilled(n, []);
    assert EmptyRows(n) + [] == EmptyRows(n);
    assert EmptyRow()[0] == 0;
  }

  // ----- settling -----

  lemma StampOnFreeCells(g: Game)
    requires Placed(g)
    ensures Filled(Stamp(g.board, g.piece, g.rotation, g.x, g.y))
          + OffBoard(Shape(g.piece, g.rotation), g.x, g.y) == Filled(g.board) + 4
  {
    var cells := Shape(g.piece, g.rotation);
    ShapeFacts(g.piece, g.rotation);
    hide Shape, Filled, StampCells, OffBoard, Blocked;
    assert forall c :: c in cells ==> !Blocked(g.board, g.x + c.x, g.y + c.y);
    StampAdds(g.board, cells, g.x, g.y, g.piece + 1);
  }

  /** A lock puts four cells on the books, and clears at most four rows, so the
      LINE_SCORES index is never cut down. */
  lemma SettleKeepsBooks(g: Game)
    requires Books(g) && Placed(g)
    ensures FullRows(Stamp(g.board, g.piece, g.rotation, g.x, g.y)) <= 4
    ensures Books(Settle(g)) && !Settle(g).hasPiece && Settle(g).over == g.over
    ensures Settle(g).locked + (if g.hasHold then 1 else 0) == g.index
  {
    var stamped := Stamp(g.board, g.piece, g.rotation, g.x, g.y);
    StampOnFreeCells(g);
    FewRowsFill(g);
    ClearedIsOpen(stamped);
    ClearTakesTenEach(stamped);
    SettleIs(g);
    hide Settle, HitsAt, NoRowFull, Filled, Stamp, Shape, OffBoard, Cleared, FullRows;
  }

  lemma SettleIs(g: Game)
    ensures var stamped := Stamp(g.board, g.piece, g.rotation, g.x, g.y);
      var s := Settle(g);
      && s.board == Cleared(stamped) && s.lines == g.lines + FullRows(stamped)
      && s.level == (if FullRows(stamped) == 0 then g.level else LevelFor(s.lines))
      && s.lost == g.lost + OffBoard(Shape(g.piece, g.rotation), g.x, g.y)
      && s.locked == g.locked + 1 && s.index == g.index && !s.hasPiece && s.over == g.over && s.hasHold == g.hasHold
  {
    hide Stamp, Shape, OffBoard, ClearPoints, Cleared, FullRows;
  }

  lemma FewRowsFill(g: Game)
    requires NoRowFull(g.board)
    ensures FullRows(Stamp(g.board, g.piece, g.rotation, g.x, g.y)) <= 4
  {
    hide Full, Stamp, FullRows;
    AtMostFourRows(g.board, g.piece, g.rotation, g.x, g.y);
  }

  lemma ClearedIsOpen(b: Board)
    ensures NoRowFull(Cleared(b))
  {
    hide Full, Cleared;
    ClearedHasNoFullRow(b);
  }

  /** Ten cells a row: at most 120 lines on a whole run, so level 12 is the ceiling,
      and it is not passed before the last piece. */
  lemma LineCeiling(g: Game)
    requires Books(g)
    ensures g.lines <= 120 && g.level <= 12
    ensures g.locked < MAX_PIECES ==> g.level <= 11
  {
  }

  /** The most one clear pays below level 12. */
  lemma ClearPointsCeiling(cleared: nat, level: nat, backToBack: bool)
    requires level <= 11
    ensures ClearPoints(cleared, level, backToBack) <= 14400
  {
    var base := LineScore(Min(cleared, 4));
    assert base * (level + 1) <= 800 * 12;
  }

  lemma LockSound(draws: Draws, g: Game)
    requires Books(g) && Placed(g) && !g.over
    ensures Sound(Lock(draws, g))
    ensures Lock(draws, g).locked == g.locked + 1
    ensures g.score <= Lock(draws, g).score <= g.score + 14400
  {
    SettleKeepsBooks(g);
    SpawnSound(draws, Settle(g));
    LineCeiling(g);
    ClearPointsCeiling(FullRows(Stamp(g.board, g.piece, g.rotation, g.x, g.y)), g.level, g.backToBack);
    hide Books, Placed, Spawn, ClearPoints;
  }

  // ----- inputs -----

  lemma ShiftSound(g: Game, dx: int)
    requires Sound(g) && !g.over
    ensures Sound(Shift(g, dx))
  {
    hide Collides, Filled, Full;
  }

  lemma LevelKicksDecide(g: Game, rotation: Turn, k: nat)
    requires g.y <= -4 && k < 7
    requires !KickHits(g, rotation, k)
    ensures Kick(k).y == 0 || exists i :: 0 <= i < k && !KickHits(g, rotation, i)
  {
    hide Collides;
    if k >= 3 {
      OnlyWallsAbove(g.board, g.piece, rotation, g.x + Kick(k).x, g.y, g.y + Kick(k).y);
      assert !KickHits(g, rotation, if k == 4 then 1 else if k == 5 then 2 else 0);
    }
  }

  /** No kick lifts a piece above row -5: once every cell is above the board only the
      walls decide, so an upward kick fits only where a level one already did. */
  lemma KickKeepsRow(g: Game, rotation: Turn)
    requires Placed(g)
    requires FirstKick(g, rotation, 0) < 7
    ensures -5 <= g.y + Kick(FirstKick(g, rotation, 0)).y
  {
    hide FirstKick, HitsAt, Collides;
    var k := FirstKick(g, rotation, 0);
    if g.y <= -4 {
      hide Placed;
      LevelKicksDecide(g, rotation, k);
    }
  }

  lemma RotateSound(g: Game, rotation: Turn)
    requires Sound(g) && !g.over
    ensures Sound(Rotate(g, rotation))
  {
    hide Collides, Filled, Full, FirstKick;
    var k := FirstKick(g, rotation, 0);
    if k < 7 {
      KickKeepsRow(g, rotation);
      assert !KickHits(g, rotation, k);
      FitsAboveFloor(g.board, g.piece, rotation, g.x + Kick(k).x, g.y + Kick(k).y);
    }
  }

  lemma SoftDropSound(g: Game)
    requires Sound(g) && !g.over
    ensures Sound(SoftDrop(g)) && SoftDrop(g).score <= g.score + 1
  {
    if !Grounded(g) {
      FitsAboveFloor(g.board, g.piece, g.rotation, g.x, g.y + 1);
    }
    hide Collides, Filled, Full;
  }

  lemma HardDropSound(draws: Draws, g: Game)
    requires Sound(g) && !g.over
    ensures Sound(HardDrop(draws, g))
    ensures HardDrop(draws, g).locked == g.locked + 1
    ensures HardDrop(draws, g).score <= g.score + 14450
  {
    hide Collides, Filled, NoRowFull, Landing, Lock;
    var rest := RestRow(g);
    LockSound(draws, g.(y := rest, score := g.score + (rest - g.y) * HARD_DROP_POINTS));
  }

  lemma HoldSound(draws: Draws, g: Game)
    requires Sound(g) && !g.over
    ensures Sound(Hold(draws, g))
    ensures Hold(draws, g).locked == g.locked && Hold(draws, g).score == g.score
  {
    hide Collides, Filled, Full, Spawn;
    if !g.holdUsed {
      if g.hasHold {
        EnterSound(g, g.hold);
      } else {
        SpawnSound(draws, g.(hold := g.piece, hasHold := true));
      }
    }
  }

  /** Any input keeps the invariant. It locks at most one piece, and pays at most one
      point when it locks none. */
  lemma ApplySound(draws: Draws, g: Game, action: int)
    requires Sound(g)
    ensures Sound(Apply(draws, g, action))
    ensures g.locked <= Apply(draws, g, action).locked <= g.locked + 1
    ensures Apply(draws, g, action).score
         <= g.score + 1 + 14450 * (Apply(draws, g, action).locked - g.locked)
  {
    hide Shift, Rotate, SoftDrop, HardDrop, Hold, Books, HitsAt;
    if !g.over {
      hide Placed, Clocks;
      ShiftSound(g, -1);
      ShiftSound(g, 1);
      RotateSound(g, (g.rotation + 1) % 4);
      RotateSound(g, (g.rotation + 3) % 4);
      SoftDropSound(g);
      HardDropSound(draws, g);
      HoldSound(draws, g);
      QuietInputs(draws, g);
    }
  }

  /** What moving, turning and a soft drop leave alone. */
  lemma QuietInputs(draws: Draws, g: Game)
    ensures forall dx :: Shift(g, dx).locked == g.locked && Shift(g, dx).score == g.score
    ensures forall r: Turn :: Rotate(g, r).locked == g.locked && Rotate(g, r).score == g.score
    ensures SoftDrop(g).locked == g.locked
  {
    hide Collides, FirstKick, Kick;
  }

  // ----- ticks -----

  lemma FallSound(g: Game)
    requires Sound(g) && !g.over
    ensures Sound(Fall(g)) && !Fall(g).over
    ensures Fall(g).locked == g.locked && Fall(g).score == g.score
  {
    hide Books, Collides, GravityInterval;
    if !Grounded(g) {
      FitsAboveFloor(g.board, g.piece, g.rotation, g.x, g.y + 1);
    }
    FallKeepsBooks(g);
  }

  lemma FallKeepsBooks(g: Game)
    ensures Books(Fall(g)) == Books(g)
  {
    hide HitsAt, Books, GravityInterval;
    if g.gravityCounter + 1 < GravityInterval(g.level) {
      BooksFrame(g, g.(gravityCounter := g.gravityCounter + 1));
    } else if Grounded(g) {
      BooksFrame(g, g.(gravityCounter := 0));
    } else {
      BooksFrame(g, g.(gravityCounter := 0, y := g.y + 1));
    }
  }

  /** What the books are kept of. */
  lemma BooksFrame(g: Game, h: Game)
    requires g.board == h.board && g.lines == h.lines && g.level == h.level && g.lost == h.lost
    requires g.locked == h.locked && g.index == h.index
    ensures Books(g) == Books(h)
  {
    hide NoRowFull, Filled;
  }

  lemma RestSound(draws: Draws, g: Game)
    requires Sound(g) && !g.over
    ensures Sound(Rest(draws, g))
    ensures g.locked <= Rest(draws, g).locked <= g.locked + 1
    ensures Rest(draws, g).score <= g.score + 14450 * (Rest(draws, g).locked - g.locked)
  {
    hide Collides, Filled, Full, Lock;
    if Grounded(g) && g.lockCounter + 1 >= LOCK_DELAY {
      LockSound(draws, g.(lockCounter := g.lockCounter + 1));
    }
  }

  lemma TickKeepsSound(g: Game)
    ensures Sound(g.(tick := g.tick + 1)) == Sound(g)
  {
    hide Filled, Full, Collides;
  }

  lemma StepSound(draws: Draws, g: Game)
    requires Sound(g)
    ensures Sound(Step(draws, g))
    ensures g.locked <= Step(draws, g).locked <= g.locked + 1
    ensures Step(draws, g).score <= g.score + 14450 * (Step(draws, g).locked - g.locked)
    ensures Step(draws, g).tick == if g.over then g.tick else g.tick + 1
  {
    hide Fall, Rest, Books, HitsAt, Clocks;
    if !g.over {
      FallSound(g);
      RestSound(draws, Fall(g));
      TickIsCountedByStep(draws, g);
      TickIsCountedByStep(draws, Fall(g));
      TickKeepsSound(Rest(draws, Fall(g)));
    }
  }

  lemma TickIsCountedByStep(draws: Draws, g: Game)
    ensures Fall(g).tick == g.tick && Rest(draws, g).tick == g.tick
  {
    hide HitsAt, Lock, GravityInterval;
    LockKeepsTick(draws, g.(lockCounter := g.lockCounter + 1));
  }

  lemma LockKeepsTick(draws: Draws, g: Game)
    ensures Lock(draws, g).tick == g.tick
  {
    hide Collides, Stamp, Cleared, FullRows, OffBoard, ClearPoints, PieceAt;
  }
}
