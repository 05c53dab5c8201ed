/** What each input and each tick does to the piece in play, in terms of the cells of the
    well and of the numbers a log holds. */
module CoursesMoves {
  import opened Arcade
  import opened CoursesBag
  import opened CoursesBoard
  import opened CoursesRules
  import opened CoursesRuns
  import opened CoursesLockDelay
  import opened CoursesStall

  // ----- free cells -----

  /** Between the walls, above the floor, and not settled. */
  predicate IsFree(b: Board, px: int, py: int)
  {
    0 <= px < 10 && py < 22 && (py < 0 || b[py][px] == 0)
  }

  /** The piece of g, turned to a rotation, has room at a place. */
  predicate HasRoom(g: Game, rotation: Turn, x: int, y: int)
  {
    var cells := Shape(g.piece, rotation);
    && IsFree(g.board, x + cells[0].x, y + cells[0].y) && IsFree(g.board, x + cells[1].x, y + cells[1].y)
    && IsFree(g.board, x + cells[2].x, y + cells[2].y) && IsFree(g.board, x + cells[3].x, y + cells[3].y)
  }

  lemma RoomIsNoHit(g: Game, rotation: Turn, x: int, y: int)
    ensures HasRoom(g, rotation, x, y) <==> !Collides(g.board, g.piece, rotation, x, y)
  {
    var cells := Shape(g.piece, rotation);
    hide Shape;
    assert cells[0] in cells && cells[1] in cells && cells[2] in cells && cells[3] in cells;
    assert forall c :: c in cells ==> c == cells[0] || c == cells[1] || c == cells[2] || c == cells[3];
  }

  // ----- moves and turns -----

  /** The piece somewhere else, its lock clock restarted if it was running, up to fifteen
      times. */
  function MovedTo(g: Game, rotation: Turn, x: int, y: int): Game
  {
    var restarts := g.lockCounter > 0 && g.lockResets < 15;
    g.(rotation := rotation, x := x, y := y,
       lockCounter := if restarts then 0 else g.lockCounter,
       lockResets := if restarts then g.lockResets + 1 else g.lockResets)
  }

  /** Action 0 takes the piece one column left if it has room there, action 1 one right;
      otherwise they do nothing. */
  lemma LeftAndRight(draws: Draws, g: Game)
    requires g.hasPiece && !g.over
    ensures Apply(draws, g, 0)
         == if HasRoom(g, g.rotation, g.x - 1, g.y) then MovedTo(g, g.rotation, g.x - 1, g.y) else g
    ensures Apply(draws, g, 1)
         == if HasRoom(g, g.rotation, g.x + 1, g.y) then MovedTo(g, g.rotation, g.x + 1, g.y) else g
  {
    hide Collides, HasRoom;
    RoomIsNoHit(g, g.rotation, g.x - 1, g.y);
    RoomIsNoHit(g, g.rotation, g.x + 1, g.y);
  }

  const KICKS: seq<Cell> :=
    [Cell(0, 0), Cell(-1, 0), Cell(1, 0), Cell(0, -1), Cell(-1, -1), Cell(1, -1), Cell(0, -2)]

  predicate KickHasRoom(g: Game, rotation: Turn, k: nat)
    requires k < 7
  {
    HasRoom(g, rotation, g.x + KICKS[k].x, g.y + KICKS[k].y)
  }

  lemma KickIs(k: nat)
    requires k < 7
    ensures Kick(k) == KICKS[k]
  {
  }

  lemma KickMeans(g: Game, rotation: Turn, k: nat)
    requires k < 7
    ensures KickHasRoom(g, rotation, k) <==> !KickHits(g, rotation, k)
  {
    hide Collides, HasRoom, Kick, KICKS;
    KickIs(k);
    RoomIsNoHit(g, rotation, g.x + Kick(k).x, g.y + Kick(k).y);
  }

  lemma TurnTakes(g: Game, next: Turn, k: nat)
    requires k <= 7 && (forall i :: 0 <= i < k ==> KickHits(g, next, i)) && (k < 7 ==> !KickHits(g, next, k))
    ensures Rotate(g, next) == if k == 7 then g else MovedTo(g, next, g.x + Kick(k).x, g.y + Kick(k).y)
  {
    hide KickHits, FirstKick, Kick;
    if k < 7 {
      KickIsFirst(g, next, k);
    } else {
      NoKickFits(g, next);
    }
  }

  /** Action 2 turns the piece by a quarter and action 3 by three: at the first of the seven
      kicks that has room, or not at all. */
  lemma Turns(draws: Draws, g: Game, action: int, k: nat)
    requires g.hasPiece && !g.over && 2 <= action <= 3 && k <= 7
    requires var next := (g.rotation + if action == 2 then 1 else 3) % 4;
      (forall i :: 0 <= i < k ==> !KickHasRoom(g, next, i)) && (k < 7 ==> KickHasRoom(g, next, k))
    ensures var next := (g.rotation + if action == 2 then 1 else 3) % 4;
      Apply(draws, g, action)
      == if k == 7 then g else MovedTo(g, next, g.x + KICKS[k].x, g.y + KICKS[k].y)
  {
    hide Shift, Rotate, HardDrop, Hold, SoftDrop, KickHits, KickHasRoom, Kick, MovedTo, KICKS;
    var next := (g.rotation + if action == 2 then 1 else 3) % 4;
    forall i | 0 <= i < 7 ensures KickHasRoom(g, next, i) <==> !KickHits(g, next, i) {
      KickMeans(g, next, i);
    }
    TurnTakes(g, next, k);
    if k < 7 {
      KickIs(k);
    }
  }

  /** Action 4 takes the piece down a row and pays a point, if there is room. */
  lemma SoftDropFalls(draws: Draws, g: Game)
    requires g.hasPiece && !g.over
    ensures Apply(draws, g, 4)
         == if HasRoom(g, g.rotation, g.x, g.y + 1)
            then g.(y := g.y + 1, score := g.score + 1, gravityCounter := 0) else g
  {
    hide Collides, HasRoom;
    RoomIsNoHit(g, g.rotation, g.x, g.y + 1);
  }

  /** Action 5 takes it down as far as there is room, pays two points a row, and locks it. */
  lemma HardDropLands(draws: Draws, g: Game, rest: int)
    requires g.hasPiece && !g.over && g.y <= rest
    requires forall v :: g.y < v <= rest ==> HasRoom(g, g.rotation, g.x, v)
    requires !HasRoom(g, g.rotation, g.x, rest + 1)
    ensures Apply(draws, g, 5) == Lock(draws, g.(y := rest, score := g.score + 2 * (rest - g.y)))
  {
    hide Collides, HasRoom, Lock, Landing;
    forall v ensures HasRoom(g, g.rotation, g.x, v) <==> !Collides(g.board, g.piece, g.rotation, g.x, v) {
      RoomIsNoHit(g, g.rotation, g.x, v);
    }
    var landed := RestRow(g);
    assert !HasRoom(g, g.rotation, g.x, landed + 1);
    assert landed >= rest;
    assert Collides(g.board, g.piece, g.rotation, g.x, rest + 1);
    assert landed == rest;
  }

  /** A kind at the top of the well, its clocks at zero. */
  predicate Arrives(h: Game, kind: Kind)
  {
    && h.hasPiece && h.piece == kind && h.rotation == 0 && h.x == 3 && h.y == 0
    && h.gravityCounter == 0 && h.lockCounter == 0 && h.lockResets == 0 && h.lockFloor == 0
  }

  predicate SameWell(g: Game, h: Game)
  {
    && h.board == g.board && h.score == g.score && h.lines == g.lines && h.level == g.level
    && h.backToBack == g.backToBack && h.tick == g.tick
  }

  /** Action 6 puts the piece in play away, once, for the one that was put away; the first
      time for the next of the deal. The piece that comes starts at the top, and the run is
      over exactly when it has no room there. */
  lemma HoldExchanges(draws: Draws, g: Game)
    requires g.hasPiece && !g.over
    ensures g.holdUsed ==> Apply(draws, g, 6) == g
    ensures !g.holdUsed ==>
      var h := Apply(draws, g, 6);
      && h.hasHold && h.hold == g.piece && h.holdUsed && SameWell(g, h)
      && (g.hasHold ==> Arrives(h, g.hold) && h.index == g.index && (h.over <==> !HasRoom(h, 0, 3, 0)))
      && (!g.hasHold && g.index < 300 ==>
            Arrives(h, PieceAt(draws, g.index)) && h.index == g.index + 1 && (h.over <==> !HasRoom(h, 0, 3, 0)))
      && (!g.hasHold && g.index >= 300 ==> h.over)
  {
    hide Collides, HasRoom, PieceAt;
    RoomIsNoHit(Apply(draws, g, 6), 0, 3, 0);
  }

  /** Any other action does nothing, and nothing is done without a piece or after the end. */
  lemma NothingElse(draws: Draws, g: Game, action: int)
    requires g.over || !g.hasPiece || action < 0 || action > 6
    ensures Apply(draws, g, action) == g
  {
  }

  // ----- the next piece -----

  /** A lock brings in the next of the deal at the top, free to be put away once; the run
      is over exactly when three hundred have come or the next has no room. */
  lemma NextArrives(draws: Draws, g: Game)
    requires !g.over
    ensures var h := Spawn(draws, g);
      && SameWell(g, h)
      && (g.index >= 300 ==> h.over && h.index == g.index)
      && (g.index < 300 ==> Arrives(h, PieceAt(draws, g.index)) && h.index == g.index + 1 && !h.holdUsed
                            && (h.over <==> !HasRoom(h, 0, 3, 0)))
  {
    hide Collides, HasRoom, PieceAt;
    RoomIsNoHit(Spawn(draws, g), 0, 3, 0);
  }

  /** A run starts in an empty well with the first of the deal, nothing put away, scored or
      cleared. */
  lemma StartsEmpty(draws: Draws)
    ensures var h := Start(draws);
      && (forall x, y :: 0 <= x < 10 && 0 <= y < 22 ==> h.board[y][x] == 0)
      && Arrives(h, PieceAt(draws, 0)) && h.index == 1 && !h.hasHold && !h.holdUsed && !h.over
      && h.tick == 0 && h.score == 0 && h.lines == 0 && h.level == 0 && !h.backToBack
  {
    hide PieceAt;
    var h := Start(draws);
    StartsFree(h.board, PieceAt(draws, 0));
    hide Collides;
  }

  lemma StartsFree(b: Board, kind: Kind)
    ensures b == EmptyRows(22) ==> !Collides(b, kind, 0, 3, 0)
  {
    ShapeFacts(kind, 0);
    hide Shape;
  }

  // ----- ticks -----

  /** Ticks per row, by level. */
  const PACES: seq<nat> := [48, 40, 32, 25, 19, 14, 10, 7, 5, 3, 2, 1]

  lemma GravityIs(level: nat)
    ensures GravityInterval(level) == PACES[if level < 12 then level else 11]
  {
  }

  /** Every level but the last two there are falls faster than the one before. */
  lemma GravityQuickens(level: nat)
    ensures GravityInterval(level + 1) <= GravityInterval(level)
    ensures level < 11 ==> GravityInterval(level + 1) < GravityInterval(level)
  {
    GravityIs(level);
    GravityIs(level + 1);
    hide GravityInterval;
  }

  lemma StepIs(draws: Draws, g: Game)
    requires g.hasPiece && !g.over
    ensures Step(draws, g) == Rest(draws, Fall(g)).(tick := Rest(draws, Fall(g)).tick + 1)
  {
    hide Rest, Fall;
  }

  predicate HasRoomDown(g: Game, rows: int)
  {
    forall v :: g.y < v <= g.y + rows ==> HasRoom(g, g.rotation, g.x, v)
  }

  /** A tick in the air: one more on the gravity clock, or a row down when it is due. On a row
      lower than any before, the lock clock and its restarts start anew; only there. */
  lemma FallOfOne(draws: Draws, g: Game)
    requires g.hasPiece && !g.over && g.gravityCounter < GravityInterval(g.level)
    requires HasRoomDown(g, if g.gravityCounter + 1 == GravityInterval(g.level) then 2 else 1)
    ensures var h, due := Step(draws, g), g.gravityCounter + 1 == GravityInterval(g.level);
      && h == g.(tick := g.tick + 1,
                 y := if due then g.y + 1 else g.y,
                 gravityCounter := if due then 0 else g.gravityCounter + 1,
                 lockFloor := h.lockFloor, lockCounter := h.lockCounter, lockResets := h.lockResets)
      && (h.y > g.lockFloor ==> h.lockFloor == h.y && h.lockCounter == 0 && h.lockResets == 0)
      && (h.y <= g.lockFloor ==>
            h.lockFloor == g.lockFloor && h.lockCounter == g.lockCounter && h.lockResets == g.lockResets)
  {
    hide Collides, HasRoom, GravityInterval, Lock;
    RoomIsNoHit(g, g.rotation, g.x, g.y + 1);
    RoomIsNoHit(g, g.rotation, g.x, g.y + 2);
    StepIs(draws, g);
    hide Step;
  }

  /** Left alone with room below for some rows, a piece keeps the pace of its level: over n
      ticks, interval times rows plus counter grows by n. */
  lemma {:induction false} FallsAtPace(draws: Draws, g: Game, n: nat, rows: nat)
    requires g.hasPiece && !g.over && g.gravityCounter < GravityInterval(g.level)
    requires HasRoomDown(g, rows) && g.gravityCounter + n < GravityInterval(g.level) * rows
    ensures var h, pace := AfterAll(draws, g, Ticks(n)), GravityInterval(g.level);
      && h.tick == g.tick + n && !h.over && h.index == g.index
      && h.gravityCounter < pace && pace * h.y + h.gravityCounter == pace * g.y + g.gravityCounter + n
    decreases n
  {
    hide HasRoom, GravityInterval, Step;
    if n > 0 {
      var pace := GravityInterval(g.level);
      var next := Step(draws, g);
      assert Ticks(n)[0] == Tick && Ticks(n)[1..] == Ticks(n - 1);
      RowsNeeded(g.gravityCounter, n, pace, rows);
      FallOfOne(draws, g);
      RoomIsByPlace(g, next);
      hide AfterAll, Ticks;
      if g.gravityCounter + 1 == pace {
        assert pace * (rows - 1) == pace * rows - pace && pace * (g.y + 1) == pace * g.y + pace;
        FallsAtPace(draws, next, n - 1, rows - 1);
      } else {
        FallsAtPace(draws, next, n - 1, rows);
      }
    }
  }

  lemma RowsNeeded(c: nat, n: nat, pace: nat, rows: nat)
    requires n > 0 && c < pace && c + n < pace * rows
    ensures rows >= 1 && (c + 1 == pace ==> rows >= 2)
  {
    assert pace * 0 == 0 && pace * 1 == pace;
  }

  lemma RoomIsByPlace(g: Game, h: Game)
    requires h.board == g.board && h.piece == g.piece
    ensures forall r: Turn, x, y :: HasRoom(h, r, x, y) == HasRoom(g, r, x, y)
  {
    hide IsFree;
  }

  /** A tick that leaves the piece resting where it is. */
  lemma RestsATick(draws: Draws, g: Game)
    requires g.hasPiece && !g.over && !HasRoom(g, g.rotation, g.x, g.y + 1)
    ensures var h := Step(draws, g);
      && (g.lockCounter < 29 ==>
            h == g.(tick := g.tick + 1, lockCounter := g.lockCounter + 1, gravityCounter := h.gravityCounter))
      && (g.lockCounter >= 29 ==> h.locked == g.locked + 1)
  {
    hide Collides, HasRoom, Lock, Fall;
    FallRests(g);
    RoomIsNoHit(g, g.rotation, g.x, g.y + 1);
    StepIs(draws, g);
    LockCounts(draws, Fall(g).(lockCounter := Fall(g).lockCounter + 1));
    hide Step;
  }

  lemma FallRests(g: Game)
    requires !HasRoom(g, g.rotation, g.x, g.y + 1)
    ensures Fall(g) == g.(gravityCounter := Fall(g).gravityCounter)
  {
    hide Collides, HasRoom, GravityInterval;
    RoomIsNoHit(g, g.rotation, g.x, g.y + 1);
  }

  /** Left alone at rest a piece stays for exactly what its lock clock has left of thirty
      ticks, and locks on the last of them. */
  lemma {:induction false} LocksAtThirty(draws: Draws, g: Game, n: nat)
    requires g.hasPiece && !g.over && !HasRoom(g, g.rotation, g.x, g.y + 1)
    requires g.lockCounter + n <= 30 && g.lockCounter <= 29
    ensures var h := AfterAll(draws, g, Ticks(n));
      && (g.lockCounter + n < 30 ==>
            h == g.(tick := g.tick + n, lockCounter := g.lockCounter + n, gravityCounter := h.gravityCounter))
      && (g.lockCounter + n == 30 ==> h.locked == g.locked + 1)
    decreases n
  {
    hide HasRoom, Step;
    if n > 0 {
      var next := Step(draws, g);
      assert Ticks(n)[0] == Tick && Ticks(n)[1..] == Ticks(n - 1);
      RestsATick(draws, g);
      if g.lockCounter < 29 {
        RoomIsByPlace(g, next);
        LocksAtThirty(draws, next, n - 1);
      } else {
        assert Ticks(0) == [];
      }
    }
  }
}
