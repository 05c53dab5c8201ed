/** How long the first piece can be kept in play. Soft-dropped to its lowest flat row and
    turned four times within a tick, a piece is kicked up a row and left flat in the air,
    its lock clock never run; only the O piece, which turns in place, cannot be kept so. */
module CoursesHover {
  import opened Arcade
  import opened Basics
  import opened CoursesBag
  import opened CoursesBoard
  import opened CoursesRules
  import opened CoursesInvariants
  import opened CoursesRuns
  import opened CoursesLockDelay
  import opened CoursesStall

  const I_PIECE: Kind := 0
  const O_PIECE: Kind := 3

  // ----- the empty well -----

  /** The lowest row a turned piece fits at in the empty well, away from the walls. */
  function Depth(piece: Kind, rotation: Turn): int
  {
    if piece == I_PIECE then (if rotation == 0 then 20 else if rotation == 2 then 19 else 18)
    else if piece == O_PIECE || rotation == 0 then 20
    else 19
  }

  lemma PieceHits(piece: Kind, rotation: Turn, x: int, y: int)
    requires 2 <= x <= 4
    ensures Collides(EmptyRows(TOTAL_HEIGHT), piece, rotation, x, y) <==> y > Depth(piece, rotation)
  {
    EmptyWellHits(piece, rotation, x, y);
    hide Collides;
    ShapeInBox(piece, rotation);
    LowestCell(piece, rotation);
    var s := Shape(piece, rotation);
    hide Shape, Depth;
    assert s[0] in s && s[1] in s && s[2] in s && s[3] in s;
    assert forall c :: c in s ==> c == s[0] || c == s[1] || c == s[2] || c == s[3];
  }

  lemma LowestCell(piece: Kind, rotation: Turn)
    ensures var s := Shape(piece, rotation);
      Max(Max(s[0].y, s[1].y), Max(s[2].y, s[3].y)) == TOTAL_HEIGHT - 1 - Depth(piece, rotation)
  {
  }

  // ----- a round of hovering -----

  /** The row a piece hovers at. */
  function Hover(piece: Kind): int
  {
    if piece == I_PIECE then 18 else 19
  }

  /** The first piece in the empty well, its lock clock never run. */
  predicate Fresh(g: Game)
  {
    && g.board == EmptyRows(TOTAL_HEIGHT)
    && g.hasPiece && !g.over
    && g.piece != O_PIECE && g.x == 3
    && g.level == 0 && g.lockCounter == 0
    && g.index == 1 && g.locked == 0
  }

  predicate Hovering(g: Game)
  {
    Fresh(g) && g.rotation == 0 && g.y == Hover(g.piece) && g.gravityCounter < 47
  }

  /** Down a row, four turns, and the tick. */
  function Round(): seq<Input>
  {
    Drops(1) + Turns() + [Tick]
  }

  function Drops(n: nat): seq<Input>
  {
    if n == 0 then [] else [Press(ACTION_SOFT_DROP)] + Drops(n - 1)
  }

  function Turns(): seq<Input>
  {
    var turn := Press(ACTION_ROTATE_CW);
    [turn, turn, turn, turn]
  }

  function Rounds(n: nat): seq<Input>
  {
    if n == 0 then [] else Rounds(n - 1) + Round()
  }

  lemma {:induction false} DropsDown(draws: Draws, g: Game, n: nat)
    requires Fresh(g) && g.rotation == 0 && g.y + n <= 20
    ensures var h := AfterAll(draws, g, Drops(n));
      h == (if n == 0 then g else g.(y := g.y + n, score := g.score + n, gravityCounter := 0))
    ensures GroundedTicks(draws, g, Drops(n)) == 0
    decreases n
  {
    if n > 0 {
      var press, next := Press(ACTION_SOFT_DROP), g.(y := g.y + 1, score := g.score + 1, gravityCounter := 0);
      DropsOne(draws, g);
      PressFirst(draws, g, press, Drops(n - 1));
      hide AfterAll, GroundedTicks, After;
      DropsDown(draws, next, n - 1);
    }
  }

  lemma DropsOne(draws: Draws, g: Game)
    requires Fresh(g) && g.rotation == 0 && g.y + 1 <= 20
    ensures After(draws, g, Press(ACTION_SOFT_DROP)) == g.(y := g.y + 1, score := g.score + 1, gravityCounter := 0)
    ensures Fresh(After(draws, g, Press(ACTION_SOFT_DROP)))
  {
    PieceHits(g.piece, 0, 3, g.y + 1);
    hide Collides, EmptyRows;
  }

  lemma TakesKick(g: Game, rotation: Turn, k: nat)
    requires Fresh(g) && k < 7
    requires forall i :: 0 <= i < k ==> KickHits(g, rotation, i)
    requires !KickHits(g, rotation, k)
    ensures Rotate(g, rotation) == g.(rotation := rotation, x := g.x + Kick(k).x, y := g.y + Kick(k).y)
  {
    KickIsFirst(g, rotation, k);
    hide KickHits, FirstKick, Kick, EmptyRows;
  }

  /** The first turn, against the floor, is kicked up a row. */
  lemma FirstTurnKicks(draws: Draws, g: Game)
    requires Fresh(g) && g.rotation == 0 && g.y == Hover(g.piece) + 1
    ensures After(draws, g, Press(ACTION_ROTATE_CW)) == g.(rotation := 1, y := g.y - 1)
  {
    hide Collides, EmptyRows, FirstKick, Rotate, Shift, HardDrop, Hold, SoftDrop;
    PieceHits(g.piece, 1, 3, g.y);
    PieceHits(g.piece, 1, 2, g.y);
    PieceHits(g.piece, 1, 4, g.y);
    PieceHits(g.piece, 1, 3, g.y - 1);
    TakesKick(g, 1, 3);
  }

  /** The others turn it in place. */
  lemma NextTurnStays(draws: Draws, g: Game)
    requires Fresh(g) && g.rotation != 0 && g.y == Hover(g.piece)
    ensures After(draws, g, Press(ACTION_ROTATE_CW)) == g.(rotation := (g.rotation + 1) % 4)
  {
    hide Collides, EmptyRows, FirstKick, Rotate, Shift, HardDrop, Hold, SoftDrop;
    PieceHits(g.piece, (g.rotation + 1) % 4, 3, g.y);
    TakesKick(g, (g.rotation + 1) % 4, 0);
  }

  lemma TurnsLift(draws: Draws, g: Game)
    requires Fresh(g) && g.rotation == 0 && g.y == Hover(g.piece) + 1
    ensures AfterAll(draws, g, Turns()) == g.(y := g.y - 1)
    ensures GroundedTicks(draws, g, Turns()) == 0
  {
    hide AfterAll, GroundedTicks, After, EmptyRows;
    FirstTurnKicks(draws, g);
    NextTurnStays(draws, g.(rotation := 1, y := g.y - 1));
    NextTurnStays(draws, g.(rotation := 2, y := g.y - 1));
    NextTurnStays(draws, g.(rotation := 3, y := g.y - 1));
    PressesInTurn(draws, g, Press(ACTION_ROTATE_CW));
  }

  lemma TickInTheAir(draws: Draws, g: Game)
    requires Hovering(g)
    ensures var h := AfterAll(draws, g, [Tick]);
      Hovering(h.(gravityCounter := 0)) && h.gravityCounter == g.gravityCounter + 1 && h.tick == g.tick + 1
    ensures GroundedTicks(draws, g, [Tick]) == 0
  {
    hide AfterAll, GroundedTicks;
    OneTick(draws, g);
    PieceHits(g.piece, 0, 3, g.y + 1);
    hide Collides, EmptyRows, Lock;
  }

  lemma OneTick(draws: Draws, g: Game)
    ensures AfterAll(draws, g, [Tick]) == Step(draws, g)
    ensures GroundedTicks(draws, g, [Tick]) == if EndsGrounded(g) then 1 else 0
  {
    hide Step, EndsGrounded;
    assert [Tick][1..] == [];
  }

  /** One round ends where it began, a tick later, and the tick did not end grounded. */
  lemma RoundHovers(draws: Draws, g: Game)
    requires Hovering(g)
    ensures var h := AfterAll(draws, g, Round()); Hovering(h) && h.tick == g.tick + 1
    ensures GroundedTicks(draws, g, Round()) == 0
  {
    hide AfterAll, GroundedTicks, EmptyRows;
    DropsDown(draws, g, 1);
    var low := AfterAll(draws, g, Drops(1));
    TurnsLift(draws, low);
    var up := AfterAll(draws, low, Turns());
    TickInTheAir(draws, up);
    AfterAllAppend(draws, g, Drops(1) + Turns(), [Tick]);
    AfterAllAppend(draws, g, Drops(1), Turns());
  }

  lemma {:induction false} RoundsHover(draws: Draws, g: Game, n: nat)
    requires Hovering(g)
    ensures var h := AfterAll(draws, g, Rounds(n)); Hovering(h) && h.tick == g.tick + n
    ensures GroundedTicks(draws, g, Rounds(n)) == 0
  {
    hide Hovering, Round, AfterAll, GroundedTicks;
    if n > 0 {
      RoundsHover(draws, g, n - 1);
      AfterAllAppend(draws, g, Rounds(n - 1), Round());
      RoundHovers(draws, AfterAll(draws, g, Rounds(n - 1)));
    } else {
      NoInputs(draws, g);
    }
  }

  lemma NoInputs(draws: Draws, g: Game)
    ensures AfterAll(draws, g, []) == g && GroundedTicks(draws, g, []) == 0
  {
  }

  /** The first piece is still in play, and n ticks have passed. */
  ghost predicate KeptFor(draws: Draws, inputs: seq<Input>, n: nat)
  {
    var g := AfterAll(draws, Start(draws), inputs);
    !g.over && g.index == 1 && g.locked == 0 && g.tick >= n
  }

  /** And none of them ended with it grounded. */
  ghost predicate HoversFor(draws: Draws, inputs: seq<Input>, n: nat)
  {
    KeptFor(draws, inputs, n) && GroundedTicks(draws, Start(draws), inputs) == 0
  }

  ghost predicate CanKeepFor(draws: Draws, n: nat)
  {
    exists inputs :: KeptFor(draws, inputs, n)
  }

  ghost predicate CanHoverFor(draws: Draws, n: nat)
  {
    exists inputs :: HoversFor(draws, inputs, n)
  }

  lemma StartIsFresh(draws: Draws)
    requires PieceAt(draws, 0) != O_PIECE
    ensures Fresh(Start(draws)) && Start(draws).rotation == 0 && Start(draws).y == 0
    ensures Start(draws).tick == 0 && Start(draws).gravityCounter == 0
  {
    PieceHits(PieceAt(draws, 0), 0, 3, 0);
    hide Collides, EmptyRows, PieceAt;
  }

  lemma HoversAsLongAsOneLikes(draws: Draws, n: nat)
    requires PieceAt(draws, 0) != O_PIECE
    ensures HoversFor(draws, Drops(Hover(PieceAt(draws, 0))) + Rounds(n), n)
  {
    hide AfterAll, GroundedTicks, EmptyRows, Start, PieceAt, Drops, Rounds;
    var start := Start(draws);
    StartIsFresh(draws);
    StartPiece(draws);
    DropsDown(draws, start, Hover(start.piece));
    var up := AfterAll(draws, start, Drops(Hover(start.piece)));
    RoundsHover(draws, up, n);
    AfterAllAppend(draws, start, Drops(Hover(start.piece)), Rounds(n));
  }

  lemma StartPiece(draws: Draws)
    ensures Start(draws).piece == PieceAt(draws, 0)
  {
    hide PieceAt, Collides;
  }

  // ----- the O piece -----

  /** An O dealt first, in the empty well. */
  predicate FirstO(g: Game)
  {
    && Sound(g) && !g.over
    && g.board == EmptyRows(TOTAL_HEIGHT)
    && g.piece == O_PIECE && g.level == 0
    && g.index == 1 && g.locked == 0
    && 0 <= g.y <= 20
  }

  /** The ticks it has left at most: those of its fall and, on the floor, of its lock
      clock and resets. */
  function Left(g: Game): int
  {
    if g.y < 20 then 480 + 48 * (20 - g.y) - g.gravityCounter else Budget(g)
  }

  lemma OFits(rotation: Turn, turned: Turn, x: int, y: int, v: int)
    requires !Collides(EmptyRows(TOTAL_HEIGHT), O_PIECE, rotation, x, y)
    ensures Collides(EmptyRows(TOTAL_HEIGHT), O_PIECE, turned, x, v) <==> v > 20
    ensures y <= 20
  {
    EmptyWellHits(O_PIECE, rotation, x, y);
    EmptyWellHits(O_PIECE, turned, x, v);
    hide Collides, EmptyRows;
    var s := Shape(O_PIECE, turned);
    assert s[0] in s && s[1] in s && s[2] in s && s[3] in s;
    assert forall c :: c in s ==> c == s[0] || c == s[1] || c == s[2] || c == s[3];
  }

  /** On the empty well an O is grounded on the floor and nowhere else. */
  lemma OGrounded(g: Game)
    requires FirstO(g)
    ensures Grounded(g) <==> g.y == 20
    ensures g.y < 20 ==> (Grounded(g.(y := g.y + 1)) <==> g.y == 19)
    ensures forall r: Turn :: !KickHits(g, r, 0)
  {
    hide Books, Collides, EmptyRows;
    OFits(g.rotation, g.rotation, g.x, g.y, g.y + 1);
    OFits(g.rotation, g.rotation, g.x, g.y, g.y + 2);
    forall r: Turn ensures !KickHits(g, r, 0) {
      OFits(g.rotation, r, g.x, g.y, g.y);
    }
  }

  lemma OFall(g: Game)
    requires FirstO(g)
    ensures var f := Fall(g);
      && f.y == (if g.gravityCounter == 47 && g.y < 20 then g.y + 1 else g.y)
      && (g.y < 20 ==> f.gravityCounter == if g.gravityCounter == 47 then 0 else g.gravityCounter + 1)
      && (Grounded(f) <==> f.y == 20)
      && f.lockCounter == g.lockCounter && f.lockResets == g.lockResets && f.lockFloor == g.lockFloor
  {
    hide Books, HitsAt, EmptyRows, Placed;
    OGrounded(g);
    FirstOClock(g);
    GroundedByPlace(g, g.(gravityCounter := g.gravityCounter + 1));
    GroundedByPlace(g, g.(gravityCounter := 0));
    GroundedByPlace(g.(y := g.y + 1), g.(gravityCounter := 0, y := g.y + 1));
  }

  lemma FirstOClock(g: Game)
    requires FirstO(g)
    ensures g.gravityCounter < 48 && g.lockCounter < LOCK_DELAY && g.lockResets <= LOCK_RESETS
    ensures g.hasPiece && GravityInterval(g.level) == 48 && g.locked == 0 && g.index == 1
  {
    hide Books, HitsAt, EmptyRows;
  }

  lemma GroundedByPlace(g: Game, h: Game)
    requires h.board == g.board && h.piece == g.piece && h.rotation == g.rotation && h.x == g.x && h.y == g.y
    ensures Grounded(h) == Grounded(g)
  {
    hide Collides;
  }

  /** What stays of the first O however it is moved: it is in the same well, and no higher. */
  predicate SameO(g: Game, h: Game)
  {
    h.board == g.board && h.piece == g.piece && h.level == g.level && g.y <= h.y <= 20
  }

  lemma OTick(draws: Draws, g: Game)
    requires FirstO(g) && Step(draws, g).locked == 0
    ensures var h := Step(draws, g); SameO(g, h) && h.tick == g.tick + 1 && Left(h) <= Left(g) - 1
  {
    hide Step, FirstO, HitsAt, Lock, Fall, Rest;
    var f := Fall(g);
    OFall(g);
    FirstOClock(g);
    FirstOBounds(g);
    FallKeepsBoard(g);
    StepOf(draws, g);
    RestInPlay(draws, f);
  }

  lemma RestInPlay(draws: Draws, f: Game)
    requires Rest(draws, f).locked == f.locked
    ensures var h := Rest(draws, f);
      && h.board == f.board && h.piece == f.piece && h.level == f.level && h.y == f.y && h.tick == f.tick
      && h.gravityCounter == f.gravityCounter
      && (Grounded(f) ==> h.lockCounter == f.lockCounter + 1 && h.lockResets == f.lockResets)
  {
    hide HitsAt, Lock;
    LockCounts(draws, f.(lockCounter := f.lockCounter + 1));
  }

  lemma StepOf(draws: Draws, g: Game)
    requires g.hasPiece && !g.over
    ensures Step(draws, g) == Rest(draws, Fall(g)).(tick := Rest(draws, Fall(g)).tick + 1)
  {
    hide Rest, Fall;
  }

  lemma FallKeepsBoard(g: Game)
    ensures var f := Fall(g);
      f.board == g.board && f.piece == g.piece && f.level == g.level && f.locked == g.locked && f.tick == g.tick
  {
    hide HitsAt, GravityInterval;
  }

  lemma OPress(draws: Draws, g: Game, action: int)
    requires FirstO(g)
    requires Apply(draws, g, action).locked == 0 && Apply(draws, g, action).index == 1
    ensures var h := Apply(draws, g, action); SameO(g, h) && h.tick == g.tick && Left(h) <= Left(g)
  {
    hide Shift, Rotate, SoftDrop, HardDrop, Hold, FirstO;
    FirstOClock(g);
    FirstOBounds(g);
    OShift(g, -1);
    OShift(g, 1);
    ORotate(g, (g.rotation + 1) % 4);
    ORotate(g, (g.rotation + 3) % 4);
    OSoftDrop(g);
    HardDropCounts(draws, g);
    OHold(draws, g);
  }

  lemma FirstOBounds(g: Game)
    requires FirstO(g)
    ensures g.y <= 20 && !g.over
  {
    hide Sound, EmptyRows;
  }

  lemma ResetKeepsLeft(g: Game)
    requires g.lockCounter < LOCK_DELAY
    ensures SameO(g, ResetLock(g)) || g.y > 20
    ensures Left(ResetLock(g)) <= Left(g) && ResetLock(g).tick == g.tick
  {
  }

  lemma OShift(g: Game, dx: int)
    requires FirstO(g)
    ensures var h := Shift(g, dx); SameO(g, h) && h.tick == g.tick && Left(h) <= Left(g)
  {
    hide Sound, HitsAt, EmptyRows, Left, ResetLock;
    FirstOClock(g);
    ResetKeepsLeft(g.(x := g.x + dx));
    LeftByPlace(g, g.(x := g.x + dx));
  }

  lemma LeftByPlace(g: Game, h: Game)
    requires h.y == g.y && h.gravityCounter == g.gravityCounter
    requires h.lockCounter == g.lockCounter && h.lockResets == g.lockResets
    ensures Left(h) == Left(g)
  {
  }

  lemma ORotate(g: Game, rotation: Turn)
    requires FirstO(g)
    ensures var h := Rotate(g, rotation); SameO(g, h) && h.tick == g.tick && Left(h) <= Left(g)
  {
    hide Sound, KickHits, EmptyRows, Left, ResetLock, FirstKick;
    OGrounded(g);
    KickIsFirst(g, rotation, 0);
    FirstOClock(g);
    var turned := g.(rotation := rotation, x := g.x + Kick(0).x, y := g.y + Kick(0).y);
    ResetKeepsLeft(turned);
    LeftByPlace(g, turned);
  }

  lemma OSoftDrop(g: Game)
    requires FirstO(g)
    ensures var h := SoftDrop(g); SameO(g, h) && h.tick == g.tick && Left(h) <= Left(g)
  {
    hide Sound, HitsAt, EmptyRows;
    OGrounded(g);
    FirstOClock(g);
  }

  lemma OHold(draws: Draws, g: Game)
    requires FirstO(g)
    ensures Hold(draws, g) == g || Hold(draws, g).index != 1
  {
    hide Books, HitsAt, EmptyRows, Collides, PieceAt;
  }

  lemma OAfter(draws: Draws, g: Game, input: Input)
    requires FirstO(g)
    requires var h := After(draws, g, input); !h.over && h.index == 1 && h.locked == 0
    ensures var h := After(draws, g, input); FirstO(h) && h.tick + Left(h) <= g.tick + Left(g)
  {
    hide Sound, Step, Apply, Left, EmptyRows;
    AfterIsSound(draws, g, input);
    match input
    case Tick => OTick(draws, g);
    case Press(action) => OPress(draws, g, action);
  }

  lemma AfterKeepsIndex(draws: Draws, g: Game, input: Input)
    ensures g.index <= After(draws, g, input).index
  {
    hide Step, Apply;
    match input
    case Tick => StepKeepsIndex(draws, g);
    case Press(action) => ApplyKeepsClock(draws, g, action);
  }

  lemma {:induction false} IndexOnlyGrows(draws: Draws, g: Game, inputs: seq<Input>)
    ensures g.index <= AfterAll(draws, g, inputs).index
    decreases |inputs|
  {
    hide After;
    if inputs != [] {
      AfterKeepsIndex(draws, g, inputs[0]);
      IndexOnlyGrows(draws, After(draws, g, inputs[0]), inputs[1..]);
    }
  }

  lemma {:induction false} OverStaysOver(draws: Draws, g: Game, inputs: seq<Input>)
    requires g.over
    ensures AfterAll(draws, g, inputs) == g
    decreases |inputs|
  {
    if inputs != [] {
      OverStaysOver(draws, g, inputs[1..]);
    }
  }

  lemma {:induction false} OIsSpent(draws: Draws, g: Game, inputs: seq<Input>)
    requires FirstO(g)
    requires var h := AfterAll(draws, g, inputs); !h.over && h.index == 1 && h.locked == 0
    ensures var h := AfterAll(draws, g, inputs); FirstO(h) && h.tick + Left(h) <= g.tick + Left(g)
    decreases |inputs|
  {
    hide After, Left;
    if inputs != [] {
      var next := After(draws, g, inputs[0]);
      AfterIsSound(draws, g, inputs[0]);
      AfterKeepsIndex(draws, g, inputs[0]);
      hide FirstO, Sound;
      LockedOnlyGrows(draws, next, inputs[1..]);
      IndexOnlyGrows(draws, next, inputs[1..]);
      FirstOClock(g);
      if next.over {
        OverStaysOver(draws, next, inputs[1..]);
      }
      OAfter(draws, g, inputs[0]);
      OIsSpent(draws, next, inputs[1..]);
    }
  }

  /** An O dealt first is gone after 1440 ticks at the latest, whatever is pressed: it
      never rises, so it falls for 960 at most and rests for 480. */
  lemma FirstOIsGone(draws: Draws, inputs: seq<Input>)
    requires PieceAt(draws, 0) == O_PIECE
    ensures !KeptFor(draws, inputs, 1440)
  {
    hide FirstO, Start, AfterAll, Sound, Budget;
    var start := Start(draws);
    StartIsFirstO(draws);
    if KeptFor(draws, inputs, 1440) {
      OIsSpent(draws, start, inputs);
      LeftIsPositive(AfterAll(draws, start, inputs));
      assert false;
    }
  }

  lemma StartIsFirstO(draws: Draws)
    requires PieceAt(draws, 0) == O_PIECE
    ensures var g := Start(draws); FirstO(g) && g.tick == 0 && g.y == 0 && g.gravityCounter == 0
  {
    hide Sound, Collides, EmptyRows, PieceAt;
    StartSound(draws);
    PieceHits(O_PIECE, 0, 3, 0);
  }

  lemma LeftIsPositive(g: Game)
    requires FirstO(g)
    ensures Left(g) >= 1
  {
    FirstOClock(g);
    hide FirstO;
  }

  /** The first piece can be kept in play as long as one likes exactly when it is not an
      O; and then without a tick that ends grounded. */
  lemma KeptForeverExactlyUnlessO(draws: Draws)
    ensures (forall n: nat :: CanKeepFor(draws, n)) <==> PieceAt(draws, 0) != O_PIECE
    ensures (forall n: nat :: CanHoverFor(draws, n)) <==> PieceAt(draws, 0) != O_PIECE
  {
    hide AfterAll, GroundedTicks, Start, PieceAt, KeptFor;
    if PieceAt(draws, 0) == O_PIECE {
      forall inputs ensures !KeptFor(draws, inputs, 1440) {
        FirstOIsGone(draws, inputs);
      }
      assert !CanKeepFor(draws, 1440) && !CanHoverFor(draws, 1440);
    } else {
      forall n: nat ensures CanKeepFor(draws, n) && CanHoverFor(draws, n) {
        HoversAsLongAsOneLikes(draws, n);
      }
    }
  }
}
