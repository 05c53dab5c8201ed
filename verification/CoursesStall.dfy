/** A stall by turning alone: turning an I lifts it off the row it has reached, so it can be
    kept in the air without ever running its lock clock. */
module CoursesStall {
  import opened Arcade
  import opened Basics
  import opened CoursesBag
  import opened CoursesBoard
  import opened CoursesRules
  import opened CoursesRuns
  import opened CoursesLockDelay

  function Ticks(n: nat): seq<Input>
  {
    seq(n, _ => Tick)
  }

  /** Four clockwise turns in one tick, and then a fall of one row. */
  function Round(): seq<Input>
  {
    var turn := Press(ACTION_ROTATE_CW);
    [turn, turn, turn, turn] + Ticks(48)
  }

  function Rounds(n: nat): seq<Input>
  {
    if n == 0 then [] else Rounds(n - 1) + Round()
  }

  /** The I piece, flat and loose in the empty well at the first level. */
  predicate Loose(g: Game)
  {
    && g.board == EmptyRows(TOTAL_HEIGHT)
    && g.hasPiece && !g.over
    && g.piece == 0 && g.x == 3 && g.rotation == 0
    && g.level == 0
    && g.lockCounter == 0
    && g.index == 1 && g.locked == 0
    && -5 <= g.y <= 19 && g.gravityCounter < 48
  }

  /** One row above the floor, where the loop starts and ends. */
  predicate AtTheTurn(g: Game)
  {
    Loose(g) && g.y == 19 && g.lockFloor == 19 && g.gravityCounter == 0
  }

  lemma EmptyWellHits(piece: Kind, rotation: Turn, x: int, y: int)
    ensures Collides(EmptyRows(TOTAL_HEIGHT), piece, rotation, x, y)
        <==> exists c :: c in Shape(piece, rotation)
                         && (x + c.x < 0 || x + c.x >= WIDTH || y + c.y >= TOTAL_HEIGHT)
  {
    var b: Board := EmptyRows(TOTAL_HEIGHT);
    hide Shape, EmptyRows;
    forall px, py ensures Blocked(b, px, py) <==> (px < 0 || px >= WIDTH || py >= TOTAL_HEIGHT) {
      if Inside(px, py) {
        assert b[py] == EmptyRow();
      }
    }
  }

  /** Where the I piece fits in the empty well at column 3. */
  lemma IPieceHits(rotation: Turn, x: int, y: int)
    requires 2 <= x <= 4
    ensures Collides(EmptyRows(TOTAL_HEIGHT), 0, rotation, x, y)
        <==> y > (if rotation == 0 then 20 else if rotation == 2 then 19 else 18)
  {
    EmptyWellHits(0, rotation, x, y);
    hide Collides;
    var s := Shape(0, rotation);
    assert s[0] in s && s[1] in s && s[2] in s && s[3] in s;
    assert forall c :: c in s ==> c == s[0] || c == s[1] || c == s[2] || c == s[3];
  }

  lemma LooseFall(g: Game)
    requires Loose(g)
    ensures Fall(g) == (if g.gravityCounter < 47 then g.(gravityCounter := g.gravityCounter + 1)
                        else if Grounded(g) then g.(gravityCounter := 0) else g.(gravityCounter := 0, y := g.y + 1))
  {
    hide Collides, EmptyRows;
  }

  lemma LooseTick(draws: Draws, g: Game)
    requires Loose(g) && (g.y < 19 || g.gravityCounter < 47)
    ensures var h := Step(draws, g);
      Loose(h) && h.tick == g.tick + 1
      && h.y == (if g.gravityCounter == 47 then g.y + 1 else g.y)
      && h.gravityCounter == (if g.gravityCounter == 47 then 0 else g.gravityCounter + 1)
      && h.lockFloor == Max(g.lockFloor, h.y)
      && !EndsGrounded(g)
  {
    hide Collides, EmptyRows, Lock;
    IPieceHits(0, g.x, g.y + 1);
    IPieceHits(0, g.x, g.y + 2);
    LooseFall(g);
  }

  lemma TurnsUp(draws: Draws, g: Game, rotation: Turn, k: nat)
    requires Loose(g.(rotation := 0)) && k < 7
    requires forall i :: 0 <= i < k ==> KickHits(g, rotation, i)
    requires !KickHits(g, rotation, k)
    ensures Rotate(g, rotation) == g.(rotation := rotation, x := g.x + Kick(k).x, y := g.y + Kick(k).y)
  {
    KickIsFirst(g, rotation, k);
    hide KickHits, FirstKick, Kick;
  }

  lemma FirstTurnKicks(g: Game)
    requires AtTheTurn(g)
    ensures forall i :: 0 <= i < 3 ==> KickHits(g, 1, i)
    ensures !KickHits(g, 1, 3)
  {
    IPieceHits(1, 3, 19);
    IPieceHits(1, 2, 19);
    IPieceHits(1, 4, 19);
    IPieceHits(1, 3, 18);
    hide Collides, EmptyRows;
  }

  /** The first turn is kicked up a row. */
  lemma FirstTurn(draws: Draws, g: Game)
    requires AtTheTurn(g)
    ensures Apply(draws, g, ACTION_ROTATE_CW) == g.(rotation := 1, y := 18)
  {
    hide KickHits, EmptyRows, Rotate, HardDrop, Hold, SoftDrop, Shift;
    FirstTurnKicks(g);
    TurnsUp(draws, g, 1, 3);
  }

  lemma NextTurnKick(g: Game, next: Turn)
    requires Loose(g.(rotation := 0)) && g.y == 18
    ensures !KickHits(g, next, 0)
  {
    IPieceHits(next, 3, 18);
    hide Collides, EmptyRows;
  }

  lemma NextTurn(draws: Draws, g: Game)
    requires Loose(g.(rotation := 0)) && g.y == 18
    ensures Apply(draws, g, ACTION_ROTATE_CW) == g.(rotation := (g.rotation + 1) % 4)
  {
    hide KickHits, EmptyRows, Rotate, HardDrop, Hold, SoftDrop, Shift;
    NextTurnKick(g, (g.rotation + 1) % 4);
    TurnsUp(draws, g, (g.rotation + 1) % 4, 0);
  }

  lemma TurnFrom(draws: Draws, g: Game, r: Turn)
    requires AtTheTurn(g)
    ensures After(draws, g.(rotation := r, y := if r == 0 then 19 else 18), Press(ACTION_ROTATE_CW))
         == g.(rotation := (r + 1) % 4, y := 18)
  {
    hide EmptyRows, Apply;
    if r == 0 {
      FirstTurn(draws, g);
    } else {
      NextTurn(draws, g.(rotation := r, y := 18));
    }
  }

  lemma FlatAtTheTurn(g: Game)
    requires AtTheTurn(g)
    ensures g.(rotation := 0, y := 19) == g && g.(rotation := 0, y := 18) == g.(y := 18)
  {
    hide EmptyRows;
  }

  /** Four turns leave the piece flat again, a row further up, its lock clock not run. */
  lemma FourTurns(draws: Draws, g: Game)
    requires AtTheTurn(g)
    ensures var turn := Press(ACTION_ROTATE_CW);
      AfterAll(draws, g, [turn, turn, turn, turn]) == g.(y := 18)
      && GroundedTicks(draws, g, [turn, turn, turn, turn]) == 0
  {
    hide *;
    FlatAtTheTurn(g);
    TurnFrom(draws, g, 0);
    TurnFrom(draws, g, 1);
    TurnFrom(draws, g, 2);
    TurnFrom(draws, g, 3);
    PressesInTurn(draws, g, Press(ACTION_ROTATE_CW));
  }

  lemma PressesInTurn(draws: Draws, g: Game, turn: Input)
    requires turn.Press?
    ensures AfterAll(draws, g, [turn, turn, turn, turn])
         == After(draws, After(draws, After(draws, After(draws, g, turn), turn), turn), turn)
    ensures GroundedTicks(draws, g, [turn, turn, turn, turn]) == 0
  {
    hide After, EndsGrounded;
    var g1 := After(draws, g, turn);
    var g2 := After(draws, g1, turn);
    var g3 := After(draws, g2, turn);
    PressFirst(draws, g3, turn, []);
    PressFirst(draws, g2, turn, [turn]);
    PressFirst(draws, g1, turn, [turn, turn]);
    PressFirst(draws, g, turn, [turn, turn, turn]);
    hide AfterAll, GroundedTicks;
    assert [turn] + [turn, turn, turn] == [turn, turn, turn, turn];
  }

  lemma PressFirst(draws: Draws, g: Game, turn: Input, rest: seq<Input>)
    requires turn.Press?
    ensures AfterAll(draws, g, [turn] + rest) == AfterAll(draws, After(draws, g, turn), rest)
    ensures GroundedTicks(draws, g, [turn] + rest) == GroundedTicks(draws, After(draws, g, turn), rest)
  {
    hide After, EndsGrounded;
    assert ([turn] + rest)[1..] == rest;
  }

  lemma {:induction false} AfterAllAppend(draws: Draws, g: Game, a: seq<Input>, b: seq<Input>)
    ensures AfterAll(draws, g, a + b) == AfterAll(draws, AfterAll(draws, g, a), b)
    ensures GroundedTicks(draws, g, a + b)
         == GroundedTicks(draws, g, a) + GroundedTicks(draws, AfterAll(draws, g, a), b)
    decreases |a|
  {
    hide After, EndsGrounded;
    if a == [] {
      assert a + b == b;
    } else {
      assert (a + b)[0] == a[0] && (a + b)[1..] == a[1..] + b;
      AfterAllAppend(draws, After(draws, g, a[0]), a[1..], b);
    }
  }

  /** n ticks of free fall. */
  lemma {:induction false} FallFreely(draws: Draws, g: Game, n: nat)
    requires Loose(g)
    requires g.y + (g.gravityCounter + n) / 48 <= 19
    ensures var h := AfterAll(draws, g, Ticks(n));
      Loose(h) && h.tick == g.tick + n
      && 48 * h.y + h.gravityCounter == 48 * g.y + g.gravityCounter + n
      && h.lockFloor == (if n == 0 then g.lockFloor else Max(g.lockFloor, h.y))
      && GroundedTicks(draws, g, Ticks(n)) == 0
    decreases n
  {
    if n > 0 {
      assert Ticks(n)[0] == Tick && Ticks(n)[1..] == Ticks(n - 1);
      LooseTick(draws, g);
      hide Loose, Step, EndsGrounded;
      FallFreely(draws, Step(draws, g), n - 1);
    }
  }

  /** One round ends where it began, 48 ticks later, and no tick of it ended grounded. */
  lemma RoundComesBack(draws: Draws, g: Game)
    requires AtTheTurn(g)
    ensures AtTheTurn(AfterAll(draws, g, Round()))
    ensures AfterAll(draws, g, Round()).tick == g.tick + 48
    ensures GroundedTicks(draws, g, Round()) == 0
  {
    var turn := Press(ACTION_ROTATE_CW);
    FourTurns(draws, g);
    AfterAllAppend(draws, g, [turn, turn, turn, turn], Ticks(48));
    hide AfterAll, GroundedTicks, EmptyRows;
    FallFreely(draws, g.(y := 18), 48);
  }

  lemma {:induction false} RoundsComeBack(draws: Draws, g: Game, n: nat)
    requires AtTheTurn(g)
    ensures AtTheTurn(AfterAll(draws, g, Rounds(n)))
    ensures AfterAll(draws, g, Rounds(n)).tick == g.tick + 48 * n
    ensures GroundedTicks(draws, g, Rounds(n)) == 0
  {
    hide AtTheTurn, Round;
    if n > 0 {
      RoundsComeBack(draws, g, n - 1);
      AfterAllAppend(draws, g, Rounds(n - 1), Round());
      RoundComesBack(draws, AfterAll(draws, g, Rounds(n - 1)));
    }
  }

  /** With an I dealt first, turning alone keeps it in play for as many ticks as one likes,
      and no tick ever ends with it grounded: the cap on resets bounds the grounded ticks
      of a stay, not the stay. */
  lemma AirborneStallIsUnbounded(draws: Draws, n: nat)
    requires PieceAt(draws, 0) == 0
    ensures var inputs := Ticks(912) + Rounds(n);
      var g := AfterAll(draws, Start(draws), inputs);
      !g.over && g.index == 1 && g.locked == 0 && g.piece == 0
      && g.tick == 912 + 48 * n
      && GroundedTicks(draws, Start(draws), inputs) == 0
  {
    var start := Start(draws);
    IPieceHits(0, 3, 0);
    hide Collides, EmptyRows, PieceAt, Ticks, Rounds, AfterAll, GroundedTicks;
    assert Loose(start) && start.y == 0 && start.tick == 0 && start.gravityCounter == 0 && start.lockFloor == 0;
    hide Start, Loose;
    FallFreely(draws, start, 912);
    AfterAllAppend(draws, start, Ticks(912), Rounds(n));
    var turn := AfterAll(draws, start, Ticks(912));
    Landed(turn);
    RoundsComeBack(draws, turn, n);
    TurnFacts(AfterAll(draws, turn, Rounds(n)));
  }

  lemma Landed(g: Game)
    requires Loose(g) && 48 * g.y + g.gravityCounter == 912 && g.lockFloor == Max(0, g.y)
    ensures AtTheTurn(g)
  {
  }

  lemma TurnFacts(g: Game)
    requires AtTheTurn(g)
    ensures !g.over && g.index == 1 && g.locked == 0 && g.piece == 0
  {
  }
}
