/** What a run of Courses is paid: for each lock by the rows it fills, and over a whole run
    by its clears and its drops alone. */
module CoursesScores {
  import opened Arcade
  import opened Basics
  import opened CoursesBag
  import opened CoursesBoard
  import opened CoursesRules
  import opened CoursesInvariants
  import opened CoursesRuns
  import opened CoursesMoves
  import opened CoursesDeals

  // ----- one lock -----

  /** The rows of a board with no empty cell. */
  function FilledRows(b: seq<Row>): set<nat>
  {
    set r | 0 <= r < |b| && 0 !in b[r]
  }

  lemma {:induction false} RowsAreCounted(b: seq<Row>)
    ensures FullRows(b) == |FilledRows(b)|
  {
    hide FullRows, OpenRows;
    if b == [] {
      NoRowsFilled();
    } else {
      var last := |b| - 1;
      RowsAreCounted(b[..last]);
      LastRowCounts(b);
      RowsAround(b, last);
      assert b[last + 1..] == [];
      NoRowsFilled();
    }
  }

  lemma NoRowsFilled()
    ensures FullRows([]) == 0 && FilledRows([]) == {}
  {
  }

  lemma LastRowCounts(b: seq<Row>)
    requires b != []
    ensures |FilledRows(b)| == |FilledRows(b[..|b| - 1])| + if Full(b[|b| - 1]) then 1 else 0
  {
    var last := |b| - 1;
    if Full(b[last]) {
      assert FilledRows(b) == FilledRows(b[..last]) + {last};
    } else {
      assert FilledRows(b) == FilledRows(b[..last]);
    }
  }

  /** The board of g with its piece written into it. */
  function Written(g: Game): Board
  {
    Stamp(g.board, g.piece, g.rotation, g.x, g.y)
  }

  /** What a lock pays, by the rows it fills: 100, 300, 500 or 800 times the level counted
      from one, and for four rows half as much again when the clear before also took four. */
  lemma LockPays(draws: Draws, g: Game)
    requires Books(g)
    ensures var rows, h, times := |FilledRows(Written(g))|, Lock(draws, g), g.level + 1;
      && rows <= 4
      && (rows == 0 ==> h.score == g.score)
      && (rows == 1 ==> h.score == g.score + 100 * times)
      && (rows == 2 ==> h.score == g.score + 300 * times)
      && (rows == 3 ==> h.score == g.score + 500 * times)
      && (rows == 4 && !g.backToBack ==> h.score == g.score + 800 * times)
      && (rows == 4 && g.backToBack ==> h.score == g.score + 800 * times * 3 / 2)
      && h.lines == g.lines + rows && h.level == h.lines / 10
      && h.backToBack == (if rows == 0 then g.backToBack else rows == 4)
  {
    hide *;
    RowsAreCounted(Written(g));
    FewRows(g);
    SettlePays(g);
    SpawnKeepsScore(draws, g);
    ClearPays(|FilledRows(Written(g))|, g.level, g.backToBack);
  }

  lemma FewRows(g: Game)
    requires Books(g)
    ensures FullRows(Written(g)) <= 4 && g.level == g.lines / 10
  {
    hide Stamp, FullRows, Filled, NoRowFull;
    FewRowsFill(g);
  }

  lemma SettlePays(g: Game)
    ensures var rows, h := FullRows(Written(g)), Settle(g);
      && h.score == g.score + (if rows == 0 then 0 else ClearPoints(rows, g.level, g.backToBack))
      && h.lines == g.lines + rows && h.level == (if rows == 0 then g.level else h.lines / 10)
      && h.backToBack == if rows == 0 then g.backToBack else rows == 4
  {
    hide Stamp, Shape, OffBoard, Cleared, FullRows, ClearPoints;
  }

  lemma SpawnKeepsScore(draws: Draws, g: Game)
    ensures var h, s := Lock(draws, g), Settle(g);
      h.score == s.score && h.lines == s.lines && h.level == s.level && h.backToBack == s.backToBack
  {
    hide Settle, Collides, PieceAt;
  }

  lemma ClearPays(rows: nat, level: nat, afterFour: bool)
    requires rows <= 4
    ensures var times, pay := level + 1, if rows == 0 then 0 else ClearPoints(rows, level, afterFour);
      && (rows == 0 ==> pay == 0) && (rows == 1 ==> pay == 100 * times) && (rows == 2 ==> pay == 300 * times)
      && (rows == 3 ==> pay == 500 * times) && (rows == 4 && !afterFour ==> pay == 800 * times)
      && (rows == 4 && afterFour ==> pay == 800 * times * 3 / 2)
  {
  }

  /** What so many rows pay at a level. */
  function Pay(rows: nat, level: nat, afterFour: bool): nat
  {
    var table := [0, 100, 300, 500, 800];
    if rows > 4 then 0
    else if rows == 4 && afterFour then 800 * (level + 1) * 3 / 2
    else table[rows] * (level + 1)
  }

  /** More rows at once pay more, by more than the rows would one by one. */
  lemma MoreRowsPayMore(rows: nat, level: nat, afterFour: bool)
    requires rows < 4
    ensures Pay(rows, level, afterFour) < Pay(rows + 1, level, afterFour)
    ensures rows >= 1 ==> Pay(rows, level, afterFour) + Pay(1, level, afterFour) < Pay(rows + 1, level, afterFour)
  {
    assert 800 * (level + 1) * 3 / 2 == 1200 * (level + 1);
  }

  // ----- a whole run -----

  /** From a game to what it turned into: the rows cleared between them are paid, and
      something for a drop. */
  predicate IsPaid(g: Game, h: Game, drop: nat)
  {
    var rows := h.lines - g.lines;
    && 0 <= rows <= 4
    && h.score == g.score + Pay(rows, g.level, g.backToBack) + drop
    && h.backToBack == (if rows == 0 then g.backToBack else rows == 4)
  }

  /** The same but for what has been paid for a drop. */
  predicate OnlyDrops(g: Game, h: Game, drop: nat)
  {
    h.lines == g.lines && h.level == g.level && h.backToBack == g.backToBack && h.score == g.score + drop
  }

  lemma LockIsPaid(draws: Draws, g: Game, dropped: Game, drop: nat)
    requires Books(dropped) && OnlyDrops(g, dropped, drop)
    ensures IsPaid(g, Lock(draws, dropped), drop)
  {
    var rows := FullRows(Written(dropped));
    FewRows(dropped);
    SettlePays(dropped);
    SpawnKeepsScore(draws, dropped);
    ClearIsPay(rows, g.level, g.backToBack);
    hide Lock, Settle, FullRows, Written, Books, ClearPoints, Pay;
  }

  lemma ClearIsPay(rows: nat, level: nat, afterFour: bool)
    requires rows <= 4
    ensures Pay(0, level, afterFour) == 0
    ensures rows > 0 ==> ClearPoints(rows, level, afterFour) == Pay(rows, level, afterFour)
  {
  }

  lemma NothingIsPaid(g: Game, h: Game, drop: nat)
    requires OnlyDrops(g, h, drop)
    ensures IsPaid(g, h, drop)
  {
  }

  /** What an input pays as a drop: a point for a row down, two for each row of a fall to
      where the piece has no room further down. */
  function Drop(g: Game, input: Input): nat
  {
    if g.over || !g.hasPiece then 0
    else if input == Press(4) && HasRoom(g, g.rotation, g.x, g.y + 1) then 1
    else if input == Press(5) then 2 * RowsToFall(g, g.y)
    else 0
  }

  /** The rows below y that the piece has room in, up to the first it has not. */
  function RowsToFall(g: Game, y: int): (rows: nat)
    decreases 22 - y
  {
    if y < 22 && HasRoom(g, g.rotation, g.x, y + 1) then 1 + RowsToFall(g, y + 1) else 0
  }

  lemma {:induction false} FallsThatFar(g: Game, y: int)
    ensures var rest := y + RowsToFall(g, y);
      !(y < 22 && HasRoom(g, g.rotation, g.x, rest + 1)) && forall v :: y < v <= rest ==> HasRoom(g, g.rotation, g.x, v)
    decreases 22 - y
  {
    hide HasRoom;
    if y < 22 && HasRoom(g, g.rotation, g.x, y + 1) {
      FallsThatFar(g, y + 1);
      NoRoomBelow(g, y + 1);
    }
  }

  /** There is no room below the floor. */
  lemma NoRoomBelow(g: Game, y: int)
    ensures y >= 22 ==> !HasRoom(g, g.rotation, g.x, y + 1)
  {
    ShapeFacts(g.piece, g.rotation);
    assert Shape(g.piece, g.rotation)[0] in Shape(g.piece, g.rotation);
    hide Shape;
  }

  /** The piece where it has no room further down, and the fall paid. */
  function FarDown(g: Game): Game
  {
    g.(y := g.y + RowsToFall(g, g.y), score := g.score + 2 * RowsToFall(g, g.y))
  }

  lemma HardDropFalls(draws: Draws, g: Game)
    requires Sound(g) && !g.over
    ensures Apply(draws, g, 5) == Lock(draws, FarDown(g))
  {
    FallsThatFar(g, g.y);
    hide HasRoom, Apply, Lock, RowsToFall, Books, HitsAt;
    HardDropLands(draws, g, g.y + RowsToFall(g, g.y));
  }

  lemma FarDownKeepsBooks(g: Game)
    requires Sound(g)
    ensures Books(FarDown(g)) && OnlyDrops(g, FarDown(g), 2 * RowsToFall(g, g.y))
  {
    hide NoRowFull, Filled, RowsToFall, Placed, Clocks;
  }

  lemma HardDropIsPaid(draws: Draws, g: Game)
    requires Sound(g) && !g.over
    ensures IsPaid(g, Apply(draws, g, 5), Drop(g, Press(5)))
  {
    hide Apply, Lock, RowsToFall, Books, HitsAt, HasRoom, FarDown, IsPaid;
    HardDropFalls(draws, g);
    FarDownKeepsBooks(g);
    LockIsPaid(draws, g, FarDown(g), 2 * RowsToFall(g, g.y));
  }

  lemma InputIsPaid(draws: Draws, g: Game, action: int)
    requires Sound(g)
    ensures IsPaid(g, Apply(draws, g, action), Drop(g, Press(action)))
  {
    var h := Apply(draws, g, action);
    if g.over || action < 0 || action > 6 {
      NothingElse(draws, g, action);
    } else if action == 5 {
      HardDropIsPaid(draws, g);
    } else if action == 4 {
      SoftDropFalls(draws, g);
    } else if action == 6 {
      HoldExchanges(draws, g);
    } else {
      MovesPayNothing(draws, g, action);
    }
    hide Apply, HasRoom, RowsToFall, IsPaid, Books, HitsAt, PieceAt;
    if action != 5 {
      NothingIsPaid(g, h, Drop(g, Press(action)));
    }
  }

  lemma MovesPayNothing(draws: Draws, g: Game, action: int)
    requires 0 <= action <= 3
    ensures OnlyDrops(g, Apply(draws, g, action), 0)
  {
    hide HitsAt, FirstKick, Kick;
  }

  lemma TickIsPaid(draws: Draws, g: Game)
    requires Sound(g)
    ensures IsPaid(g, Step(draws, g), 0)
  {
    if !g.over {
      StepIs(draws, g);
      FallSound(g);
      FallPaysNothing(g);
      RestIsPaid(draws, g, Fall(g));
    }
    hide Step, Rest, Fall, Sound;
  }

  lemma FallPaysNothing(g: Game)
    ensures OnlyDrops(g, Fall(g), 0)
  {
    hide HitsAt, GravityInterval;
  }

  lemma RestIsPaid(draws: Draws, g: Game, fallen: Game)
    requires Books(fallen) && OnlyDrops(g, fallen, 0)
    ensures IsPaid(g, Rest(draws, fallen), 0)
  {
    hide Lock, Rest, Books, IsPaid, OnlyDrops, Longer;
    LongerKeepsBooks(g, fallen);
    RestLocksOrNot(draws, g, fallen);
    LockIsPaid(draws, g, Longer(fallen), 0);
    if OnlyDrops(g, Rest(draws, fallen), 0) {
      NothingIsPaid(g, Rest(draws, fallen), 0);
    }
  }

  /** The lock clock one on. */
  function Longer(g: Game): Game
  {
    g.(lockCounter := g.lockCounter + 1)
  }

  lemma LongerKeepsBooks(g: Game, fallen: Game)
    ensures Books(fallen) ==> Books(Longer(fallen))
    ensures OnlyDrops(g, fallen, 0) ==> OnlyDrops(g, Longer(fallen), 0)
  {
    hide NoRowFull, Filled;
  }

  lemma RestLocksOrNot(draws: Draws, g: Game, fallen: Game)
    requires OnlyDrops(g, fallen, 0)
    ensures Rest(draws, fallen) == Lock(draws, Longer(fallen)) || OnlyDrops(g, Rest(draws, fallen), 0)
  {
    hide Lock, HitsAt;
  }

  /** Over a run: how many rows the last of some inputs cleared ... */
  function RowsCleared(draws: Draws, inputs: seq<Input>): int
    requires inputs != []
  {
    GameAfter(draws, inputs).lines - GameAfter(draws, inputs[..|inputs| - 1]).lines
  }

  /** ... whether the last clear so far took four ... */
  function AfterFour(draws: Draws, inputs: seq<Input>): bool
  {
    if inputs == [] then false
    else if RowsCleared(draws, inputs) == 0 then AfterFour(draws, inputs[..|inputs| - 1])
    else RowsCleared(draws, inputs) == 4
  }

  /** ... and what the clears and the drops are worth. */
  function Earned(draws: Draws, inputs: seq<Input>): nat
  {
    if inputs == [] then 0
    else
      var earlier, last := inputs[..|inputs| - 1], inputs[|inputs| - 1];
      var g := GameAfter(draws, earlier);
      Earned(draws, earlier)
      + Pay(Max(0, RowsCleared(draws, inputs)), g.lines / 10, AfterFour(draws, earlier))
      + Drop(g, last)
  }

  /** Whatever is pressed and whenever, the score is what the clears and the drops are worth,
      to the point, each clear at the level of the lines before it. */
  lemma {:induction false} ScoreIsEarned(draws: Draws, inputs: seq<Input>)
    ensures var g := GameAfter(draws, inputs);
      && g.score == Earned(draws, inputs) && g.backToBack == AfterFour(draws, inputs)
      && g.level == g.lines / 10
    decreases |inputs|
  {
    hide GameAfter, Drop, Pay, Sound;
    SitSound(draws, inputs);
    LevelFollows(GameAfter(draws, inputs));
    if inputs == [] {
      StartsWithNothing(draws);
    } else {
      var earlier := inputs[..|inputs| - 1];
      ScoreIsEarned(draws, earlier);
      SitSound(draws, earlier);
      LiveIsPaid(draws, inputs);
    }
  }

  lemma LevelFollows(g: Game)
    requires Sound(g)
    ensures g.level == g.lines / 10
  {
    hide NoRowFull, Filled, Placed, Clocks;
  }

  lemma StartsWithNothing(draws: Draws)
    ensures var g := GameAfter(draws, []); g.score == 0 && !g.backToBack
  {
    hide PieceAt, Collides;
  }

  lemma LiveIsPaid(draws: Draws, inputs: seq<Input>)
    requires inputs != [] && Sound(GameAfter(draws, inputs[..|inputs| - 1]))
    ensures var earlier := inputs[..|inputs| - 1];
      var g := GameAfter(draws, earlier);
      IsPaid(g, GameAfter(draws, inputs), Drop(g, inputs[|inputs| - 1]))
  {
    hide Sound, Step, Apply, HasRoom, RowsToFall, IsPaid;
    var g := GameAfter(draws, inputs[..|inputs| - 1]);
    match inputs[|inputs| - 1]
    case Tick => TickIsPaid(draws, g);
    case Press(action) =>
      InputIsPaid(draws, g, action);
      NothingIsPaid(g, g, 0);
  }
}
