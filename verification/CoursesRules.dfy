/** The rules of Courses as functions on values: what spawn, lock, an input and a
    tick do to a game. */
module CoursesRules {
  import opened Arcade
  import opened Basics
  import opened CoursesBag
  import opened CoursesBoard

  const MAX_PIECES: nat := 300
  const SOFT_DROP_POINTS: nat := 1
  const HARD_DROP_POINTS: nat := 2
  const BACK_TO_BACK_MULTIPLIER: nat := 3
  const BACK_TO_BACK_DIVISOR: nat := 2
  const LOCK_DELAY: nat := 30
  const LOCK_RESETS: nat := 15

  const ACTION_LEFT: int := 0
  const ACTION_RIGHT: int := 1
  const ACTION_ROTATE_CW: int := 2
  const ACTION_ROTATE_CCW: int := 3
  const ACTION_SOFT_DROP: int := 4
  const ACTION_HARD_DROP: int := 5
  const ACTION_HOLD: int := 6

  /** A game. The last two fields are history the program does not store: how many
      pieces have locked, and how many of their cells were off the board. */
  datatype Game = Game(
    board: Board,
    tick: nat,
    index: nat,
    piece: Kind,
    hasPiece: bool,
    rotation: Turn,
    x: int,
    y: int,
    hold: Kind,
    hasHold: bool,
    holdUsed: bool,
    score: nat,
    lines: nat,
    level: nat,
    gravityCounter: nat,
    lockCounter: nat,
    lockResets: nat,
    lockFloor: int,
    backToBack: bool,
    over: bool,
    locked: nat,
    lost: nat)

  function NewGame(): Game
  {
    Game(EmptyRows(TOTAL_HEIGHT), 0, 0, 0, false, 0, 0, 0, 0, false, false, 0, 0, 0, 0, 0, 0, 0, false, false, 0, 0)
  }

  /** Ticks per row. */
  function GravityInterval(level: nat): (ticks: nat)
    ensures 1 <= ticks <= 48
  {
    if level == 0 then 48
    else if level == 1 then 40
    else if level == 2 then 32
    else if level == 3 then 25
    else if level == 4 then 19
    else if level == 5 then 14
    else if level == 6 then 10
    else if level == 7 then 7
    else if level == 8 then 5
    else if level == 9 then 3
    else if level == 10 then 2
    else 1
  }

  function LevelFor(lines: nat): nat
  {
    lines / 10
  }

  /** LINE_SCORES. */
  function LineScore(cleared: nat): (points: nat)
    requires cleared <= 4
    ensures points <= 800
  {
    if cleared == 0 then 0
    else if cleared == 1 then 100
    else if cleared == 2 then 300
    else if cleared == 3 then 500
    else 800
  }

  function ClearPoints(cleared: nat, level: nat, backToBack: bool): nat
  {
    var points := LineScore(Min(cleared, 4)) * (level + 1);
    if cleared == 4 && backToBack then points * BACK_TO_BACK_MULTIPLIER / BACK_TO_BACK_DIVISOR else points
  }

  /** Whether the piece of g would hit something at (x, y). */
  predicate HitsAt(g: Game, x: int, y: int)
  {
    Collides(g.board, g.piece, g.rotation, x, y)
  }

  /** Whether the piece rests on something: one row further down does not fit. */
  predicate Grounded(g: Game)
  {
    HitsAt(g, g.x, g.y + 1)
  }

  /** Put a piece in play at the top; a placement that does not fit ends the run. */
  function Enter(g: Game, piece: Kind): Game
  {
    g.(piece := piece, hasPiece := true, rotation := 0, x := 3, y := 0,
       gravityCounter := 0, lockCounter := 0, lockResets := 0, lockFloor := 0,
       over := g.over || Collides(g.board, piece, 0, 3, 0))
  }

  function Spawn(draws: Draws, g: Game): Game
  {
    if g.index >= MAX_PIECES then g.(over := true)
    else Enter(g, PieceAt(draws, g.index)).(index := g.index + 1, holdUsed := false)
  }

  /** The board, the score and the level once the piece has settled. */
  function Settle(g: Game): Game
  {
    var stamped := Stamp(g.board, g.piece, g.rotation, g.x, g.y);
    var cleared := FullRows(stamped);
    var settled := g.(board := Cleared(stamped), hasPiece := false, locked := g.locked + 1,
                      lost := g.lost + OffBoard(Shape(g.piece, g.rotation), g.x, g.y));
    if cleared == 0 then settled
    else settled.(score := g.score + ClearPoints(cleared, g.level, g.backToBack),
                  lines := g.lines + cleared,
                  level := LevelFor(g.lines + cleared),
                  backToBack := cleared == 4)
  }

  function Lock(draws: Draws, g: Game): Game
  {
    Spawn(draws, Settle(g))
  }

  function ResetLock(g: Game): Game
  {
    if g.lockCounter > 0 && g.lockResets < LOCK_RESETS
    then g.(lockCounter := 0, lockResets := g.lockResets + 1)
    else g
  }

  function Shift(g: Game, dx: int): Game
  {
    if HitsAt(g, g.x + dx, g.y) then g else ResetLock(g.(x := g.x + dx))
  }

  /** The wall kicks, in the order they are tried. */
  function Kick(k: nat): Cell
    requires k < 7
  {
    if k == 0 then Cell(0, 0)
    else if k == 1 then Cell(-1, 0)
    else if k == 2 then Cell(1, 0)
    else if k == 3 then Cell(0, -1)
    else if k == 4 then Cell(-1, -1)
    else if k == 5 then Cell(1, -1)
    else Cell(0, -2)
  }

  predicate KickHits(g: Game, rotation: Turn, k: nat)
    requires k < 7
  {
    Collides(g.board, g.piece, rotation, g.x + Kick(k).x, g.y + Kick(k).y)
  }

  /** The first kick at or after k that fits, or 7. */
  function FirstKick(g: Game, rotation: Turn, k: nat): (first: nat)
    requires k <= 7
    ensures k <= first <= 7
    ensures first < 7 ==> !KickHits(g, rotation, first)
    ensures forall i :: k <= i < first ==> KickHits(g, rotation, i)
    decreases 7 - k
  {
    if k == 7 || !KickHits(g, rotation, k) then k else FirstKick(g, rotation, k + 1)
  }

  lemma KickIsFirst(g: Game, next: Turn, k: nat)
    requires k < 7 && !KickHits(g, next, k)
    requires forall i :: 0 <= i < k ==> KickHits(g, next, i)
    ensures FirstKick(g, next, 0) == k
  {
    hide KickHits, FirstKick;
    assert forall i :: 0 <= i < FirstKick(g, next, 0) ==> KickHits(g, next, i);
  }

  lemma NoKickFits(g: Game, next: Turn)
    requires forall i :: 0 <= i < 7 ==> KickHits(g, next, i)
    ensures FirstKick(g, next, 0) == 7
  {
    hide KickHits, FirstKick;
  }

  function Rotate(g: Game, rotation: Turn): Game
  {
    var k := FirstKick(g, rotation, 0);
    if k == 7 then g
    else ResetLock(g.(rotation := rotation, x := g.x + Kick(k).x, y := g.y + Kick(k).y))
  }

  function SoftDrop(g: Game): Game
  {
    if Grounded(g) then g
    else g.(y := g.y + 1, score := g.score + SOFT_DROP_POINTS, gravityCounter := 0)
  }

  /** Where the piece of g comes to rest. */
  function RestRow(g: Game): int
  {
    Landing(g.board, g.piece, g.rotation, g.x, g.y)
  }

  function HardDrop(draws: Draws, g: Game): Game
  {
    var rest := RestRow(g);
    Lock(draws, g.(y := rest, score := g.score + (rest - g.y) * HARD_DROP_POINTS))
  }

  function Hold(draws: Draws, g: Game): Game
  {
    if g.holdUsed then g
    else if g.hasHold then Enter(g, g.hold).(hold := g.piece, holdUsed := true)
    else Spawn(draws, g.(hold := g.piece, hasHold := true)).(holdUsed := true)
  }

  function Apply(draws: Draws, g: Game, action: int): Game
  {
    if g.over || !g.hasPiece then g
    else if action == ACTION_LEFT then Shift(g, -1)
    else if action == ACTION_RIGHT then Shift(g, 1)
    else if action == ACTION_ROTATE_CW then Rotate(g, (g.rotation + 1) % 4)
    else if action == ACTION_ROTATE_CCW then Rotate(g, (g.rotation + 3) % 4)
    else if action == ACTION_SOFT_DROP then SoftDrop(g)
    else if action == ACTION_HARD_DROP then HardDrop(draws, g)
    else if action == ACTION_HOLD then Hold(draws, g)
    else g
  }

  /** The gravity half of a tick. */
  function Fall(g: Game): Game
  {
    if g.gravityCounter + 1 < GravityInterval(g.level) then g.(gravityCounter := g.gravityCounter + 1)
    else if Grounded(g) then g.(gravityCounter := 0)
    else g.(gravityCounter := 0, y := g.y + 1)
  }

  /** The lock half of a tick: its own clock, run only while the piece is grounded. */
  function Rest(draws: Draws, g: Game): Game
  {
    if Grounded(g) then
      var held := g.(lockCounter := g.lockCounter + 1);
      if held.lockCounter >= LOCK_DELAY then Lock(draws, held) else held
    else if g.y > g.lockFloor then g.(lockFloor := g.y, lockCounter := 0, lockResets := 0)
    else g
  }

  function Step(draws: Draws, g: Game): Game
  {
    if g.over then g
    else
      var s := if g.hasPiece then g else Spawn(draws, g);
      if s.over then s
      else
        var t := Rest(draws, Fall(s));
        t.(tick := t.tick + 1)
  }

  /** The state a run starts from. */
  function Start(draws: Draws): Game
  {
    Spawn(draws, NewGame())
  }
}
