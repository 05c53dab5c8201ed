/** The rules of Quarry as functions on values, with balls and capsules as lists: the
    page's own form. The core and the page differ in two places, named by Twin. */
module QuarryRules {
  import opened Arcade
  import opened Basics

  const FIELD_W: int := 3840
  const FIELD_H: int := 5120
  const PADDLE_W: int := 640
  const PADDLE_H: int := 64
  const PADDLE_Y: int := 4864
  const PADDLE_SPEED: int := 112
  const BALL_R: int := 48
  const BALL_SPEED: int := 32
  const BALL_SPEED_MAX: int := 96
  const SPEED_STEP: int := 4
  const SPEED_RALLY: nat := 2
  const BRICK_W: int := 384
  const BRICK_H: int := 160
  const BRICK_COLS: int := 8
  const BRICK_ROWS: int := 4
  const BRICK_TOP: int := 640
  const CELLS: nat := 32
  const MAX_TICKS: nat := 7200
  const MAX_BALLS: nat := 5
  const MAX_CAPSULES: nat := 16
  const START_LIVES: int := 3
  const SLOW_TICKS: nat := 600
  const CAPSULE_SPEED: int := 16
  const CAPSULE_SCORE: nat := 100
  const CAPSULE_CHANCE: nat := 3

  const EMPTY: int := 0
  const SOLID: int := -1

  const ACTION_TARGET: int := 0
  const ACTION_LAUNCH: int := 1

  const CAPSULE_WIDEN: nat := 0
  const CAPSULE_MULTI: nat := 1
  const CAPSULE_SLOW: nat := 2

  /** The two implementations of one set of rules. */
  datatype Twin = Core | Page

  datatype Ball = Ball(x: int, y: int, vx: int, vy: int)

  datatype Capsule = Capsule(x: int, y: int, kind: nat)

  /** Hits a brick still takes; 0 is a gap and -1 cannot be broken. */
  type Tier = t: int | -1 <= t <= 3

  type Wall = w: seq<Tier> | |w| == 32 witness seq(32, _ => 0)

  type PaddleWidth = w: int | 640 <= w <= 1024 witness 640

  type Pace = s: int | 32 <= s <= 96 witness 32

  /** A game. The last three fields are history neither program stores: brick hits,
      capsules caught, and capsules that came due with sixteen already falling. */
  datatype Game = Game(
    tick: nat,
    level: nat,
    score: nat,
    lives: int,
    bricks: Wall,
    paddleX: int,
    paddleW: PaddleWidth,
    target: int,
    balls: seq<Ball>,
    capsules: seq<Capsule>,
    held: bool,
    catching: bool,
    slow: nat,
    over: bool,
    bricksBroken: nat,
    speed: Pace,
    rally: nat,
    hits: nat,
    caught: nat,
    refused: nat)

  /** Division that rounds toward zero, as the core's and the page's does. */
  function TruncDiv(a: int, b: int): (q: int)
    requires b > 0
    ensures 0 <= a ==> 0 <= q && b * q <= a < b * (q + 1)
    ensures a <= 0 ==> q <= 0 && b * (q - 1) < a <= b * q
  {
    if a >= 0 then a / b else -((-a) / b)
  }

  // ----- the wall -----

  function TierAt(draws: Draws, level: nat, row: nat, col: nat): Tier
  {
    var roll := draws((((level * 256 + row) % U32_LIMIT) * 16 + col) % U32_LIMIT) % 100;
    if roll < 8 + level * 2 then (if row < BRICK_ROWS - 2 then SOLID else 1)
    else if roll < 34 then EMPTY
    else if row == 0 then 3
    else if row == 1 then 2
    else 1
  }

  function WallAt(draws: Draws, level: nat): Wall
  {
    seq(32, i requires 0 <= i < 32 => TierAt(draws, level, i / 8, i % 8))
  }

  /** No solid brick in the lower half of any wall, where it could bar the way up. */
  lemma NoSolidBrickLow(draws: Draws, level: nat, index: nat)
    requires CELLS / 2 <= index < CELLS
    ensures WallAt(draws, level)[index] == EMPTY || WallAt(draws, level)[index] == 1
  {
    assert index / 8 >= 2;
  }

  /** The brick a point is in, or -1. */
  function BrickAt(x: int, y: int): (cell: int)
    ensures -1 <= cell < CELLS
  {
    if y < BRICK_TOP then -1
    else
      var row, col := (y - BRICK_TOP) / BRICK_H, x / BRICK_W;
      if row < 0 || row >= BRICK_ROWS || col < 0 || col >= BRICK_COLS then -1 else row * BRICK_COLS + col
  }

  /** The point is inside the brick of a cell. */
  predicate CellHolds(cell: int, x: int, y: int)
  {
    && 0 <= cell < CELLS
    && BRICK_TOP + cell / BRICK_COLS * BRICK_H <= y < BRICK_TOP + (cell / BRICK_COLS + 1) * BRICK_H
    && cell % BRICK_COLS * BRICK_W <= x < (cell % BRICK_COLS + 1) * BRICK_W
  }

  /** The cell found is the one that holds the point, and -1 is found when none does. */
  lemma BrickAtHolds(x: int, y: int, cell: int)
    requires 0 <= cell < CELLS
    ensures BrickAt(x, y) == cell <==> CellHolds(cell, x, y)
    ensures BrickAt(x, y) == -1 <==> forall c :: !CellHolds(c, x, y)
  {
    var found := BrickAt(x, y);
    if found >= 0 {
      var row, col := (y - BRICK_TOP) / BRICK_H, x / BRICK_W;
      assert found / BRICK_COLS == row && found % BRICK_COLS == col;
      assert CellHolds(found, x, y);
    }
    forall c | CellHolds(c, x, y) ensures BrickAt(x, y) == c {
      assert (y - BRICK_TOP) / BRICK_H == c / BRICK_COLS && x / BRICK_W == c % BRICK_COLS;
    }
  }

  predicate WallCleared(bricks: seq<Tier>)
  {
    forall i :: 0 <= i < |bricks| ==> bricks[i] == EMPTY || bricks[i] == SOLID
  }

  function BaseSpeed(level: nat): Pace
  {
    Min(BALL_SPEED + Min(level, 64) * SPEED_STEP, BALL_SPEED_MAX)
  }

  /** BRICK_SCORES. */
  function BrickScore(tier: nat): nat
    requires tier <= 3
  {
    if tier == 0 then 0 else if tier == 1 then 50 else if tier == 2 then 100 else 200
  }

  function NewGame(draws: Draws): Game
  {
    Game(0, 0, 0, START_LIVES, WallAt(draws, 0), (FIELD_W - PADDLE_W) / 2, PADDLE_W,
         (FIELD_W - PADDLE_W) / 2, [], [], true, false, 0, false, 0, BALL_SPEED, 0, 0, 0, 0)
  }

  // ----- bricks and capsules -----

  function CapsuleKind(draws: Draws, index: nat): (kind: nat)
    ensures kind < 4
  {
    draws((0xca95_0000 + index) % U32_LIMIT) % 4
  }

  function CapsuleOf(draws: Draws, index: nat): Capsule
  {
    Capsule(index % 8 * BRICK_W + BRICK_W / 2, BRICK_TOP + index / 8 * BRICK_H + BRICK_H / 2,
            CapsuleKind(draws, index))
  }

  predicate Drops(draws: Draws, index: nat)
  {
    draws((0x5eed_0000 + index) % U32_LIMIT) % CAPSULE_CHANCE == 0
  }

  /** A broken brick may drop a capsule; the core has room for sixteen. */
  function DropCapsule(twin: Twin, draws: Draws, g: Game, index: nat): Game
  {
    if !Drops(draws, index) then g
    else if |g.capsules| < MAX_CAPSULES then g.(capsules := g.capsules + [CapsuleOf(draws, index)])
    else if twin.Core? then g.(refused := g.refused + 1)
    else g.(capsules := g.capsules + [CapsuleOf(draws, index)], refused := g.refused + 1)
  }

  function HitBrick(twin: Twin, draws: Draws, g: Game, index: nat): Game
    requires index < CELLS
  {
    var tier := g.bricks[index];
    if tier == EMPTY || tier == SOLID then g
    else
      var h := g.(bricks := g.bricks[index := tier - 1], hits := g.hits + 1);
      if tier - 1 == EMPTY then
        DropCapsule(twin, draws,
                    h.(score := h.score + BrickScore(Min(tier, 3)) * g.speed / BALL_SPEED,
                       bricksBroken := h.bricksBroken + 1),
                    index)
      else h.(score := h.score + 10)
  }

  function Mirror(b: Ball): Ball
  {
    b.(vx := -b.vx)
  }

  /** Every ball gains a mirror image, oldest first, while there is room. */
  function Split(balls: seq<Ball>): (split: seq<Ball>)
    ensures |balls| <= MAX_BALLS ==> |split| <= MAX_BALLS
  {
    var born := Min(|balls|, Max(0, MAX_BALLS - |balls|));
    balls + seq(born, i requires 0 <= i < born => Mirror(balls[i]))
  }

  /** The balls stay as they are, and mirror images of the first of them follow in order,
      as many as there is room for. */
  lemma SplitMirrors(balls: seq<Ball>, i: nat)
    requires |balls| <= MAX_BALLS && i < |Split(balls)|
    ensures |Split(balls)| == Min(2 * |balls|, MAX_BALLS)
    ensures i < |balls| ==> Split(balls)[i] == balls[i]
    ensures i >= |balls| ==>
      (var parent, born := balls[i - |balls|], Split(balls)[i];
       born.x == parent.x && born.y == parent.y && born.vx == -parent.vx && born.vy == parent.vy)
  {
  }

  function ApplyCapsule(g: Game, kind: nat): Game
  {
    var paid := g.(score := g.score + CAPSULE_SCORE, caught := g.caught + 1);
    if kind == CAPSULE_WIDEN then paid.(paddleW := Min(g.paddleW + 128, 1024))
    else if kind == CAPSULE_MULTI then paid.(balls := Split(g.balls))
    else if kind == CAPSULE_SLOW then paid.(slow := SLOW_TICKS)
    else paid.(catching := true)
  }

  predicate OnPaddle(g: Game, x: int)
  {
    g.paddleX <= x <= g.paddleX + g.paddleW
  }

  predicate Catches(g: Game, c: Capsule)
  {
    PADDLE_Y <= c.y <= PADDLE_Y + PADDLE_H + CAPSULE_SPEED && OnPaddle(g, c.x)
  }

  /** Each capsule falls, and is caught, kept or lost, in order: one caught earlier in
      the tick may already have widened the paddle. Kept capsules are collected. */
  function StepCapsulesFrom(g: Game, falling: seq<Capsule>, kept: seq<Capsule>): Game
    decreases |falling|
  {
    if falling == [] then g.(capsules := kept)
    else
      var c := falling[0].(y := falling[0].y + CAPSULE_SPEED);
      if Catches(g, c) then StepCapsulesFrom(ApplyCapsule(g, c.kind), falling[1..], kept)
      else StepCapsulesFrom(g, falling[1..], if c.y < FIELD_H then kept + [c] else kept)
  }

  function StepCapsules(g: Game): Game
  {
    StepCapsulesFrom(g.(capsules := []), g.capsules, [])
  }

  // ----- inputs -----

  function Launch(g: Game): Game
  {
    if |g.balls| >= MAX_BALLS then g.(held := false)
    else g.(held := false,
            balls := g.balls + [Ball(g.paddleX + g.paddleW / 2, PADDLE_Y - BALL_R, g.speed / 2, -(g.speed as int))])
  }

  function Apply(g: Game, action: int, value: int): Game
  {
    if g.over then g
    else if action == ACTION_TARGET then g.(target := Min(Max(value, 0), FIELD_W - g.paddleW))
    else if action == ACTION_LAUNCH && g.held then Launch(g)
    else g
  }

  // ----- balls -----

  /** A ball and the game around it, part way through a tick. */
  datatype Flight = Flight(game: Game, ball: Ball, stuck: bool)

  function Clamp(v: int, lo: int, hi: int): int
    requires lo <= hi
  {
    Min(Max(v, lo), hi)
  }

  /** The rally ramp: every second return is faster. */
  function Ramp(g: Game): Game
  {
    if g.rally + 1 >= SPEED_RALLY then g.(rally := 0, speed := Min(g.speed + SPEED_STEP, BALL_SPEED_MAX))
    else g.(rally := g.rally + 1)
  }

  /** The sideways speed a return gives: by how far off centre the ball landed, but
      never less than a quarter of the pace. */
  function Deflect(offset: int, speed: Pace, width: PaddleWidth): int
  {
    var vx := TruncDiv(offset * speed * 2, width / 2);
    var floor := speed / 4;
    var kept := if -floor < vx < floor then (if offset < 0 then -floor else floor) else vx;
    Clamp(kept, -2 * speed, 2 * speed)
  }

  function Bounce(g: Game, b: Ball): Flight
  {
    var r := Ramp(g);
    var centre := g.paddleX + g.paddleW / 2;
    Flight(r, Ball(b.x, PADDLE_Y - BALL_R, Deflect(b.x - centre, r.speed, g.paddleW), -(r.speed as int)), false)
  }

  /** The move and the reflections off the side walls and the ceiling. */
  function Move(b: Ball): Ball
  {
    var x, y := b.x + b.vx, b.y + b.vy;
    var side := if x - BALL_R < 0 then Ball(BALL_R, y, -b.vx, b.vy)
                else if x + BALL_R > FIELD_W then Ball(FIELD_W - BALL_R, y, -b.vx, b.vy)
                else Ball(x, y, b.vx, b.vy);
    if y - BALL_R < 0 then side.(y := BALL_R, vy := -b.vy) else side
  }

  /** The reflection off whatever brick the ball is now in. */
  function Strike(twin: Twin, draws: Draws, g: Game, b: Ball): Flight
  {
    var cell := BrickAt(b.x, b.y);
    if cell < 0 || g.bricks[cell] == EMPTY then Flight(g, b, false)
    else Flight(HitBrick(twin, draws, g, cell), b.(vy := -b.vy, y := b.y - b.vy), false)
  }

  /** The heights at which a descending ball can meet the paddle. */
  predicate InBand(y: int)
  {
    PADDLE_Y <= y + BALL_R && y - BALL_R <= PADDLE_Y + PADDLE_H
  }

  predicate MeetsPaddle(g: Game, b: Ball)
  {
    b.vy > 0 && InBand(b.y) && OnPaddle(g, b.x)
  }

  /** The paddle's half of a sub-step: caught, returned, or missed. */
  function Meet(g: Game, b: Ball): Flight
  {
    if !MeetsPaddle(g, b) then Flight(g, b, false)
    else if g.catching then Flight(g.(held := true, catching := false), b, true)
    else Bounce(g, b)
  }

  function SubStep(twin: Twin, draws: Draws, g: Game, b: Ball): Flight
  {
    var f := Strike(twin, draws, g, Move(b));
    Meet(f.game, f.ball)
  }

  /** Two sub-steps, or one while slow; a caught ball stops at once. */
  function StepBall(twin: Twin, draws: Draws, g: Game, b: Ball): Flight
  {
    var first := SubStep(twin, draws, g, b);
    if g.slow > 0 || first.stuck then first else SubStep(twin, draws, first.game, first.ball)
  }

  predicate Survives(f: Flight)
  {
    (f.stuck || f.ball.y - BALL_R <= FIELD_H) && !f.game.held
  }

  /** Each ball in turn; those still in play are collected. */
  function StepBallsFrom(twin: Twin, draws: Draws, g: Game, flying: seq<Ball>, kept: seq<Ball>): Game
    decreases |flying|
  {
    if flying == [] then g.(balls := kept)
    else
      var f := StepBall(twin, draws, g, flying[0]);
      StepBallsFrom(twin, draws, f.game, flying[1..], if Survives(f) then kept + [f.ball] else kept)
  }

  function StepBalls(twin: Twin, draws: Draws, g: Game): Game
  {
    StepBallsFrom(twin, draws, g.(balls := []), g.balls, [])
  }

  // ----- a tick -----

  /** The clock runs and the paddle closes on its target. */
  function Begin(g: Game): Game
  {
    var delta := g.target - g.paddleX;
    var near := if delta > PADDLE_SPEED then g.paddleX + PADDLE_SPEED
                else if delta < -PADDLE_SPEED then g.paddleX - PADDLE_SPEED
                else g.target;
    g.(tick := g.tick + 1, slow := if g.slow > 0 then g.slow - 1 else 0,
       paddleX := Min(Max(near, 0), FIELD_W - g.paddleW))
  }

  /** The last ball lost costs a life, the paddle's width and the rally's speed. */
  function LoseLife(g: Game): Game
  {
    if g.balls != [] || g.held then g
    else
      var h := g.(lives := g.lives - 1, paddleW := PADDLE_W, catching := false, slow := 0,
                  speed := BaseSpeed(g.level), rally := 0);
      if h.lives <= 0 then h.(over := true) else h.(held := true)
  }

  function NextWall(draws: Draws, g: Game): Game
  {
    if !WallCleared(g.bricks) then g
    else g.(level := g.level + 1, score := g.score + 1000, bricks := WallAt(draws, g.level + 1),
            balls := [], capsules := [], held := true, paddleW := PADDLE_W,
            speed := BaseSpeed(g.level + 1), rally := 0)
  }

  function End(g: Game): Game
  {
    if g.tick >= MAX_TICKS then g.(over := true) else g
  }

  function Step(twin: Twin, draws: Draws, g: Game): Game
  {
    if g.over then g
    else
      var b := Begin(g);
      if b.held then End(StepCapsules(b))
      else End(NextWall(draws, LoseLife(StepCapsules(StepBalls(twin, draws, b)))))
  }
}
