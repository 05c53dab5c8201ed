/** What a tick of Quarry adds up to: how far a ball flies, which balls stay in play, and
    when a life, a wall or the run is over. */
module QuarryTicks {
  import opened Arcade
  import opened Basics
  import opened QuarryRules
  import opened QuarryBalls
  import opened QuarryFlight
  import opened QuarryPaddle

  // ----- the wall -----

  /** The wall of a level is made of one draw out of a hundred for each brick. Solid are the
      lowest eight and two more a level, in the two upper rows; in the two lower ones they
      take a single hit. From there to thirty-four are gaps. The rest takes three hits in the
      top row, two in the next and one below. */
  lemma RollsMakeTheWall(draws: Draws, level: nat, row: nat, col: nat)
    requires row < 4 && col < 8 && level < 0x10_0000
    ensures var roll, tier := draws(4096 * level + 16 * row + col) % 100, WallAt(draws, level)[8 * row + col];
      && (tier == -1 <==> roll < 8 + 2 * level && row < 2)
      && (tier == 0 <==> 8 + 2 * level <= roll < 34)
      && (tier == 3 <==> roll >= Max(34, 8 + 2 * level) && row == 0)
      && (tier == 2 <==> roll >= Max(34, 8 + 2 * level) && row == 1)
  {
    assert (8 * row + col) / 8 == row && (8 * row + col) % 8 == col;
    assert (level * 256 + row) % U32_LIMIT == level * 256 + row;
    assert ((level * 256 + row) * 16 + col) % U32_LIMIT == 4096 * level + 16 * row + col;
  }

  /** A run starts with three lives, the ball in hand and the paddle in the middle, before the
      first wall. */
  lemma StartsInTheMiddle(draws: Draws)
    ensures var g := NewGame(draws);
      && g.tick == 0 && g.level == 0 && g.score == 0 && g.lives == 3 && g.bricks == WallAt(draws, 0)
      && g.paddleX == 1600 && g.paddleW == 640 && g.target == 1600 && g.speed == 32 && g.rally == 0
      && g.balls == [] && g.capsules == [] && g.held && !g.catching && g.slow == 0 && !g.over
      && g.bricksBroken == 0
  {
    hide WallAt;
  }

  // ----- what an input does -----

  /** An aim is the place in the field nearest to what was asked for; a launch of a held ball
      sends it up from the middle of the paddle, half as fast to the right, unless five are
      in play; nothing else is done, and nothing after the end. */
  lemma InputsDo(g: Game, action: int, value: int)
    ensures var h, room := Apply(g, action, value), 3840 - g.paddleW;
      && (g.over || action < 0 || action > 1 || (action == 1 && !g.held) ==> h == g)
      && (!g.over && action == 0 ==>
            && h == g.(target := h.target) && 0 <= h.target <= room
            && (0 <= value <= room ==> h.target == value)
            && (value < 0 ==> h.target == 0) && (value > room ==> h.target == room))
      && (!g.over && action == 1 && g.held && |g.balls| >= 5 ==> h == g.(held := false))
      && (!g.over && action == 1 && g.held && |g.balls| < 5 ==>
            h == g.(held := false,
                    balls := g.balls + [Ball(g.paddleX + g.paddleW / 2, 4816, g.speed / 2, -(g.speed as int))]))
  {
  }

  // ----- a ball in the open -----

  /** Nothing is within reach of a ball on its next move: no side, no ceiling, no brick and
      no paddle. */
  predicate IsOpen(g: Game, b: Ball)
  {
    var x, y := b.x + b.vx, b.y + b.vy;
    && 48 <= x <= 3792 && 48 <= y
    && (forall cell | 0 <= cell < 32 :: CellHolds(cell, x, y) ==> g.bricks[cell] == 0)
    && !ComesOnto(g, b.(x := x, y := y))
  }

  function Onward(b: Ball): Ball
  {
    b.(x := b.x + b.vx, y := b.y + b.vy)
  }

  lemma FliesOn(twin: Twin, draws: Draws, g: Game, b: Ball)
    requires IsOpen(g, b)
    ensures SubStep(twin, draws, g, b) == Flight(g, Onward(b), false)
  {
    var next := Onward(b);
    assert Move(b) == next;
    var cell := Max(0, BrickAt(next.x, next.y));
    BricksSendBack(twin, draws, g, next, cell);
    BrickAtHolds(next.x, next.y, cell);
    ReturnsGo(g, next);
    hide Strike, Meet, BrickAt, CellHolds, ComesOnto;
  }

  /** In the open a tick takes a ball two moves on, or one while slow. */
  lemma FliesTwoMoves(twin: Twin, draws: Draws, g: Game, b: Ball)
    requires IsOpen(g, b) && (g.slow == 0 ==> IsOpen(g, Onward(b)))
    ensures StepBall(twin, draws, g, b)
         == Flight(g, if g.slow > 0 then Onward(b) else Onward(Onward(b)), false)
  {
    FliesOn(twin, draws, g, b);
    if g.slow == 0 {
      FliesOn(twin, draws, g, Onward(b));
    }
    hide SubStep, IsOpen;
  }

  // ----- which balls stay -----

  /** A ball is in play after its moves exactly when it is not below the field and no ball
      was caught this tick. */
  lemma StaysInPlay(twin: Twin, draws: Draws, g: Game, b: Ball)
    requires g.balls == [b]
    ensures var h, f := StepBalls(twin, draws, g), StepBall(twin, draws, g.(balls := []), b);
      h == f.game.(balls := if f.ball.y <= 5168 && !f.game.held then [f.ball] else [])
  {
    hide StepBall;
    var f := StepBall(twin, draws, g.(balls := []), b);
    CaughtIsHeld(twin, draws, g.(balls := []), b);
    BallsUnfold(twin, draws, g);
    OneBallUnfolds(twin, draws, g.(balls := []), b);
    hide StepBallsFrom, StepBalls;
  }

  lemma OneBallUnfolds(twin: Twin, draws: Draws, g: Game, b: Ball)
    ensures var f := StepBall(twin, draws, g, b);
      StepBallsFrom(twin, draws, g, [b], []) == f.game.(balls := if Survives(f) then [f.ball] else [])
  {
    hide StepBall, Survives;
    var f := StepBall(twin, draws, g, b);
    var kept := if Survives(f) then [f.ball] else [];
    assert [b][1..] == [] && [] + [f.ball] == [f.ball];
    assert StepBallsFrom(twin, draws, f.game, [], kept) == f.game.(balls := kept);
  }

  lemma CaughtIsHeld(twin: Twin, draws: Draws, g: Game, b: Ball)
    ensures StepBall(twin, draws, g, b).stuck ==> StepBall(twin, draws, g, b).game.held
    ensures g.held ==> StepBall(twin, draws, g, b).game.held
  {
    SubStepHolds(twin, draws, g, b);
    SubStepHolds(twin, draws, SubStep(twin, draws, g, b).game, SubStep(twin, draws, g, b).ball);
    hide SubStep;
  }

  lemma SubStepHolds(twin: Twin, draws: Draws, g: Game, b: Ball)
    ensures var f := SubStep(twin, draws, g, b); (f.stuck ==> f.game.held) && (g.held ==> f.game.held)
  {
    var f := Strike(twin, draws, g, Move(b));
    StrikeKeepsRig(twin, draws, g, Move(b));
    hide Strike, Move, Deflect, MeetsPaddle;
  }

  /** Once a ball is caught none of those after it stays, whatever it does. */
  lemma {:induction false} NoneStaysAfterACatch(twin: Twin, draws: Draws, g: Game, flying: seq<Ball>, kept: seq<Ball>)
    requires g.held
    ensures StepBallsFrom(twin, draws, g, flying, kept).balls == kept
    ensures StepBallsFrom(twin, draws, g, flying, kept).held
    decreases |flying|
  {
    hide StepBall;
    if flying != [] {
      CaughtIsHeld(twin, draws, g, flying[0]);
      NoneStaysAfterACatch(twin, draws, StepBall(twin, draws, g, flying[0]).game, flying[1..], kept);
    }
  }

  // ----- lives, walls and the end -----

  /** The last ball gone costs a life, and with it the width, the catch, the slow and the
      rally; no brick left to break brings the next wall, a thousand points and the ball in
      hand. Either way the pace is that of the wall, 32 and four more for each before it, up
      to 96. The run ends with the last life or at tick 7200. */
  lemma AfterTheBalls(draws: Draws, g: Game)
    requires !g.over && g.lives >= 1
    ensures var h := End(NextWall(draws, LoseLife(g)));
      var lost := g.balls == [] && !g.held;
      var cleared := forall i :: 0 <= i < 32 ==> g.bricks[i] <= 0;
      && h.lives == g.lives - (if lost then 1 else 0)
      && h.level == g.level + (if cleared then 1 else 0)
      && h.score == g.score + (if cleared then 1000 else 0)
      && h.bricks == (if cleared then WallAt(draws, g.level + 1) else g.bricks)
      && h.balls == (if cleared then [] else g.balls) && h.capsules == (if cleared then [] else g.capsules)
      && h.held == (g.held || cleared || (lost && g.lives > 1))
      && h.paddleW == (if lost || cleared then 640 else g.paddleW)
      && h.speed == (if lost || cleared then Min(32 + 4 * h.level, 96) else g.speed)
      && h.rally == (if lost || cleared then 0 else g.rally)
      && h.slow == (if lost then 0 else g.slow) && h.catching == (g.catching && !lost)
      && (h.over <==> g.tick >= 7200 || h.lives == 0)
      && h.paddleX == g.paddleX && h.target == g.target && h.tick == g.tick
  {
    hide WallAt;
  }

  /** A tick is the moves of the paddle and the balls, the fall of the capsules and what
      follows from them; with a ball in hand only the paddle and the capsules move. */
  lemma HeldTicks(twin: Twin, draws: Draws, g: Game)
    requires !g.over && g.held
    ensures var h, c := Step(twin, draws, g), StepCapsules(Begin(g));
      h == c.(over := h.over) && (h.over <==> c.over || c.tick >= 7200)
  {
    StepUnfolds(twin, draws, g);
    hide Step, StepCapsules;
  }
}
