/** Where the balls and capsules of Quarry go, and what they do to what they meet, in terms
    of places in the field and of numbers a player could read off it. */
module QuarryFlight {
  import opened Arcade
  import opened Basics
  import opened QuarryRules
  import opened QuarryBalls

  // ----- off the paddle -----

  /** How far right of the middle of the paddle a ball is. */
  function OffCentre(g: Game, b: Ball): int
  {
    b.x - (g.paddleX + g.paddleW / 2)
  }

  /** The number of whole times a half width goes into what the landing gives. */
  predicate IsWholePart(q: int, pull: int, half: int)
  {
    half * q <= pull < half * (q + 1)
  }

  /** Off the middle one way, a return goes that way; how fast depends on how far off. */
  lemma DeflectTurns(offset: int, speed: Pace, width: PaddleWidth)
    ensures var vx, q := Deflect(offset, speed, width), Abs(TruncDiv(offset * speed * 2, width / 2));
      (offset >= 0 <==> vx > 0) && Abs(vx) == Max(speed / 4, Min(q, 2 * speed))
  {
    var raw := offset * speed * 2;
    SignOfProduct(offset, speed);
    hide TruncDiv;
  }

  lemma SignOfProduct(offset: int, speed: Pace)
    ensures (offset >= 0 ==> offset * speed * 2 >= 0) && (offset <= 0 ==> offset * speed * 2 <= 0)
    ensures Abs(offset * speed * 2) == 2 * Abs(offset) * speed
  {
    if offset < 0 {
      assert (-offset) * speed == -(offset * speed);
    }
  }

  lemma TruncIsWholePart(a: int, b: int)
    requires b > 0
    ensures IsWholePart(Abs(TruncDiv(a, b)), Abs(a), b)
  {
    var q := TruncDiv(a, b);
    if a < 0 {
      assert b * (q - 1) == -(b * (-q + 1)) && b * q == -(b * -q);
    }
  }

  lemma WholePartOrder(q: nat, pull: nat, half: int, bound: nat)
    requires half > 0 && IsWholePart(q, pull, half)
    ensures pull < half * bound <==> q < bound
  {
    if q < bound {
      assert half * (q + 1) <= half * bound;
    } else {
      assert half * bound <= half * q;
    }
  }

  /** A sideways speed is what a landing so far off the middle gives: to the right when at or
      right of it, to the left when left of it. Between a quarter of the pace and twice the
      pace it is the whole part of twice the offset times the pace over half the width; it is
      never less than the one, never more than the other. */
  predicate IsSideways(vx: int, offset: int, pace: int, half: int)
  {
    var pull := 2 * Abs(offset) * pace;
    && (offset >= 0 ==> vx > 0) && (offset < 0 ==> vx < 0) && pace / 4 <= Abs(vx) <= 2 * pace
    && (pull < half * (pace / 4) ==> Abs(vx) == pace / 4)
    && (half * (pace / 4) <= pull < half * (2 * pace + 1) ==> IsWholePart(Abs(vx), pull, half))
    && (pull >= half * (2 * pace + 1) ==> Abs(vx) == 2 * pace)
  }

  lemma DeflectIs(offset: int, speed: Pace, width: PaddleWidth)
    ensures IsSideways(Deflect(offset, speed, width), offset, speed, width / 2)
  {
    hide Deflect, TruncDiv, IsWholePart, Abs;
    AbsIs(Deflect(offset, speed, width));
    var pull, half := 2 * Abs(offset) * speed, width / 2;
    var q := Abs(TruncDiv(offset * speed * 2, half));
    DeflectTurns(offset, speed, width);
    SignOfProduct(offset, speed);
    TruncIsWholePart(offset * speed * 2, half);
    WholePartOrder(q, pull, half, speed / 4);
    WholePartOrder(q, pull, half, 2 * speed + 1);
  }

  lemma DeflectGrows(left: int, right: int, speed: Pace, width: PaddleWidth)
    requires left <= right
    ensures Deflect(left, speed, width) <= Deflect(right, speed, width)
  {
    hide *;
    DeflectTurns(left, speed, width);
    DeflectTurns(right, speed, width);
    AbsIs(Deflect(left, speed, width));
    AbsIs(Deflect(right, speed, width));
    AbsIs(left);
    AbsIs(right);
    if 0 <= left {
      FurtherOutIsFaster(left, right, speed, width / 2);
    } else if right < 0 {
      FurtherOutIsFaster(right, left, speed, width / 2);
    }
  }

  lemma AbsIs(v: int)
    ensures Abs(v) == if v < 0 then -v else v
  {
  }

  /** Further out is faster. */
  lemma FurtherOutIsFaster(near: int, far: int, speed: Pace, half: int)
    requires half > 0 && Abs(near) <= Abs(far)
    ensures Abs(TruncDiv(near * speed * 2, half)) <= Abs(TruncDiv(far * speed * 2, half))
  {
    hide *;
    SignOfProduct(near, speed);
    SignOfProduct(far, speed);
    PullGrows(Abs(near), Abs(far), speed);
    TruncIsWholePart(near * speed * 2, half);
    TruncIsWholePart(far * speed * 2, half);
    WholePartsAreOrdered(Abs(TruncDiv(near * speed * 2, half)), 2 * Abs(near) * speed,
                         Abs(TruncDiv(far * speed * 2, half)), 2 * Abs(far) * speed, half);
  }

  lemma PullGrows(near: nat, far: nat, speed: Pace)
    requires near <= far
    ensures 2 * near * speed <= 2 * far * speed
  {
  }

  lemma WholePartsAreOrdered(l: nat, a: nat, r: nat, b: nat, half: int)
    requires half > 0 && a <= b && IsWholePart(l, a, half) && IsWholePart(r, b, half)
    ensures l <= r
  {
    assert r + 1 <= l ==> half * (r + 1) <= half * l;
  }

  // ----- at the paddle -----

  /** A ball that comes down between the sides of the paddle, no higher above it and no
      further below than a ball's radius. */
  predicate ComesOnto(g: Game, b: Ball)
  {
    b.vy > 0 && 4816 <= b.y <= 4976 && g.paddleX <= b.x <= g.paddleX + g.paddleW
  }

  /** Such a ball is caught if a catch is due, and is returned if none is; any other flies
      on. A return starts from the top of the paddle at the pace, which every second one
      raises by four up to 96, and goes the way and as fast sideways as it landed off the
      middle. */
  lemma ReturnsGo(g: Game, b: Ball)
    ensures var f := Meet(g, b);
      && (!ComesOnto(g, b) ==> f == Flight(g, b, false))
      && (ComesOnto(g, b) && g.catching ==> f == Flight(g.(held := true, catching := false), b, true))
      && (ComesOnto(g, b) && !g.catching ==>
            && f.game == g.(rally := f.game.rally, speed := f.game.speed) && !f.stuck
            && (g.rally >= 1 ==> f.game.rally == 0 && f.game.speed == Min(g.speed + 4, 96))
            && (g.rally == 0 ==> f.game.rally == 1 && f.game.speed == g.speed)
            && f.ball == Ball(b.x, 4816, f.ball.vx, -(f.game.speed as int))
            && IsSideways(f.ball.vx, OffCentre(g, b), f.game.speed, g.paddleW / 2))
  {
    hide Deflect, IsSideways;
    DeflectIs(OffCentre(g, b), Ramp(g).speed, g.paddleW);
  }

  /** The further right a ball lands, the further right it is returned. */
  lemma ReturnsAreInOrder(g: Game, b: Ball, c: Ball)
    requires ComesOnto(g, b) && ComesOnto(g, c) && !g.catching && b.x <= c.x
    ensures Meet(g, b).ball.vx <= Meet(g, c).ball.vx
  {
    hide Deflect;
    DeflectGrows(OffCentre(g, b), OffCentre(g, c), Ramp(g).speed, g.paddleW);
  }

  // ----- off the walls -----

  /** A ball flies straight on, or off the sides and the ceiling: put back to where it
      touches them, as fast as it was and on its way back in. */
  lemma FliesOrRebounds(b: Ball)
    requires Envelope(b)
    ensures var c, x, y := Move(b), b.x + b.vx, b.y + b.vy;
      && (48 <= x <= 3792 ==> c.x == x && c.vx == b.vx)
      && (x < 48 ==> c.x == 48 && c.vx == Abs(b.vx) && b.vx < 0)
      && (x > 3792 ==> c.x == 3792 && c.vx == -(Abs(b.vx) as int) && b.vx > 0)
      && (y >= 48 ==> c.y == y && c.vy == b.vy)
      && (y < 48 ==> c.y == 48 && c.vy == Abs(b.vy) && b.vy < 0)
  {
  }

  // ----- off the bricks -----

  /** A ball inside a brick is sent back up or down, to the height it came from, and the
      brick has taken a hit; a ball inside none flies on and nothing is hit. */
  lemma BricksSendBack(twin: Twin, draws: Draws, g: Game, b: Ball, cell: int)
    requires 0 <= cell < 32
    ensures var f := Strike(twin, draws, g, b);
      && !f.stuck
      && (CellHolds(cell, b.x, b.y) && g.bricks[cell] != 0 ==>
            f.ball == Ball(b.x, b.y - b.vy, b.vx, -b.vy) && f.game == HitBrick(twin, draws, g, cell))
      && (CellHolds(cell, b.x, b.y) && g.bricks[cell] == 0 ==> f == Flight(g, b, false))
      && ((forall c :: !CellHolds(c, b.x, b.y)) ==> f == Flight(g, b, false))
  {
    BrickAtHolds(b.x, b.y, cell);
    hide BrickAt, HitBrick, CellHolds;
  }

  /** A hit takes one from a brick that can be broken and nothing from any other. It pays ten
      while something is left; the break pays fifty at the starting pace of 32 and as much
      more as the pace is faster, whole part. */
  lemma HitsPay(twin: Twin, draws: Draws, g: Game, cell: nat)
    requires cell < 32
    ensures var h, tier := HitBrick(twin, draws, g, cell), g.bricks[cell];
      && (tier <= 0 ==> h == g)
      && (tier >= 1 ==> h.bricks == g.bricks[cell := tier - 1])
      && (tier >= 2 ==> h.score == g.score + 10 && h.capsules == g.capsules && h.bricksBroken == g.bricksBroken)
      && (tier == 1 ==> h.bricksBroken == g.bricksBroken + 1 && IsWholePart(h.score - g.score, 50 * g.speed, 32))
  {
    hide Drops, CapsuleOf;
    var pay := 50 * g.speed / 32;
    assert IsWholePart(pay, 50 * g.speed, 32);
    hide IsWholePart;
  }

  /** A break drops at most one capsule, from the middle of the brick, and only where a draw
      that depends on nothing but the cell says so. */
  lemma BreaksDrop(twin: Twin, draws: Draws, g: Game, cell: nat)
    requires cell < 32 && g.bricks[cell] == 1
    ensures var h, row, col := HitBrick(twin, draws, g, cell), cell / 8, cell % 8;
      var due := draws(0x5eed_0000 + cell) % 3 == 0;
      h.capsules == if due && (|g.capsules| < 16 || twin.Page?)
                    then g.capsules + [Capsule(384 * col + 192, 640 + 160 * row + 80,
                                               draws(0xca95_0000 + cell) % 4)]
                    else g.capsules
  {
  }

  // ----- capsules -----

  /** What each kind gives, with its hundred points. */
  lemma CapsulesGive(g: Game, kind: nat)
    ensures var h := ApplyCapsule(g, kind);
      && h.score == g.score + 100
      && h.paddleW == (if kind == 0 then Min(g.paddleW + 128, 1024) else g.paddleW)
      && h.balls == (if kind == 1 then Split(g.balls) else g.balls)
      && h.slow == (if kind == 2 then 600 else g.slow)
      && h.catching == (kind > 2 || g.catching)
      && h == g.(score := h.score, caught := g.caught + 1, paddleW := h.paddleW, balls := h.balls,
                 slow := h.slow, catching := h.catching)
  {
    hide Split;
  }

  /** Where a capsule is a tick later, unless it is caught. */
  function Lower(c: Capsule): Capsule
  {
    c.(y := c.y + 16)
  }

  predicate Within(c: Capsule, left: int, right: int)
  {
    4864 <= c.y <= 4944 && left <= c.x <= right
  }

  /** A tick moves each capsule sixteen down. What is left of them are those still in the
      field and not in reach of the paddle as the tick found it; those in the field and out
      of reach of the widest paddle are all left. */
  lemma CapsulesFall(g: Game, c: Capsule)
    ensures var h := StepCapsules(g);
      && (c in h.capsules ==>
            c.(y := c.y - 16) in g.capsules && c.y < 5120 && !Within(c, g.paddleX, g.paddleX + g.paddleW))
      && (c in g.capsules && Lower(c).y < 5120 && !Within(Lower(c), g.paddleX, g.paddleX + 1024) ==>
            Lower(c) in h.capsules)
  {
    hide StepCapsulesFrom;
    CapsulesFallFrom(g.(capsules := []), g.capsules, [], c);
  }

  lemma {:induction false} CapsulesFallFrom(g: Game, falling: seq<Capsule>, kept: seq<Capsule>, c: Capsule)
    ensures var after := StepCapsulesFrom(g, falling, kept).capsules;
      && (c in after ==> c in kept || (c.(y := c.y - 16) in falling && c.y < 5120
                                       && !Within(c, g.paddleX, g.paddleX + g.paddleW)))
      && (c in kept ==> c in after)
      && (c in falling && Lower(c).y < 5120 && !Within(Lower(c), g.paddleX, g.paddleX + 1024) ==>
            Lower(c) in after)
    decreases |falling|
  {
    hide ApplyCapsule;
    if falling != [] {
      var first := Lower(falling[0]);
      CapsulesGive(g, first.kind);
      FallsBy16(first, c, falling[0]);
      if Catches(g, first) {
        CapsulesFallFrom(ApplyCapsule(g, first.kind), falling[1..], kept, c);
        CapsulesFallFrom(ApplyCapsule(g, first.kind), falling[1..], kept, Lower(c));
      } else {
        var more := if first.y < FIELD_H then kept + [first] else kept;
        CapsulesFallFrom(g, falling[1..], more, c);
        CapsulesFallFrom(g, falling[1..], more, Lower(c));
      }
    }
  }

  lemma FallsBy16(first: Capsule, c: Capsule, f: Capsule)
    requires first == Lower(f)
    ensures c == first ==> c.(y := c.y - 16) == f
    ensures c == f <==> Lower(c) == first
  {
  }

  /** How many capsules a tick brings within reach between two places. */
  function InReach(falling: seq<Capsule>, left: int, right: int): nat
  {
    if falling == [] then 0
    else InReach(falling[1..], left, right) + if Within(Lower(falling[0]), left, right) then 1 else 0
  }

  /** Each capsule in reach of the paddle is caught, for its hundred points, and no more are
      than the widest paddle would reach. */
  lemma {:induction false} CapsulesAreCaught(g: Game, falling: seq<Capsule>, kept: seq<Capsule>)
    ensures var h := StepCapsulesFrom(g, falling, kept);
      var caught := h.caught - g.caught;
      && InReach(falling, g.paddleX, g.paddleX + g.paddleW) <= caught
      && caught <= InReach(falling, g.paddleX, g.paddleX + 1024)
      && h.score == g.score + 100 * caught
    decreases |falling|
  {
    hide ApplyCapsule;
    if falling != [] {
      var first := Lower(falling[0]);
      CapsulesGive(g, first.kind);
      if Catches(g, first) {
        var h := ApplyCapsule(g, first.kind);
        CapsulesAreCaught(h, falling[1..], kept);
        WiderReachesMore(falling[1..], g.paddleX, g.paddleX + g.paddleW, h.paddleX + h.paddleW);
      } else {
        CapsulesAreCaught(g, falling[1..], if first.y < FIELD_H then kept + [first] else kept);
      }
    }
  }

  lemma {:induction false} WiderReachesMore(falling: seq<Capsule>, left: int, right: int, further: int)
    requires right <= further
    ensures InReach(falling, left, right) <= InReach(falling, left, further)
  {
    if falling != [] {
      WiderReachesMore(falling[1..], left, right, further);
    }
  }
}
