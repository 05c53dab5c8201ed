/** When there is always room for a capsule: a cell drops one at most once a wall, so if no
    more than sixteen cells drop at all, the core's cap never acts and the twins agree. */
module QuarryRoom {
  import opened Arcade
  import opened QuarryRules
  import opened QuarryRuns
  import opened QuarryTwins

  /** How many of the first n cells drop a capsule when broken: a fact of the seed. */
  function Droppers(draws: Draws, n: nat): nat
  {
    if n == 0 then 0 else Droppers(draws, n - 1) + if Drops(draws, n - 1) then 1 else 0
  }

  /** How many of them have a capsule still to drop. */
  function Unbroken(draws: Draws, bricks: seq<Tier>, n: nat): nat
    requires n <= |bricks|
  {
    if n == 0 then 0
    else Unbroken(draws, bricks, n - 1) + if Drops(draws, n - 1) && bricks[n - 1] > 0 then 1 else 0
  }

  lemma {:induction false} UnbrokenAreDroppers(draws: Draws, bricks: seq<Tier>, n: nat)
    requires n <= |bricks|
    ensures Unbroken(draws, bricks, n) <= Droppers(draws, n)
  {
    hide Drops;
    if n > 0 {
      UnbrokenAreDroppers(draws, bricks, n - 1);
    }
  }

  lemma {:induction false} UnbrokenUpdate(draws: Draws, bricks: seq<Tier>, n: nat, i: nat, t: Tier)
    requires n <= |bricks| && i < |bricks| && bricks[i] > 0
    ensures Unbroken(draws, bricks[i := t], n)
         == Unbroken(draws, bricks, n) - if i < n && Drops(draws, i) && t <= 0 then 1 else 0
  {
    hide Drops;
    if n > 0 {
      UnbrokenUpdate(draws, bricks, n - 1, i, t);
    }
  }

  /** The capsules falling and those still to drop are no more than there ever are, and
      none has been refused. */
  predicate HasRoom(draws: Draws, g: Game)
  {
    g.refused == 0 && |g.capsules| + Unbroken(draws, g.bricks, CELLS) <= Droppers(draws, CELLS) <= MAX_CAPSULES
  }

  /** Nothing HasRoom looks at has changed. */
  predicate SameRoom(g: Game, h: Game)
  {
    h.refused == g.refused && h.capsules == g.capsules && h.bricks == g.bricks
  }

  lemma SameRoomHasRoom(draws: Draws, g: Game, h: Game)
    requires SameRoom(g, h) && HasRoom(draws, g)
    ensures HasRoom(draws, h)
  {
    hide Unbroken, Droppers;
  }

  /** Breaking a cell that drops trades one still to drop for one that falls. */
  lemma HitHasRoom(twin: Twin, draws: Draws, g: Game, index: nat)
    requires index < CELLS && HasRoom(draws, g)
    ensures HasRoom(draws, HitBrick(twin, draws, g, index))
  {
    hide Unbroken, Droppers, Drops, HitBrick;
    HitChanges(twin, draws, g, index);
    var tier := g.bricks[index];
    if tier > 0 {
      UnbrokenUpdate(draws, g.bricks, CELLS, index, tier - 1);
    }
  }

  lemma HitChanges(twin: Twin, draws: Draws, g: Game, index: nat)
    requires index < CELLS
    ensures var h, tier := HitBrick(twin, draws, g, index), g.bricks[index];
      && h.bricks == (if tier > 0 then g.bricks[index := tier - 1] else g.bricks)
      && (if tier == 1 && Drops(draws, index)
          then |g.capsules| < MAX_CAPSULES ==> |h.capsules| == |g.capsules| + 1 && h.refused == g.refused
          else h.capsules == g.capsules && h.refused == g.refused)
  {
    hide Drops, CapsuleOf, BrickScore;
  }

  lemma SubStepHasRoom(twin: Twin, draws: Draws, g: Game, b: Ball)
    requires HasRoom(draws, g)
    ensures HasRoom(draws, SubStep(twin, draws, g, b).game)
  {
    hide HasRoom, HitBrick, Move, BrickAt, Meet;
    var m := Move(b);
    var cell := BrickAt(m.x, m.y);
    if 0 <= cell < CELLS {
      HitHasRoom(twin, draws, g, cell);
    }
    var f := Strike(twin, draws, g, m);
    MeetKeepsRoom(f.game, f.ball);
    SameRoomHasRoom(draws, f.game, Meet(f.game, f.ball).game);
  }

  lemma MeetKeepsRoom(g: Game, b: Ball)
    ensures SameRoom(g, Meet(g, b).game)
  {
    hide Deflect, MeetsPaddle;
  }

  lemma {:induction false} BallsHaveRoom(twin: Twin, draws: Draws, g: Game, flying: seq<Ball>, kept: seq<Ball>)
    requires HasRoom(draws, g)
    ensures HasRoom(draws, StepBallsFrom(twin, draws, g, flying, kept))
    decreases |flying|
  {
    hide HasRoom, SubStep, Survives;
    if flying == [] {
      SameRoomHasRoom(draws, g, g.(balls := kept));
    } else {
      var first := SubStep(twin, draws, g, flying[0]);
      SubStepHasRoom(twin, draws, g, flying[0]);
      SubStepHasRoom(twin, draws, first.game, first.ball);
      var f := StepBall(twin, draws, g, flying[0]);
      BallsHaveRoom(twin, draws, f.game, flying[1..], if Survives(f) then kept + [f.ball] else kept);
    }
  }

  lemma {:induction false} CapsulesOnlyGo(g: Game, falling: seq<Capsule>, kept: seq<Capsule>)
    ensures var h := StepCapsulesFrom(g, falling, kept);
      |h.capsules| <= |kept| + |falling| && h.bricks == g.bricks && h.refused == g.refused
    decreases |falling|
  {
    hide Catches, Split;
    if falling != [] {
      var c := falling[0].(y := falling[0].y + CAPSULE_SPEED);
      if Catches(g, c) {
        CapsulesOnlyGo(ApplyCapsule(g, c.kind), falling[1..], kept);
      } else {
        CapsulesOnlyGo(g, falling[1..], if c.y < FIELD_H then kept + [c] else kept);
      }
    }
  }

  lemma CapsulesHaveRoom(draws: Draws, g: Game)
    requires HasRoom(draws, g)
    ensures HasRoom(draws, StepCapsules(g))
  {
    CapsulesOnlyGo(g.(capsules := []), g.capsules, []);
    hide StepCapsulesFrom, Unbroken, Droppers;
  }

  lemma NextWallHasRoom(draws: Draws, g: Game)
    requires HasRoom(draws, g)
    ensures HasRoom(draws, NextWall(draws, g))
  {
    hide WallAt, WallCleared, Unbroken, Droppers, BaseSpeed;
    UnbrokenAreDroppers(draws, WallAt(draws, g.level + 1), CELLS);
  }

  lemma RestKeepsRoom(g: Game, action: int, value: int)
    ensures SameRoom(g, Begin(g)) && SameRoom(g, LoseLife(g)) && SameRoom(g, End(g))
    ensures SameRoom(g, Apply(g, action, value)) && SameRoom(g, g.(balls := []))
  {
    hide BaseSpeed;
  }

  lemma StepHasRoom(twin: Twin, draws: Draws, g: Game)
    requires HasRoom(draws, g)
    ensures HasRoom(draws, Step(twin, draws, g))
  {
    hide HasRoom, Begin, StepBallsFrom, StepCapsules, LoseLife, NextWall, End, SameRoom;
    var b := Begin(g);
    RestKeepsRoom(g, 0, 0);
    SameRoomHasRoom(draws, g, b);
    if b.held {
      CapsulesHaveRoom(draws, b);
      RestKeepsRoom(StepCapsules(b), 0, 0);
      SameRoomHasRoom(draws, StepCapsules(b), End(StepCapsules(b)));
    } else {
      RestKeepsRoom(b, 0, 0);
      SameRoomHasRoom(draws, b, b.(balls := []));
      BallsHaveRoom(twin, draws, b.(balls := []), b.balls, []);
      var c := StepCapsules(StepBalls(twin, draws, b));
      CapsulesHaveRoom(draws, StepBalls(twin, draws, b));
      RestKeepsRoom(c, 0, 0);
      SameRoomHasRoom(draws, c, LoseLife(c));
      var n := NextWall(draws, LoseLife(c));
      NextWallHasRoom(draws, LoseLife(c));
      RestKeepsRoom(n, 0, 0);
      SameRoomHasRoom(draws, n, End(n));
    }
  }

  lemma {:induction false} DrainHasRoom(twin: Twin, draws: Draws, g: Game, events: seq<Event>)
    requires HasRoom(draws, g)
    ensures HasRoom(draws, Drain(twin, g, events).game)
    decreases |events|
  {
    hide HasRoom, Apply, SameRoom;
    if events != [] {
      RestKeepsRoom(g, events[0].action, events[0].value);
      SameRoomHasRoom(draws, g, Apply(g, events[0].action, events[0].value));
      DrainHasRoom(twin, draws, Apply(g, events[0].action, events[0].value), events[1..]);
    }
  }

  lemma {:induction false} LoopHasRoom(twin: Twin, draws: Draws, g: Game, events: seq<Event>, guard: nat)
    requires HasRoom(draws, g)
    ensures HasRoom(draws, Loop(twin, draws, g, events, guard))
    decreases guard
  {
    hide *;
    LoopUnfolds(twin, draws, g, events, guard);
    if !g.over && guard > 0 {
      var d := Drain(twin, g, events);
      DrainHasRoom(twin, draws, g, events);
      StepHasRoom(twin, draws, d.game);
      LoopHasRoom(twin, draws, Step(twin, draws, d.game), d.rest, guard - 1);
    }
  }

  lemma NewGameHasRoom(draws: Draws)
    requires Droppers(draws, CELLS) <= MAX_CAPSULES
    ensures HasRoom(draws, NewGame(draws))
  {
    UnbrokenAreDroppers(draws, WallAt(draws, 0), CELLS);
    hide WallAt, Unbroken, Droppers;
  }

  lemma RoomMeansNoneRefused(draws: Draws, g: Game)
    requires HasRoom(draws, g)
    ensures g.refused == 0
  {
    hide Unbroken, Droppers;
  }

  /** On a seed by which no more than sixteen cells drop a capsule, none is ever refused, by
      either twin on any log. */
  lemma NoneIsRefused(twin: Twin, draws: Draws, events: seq<Event>)
    requires Droppers(draws, CELLS) <= MAX_CAPSULES
    ensures Replay(twin, draws, events).refused == 0
  {
    hide *;
    NewGameHasRoom(draws);
    ReplayIsLoop(twin, draws, events);
    LoopHasRoom(twin, draws, NewGame(draws), events, GUARD);
    RoomMeansNoneRefused(draws, Replay(twin, draws, events));
  }

  /** So on such a seed the twins end in the same game on every log without a negative
      tick, and on any log the core ends as the page does on its clamped form. */
  lemma TwinsAgreeOnSeed(draws: Draws, events: seq<Event>)
    requires Droppers(draws, CELLS) <= MAX_CAPSULES
    ensures (forall e :: e in events ==> 0 <= e.tick) ==> Replay(Core, draws, events) == Replay(Page, draws, events)
    ensures Replay(Core, draws, events) == Replay(Page, draws, Clamped(events))
  {
    hide *;
    NoneIsRefused(Core, draws, events);
    CoreIsPageClamped(draws, events);
    if forall e :: e in events ==> 0 <= e.tick {
      TwinsAgree(draws, events);
    }
  }
}
