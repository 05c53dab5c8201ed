/** The client's live run of Quarry: it steers, drives the core's state, and records
    what it did. */
module QuarryView {
  import opened Arcade
  import opened Basics
  import opened QuarryRules
  import opened QuarryRuns
  import QuarryCore

  /** How far the aim must move before it is worth an event. */
  const SAMPLE: int := 96 // FIELD_W / 40

  class QuarryRun {
    const state: QuarryCore.State
    var events: seq<Event>
    var leftDown: bool
    var rightDown: bool
    var wasSteering: bool
    var lastTarget: int

    ghost predicate Valid()
      reads state
    {
      state.Valid()
    }

    ghost function View(): Session
      requires Valid()
      reads this, state, state.bricks, state.balls, state.capsules
    {
      Session(state.Model(), events)
    }

    constructor (draws: Draws)
      ensures Valid() && fresh(state) && fresh(state.bricks) && fresh(state.balls) && fresh(state.capsules)
      ensures state.draws == draws && View() == Sit(Core, draws, [])
    {
      var s := new QuarryCore.State(draws);
      state := s;
      events := [];
      leftDown, rightDown, wasSteering, lastTarget := false, false, false, s.target;
    }

    method Emit(action: int, value: int)
      requires Valid()
      modifies this`events, state, state.balls
      ensures Valid() && View() == Live(Core, state.draws, old(View()), Input.Emit(action, value))
      ensures state.paddleX == old(state.paddleX) && state.paddleW == old(state.paddleW)
    {
      hide Apply;
      events := events + [Event(action, state.tick, value)];
      AimKeepsPaddle();
      state.Apply(action, value);
      AimKeepsPaddle();
    }

    /** Nothing an input does moves or resizes the paddle. */
    lemma AimKeepsPaddle()
      requires Valid()
      ensures forall a, v :: Apply(state.Model(), a, v).paddleX == state.paddleX
      ensures forall a, v :: Apply(state.Model(), a, v).paddleW == state.paddleW
    {
    }

    /** What the arrow keys ask for now, if anything: an edge of the field, or a stop. */
    function Wanted(): Option<int>
      reads this, state
    {
      if leftDown && !rightDown then Some(0)
      else if rightDown && !leftDown then Some(FIELD_W - state.paddleW)
      else if wasSteering then Some(state.paddleX)
      else None
    }

    /** The one input steering makes, if the aim has moved far enough to be worth one. */
    function Steering(): Option<Input>
      reads this, state
    {
      match Wanted()
      case None => None
      case Some(target) =>
        if target - lastTarget >= SAMPLE || lastTarget - target >= SAMPLE
        then Some(Input.Emit(ACTION_TARGET, target)) else None
    }

    /** An aim, if it is 96 or more from the last. */
    function Sent(aim: int): Option<Input>
      reads this
    {
      if Max(aim - lastTarget, lastTarget - aim) >= 96 then Some(Input.Emit(0, aim)) else None
    }

    /** The left key aims at the left edge, the right key at the right one, and letting go or
        holding both at where the paddle is. */
    lemma KeysSteer()
      ensures leftDown && !rightDown ==> Steering() == Sent(0)
      ensures rightDown && !leftDown ==> Steering() == Sent(3840 - state.paddleW)
      ensures leftDown == rightDown ==> Steering() == if wasSteering then Sent(state.paddleX) else None
    {
    }

    method Steer()
      requires Valid()
      modifies this`events, this`wasSteering, this`lastTarget, state, state.balls
      ensures Valid()
      ensures View() == match old(Steering())
        case None => old(View())
        case Some(input) => Live(Core, state.draws, old(View()), input)
      ensures old(leftDown != rightDown) ==> Steering() == None
    {
      hide Live;
      var target;
      if leftDown && !rightDown {
        target := 0;
      } else if rightDown && !leftDown {
        target := FIELD_W - state.paddleW;
      } else if wasSteering {
        target := state.paddleX;
      } else {
        return;
      }
      wasSteering := leftDown != rightDown;
      if target - lastTarget >= SAMPLE || lastTarget - target >= SAMPLE {
        Emit(ACTION_TARGET, target);
        lastTarget := target;
      }
    }

    method Tick()
      requires Valid()
      modifies this`events, this`wasSteering, this`lastTarget
      modifies state, state.bricks, state.balls, state.capsules
      ensures Valid()
      ensures var steered := match old(Steering())
          case None => old(View())
          case Some(input) => Live(Core, state.draws, old(View()), input);
        View() == Live(Core, state.draws, steered, Input.Tick)
    {
      hide Step, Apply;
      Steer();
      state.Step();
    }

    /** The start of a run is a launch, at tick zero. */
    method StartFanfare()
      requires Valid()
      modifies this`events, this`lastTarget, state, state.balls
      ensures Valid()
      ensures View() == Live(Core, state.draws, old(View()), Input.Emit(ACTION_LAUNCH, 0))
    {
      lastTarget := state.target;
      Emit(ACTION_LAUNCH, 0);
    }
  }
}
