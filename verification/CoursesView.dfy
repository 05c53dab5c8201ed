/** The client's live run of Courses: it drives the core's state and records what it
    did, and shows where the falling piece would land. */
module CoursesView {
  import opened Arcade
  import opened Basics
  import opened CoursesBoard
  import opened CoursesRules
  import opened CoursesRuns
  import CoursesCore
  import CoursesWell

  class CoursesRun {
    const state: CoursesCore.State
    var events: seq<Event>

    ghost predicate Valid()
    {
      state.Valid()
    }

    ghost function View(): Session
      requires Valid()
      reads this, state, state.board
    {
      Session(state.Model(), events)
    }

    constructor (draws: Draws)
      ensures Valid() && fresh(state) && fresh(state.board) && state.draws == draws
      ensures View() == Sit(draws, [])
    {
      var s := new CoursesCore.State(draws);
      s.Spawn();
      state := s;
      events := [];
    }

    /** The ghost piece: the row the falling piece would come to rest at. */
    method DropTarget() returns (target: Option<int>)
      requires Valid()
      ensures target == if state.hasPiece then Some(RestRow(state.Model())) else None
    {
      hide Collides;
      if !state.hasPiece {
        return None;
      }
      var y := state.y;
      var hit := state.CollidesAt(state.piece, state.rotation, state.x, y + 1);
      while !hit
        invariant hit == Collides(state.Rows(), state.piece, state.rotation, state.x, y + 1)
        invariant Landing(state.Rows(), state.piece, state.rotation, state.x, y) == RestRow(state.Model())
        decreases TOTAL_HEIGHT - y
      {
        FitsAboveFloor(state.Rows(), state.piece, state.rotation, state.x, y + 1);
        y := y + 1;
        hit := state.CollidesAt(state.piece, state.rotation, state.x, y + 1);
      }
      return Some(y);
    }

    /** Log an action at the tick it happens in, and apply it. */
    method Press(action: int)
      requires Valid()
      modifies this, state, state.board
      ensures View() == Live(state.draws, old(View()), Input.Press(action))
    {
      hide CoursesRules.Apply, CoursesWell.RowsOf;
      if state.over {
        return;
      }
      events := events + [Event(action, state.tick, 0)];
      state.Apply(action, 0);
    }

    method Tick()
      requires Valid()
      modifies state, state.board
      ensures View() == Live(state.draws, old(View()), Input.Tick)
    {
      hide CoursesRules.Step, CoursesWell.RowsOf;
      state.Step();
    }
  }

  /** The preview is right: a hard drop puts the piece down at the row it shows, where it
      fits and cannot go one row further. */
  lemma PreviewIsWhereItLocks(draws: Draws, g: Game)
    requires !g.over && g.hasPiece
    ensures var rest := RestRow(g);
      (forall y :: g.y < y <= rest ==> !HitsAt(g, g.x, y)) && HitsAt(g, g.x, rest + 1)
      && Apply(draws, g, ACTION_HARD_DROP)
         == Lock(draws, g.(y := rest, score := g.score + 2 * (rest - g.y)))
  {
    hide Collides, Lock;
  }
}
