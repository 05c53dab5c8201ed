# Verification of the arcade and the package repository

This project models, and proves properties of, four parts of the repository:

- **The two games**, Courses and Quarry: the integer-only simulations that the client
  plays, the page mirrors and the verifier replays to find the only score that counts.
  `CoursesRules` and `QuarryRules` are the rules as functions of a game value.
  `CoursesCore`, `CoursesPageState`, `QuarryCore` and `QuarryPage` are the stateful programs
  (arrays compacted in place for the Rust core, nullable pieces and lists for the page),
  each method proved equal to the rule it carries out. `CoursesView` and `QuarryView` are
  the client's recorders. What the rules amount to is stated without them, in cells, places,
  points and kinds, by `CoursesMoves`, `CoursesScores`, `CoursesDeals`, `CoursesShapes`,
  `QuarryFlight` and `QuarryTicks`. `EventLog` is the gate in front of the verifier, and
  `Submissions` goes from a player's session through the gate to its score.
- **The package repository**: a bucket changed one write at a time while readers follow a
  database. `Repository` lists the writes of a publish and of a removal; `Bucket` is the
  program, which keeps the trail of every tree a reader could have seen; `PublishEnds` and
  `RemovalEnds` say what is left at the end; `CheckRepo` is the consistency check.
- **The wave scheduler** (`Waves`).
- **The civil date** a client derives its seed from (`CivilDay`), against the Gregorian
  calendar of RFC 3339, section 5.7 and appendix C.

## How it is built

The seeded generator is a parameter (`Draws`), so every theorem holds for every seed and
every generator. Integers are unbounded in the model; that the counters stay inside the
machine's is proved where it matters (`ReplayScoreFits`, `ScoreFits`, the invariants).
Each game value carries a few history fields the program does not store, such as pieces
locked or capsules refused; nothing in the rules reads them. `TruncDiv` is Rust's and
JavaScript's division toward zero.

The page's Quarry and the core's share one set of rules with a `Twin` parameter for the
two places where they differ: the cap of sixteen capsules, and how a negative tick is read.

## What turned out otherwise than documented

- The comment that the reset cap stops endless spinning (`worker/src/game/logic.js:460-463`)
  does not hold of a piece kept in the air. For every generator the first piece can be kept
  in play as long as one likes exactly when it is not an O
  (`CoursesHover.KeptForeverExactlyUnlessO`): a soft drop and four turns within a tick leave
  any other piece flat in the air where it was. What the cap does bound, grounded ticks, is
  `CoursesLockDelay.LockDelayIsBounded`; and `CoursesRuns.ReplayEnds` bounds runs by
  charging for each event.
- A negative tick is said to be rejected before a replay starts
  (`core/src/courses.rs:428-429`), but the validators start from -1 and admit tick -1. Then
  the page's Courses replay refuses the log (`CoursesPage.PageRefusesOnlyMinusOne`) and the
  page's Quarry replay never gets past it (`QuarryTwins.TwinsPartAtMinusOne`).
- A Courses tick of 2^31 or more is admitted and wraps on its way into the core
  (`CoursesPage.LateTickWraps`). Below that the page and the core agree; the page's own game
  never depends on such an event (`CoursesPage.PageScoresTheEarly`).
- The paddle never leaves the field (`core/src/quarry.rs:500-510`) holds just after it has
  moved; widening capsules can leave it up to 64 sub-pixels outside until the next tick.
  `QuarryPaddle.SticksOutExactlyWhen` says exactly when, of the game before the tick;
  `QuarryPaddle.WideningSticksOut` starts from a state that satisfies `QuarryBalls.Fair`, not
  one derived from a log. It is never enough for the clamp to move the
  paddle faster than its speed (`QuarryPaddle.EveryRunKeepsItsSpeed`).
- The page's Quarry and the core's part when a capsule comes due with sixteen falling. That
  cannot happen on a seed by which at most sixteen of the 32 cells drop one
  (`QuarryRoom.TwinsAgreeOnSeed`).
- `BRICK_SCORES` lists 100 and 200 points for stronger bricks (`core/src/quarry.rs:56`), but
  a brick breaks only from its last hit point, so every break pays by the listed 50
  (`QuarryFlight.HitsPay`).
- A removal is refused more often than it need be: a dependency holds a package up even if
  another package that stays provides the same name
  (`RemoveDropped.RefusedThoughNobodyIsStranded`).
- A publish ends clean exactly when no two of its packages share a name.
- The scheduler subtracts package names from directory names; it keeps its promise on every
  run exactly when the two agree (`Waves.EveryRunDeliversExactlyWhenNamed`).

## Model

| member | source | states |
|---|---|---|
| CoursesBag.FillBag | core/src/courses.rs:101-110 | the in-place shuffle over the array leaves exactly the bag of the specification, for every generator and every bag number |
| CoursesBag.DealPiece | core/src/courses.rs:112-114 | the piece of an index is the one its bag holds at that place |
| CoursesBag.BagIsDeal | core/src/courses.rs:101-110 | for every generator and every bag number the shuffle yields each of the seven pieces once |
| CoursesBag.BlockDealsEach | core/src/courses.rs:112-114 | every aligned block of seven deals contains every kind |
| CoursesBag.BlockDealsNoneTwice | core/src/courses.rs:112-114 | and no kind twice |
| CoursesBag.EveryWindowOfThirteen | core/src/courses.rs:101-114 | any thirteen consecutive deals contain every kind, so a kind is never more than thirteen deals away |
| CoursesBag.EveryOrderComes | core/src/courses.rs:101-110 | the shuffle is fair: every order of the seven kinds comes of some draws, in every bag |
| CoursesBag.OrdersComeOneWay | core/src/courses.rs:101-110 | and of one choice of them only: two generators give the same bag n if and only if their draws at 16n + 1 to 16n + 6 agree, the k-th out of k + 1; no other draw matters and no order is favoured |
| CoursesDeals.DealtIsTheDeal | core/src/courses.rs:202-221 | whatever is pressed and whenever, the k-th piece that comes into play is the k-th of the seven-bag, and as many have come as the run counts, 300 at the most |
| CoursesDeals.SevenHoldEachKind | core/src/courses.rs:202-221 | so of the pieces a run is dealt each seven from a multiple of seven on hold each kind |
| CoursesDeals.SevenHoldNoneTwice | core/src/courses.rs:202-221 | and none twice |
| CoursesDeals.ThirteenHoldEachKind | core/src/courses.rs:202-221 | and any thirteen in a row hold every kind |
| CoursesDeals.ReplayIsSession | core/src/courses.rs:419-453 | every replay, of any log at all, is a game somebody could have played; what holds after all presses and ticks holds of it |
| CoursesDeals.ReplayIsDealtTheDeal | core/src/courses.rs:419-453 | so every replay is dealt the pieces of the bag in order |
| CoursesShapes.ComesAsDrawn | core/src/courses.rs:43-93 | each kind comes as its picture shows it |
| CoursesShapes.TurnsAQuarter | core/src/courses.rs:43-93 | the written-out table is right: each rotation is the one before it a quarter turn clockwise on, in a box of four for the I and of three for the others, and the O stays |
| CoursesShapes.StampWrites | core/src/courses.rs:224-229 | a piece put down marks the cells it covers and no other |
| CoursesShapes.RowsComeDown | core/src/courses.rs:237-256 | a clear takes a row that is not full down by as many rows as were full below it, as it is; empty rows come in at the top |
| CoursesMoves.LeftAndRight | core/src/courses.rs:288-299 | action 0 takes the piece one column left exactly when each cell one column left is free, action 1 one right; otherwise nothing |
| CoursesMoves.Turns | core/src/courses.rs:300-328 | action 2 turns by one quarter and action 3 by three, at the first of the seven written-out kicks that has room, or not at all |
| CoursesMoves.SoftDropFalls | core/src/courses.rs:329-335 | action 4: one row down and one point, if there is room |
| CoursesMoves.HardDropLands | core/src/courses.rs:336-344 | action 5: as far down as there is room, two points a row, and locked |
| CoursesMoves.HoldExchanges | core/src/courses.rs:345-377 | action 6, once a piece: the piece in play is put away for the one that was, the first time for the next of the deal; the run is over exactly when what comes has no room |
| CoursesMoves.NothingElse | core/src/courses.rs:283-287 | any other action does nothing, nor does any without a piece or after the end |
| CoursesMoves.NextArrives | core/src/courses.rs:202-221 | the next of the deal comes in at the top with its clocks at zero; the run is over exactly when 300 have come or it has no room |
| CoursesMoves.StartsEmpty | core/src/courses.rs:160-184 | a run starts in an empty well with the first of the deal, and never over at once |
| CoursesMoves.GravityQuickens | core/src/courses.rs:120-127 | each level up to the eleventh falls faster than the one before |
| CoursesMoves.FallOfOne | core/src/courses.rs:389-410 | a tick in the air: one on the gravity clock or one row down; the lock clock starts anew on a row lower than any before, and only there |
| CoursesMoves.FallsAtPace | core/src/courses.rs:389-398 | over n ticks in the air, interval times rows plus counter grows by exactly n |
| CoursesMoves.LocksAtThirty | core/src/courses.rs:399-405 | left at rest a piece stays for exactly what its lock clock has left of thirty ticks and locks on the last |
| CoursesScores.RowsAreCounted | core/src/courses.rs:237-256 | the count of full rows is the number of rows without an empty cell |
| CoursesScores.LockPays | core/src/courses.rs:258-267 | a lock that fills 0 to 4 rows pays 0, 100, 300, 500 or 800 times level + 1, four after four half as much again, rounded down; the level is then lines / 10 |
| CoursesScores.MoreRowsPayMore | core/src/courses.rs:16 | more rows at once pay more, by more than one row more would |
| CoursesScores.ScoreIsEarned | core/src/courses.rs:258-267 | over any presses and ticks the score is, to the point, what the clears and the drops are worth, each clear at the level of the lines before it and half as much again for four after four |
| CoursesBoard.Landing | core/src/courses.rs:336-341 | the row a falling piece comes to: it fits all the way down and not one row further |
| CoursesBoard.FitsAboveFloor | core/src/courses.rs:186-200 | a placement that fits has its origin at least two rows above the floor line, so no index is out of range |
| CoursesBoard.OnlyWallsAbove | core/src/courses.rs:186-200 | with all its cells above the board a piece collides or not by its column alone |
| CoursesBoard.DropFullRow | core/src/courses.rs:237-256 | one turn of the in-place clear leaves the final result as it was and one full row fewer to do, although the row is looked at again |
| CoursesBoard.ClearedHasNoFullRow | core/src/courses.rs:237-256 | after a clear no row is full, including rows that shifted down full |
| CoursesBoard.StampAdds | core/src/courses.rs:224-229 | a piece put on free cells adds four filled cells, less those above the top row |
| CoursesBoard.ClearTakesTenEach | core/src/courses.rs:237-256 | a clear removes exactly ten cells for each row it counts |
| CoursesBoard.AtMostFourRows | core/src/courses.rs:258-259 | on a board without full rows one piece fills at most four, so the cap on the LINE_SCORES index never acts |
| CoursesInvariants.StartSound | core/src/courses.rs:419-421 | a new run satisfies the invariant: the piece in play fits, its row is in range, no row is full, cells and pieces are accounted for |
| CoursesInvariants.SpawnSound | core/src/courses.rs:202-221 | bringing in the next piece keeps it |
| CoursesInvariants.SettleKeepsBooks | core/src/courses.rs:223-269 | locking keeps filled + 10 * lines + off-board cells equal to 4 * locked pieces |
| CoursesInvariants.LockSound | core/src/courses.rs:223-271 | locking keeps the whole invariant and pays at most 14400 |
| CoursesInvariants.LineCeiling | core/src/courses.rs:129-131 | at most 120 lines and level 12 on any run, and level 11 until the last piece |
| CoursesInvariants.KickKeepsRow | core/src/courses.rs:306-328 | no kick lifts a piece above row -5: an upward kick is reached only where a level one was blocked |
| CoursesInvariants.RotateSound | core/src/courses.rs:300-328 | turning, with all seven kicks, keeps the invariant |
| CoursesInvariants.HardDropSound | core/src/courses.rs:336-344 | a hard drop keeps it and locks exactly one piece |
| CoursesInvariants.HoldSound | core/src/courses.rs:345-377 | holding keeps it, with a first hold or a swap, and changes neither score nor locked pieces |
| CoursesInvariants.ApplySound | core/src/courses.rs:283-380 | any input, known or not, keeps the invariant and locks at most one piece |
| CoursesInvariants.StepSound | core/src/courses.rs:382-415 | any tick keeps it, locks at most one piece and counts one tick unless the run is over |
| CoursesRuns.StepSpends | core/src/courses.rs:382-415 | every tick lowers a potential over pieces left, rows left and the two clocks |
| CoursesRuns.ApplyAdds | core/src/courses.rs:283-380 | an input raises it by at most 1278 |
| CoursesRuns.RunOutEnds | core/src/courses.rs:443-447 | with a guard of at least the potential the closing loop ends the run |
| CoursesRuns.GuardNeverBinds | core/src/courses.rs:443-447 | and any larger guard gives the same game |
| CoursesRuns.ReplayEnds | core/src/courses.rs:419-453 | every replay, of any log and any ticks, ends over within 1278 * (300 + events) ticks, and MAX_PIECES * 60 * 60 never cuts it short |
| CoursesRuns.ReplayScoreFits | core/src/courses.rs:419-453 | no replay of an admissible length overflows the u32 score; at most 120 lines |
| CoursesRuns.SitIsRecorded | client/src/courses_view.rs:261-337 | after any presses and ticks in any order, the log so far replayed to the present tick is the present game |
| CoursesRuns.RecordThenReplay | client/src/courses_view.rs:261-337 | a session played to its end is reproduced by replaying its log: the same final game |
| CoursesRuns.LogIsInOrder | client/src/courses_view.rs:265-269 | the recorder never writes a tick before the last, a negative one or one ahead of the game |
| CoursesLockDelay.TickSpendsBudget | core/src/courses.rs:399-410 | a tick that ends grounded costs one of the (15 - resets) * 30 + (30 - counter) left; no tick adds any on the same lowest row |
| CoursesLockDelay.PressSpendsBudget | core/src/courses.rs:276-281 | no input adds to it, resets included |
| CoursesLockDelay.StayIsPaidFor | core/src/courses.rs:399-410 | over any inputs and ticks on one lowest row, grounded ticks are paid from that budget |
| CoursesLockDelay.LockDelayIsBounded | core/src/courses.rs:399-410 | so at most (LOCK_RESETS + 1) * LOCK_DELAY = 480 ticks end grounded for one piece and one lowest row, whatever is pressed |
| CoursesLockDelay.SpentBudgetLocks | core/src/courses.rs:399-405 | and with the last of the budget a grounded tick locks the piece |
| CoursesLockDelay.FloorOnlyGrows | core/src/courses.rs:406-410 | the lowest row reached never rises while the piece is in play |
| CoursesLockDelay.OneHoldPerPiece | core/src/courses.rs:345-377 | one swap per piece: after a hold, no inputs and ticks before that piece locks change which piece is in play or put away |
| CoursesHover.KeptForeverExactlyUnlessO | worker/src/game/logic.js:446-468 | so the claim that the reset cap stops endless spinning is false, exactly so: for every generator, the first piece can be kept in play for any number of ticks, and without one that ends grounded, if and only if it is not an O |
| CoursesHover.RoundHovers | core/src/courses.rs:306-335 | the stall itself, for each of the six kinds: a soft drop and four turns within a tick leave the piece where it was, flat and in the air, its lock clock untouched |
| CoursesHover.FirstOIsGone | core/src/courses.rs:382-415 | an O dealt first is gone within 1440 ticks whatever is pressed: turning never lifts it, so it falls for at most 960 and rests for at most 480 |
| CoursesStall.RoundComesBack | core/src/courses.rs:306-328 | four turns lift a flat I piece one row; 48 ticks later it is back, its lock clock untouched |
| CoursesStall.AirborneStallIsUnbounded | worker/src/game/logic.js:459-467 | by turning alone an I dealt first is still in play after 912 + 48 * n ticks, for every n, with no tick ended grounded |
| CoursesCore.State.constructor | core/src/courses.rs:160-184 | a fresh state: empty board, all counters at zero |
| CoursesCore.State.CollidesAt | core/src/courses.rs:186-200 | the loop over four cells decides collision with walls, floor and stack |
| CoursesCore.State.Spawn | core/src/courses.rs:202-221 | brings in the next piece, or ends the run when pieces are out or it does not fit |
| CoursesCore.State.StampPiece | core/src/courses.rs:224-229 | writes the cells that are on the board, no others |
| CoursesCore.State.ClearRows | core/src/courses.rs:237-256 | the in-place double loop leaves the non-full rows in order under as many empty rows as were full, and counts them |
| CoursesCore.State.LockPiece | core/src/courses.rs:223-271 | settles the piece, scores the clear, and spawns |
| CoursesCore.State.ResetLock | core/src/courses.rs:276-281 | restarts the lock clock at most LOCK_RESETS times |
| CoursesCore.State.Rotate | core/src/courses.rs:300-328 | the first of seven kicks that fits is taken, or none |
| CoursesCore.State.HardDrop | core/src/courses.rs:336-344 | drops to rest, pays two a row, locks |
| CoursesCore.State.Hold | core/src/courses.rs:345-377 | swaps once per piece |
| CoursesCore.State.Apply | core/src/courses.rs:283-380 | every action, and nothing for unknown ones |
| CoursesCore.State.Step | core/src/courses.rs:382-415 | gravity, then the lock clock, then the tick count |
| CoursesCore.Replay | core/src/courses.rs:419-453 | the replay loops report score, lines and ticks of the specified run |
| CoursesView.CoursesRun.DropTarget | client/src/courses_view.rs:118-127 | the preview row is the row the piece would come to rest at |
| CoursesView.PreviewIsWhereItLocks | client/src/courses_view.rs:118-127 | a hard drop locks exactly where the preview shows, and there it rests on something |
| CoursesView.CoursesRun.Press | client/src/courses_view.rs:261-275 | logs the action at the present tick and applies it; nothing once the run is over |
| CoursesView.CoursesRun.Tick | client/src/courses_view.rs:330-333 | steps the game and logs nothing |
| CoursesPageState.State.Spawn | worker/src/game/logic.js:251-275 | brings in the next piece; with none left the run is over and the last piece stays shown |
| CoursesPageState.State.LockPiece | worker/src/game/logic.js:351-374 | stamps, clears and scores with LINE_SCORES indexed as it stands: four rows at most are ever asked of it |
| CoursesPageState.State.Rotate | worker/src/game/logic.js:303-316 | the first kick that fits, or none |
| CoursesPageState.State.HoldPiece | worker/src/game/logic.js:397-423 | swaps once per piece, the hold null until the first |
| CoursesPageState.State.ApplyAction | worker/src/game/logic.js:376-427 | every action of the page does what the core's does |
| CoursesPageState.State.StepTick | worker/src/game/logic.js:446-470 | so does a tick, with a null piece, an unset hold and a stale piece after the end |
| CoursesPage.Replay | worker/src/game/logic.js:483-530 | the page's replay over its own state object: checks each event as it comes to it, steps up to it, applies it, and runs out the game; the first bad event is an error |
| CoursesPage.PageRefusesOnlyMinusOne | worker/src/game/logic.js:483-512 | of the logs the validator lets through, the page's replay refuses exactly those that start at tick -1 |
| CoursesPage.PageScoresAsTheCore | worker/src/game/logic.js:483-530 | whatever log the page's replay does not refuse, the core replays to the same game, if every tick fits 31 bits |
| CoursesPage.PageAgreesWithTheCore | worker/src/game/logic.js:483-530 | so for admitted logs with ticks in [0, 2^31) page and verifier end in the same game |
| CoursesPage.PageScoresTheEarly | worker/src/game/logic.js:483-530 | whatever log the page scores, its game is the core's of the events before the first tick past 31 bits, for the run is over long before |
| CoursesPage.PageAgreesOnTheEarly | worker/src/game/logic.js:483-530 | so on every admitted log that starts in the run page and core agree about those events, whatever the later ones are |
| CoursesPage.LateTickWraps | worker/src/game/core.js:38-41 | a tick of 2^31 is admitted and wraps in the copy to the core, where the two games then differ |
| EventLog.Validate | worker/src/game/logic.js:569-593 | accepts a log if and only if it is short enough, every event is well formed with a known action, ticks run from -1 upwards and in order, none past the end, and no tick has too many; a refusal names a fault the log has. The same loop with other limits is the one of Quarry |
| EventLog.SparseIsSpaced | worker/src/game/logic.js:588-589 | in a log in order no tick has more than n events if and only if every event is at a later tick than the n-th before it |
| EventLog.CoursesAdmits | worker/src/game/logic.js:569-593 | so a Courses log is admitted if and only if it is at most 20000 pairs of integers, an action 0 to 6 and a tick from -1 on, in order, at most eight in one tick |
| EventLog.QuarryAdmits | worker/src/game/quarry.js:495-516 | and a Quarry log if and only if it is at most 4000 events of an action 0 or 1 and a tick from -1 to 7200, in order, at most four in one tick |
| EventLog.VerifyCourses | worker/src/game/scores.js:194-211 | scores exactly the accepted logs that fit the core's buffer, by the core's replay of what was copied |
| EventLog.VerifyQuarry | worker/src/game/scores.js:194-211 | the same for Quarry |
| EventLog.WiredTicks | worker/src/game/core.js:36-45 | of an accepted Quarry log the core gets the actions and ticks as sent, in order |
| EventLog.AcceptedQuarryLogReplaysAlike | worker/src/game/quarry.js:473-516 | an accepted Quarry log without tick -1 is applied event by event at its ticks, and the page's game is the scored one, unless a capsule came due with sixteen falling |
| EventLog.AcceptedQuarryLogReplaysAlikeOnSeed | worker/src/game/quarry.js:473-516 | and it always is on a seed by which at most sixteen cells drop a capsule |
| Submissions.CoursesSessionCounts | worker/src/game/scores.js:194-211 | a Courses session of known keys, at most 8 between two ticks and 8192 in all, played to its end, is admitted, and the verifier's replay of it is the session's own game |
| Submissions.SubmitCourses | worker/src/game/scores.js:194-211 | so the verifier reports the score, lines and ticks the player saw |
| Submissions.QuarrySessionCounts | worker/src/game/scores.js:194-211 | the same of a Quarry session of aims and launches, at most 4 between two ticks and 4000 in all |
| Submissions.SubmitQuarry | worker/src/game/scores.js:194-211 | and of its score, bricks and ticks |
| QuarryRules.TruncDiv | core/src/quarry.rs:304 | division toward zero |
| QuarryRules.BrickAtHolds | core/src/quarry.rs:185-195 | a cell is found exactly when the point is inside it, and -1 exactly when it is inside none |
| QuarryRules.SplitMirrors | core/src/quarry.rs:245-263 | a split keeps every ball and appends, in order, as many mirror images as there is room for: same place, vx reversed |
| QuarryFlight.ReturnsGo | core/src/quarry.rs:293-312 | a ball that comes onto the paddle goes up at the pace, right if it landed at or right of the middle, left if left of it; between a quarter and twice the pace its sideways speed is the whole part of 2 * offset * pace / half the width, and never outside them; every second return is four faster, up to 96; a catch holds it instead; any other ball flies on |
| QuarryFlight.ReturnsAreInOrder | core/src/quarry.rs:302-309 | the further right a ball lands, the further right it is returned |
| QuarryFlight.FliesOrRebounds | core/src/quarry.rs:317-330 | a ball flies straight on, or is put back to where it touches a side or the ceiling, as fast as it was and on its way back in |
| QuarryFlight.BricksSendBack | core/src/quarry.rs:332-337 | a ball inside a brick goes back to the height it came from with its vertical speed reversed, and the brick is hit; inside none nothing happens |
| QuarryFlight.HitsPay | core/src/quarry.rs:218-239 | a hit takes one from a brick that can be broken and pays ten while something is left; a break pays the whole part of 50 * pace / 32 |
| QuarryFlight.BreaksDrop | core/src/quarry.rs:197-216 | a break drops at most one capsule, from the middle of the brick, where and of the kind that two draws of the cell alone say |
| QuarryFlight.CapsulesGive | core/src/quarry.rs:241-267 | what each of the four kinds changes, and that it changes nothing else |
| QuarryFlight.CapsulesFall | core/src/quarry.rs:357-374 | each capsule falls by sixteen; left are those in the field and out of reach, and no others |
| QuarryFlight.CapsulesAreCaught | core/src/quarry.rs:357-374 | each capsule in reach of the paddle is caught for a hundred points, and none beyond the reach of the widest |
| QuarryTicks.FliesTwoMoves | core/src/quarry.rs:314-316 | in the open a tick takes a ball two moves on, or one while slow |
| QuarryTicks.StaysInPlay | core/src/quarry.rs:412-420 | a ball is in play after its moves exactly when it is not below the field and none was caught |
| QuarryTicks.NoneStaysAfterACatch | core/src/quarry.rs:412-420 | once a ball is caught none of those after it stays |
| QuarryTicks.RollsMakeTheWall | core/src/quarry.rs:90-121 | each brick by its own draw out of a hundred: solid, gap, or one to three hits, by level and row |
| QuarryTicks.StartsInTheMiddle | core/src/quarry.rs:147-170 | a run starts with three lives, the ball in hand and the paddle in the middle, before the first wall |
| QuarryTicks.InputsDo | core/src/quarry.rs:269-288 | an aim is the nearest place in the field; a launch sends the held ball up from the middle of the paddle |
| QuarryTicks.AfterTheBalls | core/src/quarry.rs:424-457 | the last ball gone costs a life and what came with it, no brick left to break brings the next wall at its own pace, and the run ends with the last life or at tick 7200 |
| QuarryTicks.HeldTicks | core/src/quarry.rs:404-410 | with a ball in hand only the paddle and the capsules move |
| QuarryPaddle.TickApproaches | core/src/quarry.rs:391-402 | a tick takes the paddle 112 nearer to an aim inside the field, all the way if it is no further off, and never away from it |
| QuarryPaddle.AimIsReached | core/src/quarry.rs:391-402 | whatever else happens, an aim that fits the widest paddle is 112 nearer with every tick until it is reached or the run is over |
| QuarryRules.NoSolidBrickLow | core/src/quarry.rs:98-105 | no wall of any level has a solid brick in its lower half |
| QuarryPaddle.MovedIntoTheField | core/src/quarry.rs:402 | just after the clamp the paddle is wholly in the field |
| QuarryPaddle.KeepsItsSpeedExactlyWhen | core/src/quarry.rs:391-402 | a tick moves the paddle no further than PADDLE_SPEED if and only if it sticks out of the field by no more than that |
| QuarryPaddle.StepMovesOnce | core/src/quarry.rs:382-458 | the rest of a tick leaves it where it is, and sticking out by 64 at the most, since a capsule must be over it to widen it |
| QuarryPaddle.PaddleKeepsItsSpeed | core/src/quarry.rs:391-402 | a tick keeps all that is known of a run and moves the paddle no further than its speed |
| QuarryPaddle.EveryRunKeepsItsSpeed | core/src/quarry.rs:391-402 | so after any inputs and ticks of a run the next tick moves the paddle no further than PADDLE_SPEED, and it sticks out by at most 64 |
| QuarryPaddle.CapsulesStickOutExactlyWhen | core/src/quarry.rs:357-374 | the capsules of a tick leave the paddle outside the field if and only if it is far enough right and enough widening ones are due |
| QuarryPaddle.SticksOutExactlyWhen | core/src/quarry.rs:382-458 | a tick ends with the paddle outside the field if and only if it loses no life, clears no wall and that holds of the capsules in the air before it |
| QuarryPaddle.WideningSticksOut | core/src/quarry.rs:244 | from a state satisfying Fair, a tick that leaves the paddle 64 outside the field |
| QuarryBalls.StepFair | core/src/quarry.rs:382-458 | every tick keeps: each ball between the walls, under the ceiling and not below the field, 8 <= |vx| <= 192, 32 <= |vy| <= 96; speed a multiple of four from the wall's base to 96; paddle_x <= FIELD_W - PADDLE_W; every capsule in the field |
| QuarryBalls.ApplyFair | core/src/quarry.rs:269-288 | so does every input, launches included |
| QuarryBalls.BounceKeeps | core/src/quarry.rs:293-312 | a return from the paddle is never vertical nor stationary, through the truncating division |
| QuarryBalls.StrikeKeepsEnvelope | core/src/quarry.rs:332-337 | a reflection off a brick, with its move back, stays in the envelope |
| QuarryBalls.NoSubStepSkipsTheBand | core/src/quarry.rs:314-353 | a sub-step from above the paddle ends above it or inside the contact band, never below |
| QuarryBalls.PaddleReturns | core/src/quarry.rs:339-352 | a ball still descending inside the band is off the paddle sideways |
| QuarryLost.EveryLostBallMissedThePaddle | core/src/quarry.rs:314-355 | on every run each ball a tick loses below the field was off the paddle at some sub-step inside the contact band, itself or its parent before a split |
| QuarryLost.BallsAccounted | core/src/quarry.rs:412-420 | stepping the balls in turn keeps that account and loses none but such |
| QuarryLost.SplitAccounted | core/src/quarry.rs:245-263 | so does a split |
| QuarryBalls.LostBallMissedThePaddle | core/src/quarry.rs:314-355 | the same over any path of one unsplit ball, whatever the paddle does meanwhile |
| QuarryBalls.NoRowIsSkipped | core/src/quarry.rs:332-337 | no sub-step changes the brick row by more than one, before and after the bounce and in all |
| QuarryLedger.HitIsBooked | core/src/quarry.rs:218-239 | every hit, partial or breaking, keeps the ledger: hits = all hit points of walls cleared + those gone from this one, bricks broken the same, 50 to 150 points per break, 10 per partial hit, 100 per capsule, 1000 per level |
| QuarryLedger.BreakPays | core/src/quarry.rs:225-231 | a break pays between 50 and 150 at any pace the game reaches |
| QuarryLedger.CaughtOne | core/src/quarry.rs:241-267 | a catch moves one capsule from the field to the account |
| QuarryLedger.NextWallIsBooked | core/src/quarry.rs:442-452 | clearing a wall closes its account exactly |
| QuarryLedger.StepIsBooked | core/src/quarry.rs:382-458 | every tick keeps the ledger |
| QuarryLedger.ScoreFits | core/src/quarry.rs:218-239 | the score is at most 9960 for each wall reached, and fits a u32 |
| QuarryRuns.LoopEnds | core/src/quarry.rs:469-476 | a guard that covers the ticks left ends the run, and a larger one changes nothing |
| QuarryRuns.ReplayEnds | core/src/quarry.rs:465-482 | every replay of any log ends over by MAX_TICKS with its books in order, its guard never the reason |
| QuarryRuns.OrderedReplayIsByTick | core/src/quarry.rs:465-482 | on a log in order without negative ticks every event before the end is applied once, in order, at its own tick |
| QuarryRuns.SitIsRecorded | client/src/quarry_view.rs:104-111 | after any emits and ticks the log accounts for the present game |
| QuarryRuns.RecordThenReplay | client/src/quarry_view.rs:303-322 | a session played to its end is reproduced by replaying its log |
| QuarryTwins.StepTwins | worker/src/game/quarry.js:408-465 | one tick of the core and one of the page give the same game until a capsule is refused |
| QuarryTwins.TwinsAgree | worker/src/game/quarry.js:473-487 | on every log without negative ticks both replays end in the same game unless a capsule came due with sixteen falling, and that happens in one exactly when in the other |
| QuarryTwins.CoreIsPageClamped | core/src/quarry.rs:471-474 | any log at all: the core replays it as the page replays its clamped form, under the same condition |
| QuarryRoom.NoneIsRefused | core/src/quarry.rs:197-207 | on a seed by which at most sixteen cells drop a capsule the cap never acts, on any log: a cell drops at most once a wall |
| QuarryRoom.TwinsAgreeOnSeed | worker/src/game/quarry.js:473-487 | so on such a seed the twins end in the same game on every log without negative ticks, and the core on any log as the page on its clamped form |
| QuarryTwins.PageStopsAtNegative | worker/src/game/quarry.js:477-484 | the page applies no event of a log that starts at a negative tick |
| QuarryTwins.TwinsPartAtMinusOne | worker/src/game/quarry.js:498-508 | a log of one event at tick -1, which the validator admits, ends in two different games |
| QuarryCore.State.constructor | core/src/quarry.rs:147-170 | a fresh state with its arrays |
| QuarryCore.State.DropCapsule | core/src/quarry.rs:197-216 | adds the brick's capsule to the array unless sixteen are falling |
| QuarryCore.State.HitBrick | core/src/quarry.rs:218-239 | takes a hit point, pays, and drops a capsule on a break; solid and empty cells are left alone |
| QuarryCore.State.ApplyCapsule | core/src/quarry.rs:241-267 | the four kinds, the split in place among them |
| QuarryCore.State.StepCapsules | core/src/quarry.rs:357-374 | the in-place compaction keeps, in order, the capsules neither caught nor lost; an earlier catch widens the paddle for later ones |
| QuarryCore.State.BounceBall | core/src/quarry.rs:293-312 | the paddle return |
| QuarryCore.State.StepBall | core/src/quarry.rs:314-355 | one or two sub-steps of a ball, stopping when it is caught |
| QuarryCore.State.StepBalls | core/src/quarry.rs:412-420 | the in-place compaction steps every ball once, in order, and keeps the survivors |
| QuarryCore.State.BuildWall | core/src/quarry.rs:90-121 | fills the brick array with the wall of the level |
| QuarryCore.State.Apply | core/src/quarry.rs:269-288 | aim, clamped, and launch |
| QuarryCore.State.Step | core/src/quarry.rs:382-458 | the whole tick in its order |
| QuarryCore.DrainEvents | core/src/quarry.rs:471-474 | applies the events at the front of the log that are due and stops at the first that is not |
| QuarryCore.Replay | core/src/quarry.rs:465-482 | the replay reports score, bricks and ticks of the specified run |
| QuarryPage.State.MaybeDropCapsule | worker/src/game/quarry.js:244-256 | the page's list takes every capsule, without a cap |
| QuarryPage.State.ApplyCapsule | worker/src/game/quarry.js:258-285 | the page's capsules, the split collected in a second list and pushed |
| QuarryPage.State.StepCapsules | worker/src/game/quarry.js:381-397 | the page rebuilds its list |
| QuarryPage.State.StepAllBalls | worker/src/game/quarry.js:428-432 | the page rebuilds its ball list |
| QuarryPage.State.StepTick | worker/src/game/quarry.js:408-465 | the whole tick over lists |
| QuarryPage.Replay | worker/src/game/quarry.js:473-487 | the page's replay ends in the specified game |
| QuarryView.QuarryRun.Emit | client/src/quarry_view.rs:104-111 | logs an input at the present tick and applies it |
| QuarryView.QuarryRun.Steer | client/src/quarry_view.rs:125-141 | at most one aim a tick, and only when it moved far enough; a held key then has nothing more to say |
| QuarryView.QuarryRun.KeysSteer | client/src/quarry_view.rs:125-141 | the left key aims at the left edge, the right key at the right one, letting go at where the paddle is |
| QuarryView.QuarryRun.Tick | client/src/quarry_view.rs:303-322 | steers, then steps |
| QuarryView.QuarryRun.StartFanfare | client/src/quarry_view.rs:345-351 | logs and applies the opening launch |
| PackageNames.PkgnameInverts | scripts/publish.py:78-87 | the name parse gives back the name of name-version-release-arch.suffix, for any name, hyphens included, and for its signature |
| PackageNames.SignatureNames | scripts/publish.py:84 | a signature parses to the name of its package |
| PackageNames.SignatureIsNoPackage | scripts/publish.py:147 | no signature is named like a package |
| RepositorySafety.PutServes | scripts/publish.py:254-274 | one upload, of what was not refused, leaves every listed file present with its recorded bytes, and signed |
| RepositorySafety.NewDatabaseServes | scripts/publish.py:276-278 | once all packages are up the new database may replace the old |
| RepositorySafety.SupersededIsUnlisted | scripts/publish.py:140-152 | what pruning deletes is named by no entry of the new database |
| RepositorySafety.PublishServes | scripts/publish.py:226-286 | at every single write of a publish, finished, refused or stopped, readers are served |
| RepositoryRuns.RemoveServes | scripts/remove_dropped.py:199-216 | and at every single write of a removal |
| RepositoryRuns.HistoryServes | scripts/publish.py:226-286 | and over any sequence of publishes and removals each stopped after any write |
| RepositoryRuns.EveryReachableTreeServes | scripts/publish.py:226-286 | so does every tree that publishes and removals, cut off anywhere, can make of an empty bucket |
| RepositoryRuns.PublishEndsAt | scripts/publish.py:226-286 | a completed publish leaves the old objects and the new, less the superseded, under the new database |
| RepositoryRuns.RetryConverges | scripts/publish.py:246-253 | a publish stopped after any write is accepted when run again and ends in the very tree it would have ended in |
| PublishEnds.SupersededExactly | scripts/publish.py:134-153 | a prune deletes the files of the built packages, of whatever version, but for the built ones, and nothing else |
| PublishEnds.PublishLeaves | scripts/publish.py:226-286 | a completed publish leaves what was built with its signatures, no other file of any of its packages, and every other object as it was |
| PublishEnds.PublishLists | scripts/publish.py:226-286 | it lists of each name that was built the last package, of every other name what was listed before, and no more |
| PublishEnds.RefusedExactlyWhen | scripts/publish.py:246-253 | a build is refused if and only if the database names one of its files and the bytes there are others |
| RemovalEnds.RemoveEndsAt | scripts/remove_dropped.py:199-216 | a completed removal leaves the entries without the dropped ones, neither file nor signature of any of these that was listed under a package name, and every other object as it was |
| RemovalEnds.RemoveEndsClean | scripts/remove_dropped.py:199-216 | a signed removal from a tree that is clean and served ends clean |
| RemoveDropped.BareIsTheName | scripts/remove_dropped.py:119-123 | the five splits leave exactly what stands before the first comparison character |
| RemoveDropped.Plan | scripts/remove_dropped.py:136-157 | nothing is refused if and only if few enough go and none strands a package that stays; every refusal names a real need |
| RemoveDropped.RefusedExactlyWhen | scripts/remove_dropped.py:136-157 | a drop is refused if and only if more than twenty go or a package that stays depends on a name that one that goes answers to and no other repository does |
| RemoveDropped.RefusedThoughNobodyIsStranded | scripts/remove_dropped.py:146-153 | so it can be refused although another package that stays answers to the name as well |
| RemoveDropped.DropStrandsNobody | scripts/remove_dropped.py:146-153 | after a drop that is not refused, whatever a package that stays depends on and could get, it still can |
| Bucket.Store.ReferencedBy | scripts/publish.py:110-131 | the file names of the live database |
| Bucket.Store.RefusesOverwrite | scripts/publish.py:156-209 | refuses exactly when an object of that name holds other bytes |
| Bucket.Store.UploadBuild | scripts/publish.py:245-274 | uploads in order up to the first refusal; the trail of trees readers could see is the specified one |
| Bucket.Store.UploadDatabases | scripts/publish.py:212-223 | replaces the databases in one write |
| Bucket.Store.PruneSuperseded | scripts/publish.py:134-153 | deletes exactly the superseded objects of its listing |
| Bucket.Store.Publish | scripts/publish.py:226-286 | packages, then the database, then the prune; the trail is the specified one |
| Bucket.Store.Remove | scripts/remove_dropped.py:199-216 | the database first, then the files it no longer names |
| Bucket.RemoveUnbuilt | scripts/remove_dropped.py:172-216 | no database, a refusal, nothing to drop or a dry run changes nothing |
| Bucket.PublishTrailServes | scripts/publish.py:226-286 | every tree a publish lets be seen serves its readers |
| Bucket.RemoveTrailServes | scripts/remove_dropped.py:172-216 | every tree a removal lets be seen does |
| CheckRepo.CheckArch | scripts/check_repo.py:74-127 | reports exactly the problems a tree has, no fewer and no others |
| CheckRepo.CleanMeansConsistent | scripts/check_repo.py:74-127 | reports nothing if and only if the tree is empty or every file listed is present, of its recorded size and signed, every package is listed, both databases are signed and agree |
| CheckRepo.PublishFromCleanShows | scripts/check_repo.py:74-127 | at every write of a signed publish into any clean tree the check can only find packages not listed yet; on a first publish only the missing database, until it goes up |
| CheckRepo.PublishEndsClean | scripts/publish.py:226-286 | a signed publish into a clean tree that serves its readers, not refused, ends clean, if no two built packages share a name |
| CheckRepo.TwoOfANameShow | scripts/publish.py:226-286 | two built packages of one name leave a package unlisted |
| CheckRepo.EndsCleanExactlyWhenOnePerName | scripts/publish.py:226-286 | so it ends clean exactly when no two built packages share a name |
| Waves.Index | scripts/discover_packages.py:386 | every package name of the run leads to the last directory of that package in order, and no other name leads anywhere |
| Waves.Plan | scripts/discover_packages.py:388-415 | wave k is what round k of the closure adds, never empty; the cycle error lists exactly the packages no round builds |
| Waves.Discover | scripts/discover_packages.py:386-415 | where directories are named after their packages: a schedule if and only if there is no cycle, wave k holding the packages whose longest dependency chain has k + 1, split by architecture; otherwise the packages that depend on a cycle |
| Waves.HeldBackBy | scripts/discover_packages.py:397-402 | what holds a package back is the other directories of the run whose package it depends on, never its own |
| Waves.OwnNameHoldsNothingBack | scripts/discover_packages.py:397-402 | a package that depends on nothing in the run but itself is built first |
| Waves.BuiltByLongestChain | scripts/discover_packages.py:391-413 | a package is built within k rounds exactly when no dependency chain from it has more than k packages |
| Waves.NeedsComeFirst | scripts/discover_packages.py:397-402 | whatever a package depends on in the run is built in a strictly earlier wave |
| Waves.FewestWaves | scripts/discover_packages.py:404-409 | no order that builds dependencies earlier has fewer waves |
| Waves.NeverDoneMeansCycle | scripts/discover_packages.py:403-405 | a package is refused exactly when it depends, at some remove, on a cycle |
| Waves.SucceedsWithoutCycles | scripts/discover_packages.py:403-405 | a run succeeds exactly when it is acyclic, self edges aside |
| Waves.MisnamedHoldsBack | scripts/discover_packages.py:399-413 | a dependency whose directory is not named after its package makes a run of just the two fail, although acyclic |
| Waves.EveryRunDeliversExactlyWhenNamed | scripts/discover_packages.py:386-415 | of an acyclic set with distinct names, every run, whatever it skips, succeeds with dependencies first if and only if each depended-on directory carries its package's name |
| CivilDay.YearOfEraIsRight | client/src/main.rs:263 | the year-of-era formula names the one March year a day of the 400-year era lies in |
| CivilDay.TodayIsADate | client/src/main.rs:262-269 | every day count gives a valid Gregorian date |
| CivilDay.TomorrowFollows | client/src/main.rs:262-269 | the date of the next count is the calendar successor, over month ends, leap days, centuries and eras |
| CivilDay.TodayIsTheCalendars | client/src/main.rs:251-271 | day 0 is 1970-01-01 and every later count is the calendar's own date |
| CivilDay.DatesGrow | client/src/main.rs:251-271 | later days have later dates, so no two share one |

## Left out

- The bits of hash32 and seed_for: a parameter, so nothing is said about how evenly its draws fall; given the draws, CoursesBag.OrdersComeOneWay says the shuffle favours no order.
- Machine integer widths: unbounded integers with proved ceilings; the generator's keys are taken modulo 2^32 where the source wraps them, and the wrap of a copied event lane is modelled.
- The page's brick list is a value in a field; balls and capsules of the page are values in lists, so two names for one ball object are not modelled.
- Bucket.Store.UploadDatabases: one write, where the script uploads four aliases and their signatures one by one; a crash between two of them is not modelled.
- Bucket.Store.RefusesOverwrite: compares bytes, which stand for size and digest together; an object whose ETag is not a digest, where the script can compare sizes only, is not modelled, since every upload here is a single part and so has one.
- A signature names the bytes it is over; keys, signers and forgery are not modelled.
- repo-add and repo-remove are the replacement and removal of entries by package name; tar archives and the reading of desc files are not part of this model.
- CheckRepo.CheckArch: problems are a set of values in no particular order, where the script sorts and words them.
- Waves.Plan: waves are sets, where the script prints sorted lists; what is skipped as already published is any subset of the packages.
- CivilDay.TodayIsTheCalendars: the date as three numbers, without the clock or the padding to a string.
- Waves.BuiltByLongestChain: under the condition that depended-on directories carry their package's name; outside it the waves follow the closure stated by Waves.Plan.
- CoursesPage.PageAgreesWithTheCore: one direction only; a log with a later tick can still happen to end alike, when its event changes nothing. What the page's game then is, CoursesPage.PageScoresTheEarly says.
- QuarryTwins.TwinsAgree: its condition is read off the replays; QuarryRoom.NoneIsRefused gives one on the seed, which is sufficient only.
- QuarryPaddle.WideningSticksOut: from a state that satisfies Fair; no log that reaches it is given.
- Drawing, sound, effects, key repeat, initials and the DOM: they do not reach the simulation.
- The leaderboard, the Durable Object, SQL, R2 and HTTP handlers, and the wasm calling convention beyond the copied lanes.
- PKGBUILD parsing, source hashes, git-derived versions and release pruning: they surround the scheduler and would add only easy members.
