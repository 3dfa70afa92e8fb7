# CubeSolver: move simplifier and playback gate

This project models the sequential core of `CubeSolver`, the base class of the
Rubik's-cube solvers. The model has two parts.

- **The move simplifier** is `simplifyMoves` with its helper `replace`.
  - It joins the solution's moves into one string, each move followed by a space.
  - It then runs 30 substring rewrites in a fixed order. Each rewrite replaces
    the leftmost occurrence of its needle until none is left.
  - Finally it splits the string back into whitespace-separated moves.
- **The solve/playback gate** is `setSolving`, `onKeypress`,
  `processGoalMoves` and `onPulse`.
  - A press of the solve key starts a solve and disables the user's cube mover.
  - The solver queues each goal's moves.
  - The render loop's pulse shows one queued move per pacing interval.
  - The mover is enabled again once the solve is over and the queue is empty.

Modules:

- `Moves` (`moves.dfy`): faces, turns and the face notation of a move ("U", "U'", "U2").
- `Simplifier` (`simplifier.dfy`):
  - `Find` is `std::string::find`;
  - `ReplaceAll` specifies the method `Replace`, which models `replace`;
  - `Joined` and `Tokens` are the joining loop and the `istream_iterator` split;
  - `Simplify` specifies the method `SimplifyMoves`, which models `simplifyMoves`.
  - The rule table is a parameter. The 30 straight-line `replace` calls are a
    loop over it in the same order.
- `TokenRewrite` (`token_rewrite.dfy`) works on lists of moves.
  - For moves in face notation, rewriting the joined text is the same as
    rewriting the list of moves.
  - A replacement of " " becomes an empty move, and the empty move is the
    double space left in the text.
  - Re-tokenising drops the empty moves.
- `Rules` (`rules.dfy`) holds two tables of five blocks of six rules.
  - `SourceRules` is the table as written. Its triple-turn block lists B twice.
  - `IntendedRules` is the corrected table.
- `Facts` (`facts.dfy`): what `simplifyMoves` returns on the inputs that matter.
  - `simplifyMoves` runs each rule once, so it is not idempotent (`Facts.NotIdempotent`).
  - ["R","R","U'","U"] simplifies to ["R2"] (`Facts.LateCancellation`).
- `Playback` (`playback.dfy`):
  - a step function per handler;
  - the invariants the steps keep;
  - `class CubeSolver`, whose methods update the fields in place and are proved
    equal to the step functions.

## Model

| member | source | states |
|---|---|---|
| Simplifier.Find | Maincontroller/Command/Solver/CubeSolver.cpp:213 | `find` gives None exactly when the needle does not occur; otherwise the needle occurs at the index, and at no earlier index |
| Simplifier.ReplaceAll | Maincontroller/Command/Solver/CubeSolver.cpp:209-219 | the loop ends, given a replacement shorter than the needle; afterwards the needle does not occur, the string is no longer, and a string without the needle is unchanged |
| Simplifier.Replace | Maincontroller/Command/Solver/CubeSolver.cpp:209-219 | the in-place loop of leftmost find-and-replace steps computes `ReplaceAll` and leaves no occurrence of the needle |
| Simplifier.Tokens | Maincontroller/Command/Solver/CubeSolver.cpp:199-200 | every word read back is non-empty and has no whitespace, and there are no more words than characters |
| Simplifier.TokensOfJoined | Maincontroller/Command/Solver/CubeSolver.cpp:160-161 | joining whitespace-free moves with trailing spaces and reading the words back gives the same moves |
| Simplifier.ApplyRules | Maincontroller/Command/Solver/CubeSolver.cpp:163-196 | applying the rules in order never lengthens the string, and the last rule's needle is absent at the end |
| Simplifier.SimplifyMoves | Maincontroller/Command/Solver/CubeSolver.cpp:155-201 | the join loop, the rule loop and the re-tokenising compute `Simplify`: the words of the joined string after every rule has run in table order |
| TokenRewrite.SimplifyByTokens | Maincontroller/Command/Solver/CubeSolver.cpp:155-219 | for moves in face notation, `simplifyMoves` is each rule rewriting the move list leftmost-first in table order, then dropping the empty moves that " " replacements leave |
| TokenRewrite.NeverLonger | Maincontroller/Command/Solver/CubeSolver.cpp:160-200 | `simplifyMoves` never returns more moves than it is given |
| TokenRewrite.FindJoined | Maincontroller/Command/Solver/CubeSolver.cpp:213 | in joined face-notation text, `find` stops only at the start of a move, the one where the needle's moves begin in the list |
| TokenRewrite.ReplaceAllJoined | Maincontroller/Command/Solver/CubeSolver.cpp:209-219 | `replace` on the joined text is the joined text of the move-list rewrite |
| TokenRewrite.TokensOfSlots | Maincontroller/Command/Solver/CubeSolver.cpp:199-200 | reading back text that holds empty moves gives the non-empty moves in order |
| TokenRewrite.Compact | Maincontroller/Command/Solver/CubeSolver.cpp:199-200 | dropping the empty moves gives no more moves, only non-empty ones, and only ones that were there |
| Rules.TableShaped | Maincontroller/Command/Solver/CubeSolver.cpp:163-196 | every replacement in the table is shorter than its needle, so every `replace` call ends |
| Rules.RuleText | Maincontroller/Command/Solver/CubeSolver.cpp:163-196 | for each face f and each of the five rule kinds, the needle is "f2 f2 ", "f f' ", "f' f ", "f f f " or "f f ", and the replacement is " ", " ", " ", "f' " or "f2 " |
| Rules.SourceTableDuplicatesB | Maincontroller/Command/Solver/CubeSolver.cpp:184-189 | rules 22 and 23 (counting from 0; CubeSolver.cpp:188-189) are both "B B B ", and no rule of the table as written has the needle "D D D " |
| Rules.IntendedTableHasTripleD | Maincontroller/Command/Solver/CubeSolver.cpp:184-189 | the corrected rule 23 rewrites "D D D " to "D' " |
| Facts.PairsCancel | Maincontroller/Command/Solver/CubeSolver.cpp:163-182 | for every face and either table, "f2 f2", "f f'" and "f' f" simplify to no moves |
| Facts.TwoQuartersMakeHalf | Maincontroller/Command/Solver/CubeSolver.cpp:191-196 | for every face and either table, "f f" simplifies to "f2" |
| Facts.ThreeQuartersMakeInverse | Maincontroller/Command/Solver/CubeSolver.cpp:184-189 | "f f f" simplifies to "f'" for U, L, F, R and B in the table as written, and for every face in the corrected table |
| Facts.ThreeDsAsWritten | Maincontroller/Command/Solver/CubeSolver.cpp:184-196 | as written, "D D D" simplifies to "D2 D", not "D'" |
| Facts.ThreeDsSimplified | Maincontroller/Command/Solver/CubeSolver.cpp:184-196 | in any table whose triple-turn block has no D rule, "D D D" becomes "D2 D": the double-turn rule for D rewrites the first two D's |
| Facts.ThreeDsIntended | Maincontroller/Command/Solver/CubeSolver.cpp:184-196 | with the D rule, "D D D" simplifies to "D'" |
| Facts.NothingMatches | Maincontroller/Command/Solver/CubeSolver.cpp:160-200 | when no rule's needle occurs in the move list, the moves come back unchanged and in order |
| Facts.UnrelatedMovesKept | Maincontroller/Command/Solver/CubeSolver.cpp:160-200 | in either table, "U L" comes back unchanged, because every needle starts with two moves of one face |
| Facts.GapsInert | Maincontroller/Command/Solver/CubeSolver.cpp:163-196 | a list in which every pair of neighbours includes an empty move is left alone by every rule |
| Facts.CancellationLeavesGap | Maincontroller/Command/Solver/CubeSolver.cpp:170-175 | in either table, "R U U' R'" simplifies to "R R'": the double space left by cancelling "U U'" keeps "R R'" from matching |
| Facts.NotIdempotent | Maincontroller/Command/Solver/CubeSolver.cpp:163-200 | in either table each rule runs once, so the result is not a fixpoint: "R U U' R'" gives "R R'", and simplifying that gives no moves |
| Facts.LateCancellation | Maincontroller/Command/Solver/CubeSolver.cpp:163-200 | in either table, "R R U' U" simplifies to "R2": "U' U" cancels to an empty move first, then the "R R" rule merges the two R turns into "R2" |
| Playback.SetSolvingKeepsValid | Maincontroller/Command/Solver/CubeSolver.cpp:99-110 | switching solving on always disables the mover; switching it off enables the mover exactly when it was enabled or no move waits; both keep the invariants |
| Playback.KeypressGuard | Maincontroller/Command/Solver/CubeSolver.cpp:48-59 | a keypress starts a solve exactly on a press of the solve key while the mover is enabled; it then turns solving on and disables the mover, and otherwise changes nothing |
| Playback.SecondPressIgnored | Maincontroller/Command/Solver/CubeSolver.cpp:52-57 | once a solve has started, the next keypress, whatever it is, starts no other |
| Playback.BusyIgnoresKeypress | Maincontroller/Command/Solver/CubeSolver.cpp:52-57 | while a solve runs or moves wait, every keypress leaves the state unchanged, so no second solve can start |
| Playback.KeypressKeepsValid | Maincontroller/Command/Solver/CubeSolver.cpp:48-59 | a keypress keeps the queue flag exact and the mover disabled while busy |
| Playback.GoalMovesKeepValid | Maincontroller/Command/Solver/CubeSolver.cpp:123-148 | queuing moves during a solve keeps the invariants |
| Playback.PulseKeepsValid | Maincontroller/Command/Solver/CubeSolver.cpp:65-89 | a pulse keeps `movesInQueue` equal to "the queue is non-empty" and keeps the mover disabled while busy |
| Playback.PulseShowsFront | Maincontroller/Command/Solver/CubeSolver.cpp:65-89 | a pulse that does not fire changes nothing; one that fires removes exactly the front move, shows it and restarts the timer |
| Playback.OneMovePerInterval | Maincontroller/Command/Solver/CubeSolver.cpp:69-70 | after a move is shown, the next pulse shows one only when the pacing interval has passed |
| Playback.DrainShowsInOrder | Maincontroller/Command/Solver/CubeSolver.cpp:73-80 | n paced pulses show the first n queued moves in queue order and leave the rest queued |
| Playback.DrainReleasesMover | Maincontroller/Command/Solver/CubeSolver.cpp:83-84 | when no solve runs, showing every queued move enables the mover |
| Playback.SolveSession | Maincontroller/Command/Solver/CubeSolver.cpp:48-148 | a solve started on an idle cube, with its solution queued and solving switched off, keeps the mover disabled while moves wait; it then shows exactly the solution and enables the mover |
| Playback.CubeSolver.constructor | Maincontroller/Command/Solver/CubeSolver.cpp:13-24 | not solving, no moves queued, timer stopped; the invariants hold |
| Playback.CubeSolver.SetSolving | Maincontroller/Command/Solver/CubeSolver.cpp:99-110 | the fields are updated as `SetSolvingStep` says |
| Playback.CubeSolver.OnKeypress | Maincontroller/Command/Solver/CubeSolver.cpp:48-59 | the fields are updated as `KeypressStep` says |
| Playback.CubeSolver.ProcessGoalMoves | Maincontroller/Command/Solver/CubeSolver.cpp:123-148 | `allMoves` gains the goal's moves; so do the working cube's moves and the queue, in order; `movesInQueue` becomes true iff it was true or there were goal moves; the goal's moves end empty |
| Playback.CubeSolver.OnPulse | Maincontroller/Command/Solver/CubeSolver.cpp:65-89 | the fields are updated as `PulseStep` says: pop and show the front move, set the flag from the queue, enable the mover when the queue is empty and no solve runs, restart the timer |

## Left out

- Threads and locks are left out: the `moveMutex` locks, `atomic_bool` and `ThreadPool::addJob`. Each handler is one atomic step. The solve job is only counted (`solveJobs`).
- `initialize` only binds the GLFW keypress and pulse callbacks, so it is not modelled.
- The move timer is not modelled as floating-point time.
  - `timerStarted` stands for `moveTimer.isStarted()`.
  - The boolean input `paced` of `OnPulse` stands for "at least one second has elapsed".
  - The unused `elapsed` parameter is dropped.
- Rendering and the cube model are not modelled.
  - `pCube->move` appends to the `displayed` log.
  - The working cube in `processGoalMoves` is the list of moves applied to it.
- The mover's enabled flag is a field of the model, but the source's mover is shared with other controllers. Changes they make are not modelled.
- The `cout` logging in `replace` and `processGoalMoves` is not modelled. The `goal` and `goalNum` parameters are used only for that logging, so they are dropped.
- `solveCube` is pure virtual, so the search behind a solve is not part of this model. Model/Goal/Thistlethwaite/GoalG0_G1.h is not part of this model either.
- Simplifier.Replace: requires a replacement shorter than the needle. The loop need not end otherwise, for example when the replacement contains the needle. Every call in `simplifyMoves` meets this requirement.
- TokenRewrite.SimplifyByTokens: covers only moves in face notation. That is the form the solvers produce. For other strings only `Simplify` describes the result.
- TokenRewrite.NeverLonger: is stated for moves in face notation, for the same reason.
- Facts.NothingMatches: states that moves keep their order only for inputs in which no rule's needle occurs, not that moves no rule matches keep their relative order in every input. Which moves a rule matches changes as the earlier rules rewrite the list, so the general statement needs a frame theorem for every rule over the rewritten lists; beyond this lemma, the order is proved only for the examples in `Facts`.

## Findings

| source | as written | input that shows it | evidently intended | confidence | as-written member | corrected member |
|---|---|---|---|---|---|---|
| Maincontroller/Command/Solver/CubeSolver.cpp:189 | the triple-turn block repeats `replace("B B B ", movesStr, "B' ")` and has no D rule | ["D","D","D"] simplifies to ["D2","D"] | `replace("D D D ", movesStr, "D' ")`, so that ["D","D","D"] simplifies to ["D'"] | high (proved; not executed) | Facts.ThreeDsAsWritten | Facts.ThreeDsIntended |
