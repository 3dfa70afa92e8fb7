/**
  The solve/playback gate of CubeSolver: the `solving` flag, the FIFO of
  moves waiting to be shown, the `movesInQueue` flag that mirrors it, the
  mover's enabled flag (whether the user may turn the cube), the move timer,
  and the moves shown so far. Each handler is one atomic step: the step
  functions say what it does to the state, the class `CubeSolver` does it
  field by field, and the lemmas say what the steps keep and achieve.
 */
module Playback {
  import opened Moves

  /** The value of GLFW_PRESS, the action of a key going down. */
  const Press: int := 1

  /**
    `timerStarted` stands for the move timer having been started;
    `displayed` is the log of moves applied to the cube on screen;
    `solveJobs` counts the solve jobs handed to the thread pool.
   */
  datatype State = State(
    solving: bool,
    movesInQueue: bool,
    queue: seq<Move>,
    moverEnabled: bool,
    timerStarted: bool,
    displayed: seq<Move>,
    solveJobs: nat)

  /** `movesInQueue` says exactly whether moves are waiting. */
  predicate FlagMatchesQueue(s: State) {
    s.movesInQueue == (s.queue != [])
  }

  /** The user may turn the cube only when no solve runs and no move waits. */
  predicate GateClosedWhileBusy(s: State) {
    s.moverEnabled ==> !s.solving && s.queue == []
  }

  predicate Valid(s: State) {
    FlagMatchesQueue(s) && GateClosedWhileBusy(s)
  }

  // ---------------------------------------------------------------------------
  // One step per handler
  // ---------------------------------------------------------------------------

  /** `setSolving`: on always disables the mover; off enables it unless moves wait. */
  function SetSolvingStep(s: State, on: bool): State {
    s.(solving := on,
       moverEnabled := if on then false else if !s.movesInQueue then true else s.moverEnabled)
  }

  /** The condition under which `onKeypress` starts a solve. */
  predicate StartsSolve(s: State, solveKey: int, key: int, action: int) {
    action == Press && key == solveKey && s.moverEnabled
  }

  /** `onKeypress`: a press of the solve key while the mover is enabled starts a solve job. */
  function KeypressStep(s: State, solveKey: int, key: int, action: int): State {
    if StartsSolve(s, solveKey, key, action) then
      var t := SetSolvingStep(s, true);
      t.(solveJobs := t.solveJobs + 1)
    else s
  }

  /** `processGoalMoves`, as seen by the display: the goal's moves join the queue. */
  function GoalMovesStep(s: State, goalMoves: seq<Move>): State {
    s.(queue := s.queue + goalMoves, movesInQueue := s.movesInQueue || goalMoves != [])
  }

  /** `onPulse` shows a move when one waits and the timer is off or has run its interval. */
  predicate PulseFires(s: State, paced: bool) {
    s.movesInQueue && (!s.timerStarted || paced)
  }

  /** `onPulse`: pop the front move, show it, update the flag, maybe enable, restart the timer. */
  function PulseStep(s: State, paced: bool): (r: State)
    requires FlagMatchesQueue(s)
    ensures FlagMatchesQueue(r)
  {
    if !PulseFires(s, paced) then s
    else
      var rest := s.queue[1..];
      s.(queue := rest,
         displayed := s.displayed + [s.queue[0]],
         movesInQueue := rest != [],
         moverEnabled := if rest == [] && !s.solving then true else s.moverEnabled,
         timerStarted := true)
  }

  /** `n` pulses, each after the pacing interval. */
  function Drain(s: State, n: nat): (r: State)
    requires FlagMatchesQueue(s)
    ensures FlagMatchesQueue(r)
    decreases n
  {
    if n == 0 then s else Drain(PulseStep(s, true), n - 1)
  }

  // ---------------------------------------------------------------------------
  // What the steps keep
  // ---------------------------------------------------------------------------

  lemma SetSolvingKeepsValid(s: State, on: bool)
    requires Valid(s)
    ensures Valid(SetSolvingStep(s, on))
    ensures on ==> !SetSolvingStep(s, on).moverEnabled
    ensures !on ==> (SetSolvingStep(s, on).moverEnabled <==> s.moverEnabled || s.queue == [])
  {
  }

  lemma KeypressKeepsValid(s: State, solveKey: int, key: int, action: int)
    requires Valid(s)
    ensures Valid(KeypressStep(s, solveKey, key, action))
  {
  }

  /** Goal moves are queued while a solve runs, so the gate stays closed. */
  lemma GoalMovesKeepValid(s: State, goalMoves: seq<Move>)
    requires Valid(s) && s.solving
    ensures Valid(GoalMovesStep(s, goalMoves))
  {
  }

  lemma PulseKeepsValid(s: State, paced: bool)
    requires Valid(s)
    ensures Valid(PulseStep(s, paced))
  {
  }

  // ---------------------------------------------------------------------------
  // The solve guard
  // ---------------------------------------------------------------------------

  /**
    A keypress starts a solve (one more job, solving on, mover off) exactly
    on a press of the solve key while the mover is enabled; otherwise nothing
    changes.
   */
  lemma KeypressGuard(s: State, solveKey: int, key: int, action: int)
    ensures var t := KeypressStep(s, solveKey, key, action);
      (t.solveJobs == s.solveJobs + 1 <==> action == Press && key == solveKey && s.moverEnabled)
      && (t.solveJobs == s.solveJobs + 1 ==> t.solving && !t.moverEnabled)
      && (t.solveJobs != s.solveJobs + 1 ==> t == s)
  {
  }

  /** Once a solve has started, no further keypress starts another. */
  lemma SecondPressIgnored(s: State, solveKey: int, key1: int, action1: int, key2: int, action2: int)
    requires StartsSolve(s, solveKey, key1, action1)
    ensures var t := KeypressStep(s, solveKey, key1, action1);
      KeypressStep(t, solveKey, key2, action2) == t
  {
  }

  /** While a solve runs or moves wait, the gate is closed, so every keypress is ignored. */
  lemma BusyIgnoresKeypress(s: State, solveKey: int, key: int, action: int)
    requires Valid(s) && (s.solving || s.queue != [])
    ensures KeypressStep(s, solveKey, key, action) == s
  {
  }

  // ---------------------------------------------------------------------------
  // Playback
  // ---------------------------------------------------------------------------

  /** A pulse that does not fire changes nothing; one that fires shows the front move. */
  lemma PulseShowsFront(s: State, paced: bool)
    requires FlagMatchesQueue(s)
    ensures !PulseFires(s, paced) ==> PulseStep(s, paced) == s
    ensures PulseFires(s, paced) ==>
      && s.queue != []
      && PulseStep(s, paced).displayed == s.displayed + [s.queue[0]]
      && PulseStep(s, paced).queue == s.queue[1..]
      && PulseStep(s, paced).timerStarted
  {
  }

  /** After a move is shown, the next one waits for the pacing interval. */
  lemma OneMovePerInterval(s: State, paced: bool, paced2: bool)
    requires FlagMatchesQueue(s) && PulseFires(s, paced)
    ensures PulseFires(PulseStep(s, paced), paced2) ==> paced2
  {
  }

  /** `n` paced pulses show the first `n` queued moves, in order. */
  lemma {:induction false} DrainShowsInOrder(s: State, n: nat)
    requires FlagMatchesQueue(s) && n <= |s.queue|
    ensures Drain(s, n).displayed == s.displayed + s.queue[..n]
    ensures Drain(s, n).queue == s.queue[n..]
    ensures Drain(s, n).solving == s.solving
    decreases n
  {
    if n > 0 {
      var t := PulseStep(s, true);
      DrainShowsInOrder(t, n - 1);
      assert s.queue[..n] == [s.queue[0]] + t.queue[..n - 1];
      assert t.queue[n - 1..] == s.queue[n..];
    }
  }

  /** Once no solve runs, emptying the queue re-enables the mover. */
  lemma {:induction false} DrainReleasesMover(s: State)
    requires FlagMatchesQueue(s) && !s.solving && s.queue != []
    ensures Drain(s, |s.queue|).moverEnabled
    decreases |s.queue|
  {
    var t := PulseStep(s, true);
    if t.queue != [] {
      DrainReleasesMover(t);
    }
  }

  /**
    A whole solve: a press of the solve key on an idle cube, the solution
    queued, solving switched off. The mover stays disabled while moves wait,
    and pacing through them shows exactly the solution and re-enables it.
   */
  lemma SolveSession(s: State, solveKey: int, solution: seq<Move>)
    requires Valid(s) && s.moverEnabled && solution != []
    ensures var s1 := KeypressStep(s, solveKey, solveKey, Press);
      var s2 := SetSolvingStep(GoalMovesStep(s1, solution), false);
      && Valid(s2) && !s2.moverEnabled && s2.queue == solution
      && Drain(s2, |solution|).displayed == s.displayed + solution
      && Drain(s2, |solution|).queue == []
      && Drain(s2, |solution|).moverEnabled
  {
    var s1 := KeypressStep(s, solveKey, solveKey, Press);
    var s2 := SetSolvingStep(GoalMovesStep(s1, solution), false);
    assert s2.queue == solution;
    DrainShowsInOrder(s2, |solution|);
    DrainReleasesMover(s2);
    assert solution[..|solution|] == solution;
  }

  // ---------------------------------------------------------------------------
  // The handlers, updating the fields in place
  // ---------------------------------------------------------------------------

  class CubeSolver {
    var solving: bool
    var movesInQueue: bool
    var queue: seq<Move>
    var moverEnabled: bool
    var timerStarted: bool
    var displayed: seq<Move>
    var solveJobs: nat
    const solveKey: int

    function Snapshot(): State
      reads this
    {
      State(solving, movesInQueue, queue, moverEnabled, timerStarted, displayed, solveJobs)
    }

    /** Not solving, nothing queued, timer stopped; the mover's flag is the mover's own. */
    constructor (solveKey: int, moverEnabled: bool)
      ensures this.solveKey == solveKey
      ensures Snapshot() == State(false, false, [], moverEnabled, false, [], 0)
      ensures Valid(Snapshot())
    {
      this.solving := false;
      this.movesInQueue := false;
      this.queue := [];
      this.moverEnabled := moverEnabled;
      this.timerStarted := false;
      this.displayed := [];
      this.solveJobs := 0;
      this.solveKey := solveKey;
    }

    method SetSolving(on: bool)
      modifies this
      ensures Snapshot() == SetSolvingStep(old(Snapshot()), on)
    {
      solving := on;
      if solving {
        moverEnabled := false;
      } else if !movesInQueue {
        moverEnabled := true;
      }
    }

    /** `scancode` and `mods` are accepted and not looked at. */
    method OnKeypress(key: int, scancode: int, action: int, mods: int)
      modifies this
      ensures Snapshot() == KeypressStep(old(Snapshot()), solveKey, key, action)
    {
      if action == Press && key == solveKey && moverEnabled {
        SetSolving(true);
        solveJobs := solveJobs + 1;
      }
    }

    /**
      Appends the goal's moves to `allMoves`, applies each to the working
      cube (its move log `working`) and queues it for display, then empties
      the goal's moves.
     */
    method ProcessGoalMoves(working: seq<Move>, allMoves: seq<Move>, goalMoves: seq<Move>)
      returns (working': seq<Move>, allMoves': seq<Move>, goalMoves': seq<Move>)
      modifies this
      ensures allMoves' == allMoves + goalMoves
      ensures working' == working + goalMoves
      ensures goalMoves' == []
      ensures Snapshot() == GoalMovesStep(old(Snapshot()), goalMoves)
    {
      allMoves' := allMoves + goalMoves;
      working' := working;
      for i := 0 to |goalMoves|
        invariant working' == working + goalMoves[..i]
        invariant queue == old(queue) + goalMoves[..i]
        invariant movesInQueue == (old(movesInQueue) || i > 0)
        invariant solving == old(solving) && moverEnabled == old(moverEnabled)
        invariant timerStarted == old(timerStarted) && displayed == old(displayed)
        invariant solveJobs == old(solveJobs)
      {
        assert goalMoves[..i + 1] == goalMoves[..i] + [goalMoves[i]];
        working' := working' + [goalMoves[i]];
        queue := queue + [goalMoves[i]];
        movesInQueue := true;
      }
      assert goalMoves[..|goalMoves|] == goalMoves;
      goalMoves' := [];
    }

    /** `paced` says whether the move timer has run for at least one second. */
    method OnPulse(paced: bool)
      requires FlagMatchesQueue(Snapshot())
      modifies this
      ensures Snapshot() == PulseStep(old(Snapshot()), paced)
    {
      if movesInQueue && (!timerStarted || paced) {
        var move := queue[0];
        queue := queue[1..];
        displayed := displayed + [move];
        movesInQueue := queue != [];
        if !movesInQueue && !solving {
          moverEnabled := true;
        }
        timerStarted := true;
      }
    }
  }
}
