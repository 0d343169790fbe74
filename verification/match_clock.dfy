/** The scorecard's state machine as values: the five pieces of state the
    widget keeps (elapsed seconds, whether the clock runs, the match status and
    the two scores), one function per handler, the one-second tick with the
    condition under which it is delivered, and what follows for any sequence
    of commands. */
module MatchClock {

  /** Ninety minutes, in seconds: the clock stops when it reaches this. */
  const FullTimeSeconds := 5400

  /** The badge text 'Not Started', 'In Progress' and 'Full Time'. */
  datatype Status = NotStarted | InProgress | FullTime

  datatype Board = Board(
    time: int,
    isRunning: bool,
    matchStatus: Status,
    scoreTeam1: int,
    scoreTeam2: int)

  /** The state every scorecard starts in. */
  function Initial(): Board {
    Board(0, false, NotStarted, 0, 0)
  }

  /** What holds in every state reachable from Initial(). The clock stays
      within the match, scores are never negative, only an "In Progress"
      match can run, a match not yet started has not used any time, and
      full time means the clock stands at 90:00 and is stopped. Note that a
      started match may be running with the clock already at 90:00: starting
      after full time is allowed. */
  predicate Inv(b: Board) {
    && 0 <= b.time <= FullTimeSeconds
    && b.scoreTeam1 >= 0 && b.scoreTeam2 >= 0
    && (b.isRunning ==> b.matchStatus == InProgress)
    && (b.matchStatus == NotStarted ==> b.time == 0 && !b.isRunning)
    && (b.matchStatus == FullTime ==> b.time == FullTimeSeconds && !b.isRunning)
  }

  /** startTimer: run the clock and mark the match in progress, whatever the
      status was, full time included. */
  function Start(b: Board): (r: Board)
    ensures r.isRunning && r.matchStatus == InProgress
    ensures r.time == b.time && r.scoreTeam1 == b.scoreTeam1 && r.scoreTeam2 == b.scoreTeam2
    ensures Inv(b) ==> Inv(r)
  {
    b.(isRunning := true, matchStatus := InProgress)
  }

  /** pauseTimer: stop the clock; the status stays what it was. */
  function Pause(b: Board): (r: Board)
    ensures !r.isRunning
    ensures r.time == b.time && r.matchStatus == b.matchStatus
    ensures r.scoreTeam1 == b.scoreTeam1 && r.scoreTeam2 == b.scoreTeam2
    ensures Inv(b) ==> Inv(r)
  {
    b.(isRunning := false)
  }

  /** resetTimer: back to the initial state, from any state. */
  function Reset(b: Board): (r: Board)
    ensures r == Initial() && Inv(r)
  {
    Board(0, false, NotStarted, 0, 0)
  }

  /** incrementScore: one more goal for team 1 when the argument is "team1",
      and for team 2 for every other argument. */
  function Increment(b: Board, team: string): (r: Board)
    ensures team == "team1" ==> r.scoreTeam1 == b.scoreTeam1 + 1 && r.scoreTeam2 == b.scoreTeam2
    ensures team != "team1" ==> r.scoreTeam2 == b.scoreTeam2 + 1 && r.scoreTeam1 == b.scoreTeam1
    ensures r.time == b.time && r.isRunning == b.isRunning && r.matchStatus == b.matchStatus
    ensures Inv(b) ==> Inv(r)
  {
    if team == "team1" then b.(scoreTeam1 := b.scoreTeam1 + 1)
    else b.(scoreTeam2 := b.scoreTeam2 + 1)
  }

  function Max(x: int, y: int): int {
    if x < y then y else x
  }

  /** decrementScore: one goal fewer for the selected team, but never below
      zero (the same team selection as Increment). */
  function Decrement(b: Board, team: string): (r: Board)
    ensures team == "team1" ==>
      && r.scoreTeam2 == b.scoreTeam2
      && (b.scoreTeam1 > 0 ==> r.scoreTeam1 == b.scoreTeam1 - 1)
      && (b.scoreTeam1 <= 0 ==> r.scoreTeam1 == 0)
    ensures team != "team1" ==>
      && r.scoreTeam1 == b.scoreTeam1
      && (b.scoreTeam2 > 0 ==> r.scoreTeam2 == b.scoreTeam2 - 1)
      && (b.scoreTeam2 <= 0 ==> r.scoreTeam2 == 0)
    ensures r.time == b.time && r.isRunning == b.isRunning && r.matchStatus == b.matchStatus
    ensures Inv(b) ==> Inv(r)
  {
    if team == "team1" then b.(scoreTeam1 := Max(0, b.scoreTeam1 - 1))
    else b.(scoreTeam2 := Max(0, b.scoreTeam2 - 1))
  }

  /** The condition under which the one-second interval is armed: the clock
      runs and has not yet reached 90:00. */
  predicate TickArmed(b: Board) {
    b.isRunning && b.time < FullTimeSeconds
  }

  /** The interval callback: one more second; on reaching 90:00 the clock
      stops and the match is at full time, in the same step. */
  function Advance(b: Board): (r: Board)
    ensures r.time == b.time + 1
    ensures r.scoreTeam1 == b.scoreTeam1 && r.scoreTeam2 == b.scoreTeam2
    ensures r.time == FullTimeSeconds ==> !r.isRunning && r.matchStatus == FullTime
    ensures r.time != FullTimeSeconds ==> r.isRunning == b.isRunning && r.matchStatus == b.matchStatus
  {
    var newTime := b.time + 1;
    if newTime == FullTimeSeconds then b.(time := newTime, isRunning := false, matchStatus := FullTime)
    else b.(time := newTime)
  }

  /** One second of real time: the callback runs only while the interval is
      armed; otherwise nothing is delivered and nothing changes. */
  function Tick(b: Board): (r: Board)
    ensures !b.isRunning ==> r == b
    ensures b.time >= FullTimeSeconds ==> r == b
    ensures TickArmed(b) ==> r == Advance(b) && r.time == b.time + 1
    ensures Inv(b) ==> Inv(r)
  {
    if TickArmed(b) then Advance(b) else b
  }

  /** Everything that can happen to the scorecard: the five button handlers
      and the interval tick. */
  datatype Command =
    | StartTimer
    | PauseTimer
    | ResetTimer
    | IncrementScore(team: string)
    | DecrementScore(team: string)
    | IntervalTick

  function Step(b: Board, c: Command): Board {
    match c
    case StartTimer => Start(b)
    case PauseTimer => Pause(b)
    case ResetTimer => Reset(b)
    case IncrementScore(team) => Increment(b, team)
    case DecrementScore(team) => Decrement(b, team)
    case IntervalTick => Tick(b)
  }

  /** The state after the commands, in order. */
  function Run(b: Board, cs: seq<Command>): Board
    decreases |cs|
  {
    if cs == [] then b else Run(Step(b, cs[0]), cs[1..])
  }

  function Repeat(c: Command, n: nat): (cs: seq<Command>)
    ensures |cs| == n && forall i :: 0 <= i < n ==> cs[i] == c
  {
    if n == 0 then [] else [c] + Repeat(c, n - 1)
  }

  lemma {:induction false} RunAppend(b: Board, xs: seq<Command>, ys: seq<Command>)
    ensures Run(b, xs + ys) == Run(Run(b, xs), ys)
    decreases |xs|
  {
    if xs == [] {
      assert xs + ys == ys;
    } else {
      assert (xs + ys)[0] == xs[0] && (xs + ys)[1..] == xs[1..] + ys;
      RunAppend(Step(b, xs[0]), xs[1..], ys);
    }
  }

  lemma StepKeepsInv(b: Board, c: Command)
    requires Inv(b)
    ensures Inv(Step(b, c))
  {
  }

  /** No sequence of commands takes a valid state out of Inv. */
  lemma {:induction false} RunKeepsInv(b: Board, cs: seq<Command>)
    requires Inv(b)
    ensures Inv(Run(b, cs))
    decreases |cs|
  {
    if cs != [] {
      StepKeepsInv(b, cs[0]);
      RunKeepsInv(Step(b, cs[0]), cs[1..]);
    }
  }

  /** Whatever the operator does and however long the clock runs, the clock
      stays between 00:00 and 90:00, neither score is ever negative, and
      full time is shown only at 90:00 with the clock stopped. */
  lemma ReachableInv(cs: seq<Command>)
    ensures var b := Run(Initial(), cs);
      0 <= b.time <= FullTimeSeconds && b.scoreTeam1 >= 0 && b.scoreTeam2 >= 0
      && (b.matchStatus == FullTime ==> b.time == FullTimeSeconds && !b.isRunning)
      && (b.isRunning ==> b.matchStatus == InProgress)
  {
    RunKeepsInv(Initial(), cs);
  }

  /** While the interval is not armed, ticks change nothing. */
  lemma {:induction false} DisarmedTicks(b: Board, n: nat)
    requires !TickArmed(b)
    ensures Run(b, Repeat(IntervalTick, n)) == b
    decreases n
  {
    if n > 0 {
      assert Repeat(IntervalTick, n)[1..] == Repeat(IntervalTick, n - 1);
      DisarmedTicks(b, n - 1);
    }
  }

  /** A running clock short of 90:00 gains exactly one second per tick,
      and nothing else changes. */
  lemma {:induction false} RunningTicks(b: Board, n: nat)
    requires b.isRunning && b.time + n < FullTimeSeconds
    ensures Run(b, Repeat(IntervalTick, n)) == b.(time := b.time + n)
    decreases n
  {
    if n > 0 {
      assert Repeat(IntervalTick, n)[1..] == Repeat(IntervalTick, n - 1);
      RunningTicks(Tick(b), n - 1);
    }
  }

  /** From any running state before 90:00, the ticks that remain take the
      clock to 90:00, stop it and show full time; the scores are untouched
      and no further tick is delivered. */
  lemma ReachFullTime(b: Board)
    requires b.isRunning && 0 <= b.time < FullTimeSeconds
    ensures var r := Run(b, Repeat(IntervalTick, FullTimeSeconds - b.time));
      r == b.(time := FullTimeSeconds, isRunning := false, matchStatus := FullTime)
      && !TickArmed(r) && Tick(r) == r
  {
    var n := FullTimeSeconds - b.time - 1;
    assert Repeat(IntervalTick, n + 1) == Repeat(IntervalTick, n) + [IntervalTick];
    RunAppend(b, Repeat(IntervalTick, n), [IntervalTick]);
    RunningTicks(b, n);
  }

  /** A whole match: Start, then 5400 ticks, ends at full time with the clock
      stopped at 90:00, the score still 0 - 0. */
  lemma FullMatch()
    ensures Run(Initial(), [StartTimer] + Repeat(IntervalTick, FullTimeSeconds))
      == Board(FullTimeSeconds, false, FullTime, 0, 0)
  {
    RunAppend(Initial(), [StartTimer], Repeat(IntervalTick, FullTimeSeconds));
    ReachFullTime(Start(Initial()));
  }

  /** Start after full time marks the match in progress and the clock as
      running again, but the clock stays at 90:00: the tick is not armed. */
  lemma {:induction false} StartAfterFullTime(b: Board, n: nat)
    requires Inv(b) && b.matchStatus == FullTime
    ensures var r := Start(b);
      r.matchStatus == InProgress && r.isRunning && r.time == FullTimeSeconds
      && Run(r, Repeat(IntervalTick, n)) == r
  {
    DisarmedTicks(Start(b), n);
  }

  /** Start, ninety ticks, pause, start again, thirty ticks: two minutes
      on the clock, the match in progress and the clock running. */
  lemma PauseAndResume()
    ensures var b := Run(Initial(),
      [StartTimer] + Repeat(IntervalTick, 90) + [PauseTimer, StartTimer] + Repeat(IntervalTick, 30));
      b.time == 120 && b.matchStatus == InProgress && b.isRunning
  {
    var s0 := Start(Initial());
    RunningTicks(s0, 90);
    var s1 := Start(Pause(s0.(time := 90)));
    RunningTicks(s1, 30);
    var xs := [StartTimer] + Repeat(IntervalTick, 90);
    RunAppend(Initial(), [StartTimer], Repeat(IntervalTick, 90));
    RunAppend(Initial(), xs, [PauseTimer, StartTimer]);
    assert Run(s0.(time := 90), [PauseTimer, StartTimer]) == s1;
    RunAppend(Initial(), xs + [PauseTimer, StartTimer], Repeat(IntervalTick, 30));
  }

  /** Once the clock is stopped, neither the elapsed time nor the status
      changes until Start or Reset is issued. */
  lemma {:induction false} StoppedClockHolds(b: Board, cs: seq<Command>)
    requires !b.isRunning
    requires StartTimer !in cs && ResetTimer !in cs
    ensures var r := Run(b, cs);
      !r.isRunning && r.time == b.time && r.matchStatus == b.matchStatus
    decreases |cs|
  {
    if cs != [] {
      assert cs[0] in cs;
      assert forall c :: c in cs[1..] ==> c in cs;
      StoppedClockHolds(Step(b, cs[0]), cs[1..]);
    }
  }

  /** n increments add exactly n to the selected team's score and leave the
      other score and the clock as they were. */
  lemma {:induction false} RepeatedIncrement(b: Board, team: string, n: nat)
    ensures var r := Run(b, Repeat(IncrementScore(team), n));
      && r.time == b.time && r.isRunning == b.isRunning && r.matchStatus == b.matchStatus
      && if team == "team1"
         then r.scoreTeam1 == b.scoreTeam1 + n && r.scoreTeam2 == b.scoreTeam2
         else r.scoreTeam2 == b.scoreTeam2 + n && r.scoreTeam1 == b.scoreTeam1
    decreases n
  {
    if n > 0 {
      assert Repeat(IncrementScore(team), n)[1..] == Repeat(IncrementScore(team), n - 1);
      RepeatedIncrement(Increment(b, team), team, n - 1);
    }
  }

  /** n decrements of a non-negative score leave max(0, score - n): the
      score never goes below zero however often it is decremented. */
  lemma {:induction false} RepeatedDecrement(b: Board, team: string, n: nat)
    requires b.scoreTeam1 >= 0 && b.scoreTeam2 >= 0
    ensures var r := Run(b, Repeat(DecrementScore(team), n));
      if team == "team1"
      then r.scoreTeam1 == Max(0, b.scoreTeam1 - n) && r.scoreTeam2 == b.scoreTeam2
      else r.scoreTeam2 == Max(0, b.scoreTeam2 - n) && r.scoreTeam1 == b.scoreTeam1
    decreases n
  {
    if n > 0 {
      assert Repeat(DecrementScore(team), n)[1..] == Repeat(DecrementScore(team), n - 1);
      RepeatedDecrement(Decrement(b, team), team, n - 1);
    }
  }

  /** From the initial state, k goals for a team followed by n >= k
      decrements leave that team at zero, not below (for instance three
      increments and five decrements). */
  lemma ScoreClamps(team: string, k: nat, n: nat)
    requires k <= n
    ensures var r := Run(Initial(), Repeat(IncrementScore(team), k) + Repeat(DecrementScore(team), n));
      r.scoreTeam1 == 0 && r.scoreTeam2 == 0
  {
    var incs, decs := Repeat(IncrementScore(team), k), Repeat(DecrementScore(team), n);
    RunAppend(Initial(), incs, decs);
    RepeatedIncrement(Initial(), team, k);
    RepeatedDecrement(Run(Initial(), incs), team, n);
  }
}
