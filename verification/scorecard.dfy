/** The scorecard component itself: the five state fields it updates in place,
    one method per handler, and the interval tick. Each method leaves the
    state that the corresponding MatchClock function describes and keeps the
    invariant MatchClock.Inv. */
module Scorecard {
  import opened MatchClock
  import TimeFormat

  class FootballScorecard {
    var time: int
    var isRunning: bool
    var matchStatus: Status
    var scoreTeam1: int
    var scoreTeam2: int

    /** The current state as a value. */
    function State(): Board
      reads this
    {
      Board(time, isRunning, matchStatus, scoreTeam1, scoreTeam2)
    }

    ghost predicate Valid()
      reads this
    {
      Inv(State())
    }

    constructor ()
      ensures State() == Initial() && Valid()
    {
      time := 0;
      isRunning := false;
      matchStatus := NotStarted;
      scoreTeam1 := 0;
      scoreTeam2 := 0;
    }

    method StartTimer()
      requires Valid()
      modifies this
      ensures Valid() && State() == Start(old(State()))
    {
      isRunning := true;
      matchStatus := InProgress;
    }

    method PauseTimer()
      requires Valid()
      modifies this
      ensures Valid() && State() == Pause(old(State()))
    {
      isRunning := false;
    }

    method ResetTimer()
      modifies this
      ensures Valid() && State() == Reset(old(State()))
    {
      isRunning := false;
      time := 0;
      matchStatus := NotStarted;
      scoreTeam1 := 0;
      scoreTeam2 := 0;
    }

    method IncrementScore(team: string)
      requires Valid()
      modifies this
      ensures Valid() && State() == Increment(old(State()), team)
    {
      if team == "team1" {
        scoreTeam1 := scoreTeam1 + 1;
      } else {
        scoreTeam2 := scoreTeam2 + 1;
      }
    }

    method DecrementScore(team: string)
      requires Valid()
      modifies this
      ensures Valid() && State() == Decrement(old(State()), team)
    {
      if team == "team1" {
        scoreTeam1 := Max(0, scoreTeam1 - 1);
      } else {
        scoreTeam2 := Max(0, scoreTeam2 - 1);
      }
    }

    /** One second of real time. The interval callback runs only when the
        interval is armed (the clock runs and is short of 90:00); fired says
        whether it did. */
    method Tick() returns (fired: bool)
      requires Valid()
      modifies this
      ensures fired == TickArmed(old(State()))
      ensures Valid() && State() == MatchClock.Tick(old(State()))
    {
      fired := isRunning && time < FullTimeSeconds;
      if fired {
        var newTime := time + 1;
        if newTime == FullTimeSeconds {
          isRunning := false;
          matchStatus := FullTime;
        }
        time := newTime;
      }
    }

    /** The clock as displayed: "MM:SS", five characters, 60 * MM + SS
        being the elapsed seconds. */
    method Clock() returns (s: string)
      requires Valid()
      ensures |s| == 5 && s[2] == ':'
      ensures TimeFormat.ParseTime(s) == TimeFormat.Some(time)
    {
      s := TimeFormat.FormatTime(time);
      TimeFormat.FormatTimeShape(time);
    }
  }
}
