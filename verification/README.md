# Football scorecard match clock, in Dafny

The scorecard widget shows a match clock counting up from 00:00 to 90:00
and the score of two teams. An operator can start, pause and reset the clock
and add or take away goals. Behind the markup sits a small state machine
with five pieces of state:

- `time`: elapsed seconds;
- `isRunning`: whether the clock runs;
- `matchStatus`: Not Started, In Progress or Full Time;
- `scoreTeam1` and `scoreTeam2`.

A one-second interval advances the clock. It is armed only while the clock
runs and is short of 5400 seconds. The tick that reaches 5400 also stops
the clock and sets the status to Full Time.

The project has three modules:

- `MatchClock` (`match_clock.dfy`) models the state as a value `Board`, with
  one function per handler. `Advance` is the interval callback and
  `TickArmed` the condition under which the interval is armed. `Tick`
  combines the two: it delivers the callback only while the interval is
  armed and otherwise changes nothing. A `Command` sequence with `Run`
  describes any interleaving of button presses and ticks. The lemmas state
  what holds for every such sequence.
- `Scorecard` (`scorecard.dfy`) is the component as a class. It has the
  five fields and one method per handler, plus `Tick` and `Clock`. Each
  method's new state is the matching `MatchClock` function of the old
  state, and each method keeps the invariant `MatchClock.Inv`.
- `TimeFormat` (`time_format.dfy`) models `formatTime`: minutes and
  remaining seconds, each zero-padded to two digits. `ParseTime`, which
  reads a five-character "MM:SS" text back, is its partner.

Two facts about the code shape the model:

- `startTimer` (lines 37-40) has no full-time guard. After full time, Start
  sets the status to In Progress and the clock to running. The clock stays
  at 90:00 because the interval is not armed (`MatchClock.StartAfterFullTime`).
  So a running clock at 90:00 is a reachable state, and `MatchClock.Inv`
  allows it.
- No tick is delivered before Start, so `MatchClock.FullMatch` presses Start
  first.

## Model

| member | source | states |
|---|---|---|
| `MatchClock.Start` | src/components/FootballScorecard.jsx:37-40 | the clock runs and the status is In Progress whatever it was before, full time included; time and scores unchanged; keeps `Inv` |
| `MatchClock.Pause` | src/components/FootballScorecard.jsx:42-44 | the clock stops; time, status and scores unchanged (an In Progress match stays In Progress); keeps `Inv` |
| `MatchClock.Reset` | src/components/FootballScorecard.jsx:46-52 | from any state the result is exactly the initial state of lines 8-12, which satisfies `Inv` |
| `MatchClock.Increment` | src/components/FootballScorecard.jsx:60-66 | "team1" adds exactly 1 to team 1's score and any other argument adds 1 to team 2's; the other score and the clock are unchanged; keeps `Inv` |
| `MatchClock.Decrement` | src/components/FootballScorecard.jsx:68-74 | the selected score drops by 1 when positive and is 0 otherwise, so it is never negative; the other score and the clock are unchanged; keeps `Inv` |
| `MatchClock.Advance` | src/components/FootballScorecard.jsx:19-26 | time grows by exactly 1; reaching 5400 stops the clock and sets Full Time in the same step; otherwise running and status are unchanged |
| `MatchClock.Tick` | src/components/FootballScorecard.jsx:17-26 | nothing happens while the clock is stopped or at 5400 or more; when armed, the result is exactly the callback `Advance`, so time grows by 1, scores are unchanged and reaching 5400 sets Full Time; keeps `Inv` |
| `MatchClock.RunKeepsInv` | src/components/FootballScorecard.jsx:17-74 | any sequence of handlers and ticks keeps `Inv` |
| `MatchClock.ReachableInv` | src/components/FootballScorecard.jsx:8-74 | after any sequence of commands from the initial state, 0 <= time <= 5400, both scores are non-negative, Full Time means time 5400 and stopped, and a running clock is In Progress |
| `MatchClock.DisarmedTicks` | src/components/FootballScorecard.jsx:17 | while the interval is not armed, any number of ticks changes nothing |
| `MatchClock.RunningTicks` | src/components/FootballScorecard.jsx:17-26 | a running clock short of 5400 gains exactly n seconds over n ticks and nothing else changes |
| `MatchClock.ReachFullTime` | src/components/FootballScorecard.jsx:17-26 | from a running clock before 5400, the remaining ticks give time 5400, clock stopped, Full Time, scores untouched; a further tick changes nothing |
| `MatchClock.FullMatch` | src/components/FootballScorecard.jsx:8-40 | Start followed by 5400 ticks from the initial state gives 90:00, stopped, Full Time, 0 - 0 |
| `MatchClock.StartAfterFullTime` | src/components/FootballScorecard.jsx:17-40 | Start at full time gives In Progress and running, but time stays 5400 over any number of ticks |
| `MatchClock.PauseAndResume` | src/components/FootballScorecard.jsx:17-44 | start, 90 ticks, pause, start, 30 ticks: time 120, In Progress, running |
| `MatchClock.StoppedClockHolds` | src/components/FootballScorecard.jsx:17-74 | once the clock is stopped, no command other than Start or Reset changes the time or the status, or sets the clock running |
| `MatchClock.RepeatedIncrement` | src/components/FootballScorecard.jsx:60-66 | n increments add exactly n to the selected team and change nothing else |
| `MatchClock.RepeatedDecrement` | src/components/FootballScorecard.jsx:68-74 | n decrements of a non-negative score give max(0, score - n); the other score is unchanged |
| `MatchClock.ScoreClamps` | src/components/FootballScorecard.jsx:60-74 | from the initial state, k goals and then n >= k decrements for a team leave both scores at 0 |
| `TimeFormat.Decimal` | src/components/FootballScorecard.jsx:57 | a number's decimal text is all digits and non-empty; it is one digit exactly when the number is below 10, and two digits from 10 to 99 |
| `TimeFormat.DecimalValue` | src/components/FootballScorecard.jsx:57 | the decimal text denotes the number it was made from |
| `TimeFormat.PadStart2` | src/components/FootballScorecard.jsx:57 | padding gives at least two characters; the original text is the suffix and only '0's are added before it |
| `TimeFormat.PaddedTwoDigits` | src/components/FootballScorecard.jsx:57 | a number below 100, converted and padded, is exactly its tens digit followed by its units digit |
| `TimeFormat.FormatTimeSplit` | src/components/FootballScorecard.jsx:54-58 | for 60 * m + s seconds with s < 60, the clock is m and s, each converted and padded, joined by ':' |
| `TimeFormat.ClockText` | src/components/FootballScorecard.jsx:54-58 | the five-character text for minutes below 100 and seconds below 60 has fields denoting those minutes and seconds, and parses back to 60 * m + s |
| `TimeFormat.FormatTimeShape` | src/components/FootballScorecard.jsx:54-58 | for 0 <= s <= 5400 the text is exactly "MM:SS"; MM denotes s / 60, which is at most 90, and SS denotes s % 60; parsing it gives s back |
| `TimeFormat.FormatTimeExamples` | src/components/FootballScorecard.jsx:54-58 | 0, 65, 5399 and 5400 seconds render as "00:00", "01:05", "89:59" and "90:00" |
| `Scorecard.FootballScorecard.constructor` | src/components/FootballScorecard.jsx:8-12 | the fields start at time 0, not running, Not Started, 0 - 0, which satisfies the invariant |
| `Scorecard.FootballScorecard.StartTimer` | src/components/FootballScorecard.jsx:37-40 | the new state is `Start` of the old one; the invariant is kept |
| `Scorecard.FootballScorecard.PauseTimer` | src/components/FootballScorecard.jsx:42-44 | the new state is `Pause` of the old one; the invariant is kept |
| `Scorecard.FootballScorecard.ResetTimer` | src/components/FootballScorecard.jsx:46-52 | from any state, even one outside the invariant, the new state is the initial state |
| `Scorecard.FootballScorecard.IncrementScore` | src/components/FootballScorecard.jsx:60-66 | the new state is `Increment` of the old one; the invariant is kept |
| `Scorecard.FootballScorecard.DecrementScore` | src/components/FootballScorecard.jsx:68-74 | the new state is `Decrement` of the old one; the invariant is kept |
| `Scorecard.FootballScorecard.Tick` | src/components/FootballScorecard.jsx:17-26 | the callback fires exactly when the interval is armed; the new state is `MatchClock.Tick` of the old one; the invariant is kept |
| `Scorecard.FootballScorecard.Clock` | src/components/FootballScorecard.jsx:85 | the displayed clock is five characters with ':' in the middle, and parsing it gives the current elapsed time back |

## Left out

- The React hook mechanics are not modelled: `useState` batching, the
  effect that re-arms the interval whenever `isRunning` or `time` changes,
  and the `setInterval`/`clearInterval` lifecycle with its cleanup. Real
  time becomes an explicit tick command. Only the effect's arming
  condition and the callback's effect on the state are modelled. The model
  assumes that each callback sees the state left by the previous one, and
  that no callback of a cleared interval runs after the effect's cleanup.
  The interval is cleared only when that cleanup runs after the re-render.
- JSX rendering, CSS classes, badge colours, the team names, venue and
  league label, and the imported UI components and icons are left out.
  They are presentation and foreign code with no behaviour to verify.
- The button visibility rule (Start shown only when the clock is stopped,
  Pause only when it runs) is not a precondition of `Start` or `Pause`. The
  handlers themselves are unconditional, and the model allows any command
  at any time, which covers every order the buttons allow.
- The status is an enumeration rather than the strings 'Not Started',
  'In Progress' and 'Full Time'. Only those three strings are ever assigned.
- `TimeFormat.FormatTime` is modelled for non-negative whole seconds only.
  With negative input, JavaScript's `%` (truncating) would give a minus
  sign. `time` never goes below zero (`MatchClock.ReachableInv`), so that
  input never arises.
- `ParseTime` reads only the five-character form. Past 99 minutes the
  clock text grows longer. The match clock never gets there, because it
  stops at 90:00.
- Scores are unbounded integers. JavaScript numbers lose precision above
  2^53, which no match reaches.
