# Daily activity tracker: a Dafny model of its state machine

The tracker page keeps one state object: today's `steps` and `calories`, a
`dailyGoal` (10000 by default), and a `history` of completed days. Five
handlers change that state. They add a random batch of steps, set the goal,
add the calories of a looked-up exercise, reset the day into the history, and
load or save the whole object in browser storage. Two values are derived from
the state: the goal-progress percentage and the last seven days drawn in the
chart.

The model has four modules:

- `Text` (text.dfy): the two string built-ins used on the exercise name,
  `trim` and `toLowerCase`. It also proves that trimmed, lower-cased input
  does not depend on the case the name was typed in.
- `Activity` (activity.dfy): the record, catalog-entry and state datatypes,
  plus every pure computation. The float expressions become exact integer
  rounding (`RoundDiv`: `Math.round(n / d)` equals `(2n + d) / (2d)` for
  `d > 0`). This module also holds the goal percentage, the seven-day window,
  the first-match exercise lookup and the exercise handler's decision.
- `App` (app.dfy): class `Tracker` holds the four fields, with one method per
  handler. Each method states the whole new state in terms of the old one.
  Each keeps the invariant (non-negative counters, positive goal) and says
  when the state is saved. Class `Storage` is the single storage slot.
- `ResetRace` (reset_race.dfy): the reset handler's `await` splits it in two.
  The scenarios here show what that split lets through (see Findings).

Inputs the page gets from its environment are parameters:

- the random step count (500 to 2000);
- the date label;
- the goal and duration after `parseInt` (`None` for NaN);
- the raw exercise name;
- the fetched exercise catalog.

Points about the code that shape the model:

- There is no startup merge with the remote history: `fetchHistory` is
  imported (app.js:2) but never called.
- `loadState` adopts the stored object as it is, without checking its fields
  (app.js:70-75).
- The progress value is only capped at 100 (app.js:81). Nothing clamps it
  from below or guards a zero goal.
- The reset handler awaits the remote save before it updates local state
  (app.js:180-184).

## Model

| member | source | states |
|---|---|---|
| Text.Trim | app.js:159 | `trim()` returns a slice of the input with only whitespace cut from each side. The result is empty iff the input is all whitespace; otherwise it starts and ends with a non-whitespace character |
| Text.TrimIdempotent | app.js:159 | trimming an already trimmed name changes nothing |
| Text.Lower | app.js:159 | `toLowerCase()` keeps the length, leaves no capital letter, and keeps each character the same letter up to case, so every character is fixed |
| Text.LowerEqualIff | app.js:166 | two names are equal after lower-casing iff they differ only in letter case, in both directions |
| Text.TrimLowerCommute | app.js:159 | trimming then lower-casing equals lower-casing then trimming |
| Text.NormalizeIgnoresCase | app.js:159 | the normalized lookup key depends on the typed name only up to letter case |
| Activity.DefaultState | app.js:22-27 | the initial state (0 steps, 0 calories, goal 10000, empty history) satisfies the invariant |
| Activity.RoundDiv | app.js:139 | `Math.round(num / den)` for `den > 0`: the result lies within half a unit of the quotient, with halves rounded up |
| Activity.RoundDivUnique | app.js:139 | the rounding bracket fixes the result: any integer meeting it equals `RoundDiv` |
| Activity.StepCalories | app.js:139 | `Math.round(n * 0.04)` is the integer nearest to n/25. It is non-negative for n >= 0 and between 20 and 80 for the handler's 500..2000 |
| Activity.GoalPercentage | app.js:81 | the progress value is at most 100 and is exactly 100 once steps reach the goal. It is non-negative for non-negative steps. Below the cap it is the rounded 100*steps/goal, and it is 100 only when 200*steps >= 199*goal, so the value is fixed for every input |
| Activity.GoalPercentageMonotone | app.js:81 | more steps towards the same goal never show a lower percentage |
| Activity.ChartWindow | app.js:92 | `slice(-7)` has min(7, history length) entries: the last ones of the history, in order |
| Activity.ChartWindowAfterAppend | app.js:92 | after one more recorded day the window ends with that day. Its other entries are the old window, without its oldest entry once it held seven |
| Activity.ChartSeries | app.js:92-94 | the chart gets one label and one step count per window day, taken from that day's record |
| Activity.FindExercise | app.js:166 | `find` returns the first catalog position whose lower-cased name equals the key, and None iff no entry matches |
| Activity.FindExerciseIgnoresCatalogCase | app.js:166 | catalogs whose names differ only in case give the same lookup result |
| Activity.ExerciseCalories | app.js:168 | `Math.round(calories / duration * minutes)` lies within half a unit of the rate times the minutes, and is non-negative for non-negative inputs |
| Activity.EvaluateExercise | app.js:159-172 | input is rejected iff the name is all whitespace or the duration is NaN or <= 0. Otherwise NotFound iff no entry matches. A match is the first matching entry, with the minutes given and its rounded, non-negative calorie figure |
| Activity.EvaluateExerciseIgnoresCase | app.js:159-166 | the handler's outcome is the same for names typed in different case |
| Activity.TotalStepsAppend | app.js:182 | pushing a record adds exactly its steps to the recorded total |
| App.Storage.constructor | app.js:71 | the storage slot starts with whatever the browser had stored (or nothing) |
| App.Tracker.constructor | app.js:22-27 | the initial state is the default state and satisfies the invariant |
| App.Tracker.Save | app.js:65-67 | the slot is overwritten with a snapshot of the whole current state. A valid state leaves a valid slot |
| App.Tracker.Load | app.js:70-75 | a stored snapshot replaces the whole state. With nothing stored the state is unchanged. Loading a valid snapshot keeps the invariant |
| App.Tracker.AddSteps | app.js:136-142 | steps grow by exactly n and calories by `StepCalories(n)`. Goal and history are unchanged, the state is saved, the invariant is kept, and the step total goes up by n |
| App.Tracker.SetGoal | app.js:145-155 | a goal is accepted iff it is a number > 0. Then only `dailyGoal` changes, and the state is saved. Otherwise state and storage are untouched, so `dailyGoal > 0` is preserved |
| App.Tracker.RecordExercise | app.js:190-201 | only `calories` changes, growing by the rounded exercise figure. The state is saved |
| App.Tracker.CalculateExercise | app.js:158-173 | the outcome is `EvaluateExercise` of the inputs. Rejected input or an unknown name changes no state and no storage. A match adds its figure to `calories` only, and saves |
| App.Tracker.BeginReset | app.js:177-178 | the pending record holds the given date and the current counters. Nothing changes |
| App.Tracker.CompleteReset | app.js:182-185 | the pending record is appended and every earlier entry kept in order. Both counters become 0, the goal is kept, and the state is saved |
| App.Tracker.Reset | app.js:176-187 | exactly one record is appended: the pre-reset counters with the given date. Earlier history is kept, counters become 0, the goal is kept, the state is saved, and recorded plus current steps are conserved. The returned record is the one sent remotely |
| App.Startup | app.js:206-207 | the page starts from the defaults, replaced by the stored snapshot when there is one. A valid slot gives a valid state |
| ResetRace.AwaitedResetLosesSteps | app.js:176-187 | with steps added while the remote save is awaited, the handler as written records only the earlier steps and zeroes the rest |
| ResetRace.LocalFirstResetKeepsSteps | app.js:176-187 | with the local reset done before the await, the same clicks lose no step |
| ResetRace.AwaitedResetTwiceRecordsDayTwice | app.js:176-187 | two reset clicks during one pending remote save record the same day twice |
| ResetRace.LocalFirstResetTwiceRecordsDayOnce | app.js:176-187 | with the local reset done first, a second click records an empty day and the steps count once |

## Left out

- api.js, the network client: the exercise catalog is a parameter. The remote save's result is ignored by the handler, and its errors are swallowed, so it has no local effect. `Reset` returns the record it would post.
- Reconciliation with the remote history: the code never fetches the history, so there is nothing to model.
- DOM reads and writes and `alert`. Also left out: the theme toggle (app.js:115-117), the live step-input display (app.js:120-125) and the hover alert listing exercise names (app.js:128-133). None of them changes state.
- Chart.js construction and `update()`: only the data handed to the chart is modelled (`ChartSeries`).
- `toLocaleDateString`, `Math.random` and `parseInt`: they are replaced by a date-label parameter, a step count in 500..2000 and `Option<int>` inputs.
- `localStorage` and `JSON`: storage is one slot holding a `State` value. A stored string that fails to parse makes `JSON.parse` throw, and that is not modelled. Neither is a stored object whose fields are not integers.
- `toFixed(1)`: the displayed float calorie figure is left out. Only the rounded figure added to `calories` is modelled.
- Asynchrony in general: each handler runs to completion. The exercise handler also awaits (app.js:165), but it reads no state before the await, and its one update, `state.calories +=` at app.js:198, happens in one step after it, so it is modelled as atomic. The reset handler's `await` is the exception, modelled by `BeginReset`/`CompleteReset` and the `ResetRace` scenarios.
- Activity.GoalPercentage: uses exact rational rounding, which can differ from double arithmetic on a tie. For 29 steps of a 200-step goal the code computes `0.145 * 100 = 14.499999999999998` and shows 14; the model gives 15.
- Activity.GoalPercentage: requires `dailyGoal > 0`. A goal of 0 or below is reachable only through a stored snapshot the page did not write. With a goal of 0 the code shows 100% for positive steps (`Math.min(Infinity, 100)`) and NaN at 0 steps. A negative goal with positive steps shows a negative percentage.
- Activity.ExerciseCalories: the same floating-point caveat applies. For example, calories 29, duration 200 and 100 minutes give 14 in the code and 15 in the model.
- Activity.ValidCatalog: catalog figures are integers, with a positive duration and non-negative calories. A zero duration would add NaN or Infinity to the calories in the code.
- Text.Lower: only ASCII letters are lower-cased. `toLowerCase` also maps other Unicode capitals.
- Numbers are unbounded integers. JavaScript numbers lose integer precision beyond 2^53, which the counters never plausibly reach.

## Findings

| source | as written | input that shows it | evidently intended | confidence | as-written member | corrected member |
|---|---|---|---|---|---|---|
| app.js:176-187 | the record is built, then `await saveActivity`, then the counters are zeroed | add 1000 steps, click reset, add 800 steps before the remote save returns: history gets 1000, counters become 0, 800 steps vanish | steps added after the reset click count towards the new day | medium, not executed | ResetRace.AwaitedResetLosesSteps | App.Tracker.Reset |
| app.js:176-187 | each click builds its record from the counters before any click has zeroed them | add 1000 steps, click reset twice before the first remote save returns: history gets two 1000-step records | one record per day; the second click records an empty day | medium, not executed | ResetRace.AwaitedResetTwiceRecordsDayTwice | App.Tracker.Reset |
