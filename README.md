# Habitus client core, modelled in Dafny

Habitus is a small React client for a habit tracker and a focus (Pomodoro-style)
timer. Nearly all of it is views and HTTP calls. This project models the two screens
that carry logic:

- **Focus time** (`src/screens/focus-time/index.tsx`). The state machine formed by
  the configured minutes, the `PAUSED` / `FOCUS` / `REST` state, the start of the open
  focus period and the two countdowns. Its handlers are `handleInput`, `handleFocus`,
  `handleStart`, `handleRest`, `handleEnd`, `handleResume` and `handleCancel`, plus the
  focus countdown's `onExpire`. The model is the class `FocusTimer.FocusTimeScreen`
  (file `focus_timer.dfy`). The screen also has two derived views, in module
  `FocusMetrics` (file `focus_metrics.dfy`): the day's total focused minutes
  (`metricsInfoByDay`) and the month's cycle count with its marked calendar days
  (`metricsInfoByMonth`).
- **Habits** (`src/screens/habits/index.tsx`). The month metrics labels "k/n" and
  "p%" (`metricsInfo`), the habit list updates `handleSubmit` and `deleteHabit`, and
  the today-checkbox and calendar marking predicates. These are in module `Habits`
  (file `habits.dfy`).

Supporting modules:

- `Calendar` is the Gregorian calendar arithmetic of JavaScript `Date`. It covers
  leap years, month lengths, day numbers with carry-over of out-of-range months and
  days, start of day, and the shared "is marked" predicate.
- `DecimalText` is the decimal text of whole numbers, with parsers that read the two
  labels back.
- `Wrappers` holds `Option`.

Modelling choices:

- Instants are whole milliseconds since the epoch.
- Dates are `(year, month, day)` triples.
- A countdown is its expiry instant plus a running flag.
- Each handler that reads the clock takes the current instant `now` as a parameter. The ghost field
  `clock` records the latest instant, and handlers require `now` to be no earlier.
- The call `api.post("/focus-time", …)` is recorded in a ghost trace `effects`. The
  trace also records every restart and pause of the countdowns, in the order the
  handlers issue them, so "the session is posted before the rest countdown starts"
  is a statement about that trace. `Posted(effects)` is the list of posted sessions.
- The focus screen's invariant `Valid()` states the following:
  - Every posted session has a start.
  - Every session starts no later than it ends.
  - Sessions do not overlap.
  - Each session closes a different focus period, in increasing order, so a focus
    period is posted at most once. `handleStart` opens a new period.
  - A running focus countdown outside `PAUSED` always has an open period.
- `addSeconds` is the function `FocusTimer.AddSeconds`. For a whole number of
  minutes given as seconds it moves the instant by exactly `60000 * minutes`
  milliseconds, which is the handlers' expiry `now + 60000 * minutes`.

Two behaviours of the code worth knowing:

- `onExpire` only closes the focus period. It posts the period and clears
  `timeFrom`. It does not switch to `REST` or start the rest countdown: the state stays
  `FOCUS` until the user presses "start rest", and that press posts nothing more.
- `handleResume` does not check the durations again. The inputs stay editable in
  every state, so a focus period can be restarted with a duration of 0 or less.

## Model

| member | source | states |
|---|---|---|
| `Calendar.DaysInMonth` | src/screens/habits/index.tsx:37 | the month length is between 28 and 31; February has 29 days in leap years and 28 otherwise; the 30-day months are April, June, September and November, and the other seven months have 31 days |
| `Calendar.MonthsFillYear` | src/screens/habits/index.tsx:37 | the twelve month lengths add up to the year's 365 or 366 days |
| `Calendar.LastDayOfMonth` | src/screens/habits/index.tsx:37 | day `DaysInMonth(y, m)` is a valid date, and in `Date` arithmetic the day after it is the first of the next month; for December this carries into 1 January of the next year |
| `Calendar.DayNumberOrdered` | src/screens/focus-time/index.tsx:196-198 | day numbers of valid dates follow calendar order |
| `Calendar.DateInstantInjective` | src/screens/focus-time/index.tsx:196-198 | distinct valid `(year, month, day)` triples start at distinct instants |
| `Calendar.DateInstantIsStartOfDay` | src/screens/focus-time/index.tsx:196-198 | `startOf("day")` leaves the instant of a parsed date unchanged |
| `Calendar.StartOfDay` | src/screens/focus-time/index.tsx:197 | the result is a midnight no later than `t`, and `t` falls within that day |
| `Calendar.Marked` | src/screens/focus-time/index.tsx:317-321 | a calendar day is marked if and only if some completed date is the same instant |
| `DecimalText.Decimal` | src/screens/habits/index.tsx:42 | `${n}` is a non-empty run of digits with no leading zero unless `n` is 0 |
| `DecimalText.DecimalRoundTrip` | src/screens/habits/index.tsx:42 | `${n}` is canonical decimal text (no leading zero), and reading it gives back `n` |
| `DecimalText.FractionRoundTrip` | src/screens/habits/index.tsx:42 | the label `"k/n"` splits at its `/` into exactly `k` and `n` |
| `DecimalText.PercentRoundTrip` | src/screens/habits/index.tsx:44 | the label `"p%"` reads back as `p` |
| `FocusMetrics.MinutesBetween` | src/screens/focus-time/index.tsx:178 | `diff(…, "minutes")` is the difference in whole minutes, truncated toward zero for either sign |
| `FocusMetrics.MetricsInfoByDay` | src/screens/focus-time/index.tsx:168-188 | the loop's `totalTimeInMinutes` is the sum of the sessions' whole-minute lengths, and 0 for no sessions |
| `FocusMetrics.TotalMinutesAppend` | src/screens/focus-time/index.tsx:174-182 | the daily total is additive: appending sessions adds exactly their whole-minute lengths |
| `FocusMetrics.TotalMinutesNonNegative` | src/screens/focus-time/index.tsx:177-181 | sessions that end no earlier than they start give a total of at least 0 |
| `FocusMetrics.DayTotalExample` | src/screens/focus-time/index.tsx:168-188 | sessions 10:00-10:25 and 11:00-11:05 total 30 minutes |
| `FocusMetrics.MetricsInfoByMonth` | src/screens/focus-time/index.tsx:190-209 | `completedDates` has one entry per row, in row order, each the start of day of the row's `(_id[0], _id[1], _id[2])`; `counter` is the sum of the rows' counts |
| `FocusMetrics.TotalCyclesAppend` | src/screens/focus-time/index.tsx:195-202 | the month counter is additive over the rows |
| `FocusMetrics.MonthMarking` | src/screens/focus-time/index.tsx:317-321 | with valid rows, a valid date is marked on the focus calendar if and only if some row carries that date |
| `FocusMetrics.MonthExample` | src/screens/focus-time/index.tsx:190-209 | rows 2024-03-01 (2 cycles) and 2024-03-02 (1 cycle) count 3 cycles and mark exactly those two days |
| `FocusTimer.FocusTimeScreen.constructor` | src/screens/focus-time/index.tsx:36-70 | the screen starts `PAUSED` with durations 0, no open period, both countdowns counting toward the mount instant, and nothing posted |
| `FocusTimer.AddSeconds` | src/screens/focus-time/index.tsx:72-76 | `60m` seconds move the instant by exactly `60000 * m` milliseconds, so the handlers' expiry is `now + 60000 * minutes`; the result is later exactly when the seconds are positive, and unchanged exactly when they are 0 |
| `FocusTimer.FocusTimeScreen.StartEnabled` | src/screens/focus-time/index.tsx:273 | the start button is enabled exactly when its `disabled` condition (either duration at most 0) is false, that is when both durations are positive |
| `FocusTimer.FocusTimeScreen.HandleEnd` | src/screens/focus-time/index.tsx:48-57 | pauses the focus countdown, then posts exactly one session `(timeFrom, now)`, then clears `timeFrom`; the invariant is kept |
| `FocusTimer.FocusTimeScreen.OnFocusExpire` | src/screens/focus-time/index.tsx:59-66 | when the focus countdown fires outside `PAUSED`, one session `(timeFrom, now)` is posted (`timeFrom` is then known to be set) and `timeFrom` is cleared; in `PAUSED` nothing is posted; the state is never changed |
| `FocusTimer.FocusTimeScreen.HandleStart` | src/screens/focus-time/index.tsx:72-84 | restarts the focus countdown for `now + 60000 * timers.focus` ms and sets `timeFrom = now`; nothing is posted |
| `FocusTimer.FocusTimeScreen.HandleInput` | src/screens/focus-time/index.tsx:86-98 | stores the entered number as the focus or the rest duration, keeping the other one; nothing else changes |
| `FocusTimer.FocusTimeScreen.HandleFocus` | src/screens/focus-time/index.tsx:100-108 | unless both durations are positive nothing changes; otherwise the state becomes `FOCUS`, `timeFrom = now`, and the focus expiry is `now + 60000 * timers.focus` |
| `FocusTimer.FocusTimeScreen.HandleRest` | src/screens/focus-time/index.tsx:110-122 | posts exactly one session `(timeFrom, now)` if `timeFrom` was set and none otherwise, before restarting the rest countdown for `now + 60000 * timers.rest`; afterwards `timeFrom` is unset, focus is paused, and the state is `REST` |
| `FocusTimer.FocusTimeScreen.HandleResume` | src/screens/focus-time/index.tsx:124-130 | the state is `FOCUS` with a fresh `timeFrom = now`, a restarted focus countdown and a paused rest countdown; nothing is posted |
| `FocusTimer.FocusTimeScreen.HandleCancel` | src/screens/focus-time/index.tsx:132-146 | both durations become 0, the state becomes `PAUSED` and both countdowns are paused; nothing is posted and `timeFrom` is left as it was, so an open period is dropped |
| `Habits.RoundPercent` | src/screens/habits/index.tsx:44 | `p` is the whole number nearest to `100k/n`, with halves rounding up: `(2p-1)n <= 200k < (2p+1)n` |
| `Habits.RoundPercentUnique` | src/screens/habits/index.tsx:44 | no other whole number meets the rounding bound |
| `Habits.RoundPercentMonotone` | src/screens/habits/index.tsx:44 | the percentage never decreases as the count of completed days grows |
| `Habits.RoundPercentEnds` | src/screens/habits/index.tsx:44 | `k = 0` gives 0 and `k = n` gives 100 |
| `Habits.ComputeMetricsInfo` | src/screens/habits/index.tsx:36-50 | `completedDatesPerMonth` reads back as `(k, n)`, where `k` counts the completed dates (0 when the field is absent) and `n` is the length of today's month; `completedMonthPercent` reads back as the rounded percentage |
| `Habits.MetricsInfoExample` | src/screens/habits/index.tsx:36-50 | two completed days in March 2024 give "2/31" and "6%" |
| `Habits.Without` | src/screens/habits/index.tsx:95-97 | a habit survives the filter if and only if it was in the list and its id differs from the deleted one |
| `Habits.WithoutAppend` | src/screens/habits/index.tsx:95-97 | the filter distributes over concatenation, so surviving habits keep their order |
| `Habits.WithoutAbsent` | src/screens/habits/index.tsx:95-97 | deleting an id no habit carries leaves the list unchanged |
| `Habits.DeleteUndoesSubmit` | src/screens/habits/index.tsx:95-99 | deleting the id of a habit just appended, when that id was new, restores the previous list |
| `Habits.CheckedToday` | src/screens/habits/index.tsx:160-162 | the checkbox starts checked if and only if some completed date equals today's start of day |
| `Habits.CalendarMarked` | src/screens/habits/index.tsx:200-202 | a day of the habit calendar is marked if and only if the metrics list a completed date at that instant; never when the list is absent |
| `Habits.HabitsScreen.constructor` | src/screens/habits/index.tsx:28-33 | the screen starts with no habits, empty metrics, no selection and an empty input |
| `Habits.HabitsScreen.HandleSubmit` | src/screens/habits/index.tsx:69-82 | with a non-empty input, exactly the created habit is appended at the end, earlier habits are kept in order, and the input is cleared; with an empty input the list is unchanged |
| `Habits.HabitsScreen.DeleteHabit` | src/screens/habits/index.tsx:92-103 | the list becomes the filter without that id, and the selection and metrics are cleared |

## Left out

- Remote calls are not modelled as calls. `api.post("/focus-time")` is the ghost
  `Post` effect. Fetched habits, sessions and month rows are inputs. The habit that
  `POST /habit` returns is a parameter of `HandleSubmit`. Failed or rejected requests
  are not modelled: every handler behaves as if its awaited call succeeded.
- FocusTimer.FocusTimeScreen.HandleEnd: modelled as one uninterruptible step. In the
  source, `handleEnd` waits for `api.post` before it clears `timeFrom`, and other
  handlers can run during that wait. Two interleavings are not modelled. First, a
  second "start rest" click, or a click while the expiry's post is pending, still sees
  the old `timeFrom` and posts the same period again. Second, "cancel" pressed while
  `handleRest` waits is overridden: the continuation restarts the rest countdown with
  the earlier `timers.rest` and sets `REST`. "A focus period is posted at most once"
  and the `PAUSED` state after `HandleCancel` hold only when handlers do not
  interleave.
- FocusTimer.FocusTimeScreen.OnFocusExpire: runs `HandleEnd` as one step, so a click
  during its pending post is not modelled (see the line above).
- FocusTimer.FocusTimeScreen.HandleRest: its wait for the post and its continuation
  are one step, so a second click or a "cancel" during the wait is not modelled (see
  the `HandleEnd` line above).
- Habits.HabitsScreen.HandleSubmit: modelled as one uninterruptible step. In the
  source, `handleSubmit` waits for `api.post("/habit")`, then clears the field and sets
  the list to `[...habits, createdHabit]`, where `habits` is the list of the render
  that started it. The submit button is not disabled while the post is pending.
  Interleavings are not modelled: a second click during the wait posts the same name
  again, and the second continuation replaces the list, so the first created habit
  drops out of it. A `deleteHabit` that finishes during the wait is undone in the
  same way. "Exactly the created habit is appended and earlier habits are kept"
  holds only when handlers do not interleave.
- Habits.HabitsScreen.DeleteHabit: modelled as one uninterruptible step. In the
  source, `deleteHabit` waits for `api.delete`, then filters the list of the render
  that started it, and the delete buttons stay enabled meanwhile. Interleavings are
  not modelled: with two overlapping deletes the later continuation brings back the
  habit the earlier one removed, and a delete that finishes during a pending submit
  loses the created habit or is itself undone. "Removes every habit with that id"
  holds only when handlers do not interleave.
- `handleSelectHabit`, `handleToggle`, `getHabits`, `handleCurrentMonth`,
  `loadFocusMetrics`, `loadFocusTimes`, `handleSelectMonth`, `handleSelectDay` and the
  `useEffect` refetches are not modelled: they fetch data or store a selection.
  `handleToggle` first sends the toggle request `PATCH /habit/:id/toggle`, which
  changes today's completion on the server; that is a remote call, left out as the
  first line says, and the refetch that follows is an input.
- Out-of-order completion of concurrent refetches is not modelled, because it is
  concurrency rather than logic.
- Countdown ticking and the displayed minutes and seconds are not modelled: they
  belong to react-timer-hook. The rest countdown's expiry is not modelled either:
  it has no callback, so it changes nothing in the screen's state.
- Time zones are not modelled: local midnight is taken as UTC midnight.
- Completed dates are modelled as instants rather than ISO strings. The today
  checkbox compares strings with `===`. That equals the model's instant comparison
  only for the canonical `toISOString` form.
- The month view builds the text `${y}-${m}-${d}` and parses it. This is modelled as
  `new Date(y, m - 1, d)`, the path dayjs takes for a four-digit year. Other text
  forms, which go to the browser's own parser, are not modelled.
- `Number(input.value)` is not modelled: `HandleInput` receives the number as a
  whole number. Fractional minutes are not modelled.
- Clearing the two input fields in `handleCancel` is not modelled: the fields are
  DOM elements.
- `Math.round` on a floating-point quotient is not modelled: it is replaced by the
  exact `(200k + n) / (2n)`. For month lengths 28 to 31, `100k/n` is never exactly
  halfway between two whole numbers, so the two agree.
- FocusTimer.FocusTimeScreen.HandleRest: uses one instant both for the posted
  `timeTo` and for the rest expiry. The source reads the clock again after the post
  completes.
- FocusTimer.FocusTimeScreen.HandleFocus: requires, like every handler that takes
  `now`, that it is no earlier than the previous handler's instant. This is an
  assumption about the wall clock, not a check the source makes.
- Session storage, routing, login and the presentation components are not part of
  this model.
