# TaskTile Pomodoro engine, in Dafny

This project models the core of the TaskTile mobile app. It covers five components.

- **The Pomodoro timer block** (`components/pomodoro/pomodoroBlockContent.tsx`). This is a countdown that recomputes the seconds left from an absolute end time. It cycles Pomodoro → short or long break → Pomodoro, and the long break comes after every fourth focus cycle.
- **The configuration store** (`context/PomodoroContext.tsx`). It holds the three durations in minutes and the completed-cycle count.
- **The settings screen** (`components/settings/PomodoroSettings.tsx`). Its save is all-or-nothing.
- **The block settings sheet** (`components/BlockSettingsSheet.tsx`). It converts between "MM:SS" strings and minutes, applies the load defaults, and handles the cycles counter and the size options.
- **The task checklist** (`components/task/TaskBlockContent.tsx`).

Time is integer milliseconds. The current time `now` is a parameter of every operation that reads the clock.

Modules:

- `Basics`: the `Option` type, which stands for `undefined`/`null`.
- `Numerals`: integer `toString`, `padStart` with `'0'`, and `Number()` on digit strings.
- `PomodoroContext`: `Durations` and the store class `PomodoroStore`.
- `PomodoroBlockContent`: the pure helpers, and the timer state `Timer` with one pure transition function per handler. It also has the lemmas about those functions, and the class `Engine`, whose fields are updated in place. Each `Engine` method is proved equal to its transition function.
- `PomodoroSettings`: the validation and the class `SettingsScreen`.
- `BlockSettingsSheet`: the pure load and save, and the class `Sheet`.
- `TaskBlockContent`: `ToggleTask` and its lemmas.

How the engine behaves, as modelled:

- **Reloads.** `timeLeft` is reloaded only by `resetTimer`, and only through the effect keyed on `totalSecondsForMode`. The model keeps the total that effect last ran with in the field `effectTotal`, and `OnTotalChanged` / `TotalChecked` model the effect. A mode switch therefore reloads `timeLeft` only when the new mode's total differs from the old one. When two modes have equal totals, the switched-to mode keeps the old `timeLeft`, and that is 0 after a completion (`CompletionWithEqualTotalsKeepsZero`).
- **Sessions.** `Step` and `Run` model a session: each event (Start/Stop, tick, Skip, a new configuration) is followed by the render and the effect it causes.
- **When the tick runs.** The interval is scheduled only while `isRunning && endTime` holds in JavaScript. An `endTime` of exactly 0 is falsy, so a timer whose end falls at the epoch never ticks (`Armed`).
- **Switch then reset.** The tick sets `timeLeft` to 0 and then switches mode. The store's cycle count is written by the switch itself, through `setCyclesCompleted`.

Behaviour of the code worth knowing:

- **Stop.** Stop does not recompute the seconds left. It keeps the value of the last tick.
- **Start/Stop.** There is no separate idempotent stop. `handleStartStop` toggles, so pressing it while stopped starts the timer.
- **Mode switch.** The switch leaves `timeLeft` as it was; only the reset effect reloads it (see above).
- **Long-break threshold.** It is the literal 4. The sheet's `cycles` and `hasLongBreak` settings are not read by the engine.
- **Validation.** The store does no validation. Positivity is checked only by the settings screen's save.

## Model

| member | source | states |
|---|---|---|
| `PomodoroBlockContent.TotalSecondsForMode` | components/pomodoro/pomodoroBlockContent.tsx:49-53 | Pomodoro gives `pomodoroTime*60`, short break gives `shortBreakTime*60`, anything else gives `longBreakTime*60`; always a whole number of minutes |
| `PomodoroBlockContent.CeilDiv` | components/pomodoro/pomodoroBlockContent.tsx:123 | the result is the ceiling of `a/b`: `(q-1)*b < a <= q*b`, for negative `a` too |
| `PomodoroBlockContent.Remaining` | components/pomodoro/pomodoroBlockContent.tsx:122-123 | whole seconds to the end time, rounded up; positive exactly when `now` is before the end |
| `PomodoroBlockContent.JsRem60` | components/pomodoro/pomodoroBlockContent.tsx:57 | JavaScript's `% 60`: a multiple of 60 away from the input, in 0..59 for non-negative and -59..0 for negative inputs |
| `PomodoroBlockContent.FormatTime` | components/pomodoro/pomodoroBlockContent.tsx:55-59 | for a non-negative input the text ends in ':' and two more characters and is at least five long; below 100 minutes it is exactly five characters with the colon in the middle |
| `PomodoroBlockContent.FormatTimeFields` | components/pomodoro/pomodoroBlockContent.tsx:55-59 | for `s >= 0`, `formatTime(s)` is `mm + ":" + ss`: at least two minute digits, exactly two below 100 minutes and no leading zero beyond two, exactly two second digits reading below 60, and `mm*60 + ss == s` |
| `PomodoroBlockContent.PaddedNumeral` | components/pomodoro/pomodoroBlockContent.tsx:58 | `toString().padStart(2,'0')` keeps the value, gives at least two digits, and exactly two below 100 |
| `PomodoroBlockContent.FormatTimeSingleDigits` | components/pomodoro/pomodoroBlockContent.tsx:55-59 | single-digit minutes `m` and seconds `s` format as `0m:0s` |
| `PomodoroBlockContent.FormatTimeExamples` | components/pomodoro/pomodoroBlockContent.tsx:55-59 | `formatTime(65) == "01:05"` and `formatTime(0) == "00:00"` |
| `PomodoroBlockContent.ProgressFill` | components/pomodoro/pomodoroBlockContent.tsx:208 | the fill is 0 when the total is not positive; otherwise `fill * total == timeLeft * 100`, so it lies in 0..100 when `0 <= timeLeft <= total` and is 100 for a full segment |
| `PomodoroBlockContent.Initial` | components/pomodoro/pomodoroBlockContent.tsx:31-36 | the initial state is Pomodoro, stopped, `endTime` null and `timeLeft = pomodoroTime*60`; the reset effect is already caught up |
| `PomodoroBlockContent.NextMode` | components/pomodoro/pomodoroBlockContent.tsx:94-100 | from Pomodoro: long break iff `(cycles+1) % 4 == 0`, else short break; from either break: Pomodoro |
| `PomodoroBlockContent.ModeSwitched` | components/pomodoro/pomodoroBlockContent.tsx:93-103 | leaving Pomodoro adds exactly 1 to the cycle count, and the new mode is a long break iff the new count % 4 == 0; leaving a break returns to Pomodoro with the count unchanged; the timer is always stopped with `endTime` null, and `timeLeft` is untouched |
| `PomodoroBlockContent.StartStopped` | components/pomodoro/pomodoroBlockContent.tsx:136-143 | start sets `endTime = now + timeLeft*1000` and running, and a tick at `now` would read back `timeLeft`; stop clears `endTime` and running and keeps `timeLeft`; `endTime` is set iff running |
| `PomodoroBlockContent.Armed` | components/pomodoro/pomodoroBlockContent.tsx:120 | the interval exists only with an end time set; when `endTime` is set exactly while running, it exists exactly while running with a non-zero end time; an end time of 0 never schedules it |
| `PomodoroBlockContent.Ticked` | components/pomodoro/pomodoroBlockContent.tsx:118-131 | unarmed: no change; before the end: `timeLeft` becomes the rounded-up seconds left and the timer keeps running; at or after the end: `timeLeft` becomes 0 and the mode switch runs |
| `PomodoroBlockContent.Reset` | components/pomodoro/pomodoroBlockContent.tsx:68-75 | `timeLeft` becomes the current mode's total; the timer stops with `endTime` null; mode and cycles are unchanged |
| `PomodoroBlockContent.TotalChecked` | components/pomodoro/pomodoroBlockContent.tsx:64-66 | when the current mode's total differs from the last one the effect saw, the timer is reset to the new total; otherwise nothing changes; afterwards the effect is caught up |
| `PomodoroBlockContent.TickTwice` | components/pomodoro/pomodoroBlockContent.tsx:121-131 | a tick at t1 that leaves the timer running, followed by a tick at t2, gives the same state as one tick at t2 |
| `PomodoroBlockContent.TicksWhenIdle` | components/pomodoro/pomodoroBlockContent.tsx:118-120 | without a scheduled interval, any number of ticks change nothing |
| `PomodoroBlockContent.TicksCollapse` | components/pomodoro/pomodoroBlockContent.tsx:121-131 | drift freedom: any sequence of ticks equals one tick at the first time the deadline had passed, or at the last tick if it never had |
| `PomodoroBlockContent.TicksBeforeDeadline` | components/pomodoro/pomodoroBlockContent.tsx:121-131 | when all ticks but the last come before the deadline, the result is that of the last tick alone |
| `PomodoroBlockContent.CountsDownBeforeDeadline` | components/pomodoro/pomodoroBlockContent.tsx:121-143 | after a start, a tick before the deadline keeps the timer running in the same mode, with `0 < timeLeft <=` the starting value |
| `PomodoroBlockContent.CompletesAtDeadline` | components/pomodoro/pomodoroBlockContent.tsx:121-143 | after a start, the first tick at or after the deadline shows 0, switches mode exactly once and stops the timer; later ticks do nothing |
| `PomodoroBlockContent.IrregularTicksReachZero` | components/pomodoro/pomodoroBlockContent.tsx:121-143 | 1500 s started at `s`, with ticks at `s+50`, `s+2050` and `s+1500000`, ends on 0 with one switch to a break and one more cycle |
| `PomodoroBlockContent.CompletionLoadsNextTotal` | components/pomodoro/pomodoroBlockContent.tsx:64-75 | after a completion, when the next mode's total differs, the effect loads the next mode's full total, stopped |
| `PomodoroBlockContent.CompletionWithEqualTotalsKeepsZero` | components/pomodoro/pomodoroBlockContent.tsx:64-75 | after a completion, when the next mode's total is equal, the new mode keeps `timeLeft == 0` |
| `PomodoroBlockContent.SkipWithEqualTotalsKeepsTimeLeft` | components/pomodoro/pomodoroBlockContent.tsx:145 | a skip between modes of equal total keeps whatever `timeLeft` was showing |
| `PomodoroBlockContent.ConfigureReloadsCurrentMode` | components/pomodoro/pomodoroBlockContent.tsx:64-75 | changing the current mode's duration reloads `timeLeft` with the new total and stops the timer |
| `PomodoroBlockContent.Step` | components/pomodoro/pomodoroBlockContent.tsx:64-145 | after any event and the render it causes, the reset effect has caught up with the current mode's total; only a configuration event changes the durations; a Skip leaves the timer stopped |
| `PomodoroBlockContent.Run` | components/pomodoro/pomodoroBlockContent.tsx:64-145 | an empty session changes nothing; after a non-empty one the reset effect has caught up; without configuration events the durations are unchanged |
| `PomodoroBlockContent.StepKeepsConsistent` | components/pomodoro/pomodoroBlockContent.tsx:64-145 | each event keeps the invariant (`endTime` set iff running, effect caught up, `timeLeft >= 0`) and never lowers the cycle count |
| `PomodoroBlockContent.RunKeepsConsistent` | components/pomodoro/pomodoroBlockContent.tsx:64-145 | over any session of events, the invariant holds at the end and the cycle count has not decreased |
| `PomodoroBlockContent.SwitchesAlternate` | components/pomodoro/pomodoroBlockContent.tsx:93-103 | after `2n` switches from Pomodoro, the mode is Pomodoro again with exactly `n` more cycles |
| `PomodoroBlockContent.SwitchesSplit` | components/pomodoro/pomodoroBlockContent.tsx:93-103 | `m + n` switches in a row are `m` switches followed by `n` |
| `PomodoroBlockContent.LongBreakCadence` | components/pomodoro/pomodoroBlockContent.tsx:95-97 | from 0 cycles, the k-th break is long exactly when k is a multiple of 4 |
| `PomodoroBlockContent.CycleRuleExamples` | components/pomodoro/pomodoroBlockContent.tsx:95-97 | from 3 cycles a finished Pomodoro gives count 4 and a long break; from 0 cycles it gives a short break |
| `PomodoroBlockContent.Engine.constructor` | components/pomodoro/pomodoroBlockContent.tsx:31-36 | the component's fields start in the `Initial` state |
| `PomodoroBlockContent.Engine.ResetTimer` | components/pomodoro/pomodoroBlockContent.tsx:68-75 | updates the fields as `Reset` |
| `PomodoroBlockContent.Engine.OnTotalChanged` | components/pomodoro/pomodoroBlockContent.tsx:64-66 | updates the fields as `TotalChecked` |
| `PomodoroBlockContent.Engine.HandleModeSwitch` | components/pomodoro/pomodoroBlockContent.tsx:93-103 | updates the fields and the store's cycle count as `ModeSwitched`; the store's durations are unchanged |
| `PomodoroBlockContent.Engine.HandleSkip` | components/pomodoro/pomodoroBlockContent.tsx:145 | is exactly the mode switch |
| `PomodoroBlockContent.Engine.HandleStartStop` | components/pomodoro/pomodoroBlockContent.tsx:136-143 | updates the fields as `StartStopped` |
| `PomodoroBlockContent.Engine.Tick` | components/pomodoro/pomodoroBlockContent.tsx:118-131 | updates the fields as `Ticked`; the store's durations are unchanged |
| `PomodoroBlockContent.Engine.Display` | components/pomodoro/pomodoroBlockContent.tsx:216-222 | the shown text is five characters with the colon in the middle below 100 minutes, and longer with the colon third from the end from 100 minutes on |
| `Numerals.NatToString` | components/pomodoro/pomodoroBlockContent.tsx:58 | `toString` of a non-negative integer: a non-empty digit string with that value and no leading zero |
| `Numerals.IntToString` | components/settings/PomodoroSettings.tsx:9-11 | `String(n)` for a safe integer: the numeral of `n`, with a minus sign in front for negative `n` (see "Number range" below) |
| `Numerals.PadStart` | components/pomodoro/pomodoroBlockContent.tsx:58 | `padStart`: the length is the larger of the two, the original is a suffix, and the front is filled |
| `Numerals.LeadingZeros` | components/pomodoro/pomodoroBlockContent.tsx:58 | zeros put in front of a numeral do not change its value |
| `Numerals.ParseNumber` | components/settings/PomodoroSettings.tsx:14-16 | `Number(s)` is a number exactly for a digit string (`""` reads as 0) or a minus sign followed by at least one digit; a digit string gives its exact value and `-` followed by digits the negated value, which is JavaScript's result within the safe-integer range (see "Number range" below); the model reads every other string, such as "2a" or "1-2", as NaN (see "Number formats" below) |
| `Numerals.ParseNumberOfString` | components/settings/PomodoroSettings.tsx:9-16 | `Number(String(n)) == n` for every integer |
| `PomodoroContext.DefaultDurations` | context/PomodoroContext.tsx:22-24 | the defaults are 25, 5 and 15 minutes |
| `PomodoroContext.PomodoroStore.constructor` | context/PomodoroContext.tsx:21-25 | the store starts at 25, 5 and 15 minutes, with 0 cycles |
| `PomodoroContext.PomodoroStore.SetPomodoroTime` | context/PomodoroContext.tsx:22 | accepts any number; replaces only `pomodoroTime` |
| `PomodoroContext.PomodoroStore.SetShortBreakTime` | context/PomodoroContext.tsx:23 | accepts any number; replaces only `shortBreakTime` |
| `PomodoroContext.PomodoroStore.SetLongBreakTime` | context/PomodoroContext.tsx:24 | accepts any number; replaces only `longBreakTime` |
| `PomodoroContext.PomodoroStore.SetCyclesCompleted` | context/PomodoroContext.tsx:25 | the only setter that changes `cyclesCompleted`; the durations are unchanged |
| `PomodoroSettings.PositiveNumber` | components/settings/PomodoroSettings.tsx:18-20 | gives a value iff the input parses to a number greater than 0, and then gives that number |
| `PomodoroSettings.ValidatedDurations` | components/settings/PomodoroSettings.tsx:14-23 | gives durations iff all three inputs parse to numbers greater than 0; each duration equals its parsed input |
| `PomodoroSettings.SaveSeededBuffers` | components/settings/PomodoroSettings.tsx:9-23 | saving the buffers as seeded from positive store values validates to exactly those values |
| `PomodoroSettings.SaveSeededBuffersRejectsNonPositive` | components/settings/PomodoroSettings.tsx:9-20 | saving the buffers as seeded is rejected when some stored value is not positive |
| `PomodoroSettings.EmptyInputRejected` | components/settings/PomodoroSettings.tsx:14-20 | an empty Pomodoro buffer reads as 0 and blocks the save |
| `PomodoroSettings.SettingsScreen.constructor` | components/settings/PomodoroSettings.tsx:9-11 | the buffers start as `String` of the store's three durations |
| `PomodoroSettings.SettingsScreen.HandleSave` | components/settings/PomodoroSettings.tsx:13-29 | commits iff all three validate, and then each stored duration equals its parsed input; on a reject none of the three changes; the cycle count never changes |
| `BlockSettingsSheet.InitialForm` | components/BlockSettingsSheet.tsx:43-52 | the form starts at 1×1, "25", "5" and "15", long break on, 4 cycles |
| `BlockSettingsSheet.GetMinutes` | components/BlockSettingsSheet.tsx:55-58 | the result is the prefix before the first ':' (the whole input when it has none, `''` for `''`), and contains no ':' |
| `BlockSettingsSheet.GetMinutesOfSaved` | components/BlockSettingsSheet.tsx:55-58 | `getMinutes(m + ":00") == m` for every `m` without ':', which is what saving writes at lines 86-88 |
| `BlockSettingsSheet.OrString` | components/BlockSettingsSheet.tsx:68-70 | JavaScript's or-default on a string: the fallback exactly when the string is missing or empty |
| `BlockSettingsSheet.OrNumber` | components/BlockSettingsSheet.tsx:62-63 | JavaScript's or-default on a number: the fallback exactly when the number is missing or 0 |
| `BlockSettingsSheet.SettingsOrEmpty` | components/BlockSettingsSheet.tsx:65 | the block's settings when it has them, otherwise a record with every field missing |
| `BlockSettingsSheet.LoadedForm` | components/BlockSettingsSheet.tsx:60-75 | width/height are the block's value when present and non-zero, else 1; with the settings or an empty record in their place, each time is `getMinutes` of the stored string when present and non-empty, else '25', '05', '15'; `hasLongBreak` is the stored value when present, else true; `cycles` is the stored value when present and non-zero, else 4; no loaded minute string contains ':' |
| `BlockSettingsSheet.SavedBlock` | components/BlockSettingsSheet.tsx:77-92 | nothing without a block; otherwise every other field is kept and only width, height and settings are written, with ":00" after each minute string |
| `BlockSettingsSheet.SaveThenLoad` | components/BlockSettingsSheet.tsx:60-92 | loading a block the sheet just saved gives back the same form (nonzero size and cycles, minutes without ':') |
| `BlockSettingsSheet.LoadedIsReloadable` | components/BlockSettingsSheet.tsx:60-75 | every loaded form satisfies that save-then-load condition |
| `BlockSettingsSheet.Decremented` | components/BlockSettingsSheet.tsx:115 | `max(min, value-1)`: never below `min`, and either `min` or one less |
| `BlockSettingsSheet.Incremented` | components/BlockSettingsSheet.tsx:119 | exactly one more |
| `BlockSettingsSheet.LayoutOptions` | components/BlockSettingsSheet.tsx:221-224 | four options, pairwise different, each width and height 1 or 2: hence exactly 1×1, 2×1, 1×2 and 2×2 |
| `BlockSettingsSheet.IsSelected` | components/BlockSettingsSheet.tsx:126 | an option is selected iff the form's width and height both equal its target |
| `BlockSettingsSheet.ChoosingSelectsExactlyOne` | components/BlockSettingsSheet.tsx:125-143 | after choosing one of the four size options, that option is highlighted and no other is |
| `BlockSettingsSheet.Sheet.constructor` | components/BlockSettingsSheet.tsx:43-52 | the fields start as `InitialForm` |
| `BlockSettingsSheet.Sheet.Load` | components/BlockSettingsSheet.tsx:60-75 | when visible with a block, the fields become `LoadedForm` of it; otherwise they are unchanged |
| `BlockSettingsSheet.Sheet.Save` | components/BlockSettingsSheet.tsx:77-94 | hands on `SavedBlock` of the current fields |
| `BlockSettingsSheet.Sheet.DecrementCycles` | components/BlockSettingsSheet.tsx:113-115 | `cycles` becomes `max(1, cycles-1)`; the other fields are unchanged |
| `BlockSettingsSheet.Sheet.IncrementCycles` | components/BlockSettingsSheet.tsx:119 | `cycles` goes up by one; the other fields are unchanged |
| `BlockSettingsSheet.Sheet.ChooseLayout` | components/BlockSettingsSheet.tsx:140-143 | sets width and height to the option's target pair, which is then selected |
| `TaskBlockContent.InitialTasks` | components/task/TaskBlockContent.tsx:6-10 | three tasks with ids '1', '2', '3'; only '3' is completed |
| `TaskBlockContent.ToggleTask` | components/task/TaskBlockContent.tsx:12-16 | same length; every task keeps its id and text; `completed` is negated exactly on the tasks whose id matches |
| `TaskBlockContent.ToggleKeepsIds` | components/task/TaskBlockContent.tsx:13-15 | the order of ids is preserved |
| `TaskBlockContent.ToggleKeepsOthers` | components/task/TaskBlockContent.tsx:14 | tasks with another id are unchanged |
| `TaskBlockContent.ToggleMissingId` | components/task/TaskBlockContent.tsx:13-15 | an id that no task has leaves the list unchanged |
| `TaskBlockContent.ToggleTwice` | components/task/TaskBlockContent.tsx:13-15 | toggling the same id twice gives back the original list |
| `TaskBlockContent.ToggleInitialFirst` | components/task/TaskBlockContent.tsx:6-15 | toggling '1' on the initial list completes task 1 and leaves the others unchanged |

## Left out

- **Audio.** Loading the bell with `expo-av` and `replayAsync` on completion (pomodoroBlockContent.tsx:105-115, 126) is foreign asynchronous I/O. The completion itself is modelled; the sound request is not.
- **Interval scheduling.** `setInterval`, `clearInterval` and `Date.now()` (pomodoroBlockContent.tsx:118-134, 138) are not modelled. A tick is the method `Engine.Tick(now)`, and whether an interval would exist is `Armed`.
- **Layout and animation.** `onLayoutContainer` (pomodoroBlockContent.tsx:77-91) is floating-point pixel arithmetic. `reAnimate` and the rest of the ring's rendering are left out; only the fill value is modelled, as `ProgressFill`.
- **UI.** Modals, styles, JSX and the long-press handler in every file are left out. So is `onChangeText`, which is a plain assignment to a buffer or a form field.
- **The Skip button.** It is rendered only outside Pomodoro mode (pomodoroBlockContent.tsx:228). `HandleSkip` itself has no such guard and is modelled without one.
- **Alerts and navigation.** `Alert.alert` and `router.back()` in the settings save are UI. The method's `saved` result says which alert is shown. The sheet's `onSave` and `onClose` callbacks are UI too; `Save` returns the record passed to `onSave`.
- **Number formats.** Numbers are integers. JavaScript `Number()` on decimals, exponents, whitespace, `+`, hex and `Infinity` is left out: `ParseNumber` admits `""`, digit strings and a minus sign followed by digits, and treats everything else as NaN. Fractional durations, such as `Number("2.5")`, are therefore outside the model.
- FormatTimeFields: states the "MM:SS" shape for non-negative inputs only. `FormatTime` itself also follows JavaScript on negative inputs (floored minutes, a remainder that keeps the sign, a minus sign from `toString`), but that output is not characterised. A negative `timeLeft` arises only from a negative stored duration.
- **Number range.** The model's `int` is exact and unbounded, while JavaScript numbers are doubles. Above 2^53 JavaScript rounds: `Number("9007199254740993")` is 9007199254740992, and `now + timeLeft * 1000` loses precision too. A digit string long enough (about 309 digits) reads as `Infinity`, which the settings save accepts because `Infinity > 0`; the model stores the exact value instead. From 1e21 on, `toString` switches to exponent notation (`"1e+21"`), which `IntToString` does not produce. The model assumes durations, cycle counts and times stay within the safe-integer range, where its results agree with JavaScript.
- **Number types.** `String(n)`, `toString` and `formatTime` are modelled for integers only. `NaN` is left out, including as a falsy width, height or cycle count.
- **Untyped fields.** The block record's `[key: string]: any` fields are modelled as a map from strings to strings. The record's `type` field is named `kind`.
- **The text limit.** The `maxLength={3}` limit on the sheet's time inputs is left out.
- **React plumbing.** The `{}`-cast default context value, the settings screen's import from another `_layout` path, and the provider wiring in `app/_layout.tsx` are left out. So are `components/pomodoro/PomodoroBlock.tsx` (a wrapper view) and `types.ts` (a type declaration).
- **Render timing.** React batching is modelled as one `Step` per event: the handler's state updates land together, then the reset effect runs. Interleavings within a render are not modelled. The effect's mount-time run is left out because it reloads the value the state already starts with.
