# Pomodoro timer core, modelled in Dafny

This project models the logic of the `App` component of a React Pomodoro timer
(`src/components/App.jsx`) and leaves out the rendering. The logic is:

- the remaining-time formatter `getTimeInMMSS`;
- the session state machine. Its state is `seconds`, `timerState`
  (stopped, running or paused) and `sessionCounter`. Its handlers are stop,
  skip, the once-a-second tick, the start/pause button and the settings change;
- the settings kept in the browser's key-value store. A render fills in all
  four defaults when any key is missing. A settings change multiplies each
  supplied value by 60, or by 2 for the long-break delay, before storing it;
- the views derived from the state: the button label, the skip-disabled flag,
  the document title and the notification text.

Files and modules:

- `wrappers.dfy` (`Wrappers`): an `Option` type.
- `time_format.dfy` (`TimeFormat`): the formatter. `ParseMMSS` is its inverse:
  parsing a formatted time gives back the seconds it came from.
- `timer.dfy` (`Timer`): the session as a value. It has the pure transitions
  `Reset`, `Skipped`, `Ticked` and `Toggled`, the derived views, and lemmas
  about them.
- `store.dfy` (`Store`): the store as a `map<string, nat>`. It has the defaults
  rule `WithDefaults`, the settings write `ApplySettings`, and lemmas about them.
- `app.dfy` (`Pomodoro`): the whole component state `AppState`, one `Event`
  per handler, the transition `Step` and the run `Run` over a list of events.
  It holds lemmas about runs and the class `App`. The class has the fields the
  component changes, and one method per handler. Each handler method is
  proved to produce `Step` of its old state. The constructor is proved to
  produce `Initial` of the stored map, and `FillDefaults` to turn the store
  into `WithDefaults` of the old store.

Behaviour of the code, kept as written:

- Skip compares the counter with the delay before it tests parity
  (App.jsx:134-136). The stored delay is even: the default is 4 and a settings
  change stores twice the entry. So the long break is chosen when a break ends
  (counter 4 with the defaults). It then runs at an odd counter, and the title
  calls it "Work". The skip after it starts another short break
  (`Timer.LongBreakAtOddCounter`, `Pomodoro.DefaultCycle`). The comment at
  App.jsx:126-131 says odd counters are always work sessions. The code does not
  keep that, so the model claims no such invariant.
- With settings work 5, short 2, long 3 and delay 2, the second interval's end
  is at counter 2. This equals the delay, so a long break `(3, running, 3)`
  follows, not a stopped work session (`Pomodoro.ShortDelayScenario`).
- The notification depends only on the parity of the counter before the skip.
  At an even delay it announces work while a long break starts
  (`Timer.NoticeMatchesNextInterval`).
- The work notification's text is "Time to get back work... :)", as the code
  has it (App.jsx:65).

## Model

| member | source | states |
|---|---|---|
| TimeFormat.GetTimeInMMSS | src/components/App.jsx:35-52 | The four-way if-chain equals pad2(minutes) + ":" + pad2(seconds % 60). Here pad2 adds one leading zero to a single digit and leaves longer numbers whole. |
| TimeFormat.NatToString | src/components/App.jsx:42-48 | The decimal text of a number is a non-empty string of digits. It has one digit exactly below 10 and two exactly in 10..99. |
| TimeFormat.GetTimeInMMSSShape | src/components/App.jsx:35-52 | Every formatted time is at least two minute digits, a colon and exactly two second digits. The minute digits denote s / 60, and the second digits denote s % 60, which is below 60. |
| TimeFormat.ParseGetTimeInMMSS | src/components/App.jsx:35-52 | Parsing the formatted time gives back the seconds it came from (round trip). |
| TimeFormat.GetTimeInMMSSInjective | src/components/App.jsx:35-52 | Two different second counts never format the same. |
| TimeFormat.GetTimeInMMSSExamples | src/components/App.jsx:35-52 | 0, 59, 60, 599, 600 and 1500 format as 00:00, 00:59, 01:00, 09:59, 10:00 and 25:00. |
| Timer.ButtonLabel | src/components/App.jsx:184-187 | The label is Start exactly when stopped, Pause exactly when running and Resume exactly when paused. |
| Timer.Title | src/components/App.jsx:113-116 | The title starts with the formatted time. Its suffix is " - Work" exactly when the counter is odd and " - Break" exactly when it is even. |
| Timer.NoticeFor | src/components/App.jsx:60-66 | The break notification is chosen exactly for an odd counter, and the work notification exactly for an even one. |
| Timer.SkipSequencing | src/components/App.jsx:133-143 | Skip always adds one to the counter. If the counter equals the delay, the long break follows and the run state is kept. Otherwise an odd counter gives the short break with the run state kept. An even counter gives the work duration and stops the timer. |
| Timer.SkipIgnoresSeconds | src/components/App.jsx:133-143 | The result of skip does not depend on the seconds left. |
| Timer.SkipEqualsExpiry | src/components/App.jsx:162-164 | A tick at zero seconds gives the same state as skip. |
| Timer.TickCountsDown | src/components/App.jsx:162-164 | A tick with seconds left takes one off and changes nothing else. |
| Timer.ResetDisablesSkip | src/components/App.jsx:196 | The reset state has the skip control disabled. |
| Timer.ToggleMatchesLabel | src/components/App.jsx:184-202 | Start/pause goes to paused exactly when the label reads Pause, and to running otherwise. Toggling twice from running or paused comes back to the same state. |
| Timer.SkipEnablesSkip | src/components/App.jsx:196 | After any skip the skip control is enabled. |
| Timer.LongBreakAtOddCounter | src/components/App.jsx:133-143 | At an even delay, the long break starts at an odd counter and is titled "Work". The next skip starts a short break and keeps the run state. |
| Timer.NoticeMatchesNextInterval | src/components/App.jsx:133-158 | Away from the delay, the notification names the interval that the skip starts. At an even delay it names work while a long break starts. |
| Timer.LongestDuration | src/components/App.jsx:119-143 | The result is at least each of the three durations and equal to one of them. It is the bound on the seconds any handler sets. |
| Timer.Reset | src/components/App.jsx:119-123 | The state stop leaves: the work duration, stopped, counter 1. It has no contract of its own; Pomodoro.StopIdempotent and Timer.ResetDisablesSkip state its behaviour. |
| Timer.Skipped | src/components/App.jsx:133-143 | The handleSkip branch chain. It has no contract of its own; Timer.SkipSequencing, Timer.SkipIgnoresSeconds, Timer.LongBreakAtOddCounter and Pomodoro.StepCounter state its behaviour. |
| Timer.Ticked | src/components/App.jsx:162-164 | The tick callback. It has no contract of its own; Timer.SkipEqualsExpiry, Timer.TickCountsDown and Pomodoro.SkipEqualsCountdown state its behaviour. |
| Timer.ToggledState | src/components/App.jsx:198-202 | The start/pause transition on the run state. It has no contract of its own; Timer.ToggleMatchesLabel states its behaviour. |
| Timer.Toggled | src/components/App.jsx:198-202 | The start/pause transition on the whole session: only the run state changes. Pomodoro.App.OnStart and Pomodoro.StepCounter state its behaviour. |
| Timer.SkipDisabled | src/components/App.jsx:196 | The skip-disabled flag. It has no contract of its own; Timer.ResetDisablesSkip, Timer.SkipEnablesSkip and Pomodoro.StepSkipDisabled state its behaviour. |
| Store.ConfigOf | src/components/App.jsx:94-106 | The four duration constants a render reads from a complete store. It has no contract of its own. Pomodoro.Step, Pomodoro.StopIdempotent and Store.WithDefaults state what the handlers do with them. |
| Store.WithDefaults | src/components/App.jsx:77-87 | The result always holds all four keys. A complete store is unchanged. Otherwise all four keys are set to 1500/300/1200/4, present ones included, and other keys are kept. |
| Store.ApplySettings | src/components/App.jsx:170-177 | The stored keys afterwards are the old keys plus the supplied ones. |
| Store.ApplySettingsAt | src/components/App.jsx:170-177 | A key not supplied keeps its stored value. A supplied key holds its last supplied value times 2 if it is the delay key, and times 60 otherwise. |
| Store.ApplySettingsKeepsKeys | src/components/App.jsx:170-177 | A settings change never loses one of the four keys. |
| Store.StoredDelayStaysEven | src/components/App.jsx:172-173 | A stored delay that is even stays even after any settings change. |
| Store.WithDefaultsIdempotent | src/components/App.jsx:77-87 | Running the defaults rule again on a later render changes nothing. |
| Store.Scaled | src/components/App.jsx:172-176 | The factor applied when storing a setting: 2 for the delay key, 60 otherwise. It has no contract of its own; Store.ApplySettingsAt and Store.StoredDelayStaysEven state its behaviour. |
| Pomodoro.Initial | src/components/App.jsx:77-110 | The first render: the defaults rule on the stored map, then stopped at the stored work duration with counter 1. The result is well formed: all four keys, counter at least 1, seconds within the longest duration. |
| Pomodoro.Step | src/components/App.jsx:119-202 | Every handler keeps the four stored keys, a counter of at least 1, and the seconds left no longer than the longest stored duration. |
| Pomodoro.ReachableWellFormed | src/components/App.jsx:108-202 | Every state reached from the first render by any list of handler calls is well formed, so its seconds never exceed the longest stored duration. |
| Pomodoro.StepCounter | src/components/App.jsx:119-182 | Skip, and a tick at zero, add one to the counter. Stop and settings change set it to 1. Start/pause and a tick with time left leave it alone. Only settings change writes the store. |
| Pomodoro.StopIdempotent | src/components/App.jsx:119-123 | Stop from any state gives the work duration, stopped, with the counter at 1. Stopping twice gives the same state as stopping once. |
| Pomodoro.ChangeSettingsResets | src/components/App.jsx:170-182 | After a settings change the timer is stopped at the newly stored work duration with the counter at 1. Supplied keys hold their last value, scaled. Other keys keep their values. |
| Pomodoro.NoLongBreakPastDelay | src/components/App.jsx:134-143 | Once the counter is past the delay, a run without stop or settings change takes no long break. |
| Pomodoro.LongBreakAtMostOnce | src/components/App.jsx:134-143 | A run without stop or settings change takes the long-break branch at most once. |
| Pomodoro.StepSkipDisabled | src/components/App.jsx:196 | Skip is disabled after every stop and settings change. After any other event it is disabled only if it already was and the event was a tick. |
| Pomodoro.DefaultCycle | src/components/App.jsx:133-143 | With the defaults, start and skips go (300, running, 2), (1500, stopped, 3), (300, running, 4) after a restart, then (1200, running, 5), then (300, running, 6). |
| Pomodoro.SkipEqualsCountdown | src/components/App.jsx:133-165 | Skipping gives the same state as ticking the remaining seconds down to zero and ticking once more. |
| Pomodoro.TicksCountDown | src/components/App.jsx:161-165 | n ticks with at least n seconds left take off n seconds and change nothing else. |
| Pomodoro.ShortDelayScenario | src/components/App.jsx:133-143 | With work 5, short 2, long 3 and delay 2: start, then six ticks give (2, running, 2). Three more ticks give the long break (3, running, 3). |
| Pomodoro.App.constructor | src/components/App.jsx:77-110 | The first render applies the defaults rule to the stored map. It then starts stopped, at the stored work duration, with the counter at 1. |
| Pomodoro.App.FillDefaults | src/components/App.jsx:77-87 | In place, the store becomes WithDefaults of the old store. The session fields are untouched. |
| Pomodoro.App.HandleStop | src/components/App.jsx:119-123 | In place: seconds is the stored work duration, the counter is 1, the timer is stopped and the store is unchanged. |
| Pomodoro.App.HandleSkip | src/components/App.jsx:133-158 | In place, the state becomes Step(old, Skip) and the counter goes up by one. The method returns the notification for the old counter. |
| Pomodoro.App.OnTick | src/components/App.jsx:161-165 | In place: with time left it counts down one second and notifies nothing. At zero it does what skip does and returns skip's notification. |
| Pomodoro.App.OnStart | src/components/App.jsx:198-202 | In place: running becomes paused, stopped and paused become running, and nothing else changes. |
| Pomodoro.App.HandleSettingsChange | src/components/App.jsx:170-182 | A loop writes each scaled setting in order, so the store becomes ApplySettings(old store, settings). The method then resets to the newly stored work duration, stopped, counter 1. |

## Left out

- Rendering and styling (App.jsx:13-33, 188-221) are presentation.
- The browser notification, `alert` and permission request (App.jsx:54-70): platform calls. Only the parity choice of message is kept (`Timer.NoticeFor`). `HandleSkip` returns that message instead of showing it.
- The Web Audio setup and `play()` (App.jsx:148-155): a platform side effect. The setup runs on every skip taken at counter 1: the first after start-up, after a stop, or after a settings change. `HandleSkip` and `OnTick` always return the notice. In the code, an exception thrown in lines 148-155 would stop line 158 from running, so no notification would appear. The state updates at lines 134-143 run before that block and are not affected.
- The assignment to `document.title` (App.jsx:112-117). Only the string is computed (`Timer.Title`).
- The `useInterval` hook and its one-second clock (App.jsx:161-168). Its source is not part of this model. Ticks are calls to `OnTick` that the caller issues while the timer runs. The model does not itself forbid a tick in another state.
- The skip control's disabled flag (App.jsx:196) is passed to the controls to disable the skip button; the Controls component is not part of this model. The model computes the flag (`Timer.SkipDisabled`) but does not itself forbid a skip while the control is disabled. Every property proved over runs holds for all event lists, including those with such skips.
- React's render cycle and its batched, asynchronous state updates. Each handler is one atomic update. Durations are read from the store when a handler runs. The code reads them at the last render: the same values once a changed store has been rendered.
- `localStorage` as I/O, and the string round trip of its values (`parseInt` at App.jsx:94-106; the string stored into `seconds` at App.jsx:179). The store is a `map<string, nat>` of whole non-negative numbers. One consequence is not captured. After a settings change the code holds a string in `seconds`. The test `seconds === 0` at App.jsx:163 is then false even for "0", so with a stored work duration of 0 the code would tick to -1 and keep counting down instead of skipping. The model skips at the first tick.
- Settings entries are pairs of a key and a non-negative whole number. The Settings form that produces them, and any parsing of what the user typed, are not part of this model.
