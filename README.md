# Focus timer: a verified model

The timer page of this site runs a work/break countdown. A work phase is 90
minutes (5400 seconds) and a break phase is 20 minutes (1200 seconds). The
page shows the time left as `mm:ss` and draws a progress ring. Three buttons
start, pause and reset the countdown. Once a second an interval callback
counts down, and when the count reaches zero the timer switches to the other
phase with that phase's full duration.

The model has four modules:

- `TimeFormat` (TimeFormat.dfy) is `formatTime`. It builds the text from
  decimal digits as `String(n)` writes them (for `n` below 10^21) and left padding as
  `padStart(2, '0')` adds it.
- `TimeReading` (TimeReading.dfy) takes the formatted text apart again. It
  gives the two fields of the display and a reference reader, `ParseTime`,
  used to state the round trip.
- `TimerSpec` (TimerSpec.dfy) is the state machine on values. `TimerState`
  holds `timeLeft`, `isWorkPhase` and `running`, where `running` stands for
  "an interval handle is set". Each command and the tick is a function. The
  invariant is `1 <= timeLeft <= Duration(isWorkPhase)`. The lemmas cover
  every run of button and interval events, tick arithmetic, idempotence and
  the progress fraction.
- `FocusTimer` (FocusTimer.dfy) is the script's mutable state as a class
  `Timer` with those three fields. Each handler is a method that changes the
  fields in place. Each method is proved to produce exactly the state the
  matching `TimerSpec` function gives.

## Model

| member | source | states |
|---|---|---|
| `TimeFormat.Digits` | focus-timer.js:31 | `String(n)` for a non-negative integer: a non-empty string of decimal digits denoting `n` |
| `TimeFormat.DigitsMinimal` | focus-timer.js:31 | `String(n)` has no leading zero unless `n` is 0, and has exactly as many digits as `n` needs (`10^(len-1) <= n < 10^len`) |
| `TimeFormat.PadStart` | focus-timer.js:31 | `padStart(width, c)` returns a string as long as `width` or as `s`, whichever is longer |
| `TimeFormat.PadStartShape` | focus-timer.js:31 | the padded string ends with `s`, and everything in front of `s` is the fill character |
| `TimeFormat.LeadingZero` | focus-timer.js:31 | a zero in front of a digit string does not change the number it denotes |
| `TimeFormat.PadZeros` | focus-timer.js:31 | padding a digit string with zeros keeps it a digit string denoting the same number |
| `TimeFormat.Padded` | focus-timer.js:31 | `String(n).padStart(2, '0')` denotes `n` and has at least two digits, exactly two when `n` is below 100 |
| `TimeFormat.FormatTime` | focus-timer.js:28-32 | the text is at least 5 characters long with `':'` third from the end. For `seconds < 6000` it is exactly 5 characters with `':'` at index 2 |
| `TimeReading.FormatTimeFields` | focus-timer.js:29-31 | before the colon is the padded `seconds / 60`. After it is the padded `seconds % 60`, which by `Padded` is two digits below 60 |
| `TimeReading.ParseJoined` | focus-timer.js:31 | a minutes field, a colon and a two-digit seconds field below 60 read back as `mm*60 + ss` |
| `TimeReading.FormatParseRoundTrip` | focus-timer.js:28-31 | reading the formatted text back gives the original seconds |
| `TimeReading.FormatTimeInjective` | focus-timer.js:28-31 | two different second counts never display the same text |
| `TimeReading.ZeroDisplay` | focus-timer.js:28-31 | the text is `00:00` if and only if the count is 0 |
| `TimerSpec.Duration` | focus-timer.js:5-6 | a phase lasts 5400 seconds for work and 1200 for break, and the duration is 5400 exactly when the phase is work |
| `TimerSpec.SwitchPhase` | focus-timer.js:42-44 | the phase is negated and `timeLeft` becomes the new phase's full duration (5400 for work, 1200 for break); `running` is unchanged; the result satisfies the invariant |
| `TimerSpec.Start` | focus-timer.js:49-55 | afterwards the timer is running, with `timeLeft` and the phase unchanged, and the invariant is kept |
| `TimerSpec.Pause` | focus-timer.js:65-67 | afterwards the timer is not running, with `timeLeft` and the phase unchanged, and the invariant is kept |
| `TimerSpec.Reset` | focus-timer.js:74-76 | afterwards the timer is stopped and in the same phase, with that phase's full duration left, so the invariant holds from any state |
| `TimerSpec.Tick` | focus-timer.js:55-59 | when more than one second is left, only `timeLeft` changes, down by exactly 1. Otherwise the phase flips and `timeLeft` is the new phase's full duration. `running` is unchanged and the invariant is kept |
| `TimerSpec.ProgressOf` | focus-timer.js:83-85 | the ring's fraction as a pair: the denominator is the phase's full duration, which is positive. The numerator plus `timeLeft` is the denominator. Under the invariant the numerator lies in `[0, total)` |
| `TimerSpec.StepValid` | focus-timer.js:49-78 | each button press and each interval firing keeps the invariant |
| `TimerSpec.RunValid` | focus-timer.js:49-78 | any sequence of events from a valid state ends in a valid state |
| `TimerSpec.NeverShowsZero` | focus-timer.js:56-59 | in a valid state the display never reads `00:00`, because the tick switches phase instead of leaving 0 |
| `TimerSpec.Reachable` | focus-timer.js:5-10 | every state reachable from page load satisfies the invariant and displays a 5-character `mm:ss` text other than `00:00` |
| `TimerSpec.StartIdempotent` | focus-timer.js:50 | starting an already started timer changes nothing |
| `TimerSpec.ResetIdempotent` | focus-timer.js:74-76 | resetting twice gives the same state as resetting once |
| `TimerSpec.ProgressRestarts` | focus-timer.js:84-85 | the progress numerator is 0 right after a reset and right after a phase switch |
| `TimerSpec.TickAdvancesProgress` | focus-timer.js:56 | within a phase, each tick raises the progress numerator by exactly one and keeps the denominator |
| `TimerSpec.TicksAdd` | focus-timer.js:55-61 | `a` ticks followed by `b` ticks are `a + b` ticks |
| `TimerSpec.TicksWithinPhase` | focus-timer.js:55-59 | from a valid state, fewer ticks than `timeLeft` only count down: `k` ticks leave `timeLeft - k`. Exactly `timeLeft` ticks end in the other phase with its full duration |
| `TimerSpec.TicksAreFirings` | focus-timer.js:55-61 | while the interval is set, `k` interval firings in a run of the page are exactly `k` ticks |
| `TimerSpec.FullCycle` | focus-timer.js:42-59 | a timer at a full phase returns to the same state after 5400 + 1200 = 6600 ticks |
| `FocusTimer.Timer.constructor` | focus-timer.js:8-10 | the initial state: 5400 seconds left, work phase, no interval |
| `FocusTimer.Timer.SwitchPhase` | focus-timer.js:42-46 | the fields change exactly as `TimerSpec.SwitchPhase` says, and the invariant holds afterwards |
| `FocusTimer.Timer.Start` | focus-timer.js:49-62 | returns early when already running. The fields change exactly as `TimerSpec.Start` says: running, with time and phase unchanged |
| `FocusTimer.Timer.Tick` | focus-timer.js:55-61 | the fields change exactly as `TimerSpec.Tick` says, and the invariant is preserved |
| `FocusTimer.Timer.Pause` | focus-timer.js:65-71 | the fields change exactly as `TimerSpec.Pause` says: stopped, with time and phase unchanged |
| `FocusTimer.Timer.Reset` | focus-timer.js:74-78 | the fields change exactly as `TimerSpec.Reset` says: stopped, same phase, full duration, invariant holds |
| `FocusTimer.Timer.DrawCircle` | focus-timer.js:83-85 | returns the numerator `totalTime - timeLeft` and the positive denominator `totalTime`, as `TimerSpec.ProgressOf` gives them; under the invariant the numerator lies in `[0, totalTime)` |
| `FocusTimer.Timer.DisplayText` | focus-timer.js:36 | the display text is `formatTime(timeLeft)`. In a valid state it is exactly 5 characters, has `':'` at index 2 and is never `00:00` |

## Left out

- Canvas drawing in `drawCircle` (arcs, stroke styles, glow, line caps) is left out; only the fraction it draws is modelled.
- The mini space window animation and the back-button star field are floating-point particle motion driven by `Math.random` and `requestAnimationFrame`, so they are left out.
- DOM wiring is left out: the `textContent` assignments, the phase label, the `spaceWindow` class toggles and the button listeners. `DisplayText` gives the timer text the display would show.
- `setInterval` and `clearInterval` are left out. The interval handle is the boolean `running`. The callback is the explicit `Tick` method, and in `TimerSpec.Run` the `IntervalFired` event only has an effect while `running`.
- `TimeFormat.FormatTime` takes a natural number. JavaScript's `formatTime` on a negative count would print things like `-1:-1`; no reachable `timeLeft` is negative.
- `TimeFormat.Digits` writes every natural number in plain decimal. JavaScript's `String(n)` does so only below 10^21 and is exact only up to 2^53; the timer never formats more than 90 minutes.
- JavaScript numbers are doubles. `timeLeft` only ever holds small integers, so it is modelled as an unbounded `int`.
- `TimeReading.ParseTime` has no counterpart in the source. It is the reference inverse used to state that `formatTime` loses no information.
- spacesurvey.js, science-bg-main.js, backgroundlogin.js and intro.js are not part of this model. They are decorative particle systems and a timed redirect, with no state logic.
