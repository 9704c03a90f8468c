# Box breathing timer: the session state machine

This project models the core of a single-page box-breathing widget. The page
guides the user through a repeating four-phase cycle: Inhale, Hold, Exhale,
Wait. Each phase lasts `phaseTime` seconds (3 to 6, set with a slider). A
one-second ticker advances the cycle, counts the elapsed session time, and
checks it against an optional time limit given in minutes. Once the limit is
reached, the session completes on the tick that moves the cycle into Wait.

The model consists of:

- `Digits` (digits.dfy): the time limit is kept as a string of decimal digits.
  - `Value` is `parseInt` on such a string.
  - `ToDecimal` is `toString` of a preset's minutes.
  - `Sanitize` is the input handler's "keep only digits" filter.
- `Clock` (clock.dfy): `formatTime`, which writes seconds as minutes and seconds, each zero-padded to two digits.
- `Colors` (colors.dfy): the integer part of `hexToRgba`.
  - The colour is read as one hexadecimal number.
  - Its bytes are taken out by a right shift and a mask of 255.
  - On the non-negative 24-bit values involved, the model writes these as division by a power of two and remainder by 256.
- `Phases` (phases.dfy): `getInstruction` and the phase labels.
- `SessionModel` (session_model.dfy): the shared `state` record as a value.
  - `Valid` is the invariant.
  - Each entry point is a function from the old state to the new one. The entry points are the tick, `togglePlay`, `startWithPreset`, `resetToStart`, the time-limit input, the phase-time slider and the sound switch.
- `SessionRun` (session_run.dfy): many ticks in a row.
  - A closed form gives the state after m seconds of play.
  - A session without a limit plays forever.
  - A session with a limit completes on one computed tick (`Deadline`), and never earlier. That tick comes no sooner than the limit and less than one full cycle after it.
- `BoxSession` (session.dfy): the record as a class `Session` whose fields the methods overwrite in place, as the source's handlers do. Each method keeps `Valid()` and leaves `State()` equal to the matching `SessionModel` function of the old state.
- `View` (view.dfy): what `render` shows, as element ids depending on the three flags, plus the contents of the panel shown while playing.

Notes on the model:

- **The session completes on the tick whose new phase is Wait (app.js:379), not when the cycle wraps back to Inhale.** The message "Finishing current cycle…" (app.js:567) suggests that the whole cycle is finished first, but the Wait phase itself is never played once the limit is reached. `Tick`, `CompletesAt` and `Deadline` model this.
- **`countdown <= phaseTime` holds only while playing.** The slider changes `phaseTime` of an idle session and leaves `countdown` as it was (app.js:659-662). `Valid` states the bound for playing sessions and keeps `1 <= countdown <= 6` always.
- **Some operations require the state in which their control is on screen.** `Tick` requires `isPlaying`, because the interval is cleared on every way of stopping. The slider and the time-limit input only exist while the session is idle, so `SetPhaseTime` and `SetTimeLimit` require `Idle`. The slider's range 3..6 is a precondition too. `View.HandlersMatchControls` ties these preconditions to the rendered controls.
- **`hasStarted` always equals `isPlaying`.** Every handler sets the two together, and `Valid` states it.
- **`Value` reads the empty text as 0.** This is a convention of the model: `parseInt('')` is NaN, but the tick only reads a limit that is not empty (app.js:368).
- **One branch of `render` is unreachable.** In every valid state, a session that is neither playing nor complete has not reached its limit. So the "Time limit reached" message (app.js:567) never appears.

## Model

| member | source | states |
|---|---|---|
| Digits.ToDecimal | app.js:343 | the preset's minutes become a non-empty string of digits without leading zeros |
| Digits.ValueZero | app.js:369 | `parseInt` of a digit text is 0 exactly when every digit is '0' |
| Digits.ValueOfDecimal | app.js:343 | `parseInt` of the string that `toString` wrote is the number again |
| Digits.DecimalLength | app.js:250 | a number needs at most two digits exactly when it is below 100, and one exactly when below 10 |
| Digits.Sanitize | app.js:339 | the filtered limit holds only digits, is no longer than the input, and has exactly the digit characters of the input |
| Digits.SanitizeAppend | app.js:339 | filtering works character by character and keeps order: the result for a + b is the result for a followed by the result for b |
| Digits.SanitizeFixed | app.js:339 | the filter changes nothing exactly when the input is already all digits |
| Digits.SanitizeIdempotent | app.js:339 | filtering twice gives the same as filtering once |
| Clock.PadTwoDigits | app.js:250 | padding to two characters with '0' keeps the digits' value and gives length max(2, original) |
| Clock.PadTwoShape | app.js:250 | `padStart(2, '0')` gives the text preceded by just enough zeros to make two characters, and leaves a longer text as it is |
| Clock.FormatTime | app.js:247-251 | the text is digits, ':' and exactly two digits; the field before ':' reads as s / 60, the one after as s % 60 < 60 |
| Clock.FormatTimeRoundTrip | app.js:247-251 | reading the formatted time back gives the original seconds |
| Clock.FormatTimeLength | app.js:247-251 | the text is exactly five characters ("MM:SS") if and only if the time is under 6000 seconds |
| Colors.HexValueBound | app.js:179 | `parseInt(s, 16)` of n hex digits is below 16^n |
| Colors.StripHash | app.js:178 | `replace('#', '')` removes one character exactly when the text contains a '#', and leaves a text without '#' unchanged |
| Colors.StripHashFirst | app.js:178 | it is the first '#' that goes: the text before it and the text after it, including later '#', are kept in order |
| Colors.HexValueAppend | app.js:179 | the hex value of a + b is value(a) * 16^len(b) + value(b) |
| Colors.SplitBytes | app.js:180-182 | `>> 16`, `>> 8` and `& 255` on red*65536 + green*256 + blue give red, green and blue |
| Colors.ShiftRight | app.js:180-181 | `x >> k` drops the k lowest bits: the result times 2^k is at most x and less than 2^k below it |
| Colors.MaskByte | app.js:180-182 | `& 255` gives a byte that differs from x by a multiple of 256 |
| Colors.HexToRgb | app.js:177-183 | every channel is a byte, and together they recompose the parsed 24-bit value |
| Colors.ColorRoundTrip | app.js:177-183 | writing any colour as "#rrggbb" and reading it with `hexToRgba` gives the same red, green and blue |
| Colors.PhaseColorBytes | app.js:175-183 | the four phase colours are well formed and give the bytes (249,115,22), (251,191,36), (56,189,248), (34,197,94) |
| Phases.Instruction | app.js:165-173 | the label is non-empty exactly for phases 0..3, and is Inhale, Hold, Exhale or Wait in cycle order |
| Phases.InstructionDistinct | app.js:165-173 | different phases get different labels |
| SessionModel.Initial | app.js:13-29 | the record as created is valid, idle and at the start of a cycle, with four-second phases, no limit and the sound off |
| SessionModel.Valid | app.js:13-29 | the invariant of the record; it implies that a session that has reached its limit and is not playing is complete |
| SessionModel.LimitSecondsZero | app.js:369 | a limit reads as 0 seconds exactly when its digits are all zeros, and otherwise as at least one minute |
| SessionModel.Tick | app.js:366-392 | keeps the invariant; total time goes up by one; a tick with countdown 1 advances the phase mod 4 and resets the countdown, any other tick only decrements the countdown; the limit flag is set iff the limit is non-empty and now reached, and is never cleared; the session completes iff the tick moves into phase 3 with the flag set, and then stops playing; the limit, the phase time and the sound setting are unchanged |
| SessionModel.TogglePlay | app.js:275-308 | keeps the invariant; flips playing; in both directions clears the clock, the cycle, the completion and the limit flag, with countdown = phaseTime; keeps the limit, the phase time and the sound setting |
| SessionModel.StartWithPreset | app.js:342-361 | keeps the invariant; starts playing from the start of a cycle; the limit becomes the minutes' decimal digits, which read back as the minutes |
| SessionModel.ResetToStart | app.js:310-326 | keeps the invariant; leaves the session idle at the start of a cycle with the limit cleared; keeps phase time and sound |
| SessionModel.SetPhaseTime | app.js:659-662 | on an idle session, sets the phase time to the slider value and changes nothing else |
| SessionModel.SetTimeLimit | app.js:338-340 | on an idle session, the limit becomes `Sanitize` of the typed text (the text itself if it is all digits); nothing else changes |
| SessionModel.ToggleSound | app.js:328-336 | flips only the sound setting; the cycle is not restarted |
| SessionModel.StartThenPause | app.js:275-308 | start followed by pause returns an idle session to itself, with the countdown reset to the phase time |
| SessionModel.NoLimitTickNeverCompletes | app.js:368-386 | without a limit a tick never completes the session and it keeps playing |
| SessionRun.Run | app.js:363-393 | any number of ticks keeps the invariant, the limit, the phase time and the sound setting, and advances the clock by at most one per tick |
| SessionRun.PlayingAtValid | app.js:366-392 | the closed form at any second is a valid, playing state |
| SessionRun.TickClosedForm | app.js:374-389 | from the closed form at second m, one tick gives the closed form at m + 1, or the completed state when m + 1 is a completing tick |
| SessionRun.RunClosedForm | app.js:366-392 | until the completing tick, after m seconds the clock shows m, the phase is (m / phaseTime) mod 4, the countdown is phaseTime - m mod phaseTime, and the flag says whether m has reached the limit |
| SessionRun.RunCompletes | app.js:379-386 | the first completing tick stops the session with the completion flag set, phase 3 and a full countdown |
| SessionRun.TickCompletes | app.js:379-386 | from the closed form one second before a completing tick, the tick gives the completed state |
| SessionRun.RunStaysStopped | app.js:380-385 | once stopped, further seconds change nothing, because the interval is cleared |
| SessionRun.StaysCompleted | app.js:380-385 | a session completed on tick n is in that same state at every later second |
| SessionRun.NoLimitPlaysForever | app.js:368-373 | a session started without a limit is playing and not complete after any number of seconds |
| SessionRun.NextWaitTickFacts | app.js:374-381 | the computed tick moves into Wait, no earlier tick at or after the starting second does, and it is less than 4 phases after that second |
| SessionRun.NextWaitTickIsWait | app.js:374-381 | the computed tick is a multiple of the phase time whose phase is Wait, at or after the starting second and less than 4 phases after it |
| SessionRun.DeadlineFacts | app.js:368-386 | the Deadline tick completes the session, no earlier tick does, and it is at or after the limit and less than one full cycle after the limit is first reached |
| SessionRun.LimitedSessionBeforeDeadline | app.js:366-392 | a session started with a limit is playing and in closed form at every second before the Deadline |
| SessionRun.LimitedSessionFromDeadline | app.js:366-392 | from the Deadline on, a session started with a limit is complete and stopped, frozen in the state it completed in at the Deadline |
| BoxSession.Session.constructor | app.js:13-29 | the record starts in the initial state and satisfies the invariant |
| BoxSession.Session.Tick | app.js:366-392 | updating the fields in place keeps the invariant and gives exactly SessionModel.Tick of the old state |
| BoxSession.Session.TogglePlay | app.js:275-308 | in place, gives SessionModel.TogglePlay of the old state and keeps the invariant |
| BoxSession.Session.StartWithPreset | app.js:342-361 | in place, gives SessionModel.StartWithPreset of the old state and keeps the invariant |
| BoxSession.Session.ResetToStart | app.js:310-326 | in place, gives SessionModel.ResetToStart of the old state and keeps the invariant |
| BoxSession.Session.ToggleSound | app.js:328-336 | in place, gives SessionModel.ToggleSound of the old state and keeps the invariant |
| BoxSession.Session.SetTimeLimit | app.js:338-340 | in place, gives SessionModel.SetTimeLimit of the old state and keeps the invariant |
| BoxSession.Session.SetPhaseTime | app.js:659-662 | in place, gives SessionModel.SetPhaseTime of the old state and keeps the invariant |
| View.Visible | app.js:542-643 | "Back to Start" and the completion banner are shown iff the session is complete; the play/pause button is shown iff it is not, labelled for the current play state |
| View.VisibleIdleControls | app.js:570-620 | the time-limit input, the slider and the sound switch are shown iff the session is neither playing nor complete |
| View.VisiblePresets | app.js:629-643 | a preset button for m minutes is shown iff the session is neither playing nor complete and m is 2, 5 or 10 |
| View.VisiblePanel | app.js:546-564 | the clock and the phase tracker are shown iff playing |
| View.VisibleLimitWarning | app.js:565-568 | a limit message is shown iff the limit is reached and the session not complete; it says "Finishing current cycle" iff playing |
| View.VisibleInValidState | app.js:566-569 | in a valid state exactly one main button is shown, and the "Time limit reached" wording never is |
| View.HandlersMatchControls | app.js:648-666 | the slider and the limit input (and their handlers) exist only on an idle session, the reset button only on a stopped one |
| View.TrackerItem | app.js:552-563 | a tracker entry is active iff it is the current phase, carries that phase's label, and has the bytes of that phase's colour as its soft colour |
| View.Tracker | app.js:552-563 | the tracker has four entries in cycle order; entry i is active iff i is the current phase, shows label i, and has the bytes of phase colour i |
| View.PlayingPanel | app.js:546-565 | the panel shows the formatted elapsed time, the current phase's (non-empty) word, exactly the state's countdown (within the phase time), and four tracker entries, only the current one active, each with its label and colour bytes |
| View.PanelClock | app.js:548 | the panel's clock text reads back as the elapsed seconds |

## Left out

- Web Audio (`ensureAudio`, `updateAudioRouting`, `playCue`): a browser API with floating-point gains, frequencies and envelopes. The sound setting is modelled; the sound is not.
- Canvas drawing and animation (`drawScene`, `animate`, `resizeCanvas`, `updateCanvasVisibility`, the gradient cache): floating-point easing and pixel layout. The viewport, pixel-ratio and reduced-motion fields of the record are left out with them.
- `pulseStartTime` and `lastStateUpdate`: timestamps from `performance.now()`, used only by the animation.
- Wake lock requests and releases: asynchronous, best-effort browser calls.
- DOM plumbing. The model leaves out `innerHTML`, `addEventListener`, `setInterval`, `requestAnimationFrame`, the media query and the `touchmove` guard. The tick is a method the caller invokes once per second while playing. `render` is modelled as the element ids it shows, not as HTML.
- The alpha text of `hexToRgba`'s output: float formatting. Only the byte extraction is modelled, for well-formed six-digit colours, which are all the page passes in. The fallback colour `'#fde68a'` is never used, because the tracker always has exactly four entries.
- Digits.Value: models `parseInt` as the exact decimal value. For limits too long for a double-precision number, `parseInt` rounds; the model does not.
- View.Visible: lists ids in the order `render` writes its blocks, grouped by screen (complete, playing, idle). The texts and attributes inside each block are not modelled, except the playing panel's contents in `PlayingPanel`.
