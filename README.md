# Procrastination Shield: the attention state machine

Procrastination Shield watches a webcam through the FaceMesh landmark model
and decides, frame by frame, whether the user's head is tilted down (looking
at a phone). This project models the logic the repository itself adds on top
of FaceMesh, all in `app.js`:

- the **results callback** (`faceMesh.onResults`): a frame with no face is
  skipped; otherwise the vertical gap `chin.y - noseTip.y` is compared with
  `DOWN_ANGLE_THRESHOLD` (0.07), and the tracker moves between Focused and
  LookingDown, replaying the alert every `ALERT_INTERVAL_MS` (2000 ms) while
  looking down and logging an episode of `floor((now - start) / 1000)` seconds
  when the user looks up again;
- **`logProcrastination`**, which counts the episode, adds its duration to
  the running total and puts `{ timestamp, duration }` at the head of the log;
- **`formatTime`**, which renders whole seconds as `"Ns"` or `"Mm Ss"`.

Files:

- `wrappers.dfy` — `Option`, for the variables the source sets to `null`.
- `time_format.dfy` — module `TimeFormat`: the decimal text JavaScript gives
  an integer in a template string, read back by `DigitsValue`, and
  `formatTime`, with its shape below and above one minute, worked examples,
  and injectivity.
- `attention.dfy` — module `Attention`: the classifier, one callback step
  (`Step`) and `logProcrastination` (`Record`) as functions over the six
  tracking variables (`Tracking`), the session invariant `Inv`, and one lemma
  per case of the callback.
- `app.dfy` — module `App`: class `Shield`, whose fields are the module-level
  variables of `app.js`, with `OnResults` and `LogProcrastination` updating
  them in place; each is proved equal to the function of `Attention` and to
  keep `Inv`.
- `session.dfy` — module `Session`: the callback run over a sequence of
  frames (`Run`), the session invariants and the statistics over any run,
  and three concrete timelines (one episode of 3 s; three alerts in 5 s; a
  face-less frame inside an episode).

Inputs the source reads from the environment are parameters: the frame
(`NoFace` or `Face(chinY, noseY)` with exact reals), `now` (for
`Date.now()`), and `timestamp` (for `toLocaleTimeString()`). The callback's
effects on the page are returned as an `Output`: the status text and style,
the alert (`Play`, `Replay` for "rewind and play", or `Silent`), and the
episode logged, if any.

Two details of the code that are easy to misread:

- While looking down, the live status shows the raw number of seconds,
  `Procrastinating (75s)` (`app.js:68`); `formatTime` is used only for the
  statistics and the log (`app.js:97`, `109`).
- The comment at `app.js:12` says the alert repeats "every second", but the
  constant is 2000 ms; the model uses 2000.

Integer division: `Math.floor((now - start) / 1000)` equals Dafny's `/` by
1000 for every integer, negative or not, because Dafny's division by a
positive divisor rounds down. Durations are `int`, so the step is defined
for any clock reading; that logged durations are never negative is an
invariant proved under a clock that does not go back (`ClockAfter`,
`Monotone`), not a precondition.

## Model

| member | source | states |
|---|---|---|
| TimeFormat.IntToString | app.js:68 | `${n}` for any integer: a '-' exactly for negatives, then decimal digits; IntToStringValue states which digits |
| TimeFormat.IntToStringValue | app.js:68 | the digits of `${i}` denote i, or -i after the '-' of a negative i |
| TimeFormat.FormatTime | app.js:114-119 | formatTime itself: the text always ends in "s" and has a minutes part ('m') exactly from 60 seconds on; its full shape is stated by FormatTimeBelowMinute and FormatTimeMinutes, its examples by FormatTimeExamples, and that it never repeats a text by FormatTimeInjective |
| Attention.Classify | app.js:51-56 | the classifier; no contract of its own, its meaning (down iff the gap is strictly below 0.07, unknown without a face) is ClassifyDownIff |
| Attention.Elapsed | app.js:67 | `Math.floor((now - start) / 1000)`: the result times 1000 is at most the elapsed milliseconds, which are less than 1000 more; ElapsedIsFloor adds non-negativity for now >= start |
| Attention.StillDownStatus | app.js:68 | the live status `Procrastinating (${duration}s)` in warning style; no contract of its own, its use is stated by StaysLookingDown |
| Attention.Record | app.js:91-102 | logProcrastination without its DOM writes; no contract of its own, its effect is RecordEpisode and RecordKeepsInv |
| Attention.Step | app.js:35-89 | the callback body; no contract of its own, its four cases are NoFaceChangesNothing, StartsLookingDown, StaysLookingDown, StopsLookingDown and StaysFocused, with AlertTiming, StepStatistics and StepKeepsInv across all cases |
| TimeFormat.NatToString | app.js:115 | the decimal text of a natural number is non-empty, all digits, one digit exactly below 10, and starts with '0' only for 0 |
| TimeFormat.DigitsValueOfNatToString | app.js:115 | reading the decimal text back gives the number again (the text determines the number) |
| TimeFormat.IntToStringInjective | app.js:68 | two integers with the same `${n}` text are equal, negative numbers included |
| TimeFormat.FormatTimeBelowMinute | app.js:114-115 | below 60 seconds formatTime is the number followed by "s", with no minutes part |
| TimeFormat.FormatTimeMinutes | app.js:116-118 | from 60 seconds on formatTime is mins + "m " + secs + "s" with mins >= 1, secs < 60 and mins * 60 + secs == seconds |
| TimeFormat.FormatTimeExamples | app.js:114-119 | 0 gives "0s", 59 gives "59s", 60 gives "1m 0s", 125 gives "2m 5s" |
| TimeFormat.FormatTimeInjectiveMinutes | app.js:116-118 | from one minute on, two durations with the same "Mm Ss" text are equal |
| TimeFormat.FormatTimeInjective | app.js:114-119 | two durations shown with the same text are equal |
| Attention.ClassifyDownIff | app.js:39-56 | a frame is down exactly when it has a face and chin.y - noseTip.y < 0.07, strictly; a gap equal to 0.07 is focused; no face is unknown |
| Attention.ElapsedIsFloor | app.js:67 | the elapsed seconds are not negative when now >= start |
| Attention.RecordEpisode | app.js:91-102 | logProcrastination adds 1 to the count and the duration to the total, puts the new entry at log[0] with the old log as log[1..], and touches no other variable |
| Attention.RecordKeepsInv | app.js:91-102 | logging a non-negative duration keeps count == length of log and total == sum of logged durations |
| Attention.NoFaceChangesNothing | app.js:39-43 | a frame without a face changes no tracking or statistics variable, plays no alert, and shows "No face detected" in error style |
| Attention.StartsLookingDown | app.js:56-64 | Focused and a down frame: isLookingDown, lookDownStartTime and lastAlertTime become true, now, now; one alert plays; status "PROCRASTINATING" in warning style; nothing logged |
| Attention.StaysLookingDown | app.js:65-77 | LookingDown and a down frame: the start time is kept, the status shows floor((now - start)/1000) seconds, and the alert is replayed and lastAlertTime set to now exactly when now - lastAlertTime >= 2000, otherwise lastAlertTime is kept and nothing plays |
| Attention.StopsLookingDown | app.js:78-88 | LookingDown and a focused frame: exactly one episode of floor((now - start)/1000) seconds is logged, then isLookingDown is false and the start time null; status "Focused" |
| Attention.StaysFocused | app.js:78-88 | Focused and a focused frame: nothing changes, nothing plays, status "Focused" in active style |
| Attention.AlertTiming | app.js:57-76 | an alert plays from the start only on entering LookingDown; a replay only after 2000 ms since the last alert; lastAlertTime moves to now exactly when an alert sounds |
| Attention.StepStatistics | app.js:79-85 | the count, total and log change only on a frame that logs an episode, and then by exactly that episode, at the head |
| Attention.InitialInv | app.js:15-20 | the initial values satisfy the session invariant |
| Attention.StepKeepsInv | app.js:35-89 | one frame keeps the invariant (start time present exactly while looking down, count and total agree with the log, durations non-negative) when the clock has not gone back |
| App.Shield.constructor | app.js:15-20 | the fields start as false, null, 0, 0, 0 and the empty log |
| App.Shield.LogProcrastination | app.js:91-102 | count + 1, total + duration, entry prepended, other fields unchanged, invariant kept for a non-negative duration |
| App.Shield.OnResults | app.js:35-89 | the in-place callback leaves the fields and returns the effects that Step gives for the old fields, and keeps the invariant under a monotone clock |
| Session.RunStatistics | app.js:91-102 | over any sequence of frames the log gains exactly the episodes logged, newest first, and count and total grow by their number and summed duration |
| Session.RunKeepsInv | app.js:35-102 | over any sequence of frames with a clock that does not go back the session invariant is kept |
| Session.SessionInvariants | app.js:15-102 | from the initial values: isLookingDown iff a start time is set, count == length of log, total == sum of the log's durations, no negative duration, and the log is the logged episodes newest first |
| Session.LatestEntryFirst | app.js:102 | after a session that logged episodes, log[0] is the episode logged last |
| Session.OneEpisodeScenario | app.js:56-88 | gaps 0.10, 0.05, 0.05, 0.05, 0.12 one second apart: Focused, PROCRASTINATING, 1s, 2s, then Focused with exactly one episode of 3 s |
| Session.RepeatedAlertScenario | app.js:56-76 | down frames every second for 5 s: the alert sounds at 0, 2000 and 4000 ms, three times in all |
| Session.NoFaceKeepsEpisodeScenario | app.js:39-77 | a face-less frame between two down frames neither ends nor restarts the episode |

## Left out

- FaceMesh construction, options and model loading (`app.js:23-33`): an external model; only its output is modelled, as `Frame`.
- Clearing the overlay canvas at the start of the callback (`app.js:36`): drawing only.
- The Camera wrapper and its asynchronous frame pump (`app.js:122-128`): hardware I/O; a session is modelled as the sequence of frames it delivers.
- Picture-in-Picture drawing (`drawPipFrame`), the PiP button handler and `stopDetection` (`app.js:130-293`): rendering, media streams, animation frames, promises and DOM events.
- DOM writes in `logProcrastination` and the status element (`app.js:96-97`, `105-111`): the status is returned in `Output`; the rendered log and stats are not modelled.
- Audio playback (`alertSound.play()`, `currentTime = 0`): returned as the `Alert` effect; playback failures are not modelled.
- `Date.now()` and `toLocaleTimeString()`: parameters `now` and `timestamp`. The monotone clock that non-negative durations rely on is stated as `ClockAfter` / `Monotone`.
- Floating-point landmark arithmetic: coordinates and the threshold are exact reals; IEEE rounding of `chin.y - noseTip.y` near 0.07 is not modelled.
- JavaScript numbers are doubles; counters and times are unbounded integers here, which is exact below 2^53.
