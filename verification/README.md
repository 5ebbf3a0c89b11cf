# Stopwatch / countdown time engine in Dafny

This project models the time engine of a browser stopwatch with a countdown
mode. The engine is one record: `mode`, `running`, `t0` (start of the current
run segment), `acc` (time accrued over completed segments), `targetMs` (the
countdown duration) and the lap list. Start, pause, resume, reset, set-target
and lap are pure transitions over that record. Each takes the wall clock as an
explicit integer `now`. An operation whose guard fails is a silent no-op.

The model also covers the pure pieces around the engine:

- the clock-string renderer `formatTime` with its `pad` and `clamp` helpers;
- lap removal and clearing, which the page wiring writes inline;
- the countdown form that builds a target from clamped H/M/S/ms fields;
- the redraw loop's auto-pause of an expired countdown.

Persistence is modelled as a snapshot record (`getState`) and a restore step
(`fromJSON`) over an already-decoded payload whose fields may each be
missing.

Modules, one per concern:

- `TimeFormat` (`time_format.dfy`): `Clamp`, `Pad`, `FormatTime`. It also has
  `ParseTime`, the reading of a clock string back into milliseconds, so that
  rendering can be stated as a round trip.
- `Laps` (`laps.dfy`): the lap record, the dense-index and delta laws, and
  append, renumber and remove.
- `TimeEngine` (`engine.dfy`): the engine record and its operations, the
  invariant `Inv`, and the countdown and conservation properties.
- `Persistence` (`persistence.dfy`): the payload, `GetState`, `Restore`, and
  re-anchoring on restore.
- `CountdownForm` (`countdown_form.dfy`): parsed fields, clamping and the
  composed target.
- `Machine` (`machine.dfy`): every operation as one transition table `Step`,
  and replays of timed operation sequences. It proves the invariant over
  whole histories. It also proves that elapsed time equals the total time the
  engine was running since the last reset.

## Model

| member | source | states |
|---|---|---|
| TimeFormat.Clamp | script.js:23 | the result lies in `[lo, hi]` when `lo <= hi`, equals `n` when `n` is already in range, and is cut to `hi` above it |
| TimeFormat.PadStart | script.js:24 | `padStart` with zeros: the result is `len` long when the text is shorter, otherwise the text unchanged (never truncated); the text sits at the end behind zeros, and the digit value is kept |
| TimeFormat.Pad | script.js:24 | all digits, reading back as `n`; exactly `len` long when `toString` of `n` is shorter, otherwise exactly as long as `toString` of `n` (a value too wide for `len` is not cut) |
| TimeFormat.Decimal | script.js:24 | `toString` of a non-negative integer: non-empty, all digits, no leading zero, reads back as `n` |
| TimeFormat.Split | script.js:26-32 | the hours/minutes/seconds/millis a negative-clamped input splits into: minutes and seconds below 60, millis below 1000, recombining to the clamped input, hours positive exactly from one hour up |
| TimeFormat.FormatTime | script.js:25-35 | the rendering ends in `MM:SS.mmm` with `:` and `.` in place, where `MM`, `SS` and `mmm` are the padded minutes, seconds and millis of the split input; an `HH:` part with the padded hours comes first iff the input is at least one hour |
| TimeFormat.FormatTimeRoundTrip | script.js:25-35 | every rendering is a well-formed clock string, and reading it back gives the input with negatives raised to 0 |
| TimeFormat.FormatTimeInjective | script.js:25-35 | two distinct non-negative durations never render to the same string |
| TimeFormat.FormatTimeNegativeIsZero | script.js:26 | any negative input renders exactly as 0 |
| TimeFormat.FormatTimeExamples | script.js:25-35 | `0 -> "00:00.000"`, `61234 -> "01:01.234"`, `3661000 -> "01:01:01.000"`, `-5 -> "00:00.000"` |
| Laps.NextLap | script.js:100-108 | the new record carries the given time, index `N+1`, and a delta that adds up with the previous lap's time (or 0) to the given time |
| Laps.Append | script.js:100-109 | appending keeps the old list as a prefix and adds one lap at the given time; it keeps dense indices, the delta law and monotone times |
| Laps.Renumber | script.js:306 | same records in the same order, with indices rewritten to `1..N` |
| Laps.Remove | script.js:306 | removing position `k` leaves N-1 laps with indices `1..N-1`; each survivor keeps its relative order and its absolute and delta values; a position that names no lap only renumbers |
| Laps.RemoveKeepsMonotone | script.js:306 | removal keeps lap times non-decreasing and never raises the newest lap time |
| Laps.RemoveDeltaLaw | script.js:306 | since deltas are not recomputed, the delta law survives a removal iff the removed lap was the newest or had a zero delta |
| Laps.DeltasNonNegative | script.js:101-102 | with the delta law and non-decreasing times from a non-negative start, no delta is negative |
| TimeEngine.New | script.js:39-46 | a new engine is idle with no laps and shows 0 elapsed at every clock reading |
| TimeEngine.Elapsed | script.js:50-53 | an idle engine shows exactly its accrued time; a running one shows its accrued time plus the time since the segment started (checked against an independent running-time total in `Machine.ElapsedIsRunningTime`) |
| TimeEngine.NowMs | script.js:56-60 | stopwatch shows elapsed time; countdown is never negative, is 0 iff elapsed has reached the target, otherwise adds up with elapsed to the target, and never exceeds the target when elapsed is non-negative |
| TimeEngine.NowMsAbsolute | script.js:114-117 | the rising lap time is the elapsed time in every mode; it equals the stopwatch display, and in countdown it adds up with the remaining time to the target (or has passed it when the display shows 0) |
| TimeEngine.AbsoluteMirrorsCountdown | script.js:114-117 | in a countdown that has not run out, the lap time gained between two readings equals the display time lost, and the lap time never falls |
| TimeEngine.Start | script.js:62-67 | afterwards the engine runs; already running means no change; otherwise elapsed grows one-for-one with the clock from its value at `now`; `acc`, laps, mode and target are unchanged |
| TimeEngine.Pause | script.js:69-74 | afterwards the engine is idle and its elapsed time is frozen at the value it had at `now`; idle means no change; laps, mode and target are unchanged |
| TimeEngine.Resume | script.js:76-83 | the engine runs afterwards iff it already ran or it is not an expired countdown; a refused or redundant resume changes nothing; otherwise elapsed continues from its value at `now` |
| TimeEngine.Reset | script.js:85-91 | the result is the idle zero engine with no laps, keeping mode and target |
| TimeEngine.ToInt32 | script.js:94 | bitwise-or with 0: the result is in the signed 32-bit range, congruent to `x` modulo 2^32, and equal to `x` when `x` is already in range |
| TimeEngine.SetCountdownTarget | script.js:93-97 | the target becomes `max(0, ms)` for in-range `ms` and is never negative; run state, `t0`, `acc`, laps, mode and elapsed time are unchanged |
| TimeEngine.TakeLap | script.js:99-112 | exactly one lap is appended after the unchanged prefix, with index `N+1`, absolute time equal to elapsed time, delta measured from the previous lap or 0, and the given timestamp; nothing else changes |
| TimeEngine.RemoveLap | script.js:305-308 | the lap list becomes `Laps.Remove` of the old one: the lap at position `k` is dropped, the survivors keep their order and values and are renumbered densely; nothing else changes |
| TimeEngine.ClearLaps | script.js:259-261 | the lap list becomes empty and nothing else changes |
| TimeEngine.Tick | script.js:340-346 | a running countdown that shows 0 is paused exactly as `pause()` would (laps, mode and target kept); any other state is left alone; elapsed time at `now` is unchanged |
| TimeEngine.ElapsedMonotone | script.js:50-53 | as the clock moves forward, elapsed time grows one-for-one while running and stays put while idle |
| TimeEngine.InvAdvances | script.js:50-53 | the engine invariant survives the clock moving forward |
| TimeEngine.CountdownClamped | script.js:56-60 | under the invariant the countdown display lies in `[0, targetMs]` |
| TimeEngine.PauseResumeConserves | script.js:69-83 | pause at `t1`, then resume at `t2`, then read at `t3`: elapsed is the value at `t1` plus `t3 - t2`, whatever the gap |
| TimeEngine.StartPauseResumePause | script.js:62-83 | start, run `a`, pause for `b`, run `c`, pause: exactly `a + c` accrued |
| TimeEngine.ExpiredCountdownStaysStopped | script.js:76-83 | a running countdown at 0 is paused by the next frame, and any later resume is a no-op |
| TimeEngine.FiveSecondCountdown | script.js:56-83 | a five-second countdown started at `t` shows 1 at `t+4999` and 0 at `t+5000`; the next frame stops it and resume then changes nothing |
| TimeEngine.OperationsKeepElapsed | script.js:50-117 | every operation except reset leaves elapsed time unchanged at the instant it is applied; reset makes it 0 |
| TimeEngine.TakeLapKeepsLaps | script.js:99-112 | a lap taken from an engine that keeps the invariant and the delta law keeps both, and its delta is non-negative |
| Persistence.GetState | script.js:119-129 | the snapshot holds every field, stamped with `lastPersistedAt`, and decodes back to the same engine |
| Persistence.Decode | script.js:138-143 | a present field is kept as stored; a missing mode reads as stopwatch, missing running as false, missing `t0`, accumulated and target as 0, missing laps as empty |
| Persistence.Reanchor | script.js:144-148 | re-anchoring keeps run state, mode, target and laps, and the elapsed time at every clock reading; a running engine with a recorded start is re-anchored at `now`, anything else is unchanged |
| Persistence.Restore | script.js:135-153 | an undecodable payload leaves the engine as it was; a decoded one sets mode, run state, target and laps from the payload (defaults for missing fields) with the stored elapsed time at every clock reading, and a running engine with a recorded start is re-anchored at `now` |
| Persistence.RestoreContinuity | script.js:144-148 | a running engine stored with `acc = A` and start `t0`, restored at `t1`, is running with `t0 = t1` and elapsed `A + (t1 - t0)` |
| Persistence.RestoreWithoutStart | script.js:139-148 | a payload marked running whose `t0` is missing or 0 is not re-anchored: it stays running from clock reading 0, so elapsed time at `now` is the stored accumulated time plus `now` |
| Persistence.SnapshotRoundTrip | script.js:119-148 | snapshot then restore gives the same mode, run state, target, laps, elapsed and visible time at every later reading; an idle engine comes back unchanged |
| Persistence.RestoreKeepsInv | script.js:135-148 | restoring a snapshot of an engine that kept the invariant, at a reading no earlier than when it was stored, keeps the invariant |
| Persistence.RestoreBeforeStart | script.js:144-148 | restoring a running engine at a clock reading earlier than its stored start lowers `acc` by the difference, keeping elapsed time at `now`; once the difference exceeds the accrued time the invariant breaks |
| Persistence.RestoreBeforeStartExample | script.js:144-148 | a stopwatch started at 1000 with nothing accrued, restored at 500, gets `acc = -500` and no longer keeps the invariant |
| Persistence.EmptyPayloadDefaults | script.js:138-143 | a payload with no fields restores to an idle stopwatch at 0 with no laps |
| CountdownForm.ClampField | script.js:210-213 | a readable field is clamped into `[0, hi]` and kept when already in range; an unreadable one stays unreadable |
| CountdownForm.ComposeTarget | script.js:209-213 | the target is unreadable iff any field is; otherwise it is the clamped fields' millisecond total, between 0 and 99:59:59.999 |
| CountdownForm.SubmitForm | script.js:207-214 | the stored target is between 0 and 99:59:59.999, is 0 when any field is unreadable, and nothing else changes |
| CountdownForm.ComposeThenSplit | script.js:209-213 | in-range fields compose to a target that the clock renderer splits back into exactly those fields |
| CountdownForm.SubmitSetsComposedTarget | script.js:209-214 | with readable fields, the stored target is exactly the composed value, untouched by the 32-bit conversion |
| Machine.Step | script.js:62-117 | every transition keeps elapsed time at `now` (reset makes it 0 and idle), keeps the mode, keeps the invariant, and keeps the delta law unless it removes a lap |
| Machine.ElapsedIsRunningTime | script.js:50-53 | after any replay, elapsed time is the time the engine spent running since the last reset, plus, if there was no reset, the elapsed time when the replay began |
| Machine.FreshElapsedIsRunningTime | script.js:39-53 | from a freshly created engine, elapsed time is exactly the total time spent running since the last reset |
| Machine.RunKeepsInv | script.js:38-117 | any replay on a forward-moving clock keeps the invariant: non-negative `acc` and target, a start not in the future, dense indices, non-decreasing laps no later than elapsed time |
| Machine.RunKeepsDeltaLaw | script.js:99-117 | a replay with no lap removal keeps the delta law |
| Machine.RunNeverLosesTime | script.js:50-83 | on a forward-moving clock without reset, elapsed time never decreases over a replay |

## Left out

- `Date.now()` is the explicit `now` argument. Where one step reads the clock twice, both reads are taken to return the same value: in `fromJSON` (script.js:145-146), `resume` (script.js:79-80, the expiry check and the new `t0`), `lap` (script.js:100 and 107, the lap time and its ISO stamp) and the redraw frame (script.js:341 and 344, the display read and the `pause`).
- `new Date().toISOString()` is the lap's opaque `stamp` string argument.
- `localStorage`, `_persist`, `toJSON` and the stored `lastPersistedAt` are not modelled; these are storage side effects. Persisting is the `GetState` snapshot. `lastPersistedAt` is carried in the payload, but `Restore` ignores it; the engine's copy is informational only.
- `JSON.parse` and `JSON.stringify` text handling is not modelled. A payload is an already-decoded record with optional fields, and a payload that cannot be decoded is `None`. A stored field that is falsy (`0`, `false`, empty string) is read as missing. The value type is the same, so it gets the same default.
- Persistence.Decode: the payload's mode is one of the two modes or missing. In the source, any other string is also kept. `nowMs` would then treat it as a countdown, but `resume` and the redraw loop would not; that mixed behaviour is not modelled.
- Persistence.Decode: stored laps are taken as well-typed lap records. The source only checks `Array.isArray`, and not what the array holds.
- Fractional milliseconds and non-numeric values are not modelled; all times are integers. JavaScript numbers are doubles, so times beyond 2^53 lose precision there but not here.
- The DOM wiring, i18n labels, `syncButtons`, keyboard shortcuts and lap rendering (script.js:164-336, apart from lines 209-213, 260 and 306) are not modelled; they are presentation only. The keyboard toggle at line 275 is a composition of `Start`, `Pause` and `Resume` and adds no new transition.
- Mode switching (`applyMode`, script.js:218-229) assigns `engine.mode`, and re-submits the countdown form only when switching to countdown while `targetMs` is 0 (script.js:225-227). It is not a separate operation here; engines of either mode come from `New` or `Restore`.
- The `requestAnimationFrame` scheduling of the redraw loop (script.js:340-353) is left out. Only its auto-pause rule is modelled, as `TimeEngine.Tick`.
- Persistence.RestoreKeepsInv: holds only for a restore at a clock reading no earlier than the stored one. The clock is not monotone across restarts, and a restore before the stored start makes `acc` negative, as the source does; `Persistence.RestoreBeforeStart` states that case.
- Lap removal identifies the lap by object identity in the source and by its position in the list here. The list holds distinct objects, so the two agree.
- CountdownForm.ClampField: `parseInt` itself (text to number) is not modelled. A field is its parsed result, either a whole number or not-a-number. An empty field is read as 0 before parsing, as in the source.
