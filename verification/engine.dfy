/** The time engine: one record, pure transitions.

    The wall clock is the explicit argument `now` (milliseconds since an
    epoch). Elapsed time is the time accrued over completed run segments
    (`acc`) plus, while running, the current segment that began at `t0`.
    Every operation with a guard is a silent no-op when the guard fails. */
module TimeEngine {
  import opened Laps

  datatype Mode = Stopwatch | Countdown

  datatype Engine = Engine(
    mode: Mode,
    running: bool,
    t0: int,        // start of the current run segment (epoch ms)
    acc: int,       // elapsed ms accrued over completed run segments
    targetMs: int,  // countdown duration
    laps: seq<Lap>)

  const Int32Modulus: int := 0x1_0000_0000
  const Int32Max: int := 0x7FFF_FFFF

  /** The engine a page load starts from: idle, nothing accrued, no laps. */
  function New(mode: Mode, targetMs: int): (e: Engine)
    ensures !e.running && e.mode == mode && e.targetMs == targetMs && e.laps == []
    ensures forall now :: Elapsed(e, now) == 0
  {
    Engine(mode, false, 0, 0, targetMs, [])
  }

  /** `_elapsed()`: completed segments plus the current one. */
  function Elapsed(e: Engine, now: int): (v: int)
    ensures !e.running ==> v == e.acc
    ensures e.running ==> v - e.acc == now - e.t0
  {
    e.acc + (if e.running then now - e.t0 else 0)
  }

  /** `nowMs()`: the visible time. Stopwatch shows elapsed time; countdown shows
      the remaining time, held at 0 once the target is reached. */
  function NowMs(e: Engine, now: int): (v: int)
    ensures e.mode == Stopwatch ==> v == Elapsed(e, now)
    ensures e.mode == Countdown ==> 0 <= v
    ensures e.mode == Countdown ==> (v == 0 <==> e.targetMs <= Elapsed(e, now))
    ensures e.mode == Countdown && v > 0 ==> v + Elapsed(e, now) == e.targetMs
    ensures e.mode == Countdown && Elapsed(e, now) >= 0 && e.targetMs >= 0 ==> v <= e.targetMs
  {
    match e.mode
    case Stopwatch => Elapsed(e, now)
    case Countdown =>
      var remaining := e.targetMs - Elapsed(e, now);
      if remaining <= 0 then 0 else remaining
  }

  /** `nowMsAbsolute()`: the rising time used for laps, whatever the mode. */
  function NowMsAbsolute(e: Engine, now: int): (a: int)
    ensures a == Elapsed(e, now)
    ensures e.mode == Stopwatch ==> a == NowMs(e, now)
    ensures e.mode == Countdown && NowMs(e, now) > 0 ==> a + NowMs(e, now) == e.targetMs
    ensures e.mode == Countdown && NowMs(e, now) == 0 ==> a >= e.targetMs
  {
    Elapsed(e, now)
  }

  /** `start()`: opens a run segment at `now`; a no-op while running. */
  function Start(e: Engine, now: int): (r: Engine)
    ensures r.running
    ensures e.running ==> r == e
    ensures !e.running ==> forall later :: Elapsed(r, later) == Elapsed(e, now) + (later - now)
    ensures r.acc == e.acc && r.laps == e.laps && r.mode == e.mode && r.targetMs == e.targetMs
  {
    if e.running then e else e.(t0 := now, running := true)
  }

  /** `pause()`: folds the current segment into `acc` and stops the clock;
      a no-op while idle. */
  function Pause(e: Engine, now: int): (r: Engine)
    ensures !r.running
    ensures !e.running ==> r == e
    ensures forall later :: Elapsed(r, later) == Elapsed(e, now)
    ensures r.laps == e.laps && r.mode == e.mode && r.targetMs == e.targetMs
  {
    if !e.running then e else e.(acc := e.acc + (now - e.t0), running := false)
  }

  /** `resume()`: like `start()`, but an expired countdown refuses to resume. */
  function Resume(e: Engine, now: int): (r: Engine)
    ensures r.running <==> e.running || !(e.mode == Countdown && NowMs(e, now) <= 0)
    ensures r.running && !e.running ==> forall later :: Elapsed(r, later) == Elapsed(e, now) + (later - now)
    ensures !r.running ==> r == e
    ensures e.running ==> r == e
    ensures r.acc == e.acc && r.laps == e.laps && r.mode == e.mode && r.targetMs == e.targetMs
  {
    if e.running then e
    else if e.mode == Countdown && NowMs(e, now) <= 0 then e
    else e.(t0 := now, running := true)
  }

  /** `reset()`: back to idle at zero with no laps; mode and target survive. */
  function Reset(e: Engine): (r: Engine)
    ensures r == New(e.mode, e.targetMs)
    ensures forall now :: Elapsed(r, now) == 0
  {
    e.(running := false, t0 := 0, acc := 0, laps := [])
  }

  /** `x | 0` for an integer `x`: the two's-complement 32-bit value of `x`. */
  function ToInt32(x: int): (r: int)
    ensures -Int32Max - 1 <= r <= Int32Max
    ensures (r - x) % Int32Modulus == 0
    ensures -Int32Max - 1 <= x <= Int32Max ==> r == x
  {
    var m := x % Int32Modulus;
    if m > Int32Max then m - Int32Modulus else m
  }

  /** `setCountdownTarget(ms)`: stores `max(0, ms | 0)`; elapsed time is untouched,
      so the remaining time is recomputed against the new target. */
  function SetCountdownTarget(e: Engine, ms: int): (r: Engine)
    ensures 0 <= r.targetMs <= Int32Max
    ensures -Int32Max - 1 <= ms <= Int32Max ==> r.targetMs == if ms < 0 then 0 else ms
    ensures r.running == e.running && r.t0 == e.t0 && r.acc == e.acc && r.laps == e.laps && r.mode == e.mode
    ensures forall now :: Elapsed(r, now) == Elapsed(e, now)
  {
    var v := ToInt32(ms);
    e.(targetMs := if v < 0 then 0 else v)
  }

  /** `lap()`: appends the next lap at the current elapsed time and returns it. */
  function TakeLap(e: Engine, now: int, stamp: string): (r: (Engine, Lap))
    ensures r.0.laps == e.laps + [r.1]
    ensures r.1.index == |e.laps| + 1
    ensures r.1.absoluteMs == Elapsed(e, now)
    ensures r.1.deltaMs == Elapsed(e, now) - LastAbsolute(e.laps)
    ensures r.1.timestampIso == stamp
    ensures r.0 == e.(laps := r.0.laps)
  {
    var laps' := Append(e.laps, NowMsAbsolute(e, now), stamp);
    (e.(laps := laps'), laps'[|e.laps|])
  }

  /** The delete button of one lap row: drops the lap at position `k`, renumbers the rest. */
  function RemoveLap(e: Engine, k: int): (r: Engine)
    ensures r.laps == Remove(e.laps, k)
    ensures DenseIndices(r.laps)
    ensures 0 <= k < |e.laps| ==> |r.laps| == |e.laps| - 1
    ensures r == e.(laps := r.laps)
  {
    e.(laps := Remove(e.laps, k))
  }

  /** The clear button: empties the lap list and nothing else. */
  function ClearLaps(e: Engine): (r: Engine)
    ensures r.laps == []
    ensures r == e.(laps := [])
  {
    e.(laps := [])
  }

  /** One frame of the redraw loop: a running countdown that shows 0 pauses itself. */
  function Tick(e: Engine, now: int): (r: Engine)
    ensures e.mode == Countdown && e.running && NowMs(e, now) <= 0 ==> !r.running
    ensures e.mode == Countdown && e.running && NowMs(e, now) <= 0 ==> r == Pause(e, now)
    ensures !(e.mode == Countdown && e.running && NowMs(e, now) <= 0) ==> r == e
    ensures forall later :: later >= now && r.running ==> Elapsed(r, later) == Elapsed(e, later)
    ensures Elapsed(r, now) == Elapsed(e, now)
  {
    if e.mode == Countdown && e.running && NowMs(e, now) <= 0 then Pause(e, now) else e
  }

  /** What the engine keeps true between operations, for a clock reading `now`. */
  predicate Inv(e: Engine, now: int) {
    && e.acc >= 0
    && e.targetMs >= 0
    && (e.running ==> e.t0 <= now)
    && DenseIndices(e.laps)
    && Monotone(e.laps)
    && LastAbsolute(e.laps) <= Elapsed(e, now)
  }

  /** Elapsed time never runs backwards while the clock moves forward. */
  lemma ElapsedMonotone(e: Engine, now: int, later: int)
    requires now <= later
    ensures Elapsed(e, now) <= Elapsed(e, later)
    ensures e.running ==> Elapsed(e, later) - Elapsed(e, now) == later - now
    ensures !e.running ==> Elapsed(e, later) == Elapsed(e, now)
  {
  }

  lemma InvElapsedNonNegative(e: Engine, now: int)
    requires Inv(e, now)
    ensures Elapsed(e, now) >= 0
  {
  }

  /** The invariant is kept as the clock advances. */
  lemma InvAdvances(e: Engine, now: int, later: int)
    requires Inv(e, now)
    requires now <= later
    ensures Inv(e, later)
  {
    ElapsedMonotone(e, now, later);
  }

  /** The countdown display never leaves `[0, targetMs]`. */
  lemma CountdownClamped(e: Engine, now: int)
    requires e.mode == Countdown
    requires Inv(e, now)
    ensures 0 <= NowMs(e, now) <= e.targetMs
  {
  }

  /** Pausing, waiting any gap, and resuming does not change the elapsed time;
      the pause only freezes it for the length of the gap. */
  lemma PauseResumeConserves(e: Engine, t1: int, t2: int, t3: int)
    requires e.running
    requires e.mode == Stopwatch || Elapsed(e, t1) < e.targetMs
    requires t1 <= t2 <= t3
    ensures Resume(Pause(e, t1), t2).running
    ensures Elapsed(Resume(Pause(e, t1), t2), t3) == Elapsed(e, t1) + (t3 - t2)
  {
  }

  /** The conservation scenario: run `a`, pause for `b`, run `c`, pause: `a + c` accrued. */
  lemma StartPauseResumePause(mode: Mode, target: int, t: int, a: nat, b: nat, c: nat)
    requires mode == Stopwatch || target > a
    ensures var e1 := Start(New(mode, target), t);
            var e2 := Pause(e1, t + a);
            var e3 := Resume(e2, t + a + b);
            var e4 := Pause(e3, t + a + b + c);
            !e4.running && e4.acc == a + c && Elapsed(e4, t + a + b + c) == a + c
  {
    var e2 := Pause(Start(New(mode, target), t), t + a);
    assert Elapsed(e2, t + a + b) == a;
  }

  /** A countdown that has expired stays stopped: the redraw loop pauses it and
      `resume()` refuses to reopen it at any later time. */
  lemma ExpiredCountdownStaysStopped(e: Engine, now: int, later: int)
    requires e.mode == Countdown && e.running
    requires NowMs(e, now) <= 0
    requires now <= later
    ensures !Tick(e, now).running
    ensures Resume(Tick(e, now), later) == Tick(e, now)
  {
    var p := Tick(e, now);
    assert Elapsed(p, later) == Elapsed(e, now);
  }

  /** A fresh five-second countdown, started at `t`, reads 0 at `t + 5000`; the
      next frame pauses it and `resume()` afterwards is a no-op. */
  lemma FiveSecondCountdown(t: int, later: int)
    requires later >= t + 5000
    ensures var e := Start(SetCountdownTarget(New(Countdown, 0), 5000), t);
            && NowMs(e, t + 5000) == 0
            && NowMs(e, t + 4999) == 1
            && !Tick(e, t + 5000).running
            && Resume(Tick(e, t + 5000), later) == Tick(e, t + 5000)
  {
    var e := Start(SetCountdownTarget(New(Countdown, 0), 5000), t);
    ExpiredCountdownStaysStopped(e, t + 5000, later);
  }

  /** In countdown mode the lap time rises exactly as fast as the display falls:
      while the countdown has not run out, the two always add up to the target,
      so the lap time gained between two readings is the display time lost. */
  lemma AbsoluteMirrorsCountdown(e: Engine, now: int, later: int)
    requires e.mode == Countdown
    requires now <= later
    requires NowMs(e, later) > 0
    ensures NowMsAbsolute(e, later) - NowMsAbsolute(e, now) == NowMs(e, now) - NowMs(e, later)
    ensures NowMsAbsolute(e, now) <= NowMsAbsolute(e, later)
  {
    ElapsedMonotone(e, now, later);
  }

  /** Every operation except reset leaves the elapsed time where it was at the
      moment it is applied; reset brings it to 0. */
  lemma OperationsKeepElapsed(e: Engine, now: int, ms: int, stamp: string, k: int)
    ensures Elapsed(Start(e, now), now) == Elapsed(e, now)
    ensures Elapsed(Pause(e, now), now) == Elapsed(e, now)
    ensures Elapsed(Resume(e, now), now) == Elapsed(e, now)
    ensures Elapsed(SetCountdownTarget(e, ms), now) == Elapsed(e, now)
    ensures Elapsed(TakeLap(e, now, stamp).0, now) == Elapsed(e, now)
    ensures Elapsed(RemoveLap(e, k), now) == Elapsed(e, now)
    ensures Elapsed(ClearLaps(e), now) == Elapsed(e, now)
    ensures Elapsed(Tick(e, now), now) == Elapsed(e, now)
    ensures Elapsed(Reset(e), now) == 0
  {
  }

  /** A lap taken from a well-formed engine keeps the lap list well-formed,
      including the delta law. */
  lemma TakeLapKeepsLaps(e: Engine, now: int, stamp: string)
    requires Inv(e, now)
    requires DeltaLaw(e.laps)
    ensures Inv(TakeLap(e, now, stamp).0, now)
    ensures DeltaLaw(TakeLap(e, now, stamp).0.laps)
    ensures TakeLap(e, now, stamp).1.deltaMs >= 0
  {
  }
}
