/** Snapshot and restore of the engine record.

    The stored payload is modelled as an already-decoded record whose fields
    may each be missing; a payload that could not be decoded at all is
    `None`. Restoring folds the time spent away into `acc` and re-anchors the
    running segment at the restore instant, so the elapsed time carries on
    as if the engine had never stopped. */
module Persistence {
  import opened Laps
  import opened TimeEngine

  datatype Option<T> = None | Some(value: T)

  /** The value of a present field, or the fallback when the field is missing
      (the `x || fallback` idiom: a stored 0 or `false` reads the same as a missing one). */
  function OrElse<T>(o: Option<T>, fallback: T): T {
    match o
    case Some(v) => v
    case None => fallback
  }

  /** The stored state record, every field optional. */
  datatype Payload = Payload(
    mode: Option<Mode>,
    running: Option<bool>,
    t0: Option<int>,
    accumulated: Option<int>,
    targetMs: Option<int>,
    laps: Option<seq<Lap>>,
    lastPersistedAt: Option<int>)

  /** `getState()`: a snapshot of every field, stamped with `lastPersistedAt`. */
  function GetState(e: Engine, lastPersistedAt: int): (p: Payload)
    ensures p.mode.Some? && p.running.Some? && p.t0.Some? && p.accumulated.Some?
    ensures p.targetMs.Some? && p.laps.Some? && p.lastPersistedAt == Some(lastPersistedAt)
    ensures Decode(p) == e
  {
    Payload(Some(e.mode), Some(e.running), Some(e.t0), Some(e.acc), Some(e.targetMs), Some(e.laps),
            Some(lastPersistedAt))
  }

  /** The field-by-field reading of a payload, before the time away is accounted for. */
  function Decode(p: Payload): (e: Engine)
    ensures p.mode == None ==> e.mode == Stopwatch
    ensures p.running == None ==> !e.running
    ensures p.t0 == None ==> e.t0 == 0
    ensures p.accumulated == None ==> e.acc == 0
    ensures p.targetMs == None ==> e.targetMs == 0
    ensures p.laps == None ==> e.laps == []
    ensures p.mode.Some? ==> e.mode == p.mode.value
    ensures p.running.Some? ==> e.running == p.running.value
    ensures p.t0.Some? ==> e.t0 == p.t0.value
    ensures p.accumulated.Some? ==> e.acc == p.accumulated.value
    ensures p.targetMs.Some? ==> e.targetMs == p.targetMs.value
    ensures p.laps.Some? ==> e.laps == p.laps.value
  {
    Engine(
      OrElse(p.mode, Stopwatch),
      OrElse(p.running, false),
      OrElse(p.t0, 0),
      OrElse(p.accumulated, 0),
      OrElse(p.targetMs, 0),
      OrElse(p.laps, []))
  }

  /** The re-anchoring step: a running engine with a recorded start folds the
      segment up to `now` into `acc` and restarts the segment at `now`. */
  function Reanchor(e: Engine, now: int): (r: Engine)
    ensures r.running == e.running && r.mode == e.mode && r.targetMs == e.targetMs && r.laps == e.laps
    ensures Elapsed(r, now) == Elapsed(e, now)
    ensures forall later :: Elapsed(r, later) == Elapsed(e, later)
    ensures e.running && e.t0 != 0 ==> r.t0 == now
    ensures !(e.running && e.t0 != 0) ==> r == e
  {
    if e.running && e.t0 != 0 then e.(acc := e.acc + (now - e.t0), t0 := now) else e
  }

  /** `fromJSON(json)` at clock reading `now`: an undecodable payload leaves the
      engine as it was; otherwise every field is replaced and the run re-anchored. */
  function Restore(e: Engine, payload: Option<Payload>, now: int): (r: Engine)
    ensures payload == None ==> r == e
    ensures payload.Some? ==>
      var d := Decode(payload.value);
      && r.mode == d.mode && r.running == d.running && r.targetMs == d.targetMs && r.laps == d.laps
      && (forall t :: Elapsed(r, t) == Elapsed(d, t))
      && (d.running && d.t0 != 0 ==> r.t0 == now)
      && (!(d.running && d.t0 != 0) ==> r == d)
  {
    match payload
    case None => e
    case Some(p) => Reanchor(Decode(p), now)
  }

  /** Restore continuity: a running engine stored with `acc = A` and start `t0`,
      restored at `t1`, is still running and shows `A + (t1 - t0)` elapsed. */
  lemma RestoreContinuity(e: Engine, p: Payload, t1: int)
    requires p.running == Some(true)
    requires p.t0.Some? && p.t0.value != 0
    ensures Restore(e, Some(p), t1).running
    ensures Restore(e, Some(p), t1).t0 == t1
    ensures Restore(e, Some(p), t1).acc == OrElse(p.accumulated, 0) + (t1 - p.t0.value)
    ensures Elapsed(Restore(e, Some(p), t1), t1) == OrElse(p.accumulated, 0) + (t1 - p.t0.value)
  {
  }

  /** A payload marked running but with no recorded start is not re-anchored:
      the restored run counts from clock reading 0, so its elapsed time
      includes the whole clock reading. */
  lemma RestoreWithoutStart(e: Engine, p: Payload, now: int)
    requires p.running == Some(true)
    requires OrElse(p.t0, 0) == 0
    ensures Restore(e, Some(p), now).running
    ensures Restore(e, Some(p), now).t0 == 0
    ensures Elapsed(Restore(e, Some(p), now), now) == OrElse(p.accumulated, 0) + now
  {
  }

  /** Storing then restoring gives back the same engine up to the re-anchoring:
      same mode, run state, target and laps, and the same elapsed and visible
      time at every later instant. An idle engine comes back unchanged. */
  lemma SnapshotRoundTrip(e: Engine, any: Engine, stamp: int, now: int, later: int)
    ensures var r := Restore(any, Some(GetState(e, stamp)), now);
            && r.mode == e.mode && r.running == e.running && r.targetMs == e.targetMs && r.laps == e.laps
            && Elapsed(r, later) == Elapsed(e, later)
            && NowMs(r, later) == NowMs(e, later)
    ensures !e.running ==> Restore(any, Some(GetState(e, stamp)), now) == e
  {
  }

  /** A restored engine keeps the invariant when the stored state had it and
      the clock has not gone back past the stored start. */
  lemma RestoreKeepsInv(e: Engine, any: Engine, stamp: int, storedAt: int, now: int)
    requires Inv(e, storedAt)
    requires storedAt <= now
    ensures Inv(Restore(any, Some(GetState(e, stamp)), now), now)
  {
    InvAdvances(e, storedAt, now);
    var r := Restore(any, Some(GetState(e, stamp)), now);
    assert r.running ==> r.t0 <= now;
  }

  /** A clock that reads earlier at restore than the stored start (the clock is
      not monotone across restarts) makes re-anchoring take time away: `acc`
      drops by the difference, and once that exceeds what was accrued, `acc`
      goes negative and the invariant no longer holds. Elapsed time at `now`
      still agrees with the stored engine's formula. */
  lemma RestoreBeforeStart(e: Engine, any: Engine, stamp: int, now: int)
    requires e.running && e.t0 != 0
    requires now < e.t0
    ensures var r := Restore(any, Some(GetState(e, stamp)), now);
            && r.running && r.t0 == now
            && r.acc == e.acc - (e.t0 - now) && r.acc < e.acc
            && Elapsed(r, now) == Elapsed(e, now)
    ensures e.acc < e.t0 - now ==> !Inv(Restore(any, Some(GetState(e, stamp)), now), now)
  {
  }

  /** The concrete case: a stopwatch started at 1000 with nothing accrued,
      restored at clock reading 500, ends up with `acc == -500`. */
  lemma RestoreBeforeStartExample(any: Engine, stamp: int)
    ensures Inv(Engine(Stopwatch, true, 1000, 0, 0, []), 1000)
    ensures Restore(any, Some(GetState(Engine(Stopwatch, true, 1000, 0, 0, []), stamp)), 500).acc == -500
    ensures !Inv(Restore(any, Some(GetState(Engine(Stopwatch, true, 1000, 0, 0, []), stamp)), 500), 500)
  {
    RestoreBeforeStart(Engine(Stopwatch, true, 1000, 0, 0, []), any, stamp, 500);
  }

  /** The defaults of a payload that holds no fields at all: an idle stopwatch at 0. */
  lemma EmptyPayloadDefaults(e: Engine, now: int)
    ensures Restore(e, Some(Payload(None, None, None, None, None, None, None)), now) == New(Stopwatch, 0)
  {
  }
}
