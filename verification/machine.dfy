/** The engine as a state machine over timed operations.

    `Step` is the state × operation table; `Run` replays a sequence of
    operations, each stamped with the clock reading at which it happened.
    Two whole-history facts are proved over any replay: the invariant and
    the delta law are kept, and the elapsed time equals the total time the
    engine spent running since the last reset. */
module Machine {
  import opened Laps
  import TimeEngine

  type Engine = TimeEngine.Engine

  /** Every way the engine can change: the engine's own operations, the lap
      list's delete and clear buttons, and the redraw loop's frame. */
  datatype Op =
    | Start
    | Pause
    | Resume
    | Reset
    | SetTarget(ms: int)
    | TakeLap(stamp: string)
    | RemoveLap(k: int)
    | ClearLaps
    | Tick

  datatype Event = Event(op: Op, at: int)

  /** One transition at clock reading `now`. */
  function Step(e: Engine, op: Op, now: int): (r: Engine)
    ensures !op.Reset? ==> TimeEngine.Elapsed(r, now) == TimeEngine.Elapsed(e, now)
    ensures op.Reset? ==> !r.running && TimeEngine.Elapsed(r, now) == 0
    ensures r.mode == e.mode
    ensures TimeEngine.Inv(e, now) ==> TimeEngine.Inv(r, now)
    ensures !op.RemoveLap? && DeltaLaw(e.laps) ==> DeltaLaw(r.laps)
  {
    var r := match op
      case Start => TimeEngine.Start(e, now)
      case Pause => TimeEngine.Pause(e, now)
      case Resume => TimeEngine.Resume(e, now)
      case Reset => TimeEngine.Reset(e)
      case SetTarget(ms) => TimeEngine.SetCountdownTarget(e, ms)
      case TakeLap(stamp) => TimeEngine.TakeLap(e, now, stamp).0
      case RemoveLap(k) => TimeEngine.RemoveLap(e, k)
      case ClearLaps => TimeEngine.ClearLaps(e)
      case Tick => TimeEngine.Tick(e, now);
    StepKeepsInv(e, op, now, r);
    r
  }

  lemma StepKeepsInv(e: Engine, op: Op, now: int, r: Engine)
    requires op.Start? ==> r == TimeEngine.Start(e, now)
    requires op.Pause? ==> r == TimeEngine.Pause(e, now)
    requires op.Resume? ==> r == TimeEngine.Resume(e, now)
    requires op.Reset? ==> r == TimeEngine.Reset(e)
    requires op.SetTarget? ==> r == TimeEngine.SetCountdownTarget(e, op.ms)
    requires op.TakeLap? ==> r == TimeEngine.TakeLap(e, now, op.stamp).0
    requires op.RemoveLap? ==> r == TimeEngine.RemoveLap(e, op.k)
    requires op.ClearLaps? ==> r == TimeEngine.ClearLaps(e)
    requires op.Tick? ==> r == TimeEngine.Tick(e, now)
    ensures TimeEngine.Inv(e, now) ==> TimeEngine.Inv(r, now)
    ensures !op.RemoveLap? && DeltaLaw(e.laps) ==> DeltaLaw(r.laps)
  {
    if TimeEngine.Inv(e, now) {
      TimeEngine.InvElapsedNonNegative(e, now);
      if op.RemoveLap? {
        RemoveKeepsMonotone(e.laps, op.k);
      }
    }
  }

  /** Replays the events in order. */
  function Run(e: Engine, events: seq<Event>): Engine
    decreases |events|
  {
    if |events| == 0 then e else Run(Step(e, events[0].op, events[0].at), events[1..])
  }

  /** The clock readings never go backwards, starting from `from`. */
  predicate Ordered(events: seq<Event>, from: int) {
    && (forall i :: 0 <= i < |events| ==> from <= events[i].at)
    && (forall i, j :: 0 <= i <= j < |events| ==> events[i].at <= events[j].at)
  }

  predicate HasReset(events: seq<Event>) {
    exists i :: 0 <= i < |events| && events[i].op.Reset?
  }

  predicate HasRemoval(events: seq<Event>) {
    exists i :: 0 <= i < |events| && events[i].op.RemoveLap?
  }

  /** The clock reading the replay starts from: the first event's, or `now`. */
  function FirstAt(events: seq<Event>, now: int): int {
    if |events| == 0 then now else events[0].at
  }

  /** Total time, up to `now`, during which the engine was running, counting only
      what happened after the last reset: each event contributes the time from
      itself to the next event (or to `now`) if it left the engine running. */
  function RunningTime(e: Engine, events: seq<Event>, now: int): int
    decreases |events|
  {
    if |events| == 0 then 0
    else
      var e1 := Step(e, events[0].op, events[0].at);
      var until := if |events| == 1 then now else events[1].at;
      var segment := if e1.running then until - events[0].at else 0;
      var rest := RunningTime(e1, events[1..], now);
      if HasReset(events[1..]) then rest else segment + rest
  }

  lemma HasResetCons(events: seq<Event>)
    requires |events| > 0
    ensures HasReset(events) <==> events[0].op.Reset? || HasReset(events[1..])
  {
    if HasReset(events) && !events[0].op.Reset? {
      var i :| 0 <= i < |events| && events[i].op.Reset?;
      assert events[1..][i - 1] == events[i];
    }
    if HasReset(events[1..]) {
      var i :| 0 <= i < |events| - 1 && events[1..][i].op.Reset?;
      assert events[i + 1] == events[1..][i];
    }
  }

  /** Elapsed time is exactly the time spent running since the last reset,
      plus, when no reset happened, what had already elapsed when replay began. */
  lemma {:induction false} ElapsedIsRunningTime(e: Engine, events: seq<Event>, now: int)
    ensures TimeEngine.Elapsed(Run(e, events), now)
            == (if HasReset(events) then 0 else TimeEngine.Elapsed(e, FirstAt(events, now)))
               + RunningTime(e, events, now)
    decreases |events|
  {
    if |events| > 0 {
      var ev := events[0];
      var e1 := Step(e, ev.op, ev.at);
      var rest := events[1..];
      var until := FirstAt(rest, now);
      HasResetCons(events);
      ElapsedIsRunningTime(e1, rest, now);
      TimeEngine.ElapsedMonotone(e1, ev.at, if until >= ev.at then until else ev.at);
      assert TimeEngine.Elapsed(e1, until)
             == TimeEngine.Elapsed(e1, ev.at) + (if e1.running then until - ev.at else 0);
    }
  }

  /** From a freshly loaded engine, elapsed time is the running time alone. */
  lemma FreshElapsedIsRunningTime(mode: TimeEngine.Mode, target: int, events: seq<Event>, now: int)
    ensures TimeEngine.Elapsed(Run(TimeEngine.New(mode, target), events), now)
            == RunningTime(TimeEngine.New(mode, target), events, now)
  {
    ElapsedIsRunningTime(TimeEngine.New(mode, target), events, now);
  }

  /** Any replay with a forward-moving clock keeps the engine invariant. */
  lemma {:induction false} RunKeepsInv(e: Engine, events: seq<Event>, from: int, now: int)
    requires TimeEngine.Inv(e, from)
    requires Ordered(events, from)
    requires |events| > 0 ==> events[|events| - 1].at <= now
    requires |events| == 0 ==> from <= now
    ensures TimeEngine.Inv(Run(e, events), now)
    decreases |events|
  {
    if |events| == 0 {
      TimeEngine.InvAdvances(e, from, now);
    } else {
      var ev := events[0];
      TimeEngine.InvAdvances(e, from, ev.at);
      var e1 := Step(e, ev.op, ev.at);
      assert Ordered(events[1..], ev.at);
      RunKeepsInv(e1, events[1..], ev.at, now);
    }
  }

  /** The engine's own operations never break the delta law; only the lap
      list's delete button can. */
  lemma {:induction false} RunKeepsDeltaLaw(e: Engine, events: seq<Event>)
    requires DeltaLaw(e.laps)
    requires !HasRemoval(events)
    ensures DeltaLaw(Run(e, events).laps)
    decreases |events|
  {
    if |events| > 0 {
      assert !events[0].op.RemoveLap?;
      var rest := events[1..];
      RunKeepsDeltaLaw(Step(e, events[0].op, events[0].at), rest);
    }
  }

  /** On a forward-moving clock and without resets, elapsed time never decreases
      over a replay. */
  lemma {:induction false} RunNeverLosesTime(e: Engine, events: seq<Event>, from: int, now: int)
    requires Ordered(events, from)
    requires |events| > 0 ==> events[|events| - 1].at <= now
    requires from <= now
    requires !HasReset(events)
    ensures TimeEngine.Elapsed(e, from) <= TimeEngine.Elapsed(Run(e, events), now)
    decreases |events|
  {
    if |events| == 0 {
      TimeEngine.ElapsedMonotone(e, from, now);
    } else {
      var ev := events[0];
      HasResetCons(events);
      TimeEngine.ElapsedMonotone(e, from, ev.at);
      assert Ordered(events[1..], ev.at);
      RunNeverLosesTime(Step(e, ev.op, ev.at), events[1..], ev.at, now);
    }
  }
}
