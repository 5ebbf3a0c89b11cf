/** The lap list kept by the time engine.

    A lap records the rising elapsed time at the moment it was taken and the
    interval since the previous lap. The list is kept with 1-based dense
    indices; removing a lap renumbers the survivors but leaves their deltas
    as they were recorded. */
module Laps {

  /** One lap record; `timestampIso` is an opaque wall-clock label. */
  datatype Lap = Lap(index: int, absoluteMs: int, deltaMs: int, timestampIso: string)

  /** `laps[i].index == i + 1` for every position. */
  predicate DenseIndices(laps: seq<Lap>) {
    forall i :: 0 <= i < |laps| ==> laps[i].index == i + 1
  }

  /** Absolute time of the lap before position `i`, or 0 before the first lap. */
  function PreviousAbsolute(laps: seq<Lap>, i: int): int
    requires 0 <= i <= |laps|
  {
    if i == 0 then 0 else laps[i - 1].absoluteMs
  }

  /** The delta law: each delta is the distance from the previous lap (or from 0). */
  predicate DeltaLawAt(laps: seq<Lap>, i: int)
    requires 0 <= i < |laps|
  {
    laps[i].deltaMs == laps[i].absoluteMs - PreviousAbsolute(laps, i)
  }

  predicate DeltaLaw(laps: seq<Lap>) {
    forall i :: 0 <= i < |laps| ==> DeltaLawAt(laps, i)
  }

  /** Absolute times never decrease along the list. */
  predicate Monotone(laps: seq<Lap>) {
    forall i, j :: 0 <= i <= j < |laps| ==> laps[i].absoluteMs <= laps[j].absoluteMs
  }

  /** Absolute time of the newest lap, or 0 when there is none. */
  function LastAbsolute(laps: seq<Lap>): int {
    PreviousAbsolute(laps, |laps|)
  }

  /** The record `lap()` appends when the elapsed time is `absoluteMs`. */
  function NextLap(laps: seq<Lap>, absoluteMs: int, stamp: string): (r: Lap)
    ensures r.absoluteMs == absoluteMs
    ensures r.index == |laps| + 1
    ensures r.deltaMs + LastAbsolute(laps) == absoluteMs
  {
    Lap(|laps| + 1, absoluteMs, absoluteMs - LastAbsolute(laps), stamp)
  }

  /** Appending the next lap keeps the list well-formed. */
  function Append(laps: seq<Lap>, absoluteMs: int, stamp: string): (r: seq<Lap>)
    ensures |r| == |laps| + 1 && r[..|laps|] == laps
    ensures r[|laps|].absoluteMs == absoluteMs
    ensures DenseIndices(laps) ==> DenseIndices(r)
    ensures DeltaLaw(laps) ==> DeltaLaw(r)
    ensures Monotone(laps) && LastAbsolute(laps) <= absoluteMs ==> Monotone(r)
    ensures LastAbsolute(r) == absoluteMs
  {
    var r := laps + [NextLap(laps, absoluteMs, stamp)];
    AppendKeepsDeltaLaw(laps, r);
    r
  }

  lemma AppendKeepsDeltaLaw(laps: seq<Lap>, r: seq<Lap>)
    requires |r| == |laps| + 1 && r[..|laps|] == laps
    requires r[|laps|].deltaMs + LastAbsolute(laps) == r[|laps|].absoluteMs
    ensures DeltaLaw(laps) ==> DeltaLaw(r)
  {
    if DeltaLaw(laps) {
      forall i | 0 <= i < |r|
        ensures DeltaLawAt(r, i)
      {
        if i < |laps| {
          assert r[i] == laps[i];
          assert DeltaLawAt(laps, i);
          assert i > 0 ==> r[i - 1] == laps[i - 1];
        }
      }
    }
  }

  /** The `map((x, i) => ({ ...x, index: i + 1 }))` step: renumber, keep the rest. */
  function Renumber(laps: seq<Lap>): (r: seq<Lap>)
    ensures |r| == |laps|
    ensures DenseIndices(r)
    ensures forall i :: 0 <= i < |r| ==> r[i] == laps[i].(index := i + 1)
  {
    seq(|laps|, i requires 0 <= i < |laps| => laps[i].(index := i + 1))
  }

  /** The record that lands at position `i` once position `k` is taken out. */
  function Survivor(laps: seq<Lap>, k: int, i: int): Lap
    requires 0 <= k < |laps|
    requires 0 <= i < |laps| - 1
  {
    if i < k then laps[i] else laps[i + 1]
  }

  /** Removing one lap (identified by its position `k`): filter it out, then renumber.
      A position that names no lap filters nothing, and the list is only renumbered. */
  function Remove(laps: seq<Lap>, k: int): (r: seq<Lap>)
    ensures 0 <= k < |laps| ==> |r| == |laps| - 1
    ensures !(0 <= k < |laps|) ==> r == Renumber(laps)
    ensures DenseIndices(r)
    ensures 0 <= k < |laps| ==>
      forall i :: 0 <= i < |r| ==> r[i] == Survivor(laps, k, i).(index := i + 1)
  {
    if 0 <= k < |laps| then Renumber(laps[..k] + laps[k + 1..]) else Renumber(laps)
  }

  /** Removal keeps the survivors' absolute times, so a monotone list stays monotone. */
  lemma RemoveKeepsMonotone(laps: seq<Lap>, k: int)
    requires Monotone(laps)
    ensures Monotone(Remove(laps, k))
    ensures |Remove(laps, k)| <= |laps|
    ensures |Remove(laps, k)| > 0 ==> LastAbsolute(Remove(laps, k)) <= LastAbsolute(laps)
  {
    var r := Remove(laps, k);
    if 0 <= k < |laps| {
      forall i, j | 0 <= i <= j < |r|
        ensures r[i].absoluteMs <= r[j].absoluteMs
      {
        var i' := if i < k then i else i + 1;
        var j' := if j < k then j else j + 1;
        assert r[i].absoluteMs == laps[i'].absoluteMs;
        assert r[j].absoluteMs == laps[j'].absoluteMs;
      }
      if |r| > 0 {
        assert r[|r| - 1].absoluteMs == Survivor(laps, k, |r| - 1).absoluteMs;
      }
    } else {
      assert forall i :: 0 <= i < |r| ==> r[i].absoluteMs == laps[i].absoluteMs;
    }
  }

  /** Removal does not recompute deltas: on a list obeying the delta law, the
      law survives exactly when the removed lap was the newest one or added no time. */
  lemma RemoveDeltaLaw(laps: seq<Lap>, k: int)
    requires DeltaLaw(laps)
    requires 0 <= k < |laps|
    ensures DeltaLaw(Remove(laps, k)) <==> (k == |laps| - 1 || laps[k].deltaMs == 0)
  {
    var r := Remove(laps, k);
    if k == |laps| - 1 || laps[k].deltaMs == 0 {
      forall i | 0 <= i < |r|
        ensures DeltaLawAt(r, i)
      {
        assert DeltaLawAt(laps, if i < k then i else i + 1);
        if i > k {
          assert PreviousAbsolute(r, i) == laps[i].absoluteMs;
        } else if i == k {
          assert DeltaLawAt(laps, k);
          assert PreviousAbsolute(r, i) == PreviousAbsolute(laps, k);
        } else {
          assert PreviousAbsolute(r, i) == PreviousAbsolute(laps, i);
        }
      }
    } else {
      assert k < |r|;
      assert DeltaLawAt(laps, k) && DeltaLawAt(laps, k + 1);
      assert PreviousAbsolute(r, k) == PreviousAbsolute(laps, k);
      assert !DeltaLawAt(r, k);
    }
  }

  /** Deltas of a monotone list obeying the delta law are never negative,
      as long as the first lap is not taken at a negative time. */
  lemma DeltasNonNegative(laps: seq<Lap>)
    requires DeltaLaw(laps) && Monotone(laps)
    requires |laps| > 0 ==> laps[0].absoluteMs >= 0
    ensures forall i :: 0 <= i < |laps| ==> laps[i].deltaMs >= 0
  {
    forall i | 0 <= i < |laps|
      ensures laps[i].deltaMs >= 0
    {
      assert DeltaLawAt(laps, i);
    }
  }
}
