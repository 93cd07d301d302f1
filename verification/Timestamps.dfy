/**
 RTP timestamps of the recorder: 32-bit unwrapping, and the repair that makes the presentation
 timestamps of the video stream strictly increasing.
 */
module Timestamps {

  const CYCLE: int := 0x1_0000_0000
  const HALF: int := 0x8000_0000
  const U64: int := 0x1_0000_0000_0000_0000

  type u32 = t: int | 0 <= t < CYCLE

  // ---------------------------------------------------------------------------
  // Unwrapping
  // ---------------------------------------------------------------------------

  /** The reference parameters of unwrapTimestamp. */
  datatype Clock = Clock(last: u32, wraps: nat)

  function Advance(c: Clock, ts: u32): Clock {
    if ts < c.last then
      Clock(ts, if c.last - ts > HALF then c.wraps + 1 else c.wraps)
    else
      Clock(ts, if ts - c.last > HALF && c.wraps > 0 then c.wraps - 1 else c.wraps)
  }

  /** The value returned once the clock has advanced; the sum is taken in 64 bits. */
  function Elapsed(c: Clock, base: u32): nat {
    var ticks := (c.wraps * CYCLE + c.last) % U64;
    if ticks >= base then ticks - base else 0
  }

  method UnwrapTimestamp(ts: u32, baseTs: u32, lastTs: u32, wrapCount: nat)
    returns (ticks: nat, newLastTs: u32, newWrapCount: nat)
    ensures Clock(newLastTs, newWrapCount) == Advance(Clock(lastTs, wrapCount), ts)
    ensures ticks == Elapsed(Clock(newLastTs, newWrapCount), baseTs)
  {
    newWrapCount := wrapCount;
    if ts < lastTs {
      if lastTs - ts > HALF {
        newWrapCount := newWrapCount + 1;
      }
    } else if ts - lastTs > HALF && newWrapCount > 0 {
      newWrapCount := newWrapCount - 1;
    }
    newLastTs := ts;
    ticks := (newWrapCount * CYCLE + ts) % U64;
    ticks := if ticks >= baseTs then ticks - baseTs else 0;
  }

  function Low(t: int): u32 {
    t % CYCLE
  }

  /** The clock after unwrapping the low 32 bits of each of `ticks`, from a fresh clock at `base`. */
  function RunClock(base: int, ticks: seq<int>): Clock {
    if ticks == [] then Clock(Low(base), 0)
    else Advance(RunClock(base, ticks[..|ticks| - 1]), Low(ticks[|ticks| - 1]))
  }

  function LastTick(base: int, ticks: seq<int>): int {
    if ticks == [] then base else ticks[|ticks| - 1]
  }

  /** Consecutive true values, the base included, are less than half a cycle apart. */
  ghost predicate SmallSteps(base: int, ticks: seq<int>) {
    forall i :: 0 <= i < |ticks| ==>
      -HALF < ticks[i] - LastTick(base, ticks[..i]) < HALF
  }

  /** The lowest 2^32 cycle reached so far. */
  function LowestCycle(base: int, ticks: seq<int>): int {
    if ticks == [] then base / CYCLE
    else
      var before, now := LowestCycle(base, ticks[..|ticks| - 1]), ticks[|ticks| - 1] / CYCLE;
      if now < before then now else before
  }

  lemma AdvanceTracks(c: Clock, from: int, to: int, lowest: int)
    requires c.last == Low(from) && c.wraps == from / CYCLE - lowest
    requires -HALF < to - from < HALF
    ensures Advance(c, Low(to)).wraps == to / CYCLE - if to / CYCLE < lowest then to / CYCLE else lowest
  {
    assert from == CYCLE * (from / CYCLE) + Low(from);
    assert to == CYCLE * (to / CYCLE) + Low(to);
  }

  /** On every run the clock counts from the lowest cycle reached so far. */
  lemma {:induction false} ClockCountsFromLowestCycle(base: int, ticks: seq<int>)
    requires SmallSteps(base, ticks)
    ensures var c := RunClock(base, ticks);
            && c.last == Low(LastTick(base, ticks))
            && c.wraps == LastTick(base, ticks) / CYCLE - LowestCycle(base, ticks)
            && c.wraps * CYCLE + c.last == LastTick(base, ticks) - CYCLE * LowestCycle(base, ticks)
  {
    if ticks != [] {
      var n := |ticks| - 1;
      var prefix := ticks[..n];
      forall i | 0 <= i < n ensures prefix[..i] == ticks[..i] {}
      ClockCountsFromLowestCycle(base, prefix);
      AdvanceTracks(RunClock(base, prefix), LastTick(base, prefix), ticks[n], LowestCycle(base, prefix));
    }
  }

  function Max(a: int, b: int): int {
    if a >= b then a else b
  }

  /** No value has dropped below the cycle of the base. */
  ghost predicate StaysInCycle(base: int, ticks: seq<int>) {
    forall i :: 0 <= i < |ticks| ==> ticks[i] / CYCLE >= base / CYCLE
  }

  lemma {:induction false} LowestIsBaseCycle(base: int, ticks: seq<int>)
    ensures LowestCycle(base, ticks) <= base / CYCLE
    ensures LowestCycle(base, ticks) == base / CYCLE <==> StaysInCycle(base, ticks)
  {
    if ticks != [] {
      var prefix := ticks[..|ticks| - 1];
      LowestIsBaseCycle(base, prefix);
      assert forall i :: 0 <= i < |prefix| ==> prefix[i] == ticks[i];
      assert StaysInCycle(base, ticks) <==> StaysInCycle(base, prefix) && ticks[|ticks| - 1] / CYCLE >= base / CYCLE;
    }
  }

  /** What repeated unwrapping returns after `ticks`. */
  function Unwrapped(base: int, ticks: seq<int>): nat {
    Elapsed(RunClock(base, ticks), Low(base))
  }

  /**
   Unwrapping returns the true distance from the base at every step, for every run that stays
   in or above the cycle of the base.
   */
  lemma UnwrapIsExact(base: int, ticks: seq<int>, n: nat)
    requires n <= |ticks| && SmallSteps(base, ticks) && StaysInCycle(base, ticks)
    requires LastTick(base, ticks[..n]) < CYCLE * (base / CYCLE) + U64
    ensures Unwrapped(base, ticks[..n]) == Max(0, LastTick(base, ticks[..n]) - base)
  {
    var prefix := ticks[..n];
    forall i | 0 <= i < n ensures prefix[..i] == ticks[..i] {}
    LowestIsBaseCycle(base, prefix);
    UnwrapIsExactIff(base, prefix);
  }

  /**
   For every run at all: the result is the true distance exactly when the run has not dropped
   below the cycle of the base, or still reads as at or before the base counted from the lowest
   cycle it has reached.
   */
  lemma {:induction false} UnwrapIsExactIff(base: int, ticks: seq<int>)
    requires SmallSteps(base, ticks)
    requires LastTick(base, ticks) < CYCLE * LowestCycle(base, ticks) + U64
    ensures Unwrapped(base, ticks) == Max(0, LastTick(base, ticks) - base) <==>
            StaysInCycle(base, ticks) || LastTick(base, ticks) - CYCLE * LowestCycle(base, ticks) <= Low(base)
  {
    ClockCountsFromLowestCycle(base, ticks);
    LowestIsBaseCycle(base, ticks);
    var t, lowest := LastTick(base, ticks), LowestCycle(base, ticks);
    ElapsedWithinRange(RunClock(base, ticks), Low(base));
    DistanceAcrossCycles(base, t, lowest);
  }

  lemma ElapsedWithinRange(c: Clock, base: u32)
    requires c.wraps * CYCLE + c.last < U64
    ensures Elapsed(c, base) == Max(0, c.wraps * CYCLE + c.last - base)
  {
  }

  lemma DistanceAcrossCycles(base: int, t: int, lowest: int)
    requires lowest <= base / CYCLE
    ensures Max(0, t - CYCLE * lowest - Low(base)) == Max(0, t - base) <==>
            lowest == base / CYCLE || t - CYCLE * lowest <= Low(base)
  {
    assert base == CYCLE * (base / CYCLE) + Low(base);
    if lowest < base / CYCLE {
      assert CYCLE * lowest <= CYCLE * (base / CYCLE) - CYCLE;
    }
  }

  /** A packet from just before the base, reordered across a cycle boundary, lands 2^32 ticks late. */
  lemma ReorderedFirstPacketIsMisplaced()
    ensures var base, earlier := CYCLE + 5, CYCLE - 10;
            SmallSteps(base, [earlier]) && Unwrapped(base, [earlier]) == CYCLE - 15 != Max(0, earlier - base)
  {
    var base, earlier := CYCLE + 5, CYCLE - 10;
    assert [earlier][..0] == [];
    assert RunClock(base, []) == Clock(5, 0);
    assert RunClock(base, [earlier]) == Advance(Clock(5, 0), Low(earlier));
  }

  // ---------------------------------------------------------------------------
  // Strictly increasing presentation timestamps
  // ---------------------------------------------------------------------------

  /** The repair in flushVideoFrame; -1 stands for "no frame written yet". */
  function RepairPts(last: int, pts: int): int {
    if last != -1 && pts <= last then last + 1 else pts
  }

  /** The timestamps emitted for the clamped timestamps `raw`. */
  function Emitted(raw: seq<nat>): (pts: seq<int>)
    ensures |pts| == |raw|
  {
    if raw == [] then []
    else
      var before := Emitted(raw[..|raw| - 1]);
      before + [RepairPts(if before == [] then -1 else before[|before| - 1], raw[|raw| - 1])]
  }

  /** max over j <= n of raw[j] + n - j */
  function Envelope(raw: seq<nat>, n: nat): int
    requires n < |raw|
  {
    if n == 0 then raw[0] else Max(raw[n], Envelope(raw, n - 1) + 1)
  }

  lemma {:induction false} EnvelopeIsMaximum(raw: seq<nat>, n: nat)
    requires n < |raw|
    ensures forall j :: 0 <= j <= n ==> raw[j] + n - j <= Envelope(raw, n)
    ensures exists j :: 0 <= j <= n && raw[j] + n - j == Envelope(raw, n)
  {
    if n == 0 {
      assert raw[0] + 0 - 0 == Envelope(raw, 0);
    } else {
      EnvelopeIsMaximum(raw, n - 1);
      var j :| 0 <= j <= n - 1 && raw[j] + (n - 1) - j == Envelope(raw, n - 1);
      assert raw[j] + n - j == Envelope(raw, n - 1) + 1;
      assert raw[n] + n - n == raw[n];
    }
  }

  lemma {:induction false} EmittedIsEnvelope(raw: seq<nat>, n: nat)
    requires n < |raw|
    ensures Emitted(raw)[n] == Envelope(raw, n) >= 0
    decreases |raw|
  {
    var m := |raw| - 1;
    var prefix := raw[..m];
    if n < m {
      EmittedIsEnvelope(prefix, n);
      EnvelopeOfPrefix(raw, m, n);
    } else if m > 0 {
      EmittedIsEnvelope(prefix, m - 1);
      EnvelopeOfPrefix(raw, m, m - 1);
    }
  }

  lemma {:induction false} EnvelopeOfPrefix(raw: seq<nat>, m: nat, n: nat)
    requires n < m <= |raw|
    ensures Envelope(raw[..m], n) == Envelope(raw, n)
  {
    if n > 0 { EnvelopeOfPrefix(raw, m, n - 1); }
  }

  /**
   The emitted sequence is strictly increasing, nowhere below the raw one, equal to
   max over j <= n of raw[j] + n - j, and below every other strictly increasing sequence
   that dominates the raw one.
   */
  lemma EmittedIsLeastIncreasing(raw: seq<nat>, other: seq<int>, n: nat)
    requires n < |raw| == |other|
    requires forall i :: 0 <= i < |raw| ==> raw[i] <= other[i]
    requires forall i :: 0 < i < |raw| ==> other[i - 1] < other[i]
    ensures raw[n] <= Emitted(raw)[n] <= other[n]
    ensures n > 0 ==> Emitted(raw)[n - 1] < Emitted(raw)[n]
    ensures forall j :: 0 <= j <= n ==> raw[j] + n - j <= Emitted(raw)[n]
    ensures exists j :: 0 <= j <= n && raw[j] + n - j == Emitted(raw)[n]
  {
    EmittedIsEnvelope(raw, n);
    EnvelopeIsMaximum(raw, n);
    EnvelopeIsBelow(raw, other, n);
    if n > 0 { EmittedIsEnvelope(raw, n - 1); }
  }

  lemma {:induction false} EnvelopeIsBelow(raw: seq<nat>, other: seq<int>, n: nat)
    requires n < |raw| == |other|
    requires forall i :: 0 <= i < |raw| ==> raw[i] <= other[i]
    requires forall i :: 0 < i < |raw| ==> other[i - 1] < other[i]
    ensures Envelope(raw, n) <= other[n]
  {
    if n > 0 { EnvelopeIsBelow(raw, other, n - 1); }
  }
}
