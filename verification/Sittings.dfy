/**
 The sitting rule on a plain list of timestamps in log order: a step forward of half an hour
 or more ends a sitting, and on the active axis that step takes no time at all. A step
 backward (clock skew) never ends one.
 */
module Sittings {
  import opened Basics

  const SITTING_GAP_MS: int := 1_800_000

  predicate EndsSitting(prevAt: int, at: int) { at - prevAt >= SITTING_GAP_MS }

  /** All the idle time folded away up to and including the last timestamp. */
  function Shift(ts: seq<int>): (r: int)
    ensures r >= 0
  {
    if |ts| < 2 then 0
    else
      var a, b := ts[|ts| - 2], ts[|ts| - 1];
      Shift(ts[..|ts| - 1]) + (if EndsSitting(a, b) then b - a else 0)
  }

  /** How many sittings ended before the last timestamp: its zero-based sitting number. */
  function SittingOf(ts: seq<int>): nat {
    if |ts| < 2 then 0
    else SittingOf(ts[..|ts| - 1]) + (if EndsSitting(ts[|ts| - 2], ts[|ts| - 1]) then 1 else 0)
  }

  function SittingCount(ts: seq<int>): nat {
    if ts == [] then 0 else SittingOf(ts) + 1
  }

  /** Each timestamp on the axis with the idle time folded away. */
  function ActiveTimes(ts: seq<int>): (r: seq<int>)
    ensures |r| == |ts|
  {
    seq(|ts|, i requires 0 <= i < |ts| => ts[i] - Shift(ts[..i + 1]))
  }

  ghost predicate Gapless(ts: seq<int>) {
    forall i :: 0 <= i < |ts| - 1 ==> !EndsSitting(ts[i], ts[i + 1])
  }

  lemma ShiftStep(ts: seq<int>, i: nat)
    requires i + 1 < |ts|
    ensures Shift(ts[..i + 2]) ==
      Shift(ts[..i + 1]) + (if EndsSitting(ts[i], ts[i + 1]) then ts[i + 1] - ts[i] else 0)
    ensures SittingOf(ts[..i + 2]) == SittingOf(ts[..i + 1]) + (if EndsSitting(ts[i], ts[i + 1]) then 1 else 0)
  {
    assert ts[..i + 2][..i + 1] == ts[..i + 1];
  }

  /** Consecutive active times keep a short step as it was and turn a long one into none. */
  lemma ActiveGaps(ts: seq<int>)
    ensures forall i :: 0 <= i < |ts| - 1 ==>
      ActiveTimes(ts)[i + 1] - ActiveTimes(ts)[i] ==
        (if ts[i + 1] - ts[i] >= 1_800_000 then 0 else ts[i + 1] - ts[i])
    ensures ts != [] ==> ActiveTimes(ts)[0] == ts[0]
    ensures Gapless(ActiveTimes(ts))
  {
    forall i | 0 <= i < |ts| - 1
      ensures ActiveTimes(ts)[i + 1] - ActiveTimes(ts)[i] ==
        (if ts[i + 1] - ts[i] >= 1_800_000 then 0 else ts[i + 1] - ts[i])
    {
      ShiftStep(ts, i);
    }
  }

  lemma {:induction false} GaplessShiftsNothing(ts: seq<int>)
    requires Gapless(ts)
    ensures Shift(ts) == 0 && SittingOf(ts) == 0
  {
    if |ts| >= 2 {
      assert Gapless(ts[..|ts| - 1]);
      GaplessShiftsNothing(ts[..|ts| - 1]);
      assert !EndsSitting(ts[|ts| - 2], ts[|ts| - 2 + 1]);
    }
  }

  /** A log with no long step is untouched, and folding twice is folding once. */
  lemma GaplessIsIdentity(ts: seq<int>)
    requires Gapless(ts)
    ensures ActiveTimes(ts) == ts && SittingCount(ts) <= 1
  {
    forall i | 0 <= i < |ts| ensures ActiveTimes(ts)[i] == ts[i] {
      assert Gapless(ts[..i + 1]);
      GaplessShiftsNothing(ts[..i + 1]);
    }
    GaplessShiftsNothing(ts);
  }

  lemma FoldingTwiceIsFoldingOnce(ts: seq<int>)
    ensures ActiveTimes(ActiveTimes(ts)) == ActiveTimes(ts)
  {
    ActiveGaps(ts);
    GaplessIsIdentity(ActiveTimes(ts));
  }

  predicate LongStep(ts: seq<int>, i: int) {
    0 <= i < |ts| - 1 && ts[i + 1] - ts[i] >= 1_800_000
  }

  /** The steps of half an hour or more, by the index of the timestamp before each. */
  ghost function LongSteps(ts: seq<int>): set<int> {
    set i | 0 <= i < |ts| && LongStep(ts, i)
  }

  /** All the time those steps took, added up from the front. */
  ghost function IdleIn(ts: seq<int>): int {
    if |ts| < 2 then 0
    else (if ts[1] - ts[0] >= 1_800_000 then ts[1] - ts[0] else 0) + IdleIn(ts[1..])
  }

  lemma {:induction false} IdleAtTheEnd(ts: seq<int>)
    requires |ts| >= 2
    ensures
      var n := |ts| - 1;
      IdleIn(ts) == IdleIn(ts[..n]) + (if ts[n] - ts[n - 1] >= 1_800_000 then ts[n] - ts[n - 1] else 0)
  {
    if |ts| > 2 {
      IdleAtTheEnd(ts[1..]);
      assert ts[1..][..|ts| - 2] == ts[..|ts| - 1][1..];
    }
  }

  lemma LongStepsAtTheEnd(ts: seq<int>)
    requires |ts| >= 2
    ensures
      var n := |ts| - 1;
      |LongSteps(ts)| == |LongSteps(ts[..n])| + (if LongStep(ts, n - 1) then 1 else 0)
  {
    var n := |ts| - 1;
    assert forall i :: LongStep(ts, i) <==> LongStep(ts[..n], i) || (i == n - 1 && LongStep(ts, n - 1));
    assert LongSteps(ts) == LongSteps(ts[..n]) + if LongStep(ts, n - 1) then {n - 1} else {};
  }

  /** What is folded away is the long steps, and they are what parts one sitting from the next. */
  lemma {:induction false} FoldedIsIdle(ts: seq<int>)
    ensures Shift(ts) == IdleIn(ts)
    ensures SittingCount(ts) == if ts == [] then 0 else |LongSteps(ts)| + 1
  {
    hide LongSteps;
    if |ts| < 2 {
      NoLongStep(ts);
    } else {
      FoldedIsIdle(ts[..|ts| - 1]);
      IdleAtTheEnd(ts);
      LongStepsAtTheEnd(ts);
    }
  }

  lemma NoLongStep(ts: seq<int>)
    requires |ts| < 2
    ensures LongSteps(ts) == {}
  {}

  // --- Completion statistics ---

  /** The whole seconds nearest to that many milliseconds, halves up; none for a time that ran backward. */
  ghost predicate RoundsTo(ms: int, seconds: nat) {
    if ms < 0 then seconds == 0 else -500 <= ms - 1000 * seconds < 500
  }

  /** Rounding to whole seconds, halves up, never below zero. */
  function Seconds(ms: int): nat { if ms + 500 < 0 then 0 else (ms + 500) / 1000 }

  datatype SolveTimes = SolveTimes(solve: nat, active: nat, sittings: nat)

  /** The three clock readings frozen at completion. */
  method SolveTimesOf(firstFillAt: Option<int>, completedAt: int, eventAtMs: seq<int>) returns (r: SolveTimes)
    ensures r == SolveTimesSpec(firstFillAt, completedAt, eventAtMs)
    ensures TellsTheTimes(firstFillAt, completedAt, eventAtMs, r)
  {
    var solve := if firstFillAt.None? then 0 else Seconds(completedAt - firstFillAt.value);
    var collapsedMs := 0;
    var sittingCount := if |eventAtMs| == 0 then 0 else 1;
    var i := 1;
    while i < |eventAtMs|
      invariant 1 <= i <= Max(1, |eventAtMs|)
      invariant collapsedMs == Shift(eventAtMs[..Min(i, |eventAtMs|)])
      invariant sittingCount == SittingCount(eventAtMs[..Min(i, |eventAtMs|)])
    {
      ShiftStep(eventAtMs, i - 1);
      var gap := eventAtMs[i] - eventAtMs[i - 1];
      if gap >= SITTING_GAP_MS {
        collapsedMs := collapsedMs + gap;
        sittingCount := sittingCount + 1;
      }
      i := i + 1;
    }
    assert eventAtMs[..|eventAtMs|] == eventAtMs;
    var active := if firstFillAt.None? then 0 else Seconds(completedAt - firstFillAt.value - collapsedMs);
    r := SolveTimes(solve, active, sittingCount);
    SolveTimesTell(firstFillAt, completedAt, eventAtMs);
  }

  function SolveTimesSpec(firstFillAt: Option<int>, completedAt: int, eventAtMs: seq<int>): SolveTimes {
    if firstFillAt.None? then SolveTimes(0, 0, SittingCount(eventAtMs))
    else
      SolveTimes(
        Seconds(completedAt - firstFillAt.value),
        Seconds(completedAt - firstFillAt.value - Shift(eventAtMs)),
        SittingCount(eventAtMs))
  }

  /**
   The seconds from the first fill to the end, the same with every step of half an hour or more left
   out, and one more sitting than there are such steps.
   */
  ghost predicate TellsTheTimes(firstFillAt: Option<int>, completedAt: int, eventAtMs: seq<int>, r: SolveTimes) {
    && (firstFillAt.None? ==> r.solve == 0 && r.active == 0)
    && (firstFillAt.Some? ==>
          && RoundsTo(completedAt - firstFillAt.value, r.solve)
          && RoundsTo(completedAt - firstFillAt.value - IdleIn(eventAtMs), r.active))
    && r.sittings == if eventAtMs == [] then 0 else |LongSteps(eventAtMs)| + 1
  }

  lemma SolveTimesTell(firstFillAt: Option<int>, completedAt: int, eventAtMs: seq<int>)
    ensures TellsTheTimes(firstFillAt, completedAt, eventAtMs, SolveTimesSpec(firstFillAt, completedAt, eventAtMs))
  {
    FoldedIsIdle(eventAtMs);
  }

  /** Active time lies within solve time, and they agree when the log has no long step. */
  lemma ActiveWithinSolve(firstFillAt: Option<int>, completedAt: int, eventAtMs: seq<int>)
    ensures
      var r := SolveTimesSpec(firstFillAt, completedAt, eventAtMs);
      && 0 <= r.active <= r.solve
      && (Gapless(eventAtMs) ==> r.active == r.solve && r.sittings <= 1)
  {
    if Gapless(eventAtMs) { GaplessShiftsNothing(eventAtMs); }
  }
}
