/**
 The time side of the post-game analysis: folding idle time away, numbering and drawing the
 sittings, and the named moments. Times are integer milliseconds; seconds are exact reals.
 */
module Timeline {
  import opened Basics
  import opened Sorting
  import opened Engine
  import opened Journal
  import opened Store
  import opened Sittings
  import opened SolveLog

  const BURST_WINDOW_MS: int := 30_000

  function Times(events: seq<SolveEvent>): seq<int> {
    seq(|events|, i requires 0 <= i < |events| => events[i].at)
  }

  function TraceTimes(trace: seq<TraceEntry>): seq<int> {
    seq(|trace|, i requires 0 <= i < |trace| => trace[i].at)
  }

  function InSeconds(ms: int): real { ms as real / 1000.0 }

  // --- Folding idle time ---

  function Collapse(ordered: seq<SolveEvent>): seq<SolveEvent> {
    var active := ActiveTimes(Times(ordered));
    seq(|ordered|, i requires 0 <= i < |ordered| => ordered[i].(at := active[i]))
  }

  function CollapseIdle(events: seq<SolveEvent>): seq<SolveEvent> { Collapse(Ordered(events)) }

  method CollapseIdleLoop(events: seq<SolveEvent>) returns (active: seq<SolveEvent>)
    ensures active == CollapseIdle(events)
  {
    var ordered := Sort(BySeq(), events);
    ghost var ts := Times(ordered);
    active := [];
    var shift, prevAt: Option<int> := 0, None;
    for i := 0 to |ordered|
      invariant active == Collapse(ordered)[..i]
      invariant shift == Shift(ts[..i])
      invariant prevAt == if i == 0 then None else Some(ts[i - 1])
    {
      if prevAt.Some? && EndsSitting(prevAt.value, ordered[i].at) {
        shift := shift + (ordered[i].at - prevAt.value);
      }
      FoldStep(ts, i);
      prevAt := Some(ordered[i].at);
      assert Collapse(ordered)[i] == ordered[i].(at := ordered[i].at - shift);
      active := active + [ordered[i].(at := ordered[i].at - shift)];
    }
  }

  lemma CollapseIsRetiming(events: seq<SolveEvent>)
    ensures Retimed(events, Collapse(events))
    ensures Times(Collapse(events)) == ActiveTimes(Times(events))
  {}

  lemma CollapsedIsOrdered(events: seq<SolveEvent>)
    ensures Ordered(CollapseIdle(events)) == CollapseIdle(events)
  {
    SeqOrder();
    SortSorts(BySeq(), events);
    var es, active := Ordered(events), CollapseIdle(events);
    forall i, j | 0 <= i < j < |active| ensures !BySeq()(active[j], active[i]) {
      assert !BySeq()(es[j], es[i]);
    }
    SortIsIdentityOnSorted(BySeq(), active);
  }

  /**
   Folding idle time keeps every short step, turns every long one into none, is idempotent,
   and leaves a log with no long step as it was.
   */
  lemma CollapseLaws(events: seq<SolveEvent>)
    ensures
      var ts, active := Times(Ordered(events)), Times(CollapseIdle(events));
      && |active| == |ts|
      && (forall i :: 0 <= i < |ts| - 1 ==>
            active[i + 1] - active[i] == if ts[i + 1] - ts[i] >= 1_800_000 then 0 else ts[i + 1] - ts[i])
      && (ts != [] ==> active[0] == ts[0])
    ensures CollapseIdle(CollapseIdle(events)) == CollapseIdle(events)
    ensures Gapless(Times(Ordered(events))) ==> CollapseIdle(events) == Ordered(events)
  {
    var es := Ordered(events);
    ActiveGaps(Times(es));
    CollapseIsRetiming(es);
    CollapsedIsOrdered(events);
    FoldingTwiceIsFoldingOnce(Times(es));
    assert CollapseIdle(CollapseIdle(events)) == CollapseIdle(events);
    if Gapless(Times(es)) {
      GaplessIsIdentity(Times(es));
      assert Collapse(es) == es;
    }
  }

  /** Folding idle time changes nothing in the trace but its times, and no owner. */
  lemma CollapseKeepsClaims(events: seq<SolveEvent>, sol: Solution)
    ensures SameClaims(SolveTrace(events, sol), SolveTrace(CollapseIdle(events), sol))
    ensures Owners(SolveTrace(CollapseIdle(events), sol)) == Owners(SolveTrace(events, sol))
  {
    CollapsedIsOrdered(events);
    CollapseIsRetiming(Ordered(events));
    RetimingKeepsClaims(Ordered(events), CollapseIdle(events), sol);
    SameClaimsSameOwners(SolveTrace(events, sol), SolveTrace(CollapseIdle(events), sol));
  }

  // --- Numbering the sittings ---

  function SittingIndices(events: seq<SolveEvent>): seq<nat> {
    var ts := Times(Ordered(events));
    seq(|ts|, i requires 0 <= i < |ts| => SittingOf(ts[..i + 1]))
  }

  lemma SittingStep(ts: seq<int>, i: nat)
    requires i < |ts|
    ensures SittingOf(ts[..i + 1]) ==
      if i > 0 && EndsSitting(ts[i - 1], ts[i]) then SittingOf(ts[..i]) + 1 else SittingOf(ts[..i])
  {
    if i > 0 { ShiftStep(ts, i - 1); }
  }

  lemma FoldStep(ts: seq<int>, i: nat)
    requires i < |ts|
    ensures Shift(ts[..i + 1]) ==
      if i > 0 && EndsSitting(ts[i - 1], ts[i]) then Shift(ts[..i]) + ts[i] - ts[i - 1] else Shift(ts[..i])
  {
    if i > 0 { ShiftStep(ts, i - 1); }
  }

  method SittingIndicesLoop(events: seq<SolveEvent>) returns (indices: seq<nat>)
    ensures indices == SittingIndices(events)
  {
    var ordered := Sort(BySeq(), events);
    ghost var ts := Times(ordered);
    indices := [];
    var index: nat, prevAt: Option<int> := 0, None;
    for i := 0 to |ordered|
      invariant indices == SittingIndices(events)[..i]
      invariant index == SittingOf(ts[..i])
      invariant prevAt == if i == 0 then None else Some(ts[i - 1])
    {
      if prevAt.Some? && EndsSitting(prevAt.value, ordered[i].at) { index := index + 1; }
      SittingStep(ts, i);
      prevAt := Some(ordered[i].at);
      indices := indices + [index];
    }
  }

  /** Numbers start at zero, never fall, step by one exactly at a long step, and end at the count less one. */
  lemma SittingIndicesCount(events: seq<SolveEvent>)
    ensures
      var ts, indices := Times(Ordered(events)), SittingIndices(events);
      && |indices| == |events|
      && (indices != [] ==> indices[0] == 0 && indices[|indices| - 1] + 1 == SittingCount(ts))
      && (forall i :: 0 <= i < |indices| - 1 ==>
            indices[i + 1] == indices[i] + if ts[i + 1] - ts[i] >= 1_800_000 then 1 else 0)
  {
    var ts := Times(Ordered(events));
    assert ts[..|ts|] == ts;
    if ts != [] { SittingStep(ts, 0); }
    forall i | 0 <= i < |ts| - 1
      ensures SittingOf(ts[..i + 2]) == SittingOf(ts[..i + 1]) + if EndsSitting(ts[i], ts[i + 1]) then 1 else 0
    {
      ShiftStep(ts, i);
    }
  }

  /** Sorting by a key and then mapping is mapping and then sorting by the key's image. */
  lemma {:induction false} SortCommutes<T(!new), U>(less: (T, T) -> bool, below: (U, U) -> bool, f: T -> U, s: seq<T>)
    requires forall x, y :: below(f(x), f(y)) == less(x, y)
    ensures Sort(below, Mapped(f, s)) == Mapped(f, Sort(less, s))
  {
    if s != [] {
      var n := |s| - 1;
      SortCommutes(less, below, f, s[..n]);
      assert Mapped(f, s)[..n] == Mapped(f, s[..n]);
      InsertCommutes(less, below, f, Sort(less, s[..n]), s[n]);
    }
  }

  function Mapped<T, U>(f: T -> U, s: seq<T>): seq<U> {
    seq(|s|, i requires 0 <= i < |s| => f(s[i]))
  }

  lemma {:induction false} InsertCommutes<T(!new), U>(less: (T, T) -> bool, below: (U, U) -> bool, f: T -> U,
                                                      s: seq<T>, x: T)
    requires forall x, y :: below(f(x), f(y)) == less(x, y)
    ensures Insert(below, Mapped(f, s), f(x)) == Mapped(f, Insert(less, s, x))
  {
    if s != [] {
      var n := |s| - 1;
      assert Mapped(f, s)[..n] == Mapped(f, s[..n]);
      if less(x, s[n]) {
        InsertCommutes(less, below, f, s[..n], x);
      }
    }
  }

  /** The times the completion statistics are computed from are the log's own times in sequence order. */
  lemma LogTimesAgree(log: seq<CellRow>)
    ensures Times(Ordered(FromRows(log))) == EventTimes(log)
  {
    assert FromRows(log) == Mapped(FromRow, log);
    SortCommutes(SeqLess(), BySeq(), FromRow, log);
  }

  /** The sitting count frozen at completion is the one the analysis numbers and draws. */
  lemma SittingCountsAgree(log: seq<CellRow>, firstFillAt: Option<int>, completedAt: int)
    ensures
      var indices := SittingIndices(FromRows(log));
      SolveTimesSpec(firstFillAt, completedAt, EventTimes(log)).sittings ==
        if indices == [] then 0 else indices[|indices| - 1] + 1
  {
    LogTimesAgree(log);
    SittingIndicesCount(FromRows(log));
  }
}
