/**
 The replay and the ribbon told in milliseconds: which square fell first and last, where the longest
 step ends, at which second each square is replayed, and where one sitting gives way to the next.
 */
module Ribbon {
  import opened Basics
  import opened Sorting
  import opened Engine
  import opened Sittings
  import opened SolveLog
  import opened Timeline
  import opened Moments
  import opened SheetColumns

  // --- The named moments ---

  ghost predicate FirstOf(trace: seq<TraceEntry>, t: TraceEntry) {
    t in trace && forall x :: x in trace ==> EarlierOrSame(t, x)
  }

  ghost predicate LastOf(trace: seq<TraceEntry>, t: TraceEntry) {
    t in trace && forall x :: x in trace ==> EarlierOrSame(x, t)
  }

  predicate InHalfMinute(trace: seq<TraceEntry>, i: int, t: int) {
    0 <= i < |trace| && t <= trace[i].at <= t + 30_000
  }

  /** The end of the longest step, the seconds it took, where it lies, and the squares in the half minute from it. */
  ghost predicate TurnsAt(trace: seq<TraceEntry>, first: TraceEntry, p: TurningPoint, b: int, ms: int) {
    && EndsTheStall(trace, b, ms)
    && p.stallSeconds == ms as real / 1000.0
    && p.breakSeconds == (trace[b].at - first.at) as real / 1000.0
    && p.burst == HowMany(|trace|, i => InHalfMinute(trace, i, trace[b].at))
  }

  ghost predicate MomentsSay(trace: seq<TraceEntry>, h: Highlights, first: TraceEntry, last: TraceEntry) {
    && FirstOf(trace, first) && LastOf(trace, last)
    && h.firstToFall == Some(Beat(first.cell, first.userId, 0.0))
    && h.lastSquare == Some(Beat(last.cell, last.userId, (last.at - first.at) as real / 1000.0))
    && (h.turningPoint.None? <==> forall i :: 1 <= i < |trace| ==> StepBelow(trace, i, 0))
    && (h.turningPoint.Some? ==> exists b, ms :: TurnsAt(trace, first, h.turningPoint.value, b, ms))
  }

  lemma {:induction false} BurstPoints(trace: seq<TraceEntry>, t: int)
    ensures InWindow(trace, t) == HowMany(|trace|, i => InHalfMinute(trace, i, t))
  {
    hide HowMany;
    var p := i => InHalfMinute(trace, i, t);
    if trace == [] {
      NothingToCount(p);
    } else {
      var n, front := |trace| - 1, trace[..|trace| - 1];
      BurstPoints(front, t);
      SameCount(n, i => InHalfMinute(front, i, t), p);
      OneMore(n, p);
    }
  }

  lemma TurningPointSays(trace: seq<TraceEntry>)
    requires trace != []
    ensures
      var h, first := HighlightsOf(trace), FirstToFall(trace);
      && (h.turningPoint.None? <==> forall i :: 1 <= i < |trace| ==> StepBelow(trace, i, 0))
      && (h.turningPoint.Some? ==> exists b, ms :: TurnsAt(trace, first, h.turningPoint.value, b, ms))
  {
    hide FirstToFall, LastSquare, BreakIndex, InWindow, HowMany, EndsTheStall;
    StallIsBreak(trace);
    TurningPointExists(trace);
    BreakIsEarliestLongest(trace);
    forall i | 1 <= i < |trace| ensures StepBelow(trace, i, 0) <==> Gap(trace, i) < 0 {}
    var b := BreakIndex(trace);
    if b > 0 {
      BurstPoints(trace, trace[b].at);
      assert EndsTheStall(trace, b, Gap(trace, b));
      assert TurnsAt(trace, FirstToFall(trace), HighlightsOf(trace).turningPoint.value, b, Gap(trace, b));
    }
  }

  /** The moments of a trace that names no number twice. */
  lemma EveryTraceHasItsMoments(trace: seq<TraceEntry>)
    requires AscendingTrace(trace)
    ensures trace == [] ==> HighlightsOf(trace) == Highlights(None, None, None)
    ensures trace != [] ==> exists first, last :: MomentsSay(trace, HighlightsOf(trace), first, last)
  {
    hide BreakIndex, InWindow, TurnsAt;
    if trace != [] {
      var first, last := FirstToFall(trace), LastSquare(trace);
      TurningPointSays(trace);
      forall x | x in trace ensures EarlierOrSame(first, x) && EarlierOrSame(x, last) {
        assert !Before(x, first) && !Before(last, x);
      }
      assert MomentsSay(trace, HighlightsOf(trace), first, last);
    }
  }

  // --- The replay ---

  /** The same fills in order of time, each at its seconds from the first. */
  ghost predicate ReplaySays(trace: seq<TraceEntry>, steps: seq<SequenceStep>, order: seq<TraceEntry>) {
    && multiset(order) == multiset(trace) && |steps| == |order|
    && (forall i, j :: 0 <= i < j < |order| ==> EarlierOrSame(order[i], order[j]))
    && (forall i :: 0 <= i < |order| ==>
          steps[i] == SequenceStep(order[i].cell, (order[i].at - order[0].at) as real / 1000.0))
  }

  lemma InOrder(trace: seq<TraceEntry>)
    ensures
      var order := Sort(ByAtSeq(), trace);
      forall i, j :: 0 <= i < j < |order| ==> EarlierOrSame(order[i], order[j])
  {
    hide Sort;
    TimeOrder();
    SortSorts(ByAtSeq(), trace);
    var order := Sort(ByAtSeq(), trace);
    forall i, j | 0 <= i < j < |order| ensures EarlierOrSame(order[i], order[j]) {
      assert !ByAtSeq()(order[j], order[i]);
    }
  }

  lemma FirstIsLeast(trace: seq<TraceEntry>)
    requires trace != []
    ensures Least(TraceTimes(trace)) == Sort(ByAtSeq(), trace)[0].at
  {
    hide Sort, Least;
    var order := Sort(ByAtSeq(), trace);
    OrderedTimesAscend(trace);
    SortKeepsMembers(ByAtSeq(), trace);
    SameTimes(trace, order);
    EndsOfAscending(TraceTimes(trace), TraceTimes(order));
  }

  lemma EveryTraceIsReplayed(trace: seq<TraceEntry>)
    ensures exists order :: ReplaySays(trace, SolveSequence(trace), order)
  {
    hide Sort, Least;
    var order := Sort(ByAtSeq(), trace);
    InOrder(trace);
    if trace != [] { FirstIsLeast(trace); }
    assert ReplaySays(trace, SolveSequence(trace), order);
  }

  // --- The sittings on the ribbon ---

  /** The seconds from t0 at which the sitting of that long step ended, on the axis without idle time. */
  ghost function SeamAt(ts: seq<int>, i: int, t0: int): real
    requires LongStep(ts, i)
  {
    (ts[i + 1] - IdleIn(ts[..i + 2]) - t0) as real / 1000.0
  }

  /** The long step that ends the sitting of that number. */
  ghost predicate EndsSittingNumber(ts: seq<int>, i: int, k: int) {
    LongStep(ts, i) && |LongSteps(ts[..i + 1])| == k
  }

  /** Where a sitting ends: at the furthest seam so far, not before the start and not past the end. */
  ghost predicate SpanEndsAt(ts: seq<int>, bounds: Option<Bounds>, k: int, c: real) {
    if bounds.None? then c == 0.0
    else
      var t0, whole := bounds.value.t0, (bounds.value.tEnd - bounds.value.t0) as real / 1000.0;
      && 0.0 <= c <= whole
      && (c == 0.0 || exists i :: UpToSitting(ts, i, k) && c <= SeamAt(ts, i, t0))
      && (c == whole || forall i :: UpToSitting(ts, i, k) ==> SeamAt(ts, i, t0) <= c)
  }

  ghost predicate UpToSitting(ts: seq<int>, i: int, k: int) {
    LongStep(ts, i) && |LongSteps(ts[..i + 1])| <= k
  }

  /** The least and the greatest time of the trace. */
  ghost predicate BoundsSay(trace: seq<TraceEntry>, bounds: Option<Bounds>) {
    && (trace == [] <==> bounds.None?)
    && (bounds.Some? ==>
          && (forall x :: x in trace ==> bounds.value.t0 <= x.at <= bounds.value.tEnd)
          && (exists a :: a in trace && a.at == bounds.value.t0)
          && (exists a :: a in trace && a.at == bounds.value.tEnd))
  }

  lemma BoundsAre(trace: seq<TraceEntry>)
    ensures BoundsSay(trace, BoundsOf(trace))
  {
    hide Least, Greatest;
    if trace != [] {
      var ts := TraceTimes(trace);
      forall x | x in trace ensures x.at in ts { TimeIsListed(trace, x); }
      var i :| 0 <= i < |ts| && ts[i] == Least(ts);
      var j :| 0 <= j < |ts| && ts[j] == Greatest(ts);
      assert trace[i] in trace && trace[j] in trace;
    }
  }

  /** The m-th long step's active end is listed m-th. */
  ghost predicate SeamListed(ts: seq<int>, seams: seq<int>, i: int) {
    LongStep(ts, i) ==>
      |LongSteps(ts[..i + 1])| < |seams| && seams[|LongSteps(ts[..i + 1])|] == ts[i + 1] - IdleIn(ts[..i + 2])
  }

  ghost predicate SomeStepEnds(ts: seq<int>, k: int) {
    exists i :: EndsSittingNumber(ts, i, k)
  }

  lemma {:induction false} SeamsAre(ts: seq<int>)
    ensures forall i :: SeamListed(ts, Seams(ts), i)
    ensures forall k :: 0 <= k < |Seams(ts)| ==> SomeStepEnds(ts, k)
  {
    hide LongSteps, IdleIn, Shift;
    if |ts| >= 2 {
      var n := |ts| - 1;
      var front := ts[..n];
      SeamsAre(front);
      FoldedIsIdle(ts);
      SittingIsLongSteps(front);
      assert ts[..n + 1] == ts && ts[..n - 1 + 1] == front;
      forall i ensures SeamListed(ts, Seams(ts), i) {
        if LongStep(ts, i) && i < n - 1 {
          assert front[..i + 1] == ts[..i + 1] && front[..i + 2] == ts[..i + 2];
          assert LongStep(front, i) && SeamListed(front, Seams(front), i);
        }
      }
      forall k | 0 <= k < |Seams(ts)| ensures SomeStepEnds(ts, k) {
        if k < |Seams(front)| {
          assert SomeStepEnds(front, k);
          var i :| EndsSittingNumber(front, i, k);
          assert front[..i + 1] == ts[..i + 1];
          assert EndsSittingNumber(ts, i, k);
        } else {
          assert EndsSittingNumber(ts, n - 1, k);
        }
      }
    }
  }

  /** The furthest of the seams, nought if none is further. */
  lemma {:induction false} PeakIs(seams: seq<int>, t0: int)
    ensures forall j :: 0 <= j < |seams| ==> (seams[j] - t0) as real / 1000.0 <= Peak(seams, t0)
    ensures Peak(seams, t0) == 0.0
      || exists j :: 0 <= j < |seams| && Peak(seams, t0) == (seams[j] - t0) as real / 1000.0
  {
    if seams != [] {
      var n := |seams| - 1;
      PeakIs(seams[..n], t0);
      if Peak(seams, t0) == InSeconds(seams[n] - t0) {
        assert Peak(seams, t0) == (seams[n] - t0) as real / 1000.0;
      } else if Peak(seams, t0) != 0.0 {
        var j :| 0 <= j < |seams[..n]| && Peak(seams[..n], t0) == (seams[..n][j] - t0) as real / 1000.0;
        assert Peak(seams, t0) == (seams[j] - t0) as real / 1000.0;
      }
    }
  }

  lemma {:induction false} NumbersRise(ts: seq<int>, i: nat, n: nat)
    requires i < n <= |ts|
    ensures |LongSteps(ts[..i + 1])| <= |LongSteps(ts[..n])|
  {
    var a, b := ts[..i + 1], ts[..n];
    assert forall k :: LongStep(a, k) ==> LongStep(b, k);
    SubsetSize(LongSteps(a), LongSteps(b));
  }

  lemma CutIs(ts: seq<int>, bounds: Option<Bounds>, k: nat)
    requires k < |Seams(ts)| && (bounds.Some? ==> bounds.value.t0 <= bounds.value.tEnd)
    ensures SpanEndsAt(ts, bounds, k, CutAt(Seams(ts), bounds, k))
  {
    hide LongSteps, IdleIn, Seams, Peak;
    if bounds.Some? {
      var t0, seams := bounds.value.t0, Seams(ts);
      var whole, c := (bounds.value.tEnd - t0) as real / 1000.0, CutAt(seams, bounds, k);
      SeamsAre(ts);
      PeakIs(seams[..k + 1], t0);
      forall i | UpToSitting(ts, i, k) ensures SeamAt(ts, i, t0) <= Peak(seams[..k + 1], t0) {
        assert SeamListed(ts, seams, i);
        var j := |LongSteps(ts[..i + 1])|;
        assert seams[..k + 1][j] == seams[j];
      }
      if Peak(seams[..k + 1], t0) != 0.0 {
        var j :| 0 <= j < k + 1 && Peak(seams[..k + 1], t0) == (seams[..k + 1][j] - t0) as real / 1000.0;
        assert SomeStepEnds(ts, j);
        var i :| EndsSittingNumber(ts, i, j);
        assert SeamListed(ts, seams, i) && UpToSitting(ts, i, k);
        assert SeamAt(ts, i, t0) == Peak(seams[..k + 1], t0);
      }
    }
  }

  /** As many spans as sittings, tiling the active axis, each ending where its sitting does. */
  ghost predicate ViewSays(ts: seq<int>, bounds: Option<Bounds>, spans: seq<Span>) {
    var whole := if bounds.None? then 0.0 else (bounds.value.tEnd - bounds.value.t0) as real / 1000.0;
    && |spans| == |LongSteps(ts)| + 1
    && spans[0].start == 0.0 && spans[|spans| - 1].end == whole
    && (forall k :: 0 <= k < |spans| - 1 ==>
          spans[k + 1].start == spans[k].end && SpanEndsAt(ts, bounds, k, spans[k].end))
  }

  lemma DrawnIsSaid(ts: seq<int>, bounds: Option<Bounds>, spans: seq<Span>)
    requires ts != [] && (bounds.Some? ==> bounds.value.t0 <= bounds.value.tEnd)
    requires Draws(spans, Seams(ts), bounds)
    ensures ViewSays(ts, bounds, spans)
  {
    hide LongSteps, Seams, CutAt, SpanEndsAt;
    SittingIsLongSteps(ts);
    forall k | 0 <= k < |spans| - 1 ensures SpanEndsAt(ts, bounds, k, spans[k].end) {
      CutIs(ts, bounds, k);
    }
  }

  /** The seconds from the trace's least time to its greatest. */
  ghost predicate SpansSeconds(trace: seq<TraceEntry>, seconds: real) {
    && (trace == [] ==> seconds == 0.0)
    && (trace != [] ==> exists a, b :: a in trace && b in trace && Spanning(trace, a, b, seconds))
  }

  ghost predicate Spanning(trace: seq<TraceEntry>, a: TraceEntry, b: TraceEntry, seconds: real) {
    (forall x :: x in trace ==> a.at <= x.at <= b.at) && seconds == (b.at - a.at) as real / 1000.0
  }

  lemma ExtentSays(trace: seq<TraceEntry>)
    ensures SpansSeconds(trace, Extent(trace))
  {
    hide Least, Greatest;
    BoundsAre(trace);
    if trace != [] {
      var bounds := BoundsOf(trace).value;
      var a :| a in trace && a.at == bounds.t0;
      var b :| b in trace && b.at == bounds.tEnd;
      assert Spanning(trace, a, b, Extent(trace));
    }
  }

  /** What the view draws of any log, skewed clocks or not, once its spans are drawn on the active axis. */
  lemma EveryViewSays(events: seq<SolveEvent>, sol: Solution, r: SittingsResult)
    requires events != [] && r.wallSeconds == Extent(SolveTrace(events, sol))
    requires Draws(r.spans, Seams(Times(Ordered(events))), BoundsOf(SolveTrace(CollapseIdle(events), sol)))
    ensures
      var active := SolveTrace(CollapseIdle(events), sol);
      && ViewSays(Times(Ordered(events)), BoundsOf(active), r.spans) && BoundsSay(active, BoundsOf(active))
      && SpansSeconds(SolveTrace(events, sol), r.wallSeconds)
  {
    hide SolveTrace, CollapseIdle, Seams, Draws, ViewSays;
    var active, ts := SolveTrace(CollapseIdle(events), sol), Times(Ordered(events));
    assert |ts| == |events|;
    BoundsAre(active);
    ExtentSays(SolveTrace(events, sol));
    DrawnIsSaid(ts, BoundsOf(active), r.spans);
  }
}
