/**
 What the post-game view draws from a trace: the sittings as spans on the active axis, the
 first and last square, and the turning point. Log order and time order may disagree when
 clocks are skewed, and nothing here assumes they do not.
 */
module Moments {
  import opened Basics
  import opened Sorting
  import opened Engine
  import opened Sittings
  import opened SolveLog
  import opened Timeline

  // --- Extent of a trace ---

  function Least(ts: seq<int>): (r: int)
    requires ts != []
    ensures r in ts && forall x :: x in ts ==> r <= x
  {
    var n := |ts| - 1;
    assert ts == ts[..n] + [ts[n]];
    if n == 0 then ts[0] else Min(Least(ts[..n]), ts[n])
  }

  function Greatest(ts: seq<int>): (r: int)
    requires ts != []
    ensures r in ts && forall x :: x in ts ==> x <= r
  {
    var n := |ts| - 1;
    assert ts == ts[..n] + [ts[n]];
    if n == 0 then ts[0] else Max(Greatest(ts[..n]), ts[n])
  }

  datatype Bounds = Bounds(t0: int, tEnd: int)

  function BoundsOf(trace: seq<TraceEntry>): Option<Bounds> {
    if trace == [] then None else Some(Bounds(Least(TraceTimes(trace)), Greatest(TraceTimes(trace))))
  }

  lemma BoundsStep(trace: seq<TraceEntry>, i: nat)
    requires 1 <= i < |trace|
    ensures
      var b := BoundsOf(trace[..i]).value;
      BoundsOf(trace[..i + 1]) == Some(Bounds(Min(b.t0, trace[i].at), Max(b.tEnd, trace[i].at)))
  {
    assert TraceTimes(trace[..i + 1])[..i] == TraceTimes(trace[..i]);
  }

  method TraceBounds(trace: seq<TraceEntry>) returns (r: Option<Bounds>)
    ensures r == BoundsOf(trace)
  {
    if trace == [] { return None; }
    var t0, tEnd := trace[0].at, trace[0].at;
    for i := 1 to |trace|
      invariant Some(Bounds(t0, tEnd)) == BoundsOf(trace[..i])
    {
      BoundsStep(trace, i);
      if trace[i].at < t0 { t0 := trace[i].at; }
      if trace[i].at > tEnd { tEnd := trace[i].at; }
    }
    assert trace[..|trace|] == trace;
    return Some(Bounds(t0, tEnd));
  }

  function Extent(trace: seq<TraceEntry>): (r: real)
    ensures r >= 0.0
  {
    var b := BoundsOf(trace);
    if b.None? then 0.0 else InSeconds(b.value.tEnd - b.value.t0)
  }

  // --- Sittings as spans ---

  /** The active instants at which a sitting ended, in log order. */
  function Seams(ts: seq<int>): (r: seq<int>)
    ensures |r| == SittingOf(ts)
  {
    if |ts| < 2 then []
    else
      var n := |ts| - 1;
      Seams(ts[..n]) + (if EndsSitting(ts[n - 1], ts[n]) then [ts[n] - Shift(ts)] else [])
  }

  method SeamInstants(ordered: seq<SolveEvent>, active: seq<SolveEvent>) returns (seams: seq<int>)
    requires active == Collapse(ordered)
    ensures seams == Seams(Times(ordered))
  {
    seams := [];
    ghost var ts := Times(ordered);
    var i := 1;
    while i < |ordered|
      invariant 1 <= i <= Max(1, |ts|)
      invariant seams == Seams(ts[..Min(i, |ts|)])
    {
      assert ts[..i + 1][..i] == ts[..i];
      assert active[i].at == ts[i] - Shift(ts[..i + 1]);
      if EndsSitting(ordered[i - 1].at, ordered[i].at) { seams := seams + [active[i].at]; }
      i := i + 1;
    }
    assert ts[..|ts|] == ts;
  }

  function MaxReal(a: real, b: real): real { if a < b then b else a }

  function MinReal(a: real, b: real): real { if a < b then a else b }

  /** The furthest seam so far, in seconds from t0, and never before the start. */
  function Peak(seams: seq<int>, t0: int): (r: real)
    ensures r >= 0.0
  {
    if seams == [] then 0.0
    else MaxReal(Peak(seams[..|seams| - 1], t0), InSeconds(seams[|seams| - 1] - t0))
  }

  /** Where the k-th sitting ends: its furthest seam so far, kept inside the axis. */
  function CutAt(seams: seq<int>, bounds: Option<Bounds>, k: nat): real
    requires k < |seams|
  {
    if bounds.None? then 0.0
    else MinReal(InSeconds(bounds.value.tEnd - bounds.value.t0), Peak(seams[..k + 1], bounds.value.t0))
  }

  method Cuts(seams: seq<int>, bounds: Option<Bounds>, duration: real) returns (cuts: seq<real>)
    requires bounds.Some? ==> bounds.value.t0 <= bounds.value.tEnd
    requires duration == if bounds.None? then 0.0 else InSeconds(bounds.value.tEnd - bounds.value.t0)
    ensures |cuts| == |seams|
    ensures forall k :: 0 <= k < |cuts| ==> cuts[k] == CutAt(seams, bounds, k)
    ensures forall k :: 0 <= k < |cuts| ==> 0.0 <= cuts[k] <= duration
    ensures forall k :: 0 <= k < |cuts| - 1 ==> cuts[k] <= cuts[k + 1]
  {
    cuts := [];
    var floor := 0.0;
    for i := 0 to |seams|
      invariant |cuts| == i
      invariant floor == if i == 0 then 0.0 else cuts[i - 1]
      invariant i > 0 ==> floor == CutAt(seams, bounds, i - 1)
      invariant 0.0 <= floor <= duration
      invariant forall k :: 0 <= k < i ==> cuts[k] == CutAt(seams, bounds, k) && 0.0 <= cuts[k] <= duration
      invariant forall k :: 0 <= k < i - 1 ==> cuts[k] <= cuts[k + 1]
    {
      assert seams[..i + 1][..i] == seams[..i];
      var boundary := if bounds.None? then 0.0 else InSeconds(seams[i] - bounds.value.t0);
      if boundary < floor { boundary := floor; }
      if boundary > duration { boundary := duration; }
      cuts := cuts + [boundary];
      floor := boundary;
    }
  }

  datatype Span = Span(start: real, end: real)

  /** Spans that cover the axis from nought to its end, one after another with no gap or overlap. */
  ghost predicate Tiles(spans: seq<Span>, duration: real) {
    && spans != []
    && spans[0].start == 0.0 && spans[|spans| - 1].end == duration
    && (forall k :: 0 <= k < |spans| ==> spans[k].start <= spans[k].end)
    && (forall k :: 0 <= k < |spans| - 1 ==> spans[k + 1].start == spans[k].end)
  }

  method Spans(cuts: seq<real>, duration: real) returns (spans: seq<Span>)
    requires duration >= 0.0
    requires forall k :: 0 <= k < |cuts| ==> 0.0 <= cuts[k] <= duration
    requires forall k :: 0 <= k < |cuts| - 1 ==> cuts[k] <= cuts[k + 1]
    ensures |spans| == |cuts| + 1 && Tiles(spans, duration)
    ensures forall k :: 0 <= k < |cuts| ==> spans[k].end == cuts[k]
  {
    spans := [];
    var start := 0.0;
    for i := 0 to |cuts|
      invariant |spans| == i
      invariant start == if i == 0 then 0.0 else cuts[i - 1]
      invariant i > 0 ==> spans[0].start == 0.0
      invariant forall k :: 0 <= k < i ==> spans[k].end == cuts[k] && spans[k].start <= spans[k].end
      invariant forall k :: 0 <= k < i - 1 ==> spans[k + 1].start == spans[k].end
    {
      spans := spans + [Span(start, cuts[i])];
      start := cuts[i];
    }
    spans := spans + [Span(start, duration)];
  }

  method DrawSpans(seams: seq<int>, bounds: Option<Bounds>) returns (spans: seq<Span>)
    requires bounds.Some? ==> bounds.value.t0 <= bounds.value.tEnd
    ensures Draws(spans, seams, bounds)
  {
    var durationSeconds := if bounds.None? then 0.0 else InSeconds(bounds.value.tEnd - bounds.value.t0);
    var cuts := Cuts(seams, bounds, durationSeconds);
    spans := Spans(cuts, durationSeconds);
  }

  /** The spans tile the active axis, and each sitting ends at its furthest seam so far. */
  ghost predicate Draws(spans: seq<Span>, seams: seq<int>, bounds: Option<Bounds>) {
    && |spans| == |seams| + 1
    && Tiles(spans, if bounds.None? then 0.0 else InSeconds(bounds.value.tEnd - bounds.value.t0))
    && (forall k :: 0 <= k < |seams| ==> spans[k].end == CutAt(seams, bounds, k))
  }

  datatype SittingsResult = SittingsResult(count: nat, spans: seq<Span>, wallSeconds: real)

  method SittingsOfOrdered(ordered: seq<SolveEvent>, sol: Solution) returns (r: SittingsResult)
    requires ordered != [] && Ordered(ordered) == ordered
    ensures r.count == |r.spans|
    ensures Draws(r.spans, Seams(Times(ordered)), BoundsOf(SolveTrace(CollapseIdle(ordered), sol)))
    ensures r.wallSeconds == Extent(SolveTrace(ordered, sol))
  {
    var active := CollapseIdleLoop(ordered);
    var seams := SeamInstants(ordered, active);
    var activeTrace := SolveTraceLoop(active, sol);
    var wallTrace := SolveTraceLoop(ordered, sol);
    var activeBounds := TraceBounds(activeTrace);
    var wallBounds := TraceBounds(wallTrace);
    var wallSeconds := if wallBounds.None? then 0.0 else InSeconds(wallBounds.value.tEnd - wallBounds.value.t0);
    var spans := DrawSpans(seams, activeBounds);
    r := SittingsResult(|spans|, spans, wallSeconds);
  }

  /** For any timestamps, skewed or not: one span per sitting, tiling the active axis. */
  method SittingsView(events: seq<SolveEvent>, sol: Solution) returns (r: SittingsResult)
    ensures r.count == |r.spans| == SittingCount(Times(Ordered(events)))
    ensures events != [] ==>
      Draws(r.spans, Seams(Times(Ordered(events))), BoundsOf(SolveTrace(CollapseIdle(events), sol)))
    ensures r.wallSeconds == Extent(SolveTrace(events, sol))
  {
    var ordered := Sort(BySeq(), events);
    if |ordered| == 0 {
      return SittingsResult(0, [], 0.0);
    }
    OrderedOnce(events);
    r := SittingsOfOrdered(ordered, sol);
  }

  lemma OrderedOnce(events: seq<SolveEvent>)
    ensures Ordered(Ordered(events)) == Ordered(events)
  {
    SeqOrder();
    SortSorts(BySeq(), events);
    SortIsIdentityOnSorted(BySeq(), Ordered(events));
  }

  // --- First square, last square, turning point ---

  predicate Before(a: TraceEntry, b: TraceEntry) {
    a.at < b.at || (a.at == b.at && a.seqNo < b.seqNo)
  }

  function FirstToFall(trace: seq<TraceEntry>): (r: TraceEntry)
    requires trace != []
    ensures r in trace && forall x :: x in trace ==> !Before(x, r)
  {
    var n := |trace| - 1;
    assert trace == trace[..n] + [trace[n]];
    if n == 0 then trace[0]
    else var best := FirstToFall(trace[..n]); if Before(trace[n], best) then trace[n] else best
  }

  function LastSquare(trace: seq<TraceEntry>): (r: TraceEntry)
    requires trace != []
    ensures r in trace && forall x :: x in trace ==> !Before(r, x)
  {
    var n := |trace| - 1;
    assert trace == trace[..n] + [trace[n]];
    if n == 0 then trace[0]
    else var best := LastSquare(trace[..n]); if Before(best, trace[n]) then trace[n] else best
  }

  function Gap(trace: seq<TraceEntry>, i: int): int {
    if 1 <= i < |trace| then trace[i].at - trace[i - 1].at else -1
  }

  /** The entry that ended the longest step, the earliest on a tie; 0 when no step goes forward or stands. */
  function BreakIndex(trace: seq<TraceEntry>): (r: nat)
    ensures trace != [] ==> r < |trace|
  {
    if |trace| < 2 then 0
    else
      var n := |trace| - 1;
      var best := BreakIndex(trace[..n]);
      if Gap(trace, n) > Gap(trace, best) then n else best
  }

  lemma {:induction false} BreakIsEarliestLongest(trace: seq<TraceEntry>)
    ensures
      var b := BreakIndex(trace);
      && (b == 0 <==> forall i :: 1 <= i < |trace| ==> Gap(trace, i) < 0)
      && (b > 0 ==>
            && Gap(trace, b) >= 0
            && (forall i :: 1 <= i < |trace| ==> Gap(trace, i) <= Gap(trace, b))
            && (forall i :: 1 <= i < b ==> Gap(trace, i) < Gap(trace, b)))
  {
    if |trace| >= 2 {
      var n := |trace| - 1;
      BreakIsEarliestLongest(trace[..n]);
      assert forall i :: 0 <= i < n ==> Gap(trace[..n], i) == Gap(trace, i);
    }
  }

  /** How many entries lie inside the closed window from t on. */
  function InWindow(trace: seq<TraceEntry>, t: int): (r: nat)
    ensures r <= |trace|
  {
    if trace == [] then 0
    else
      var n := |trace| - 1;
      InWindow(trace[..n], t) + (if t <= trace[n].at <= t + BURST_WINDOW_MS then 1 else 0)
  }

  lemma BreakStep(trace: seq<TraceEntry>, i: nat)
    requires 1 <= i < |trace|
    ensures
      var best := BreakIndex(trace[..i]);
      BreakIndex(trace[..i + 1]) == if Gap(trace, i) > Gap(trace, best) then i else best
  {
    assert trace[..i + 1][..i] == trace[..i];
  }

  lemma EndsStep(trace: seq<TraceEntry>, i: nat)
    requires 1 <= i < |trace|
    ensures
      var first, last := FirstToFall(trace[..i]), LastSquare(trace[..i]);
      && FirstToFall(trace[..i + 1]) == (if Before(trace[i], first) then trace[i] else first)
      && LastSquare(trace[..i + 1]) == (if Before(last, trace[i]) then trace[i] else last)
  {
    assert trace[..i + 1][..i] == trace[..i];
  }

  datatype Beat = Beat(cell: int, userId: UserId, atSeconds: real)

  datatype TurningPoint = TurningPoint(stallSeconds: real, breakSeconds: real, burst: nat)

  datatype Highlights = Highlights(firstToFall: Option<Beat>, lastSquare: Option<Beat>,
                                   turningPoint: Option<TurningPoint>)

  function BeatOf(e: TraceEntry, t0: int): Beat { Beat(e.cell, e.userId, InSeconds(e.at - t0)) }

  function HighlightsOf(trace: seq<TraceEntry>): Highlights {
    if trace == [] then Highlights(None, None, None)
    else
      var t0, b := FirstToFall(trace).at, BreakIndex(trace);
      Highlights(
        Some(BeatOf(FirstToFall(trace), t0)), Some(BeatOf(LastSquare(trace), t0)),
        if b == 0 then None
        else Some(TurningPoint(InSeconds(Gap(trace, b)), InSeconds(trace[b].at - t0), InWindow(trace, trace[b].at))))
  }

  datatype Scan = Scan(first: TraceEntry, last: TraceEntry, bestGap: int, breakEntry: Option<TraceEntry>)

  function ScanOf(trace: seq<TraceEntry>): Scan
    requires trace != []
  {
    var b := BreakIndex(trace);
    Scan(FirstToFall(trace), LastSquare(trace), Gap(trace, b), if b == 0 then None else Some(trace[b]))
  }

  lemma ScanStep(trace: seq<TraceEntry>, i: nat)
    requires 1 <= i < |trace|
    ensures
      var s, e, gap := ScanOf(trace[..i]), trace[i], trace[i].at - trace[i - 1].at;
      ScanOf(trace[..i + 1]) == Scan(
        if Before(e, s.first) then e else s.first, if Before(s.last, e) then e else s.last,
        if gap > s.bestGap then gap else s.bestGap, if gap > s.bestGap then Some(e) else s.breakEntry)
  {
    hide FirstToFall, LastSquare, BreakIndex;
    BreakStep(trace, i);
    EndsStep(trace, i);
  }

  /** The one pass that finds the ends and the longest step. */
  method ScanLoop(trace: seq<TraceEntry>) returns (s: Scan)
    requires trace != []
    ensures s == ScanOf(trace)
  {
    var first, last, prev := trace[0], trace[0], trace[0];
    var bestGap, breakEntry: Option<TraceEntry> := -1, None;
    for i := 1 to |trace|
      invariant prev == trace[i - 1]
      invariant Scan(first, last, bestGap, breakEntry) == ScanOf(trace[..i])
    {
      ScanStep(trace, i);
      var entry := trace[i];
      if entry.at < first.at || (entry.at == first.at && entry.seqNo < first.seqNo) { first := entry; }
      if entry.at > last.at || (entry.at == last.at && entry.seqNo > last.seqNo) { last := entry; }
      var gap := entry.at - prev.at;
      if gap > bestGap {
        bestGap := gap;
        breakEntry := Some(entry);
      }
      prev := entry;
    }
    assert trace[..|trace|] == trace;
    return Scan(first, last, bestGap, breakEntry);
  }

  method MomentsLoop(trace: seq<TraceEntry>) returns (r: Highlights)
    ensures r == HighlightsOf(trace)
  {
    if trace == [] { return Highlights(None, None, None); }
    var s := ScanLoop(trace);
    var turningPoint: Option<TurningPoint> := None;
    if s.breakEntry.Some? {
      var burst := WindowCount(trace, s.breakEntry.value.at);
      turningPoint := Some(TurningPoint(InSeconds(s.bestGap), InSeconds(s.breakEntry.value.at - s.first.at), burst));
    }
    r := Highlights(Some(BeatOf(s.first, s.first.at)), Some(BeatOf(s.last, s.first.at)), turningPoint);
  }

  method WindowCount(trace: seq<TraceEntry>, t: int) returns (count: nat)
    ensures count == InWindow(trace, t)
  {
    count := 0;
    for i := 0 to |trace|
      invariant count == InWindow(trace[..i], t)
    {
      assert trace[..i + 1][..i] == trace[..i];
      if t <= trace[i].at <= t + BURST_WINDOW_MS { count := count + 1; }
    }
    assert trace[..|trace|] == trace;
  }

  /** A trace of two or more still has no turning point when every step in it goes backward. */
  lemma TurningPointExists(trace: seq<TraceEntry>)
    ensures HighlightsOf(trace).turningPoint.Some? <==> exists i :: 1 <= i < |trace| && Gap(trace, i) >= 0
  {
    BreakIsEarliestLongest(trace);
    if BreakIndex(trace) > 0 { assert Gap(trace, BreakIndex(trace)) >= 0; }
  }

  /** For one: two squares, the second claimed under a clock a second behind. */
  lemma TwoEntriesAndNoTurningPoint()
    ensures
      var trace := [TraceEntry(0, "a", 1, 1000), TraceEntry(1, "a", 2, 0)];
      HighlightsOf(trace).firstToFall.Some? && HighlightsOf(trace).turningPoint.None?
  {
    var trace := [TraceEntry(0, "a", 1, 1000), TraceEntry(1, "a", 2, 0)];
    assert Gap(trace, 1) == -1000;
    TurningPointExists(trace);
  }

  lemma EndsAreExtremes(trace: seq<TraceEntry>)
    requires trace != []
    ensures FirstToFall(trace).at == Least(TraceTimes(trace)) && LastSquare(trace).at == Greatest(TraceTimes(trace))
  {
    var ts := TraceTimes(trace);
    var i :| 0 <= i < |ts| && ts[i] == Least(ts);
    var j :| 0 <= j < |ts| && ts[j] == Greatest(ts);
    assert trace[i] in trace && trace[j] in trace;
    TimeIsListed(trace, FirstToFall(trace));
    TimeIsListed(trace, LastSquare(trace));
  }

  lemma TimeIsListed(trace: seq<TraceEntry>, e: TraceEntry)
    requires e in trace
    ensures e.at in TraceTimes(trace)
  {
    var i :| 0 <= i < |trace| && trace[i] == e;
    assert TraceTimes(trace)[i] == e.at;
  }

  /**
   The first square falls at nought, the last at the trace's extent; a stall is not negative, its
   break lies inside the extent, and the burst counts at least the break itself.
   */
  lemma MomentsAreInRange(trace: seq<TraceEntry>)
    requires trace != []
    ensures
      var h := HighlightsOf(trace);
      && h.firstToFall.Some? && h.firstToFall.value.atSeconds == 0.0
      && h.lastSquare.Some? && h.lastSquare.value.atSeconds == Extent(trace)
      && (h.turningPoint.Some? ==>
            && 0.0 <= h.turningPoint.value.stallSeconds <= Extent(trace)
            && 0.0 <= h.turningPoint.value.breakSeconds <= Extent(trace)
            && h.turningPoint.value.burst >= 1)
  {
    EndsAreExtremes(trace);
    BreakIsEarliestLongest(trace);
    var b := BreakIndex(trace);
    if b > 0 {
      TimeIsListed(trace, trace[b]);
      TimeIsListed(trace, trace[b - 1]);
      WindowHoldsItsStart(trace, b);
    }
  }

  lemma {:induction false} WindowHoldsItsStart(trace: seq<TraceEntry>, b: nat)
    requires b < |trace|
    ensures InWindow(trace, trace[b].at) >= 1
  {
    if b < |trace| - 1 { WindowHoldsItsStart(trace[..|trace| - 1], b); }
  }

  // --- The replay sequence ---

  function ByAtSeq(): (TraceEntry, TraceEntry) -> bool { (a: TraceEntry, b: TraceEntry) => Before(a, b) }

  lemma TimeOrder()
    ensures StrictWeak(ByAtSeq())
  {}

  datatype SequenceStep = SequenceStep(cell: int, atSeconds: real)

  function SolveSequence(trace: seq<TraceEntry>): (r: seq<SequenceStep>)
    ensures |r| == |trace|
  {
    if trace == [] then []
    else
      var t0, ordered := Least(TraceTimes(trace)), Sort(ByAtSeq(), trace);
      seq(|ordered|, i requires 0 <= i < |ordered| => SequenceStep(ordered[i].cell, InSeconds(ordered[i].at - t0)))
  }

  /** The replay starts at nought, never steps back, and ends at the trace's extent. */
  lemma SequenceIsTimed(trace: seq<TraceEntry>)
    requires trace != []
    ensures
      var s := SolveSequence(trace);
      && s[0].atSeconds == 0.0 && s[|s| - 1].atSeconds == Extent(trace)
      && (forall i, j :: 0 <= i < j < |s| ==> s[i].atSeconds <= s[j].atSeconds)
  {
    hide Sort, Least, Greatest;
    var ordered := Sort(ByAtSeq(), trace);
    OrderedTimesAscend(trace);
    SortKeepsMembers(ByAtSeq(), trace);
    SameTimes(trace, ordered);
    var ts := TraceTimes(ordered);
    EndsOfAscending(TraceTimes(trace), ts);
    var s := SolveSequence(trace);
    assert forall i :: 0 <= i < |s| ==> s[i].atSeconds == InSeconds(ts[i] - ts[0]);
  }

  lemma OrderedTimesAscend(trace: seq<TraceEntry>)
    ensures NeverBack(TraceTimes(Sort(ByAtSeq(), trace)))
  {
    TimeOrder();
    SortSorts(ByAtSeq(), trace);
    var ordered := Sort(ByAtSeq(), trace);
    forall i, j | 0 <= i < j < |ordered| ensures ordered[i].at <= ordered[j].at {
      assert !ByAtSeq()(ordered[j], ordered[i]);
    }
  }

  lemma SameTimes(a: seq<TraceEntry>, b: seq<TraceEntry>)
    requires forall e :: e in a <==> e in b
    ensures forall t :: t in TraceTimes(a) <==> t in TraceTimes(b)
  {
    forall t ensures t in TraceTimes(a) <==> t in TraceTimes(b) {
      if i :| 0 <= i < |a| && a[i].at == t {
        assert a[i] in b;
        var j :| 0 <= j < |b| && b[j] == a[i];
        assert TraceTimes(b)[j] == t;
      }
      if i :| 0 <= i < |b| && b[i].at == t {
        assert b[i] in a;
        var j :| 0 <= j < |a| && a[j] == b[i];
        assert TraceTimes(a)[j] == t;
      }
    }
  }

  lemma EndsOfAscending(ts: seq<int>, us: seq<int>)
    requires ts != [] && us != []
    requires forall t :: t in ts <==> t in us
    requires NeverBack(us)
    ensures Least(ts) == us[0] && Greatest(ts) == us[|us| - 1]
  {
    assert us[0] in ts && us[|us| - 1] in ts;
    var i :| 0 <= i < |us| && us[i] == Least(ts);
    var j :| 0 <= j < |us| && us[j] == Greatest(ts);
  }
}
