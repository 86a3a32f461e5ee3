/**
 The stat sheet: one row for every user who wrote anything, and a room header. Nothing is judged
 here, only counted, and what is counted over the room adds up over the rows.
 */
module StatSheet {
  import opened Basics
  import opened Engine
  import opened Sittings
  import opened SolveLog
  import opened Timeline
  import opened Moments
  import opened StatColumns

  datatype Geometry = Geometry(rows: nat, cols: nat)

  datatype FillMark = FillMark(at: int, seqNo: int)

  predicate Earlier(a: FillMark, b: FillMark) { a.at < b.at || (a.at == b.at && a.seqNo < b.seqNo) }

  datatype SolverStats = SolverStats(
    fills: nat, firstFill: Option<FillMark>, lastFill: Option<FillMark>,
    openingFills: nat, closingFills: nat, writes: nat, burst: nat, wrongWrites: nat, overwrites: nat,
    slotsStarted: nat, slotsFinished: nat, meddles: nat, slotsTouched: nat, marqueeLeads: nat,
    spread: nat, focus: real, homeQuadrantFills: nat, span: int, brokeStall: nat, sittingsPresent: nat)

  datatype Room = Room(stallSeconds: int, sittingCount: nat)

  datatype Sheet = Sheet(solvers: map<UserId, SolverStats>, room: Room)

  // --- Bursts ---

  /** The most of a solver's fills inside a window that opens on one of them. */
  function Anchored(own: seq<TraceEntry>, n: nat): (r: nat)
    requires n <= |own|
    ensures forall i :: 0 <= i < n ==> InWindow(own, own[i].at) <= r
    ensures r > 0 ==> exists i :: 0 <= i < n && InWindow(own, own[i].at) == r
  {
    if n == 0 then 0
    else
      var before, here := Anchored(own, n - 1), InWindow(own, own[n - 1].at);
      if here > before then here else before
  }

  function Burst(own: seq<TraceEntry>): nat { Anchored(own, |own|) }

  method BurstLoop(own: seq<TraceEntry>) returns (burst: nat)
    ensures burst == Burst(own)
  {
    burst := 0;
    for i := 0 to |own|
      invariant burst == Anchored(own, i)
    {
      var count := WindowCount(own, own[i].at);
      if count > burst { burst := count; }
    }
  }

  lemma {:induction false} WindowWidens(own: seq<TraceEntry>, t: int, t': int)
    requires forall e :: e in own && t <= e.at <= t + BURST_WINDOW_MS ==> t' <= e.at <= t' + BURST_WINDOW_MS
    ensures InWindow(own, t) <= InWindow(own, t')
  {
    if own != [] {
      var n := |own| - 1;
      assert own[n] in own && forall e :: e in own[..n] ==> e in own;
      WindowWidens(own[..n], t, t');
    }
  }

  /** The earliest entry inside the window, if it holds any. */
  lemma {:induction false} EarliestInside(own: seq<TraceEntry>, t: int) returns (i: nat)
    requires InWindow(own, t) > 0
    ensures i < |own| && t <= own[i].at <= t + BURST_WINDOW_MS
    ensures forall e :: e in own && t <= e.at <= t + BURST_WINDOW_MS ==> own[i].at <= e.at
  {
    var n := |own| - 1;
    assert own == own[..n] + [own[n]];
    if InWindow(own[..n], t) > 0 {
      i := EarliestInside(own[..n], t);
      if t <= own[n].at < own[i].at { i := n; }
    } else {
      i := n;
      NoneInside(own[..n], t);
    }
  }

  lemma {:induction false} NoneInside(own: seq<TraceEntry>, t: int)
    requires InWindow(own, t) == 0
    ensures forall e :: e in own ==> !(t <= e.at <= t + BURST_WINDOW_MS)
  {
    if own != [] {
      NoneInside(own[..|own| - 1], t);
      assert own == own[..|own| - 1] + [own[|own| - 1]];
    }
  }

  /** No closed window of the burst length, wherever it opens, holds more fills than the anchored best. */
  lemma BurstIsTheMaximum(own: seq<TraceEntry>, t: int)
    ensures InWindow(own, t) <= Burst(own)
    ensures own != [] ==> Burst(own) > 0 && exists i :: 0 <= i < |own| && InWindow(own, own[i].at) == Burst(own)
  {
    if InWindow(own, t) > 0 {
      var i := EarliestInside(own, t);
      WindowWidens(own, t, own[i].at);
    }
    if own != [] {
      AnchorCountsItself(own, 0, own[0].at);
    }
  }

  lemma {:induction false} AnchorCountsItself(own: seq<TraceEntry>, i: nat, t: int)
    requires i < |own| && t <= own[i].at <= t + BURST_WINDOW_MS
    ensures InWindow(own, t) > 0
  {
    if i < |own| - 1 { AnchorCountsItself(own[..|own| - 1], i, t); }
  }

  // --- Where a solver filled ---

  function RowOf(cell: int, cols: nat): int
    requires cols > 0
  {
    cell / cols
  }

  function ColOf(cell: int, cols: nat): int
    requires cols > 0
  {
    cell % cols
  }

  function Half(n: nat): nat { (n + 1) / 2 }

  function Quadrant(cell: int, g: Geometry): (r: nat)
    requires g.cols > 0
    ensures r < 4
  {
    (if RowOf(cell, g.cols) < Half(g.rows) then 0 else 2) + (if ColOf(cell, g.cols) < Half(g.cols) then 0 else 1)
  }

  function InQuadrant(own: seq<TraceEntry>, q: nat, g: Geometry): (r: nat)
    requires g.cols > 0
    ensures r <= |own|
  {
    if own == [] then 0
    else
      var n := |own| - 1;
      InQuadrant(own[..n], q, g) + (if Quadrant(own[n].cell, g) == q then 1 else 0)
  }

  function HomeFills(own: seq<TraceEntry>, g: Geometry): nat
    requires g.cols > 0
  {
    Max(Max(InQuadrant(own, 0, g), InQuadrant(own, 1, g)), Max(InQuadrant(own, 2, g), InQuadrant(own, 3, g)))
  }

  lemma {:induction false} QuadrantsCover(own: seq<TraceEntry>, g: Geometry)
    requires g.cols > 0
    ensures InQuadrant(own, 0, g) + InQuadrant(own, 1, g) + InQuadrant(own, 2, g) + InQuadrant(own, 3, g) == |own|
  {
    if own != [] { QuadrantsCover(own[..|own| - 1], g); }
  }

  /** The home quadrant holds at least a quarter of the fills, rounded up, and never more than all. */
  lemma HomeIsAtLeastAQuarter(own: seq<TraceEntry>, g: Geometry)
    requires g.cols > 0
    ensures (|own| + 3) / 4 <= HomeFills(own, g) <= |own|
  {
    QuadrantsCover(own, g);
  }

  function Spread(own: seq<TraceEntry>, g: Geometry): nat
    requires g.cols > 0
  {
    |set i | 0 <= i < |own| :: RowOf(own[i].cell, g.cols)| + |set i | 0 <= i < |own| :: ColOf(own[i].cell, g.cols)|
  }

  datatype Home = Home(fills: nat, spread: nat)

  /** One pass over a solver's fills: the lines they touched and the quadrant counts, then the busiest. */
  method HomeLoop(own: seq<TraceEntry>, g: Geometry) returns (home: Home)
    requires g.cols > 0
    ensures home == Home(HomeFills(own, g), Spread(own, g))
  {
    var rows: set<int>, cols: set<int> := {}, {};
    var counts: seq<nat>, firstSeen: seq<Option<nat>> := [0, 0, 0, 0], [None, None, None, None];
    for i := 0 to |own|
      invariant rows == set k | 0 <= k < i :: RowOf(own[k].cell, g.cols)
      invariant cols == set k | 0 <= k < i :: ColOf(own[k].cell, g.cols)
      invariant |counts| == 4 && |firstSeen| == 4
      invariant forall q :: 0 <= q < 4 ==> counts[q] == InQuadrant(own[..i], q, g)
    {
      assert own[..i + 1][..i] == own[..i];
      rows := rows + {RowOf(own[i].cell, g.cols)};
      cols := cols + {ColOf(own[i].cell, g.cols)};
      var q := Quadrant(own[i].cell, g);
      counts := counts[q := counts[q] + 1];
      if firstSeen[q].None? { firstSeen := firstSeen[q := Some(i)]; }
    }
    assert own[..|own|] == own;
    var fills := BusiestLoop(counts, firstSeen);
    return Home(fills, |rows| + |cols|);
  }

  /** The busiest of four, ties to the earliest seen; the tie-break cannot change how busy. */
  method BusiestLoop(counts: seq<nat>, firstSeen: seq<Option<nat>>) returns (best: nat)
    requires |counts| == 4 && |firstSeen| == 4
    ensures best == Max(Max(counts[0], counts[1]), Max(counts[2], counts[3]))
  {
    best := 0;
    var bestSeen: Option<nat> := None;
    for q := 0 to 4
      invariant forall k :: 0 <= k < q ==> counts[k] <= best
      invariant best == 0 || exists k :: 0 <= k < q && counts[k] == best
    {
      var sooner := firstSeen[q].Some? && (bestSeen.None? || firstSeen[q].value < bestSeen.value);
      if counts[q] > best || (counts[q] == best && sooner) {
        best := counts[q];
        bestSeen := firstSeen[q];
      }
    }
    assert counts[0] <= best && counts[1] <= best && counts[2] <= best && counts[3] <= best;
  }

  // --- Who broke the longest stall ---

  /** The entry whose step reproduces the stall's seconds, first in trace order. */
  method BreakOwnerLoop(collapsed: seq<TraceEntry>, turningPoint: Option<TurningPoint>)
    returns (owner: Option<UserId>)
    requires turningPoint == HighlightsOf(collapsed).turningPoint
    ensures owner == if BreakIndex(collapsed) == 0 then None else Some(collapsed[BreakIndex(collapsed)].userId)
  {
    BreakIsEarliestLongest(collapsed);
    if turningPoint.None? { return None; }
    ghost var b := BreakIndex(collapsed);
    var i := 1;
    while i < |collapsed|
      invariant 1 <= i <= b
    {
      if InSeconds(collapsed[i].at - collapsed[i - 1].at) == turningPoint.value.stallSeconds {
        assert Gap(collapsed, i) == Gap(collapsed, b);
        return Some(collapsed[i].userId);
      }
      i := i + 1;
    }
    assert false;
    return None;
  }

  // --- Attendance ---

  /** The sittings in which a user wrote anything. */
  function PresentIn(ordered: seq<SolveEvent>, u: UserId): set<int> {
    set i | 0 <= i < |ordered| && ordered[i].userId == u :: SittingOf(Times(ordered)[..i + 1])
  }

  lemma PresentMeansWriter(ordered: seq<SolveEvent>, u: UserId, n: int)
    requires n in PresentIn(ordered, u)
    ensures u in Writers(ordered) && 0 <= n < SittingCount(Times(ordered))
  {
    var i :| 0 <= i < |ordered| && ordered[i].userId == u && n == SittingOf(Times(ordered)[..i + 1]);
    assert Writers(ordered)[i] == u;
    SittingsOnlyGrow(Times(ordered), i);
  }

  /** Who writes attends, and nobody attends a sitting that was not held. */
  lemma AttendanceIsWithinTheSittings(ordered: seq<SolveEvent>, u: UserId)
    ensures |PresentIn(ordered, u)| <= SittingCount(Times(ordered))
    ensures u in Writers(ordered) <==> PresentIn(ordered, u) != {}
  {
    var present, held := PresentIn(ordered, u), SittingCount(Times(ordered));
    forall n | n in present ensures n in Upto(held) { PresentMeansWriter(ordered, u, n); }
    SubsetSize(present, Upto(held));
    if u in Writers(ordered) {
      var i :| 0 <= i < |ordered| && Writers(ordered)[i] == u;
      assert SittingOf(Times(ordered)[..i + 1]) in present;
    } else {
      forall n | n in present ensures false { PresentMeansWriter(ordered, u, n); }
      NoMembers(present);
    }
  }

  lemma {:induction false} SittingsOnlyGrow(ts: seq<int>, i: nat)
    requires i < |ts|
    ensures SittingOf(ts[..i + 1]) < SittingCount(ts)
    decreases |ts| - i
  {
    if i + 1 == |ts| {
      assert ts[..i + 1] == ts;
    } else {
      SittingsOnlyGrow(ts, i + 1);
      ShiftStep(ts, i);
    }
  }
}
