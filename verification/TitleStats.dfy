/** The whole sheet, and what it conserves. */
module TitleStats {
  import opened Basics
  import opened Sorting
  import opened Engine
  import opened Sittings
  import opened SolveLog
  import opened Timeline
  import opened Moments
  import opened Tallies
  import opened StatColumns
  import opened SlotScan
  import opened StatSheet

  /** What the sheet is computed from: the ordered log and its three traces, the slots and the grid's size. */
  datatype Sources = Sources(
    ordered: seq<SolveEvent>, trace: seq<TraceEntry>, byAt: seq<TraceEntry>, collapsed: seq<TraceEntry>,
    sol: Solution, slots: seq<Slot>, geometry: Geometry)
  {
    predicate Valid() { geometry.cols > 0 && |byAt| == |trace| }
  }

  function SourcesOf(events: seq<SolveEvent>, sol: Solution, slots: seq<Slot>, g: Geometry): Sources {
    var trace := SolveTrace(events, sol);
    Sources(Ordered(events), trace, Sort(ByAtSeq(), trace), SolveTrace(CollapseIdle(events), sol), sol, slots, g)
  }

  function MarkOf(e: TraceEntry): FillMark { FillMark(e.at, e.seqNo) }

  function OpeningOf(s: Sources): seq<TraceEntry>
    requires s.Valid()
  {
    s.byAt[..Stretch(|s.byAt|)]
  }

  function ClosingOf(s: Sources): seq<TraceEntry>
    requires s.Valid()
  {
    s.byAt[|s.byAt| - Stretch(|s.byAt|)..]
  }

  function BreakOwner(collapsed: seq<TraceEntry>): Option<UserId> {
    if BreakIndex(collapsed) == 0 then None else Some(collapsed[BreakIndex(collapsed)].userId)
  }

  /** The counted columns of a row. */
  datatype Counted = Counted(
    opening: nat, closing: nat, writes: nat, wrong: nat, over: nat,
    started: nat, finished: nat, meddles: nat, touched: nat, leads: nat)

  function CountedFor(s: Sources, u: UserId): Counted
    requires s.Valid()
  {
    var c := SlotColumnsOf(s.trace, s.slots);
    Counted(
      Count(Solvers(OpeningOf(s)), u), Count(Solvers(ClosingOf(s)), u), Count(Writers(s.ordered), u),
      Count(WrongWriters(s.ordered, s.sol), u), Count(Overwriters(s.ordered, s.sol, Owners(s.trace)), u),
      Count(c.starters, u), Count(c.finishers, u), Count(c.meddlers, u), Count(c.touchers, u), Count(c.leaders, u))
  }

  /** A row from its solver's own fills and counted columns. */
  function RowFrom(own: seq<TraceEntry>, n: Counted, burst: nat, home: Home, broke: bool, present: nat): SolverStats {
    SolverStats(
      |own|,
      if own == [] then None else Some(MarkOf(own[0])),
      if own == [] then None else Some(MarkOf(own[|own| - 1])),
      n.opening, n.closing, n.writes, burst, n.wrong, n.over, n.started, n.finished, n.meddles, n.touched, n.leads,
      home.spread, if own == [] then 0.0 else home.fills as real / |own| as real, home.fills,
      if own == [] then 0 else (own[|own| - 1].at - own[0].at) / 1000,
      if broke then 1 else 0,
      present)
  }

  function RowFor(s: Sources, u: UserId): SolverStats
    requires s.Valid()
  {
    var own := OwnFills(s.byAt, u);
    RowFrom(own, CountedFor(s, u), Burst(own), Home(HomeFills(own, s.geometry), Spread(own, s.geometry)),
            BreakOwner(s.collapsed) == Some(u), |PresentIn(s.ordered, u)|)
  }

  function RoomFor(s: Sources): Room {
    var turningPoint := HighlightsOf(s.collapsed).turningPoint;
    Room(if turningPoint.None? then 0 else turningPoint.value.stallSeconds.Floor, SittingCount(Times(s.ordered)))
  }

  // --- The method ---

  datatype Columns = Columns(opening: Tally, closing: Tally, writes: WriteTallies, slots: SlotTallies)

  ghost predicate CountsAll(c: Columns, s: Sources)
    requires s.Valid()
  {
    && Counts(c.opening, Solvers(OpeningOf(s))) && Counts(c.closing, Solvers(ClosingOf(s)))
    && CountsWrites(c.writes, s.ordered, s.sol, Owners(s.trace))
    && CountsSlots(c.slots, SlotColumnsOf(s.trace, s.slots))
  }

  method CollectOwn(byAt: seq<TraceEntry>, u: UserId) returns (own: seq<TraceEntry>)
    ensures own == OwnFills(byAt, u)
  {
    own := [];
    for i := 0 to |byAt|
      invariant own == OwnFills(byAt[..i], u)
    {
      assert byAt[..i + 1][..i] == byAt[..i];
      if byAt[i].userId == u { own := own + [byAt[i]]; }
    }
    assert byAt[..|byAt|] == byAt;
  }

  method Attendance(ordered: seq<SolveEvent>, indices: seq<nat>, u: UserId) returns (present: nat)
    requires |indices| == |ordered| && forall i :: 0 <= i < |indices| ==>
      indices[i] == SittingOf(Times(ordered)[..i + 1])
    ensures present == |PresentIn(ordered, u)|
  {
    var sat: set<int> := {};
    for i := 0 to |ordered|
      invariant sat == set k | 0 <= k < i && ordered[k].userId == u :: SittingOf(Times(ordered)[..k + 1])
    {
      if ordered[i].userId == u { sat := sat + {indices[i]}; }
    }
    assert sat == PresentIn(ordered, u);
    present := |sat|;
  }

  function CountedIn(c: Columns, u: UserId): Counted {
    Counted(
      At(c.opening, u), At(c.closing, u), At(c.writes.writes, u), At(c.writes.wrong, u), At(c.writes.over, u),
      At(c.slots.started, u), At(c.slots.finished, u), At(c.slots.meddles, u),
      At(c.slots.touched, u), At(c.slots.leads, u))
  }

  lemma ColumnsRead(c: Columns, s: Sources, u: UserId)
    requires s.Valid() && CountsAll(c, s)
    ensures CountedIn(c, u) == CountedFor(s, u)
  {}

  method BuildRow(s: Sources, c: Columns, breakOwner: Option<UserId>, indices: seq<nat>, u: UserId)
    returns (row: SolverStats)
    requires s.Valid() && CountsAll(c, s) && breakOwner == BreakOwner(s.collapsed)
    requires |indices| == |s.ordered| && forall i :: 0 <= i < |indices| ==>
      indices[i] == SittingOf(Times(s.ordered)[..i + 1])
    ensures row == RowFor(s, u)
  {
    var own := CollectOwn(s.byAt, u);
    var burst := BurstLoop(own);
    var home := HomeLoop(own, s.geometry);
    var present := Attendance(s.ordered, indices, u);
    ColumnsRead(c, s, u);
    row := RowFrom(own, CountedIn(c, u), burst, home, breakOwner == Some(u), present);
  }

  method CountColumns(s: Sources, owners: map<int, UserId>) returns (c: Columns)
    requires s.Valid() && owners == Owners(s.trace)
    ensures CountsAll(c, s)
  {
    var stretch := Stretch(|s.byAt|);
    var opening := TallySolvers(s.byAt[..stretch]);
    var closing := TallySolvers(s.byAt[|s.byAt| - stretch..]);
    var writes := ReplayWrites(s.ordered, s.sol, owners);
    var slotTallies := TallySlots(s.trace, s.slots);
    c := Columns(opening, closing, writes, slotTallies);
  }

  method BuildRows(s: Sources, c: Columns, breakOwner: Option<UserId>, indices: seq<nat>)
    returns (solvers: map<UserId, SolverStats>)
    requires s.Valid() && CountsAll(c, s) && breakOwner == BreakOwner(s.collapsed)
    requires |indices| == |s.ordered| && forall i :: 0 <= i < |indices| ==>
      indices[i] == SittingOf(Times(s.ordered)[..i + 1])
    ensures forall u :: u in solvers <==> u in Writers(s.ordered)
    ensures forall u :: u in solvers ==> solvers[u] == RowFor(s, u)
  {
    solvers := map[];
    var members := Members(Writers(s.ordered));
    for i := 0 to |members|
      invariant forall u :: u in solvers <==> u in members[..i]
      invariant forall u :: u in solvers ==> solvers[u] == RowFor(s, u)
    {
      var row := BuildRow(s, c, breakOwner, indices, members[i]);
      TakeOneMore(members, i);
      solvers := solvers[members[i] := row];
    }
    assert members[..|members|] == members;
  }

  lemma CollapseIgnoresOrder(events: seq<SolveEvent>)
    ensures CollapseIdle(Ordered(events)) == CollapseIdle(events)
    ensures SittingIndices(Ordered(events)) == SittingIndices(events)
  {
    OrderedOnce(events);
  }

  method GatherSources(events: seq<SolveEvent>, sol: Solution, slots: seq<Slot>, g: Geometry) returns (s: Sources)
    ensures s == SourcesOf(events, sol, slots, g)
  {
    var ordered := Sort(BySeq(), events);
    OrderedOnce(events);
    CollapseIgnoresOrder(events);
    var trace := SolveTraceLoop(ordered, sol);
    var active := CollapseIdleLoop(ordered);
    var collapsed := SolveTraceLoop(active, sol);
    s := Sources(ordered, trace, Sort(ByAtSeq(), trace), collapsed, sol, slots, g);
  }

  method OwnersByCell(trace: seq<TraceEntry>) returns (owners: map<int, UserId>)
    ensures owners == Owners(trace)
  {
    owners := map[];
    for i := 0 to |trace|
      invariant owners == Owners(trace[..i])
    {
      assert trace[..i + 1][..i] == trace[..i];
      owners := owners[trace[i].cell := trace[i].userId];
    }
    assert trace[..|trace|] == trace;
  }

  method SheetFrom(s: Sources) returns (sheet: Sheet)
    requires s.Valid() && Ordered(s.ordered) == s.ordered
    ensures forall u :: u in sheet.solvers <==> u in Writers(s.ordered)
    ensures forall u :: u in sheet.solvers ==> sheet.solvers[u] == RowFor(s, u)
    ensures sheet.room == RoomFor(s)
  {
    var owners := OwnersByCell(s.trace);
    var c := CountColumns(s, owners);
    var moments := MomentsLoop(s.collapsed);
    var breakOwner := BreakOwnerLoop(s.collapsed, moments.turningPoint);
    var indices := SittingIndicesLoop(s.ordered);
    SittingIndicesCount(s.ordered);
    var solvers := BuildRows(s, c, breakOwner, indices);
    var sittingCount := if |indices| == 0 then 0 else indices[|indices| - 1] + 1;
    var stall := if moments.turningPoint.None? then 0 else moments.turningPoint.value.stallSeconds.Floor;
    sheet := Sheet(solvers, Room(stall, sittingCount));
  }

  /** A row for everyone who wrote, each column counting what it says, and the room header. */
  method StatsLoop(events: seq<SolveEvent>, sol: Solution, slots: seq<Slot>, g: Geometry) returns (sheet: Sheet)
    requires g.cols > 0
    ensures forall u :: u in sheet.solvers <==> u in Writers(Ordered(events))
    ensures forall u :: u in sheet.solvers ==> sheet.solvers[u] == RowFor(SourcesOf(events, sol, slots, g), u)
    ensures sheet.room == RoomFor(SourcesOf(events, sol, slots, g))
  {
    var s := GatherSources(events, sol, slots, g);
    OrderedOnce(events);
    sheet := SheetFrom(s);
  }

  // --- Conservation ---

  lemma SolversWrote(events: seq<SolveEvent>, sol: Solution)
    requires DistinctSeqs(events)
    ensures forall t :: t in SolveTrace(events, sol) ==> t.userId in Writers(Ordered(events))
  {
    var ordered := Ordered(events);
    SeqOrder();
    SortSorts(BySeq(), events);
    SortKeepsMembers(BySeq(), events);
    SortKeepsDistinct(BySeq(), events);
    WalkAscends(ordered, sol);
    forall t | t in SolveTrace(events, sol) ensures t.userId in Writers(ordered) {
      var e :| e in ordered && t == EntryOf(e);
      var i :| 0 <= i < |ordered| && ordered[i] == e;
      assert Writers(ordered)[i] == t.userId;
    }
  }

  lemma SolversAmong(entries: seq<TraceEntry>, trace: seq<TraceEntry>, users: seq<UserId>)
    requires forall t :: t in entries ==> t in trace
    requires forall t :: t in trace ==> t.userId in users
    ensures forall u :: u in Solvers(entries) ==> u in users
  {
    forall u | u in Solvers(entries) ensures u in users {
      var i :| 0 <= i < |entries| && Solvers(entries)[i] == u;
      assert entries[i] in trace;
    }
  }

  /** How many of the first n slots have a traced cell. */
  function TracedSlots(trace: seq<TraceEntry>, slots: seq<Slot>, n: nat): nat
    requires n <= |slots|
  {
    if n == 0 then 0
    else TracedSlots(trace, slots, n - 1) + (if SlotEntries(trace, slots[n - 1].cells) == [] then 0 else 1)
  }

  lemma {:induction false} EntriesAreTraced(trace: seq<TraceEntry>, cells: seq<int>)
    ensures forall e :: e in SlotEntries(trace, cells) ==> e in trace
  {
    if cells != [] {
      var n := |cells| - 1;
      EntriesAreTraced(trace, cells[..n]);
      EntryIsTraced(trace, cells[n]);
    }
  }

  lemma {:induction false} EntryIsTraced(trace: seq<TraceEntry>, cell: int)
    ensures EntryAt(trace, cell).Some? ==> EntryAt(trace, cell).value in trace
  {
    if trace != [] && trace[|trace| - 1].cell != cell {
      EntryIsTraced(trace[..|trace| - 1], cell);
      assert forall e :: e in trace[..|trace| - 1] ==> e in trace;
    }
  }

  lemma EndsAreUsers(trace: seq<TraceEntry>, cells: seq<int>, users: seq<UserId>)
    requires forall t :: t in trace ==> t.userId in users
    ensures
      var entries := SlotEntries(trace, cells);
      && |Starter(entries)| == |Finisher(entries)| == (if entries == [] then 0 else 1)
      && (forall u :: u in Starter(entries) ==> u in users) && (forall u :: u in Finisher(entries) ==> u in users)
  {
    EntriesAreTraced(trace, cells);
  }

  lemma {:induction false} SlotEnds(trace: seq<TraceEntry>, slots: seq<Slot>, n: nat, users: seq<UserId>)
    requires n <= |slots|
    requires forall t :: t in trace ==> t.userId in users
    ensures
      var c := SlotsUpto(trace, slots, n);
      && |c.starters| == TracedSlots(trace, slots, n) == |c.finishers|
      && (forall u :: u in c.starters ==> u in users) && (forall u :: u in c.finishers ==> u in users)
  {
    hide Starter, Finisher, Meddler, Touchers, Leader, IsMarquee, SlotEntries;
    if n > 0 {
      SlotEnds(trace, slots, n - 1, users);
      EndsAreUsers(trace, slots[n - 1].cells, users);
    }
  }

  lemma ColumnConserves(members: seq<UserId>, owners: seq<UserId>, column: UserId -> nat)
    requires Distinct(members) && (forall u :: u in owners ==> u in members)
    requires forall u :: u in members ==> column(u) == Count(owners, u)
    ensures SumOf(members, column) == |owners|
  {
    Conserved(members, owners);
    SameColumnSameSum(members, column, u => Count(owners, u));
  }

  /**
   Over the rows, fills add up to the trace, writes to the log, opening and closing fills each to
   a fifth of the trace rounded up, and slots started and slots finished each to the slots with a
   traced cell.
   */
  lemma TheSheetConserves(events: seq<SolveEvent>, sol: Solution, slots: seq<Slot>, g: Geometry)
    requires DistinctSeqs(events) && g.cols > 0
    ensures
      var s := SourcesOf(events, sol, slots, g);
      var members := Members(Writers(Ordered(events)));
      && SumOf(members, u => RowFor(s, u).fills) == |s.trace|
      && SumOf(members, u => RowFor(s, u).writes) == |events|
      && SumOf(members, u => RowFor(s, u).openingFills) == Stretch(|s.trace|)
      && SumOf(members, u => RowFor(s, u).closingFills) == Stretch(|s.trace|)
      && SumOf(members, u => RowFor(s, u).slotsStarted) == TracedSlots(s.trace, slots, |slots|)
      && SumOf(members, u => RowFor(s, u).slotsFinished) == TracedSlots(s.trace, slots, |slots|)
  {
    var s := SourcesOf(events, sol, slots, g);
    var writers := Writers(Ordered(events));
    var members := Members(writers);
    SolversWrote(events, sol);
    SortKeepsMembers(ByAtSeq(), s.trace);
    SolversAmong(s.byAt, s.trace, writers);
    SolversAmong(OpeningOf(s), s.trace, writers);
    SolversAmong(ClosingOf(s), s.trace, writers);
    SlotEnds(s.trace, slots, |slots|, writers);
    ColumnConserves(members, Solvers(s.byAt), u => RowFor(s, u).fills);
    ColumnConserves(members, writers, u => RowFor(s, u).writes);
    ColumnConserves(members, Solvers(OpeningOf(s)), u => RowFor(s, u).openingFills);
    ColumnConserves(members, Solvers(ClosingOf(s)), u => RowFor(s, u).closingFills);
    ColumnConserves(members, SlotColumnsOf(s.trace, slots).starters, u => RowFor(s, u).slotsStarted);
    ColumnConserves(members, SlotColumnsOf(s.trace, slots).finishers, u => RowFor(s, u).slotsFinished);
  }

  /** Bounds every row keeps, whoever it is for. */
  lemma RowBounds(s: Sources, u: UserId)
    requires s.Valid()
    ensures
      var r := RowFor(s, u);
      && (r.fills + 3) / 4 <= r.homeQuadrantFills <= r.fills
      && 0.0 <= r.focus <= 1.0 && (r.fills > 0 ==> r.focus >= 0.25)
      && r.burst <= r.fills && (r.fills > 0 ==> r.burst > 0)
      && r.sittingsPresent <= RoomFor(s).sittingCount
      && (r.fills == 0 <==> r.firstFill.None?)
  {
    var own := OwnFills(s.byAt, u);
    HomeIsAtLeastAQuarter(own, s.geometry);
    BurstIsTheMaximum(own, 0);
    AttendanceIsWithinTheSittings(s.ordered, u);
    if own != [] { ShareBounds(HomeFills(own, s.geometry), |own|); }
  }

  lemma {:induction false} OwnFillsAscend(byAt: seq<TraceEntry>, u: UserId)
    requires SortedBy(ByAtSeq(), byAt)
    ensures SortedBy(ByAtSeq(), OwnFills(byAt, u))
  {
    if byAt != [] {
      var n := |byAt| - 1;
      OwnFillsAscend(byAt[..n], u);
      var own := OwnFills(byAt[..n], u);
      forall i | 0 <= i < |own| ensures !ByAtSeq()(byAt[n], own[i]) {
        assert own[i] in own;
        assert own[i] in byAt[..n];
      }
    }
  }

  lemma OwnEnds(own: seq<TraceEntry>, t: TraceEntry)
    requires SortedBy(ByAtSeq(), own) && t in own
    ensures !Before(t, own[0]) && !Before(own[|own| - 1], t)
  {
    var i :| 0 <= i < |own| && own[i] == t;
    assert i > 0 ==> !ByAtSeq()(own[i], own[0]);
    assert i < |own| - 1 ==> !ByAtSeq()(own[|own| - 1], own[i]);
  }

  lemma TraceOrdered(trace: seq<TraceEntry>)
    ensures SortedBy(ByAtSeq(), Sort(ByAtSeq(), trace))
    ensures forall t :: t in Sort(ByAtSeq(), trace) <==> t in trace
  {
    TimeOrder();
    SortSorts(ByAtSeq(), trace);
    SortKeepsMembers(ByAtSeq(), trace);
  }

  /** The marks are the solver's earliest and latest fill by time and number, and the span lies between them. */
  lemma MarksAreTheEnds(s: Sources, u: UserId, t: TraceEntry)
    requires s.Valid() && s.byAt == Sort(ByAtSeq(), s.trace)
    requires t in s.trace && t.userId == u
    ensures
      var r := RowFor(s, u);
      && r.firstFill.Some? && r.lastFill.Some?
      && !Earlier(MarkOf(t), r.firstFill.value) && !Earlier(r.lastFill.value, MarkOf(t))
      && r.span == (r.lastFill.value.at - r.firstFill.value.at) / 1000 && r.span >= 0
  {
    hide SortedBy, Sort, Burst, HomeFills, Spread, CountedFor, PresentIn, BreakOwner;
    TraceOrdered(s.trace);
    OwnFillsAscend(s.byAt, u);
    var own := OwnFills(s.byAt, u);
    OwnEnds(own, t);
    OwnEnds(own, own[0]);
  }

  lemma SplitOrder(byAt: seq<TraceEntry>, k: nat, a: TraceEntry, b: TraceEntry)
    requires SortedBy(ByAtSeq(), byAt) && k <= |byAt| && a in byAt[..k] && b in byAt[k..]
    ensures !Before(b, a)
  {
    var i :| 0 <= i < k && byAt[i] == a;
    var j :| 0 <= j < |byAt| - k && byAt[k..][j] == b;
    assert !ByAtSeq()(byAt[k + j], byAt[i]);
  }

  /**
   Nothing outside the opening stretch comes before anything in it, nor anything in the closing before
   what is outside.
   */
  lemma StretchesAreTheEnds(s: Sources, a: TraceEntry, b: TraceEntry)
    requires s.Valid() && s.byAt == Sort(ByAtSeq(), s.trace)
    ensures a in OpeningOf(s) && b in s.byAt[|OpeningOf(s)|..] ==> !Before(b, a)
    ensures a in ClosingOf(s) && b in s.byAt[..|s.byAt| - |ClosingOf(s)|] ==> !Before(a, b)
    ensures |OpeningOf(s)| == |ClosingOf(s)| == Stretch(|s.trace|)
  {
    hide SortedBy, Sort;
    TraceOrdered(s.trace);
    var k, n := Stretch(|s.byAt|), |s.byAt|;
    if a in OpeningOf(s) && b in s.byAt[k..] { SplitOrder(s.byAt, k, a, b); }
    if a in ClosingOf(s) && b in s.byAt[..n - k] { SplitOrder(s.byAt, n - k, b, a); }
  }

  lemma EndCounts(entries: seq<TraceEntry>, u: UserId)
    ensures Count(Meddler(entries), u) <= Count(Finisher(entries), u)
    ensures Count(Finisher(entries), u) <= Count(Meddler(entries), u) + Count(Starter(entries), u)
  {
    if entries != [] {
      var a, b := FirstToFall(entries).userId, LastSquare(entries).userId;
      assert [a][..0] == [] && [b][..0] == [];
    }
  }

  lemma {:induction false} ForeignFinishes(trace: seq<TraceEntry>, slots: seq<Slot>, n: nat, u: UserId)
    requires n <= |slots|
    ensures
      var c := SlotsUpto(trace, slots, n);
      Count(c.meddlers, u) <= Count(c.finishers, u) <= Count(c.meddlers, u) + Count(c.starters, u)
  {
    hide Count, Starter, Finisher, Meddler, SlotEntries;
    if n > 0 {
      ForeignFinishes(trace, slots, n - 1, u);
      var c, entries := SlotsUpto(trace, slots, n - 1), SlotEntries(trace, slots[n - 1].cells);
      CountAppend(c.starters, Starter(entries), u);
      CountAppend(c.finishers, Finisher(entries), u);
      CountAppend(c.meddlers, Meddler(entries), u);
      EndCounts(entries, u);
    } else {
      NobodyCounts(u);
    }
  }

  lemma NobodyCounts(u: UserId)
    ensures Count([], u) == 0
  {}

  /** How many of a user's events are clears. */
  function Clears(events: seq<SolveEvent>, u: UserId): nat {
    if events == [] then 0
    else
      var e := events[|events| - 1];
      Clears(events[..|events| - 1], u) + (if e.userId == u && e.value.None? then 1 else 0)
  }

  lemma {:induction false} WritesSplit(events: seq<SolveEvent>, sol: Solution, owners: map<int, UserId>, u: UserId)
    ensures Count(WrongWriters(events, sol), u) + Clears(events, u) <= Count(Writers(events), u)
    ensures Count(Overwriters(events, sol, owners), u) <= Count(WrongWriters(events, sol), u) + Clears(events, u)
  {
    hide Count, Claims, HoldsRight, BoardAfter;
    if events == [] {
      NobodyCounts(u);
    } else {
      var n := |events| - 1;
      var e, front := events[n], events[..n];
      WritesSplit(front, sol, owners, u);
      assert Writers(events) == Writers(front) + [e.userId];
      CountPush(Writers(front), e.userId, u);
      CountIfPush(WrongWriters(front, sol), IsWrong(e, sol), e.userId, u);
      CountIfPush(Overwriters(front, sol, owners), Destroys(front, e, sol, owners), e.userId, u);
    }
  }

  /**
   How a row's counts bound each other: an overwrite is a wrong write or a clear, and both are
   writes; a meddle is a finish, and a finish that is no meddle is of a slot the same user started.
   */
  lemma RowRelations(s: Sources, u: UserId)
    requires s.Valid()
    ensures
      var r := RowFor(s, u);
      && r.wrongWrites + Clears(s.ordered, u) <= r.writes
      && r.overwrites <= r.wrongWrites + Clears(s.ordered, u)
      && r.meddles <= r.slotsFinished <= r.meddles + r.slotsStarted
  {
    WritesSplit(s.ordered, s.sol, Owners(s.trace), u);
    ForeignFinishes(s.trace, s.slots, |s.slots|, u);
  }

  lemma ShareBounds(part: nat, whole: nat)
    requires 0 < whole && whole <= 4 * part && part <= whole
    ensures 0.25 <= part as real / whole as real <= 1.0
  {
    var w := whole as real;
    assert part as real <= w && w <= 4.0 * part as real;
    assert (part as real / w) * w == part as real;
  }

  /** The longest step of the trace, the earliest on a tie, and not a step backward. */
  ghost predicate IsBreak(trace: seq<TraceEntry>, b: int) {
    && 1 <= b < |trace| && Gap(trace, b) >= 0
    && (forall i :: 1 <= i < |trace| ==> Gap(trace, i) <= Gap(trace, b))
    && (forall i :: 1 <= i < b ==> Gap(trace, i) < Gap(trace, b))
  }

  lemma BreakIsUnique(trace: seq<TraceEntry>, b: int)
    ensures IsBreak(trace, b) <==> b == BreakIndex(trace) && b > 0
  {
    BreakIsEarliestLongest(trace);
    if IsBreak(trace, b) {
      var best := BreakIndex(trace);
      assert best > 0;
      assert Gap(trace, best) == Gap(trace, b);
    }
  }

  /** The ice-breaker's card and the marker on the ribbon name the same fill: the break the moments chose. */
  lemma BreakOwnerIsTheMoment(s: Sources, u: UserId)
    requires s.Valid()
    ensures RowFor(s, u).brokeStall == 1 <==> exists b :: IsBreak(s.collapsed, b) && s.collapsed[b].userId == u
  {
    BrokeStallIs(s, u);
    var best := BreakIndex(s.collapsed);
    BreakIsUnique(s.collapsed, best);
    if b :| IsBreak(s.collapsed, b) && s.collapsed[b].userId == u { BreakIsUnique(s.collapsed, b); }
  }

  lemma BrokeStallIs(s: Sources, u: UserId)
    requires s.Valid()
    ensures RowFor(s, u).brokeStall == 1 <==> BreakOwner(s.collapsed) == Some(u)
  {}

  /** Input order never matters to the sheet. */
  lemma SheetIgnoresInputOrder(events: seq<SolveEvent>, shuffled: seq<SolveEvent>, sol: Solution,
                               slots: seq<Slot>, g: Geometry)
    requires DistinctSeqs(events) && multiset(events) == multiset(shuffled)
    ensures SourcesOf(events, sol, slots, g) == SourcesOf(shuffled, sol, slots, g)
  {
    SeqOrder();
    DistinctSeqsSeparate(events);
    SortOfShuffle(BySeq(), events, shuffled);
  }
}
