/** From the log to the awards: the sheet's rows enter the ladder, and who solved anything is who can be covered. */
module PostGame {
  import opened Basics
  import opened Sorting
  import opened Engine
  import opened SolveLog
  import opened Moments
  import opened Tallies
  import opened StatColumns
  import opened SlotScan
  import opened StatSheet
  import opened TitleStats
  import opened Awards
  import opened Journal
  import opened Actor
  import opened RoomLaws
  import opened Timeline
  import opened World
  import opened RunLogs
  import opened SheetColumns
  import opened Ladder

  /** The ladder's pool: a row for everyone who wrote, in order of first appearance. */
  function PoolOf(s: Sources): seq<Candidate>
    requires s.Valid()
  {
    var members := Members(Writers(s.ordered));
    seq(|members|, i requires 0 <= i < |members| => Candidate(members[i], LadderRow(RowFor(s, members[i]))))
  }

  function SolversOf(trace: seq<TraceEntry>): set<UserId> {
    set i | 0 <= i < |trace| :: trace[i].userId
  }

  lemma FillsMeanSolving(s: Sources, u: UserId)
    requires s.Valid() && forall t :: t in s.byAt <==> t in s.trace
    ensures RowFor(s, u).fills >= 1 <==> u in SolversOf(s.trace)
  {
    CountedIsMember(Solvers(s.byAt), u);
    if u in Solvers(s.byAt) {
      var i :| 0 <= i < |s.byAt| && Solvers(s.byAt)[i] == u;
      assert s.byAt[i] in s.trace;
      var j :| 0 <= j < |s.trace| && s.trace[j] == s.byAt[i];
      assert s.trace[j].userId == u;
    }
    if u in SolversOf(s.trace) {
      var j :| 0 <= j < |s.trace| && s.trace[j].userId == u;
      assert s.trace[j] in s.byAt;
      var i :| 0 <= i < |s.byAt| && s.byAt[i] == s.trace[j];
      assert Solvers(s.byAt)[i] == u;
    }
  }

  lemma PoolIsDistinct(s: Sources)
    requires s.Valid()
    ensures DistinctUsers(PoolOf(s))
  {}

  lemma FillerIsMember(s: Sources, u: UserId)
    requires s.Valid()
    ensures u in Fillers(PoolOf(s)) <==> u in Writers(s.ordered) && RowFor(s, u).fills >= 1
  {
    hide Writers, RowFor;
    var pool, members := PoolOf(s), Members(Writers(s.ordered));
    if u in Fillers(pool) {
      var i :| 0 <= i < |pool| && pool[i].row.fills >= 1 && pool[i].userId == u;
      assert members[i] == u;
    }
    if u in Writers(s.ordered) && RowFor(s, u).fills >= 1 {
      var i :| 0 <= i < |members| && members[i] == u;
      assert pool[i].userId == u && pool[i].row.fills >= 1;
    }
  }

  /** The solvers with a fill, as the ladder counts them, are the users named in the trace. */
  lemma FillersAreTheSolvers(events: seq<SolveEvent>, sol: Solution, slots: seq<Slot>, g: Geometry)
    requires DistinctSeqs(events) && g.cols > 0
    ensures Fillers(PoolOf(SourcesOf(events, sol, slots, g))) == SolversOf(SolveTrace(events, sol))
  {
    var s := SourcesOf(events, sol, slots, g);
    SortKeepsMembers(ByAtSeq(), s.trace);
    SolversWrote(events, sol);
    forall u ensures u in Fillers(PoolOf(s)) <==> u in SolversOf(s.trace) {
      FillsMeanSolving(s, u);
      FillerIsMember(s, u);
      if u in SolversOf(s.trace) {
        var j :| 0 <= j < |s.trace| && s.trace[j].userId == u;
        assert s.trace[j] in s.trace;
      }
    }
  }

  /**
   From any log with at least two writers: the ladder titles at least six of those who solved a
   cell, or all of them if they are fewer, and the order of the log as given does not matter.
   */
  lemma SolversAreTitled(events: seq<SolveEvent>, shuffled: seq<SolveEvent>, sol: Solution, slots: seq<Slot>,
                         g: Geometry)
    requires DistinctSeqs(events) && multiset(events) == multiset(shuffled) && g.cols > 0
    requires |Members(Writers(Ordered(events)))| >= 2
    ensures
      var s := SourcesOf(events, sol, slots, g);
      var awards := Awarded(PoolOf(s), RoomFor(s).stallSeconds, Some(RoomFor(s).sittingCount));
      && |SolversOf(s.trace) * AwardedUsers(awards)| >= Min(6, |SolversOf(s.trace)|)
      && SourcesOf(shuffled, sol, slots, g) == s
  {
    var s := SourcesOf(events, sol, slots, g);
    FillersAreTheSolvers(events, sol, slots, g);
    PoolIsDistinct(s);
    FillersAreTitled(PoolOf(s), RoomFor(s).stallSeconds, Some(RoomFor(s).sittingCount));
    SheetIgnoresInputOrder(events, shuffled, sol, slots, g);
  }

  // --- The stored log's owners ---

  /** The row's value is right, and no row before it was right at its cell. */
  ghost predicate RightFirstInLog(log: seq<CellRow>, sol: Solution, i: int) {
    && 0 <= i < |log| && RightAt(sol, log[i].cell, log[i].value)
    && (forall j :: 0 <= j < i && log[j].cell == log[i].cell ==> !RightAt(sol, log[j].cell, log[j].value))
  }

  ghost predicate SolvedInLog(log: seq<CellRow>, sol: Solution, cell: int, u: UserId) {
    exists i :: RightFirstInLog(log, sol, i) && log[i].cell == cell && log[i].userId == u
  }

  lemma RowIsFirst(log: seq<CellRow>, sol: Solution, i: nat)
    requires Ascends(log, (r: CellRow) => r.seqNo) && i < |log|
    ensures RightFirst(FromRows(log), sol, FromRows(log)[i]) <==> RightFirstInLog(log, sol, i)
  {
    hide RightAt;
    var events := FromRows(log);
    assert forall j :: 0 <= j < |log| ==> events[j] in events;
    if RightFirstInLog(log, sol, i) {
      forall d | d in events && d.cell == events[i].cell && RightAt(sol, d.cell, d.value)
        ensures events[i].seqNo <= d.seqNo
      {
        var j :| 0 <= j < |events| && events[j] == d;
        assert j >= i;
      }
    }
    if RightFirst(events, sol, events[i]) {
      forall j | 0 <= j < i && log[j].cell == log[i].cell ensures !RightAt(sol, log[j].cell, log[j].value) {
        assert events[j] in events && events[j].seqNo < events[i].seqNo;
      }
    }
  }

  /** Who solved a cell in the trace of a log is who was first right there in the log. */
  lemma SolvedIsSolvedInLog(log: seq<CellRow>, sol: Solution, trace: seq<TraceEntry>, cell: int, u: UserId)
    requires Ascends(log, (r: CellRow) => r.seqNo)
    requires forall t :: t in trace <==> exists e :: RightFirst(FromRows(log), sol, e) && EntersAs(e, t)
    ensures Solved(trace, cell, u) <==> SolvedInLog(log, sol, cell, u)
  {
    hide RightFirst, RightAt;
    var events := FromRows(log);
    if k :| 0 <= k < |trace| && trace[k].cell == cell && trace[k].userId == u {
      assert trace[k] in trace;
      var e :| RightFirst(events, sol, e) && EntersAs(e, trace[k]);
      FirstIsAnEvent(events, sol, e);
      var i :| 0 <= i < |events| && events[i] == e;
      RowIsFirst(log, sol, i);
    }
    if i :| RightFirstInLog(log, sol, i) && log[i].cell == cell && log[i].userId == u {
      RowIsFirst(log, sol, i);
      var t := EntryOf(events[i]);
      assert RightFirst(events, sol, events[i]) && EntersAs(events[i], t);
      assert t in trace;
      var k :| 0 <= k < |trace| && trace[k] == t;
      assert Solved(trace, cell, u);
    }
  }

  lemma OwnersOfLog(log: seq<CellRow>, sol: Solution, cell: int, u: UserId)
    requires Ascends(log, (r: CellRow) => r.seqNo)
    ensures
      var owners := Owners(SolveTrace(FromRows(log), sol));
      cell in owners && owners[cell] == u <==> SolvedInLog(log, sol, cell, u)
  {
    hide SolveTrace, Owners, RightFirst, RightAt, Solved, SolvedInLog, EntersAs;
    var events := FromRows(log);
    AscendingSeqsAreDistinct(events);
    TraceAscends(events, sol);
    OwnersSolved(SolveTrace(events, sol));
    TraceSays(events, sol);
    SolvedIsSolvedInLog(log, sol, SolveTrace(events, sol), cell, u);
  }

  lemma FirstIsAnEvent(events: seq<SolveEvent>, sol: Solution, e: SolveEvent)
    requires RightFirst(events, sol, e)
    ensures e in events
  {}

  /** In every reachable state: a cell's owner is the user of the first stored row that was right there. */
  lemma OwnersAreTheFirstRight(grid: Grid, cfg: Config, steps: seq<Step>, cell: int, u: UserId)
    requires PuzzleOk(grid, cfg.solution)
    ensures
      var log := After(grid, cfg, Start(), steps).db.cellLog;
      var owners := Owners(SolveTrace(FromRows(log), cfg.solution));
      cell in owners && owners[cell] == u <==> SolvedInLog(log, cfg.solution, cell, u)
  {
    hide After, Owners, SolveTrace, SolvedInLog;
    TablesHoldTheRun(grid, cfg, steps);
    OwnersOfLog(After(grid, cfg, Start(), steps).db.cellLog, cfg.solution, cell, u);
  }

  // --- The rows as the ladder reads them ---

  /** The ladder reads each column of the sheet under its own name. */
  ghost predicate ReadsOff(r: SolverStats, t: TitleRow) {
    && t.fills == r.fills && t.firstFill == r.firstFill && t.writes == r.writes && t.burst == r.burst
    && t.openingFills == r.openingFills && t.closingFills == r.closingFills
    && t.wrongWrites == r.wrongWrites && t.overwrites == r.overwrites && t.meddles == r.meddles
    && t.slotsTouched == r.slotsTouched && t.marqueeLeads == r.marqueeLeads
    && t.spread == r.spread && t.focus == r.focus && t.homeQuadrantFills == r.homeQuadrantFills
    && t.span == r.span && t.brokeStall == r.brokeStall && t.sittingsPresent == Some(r.sittingsPresent)
  }

  /**
   From any log with two writers: the pool is everybody who wrote, once each, with his row, and every
   title goes by those rows to whoever deserves it.
   */
  lemma EveryTitleGoesByTheSheet(events: seq<SolveEvent>, sol: Solution, slots: seq<Slot>, g: Geometry, t: Title)
    requires DistinctSeqs(events) && g.cols > 0
    requires |Members(Writers(Ordered(events)))| >= 2
    ensures
      var s := SourcesOf(events, sol, slots, g);
      var pool, room := PoolOf(s), RoomFor(s);
      && DistinctUsers(pool)
      && (forall c :: c in pool ==> ReadsOff(RowFor(s, c.userId), c.row))
      && (forall u :: (exists c :: c in pool && c.userId == u) <==> u in Writers(s.ordered))
      && Decided(pool, Awarded(pool, room.stallSeconds, Some(room.sittingCount)), t,
                 TermsOf(t, pool, room.stallSeconds, room.sittingCount))
  {
    hide RowFor, Ordered, SolveTrace, CollapseIdle, Awarded, TermsOf, Decided, Writers;
    var s := SourcesOf(events, sol, slots, g);
    var pool, members := PoolOf(s), Members(Writers(s.ordered));
    PoolIsDistinct(s);
    EveryTitleIsDeserved(pool, RoomFor(s).stallSeconds, Some(RoomFor(s).sittingCount), t);
    forall u ensures (exists c :: c in pool && c.userId == u) <==> u in Writers(s.ordered) {
      if u in members {
        var i :| 0 <= i < |members| && members[i] == u;
        assert pool[i] in pool && pool[i].userId == u;
      }
    }
  }
}
