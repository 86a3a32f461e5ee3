/**
 Who filled what first. The write log is walked in sequence order; the first write to a cell
 that the comparator accepts claims the cell for good. Two projections share that rule: the
 trace, which keeps each claim with its number and time, and the owner map.
 */
module SolveLog {
  import opened Basics
  import opened Sorting
  import opened Text
  import opened Engine
  import opened RoomLaws
  import opened Journal
  import opened Actor
  import opened LogReading
  import opened World

  datatype SolveEvent = SolveEvent(seqNo: int, cell: int, userId: UserId, value: Option<string>, at: int)

  datatype TraceEntry = TraceEntry(cell: int, userId: UserId, seqNo: int, at: int)

  function BySeq(): (SolveEvent, SolveEvent) -> bool { (a: SolveEvent, b: SolveEvent) => a.seqNo < b.seqNo }

  ghost predicate DistinctSeqs(events: seq<SolveEvent>) {
    Distinct(events) && forall a, b :: a in events && b in events && a.seqNo == b.seqNo ==> a == b
  }

  function Ordered(events: seq<SolveEvent>): seq<SolveEvent> { Sort(BySeq(), events) }

  /** A write the comparator accepts; a clear, a block and an unanswered cell never are. */
  predicate Claims(e: SolveEvent, sol: Solution) {
    && e.value.Some? && 0 <= e.cell < |sol| && sol[e.cell].Some?
    && Matches(sol[e.cell].value, e.value.value)
  }

  function EntryOf(e: SolveEvent): TraceEntry { TraceEntry(e.cell, e.userId, e.seqNo, e.at) }

  // --- The two walks ---

  function Walk(ordered: seq<SolveEvent>, sol: Solution): seq<TraceEntry> {
    if ordered == [] then []
    else
      var before, e := Walk(ordered[..|ordered| - 1], sol), ordered[|ordered| - 1];
      if Claims(e, sol) && e.cell !in CellsOf(before) then before + [EntryOf(e)] else before
  }

  function CellsOf(trace: seq<TraceEntry>): set<int> {
    set i | 0 <= i < |trace| :: trace[i].cell
  }

  function SolveTrace(events: seq<SolveEvent>, sol: Solution): seq<TraceEntry> {
    Walk(Ordered(events), sol)
  }

  function Owners(trace: seq<TraceEntry>): map<int, UserId> {
    if trace == [] then map[]
    else Owners(trace[..|trace| - 1])[trace[|trace| - 1].cell := trace[|trace| - 1].userId]
  }

  lemma CellsOneMore(trace: seq<TraceEntry>, t: TraceEntry)
    ensures CellsOf(trace + [t]) == CellsOf(trace) + {t.cell}
  {
    var all := trace + [t];
    forall c ensures c in CellsOf(all) <==> c in CellsOf(trace) || c == t.cell {
      if c in CellsOf(trace) {
        var i :| 0 <= i < |trace| && trace[i].cell == c;
        assert all[i].cell == c;
      }
      if c == t.cell { assert all[|trace|].cell == c; }
    }
  }

  method SolveTraceLoop(events: seq<SolveEvent>, sol: Solution) returns (trace: seq<TraceEntry>)
    ensures trace == SolveTrace(events, sol)
  {
    var seen: set<int> := {};
    trace := [];
    var ordered := Sort(BySeq(), events);
    for i := 0 to |ordered|
      invariant trace == Walk(ordered[..i], sol)
      invariant seen == CellsOf(trace)
    {
      assert ordered[..i + 1][..i] == ordered[..i];
      var event := ordered[i];
      if event.value.None? { continue; }
      if event.cell in seen { continue; }
      if !(0 <= event.cell < |sol|) || sol[event.cell].None? { continue; }
      if Matches(sol[event.cell].value, event.value.value) {
        CellsOneMore(trace, EntryOf(event));
        seen := seen + {event.cell};
        trace := trace + [EntryOf(event)];
      }
    }
    assert ordered[..|ordered|] == ordered;
  }

  /** The owner walk keeps no trace of its own, and yields the trace's cells and users. */
  method FirstCorrect(events: seq<SolveEvent>, sol: Solution) returns (owners: map<int, UserId>)
    ensures owners == Owners(SolveTrace(events, sol))
  {
    owners := map[];
    var ordered := Sort(BySeq(), events);
    for i := 0 to |ordered|
      invariant owners == Owners(Walk(ordered[..i], sol))
    {
      assert ordered[..i + 1][..i] == ordered[..i];
      ghost var before := Walk(ordered[..i], sol);
      OwnersAreTheTrace(before);
      var event := ordered[i];
      if event.value.None? { continue; }
      if event.cell in owners { continue; }
      if !(0 <= event.cell < |sol|) || sol[event.cell].None? { continue; }
      if Matches(sol[event.cell].value, event.value.value) {
        owners := owners[event.cell := event.userId];
        assert (before + [EntryOf(event)])[..|before|] == before;
      }
    }
    assert ordered[..|ordered|] == ordered;
  }

  lemma {:induction false} OwnersAreTheTrace(trace: seq<TraceEntry>)
    ensures Owners(trace).Keys == CellsOf(trace)
  {
    if trace != [] {
      var n := |trace| - 1;
      OwnersAreTheTrace(trace[..n]);
      CellsOneMore(trace[..n], trace[n]);
      assert trace == trace[..n] + [trace[n]];
    }
  }

  // --- What the walk finds ---

  /** The i-th event is the first of the sequence to claim its cell. */
  ghost predicate First(es: seq<SolveEvent>, sol: Solution, i: int) {
    && 0 <= i < |es| && Claims(es[i], sol)
    && forall j :: 0 <= j < i && Claims(es[j], sol) ==> es[j].cell != es[i].cell
  }

  ghost predicate EverClaimed(es: seq<SolveEvent>, sol: Solution, c: int) {
    exists i :: 0 <= i < |es| && Claims(es[i], sol) && es[i].cell == c
  }

  lemma ClaimedOneMore(es: seq<SolveEvent>, sol: Solution, c: int)
    requires es != []
    ensures EverClaimed(es, sol, c) <==>
      EverClaimed(es[..|es| - 1], sol, c) || (Claims(es[|es| - 1], sol) && es[|es| - 1].cell == c)
  {
    var n, front := |es| - 1, es[..|es| - 1];
    if i :| 0 <= i < |es| && Claims(es[i], sol) && es[i].cell == c {
      if i < n { assert Claims(front[i], sol) && front[i].cell == c; }
    }
    if i :| 0 <= i < |front| && Claims(front[i], sol) && front[i].cell == c {
      assert Claims(es[i], sol) && es[i].cell == c;
    }
  }

  /** A cell is in the trace exactly when some event ever claimed it. */
  lemma {:induction false} WalkCells(es: seq<SolveEvent>, sol: Solution)
    ensures forall c :: c in CellsOf(Walk(es, sol)) <==> EverClaimed(es, sol, c)
  {
    if es != [] {
      var n := |es| - 1;
      WalkCells(es[..n], sol);
      CellsOneMore(Walk(es[..n], sol), EntryOf(es[n]));
      forall c ensures c in CellsOf(Walk(es, sol)) <==> EverClaimed(es, sol, c) {
        ClaimedOneMore(es, sol, c);
      }
    }
  }

  ghost predicate Finds(es: seq<SolveEvent>, sol: Solution, t: TraceEntry) {
    exists i :: First(es, sol, i) && t == EntryOf(es[i])
  }

  lemma FindsOneMore(es: seq<SolveEvent>, sol: Solution, t: TraceEntry)
    requires es != []
    ensures
      var n := |es| - 1;
      Finds(es, sol, t) <==> Finds(es[..n], sol, t) || (First(es, sol, n) && t == EntryOf(es[n]))
  {
    var n, front := |es| - 1, es[..|es| - 1];
    if i :| First(front, sol, i) && t == EntryOf(front[i]) {
      assert forall j :: 0 <= j < |front| ==> front[j] == es[j];
      assert First(es, sol, i);
    }
    if i :| First(es, sol, i) && t == EntryOf(es[i]) {
      assert forall j :: 0 <= j < |front| ==> front[j] == es[j];
      if i < n { assert First(front, sol, i); }
    }
  }

  lemma FirstAtEnd(es: seq<SolveEvent>, sol: Solution)
    requires es != []
    ensures
      var n := |es| - 1;
      First(es, sol, n) <==> Claims(es[n], sol) && es[n].cell !in CellsOf(Walk(es[..n], sol))
  {
    var n, front := |es| - 1, es[..|es| - 1];
    WalkCells(front, sol);
    if EverClaimed(front, sol, es[n].cell) {
      var j :| 0 <= j < n && Claims(front[j], sol) && front[j].cell == es[n].cell;
      assert Claims(es[j], sol) && es[j].cell == es[n].cell;
    }
  }

  /** The walk collects exactly the entries of the events that are first to claim their cell. */
  lemma {:induction false} WalkFinds(es: seq<SolveEvent>, sol: Solution)
    ensures forall t :: t in Walk(es, sol) <==> Finds(es, sol, t)
  {
    if es != [] {
      var n := |es| - 1;
      WalkFinds(es[..n], sol);
      FirstAtEnd(es, sol);
      forall t ensures t in Walk(es, sol) <==> Finds(es, sol, t) {
        FindsOneMore(es, sol, t);
      }
    }
  }

  lemma SeqOrder()
    ensures StrictWeak(BySeq())
  {}

  lemma DistinctSeqsSeparate(events: seq<SolveEvent>)
    requires DistinctSeqs(events)
    ensures Separates(BySeq(), events)
  {}

  /** The e that claims its cell with the smallest number among everything that claims it. */
  ghost predicate EarliestClaim(events: seq<SolveEvent>, sol: Solution, e: SolveEvent) {
    && e in events && Claims(e, sol)
    && forall d :: d in events && Claims(d, sol) && d.cell == e.cell ==> e.seqNo <= d.seqNo
  }

  lemma FirstIsEarliest(events: seq<SolveEvent>, sol: Solution, i: int)
    requires DistinctSeqs(events) && 0 <= i < |events|
    ensures First(Ordered(events), sol, i) <==> EarliestClaim(events, sol, Ordered(events)[i])
  {
    var es := Ordered(events);
    SeqOrder();
    SortSorts(BySeq(), events);
    SortKeepsMembers(BySeq(), events);
    SortKeepsDistinct(BySeq(), events);
    if First(es, sol, i) {
      forall d | d in events && Claims(d, sol) && d.cell == es[i].cell ensures es[i].seqNo <= d.seqNo {
        var j :| 0 <= j < |es| && es[j] == d;
        assert j >= i;
      }
    }
    if EarliestClaim(events, sol, es[i]) {
      forall j | 0 <= j < i && Claims(es[j], sol) ensures es[j].cell != es[i].cell {
        assert es[j] in events && es[j] != es[i];
      }
    }
  }

  /**
   The trace holds, for each cell that was ever right, the write that was first: exactly the
   accepted writes no accepted write to the same cell precedes. It is in sequence order.
   */
  lemma TraceIsEarliestClaims(events: seq<SolveEvent>, sol: Solution)
    requires DistinctSeqs(events)
    ensures forall t :: t in SolveTrace(events, sol) <==> exists e :: EarliestClaim(events, sol, e) && t == EntryOf(e)
  {
    var es := Ordered(events);
    WalkFinds(es, sol);
    SortKeepsMembers(BySeq(), events);
    forall t ensures t in SolveTrace(events, sol) <==> exists e :: EarliestClaim(events, sol, e) && t == EntryOf(e) {
      assert t in Walk(es, sol) <==> Finds(es, sol, t);
      if i :| First(es, sol, i) && t == EntryOf(es[i]) { FirstIsEarliest(events, sol, i); }
      if e :| EarliestClaim(events, sol, e) && t == EntryOf(e) {
        var i :| 0 <= i < |es| && es[i] == e;
        FirstIsEarliest(events, sol, i);
      }
    }
  }

  ghost predicate AscendingTrace(trace: seq<TraceEntry>) {
    forall i, j :: 0 <= i < j < |trace| ==> trace[i].seqNo < trace[j].seqNo && trace[i].cell != trace[j].cell
  }

  lemma {:induction false} WalkAscends(es: seq<SolveEvent>, sol: Solution)
    requires SortedBy(BySeq(), es) && DistinctSeqs(es)
    ensures AscendingTrace(Walk(es, sol))
    ensures forall t :: t in Walk(es, sol) ==> exists e :: e in es && t == EntryOf(e)
  {
    if es != [] {
      var n := |es| - 1;
      assert forall e :: e in es[..n] ==> e in es;
      WalkAscends(es[..n], sol);
      var before := Walk(es[..n], sol);
      forall i | 0 <= i < |before| ensures before[i].seqNo < es[n].seqNo && before[i].cell in CellsOf(before) {
        assert before[i] in before;
        var e :| e in es[..n] && before[i] == EntryOf(e);
        assert e in es && e != es[n];
      }
    }
  }

  /** The trace is in sequence order and names no cell twice. */
  lemma TraceAscends(events: seq<SolveEvent>, sol: Solution)
    requires DistinctSeqs(events)
    ensures AscendingTrace(SolveTrace(events, sol))
  {
    SeqOrder();
    SortSorts(BySeq(), events);
    SortKeepsMembers(BySeq(), events);
    SortKeepsDistinct(BySeq(), events);
    WalkAscends(Ordered(events), sol);
  }

  /** Input order never matters. */
  lemma ShuffleChangesNothing(events: seq<SolveEvent>, shuffled: seq<SolveEvent>, sol: Solution)
    requires DistinctSeqs(events) && multiset(events) == multiset(shuffled)
    ensures SolveTrace(events, sol) == SolveTrace(shuffled, sol)
  {
    SeqOrder();
    DistinctSeqsSeparate(events);
    SortOfShuffle(BySeq(), events, shuffled);
  }

  // --- Growth ---

  lemma {:induction false} WalkGrows(es: seq<SolveEvent>, more: seq<SolveEvent>, sol: Solution)
    ensures Walk(es, sol) <= Walk(es + more, sol)
  {
    if more == [] {
      assert es + more == es;
    } else {
      assert (es + more)[..|es + more| - 1] == es + more[..|more| - 1];
      WalkGrows(es, more[..|more| - 1], sol);
    }
  }

  lemma SortOfLaterAppended(events: seq<SolveEvent>, later: seq<SolveEvent>)
    requires DistinctSeqs(events + later)
    requires forall a, b :: a in events && b in later ==> a.seqNo < b.seqNo
    ensures Ordered(events + later) == Ordered(events) + Ordered(later)
  {
    SeqOrder();
    var one, two := Ordered(events), Ordered(later);
    SortSorts(BySeq(), events);
    SortSorts(BySeq(), later);
    SortSorts(BySeq(), events + later);
    SortKeepsMembers(BySeq(), events);
    SortKeepsMembers(BySeq(), later);
    SortKeepsMembers(BySeq(), events + later);
    forall i, j | 0 <= i < j < |one + two| ensures !BySeq()((one + two)[j], (one + two)[i]) {
      if i < |one| <= j {
        assert one[i] in events && two[j - |one|] in later;
      }
    }
    assert multiset(one + two) == multiset(events + later);
    SortedUnique(BySeq(), Ordered(events + later), one + two);
  }

  lemma {:induction false} OwnersGrow(trace: seq<TraceEntry>, longer: seq<TraceEntry>)
    requires trace <= longer && AscendingTrace(longer)
    ensures forall c :: c in Owners(trace) ==> c in Owners(longer) && Owners(longer)[c] == Owners(trace)[c]
    decreases |longer|
  {
    if |trace| == |longer| {
      assert trace == longer;
    } else {
      var n := |longer| - 1;
      assert trace <= longer[..n];
      OwnersGrow(trace, longer[..n]);
      OwnersAreTheTrace(longer[..n]);
    }
  }

  /** Later events never take a cell away: the trace only grows at its end, and owners stay. */
  lemma LaterEventsOnlyAdd(events: seq<SolveEvent>, later: seq<SolveEvent>, sol: Solution)
    requires DistinctSeqs(events + later)
    requires forall a, b :: a in events && b in later ==> a.seqNo < b.seqNo
    ensures SolveTrace(events, sol) <= SolveTrace(events + later, sol)
    ensures
      var owners, grown := Owners(SolveTrace(events, sol)), Owners(SolveTrace(events + later, sol));
      forall c :: c in owners ==> c in grown && grown[c] == owners[c]
  {
    SortOfLaterAppended(events, later);
    WalkGrows(Ordered(events), Ordered(later), sol);
    TraceAscends(events + later, sol);
    OwnersGrow(SolveTrace(events, sol), SolveTrace(events + later, sol));
  }

  // --- Times do not matter to who was first ---

  /** The same events with other times. */
  ghost predicate Retimed(a: seq<SolveEvent>, b: seq<SolveEvent>) {
    |a| == |b| && forall i :: 0 <= i < |a| ==> b[i] == a[i].(at := b[i].at)
  }

  ghost predicate SameClaims(a: seq<TraceEntry>, b: seq<TraceEntry>) {
    |a| == |b| && forall i :: 0 <= i < |a| ==> b[i] == a[i].(at := b[i].at)
  }

  lemma SameClaimsSameCells(a: seq<TraceEntry>, b: seq<TraceEntry>)
    requires SameClaims(a, b)
    ensures CellsOf(a) == CellsOf(b)
  {
    forall c ensures c in CellsOf(a) <==> c in CellsOf(b) {
      if i :| 0 <= i < |a| && a[i].cell == c { assert b[i].cell == c; }
      if i :| 0 <= i < |b| && b[i].cell == c { assert a[i].cell == c; }
    }
  }

  lemma {:induction false} RetimingKeepsClaims(a: seq<SolveEvent>, b: seq<SolveEvent>, sol: Solution)
    requires Retimed(a, b)
    ensures SameClaims(Walk(a, sol), Walk(b, sol))
  {
    hide CellsOf, Matches;
    if a != [] {
      var n := |a| - 1;
      RetimingKeepsClaims(a[..n], b[..n], sol);
      SameClaimsSameCells(Walk(a[..n], sol), Walk(b[..n], sol));
      assert b[n] == a[n].(at := b[n].at);
    }
  }

  lemma {:induction false} SameClaimsSameOwners(a: seq<TraceEntry>, b: seq<TraceEntry>)
    requires SameClaims(a, b)
    ensures Owners(a) == Owners(b)
  {
    if a != [] {
      var n := |a| - 1;
      SameClaimsSameOwners(a[..n], b[..n]);
      assert b[n] == a[n].(at := b[n].at);
    }
  }

  // --- The log of a finished game ---

  function FromRow(r: CellRow): SolveEvent { SolveEvent(r.seqNo, r.cell, r.userId, r.value, r.at) }

  function FromRows(log: seq<CellRow>): seq<SolveEvent> {
    seq(|log|, i requires 0 <= i < |log| => FromRow(log[i]))
  }

  lemma {:induction false} LastRowIsARow(log: seq<CellRow>, c: int)
    requires LastRow(log, c).v.Some?
    ensures exists i :: 0 <= i < |log| && log[i].cell == c && log[i].value == LastRow(log, c).v
  {
    var n := |log| - 1;
    if log[n].cell != c {
      LastRowIsARow(log[..n], c);
      var i :| 0 <= i < |log[..n]| && log[..n][i].cell == c && log[..n][i].value == LastRow(log, c).v;
      assert log[i].cell == c;
    }
  }

  /** Once a game is completed, every cell with an answer has an owner, and no other cell has. */
  lemma CompletedGameIsFullyOwned(grid: Grid, sol: Solution, h: History)
    requires Good(grid, sol, h) && ImageOf(grid, h).board.status == Completed
    ensures Owners(SolveTrace(FromRows(CellRows(h)), sol)).Keys == set c | 0 <= c < |sol| && sol[c].Some?
  {
    var b, log := ImageOf(grid, h).board, CellRows(h);
    var events := FromRows(log);
    var trace := SolveTrace(events, sol);
    OwnersAreTheTrace(trace);
    WalkCells(Ordered(events), sol);
    SortKeepsMembers(BySeq(), events);
    forall c | 0 <= c < |sol| && sol[c].Some? ensures c in CellsOf(trace) {
      assert !Fails(b, sol, c);
      LastRowWins(grid, h, c);
      LastRowIsARow(log, c);
      var i :| 0 <= i < |log| && log[i].cell == c && log[i].value == b.ValueAt(c);
      assert events[i] in Ordered(events);
      var j :| 0 <= j < |Ordered(events)| && Ordered(events)[j] == events[i];
      assert EverClaimed(Ordered(events), sol, c);
    }
  }

  /** In every reachable state: if the stored game is completed, its stored log gives every cell an owner. */
  lemma CompletedTablesAreFullyOwned(grid: Grid, cfg: Config, steps: seq<Step>)
    requires PuzzleOk(grid, cfg.solution)
    ensures
      var db := After(grid, cfg, Start(), steps).db;
      db.row.Some? && db.row.value.status == Completed ==>
        Owners(SolveTrace(FromRows(db.cellLog), cfg.solution)).Keys ==
          set c | 0 <= c < |cfg.solution| && cfg.solution[c].Some?
  {
    EveryRunIsCoherent(grid, cfg, steps);
    var w := After(grid, cfg, Start(), steps);
    var g :| Explained(grid, cfg.solution, w, g);
    if w.live.None? { assert g.h[..g.k] == g.h; }
    if w.db.row.Some? && w.db.row.value.status == Completed {
      CompletedGameIsFullyOwned(grid, cfg.solution, g.h[..g.k]);
    }
  }
}
