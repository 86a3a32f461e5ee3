/**
 Evicting an idle actor after its drain and hydrating its successor: exactly when nobody can tell,
 exactly when the successor starts from the same room, and what a write behind the drain does to
 tables that two actors then write.
 */
module Passivation {
  import opened Basics
  import opened Engine
  import opened RoomLaws
  import opened Journal
  import opened Store
  import opened Snapshots
  import opened Actor
  import opened Persistence
  import opened LogReading
  import opened World
  import opened Durability
  import opened Handoff
  import opened Evictions
  import opened Hauntings

  // --- Drain, evict, hydrate ---

  /** After a drain that met no fault. */
  function Drained(grid: Grid, cfg: Config, w: World): World { Next(grid, cfg, w, FlushTask(NoFault)) }

  lemma DrainEmpties(grid: Grid, cfg: Config, w: World, g: Ledger)
    requires w.live.Some? && Agrees(grid, cfg.solution, w.live.value, w.db, g)
    ensures
      var d, f := Drained(grid, cfg, w), w.live.value;
      && d.live.Some? && d.live.value.image == f.image && d.live.value.PendingCount() == 0
      && (ReadRow(grid, d.db.row) == f.image <==> f.PendingCount() > 0 || StoredSeq(w.db) == f.image.board.seqNo)
      && (ReadRow(grid, d.db.row) != f.image ==> ReadRow(grid, d.db.row).board.status != f.image.board.status)
  {
    hide Agrees, DoFlush;
    var f := w.live.value;
    HealthyFlushLands(grid, cfg.solution, f, w.db, g);
    FlushOutcome(f, w.db, NoFault);
    DrainHandsOver(grid, cfg.solution, f, w.db, g);
    if f.PendingCount() == 0 && StoredSeq(w.db) != f.image.board.seqNo {
      OnlyAnAbandonIsLost(grid, cfg.solution, f, w.db, g);
    }
  }

  /**
   After any run, a drain that meets no fault and an eviction with these tasks left in the mailbox:
   nobody can ever tell that the evicted actor is still there if and only if no vote is open and none
   of those tasks does anything. And with no vote open the successor, whenever it is opened, starts
   from exactly the evicted actor's room if and only if the drain found something to write or the row
   was at memory's number already.
   */
  lemma PassivationHandsOver(grid: Grid, cfg: Config, steps: seq<Step>, late: seq<Job>, now: int)
    requires PuzzleOk(grid, cfg.solution)
    requires After(grid, cfg, Start(), steps).live.Some?
    ensures
      var w := After(grid, cfg, Start(), steps);
      var f, evicted := w.live.value, Evicted(grid, cfg, Drained(grid, cfg, w), late);
      && (Invisible(grid, cfg, evicted) <==> f.image.board.checkVote.None? && AllInert(f, late, cfg))
      && (var next := Next(grid, cfg, evicted.w, Arrive(now));
          && next.live.Some?
          && (f.image.board.checkVote.None? ==>
                (next.live.value.image == f.image <==>
                   f.PendingCount() > 0 || StoredSeq(w.db) == f.image.board.seqNo)))
  {
    hide Invisible, Next;
    var w, drain := After(grid, cfg, Start(), steps), steps + [FlushTask(NoFault)];
    EveryRunIsCoherent(grid, cfg, steps);
    assert drain[..|steps|] == steps;
    var d := Drained(grid, cfg, w);
    assert After(grid, cfg, Start(), drain) == d;
    DrainEmpties(grid, cfg, w, LedgerOf(grid, cfg, steps));
    EvictionIsInvisibleIffQuiet(grid, cfg, drain, late);
    DrainedIsQuiet(w.live.value, Ghost(d.live.value, d.posted, late), d.db, cfg);
    SuccessorTakesUp(grid, cfg, d, late, now);
  }

  lemma DrainedIsQuiet(f: Fields, g: Ghost, db: Db, cfg: Config)
    requires g.fields.PendingCount() == 0 && g.fields.image == f.image
    ensures Quiet(g, db, cfg) <==> f.image.board.checkVote.None? && AllInert(f, g.late, cfg)
  {
    hide Inert, Print;
    if AllInert(f, g.late, cfg) { InertGoesByImage(f, g.fields, g.late, cfg); }
    if AllInert(g.fields, g.late, cfg) { InertGoesByImage(g.fields, f, g.late, cfg); }
  }

  lemma SuccessorTakesUp(grid: Grid, cfg: Config, d: World, late: seq<Job>, now: int)
    requires d.live.Some?
    ensures
      var next, m := Next(grid, cfg, Evicted(grid, cfg, d, late).w, Arrive(now)), ReadRow(grid, d.db.row);
      next.live.Some? && next.live.value.image == TakenUp(m, now)
  {
    hide Hydrate;
    HydrationTakesUp(grid, d.db.row, now);
  }

  // --- A write behind the drain ---

  lemma ClearingAnEmptyBoard(grid: Grid, cell: int, who: UserId, id: CommandId, at: int, sol: Solution)
    requires grid.Playable(cell) && grid.blocks <= Upto(grid.CellCount())
    ensures Apply(EmptyBoard(grid), ClearCell(id, cell, who, at), sol) ==
      Verdict([CellSet(1, cell, None, who, id, at)], Cleared(grid, cell, who), None)
  {
    PlayableCount(grid);
    assert cell in Upto(grid.CellCount()) - grid.blocks;
    var b := EmptyBoard(grid);
    assert b.cells[cell := Cell(None, who)] == map[cell := Cell(None, who)];
    assert !b.Full();
  }

  function Cleared(grid: Grid, cell: int, who: UserId): Board {
    EmptyBoard(grid).(seqNo := 1, cells := map[cell := Cell(None, who)])
  }

  function Fresh(grid: Grid): Fields { Fields(EmptyImage(grid), None, [], [], [], false, false) }

  /** A fresh actor with one clear applied, buffered and its flush timer armed. */
  function Holding(grid: Grid, cell: int, who: UserId, id: CommandId, at: int): Fields {
    Fields(EmptyImage(grid).(board := Cleared(grid, cell, who), recent := [id]), None,
           [CellRow(1, cell, who, None, at)], [], [], true, false)
  }

  function Clears(cell: int, who: UserId, id: CommandId, at: int): Step {
    Submit(Connection(0, who, Solver), [], ClearMessage(id, cell), at, NoFault)
  }

  lemma EmitOneCell(f: Fields, e: Event, at: int)
    requires e.CellSet?
    ensures Emit(f, [e], at) == f.(pending := f.pending + [CellRowOf(e)]) && CompletionIn([e]) == None
    ensures Frames([e], at, 0) == [SequencedFrame(e, at, 0)]
  {
    assert [e][..0] == [];
    assert FramesOf(e, at, 0) == [SequencedFrame(e, at, 0)];
  }

  lemma ClearIsBuffered(grid: Grid, cfg: Config, db: Db, cell: int, who: UserId, id: CommandId, at: int)
    requires grid.Playable(cell) && grid.blocks <= Upto(grid.CellCount()) && cfg.threshold >= 2
    ensures
      var s := HandleMutation(Fresh(grid), db, Connection(0, who, Solver), [], ClearMessage(id, cell), at, cfg,
                              NoFault);
      s.fields == Holding(grid, cell, who, id, at) && s.db == db
  {
    hide Apply, Frames;
    ClearingAnEmptyBoard(grid, cell, who, id, at, cfg.solution);
    var e, f := CellSet(1, cell, None, who, id, at), Fresh(grid);
    var applied := f.(image := f.image.(board := Cleared(grid, cell, who), recent := Remember([], id)));
    EmitOneCell(applied, e, at);
    assert [] + [CellRowOf(e)] == [CellRow(1, cell, who, None, at)];
    assert Remember([], id) == [id];
  }

  function RowOf(grid: Grid, cell: int, who: UserId, id: CommandId): Row {
    Print(EmptyImage(grid).(board := Cleared(grid, cell, who), recent := [id]), None)
  }

  lemma AddOne<R>(log: seq<R>, row: R, key: R -> nat)
    ensures AddAbsent(log, [row], key) == if Has(log, key, key(row)) then log else log + [row]
  {
    assert [row][..0] == [];
  }

  /** Holding one clear, a healthy flush writes its row, and its log row unless its number is taken. */
  lemma HeldClearIsFlushed(grid: Grid, cell: int, who: UserId, id: CommandId, at: int, db: Db, timer: bool)
    requires
      || db == NoTables
      || (db.row.Some? && db.row.value.status == Ongoing && db.row.value.lastSeq == 1
          && |db.cellLog| == 1 && db.cellLog[0].seqNo == 1)
    ensures
      var s := DoFlush(Holding(grid, cell, who, id, at).(flushTimer := timer), db, NoFault);
      && s.ok && s.db.row == Some(RowOf(grid, cell, who, id))
      && s.db.cellLog == if db == NoTables then [CellRow(1, cell, who, None, at)] else db.cellLog
  {
    hide Print;
    AddOne(db.cellLog, CellRow(1, cell, who, None, at), CellKey);
    if db != NoTables { assert CellKey(db.cellLog[0]) == 1; }
    PrintedNumber(grid, cell, who, id);
    assert AddAbsent(db.checkLog, [], CheckKey) == db.checkLog && AddAbsent(db.voteLog, [], VoteKey) == db.voteLog;
  }

  lemma PrintedNumber(grid: Grid, cell: int, who: UserId, id: CommandId)
    ensures RowOf(grid, cell, who, id).lastSeq == 1 && RowOf(grid, cell, who, id).status == Ongoing
  {}

  function Chain(grid: Grid, cfg: Config, s: Session, a: Act, b: Act, c: Act): Session {
    Do(grid, cfg, Do(grid, cfg, Do(grid, cfg, s, a), b), c)
  }

  lemma ThreeActs(grid: Grid, cfg: Config, s: Session, a: Act, b: Act, c: Act)
    ensures Acted(grid, cfg, s, [a, b, c]) == Chain(grid, cfg, s, a, b, c)
  {
    hide Do;
    var all := [a, b, c];
    assert all[..2] == [a, b] && [a, b][..1] == [a] && [a][..0] == [];
    assert Acted(grid, cfg, s, [a]) == Do(grid, cfg, s, a);
    assert Acted(grid, cfg, s, [a, b]) == Do(grid, cfg, Do(grid, cfg, s, a), b);
  }

  /** A fresh game's actor, drained. */
  function Idle(grid: Grid): World { World(Some(Fresh(grid)), NOTHING_POSTED, NoTables, []) }

  lemma IdleIsReached(grid: Grid, cfg: Config)
    ensures After(grid, cfg, Start(), [Arrive(0), FlushTask(NoFault)]) == Idle(grid)
  {
    var steps := [Arrive(0), FlushTask(NoFault)];
    assert steps[..1] == [Arrive(0)] && [Arrive(0)][..0] == [];
    assert After(grid, cfg, Start(), [Arrive(0)]) == Next(grid, cfg, Start(), Arrive(0));
  }

  /** The write arrives behind the drain, the actor is evicted, and a successor is hydrated. */
  function EvictedOver(cell: int, who: UserId, id: CommandId): seq<Act> {
    var write := Clears(cell, who, id, 1);
    [Evict([LateSubmit(write.conn, write.msg)]), Main(Arrive(1)), Haunt(0, write)]
  }

  /** The evicted actor's flush timer fires; in the meantime the successor takes a write of its own. */
  function BothWrite(cell: int, other: UserId, id: CommandId): seq<Act> {
    [Haunt(0, FlushTimer), Haunt(0, FlushTask(NoFault)), Main(Clears(cell, other, id, 2))]
  }

  predicate Haunting(s: Session, f: Fields, posted: Posted) { s.ghosts == [Ghost(f, posted, [])] }

  lemma GhostTakesTheWrite(grid: Grid, cfg: Config, cell: int, who: UserId, id: CommandId)
    requires grid.Playable(cell) && grid.blocks <= Upto(grid.CellCount()) && cfg.threshold >= 2
    ensures
      var s := Acted(grid, cfg, Session(Idle(grid), []), EvictedOver(cell, who, id));
      s.w == Idle(grid) && Haunting(s, Holding(grid, cell, who, id, 1), NOTHING_POSTED)
  {
    hide HandleMutation;
    var write := Clears(cell, who, id, 1);
    var evict := Evict([LateSubmit(write.conn, write.msg)]);
    ThreeActs(grid, cfg, Session(Idle(grid), []), evict, Main(Arrive(1)), Haunt(0, write));
    ClearIsBuffered(grid, cfg, NoTables, cell, who, id, 1);
    assert Hydrate(grid, None, 1) == Fresh(grid);
    assert [LateSubmit(write.conn, write.msg)][1..] == [];
  }

  /** One clear flushed: the row and its one log row. */
  predicate OneClear(grid: Grid, db: Db, cell: int, row: UserId, id: CommandId, log: UserId) {
    db.row == Some(RowOf(grid, cell, row, id)) && db.cellLog == [CellRow(1, cell, log, None, 1)]
  }

  lemma GhostFlushes(grid: Grid, cfg: Config, s: Session, cell: int, who: UserId, id: CommandId)
    requires s.w == Idle(grid) && Haunting(s, Holding(grid, cell, who, id, 1), NOTHING_POSTED)
    ensures
      var s' := Do(grid, cfg, Do(grid, cfg, s, Haunt(0, FlushTimer)), Haunt(0, FlushTask(NoFault)));
      && OneClear(grid, s'.w.db, cell, who, id, who)
      && s'.w == Idle(grid).(db := s'.w.db)
  {
    hide DoFlush, Print;
    HeldClearIsFlushed(grid, cell, who, id, 1, NoTables, false);
  }

  lemma SuccessorFlushes(grid: Grid, cfg: Config, w: World, cell: int, who: UserId, other: UserId, id: CommandId,
                         id': CommandId)
    requires grid.Playable(cell) && grid.blocks <= Upto(grid.CellCount()) && cfg.threshold >= 2
    requires w == Idle(grid).(db := w.db) && OneClear(grid, w.db, cell, who, id, who)
    ensures
      var w' := Next(grid, cfg, Next(grid, cfg, w, Clears(cell, other, id', 2)), FlushTask(NoFault));
      OneClear(grid, w'.db, cell, other, id', who)
  {
    hide HandleMutation, DoFlush, Print;
    ClearIsBuffered(grid, cfg, w.db, cell, other, id', 2);
    PrintedNumber(grid, cell, who, id);
    HeldClearIsFlushed(grid, cell, other, id', 2, w.db, true);
  }

  lemma OneClearTells(grid: Grid, db: Db, cell: int, row: UserId, id: CommandId, log: UserId)
    requires grid.Playable(cell) && OneClear(grid, db, cell, row, id, log) && row != log
    ensures !TablesTell(grid, db)
  {
    assert db.cellLog[..0] == [];
    assert db.row.value.cells[cell] == RawCell(None, Some(row));
    assert LastRow(db.cellLog, cell) == RawCell(None, Some(log));
  }

  /**
   A write posted behind the drain, on every puzzle: the evicted actor's timer flushes it after the
   successor was hydrated, so the tables are at 1 while the successor, who never saw it, is at nought.
   The successor's first write takes the same number: its row replaces the evicted one's, its log row
   is skipped, and the stored board no longer is what the log says.
   */
  lemma WriteBehindTheDrainIsASecondWriter(grid: Grid, cfg: Config, cell: int, who: UserId, other: UserId,
                                           id: CommandId, id': CommandId)
    requires grid.Playable(cell) && grid.blocks <= Upto(grid.CellCount()) && cfg.threshold >= 2 && who != other
    ensures
      var s := Acted(grid, cfg, Session(Idle(grid), []), EvictedOver(cell, who, id));
      var late := Do(grid, cfg, Do(grid, cfg, s, Haunt(0, FlushTimer)), Haunt(0, FlushTask(NoFault)));
      var both := Acted(grid, cfg, s, BothWrite(cell, other, id'));
      && After(grid, cfg, Start(), [Arrive(0), FlushTask(NoFault)]) == Idle(grid)
      && StoredSeq(late.w.db) == 1 && late.w.live == Some(Fresh(grid)) && late.w.sent == []
      && !TablesTell(grid, Do(grid, cfg, both, Main(FlushTask(NoFault))).w.db)
  {
    hide Do, Next, Print, TablesTell;
    IdleIsReached(grid, cfg);
    GhostTakesTheWrite(grid, cfg, cell, who, id);
    var s := Acted(grid, cfg, Session(Idle(grid), []), EvictedOver(cell, who, id));
    GhostFlushes(grid, cfg, s, cell, who, id);
    var late := Do(grid, cfg, Do(grid, cfg, s, Haunt(0, FlushTimer)), Haunt(0, FlushTask(NoFault)));
    PrintedNumber(grid, cell, who, id);
    ThreeActs(grid, cfg, s, Haunt(0, FlushTimer), Haunt(0, FlushTask(NoFault)), Main(Clears(cell, other, id', 2)));
    var both := Do(grid, cfg, late, Main(Clears(cell, other, id', 2)));
    MainActs(grid, cfg, late, Clears(cell, other, id', 2));
    MainActs(grid, cfg, both, FlushTask(NoFault));
    SuccessorFlushes(grid, cfg, late.w, cell, who, other, id, id');
    OneClearTells(grid, Do(grid, cfg, both, Main(FlushTask(NoFault))).w.db, cell, other, id', who);
  }

  lemma MainActs(grid: Grid, cfg: Config, s: Session, step: Step)
    ensures Do(grid, cfg, s, Main(step)).w == Next(grid, cfg, s.w, step)
  {}

  /** Once the row has passed it, an evicted actor's flush is refused: it throws and writes nothing. */
  lemma PassedFlushIsRefused(f: Fields, db: Db, fault: Fault)
    requires db.row.Some? && db.row.value.lastSeq > f.image.board.seqNo && f.PendingCount() > 0
    ensures
      var s := DoFlush(f, db, fault);
      !s.ok && s.db == db && s.fields.Pending() == f.Pending()
  {}

  /**
   Two writers at one number, whoever they are: both flushes report success, the second's snapshot
   replaces the first's, and the second's log row is skipped.
   */
  lemma SecondWriterIsHalfLost(db: Db, mine: CellRow, theirs: CellRow, snap: Row, snap': Row)
    requires db.row.Some? && db.row.value.status == Ongoing && snap.status == snap'.status == Ongoing
    requires db.row.value.lastSeq < snap.lastSeq == snap'.lastSeq == mine.seqNo == theirs.seqNo
    requires mine != theirs && !Has(db.cellLog, CellKey, mine.seqNo)
    ensures
      var first := Flush(db, Batch([mine], [], []), snap, NoFault);
      var second := Flush(first.db, Batch([theirs], [], []), snap', NoFault);
      && first.ok && second.ok
      && second.db.row == Some(snap')
      && second.db.cellLog == db.cellLog + [mine]
  {
    var log := db.cellLog + [mine];
    AddOne(db.cellLog, mine, CellKey);
    AddOne(log, theirs, CellKey);
    assert CellKey(log[|db.cellLog|]) == theirs.seqNo;
  }
}
