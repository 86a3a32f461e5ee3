/**
 The statistics frozen at completion describe the stored logs they were read from. They stay stored
 exactly as long as no actor that missed the answer of the completing commit flushes again.
 */
module Statistics {
  import opened Basics
  import opened Engine
  import opened RoomLaws
  import opened Store
  import opened Snapshots
  import opened Sittings
  import opened Actor
  import opened Journal
  import opened Persistence
  import opened World
  import opened Durability
  import opened RunLogs
  import opened Handoff

  /** Every number of the statistics, from the row and the logs beside it. */
  ghost predicate Describes(db: Db, r: Row, s: Stats) {
    && r.status == Completed && r.completedAt.Some?
    && s.totalEvents + 1 == r.lastSeq
    && s.participantCount == Participants(db.cellLog)
    && s.checkCount == r.checkCount
    && SolveTimes(s.solveTimeSeconds, s.activeSolveSeconds, s.sittingCount)
         == SolveTimesSpec(r.firstFillAt, r.completedAt.value, EventTimes(db.cellLog))
  }

  /** Stored statistics describe their tables; memory holds statistics only once it is finished and flushed. */
  ghost predicate Frozen(w: World) {
    && (w.db.row.Some? && w.db.row.value.stats.Some? ==> Describes(w.db, w.db.row.value, w.db.row.value.stats.value))
    && (w.live.Some? && w.live.value.stats.Some? ==> Done(w.live.value))
  }

  predicate Done(f: Fields) {
    f.image.board.status != Ongoing && f.image.board.checkVote.None? && f.PendingCount() == 0
  }

  /** A task leaves the stored statistics right and keeps memory's only for a finished game. */
  ghost predicate FrozenTask(db: Db, s: Settled) {
    && (|| s.db == db
        || (s.db.row.Some?
            && (s.db.row.value.stats.Some? ==> Describes(s.db, s.db.row.value, s.db.row.value.stats.value))))
    && (s.fields.stats.Some? ==> Done(s.fields))
  }

  lemma PlainFlushFreezes(f: Fields, db: Db, threshold: nat, fault: Fault)
    requires f.stats.None?
    ensures FrozenTask(db, DoFlush(f, db, fault)) && FrozenTask(db, AfterMutationFlush(f, db, threshold, fault))
  {}

  lemma CompletionFreezes(p: Fields, db: Db, n: nat, at: int, fault: Fault)
    requires p.stats.None? && p.image.board.status == Completed && p.image.board.checkVote.None?
    requires p.image.board.seqNo == n && n > 0
    ensures FrozenTask(db, CompleteGame(p, db, n, at, fault))
  {
    var g := p.(image := p.image.(completedAt := Some(at)));
    var after := Appended(db, g.Pending());
    var stats := StatsOf(g.image, n, at, Participants(after.cellLog), EventTimes(after.cellLog));
    assert Describes(after, Print(g.image, Some(stats)), stats);
  }

  lemma FinishFreezes(p: Fields, db: Db, completion: Option<nat>, at: int, cfg: Config, fault: Fault)
    requires p.stats.None?
    requires completion.Some? ==>
      && p.image.board.status == Completed && p.image.board.checkVote.None?
      && completion == Some(p.image.board.seqNo) && p.image.board.seqNo > 0
    ensures FrozenTask(db, Finish(p, db, completion, at, cfg, fault))
  {
    hide CompleteGame, AfterMutationFlush, FrozenTask;
    if completion.Some? { CompletionFreezes(p, db, completion.value, at, fault); }
    else { PlainFlushFreezes(p, db, cfg.threshold, fault); }
  }

  lemma AcceptFreezes(f: Fields, db: Db, v: Verdict, id: CommandId, at: int, cfg: Config, fault: Fault)
    requires f.stats.None? && Sound(v.board, cfg.solution) && Explains(f.image.board, v.events, v.board)
    ensures FrozenTask(db, Accept(f, db, v, id, at, cfg, fault))
  {
    hide Finish, Frames;
    var p, completion := Prepare(f, v, id, at, cfg), CompletionIn(v.events);
    PreparedBoard(f, v, id, at, cfg);
    if completion.Some? { CompletionEndsTheGame(f.image.board, v.events, v.board); }
    FinishFreezes(p, db, completion, at, cfg, fault);
  }

  lemma SubmitFreezes(f: Fields, db: Db, conn: Connection, present: seq<Connection>, msg: Message, at: int,
                      cfg: Config, fault: Fault)
    requires f.stats.None? && Sound(f.image.board, cfg.solution)
    ensures FrozenTask(db, HandleMutation(f, db, conn, present, msg, at, cfg, fault))
  {
    hide Accept, Apply, Explains, Sound, AssembleElectorate;
    var c := ToCommand(msg, conn.userId, present, at);
    var v := Apply(f.image.board, c, cfg.solution);
    if conn.role != Spectator && msg.commandId !in f.image.recent && v.error.None? {
      CommandsAreOk(msg, conn.userId, present, at);
      ApplyLaws(f.image.board, c, cfg.solution);
      AcceptFreezes(f, db, v, msg.commandId, at, cfg, fault);
    }
  }

  lemma ExpiryFreezes(f: Fields, db: Db, at: int, cfg: Config, fault: Fault)
    requires f.stats.None?
    ensures FrozenTask(db, HandleExpiry(f, db, at, cfg, fault))
  {
    hide AfterMutationFlush, Frames;
    var v := Expire(f.image.board);
    if v.events != [] {
      var g := CancelVoteTimer(Emit(f.(image := f.image.(board := v.board)), v.events, at));
      PlainFlushFreezes(g, db, cfg.threshold, fault);
    }
  }

  lemma AbandonFreezes(f: Fields, db: Db, who: UserId, at: int, fault: Fault)
    requires f.stats.None?
    ensures FrozenTask(db, DoAbandon(f, db, who, at, fault))
  {}

  lemma SettleFreezes(w: World, s: Settled)
    requires Frozen(w) && FrozenTask(w.db, s)
    ensures Frozen(Settle(w, s))
  {}

  lemma NextFreezes(grid: Grid, cfg: Config, w: World, s: Step)
    requires Coherent(grid, cfg.solution, w) && Frozen(w)
    ensures Frozen(Next(grid, cfg, w, s))
  {
    hide Agrees, Describes, HandleMutation, HandleExpiry, DoFlush, DoAbandon, Hydrate;
    var g :| Explained(grid, cfg.solution, w, g);
    if w.live.None? {
      if s.Arrive? { ArrivalIsFrozen(grid, cfg, w, s.now, g); }
    } else if w.live.value.stats.Some? {
      FinishedActorIsInert(grid, cfg, w, s);
      StatsStay(grid, cfg, w, s);
    } else {
      TaskFreezes(grid, cfg, w, s, g);
    }
  }

  lemma ArrivalIsFrozen(grid: Grid, cfg: Config, w: World, now: int, g: Ledger)
    requires w.live.None? && Explained(grid, cfg.solution, w, g) && Frozen(w)
    ensures Frozen(Next(grid, cfg, w, Arrive(now)))
  {
    StoredReadsBack(grid, cfg.solution, w.db, g.h);
  }

  lemma StatsStay(grid: Grid, cfg: Config, w: World, s: Step)
    requires w.live.Some? && Done(w.live.value)
    ensures Next(grid, cfg, w, s).live.Some? ==> Done(Next(grid, cfg, w, s).live.value)
  {}

  lemma TaskFreezes(grid: Grid, cfg: Config, w: World, s: Step, g: Ledger)
    requires w.live.Some? && w.live.value.stats.None? && Explained(grid, cfg.solution, w, g) && Frozen(w)
    ensures Frozen(Next(grid, cfg, w, s))
  {
    hide HandleMutation, HandleExpiry, DoFlush, DoAbandon, FrozenTask;
    var f := w.live.value;
    match s
    case Submit(conn, present, msg, at, fault) =>
      SubmitFreezes(f, w.db, conn, present, msg, at, cfg, fault);
      SettleFreezes(w, HandleMutation(f, w.db, conn, present, msg, at, cfg, fault));
    case ExpiryTask(at, fault) =>
      ExpiryFreezes(f, w.db, at, cfg, fault);
      SettleFreezes(Taken(w), HandleExpiry(f, w.db, at, cfg, fault));
    case FlushTask(fault) =>
      PlainFlushFreezes(f, w.db, 0, fault);
      SettleFreezes(Flushing(w), DoFlush(f, w.db, fault));
    case AbandonTask(who, at, fault) =>
      AbandonFreezes(f, w.db, who, at, fault);
      SettleFreezes(w, DoAbandon(f, w.db, who, at, fault));
    case _ =>
  }

  lemma {:induction false} RunsStayFrozen(grid: Grid, cfg: Config, steps: seq<Step>)
    requires PuzzleOk(grid, cfg.solution)
    ensures Frozen(After(grid, cfg, Start(), steps))
  {
    if steps != [] {
      var n := |steps| - 1;
      RunsStayFrozen(grid, cfg, steps[..n]);
      EveryRunIsCoherent(grid, cfg, steps[..n]);
      NextFreezes(grid, cfg, After(grid, cfg, Start(), steps[..n]), steps[n]);
    }
  }

  /**
   Every stored number against the rows themselves: the events are the rows of the three logs, the
   participants those who wrote a cell, the checks the check rows, and the seconds and sittings those
   of the cell log's times, from its first row with a value to the completion.
   */
  ghost predicate SumsUp(db: Db, r: Row, s: Stats) {
    && r.status == Completed && r.completedAt.Some?
    && s.totalEvents == |db.cellLog| + |db.checkLog| + |db.voteLog|
    && s.participantCount == |set row | row in db.cellLog :: row.userId|
    && s.checkCount == |db.checkLog|
    && FirstFillIs(db.cellLog, r.firstFillAt)
    && TellsTheTimes(r.firstFillAt, r.completedAt.value, LogTimes(db.cellLog),
                     SolveTimes(s.solveTimeSeconds, s.activeSolveSeconds, s.sittingCount))
    && s.activeSolveSeconds <= s.solveTimeSeconds
  }

  /** In every reachable state, statistics in the row are those of the logs beside it. */
  lemma StoredStatisticsAreTheLogs(grid: Grid, cfg: Config, steps: seq<Step>)
    requires PuzzleOk(grid, cfg.solution)
    ensures
      var db := After(grid, cfg, Start(), steps).db;
      db.row.Some? && db.row.value.stats.Some? ==> SumsUp(db, db.row.value, db.row.value.stats.value)
  {
    hide After, TellsTheTimes, SolveTimesSpec, FirstFillIs;
    RunsStayFrozen(grid, cfg, steps);
    TablesAlwaysTell(grid, cfg, steps);
    TablesHoldTheRun(grid, cfg, steps);
    StoredFirstFillIsTheLogs(grid, cfg, steps);
    FinishedGameIsCounted(grid, cfg, steps);
    var db := After(grid, cfg, Start(), steps).db;
    if db.row.Some? && db.row.value.stats.Some? {
      var r := db.row.value;
      TimesInLogOrder(db.cellLog);
      SolveTimesTell(r.firstFillAt, r.completedAt.value, EventTimes(db.cellLog));
      ActiveWithinSolve(r.firstFillAt, r.completedAt.value, EventTimes(db.cellLog));
      WritersAreParticipants(db.cellLog);
    }
  }

  lemma WritersAreParticipants(log: seq<CellRow>)
    ensures Participants(log) == |set row | row in log :: row.userId|
  {
    assert (set i | 0 <= i < |log| :: log[i].userId) == set row | row in log :: row.userId;
  }

  // --- How long stored statistics last ---

  /** A committing flush by an actor that never learned of the statistics. */
  predicate Erases(w: World, s: Step) {
    && s.FlushTask? && !s.fault.RolledBack?
    && w.live.Some? && w.live.value.stats.None? && w.live.value.PendingCount() > 0
  }

  predicate RowCompleted(db: Db) { db.row.Some? && db.row.value.status == Completed }

  lemma FinishedRowIsOnlyFlushed(grid: Grid, cfg: Config, w: World, s: Step)
    requires w.live.Some? && w.live.value.image.board.status != Ongoing && w.live.value.image.board.checkVote.None?
    requires !s.FlushTask?
    ensures Next(grid, cfg, w, s).db == w.db
  {}

  lemma IdleFlushKeepsTables(f: Fields, db: Db, fault: Fault)
    requires f.PendingCount() == 0 || fault.RolledBack?
    ensures DoFlush(f, db, fault).db == db
  {}

  lemma HydratingKeepsTables(grid: Grid, cfg: Config, w: World, s: Step)
    requires w.live.None? || s.Crash? || s.Arrive?
    ensures Next(grid, cfg, w, s).db == w.db
  {}

  /** One step: a completed row keeps its statistics unless the step erases them, and none come back. */
  lemma CompletedRowAfter(grid: Grid, cfg: Config, w: World, s: Step)
    requires Coherent(grid, cfg.solution, w) && Frozen(w) && RowCompleted(w.db)
    ensures
      var db' := Next(grid, cfg, w, s).db;
      RowCompleted(db') && db'.row.value.stats == if Erases(w, s) then None else w.db.row.value.stats
  {
    hide HandleMutation, HandleExpiry, DoAbandon, DoFlush, Describes, Agrees;
    var g :| Explained(grid, cfg.solution, w, g);
    if w.live.None? || s.Crash? || s.Arrive? {
      HydratingKeepsTables(grid, cfg, w, s);
    } else {
      var f := w.live.value;
      TerminalRowIsMemory(grid, cfg.solution, f, w.db, g);
      if s.FlushTask? {
        if f.PendingCount() > 0 && !s.fault.RolledBack? {
          RetriedCompletionStaysSilent(grid, cfg.solution, f, w.db, g, s.fault);
        } else {
          IdleFlushKeepsTables(f, w.db, s.fault);
        }
      } else {
        FinishedRowIsOnlyFlushed(grid, cfg, w, s);
      }
    }
  }

  ghost predicate ErasedAt(grid: Grid, cfg: Config, steps: seq<Step>, m: nat) {
    m < |steps| && Erases(After(grid, cfg, Start(), steps[..m]), steps[m])
  }

  /**
   From any moment at which the row holds statistics: they are still there at the end of the run
   exactly when no committing flush since was an uninformed one, and otherwise there are none.
   */
  lemma {:induction false} StatisticsLastUntilErased(grid: Grid, cfg: Config, steps: seq<Step>, n: nat)
    requires PuzzleOk(grid, cfg.solution) && n <= |steps|
    requires RowCompleted(After(grid, cfg, Start(), steps[..n]).db)
    ensures
      var db, db' := After(grid, cfg, Start(), steps[..n]).db, After(grid, cfg, Start(), steps).db;
      && RowCompleted(db')
      && db'.row.value.stats ==
           if exists m :: n <= m && ErasedAt(grid, cfg, steps, m) then None else db.row.value.stats
    decreases |steps|
  {
    hide Next, Erases, Frozen, Explained;
    if n == |steps| {
      assert steps[..n] == steps;
    } else {
      var last := |steps| - 1;
      var front := steps[..last];
      assert front[..n] == steps[..n];
      StatisticsLastUntilErased(grid, cfg, front, n);
      EveryRunIsCoherent(grid, cfg, front);
      RunsStayFrozen(grid, cfg, front);
      CompletedRowAfter(grid, cfg, After(grid, cfg, Start(), front), steps[last]);
      ErasuresSplit(grid, cfg, steps, n);
    }
  }

  lemma ErasuresSplit(grid: Grid, cfg: Config, steps: seq<Step>, n: nat)
    requires n < |steps|
    ensures
      var last := |steps| - 1;
      (exists m :: n <= m && ErasedAt(grid, cfg, steps, m)) <==>
        (exists m :: n <= m && ErasedAt(grid, cfg, steps[..last], m)) || ErasedAt(grid, cfg, steps, last)
  {
    hide Erases, After;
    var last := |steps| - 1;
    forall m: nat | m < last ensures ErasedAt(grid, cfg, steps, m) <==> ErasedAt(grid, cfg, steps[..last], m) {
      assert steps[..last][..m] == steps[..m] && steps[..last][m] == steps[m];
    }
    if m :| n <= m && ErasedAt(grid, cfg, steps[..last], m) { assert ErasedAt(grid, cfg, steps, m); }
    if m :| n <= m && ErasedAt(grid, cfg, steps, m) {
      if m < last { assert ErasedAt(grid, cfg, steps[..last], m); }
    }
  }
}
