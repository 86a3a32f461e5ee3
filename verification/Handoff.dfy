/**
 Runs in which no flush faults, and what a successful drain guarantees to the next actor. A
 drain that finds nothing buffered reports success without writing; the one thing it can lose
 that way is an abandon whose own flush failed, since an abandon is buffered nowhere.
 */
module Handoff {
  import opened Basics
  import opened Engine
  import opened RoomLaws
  import opened Journal
  import opened Store
  import opened Snapshots
  import opened Actor
  import opened Persistence
  import opened World
  import opened Durability

  // --- Without faults ---

  predicate Faultless(s: Step) {
    match s
    case Submit(_, _, _, _, fault) => fault == NoFault
    case ExpiryTask(_, fault) => fault == NoFault
    case FlushTask(fault) => fault == NoFault
    case AbandonTask(_, _, fault) => fault == NoFault
    case _ => true
  }

  ghost predicate AllFaultless(steps: seq<Step>) {
    forall i :: 0 <= i < |steps| ==> Faultless(steps[i])
  }

  /** The sole writer's healthy flush is never refused: it lands and empties the buffer. */
  lemma HealthyFlushLands(grid: Grid, sol: Solution, f: Fields, db: Db, g: Ledger)
    requires Agrees(grid, sol, f, db, g)
    ensures DoFlush(f, db, NoFault).ok && DoFlush(f, db, NoFault).fields.PendingCount() == 0
  {
    DoFlushAgrees(grid, sol, f, db, g, NoFault);
  }

  ghost predicate Small(w: World, threshold: nat) {
    w.live.Some? ==> w.live.value.PendingCount() < threshold
  }

  lemma AcceptKeepsSmall(grid: Grid, cfg: Config, f: Fields, db: Db, g: Ledger, c: Command, v: Verdict, at: int)
    requires Agrees(grid, cfg.solution, f, db, g) && !c.ExpireVote? && cfg.threshold >= 1
    requires Shaped(f.image.board, c, v) && Lawful(f.image.board, v, cfg.solution)
    requires c.commandId !in f.image.recent
    ensures Accept(f, db, v, c.commandId, at, cfg, NoFault).fields.PendingCount() < cfg.threshold
  {
    var p, completion := Prepare(f, v, c.commandId, at, cfg), CompletionIn(v.events);
    var grown := Grown(g, Stamp(v.events, at, at + cfg.ttl));
    var stamped := PrepareAgrees(grid, cfg, f, db, g, c, v, at);
    FinishKeepsSmall(grid, cfg, p, db, grown, completion, at);
  }

  lemma FinishKeepsSmall(grid: Grid, cfg: Config, p: Fields, db: Db, g: Ledger, completion: Option<nat>, at: int)
    requires Agrees(grid, cfg.solution, CompletionStamped(p, completion, at), db, g) && g.h != []
        && cfg.threshold >= 1
    ensures Finish(p, db, completion, at, cfg, NoFault).fields.PendingCount() < cfg.threshold
  {
    if completion.Some? {
      CompleteAgrees(grid, cfg.solution, p, db, g, completion.value, at, NoFault);
    } else if p.PendingCount() >= cfg.threshold {
      HealthyFlushLands(grid, cfg.solution, p, db, g);
    }
  }

  lemma SubmitKeepsSmall(grid: Grid, cfg: Config, f: Fields, db: Db, g: Ledger, conn: Connection,
                         present: seq<Connection>, msg: Message, at: int)
    requires Agrees(grid, cfg.solution, f, db, g) && f.PendingCount() < cfg.threshold
    ensures HandleMutation(f, db, conn, present, msg, at, cfg, NoFault).fields.PendingCount() < cfg.threshold
  {
    var c := ToCommand(msg, conn.userId, present, at);
    var v := Apply(f.image.board, c, cfg.solution);
    if conn.role != Spectator && msg.commandId !in f.image.recent && v.error.None? {
      CommandsAreOk(msg, conn.userId, present, at);
      ApplyLaws(f.image.board, c, cfg.solution);
      AcceptedShape(f.image.board, c, cfg.solution);
      AcceptKeepsSmall(grid, cfg, f, db, g, c, v, at);
    }
  }

  lemma ExpiryKeepsSmall(grid: Grid, cfg: Config, f: Fields, db: Db, g: Ledger, at: int)
    requires Agrees(grid, cfg.solution, f, db, g) && f.PendingCount() < cfg.threshold
    ensures HandleExpiry(f, db, at, cfg, NoFault).fields.PendingCount() < cfg.threshold
  {
    if f.image.board.checkVote.Some? {
      ExpiredAgrees(grid, cfg.solution, f, db, g, at);
      ExpiryIsCloseThenFlush(f, db, at, cfg, NoFault);
      var grown := Grown(g, Stamp(Expire(f.image.board).events, at, 0));
      FinishKeepsSmall(grid, cfg, ExpiredFields(f, at), db, grown, None, at);
    }
  }

  lemma AbandonEmpties(grid: Grid, sol: Solution, f: Fields, db: Db, g: Ledger, who: UserId, at: int)
    requires Agrees(grid, sol, f, db, g) && f.image.board.status == Ongoing
    ensures DoAbandon(f, db, who, at, NoFault).fields.PendingCount() == 0
    ensures Announcements(DoAbandon(f, db, who, at, NoFault).frames) == 1
  {
    hide CloseForAbandon, AbandonFrames, Agrees;
    MarkedAgrees(grid, sol, f, db, g, at);
    var c := CloseForAbandon(f, at);
    var m := MarkAbandoned(c, at);
    FlushAbandonedAgrees(grid, sol, m, db, MarkedLedger(c, ClosedLedger(f, g, at), at), who, at, NoFault);
    AbandonFramesAreQuiet(f, at);
    OneAnnouncement(AbandonedFrame(m.image.board.seqNo, at, who));
    AnnouncementsAppend(AbandonFrames(f, at), [AbandonedFrame(m.image.board.seqNo, at, who)]);
  }

  lemma AbandonKeepsSmall(grid: Grid, sol: Solution, f: Fields, db: Db, g: Ledger, who: UserId, at: int,
                          threshold: nat)
    requires Agrees(grid, sol, f, db, g) && f.PendingCount() < threshold
    ensures DoAbandon(f, db, who, at, NoFault).fields.PendingCount() < threshold
  {
    if f.image.board.status == Ongoing { AbandonEmpties(grid, sol, f, db, g, who, at); }
  }

  lemma TaskKeepsSmall(grid: Grid, cfg: Config, w: World, s: Step, g: Ledger)
    requires w.live.Some? && Agrees(grid, cfg.solution, w.live.value, w.db, g)
    requires Faultless(s) && cfg.threshold >= 2 && Small(w, cfg.threshold)
    ensures Small(Next(grid, cfg, w, s), cfg.threshold)
  {
    var f := w.live.value;
    match s
    case Submit(conn, present, msg, at, _) => SubmitKeepsSmall(grid, cfg, f, w.db, g, conn, present, msg, at);
    case ExpiryTask(at, _) => ExpiryKeepsSmall(grid, cfg, f, w.db, g, at);
    case FlushTask(_) => HealthyFlushLands(grid, cfg.solution, f, w.db, g);
    case AbandonTask(who, at, _) => AbandonKeepsSmall(grid, cfg.solution, f, w.db, g, who, at, cfg.threshold);
    case _ =>
  }

  lemma NextKeepsSmall(grid: Grid, cfg: Config, w: World, s: Step)
    requires Coherent(grid, cfg.solution, w) && Faultless(s) && cfg.threshold >= 2 && Small(w, cfg.threshold)
    ensures Small(Next(grid, cfg, w, s), cfg.threshold)
  {
    var g :| Explained(grid, cfg.solution, w, g);
    if w.live.Some? {
      TaskKeepsSmall(grid, cfg, w, s, g);
    } else if s.Arrive? {
      HydratesSmall(grid, w.db.row, s.now);
    }
  }

  lemma HydratesSmall(grid: Grid, row: Option<Row>, now: int)
    ensures Hydrate(grid, row, now).PendingCount() <= 1
  {
    var m := ReadRow(grid, row);
    if m.board.checkVote.Some? {
      var v := Expire(m.board);
      var f := Fields(m.(board := v.board, expiresAt := None), if row.None? then None else row.value.stats,
                      [], [], [], false, false);
      EmitBuffers(f, v.events, now, 0);
      var ss := Stamp(v.events, now, 0);
      assert |ss| == 1 && ss[..0] == [];
      assert CellRows(ss) == [] && CheckRows(ss) == [] && |VoteRows(ss)| == 1;
    }
  }

  /** While no flush faults, the buffer is below the threshold between tasks, crashes included. */
  lemma {:induction false} FaultlessBufferStaysSmall(grid: Grid, cfg: Config, steps: seq<Step>)
    requires PuzzleOk(grid, cfg.solution) && AllFaultless(steps) && cfg.threshold >= 2
    ensures Small(After(grid, cfg, Start(), steps), cfg.threshold)
  {
    if steps != [] {
      var n := |steps| - 1;
      FaultlessBufferStaysSmall(grid, cfg, steps[..n]);
      EveryRunIsCoherent(grid, cfg, steps[..n]);
      NextKeepsSmall(grid, cfg, After(grid, cfg, Start(), steps[..n]), steps[n]);
    }
  }

  /** As shipped, fewer than 25 rows are ever at stake between two tasks. */
  lemma FewerThanTheThresholdAreBuffered(grid: Grid, sol: Solution, steps: seq<Step>)
    requires PuzzleOk(grid, sol) && AllFaultless(steps)
    ensures
      var w := After(grid, DefaultConfig(sol), Start(), steps);
      w.live.Some? ==> w.live.value.PendingCount() < 25
  {
    FaultlessBufferStaysSmall(grid, DefaultConfig(sol), steps);
  }

  predicate Over(row: Option<Row>) { row.Some? && row.value.status != Ongoing }

  /** Memory is over, the row is over and the end was announced, or none of the three. */
  ghost predicate InStep(w: World) {
    && (w.live.Some? ==> (w.live.value.image.board.status != Ongoing <==> Announcements(w.sent) == 1))
    && (Over(w.db.row) <==> Announcements(w.sent) == 1)
  }

  ghost predicate InStepTask(s: Settled) {
    match s
    case Settled(fields, db, frames, _, _) =>
      && (fields.image.board.status != Ongoing <==> Announcements(frames) == 1)
      && (Over(db.row) <==> Announcements(frames) == 1)
      && Announcements(frames) <= 1
  }

  lemma CompleteInStep(grid: Grid, sol: Solution, p: Fields, db: Db, g: Ledger, n: nat, at: int)
    requires Agrees(grid, sol, p.(image := p.image.(completedAt := Some(at))), db, g) && g.h != []
    requires p.image.board.status != Ongoing
    ensures InStepTask(CompleteGame(p, db, n, at, NoFault))
  {
    CompleteAgrees(grid, sol, p, db, g, n, at, NoFault);
    OneAnnouncement(CompleteGame(p, db, n, at, NoFault).frames[0]);
  }

  lemma FinishInStep(grid: Grid, cfg: Config, p: Fields, db: Db, g: Ledger, completion: Option<nat>, at: int)
    requires Agrees(grid, cfg.solution, CompletionStamped(p, completion, at), db, g) && g.h != []
    requires p.image.board.status != Ongoing <==> completion.Some?
    requires !Over(db.row)
    ensures InStepTask(Finish(p, db, completion, at, cfg, NoFault))
  {
    hide CompleteGame, Agrees;
    if completion.Some? {
      CompleteInStep(grid, cfg.solution, p, db, g, completion.value, at);
    }
  }

  /** A verdict ends the game exactly when its events hold a completion. */
  lemma EndIsCompletion(b: Board, c: Command, v: Verdict)
    requires !c.ExpireVote? && Shaped(b, c, v) && Explains(b, v.events, v.board)
    ensures v.board.status != Ongoing <==> CompletionIn(v.events).Some?
  {
    if CompletionIn(v.events).Some? { CompletionEndsTheGame(b, v.events, v.board); }
  }

  lemma QuietInStep(frames: seq<Frame>, s: Settled)
    requires Announcements(frames) == 0 && InStepTask(s)
    ensures InStepTask(WithFrames(frames, s))
  {
    AnnouncementsAppend(frames, s.frames);
  }

  lemma PreparedInStep(grid: Grid, cfg: Config, f: Fields, db: Db, g: Ledger, c: Command, v: Verdict, at: int)
    requires Agrees(grid, cfg.solution, f, db, g) && !c.ExpireVote? && !Over(db.row)
    requires Shaped(f.image.board, c, v) && Lawful(f.image.board, v, cfg.solution)
    requires c.commandId !in f.image.recent
    ensures InStepTask(Finish(Prepare(f, v, c.commandId, at, cfg), db, CompletionIn(v.events), at, cfg, NoFault))
  {
    var stamped := PrepareAgrees(grid, cfg, f, db, g, c, v, at);
    EndIsCompletion(f.image.board, c, v);
    FinishInStep(grid, cfg, Prepare(f, v, c.commandId, at, cfg), db,
                 Grown(g, Stamp(v.events, at, at + cfg.ttl)), CompletionIn(v.events), at);
  }

  lemma AcceptInStep(f: Fields, db: Db, v: Verdict, id: CommandId, at: int, cfg: Config)
    requires InStepTask(Finish(Prepare(f, v, id, at, cfg), db, CompletionIn(v.events), at, cfg, NoFault))
    ensures InStepTask(Accept(f, db, v, id, at, cfg, NoFault))
  {
    hide Prepare, Finish, Frames, InStepTask;
    EventFramesAreQuiet(v.events, at, at + cfg.ttl);
    QuietInStep(Frames(v.events, at, at + cfg.ttl),
                Finish(Prepare(f, v, id, at, cfg), db, CompletionIn(v.events), at, cfg, NoFault));
  }

  lemma SubmitInStep(grid: Grid, cfg: Config, f: Fields, db: Db, g: Ledger, conn: Connection,
                     present: seq<Connection>, msg: Message, at: int)
    requires Agrees(grid, cfg.solution, f, db, g) && f.image.board.status == Ongoing && !Over(db.row)
    ensures InStepTask(HandleMutation(f, db, conn, present, msg, at, cfg, NoFault))
  {
    var c := ToCommand(msg, conn.userId, present, at);
    var v := Apply(f.image.board, c, cfg.solution);
    if conn.role != Spectator && msg.commandId !in f.image.recent && v.error.None? {
      CommandsAreOk(msg, conn.userId, present, at);
      ApplyLaws(f.image.board, c, cfg.solution);
      AcceptedShape(f.image.board, c, cfg.solution);
      PreparedInStep(grid, cfg, f, db, g, c, v, at);
      AcceptInStep(f, db, v, msg.commandId, at, cfg);
    }
  }

  lemma ExpiryInStep(f: Fields, db: Db, at: int, cfg: Config)
    requires f.image.board.status == Ongoing && !Over(db.row)
    ensures InStepTask(HandleExpiry(f, db, at, cfg, NoFault))
  {
    ExpiryIsSober(f, db, at, cfg, NoFault);
  }

  lemma AbandonInStep(grid: Grid, sol: Solution, f: Fields, db: Db, g: Ledger, who: UserId, at: int)
    requires Agrees(grid, sol, f, db, g) && f.image.board.status == Ongoing
    ensures InStepTask(DoAbandon(f, db, who, at, NoFault))
  {
    AbandonEmpties(grid, sol, f, db, g, who, at);
    AbandonIsSober(f, db, who, at, NoFault);
  }

  lemma FlushInStep(f: Fields, db: Db)
    requires f.image.board.status == Ongoing && !Over(db.row)
    ensures InStepTask(DoFlush(f, db, NoFault))
  {}

  lemma SettleInStep(w: World, s: Settled)
    requires Announcements(w.sent) == 0 && InStepTask(s)
    ensures InStep(Settle(w, s))
  {
    AnnouncementsAppend(w.sent, s.frames);
  }

  lemma NextInStep(grid: Grid, cfg: Config, w: World, s: Step)
    requires Coherent(grid, cfg.solution, w) && Faultless(s) && Sober(w) && InStep(w)
    ensures InStep(Next(grid, cfg, w, s))
  {
    hide HandleMutation, HandleExpiry, DoFlush, DoAbandon;
    var g :| Explained(grid, cfg.solution, w, g);
    if w.live.None? {
      if s.Arrive? {
        StoredReadsBack(grid, cfg.solution, w.db, g.h);
        HydrationTakesUp(grid, w.db.row, s.now);
      }
    } else if Announcements(w.sent) == 0 {
      TaskInStep(grid, cfg, w, s, g);
    } else {
      NextIsSober(grid, cfg, w, s);
      StillOver(grid, cfg, w, s);
    }
  }

  lemma TaskInStep(grid: Grid, cfg: Config, w: World, s: Step, g: Ledger)
    requires w.live.Some? && Agrees(grid, cfg.solution, w.live.value, w.db, g)
    requires Faultless(s) && InStep(w) && Announcements(w.sent) == 0
    ensures InStep(Next(grid, cfg, w, s))
  {
    hide HandleMutation, HandleExpiry, DoFlush, DoAbandon, Agrees, Announcements;
    var f := w.live.value;
    match s
    case Submit(conn, present, msg, at, _) =>
      SubmitInStep(grid, cfg, f, w.db, g, conn, present, msg, at);
      SettleInStep(w, HandleMutation(f, w.db, conn, present, msg, at, cfg, NoFault));
    case ExpiryTask(at, _) =>
      ExpiryInStep(f, w.db, at, cfg);
      SettleInStep(Taken(w), HandleExpiry(f, w.db, at, cfg, NoFault));
    case FlushTask(_) =>
      FlushInStep(f, w.db);
      SettleInStep(Flushing(w), DoFlush(f, w.db, NoFault));
    case AbandonTask(who, at, _) =>
      AbandonInStep(grid, cfg.solution, f, w.db, g, who, at);
      SettleInStep(w, DoAbandon(f, w.db, who, at, NoFault));
    case _ =>
  }

  lemma StillOver(grid: Grid, cfg: Config, w: World, s: Step)
    requires w.live.Some? && w.live.value.image.board.status != Ongoing && w.live.value.image.board.checkVote.None?
    ensures Next(grid, cfg, w, s).live.Some? ==> Next(grid, cfg, w, s).live.value.image.board.status != Ongoing
  {}

  /** While no flush faults, a finished game has been announced exactly once, and only a finished one. */
  lemma {:induction false} FaultlessEndIsAnnouncedExactlyOnce(grid: Grid, cfg: Config, steps: seq<Step>)
    requires PuzzleOk(grid, cfg.solution) && AllFaultless(steps)
    ensures InStep(After(grid, cfg, Start(), steps))
  {
    if steps != [] {
      var n := |steps| - 1;
      FaultlessEndIsAnnouncedExactlyOnce(grid, cfg, steps[..n]);
      EveryRunIsCoherent(grid, cfg, steps[..n]);
      TerminalIsAnnouncedOnce(grid, cfg, steps[..n]);
      NextInStep(grid, cfg, After(grid, cfg, Start(), steps[..n]), steps[n]);
    }
  }

  // --- With faults: exactly when the end is announced ---

  function FaultOf(s: Step): Fault {
    match s
    case Submit(_, _, _, _, fault) => fault
    case ExpiryTask(_, fault) => fault
    case FlushTask(fault) => fault
    case AbandonTask(_, _, fault) => fault
    case _ => NoFault
  }

  /** The step takes a game in play to its end, by completion or by abandon. */
  ghost predicate EndsGame(grid: Grid, cfg: Config, w: World, s: Step) {
    var w' := Next(grid, cfg, w, s);
    && w.live.Some? && w.live.value.image.board.status == Ongoing
    && w'.live.Some? && w'.live.value.image.board.status != Ongoing
  }

  /** A task announces the end exactly when it reaches it and its flush is reported. */
  ghost predicate AnnouncesItsEnd(f: Fields, s: Settled, fault: Fault) {
    var ends := f.image.board.status == Ongoing && s.fields.image.board.status != Ongoing;
    Announcements(s.frames) == if ends && fault.NoFault? then 1 else 0
  }

  lemma FinishAnnounces(grid: Grid, cfg: Config, f: Fields, p: Fields, db: Db, g: Ledger, completion: Option<nat>,
                        at: int, fault: Fault)
    requires Agrees(grid, cfg.solution, CompletionStamped(p, completion, at), db, g) && g.h != []
    requires f.image.board.status == Ongoing
    requires p.image.board.status != Ongoing <==> completion.Some?
    ensures AnnouncesItsEnd(f, Finish(p, db, completion, at, cfg, fault), fault)
  {
    hide Agrees;
    if completion.Some? {
      CompleteAgrees(grid, cfg.solution, p, db, g, completion.value, at, fault);
      var s := CompleteGame(p, db, completion.value, at, fault);
      if s.ok { OneAnnouncement(s.frames[0]); }
    }
  }

  lemma QuietAnnounces(f: Fields, frames: seq<Frame>, s: Settled, fault: Fault)
    requires Announcements(frames) == 0 && AnnouncesItsEnd(f, s, fault)
    ensures AnnouncesItsEnd(f, WithFrames(frames, s), fault)
  {
    AnnouncementsAppend(frames, s.frames);
  }

  lemma AcceptAnnounces(grid: Grid, cfg: Config, f: Fields, db: Db, g: Ledger, c: Command, v: Verdict, at: int,
                        fault: Fault)
    requires Agrees(grid, cfg.solution, f, db, g) && !c.ExpireVote? && f.image.board.status == Ongoing
    requires Shaped(f.image.board, c, v) && Lawful(f.image.board, v, cfg.solution)
    requires c.commandId !in f.image.recent
    ensures AnnouncesItsEnd(f, Accept(f, db, v, c.commandId, at, cfg, fault), fault)
  {
    hide Prepare, CompletionStamped, Finish, Frames, Agrees, AnnouncesItsEnd, Stamp;
    var p := Prepare(f, v, c.commandId, at, cfg);
    var stamped := PrepareAgrees(grid, cfg, f, db, g, c, v, at);
    var grown := Grown(g, Stamp(v.events, at, at + cfg.ttl));
    assert grown.h != [] by { AcceptedIsSomething(f.image.board, c, v, at, at + cfg.ttl); }
    PreparedBoard(f, v, c.commandId, at, cfg);
    EndIsCompletion(f.image.board, c, v);
    FinishAnnounces(grid, cfg, f, p, db, grown, CompletionIn(v.events), at, fault);
    EventFramesAreQuiet(v.events, at, at + cfg.ttl);
    QuietAnnounces(f, Frames(v.events, at, at + cfg.ttl), Finish(p, db, CompletionIn(v.events), at, cfg, fault),
                   fault);
  }

  lemma SubmitAnnounces(grid: Grid, cfg: Config, f: Fields, db: Db, g: Ledger, conn: Connection,
                        present: seq<Connection>, msg: Message, at: int, fault: Fault)
    requires Agrees(grid, cfg.solution, f, db, g)
    ensures AnnouncesItsEnd(f, HandleMutation(f, db, conn, present, msg, at, cfg, fault), fault)
  {
    hide Apply, AssembleElectorate, Accept, Agrees;
    var c := ToCommand(msg, conn.userId, present, at);
    if Accepts(f, conn, present, msg, at, cfg) {
      CommandsAreOk(msg, conn.userId, present, at);
      AcceptedIsShaped(grid, cfg.solution, f, db, g, c);
      AcceptedIsInPlay(f.image.board, c, Apply(f.image.board, c, cfg.solution), cfg.solution);
      AcceptAnnounces(grid, cfg, f, db, g, c, Apply(f.image.board, c, cfg.solution), at, fault);
    }
  }

  /** Only a game in play accepts anything. */
  lemma AcceptedIsInPlay(b: Board, c: Command, v: Verdict, sol: Solution)
    requires !c.ExpireVote? && Shaped(b, c, v) && Lawful(b, v, sol)
    ensures b.status == Ongoing
  {}

  lemma ExpiryAnnounces(f: Fields, db: Db, at: int, cfg: Config, fault: Fault)
    ensures AnnouncesItsEnd(f, HandleExpiry(f, db, at, cfg, fault), fault)
  {
    ExpiryIsSober(f, db, at, cfg, fault);
  }

  lemma AbandonAnnounces(grid: Grid, sol: Solution, f: Fields, db: Db, g: Ledger, who: UserId, at: int, fault: Fault)
    requires Agrees(grid, sol, f, db, g)
    ensures AnnouncesItsEnd(f, DoAbandon(f, db, who, at, fault), fault)
  {
    hide CloseForAbandon, AbandonFrames, Agrees;
    if f.image.board.status == Ongoing {
      AbandonAgrees(grid, sol, f, db, g, who, at, fault);
      var m := MarkAbandoned(CloseForAbandon(f, at), at);
      AbandonFramesAreQuiet(f, at);
      OneAnnouncement(AbandonedFrame(m.image.board.seqNo, at, who));
      QuietAnnounces(f, AbandonFrames(f, at), FlushAbandoned(m, db, who, at, fault), fault);
    }
  }

  /** Whatever the state, a step announces iff it ends the game and its own flush meets no fault. */
  lemma EndIsAnnouncedIffItsFlushIsHealthy(grid: Grid, cfg: Config, w: World, s: Step, g: Ledger)
    requires Explained(grid, cfg.solution, w, g)
    ensures Announcements(Next(grid, cfg, w, s).sent) ==
      Announcements(w.sent) + if EndsGame(grid, cfg, w, s) && FaultOf(s).NoFault? then 1 else 0
  {
    hide HandleMutation, HandleExpiry, DoAbandon, Agrees, Announcements;
    if w.live.Some? && !s.Crash? && !s.Arrive? {
      var f := w.live.value;
      match s
      case Submit(conn, present, msg, at, fault) =>
        SubmitAnnounces(grid, cfg, f, w.db, g, conn, present, msg, at, fault);
        AnnouncementsAppend(w.sent, HandleMutation(f, w.db, conn, present, msg, at, cfg, fault).frames);
      case ExpiryTask(at, fault) =>
        ExpiryAnnounces(f, w.db, at, cfg, fault);
        ExpiryKeepsStatus(f, w.db, at, cfg, fault);
        AnnouncementsAppend(w.sent, HandleExpiry(f, w.db, at, cfg, fault).frames);
      case AbandonTask(who, at, fault) =>
        AbandonAnnounces(grid, cfg.solution, f, w.db, g, who, at, fault);
        AnnouncementsAppend(w.sent, DoAbandon(f, w.db, who, at, fault).frames);
      case FlushTask(fault) => assert w.sent + [] == w.sent;
      case _ =>
    }
  }

  lemma ExpiryKeepsStatus(f: Fields, db: Db, at: int, cfg: Config, fault: Fault)
    ensures HandleExpiry(f, db, at, cfg, fault).fields.image.board.status == f.image.board.status
  {}

  /** Step i of the run ends the game, and its own flush meets no fault. */
  ghost predicate HealthyEndAt(grid: Grid, cfg: Config, steps: seq<Step>, i: nat) {
    && i < |steps|
    && EndsGame(grid, cfg, After(grid, cfg, Start(), steps[..i]), steps[i])
    && FaultOf(steps[i]).NoFault?
  }

  /**
   Over every run, with any faults, crashes and rehydrations: the end is announced exactly once if
   some step ended the game with a flush that met no fault, and never otherwise.
   */
  lemma {:induction false} AnnouncedExactlyWhenAHealthyEnd(grid: Grid, cfg: Config, steps: seq<Step>)
    requires PuzzleOk(grid, cfg.solution)
    ensures Announcements(After(grid, cfg, Start(), steps).sent) ==
      if exists i :: HealthyEndAt(grid, cfg, steps, i) then 1 else 0
  {
    hide Next, EndsGame, Announcements, Explained;
    TerminalIsAnnouncedOnce(grid, cfg, steps);
    if steps == [] {
      assert Announcements([]) == 0 by { NothingAnnounced(); }
    } else {
      var n := |steps| - 1;
      var front := steps[..n];
      AnnouncedExactlyWhenAHealthyEnd(grid, cfg, front);
      EveryRunIsCoherent(grid, cfg, front);
      EndIsAnnouncedIffItsFlushIsHealthy(grid, cfg, After(grid, cfg, Start(), front), steps[n],
                                         LedgerOf(grid, cfg, front));
      HealthyEndsSplit(grid, cfg, steps);
    }
  }

  lemma NothingAnnounced()
    ensures Announcements([]) == 0
  {}

  lemma HealthyEndsSplit(grid: Grid, cfg: Config, steps: seq<Step>)
    requires steps != []
    ensures
      var n := |steps| - 1;
      (exists i :: HealthyEndAt(grid, cfg, steps, i)) <==>
        (exists i :: HealthyEndAt(grid, cfg, steps[..n], i)) || HealthyEndAt(grid, cfg, steps, n)
  {
    hide EndsGame, After;
    var n := |steps| - 1;
    forall i: nat | i < n ensures HealthyEndAt(grid, cfg, steps, i) <==> HealthyEndAt(grid, cfg, steps[..n], i) {
      assert steps[..n][..i] == steps[..i] && steps[..n][i] == steps[i];
    }
    if i: nat :| HealthyEndAt(grid, cfg, steps[..n], i) { assert HealthyEndAt(grid, cfg, steps, i); }
    if i: nat :| HealthyEndAt(grid, cfg, steps, i) {
      if i < n { assert HealthyEndAt(grid, cfg, steps[..n], i); }
    }
  }

  // --- Handing a drained game on ---

  /**
   A successful drain hands the next actor exactly this actor's room if and only if something
   was buffered or the stored row was already at memory's number.
   */
  lemma DrainHandsOver(grid: Grid, sol: Solution, f: Fields, db: Db, g: Ledger)
    requires Agrees(grid, sol, f, db, g)
    ensures
      var s := DoFlush(f, db, NoFault);
      && s.ok
      && (ReadRow(grid, s.db.row) == f.image <==> f.PendingCount() > 0 || StoredSeq(db) == f.image.board.seqNo)
  {
    var s := DoFlush(f, db, NoFault);
    DoFlushAgrees(grid, sol, f, db, g, NoFault);
    if f.PendingCount() > 0 {
      assert g.h[..|g.h|] == g.h;
      StoredReadsBack(grid, sol, s.db, g.h);
    } else {
      StoredReadsBack(grid, sol, db, g.h[..g.k]);
      assert StoredSeq(db) == g.k;
      if g.k == |g.h| { assert g.h[..g.k] == g.h; }
    }
  }

  lemma {:induction false} OnlyTerminalsMakeNoRow(h: History)
    requires CellRows(h) == [] && CheckRows(h) == [] && VoteRows(h) == []
    ensures forall i :: 0 <= i < |h| ==> IsTerminal(h[i].event)
  {
    if h != [] {
      var front := h[..|h| - 1];
      assert CellRows(front) == [] && CheckRows(front) == [] && VoteRows(front) == [];
      OnlyTerminalsMakeNoRow(front);
      forall i | 0 <= i < |h| ensures IsTerminal(h[i].event) {
        if i < |front| { assert front[i] == h[i]; }
      }
    }
  }

  /** The only thing a drain can lose by finding nothing buffered is an abandon. */
  lemma OnlyAnAbandonIsLost(grid: Grid, sol: Solution, f: Fields, db: Db, g: Ledger)
    requires Agrees(grid, sol, f, db, g)
    requires f.PendingCount() == 0 && StoredSeq(db) != f.image.board.seqNo
    ensures f.image.board.status == Abandoned && StoredSeq(db) + 1 == f.image.board.seqNo
    ensures ReadRow(grid, db.row).board.status == Ongoing
  {
    var h, n := g.h, |g.h| - 1;
    StoredReadsBack(grid, sol, db, h[..g.k]);
    assert StoredSeq(db) == g.k;
    OnlyTerminalsMakeNoRow(h[g.j..]);
    assert h[g.j..][g.k - g.j] == h[g.k];
    assert g.k == n;
    NotACompletion(grid, sol, h);
  }

  lemma NotACompletion(grid: Grid, sol: Solution, h: History)
    requires h != [] && Good(grid, sol, h) && Good(grid, sol, h[..|h| - 1])
    requires IsTerminal(h[|h| - 1].event)
    ensures h[|h| - 1].event.GameAbandoned? && ImageOf(grid, h).board.status == Abandoned
    ensures ImageOf(grid, h[..|h| - 1]).board.status == Ongoing
  {
    var n := |h| - 1;
    var before, after := ImageOf(grid, h[..n]).board, ImageOf(grid, h).board;
    if n > 0 { assert h[..n][n - 1] == h[n - 1]; }
    assert before.status == Ongoing;
    if h[n].event.GameCompleted? {
      SameBoardSameFailures(before, after, sol);
    }
  }

  /**
   It does happen, on every puzzle: abandon a fresh game, let that flush roll back, and drain.
   The drain reports success; memory is abandoned and the successor plays on.
   */
  lemma FailedAbandonIsForgotten(grid: Grid, cfg: Config, who: UserId)
    requires PuzzleOk(grid, cfg.solution)
    ensures
      var w := After(grid, cfg, Start(), [Arrive(0), AbandonTask(who, 0, RolledBack)]);
      && w.live.Some? && w.live.value.image.board.status == Abandoned
      && DoFlush(w.live.value, w.db, NoFault).ok
      && Hydrate(grid, DoFlush(w.live.value, w.db, NoFault).db.row, 1).image.board.status == Ongoing
  {
    var steps := [Arrive(0), AbandonTask(who, 0, RolledBack)];
    assert steps[..1] == [Arrive(0)] && [Arrive(0)][..0] == [];
    assert After(grid, cfg, Start(), []) == Start();
    var w1 := After(grid, cfg, Start(), [Arrive(0)]);
    assert w1 == Next(grid, cfg, Start(), Arrive(0));
    assert After(grid, cfg, Start(), steps) == Next(grid, cfg, w1, steps[1]);
  }

  /**
   A completion whose flush faults is announced by nobody and leaves memory completed with its whole
   buffer. Rolled back, the tables are as before; unreported, they hold the whole history, the
   completed row and its statistics, which memory does not have.
   */
  lemma FailedCompletionIsSilent(grid: Grid, cfg: Config, f: Fields, db: Db, g: Ledger, c: Command, v: Verdict,
                                 at: int, fault: Fault)
    requires Agrees(grid, cfg.solution, f, db, g) && !c.ExpireVote? && f.image.board.status == Ongoing
    requires Shaped(f.image.board, c, v) && Lawful(f.image.board, v, cfg.solution)
    requires c.commandId !in f.image.recent && CompletionIn(v.events).Some? && !fault.NoFault?
    ensures
      var s := Accept(f, db, v, c.commandId, at, cfg, fault);
      && !s.ok && Announcements(s.frames) == 0
      && s.fields == CompletionStamped(Prepare(f, v, c.commandId, at, cfg), CompletionIn(v.events), at)
      && (fault.RolledBack? ==> s.db == db)
      && (fault.Unreported? ==>
            && Stored(grid, s.db, g.h + Stamp(v.events, at, at + cfg.ttl))
            && s.db.row.Some? && s.db.row.value.status == Completed && s.db.row.value.stats.Some?)
  {
    hide Prepare, CompletionStamped, CompletionIn, CompleteGame, AfterMutationFlush, Frames, Stamp;
    hide Agrees, Stored, Explains, Sound, Shaped, Announcements;
    var stamped := PrepareAgrees(grid, cfg, f, db, g, c, v, at);
    var grown := Grown(g, Stamp(v.events, at, at + cfg.ttl));
    assert grown.h != [] by { AcceptedIsSomething(f.image.board, c, v, at, at + cfg.ttl); }
    EventFramesAreQuiet(v.events, at, at + cfg.ttl);
    PreparedBoard(f, v, c.commandId, at, cfg);
    CompletionEndsTheGame(f.image.board, v.events, v.board);
    var p := Prepare(f, v, c.commandId, at, cfg);
    StampedCompletion(p, CompletionIn(v.events), at);
    FaultyCompletion(grid, cfg.solution, p, db, grown, CompletionIn(v.events).value, at, fault);
    assert Frames(v.events, at, at + cfg.ttl) + [] == Frames(v.events, at, at + cfg.ttl);
  }

  lemma StampedCompletion(p: Fields, completion: Option<nat>, at: int)
    requires completion.Some?
    ensures CompletionStamped(p, completion, at) == p.(image := p.image.(completedAt := Some(at)))
  {}

  lemma FaultyCompletion(grid: Grid, sol: Solution, p: Fields, db: Db, g: Ledger, n: nat, at: int, fault: Fault)
    requires Agrees(grid, sol, p.(image := p.image.(completedAt := Some(at))), db, g) && g.h != []
    requires p.image.board.status == Completed && !fault.NoFault?
    ensures
      var s := CompleteGame(p, db, n, at, fault);
      && !s.ok && s.frames == [] && s.fields == p.(image := p.image.(completedAt := Some(at)))
      && (fault.RolledBack? ==> s.db == db)
      && (fault.Unreported? ==>
            Stored(grid, s.db, g.h) && s.db.row.Some? && s.db.row.value.status == Completed
                && s.db.row.value.stats.Some?)
  {
    var q := p.(image := p.image.(completedAt := Some(at)));
    var after := Appended(db, q.Pending());
    var stats := StatsOf(q.image, n, at, Participants(after.cellLog), EventTimes(after.cellLog));
    FlushCatchesUp(grid, sol, q, db, g, Some(stats), fault);
  }

  /**
   The next flush that commits writes the completed row with memory's statistics, which are none,
   over whatever an unreported commit had stored, and announces nothing.
   */
  lemma RetriedCompletionStaysSilent(grid: Grid, sol: Solution, f: Fields, db: Db, g: Ledger, fault: Fault)
    requires Agrees(grid, sol, f, db, g) && f.image.board.status == Completed && f.PendingCount() > 0
    requires !fault.RolledBack?
    ensures
      var s := DoFlush(f, db, fault);
      && s.ok == fault.NoFault? && s.frames == []
      && s.db.row.Some? && s.db.row.value.status == Completed && s.db.row.value.stats == f.stats
  {
    DoFlushAgrees(grid, sol, f, db, g, fault);
    FlushCatchesUp(grid, sol, f, db, g, f.stats, fault);
  }
}
