/**
 When a task writes the tables: at the threshold and not before it, at once when the game ends, and
 what is left in the buffer when it does not; and what an abandon and a hydration do, told in full.
 */
module Writes {
  import opened Basics
  import opened Engine
  import opened RoomLaws
  import opened Journal
  import opened Store
  import opened Snapshots
  import opened Actor
  import opened Persistence
  import opened World
  import opened Durability
  import opened Broadcast
  import opened RunLogs
  import opened Messages

  /**
   Below the threshold the n rows stay buffered, the timer armed, and nothing is written. At it one
   flush is tried: it empties the buffer, or keeps every row, with no timer and the task failed, and
   unless it is rolled back the stored number is the room's.
   */
  ghost predicate WritesOrHolds(db: Db, s: Settled, n: nat, threshold: nat, fault: Fault) {
    if n < threshold then
      s.ok && s.db == db && s.fields.PendingCount() == n && s.fields.flushTimer
    else
      && !s.fields.flushTimer
      && (s.ok <==> fault == NoFault)
      && s.fields.PendingCount() == (if fault == NoFault then 0 else n)
      && (if fault == RolledBack then s.db == db else StoredSeq(s.db) == s.fields.image.board.seqNo)
  }

  lemma FlushWritesOrHolds(grid: Grid, sol: Solution, p: Fields, db: Db, g: Ledger, threshold: nat, fault: Fault)
    requires Agrees(grid, sol, p, db, g) && p.PendingCount() > 0
    ensures WritesOrHolds(db, AfterMutationFlush(p, db, threshold, fault), p.PendingCount(), threshold, fault)
  {
    hide Agrees, Good, Stored, Flush;
    BufferedMeansHistory(grid, sol, p, db, g);
    FlushCatchesUp(grid, sol, p, db, g, p.stats, fault);
    assert Print(p.image, p.stats).lastSeq == p.image.board.seqNo;
  }

  lemma BufferedMeansHistory(grid: Grid, sol: Solution, p: Fields, db: Db, g: Ledger)
    requires Agrees(grid, sol, p, db, g) && p.PendingCount() > 0
    ensures g.h != []
  {
    hide Good, Stored;
  }

  lemma BufferedOnePerEvent(f: Fields, es: seq<Event>, at: int)
    requires forall i :: 0 <= i < |es| ==> !IsTerminal(es[i])
    ensures Emit(f, es, at).PendingCount() == f.PendingCount() + |es|
  {
    var ss := Stamp(es, at, 0);
    EmitBuffers(f, es, at, 0);
    assert forall i :: 0 <= i < |ss| ==> ss[i].event == es[i];
    OneRowPerEvent(ss);
  }

  lemma PreparedCount(f: Fields, v: Verdict, id: CommandId, at: int, cfg: Config)
    requires forall i :: 0 <= i < |v.events| ==> !IsTerminal(v.events[i])
    ensures Prepare(f, v, id, at, cfg).PendingCount() == f.PendingCount() + |v.events|
  {
    BufferedOnePerEvent(f.(image := f.image.(board := v.board, recent := Remember(f.image.recent, id))), v.events,
                        at);
  }

  /** An accepted command that does not end the game: every frame it sent is a row, written or held. */
  lemma CommandWritesAtTheThreshold(grid: Grid, cfg: Config, f: Fields, db: Db, g: Ledger, conn: Connection,
                                    present: seq<Connection>, msg: Message, at: int, fault: Fault)
    requires Agrees(grid, cfg.solution, f, db, g) && Accepts(f, conn, present, msg, at, cfg)
    ensures
      var s := HandleMutation(f, db, conn, present, msg, at, cfg, fault);
      s.fields.image.board.status == Ongoing ==>
        && s.frames != [] && WritesOrHolds(db, s, f.PendingCount() + |s.frames|, cfg.threshold, fault)
        && (cfg == DefaultConfig(cfg.solution) ==> WritesOrHolds(db, s, f.PendingCount() + |s.frames|, 25, fault))
  {
    hide Apply, AssembleElectorate, Agrees, Prepare, Finish, Frames, WritesOrHolds, CompletionIn, Shaped, Lawful;
    var c := ToCommand(msg, conn.userId, present, at);
    var v, s := Apply(f.image.board, c, cfg.solution), HandleMutation(f, db, conn, present, msg, at, cfg, fault);
    CommandsAreOk(msg, conn.userId, present, at);
    AcceptedIsShaped(grid, cfg.solution, f, db, g, c);
    PreparedBoard(f, v, c.commandId, at, cfg);
    RoomIsSettledBeforeTheFlush(Prepare(f, v, c.commandId, at, cfg), db, CompletionIn(v.events), "", at, cfg, fault);
    if s.fields.image.board.status == Ongoing {
      QuietCommandWrites(grid, cfg, f, db, g, c, v, at, fault);
    }
  }

  lemma QuietCommandWrites(grid: Grid, cfg: Config, f: Fields, db: Db, g: Ledger, c: Command, v: Verdict, at: int,
                           fault: Fault)
    requires Agrees(grid, cfg.solution, f, db, g) && !c.ExpireVote? && v.board.status == Ongoing
    requires Shaped(f.image.board, c, v) && Lawful(f.image.board, v, cfg.solution)
    requires c.commandId !in f.image.recent
    ensures
      var s := Accept(f, db, v, c.commandId, at, cfg, fault);
      s.frames != [] && WritesOrHolds(db, s, f.PendingCount() + |s.frames|, cfg.threshold, fault)
  {
    hide Agrees, Prepare, Frames, WritesOrHolds, AfterMutationFlush, Shaped, Lawful, CompletionIn;
    NoEndInPlay(f.image.board, c, v, cfg.solution);
    FramesOneByOne(v.events, at, at + cfg.ttl);
    PreparedCount(f, v, c.commandId, at, cfg);
    var p := PrepareAgrees(grid, cfg, f, db, g, c, v, at);
    assert v.events != [] by { AcceptedIsSomething(f.image.board, c, v, at, at + cfg.ttl); }
    FlushWritesOrHolds(grid, cfg.solution, p, db, Ledger(g.h + Stamp(v.events, at, at + cfg.ttl), g.j, g.k),
                       cfg.threshold, fault);
    FlushSendsNothing(p, db, cfg.threshold, fault);
    FramesDoNotMatter(db, Frames(v.events, at, at + cfg.ttl), AfterMutationFlush(p, db, cfg.threshold, fault),
                      p.PendingCount(), cfg.threshold, fault);
  }

  lemma FramesDoNotMatter(db: Db, frames: seq<Frame>, s: Settled, n: nat, threshold: nat, fault: Fault)
    ensures WritesOrHolds(db, WithFrames(frames, s), n, threshold, fault) <==>
      WritesOrHolds(db, s, n, threshold, fault)
  {}

  lemma FlushSendsNothing(p: Fields, db: Db, threshold: nat, fault: Fault)
    ensures AfterMutationFlush(p, db, threshold, fault).frames == []
  {}

  lemma NoEndInPlay(b: Board, c: Command, v: Verdict, sol: Solution)
    requires !c.ExpireVote? && Shaped(b, c, v) && Lawful(b, v, sol) && v.board.status == Ongoing
    ensures CompletionIn(v.events).None? && forall i :: 0 <= i < |v.events| ==> !IsTerminal(v.events[i])
  {
    if CompletionIn(v.events).Some? { CompletionEndsTheGame(b, v.events, v.board); }
    QuietVerdictHasNoEnd(b, c, v);
  }

  // --- An expiry, an abandon, a hydration ---

  /** The vote is closed in this board at the next number, and nothing else is changed. */
  predicate ClosedVote(b: Board, after: Board) {
    after == b.(seqNo := b.seqNo + 1, checkVote := None)
  }

  /** An expiry closes an open vote as expired, writing at the threshold; with none open it only clears the timer. */
  lemma ExpirySays(grid: Grid, cfg: Config, f: Fields, db: Db, g: Ledger, at: int, fault: Fault)
    requires Agrees(grid, cfg.solution, f, db, g)
    ensures
      var s, b := HandleExpiry(f, db, at, cfg, fault), f.image.board;
      && s.fields.image.expiresAt.None? && !s.fields.voteTimer && s.reply == Silence
      && if b.checkVote.None? then
           s.fields == f.(voteTimer := false, image := f.image.(expiresAt := None)) && s.db == db && s.frames == []
         else
           && ClosedVote(b, s.fields.image.board)
           && s.frames == [SequencedFrame(VoteClosed(b.seqNo + 1, b.checkVote.value.openedSeq, Failed, Some(Expired)),
                                          at, 0)]
           && WritesOrHolds(db, s, f.PendingCount() + 1, cfg.threshold, fault)
  {
    hide Agrees, WritesOrHolds, Frames, DoFlush;
    if f.image.board.checkVote.Some? {
      ExpiryClosesWhateverIsOpen(f, db, at, cfg, fault);
      ExpiredAgrees(grid, cfg.solution, f, db, g, at);
      var v := Expire(f.image.board);
      BufferedOnePerEvent(f.(image := f.image.(board := v.board)), v.events, at);
      var grown := Ledger(g.h + Stamp(v.events, at, 0), g.j, g.k);
      FlushWritesOrHolds(grid, cfg.solution, ExpiredFields(f, at), db, grown, cfg.threshold, fault);
      FramesDoNotMatter(db, Frames(v.events, at, 0),
                        AfterMutationFlush(ExpiredFields(f, at), db, cfg.threshold, fault),
                        f.PendingCount() + 1, cfg.threshold, fault);
      ExpiredTimers(f, db, at, cfg, fault);
    }
  }

  lemma ExpiredTimers(f: Fields, db: Db, at: int, cfg: Config, fault: Fault)
    requires f.image.board.checkVote.Some?
    ensures
      var s := HandleExpiry(f, db, at, cfg, fault);
      && s.fields.image.expiresAt.None? && !s.fields.voteTimer && s.reply == Silence
      && ClosedVote(f.image.board, s.fields.image.board)
  {
    hide ExpiredFields;
    var e := ExpiredFields(f, at);
    ExpiryIsCloseThenFlush(f, db, at, cfg, fault);
    FlushKeepsRoom(e, db, cfg.threshold, fault);
    ExpiredRoom(f, at);
  }

  lemma ExpiredRoom(f: Fields, at: int)
    requires f.image.board.checkVote.Some?
    ensures
      var e := ExpiredFields(f, at);
      e.image.expiresAt.None? && !e.voteTimer && ClosedVote(f.image.board, e.image.board)
  {}

  lemma FlushKeepsRoom(e: Fields, db: Db, threshold: nat, fault: Fault)
    ensures
      var s := AfterMutationFlush(e, db, threshold, fault);
      s.fields.image == e.image && s.fields.voteTimer == e.voteTimer && s.reply == Silence
  {}

  /** What the room is told of an open vote ahead of the end. */
  function ClosingFrames(b: Board, at: int): seq<Frame> {
    if b.checkVote.None? then []
    else [SequencedFrame(VoteClosed(b.seqNo + 1, b.checkVote.value.openedSeq, Cancelled, Some(Terminal)), at, 0)]
  }

  lemma ClosingIs(f: Fields, at: int)
    ensures
      var c, b := CloseForAbandon(f, at), f.image.board;
      && AbandonFrames(f, at) == ClosingFrames(b, at)
      && c.image == f.image.(board := b.(seqNo := b.seqNo + |ClosingFrames(b, at)|, checkVote := None),
                             expiresAt := if b.checkVote.None? then f.image.expiresAt else None)
      && c.voteTimer == (f.voteTimer && b.checkVote.None?)
  {
    if f.image.board.checkVote.Some? {
      var es := CloseFailed(f.image.board, f.image.board.checkVote.value, Cancelled, Terminal).events;
      assert es[..0] == [];
      assert Frames(es, at, 0) == [] + FramesOf(es[0], at, 0);
    }
  }

  lemma AbandonIsWritten(grid: Grid, sol: Solution, m: Fields, db: Db, g: Ledger, who: UserId, at: int, fault: Fault)
    requires Agrees(grid, sol, m, db, g) && g.h != [] && m.image.board.status == Abandoned
    requires m.image.abandonedAt == Some(at)
    ensures
      var s := FlushAbandoned(m, db, who, at, fault);
      && s.frames == (if fault == NoFault then [AbandonedFrame(m.image.board.seqNo, at, who)] else [])
      && (s.ok <==> fault == NoFault) && s.fields.image == m.image && s.fields.voteTimer == m.voteTimer
      && (if fault == RolledBack then s.db == db else AbandonStored(s.db, m.image.board.seqNo, at))
  {
    hide Agrees, Good, Stored, Flush;
    FlushCatchesUp(grid, sol, m, db, g, m.stats, fault);
    PrintedEnd(m);
  }

  lemma PrintedEnd(m: Fields)
    ensures
      var r := Print(m.image, m.stats);
      r.status == m.image.board.status && r.lastSeq == m.image.board.seqNo && r.abandonedAt == m.image.abandonedAt
  {}

  predicate AbandonStored(db: Db, n: nat, at: int) {
    && db.row.Some? && db.row.value.status == Abandoned
    && db.row.value.lastSeq == n && db.row.value.abandonedAt == Some(at)
  }

  /**
   Abandoning a game that is over does nothing. A running one has its open vote cancelled first, takes
   the next number, flushes at once, and is announced in the caller's name only if that is answered.
   */
  lemma AbandonSays(grid: Grid, cfg: Config, f: Fields, db: Db, g: Ledger, who: UserId, at: int, fault: Fault)
    requires Agrees(grid, cfg.solution, f, db, g)
    ensures
      var s, b := DoAbandon(f, db, who, at, fault), f.image.board;
      if b.status != Ongoing then s == Settled(f, db, [], Silence, true)
      else
        var closing := ClosingFrames(b, at);
        var n := b.seqNo + |closing| + 1;
        && s.frames == closing + (if fault == NoFault then [AbandonedFrame(n, at, who)] else [])
        && s.fields.image.board == b.(status := Abandoned, seqNo := n, checkVote := None)
        && s.fields.image.abandonedAt == Some(at) && s.fields.image.expiresAt.None?
        && (b.checkVote.Some? ==> !s.fields.voteTimer)
        && (s.ok <==> fault == NoFault)
        && (if fault == RolledBack then s.db == db else AbandonStored(s.db, n, at))
  {
    hide Agrees, CloseForAbandon, AbandonFrames, FlushAbandoned, ClosedLedger, MarkedLedger;
    if f.image.board.status == Ongoing {
      var c := CloseForAbandon(f, at);
      var m := MarkAbandoned(c, at);
      MarkedAgrees(grid, cfg.solution, f, db, g, at);
      ClosingIs(f, at);
      DeadlineMeansVote(grid, cfg.solution, f, db, g);
      MarkedIsSomething(c, ClosedLedger(f, g, at), at);
      AbandonIsWritten(grid, cfg.solution, m, db, MarkedLedger(c, ClosedLedger(f, g, at), at), who, at, fault);
    }
  }

  lemma DeadlineMeansVote(grid: Grid, sol: Solution, f: Fields, db: Db, g: Ledger)
    requires Agrees(grid, sol, f, db, g)
    ensures f.image.expiresAt.Some? <==> f.image.board.checkVote.Some?
  {}

  lemma MarkedIsSomething(c: Fields, g: Ledger, at: int)
    ensures MarkedLedger(c, g, at).h != []
  {}

  // --- Hydration ---

  /** The newest row of the buffer is the late close, and it is the only one. */
  predicate LateClose(f: Fields, b: Board, now: int) {
    && b.checkVote.Some? && f.pending == [] && f.pendingChecks == []
    && f.pendingVotes ==
         [VoteRow(b.seqNo + 1, Closed, None, None, b.checkVote.value.openedSeq, None, Some(Failed), Some(Expired),
                  now)]
  }

  /**
   A game nobody wrote starts empty. A stored one starts from its row: a vote whose deadline is still
   ahead arms its timer, one past it or at it is closed as expired, buffered and flushed behind the
   hydration, and neither sends anything.
   */
  lemma ArrivalSays(grid: Grid, cfg: Config, steps: seq<Step>, now: int)
    requires PuzzleOk(grid, cfg.solution) && After(grid, cfg, Start(), steps).live.None?
    ensures
      var w := After(grid, cfg, Start(), steps);
      var w', m := Next(grid, cfg, w, Arrive(now)), ReadRow(grid, w.db.row);
      && w'.live.Some? && w'.db == w.db && w'.sent == w.sent
      && m == ImageOf(grid, HistoryOf(grid, cfg, steps))
      && var f := w'.live.value;
      && !f.flushTimer && f.stats == (if w.db.row.None? then None else w.db.row.value.stats)
      && if m.board.checkVote.None? || m.expiresAt.value > now then
           f.image == m && f.PendingCount() == 0 && w'.posted == Posted(0, 0)
           && (f.voteTimer <==> m.board.checkVote.Some?)
         else
           && f.image == m.(board := m.board.(seqNo := m.board.seqNo + 1, checkVote := None), expiresAt := None)
           && LateClose(f, m.board, now) && !f.voteTimer && w'.posted == Posted(1, 0)
  {
    hide Agrees, ReadRow, NextLedger, After;
    EveryRunIsCoherent(grid, cfg, steps);
    var w, g := After(grid, cfg, Start(), steps), LedgerOf(grid, cfg, steps);
    ArrivedFields(grid, cfg.solution, w, g.h, now);
  }

  lemma OneCloseBuffered(f: Fields, n: nat, voteSeq: nat, at: int)
    ensures
      var e := Emit(f, [VoteClosed(n, voteSeq, Failed, Some(Expired))], at);
      && e.pending == f.pending && e.pendingChecks == f.pendingChecks
      && e.pendingVotes ==
           f.pendingVotes + [VoteRow(n, Closed, None, None, voteSeq, None, Some(Failed), Some(Expired), at)]
  {
    var es := [VoteClosed(n, voteSeq, Failed, Some(Expired))];
    assert es[..0] == [];
  }

  lemma HydratedFields(grid: Grid, row: Option<Row>, now: int)
    requires var m := ReadRow(grid, row); m.expiresAt.Some? <==> m.board.checkVote.Some?
    ensures
      var m, f := ReadRow(grid, row), Hydrate(grid, row, now);
      && !f.flushTimer && f.stats == (if row.None? then None else row.value.stats)
      && if m.board.checkVote.None? || m.expiresAt.value > now then
           f.image == m && f.PendingCount() == 0 && (f.voteTimer <==> m.board.checkVote.Some?)
         else
           && f.image == m.(board := m.board.(seqNo := m.board.seqNo + 1, checkVote := None), expiresAt := None)
           && LateClose(f, m.board, now) && !f.voteTimer && f.PendingCount() == 1
  {
    hide ReadRow, Emit;
    var m := ReadRow(grid, row);
    if m.board.checkVote.Some? && m.expiresAt.value <= now {
      var start := Fields(m.(board := Expire(m.board).board, expiresAt := None),
                          if row.None? then None else row.value.stats, [], [], [], false, false);
      OneCloseBuffered(start, m.board.seqNo + 1, m.board.checkVote.value.openedSeq, now);
    }
  }

  lemma ArrivedFields(grid: Grid, sol: Solution, w: World, h: History, now: int)
    requires Good(grid, sol, h) && Stored(grid, w.db, h)
    ensures
      var m := ReadRow(grid, w.db.row);
      && m == ImageOf(grid, h) && (m.expiresAt.Some? <==> m.board.checkVote.Some?)
      && var f := Hydrate(grid, w.db.row, now);
      && !f.flushTimer && f.stats == (if w.db.row.None? then None else w.db.row.value.stats)
      && if m.board.checkVote.None? || m.expiresAt.value > now then
           f.image == m && f.PendingCount() == 0 && (f.voteTimer <==> m.board.checkVote.Some?)
         else
           && f.image == m.(board := m.board.(seqNo := m.board.seqNo + 1, checkVote := None), expiresAt := None)
           && LateClose(f, m.board, now) && !f.voteTimer && f.PendingCount() == 1
  {
    hide ReadRow, Hydrate, Stored;
    StoredReadsBack(grid, sol, w.db, h);
    HydratedFields(grid, w.db.row, now);
  }
}
