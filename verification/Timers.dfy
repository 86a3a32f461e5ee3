/**
 The actor's two timers over whole runs: when one is armed or has its task posted, how far ahead
 a vote's deadline can lie, when a vote can be closed as expired ahead of its deadline, and when
 what is buffered waits for nobody.
 */
module Timers {
  import opened Basics
  import opened Engine
  import opened RoomLaws
  import opened Journal
  import opened Store
  import opened Snapshots
  import opened Actor
  import opened Persistence
  import opened World
  import opened Durability
  import opened Handoff

  // --- What the timers say about the room ---

  /** The vote's timer is armed for an open vote only; an open vote has its timer or a posted expiry. */
  ghost predicate VoteTimed(f: Fields, queued: bool) {
    && (f.voteTimer ==> f.image.board.checkVote.Some?)
    && (f.image.board.checkVote.Some? ==> f.voteTimer || queued)
  }

  /** The flush timer is armed only while something is buffered. */
  ghost predicate FlushTimed(f: Fields) { f.flushTimer ==> f.PendingCount() > 0 }

  ghost predicate TimedFields(f: Fields, queued: bool) { VoteTimed(f, queued) && FlushTimed(f) }

  ghost predicate Timed(w: World) {
    w.live.Some? ==> TimedFields(w.live.value, w.posted.expiries > 0)
  }

  lemma EmitKeepsRows(f: Fields, es: seq<Event>, at: int)
    ensures Emit(f, es, at).PendingCount() >= f.PendingCount()
  {
    EmitBuffers(f, es, at, 0);
  }

  lemma PreparedIsTimed(f: Fields, c: Command, v: Verdict, at: int, cfg: Config, queued: bool)
    requires !c.ExpireVote? && Shaped(f.image.board, c, v) && TimedFields(f, queued)
    ensures TimedFields(Prepare(f, v, c.commandId, at, cfg), queued)
  {
    var applied := f.(image := f.image.(board := v.board, recent := Remember(f.image.recent, c.commandId)));
    EmitKeepsRows(applied, v.events, at);
    OpeningIsFirst(f.image.board, c, v);
  }

  lemma FlushedIsTimed(p: Fields, db: Db, threshold: nat, fault: Fault, queued: bool)
    requires TimedFields(p, queued)
    ensures TimedFields(DoFlush(p, db, fault).fields, queued)
    ensures TimedFields(AfterMutationFlush(p, db, threshold, fault).fields, queued)
  {}

  lemma FinishedIsTimed(p: Fields, db: Db, completion: Option<nat>, at: int, cfg: Config, fault: Fault, queued: bool)
    requires TimedFields(p, queued)
    ensures TimedFields(Finish(p, db, completion, at, cfg, fault).fields, queued)
  {
    FlushedIsTimed(p, db, cfg.threshold, fault, queued);
  }

  lemma SubmitIsTimed(grid: Grid, cfg: Config, f: Fields, db: Db, g: Ledger, conn: Connection,
                      present: seq<Connection>, msg: Message, at: int, fault: Fault, queued: bool)
    requires Agrees(grid, cfg.solution, f, db, g) && TimedFields(f, queued)
    ensures TimedFields(HandleMutation(f, db, conn, present, msg, at, cfg, fault).fields, queued)
  {
    hide Apply, AssembleElectorate, Prepare, Finish, Agrees, TimedFields;
    var c := ToCommand(msg, conn.userId, present, at);
    if Accepts(f, conn, present, msg, at, cfg) {
      var v := Apply(f.image.board, c, cfg.solution);
      CommandsAreOk(msg, conn.userId, present, at);
      AcceptedIsShaped(grid, cfg.solution, f, db, g, c);
      PreparedIsTimed(f, c, v, at, cfg, queued);
      FinishedIsTimed(Prepare(f, v, c.commandId, at, cfg), db, CompletionIn(v.events), at, cfg, fault, queued);
    }
  }

  /** After an expiry no vote is open and none is timed. */
  lemma ExpiryIsTimed(f: Fields, db: Db, at: int, cfg: Config, fault: Fault, queued: bool)
    requires TimedFields(f, queued)
    ensures TimedFields(HandleExpiry(f, db, at, cfg, fault).fields, false)
    ensures HandleExpiry(f, db, at, cfg, fault).fields.image.board.checkVote.None?
  {
    hide AfterMutationFlush, Emit;
    if f.image.board.checkVote.Some? {
      ExpiryIsCloseThenFlush(f, db, at, cfg, fault);
      ClosedIsTimed(f, at, queued);
      FlushedIsTimed(ExpiredFields(f, at), db, cfg.threshold, fault, false);
      FlushKeepsImage(ExpiredFields(f, at), db, cfg.threshold, fault);
    }
  }

  lemma FlushKeepsImage(p: Fields, db: Db, threshold: nat, fault: Fault)
    ensures AfterMutationFlush(p, db, threshold, fault).fields.image == p.image
  {}

  lemma ClosedIsTimed(f: Fields, at: int, queued: bool)
    requires TimedFields(f, queued) && f.image.board.checkVote.Some?
    ensures TimedFields(ExpiredFields(f, at), false)
    ensures ExpiredFields(f, at).image.board.checkVote.None?
  {
    var v := Expire(f.image.board);
    EmitKeepsRows(f.(image := f.image.(board := v.board)), v.events, at);
  }

  lemma AbandonIsTimed(f: Fields, db: Db, who: UserId, at: int, fault: Fault, queued: bool)
    requires TimedFields(f, queued)
    ensures TimedFields(DoAbandon(f, db, who, at, fault).fields, queued)
  {
    hide Flush, Print, Emit;
    var open := f.image.board.checkVote;
    if open.Some? {
      var v := CloseFailed(f.image.board, open.value, Cancelled, Terminal);
      EmitKeepsRows(f.(image := f.image.(board := v.board)), v.events, at);
    }
  }

  lemma HydratedIsTimed(grid: Grid, row: Option<Row>, now: int)
    ensures TimedFields(Hydrate(grid, row, now), false)
  {
    HydrationTakesUp(grid, row, now);
  }

  lemma TaskIsTimed(grid: Grid, cfg: Config, w: World, s: Step, g: Ledger)
    requires w.live.Some? && Agrees(grid, cfg.solution, w.live.value, w.db, g) && Timed(w)
    requires !s.Crash? && !s.Arrive?
    ensures Timed(Next(grid, cfg, w, s))
  {
    hide HandleMutation, HandleExpiry, DoFlush, DoAbandon, Agrees;
    var f, queued := w.live.value, w.posted.expiries > 0;
    match s
    case Submit(conn, present, msg, at, fault) =>
      SubmitIsTimed(grid, cfg, f, w.db, g, conn, present, msg, at, fault, queued);
    case ExpiryTask(at, fault) => ExpiryIsTimed(f, w.db, at, cfg, fault, queued);
    case FlushTask(fault) => FlushedIsTimed(f, w.db, 0, fault, queued);
    case AbandonTask(who, at, fault) => AbandonIsTimed(f, w.db, who, at, fault, queued);
    case _ =>
  }

  /**
   Through every run, faults and crashes included: the vote's timer is armed for an open vote only,
   an open vote has its timer armed or its expiry posted, and the flush timer is armed only while
   something is buffered.
   */
  lemma {:induction false} EveryRunIsTimed(grid: Grid, cfg: Config, steps: seq<Step>)
    requires PuzzleOk(grid, cfg.solution)
    ensures Timed(After(grid, cfg, Start(), steps))
  {
    hide HandleMutation, HandleExpiry, DoFlush, DoAbandon, Agrees;
    if steps != [] {
      var n := |steps| - 1;
      EveryRunIsTimed(grid, cfg, steps[..n]);
      EveryRunIsCoherent(grid, cfg, steps[..n]);
      NextIsTimed(grid, cfg, After(grid, cfg, Start(), steps[..n]), steps[n]);
    }
  }

  lemma NextIsTimed(grid: Grid, cfg: Config, w: World, s: Step)
    requires Coherent(grid, cfg.solution, w) && Timed(w)
    ensures Timed(Next(grid, cfg, w, s))
  {
    hide HandleMutation, HandleExpiry, DoFlush, DoAbandon, Hydrate, Agrees, TimedFields;
    var g :| Explained(grid, cfg.solution, w, g);
    if s.Arrive? && w.live.None? {
      HydratedIsTimed(grid, w.db.row, s.now);
    } else if w.live.Some? && !s.Crash? && !s.Arrive? {
      TaskIsTimed(grid, cfg, w, s, g);
    }
  }

  // --- Whether a flush is coming ---

  /** What is buffered has its timer armed or a flush posted. */
  ghost predicate FlushComing(f: Fields, posted: nat) { f.PendingCount() > 0 ==> f.flushTimer || posted > 0 }

  ghost predicate Attended(w: World) { w.live.Some? ==> FlushComing(w.live.value, w.posted.flushes) }

  lemma FinishedIsAttended(grid: Grid, cfg: Config, p: Fields, db: Db, g: Ledger, completion: Option<nat>,
                           at: int, posted: nat)
    requires Agrees(grid, cfg.solution, CompletionStamped(p, completion, at), db, g) && g.h != []
    ensures FlushComing(Finish(p, db, completion, at, cfg, NoFault).fields, posted)
  {
    hide Agrees;
    if completion.Some? {
      CompleteAgrees(grid, cfg.solution, p, db, g, completion.value, at, NoFault);
    } else if p.PendingCount() >= cfg.threshold {
      HealthyFlushLands(grid, cfg.solution, p, db, g);
    }
  }

  /** An accepted command whose flush, if it tries one, meets no fault leaves a flush coming, whatever was before. */
  lemma HealthyCommandRearms(grid: Grid, cfg: Config, f: Fields, db: Db, g: Ledger, conn: Connection,
                             present: seq<Connection>, msg: Message, at: int, posted: nat)
    requires Agrees(grid, cfg.solution, f, db, g) && Accepts(f, conn, present, msg, at, cfg)
    ensures FlushComing(HandleMutation(f, db, conn, present, msg, at, cfg, NoFault).fields, posted)
  {
    hide Apply, AssembleElectorate, Prepare, Finish, Agrees, CompletionStamped, Stamp;
    var c := ToCommand(msg, conn.userId, present, at);
    var v := Apply(f.image.board, c, cfg.solution);
    CommandsAreOk(msg, conn.userId, present, at);
    AcceptedIsShaped(grid, cfg.solution, f, db, g, c);
    var stamped := PrepareAgrees(grid, cfg, f, db, g, c, v, at);
    assert |Stamp(v.events, at, at + cfg.ttl)| > 0 by { AcceptedIsSomething(f.image.board, c, v, at, at + cfg.ttl); }
    FinishedIsAttended(grid, cfg, Prepare(f, v, c.commandId, at, cfg), db,
                       Grown(g, Stamp(v.events, at, at + cfg.ttl)), CompletionIn(v.events), at, posted);
  }

  lemma ExpiryIsAttended(grid: Grid, cfg: Config, f: Fields, db: Db, g: Ledger, at: int, posted: nat)
    requires Agrees(grid, cfg.solution, f, db, g) && FlushComing(f, posted)
    ensures FlushComing(HandleExpiry(f, db, at, cfg, NoFault).fields, posted)
  {
    hide Agrees;
    if f.image.board.checkVote.Some? {
      ExpiredAgrees(grid, cfg.solution, f, db, g, at);
      ExpiryIsCloseThenFlush(f, db, at, cfg, NoFault);
      FinishedIsAttended(grid, cfg, ExpiredFields(f, at), db,
                         Grown(g, Stamp(Expire(f.image.board).events, at, 0)), None, at, posted);
    }
  }

  lemma AbandonIsAttended(grid: Grid, sol: Solution, f: Fields, db: Db, g: Ledger, who: UserId, at: int, posted: nat)
    requires Agrees(grid, sol, f, db, g) && FlushComing(f, posted)
    ensures FlushComing(DoAbandon(f, db, who, at, NoFault).fields, posted)
  {
    if f.image.board.status == Ongoing { AbandonEmpties(grid, sol, f, db, g, who, at); }
  }

  lemma HydratedIsAttended(grid: Grid, w: World, now: int)
    ensures Attended(Hydrated(grid, w, now))
  {}

  lemma NextIsAttended(grid: Grid, cfg: Config, w: World, s: Step)
    requires Coherent(grid, cfg.solution, w) && Attended(w) && Faultless(s)
    ensures Attended(Next(grid, cfg, w, s))
  {
    hide HandleMutation, HandleExpiry, DoFlush, DoAbandon, Hydrate, Agrees;
    var g :| Explained(grid, cfg.solution, w, g);
    if w.live.Some? && !s.Crash? && !s.Arrive? {
      var f, n := w.live.value, w.posted.flushes;
      match s
      case Submit(conn, present, msg, at, _) =>
        if Accepts(f, conn, present, msg, at, cfg) {
          HealthyCommandRearms(grid, cfg, f, w.db, g, conn, present, msg, at, n);
        } else {
          RefusedChangesNothing(f, w.db, conn, present, msg, at, cfg, NoFault);
        }
      case ExpiryTask(at, _) => ExpiryIsAttended(grid, cfg, f, w.db, g, at, n);
      case FlushTask(_) => HealthyFlushLands(grid, cfg.solution, f, w.db, g);
      case AbandonTask(who, at, _) => AbandonIsAttended(grid, cfg.solution, f, w.db, g, who, at, n);
      case _ =>
    } else if s.Arrive? && w.live.None? {
      HydratedIsAttended(grid, w, s.now);
    }
  }

  lemma RefusedChangesNothing(f: Fields, db: Db, conn: Connection, present: seq<Connection>, msg: Message,
                              at: int, cfg: Config, fault: Fault)
    requires !Accepts(f, conn, present, msg, at, cfg)
    ensures
      var s := HandleMutation(f, db, conn, present, msg, at, cfg, fault);
      s.fields == f && s.db == db && s.frames == []
  {}

  /** While no flush faults, whatever is buffered has a flush coming, crashes and rehydrations included. */
  lemma {:induction false} FaultlessBufferIsAttended(grid: Grid, cfg: Config, steps: seq<Step>)
    requires PuzzleOk(grid, cfg.solution) && AllFaultless(steps)
    ensures Attended(After(grid, cfg, Start(), steps))
  {
    hide Next, Attended;
    if steps == [] {
      assert Attended(Start()) by { NobodyToAttend(); }
    } else {
      var n := |steps| - 1;
      FaultlessBufferIsAttended(grid, cfg, steps[..n]);
      EveryRunIsCoherent(grid, cfg, steps[..n]);
      NextIsAttended(grid, cfg, After(grid, cfg, Start(), steps[..n]), steps[n]);
    }
  }

  lemma NobodyToAttend()
    ensures Attended(Start())
  {}

  /**
   A flush that faults keeps its rows and its timer is gone: unless another flush was posted too,
   nothing will retry until somebody writes or drains.
   */
  lemma FaultyFlushIsUnattended(grid: Grid, cfg: Config, w: World, fault: Fault)
    requires Coherent(grid, cfg.solution, w) && w.live.Some? && w.live.value.PendingCount() > 0 && !fault.NoFault?
    ensures
      var w' := Next(grid, cfg, w, FlushTask(fault));
      && w'.live.Some? && w'.live.value.Pending() == w.live.value.Pending() && !w'.live.value.flushTimer
      && (Attended(w') <==> w.posted.flushes > 1)
  {
    hide Agrees, DoFlush;
    var g :| Explained(grid, cfg.solution, w, g);
    DoFlushAgrees(grid, cfg.solution, w.live.value, w.db, g, fault);
    FailedFlushKeepsRows(w.live.value, w.db, fault);
  }

  lemma FailedFlushKeepsRows(f: Fields, db: Db, fault: Fault)
    requires !DoFlush(f, db, fault).ok
    ensures DoFlush(f, db, fault).fields == f.(flushTimer := false)
  {}

  // --- How far ahead a deadline lies ---

  ghost predicate DeadlinesBy(h: History, d: int) {
    forall i :: 0 <= i < |h| && h[i].event.VoteOpened? ==> h[i].deadline <= d
  }

  lemma {:induction false} FoldedDeadline(m: Image, h: History, d: int)
    requires DeadlinesBy(h, d) && m.expiresAt.None?
    ensures Fold(m, h).expiresAt.Some? ==> Fold(m, h).expiresAt.value <= d
  {
    if h != [] {
      var n := |h| - 1;
      assert forall i :: 0 <= i < n ==> h[..n][i] == h[i];
      FoldedDeadline(m, h[..n], d);
    }
  }

  lemma DeadlinesAppend(h: History, es: seq<Event>, at: int, deadline: int, d: int)
    requires DeadlinesBy(h, d) && (deadline <= d || forall i :: 0 <= i < |es| ==> !es[i].VoteOpened?)
    ensures DeadlinesBy(h + Stamp(es, at, deadline), d)
  {}

  lemma NextDeadlines(grid: Grid, cfg: Config, w: World, s: Step, g: Ledger, d: int)
    requires Explained(grid, cfg.solution, w, g) && DeadlinesBy(g.h, d)
    requires s.Submit? ==> s.at + cfg.ttl <= d
    ensures DeadlinesBy(NextLedger(grid, cfg, w, g, s).h, d)
  {
    hide Explained, DeadlinesBy, Prepare, Apply, AssembleElectorate, ReadRow, Stamp;
    if s.Crash? {
      CutDeadlines(g, d);
    } else if s.Arrive? {
      if w.live.None? { DeadlinesAppend(g.h, Expire(ReadRow(grid, w.db.row).board).events, s.now, 0, d); }
    } else if w.live.Some? {
      var f := w.live.value;
      match s
      case Submit(conn, present, msg, at, _) =>
        DeadlinesAppend(g.h, Apply(f.image.board, ToCommand(msg, conn.userId, present, at), cfg.solution).events,
                        at, at + cfg.ttl, d);
      case ExpiryTask(at, _) => DeadlinesAppend(g.h, Expire(f.image.board).events, at, 0, d);
      case AbandonTask(_, at, _) => AbandonDeadlines(f, g, at, d);
      case _ =>
    }
  }

  lemma CutDeadlines(g: Ledger, d: int)
    requires DeadlinesBy(g.h, d)
    ensures DeadlinesBy(CutLedger(g).h, d)
  {}

  lemma AbandonDeadlines(f: Fields, g: Ledger, at: int, d: int)
    requires DeadlinesBy(g.h, d)
    ensures
      var c := CloseForAbandon(f, at);
      DeadlinesBy(MarkedLedger(c, ClosedLedger(f, g, at), at).h, d)
  {
    hide DeadlinesBy, Stamp, CloseForAbandon;
    var open := f.image.board.checkVote;
    if open.Some? {
      DeadlinesAppend(g.h, CloseFailed(f.image.board, open.value, Cancelled, Terminal).events, at, 0, d);
    }
    DeadlinesAppend(ClosedLedger(f, g, at).h, [GameAbandoned(CloseForAbandon(f, at).image.board.seqNo + 1)], at,
                    0, d);
  }

  ghost predicate CommandsBy(steps: seq<Step>, t: int) {
    forall i :: 0 <= i < |steps| && steps[i].Submit? ==> steps[i].at <= t
  }

  lemma {:induction false} HistoryDeadlines(grid: Grid, cfg: Config, steps: seq<Step>, t: int)
    requires PuzzleOk(grid, cfg.solution) && CommandsBy(steps, t)
    ensures DeadlinesBy(HistoryOf(grid, cfg, steps), t + cfg.ttl)
  {
    hide Explained, NextLedger, Next;
    if steps != [] {
      var n := |steps| - 1;
      assert forall i :: 0 <= i < n ==> steps[..n][i] == steps[i];
      HistoryDeadlines(grid, cfg, steps[..n], t);
      EveryRunIsCoherent(grid, cfg, steps[..n]);
      NextDeadlines(grid, cfg, After(grid, cfg, Start(), steps[..n]), steps[n], LedgerOf(grid, cfg, steps[..n]),
                    t + cfg.ttl);
    }
  }

  /** An open vote's deadline, in memory or in the row, is at most the last command's time plus the timebox. */
  lemma DeadlinesFollowCommands(grid: Grid, cfg: Config, steps: seq<Step>, t: int)
    requires PuzzleOk(grid, cfg.solution) && CommandsBy(steps, t)
    ensures
      var w := After(grid, cfg, Start(), steps);
      && (w.live.Some? && w.live.value.image.expiresAt.Some? ==> w.live.value.image.expiresAt.value <= t + cfg.ttl)
      && (var m := ReadRow(grid, w.db.row); m.expiresAt.Some? ==> m.expiresAt.value <= t + cfg.ttl)
  {
    EveryRunIsCoherent(grid, cfg, steps);
    HistoryDeadlines(grid, cfg, steps, t);
    ExplainedDeadlines(grid, cfg.solution, After(grid, cfg, Start(), steps), LedgerOf(grid, cfg, steps), t + cfg.ttl);
  }

  lemma ExplainedDeadlines(grid: Grid, sol: Solution, w: World, g: Ledger, d: int)
    requires Explained(grid, sol, w, g) && DeadlinesBy(g.h, d)
    ensures w.live.Some? && w.live.value.image.expiresAt.Some? ==> w.live.value.image.expiresAt.value <= d
    ensures var m := ReadRow(grid, w.db.row); m.expiresAt.Some? ==> m.expiresAt.value <= d
  {
    hide Good, ReadRow, DeadlinesBy, Stored;
    if w.live.None? { assert g.h[..g.k] == g.h; }
    StoredReadsBack(grid, sol, w.db, g.h[..g.k]);
    FoldedDeadline(EmptyImage(grid), g.h, d);
    CutDeadlines(Ledger(g.h, g.k, g.k), d);
    FoldedDeadline(EmptyImage(grid), g.h[..g.k], d);
  }

  /** Every vote timer due by `now` has fired, and what it posted has run. */
  ghost predicate Prompt(w: World, now: int) {
    w.live.Some? ==> !VoteTimerDue(w.live.value, now) && w.posted.expiries == 0
  }

  /** Once the timebox has passed since the last command, and timers are prompt, no vote is open. */
  lemma NoVoteOutlivesTheTimebox(grid: Grid, cfg: Config, steps: seq<Step>, t: int, now: int)
    requires PuzzleOk(grid, cfg.solution) && CommandsBy(steps, t) && t + cfg.ttl <= now
    requires Prompt(After(grid, cfg, Start(), steps), now)
    ensures
      var w := After(grid, cfg, Start(), steps);
      w.live.Some? ==> w.live.value.image.board.checkVote.None?
  {
    EveryRunIsCoherent(grid, cfg, steps);
    EveryRunIsTimed(grid, cfg, steps);
    DeadlinesFollowCommands(grid, cfg, steps, t);
  }
}
