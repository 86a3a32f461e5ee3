/**
 The whole system for one game: at most one live actor, what its timers have posted, its tables,
 everything it has broadcast, and the steps that move it. A step is one mailbox task run to its
 end with whatever its flush met, or a timer firing, which only posts a task. A crash forgets the
 actor, and an arrival hydrates a new one. A crash inside a flush is the flush's outcome followed
 by a crash. Every step also says what becomes of the run's own history.
 */
module World {
  import opened Basics
  import opened Sorting
  import opened Engine
  import opened RoomLaws
  import opened Journal
  import opened Store
  import opened Snapshots
  import opened Actor
  import opened Persistence

  /** Tasks the actor's own timers and its hydration have posted and the mailbox has not run. */
  datatype Posted = Posted(flushes: nat, expiries: nat)

  const NOTHING_POSTED := Posted(0, 0)

  datatype World = World(live: Option<Fields>, posted: Posted, db: Db, sent: seq<Frame>)

  datatype Step =
    | Submit(conn: Connection, present: seq<Connection>, msg: Message, at: int, fault: Fault)
    | ExpiryTask(at: int, fault: Fault)
    | FlushTask(fault: Fault)
    | AbandonTask(who: UserId, at: int, fault: Fault)
    | FlushTimer
    | VoteTimer(now: int)
    | Crash
    | Arrive(now: int)

  const NoTables := Db(None, [], [], [])

  function Start(): World { World(None, NOTHING_POSTED, NoTables, []) }

  function Settle(w: World, s: Settled): World {
    World(Some(s.fields), w.posted, s.db, w.sent + s.frames)
  }

  /** Hydration closes an overdue vote and posts the flush of that close behind itself. */
  function Hydrated(grid: Grid, w: World, now: int): World {
    var f := Hydrate(grid, w.db.row, now);
    World(Some(f), Posted(f.PendingCount(), 0), w.db, w.sent)
  }

  /** A timer clears its own handle and posts its task; the vote's fires at its deadline or later. */
  function FireFlushTimer(w: World, f: Fields): World {
    if !f.flushTimer then w
    else w.(live := Some(f.(flushTimer := false)), posted := w.posted.(flushes := w.posted.flushes + 1))
  }

  predicate VoteTimerDue(f: Fields, now: int) {
    f.voteTimer && f.image.expiresAt.Some? && f.image.expiresAt.value <= now
  }

  function FireVoteTimer(w: World, f: Fields, now: int): World {
    if !VoteTimerDue(f, now) then w
    else w.(live := Some(f.(voteTimer := false)), posted := w.posted.(expiries := w.posted.expiries + 1))
  }

  function OneLess(n: nat): nat { if n == 0 then 0 else n - 1 }

  /** An expiry is taken off the queue. */
  function Taken(w: World): World { w.(posted := w.posted.(expiries := OneLess(w.posted.expiries))) }

  /** A flush is taken off the queue, a posted one or a drain's, which anybody may post at any time. */
  function Flushing(w: World): World { w.(posted := w.posted.(flushes := OneLess(w.posted.flushes))) }

  function Next(grid: Grid, cfg: Config, w: World, s: Step): World {
    if s.Crash? then w.(live := None, posted := NOTHING_POSTED)
    else if s.Arrive? then
      if w.live.Some? then w else Hydrated(grid, w, s.now)
    else if w.live.None? then w
    else
      var f := w.live.value;
      match s
      case Submit(conn, present, msg, at, fault) =>
        Settle(w, HandleMutation(f, w.db, conn, present, msg, at, cfg, fault))
      case ExpiryTask(at, fault) =>  // there is none to run unless a timer posted it
        if w.posted.expiries == 0 then w else Settle(Taken(w), HandleExpiry(f, w.db, at, cfg, fault))
      case FlushTask(fault) => Settle(Flushing(w), DoFlush(f, w.db, fault))
      case AbandonTask(who, at, fault) => Settle(w, DoAbandon(f, w.db, who, at, fault))
      case FlushTimer => FireFlushTimer(w, f)
      case VoteTimer(now) => FireVoteTimer(w, f, now)
  }

  function After(grid: Grid, cfg: Config, w: World, steps: seq<Step>): World {
    if steps == [] then w
    else Next(grid, cfg, After(grid, cfg, w, steps[..|steps| - 1]), steps[|steps| - 1])
  }

  /** Tasks and timers of one actor, nobody crashing or arriving. */
  ghost predicate SameActor(steps: seq<Step>) {
    forall i :: 0 <= i < |steps| ==> !steps[i].Crash? && !steps[i].Arrive?
  }

  ghost predicate Explained(grid: Grid, sol: Solution, w: World, g: Ledger) {
    if w.live.Some? then Agrees(grid, sol, w.live.value, w.db, g)
    else g.k == |g.h| && Good(grid, sol, g.h) && Stored(grid, w.db, g.h)
  }

  /** Some history explains memory, buffer and tables together. */
  ghost predicate Coherent(grid: Grid, sol: Solution, w: World) {
    exists g :: Explained(grid, sol, w, g)
  }

  // --- What a step does to the history ---

  /** The command would be applied: not refused, not a duplicate. */
  predicate Accepts(f: Fields, conn: Connection, present: seq<Connection>, msg: Message, at: int, cfg: Config) {
    && conn.role != Spectator && msg.commandId !in f.image.recent
    && Apply(f.image.board, ToCommand(msg, conn.userId, present, at), cfg.solution).error.None?
  }

  ghost function Grown(g: Ledger, ss: History): Ledger { Ledger(g.h + ss, g.j, g.k) }

  ghost function FinishLedger(p: Fields, g: Ledger, completion: Option<nat>, cfg: Config, fault: Fault): Ledger {
    if completion.Some? then AfterFlush(g, fault) else AfterMutation(p, g, cfg.threshold, fault)
  }

  ghost function AcceptLedger(f: Fields, g: Ledger, v: Verdict, id: CommandId, at: int, cfg: Config,
                              fault: Fault): Ledger {
    FinishLedger(Prepare(f, v, id, at, cfg), Grown(g, Stamp(v.events, at, at + cfg.ttl)),
                 CompletionIn(v.events), cfg, fault)
  }

  ghost function SubmitLedger(f: Fields, g: Ledger, conn: Connection, present: seq<Connection>, msg: Message,
                              at: int, cfg: Config, fault: Fault): Ledger {
    if Accepts(f, conn, present, msg, at, cfg)
    then AcceptLedger(f, g, Apply(f.image.board, ToCommand(msg, conn.userId, present, at), cfg.solution),
                      msg.commandId, at, cfg, fault)
    else g
  }

  ghost function FlushLedger(f: Fields, g: Ledger, fault: Fault): Ledger {
    if f.PendingCount() == 0 then g else AfterFlush(g, fault)
  }

  ghost function ExpiryLedger(f: Fields, g: Ledger, at: int, cfg: Config, fault: Fault): Ledger {
    if f.image.board.checkVote.None? then g
    else
      AfterMutation(ExpiredFields(f, at), Grown(g, Stamp(Expire(f.image.board).events, at, 0)), cfg.threshold, fault)
  }

  ghost function ClosedLedger(f: Fields, g: Ledger, at: int): Ledger {
    var open := f.image.board.checkVote;
    if open.None? then g
    else Grown(g, Stamp(CloseFailed(f.image.board, open.value, Cancelled, Terminal).events, at, 0))
  }

  ghost function MarkedLedger(c: Fields, g: Ledger, at: int): Ledger {
    Grown(g, Stamp([GameAbandoned(c.image.board.seqNo + 1)], at, 0))
  }

  ghost function AbandonLedger(f: Fields, g: Ledger, at: int, fault: Fault): Ledger {
    if f.image.board.status != Ongoing then g
    else AfterFlush(MarkedLedger(CloseForAbandon(f, at), ClosedLedger(f, g, at), at), fault)
  }

  ghost function HydrateLedger(grid: Grid, row: Option<Row>, h: History, now: int): Ledger {
    var m := ReadRow(grid, row);
    if m.board.checkVote.None? || (m.expiresAt.Some? && m.expiresAt.value > now) then Ledger(h, |h|, |h|)
    else Ledger(h + Stamp(Expire(m.board).events, now, 0), |h|, |h|)
  }

  /** A crash cuts the history back to what the tables hold. */
  ghost function CutLedger(g: Ledger): Ledger {
    if g.k > |g.h| then g else Ledger(g.h[..g.k], g.k, g.k)
  }

  ghost function NextLedger(grid: Grid, cfg: Config, w: World, g: Ledger, s: Step): Ledger {
    if s.Crash? then CutLedger(g)
    else if s.Arrive? then
      if w.live.Some? then g else HydrateLedger(grid, w.db.row, g.h, s.now)
    else if w.live.None? then g
    else
      var f := w.live.value;
      match s
      case Submit(conn, present, msg, at, fault) => SubmitLedger(f, g, conn, present, msg, at, cfg, fault)
      case ExpiryTask(at, fault) => if w.posted.expiries == 0 then g else ExpiryLedger(f, g, at, cfg, fault)
      case FlushTask(fault) => FlushLedger(f, g, fault)
      case AbandonTask(_, at, fault) => AbandonLedger(f, g, at, fault)
      case FlushTimer => g
      case VoteTimer(_) => g
  }

  /** The run's own history, how far the buffer reaches back in it and how far the tables reach. */
  ghost function LedgerOf(grid: Grid, cfg: Config, steps: seq<Step>): Ledger {
    if steps == [] then Ledger([], 0, 0)
    else
      var front := steps[..|steps| - 1];
      NextLedger(grid, cfg, After(grid, cfg, Start(), front), LedgerOf(grid, cfg, front), steps[|steps| - 1])
  }

  ghost function HistoryOf(grid: Grid, cfg: Config, steps: seq<Step>): History { LedgerOf(grid, cfg, steps).h }

  // --- Each task keeps the agreement ---

  lemma CommandsAreOk(msg: Message, who: UserId, present: seq<Connection>, at: int)
    ensures CommandOk(ToCommand(msg, who, present, at))
    ensures !ToCommand(msg, who, present, at).ExpireVote?
    ensures ToCommand(msg, who, present, at).commandId == msg.commandId
  {
    ElectorateIs(present, who);
    StringOrderIsTotal();
  }

  lemma FreshIdExtends(grid: Grid, sol: Solution, h: History, ss: History, id: CommandId)
    requires Good(grid, sol, h) && id !in ImageOf(grid, h).recent && IdsIn(ss) == [id]
    ensures WindowDistinct(IdsIn(h + ss))
  {
    RecentIsTheWindow(grid, h);
    WindowGrows(IdsIn(h), id);
    IdsAppend(h, ss);
  }

  lemma DeadlineFollowsVote(m: Image, b: Board, c: Command, v: Verdict, at: int, deadline: int)
    requires !c.ExpireVote? && Shaped(b, c, v)
    requires m.expiresAt.Some? <==> b.checkVote.Some?
    ensures Fold(m, Stamp(v.events, at, deadline)).expiresAt.Some? <==> v.board.checkVote.Some?
  {
    FoldShaped(m, b, c, v, at, deadline);
  }

  /** An accepted command's stamped events make a longer good history. */
  lemma AcceptedHistoryIsGood(grid: Grid, sol: Solution, h: History, c: Command, v: Verdict, at: int, deadline: int)
    requires Good(grid, sol, h) && !c.ExpireVote?
    requires Shaped(ImageOf(grid, h).board, c, v) && Lawful(ImageOf(grid, h).board, v, sol)
    requires c.commandId !in ImageOf(grid, h).recent
    ensures Good(grid, sol, h + Stamp(v.events, at, deadline))
  {
    var m := ImageOf(grid, h);
    FoldShaped(m, m.board, c, v, at, deadline);
    FreshIdExtends(grid, sol, h, Stamp(v.events, at, deadline), c.commandId);
    DeadlineFollowsVote(m, m.board, c, v, at, deadline);
    GoodExtends(grid, sol, h, v.events, at, deadline, v.board);
  }

  function CompletionStamped(p: Fields, completion: Option<nat>, at: int): Fields {
    if completion.Some? then p.(image := p.image.(completedAt := Some(at))) else p
  }

  /** The fields f' are f with the stamped events folded in and their rows buffered. */
  ghost predicate Follows(f: Fields, es: seq<Event>, at: int, deadline: int, f': Fields) {
    match f'
    case Fields(image, _, _, _, _, _, _) =>
      image == Fold(f.image, Stamp(es, at, deadline)) && f'.Pending() == Emit(f, es, at).Pending()
  }

  /** Fields that follow the stamped events agree with the history those events extend. */
  lemma AgreesExtends(grid: Grid, sol: Solution, f: Fields, db: Db, g: Ledger, es: seq<Event>, at: int,
                      deadline: int, f': Fields)
    requires Agrees(grid, sol, f, db, g)
    requires Good(grid, sol, g.h + Stamp(es, at, deadline)) && Follows(f, es, at, deadline, f')
    ensures Agrees(grid, sol, f', db, Ledger(g.h + Stamp(es, at, deadline), g.j, g.k))
  {
    FoldAppend(EmptyImage(grid), g.h, Stamp(es, at, deadline));
    assert (g.h + Stamp(es, at, deadline))[..g.k] == g.h[..g.k];
    BufferGrows(f, g.h, g.j, es, at, deadline, f');
  }

  /** What is buffered does not depend on the image. */
  lemma EmitIgnoresImage(f: Fields, f': Fields, es: seq<Event>, at: int)
    requires f.Pending() == f'.Pending()
    ensures Emit(f, es, at).Pending() == Emit(f', es, at).Pending()
  {
    EmitBuffers(f, es, at, 0);
    EmitBuffers(f', es, at, 0);
  }

  /** Preparing a command, and stamping completion, is folding and buffering its stamped events. */
  lemma PrepareFollows(f: Fields, c: Command, v: Verdict, at: int, cfg: Config)
    requires !c.ExpireVote? && Shaped(f.image.board, c, v)
    requires Replay(f.image.board, v.events) == v.board
    requires f.image.expiresAt.Some? <==> f.image.board.checkVote.Some?
    ensures
      Follows(f, v.events, at, at + cfg.ttl,
              CompletionStamped(Prepare(f, v, c.commandId, at, cfg), CompletionIn(v.events), at))
  {
    PrepareIsFold(f, c, v, at, cfg);
    EmitIgnoresImage(f, f.(image := f.image.(board := v.board, recent := Remember(f.image.recent, c.commandId))),
                     v.events, at);
  }

  /** The history grows by the verdict's events and the fields follow it, flush not yet tried. */
  lemma FollowedAgrees(grid: Grid, sol: Solution, f: Fields, db: Db, g: Ledger, c: Command, v: Verdict,
                       at: int, deadline: int, p: Fields)
    requires Agrees(grid, sol, f, db, g) && !c.ExpireVote?
    requires Shaped(f.image.board, c, v) && Lawful(f.image.board, v, sol)
    requires c.commandId !in f.image.recent
    requires Follows(f, v.events, at, deadline, p)
    ensures Agrees(grid, sol, p, db, Ledger(g.h + Stamp(v.events, at, deadline), g.j, g.k))
  {
    AcceptedHistoryIsGood(grid, sol, g.h, c, v, at, deadline);
    AgreesExtends(grid, sol, f, db, g, v.events, at, deadline, p);
  }

  lemma PrepareAgrees(grid: Grid, cfg: Config, f: Fields, db: Db, g: Ledger, c: Command, v: Verdict, at: int)
    returns (p: Fields)
    requires Agrees(grid, cfg.solution, f, db, g) && !c.ExpireVote?
    requires Shaped(f.image.board, c, v) && Lawful(f.image.board, v, cfg.solution)
    requires c.commandId !in f.image.recent
    ensures p == CompletionStamped(Prepare(f, v, c.commandId, at, cfg), CompletionIn(v.events), at)
    ensures Agrees(grid, cfg.solution, p, db, Ledger(g.h + Stamp(v.events, at, at + cfg.ttl), g.j, g.k))
  {
    hide Prepare, CompletionStamped, Follows, Emit, Fold;
    p := CompletionStamped(Prepare(f, v, c.commandId, at, cfg), CompletionIn(v.events), at);
    PrepareFollows(f, c, v, at, cfg);
    FollowedAgrees(grid, cfg.solution, f, db, g, c, v, at, at + cfg.ttl, p);
  }

  /** Completing flushes at once; whatever the flush met, the agreement holds. */
  lemma CompleteAgrees(grid: Grid, sol: Solution, p: Fields, db: Db, g: Ledger, n: nat, at: int, fault: Fault)
    requires Agrees(grid, sol, p.(image := p.image.(completedAt := Some(at))), db, g) && g.h != []
    ensures Agrees(grid, sol, CompleteGame(p, db, n, at, fault).fields, CompleteGame(p, db, n, at, fault).db,
                   AfterFlush(g, fault))
    ensures CompleteGame(p, db, n, at, fault).ok == fault.NoFault?
  {
    var q := p.(image := p.image.(completedAt := Some(at)));
    var after := Appended(db, q.Pending());
    var stats := StatsOf(q.image, n, at, Participants(after.cellLog), EventTimes(after.cellLog));
    FlushCatchesUp(grid, sol, q, db, g, Some(stats), fault);
    FlushAgrees(grid, sol, q, db, g, Some(stats), fault, CompleteGame(p, db, n, at, fault).fields);
  }

  lemma SubmitAgrees(grid: Grid, cfg: Config, f: Fields, db: Db, g: Ledger, conn: Connection,
                     present: seq<Connection>, msg: Message, at: int, fault: Fault)
    requires Agrees(grid, cfg.solution, f, db, g)
    ensures
      var s := HandleMutation(f, db, conn, present, msg, at, cfg, fault);
      Agrees(grid, cfg.solution, s.fields, s.db, SubmitLedger(f, g, conn, present, msg, at, cfg, fault))
    ensures g.h <= SubmitLedger(f, g, conn, present, msg, at, cfg, fault).h
  {
    hide Accept, AcceptLedger, Apply, AssembleElectorate, Agrees;
    var c := ToCommand(msg, conn.userId, present, at);
    var v := Apply(f.image.board, c, cfg.solution);
    if Accepts(f, conn, present, msg, at, cfg) {
      CommandsAreOk(msg, conn.userId, present, at);
      AcceptedIsShaped(grid, cfg.solution, f, db, g, c);
      AcceptAgrees(grid, cfg, f, db, g, c, v, at, fault);
    }
  }

  lemma AcceptedIsShaped(grid: Grid, sol: Solution, f: Fields, db: Db, g: Ledger, c: Command)
    requires Agrees(grid, sol, f, db, g) && CommandOk(c) && !c.ExpireVote?
    requires Apply(f.image.board, c, sol).error.None?
    ensures
      var v := Apply(f.image.board, c, sol);
      Shaped(f.image.board, c, v) && Lawful(f.image.board, v, sol)
  {
    ApplyLaws(f.image.board, c, sol);
    AcceptedShape(f.image.board, c, sol);
  }

  lemma FinishAgrees(grid: Grid, cfg: Config, p: Fields, db: Db, g: Ledger, completion: Option<nat>, at: int,
                     fault: Fault)
    requires Agrees(grid, cfg.solution, CompletionStamped(p, completion, at), db, g) && g.h != []
    ensures
      var s := Finish(p, db, completion, at, cfg, fault);
      Agrees(grid, cfg.solution, s.fields, s.db, FinishLedger(p, g, completion, cfg, fault))
  {
    if completion.Some? {
      CompleteAgrees(grid, cfg.solution, p, db, g, completion.value, at, fault);
    } else {
      AfterMutationAgrees(grid, cfg.solution, p, db, g, cfg.threshold, fault);
    }
  }

  lemma FinishKeepsHistory(p: Fields, g: Ledger, completion: Option<nat>, cfg: Config, fault: Fault)
    ensures FinishLedger(p, g, completion, cfg, fault).h == g.h
  {}

  lemma AcceptedIsSomething(b: Board, c: Command, v: Verdict, at: int, deadline: int)
    requires !c.ExpireVote? && Shaped(b, c, v)
    ensures |Stamp(v.events, at, deadline)| > 0
  {}

  lemma AcceptAgrees(grid: Grid, cfg: Config, f: Fields, db: Db, g: Ledger, c: Command, v: Verdict, at: int,
                     fault: Fault)
    requires Agrees(grid, cfg.solution, f, db, g) && !c.ExpireVote?
    requires Shaped(f.image.board, c, v) && Lawful(f.image.board, v, cfg.solution)
    requires c.commandId !in f.image.recent
    ensures
      var s := Accept(f, db, v, c.commandId, at, cfg, fault);
      Agrees(grid, cfg.solution, s.fields, s.db, AcceptLedger(f, g, v, c.commandId, at, cfg, fault))
    ensures AcceptLedger(f, g, v, c.commandId, at, cfg, fault).h == g.h + Stamp(v.events, at, at + cfg.ttl)
  {
    hide Prepare, CompletionStamped, CompletionIn, Finish, FinishLedger, Agrees, Shaped, Lawful, Stamp;
    var p := PrepareAgrees(grid, cfg, f, db, g, c, v, at);
    var grown := Grown(g, Stamp(v.events, at, at + cfg.ttl));
    assert grown.h != [] by { AcceptedIsSomething(f.image.board, c, v, at, at + cfg.ttl); }
    FinishAgrees(grid, cfg, Prepare(f, v, c.commandId, at, cfg), db, grown, CompletionIn(v.events), at, fault);
    FinishKeepsHistory(Prepare(f, v, c.commandId, at, cfg), grown, CompletionIn(v.events), cfg, fault);
  }

  // --- Expiry ---

  lemma CloseStamped(h: History, m: Image, v: Verdict, at: int)
    requires |v.events| == 1 && v.events[0].VoteClosed?
    ensures
      var m' := Fold(m, Stamp(v.events, at, 0));
      && m'.recent == m.recent && m'.expiresAt.None?
      && m'.completedAt == m.completedAt && m'.abandonedAt == m.abandonedAt
      && IdsIn(h + Stamp(v.events, at, 0)) == IdsIn(h)
  {
    var ss := Stamp(v.events, at, 0);
    FoldQuietIds(m, ss);
    FoldDeadline(m, v.events, at, 0);
    FoldTimes(m, v.events, at, 0);
    IdsAppend(h, ss);
    assert v.events[..0] == [];
  }

  /** Closing the open vote, by expiry or ahead of an abandon, extends the history by one close. */
  lemma CloseAgrees(grid: Grid, sol: Solution, f: Fields, db: Db, g: Ledger, v: Verdict, at: int, f': Fields)
    requires Agrees(grid, sol, f, db, g)
    requires |v.events| == 1 && v.events[0].VoteClosed? && Lawful(f.image.board, v, sol) && v.board.checkVote.None?
    requires f'.image == f.image.(board := v.board, expiresAt := None)
    requires f'.Pending() == Emit(f, v.events, at).Pending()
    ensures Agrees(grid, sol, f', db, Ledger(g.h + Stamp(v.events, at, 0), g.j, g.k))
  {
    CloseStamped(g.h, f.image, v, at);
    GoodExtends(grid, sol, g.h, v.events, at, 0, v.board);
    ImageExtends(grid, g.h, v.events, at, 0);
    assert f'.image == Fold(f.image, Stamp(v.events, at, 0));
    AgreesExtends(grid, sol, f, db, g, v.events, at, 0, f');
  }

  /** An expiry that closes the vote, before its flush. */
  function ExpiredFields(f: Fields, at: int): Fields {
    var v := Expire(f.image.board);
    CancelVoteTimer(Emit(f.(image := f.image.(board := v.board)), v.events, at))
  }

  lemma ExpiryIsCloseThenFlush(f: Fields, db: Db, at: int, cfg: Config, fault: Fault)
    requires f.image.board.checkVote.Some?
    ensures
      var s := HandleExpiry(f, db, at, cfg, fault);
      var t := AfterMutationFlush(ExpiredFields(f, at), db, cfg.threshold, fault);
      s.fields == t.fields && s.db == t.db
  {}

  lemma ExpiredAgrees(grid: Grid, sol: Solution, f: Fields, db: Db, g: Ledger, at: int)
    requires Agrees(grid, sol, f, db, g) && f.image.board.checkVote.Some?
    ensures Agrees(grid, sol, ExpiredFields(f, at), db,
                   Ledger(g.h + Stamp(Expire(f.image.board).events, at, 0), g.j, g.k))
  {
    var v := Expire(f.image.board);
    ExpireLaws(f.image.board, sol);
    EmitIgnoresImage(f, f.(image := f.image.(board := v.board)), v.events, at);
    CloseAgrees(grid, sol, f, db, g, v, at, ExpiredFields(f, at));
  }

  /** With no vote open an expiry only clears the timer. */
  lemma IdleExpiryAgrees(grid: Grid, cfg: Config, f: Fields, db: Db, g: Ledger, at: int, fault: Fault)
    requires Agrees(grid, cfg.solution, f, db, g) && f.image.board.checkVote.None?
    ensures
      var s := HandleExpiry(f, db, at, cfg, fault);
      Agrees(grid, cfg.solution, s.fields, s.db, g)
  {}

  lemma ExpiryAgrees(grid: Grid, cfg: Config, f: Fields, db: Db, g: Ledger, at: int, fault: Fault)
    requires Agrees(grid, cfg.solution, f, db, g)
    ensures
      var s := HandleExpiry(f, db, at, cfg, fault);
      Agrees(grid, cfg.solution, s.fields, s.db, ExpiryLedger(f, g, at, cfg, fault))
    ensures g.h <= ExpiryLedger(f, g, at, cfg, fault).h
  {
    hide HandleExpiry, ExpiredFields, AfterMutationFlush, Agrees;
    if f.image.board.checkVote.Some? {
      ExpiredAgrees(grid, cfg.solution, f, db, g, at);
      ExpiryIsCloseThenFlush(f, db, at, cfg, fault);
      AfterMutationAgrees(grid, cfg.solution, ExpiredFields(f, at), db,
                          Grown(g, Stamp(Expire(f.image.board).events, at, 0)), cfg.threshold, fault);
    } else {
      IdleExpiryAgrees(grid, cfg, f, db, g, at, fault);
    }
  }

  // --- Abandon ---

  lemma AbandonedIsSound(b: Board, sol: Solution)
    requires Sound(b, sol) && b.status == Ongoing && b.checkVote.None?
    ensures
      var e := GameAbandoned(b.seqNo + 1);
      && Sound(ApplyEvent(b, e), sol)
      && Explains(b, [e], ApplyEvent(b, e))
  {
    var e := GameAbandoned(b.seqNo + 1);
    SameBoardSameFailures(b, ApplyEvent(b, e), sol);
    ExplainsOne(b, e, ApplyEvent(b, e));
  }

  lemma MarkFolds(h: History, f: Fields, at: int)
    ensures
      var ss := Stamp([GameAbandoned(f.image.board.seqNo + 1)], at, 0);
      Fold(f.image, ss) == MarkAbandoned(f, at).image && IdsIn(h + ss) == IdsIn(h)
  {
    var ss := Stamp([GameAbandoned(f.image.board.seqNo + 1)], at, 0);
    assert ss[..0] == [];
    FoldQuietIds(f.image, ss);
    IdsAppend(h, ss);
  }

  lemma MarkAgrees(grid: Grid, sol: Solution, f: Fields, db: Db, g: Ledger, at: int)
    requires Agrees(grid, sol, f, db, g)
    requires f.image.board.status == Ongoing && f.image.board.checkVote.None?
    ensures
      Agrees(grid, sol, MarkAbandoned(f, at), db,
             Ledger(g.h + Stamp([GameAbandoned(f.image.board.seqNo + 1)], at, 0), g.j, g.k))
  {
    hide Stored, Buffered;
    var e := GameAbandoned(f.image.board.seqNo + 1);
    AbandonedIsSound(f.image.board, sol);
    MarkFolds(g.h, f, at);
    GoodExtends(grid, sol, g.h, [e], at, 0, ApplyEvent(f.image.board, e));
    assert [e][..0] == [];
    AgreesExtends(grid, sol, f, db, g, [e], at, 0, MarkAbandoned(f, at));
  }

  lemma ClosedForAbandonAgrees(grid: Grid, sol: Solution, f: Fields, db: Db, g: Ledger, at: int)
    requires Agrees(grid, sol, f, db, g) && f.image.board.status == Ongoing
    ensures Agrees(grid, sol, CloseForAbandon(f, at), db, ClosedLedger(f, g, at)) && g.h <= ClosedLedger(f, g, at).h
    ensures CloseForAbandon(f, at).image.board.status == Ongoing && CloseForAbandon(f, at).image.board.checkVote.None?
  {
    var b := f.image.board;
    if b.checkVote.Some? {
      var v := CloseFailed(b, b.checkVote.value, Cancelled, Terminal);
      CloseExplains(b, Cancelled, Terminal, sol);
      SameBoardSameFailures(b, v.board, sol);
      EmitIgnoresImage(f, f.(image := f.image.(board := v.board)), v.events, at);
      CloseAgrees(grid, sol, f, db, g, v, at, CloseForAbandon(f, at));
    }
  }

  lemma FlushAbandonedAgrees(grid: Grid, sol: Solution, m: Fields, db: Db, g: Ledger, who: UserId, at: int,
                             fault: Fault)
    requires Agrees(grid, sol, m, db, g) && g.h != []
    ensures
      var s := FlushAbandoned(m, db, who, at, fault);
      Agrees(grid, sol, s.fields, s.db, AfterFlush(g, fault)) && s.ok == fault.NoFault?
  {
    FlushCatchesUp(grid, sol, m, db, g, m.stats, fault);
    FlushAgrees(grid, sol, m, db, g, m.stats, fault, FlushAbandoned(m, db, who, at, fault).fields);
  }

  /** What an abandon is about to flush agrees with the history that ends in it. */
  lemma MarkedAgrees(grid: Grid, sol: Solution, f: Fields, db: Db, g: Ledger, at: int)
    requires Agrees(grid, sol, f, db, g) && f.image.board.status == Ongoing
    ensures
      var c := CloseForAbandon(f, at);
      Agrees(grid, sol, MarkAbandoned(c, at), db, MarkedLedger(c, ClosedLedger(f, g, at), at))
    ensures g.h <= ClosedLedger(f, g, at).h
  {
    ClosedForAbandonAgrees(grid, sol, f, db, g, at);
    MarkAgrees(grid, sol, CloseForAbandon(f, at), db, ClosedLedger(f, g, at), at);
  }

  lemma AbandonAgrees(grid: Grid, sol: Solution, f: Fields, db: Db, g: Ledger, who: UserId, at: int, fault: Fault)
    requires Agrees(grid, sol, f, db, g)
    ensures
      var s := DoAbandon(f, db, who, at, fault);
      Agrees(grid, sol, s.fields, s.db, AbandonLedger(f, g, at, fault))
      && (f.image.board.status == Ongoing ==> s.ok == fault.NoFault?)
    ensures g.h <= AbandonLedger(f, g, at, fault).h
  {
    hide CloseForAbandon, AbandonFrames, FlushAbandoned, ClosedLedger, Agrees;
    if f.image.board.status == Ongoing {
      MarkedAgrees(grid, sol, f, db, g, at);
      var c := CloseForAbandon(f, at);
      FlushAbandonedAgrees(grid, sol, MarkAbandoned(c, at), db, MarkedLedger(c, ClosedLedger(f, g, at), at), who,
                           at, fault);
    }
  }

  // --- Hydration ---

  /** A fresh actor agrees with the tables it was read from, one close ahead at most. */
  lemma HydrateAgrees(grid: Grid, sol: Solution, db: Db, h: History, now: int)
    requires Good(grid, sol, h) && Stored(grid, db, h)
    ensures Agrees(grid, sol, Hydrate(grid, db.row, now), db, HydrateLedger(grid, db.row, h, now))
    ensures
      var g := HydrateLedger(grid, db.row, h, now);
      g.k == |h| && h <= g.h && |g.h| <= |h| + 1
  {
    var m := ReadRow(grid, db.row);
    var f := Fields(m, if db.row.None? then None else db.row.value.stats, [], [], [], false, false);
    if db.row.Some? { HydrationUndoesFlushing(ImageOf(grid, h), db.row.value.stats, sol); }
    assert m == ImageOf(grid, h);
    assert h[..|h|] == h && h[|h|..] == [];
    if m.board.checkVote.Some? && !(m.expiresAt.Some? && m.expiresAt.value > now) {
      var v := Expire(m.board);
      ExpireLaws(m.board, sol);
      EmitIgnoresImage(f, f.(image := m.(board := v.board, expiresAt := None)), v.events, now);
      CloseAgrees(grid, sol, f, db, Ledger(h, |h|, |h|), v, now, Hydrate(grid, db.row, now));
    }
  }

  // --- Every run ---

  /** Timers carry no room: fields that differ in them alone agree with the same history. */
  lemma TimersCarryNothing(grid: Grid, sol: Solution, f: Fields, db: Db, g: Ledger, f': Fields)
    requires Agrees(grid, sol, f, db, g) && f'.image == f.image && f'.Pending() == f.Pending()
    ensures Agrees(grid, sol, f', db, g)
  {}

  /** Every step keeps one history that explains memory, buffer and tables, and says which. */
  lemma NextTells(grid: Grid, cfg: Config, w: World, s: Step, g: Ledger)
    requires Explained(grid, cfg.solution, w, g)
    ensures Explained(grid, cfg.solution, Next(grid, cfg, w, s), NextLedger(grid, cfg, w, g, s))
    ensures s.Crash? ==> NextLedger(grid, cfg, w, g, s).h == g.h[..g.k]
    ensures !s.Crash? ==> g.h <= NextLedger(grid, cfg, w, g, s).h
  {
    hide HandleMutation, HandleExpiry, DoFlush, DoAbandon, Hydrate;
    hide SubmitLedger, ExpiryLedger, AbandonLedger, FlushLedger, HydrateLedger;
    if s.Crash? {
      assert g.h[..g.k][..g.k] == g.h[..g.k];
      if w.live.None? { assert g.h[..g.k] == g.h; }
    } else if s.Arrive? {
      if w.live.None? { HydrateAgrees(grid, cfg.solution, w.db, g.h, s.now); }
    } else if w.live.Some? {
      TaskTells(grid, cfg, w, s, g);
    }
  }

  lemma TaskTells(grid: Grid, cfg: Config, w: World, s: Step, g: Ledger)
    requires w.live.Some? && Agrees(grid, cfg.solution, w.live.value, w.db, g) && !s.Crash? && !s.Arrive?
    ensures
      var w' := Next(grid, cfg, w, s);
      w'.live.Some? && Agrees(grid, cfg.solution, w'.live.value, w'.db, NextLedger(grid, cfg, w, g, s))
    ensures g.h <= NextLedger(grid, cfg, w, g, s).h
  {
    hide HandleMutation, HandleExpiry, DoFlush, DoAbandon, Hydrate, Agrees;
    hide SubmitLedger, ExpiryLedger, AbandonLedger, FlushLedger, HydrateLedger;
    var f := w.live.value;
    match s
    case Submit(conn, present, msg, at, fault) => SubmitAgrees(grid, cfg, f, w.db, g, conn, present, msg, at, fault);
    case ExpiryTask(at, fault) => ExpiryAgrees(grid, cfg, f, w.db, g, at, fault);
    case FlushTask(fault) => FlushTaskAgrees(grid, cfg.solution, f, w.db, g, fault);
    case AbandonTask(who, at, fault) => AbandonAgrees(grid, cfg.solution, f, w.db, g, who, at, fault);
    case FlushTimer => TimersCarryNothing(grid, cfg.solution, f, w.db, g, f.(flushTimer := false));
    case VoteTimer(_) => TimersCarryNothing(grid, cfg.solution, f, w.db, g, f.(voteTimer := false));
  }

  /** The tables' share of the history is never taken back, by a crash neither. */
  lemma TablesReachOn(grid: Grid, cfg: Config, w: World, s: Step, g: Ledger)
    requires Explained(grid, cfg.solution, w, g)
    ensures
      var g' := NextLedger(grid, cfg, w, g, s);
      g.k <= g'.k <= |g'.h| && g.h[..g.k] == g'.h[..g.k]
  {
    hide Apply, Prepare, CompletionIn, Stamp, Agrees, Stored, Good;
    NextTells(grid, cfg, w, s, g);
    StoredReach(grid, cfg, w, g);
    StoredReach(grid, cfg, Next(grid, cfg, w, s), NextLedger(grid, cfg, w, g, s));
  }

  lemma StoredReach(grid: Grid, cfg: Config, w: World, g: Ledger)
    requires Explained(grid, cfg.solution, w, g)
    ensures g.k <= |g.h| && StoredSeq(w.db) == g.k
  {
    if w.live.None? { assert g.h[..g.k] == g.h; }
  }

  lemma FlushTaskAgrees(grid: Grid, sol: Solution, f: Fields, db: Db, g: Ledger, fault: Fault)
    requires Agrees(grid, sol, f, db, g)
    ensures Agrees(grid, sol, DoFlush(f, db, fault).fields, DoFlush(f, db, fault).db, FlushLedger(f, g, fault))
    ensures g.h <= FlushLedger(f, g, fault).h
  {
    DoFlushAgrees(grid, sol, f, db, g, fault);
  }

  /**
   In every reachable state, through any faults, crashes and rehydrations, the run's own history
   explains memory, buffer and tables together.
   */
  lemma {:induction false} EveryRunIsCoherent(grid: Grid, cfg: Config, steps: seq<Step>)
    requires PuzzleOk(grid, cfg.solution)
    ensures Explained(grid, cfg.solution, After(grid, cfg, Start(), steps), LedgerOf(grid, cfg, steps))
    ensures Coherent(grid, cfg.solution, After(grid, cfg, Start(), steps))
  {
    hide NextLedger, Next;
    if steps == [] {
      EmptyHistoryIsGood(grid, cfg.solution);
    } else {
      var n := |steps| - 1;
      EveryRunIsCoherent(grid, cfg, steps[..n]);
      NextTells(grid, cfg, After(grid, cfg, Start(), steps[..n]), steps[n], LedgerOf(grid, cfg, steps[..n]));
    }
  }

  /** Coherence carries on from any coherent state; an actor nobody crashes stays, and its number never falls. */
  lemma {:induction false} CoherentOn(grid: Grid, cfg: Config, w: World, steps: seq<Step>)
    requires Coherent(grid, cfg.solution, w) && w.live.Some? && SameActor(steps)
    ensures
      var w' := After(grid, cfg, w, steps);
      Coherent(grid, cfg.solution, w') && w'.live.Some?
          && w.live.value.image.board.seqNo <= w'.live.value.image.board.seqNo
  {
    hide Next, NextLedger;
    if steps != [] {
      var n := |steps| - 1;
      CoherentOn(grid, cfg, w, steps[..n]);
      NumbersNeverFall(grid, cfg, After(grid, cfg, w, steps[..n]), steps[n]);
    }
  }

  lemma NumbersNeverFall(grid: Grid, cfg: Config, w: World, s: Step)
    requires Coherent(grid, cfg.solution, w) && w.live.Some? && !s.Crash? && !s.Arrive?
    ensures
      var w' := Next(grid, cfg, w, s);
      Coherent(grid, cfg.solution, w') && w'.live.Some?
          && w.live.value.image.board.seqNo <= w'.live.value.image.board.seqNo
  {
    hide Next, NextLedger;
    var g :| Explained(grid, cfg.solution, w, g);
    NextTells(grid, cfg, w, s, g);
    SameActorLives(grid, cfg, w, s);
  }

  lemma SameActorLives(grid: Grid, cfg: Config, w: World, s: Step)
    requires w.live.Some? && !s.Crash? && !s.Arrive?
    ensures Next(grid, cfg, w, s).live.Some?
  {}
}
