/**
 Evicted actors. Eviction marks the actor and drops the cache entry; it stops neither the actor's
 timers nor the tasks already in its mailbox, and both still reach the tables. Nothing an evicted
 actor sends reaches anybody, since it has no socket and takes none. Exactly when its successor,
 the tables and the broadcasts are what they would be if it were gone.
 */
module Evictions {
  import opened Basics
  import opened Engine
  import opened Journal
  import opened Store
  import opened Snapshots
  import opened Actor
  import opened Persistence
  import opened World
  import opened Durability
  import opened Timers

  /**
   A task posted behind the drain, or through a reference taken before the eviction: a write by
   somebody who has left since, or an abandon.
   */
  datatype Job = LateSubmit(conn: Connection, msg: Message) | LateAbandon(who: UserId)

  datatype Ghost = Ghost(fields: Fields, posted: Posted, late: seq<Job>)

  datatype Session = Session(w: World, ghosts: seq<Ghost>)

  datatype Act = Main(step: Step) | Evict(late: seq<Job>) | Haunt(which: nat, step: Step)

  // --- Steps ---

  /**
   What an evicted actor still does: its timers fire, and what is in its mailbox runs, in an order
   left free here. No socket is attached, so a late proposal's electorate is its proposer alone.
   */
  predicate CanTake(g: Ghost, s: Step) {
    match s
    case FlushTimer => true
    case VoteTimer(_) => true
    case ExpiryTask(_, _) => true
    case FlushTask(_) => g.posted.flushes > 0
    case Submit(conn, present, msg, _, _) => g.late != [] && g.late[0] == LateSubmit(conn, msg) && present == []
    case AbandonTask(who, _, _) => g.late != [] && g.late[0] == LateAbandon(who)
    case _ => false
  }

  /** The evicted actor and the tables it shares, on their own. */
  function Alone(g: Ghost, db: Db): World { World(Some(g.fields), g.posted, db, []) }

  function Rest(g: Ghost, s: Step): seq<Job> {
    if (s.Submit? || s.AbandonTask?) && g.late != [] then g.late[1..] else g.late
  }

  function Haunted(grid: Grid, cfg: Config, s: Session, i: nat, step: Step): Session {
    if i >= |s.ghosts| || !CanTake(s.ghosts[i], step) then s
    else
      var g := s.ghosts[i];
      var w' := Next(grid, cfg, Alone(g, s.w.db), step);
      if w'.live.None? then s
      else Session(s.w.(db := w'.db), s.ghosts[i := Ghost(w'.live.value, w'.posted, Rest(g, step))])
  }

  function Leaving(w: World, late: seq<Job>): seq<Ghost> {
    if w.live.None? then [] else [Ghost(w.live.value, w.posted, late)]
  }

  /** A crash takes the whole process, evicted actors included. */
  function Do(grid: Grid, cfg: Config, s: Session, act: Act): Session {
    match act
    case Main(step) => Session(Next(grid, cfg, s.w, step), if step.Crash? then [] else s.ghosts)
    case Evict(late) => Session(Next(grid, cfg, s.w, Crash), s.ghosts + Leaving(s.w, late))
    case Haunt(i, step) => Haunted(grid, cfg, s, i, step)
  }

  function Acted(grid: Grid, cfg: Config, s: Session, acts: seq<Act>): Session {
    if acts == [] then s
    else Do(grid, cfg, Acted(grid, cfg, s, acts[..|acts| - 1]), acts[|acts| - 1])
  }

  /** The same run with evicted actors simply gone. */
  function Plain(acts: seq<Act>): seq<Step> {
    if acts == [] then []
    else
      Plain(acts[..|acts| - 1]) +
      match acts[|acts| - 1]
      case Main(step) => [step]
      case Evict(_) => [Crash]
      case Haunt(_, _) => []
  }

  // --- What makes an evicted actor harmless ---

  /** The task would be refused or do nothing. */
  predicate Inert(f: Fields, job: Job, cfg: Config) {
    match job
    case LateSubmit(conn, msg) => !Accepts(f, conn, [], msg, 0, cfg)
    case LateAbandon(_) => f.image.board.status != Ongoing
  }

  ghost predicate AllInert(f: Fields, late: seq<Job>, cfg: Config) {
    forall i :: 0 <= i < |late| ==> Inert(f, late[i], cfg)
  }

  /** The row is already what this actor would write. */
  predicate Written(f: Fields, db: Db) { db.row == Some(Print(f.image, f.stats)) }

  /**
   At the moment of eviction: no vote is open, nothing in the mailbox does anything, and whatever is
   still buffered has no flush coming or is in the tables already.
   */
  ghost predicate Quiet(g: Ghost, db: Db, cfg: Config) {
    && g.fields.image.board.checkVote.None?
    && AllInert(g.fields, g.late, cfg)
    && (g.fields.PendingCount() == 0 || (!g.fields.flushTimer && g.posted.flushes == 0) || Written(g.fields, db))
  }

  ghost predicate Held<R>(log: seq<R>, rows: seq<R>, key: R -> nat) {
    forall i :: 0 <= i < |rows| ==> Has(log, key, key(rows[i]))
  }

  ghost predicate AllHeld(db: Db, b: Batch) {
    Held(db.cellLog, b.cells, CellKey) && Held(db.checkLog, b.checks, CheckKey) && Held(db.voteLog, b.votes, VoteKey)
  }

  /** A flush of these fields changes nothing: the row has passed them, or is theirs with their rows. */
  ghost predicate Redundant(f: Fields, db: Db) {
    && db.row.Some?
    && (db.row.value.lastSeq > f.image.board.seqNo || (Written(f, db) && AllHeld(db, f.Pending())))
  }

  /** The row and the current actor are at this number or past it, and past it with anything buffered. */
  ghost predicate Past(w: World, n: nat) {
    && w.db.row.Some? && w.db.row.value.lastSeq >= n
    && (w.live.Some? ==>
          && w.live.value.image.board.seqNo >= n
          && (w.live.value.PendingCount() > 0 ==> w.live.value.image.board.seqNo > n))
  }

  ghost predicate Harmless(g: Ghost, w: World, cfg: Config) {
    && g.fields.image.board.checkVote.None? && g.fields.image.expiresAt.None? && !g.fields.voteTimer
    && AllInert(g.fields, g.late, cfg)
    && (|| g.fields.PendingCount() == 0
        || (!g.fields.flushTimer && g.posted.flushes == 0)
        || (Redundant(g.fields, w.db) && Past(w, g.fields.image.board.seqNo)))
  }

  // --- A harmless actor stays harmless ---

  lemma {:induction false} HeldAddsNothing<R>(log: seq<R>, rows: seq<R>, key: R -> nat)
    requires Held(log, rows, key)
    ensures AddAbsent(log, rows, key) == log
  {
    if rows != [] {
      var n := |rows| - 1;
      assert forall i :: 0 <= i < n ==> rows[..n][i] == rows[i];
      HeldAddsNothing(log, rows[..n], key);
    }
  }

  lemma HeldByMore<R>(log: seq<R>, more: seq<R>, rows: seq<R>, key: R -> nat)
    requires Held(log, rows, key) && log <= more
    ensures Held(more, rows, key)
  {
    forall i | 0 <= i < |rows| ensures Has(more, key, key(rows[i])) {
      var k :| 0 <= k < |log| && key(log[k]) == key(rows[i]);
      assert more[k] == log[k];
    }
  }

  lemma RedundantFlush(f: Fields, db: Db, fault: Fault)
    requires Redundant(f, db)
    ensures DoFlush(f, db, fault).db == db
  {
    if f.PendingCount() > 0 && db.row.value.lastSeq <= f.image.board.seqNo {
      HeldAddsNothing(db.cellLog, f.pending, CellKey);
      HeldAddsNothing(db.checkLog, f.pendingChecks, CheckKey);
      HeldAddsNothing(db.voteLog, f.pendingVotes, VoteKey);
    }
  }

  /** Whether a command is accepted does not depend on the clock. */
  lemma AcceptsAtAnyTime(f: Fields, conn: Connection, present: seq<Connection>, msg: Message, at: int, at': int,
                         cfg: Config)
    ensures Accepts(f, conn, present, msg, at, cfg) == Accepts(f, conn, present, msg, at', cfg)
  {
    hide Apply, AssembleElectorate;
    ErrorsIgnoreTime(f.image.board, msg, conn.userId, present, at, cfg.solution);
    ErrorsIgnoreTime(f.image.board, msg, conn.userId, present, at', cfg.solution);
  }

  lemma ErrorsIgnoreTime(b: Board, msg: Message, who: UserId, present: seq<Connection>, at: int, sol: Solution)
    ensures Apply(b, ToCommand(msg, who, present, at), sol).error ==
      Apply(b, ToCommand(msg, who, present, 0), sol).error
  {
    hide ResolveByTally, AssembleElectorate, Correct;
  }

  lemma InertSubmitDoesNothing(f: Fields, db: Db, conn: Connection, msg: Message, at: int, cfg: Config, fault: Fault)
    requires Inert(f, LateSubmit(conn, msg), cfg)
    ensures
      var s := HandleMutation(f, db, conn, [], msg, at, cfg, fault);
      s.fields == f && s.db == db
  {
    AcceptsAtAnyTime(f, conn, [], msg, at, 0, cfg);
    RefusedChangesNothing(f, db, conn, [], msg, at, cfg, fault);
  }

  lemma IdleExpiryDoesNothing(f: Fields, db: Db, at: int, cfg: Config, fault: Fault)
    requires f.image.board.checkVote.None? && f.image.expiresAt.None? && !f.voteTimer
    ensures HandleExpiry(f, db, at, cfg, fault) == Settled(f, db, [], Silence, true)
  {}

  lemma InertAbandonDoesNothing(f: Fields, db: Db, who: UserId, at: int, fault: Fault)
    requires f.image.board.status != Ongoing
    ensures DoAbandon(f, db, who, at, fault) == Settled(f, db, [], Silence, true)
  {}

  lemma FlushOutcome(f: Fields, db: Db, fault: Fault)
    ensures
      var f' := DoFlush(f, db, fault).fields;
      && f'.image == f.image && f'.stats == f.stats && f'.voteTimer == f.voteTimer && !f'.flushTimer
      && (f'.PendingCount() == 0 || f'.Pending() == f.Pending())
    ensures f.PendingCount() == 0 ==>
      DoFlush(f, db, fault).db == db && DoFlush(f, db, fault).fields.PendingCount() == 0
  {}

  lemma InertGoesByImage(f: Fields, f': Fields, late: seq<Job>, cfg: Config)
    requires AllInert(f, late, cfg) && f'.image == f.image
    ensures AllInert(f', late, cfg)
    ensures late != [] ==> AllInert(f', late[1..], cfg)
  {
    hide Apply, AssembleElectorate;
    forall i | 0 <= i < |late| ensures Inert(f', late[i], cfg) { assert Inert(f, late[i], cfg); }
  }

  /** Whatever a harmless evicted actor does next, the tables stay as they are and it stays harmless. */
  lemma HauntIsHarmless(grid: Grid, cfg: Config, g: Ghost, w: World, step: Step)
    requires Harmless(g, w, cfg) && CanTake(g, step)
    ensures
      var w' := Next(grid, cfg, Alone(g, w.db), step);
      && w'.live.Some? && w'.db == w.db
      && Harmless(Ghost(w'.live.value, w'.posted, Rest(g, step)), w, cfg)
  {
    hide HandleMutation, HandleExpiry, DoFlush, DoAbandon, AllInert, Redundant, Past, Print;
    var f := g.fields;
    var w' := Next(grid, cfg, Alone(g, w.db), step);
    match step
    case FlushTimer =>
      InertGoesByImage(f, f.(flushTimer := false), g.late, cfg);
      RedundantIgnoresTimers(f, w.db);
    case VoteTimer(_) =>
    case ExpiryTask(at, fault) => IdleExpiryDoesNothing(f, w.db, at, cfg, fault);
    case FlushTask(fault) => FlushIsHarmless(g, w, cfg, fault);
    case Submit(conn, _, msg, at, fault) =>
      assert Inert(f, g.late[0], cfg) by { FirstIsInert(f, g.late, cfg); }
      InertSubmitDoesNothing(f, w.db, conn, msg, at, cfg, fault);
      InertGoesByImage(f, f, g.late, cfg);
    case AbandonTask(who, at, fault) =>
      assert Inert(f, g.late[0], cfg) by { FirstIsInert(f, g.late, cfg); }
      InertAbandonDoesNothing(f, w.db, who, at, fault);
      InertGoesByImage(f, f, g.late, cfg);
  }

  lemma RedundantIgnoresTimers(f: Fields, db: Db)
    ensures Redundant(f.(flushTimer := false), db) == Redundant(f, db)
  {}

  lemma FirstIsInert(f: Fields, late: seq<Job>, cfg: Config)
    requires AllInert(f, late, cfg) && late != []
    ensures Inert(f, late[0], cfg)
  {}

  lemma FlushIsHarmless(g: Ghost, w: World, cfg: Config, fault: Fault)
    requires Harmless(g, w, cfg) && g.posted.flushes > 0
    ensures DoFlush(g.fields, w.db, fault).db == w.db
    ensures
      var left := Posted(OneLess(g.posted.flushes), g.posted.expiries);
      Harmless(Ghost(DoFlush(g.fields, w.db, fault).fields, left, g.late), w, cfg)
  {
    hide DoFlush, AllInert, Past, Print;
    FlushOutcome(g.fields, w.db, fault);
    InertGoesByImage(g.fields, DoFlush(g.fields, w.db, fault).fields, g.late, cfg);
    if g.fields.PendingCount() > 0 { RedundantFlush(g.fields, w.db, fault); }
  }

  // --- The successor moves on past it ---

  /** The row is as it was or has passed the number, and the logs have only grown. */
  ghost predicate OnPast(db: Db, db': Db, n: nat) {
    && (db'.row == db.row || (db'.row.Some? && db'.row.value.lastSeq > n))
    && db.cellLog <= db'.cellLog && db.checkLog <= db'.checkLog && db.voteLog <= db'.voteLog
  }

  ghost predicate PastTask(db: Db, s: Settled, n: nat) {
    && OnPast(db, s.db, n)
    && s.fields.image.board.seqNo >= n && (s.fields.PendingCount() > 0 ==> s.fields.image.board.seqNo > n)
  }

  lemma FlushGoesPast(db: Db, b: Batch, snap: Row, fault: Fault, n: nat)
    requires snap.lastSeq > n
    ensures OnPast(db, Flush(db, b, snap, fault).db, n)
  {
    FlushAdvances(db, b, snap, fault);
  }

  lemma DoFlushGoesPast(f: Fields, db: Db, threshold: nat, fault: Fault, n: nat)
    requires f.image.board.seqNo >= n && (f.PendingCount() > 0 ==> f.image.board.seqNo > n)
    ensures PastTask(db, DoFlush(f, db, fault), n) && PastTask(db, AfterMutationFlush(f, db, threshold, fault), n)
  {
    hide Flush;
    if f.PendingCount() > 0 { FlushGoesPast(db, f.Pending(), Print(f.image, f.stats), fault, n); }
  }

  lemma FinishGoesPast(p: Fields, db: Db, completion: Option<nat>, at: int, cfg: Config, fault: Fault, n: nat)
    requires p.image.board.seqNo > n
    ensures PastTask(db, Finish(p, db, completion, at, cfg, fault), n)
  {
    hide Flush, AfterMutationFlush, StatsOf;
    if completion.Some? {
      var q := p.(image := p.image.(completedAt := Some(at)));
      var after := Appended(db, q.Pending());
      FlushGoesPast(db, q.Pending(),
        CompletionSnapshot(q.image, completion.value, at)(Participants(after.cellLog),
                                                          EventTimes(after.cellLog)), fault, n);
    } else {
      DoFlushGoesPast(p, db, cfg.threshold, fault, n);
    }
  }

  lemma SubmitGoesPast(grid: Grid, cfg: Config, f: Fields, db: Db, g: Ledger, conn: Connection,
                       present: seq<Connection>, msg: Message, at: int, fault: Fault, n: nat)
    requires Agrees(grid, cfg.solution, f, db, g)
    requires f.image.board.seqNo >= n && (f.PendingCount() > 0 ==> f.image.board.seqNo > n)
    ensures PastTask(db, HandleMutation(f, db, conn, present, msg, at, cfg, fault), n)
  {
    hide Apply, AssembleElectorate, Prepare, Finish, Agrees;
    var c := ToCommand(msg, conn.userId, present, at);
    if Accepts(f, conn, present, msg, at, cfg) {
      var v := Apply(f.image.board, c, cfg.solution);
      CommandsAreOk(msg, conn.userId, present, at);
      AcceptedIsShaped(grid, cfg.solution, f, db, g, c);
      PreparedBoard(f, v, c.commandId, at, cfg);
      FinishGoesPast(Prepare(f, v, c.commandId, at, cfg), db, CompletionIn(v.events), at, cfg, fault, n);
    }
  }

  lemma ExpiryGoesPast(f: Fields, db: Db, at: int, cfg: Config, fault: Fault, n: nat)
    requires f.image.board.seqNo >= n && (f.PendingCount() > 0 ==> f.image.board.seqNo > n)
    ensures PastTask(db, HandleExpiry(f, db, at, cfg, fault), n)
  {
    hide AfterMutationFlush;
    if f.image.board.checkVote.Some? {
      ExpiryIsCloseThenFlush(f, db, at, cfg, fault);
      DoFlushGoesPast(ExpiredFields(f, at), db, cfg.threshold, fault, n);
    }
  }

  lemma AbandonGoesPast(f: Fields, db: Db, who: UserId, at: int, fault: Fault, n: nat)
    requires f.image.board.seqNo >= n && (f.PendingCount() > 0 ==> f.image.board.seqNo > n)
    ensures PastTask(db, DoAbandon(f, db, who, at, fault), n)
  {
    hide Flush, CloseForAbandon;
    if f.image.board.status == Ongoing {
      ClosingCounts(f, at);
      var m := MarkAbandoned(CloseForAbandon(f, at), at);
      FlushGoesPast(db, m.Pending(), Print(m.image, m.stats), fault, n);
    }
  }

  lemma ClosingCounts(f: Fields, at: int)
    ensures CloseForAbandon(f, at).image.board.seqNo >= f.image.board.seqNo
  {}

  lemma HydratesPast(grid: Grid, row: Option<Row>, now: int)
    requires row.Some?
    ensures
      var f := Hydrate(grid, row, now);
      f.image.board.seqNo >= row.value.lastSeq && (f.PendingCount() > 0 ==> f.image.board.seqNo > row.value.lastSeq)
  {}

  /** A number once reached stays behind: each step leaves the row alone or takes it past. */
  lemma NextGoesPast(grid: Grid, cfg: Config, w: World, s: Step, n: nat)
    requires Coherent(grid, cfg.solution, w) && Past(w, n)
    ensures Past(Next(grid, cfg, w, s), n) && OnPast(w.db, Next(grid, cfg, w, s).db, n)
  {
    hide HandleMutation, HandleExpiry, DoFlush, DoAbandon, Hydrate, Agrees;
    var g :| Explained(grid, cfg.solution, w, g);
    if s.Crash? {
    } else if s.Arrive? {
      if w.live.None? { HydratesPast(grid, w.db.row, s.now); }
    } else if w.live.Some? {
      var f := w.live.value;
      match s
      case Submit(conn, present, msg, at, fault) =>
        SubmitGoesPast(grid, cfg, f, w.db, g, conn, present, msg, at, fault, n);
      case ExpiryTask(at, fault) => ExpiryGoesPast(f, w.db, at, cfg, fault, n);
      case FlushTask(fault) => DoFlushGoesPast(f, w.db, 0, fault, n);
      case AbandonTask(who, at, fault) => AbandonGoesPast(f, w.db, who, at, fault, n);
      case _ =>
    }
  }

  lemma StaysRedundant(f: Fields, db: Db, db': Db)
    requires Redundant(f, db) && OnPast(db, db', f.image.board.seqNo)
    ensures Redundant(f, db')
  {
    hide Print;
    if db'.row == db.row && db.row.value.lastSeq <= f.image.board.seqNo {
      HeldByMore(db.cellLog, db'.cellLog, f.pending, CellKey);
      HeldByMore(db.checkLog, db'.checkLog, f.pendingChecks, CheckKey);
      HeldByMore(db.voteLog, db'.voteLog, f.pendingVotes, VoteKey);
    }
  }

  /** Whatever the current actor does, an evicted actor that was harmless still is. */
  lemma MainKeepsHarmless(grid: Grid, cfg: Config, w: World, s: Step, g: Ghost)
    requires Coherent(grid, cfg.solution, w) && Harmless(g, w, cfg)
    ensures Harmless(g, Next(grid, cfg, w, s), cfg)
  {
    hide Next, Past, Redundant, AllInert;
    if Redundant(g.fields, w.db) && Past(w, g.fields.image.board.seqNo) {
      NextGoesPast(grid, cfg, w, s, g.fields.image.board.seqNo);
      StaysRedundant(g.fields, w.db, Next(grid, cfg, w, s).db);
    }
  }

  // --- Quiet evictions leave nothing behind ---

  lemma SuffixIsHeld<R>(h: History, j: nat, pick: Stamped -> Option<R>, key: R -> nat)
    requires j <= |h|
    ensures Held(Rows(h, pick), Rows(h[j..], pick), key)
  {
    hide Rows, Held;
    assert h == h[..j] + h[j..];
    RowsAppend(h[..j], h[j..], pick);
    AppendedIsHeld(Rows(h[..j], pick), Rows(h[j..], pick), key);
  }

  lemma AppendedIsHeld<R>(before: seq<R>, rows: seq<R>, key: R -> nat)
    ensures Held(before + rows, rows, key)
  {
    forall i | 0 <= i < |rows| ensures Has(before + rows, key, key(rows[i])) {
      assert (before + rows)[|before| + i] == rows[i];
    }
  }

  /** Fields whose row is written are at the end of the tables, buffer included. */
  lemma WrittenIsRedundant(grid: Grid, sol: Solution, f: Fields, db: Db, g: Ledger)
    requires Agrees(grid, sol, f, db, g) && Written(f, db)
    ensures Redundant(f, db) && db.row.value.lastSeq == f.image.board.seqNo
  {
    assert g.k == |g.h| && g.h[..g.k] == g.h;
    SuffixIsHeld(g.h, g.j, CellOf, CellKey);
    SuffixIsHeld(g.h, g.j, CheckOf, CheckKey);
    SuffixIsHeld(g.h, g.j, VoteOf, VoteKey);
  }

  lemma QuietIsHarmless(grid: Grid, cfg: Config, w: World, late: seq<Job>)
    requires Coherent(grid, cfg.solution, w) && Timed(w) && w.live.Some?
    requires Quiet(Ghost(w.live.value, w.posted, late), w.db, cfg)
    ensures Harmless(Ghost(w.live.value, w.posted, late), Next(grid, cfg, w, Crash), cfg)
  {
    hide AllInert, Redundant, Print;
    var g :| Explained(grid, cfg.solution, w, g);
    if Written(w.live.value, w.db) { WrittenIsRedundant(grid, cfg.solution, w.live.value, w.db, g); }
  }

  ghost predicate AllHarmless(s: Session, cfg: Config) {
    forall i :: 0 <= i < |s.ghosts| ==> Harmless(s.ghosts[i], s.w, cfg)
  }

  ghost predicate QuietAct(s: Session, act: Act, cfg: Config) {
    act.Evict? && s.w.live.Some? ==> Quiet(Ghost(s.w.live.value, s.w.posted, act.late), s.w.db, cfg)
  }

  /** Every eviction of the run is of an actor that is quiet then. */
  ghost predicate QuietRun(grid: Grid, cfg: Config, s: Session, acts: seq<Act>) {
    forall i :: 0 <= i < |acts| ==> QuietAct(Acted(grid, cfg, s, acts[..i]), acts[i], cfg)
  }

  /** One act among harmless evicted actors does to the rest what its plain steps do. */
  lemma HarmlessAct(grid: Grid, cfg: Config, s: Session, act: Act)
    requires Coherent(grid, cfg.solution, s.w) && Timed(s.w) && AllHarmless(s, cfg) && QuietAct(s, act, cfg)
    ensures
      var s' := Do(grid, cfg, s, act);
      && AllHarmless(s', cfg) && Coherent(grid, cfg.solution, s'.w) && Timed(s'.w)
      && s'.w == match act {
           case Main(step) => Next(grid, cfg, s.w, step)
           case Evict(_) => Next(grid, cfg, s.w, Crash)
           case Haunt(_, _) => s.w
         }
  {
    hide Next, Harmless, Quiet, Coherent, Timed;
    match act
    case Main(step) =>
      StaysCoherent(grid, cfg, s.w, step);
      forall i | 0 <= i < |s.ghosts| ensures Harmless(s.ghosts[i], Next(grid, cfg, s.w, step), cfg) {
        MainKeepsHarmless(grid, cfg, s.w, step, s.ghosts[i]);
      }
    case Evict(late) =>
      StaysCoherent(grid, cfg, s.w, Crash);
      forall i | 0 <= i < |s.ghosts| ensures Harmless(s.ghosts[i], Next(grid, cfg, s.w, Crash), cfg) {
        MainKeepsHarmless(grid, cfg, s.w, Crash, s.ghosts[i]);
      }
      if s.w.live.Some? { QuietIsHarmless(grid, cfg, s.w, late); }
    case Haunt(i, step) =>
      if i < |s.ghosts| && CanTake(s.ghosts[i], step) {
        HauntIsHarmless(grid, cfg, s.ghosts[i], s.w, step);
      }
  }

  lemma StaysCoherent(grid: Grid, cfg: Config, w: World, s: Step)
    requires Coherent(grid, cfg.solution, w) && Timed(w)
    ensures Coherent(grid, cfg.solution, Next(grid, cfg, w, s)) && Timed(Next(grid, cfg, w, s))
  {
    hide Next, NextLedger;
    var g :| Explained(grid, cfg.solution, w, g);
    NextTells(grid, cfg, w, s, g);
    NextIsTimed(grid, cfg, w, s);
  }

  lemma PlainStep(grid: Grid, cfg: Config, w: World, acts: seq<Act>)
    requires acts != []
    ensures
      var before := After(grid, cfg, w, Plain(acts[..|acts| - 1]));
      After(grid, cfg, w, Plain(acts)) ==
        match acts[|acts| - 1] {
          case Main(step) => Next(grid, cfg, before, step)
          case Evict(_) => Next(grid, cfg, before, Crash)
          case Haunt(_, _) => before
        }
  {
    hide Next;
    var front := Plain(acts[..|acts| - 1]);
    match acts[|acts| - 1]
    case Main(step) => assert (front + [step])[..|front|] == front;
    case Evict(_) => assert (front + [Crash])[..|front|] == front;
    case Haunt(_, _) => assert front + [] == front;
  }

  /**
   From any coherent state with no harmful evicted actor: if every further eviction is of a quiet
   actor, then the current actor, the tables and the broadcasts are at every moment what they
   would be had each evicted actor simply vanished, whatever the evicted ones go on to do.
   */
  lemma {:induction false} QuietEvictionsAreInvisible(grid: Grid, cfg: Config, s: Session, acts: seq<Act>)
    requires Coherent(grid, cfg.solution, s.w) && Timed(s.w) && AllHarmless(s, cfg) && QuietRun(grid, cfg, s, acts)
    ensures
      var s' := Acted(grid, cfg, s, acts);
      && s'.w == After(grid, cfg, s.w, Plain(acts))
      && AllHarmless(s', cfg) && Coherent(grid, cfg.solution, s'.w) && Timed(s'.w)
  {
    hide Do, Next, AllHarmless, Coherent, Timed, QuietAct;
    if acts != [] {
      var n := |acts| - 1;
      forall i | 0 <= i < n ensures QuietAct(Acted(grid, cfg, s, acts[..n][..i]), acts[..n][i], cfg) {
        assert acts[..n][..i] == acts[..i];
      }
      QuietEvictionsAreInvisible(grid, cfg, s, acts[..n]);
      HarmlessAct(grid, cfg, Acted(grid, cfg, s, acts[..n]), acts[n]);
      PlainStep(grid, cfg, s.w, acts);
    }
  }
}
