/**
 What an evicted actor that is not quiet can do: some further steps of its own reach the tables.
 With the other half, eviction is invisible exactly when the evicted actor is quiet. And what the
 late flush of a write made behind the drain does to tables that a successor is using.
 */
module Hauntings {
  import opened Basics
  import opened Engine
  import opened RoomLaws
  import opened Journal
  import opened Store
  import opened Snapshots
  import opened Actor
  import opened Persistence
  import opened World
  import opened Handoff
  import opened Timers
  import opened Evictions

  ghost predicate OnlyHaunts(acts: seq<Act>) {
    forall i :: 0 <= i < |acts| ==> acts[i].Haunt?
  }

  /** Steps of evicted actors alone can make the tables differ from these. */
  ghost predicate Touchable(grid: Grid, cfg: Config, s: Session, db: Db) {
    exists acts :: OnlyHaunts(acts) && Acted(grid, cfg, s, acts).w.db != db
  }

  lemma {:induction false} ActedPrepend(grid: Grid, cfg: Config, s: Session, act: Act, acts: seq<Act>)
    ensures Acted(grid, cfg, Do(grid, cfg, s, act), acts) == Acted(grid, cfg, s, [act] + acts)
  {
    hide Do;
    var all := [act] + acts;
    if acts == [] {
      assert all[..|all| - 1] == [];
    } else {
      ActedPrepend(grid, cfg, s, act, acts[..|acts| - 1]);
      assert all[..|all| - 1] == [act] + acts[..|acts| - 1];
    }
  }

  lemma TouchLater(grid: Grid, cfg: Config, s: Session, act: Act, db: Db)
    requires act.Haunt? && Touchable(grid, cfg, Do(grid, cfg, s, act), db)
    ensures Touchable(grid, cfg, s, db)
  {
    hide Do;
    var acts :| OnlyHaunts(acts) && Acted(grid, cfg, Do(grid, cfg, s, act), acts).w.db != db;
    ActedPrepend(grid, cfg, s, act, acts);
    assert OnlyHaunts([act] + acts);
  }

  lemma TouchedAlready(grid: Grid, cfg: Config, s: Session, db: Db)
    requires s.w.db != db
    ensures Touchable(grid, cfg, s, db)
  {
    assert OnlyHaunts([]) && Acted(grid, cfg, s, []) == s;
  }

  // --- What reaches the tables ---

  lemma CommittedFlush(grid: Grid, sol: Solution, f: Fields, db: Db, g: Ledger)
    requires Agrees(grid, sol, f, db, g) && f.PendingCount() > 0
    ensures DoFlush(f, db, NoFault).db.row == Some(Print(f.image, f.stats))
  {
    assert g.h != [];
    FlushCatchesUp(grid, sol, f, db, g, f.stats, NoFault);
  }

  /** A buffer with a flush coming reaches the tables. */
  lemma FlushTouches(grid: Grid, cfg: Config, s: Session, g: Ghost, l: Ledger, db: Db)
    requires s.ghosts == [g] && Agrees(grid, cfg.solution, g.fields, s.w.db, l)
    requires g.fields.PendingCount() > 0 && (g.fields.flushTimer || g.posted.flushes > 0)
    requires db.row != Some(Print(g.fields.image, g.fields.stats))
    ensures Touchable(grid, cfg, s, db)
  {
    hide Agrees, DoFlush, Print;
    var fire, flush := Haunt(0, FlushTimer), Haunt(0, FlushTask(NoFault));
    var s1 := Do(grid, cfg, s, fire);
    var f := g.fields.(flushTimer := false);
    assert s1.w == s.w && s1.ghosts[0].fields == f && s1.ghosts[0].posted.flushes > 0 && |s1.ghosts| == 1;
    var s2 := Do(grid, cfg, s1, flush);
    TimersCarryNothing(grid, cfg.solution, g.fields, s.w.db, l, f);
    CommittedFlush(grid, cfg.solution, f, s.w.db, l);
    assert s2.w.db == DoFlush(f, s.w.db, NoFault).db;
    TouchedAlready(grid, cfg, s2, db);
    TouchLater(grid, cfg, s1, flush, db);
    TouchLater(grid, cfg, s, fire, db);
  }

  /** What is past the tables and does not end the game is buffered. */
  lemma UnwrittenEndIsBuffered(grid: Grid, sol: Solution, f: Fields, db: Db, g: Ledger)
    requires Agrees(grid, sol, f, db, g) && g.k < |g.h| && !IsTerminal(g.h[|g.h| - 1].event)
    ensures f.PendingCount() > 0
  {
    var tail := g.h[g.j..];
    assert tail[|tail| - 1] == g.h[|g.h| - 1];
    if f.PendingCount() == 0 { OnlyTerminalsMakeNoRow(tail); }
  }

  /** A history longer than the tables knew, with its flush done or coming, reaches the tables. */
  lemma LongerHistoryTouches(grid: Grid, cfg: Config, s: Session, g: Ghost, l: Ledger, db: Db)
    requires s.ghosts == [g] && Agrees(grid, cfg.solution, g.fields, s.w.db, l)
    requires |l.h| > StoredSeq(db) && FlushComing(g.fields, g.posted.flushes)
    requires l.k == |l.h| || !IsTerminal(l.h[|l.h| - 1].event)
    ensures Touchable(grid, cfg, s, db)
  {
    hide Touchable;
    if l.k == |l.h| {
      assert StoredSeq(s.w.db) == |l.h| by { assert l.h[..l.k] == l.h; }
      TouchedAlready(grid, cfg, s, db);
    } else {
      UnwrittenEndIsBuffered(grid, cfg.solution, g.fields, s.w.db, l);
      FlushTouches(grid, cfg, s, g, l, db);
    }
  }

  lemma LedgerIsAhead(grid: Grid, sol: Solution, f: Fields, db: Db, l: Ledger)
    requires Agrees(grid, sol, f, db, l)
    ensures StoredSeq(db) == l.k <= |l.h|
  {}

  // --- An open vote ---

  lemma ClosedLedgerEnds(f: Fields, l: Ledger, at: int, cfg: Config)
    requires f.image.board.checkVote.Some?
    ensures
      var l' := ExpiryLedger(f, l, at, cfg, NoFault);
      |l'.h| == |l.h| + 1 && !IsTerminal(l'.h[|l'.h| - 1].event)
  {}

  lemma ClosedIsAttended(grid: Grid, cfg: Config, f: Fields, db: Db, l: Ledger, at: int, posted: nat)
    requires Agrees(grid, cfg.solution, f, db, l) && f.image.board.checkVote.Some?
    ensures FlushComing(HandleExpiry(f, db, at, cfg, NoFault).fields, posted)
  {
    hide Agrees;
    ExpiredAgrees(grid, cfg.solution, f, db, l, at);
    ExpiryIsCloseThenFlush(f, db, at, cfg, NoFault);
    FinishedIsAttended(grid, cfg, ExpiredFields(f, at), db, Grown(l, Stamp(Expire(f.image.board).events, at, 0)),
                       None, at, posted);
  }

  lemma PostedExpiryTouches(grid: Grid, cfg: Config, s: Session, g: Ghost, l: Ledger)
    requires s.ghosts == [g] && Agrees(grid, cfg.solution, g.fields, s.w.db, l)
    requires g.posted.expiries > 0 && g.fields.image.board.checkVote.Some?
    ensures Touchable(grid, cfg, s, s.w.db)
  {
    hide Touchable, HandleExpiry, ExpiryLedger, FlushComing, Agrees;
    var f, expire := g.fields, Haunt(0, ExpiryTask(0, NoFault));
    var s1 := Do(grid, cfg, s, expire);
    ExpiryAgrees(grid, cfg, f, s.w.db, l, 0, NoFault);
    ClosedLedgerEnds(f, l, 0, cfg);
    ClosedIsAttended(grid, cfg, f, s.w.db, l, 0, s1.ghosts[0].posted.flushes);
    LedgerIsAhead(grid, cfg.solution, f, s.w.db, l);
    LongerHistoryTouches(grid, cfg, s1, s1.ghosts[0], ExpiryLedger(f, l, 0, cfg, NoFault), s.w.db);
    TouchLater(grid, cfg, s, expire, s.w.db);
  }

  /** An open vote reaches the tables: its timer fires and its close is flushed. */
  lemma VoteTouches(grid: Grid, cfg: Config, s: Session, g: Ghost, l: Ledger)
    requires s.ghosts == [g] && Agrees(grid, cfg.solution, g.fields, s.w.db, l)
    requires TimedFields(g.fields, g.posted.expiries > 0) && g.fields.image.board.checkVote.Some?
    ensures Touchable(grid, cfg, s, s.w.db)
  {
    hide Touchable, Agrees;
    if g.posted.expiries > 0 {
      PostedExpiryTouches(grid, cfg, s, g, l);
    } else {
      var d := DeadlineOf(grid, cfg.solution, g.fields, s.w.db, l);
      var fire := Haunt(0, VoteTimer(d));
      var s1 := Do(grid, cfg, s, fire);
      var f := g.fields.(voteTimer := false);
      TimersCarryNothing(grid, cfg.solution, g.fields, s.w.db, l, f);
      assert s1 == Session(s.w, [Ghost(f, g.posted.(expiries := 1), g.late)]);
      PostedExpiryTouches(grid, cfg, s1, s1.ghosts[0], l);
      TouchLater(grid, cfg, s, fire, s.w.db);
    }
  }

  lemma DeadlineOf(grid: Grid, sol: Solution, f: Fields, db: Db, l: Ledger) returns (d: int)
    requires Agrees(grid, sol, f, db, l) && f.image.board.checkVote.Some?
    ensures f.image.expiresAt == Some(d)
  {
    d := f.image.expiresAt.value;
  }

  // --- A late task ---

  lemma AcceptedLedgerEnds(grid: Grid, cfg: Config, f: Fields, db: Db, l: Ledger, conn: Connection, msg: Message)
    requires Agrees(grid, cfg.solution, f, db, l) && Accepts(f, conn, [], msg, 0, cfg)
    ensures
      var l' := SubmitLedger(f, l, conn, [], msg, 0, cfg, NoFault);
      |l'.h| > |l.h| && (l'.k == |l'.h| || !IsTerminal(l'.h[|l'.h| - 1].event))
  {
    hide Apply, AssembleElectorate, Prepare, Agrees;
    var c := ToCommand(msg, conn.userId, [], 0);
    var v := Apply(f.image.board, c, cfg.solution);
    CommandsAreOk(msg, conn.userId, [], 0);
    AcceptedIsShaped(grid, cfg.solution, f, db, l, c);
    if CompletionIn(v.events).None? { LastIsNoCompletion(f.image.board, c, v); }
  }

  lemma LastIsNoCompletion(b: Board, c: Command, v: Verdict)
    requires !c.ExpireVote? && Shaped(b, c, v) && CompletionIn(v.events).None?
    ensures !IsTerminal(v.events[|v.events| - 1])
  {
    assert |v.events| > 1 ==> !v.events[|v.events| - 1].GameAbandoned?;
  }

  lemma LateSubmitTouches(grid: Grid, cfg: Config, s: Session, g: Ghost, l: Ledger)
    requires s.ghosts == [g] && Agrees(grid, cfg.solution, g.fields, s.w.db, l)
    requires g.late != [] && g.late[0].LateSubmit? && !Inert(g.fields, g.late[0], cfg)
    ensures Touchable(grid, cfg, s, s.w.db)
  {
    hide Touchable, HandleMutation, SubmitLedger, FlushComing, Agrees, Accepts;
    var f, conn, msg := g.fields, g.late[0].conn, g.late[0].msg;
    var act := Haunt(0, Submit(conn, [], msg, 0, NoFault));
    var s1 := Do(grid, cfg, s, act);
    SubmitAgrees(grid, cfg, f, s.w.db, l, conn, [], msg, 0, NoFault);
    AcceptedLedgerEnds(grid, cfg, f, s.w.db, l, conn, msg);
    HealthyCommandRearms(grid, cfg, f, s.w.db, l, conn, [], msg, 0, s1.ghosts[0].posted.flushes);
    LedgerIsAhead(grid, cfg.solution, f, s.w.db, l);
    LongerHistoryTouches(grid, cfg, s1, s1.ghosts[0], SubmitLedger(f, l, conn, [], msg, 0, cfg, NoFault), s.w.db);
    TouchLater(grid, cfg, s, act, s.w.db);
  }

  lemma AbandonedLedgerEnds(f: Fields, l: Ledger, at: int)
    requires f.image.board.status == Ongoing
    ensures
      var l' := AbandonLedger(f, l, at, NoFault);
      |l'.h| > |l.h| && l'.k == |l'.h|
  {}

  lemma LateAbandonTouches(grid: Grid, cfg: Config, s: Session, g: Ghost, l: Ledger)
    requires s.ghosts == [g] && Agrees(grid, cfg.solution, g.fields, s.w.db, l)
    requires g.late != [] && g.late[0].LateAbandon? && !Inert(g.fields, g.late[0], cfg)
    ensures Touchable(grid, cfg, s, s.w.db)
  {
    hide Touchable, DoAbandon, AbandonLedger, Agrees;
    var f, who := g.fields, g.late[0].who;
    var act := Haunt(0, AbandonTask(who, 0, NoFault));
    var s1 := Do(grid, cfg, s, act);
    AbandonAgrees(grid, cfg.solution, f, s.w.db, l, who, 0, NoFault);
    AbandonedLedgerEnds(f, l, 0);
    AbandonEmpties(grid, cfg.solution, f, s.w.db, l, who, 0);
    LedgerIsAhead(grid, cfg.solution, f, s.w.db, l);
    LongerHistoryTouches(grid, cfg, s1, s1.ghosts[0], AbandonLedger(f, l, 0, NoFault), s.w.db);
    TouchLater(grid, cfg, s, act, s.w.db);
  }

  function StepOf(job: Job): Step {
    match job
    case LateSubmit(conn, msg) => Submit(conn, [], msg, 0, NoFault)
    case LateAbandon(who) => AbandonTask(who, 0, NoFault)
  }

  lemma InertJobPasses(grid: Grid, cfg: Config, s: Session, g: Ghost)
    requires s.ghosts == [g] && g.late != [] && Inert(g.fields, g.late[0], cfg)
    ensures Do(grid, cfg, s, Haunt(0, StepOf(g.late[0]))) == Session(s.w, [g.(late := g.late[1..])])
  {
    hide HandleMutation, DoAbandon, Accepts;
    match g.late[0]
    case LateSubmit(conn, msg) => InertSubmitDoesNothing(g.fields, s.w.db, conn, msg, 0, cfg, NoFault);
    case LateAbandon(who) => InertAbandonDoesNothing(g.fields, s.w.db, who, 0, NoFault);
  }

  /** A mailbox with anything in it that does something reaches the tables. */
  lemma {:induction false} LateTouches(grid: Grid, cfg: Config, s: Session, g: Ghost, l: Ledger)
    requires s.ghosts == [g] && Agrees(grid, cfg.solution, g.fields, s.w.db, l)
    requires !AllInert(g.fields, g.late, cfg)
    ensures Touchable(grid, cfg, s, s.w.db)
    decreases |g.late|
  {
    hide Touchable, Agrees, Inert, Do;
    if !Inert(g.fields, g.late[0], cfg) {
      if g.late[0].LateSubmit? {
        LateSubmitTouches(grid, cfg, s, g, l);
      } else {
        LateAbandonTouches(grid, cfg, s, g, l);
      }
    } else {
      var act := Haunt(0, StepOf(g.late[0]));
      InertJobPasses(grid, cfg, s, g);
      assert !AllInert(g.fields, g.late[1..], cfg) by {
        var i :| 0 <= i < |g.late| && !Inert(g.fields, g.late[i], cfg);
        assert g.late[1..][i - 1] == g.late[i];
      }
      LateTouches(grid, cfg, Do(grid, cfg, s, act), g.(late := g.late[1..]), l);
      TouchLater(grid, cfg, s, act, s.w.db);
    }
  }

  /** An evicted actor that is not quiet can reach the tables with no help from anybody. */
  lemma UnquietReachesTheTables(grid: Grid, cfg: Config, s: Session, g: Ghost, l: Ledger)
    requires s.ghosts == [g] && Agrees(grid, cfg.solution, g.fields, s.w.db, l)
    requires TimedFields(g.fields, g.posted.expiries > 0) && !Quiet(g, s.w.db, cfg)
    ensures Touchable(grid, cfg, s, s.w.db)
  {
    hide Touchable, Agrees, AllInert, TimedFields, Print;
    if g.fields.image.board.checkVote.Some? {
      VoteTouches(grid, cfg, s, g, l);
    } else if !AllInert(g.fields, g.late, cfg) {
      LateTouches(grid, cfg, s, g, l);
    } else {
      FlushTouches(grid, cfg, s, g, l, s.w.db);
    }
  }

  // --- Exactly ---

  ghost predicate NoEvictions(acts: seq<Act>) {
    forall i :: 0 <= i < |acts| ==> !acts[i].Evict?
  }

  /** Whatever happens next, the rest of the system is what it would be with nobody evicted left. */
  ghost predicate Invisible(grid: Grid, cfg: Config, s: Session) {
    forall acts :: NoEvictions(acts) ==> Acted(grid, cfg, s, acts).w == After(grid, cfg, s.w, Plain(acts))
  }

  lemma TouchIsVisible(grid: Grid, cfg: Config, s: Session)
    requires Touchable(grid, cfg, s, s.w.db)
    ensures !Invisible(grid, cfg, s)
  {
    hide Do, Next;
    var acts :| OnlyHaunts(acts) && Acted(grid, cfg, s, acts).w.db != s.w.db;
    HauntsArePlainlyNothing(acts);
    assert NoEvictions(acts);
  }

  lemma {:induction false} HauntsArePlainlyNothing(acts: seq<Act>)
    requires OnlyHaunts(acts)
    ensures Plain(acts) == []
  {
    if acts != [] { HauntsArePlainlyNothing(acts[..|acts| - 1]); }
  }

  lemma QuietIsInvisible(grid: Grid, cfg: Config, s: Session)
    requires Coherent(grid, cfg.solution, s.w) && Timed(s.w) && AllHarmless(s, cfg)
    ensures Invisible(grid, cfg, s)
  {
    hide Acted, Coherent, Timed, AllHarmless;
    forall acts | NoEvictions(acts) ensures Acted(grid, cfg, s, acts).w == After(grid, cfg, s.w, Plain(acts)) {
      QuietEvictionsAreInvisible(grid, cfg, s, acts);
    }
  }

  /** The session just after the current actor of this state is evicted with these tasks in its mailbox. */
  function Evicted(grid: Grid, cfg: Config, w: World, late: seq<Job>): Session {
    Do(grid, cfg, Session(w, []), Evict(late))
  }

  /**
   After any run with any faults: evicting the actor is invisible, to its successor, to the tables and
   to everybody watching, through every continuation, if and only if it is quiet.
   */
  lemma EvictionIsInvisibleIffQuiet(grid: Grid, cfg: Config, steps: seq<Step>, late: seq<Job>)
    requires PuzzleOk(grid, cfg.solution)
    requires After(grid, cfg, Start(), steps).live.Some?
    ensures
      var w := After(grid, cfg, Start(), steps);
      Invisible(grid, cfg, Evicted(grid, cfg, w, late)) <==> Quiet(Ghost(w.live.value, w.posted, late), w.db, cfg)
  {
    var w := After(grid, cfg, Start(), steps);
    EveryRunIsCoherent(grid, cfg, steps);
    EveryRunIsTimed(grid, cfg, steps);
    EvictedFrom(grid, cfg, w, LedgerOf(grid, cfg, steps), late);
  }

  lemma EvictedFrom(grid: Grid, cfg: Config, w: World, l: Ledger, late: seq<Job>)
    requires w.live.Some? && Explained(grid, cfg.solution, w, l) && Timed(w)
    ensures Invisible(grid, cfg, Evicted(grid, cfg, w, late))
        <==> Quiet(Ghost(w.live.value, w.posted, late), w.db, cfg)
  {
    hide Agrees, Invisible, Touchable, Quiet, Harmless;
    var g, s := Ghost(w.live.value, w.posted, late), Evicted(grid, cfg, w, late);
    assert s.ghosts == [g] && s.w.db == w.db;
    assert Coherent(grid, cfg.solution, w);
    if Quiet(g, w.db, cfg) {
      QuietIsHarmless(grid, cfg, w, late);
      StaysCoherent(grid, cfg, w, Crash);
      QuietIsInvisible(grid, cfg, s);
    } else {
      UnquietReachesTheTables(grid, cfg, s, g, l);
      TouchIsVisible(grid, cfg, s);
    }
  }
}
