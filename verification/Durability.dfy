/**
 What coherence means for someone who can only see the tables, the memory and the broadcasts:
 the logs account for every number, memory is the tables plus the buffered tail, a crash loses
 exactly that tail, a terminal event is announced at most once and never before it is durable,
 and when handing a drained game on loses something.
 */
module Durability {
  import opened Basics
  import opened Engine
  import opened RoomLaws
  import opened Journal
  import opened Store
  import opened Snapshots
  import opened Actor
  import opened Persistence
  import opened LogReading
  import opened World

  // --- The tables on their own ---

  ghost predicate TablesTell(grid: Grid, db: Db) {
    && (db.row.None? ==> db.cellLog == [] && db.checkLog == [] && db.voteLog == [])
    && (db.row.Some? ==>
          var r := db.row.value;
          && (forall n :: HeldOnce(db, r.lastSeq, r.status, n))
          && |r.cells| == grid.CellCount()
          && (forall c :: 0 <= c < |r.cells| && c !in grid.blocks ==> r.cells[c] == LastRow(db.cellLog, c))
          && r.checkCount == |db.checkLog|
          && (forall i, j :: 0 <= i < j < |r.checkedWrong| ==> r.checkedWrong[i] < r.checkedWrong[j])
          && (r.checkVote.None? ==> forall i :: !Standing(db.voteLog, i))
          && (r.checkVote.Some? ==>
                exists i :: Standing(db.voteLog, i) && StoredAs(db.voteLog, i, r.checkVote.value)))
  }

  /** The stored vote has its opening row's number, proposer and roster, and the ballots since. */
  ghost predicate StoredAs(log: seq<VoteRow>, i: int, v: StoredVote)
    requires Standing(log, i)
  {
    && v.openedSeq == log[i].seqNo && log[i].userId == Some(v.who) && log[i].electorate == Some(v.electorate)
    && (forall u :: u in v.approvals <==> u == v.who || BallotRow(log, i, u, true))
    && (forall u :: u in v.rejections <==> BallotRow(log, i, u, false))
  }

  lemma StoredVoteTells(m: Image, log: seq<VoteRow>)
    requires VoteInLog(log, m.board.checkVote) && (m.expiresAt.Some? <==> m.board.checkVote.Some?)
    ensures
      var v := PrintVote(m.board.checkVote, m.expiresAt);
      && (v.None? ==> forall i :: !Standing(log, i))
      && (v.Some? ==> exists i :: Standing(log, i) && StoredAs(log, i, v.value))
  {
    if m.board.checkVote.Some? {
      var i :| Standing(log, i) && ReadsAs(log, i, m.board.checkVote.value);
      assert StoredAs(log, i, PrintVote(m.board.checkVote, m.expiresAt).value);
    }
  }

  lemma StoredTablesTell(grid: Grid, sol: Solution, db: Db, h: History)
    requires Good(grid, sol, h) && Stored(grid, db, h)
    ensures TablesTell(grid, db)
  {
    if db.row.Some? {
      var m := ImageOf(grid, h);
      forall n ensures HeldOnce(db, db.row.value.lastSeq, db.row.value.status, n) {
        NumbersArePartitioned(grid, sol, db, h, n);
      }
      forall c | 0 <= c < grid.CellCount() && c !in grid.blocks
        ensures BoardCells(m.board)[c] == LastRow(db.cellLog, c)
      {
        LastRowWins(grid, h, c);
      }
      OneRowPerCheck(h);
      VoteRowsTell(grid, h);
      StoredVoteTells(m, db.voteLog);
    }
  }

  /**
   In every reachable state the three logs and the terminal number partition 1 to last_seq,
   each stored cell is its last row, the stored count is the number of check rows, and the
   stored vote is its standing opening with the ballots since.
   */
  lemma TablesAlwaysTell(grid: Grid, cfg: Config, steps: seq<Step>)
    requires PuzzleOk(grid, cfg.solution)
    ensures TablesTell(grid, After(grid, cfg, Start(), steps).db)
  {
    EveryRunIsCoherent(grid, cfg, steps);
    var w := After(grid, cfg, Start(), steps);
    var g :| Explained(grid, cfg.solution, w, g);
    if w.live.None? { assert g.h[..g.k] == g.h; }
    StoredTablesTell(grid, cfg.solution, w.db, g.h[..g.k]);
  }

  // --- Memory against the tables ---

  /** The history from the stored snapshot on, which memory has and the tables do not. */
  ghost predicate Unflushed(grid: Grid, f: Fields, db: Db, tail: History) {
    match f
    case Fields(image, _, pending, pendingChecks, pendingVotes, _, _) =>
      && image == Fold(ReadRow(grid, db.row), tail)
      && Suffix(CellRows(tail), pending)
      && Suffix(CheckRows(tail), pendingChecks)
      && Suffix(VoteRows(tail), pendingVotes)
  }

  ghost predicate Suffix<T>(s: seq<T>, t: seq<T>) {
    |s| <= |t| && t[|t| - |s|..] == s
  }

  lemma StoredReadsBack(grid: Grid, sol: Solution, db: Db, h: History)
    requires Good(grid, sol, h) && Stored(grid, db, h)
    ensures ReadRow(grid, db.row) == ImageOf(grid, h)
  {
    if db.row.Some? { HydrationUndoesFlushing(ImageOf(grid, h), db.row.value.stats, sol); }
  }

  lemma TailIsSuffix<R>(h: History, j: nat, k: nat, pick: Stamped -> Option<R>)
    requires j <= k <= |h|
    ensures Suffix(Rows(h[k..], pick), Rows(h[j..], pick))
  {
    assert h[j..] == h[j..k] + h[k..];
    RowsAppend(h[j..k], h[k..], pick);
  }

  /** Memory is the stored snapshot with a tail of events folded on, and the buffer ends with their rows. */
  lemma MemoryIsTablesPlusTail(grid: Grid, sol: Solution, f: Fields, db: Db, g: Ledger)
    requires Agrees(grid, sol, f, db, g)
    ensures Unflushed(grid, f, db, g.h[g.k..])
  {
    StoredReadsBack(grid, sol, db, g.h[..g.k]);
    assert g.h == g.h[..g.k] + g.h[g.k..];
    FoldAppend(EmptyImage(grid), g.h[..g.k], g.h[g.k..]);
    TailIsSuffix(g.h, g.j, g.k, CellOf);
    TailIsSuffix(g.h, g.j, g.k, CheckOf);
    TailIsSuffix(g.h, g.j, g.k, VoteOf);
  }

  /** A stored image as a new actor takes it up: a vote past its deadline is closed on the spot. */
  function TakenUp(m: Image, now: int): Image {
    if m.board.checkVote.None? || (m.expiresAt.Some? && m.expiresAt.value > now) then m
    else m.(board := Expire(m.board).board, expiresAt := None)
  }

  lemma HydrationTakesUp(grid: Grid, row: Option<Row>, now: int)
    ensures Hydrate(grid, row, now).image == TakenUp(ReadRow(grid, row), now)
    ensures Hydrate(grid, row, now).voteTimer <==> TakenUp(ReadRow(grid, row), now).board.checkVote.Some?
  {}

  lemma CrashThenArrive(grid: Grid, cfg: Config, w: World, now: int)
    ensures Next(grid, cfg, Next(grid, cfg, w, Crash), Arrive(now)) ==
      Hydrated(grid, w, now)
  {}

  lemma CrashAndArriveRun(grid: Grid, cfg: Config, steps: seq<Step>, now: int)
    ensures
      var w, crashed := After(grid, cfg, Start(), steps), steps + [Crash];
      && After(grid, cfg, Start(), crashed + [Arrive(now)]) == Hydrated(grid, w, now)
      && HistoryOf(grid, cfg, crashed) == CutLedger(LedgerOf(grid, cfg, steps)).h
  {
    var w, crashed := After(grid, cfg, Start(), steps), steps + [Crash];
    assert crashed[..|steps|] == steps;
    assert (crashed + [Arrive(now)])[..|crashed|] == crashed;
    CrashThenArrive(grid, cfg, w, now);
  }

  /**
   A crash loses exactly the run's own events past the stored number: memory was the stored image
   with just those folded on, the history is cut to the rest, and the successor takes that up.
   */
  lemma CrashLosesOnlyTheTail(grid: Grid, cfg: Config, steps: seq<Step>, now: int)
    requires PuzzleOk(grid, cfg.solution)
    requires After(grid, cfg, Start(), steps).live.Some?
    ensures
      var w, h := After(grid, cfg, Start(), steps), HistoryOf(grid, cfg, steps);
      var n, next := StoredSeq(w.db), After(grid, cfg, Start(), steps + [Crash] + [Arrive(now)]);
      && n <= |h| && Unflushed(grid, w.live.value, w.db, h[n..])
      && HistoryOf(grid, cfg, steps + [Crash]) == h[..n]
      && next.live.Some? && next.live.value.image == TakenUp(ImageOf(grid, h[..n]), now)
  {
    EveryRunIsCoherent(grid, cfg, steps);
    var w, g := After(grid, cfg, Start(), steps), LedgerOf(grid, cfg, steps);
    StoredReach(grid, cfg, w, g);
    MemoryIsTablesPlusTail(grid, cfg.solution, w.live.value, w.db, g);
    CrashAndArriveRun(grid, cfg, steps, now);
    HydrationTakesUp(grid, w.db.row, now);
    StoredReadsBack(grid, cfg.solution, w.db, g.h[..g.k]);
  }

  /** What has reached the tables stays in the history for good, through every later crash. */
  lemma {:induction false} StoredIsForever(grid: Grid, cfg: Config, steps: seq<Step>, n: nat)
    requires PuzzleOk(grid, cfg.solution) && n <= |steps|
    ensures
      var h, reach := HistoryOf(grid, cfg, steps[..n]), StoredSeq(After(grid, cfg, Start(), steps[..n]).db);
      && reach <= |h| && reach <= StoredSeq(After(grid, cfg, Start(), steps).db)
      && h[..reach] <= HistoryOf(grid, cfg, steps)
    decreases |steps|
  {
    hide Next, NextLedger, Explained;
    EveryRunIsCoherent(grid, cfg, steps[..n]);
    StoredReach(grid, cfg, After(grid, cfg, Start(), steps[..n]), LedgerOf(grid, cfg, steps[..n]));
    if n == |steps| {
      assert steps[..n] == steps;
    } else {
      var front := steps[..|steps| - 1];
      var w, g := After(grid, cfg, Start(), front), LedgerOf(grid, cfg, front);
      assert front[..n] == steps[..n];
      StoredIsForever(grid, cfg, front, n);
      EveryRunIsCoherent(grid, cfg, front);
      EveryRunIsCoherent(grid, cfg, steps);
      StoredReach(grid, cfg, w, g);
      StoredReach(grid, cfg, After(grid, cfg, Start(), steps), LedgerOf(grid, cfg, steps));
      TablesReachOn(grid, cfg, w, steps[|steps| - 1], g);
      assert HistoryOf(grid, cfg, steps[..n])[..StoredSeq(After(grid, cfg, Start(), steps[..n]).db)] <= g.h[..g.k];
    }
  }

  // --- Command ids ---

  /** Step i of the run is a submission, and it was accepted. */
  ghost predicate AcceptedAt(grid: Grid, cfg: Config, steps: seq<Step>, i: nat) {
    && i < |steps| && steps[i].Submit?
    && var w := After(grid, cfg, Start(), steps[..i]);
    && w.live.Some? && Accepts(w.live.value, steps[i].conn, steps[i].present, steps[i].msg, steps[i].at, cfg)
  }

  lemma OneStepOn(grid: Grid, cfg: Config, steps: seq<Step>, i: nat)
    requires i < |steps|
    ensures After(grid, cfg, Start(), steps[..i + 1]) ==
      Next(grid, cfg, After(grid, cfg, Start(), steps[..i]), steps[i])
    ensures LedgerOf(grid, cfg, steps[..i + 1]) ==
      NextLedger(grid, cfg, After(grid, cfg, Start(), steps[..i]), LedgerOf(grid, cfg, steps[..i]), steps[i])
  {
    assert steps[..i + 1][..i] == steps[..i];
  }

  lemma SubmitRecordsItsId(grid: Grid, cfg: Config, f: Fields, db: Db, g: Ledger, conn: Connection,
                           present: seq<Connection>, msg: Message, at: int, fault: Fault)
    requires Agrees(grid, cfg.solution, f, db, g) && Accepts(f, conn, present, msg, at, cfg)
    ensures IdsIn(SubmitLedger(f, g, conn, present, msg, at, cfg, fault).h) == IdsIn(g.h) + [msg.commandId]
  {
    hide Apply, AssembleElectorate, AcceptLedger, Agrees, Lawful, Stamp, Fold;
    var c := ToCommand(msg, conn.userId, present, at);
    var v := Apply(f.image.board, c, cfg.solution);
    CommandsAreOk(msg, conn.userId, present, at);
    AcceptedIsShaped(grid, cfg.solution, f, db, g, c);
    AcceptAgrees(grid, cfg, f, db, g, c, v, at, fault);
    FoldShaped(f.image, f.image.board, c, v, at, at + cfg.ttl);
    IdsAppend(g.h, Stamp(v.events, at, at + cfg.ttl));
  }

  /** An accepted submission adds its id to the run's history, once. */
  lemma AcceptedIsRecorded(grid: Grid, cfg: Config, steps: seq<Step>, i: nat)
    requires PuzzleOk(grid, cfg.solution) && AcceptedAt(grid, cfg, steps, i)
    ensures IdsIn(HistoryOf(grid, cfg, steps[..i + 1])) ==
      IdsIn(HistoryOf(grid, cfg, steps[..i])) + [steps[i].msg.commandId]
  {
    hide Accepts, SubmitLedger, Agrees;
    var w, g, s := After(grid, cfg, Start(), steps[..i]), LedgerOf(grid, cfg, steps[..i]), steps[i];
    EveryRunIsCoherent(grid, cfg, steps[..i]);
    OneStepOn(grid, cfg, steps, i);
    SubmitRecordsItsId(grid, cfg, w.live.value, w.db, g, s.conn, s.present, s.msg, s.at, s.fault);
  }

  /** The newest id and the 63 before it are all remembered. */
  lemma StillRemembered(ids: seq<CommandId>, id: CommandId, more: seq<CommandId>)
    requires |more| < RECENT_COMMAND_LIMIT
    ensures id in LastOf(ids + [id] + more, RECENT_COMMAND_LIMIT)
  {
    var all := ids + [id] + more;
    var window := LastOf(all, RECENT_COMMAND_LIMIT);
    assert all[|ids|] == id;
    assert window[|ids| - (|all| - |window|)] == id;
  }

  /**
   An id is applied once: while an accepted command is still in the history and fewer than 64 have
   been accepted since, submitting its id again changes nothing and sends nothing, through any
   faults, crashes and rehydrations in between.
   */
  lemma NoIdIsAppliedTwice(grid: Grid, cfg: Config, steps: seq<Step>, i: nat, j: nat)
    requires PuzzleOk(grid, cfg.solution) && i < j < |steps|
    requires AcceptedAt(grid, cfg, steps, i)
    requires steps[j].Submit? && steps[j].msg.commandId == steps[i].msg.commandId
    requires HistoryOf(grid, cfg, steps[..i + 1]) <= HistoryOf(grid, cfg, steps[..j])
    requires
      |IdsIn(HistoryOf(grid, cfg, steps[..j]))| - |IdsIn(HistoryOf(grid, cfg, steps[..i + 1]))| < 64
    ensures After(grid, cfg, Start(), steps[..j + 1]) == After(grid, cfg, Start(), steps[..j])
    ensures HistoryOf(grid, cfg, steps[..j + 1]) == HistoryOf(grid, cfg, steps[..j])
    ensures !AcceptedAt(grid, cfg, steps, j)
  {
    hide Apply, AssembleElectorate, AcceptLedger, Good, Stored;
    var id, before, first :=
      steps[i].msg.commandId, HistoryOf(grid, cfg, steps[..i]), HistoryOf(grid, cfg, steps[..i + 1]);
    var w, h := After(grid, cfg, Start(), steps[..j]), HistoryOf(grid, cfg, steps[..j]);
    AcceptedIsRecorded(grid, cfg, steps, i);
    OneStepOn(grid, cfg, steps, j);
    assert h == first + h[|first|..];
    IdsAppend(first, h[|first|..]);
    StillRemembered(IdsIn(before), id, IdsIn(h[|first|..]));
    EveryRunIsCoherent(grid, cfg, steps[..j]);
    RecentIsTheWindow(grid, h);
    if w.live.Some? { DuplicateIsSilent(w, steps[j], cfg, grid); }
  }

  lemma DuplicateIsSilent(w: World, s: Step, cfg: Config, grid: Grid)
    requires w.live.Some? && s.Submit? && s.msg.commandId in w.live.value.image.recent
    ensures Next(grid, cfg, w, s) == w
  {
    assert w.sent + [] == w.sent;
  }

  /** Reached the tables, or no crash since: either way an accepted command is still in the history. */
  lemma {:induction false} UncrashedHistoryGrows(grid: Grid, cfg: Config, steps: seq<Step>, n: nat)
    requires PuzzleOk(grid, cfg.solution) && n <= |steps|
    requires forall m :: n <= m < |steps| ==> !steps[m].Crash?
    ensures HistoryOf(grid, cfg, steps[..n]) <= HistoryOf(grid, cfg, steps)
    decreases |steps|
  {
    hide Next, NextLedger, Explained;
    if n == |steps| {
      assert steps[..n] == steps;
    } else {
      var front := steps[..|steps| - 1];
      assert front[..n] == steps[..n];
      UncrashedHistoryGrows(grid, cfg, front, n);
      EveryRunIsCoherent(grid, cfg, front);
      NextTells(grid, cfg, After(grid, cfg, Start(), front), steps[|steps| - 1], LedgerOf(grid, cfg, front));
    }
  }

  /** The newest 64 of the ids, oldest first, or all of them when there are fewer. */
  ghost predicate NewestOf(recent: seq<CommandId>, ids: seq<CommandId>) {
    |recent| == Min(64, |ids|) && recent == ids[|ids| - |recent|..]
  }

  /** Ids no more than 64 apart are different. */
  ghost predicate ApartInside64(ids: seq<CommandId>) {
    forall i, j :: 0 <= i < j < |ids| && j - i <= 64 ==> ids[i] != ids[j]
  }

  /** The remembered ids, in memory and in the row, are the newest 64 accepted ids of the run. */
  lemma RememberedAreTheRunsOwn(grid: Grid, cfg: Config, steps: seq<Step>)
    requires PuzzleOk(grid, cfg.solution)
    ensures
      var w, h := After(grid, cfg, Start(), steps), HistoryOf(grid, cfg, steps);
      && ApartInside64(IdsIn(h))
      && (w.live.Some? ==> NewestOf(w.live.value.image.recent, IdsIn(h)))
      && StoredSeq(w.db) <= |h|
      && (w.db.row.Some? ==> NewestOf(w.db.row.value.recent, IdsIn(h[..StoredSeq(w.db)])))
  {
    hide Good, NewestOf, ApartInside64;
    EveryRunIsCoherent(grid, cfg, steps);
    var w, g := After(grid, cfg, Start(), steps), LedgerOf(grid, cfg, steps);
    StoredReach(grid, cfg, w, g);
    if w.live.None? { assert g.h[..g.k] == g.h; }
    RememberedIn(grid, cfg.solution, g.h);
    RememberedIn(grid, cfg.solution, g.h[..g.k]);
  }

  lemma RememberedIn(grid: Grid, sol: Solution, h: History)
    requires Good(grid, sol, h)
    ensures ApartInside64(IdsIn(h)) && NewestOf(ImageOf(grid, h).recent, IdsIn(h))
  {
    RecentIsTheWindow(grid, h);
  }

  // --- An expiry that runs ---

  /**
   An expiry task does not ask which vote its timer was armed for, nor look at the deadline:
   whatever vote is open when it runs is closed as expired, at any time.
   */
  lemma ExpiryClosesWhateverIsOpen(f: Fields, db: Db, at: int, cfg: Config, fault: Fault)
    requires f.image.board.checkVote.Some?
    ensures
      var s, b := HandleExpiry(f, db, at, cfg, fault), f.image.board;
      && s.fields.image.board.checkVote.None?
      && s.frames == [SequencedFrame(VoteClosed(b.seqNo + 1, b.checkVote.value.openedSeq, Failed, Some(Expired)),
                                     at, 0)]
  {
    ExpiryIsCloseThenFlush(f, db, at, cfg, fault);
    var es := Expire(f.image.board).events;
    assert es[..0] == [];
    assert Frames(es, at, 0) == [] + FramesOf(es[0], at, 0);
  }

  // --- Terminal announcements ---

  predicate Announces(fr: Frame) { fr.CompletedFrame? || fr.AbandonedFrame? }

  function Announcements(frames: seq<Frame>): nat {
    if frames == [] then 0
    else Announcements(frames[..|frames| - 1]) + (if Announces(frames[|frames| - 1]) then 1 else 0)
  }

  lemma {:induction false} AnnouncementsAppend(s: seq<Frame>, t: seq<Frame>)
    ensures Announcements(s + t) == Announcements(s) + Announcements(t)
  {
    if t == [] {
      assert s + t == s;
    } else {
      assert (s + t)[..|s + t| - 1] == s + t[..|t| - 1];
      AnnouncementsAppend(s, t[..|t| - 1]);
    }
  }

  lemma {:induction false} EventFramesAreQuiet(es: seq<Event>, at: int, deadline: int)
    ensures Announcements(Frames(es, at, deadline)) == 0
  {
    if es != [] {
      EventFramesAreQuiet(es[..|es| - 1], at, deadline);
      AnnouncementsAppend(Frames(es[..|es| - 1], at, deadline), FramesOf(es[|es| - 1], at, deadline));
      if !IsTerminal(es[|es| - 1]) {
        assert FramesOf(es[|es| - 1], at, deadline)[..0] == [];
      }
    }
  }

  lemma OneAnnouncement(fr: Frame)
    requires Announces(fr)
    ensures Announcements([fr]) == 1
  {
    assert [fr][..0] == [];
  }

  /** The announcement says what the row says. */
  predicate Backed(row: Option<Row>, fr: Frame) {
    match fr
    case CompletedFrame(n, at, stats) =>
      row.Some? && row.value.status == Completed && row.value.lastSeq == n
      && row.value.completedAt == Some(at) && row.value.stats == Some(stats)
    case AbandonedFrame(n, at, _) =>
      row.Some? && row.value.status == Abandoned && row.value.lastSeq == n && row.value.abandonedAt == Some(at)
    case SequencedFrame(_, _, _) => true
  }

  ghost predicate AllBacked(row: Option<Row>, frames: seq<Frame>) {
    forall i :: 0 <= i < |frames| ==> Backed(row, frames[i])
  }

  /**
   Nothing announced yet; or one announcement, the row is terminal and says the same, and no
   unflushed row is left in memory.
   */
  ghost predicate Sober(w: World) {
    && (Announcements(w.sent) == 0 || SoberOnce(w.db, w.sent))
    && (Announcements(w.sent) == 1 && w.live.Some? ==> w.live.value.PendingCount() == 0)
  }

  ghost predicate SoberOnce(db: Db, frames: seq<Frame>) {
    && Announcements(frames) == 1 && AllBacked(db.row, frames)
    && db.row.Some? && db.row.value.status != Ongoing
  }

  /** One task announces at most one terminal event, and then its row has committed. */
  ghost predicate SoberTask(s: Settled) {
    match s
    case Settled(fields, db, frames, _, _) =>
      && (Announcements(frames) == 0 || SoberOnce(db, frames))
      && (Announcements(frames) == 1 ==> fields.PendingCount() == 0)
  }

  lemma {:induction false} NoAnnouncementIsBacked(row: Option<Row>, frames: seq<Frame>)
    requires Announcements(frames) == 0
    ensures AllBacked(row, frames)
  {
    if frames != [] { NoAnnouncementIsBacked(row, frames[..|frames| - 1]); }
  }

  lemma SoberAppend(db: Db, s: seq<Frame>, t: seq<Frame>)
    requires Announcements(s) == 0 && (Announcements(t) == 0 || SoberOnce(db, t))
    ensures Announcements(s + t) == Announcements(t)
    ensures Announcements(t) == 0 || SoberOnce(db, s + t)
  {
    AnnouncementsAppend(s, t);
    NoAnnouncementIsBacked(db.row, s);
  }

  lemma QuietTask(frames: seq<Frame>, s: Settled)
    requires Announcements(frames) == 0 && SoberTask(s)
    ensures SoberTask(WithFrames(frames, s))
  {
    SoberAppend(s.db, frames, s.frames);
  }

  lemma CompletionIsSober(f: Fields, db: Db, n: nat, at: int, fault: Fault)
    requires f.image.board.status == Completed && f.image.board.seqNo == n
    ensures SoberTask(CompleteGame(f, db, n, at, fault))
  {
    var s := CompleteGame(f, db, n, at, fault);
    if s.ok { OneAnnouncement(s.frames[0]); }
  }

  lemma {:induction false} CompletionEndsTheGame(b: Board, es: seq<Event>, b': Board)
    requires Explains(b, es, b') && CompletionIn(es).Some?
    ensures b'.status == Completed && CompletionIn(es) == Some(b'.seqNo)
  {
    var n := |es| - 1;
    if es[n].GameCompleted? {
      assert Replay(b, es) == ApplyEvent(Replay(b, es[..n]), es[n]);
    } else {
      LastCompletion(es[..n]);
      assert false;
    }
  }

  lemma {:induction false} LastCompletion(es: seq<Event>)
    requires CompletionIn(es).Some?
    ensures exists i :: 0 <= i < |es| && es[i].GameCompleted?
  {
    var n := |es| - 1;
    if !es[n].GameCompleted? {
      LastCompletion(es[..n]);
      var i :| 0 <= i < |es[..n]| && es[..n][i].GameCompleted?;
      assert es[i].GameCompleted?;
    }
  }

  lemma SubmitIsSober(f: Fields, db: Db, conn: Connection, present: seq<Connection>, msg: Message, at: int,
                      cfg: Config, fault: Fault)
    requires Sound(f.image.board, cfg.solution)
    ensures SoberTask(HandleMutation(f, db, conn, present, msg, at, cfg, fault))
  {
    var c := ToCommand(msg, conn.userId, present, at);
    var v := Apply(f.image.board, c, cfg.solution);
    if conn.role != Spectator && msg.commandId !in f.image.recent && v.error.None? {
      CommandsAreOk(msg, conn.userId, present, at);
      ApplyLaws(f.image.board, c, cfg.solution);
      if CompletionIn(v.events).Some? { CompletionEndsTheGame(f.image.board, v.events, v.board); }
      AcceptIsSober(f, db, v, msg.commandId, at, cfg, fault);
    }
  }

  lemma FinishIsSober(p: Fields, db: Db, completion: Option<nat>, at: int, cfg: Config, fault: Fault)
    requires completion.Some? ==> p.image.board.status == Completed && completion == Some(p.image.board.seqNo)
    ensures SoberTask(Finish(p, db, completion, at, cfg, fault))
  {
    if completion.Some? { CompletionIsSober(p, db, completion.value, at, fault); }
  }

  lemma PreparedBoard(f: Fields, v: Verdict, id: CommandId, at: int, cfg: Config)
    ensures Prepare(f, v, id, at, cfg).image.board == v.board
  {}

  lemma AcceptIsSober(f: Fields, db: Db, v: Verdict, id: CommandId, at: int, cfg: Config, fault: Fault)
    requires CompletionIn(v.events).Some? ==>
      v.board.status == Completed && CompletionIn(v.events) == Some(v.board.seqNo)
    ensures SoberTask(Accept(f, db, v, id, at, cfg, fault))
  {
    hide Prepare, Finish, Frames, SoberTask;
    var p, completion := Prepare(f, v, id, at, cfg), CompletionIn(v.events);
    PreparedBoard(f, v, id, at, cfg);
    EventFramesAreQuiet(v.events, at, at + cfg.ttl);
    FinishIsSober(p, db, completion, at, cfg, fault);
    QuietTask(Frames(v.events, at, at + cfg.ttl), Finish(p, db, completion, at, cfg, fault));
  }

  lemma ExpiryIsSober(f: Fields, db: Db, at: int, cfg: Config, fault: Fault)
    ensures Announcements(HandleExpiry(f, db, at, cfg, fault).frames) == 0
  {
    var v := Expire(f.image.board);
    EventFramesAreQuiet(v.events, at, 0);
    AnnouncementsAppend(Frames(v.events, at, 0), []);
  }

  lemma AbandonFramesAreQuiet(f: Fields, at: int)
    ensures Announcements(AbandonFrames(f, at)) == 0
  {
    var open := f.image.board.checkVote;
    if open.Some? {
      EventFramesAreQuiet(CloseFailed(f.image.board, open.value, Cancelled, Terminal).events, at, 0);
    }
  }

  lemma FlushAbandonedIsSober(m: Fields, db: Db, who: UserId, at: int, fault: Fault)
    requires m.image.board.status == Abandoned && m.image.abandonedAt == Some(at)
    ensures SoberTask(FlushAbandoned(m, db, who, at, fault))
  {
    OneAnnouncement(AbandonedFrame(m.image.board.seqNo, at, who));
  }

  lemma AbandonIsSober(f: Fields, db: Db, who: UserId, at: int, fault: Fault)
    ensures SoberTask(DoAbandon(f, db, who, at, fault))
  {
    hide FlushAbandoned, CloseForAbandon, AbandonFrames;
    if f.image.board.status == Ongoing {
      var m := MarkAbandoned(CloseForAbandon(f, at), at);
      AbandonFramesAreQuiet(f, at);
      FlushAbandonedIsSober(m, db, who, at, fault);
      QuietTask(AbandonFrames(f, at), FlushAbandoned(m, db, who, at, fault));
    }
  }

  /** A terminal row means memory is at the very same event. */
  lemma TerminalRowIsMemory(grid: Grid, sol: Solution, f: Fields, db: Db, g: Ledger)
    requires Agrees(grid, sol, f, db, g) && db.row.Some? && db.row.value.status != Ongoing
    ensures f.image.board.status == db.row.value.status && g.k == |g.h|
    ensures f.image.board.checkVote.None?
  {
    assert IsTerminal(g.h[g.k - 1].event);
    assert g.h[..g.k] == g.h;
  }

  /** On a terminal board with nothing buffered, no task writes, broadcasts or buffers anything. */
  lemma FinishedActorIsInert(grid: Grid, cfg: Config, w: World, s: Step)
    requires w.live.Some? ==>
      && w.live.value.image.board.status != Ongoing && w.live.value.image.board.checkVote.None?
      && w.live.value.PendingCount() == 0
    requires w.live.None? ==> ReadRow(grid, w.db.row).board.checkVote.None?
    ensures
      var w' := Next(grid, cfg, w, s);
      && w'.db == w.db && w'.sent == w.sent
      && (w'.live.Some? ==> w'.live.value.PendingCount() == 0)
  {}

  lemma NextIsSober(grid: Grid, cfg: Config, w: World, s: Step)
    requires Coherent(grid, cfg.solution, w) && Sober(w)
    ensures Sober(Next(grid, cfg, w, s))
    ensures Announcements(w.sent) == 1 ==> Next(grid, cfg, w, s).db == w.db && Next(grid, cfg, w, s).sent == w.sent
  {
    var g :| Explained(grid, cfg.solution, w, g);
    if Announcements(w.sent) == 1 {
      if w.live.Some? {
        TerminalRowIsMemory(grid, cfg.solution, w.live.value, w.db, g);
      } else {
        StoredReadsBack(grid, cfg.solution, w.db, g.h);
      }
      FinishedActorIsInert(grid, cfg, w, s);
    } else if w.live.Some? {
      TaskIsSober(grid, cfg, w, s, g);
    }
  }

  lemma TaskIsSober(grid: Grid, cfg: Config, w: World, s: Step, g: Ledger)
    requires w.live.Some? && Explained(grid, cfg.solution, w, g) && Announcements(w.sent) == 0
    ensures Sober(Next(grid, cfg, w, s))
  {
    var f := w.live.value;
    match s
    case Submit(conn, present, msg, at, fault) =>
      SubmitIsSober(f, w.db, conn, present, msg, at, cfg, fault);
      SettleIsSober(w, HandleMutation(f, w.db, conn, present, msg, at, cfg, fault));
    case ExpiryTask(at, fault) =>
      ExpiryIsSober(f, w.db, at, cfg, fault);
      SettleIsSober(Taken(w), HandleExpiry(f, w.db, at, cfg, fault));
    case AbandonTask(who, at, fault) =>
      AbandonIsSober(f, w.db, who, at, fault);
      SettleIsSober(w, DoAbandon(f, w.db, who, at, fault));
    case FlushTask(fault) => SettleIsSober(Flushing(w), DoFlush(f, w.db, fault));
    case _ =>
  }

  lemma SettleIsSober(w: World, s: Settled)
    requires Announcements(w.sent) == 0 && SoberTask(s)
    ensures Sober(Settle(w, s))
  {
    SoberAppend(s.db, w.sent, s.frames);
  }

  /**
   Over every run, gameCompleted and gameAbandoned together are broadcast at most once, and
   the stored row says what the broadcast said: status, number, time and statistics.
   */
  lemma {:induction false} TerminalIsAnnouncedOnce(grid: Grid, cfg: Config, steps: seq<Step>)
    requires PuzzleOk(grid, cfg.solution)
    ensures
      var w := After(grid, cfg, Start(), steps);
      && Announcements(w.sent) <= 1
      && AllBacked(w.db.row, w.sent)
      && Sober(w)
  {
    NoAnnouncementIsBacked(Start().db.row, Start().sent);
    if steps != [] {
      var n := |steps| - 1;
      TerminalIsAnnouncedOnce(grid, cfg, steps[..n]);
      EveryRunIsCoherent(grid, cfg, steps[..n]);
      NextIsSober(grid, cfg, After(grid, cfg, Start(), steps[..n]), steps[n]);
    }
    var w := After(grid, cfg, Start(), steps);
    if Announcements(w.sent) == 0 { NoAnnouncementIsBacked(w.db.row, w.sent); }
  }

  /** After the announcement the tables never change again, whatever happens. */
  lemma {:induction false} AnnouncedIsFinal(grid: Grid, cfg: Config, steps: seq<Step>, n: nat)
    requires PuzzleOk(grid, cfg.solution) && n <= |steps|
    requires Announcements(After(grid, cfg, Start(), steps[..n]).sent) == 1
    ensures After(grid, cfg, Start(), steps).db == After(grid, cfg, Start(), steps[..n]).db
    ensures After(grid, cfg, Start(), steps).sent == After(grid, cfg, Start(), steps[..n]).sent
    decreases |steps|
  {
    hide Next, Coherent, Explained, Sober, Announcements, AllBacked;
    if n == |steps| {
      assert steps[..n] == steps;
    } else {
      var last := |steps| - 1;
      assert steps[..last][..n] == steps[..n];
      AnnouncedIsFinal(grid, cfg, steps[..last], n);
      EveryRunIsCoherent(grid, cfg, steps[..last]);
      TerminalIsAnnouncedOnce(grid, cfg, steps[..last]);
      SilentOnceAnnounced(grid, cfg, After(grid, cfg, Start(), steps[..last]), steps[last]);
    }
  }

  lemma SilentOnceAnnounced(grid: Grid, cfg: Config, w: World, s: Step)
    requires Coherent(grid, cfg.solution, w) && Sober(w) && Announcements(w.sent) == 1
    ensures Next(grid, cfg, w, s).db == w.db && Next(grid, cfg, w, s).sent == w.sent
  {
    hide Next, Coherent, Sober, Announcements;
    NextIsSober(grid, cfg, w, s);
  }
}
