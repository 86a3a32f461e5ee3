/**
 An expiry task closes whatever vote is open when it runs. It is posted when its own vote's
 deadline passes, so it can only meet a later vote by having waited in the mailbox while its own
 was closed and the later one opened. Exactly then a vote is closed as expired ahead of its
 deadline.
 */
module StaleExpiry {
  import opened Basics
  import opened Sorting
  import opened Text
  import opened Engine
  import opened RoomLaws
  import opened Journal
  import opened Store
  import opened Actor
  import opened Persistence
  import opened World
  import opened Durability

  function TimeOf(s: Step): Option<int> {
    match s
    case Submit(_, _, _, at, _) => Some(at)
    case ExpiryTask(at, _) => Some(at)
    case AbandonTask(_, at, _) => Some(at)
    case VoteTimer(now) => Some(now)
    case Arrive(now) => Some(now)
    case _ => None
  }

  /** The clock never goes back from one step to a later one. */
  ghost predicate InOrder(steps: seq<Step>) {
    forall i, j :: 0 <= i < j < |steps| && TimeOf(steps[i]).Some? && TimeOf(steps[j]).Some? ==>
      TimeOf(steps[i]).value <= TimeOf(steps[j]).value
  }

  predicate VoteIs(w: World, n: nat, d: int) {
    && w.live.Some? && w.live.value.image.board.checkVote.Some?
    && w.live.value.image.board.checkVote.value.openedSeq == n
    && w.live.value.image.expiresAt == Some(d)
  }

  // --- A vote carried from one step to the next ---

  /** A vote open after an accepted command was opened by it, at the next number, or was open before. */
  lemma VoteCarriesOn(b: Board, c: Command, sol: Solution)
    requires !c.ExpireVote? && Apply(b, c, sol).error.None? && Apply(b, c, sol).board.checkVote.Some?
    ensures
      var vote := Apply(b, c, sol).board.checkVote.value;
      if c.CheckPuzzle? then vote.openedSeq == b.seqNo + 1
      else b.checkVote.Some? && vote.openedSeq == b.checkVote.value.openedSeq
  {}

  lemma FinishKeepsVote(p: Fields, db: Db, completion: Option<nat>, at: int, cfg: Config, fault: Fault)
    ensures
      var f := Finish(p, db, completion, at, cfg, fault).fields;
      && f.image.board == p.image.board && f.image.expiresAt == p.image.expiresAt && f.voteTimer == p.voteTimer
      && f.image.recent == p.image.recent
  {}

  lemma PrepareKeepsVote(f: Fields, c: Command, v: Verdict, at: int, cfg: Config)
    requires !c.ExpireVote? && Shaped(f.image.board, c, v) && v.board.checkVote.Some?
    ensures
      var p := Prepare(f, v, c.commandId, at, cfg);
      && p.image.board == v.board
      && p.image.expiresAt == (if c.CheckPuzzle? then Some(at + cfg.ttl) else f.image.expiresAt)
  {
    OpeningIsFirst(f.image.board, c, v);
  }

  lemma SubmitKeepsVote(grid: Grid, cfg: Config, f: Fields, db: Db, g: Ledger, conn: Connection,
                        present: seq<Connection>, msg: Message, at: int, fault: Fault)
    requires Agrees(grid, cfg.solution, f, db, g)
    requires HandleMutation(f, db, conn, present, msg, at, cfg, fault).fields.image.board.checkVote.Some?
    ensures
      var f' := HandleMutation(f, db, conn, present, msg, at, cfg, fault).fields;
      var n := f'.image.board.checkVote.value.openedSeq;
      || (n > f.image.board.seqNo && f'.image.expiresAt == Some(at + cfg.ttl))
      || (f.image.board.checkVote.Some? && f.image.board.checkVote.value.openedSeq == n
          && f'.image.expiresAt == f.image.expiresAt)
  {
    hide Apply, AssembleElectorate, Prepare, Finish, Agrees;
    var c := ToCommand(msg, conn.userId, present, at);
    if Accepts(f, conn, present, msg, at, cfg) {
      var v := Apply(f.image.board, c, cfg.solution);
      CommandsAreOk(msg, conn.userId, present, at);
      AcceptedIsShaped(grid, cfg.solution, f, db, g, c);
      PreparedBoard(f, v, c.commandId, at, cfg);
      FinishKeepsVote(Prepare(f, v, c.commandId, at, cfg), db, CompletionIn(v.events), at, cfg, fault);
      VoteCarriesOn(f.image.board, c, cfg.solution);
      PrepareKeepsVote(f, c, v, at, cfg);
    }
  }

  lemma AbandonKeepsNoVote(f: Fields, db: Db, who: UserId, at: int, fault: Fault)
    requires f.image.board.status == Ongoing
    ensures DoAbandon(f, db, who, at, fault).fields.image.board.checkVote.None?
  {}

  lemma FlushKeepsVote(f: Fields, db: Db, fault: Fault)
    ensures DoFlush(f, db, fault).fields.image == f.image
  {}

  /**
   While a vote stays open its deadline stays, and an expiry is posted only by its own timer, at
   the deadline or later.
   */
  lemma StepKeepsVote(grid: Grid, cfg: Config, w: World, s: Step, n: nat, d: int)
    requires Coherent(grid, cfg.solution, w) && w.live.Some? && !s.Crash? && !s.Arrive?
    requires n <= w.live.value.image.board.seqNo
    requires
      var w' := Next(grid, cfg, w, s);
      w'.live.Some? && w'.live.value.image.board.checkVote.Some?
          && w'.live.value.image.board.checkVote.value.openedSeq == n
    ensures w.live.value.image.board.checkVote.Some? && w.live.value.image.board.checkVote.value.openedSeq == n
    ensures Next(grid, cfg, w, s).live.value.image.expiresAt == w.live.value.image.expiresAt
    ensures Next(grid, cfg, w, s).posted.expiries > w.posted.expiries ==>
      s.VoteTimer? && w.live.value.image.expiresAt.Some? && w.live.value.image.expiresAt.value <= s.now
  {
    hide HandleMutation, HandleExpiry, DoFlush, DoAbandon, Agrees;
    var g :| Explained(grid, cfg.solution, w, g);
    var f := w.live.value;
    match s
    case Submit(conn, present, msg, at, fault) =>
      SubmitKeepsVote(grid, cfg, f, w.db, g, conn, present, msg, at, fault);
    case ExpiryTask(at, fault) =>
      if w.posted.expiries > 0 { ExpiryLeavesNoVote(f, w.db, at, cfg, fault); }
    case FlushTask(fault) => FlushKeepsVote(f, w.db, fault);
    case AbandonTask(who, at, fault) =>
      if f.image.board.status == Ongoing { AbandonKeepsNoVote(f, w.db, who, at, fault); }
      else { FinishedAbandonDoesNothing(f, w.db, who, at, fault); }
    case _ =>
  }

  lemma FinishedAbandonDoesNothing(f: Fields, db: Db, who: UserId, at: int, fault: Fault)
    requires f.image.board.status != Ongoing
    ensures DoAbandon(f, db, who, at, fault) == Settled(f, db, [], Silence, true)
  {}

  lemma ExpiryLeavesNoVote(f: Fields, db: Db, at: int, cfg: Config, fault: Fault)
    ensures HandleExpiry(f, db, at, cfg, fault).fields.image.board.checkVote.None?
  {
    if f.image.board.checkVote.Some? { ExpiryClosesWhateverIsOpen(f, db, at, cfg, fault); }
  }

  /** From an open vote with nothing posted: an expiry posted while it stays open was posted past its deadline. */
  lemma {:induction false} OnlyDueExpiriesArePosted(grid: Grid, cfg: Config, w: World, steps: seq<Step>, n: nat,
                                                    d: int)
    requires Coherent(grid, cfg.solution, w) && SameActor(steps)
    requires VoteIs(w, n, d) && n <= w.live.value.image.board.seqNo && w.posted.expiries == 0
    requires
      var w' := After(grid, cfg, w, steps);
      w'.live.Some? && w'.live.value.image.board.checkVote.Some?
          && w'.live.value.image.board.checkVote.value.openedSeq == n
    ensures VoteIs(After(grid, cfg, w, steps), n, d)
    ensures After(grid, cfg, w, steps).posted.expiries > 0 ==>
      exists i :: 0 <= i < |steps| && steps[i].VoteTimer? && d <= steps[i].now
  {
    hide Next, Coherent;
    if steps != [] {
      var last := |steps| - 1;
      var front := steps[..last];
      CoherentOn(grid, cfg, w, front);
      StepKeepsVote(grid, cfg, After(grid, cfg, w, front), steps[last], n, d);
      OnlyDueExpiriesArePosted(grid, cfg, w, front, n, d);
      if After(grid, cfg, w, front).posted.expiries > 0 {
        var i :| 0 <= i < |front| && front[i].VoteTimer? && d <= front[i].now;
        assert steps[i] == front[i];
      }
    }
  }

  // --- Closed ahead of its deadline ---

  /** The submission opens a vote: one is open after it, at a number nothing had before it. */
  ghost predicate Opens(grid: Grid, cfg: Config, w: World, s: Step) {
    var w' := Next(grid, cfg, w, s);
    && s.Submit? && w.live.Some? && w'.live.Some? && w'.live.value.image.board.checkVote.Some?
    && w'.live.value.image.board.checkVote.value.openedSeq > w.live.value.image.board.seqNo
  }

  /** The vote just opened is still open after the steps, and an expiry closes it ahead of its deadline. */
  ghost predicate ClosedEarly(grid: Grid, cfg: Config, w: World, s: Step, steps: seq<Step>, at: int)
    requires Opens(grid, cfg, w, s)
  {
    var begun := Next(grid, cfg, w, s);
    var vote, w' := begun.live.value.image.board.checkVote.value, After(grid, cfg, begun, steps);
    && SameActor(steps) && InOrder([s] + steps + [ExpiryTask(at, NoFault)])
    && w'.live.Some? && w'.live.value.image.board.checkVote.Some?
    && w'.live.value.image.board.checkVote.value.openedSeq == vote.openedSeq
    && w'.posted.expiries > 0 && at < s.at + cfg.ttl
  }

  lemma OpenedVote(grid: Grid, cfg: Config, w: World, s: Step)
    requires Coherent(grid, cfg.solution, w) && Opens(grid, cfg, w, s)
    ensures
      var begun := Next(grid, cfg, w, s);
      && Coherent(grid, cfg.solution, begun) && begun.posted == w.posted
      && VoteIs(begun, begun.live.value.image.board.checkVote.value.openedSeq, s.at + cfg.ttl)
      && begun.live.value.image.board.checkVote.value.openedSeq <= begun.live.value.image.board.seqNo
  {
    hide Agrees, HandleMutation;
    NumbersNeverFall(grid, cfg, w, s);
    OpenVotesAreNumbered(grid, cfg, Next(grid, cfg, w, s));
    if w.live.value.image.board.checkVote.Some? { OpenVotesAreNumbered(grid, cfg, w); }
    var g :| Explained(grid, cfg.solution, w, g);
    SubmitKeepsVote(grid, cfg, w.live.value, w.db, g, s.conn, s.present, s.msg, s.at, s.fault);
  }

  /** The number an open vote goes by has been given out. */
  lemma OpenVotesAreNumbered(grid: Grid, cfg: Config, w: World)
    requires Coherent(grid, cfg.solution, w) && w.live.Some? && w.live.value.image.board.checkVote.Some?
    ensures w.live.value.image.board.checkVote.value.openedSeq <= w.live.value.image.board.seqNo
  {
    var g :| Explained(grid, cfg.solution, w, g);
    assert Sound(w.live.value.image.board, cfg.solution);
  }

  lemma EarlyNeedsAWaitingExpiry(grid: Grid, cfg: Config, w: World, s: Step, steps: seq<Step>, at: int)
    requires Coherent(grid, cfg.solution, w) && Opens(grid, cfg, w, s) && ClosedEarly(grid, cfg, w, s, steps, at)
    ensures w.posted.expiries > 0
  {
    hide Next, Coherent, After;
    var begun, deadline := Next(grid, cfg, w, s), s.at + cfg.ttl;
    OpenedVote(grid, cfg, w, s);
    if w.posted.expiries == 0 {
      OnlyDueExpiriesArePosted(grid, cfg, begun, steps, begun.live.value.image.board.checkVote.value.openedSeq,
                               deadline);
      var i :| 0 <= i < |steps| && steps[i].VoteTimer? && deadline <= steps[i].now;
      NotBefore([s] + steps + [ExpiryTask(at, NoFault)], i + 1, deadline, at);
    }
  }

  lemma NotBefore(all: seq<Step>, i: nat, deadline: int, at: int)
    requires InOrder(all) && i < |all| - 1 && all[|all| - 1] == ExpiryTask(at, NoFault)
    requires all[i].VoteTimer? && deadline <= all[i].now
    ensures deadline <= at
  {
    assert TimeOf(all[i]).value <= TimeOf(all[|all| - 1]).value;
  }

  lemma AWaitingExpiryClosesEarly(grid: Grid, cfg: Config, w: World, s: Step)
    requires Coherent(grid, cfg.solution, w) && Opens(grid, cfg, w, s) && cfg.ttl > 0 && w.posted.expiries > 0
    ensures ClosedEarly(grid, cfg, w, s, [], s.at)
  {
    hide Next, Coherent;
    OpenedVote(grid, cfg, w, s);
    assert After(grid, cfg, Next(grid, cfg, w, s), []) == Next(grid, cfg, w, s);
    assert [s] + [] + [ExpiryTask(s.at, NoFault)] == [s, ExpiryTask(s.at, NoFault)];
  }

  /**
   A vote can be closed as expired ahead of its deadline, under a clock that never goes back, if
   and only if an expiry was already posted and still waiting when the vote opened.
   */
  lemma ClosedEarlyIffAnExpiryWaited(grid: Grid, cfg: Config, before: seq<Step>, s: Step)
    requires PuzzleOk(grid, cfg.solution) && cfg.ttl > 0
    requires Opens(grid, cfg, After(grid, cfg, Start(), before), s)
    ensures
      var w := After(grid, cfg, Start(), before);
      (exists steps, at :: ClosedEarly(grid, cfg, w, s, steps, at)) <==> w.posted.expiries > 0
  {
    hide Next, Coherent, After, ClosedEarly, Opens;
    var w := After(grid, cfg, Start(), before);
    EveryRunIsCoherent(grid, cfg, before);
    if w.posted.expiries > 0 {
      AWaitingExpiryClosesEarly(grid, cfg, w, s);
    }
    if steps: seq<Step>, at: int :| ClosedEarly(grid, cfg, w, s, steps, at) {
      EarlyNeedsAWaitingExpiry(grid, cfg, w, s, steps, at);
    }
  }

  /** A posted expiry closes the open vote and says so, whatever the time and whatever its flush meets. */
  lemma PostedExpiryCloses(grid: Grid, cfg: Config, w: World, at: int, fault: Fault)
    requires w.live.Some? && w.live.value.image.board.checkVote.Some? && w.posted.expiries > 0
    ensures
      var w', b := Next(grid, cfg, w, ExpiryTask(at, fault)), w.live.value.image.board;
      && w'.live.Some? && w'.live.value.image.board.checkVote.None?
      && w'.sent == w.sent +
           [SequencedFrame(VoteClosed(b.seqNo + 1, b.checkVote.value.openedSeq, Failed, Some(Expired)), at, 0)]
  {
    ExpiryClosesWhateverIsOpen(w.live.value, w.db, at, cfg, fault);
  }

  // --- It does happen ---

  const ONE := Grid(1, 1, {})
  const ANSWER: Solution := [Some("A")]
  const FIRST := Connection(0, "a", Host)
  const SECOND := Connection(1, "b", Solver)
  const ROOM := [FIRST, SECOND]

  function Wrong(seqNo: nat, vote: Option<CheckVote>): Board {
    Board(ONE, Ongoing, seqNo, Some(0), map[0 := Cell(Some("B"), "a")], 1, {}, 0, vote)
  }

  function Proposal(seqNo: nat, id: CommandId): CheckVote { CheckVote(seqNo, "a", id, ["a", "b"], ["a"], []) }

  /** What a submission that ends nothing leaves, flush aside. */
  lemma PlainSubmission(grid: Grid, cfg: Config, w: World, s: Step, v: Verdict)
    requires w.live.Some? && s.Submit? && Accepts(w.live.value, s.conn, s.present, s.msg, s.at, cfg)
    requires v == Apply(w.live.value.image.board, ToCommand(s.msg, s.conn.userId, s.present, s.at), cfg.solution)
    ensures
      var w', f := Next(grid, cfg, w, s), w.live.value;
      && w'.live.Some? && w'.posted == w.posted
      && w'.live.value.image.board == v.board
      && w'.live.value.image.recent == Remember(f.image.recent, s.msg.commandId)
      && (v.board.checkVote.Some? && HasOpening(v.events) ==>
            w'.live.value.voteTimer && w'.live.value.image.expiresAt == Some(s.at + cfg.ttl))
  {
    hide Apply, AssembleElectorate, Finish, Frames;
    FinishKeepsVote(Prepare(w.live.value, v, s.msg.commandId, s.at, cfg), w.db, CompletionIn(v.events), s.at, cfg,
                    s.fault);
  }

  lemma BothElect()
    ensures AssembleElectorate(ROOM, "a") == ["a", "b"]
    ensures Sort(IdLess(), ["a", "b"]) == ["a", "b"]
    ensures WithVoter([], "b") == ["b"]
  {
    assert ROOM[..1] == [FIRST] && ROOM[..1][..0] == [];
    assert Electors([], "a") == ["a"];
    assert Electors([FIRST], "a") == ["a"];
    assert Electors(ROOM, "a") == ["a", "b"];
    SortPair("a", "b");
    assert [] + ["b"] == ["b"] && ["b"][..0] == [];
  }

  lemma SortPair(x: string, y: string)
    requires StringLess(x, y)
    ensures Sort(IdLess(), [x, y]) == [x, y]
  {
    StringOrderIsTotal();
    assert [x, y][..1] == [x] && [x][..0] == [];
  }

  lemma WrongLetter()
    ensures Apply(EmptyBoard(ONE), PlaceLetter("p", 0, "B", "a", 0), ANSWER) ==
      Verdict([CellSet(1, 0, Some("B"), "a", "p", 0)], Wrong(1, None), None)
  {
    assert AsciiUpper("B") == "B" && AsciiUpper("A") == "A";
    var b := Wrong(1, None);
    assert EmptyBoard(ONE).cells[0 := Cell(Some("B"), "a")] == b.cells;
    assert Fails(b, ANSWER, 0);
  }

  /** One approval and no rejection of two decide nothing. */
  lemma TallyStands(seqNo: nat, id: CommandId)
    ensures ResolveByTally(Wrong(seqNo, Some(Proposal(seqNo, id))), ANSWER) ==
      Verdict([], Wrong(seqNo, Some(Proposal(seqNo, id))), None)
  {
    hide ClosePassed, Sort;
  }

  lemma TallyRejects(seqNo: nat, vote: CheckVote)
    requires vote.electorate == ["a", "b"] && vote.approvals == ["a"] && vote.rejections == ["b"]
    ensures ResolveByTally(Wrong(seqNo, Some(vote)), ANSWER) ==
      Verdict([VoteClosed(seqNo + 1, vote.openedSeq, Failed, Some(Rejected))], Wrong(seqNo + 1, None), None)
  {
    hide ClosePassed, Sort;
  }

  lemma Proposed(seqNo: nat, id: CommandId)
    ensures Apply(Wrong(seqNo, None), CheckPuzzle(id, "a", ["a", "b"]), ANSWER) ==
      Verdict([VoteOpened(seqNo + 1, "a", ["a", "b"], 2, id)], Wrong(seqNo + 1, Some(Proposal(seqNo + 1, id))), None)
  {
    hide Sort, ResolveByTally;
    BothElect();
    TallyStands(seqNo + 1, id);
    var es := [VoteOpened(seqNo + 1, "a", ["a", "b"], 2, id)];
    assert es + [] == es;
  }

  lemma BallotRejects(seqNo: nat, id: CommandId)
    ensures Apply(Wrong(seqNo, Some(Proposal(seqNo, id))), CastVote("v", "b", seqNo, false), ANSWER) ==
      Verdict([VoteCast(seqNo + 1, seqNo, "b", false, "v"), VoteClosed(seqNo + 2, seqNo, Failed, Some(Rejected))],
              Wrong(seqNo + 2, None), None)
  {
    hide Sort, ResolveByTally;
    BothElect();
    TallyRejects(seqNo + 1, Proposal(seqNo, id).(rejections := ["b"]));
    var es := [VoteCast(seqNo + 1, seqNo, "b", false, "v")];
    var closed := [VoteClosed(seqNo + 2, seqNo, Failed, Some(Rejected))];
    assert es + closed == [es[0], closed[0]];
  }

  function Asks(id: CommandId, at: int): Step { Submit(FIRST, ROOM, CheckMessage(id), at, NoFault) }

  const PLACES := Submit(FIRST, ROOM, PlaceMessage("p", 0, "B"), 0, NoFault)
  const REJECTS := Submit(SECOND, ROOM, BallotMessage("v", 2, false), 30_000, NoFault)

  /** A wrong letter fills the board and a vote opens. */
  function Begin(): seq<Step> { [Arrive(0), PLACES, Asks("c1", 0)] }

  /** The vote's timer fires, a ballot closes that vote before the posted task runs, and a second one opens. */
  function Then(): seq<Step> { [VoteTimer(30_000), REJECTS, Asks("c2", 30_000)] }

  predicate At(w: World, b: Board, recent: seq<CommandId>, expiries: nat) {
    && w.live.Some? && w.live.value.image.board == b && w.live.value.image.recent == recent
    && w.posted.expiries == expiries
  }

  lemma ThreeSteps(grid: Grid, cfg: Config, w: World, a: Step, b: Step, c: Step)
    ensures After(grid, cfg, w, [a, b, c]) == Next(grid, cfg, Next(grid, cfg, Next(grid, cfg, w, a), b), c)
  {
    hide Next;
    var all := [a, b, c];
    assert all[..2] == [a, b] && [a, b][..1] == [a] && [a][..0] == [];
    assert After(grid, cfg, w, [a]) == Next(grid, cfg, w, a);
    assert After(grid, cfg, w, [a, b]) == Next(grid, cfg, Next(grid, cfg, w, a), b);
  }

  lemma ArrivesFresh()
    ensures At(Next(ONE, DefaultConfig(ANSWER), Start(), Arrive(0)), EmptyBoard(ONE), [], 0)
  {}

  lemma PlacesWrong(w: World)
    requires At(w, EmptyBoard(ONE), [], 0)
    ensures At(Next(ONE, DefaultConfig(ANSWER), w, PLACES), Wrong(1, None), ["p"], 0)
  {
    hide Apply, AssembleElectorate, Next;
    WrongLetter();
    PlainSubmission(ONE, DefaultConfig(ANSWER), w, PLACES,
                    Apply(EmptyBoard(ONE), PlaceLetter("p", 0, "B", "a", 0), ANSWER));
    assert Remember([], "p") == ["p"];
  }

  lemma AsksForACheck(w: World, seqNo: nat, recent: seq<CommandId>, expiries: nat, id: CommandId, at: int)
    requires At(w, Wrong(seqNo, None), recent, expiries) && id !in recent && |recent| < RECENT_COMMAND_LIMIT
    ensures
      var w' := Next(ONE, DefaultConfig(ANSWER), w, Asks(id, at));
      && At(w', Wrong(seqNo + 1, Some(Proposal(seqNo + 1, id))), recent + [id], expiries)
      && w'.live.value.voteTimer && w'.live.value.image.expiresAt == Some(at + 30_000)
  {
    hide Apply, AssembleElectorate, Next;
    BothElect();
    Proposed(seqNo, id);
    var v := Apply(Wrong(seqNo, None), CheckPuzzle(id, "a", ["a", "b"]), ANSWER);
    assert v.events[0].VoteOpened?;
    PlainSubmission(ONE, DefaultConfig(ANSWER), w, Asks(id, at), v);
  }

  lemma TimerPosts(w: World, b: Board, recent: seq<CommandId>)
    requires At(w, b, recent, 0) && w.live.value.voteTimer && w.live.value.image.expiresAt == Some(30_000)
    ensures At(Next(ONE, DefaultConfig(ANSWER), w, VoteTimer(30_000)), b, recent, 1)
  {}

  lemma SecondRejects(w: World, id: CommandId, recent: seq<CommandId>)
    requires At(w, Wrong(2, Some(Proposal(2, id))), recent, 1) && "v" !in recent && |recent| < RECENT_COMMAND_LIMIT
    ensures At(Next(ONE, DefaultConfig(ANSWER), w, REJECTS), Wrong(4, None), recent + ["v"], 1)
  {
    hide Apply, AssembleElectorate, Next;
    BallotRejects(2, id);
    PlainSubmission(ONE, DefaultConfig(ANSWER), w, REJECTS,
                    Apply(Wrong(2, Some(Proposal(2, id))), CastVote("v", "b", 2, false), ANSWER));
  }

  /**
   The run that shows it: a second vote opens with half a minute to go while the first one's expiry
   still waits in the mailbox, and is closed as expired a millisecond later.
   */
  lemma SecondVoteIsClosedByTheFirstsExpiry()
    ensures
      var cfg := DefaultConfig(ANSWER);
      var w := After(ONE, cfg, After(ONE, cfg, Start(), Begin()), Then());
      var late := ExpiryTask(30_001, NoFault);
      && InOrder(Begin() + Then() + [late])
      && VoteIs(w, 5, 60_000) && w.posted.expiries == 1
      && Next(ONE, cfg, w, late).sent == w.sent + [SequencedFrame(VoteClosed(6, 5, Failed, Some(Expired)), 30_001, 0)]
  {
    hide Next, After, Wrong;
    var cfg := DefaultConfig(ANSWER);
    ThreeSteps(ONE, cfg, Start(), Arrive(0), PLACES, Asks("c1", 0));
    ArrivesFresh();
    var w0 := Next(ONE, cfg, Start(), Arrive(0));
    PlacesWrong(w0);
    var w1 := Next(ONE, cfg, w0, PLACES);
    AsksForACheck(w1, 1, ["p"], 0, "c1", 0);
    var w2 := Next(ONE, cfg, w1, Asks("c1", 0));
    ThreeSteps(ONE, cfg, w2, VoteTimer(30_000), REJECTS, Asks("c2", 30_000));
    TimerPosts(w2, Wrong(2, Some(Proposal(2, "c1"))), ["p", "c1"]);
    var w3 := Next(ONE, cfg, w2, VoteTimer(30_000));
    SecondRejects(w3, "c1", ["p", "c1"]);
    var w4 := Next(ONE, cfg, w3, REJECTS);
    AsksForACheck(w4, 4, ["p", "c1", "v"], 1, "c2", 30_000);
    SecondVoteOpens(Next(ONE, cfg, w4, Asks("c2", 30_000)), ["p", "c1", "v", "c2"]);
  }

  lemma SecondVoteOpens(w: World, recent: seq<CommandId>)
    requires At(w, Wrong(5, Some(Proposal(5, "c2"))), recent, 1) && w.live.value.image.expiresAt == Some(60_000)
    ensures VoteIs(w, 5, 60_000)
    ensures
      var late := ExpiryTask(30_001, NoFault);
      Next(ONE, DefaultConfig(ANSWER), w, late).sent ==
        w.sent + [SequencedFrame(VoteClosed(6, 5, Failed, Some(Expired)), 30_001, 0)]
  {
    PostedExpiryCloses(ONE, DefaultConfig(ANSWER), w, 30_001, NoFault);
  }
}
