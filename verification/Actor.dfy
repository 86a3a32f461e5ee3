/**
 The single writer of one game. Accepted events are broadcast and buffered; a buffer reaching
 its threshold, a timer, or a drain flushes it with the current snapshot; a terminal event
 flushes before it is announced. A function below says what one mailbox task does to the
 actor's fields, the tables and the broadcast; the class updates its fields step by step and
 is proved to do exactly that.
 */
module Actor {
  import opened Basics
  import opened Sorting
  import opened Engine
  import opened RoomLaws
  import opened Journal
  import opened Store
  import opened Snapshots
  import opened Sittings

  const FLUSH_EVENT_THRESHOLD: nat := 25
  const CHECK_VOTE_TTL_MS: int := 30_000

  datatype Role = Host | Solver | Spectator

  datatype Connection = Connection(socket: nat, userId: UserId, role: Role)

  datatype Message =
    | PlaceMessage(commandId: CommandId, cell: int, value: string)
    | ClearMessage(commandId: CommandId, cell: int)
    | CheckMessage(commandId: CommandId)
    | BallotMessage(commandId: CommandId, voteSeq: int, approve: bool)

  /** Sequenced broadcasts. Everything but a terminal event goes out before it is durable. */
  datatype Frame =
    | SequencedFrame(event: Event, at: int, deadline: int)
    | CompletedFrame(seqNo: nat, at: int, stats: Stats)
    | AbandonedFrame(seqNo: nat, at: int, who: UserId)

  datatype Reply = Silence | RoleForbidden | Refused(error: Refusal)

  /** The actor's fields that a mailbox task reads or writes. */
  datatype Fields = Fields(
    image: Image, stats: Option<Stats>,
    pending: seq<CellRow>, pendingChecks: seq<CheckRow>, pendingVotes: seq<VoteRow>,
    flushTimer: bool, voteTimer: bool)
  {
    function PendingCount(): nat { |pending| + |pendingChecks| + |pendingVotes| }

    function Pending(): Batch { Batch(pending, pendingChecks, pendingVotes) }

    function Emptied(): Fields { this.(pending := [], pendingChecks := [], pendingVotes := []) }
  }

  /** One settled task: the fields, the tables, what was broadcast, and whether it threw. */
  datatype Settled = Settled(fields: Fields, db: Db, frames: seq<Frame>, reply: Reply, ok: bool)

  datatype Config = Config(solution: Solution, threshold: nat, ttl: int)

  function DefaultConfig(solution: Solution): Config {
    Config(solution, FLUSH_EVENT_THRESHOLD, CHECK_VOTE_TTL_MS)
  }

  // --- The electorate ---

  function Electors(present: seq<Connection>, proposer: UserId): seq<UserId> {
    if present == [] then [proposer]
    else
      var before := Electors(present[..|present| - 1], proposer);
      var c := present[|present| - 1];
      if c.role != Spectator && c.userId !in before then before + [c.userId] else before
  }

  function AssembleElectorate(present: seq<Connection>, proposer: UserId): seq<UserId> {
    Sort(IdLess(), Electors(present, proposer))
  }

  lemma {:induction false} ElectorsAre(present: seq<Connection>, proposer: UserId)
    ensures Distinct(Electors(present, proposer))
    ensures forall u :: u in Electors(present, proposer) <==>
      u == proposer || exists i :: 0 <= i < |present| && present[i].userId == u && present[i].role != Spectator
  {
    if present != [] {
      var front, c := present[..|present| - 1], present[|present| - 1];
      ElectorsAre(front, proposer);
      forall u ensures u in Electors(present, proposer) <==>
          u == proposer || exists i :: 0 <= i < |present| && present[i].userId == u && present[i].role != Spectator {
        if i :| 0 <= i < |front| && front[i].userId == u && front[i].role != Spectator {
          assert present[i] == front[i];
        }
        if i :| 0 <= i < |present| && present[i].userId == u && present[i].role != Spectator {
          if i < |front| { assert front[i] == present[i]; }
        }
        if u == c.userId && c.role != Spectator { assert present[|present| - 1].userId == u; }
      }
    }
  }

  /** The proposer and every connected host and solver, once each, ascending. */
  lemma ElectorateIs(present: seq<Connection>, proposer: UserId)
    ensures
      var e := AssembleElectorate(present, proposer);
      && Distinct(e) && SortedBy(IdLess(), e) && proposer in e
      && (forall u :: u in e <==>
            u == proposer || exists i :: 0 <= i < |present| && present[i].userId == u && present[i].role != Spectator)
  {
    ElectorsAre(present, proposer);
    StringOrderIsTotal();
    SortSorts(IdLess(), Electors(present, proposer));
    SortKeepsDistinct(IdLess(), Electors(present, proposer));
    SortKeepsMembers(IdLess(), Electors(present, proposer));
  }

  method AssembleElectorateLoop(present: seq<Connection>, proposer: UserId) returns (r: seq<UserId>)
    ensures r == AssembleElectorate(present, proposer)
  {
    var electors := [proposer];
    for i := 0 to |present|
      invariant electors == Electors(present[..i], proposer)
    {
      assert present[..i + 1][..i] == present[..i];
      if (present[i].role == Host || present[i].role == Solver) && present[i].userId !in electors {
        electors := electors + [present[i].userId];
      }
    }
    assert present[..|present|] == present;
    r := Sort(IdLess(), electors);
  }

  function ToCommand(msg: Message, who: UserId, present: seq<Connection>, at: int): Command {
    match msg
    case PlaceMessage(id, cell, value) => PlaceLetter(id, cell, value, who, at)
    case ClearMessage(id, cell) => ClearCell(id, cell, who, at)
    case CheckMessage(id) => CheckPuzzle(id, who, AssembleElectorate(present, who))
    case BallotMessage(id, voteSeq, approve) => CastVote(id, who, voteSeq, approve)
  }

  // --- Flushing ---

  function StatsOf(m: Image, terminalSeq: nat, at: int, participants: nat, eventAtMs: seq<int>): Stats {
    var t := SolveTimesSpec(m.board.firstFillAt, at, eventAtMs);
    Stats(t.solve, terminalSeq - 1, participants, m.board.checkCount, t.active, t.sittings)
  }

  function DoFlush(f: Fields, db: Db, fault: Fault): Settled
  {
    var g := f.(flushTimer := false);
    if g.PendingCount() == 0 then Settled(g, db, [], Silence, true)
    else
      var r := Flush(db, g.Pending(), Print(g.image, g.stats), fault);
      Settled(if r.ok then g.Emptied() else g, r.db, [], Silence, r.ok)
  }

  function AfterMutationFlush(f: Fields, db: Db, threshold: nat, fault: Fault): Settled
  {
    if f.PendingCount() >= threshold then DoFlush(f, db, fault)
    else Settled(f.(flushTimer := f.flushTimer || f.PendingCount() > 0), db, [], Silence, true)
  }

  // --- Emitting a verdict's events ---

  function FramesOf(e: Event, at: int, deadline: int): seq<Frame> {
    if IsTerminal(e) then [] else [SequencedFrame(e, at, deadline)]
  }

  function Frames(es: seq<Event>, at: int, deadline: int): seq<Frame> {
    if es == [] then []
    else Frames(es[..|es| - 1], at, deadline) + FramesOf(es[|es| - 1], at, deadline)
  }

  /** Buffer an event for its log; a terminal event is buffered nowhere. */
  function Buffer(f: Fields, e: Event, at: int): Fields {
    if e.CellSet? then f.(pending := f.pending + [CellRowOf(e)])
    else if e.PuzzleChecked? then f.(pendingChecks := f.pendingChecks + [CheckRowOf(e, at)])
    else if IsVoteEvent(e) then f.(pendingVotes := f.pendingVotes + [VoteRowOf(e, at)])
    else f
  }

  function Emit(f: Fields, es: seq<Event>, at: int): (g: Fields)
    ensures g.image == f.image && g.stats == f.stats
    ensures g.flushTimer == f.flushTimer && g.voteTimer == f.voteTimer
  {
    if es == [] then f else Buffer(Emit(f, es[..|es| - 1], at), es[|es| - 1], at)
  }

  /** The terminal sequence number among the events, the last one if several. */
  function CompletionIn(es: seq<Event>): Option<nat> {
    if es == [] then None
    else if es[|es| - 1].GameCompleted? then Some(es[|es| - 1].seqNo)
    else CompletionIn(es[..|es| - 1])
  }

  function HasOpening(es: seq<Event>): bool {
    exists i :: 0 <= i < |es| && es[i].VoteOpened?
  }

  function ReconcileVoteTimer(f: Fields, es: seq<Event>, deadline: int): Fields {
    if f.image.board.checkVote.None? then f.(voteTimer := false, image := f.image.(expiresAt := None))
    else if HasOpening(es) then f.(voteTimer := true, image := f.image.(expiresAt := Some(deadline)))
    else f
  }

  // --- The tasks ---

  /** The completed snapshot, once the transaction knows who wrote and when. */
  function CompletionSnapshot(m: Image, terminalSeq: nat, at: int): (nat, seq<int>) -> Row {
    (participants: nat, times: seq<int>) => Print(m, Some(StatsOf(m, terminalSeq, at, participants, times)))
  }

  function CompleteGame(f: Fields, db: Db, terminalSeq: nat, at: int, fault: Fault): Settled
  {
    var g := f.(image := f.image.(completedAt := Some(at)));
    var r := FlushTerminal(db, g.Pending(), CompletionSnapshot(g.image, terminalSeq, at), fault);
    if !r.ok then Settled(g, r.db, [], Silence, false)
    else
      var after := Appended(db, g.Pending());
      var stats := StatsOf(g.image, terminalSeq, at, Participants(after.cellLog), EventTimes(after.cellLog));
      Settled(g.Emptied().(stats := Some(stats), flushTimer := false), r.db,
              [CompletedFrame(terminalSeq, at, stats)], Silence, true)
  }

  function WithFrames(frames: seq<Frame>, s: Settled): Settled { s.(frames := frames + s.frames) }

  /** The accepted verdict written to the fields, its id remembered, its events buffered. */
  function Prepare(f: Fields, v: Verdict, id: CommandId, at: int, cfg: Config): Fields {
    var applied := f.(image := f.image.(board := v.board, recent := Remember(f.image.recent, id)));
    ReconcileVoteTimer(Emit(applied, v.events, at), v.events, at + cfg.ttl)
  }

  function Finish(f: Fields, db: Db, completion: Option<nat>, at: int, cfg: Config, fault: Fault): Settled
  {
    if completion.Some? then CompleteGame(f, db, completion.value, at, fault)
    else AfterMutationFlush(f, db, cfg.threshold, fault)
  }

  /** The accepted command's verdict, applied, emitted and flushed. */
  function Accept(f: Fields, db: Db, v: Verdict, id: CommandId, at: int, cfg: Config, fault: Fault): Settled
  {
    WithFrames(
      Frames(v.events, at, at + cfg.ttl),
      Finish(Prepare(f, v, id, at, cfg), db, CompletionIn(v.events), at, cfg, fault))
  }

  function HandleMutation(f: Fields, db: Db, conn: Connection, present: seq<Connection>, msg: Message,
                          at: int, cfg: Config, fault: Fault): Settled
  {
    if conn.role == Spectator then Settled(f, db, [], RoleForbidden, true)
    else if msg.commandId in f.image.recent then Settled(f, db, [], Silence, true)
    else
      var v := Apply(f.image.board, ToCommand(msg, conn.userId, present, at), cfg.solution);
      if v.error.Some? then Settled(f, db, [], Refused(v.error.value), true)
      else Accept(f, db, v, msg.commandId, at, cfg, fault)
  }

  function CancelVoteTimer(f: Fields): Fields {
    f.(voteTimer := false, image := f.image.(expiresAt := None))
  }

  function HandleExpiry(f: Fields, db: Db, at: int, cfg: Config, fault: Fault): Settled
  {
    var v := Expire(f.image.board);
    if v.events == [] then Settled(CancelVoteTimer(f), db, [], Silence, true)
    else
      var g := Emit(f.(image := f.image.(board := v.board)), v.events, at);
      WithFrames(Frames(v.events, at, 0), AfterMutationFlush(CancelVoteTimer(g), db, cfg.threshold, fault))
  }

  /** The close an abandon owes an open vote, emitted before anything terminal. */
  function CloseForAbandon(f: Fields, at: int): Fields {
    var open := f.image.board.checkVote;
    if open.None? then f
    else
      var v := CloseFailed(f.image.board, open.value, Cancelled, Terminal);
      CancelVoteTimer(Emit(f.(image := f.image.(board := v.board)), v.events, at))
  }

  function AbandonFrames(f: Fields, at: int): seq<Frame> {
    var open := f.image.board.checkVote;
    if open.None? then []
    else Frames(CloseFailed(f.image.board, open.value, Cancelled, Terminal).events, at, 0)
  }

  function MarkAbandoned(f: Fields, at: int): Fields {
    var b := f.image.board;
    f.(image := f.image.(board := b.(status := Abandoned, seqNo := b.seqNo + 1), abandonedAt := Some(at)))
  }

  function FlushAbandoned(last: Fields, db: Db, who: UserId, at: int, fault: Fault): Settled {
    var r := Flush(db, last.Pending(), Print(last.image, last.stats), fault);
    if r.ok
    then Settled(last.Emptied().(flushTimer := false), r.db,
                 [AbandonedFrame(last.image.board.seqNo, at, who)], Silence, true)
    else Settled(last, r.db, [], Silence, false)
  }

  /** Abandoning closes an open vote first, then takes the next number and flushes at once. */
  function DoAbandon(f: Fields, db: Db, who: UserId, at: int, fault: Fault): Settled
  {
    if f.image.board.status != Ongoing then Settled(f, db, [], Silence, true)
    else
      WithFrames(
        AbandonFrames(f, at),
        FlushAbandoned(MarkAbandoned(CloseForAbandon(f, at), at), db, who, at, fault))
  }

  /** Starting from the stored row: a deadline already past closes the vote without a broadcast. */
  function Hydrate(grid: Grid, row: Option<Row>, now: int): Fields {
    var m := ReadRow(grid, row);
    var f := Fields(m, if row.None? then None else row.value.stats, [], [], [], false, false);
    if m.board.checkVote.None? then f
    else if m.expiresAt.Some? && m.expiresAt.value > now then f.(voteTimer := true)
    else
      var v := Expire(m.board);
      Emit(f.(image := m.(board := v.board, expiresAt := None)), v.events, now)
  }
}
