/**
 What becomes of a client's message, from the socket to the broadcast: who is refused and with what,
 which events an accepted message is broadcast as, in whose name and with whose time, and what the
 actor's board holds afterwards.
 */
module Messages {
  import Sorting
  import opened Basics
  import opened Engine
  import opened RoomLaws
  import opened Verdicts
  import opened Store
  import opened Actor
  import opened Persistence
  import opened World
  import opened Durability
  import opened Broadcast

  /** The events go out in order with this time and deadline; a completion is announced once it is flushed. */
  ghost predicate Sends(s: Settled, es: seq<Event>, at: int, deadline: int) {
    var n := if es != [] && es[|es| - 1].GameCompleted? then |es| - 1 else |es|;
    && |s.frames| == n + (if n < |es| && s.ok then 1 else 0)
    && (forall i :: 0 <= i < n ==> !IsTerminal(es[i]) && s.frames[i] == SequencedFrame(es[i], at, deadline))
    && (n < |es| && s.ok ==>
          s.frames[n].CompletedFrame? && s.frames[n].seqNo == es[n].seqNo && s.frames[n].at == at)
  }

  lemma {:induction false} FramesOneByOne(es: seq<Event>, at: int, deadline: int)
    requires forall i :: 0 <= i < |es| ==> !IsTerminal(es[i])
    ensures |Frames(es, at, deadline)| == |es|
    ensures forall i :: 0 <= i < |es| ==> Frames(es, at, deadline)[i] == SequencedFrame(es[i], at, deadline)
  {
    if es != [] {
      var n := |es| - 1;
      FramesOneByOne(es[..n], at, deadline);
      forall i | 0 <= i < |es|
        ensures Frames(es, at, deadline)[i] == SequencedFrame(es[i], at, deadline)
      {
        if i < n { assert es[..n][i] == es[i]; }
      }
    }
  }

  lemma AcceptedSends(f: Fields, db: Db, c: Command, v: Verdict, at: int, cfg: Config, fault: Fault)
    requires !c.ExpireVote? && Shaped(f.image.board, c, v) && Explains(f.image.board, v.events, v.board)
    ensures
      var s := Accept(f, db, v, c.commandId, at, cfg, fault);
      && Sends(s, v.events, at, at + cfg.ttl) && s.reply == Silence
      && s.fields.image.board == v.board
  {
    hide Prepare, Frames, Finish, Shaped, CompletionIn, Explains, Sends;
    var p, completion := Prepare(f, v, c.commandId, at, cfg), CompletionIn(v.events);
    PreparedBoard(f, v, c.commandId, at, cfg);
    RoomIsSettledBeforeTheFlush(p, db, completion, "", at, cfg, fault);
    FinishAnnounced(p, db, completion, at, cfg, fault);
    assert v.events != [] by { AcceptedIsSomething(f.image.board, c, v, at, at + cfg.ttl); }
    if completion.Some? {
      EndingVerdict(f.image.board, c, v);
    } else {
      QuietVerdictHasNoEnd(f.image.board, c, v);
    }
    SendsBoth(v.events, at, at + cfg.ttl, completion, Finish(p, db, completion, at, cfg, fault));
  }

  ghost predicate OnlyAnnounces(s: Settled, completion: Option<nat>, at: int) {
    && |s.frames| == (if completion.Some? && s.ok then 1 else 0) && s.reply == Silence
    && (completion.Some? && s.ok ==>
          s.frames[0].CompletedFrame? && s.frames[0].seqNo == completion.value && s.frames[0].at == at)
  }

  lemma FinishAnnounced(p: Fields, db: Db, completion: Option<nat>, at: int, cfg: Config, fault: Fault)
    ensures OnlyAnnounces(Finish(p, db, completion, at, cfg, fault), completion, at)
  {}

  lemma SendsBoth(es: seq<Event>, at: int, deadline: int, completion: Option<nat>, s: Settled)
    requires es != [] && OnlyAnnounces(s, completion, at)
    requires forall i :: 0 <= i < |es| - 1 ==> !IsTerminal(es[i])
    requires if completion.Some? then es[|es| - 1] == GameCompleted(completion.value) else !IsTerminal(es[|es| - 1])
    ensures Sends(WithFrames(Frames(es, at, deadline), s), es, at, deadline)
  {
    hide Frames;
    var n := |es| - 1;
    if completion.Some? {
      FramesWithoutTheEnd(es, at, deadline);
      FramesOneByOne(es[..n], at, deadline);
    } else {
      FramesOneByOne(es, at, deadline);
    }
  }

  /** Neither a spectator nor the sender of a remembered id is heard. */
  predicate Unheard(f: Fields, conn: Connection, msg: Message) {
    conn.role == Spectator || msg.commandId in f.image.recent
  }

  /** Spectators are told so, duplicates are dropped in silence; either way nothing happens. */
  lemma UnheardMessages(f: Fields, db: Db, conn: Connection, present: seq<Connection>, msg: Message, at: int,
                        cfg: Config, fault: Fault)
    requires Unheard(f, conn, msg)
    ensures HandleMutation(f, db, conn, present, msg, at, cfg, fault) ==
      Settled(f, db, [], if conn.role == Spectator then RoleForbidden else Silence, true)
  {}

  /** What the engine answers to the message's command is what the sender and the room are told. */
  lemma HeardAs(f: Fields, db: Db, conn: Connection, present: seq<Connection>, msg: Message, at: int,
                cfg: Config, fault: Fault, c: Command)
    requires Sound(f.image.board, cfg.solution) && !Unheard(f, conn, msg)
    requires c == ToCommand(msg, conn.userId, present, at)
    ensures
      var s, v := HandleMutation(f, db, conn, present, msg, at, cfg, fault), Apply(f.image.board, c, cfg.solution);
      if v.error.Some? then s == Settled(f, db, [], Refused(v.error.value), true)
      else Sends(s, v.events, at, at + cfg.ttl) && s.reply == Silence && s.fields.image.board == v.board
  {
    hide Apply, Accept, AssembleElectorate, Sound;
    var v := Apply(f.image.board, c, cfg.solution);
    if v.error.None? {
      CommandsAreOk(msg, conn.userId, present, at);
      ApplyLaws(f.image.board, c, cfg.solution);
      AcceptedShape(f.image.board, c, cfg.solution);
      AcceptedSends(f, db, c, v, at, cfg, fault);
    }
  }

  // --- Message by message ---

  /** The reply is the refusal whose case it is and nothing happens; or it is none of them. */
  ghost predicate RefusedOr(f: Fields, db: Db, s: Settled, c: Command, accepted: bool)
    requires !c.ExpireVote?
  {
    && (forall e :: RefusedWith(f.image.board, c, e) ==> s == Settled(f, db, [], Refused(e), true))
    && ((forall e :: !RefusedWith(f.image.board, c, e)) ==> s.reply == Silence && accepted)
  }

  /** As the raised value in the named cell, by the sender, at this time; then what that ends. */
  ghost predicate PlacedAs(f: Fields, s: Settled, conn: Connection, msg: Message, at: int, cfg: Config,
                           value: string, rest: seq<Event>)
    requires msg.PlaceMessage?
  {
    var b, after := f.image.board, s.fields.image.board;
    && Raised(msg.value, value)
    && Sends(s, [CellSet(b.seqNo + 1, msg.cell, Some(value), conn.userId, msg.commandId, at)] + rest, at,
             at + cfg.ttl)
    && Leaves(b, PlaceLetter(msg.commandId, msg.cell, msg.value, conn.userId, at), Some(value), after)
    && WriteEnds(b, rest, after, cfg.solution)
  }

  /**
   A placement is refused exactly as `RefusedWith` says, and otherwise broadcast as the raised value in
   that cell by its sender at that time, with whatever vote or game it ends.
   */
  lemma PlacementsAreHeard(f: Fields, db: Db, conn: Connection, present: seq<Connection>, msg: Message, at: int,
                           cfg: Config, fault: Fault)
    requires Sound(f.image.board, cfg.solution) && !Unheard(f, conn, msg) && msg.PlaceMessage?
    ensures
      var s := HandleMutation(f, db, conn, present, msg, at, cfg, fault);
      RefusedOr(f, db, s, PlaceLetter(msg.commandId, msg.cell, msg.value, conn.userId, at),
                exists value, rest :: PlacedAs(f, s, conn, msg, at, cfg, value, rest))
  {
    hide HandleMutation, Apply, Sound, RefusedWith, Sends, Leaves, WriteEnds, Raised;
    var b, c := f.image.board, PlaceLetter(msg.commandId, msg.cell, msg.value, conn.userId, at);
    var v, s := Apply(b, c, cfg.solution), HandleMutation(f, db, conn, present, msg, at, cfg, fault);
    HeardAs(f, db, conn, present, msg, at, cfg, fault, c);
    RefusalsAreExact(b, c, cfg.solution);
    if v.error.None? {
      WriteSays(b, c, cfg.solution);
      assert v.events == [v.events[0]] + v.events[1..];
      assert PlacedAs(f, s, conn, msg, at, cfg, v.events[0].value.value, v.events[1..]);
    }
  }

  ghost predicate ClearedAs(f: Fields, s: Settled, conn: Connection, msg: Message, at: int, cfg: Config,
                            rest: seq<Event>)
    requires msg.ClearMessage?
  {
    var b, after := f.image.board, s.fields.image.board;
    && Sends(s, [CellSet(b.seqNo + 1, msg.cell, None, conn.userId, msg.commandId, at)] + rest, at, at + cfg.ttl)
    && Leaves(b, ClearCell(msg.commandId, msg.cell, conn.userId, at), None, after)
    && WriteEnds(b, rest, after, cfg.solution)
  }

  /** A clear likewise, as an empty value in that cell. */
  lemma ClearsAreHeard(f: Fields, db: Db, conn: Connection, present: seq<Connection>, msg: Message, at: int,
                       cfg: Config, fault: Fault)
    requires Sound(f.image.board, cfg.solution) && !Unheard(f, conn, msg) && msg.ClearMessage?
    ensures
      var s := HandleMutation(f, db, conn, present, msg, at, cfg, fault);
      RefusedOr(f, db, s, ClearCell(msg.commandId, msg.cell, conn.userId, at),
                exists rest :: ClearedAs(f, s, conn, msg, at, cfg, rest))
  {
    hide HandleMutation, Apply, Sound, RefusedWith, Sends, Leaves, WriteEnds, Raised;
    var b, c := f.image.board, ClearCell(msg.commandId, msg.cell, conn.userId, at);
    var v, s := Apply(b, c, cfg.solution), HandleMutation(f, db, conn, present, msg, at, cfg, fault);
    HeardAs(f, db, conn, present, msg, at, cfg, fault, c);
    RefusalsAreExact(b, c, cfg.solution);
    if v.error.None? {
      WriteSays(b, c, cfg.solution);
      assert v.events == [v.events[0]] + v.events[1..];
      assert ClearedAs(f, s, conn, msg, at, cfg, v.events[1..]);
    }
  }

  ghost predicate CountedAs(f: Fields, s: Settled, conn: Connection, msg: Message, at: int, cfg: Config,
                            next: CheckVote, rest: seq<Event>)
    requires msg.BallotMessage?
  {
    var b, after := f.image.board, s.fields.image.board;
    && b.checkVote.Some? && msg.voteSeq >= 0
    && Sends(s, [VoteCast(b.seqNo + 1, msg.voteSeq, conn.userId, msg.approve, msg.commandId)] + rest, at,
             at + cfg.ttl)
    && Recorded(b.checkVote.value, conn.userId, msg.approve, next)
    && TallySays(b, next, b.seqNo + 2, rest, after, cfg.solution)
  }

  /** A ballot is recorded for the vote it names as the sender cast it, and the tally is settled with it. */
  lemma BallotsAreHeard(f: Fields, db: Db, conn: Connection, present: seq<Connection>, msg: Message, at: int,
                        cfg: Config, fault: Fault)
    requires Sound(f.image.board, cfg.solution) && !Unheard(f, conn, msg) && msg.BallotMessage?
    ensures
      var s := HandleMutation(f, db, conn, present, msg, at, cfg, fault);
      RefusedOr(f, db, s, CastVote(msg.commandId, conn.userId, msg.voteSeq, msg.approve),
                exists next, rest :: CountedAs(f, s, conn, msg, at, cfg, next, rest))
  {
    hide HandleMutation, Apply, Sound, RefusedWith, Sends, Recorded, TallySays;
    var b, c := f.image.board, CastVote(msg.commandId, conn.userId, msg.voteSeq, msg.approve);
    var v, s := Apply(b, c, cfg.solution), HandleMutation(f, db, conn, present, msg, at, cfg, fault);
    HeardAs(f, db, conn, present, msg, at, cfg, fault, c);
    RefusalsAreExact(b, c, cfg.solution);
    if v.error.None? {
      var next := BallotSaid(b, c, cfg.solution);
      assert v.events == [v.events[0]] + v.events[1..];
      assert CountedAs(f, s, conn, msg, at, cfg, next, v.events[1..]);
    }
  }

  ghost predicate OpenedAs(f: Fields, s: Settled, conn: Connection, present: seq<Connection>, msg: Message,
                           at: int, cfg: Config, electorate: seq<UserId>, needed: nat, rest: seq<Event>)
    requires msg.CheckMessage?
  {
    var b, after := f.image.board, s.fields.image.board;
    && Sends(s, [VoteOpened(b.seqNo + 1, conn.userId, electorate, needed, msg.commandId)] + rest, at, at + cfg.ttl)
    && (forall u :: u in electorate <==>
          || u == conn.userId
          || exists i :: 0 <= i < |present| && present[i].userId == u && present[i].role != Spectator)
    && Distinct(electorate) && LeastMajority(needed, electorate)
    && TallySays(b, CheckVote(b.seqNo + 1, conn.userId, msg.commandId, electorate, [conn.userId], []),
                 b.seqNo + 2, rest, after, cfg.solution)
  }

  /**
   A proposal opens a vote in its sender's name among exactly the sender and the hosts and solvers
   present, with the deadline a timebox away, and the tally is settled with his approval.
   */
  lemma ProposalsAreHeard(f: Fields, db: Db, conn: Connection, present: seq<Connection>, msg: Message, at: int,
                          cfg: Config, fault: Fault)
    requires Sound(f.image.board, cfg.solution) && !Unheard(f, conn, msg) && msg.CheckMessage?
    ensures
      var s := HandleMutation(f, db, conn, present, msg, at, cfg, fault);
      RefusedOr(f, db, s, CheckPuzzle(msg.commandId, conn.userId, []),
                exists electorate, needed, rest ::
                  OpenedAs(f, s, conn, present, msg, at, cfg, electorate, needed, rest))
  {
    hide HandleMutation, Apply, Sound, RefusedWith, Sends, TallySays, LeastMajority, AssembleElectorate;
    var b, electorate := f.image.board, AssembleElectorate(present, conn.userId);
    var c := CheckPuzzle(msg.commandId, conn.userId, electorate);
    var v, s := Apply(b, c, cfg.solution), HandleMutation(f, db, conn, present, msg, at, cfg, fault);
    HeardAs(f, db, conn, present, msg, at, cfg, fault, c);
    RefusalsAreExact(b, c, cfg.solution);
    RefusalsIgnoreElectors(b, c);
    if v.error.None? {
      ProposalSays(b, c, cfg.solution);
      ElectorateIs(present, conn.userId);
      SortedElectorsStayDistinct(b, c, cfg.solution);
      assert v.events == [v.events[0]] + v.events[1..];
      var opening := v.events[0];
      assert OpenedAs(f, s, conn, present, msg, at, cfg, opening.electorate, opening.needed, v.events[1..]);
    }
  }

  lemma RefusalsIgnoreElectors(b: Board, c: Command)
    requires c.CheckPuzzle?
    ensures forall e :: RefusedWith(b, c, e) <==> RefusedWith(b, c.(electorate := []), e)
  {
    hide EveryCellFilled;
  }

  lemma SortedElectorsStayDistinct(b: Board, c: Command, sol: Solution)
    requires c.CheckPuzzle? && Distinct(c.electorate) && Apply(b, c, sol).error.None?
    ensures
      var v := Apply(b, c, sol);
      v.events != [] && v.events[0].VoteOpened? && Distinct(v.events[0].electorate)
  {
    hide ResolveByTally;
    Sorting.SortKeepsDistinct(Sorting.IdLess(), c.electorate);
  }
}
