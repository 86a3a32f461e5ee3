/**
 What a client sees. A task broadcasts exactly what it adds to the history. Applying the frames one
 after another to the board it was welcomed with gives the actor's board after every task; the one
 exception is an end whose flush failed, which the client is one mark behind of. A board read while
 a flush is awaited is the one the task ends with, which may be over before anything is durable.
 */
module Broadcast {
  import opened Basics
  import opened Engine
  import opened RoomLaws
  import opened Journal
  import opened Store
  import opened Actor
  import opened Persistence
  import opened World
  import opened Durability
  import opened Handoff

  ghost function Show(b: Board, fr: Frame): Board {
    match fr
    case SequencedFrame(e, _, _) => ApplyEvent(b, e)
    case CompletedFrame(n, _, _) => ApplyEvent(b, GameCompleted(n))
    case AbandonedFrame(n, _, _) => ApplyEvent(b, GameAbandoned(n))
  }

  ghost function Watch(b: Board, frames: seq<Frame>): Board {
    if frames == [] then b else Show(Watch(b, frames[..|frames| - 1]), frames[|frames| - 1])
  }

  lemma {:induction false} WatchAppend(b: Board, s: seq<Frame>, t: seq<Frame>)
    ensures Watch(b, s + t) == Watch(Watch(b, s), t)
  {
    if t == [] {
      assert s + t == s;
    } else {
      assert (s + t)[..|s + t| - 1] == s + t[..|t| - 1];
      WatchAppend(b, s, t[..|t| - 1]);
    }
  }

  lemma WatchOne(b: Board, fr: Frame)
    ensures Watch(b, [fr]) == Show(b, fr)
  {
    assert [fr][..0] == [];
  }

  /** The frames of events that do not end the game show exactly those events. */
  lemma {:induction false} FramesShowEvents(b: Board, es: seq<Event>, at: int, deadline: int)
    requires forall i :: 0 <= i < |es| ==> !IsTerminal(es[i])
    ensures Watch(b, Frames(es, at, deadline)) == Replay(b, es)
  {
    if es != [] {
      var n := |es| - 1;
      FramesShowEvents(b, es[..n], at, deadline);
      WatchAppend(b, Frames(es[..n], at, deadline), FramesOf(es[n], at, deadline));
      WatchOne(Replay(b, es[..n]), SequencedFrame(es[n], at, deadline));
    }
  }

  /** The client's board is the actor's, or the end just reached has not been announced. */
  ghost predicate Seen(shown: Board, actual: Board) {
    || shown == actual
    || (shown.status == Ongoing && actual.status != Ongoing
        && shown == actual.(status := Ongoing, seqNo := shown.seqNo) && shown.seqNo + 1 == actual.seqNo)
  }

  ghost predicate Shows(b: Board, s: Settled) {
    match s
    case Settled(fields, _, frames, _, ok) =>
      && Seen(Watch(b, frames), fields.image.board)
      && (ok ==> Watch(b, frames) == fields.image.board)
  }

  lemma QuietVerdictHasNoEnd(b: Board, c: Command, v: Verdict)
    requires !c.ExpireVote? && Shaped(b, c, v) && Explains(b, v.events, v.board) && CompletionIn(v.events).None?
    ensures forall i :: 0 <= i < |v.events| ==> !IsTerminal(v.events[i])
  {
    var n := |v.events| - 1;
    assert !v.events[n].GameCompleted?;
    assert n > 0 ==> !v.events[n].GameAbandoned?;
  }

  lemma EndingVerdict(b: Board, c: Command, v: Verdict)
    requires !c.ExpireVote? && Shaped(b, c, v) && Explains(b, v.events, v.board) && CompletionIn(v.events).Some?
    ensures
      var n := |v.events| - 1;
      && v.events[n] == GameCompleted(v.board.seqNo) && CompletionIn(v.events) == Some(v.board.seqNo)
      && (forall i :: 0 <= i < n ==> !IsTerminal(v.events[i]))
      && v.board == ApplyEvent(Replay(b, v.events[..n]), v.events[n])
      && Replay(b, v.events[..n]).status == Ongoing && Replay(b, v.events[..n]).seqNo + 1 == v.board.seqNo
  {
    CompletionEndsTheGame(b, v.events, v.board);
    PrefixIsOngoing(b, v.events, |v.events| - 1);
  }

  lemma {:induction false} PrefixIsOngoing(b: Board, es: seq<Event>, n: nat)
    requires n <= |es| && b.status == Ongoing && Contiguous(b.seqNo, es)
    requires forall i :: 0 <= i < n ==> !IsTerminal(es[i])
    ensures Replay(b, es[..n]).status == Ongoing && Replay(b, es[..n]).seqNo == b.seqNo + n
  {
    if n > 0 {
      PrefixIsOngoing(b, es, n - 1);
      assert es[..n][..n - 1] == es[..n - 1];
    }
  }

  lemma FramesWithoutTheEnd(es: seq<Event>, at: int, deadline: int)
    requires es != [] && IsTerminal(es[|es| - 1])
    ensures Frames(es, at, deadline) == Frames(es[..|es| - 1], at, deadline)
  {}

  lemma CompletionShows(b: Board, p: Fields, db: Db, n: nat, at: int, fault: Fault)
    requires b.status == Ongoing && b.seqNo + 1 == n && p.image.board == ApplyEvent(b, GameCompleted(n))
    ensures Shows(b, CompleteGame(p, db, n, at, fault))
  {
    var s := CompleteGame(p, db, n, at, fault);
    if s.ok { WatchOne(b, s.frames[0]); }
  }

  lemma FlushShows(f: Fields, db: Db, threshold: nat, fault: Fault)
    ensures AfterMutationFlush(f, db, threshold, fault).frames == []
    ensures AfterMutationFlush(f, db, threshold, fault).fields.image == f.image
  {}

  lemma ShowsAfter(b: Board, frames: seq<Frame>, s: Settled)
    requires Shows(Watch(b, frames), s)
    ensures Shows(b, WithFrames(frames, s))
  {
    WatchAppend(b, frames, s.frames);
  }

  /** An accepted command's frames show its verdict. */
  lemma AcceptShows(f: Fields, db: Db, c: Command, v: Verdict, at: int, cfg: Config, fault: Fault)
    requires !c.ExpireVote? && Shaped(f.image.board, c, v) && Explains(f.image.board, v.events, v.board)
    ensures Shows(f.image.board, Accept(f, db, v, c.commandId, at, cfg, fault))
  {
    hide Prepare, Frames, CompleteGame, AfterMutationFlush, Shaped;
    var b, es, n, deadline := f.image.board, v.events, |v.events| - 1, at + cfg.ttl;
    var p := Prepare(f, v, c.commandId, at, cfg);
    PreparedBoard(f, v, c.commandId, at, cfg);
    if CompletionIn(es).Some? {
      EndingVerdict(b, c, v);
      FramesWithoutTheEnd(es, at, deadline);
      FramesShowEvents(b, es[..n], at, deadline);
      CompletionShows(Replay(b, es[..n]), p, db, v.board.seqNo, at, fault);
    } else {
      QuietVerdictHasNoEnd(b, c, v);
      FramesShowEvents(b, es, at, deadline);
      FlushShows(p, db, cfg.threshold, fault);
    }
    ShowsAfter(b, Frames(es, at, deadline), Finish(p, db, CompletionIn(es), at, cfg, fault));
  }

  lemma SubmitShows(f: Fields, db: Db, conn: Connection, present: seq<Connection>, msg: Message, at: int,
                    cfg: Config, fault: Fault)
    requires Sound(f.image.board, cfg.solution)
    ensures Shows(f.image.board, HandleMutation(f, db, conn, present, msg, at, cfg, fault))
  {
    hide Accept, Apply, Explains, Shaped, AssembleElectorate;
    var c := ToCommand(msg, conn.userId, present, at);
    var v := Apply(f.image.board, c, cfg.solution);
    if conn.role != Spectator && msg.commandId !in f.image.recent && v.error.None? {
      CommandsAreOk(msg, conn.userId, present, at);
      ApplyLaws(f.image.board, c, cfg.solution);
      AcceptedShape(f.image.board, c, cfg.solution);
      AcceptShows(f, db, c, v, at, cfg, fault);
    }
  }

  lemma ExpiryShows(f: Fields, db: Db, at: int, cfg: Config, fault: Fault)
    requires Sound(f.image.board, cfg.solution)
    ensures Shows(f.image.board, HandleExpiry(f, db, at, cfg, fault))
  {
    hide AfterMutationFlush, Emit, Sound;
    var b, v := f.image.board, Expire(f.image.board);
    if b.checkVote.Some? {
      FramesShowEvents(b, v.events, at, 0);
      ReplayOne(b, v.events[0]);
      var g := CancelVoteTimer(Emit(f.(image := f.image.(board := v.board)), v.events, at));
      FlushShows(g, db, cfg.threshold, fault);
      ShowsAfter(b, Frames(v.events, at, 0), AfterMutationFlush(g, db, cfg.threshold, fault));
    }
  }

  lemma NothingShown(b: Board)
    ensures Watch(b, []) == b
  {}

  lemma ClosingShows(f: Fields, at: int)
    ensures Watch(f.image.board, AbandonFrames(f, at)) == CloseForAbandon(f, at).image.board
    ensures CloseForAbandon(f, at).image.board.status == f.image.board.status
  {
    hide Emit, Frames, Watch;
    var open := f.image.board.checkVote;
    if open.None? {
      NothingShown(f.image.board);
    } else {
      var v := CloseFailed(f.image.board, open.value, Cancelled, Terminal);
      FramesShowEvents(f.image.board, v.events, at, 0);
      ReplayOne(f.image.board, v.events[0]);
    }
  }

  lemma FlushedAbandonShows(b: Board, m: Fields, db: Db, who: UserId, at: int, fault: Fault)
    requires b.status == Ongoing && m.image.board == b.(status := Abandoned, seqNo := b.seqNo + 1)
    ensures Shows(b, FlushAbandoned(m, db, who, at, fault))
  {
    WatchOne(b, AbandonedFrame(m.image.board.seqNo, at, who));
  }

  lemma AbandonShows(f: Fields, db: Db, who: UserId, at: int, fault: Fault)
    ensures Shows(f.image.board, DoAbandon(f, db, who, at, fault))
  {
    hide FlushAbandoned, CloseForAbandon, AbandonFrames;
    if f.image.board.status == Ongoing {
      var c := CloseForAbandon(f, at);
      ClosingShows(f, at);
      FlushedAbandonShows(c.image.board, MarkAbandoned(c, at), db, who, at, fault);
      ShowsAfter(f.image.board, AbandonFrames(f, at), FlushAbandoned(MarkAbandoned(c, at), db, who, at, fault));
    }
  }

  /** A finished board is shown no more frames and stays as it is. */
  lemma FinishedShowsNothing(grid: Grid, cfg: Config, w: World, s: Step)
    requires w.live.Some? && w.live.value.image.board.status != Ongoing && w.live.value.image.board.checkVote.None?
    requires !s.Crash? && !s.Arrive?
    ensures
      var w' := Next(grid, cfg, w, s);
      w'.sent == w.sent && w'.live.Some? && w'.live.value.image.board == w.live.value.image.board
  {}

  /** Task by task: the frames sent take the client from the actor's old board to its new one. */
  lemma NextShows(grid: Grid, cfg: Config, w: World, s: Step)
    requires Coherent(grid, cfg.solution, w) && w.live.Some? && !s.Crash? && !s.Arrive?
    ensures
      var w' := Next(grid, cfg, w, s);
      && w'.live.Some? && w.sent <= w'.sent
      && Seen(Watch(w.live.value.image.board, w'.sent[|w.sent|..]), w'.live.value.image.board)
  {
    hide HandleMutation, HandleExpiry, DoFlush, DoAbandon;
    var f := w.live.value;
    BoardIsSound(grid, cfg, w);
    match s
    case Submit(conn, present, msg, at, fault) => SubmitShows(f, w.db, conn, present, msg, at, cfg, fault);
    case ExpiryTask(at, fault) => ExpiryShows(f, w.db, at, cfg, fault);
    case FlushTask(fault) => FlushTaskShows(f, w.db, fault);
    case AbandonTask(who, at, fault) => AbandonShows(f, w.db, who, at, fault);
    case _ =>
  }

  lemma BoardIsSound(grid: Grid, cfg: Config, w: World)
    requires Coherent(grid, cfg.solution, w) && w.live.Some?
    ensures Sound(w.live.value.image.board, cfg.solution)
  {
    var g :| Explained(grid, cfg.solution, w, g);
  }

  lemma FlushTaskShows(f: Fields, db: Db, fault: Fault)
    ensures Shows(f.image.board, DoFlush(f, db, fault))
  {}

  /**
   While one actor lives, a client that applies every frame since its welcome holds the actor's
   board, or is exactly one unannounced end behind it.
   */
  lemma {:induction false} WatchersKeepUp(grid: Grid, cfg: Config, before: seq<Step>, steps: seq<Step>)
    requires PuzzleOk(grid, cfg.solution) && SameActor(steps)
    requires After(grid, cfg, Start(), before).live.Some?
    ensures
      var w, w' := After(grid, cfg, Start(), before), After(grid, cfg, Start(), before + steps);
      && w'.live.Some? && w.sent <= w'.sent
      && Seen(Watch(w.live.value.image.board, w'.sent[|w.sent|..]), w'.live.value.image.board)
  {
    if steps == [] {
      assert before + steps == before;
    } else {
      var n := |steps| - 1;
      var front := before + steps[..n];
      assert (before + steps)[..|before + steps| - 1] == front;
      WatchersKeepUp(grid, cfg, before, steps[..n]);
      EveryRunIsCoherent(grid, cfg, front);
      KeepsUpOneMore(grid, cfg, After(grid, cfg, Start(), before), After(grid, cfg, Start(), front), steps[n]);
    }
  }

  lemma KeepsUpOneMore(grid: Grid, cfg: Config, w: World, now: World, s: Step)
    requires Coherent(grid, cfg.solution, now) && !s.Crash? && !s.Arrive?
    requires w.live.Some? && now.live.Some? && w.sent <= now.sent
    requires Seen(Watch(w.live.value.image.board, now.sent[|w.sent|..]), now.live.value.image.board)
    ensures
      var next := Next(grid, cfg, now, s);
      && next.live.Some? && w.sent <= next.sent
      && Seen(Watch(w.live.value.image.board, next.sent[|w.sent|..]), next.live.value.image.board)
  {
    hide Next, Watch;
    var b, next := w.live.value.image.board, Next(grid, cfg, now, s);
    if now.live.value.image.board.status != Ongoing {
      BoardIsSound(grid, cfg, now);
      FinishedShowsNothing(grid, cfg, now, s);
    } else {
      NextShows(grid, cfg, now, s);
      var seen, more := now.sent[|w.sent|..], next.sent[|now.sent|..];
      assert next.sent[|w.sent|..] == seen + more;
      WatchAppend(b, seen, more);
    }
  }

  // --- What is broadcast is what is recorded ---

  function ShownOf(s: Stamped): seq<Frame> {
    if IsTerminal(s.event) then [] else [SequencedFrame(s.event, s.at, s.deadline)]
  }

  /** The frames of a stretch of history, its end apart. */
  function Shown(ss: History): seq<Frame> {
    if ss == [] then [] else Shown(ss[..|ss| - 1]) + ShownOf(ss[|ss| - 1])
  }

  function SequencedOnly(frames: seq<Frame>): seq<Frame> {
    if frames == [] then []
    else
      var last := frames[|frames| - 1];
      SequencedOnly(frames[..|frames| - 1]) + if last.SequencedFrame? then [last] else []
  }

  lemma {:induction false} SequencedAppend(s: seq<Frame>, t: seq<Frame>)
    ensures SequencedOnly(s + t) == SequencedOnly(s) + SequencedOnly(t)
  {
    if t == [] {
      assert s + t == s;
    } else {
      assert (s + t)[..|s + t| - 1] == s + t[..|t| - 1];
      SequencedAppend(s, t[..|t| - 1]);
    }
  }

  lemma {:induction false} ShownAppend(s: History, t: History)
    ensures Shown(s + t) == Shown(s) + Shown(t)
  {
    if t == [] {
      assert s + t == s;
    } else {
      assert (s + t)[..|s + t| - 1] == s + t[..|t| - 1];
      ShownAppend(s, t[..|t| - 1]);
    }
  }

  lemma {:induction false} FramesAreShown(es: seq<Event>, at: int, deadline: int)
    ensures Frames(es, at, deadline) == Shown(Stamp(es, at, deadline))
    ensures SequencedOnly(Frames(es, at, deadline)) == Frames(es, at, deadline)
  {
    if es != [] {
      var n := |es| - 1;
      FramesAreShown(es[..n], at, deadline);
      assert Stamp(es, at, deadline)[..n] == Stamp(es[..n], at, deadline);
      var more := FramesOf(es[n], at, deadline);
      SequencedAppend(Frames(es[..n], at, deadline), more);
      if more != [] { assert more[..0] == []; }
    }
  }

  lemma AnnouncementsAreNotSequenced(fr: Frame)
    requires Announces(fr)
    ensures SequencedOnly([fr]) == []
  {
    assert [fr][..0] == [];
  }

  lemma FinishSendsNoEvent(p: Fields, db: Db, completion: Option<nat>, at: int, cfg: Config, fault: Fault)
    ensures SequencedOnly(Finish(p, db, completion, at, cfg, fault).frames) == []
  {
    var s := Finish(p, db, completion, at, cfg, fault);
    if s.frames != [] { AnnouncementsAreNotSequenced(s.frames[0]); }
  }

  lemma AcceptBroadcasts(f: Fields, db: Db, g: Ledger, v: Verdict, id: CommandId, at: int, cfg: Config, fault: Fault)
    ensures
      var g' := AcceptLedger(f, g, v, id, at, cfg, fault);
      && g.h <= g'.h && SequencedOnly(Accept(f, db, v, id, at, cfg, fault).frames) == Shown(g'.h[|g.h|..])
  {
    hide Prepare, Finish, FinishLedger, Frames, Stamp, CompletionIn, Shown, SequencedOnly;
    var p, ss := Prepare(f, v, id, at, cfg), Stamp(v.events, at, at + cfg.ttl);
    FramesAreShown(v.events, at, at + cfg.ttl);
    FinishSendsNoEvent(p, db, CompletionIn(v.events), at, cfg, fault);
    SequencedAppend(Frames(v.events, at, at + cfg.ttl), Finish(p, db, CompletionIn(v.events), at, cfg, fault).frames);
    FinishKeepsHistory(p, Grown(g, ss), CompletionIn(v.events), cfg, fault);
    assert (g.h + ss)[|g.h|..] == ss;
  }

  lemma SubmitBroadcasts(f: Fields, db: Db, g: Ledger, conn: Connection, present: seq<Connection>, msg: Message,
                         at: int, cfg: Config, fault: Fault)
    ensures
      var g' := SubmitLedger(f, g, conn, present, msg, at, cfg, fault);
      && g.h <= g'.h
      && SequencedOnly(HandleMutation(f, db, conn, present, msg, at, cfg, fault).frames) == Shown(g'.h[|g.h|..])
  {
    hide Apply, AssembleElectorate, Accept, AcceptLedger;
    assert g.h[|g.h|..] == [];
    if Accepts(f, conn, present, msg, at, cfg) {
      AcceptBroadcasts(f, db, g, Apply(f.image.board, ToCommand(msg, conn.userId, present, at), cfg.solution),
                       msg.commandId, at, cfg, fault);
    }
  }

  lemma ExpiryBroadcasts(f: Fields, db: Db, g: Ledger, at: int, cfg: Config, fault: Fault)
    ensures
      var g' := ExpiryLedger(f, g, at, cfg, fault);
      && g.h <= g'.h && SequencedOnly(HandleExpiry(f, db, at, cfg, fault).frames) == Shown(g'.h[|g.h|..])
  {
    hide Emit, AfterMutationFlush;
    if f.image.board.checkVote.Some? {
      var v := Expire(f.image.board);
      var ss := Stamp(v.events, at, 0);
      FramesAreShown(v.events, at, 0);
      FlushShows(CancelVoteTimer(Emit(f.(image := f.image.(board := v.board)), v.events, at)), db, cfg.threshold,
                 fault);
      assert Frames(v.events, at, 0) + [] == Frames(v.events, at, 0);
      assert (g.h + ss)[|g.h|..] == ss;
    } else {
      assert g.h[|g.h|..] == [];
    }
  }

  lemma AbandonBroadcasts(f: Fields, db: Db, g: Ledger, who: UserId, at: int, fault: Fault)
    ensures
      var g' := AbandonLedger(f, g, at, fault);
      && g.h <= g'.h && SequencedOnly(DoAbandon(f, db, who, at, fault).frames) == Shown(g'.h[|g.h|..])
  {
    hide CloseForAbandon, ClosedLedger, AbandonFrames, FlushAbandoned, MarkedLedger, Shown, SequencedOnly;
    if f.image.board.status == Ongoing {
      var c := CloseForAbandon(f, at);
      var closed := ClosedLedger(f, g, at);
      ClosingBroadcasts(f, g, at);
      MarkIsNotShown(c, closed, at);
      var marked := MarkedLedger(c, closed, at);
      assert marked.h[|g.h|..] == closed.h[|g.h|..] + marked.h[|closed.h|..];
      ShownAppend(closed.h[|g.h|..], marked.h[|closed.h|..]);
      AbandonSendsNoEvent(MarkAbandoned(c, at), db, who, at, fault);
      SequencedAppend(AbandonFrames(f, at), FlushAbandoned(MarkAbandoned(c, at), db, who, at, fault).frames);
    } else {
      assert g.h[|g.h|..] == [];
      assert Shown([]) == SequencedOnly([]) by { NothingToSend(); }
    }
  }

  lemma NothingToSend()
    ensures Shown([]) == [] && SequencedOnly([]) == []
  {}

  lemma MarkIsNotShown(c: Fields, g: Ledger, at: int)
    ensures g.h <= MarkedLedger(c, g, at).h && Shown(MarkedLedger(c, g, at).h[|g.h|..]) == []
  {
    var mark := Stamp([GameAbandoned(c.image.board.seqNo + 1)], at, 0);
    assert mark[..0] == [];
    assert (g.h + mark)[|g.h|..] == mark;
  }

  lemma AbandonSendsNoEvent(m: Fields, db: Db, who: UserId, at: int, fault: Fault)
    ensures SequencedOnly(FlushAbandoned(m, db, who, at, fault).frames) == []
  {
    var frames := FlushAbandoned(m, db, who, at, fault).frames;
    if frames != [] { AnnouncementsAreNotSequenced(frames[0]); }
  }

  lemma ClosingBroadcasts(f: Fields, g: Ledger, at: int)
    ensures
      var h := ClosedLedger(f, g, at).h;
      && g.h <= h && SequencedOnly(AbandonFrames(f, at)) == AbandonFrames(f, at) == Shown(h[|g.h|..])
  {
    var open := f.image.board.checkVote;
    if open.Some? {
      var es := CloseFailed(f.image.board, open.value, Cancelled, Terminal).events;
      FramesAreShown(es, at, 0);
      assert (g.h + Stamp(es, at, 0))[|g.h|..] == Stamp(es, at, 0);
    } else {
      assert g.h[|g.h|..] == [];
    }
  }

  /**
   Every task and timer of an actor sends, apart from the announcement of an end, exactly the frames
   of the events it adds to the history, in order.
   */
  lemma StepBroadcastsWhatItRecords(grid: Grid, cfg: Config, w: World, s: Step, g: Ledger)
    requires w.live.Some? && !s.Crash? && !s.Arrive?
    ensures
      var w', g' := Next(grid, cfg, w, s), NextLedger(grid, cfg, w, g, s);
      && g.h <= g'.h && w.sent <= w'.sent
      && SequencedOnly(w'.sent[|w.sent|..]) == Shown(g'.h[|g.h|..])
  {
    hide HandleMutation, HandleExpiry, DoAbandon, SubmitLedger, ExpiryLedger, AbandonLedger;
    var f := w.live.value;
    assert g.h[|g.h|..] == [] && w.sent[|w.sent|..] == [];
    match s
    case Submit(conn, present, msg, at, fault) =>
      SubmitBroadcasts(f, w.db, g, conn, present, msg, at, cfg, fault);
      SentSince(w.sent, HandleMutation(f, w.db, conn, present, msg, at, cfg, fault).frames);
    case ExpiryTask(at, fault) =>
      ExpiryBroadcasts(f, w.db, g, at, cfg, fault);
      SentSince(w.sent, HandleExpiry(f, w.db, at, cfg, fault).frames);
    case FlushTask(fault) => SentSince(w.sent, DoFlush(f, w.db, fault).frames);
    case AbandonTask(who, at, fault) =>
      AbandonBroadcasts(f, w.db, g, who, at, fault);
      SentSince(w.sent, DoAbandon(f, w.db, who, at, fault).frames);
    case _ =>
  }

  lemma SentSince(sent: seq<Frame>, frames: seq<Frame>)
    ensures (sent + frames)[|sent|..] == frames
  {}

  // --- A board read while a flush is awaited ---

  /** A task changes its room only before it awaits a flush. */
  lemma RoomIsSettledBeforeTheFlush(p: Fields, db: Db, completion: Option<nat>, who: UserId, at: int, cfg: Config,
                                    fault: Fault)
    ensures Finish(p, db, completion, at, cfg, fault).fields.image.board == p.image.board
    ensures FlushAbandoned(p, db, who, at, fault).fields.image.board == p.image.board
    ensures DoFlush(p, db, fault).fields.image.board == p.image.board
  {}

  /**
   A client that synchronises while an accepted command's flush is awaited reads the board the task
   ends with, and what is sent after the await leaves it there.
   */
  lemma SyncDuringACommand(f: Fields, db: Db, c: Command, v: Verdict, at: int, cfg: Config, fault: Fault)
    requires !c.ExpireVote? && Shaped(f.image.board, c, v) && Explains(f.image.board, v.events, v.board)
    ensures
      var p, s := Prepare(f, v, c.commandId, at, cfg), Accept(f, db, v, c.commandId, at, cfg, fault);
      var before := Frames(v.events, at, at + cfg.ttl);
      && before <= s.frames && s.fields.image.board == p.image.board
      && Watch(p.image.board, s.frames[|before|..]) == p.image.board
  {
    hide Prepare, Frames, Finish, Shaped, Explains, CompletionIn, Watch;
    var p, completion := Prepare(f, v, c.commandId, at, cfg), CompletionIn(v.events);
    PreparedBoard(f, v, c.commandId, at, cfg);
    RoomIsSettledBeforeTheFlush(p, db, completion, "", at, cfg, fault);
    SentSince(Frames(v.events, at, at + cfg.ttl), Finish(p, db, completion, at, cfg, fault).frames);
    if completion.Some? { EndingVerdict(f.image.board, c, v); }
    FinishShowsNothingNew(p, db, completion, at, cfg, fault);
  }

  lemma FinishShowsNothingNew(p: Fields, db: Db, completion: Option<nat>, at: int, cfg: Config, fault: Fault)
    requires completion.Some? ==> p.image.board.status == Completed && completion == Some(p.image.board.seqNo)
    ensures Watch(p.image.board, Finish(p, db, completion, at, cfg, fault).frames) == p.image.board
  {
    var frames := Finish(p, db, completion, at, cfg, fault).frames;
    if completion.Some? {
      if frames != [] { WatchOne(p.image.board, frames[0]); }
    } else {
      FlushShows(p, db, cfg.threshold, fault);
    }
  }

  lemma SyncDuringAnAbandon(m: Fields, db: Db, who: UserId, at: int, fault: Fault)
    requires m.image.board.status == Abandoned
    ensures
      var s := FlushAbandoned(m, db, who, at, fault);
      s.fields.image.board == m.image.board && Watch(m.image.board, s.frames) == m.image.board
  {
    WatchOne(m.image.board, AbandonedFrame(m.image.board.seqNo, at, who));
  }

  /**
   So an end can be read before it is durable: while the ending step awaits its flush the board says
   the game is over and no stored row does, and if that flush rolls back none ever comes of the step.
   */
  lemma EndIsReadableBeforeItIsDurable(grid: Grid, cfg: Config, w: World, s: Step)
    requires Coherent(grid, cfg.solution, w) && EndsGame(grid, cfg, w, s)
    ensures !Over(w.db.row)
    ensures FaultOf(s).RolledBack? ==> Next(grid, cfg, w, s).db == w.db
  {
    hide Apply, AssembleElectorate, Prepare, Agrees;
    var g :| Explained(grid, cfg.solution, w, g);
    if Over(w.db.row) { TerminalRowIsMemory(grid, cfg.solution, w.live.value, w.db, g); }
  }

  /** What a step sends after its await: the announcement of an end, if there is one. */
  function SentAfterTheAwait(frames: seq<Frame>): seq<Frame> {
    if frames != [] && Announces(frames[|frames| - 1]) then [frames[|frames| - 1]] else []
  }

  lemma AnnouncedLast(frames: seq<Frame>)
    requires frames != [] && Announces(frames[|frames| - 1])
    ensures Announcements(frames) > 0
  {}

  /** An announcement shows the board it announces nothing new. */
  lemma TheEndShowsNothingNew(grid: Grid, cfg: Config, w: World, s: Step)
    requires Coherent(grid, cfg.solution, w) && Sober(w) && w.live.Some? && !s.Crash? && !s.Arrive?
    ensures
      var w' := Next(grid, cfg, w, s);
      && w'.live.Some? && w.sent <= w'.sent
      && (var b := w'.live.value.image.board; Watch(b, SentAfterTheAwait(w'.sent[|w.sent|..])) == b)
  {
    hide Next, NextLedger, Announcements, Agrees;
    var w' := Next(grid, cfg, w, s);
    var g :| Explained(grid, cfg.solution, w, g);
    NextShows(grid, cfg, w, s);
    NextTells(grid, cfg, w, s, g);
    NextIsSober(grid, cfg, w, s);
    var frames := w'.sent[|w.sent|..];
    assert w'.sent == w.sent + frames;
    AnnouncementsAppend(w.sent, frames);
    if frames != [] && Announces(frames[|frames| - 1]) {
      AnnouncedLast(frames);
      assert Backed(w'.db.row, w'.sent[|w'.sent| - 1]);
      TerminalRowIsMemory(grid, cfg.solution, w'.live.value, w'.db, NextLedger(grid, cfg, w, g, s));
      RowIsMemory(grid, cfg.solution, w'.live.value, w'.db, NextLedger(grid, cfg, w, g, s));
      WatchOne(w'.live.value.image.board, frames[|frames| - 1]);
    } else {
      NothingShown(w'.live.value.image.board);
    }
  }

  lemma RowIsMemory(grid: Grid, sol: Solution, f: Fields, db: Db, g: Ledger)
    requires Agrees(grid, sol, f, db, g) && db.row.Some? && g.k == |g.h|
    ensures f.image.board.status == db.row.value.status && f.image.board.seqNo == db.row.value.lastSeq
  {
    assert g.h[..g.k] == g.h;
  }

  /**
   So a client that synchronises while any task awaits its flush keeps up as well: from the board it
   read, the frames sent from then on give the actor's board, or one unannounced end less.
   */
  lemma SyncedWatchersKeepUp(grid: Grid, cfg: Config, before: seq<Step>, s: Step, steps: seq<Step>)
    requires PuzzleOk(grid, cfg.solution) && !s.Crash? && !s.Arrive? && SameActor(steps)
    requires After(grid, cfg, Start(), before).live.Some?
    ensures
      var w, read := After(grid, cfg, Start(), before), After(grid, cfg, Start(), before + [s]);
      var now := After(grid, cfg, Start(), before + [s] + steps);
      && read.live.Some? && now.live.Some? && w.sent <= read.sent <= now.sent
      && Seen(Watch(read.live.value.image.board, SentAfterTheAwait(read.sent[|w.sent|..]) + now.sent[|read.sent|..]),
              now.live.value.image.board)
  {
    hide Next, Watch, Seen, SentAfterTheAwait, Sober;
    var w := After(grid, cfg, Start(), before);
    assert (before + [s])[..|before|] == before;
    EveryRunIsCoherent(grid, cfg, before);
    TerminalIsAnnouncedOnce(grid, cfg, before);
    TheEndShowsNothingNew(grid, cfg, w, s);
    var read := After(grid, cfg, Start(), before + [s]);
    WatchersKeepUp(grid, cfg, before + [s], steps);
    var now := After(grid, cfg, Start(), before + [s] + steps);
    WatchAppend(read.live.value.image.board, SentAfterTheAwait(read.sent[|w.sent|..]), now.sent[|read.sent|..]);
  }
}
