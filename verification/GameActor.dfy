/**
 The actor as the object the session keeps: its fields, updated in place by the tasks its
 mailbox runs one at a time. Each task is proved equal to its specification in Actor.
 */
module GameActors {
  import opened Basics
  import opened Engine
  import opened RoomLaws
  import opened Journal
  import opened Store
  import opened Snapshots
  import opened Actor

  class GameActor {
    const store: GameStore
    const cfg: Config
    const grid: Grid

    var state: Board
    var completedAt: Option<int>
    var abandonedAt: Option<int>
    var stats: Option<Stats>
    var recentCommandIds: seq<CommandId>
    var connections: seq<Connection>
    var pending: seq<CellRow>
    var pendingChecks: seq<CheckRow>
    var pendingVoteEvents: seq<VoteRow>
    var flushTimer: bool
    var voteExpiresAt: Option<int>
    var voteTimer: bool
    var outbox: seq<Frame>

    function ImageNow(): Image
      reads this
    {
      Image(state, completedAt, abandonedAt, voteExpiresAt, recentCommandIds)
    }

    function Value(): Fields
      reads this
    {
      Fields(ImageNow(), stats, pending, pendingChecks, pendingVoteEvents, flushTimer, voteTimer)
    }

    /** Hydration, including the close of a vote whose deadline passed while nobody was here. */
    constructor (store: GameStore, grid: Grid, cfg: Config, now: int)
      ensures this.store == store && this.cfg == cfg && this.grid == grid
      ensures Value() == Hydrate(grid, store.row, now)
      ensures outbox == [] && connections == []
    {
      this.store, this.grid, this.cfg := store, grid, cfg;
      var m := HydrateGame(grid, store.row);
      state, completedAt, abandonedAt := m.board, m.completedAt, m.abandonedAt;
      recentCommandIds, voteExpiresAt := m.recent, m.expiresAt;
      stats := if store.row.None? then None else store.row.value.stats;
      pending, pendingChecks, pendingVoteEvents := [], [], [];
      flushTimer, voteTimer := false, false;
      connections, outbox := [], [];
      new;
      ReconcileHydratedVote(now);
    }

    method ReconcileHydratedVote(now: int)
      modifies this
      ensures connections == old(connections) && outbox == old(outbox)
      ensures
        var f := old(Value());
        Value() ==
          if f.image.board.checkVote.None? then f
          else if f.image.expiresAt.Some? && f.image.expiresAt.value > now then f.(voteTimer := true)
          else Emit(f.(image := f.image.(board := Expire(f.image.board).board, expiresAt := None)),
                    Expire(f.image.board).events, now)
    {
      if state.checkVote.None? { return; }
      if voteExpiresAt.Some? && voteExpiresAt.value > now {
        voteTimer := true;
        return;
      }
      var v := Expire(state);
      state := v.board;
      voteExpiresAt := None;
      BufferEvents(v.events, now);
    }

    /** Buffering alone: each event goes to its own log's buffer. */
    method BufferEvents(events: seq<Event>, at: int)
      modifies this`pending, this`pendingChecks, this`pendingVoteEvents
      ensures Value() == Emit(old(Value()), events, at)
    {
      for i := 0 to |events|
        invariant Value() == Emit(old(Value()), events[..i], at)
      {
        assert events[..i + 1][..i] == events[..i];
        BufferEvent(events[i], at);
      }
      assert events[..|events|] == events;
    }

    method BufferEvent(event: Event, at: int)
      modifies this`pending, this`pendingChecks, this`pendingVoteEvents
      ensures Value() == Buffer(old(Value()), event, at)
    {
      match event {
        case CellSet(_, _, _, _, _, _) =>
          pending := pending + [CellRowOf(event)];
        case PuzzleChecked(_, _, _, _, _) =>
          pendingChecks := pendingChecks + [CheckRowOf(event, at)];
        case GameCompleted(_) =>
        case GameAbandoned(_) =>
        case _ =>
          pendingVoteEvents := pendingVoteEvents + [VoteRowOf(event, at)];
      }
    }

    /** Buffer and broadcast one event; a terminal event does neither. */
    method EmitEvent(event: Event, at: int, deadline: int)
      modifies this`pending, this`pendingChecks, this`pendingVoteEvents, this`outbox
      ensures Value() == Buffer(old(Value()), event, at)
      ensures outbox == old(outbox) + FramesOf(event, at, deadline)
    {
      BufferEvent(event, at);
      if !IsTerminal(event) {
        outbox := outbox + [SequencedFrame(event, at, deadline)];
      }
    }

    /** Broadcast and buffer in engine order; a terminal event's number is only returned. */
    method EmitVoteEvents(events: seq<Event>, at: int, deadline: int) returns (completion: Option<nat>)
      modifies this`pending, this`pendingChecks, this`pendingVoteEvents, this`outbox
      ensures Value() == Emit(old(Value()), events, at)
      ensures outbox == old(outbox) + Actor.Frames(events, at, deadline)
      ensures completion == CompletionIn(events)
    {
      completion := None;
      for i := 0 to |events|
        invariant Value() == Emit(old(Value()), events[..i], at)
        invariant outbox == old(outbox) + Actor.Frames(events[..i], at, deadline)
        invariant completion == CompletionIn(events[..i])
      {
        assert events[..i + 1][..i] == events[..i];
        EmitEvent(events[i], at, deadline);
        if events[i].GameCompleted? { completion := Some(events[i].seqNo); }
      }
      assert events[..|events|] == events;
    }

    method RecordCommandId(id: CommandId)
      modifies this`recentCommandIds
      ensures recentCommandIds == Remember(old(recentCommandIds), id)
    {
      recentCommandIds := recentCommandIds + [id];
      if |recentCommandIds| > RECENT_COMMAND_LIMIT {
        recentCommandIds := recentCommandIds[|recentCommandIds| - RECENT_COMMAND_LIMIT..];
      }
    }

    method CancelVoteTimer()
      modifies this`voteTimer, this`voteExpiresAt
      ensures Value() == Actor.CancelVoteTimer(old(Value()))
    {
      voteTimer := false;
      voteExpiresAt := None;
    }

    method ReconcileVoteTimer(events: seq<Event>, deadline: int)
      modifies this`voteTimer, this`voteExpiresAt
      ensures Value() == Actor.ReconcileVoteTimer(old(Value()), events, deadline)
    {
      if state.checkVote.None? {
        CancelVoteTimer();
      } else if exists i :: 0 <= i < |events| && events[i].VoteOpened? {
        CancelVoteTimer();
        voteExpiresAt := Some(deadline);
        voteTimer := true;
      }
    }

    /** The buffer and the current snapshot, in one transaction; the fields stay as they are. */
    method FlushSnapshot(fault: Fault) returns (ok: bool)
      modifies store
      ensures
        var r := Flush(old(store.Value()), Value().Pending(), Print(ImageNow(), stats), fault);
        store.Value() == r.db && ok == r.ok
    {
      ok := store.FlushToPostgres(Batch(pending, pendingChecks, pendingVoteEvents), Print(ImageNow(), stats), fault);
    }

    method Announce(frame: Frame)
      modifies this
      ensures connections == old(connections)
      ensures Value() == old(Value()).Emptied().(flushTimer := false)
      ensures outbox == old(outbox) + [frame]
    {
      pending, pendingChecks, pendingVoteEvents := [], [], [];
      flushTimer := false;
      outbox := outbox + [frame];
    }

    method DoFlush(fault: Fault) returns (ok: bool)
      modifies this, store
      ensures connections == old(connections)
      ensures
        var s := Actor.DoFlush(old(Value()), old(store.Value()), fault);
        Value() == s.fields && store.Value() == s.db && ok == s.ok && outbox == old(outbox)
    {
      flushTimer := false;
      if Value().PendingCount() == 0 { return true; }
      ok := FlushSnapshot(fault);
      if ok {
        pending, pendingChecks, pendingVoteEvents := [], [], [];
      }
    }

    method AfterMutationFlush(fault: Fault) returns (ok: bool)
      modifies this, store
      ensures connections == old(connections)
      ensures
        var s := Actor.AfterMutationFlush(old(Value()), old(store.Value()), cfg.threshold, fault);
        Value() == s.fields && store.Value() == s.db && ok == s.ok && outbox == old(outbox)
    {
      if Value().PendingCount() >= cfg.threshold {
        ok := DoFlush(fault);
        return;
      }
      if Value().PendingCount() > 0 && !flushTimer {
        flushTimer := true;
      }
      ok := true;
    }

    method FlushCompletion(terminalSeq: nat, at: int, fault: Fault) returns (ok: bool)
      modifies store
      ensures
        var r := FlushTerminal(old(store.Value()), Value().Pending(),
                               CompletionSnapshot(ImageNow(), terminalSeq, at), fault);
        store.Value() == r.db && ok == r.ok
    {
      ok := store.FlushTerminalToPostgres(Value().Pending(), CompletionSnapshot(ImageNow(), terminalSeq, at), fault);
    }

    method CompleteGame(terminalSeq: nat, at: int, fault: Fault) returns (ok: bool)
      modifies this, store
      ensures connections == old(connections)
      ensures
        var s := Actor.CompleteGame(old(Value()), old(store.Value()), terminalSeq, at, fault);
        Value() == s.fields && store.Value() == s.db && ok == s.ok && outbox == old(outbox) + s.frames
    {
      completedAt := Some(at);
      var m, after := ImageNow(), Appended(store.Value(), Value().Pending());
      ok := FlushCompletion(terminalSeq, at, fault);
      if ok {
        var frozen := StatsOf(m, terminalSeq, at, Participants(after.cellLog), EventTimes(after.cellLog));
        AnnounceCompletion(terminalSeq, at, frozen);
      }
    }

    method AnnounceCompletion(terminalSeq: nat, at: int, frozen: Stats)
      modifies this
      ensures connections == old(connections)
      ensures Value() == old(Value()).Emptied().(stats := Some(frozen), flushTimer := false)
      ensures outbox == old(outbox) + [CompletedFrame(terminalSeq, at, frozen)]
    {
      stats := Some(frozen);
      Announce(CompletedFrame(terminalSeq, at, frozen));
    }

    method FinishCommand(completion: Option<nat>, at: int, fault: Fault) returns (ok: bool)
      modifies this, store
      ensures connections == old(connections)
      ensures
        var s := Finish(old(Value()), old(store.Value()), completion, at, cfg, fault);
        Value() == s.fields && store.Value() == s.db && ok == s.ok && outbox == old(outbox) + s.frames
    {
      if completion.Some? {
        ok := CompleteGame(completion.value, at, fault);
      } else {
        ok := AfterMutationFlush(fault);
      }
    }

    method PrepareCommand(result: Verdict, id: CommandId, at: int) returns (completion: Option<nat>)
      modifies this
      ensures connections == old(connections)
      ensures Value() == Prepare(old(Value()), result, id, at, cfg)
      ensures outbox == old(outbox) + Actor.Frames(result.events, at, at + cfg.ttl)
      ensures completion == CompletionIn(result.events)
    {
      hide Emit, Actor.Frames, CompletionIn, Remember;
      state := result.board;
      RecordCommandId(id);
      completion := EmitVoteEvents(result.events, at, at + cfg.ttl);
      ReconcileVoteTimer(result.events, at + cfg.ttl);
    }

    method AcceptVerdict(result: Verdict, id: CommandId, at: int, fault: Fault) returns (ok: bool)
      modifies this, store
      ensures connections == old(connections)
      ensures
        var s := Accept(old(Value()), old(store.Value()), result, id, at, cfg, fault);
        && Value() == s.fields && store.Value() == s.db
        && ok == s.ok && outbox == old(outbox) + s.frames
    {
      ghost var begun, sent := outbox, Actor.Frames(result.events, at, at + cfg.ttl);
      var completion := PrepareCommand(result, id, at);
      ghost var t := Finish(Value(), store.Value(), completion, at, cfg, fault);
      ok := FinishCommand(completion, at, fault);
      Regroup(begun, sent, t.frames);
    }

    method HandleMutation(conn: Connection, msg: Message, at: int, fault: Fault) returns (reply: Reply, ok: bool)
      modifies this, store
      ensures connections == old(connections)
      ensures
        var s := Actor.HandleMutation(old(Value()), old(store.Value()), conn, old(connections), msg, at, cfg, fault);
        && Value() == s.fields && store.Value() == s.db
        && reply == s.reply && ok == s.ok && outbox == old(outbox) + s.frames
    {
      hide Apply, AssembleElectorate, Prepare, StatsOf;
      if conn.role == Spectator { return RoleForbidden, true; }
      if msg.commandId in recentCommandIds { return Silence, true; }
      var command := ToCommand(msg, conn.userId, connections, at);
      var result := Apply(state, command, cfg.solution);
      if result.error.Some? { return Refused(result.error.value), true; }
      ok := AcceptVerdict(result, msg.commandId, at, fault);
      return Silence, ok;
    }

    method HandleExpiry(at: int, fault: Fault) returns (ok: bool)
      modifies this, store
      ensures connections == old(connections)
      ensures
        var s := Actor.HandleExpiry(old(Value()), old(store.Value()), at, cfg, fault);
        Value() == s.fields && store.Value() == s.db && ok == s.ok && outbox == old(outbox) + s.frames
    {
      var result := Expire(state);
      if result.events == [] {
        CancelVoteTimer();
        return true;
      }
      state := result.board;
      var _ := EmitVoteEvents(result.events, at, 0);
      CancelVoteTimer();
      ok := AfterMutationFlush(fault);
    }

    method CloseVoteForAbandon(at: int)
      modifies this
      ensures connections == old(connections)
      ensures Value() == CloseForAbandon(old(Value()), at)
      ensures outbox == old(outbox) + AbandonFrames(old(Value()), at)
    {
      var vote := state.checkVote;
      if vote.Some? {
        var closed := CloseFailed(state, vote.value, Cancelled, Terminal);
        state := state.(seqNo := state.seqNo + 1, checkVote := None);
        var _ := EmitVoteEvents(closed.events, at, 0);
        CancelVoteTimer();
      }
    }

    method DoAbandon(who: UserId, at: int, fault: Fault) returns (ok: bool)
      modifies this, store
      ensures connections == old(connections)
      ensures
        var s := Actor.DoAbandon(old(Value()), old(store.Value()), who, at, fault);
        Value() == s.fields && store.Value() == s.db && ok == s.ok && outbox == old(outbox) + s.frames
    {
      if state.status != Ongoing { return true; }
      ghost var f := Value();
      CloseVoteForAbandon(at);
      state := state.(status := Abandoned, seqNo := state.seqNo + 1);
      abandonedAt := Some(at);
      assert Value() == MarkAbandoned(CloseForAbandon(f, at), at);
      ok := FlushSnapshot(fault);
      if ok {
        Announce(AbandonedFrame(state.seqNo, at, who));
      }
    }
  }
}
