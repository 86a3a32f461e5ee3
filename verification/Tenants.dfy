/**
 The registry over whole runs, told by the moves made: how many sockets an actor holds, since when it
 has held none, whom a sweep picks out, and which actors are gone.
 */
module Tenants {
  import opened Basics
  import opened Registry

  // --- Sockets ---

  predicate Known(h: House, id: int) { 0 <= id < |h.entries| }

  /** The m-th move joined a socket to an actor that had not been evicted. */
  predicate JoinsAt(moves: seq<Move>, m: int, id: nat) {
    && 0 <= m < |moves| && moves[m] == Joined(id)
    && var h := Walk(moves[..m]); Known(h, id) && h.entries[id].fate == Alive && !h.entries[id].evicted
  }

  /** The m-th move took away one of its sockets. */
  predicate LeavesAt(moves: seq<Move>, m: int, id: nat) {
    && 0 <= m < |moves| && moves[m].Left? && moves[m].id == id
    && var h := Walk(moves[..m]); Known(h, id) && h.entries[id].sockets > 0
  }

  ghost function Joins(moves: seq<Move>, id: nat): set<int> {
    set m | 0 <= m < |moves| && JoinsAt(moves, m, id)
  }

  ghost function Leaves(moves: seq<Move>, id: nat): set<int> {
    set m | 0 <= m < |moves| && LeavesAt(moves, m, id)
  }

  lemma PrefixWalk(moves: seq<Move>, m: int)
    requires 0 <= m < |moves|
    ensures moves[..|moves| - 1][..m] == moves[..m]
  {}

  lemma MembersOneMore(moves: seq<Move>, id: nat)
    requires moves != []
    ensures
      var n := |moves| - 1;
      && Joins(moves, id) == Joins(moves[..n], id) + (if JoinsAt(moves, n, id) then {n} else {})
      && Leaves(moves, id) == Leaves(moves[..n], id) + (if LeavesAt(moves, n, id) then {n} else {})
  {
    hide Walk;
    var n := |moves| - 1;
    forall m | 0 <= m < n
      ensures JoinsAt(moves, m, id) <==> JoinsAt(moves[..n], m, id)
      ensures LeavesAt(moves, m, id) <==> LeavesAt(moves[..n], m, id)
    {
      PrefixWalk(moves, m);
    }
  }

  lemma SocketsStep(h: House, m: Move, id: nat)
    requires Known(h, id)
    ensures Known(Step(h, m), id)
    ensures
      var e := h.entries[id];
      Step(h, m).entries[id].sockets ==
        if m == Joined(id) && e.fate == Alive && !e.evicted then e.sockets + 1
        else if m.Left? && m.id == id && e.sockets > 0 then e.sockets - 1
        else e.sockets
  {}

  lemma NewcomerHoldsNothing(h: House, m: Move, id: nat)
    requires !Known(h, id) && Known(Step(h, m), id)
    ensures Step(h, m).entries[id].sockets == 0 && Step(h, m).entries[id].fate == Hydrating
    ensures !Step(h, m).entries[id].evicted && !Step(h, m).entries[id].dropped
  {}

  /** An entry holds as many sockets as have joined it and not left it again. */
  lemma {:induction false} SocketsAreCounted(moves: seq<Move>, id: nat)
    ensures |Leaves(moves, id)| <= |Joins(moves, id)|
    ensures
      if Known(Walk(moves), id) then Walk(moves).entries[id].sockets == |Joins(moves, id)| - |Leaves(moves, id)|
      else Joins(moves, id) == {} && Leaves(moves, id) == {}
  {
    hide Step, Joins, Leaves;
    if moves == [] {
      NothingYet(id);
    } else {
      var n := |moves| - 1;
      var front, h := moves[..n], Walk(moves[..n]);
      SocketsAreCounted(front, id);
      MembersOneMore(moves, id);
      MovesAreMembers(front, id);
      if Known(h, id) {
        SocketsStep(h, moves[n], id);
      } else if Known(Walk(moves), id) {
        NewcomerHoldsNothing(h, moves[n], id);
      }
    }
  }

  lemma MovesAreMembers(moves: seq<Move>, id: nat)
    ensures |moves| !in Joins(moves, id) && |moves| !in Leaves(moves, id)
  {}

  lemma NothingYet(id: nat)
    ensures Joins([], id) == {} && Leaves([], id) == {}
  {}

  // --- Idle since when ---

  /** The m-th move left the actor without a socket at that time: its hydration, or its last departure. */
  predicate FreesAt(moves: seq<Move>, m: int, id: nat, t: int) {
    && 0 <= m < |moves|
    && var h := Walk(moves[..m]);
    && Known(h, id)
    && ((moves[m] == Resolved(id, true, t) && h.entries[id].fate == Hydrating)
        || (moves[m] == Left(id, t) && h.entries[id].sockets == 1))
  }

  predicate HoldsNothing(moves: seq<Move>, k: int, id: nat) {
    0 <= k <= |moves| && Known(Walk(moves[..k]), id) && Walk(moves[..k]).entries[id].sockets == 0
  }

  /** The idle clock shows that time, which a move set, and no socket has been held since. */
  ghost predicate IdleFrom(moves: seq<Move>, id: nat, t: int) {
    exists m :: FreesAt(moves, m, id, t) && forall k :: m < k <= |moves| ==> HoldsNothing(moves, k, id)
  }

  lemma IdleStep(h: House, m: Move, id: nat)
    requires Known(h, id)
    ensures
      var e, e' := h.entries[id], Step(h, m).entries[id];
      && (e'.fate == Alive && e'.sockets == 0 ==>
            || (e.fate == Alive && e.sockets == 0 && e'.idleSince == e.idleSince)
            || (m == Resolved(id, true, e'.idleSince) && e.fate == Hydrating)
            || (m == Left(id, e'.idleSince) && e.sockets == 1))
  {}

  lemma IdleOneMore(moves: seq<Move>, id: nat, t: int)
    requires moves != [] && IdleFrom(moves[..|moves| - 1], id, t) && HoldsNothing(moves, |moves|, id)
    ensures IdleFrom(moves, id, t)
  {
    hide Walk;
    var n, front := |moves| - 1, moves[..|moves| - 1];
    var m :| FreesAt(front, m, id, t) && forall k :: m < k <= |front| ==> HoldsNothing(front, k, id);
    PrefixWalk(moves, m);
    assert FreesAt(moves, m, id, t);
    forall k | m < k <= |moves| ensures HoldsNothing(moves, k, id) {
      if k <= n { assert front[..k] == moves[..k] && HoldsNothing(front, k, id); }
    }
  }

  /** An actor without a socket has been idle since its clock says: the last left then, or it was hydrated then. */
  lemma {:induction false} IdleClockTells(moves: seq<Move>, id: nat)
    requires Known(Walk(moves), id)
    ensures
      var e := Walk(moves).entries[id];
      e.fate == Alive && e.sockets == 0 ==> IdleFrom(moves, id, e.idleSince)
  {
    hide Step, IdleFrom;
    if moves != [] {
      var n := |moves| - 1;
      var h := Walk(moves[..n]);
      var e := Walk(moves).entries[id];
      assert moves[..|moves|] == moves;
      if e.fate == Alive && e.sockets == 0 {
        if Known(h, id) {
          IdleClockTells(moves[..n], id);
          IdleStep(h, moves[n], id);
          if h.entries[id].fate == Alive && h.entries[id].sockets == 0 && e.idleSince == h.entries[id].idleSince {
            IdleOneMore(moves, id, e.idleSince);
          } else {
            FreedNow(moves, id, e.idleSince);
          }
        } else {
          NewcomerHoldsNothing(h, moves[n], id);
        }
      }
    }
  }

  lemma FreedNow(moves: seq<Move>, id: nat, t: int)
    requires moves != [] && FreesAt(moves, |moves| - 1, id, t) && HoldsNothing(moves, |moves|, id)
    ensures IdleFrom(moves, id, t)
  {}

  // --- Whom a sweep picks, and who is gone ---

  predicate InCache(h: House, id: nat) {
    Known(h, id) && h.entries[id].game in h.actors && h.actors[h.entries[id].game] == id
  }

  /** An actor still in the cache, with no socket, idle for the window. */
  predicate Evictable(h: House, id: nat, now: int, window: int) {
    && InCache(h, id) && h.entries[id].fate == Alive && h.entries[id].sockets == 0
    && now - h.entries[id].idleSince >= window
  }

  /** The m-th move, a sweep's, picked this entry out to drain it. */
  predicate PicksAt(moves: seq<Move>, m: int, id: nat) {
    && 0 <= m < |moves| && moves[m].SweepOn?
    && Evictable(Walk(moves[..m]), id, moves[m].now, moves[m].window)
  }

  /** The m-th move ended this entry's drain well, with no socket on it and the entry still in the cache. */
  predicate EvictsAt(moves: seq<Move>, m: int, id: nat) {
    && 0 <= m < |moves| && moves[m] == Drained(true)
    && var h := Walk(moves[..m]);
    && h.sweep.Some? && h.sweep.value.draining == Some(id) && InCache(h, id) && h.entries[id].sockets == 0
  }

  predicate MissesAt(moves: seq<Move>, m: int, id: nat) {
    && 0 <= m < |moves| && moves[m] == MissHandled(id)
    && Known(Walk(moves[..m]), id) && Walk(moves[..m]).entries[id].fate == Missing
  }

  lemma GoneStep(h: House, m: Move, id: nat)
    requires Known(h, id)
    ensures
      var e, e' := h.entries[id], Step(h, m).entries[id];
      && e'.evicted ==
           (e.evicted || (m == Drained(true) && h.sweep.Some? && h.sweep.value.draining == Some(id) && InCache(h, id)
                          && e.sockets == 0))
      && e'.dropped == (e.dropped || (m == MissHandled(id) && e.fate == Missing))
  {}

  lemma DrainingStep(h: House, m: Move, id: nat)
    ensures
      var next := Step(h, m);
      next.sweep.Some? && next.sweep.value.draining == Some(id) ==>
        || (h.sweep.Some? && h.sweep.value.draining == Some(id))
        || (m.SweepOn? && Evictable(h, id, m.now, m.window))
  {}

  /** An entry is being drained because a sweep picked it out as idle. */
  lemma {:induction false} DrainedWasPicked(moves: seq<Move>, id: nat)
    requires Walk(moves).sweep.Some? && Walk(moves).sweep.value.draining == Some(id)
    ensures exists m :: PicksAt(moves, m, id)
  {
    hide Step, Evictable;
    if moves != [] {
      var n := |moves| - 1;
      DrainingStep(Walk(moves[..n]), moves[n], id);
      if Walk(moves[..n]).sweep.Some? && Walk(moves[..n]).sweep.value.draining == Some(id) {
        DrainedWasPicked(moves[..n], id);
        var m :| PicksAt(moves[..n], m, id);
        PrefixWalk(moves, m);
        assert PicksAt(moves, m, id);
      } else {
        assert PicksAt(moves, n, id);
      }
    }
  }

  lemma GoneSplits(moves: seq<Move>, id: nat)
    requires moves != []
    ensures
      var n := |moves| - 1;
      && ((exists m :: EvictsAt(moves, m, id)) <==>
            (exists m :: EvictsAt(moves[..n], m, id)) || EvictsAt(moves, n, id))
      && ((exists m :: MissesAt(moves, m, id)) <==>
            (exists m :: MissesAt(moves[..n], m, id)) || MissesAt(moves, n, id))
  {
    hide Walk;
    var n, front := |moves| - 1, moves[..|moves| - 1];
    forall m | 0 <= m < n
      ensures EvictsAt(moves, m, id) <==> EvictsAt(front, m, id)
      ensures MissesAt(moves, m, id) <==> MissesAt(front, m, id)
    {
      PrefixWalk(moves, m);
    }
    if m :| EvictsAt(front, m, id) { assert EvictsAt(moves, m, id); }
    if m :| MissesAt(front, m, id) { assert MissesAt(moves, m, id); }
    if m :| EvictsAt(moves, m, id) { assert m < n ==> EvictsAt(front, m, id); }
    if m :| MissesAt(moves, m, id) { assert m < n ==> MissesAt(front, m, id); }
  }

  lemma {:induction false} EntriesStay(moves: seq<Move>, m: int)
    requires 0 <= m <= |moves|
    ensures |Walk(moves[..m]).entries| <= |Walk(moves).entries|
  {
    hide Step;
    if m < |moves| {
      EntriesStay(moves[..|moves| - 1], m);
      PrefixWalk(moves, m);
      EntriesStayOnce(Walk(moves[..|moves| - 1]), moves[|moves| - 1]);
    } else {
      assert moves[..m] == moves;
    }
  }

  lemma EntriesStayOnce(h: House, m: Move)
    ensures |h.entries| <= |Step(h, m).entries|
  {}

  lemma NeverKnown(moves: seq<Move>, id: nat)
    requires moves != [] && !Known(Walk(moves[..|moves| - 1]), id)
    ensures forall m :: !EvictsAt(moves, m, id) && !MissesAt(moves, m, id)
  {
    hide Walk;
    forall m ensures !EvictsAt(moves, m, id) && !MissesAt(moves, m, id) {
      if 0 <= m < |moves| {
        EntriesStay(moves[..|moves| - 1], m);
        assert moves[..|moves| - 1][..m] == moves[..m];
      }
    }
  }

  /** Exactly the entries drained well while idle and cached are evicted, and exactly the missed ones dropped. */
  lemma {:induction false} GoneIsExact(moves: seq<Move>, id: nat)
    requires Known(Walk(moves), id)
    ensures Walk(moves).entries[id].evicted <==> exists m :: EvictsAt(moves, m, id)
    ensures Walk(moves).entries[id].dropped <==> exists m :: MissesAt(moves, m, id)
  {
    hide Step;
    if moves != [] {
      var n := |moves| - 1;
      var front, h := moves[..n], Walk(moves[..n]);
      if Known(h, id) {
        GoneIsExact(front, id);
        GoneStep(h, moves[n], id);
        GoneSplits(moves, id);
      } else {
        NewcomerHoldsNothing(h, moves[n], id);
        NeverKnown(moves, id);
      }
    }
  }

  /** Whoever is evicted had been picked out, after idling for the sweep's window, before its drain ended. */
  lemma EvictedHadIdled(moves: seq<Move>, id: nat)
    requires Known(Walk(moves), id) && Walk(moves).entries[id].evicted
    ensures exists p, q :: p < q && PicksAt(moves, p, id) && EvictsAt(moves, q, id)
  {
    hide Walk;
    GoneIsExact(moves, id);
    var q :| EvictsAt(moves, q, id);
    DrainedWasPicked(moves[..q], id);
    var p :| PicksAt(moves[..q], p, id);
    assert moves[..q][..p] == moves[..p];
    assert PicksAt(moves, p, id);
  }

  // --- The sweep ---

  /** The m-th move began a sweep over everything in the cache, each entry once. */
  ghost predicate BeginsAt(moves: seq<Move>, m: int, order: seq<nat>) {
    && 0 <= m < |moves| && moves[m] == SweepTick(order)
    && var h := Walk(moves[..m]);
    && h.sweep.None? && |order| == |h.actors|
    && (forall id :: id in order <==> exists game :: game in h.actors && h.actors[game] == id)
  }

  ghost predicate Swept(moves: seq<Move>, todo: seq<nat>) {
    exists m, order, done :: BeginsAt(moves, m, order) && 0 <= done <= |order| && todo == order[done..]
  }

  lemma TodoStep(h: House, m: Move)
    ensures
      var next := Step(h, m);
      next.sweep.Some? ==>
        if h.sweep.None? then m == SweepTick(next.sweep.value.todo) && IsSnapshot(next.sweep.value.todo, h.actors)
        else
          || next.sweep.value.todo == h.sweep.value.todo
          || (h.sweep.value.todo != [] && next.sweep.value.todo == h.sweep.value.todo[1..])
  {}

  lemma SweptOn(moves: seq<Move>, todo: seq<nat>, rest: seq<nat>)
    requires moves != [] && Swept(moves[..|moves| - 1], todo)
    requires rest == todo || (todo != [] && rest == todo[1..])
    ensures Swept(moves, rest)
  {
    hide Walk;
    var front := moves[..|moves| - 1];
    var m, order, done :| BeginsAt(front, m, order) && 0 <= done <= |order| && todo == order[done..];
    PrefixWalk(moves, m);
    assert BeginsAt(moves, m, order);
    if rest != todo { assert rest == order[done + 1..]; }
  }

  lemma SnapshotHolds(order: seq<nat>, actors: map<GameId, nat>)
    requires IsSnapshot(order, actors)
    ensures |order| == |actors|
    ensures forall id :: id in order <==> exists game :: game in actors && actors[game] == id
  {
    var listed := set id | id in order;
    forall id ensures id in order <==> exists game :: game in actors && actors[game] == id {
      assert id in order <==> id in listed;
      assert id in listed <==> id in actors.Values;
    }
  }

  /** What a sweep still has to look at is the rest of the snapshot it began with. */
  lemma {:induction false} SweepGoesThroughItsSnapshot(moves: seq<Move>)
    requires Walk(moves).sweep.Some?
    ensures Swept(moves, Walk(moves).sweep.value.todo)
  {
    hide Step, IsSnapshot, Swept;
    if moves != [] {
      var n := |moves| - 1;
      var h, next := Walk(moves[..n]), Walk(moves);
      TodoStep(h, moves[n]);
      if h.sweep.Some? {
        SweepGoesThroughItsSnapshot(moves[..n]);
        SweptOn(moves, h.sweep.value.todo, next.sweep.value.todo);
      } else {
        SnapshotHolds(next.sweep.value.todo, h.actors);
        SweptFromHere(moves, next.sweep.value.todo);
      }
    }
  }

  lemma SweptFromHere(moves: seq<Move>, order: seq<nat>)
    requires moves != [] && BeginsAt(moves, |moves| - 1, order)
    ensures Swept(moves, order)
  {
    hide Walk;
    assert order == order[0..];
  }

  /**
   The next entry of the snapshot, once its hydration has resolved, is picked out exactly when it is
   evictable, and passed over otherwise; and the drain's end lets the sweep go on.
   */
  lemma SweepPicksExactlyTheIdle(moves: seq<Move>, now: int, window: int)
    requires Walk(moves).sweep.Some? && Walk(moves).sweep.value.draining.None?
    ensures
      var h, next := Walk(moves), Walk(moves + [SweepOn(now, window)]);
      var todo := h.sweep.value.todo;
      && next.entries == h.entries && next.actors == h.actors
      && (todo == [] ==> next.sweep.None?)
      && (todo != [] && Known(h, todo[0]) && h.entries[todo[0]].fate != Hydrating ==>
            next.sweep == Some(Sweep(todo[1..], if Evictable(h, todo[0], now, window) then Some(todo[0]) else None)))
  {
    var m := SweepOn(now, window);
    assert (moves + [m])[..|moves|] == moves;
    assert Walk(moves + [m]) == Step(Walk(moves), m);
  }
}
