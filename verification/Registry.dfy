/**
 One actor per game. The registry caches the promise of an actor, not the actor, so that
 connections racing to open a game share one hydration. A sweep evicts idle actors: it drains
 first and rechecks after, and other connections come and go at every await in between. An
 entry below is one such promise with what became of it; entries are never reused.
 */
module Registry {
  import opened Basics

  type GameId = string

  datatype Fate = Hydrating | Missing | Alive

  /** A promise and its actor. The miss of an unknown game stays cached until it is dropped. */
  datatype Entry = Entry(game: GameId, fate: Fate, dropped: bool, evicted: bool, sockets: nat, idleSince: int) {
    /** Still what a caller may be handed. */
    predicate Current() { !evicted && !dropped }
  }

  /** Where a sweep is: its snapshot still to inspect, and the actor whose drain it awaits. */
  datatype Sweep = Sweep(todo: seq<nat>, draining: Option<nat>)

  datatype House = House(actors: map<GameId, nat>, entries: seq<Entry>, sweep: Option<Sweep>)

  // --- Single steps, each the code between two awaits ---

  datatype Got = Got(house: House, id: nat)

  /** The cached entry, or a new one cached before its hydration is awaited. */
  function CachedOrNew(h: House, game: GameId, now: int): Got {
    if game in h.actors then Got(h, h.actors[game])
    else
      var id := |h.entries|;
      Got(h.(entries := h.entries + [Entry(game, Hydrating, false, false, 0, now)],
             actors := h.actors[game := id]), id)
  }

  /** The hydration resolves to an actor, idle from that moment, or to nothing. */
  function Resolve(h: House, id: nat, found: bool, now: int): House {
    if id < |h.entries| && h.entries[id].fate.Hydrating?
    then h.(entries := h.entries[id := h.entries[id].(fate := if found then Alive else Missing, idleSince := now)])
    else h
  }

  /** The miss handler deletes by game id, without looking which entry is there. */
  function DropMiss(h: House, id: nat): House {
    if id < |h.entries| && h.entries[id].fate.Missing? && !h.entries[id].dropped
    then h.(entries := h.entries[id := h.entries[id].(dropped := true)], actors := h.actors - {h.entries[id].game})
    else h
  }

  /** A socket registers with an actor it resolved earlier; an evicted actor refuses it. */
  function Attach(h: House, id: nat): House {
    if id < |h.entries| && h.entries[id].fate.Alive? && !h.entries[id].evicted
    then h.(entries := h.entries[id := h.entries[id].(sockets := h.entries[id].sockets + 1)])
    else h
  }

  function Detach(h: House, id: nat, now: int): House {
    if id < |h.entries| && h.entries[id].sockets > 0
    then
      var e := h.entries[id];
      h.(entries := h.entries[id := e.(sockets := e.sockets - 1,
                                       idleSince := if e.sockets == 1 then now else e.idleSince)])
    else h
  }

  /** Every cached entry, in whatever order the map yields them. */
  predicate IsSnapshot(order: seq<nat>, actors: map<GameId, nat>) {
    |order| == |actors| && (set id | id in order) == actors.Values
  }

  /** A sweep takes a snapshot of the cache, unless one is under way. */
  function StartSweep(h: House, order: seq<nat>): House {
    if h.sweep.Some? || !IsSnapshot(order, h.actors) then h else h.(sweep := Some(Sweep(order, None)))
  }

  predicate IdleFor(e: Entry, now: int, window: int) { e.sockets == 0 && now - e.idleSince >= window }

  /** Inspect the next entry of the snapshot: skip it, or start its drain; at the end, stop sweeping. */
  function Inspect(h: House, now: int, window: int): House {
    if h.sweep.None? || h.sweep.value.draining.Some? then h
    else if h.sweep.value.todo == [] then h.(sweep := None)
    else
      var id, rest := h.sweep.value.todo[0], h.sweep.value.todo[1..];
      if id >= |h.entries| || h.entries[id].fate.Hydrating? then h  // the promise is still awaited
      else if h.entries[id].fate.Alive? && Cached(h, id) && IdleFor(h.entries[id], now, window)
      then h.(sweep := Some(Sweep(rest, Some(id))))
      else h.(sweep := Some(Sweep(rest, None)))
  }

  predicate Cached(h: House, id: nat) {
    id < |h.entries| && h.entries[id].game in h.actors && h.actors[h.entries[id].game] == id
  }

  /** After the drain: a fault, a new socket or another entry aborts; otherwise mark and delete at once. */
  function DrainSettled(h: House, ok: bool): House {
    if h.sweep.None? || h.sweep.value.draining.None? then h
    else
      var id := h.sweep.value.draining.value;
      var on := h.(sweep := Some(h.sweep.value.(draining := None)));
      if !ok || id >= |h.entries| || h.entries[id].sockets > 0 || !Cached(h, id) then on
      else on.(entries := h.entries[id := h.entries[id].(evicted := true)], actors := h.actors - {h.entries[id].game})
  }

  datatype Move =
    | Open(game: GameId, now: int)
    | Resolved(id: nat, found: bool, now: int)
    | MissHandled(id: nat)
    | Joined(id: nat)
    | Left(id: nat, now: int)
    | SweepTick(order: seq<nat>)
    | SweepOn(now: int, window: int)
    | Drained(ok: bool)

  function Step(h: House, m: Move): House {
    match m
    case Open(game, now) => CachedOrNew(h, game, now).house
    case Resolved(id, found, now) => Resolve(h, id, found, now)
    case MissHandled(id) => DropMiss(h, id)
    case Joined(id) => Attach(h, id)
    case Left(id, now) => Detach(h, id, now)
    case SweepTick(order) => StartSweep(h, order)
    case SweepOn(now, window) => Inspect(h, now, window)
    case Drained(ok) => DrainSettled(h, ok)
  }

  function Walk(moves: seq<Move>): House {
    if moves == [] then House(map[], [], None)
    else Step(Walk(moves[..|moves| - 1]), moves[|moves| - 1])
  }

  class ActorRegistry {
    var actors: map<GameId, nat>
    var entries: seq<Entry>
    var sweep: Option<Sweep>

    function Value(): House
      reads this
    {
      House(actors, entries, sweep)
    }

    constructor ()
      ensures Value() == Walk([])
    {
      actors, entries, sweep := map[], [], None;
    }

    method GetOrHydrate(game: GameId, now: int) returns (id: nat)
      modifies this`actors, this`entries
      ensures Value() == CachedOrNew(old(Value()), game, now).house
      ensures id == CachedOrNew(old(Value()), game, now).id
    {
      if game in actors { return actors[game]; }
      id := |entries|;
      entries := entries + [Entry(game, Hydrating, false, false, 0, now)];
      actors := actors[game := id];
    }

    method HydrationResolved(id: nat, found: bool, now: int)
      modifies this`entries
      ensures Value() == Resolve(old(Value()), id, found, now)
    {
      if id < |entries| && entries[id].fate.Hydrating? {
        entries := entries[id := entries[id].(fate := if found then Alive else Missing, idleSince := now)];
      }
    }

    method HandleMiss(id: nat)
      modifies this`actors, this`entries
      ensures Value() == DropMiss(old(Value()), id)
    {
      if id < |entries| && entries[id].fate.Missing? && !entries[id].dropped {
        actors := actors - {entries[id].game};
        entries := entries[id := entries[id].(dropped := true)];
      }
    }

    method AddConnection(id: nat) returns (attached: bool)
      requires id < |entries| && entries[id].fate.Alive?
      modifies this`entries
      ensures Value() == Attach(old(Value()), id)
      ensures attached == !old(entries[id].evicted)
    {
      if entries[id].evicted { return false; }
      entries := entries[id := entries[id].(sockets := entries[id].sockets + 1)];
      return true;
    }

    method RemoveConnection(id: nat, now: int)
      modifies this`entries
      ensures Value() == Detach(old(Value()), id, now)
    {
      if id < |entries| && entries[id].sockets > 0 {
        var e := entries[id].(sockets := entries[id].sockets - 1);
        if e.sockets == 0 { e := e.(idleSince := now); }
        entries := entries[id := e];
      }
    }

    method BeginSweep(order: seq<nat>)
      requires IsSnapshot(order, actors)
      modifies this`sweep
      ensures Value() == StartSweep(old(Value()), order)
    {
      if sweep.Some? { return; }
      sweep := Some(Sweep(order, None));
    }

    /** The sweep up to its next await: the following promise, or this actor's drain. */
    method InspectNext(now: int, window: int)
      modifies this`sweep
      ensures Value() == Inspect(old(Value()), now, window)
    {
      if sweep.None? || sweep.value.draining.Some? { return; }
      var todo := sweep.value.todo;
      if todo == [] {
        sweep := None;
        return;
      }
      var id := todo[0];
      if id >= |entries| || entries[id].fate.Hydrating? { return; }
      var skip := entries[id].fate.Missing?;
      if !skip { skip := !(entries[id].game in actors && actors[entries[id].game] == id); }
      if !skip { skip := entries[id].sockets > 0 || now - entries[id].idleSince < window; }
      sweep := Some(Sweep(todo[1..], if skip then None else Some(id)));
    }

    /** The rest of a passivation once its drain has settled: recheck, mark, delete, no await between. */
    method Passivate(ok: bool) returns (evicted: bool)
      modifies this
      ensures Value() == DrainSettled(old(Value()), ok)
      ensures evicted <==> |actors| < |old(actors)|
    {
      if sweep.None? || sweep.value.draining.None? { return false; }
      var id := sweep.value.draining.value;
      sweep := Some(sweep.value.(draining := None));
      if !ok { return false; }
      if id >= |entries| || entries[id].sockets > 0 { return false; }
      if !(entries[id].game in actors && actors[entries[id].game] == id) { return false; }
      FewerAfterRemoval(actors, entries[id].game);
      actors := actors - {entries[id].game};
      entries := entries[id := entries[id].(evicted := true)];
      return true;
    }
  }

  lemma FewerAfterRemoval<K, V>(m: map<K, V>, k: K)
    requires k in m
    ensures |m - {k}| < |m|
  {
    assert (m - {k}).Keys == m.Keys - {k};
    assert |(m - {k}).Keys| == |m - {k}|;
  }

  // --- The invariant ---

  /** Every current entry is the cached one of its game, and what is cached is current. */
  ghost predicate OnePerGame(h: House) {
    && (forall id :: 0 <= id < |h.entries| && h.entries[id].Current() ==> Cached(h, id))
    && (forall game :: game in h.actors ==>
          h.actors[game] < |h.entries| && h.entries[h.actors[game]].game == game
              && h.entries[h.actors[game]].Current())
  }

  /** An evicted actor holds no socket, and only an actor is ever evicted or joined. */
  ghost predicate EvictedHoldNothing(h: House) {
    forall id :: 0 <= id < |h.entries| ==>
      && (h.entries[id].evicted ==> h.entries[id].sockets == 0 && h.entries[id].fate.Alive?)
      && (h.entries[id].sockets > 0 ==> h.entries[id].fate.Alive?)
      && (h.entries[id].dropped ==> h.entries[id].fate.Missing?)
  }

  ghost predicate DrainsAnActor(h: House) {
    h.sweep.Some? && h.sweep.value.draining.Some? ==>
      h.sweep.value.draining.value < |h.entries| && h.entries[h.sweep.value.draining.value].fate.Alive?
  }

  ghost predicate Kept(h: House) {
    match h
    case House(_, _, _) => OnePerGame(h) && EvictedHoldNothing(h) && DrainsAnActor(h)
  }

  lemma OpenKeeps(h: House, game: GameId, now: int)
    requires Kept(h)
    ensures Kept(CachedOrNew(h, game, now).house)
    ensures
      var g := CachedOrNew(h, game, now);
      g.id < |g.house.entries| && g.house.entries[g.id].game == game && g.house.entries[g.id].Current()
          && Cached(g.house, g.id)
  {}

  /** Changing one entry, but neither its game nor whether it is current, keeps one actor per game. */
  lemma TouchKeeps(h: House, id: nat, e: Entry)
    requires OnePerGame(h) && id < |h.entries|
    requires e.game == h.entries[id].game && e.Current() == h.entries[id].Current()
    ensures OnePerGame(h.(entries := h.entries[id := e]))
  {}

  /** Retiring the cached entry of a game and deleting the game keeps one actor per game. */
  lemma RetireKeeps(h: House, id: nat, e: Entry)
    requires OnePerGame(h) && Cached(h, id)
    requires e.game == h.entries[id].game && !e.Current()
    ensures OnePerGame(h.(entries := h.entries[id := e], actors := h.actors - {e.game}))
  {}

  lemma SweepKeeps(h: House, sweep: Option<Sweep>)
    requires Kept(h)
    requires sweep.Some? && sweep.value.draining.Some? ==>
      sweep.value.draining.value < |h.entries| && h.entries[sweep.value.draining.value].fate.Alive?
    ensures Kept(h.(sweep := sweep))
  {}

  lemma DrainKeeps(h: House, ok: bool)
    requires Kept(h)
    ensures Kept(DrainSettled(h, ok))
  {
    if h.sweep.Some? && h.sweep.value.draining.Some? {
      var id := h.sweep.value.draining.value;
      if Cached(h, id) { RetireKeeps(h, id, h.entries[id].(evicted := true)); }
    }
  }

  lemma EntryKeeps(h: House, id: nat, e: Entry)
    requires Kept(h) && id < |h.entries|
    requires e.game == h.entries[id].game && e.Current() == h.entries[id].Current()
    requires e.evicted == h.entries[id].evicted && e.dropped == h.entries[id].dropped
    requires e.evicted ==> e.sockets == 0
    requires e.sockets > 0 ==> e.fate.Alive?
    requires e.fate == h.entries[id].fate || h.entries[id].fate.Hydrating?
    ensures Kept(h.(entries := h.entries[id := e]))
  {
    TouchKeeps(h, id, e);
  }

  lemma SocketsKeep(h: House, m: Move)
    requires Kept(h) && (m.Resolved? || m.Joined? || m.Left?)
    ensures Kept(Step(h, m))
  {
    var id := m.id;
    if id < |h.entries| {
      var e := h.entries[id];
      match m
      case Resolved(_, found, now) =>
        if e.fate.Hydrating? { EntryKeeps(h, id, e.(fate := if found then Alive else Missing, idleSince := now)); }
      case Joined(_) =>
        if e.fate.Alive? && !e.evicted { EntryKeeps(h, id, e.(sockets := e.sockets + 1)); }
      case Left(_, now) =>
        if e.sockets > 0 {
          EntryKeeps(h, id, e.(sockets := e.sockets - 1, idleSince := if e.sockets == 1 then now else e.idleSince));
        }
    }
  }

  lemma MissKeeps(h: House, id: nat)
    requires Kept(h)
    ensures Kept(DropMiss(h, id))
  {
    if id < |h.entries| && h.entries[id].fate.Missing? && !h.entries[id].dropped {
      MissDropsOnlyItself(h, id);
      RetireKeeps(h, id, h.entries[id].(dropped := true));
    }
  }

  /** Though the miss handler deletes by game id alone, the entry it removes is always its own. */
  lemma MissDropsOnlyItself(h: House, id: nat)
    requires Kept(h) && id < |h.entries| && h.entries[id].fate.Missing? && !h.entries[id].dropped
    ensures Cached(h, id)
    ensures forall game :: game in h.actors && h.actors[game] != id ==>
      game in DropMiss(h, id).actors && DropMiss(h, id).actors[game] == h.actors[game]
  {
    assert h.entries[id].Current();
  }

  lemma StepKeeps(h: House, m: Move)
    requires Kept(h)
    ensures Kept(Step(h, m))
  {
    match m
    case Open(game, now) => OpenKeeps(h, game, now);
    case MissHandled(id) => MissKeeps(h, id);
    case SweepTick(order) => SweepKeeps(h, Some(Sweep(order, None)));
    case SweepOn(now, window) => SweepKeeps(h, Inspect(h, now, window).sweep);
    case Drained(ok) => DrainKeeps(h, ok);
    case _ => SocketsKeep(h, m);
  }

  lemma {:induction false} AlwaysKept(moves: seq<Move>)
    ensures Kept(Walk(moves))
  {
    if moves != [] {
      AlwaysKept(moves[..|moves| - 1]);
      StepKeeps(Walk(moves[..|moves| - 1]), moves[|moves| - 1]);
    }
  }

  /**
   Through any interleaving of opens, hydrations, joins, departures, sweeps and drains, two
   entries of one game that are both still current are the same entry, and an evicted actor
   holds no socket.
   */
  lemma AtMostOneActor(moves: seq<Move>, i: nat, j: nat)
    requires i < |Walk(moves).entries| && j < |Walk(moves).entries|
    ensures
      var e := Walk(moves).entries;
      && (e[i].game == e[j].game && e[i].Current() && e[j].Current() ==> i == j)
      && (e[i].evicted ==> e[i].sockets == 0)
  {
    AlwaysKept(moves);
  }
}
