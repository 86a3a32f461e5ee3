/**
 The registry and one game's actors together: the registry's moves hydrate, refuse, drain and evict,
 the current actor and the evicted ones run their tasks and timers. While nothing is posted behind a
 drain and the timers are prompt, an idle window no shorter than a vote's timebox makes all of it one
 room: every state is a state of a single actor that crashes and is hydrated again.
 */
module Sites {
  import opened Basics
  import opened Engine
  import opened RoomLaws
  import opened Store
  import opened Actor
  import opened World
  import opened Durability
  import opened Timers
  import opened Registry
  import opened Evictions
  import opened Passivation

  /** What the sweep saw when it started this game's drain. */
  datatype Look = Look(idleSince: int, at: int)

  datatype Site = Site(house: House, s: Session, look: Look)

  datatype Play =
    | Registers(move: Move)
    | Runs(step: Step)
    | Haunts(which: nat, step: Step)
    | Passivates(fault: Fault, late: seq<Job>)
    | Restart

  const Empty := House(map[], [], None)

  function Opening(): Site { Site(Empty, Session(Start(), []), Look(0, 0)) }

  /** The entry this game's drain is under way for, if the sweep is draining it. */
  predicate Draining(h: House, game: GameId) {
    && h.sweep.Some? && h.sweep.value.draining.Some? && h.sweep.value.draining.value < |h.entries|
    && h.entries[h.sweep.value.draining.value].game == game
  }

  /** A hydration of this game is about to find it. */
  predicate Hydrates(h: House, game: GameId, m: Move) {
    && m.Resolved? && m.found && m.id < |h.entries| && h.entries[m.id].fate.Hydrating? && h.entries[m.id].game == game
  }

  function Seen(h: House, game: GameId, m: Move, look: Look): Look {
    var h' := Registry.Step(h, m);
    if m.SweepOn? && !Draining(h, game) && Draining(h', game)
    then Look(h.entries[h'.sweep.value.draining.value].idleSince, m.now)
    else look
  }

  predicate DrainOk(w: World, fault: Fault) { w.live.Some? && DoFlush(w.live.value, w.db, fault).ok }

  /** The eviction goes through: the drain succeeded, no socket came, and the entry is still cached. */
  predicate Evicts(site: Site, game: GameId, fault: Fault) {
    && Draining(site.house, game) && DrainOk(site.s.w, fault)
    && site.house.entries[site.house.sweep.value.draining.value].sockets == 0
    && Cached(site.house, site.house.sweep.value.draining.value)
  }

  /** A drain's flush and, in the same breath, the recheck, the mark and the delete. */
  function Passivated(grid: Grid, cfg: Config, game: GameId, site: Site, fault: Fault, late: seq<Job>): Site {
    var drained := Do(grid, cfg, site.s, Main(FlushTask(fault)));
    Site(DrainSettled(site.house, DrainOk(site.s.w, fault)),
         if Evicts(site, game, fault) then Do(grid, cfg, drained, Evict(late)) else drained,
         site.look)
  }

  /** The window is the registry's own; other games' drains settle by themselves. */
  function Played(grid: Grid, cfg: Config, game: GameId, window: int, site: Site, p: Play): Site {
    match p
    case Registers(m) =>
      if (m.Drained? && Draining(site.house, game)) || (m.SweepOn? && m.window != window) then site
      else
        Site(Registry.Step(site.house, m),
             if Hydrates(site.house, game, m) then Do(grid, cfg, site.s, Main(Arrive(m.now))) else site.s,
             Seen(site.house, game, m, site.look))
    case Runs(step) =>
      if step.Crash? || step.Arrive? then site else site.(s := Do(grid, cfg, site.s, Main(step)))
    case Haunts(i, step) => site.(s := Do(grid, cfg, site.s, Haunt(i, step)))
    case Passivates(fault, late) =>
      if Draining(site.house, game) then Passivated(grid, cfg, game, site, fault, late) else site
    case Restart => Site(Empty, Do(grid, cfg, site.s, Main(Crash)), site.look)
  }

  function SiteOf(grid: Grid, cfg: Config, game: GameId, window: int, plays: seq<Play>): Site {
    if plays == [] then Opening()
    else Played(grid, cfg, game, window, SiteOf(grid, cfg, game, window, plays[..|plays| - 1]), plays[|plays| - 1])
  }

  /** What a play is to a single actor that only ever crashes and is hydrated again. */
  function Said(game: GameId, site: Site, p: Play): seq<Step> {
    match p
    case Registers(m) => if Hydrates(site.house, game, m) then [Arrive(m.now)] else []
    case Runs(step) => if step.Crash? || step.Arrive? then [] else [step]
    case Haunts(_, _) => []
    case Passivates(fault, _) =>
      if !Draining(site.house, game) then []
      else if Evicts(site, game, fault) then [FlushTask(fault), Crash] else [FlushTask(fault)]
    case Restart => [Crash]
  }

  function OneRoom(grid: Grid, cfg: Config, game: GameId, window: int, plays: seq<Play>): seq<Step> {
    if plays == [] then []
    else
      var front := plays[..|plays| - 1];
      OneRoom(grid, cfg, game, window, front) + Said(game, SiteOf(grid, cfg, game, window, front), plays[|plays| - 1])
  }

  // --- One actor at a time ---

  predicate HasActor(h: House, game: GameId) {
    game in h.actors && h.actors[game] < |h.entries| && h.entries[h.actors[game]].fate.Alive?
  }

  ghost predicate Looked(site: Site, game: GameId, window: int) {
    Draining(site.house, game) ==> site.look.at - site.look.idleSince >= window
  }

  lemma OthersKeepTheActor(h: House, game: GameId, m: Move)
    requires Kept(h) && !Hydrates(h, game, m) && !(m.Drained? && Draining(h, game))
    ensures HasActor(Registry.Step(h, m), game) <==> HasActor(h, game)
  {
    if m.MissHandled? && m.id < |h.entries| && h.entries[m.id].fate.Missing? && !h.entries[m.id].dropped {
      MissDropsOnlyItself(h, m.id);
    }
  }

  /** A hydration resolves only while the game has no actor: its entry is the game's one current entry. */
  lemma HydratesAlone(h: House, game: GameId, m: Move)
    requires Kept(h) && Hydrates(h, game, m)
    ensures m.Resolved? && !HasActor(h, game) && HasActor(Registry.Step(h, m), game)
  {
    assert h.entries[m.id].Current();
  }

  lemma SweepLooks(h: House, game: GameId, m: Move, look: Look, window: int)
    requires Kept(h) && (m.SweepOn? ==> m.window == window)
    requires Draining(h, game) ==> look.at - look.idleSince >= window
    ensures Draining(Registry.Step(h, m), game) ==>
      Seen(h, game, m, look).at - Seen(h, game, m, look).idleSince >= window
  {}

  lemma EvictionRetires(site: Site, game: GameId, fault: Fault)
    requires Kept(site.house) && Draining(site.house, game)
    requires HasActor(site.house, game) <==> site.s.w.live.Some?
    ensures
      var h' := DrainSettled(site.house, DrainOk(site.s.w, fault));
      && Kept(h') && !Draining(h', game)
      && (Evicts(site, game, fault) ==> !HasActor(h', game))
      && (!Evicts(site, game, fault) ==> (HasActor(h', game) <==> HasActor(site.house, game)))
  {
    DrainKeeps(site.house, DrainOk(site.s.w, fault));
  }

  // --- All of it is one room ---

  ghost predicate SiteOk(grid: Grid, cfg: Config, game: GameId, window: int, site: Site) {
    && Kept(site.house) && Looked(site, game, window)
    && (HasActor(site.house, game) <==> site.s.w.live.Some?)
    && SessionOk(grid, cfg, site.s)
  }

  ghost predicate SessionOk(grid: Grid, cfg: Config, s: Session) {
    Coherent(grid, cfg.solution, s.w) && Timed(s.w) && AllHarmless(s, cfg)
  }

  /**
   An eviction the two stated conditions cover: nothing was posted behind the drain, and by the time
   the sweep looked, no command had run since the last socket left, every vote timer due had fired and
   what it posted had run.
   */
  ghost predicate Covered(grid: Grid, cfg: Config, game: GameId, site: Site, steps: seq<Step>, p: Play) {
    p.Passivates? && Evicts(site, game, p.fault) ==>
      p.late == [] && CommandsBy(steps, site.look.idleSince) && Prompt(site.s.w, site.look.at)
  }

  lemma TaskOnce(grid: Grid, cfg: Config, s: Session, act: Act)
    requires SessionOk(grid, cfg, s) && !act.Evict?
    ensures SessionOk(grid, cfg, Do(grid, cfg, s, act))
    ensures Do(grid, cfg, s, act).w == if act.Main? then Next(grid, cfg, s.w, act.step) else s.w
  {
    hide Do, Next, Coherent, Timed, AllHarmless;
    HarmlessAct(grid, cfg, s, act);
  }

  lemma AfterMore(grid: Grid, cfg: Config, steps: seq<Step>, s: Step)
    ensures After(grid, cfg, Start(), steps + [s]) == Next(grid, cfg, After(grid, cfg, Start(), steps), s)
  {
    assert (steps + [s])[..|steps|] == steps;
  }

  /** An evicted actor whose eviction is covered is quiet: drained, nothing queued, no vote open. */
  lemma CoveredIsQuiet(grid: Grid, cfg: Config, game: GameId, window: int, site: Site, steps: seq<Step>, p: Play)
    requires PuzzleOk(grid, cfg.solution) && cfg.ttl <= window
    requires SiteOk(grid, cfg, game, window, site) && site.s.w == After(grid, cfg, Start(), steps)
    requires p.Passivates? && Evicts(site, game, p.fault) && Covered(grid, cfg, game, site, steps, p)
    ensures QuietAct(Do(grid, cfg, site.s, Main(FlushTask(p.fault))), Evict(p.late), cfg)
  {
    hide DoFlush, AllHarmless, Coherent;
    NoVoteOutlivesTheTimebox(grid, cfg, steps, site.look.idleSince, site.look.at);
    var f := site.s.w.live.value;
    FlushOutcome(f, site.s.w.db, p.fault);
    OkFlushEmpties(f, site.s.w.db, p.fault);
    var drained := Do(grid, cfg, site.s, Main(FlushTask(p.fault)));
    DrainedIsQuiet(f, Ghost(drained.w.live.value, drained.w.posted, []), drained.w.db, cfg);
  }

  lemma OkFlushEmpties(f: Fields, db: Db, fault: Fault)
    requires DoFlush(f, db, fault).ok
    ensures DoFlush(f, db, fault).fields.PendingCount() == 0
  {}

  lemma PassivationIsOneRoom(grid: Grid, cfg: Config, game: GameId, window: int, site: Site, steps: seq<Step>,
                             p: Play)
    requires PuzzleOk(grid, cfg.solution) && cfg.ttl <= window
    requires SiteOk(grid, cfg, game, window, site) && site.s.w == After(grid, cfg, Start(), steps)
    requires p.Passivates? && Draining(site.house, game) && Covered(grid, cfg, game, site, steps, p)
    ensures
      var next := Passivated(grid, cfg, game, site, p.fault, p.late);
      SiteOk(grid, cfg, game, window, next) && next.s.w == After(grid, cfg, Start(), steps + Said(game, site, p))
  {
    hide Do, Next, After, SessionOk, DrainSettled, Draining, Evicts, Covered, DoFlush;
    var flush := Main(FlushTask(p.fault));
    var drained := Do(grid, cfg, site.s, flush);
    TaskOnce(grid, cfg, site.s, flush);
    AfterMore(grid, cfg, steps, FlushTask(p.fault));
    EvictionRetires(site, game, p.fault);
    FlushKeepsLife(grid, cfg, site.s.w, p.fault);
    if Evicts(site, game, p.fault) {
      CoveredIsQuiet(grid, cfg, game, window, site, steps, p);
      EvictOnce(grid, cfg, drained, p.late);
      AfterMore(grid, cfg, steps + [FlushTask(p.fault)], Crash);
      assert steps + [FlushTask(p.fault), Crash] == steps + [FlushTask(p.fault)] + [Crash];
    }
  }

  lemma FlushKeepsLife(grid: Grid, cfg: Config, w: World, fault: Fault)
    ensures Next(grid, cfg, w, FlushTask(fault)).live.Some? <==> w.live.Some?
  {}

  lemma EvictOnce(grid: Grid, cfg: Config, s: Session, late: seq<Job>)
    requires SessionOk(grid, cfg, s) && QuietAct(s, Evict(late), cfg)
    ensures SessionOk(grid, cfg, Do(grid, cfg, s, Evict(late)))
    ensures Do(grid, cfg, s, Evict(late)).w == Next(grid, cfg, s.w, Crash)
        && Do(grid, cfg, s, Evict(late)).w.live.None?
  {
    hide Next, Coherent, Timed, AllHarmless, QuietAct;
    HarmlessAct(grid, cfg, s, Evict(late));
    assert Next(grid, cfg, s.w, Crash).live.None? by { CrashLeavesNobody(grid, cfg, s.w); }
  }

  lemma CrashLeavesNobody(grid: Grid, cfg: Config, w: World)
    ensures Next(grid, cfg, w, Crash).live.None?
  {}

  lemma ArrivalIsSomebody(grid: Grid, cfg: Config, w: World, now: int)
    ensures Next(grid, cfg, w, Arrive(now)).live.Some?
  {}

  lemma RegisteredIsOneRoom(grid: Grid, cfg: Config, game: GameId, window: int, site: Site, steps: seq<Step>, p: Play)
    requires SiteOk(grid, cfg, game, window, site) && site.s.w == After(grid, cfg, Start(), steps) && p.Registers?
    ensures
      var next := Played(grid, cfg, game, window, site, p);
      SiteOk(grid, cfg, game, window, next) && next.s.w == After(grid, cfg, Start(), steps + Said(game, site, p))
  {
    hide Do, Next, After, SessionOk, Registry.Step, Draining, HasActor, Kept, Hydrates, Seen;
    var m := p.move;
    StepKeeps(site.house, m);
    if Hydrates(site.house, game, m) {
      HydratesAlone(site.house, game, m);
      TaskOnce(grid, cfg, site.s, Main(Arrive(m.now)));
      AfterMore(grid, cfg, steps, Arrive(m.now));
      ArrivalIsSomebody(grid, cfg, site.s.w, m.now);
    } else {
      assert steps + [] == steps;
    }
    if !((m.Drained? && Draining(site.house, game)) || (m.SweepOn? && m.window != window)) {
      if !Hydrates(site.house, game, m) { OthersKeepTheActor(site.house, game, m); }
      SweepLooks(site.house, game, m, site.look, window);
    } else {
      NotAHydration(site.house, game, m);
    }
  }

  lemma NotAHydration(h: House, game: GameId, m: Move)
    requires m.Drained? || m.SweepOn?
    ensures !Hydrates(h, game, m)
  {}

  lemma PlayIsOneRoom(grid: Grid, cfg: Config, game: GameId, window: int, site: Site, steps: seq<Step>, p: Play)
    requires PuzzleOk(grid, cfg.solution) && cfg.ttl <= window
    requires SiteOk(grid, cfg, game, window, site) && site.s.w == After(grid, cfg, Start(), steps)
    requires Covered(grid, cfg, game, site, steps, p)
    ensures
      var next := Played(grid, cfg, game, window, site, p);
      SiteOk(grid, cfg, game, window, next) && next.s.w == After(grid, cfg, Start(), steps + Said(game, site, p))
  {
    hide Do, Next, After, SessionOk, Passivated, Covered, HasActor, Draining;
    assert steps + [] == steps;
    match p
    case Registers(_) => RegisteredIsOneRoom(grid, cfg, game, window, site, steps, p);
    case Runs(step) =>
      if !step.Crash? && !step.Arrive? {
        TaskOnce(grid, cfg, site.s, Main(step));
        AfterMore(grid, cfg, steps, step);
        SameLife(grid, cfg, site.s.w, step);
      }
    case Haunts(i, step) => TaskOnce(grid, cfg, site.s, Haunt(i, step));
    case Passivates(_, _) =>
      if Draining(site.house, game) { PassivationIsOneRoom(grid, cfg, game, window, site, steps, p); }
    case Restart =>
      TaskOnce(grid, cfg, site.s, Main(Crash));
      AfterMore(grid, cfg, steps, Crash);
      CrashLeavesNobody(grid, cfg, site.s.w);
      EmptyHouse(game);
  }

  lemma SameLife(grid: Grid, cfg: Config, w: World, s: Step)
    requires !s.Crash? && !s.Arrive?
    ensures Next(grid, cfg, w, s).live.Some? <==> w.live.Some?
  {}

  lemma EmptyHouse(game: GameId)
    ensures Kept(Empty) && !HasActor(Empty, game) && !Draining(Empty, game)
  {}

  /**
   The registry, the actors and the evicted actors of a game, through any interleaving, any faults and
   any restarts: if every eviction is covered and the idle window is no shorter than the timebox, there
   is an actor exactly while the cache has one, and the current actor, the tables and the broadcasts
   are those of one actor that only ever crashes and is hydrated again.
   */
  lemma {:induction false} SiteIsOneRoom(grid: Grid, cfg: Config, game: GameId, window: int, plays: seq<Play>)
    requires PuzzleOk(grid, cfg.solution) && cfg.ttl <= window
    requires forall i :: 0 <= i < |plays| ==>
      Covered(grid, cfg, game, SiteOf(grid, cfg, game, window, plays[..i]),
              OneRoom(grid, cfg, game, window, plays[..i]), plays[i])
    ensures
      var site := SiteOf(grid, cfg, game, window, plays);
      && SiteOk(grid, cfg, game, window, site)
      && site.s.w == After(grid, cfg, Start(), OneRoom(grid, cfg, game, window, plays))
  {
    hide Played, Next, Covered, SiteOk, Said;
    if plays == [] {
      OpeningIsOk(grid, cfg, game, window);
    } else {
      var n := |plays| - 1;
      forall i | 0 <= i < n
        ensures Covered(grid, cfg, game, SiteOf(grid, cfg, game, window, plays[..n][..i]),
                        OneRoom(grid, cfg, game, window, plays[..n][..i]), plays[..n][i])
      {
        assert plays[..n][..i] == plays[..i];
      }
      SiteIsOneRoom(grid, cfg, game, window, plays[..n]);
      PlayIsOneRoom(grid, cfg, game, window, SiteOf(grid, cfg, game, window, plays[..n]),
                    OneRoom(grid, cfg, game, window, plays[..n]), plays[n]);
    }
  }

  lemma OpeningIsOk(grid: Grid, cfg: Config, game: GameId, window: int)
    requires PuzzleOk(grid, cfg.solution)
    ensures SiteOk(grid, cfg, game, window, Opening())
    ensures After(grid, cfg, Start(), []) == Start()
  {
    EveryRunIsCoherent(grid, cfg, []);
    EmptyHouse(game);
  }

  /**
   What that buys, for one: with every eviction covered, the tables always account for every number and
   the end is announced at most once, however often the game is evicted and reopened.
   */
  lemma CoveredSitesStaySound(grid: Grid, cfg: Config, game: GameId, window: int, plays: seq<Play>)
    requires PuzzleOk(grid, cfg.solution) && cfg.ttl <= window
    requires forall i :: 0 <= i < |plays| ==>
      Covered(grid, cfg, game, SiteOf(grid, cfg, game, window, plays[..i]),
              OneRoom(grid, cfg, game, window, plays[..i]), plays[i])
    ensures
      var w := SiteOf(grid, cfg, game, window, plays).s.w;
      TablesTell(grid, w.db) && Announcements(w.sent) <= 1
  {
    hide SiteOf, After, TablesTell, Announcements, Covered, SiteOk;
    SiteIsOneRoom(grid, cfg, game, window, plays);
    TablesAlwaysTell(grid, cfg, OneRoom(grid, cfg, game, window, plays));
    TerminalIsAnnouncedOnce(grid, cfg, OneRoom(grid, cfg, game, window, plays));
  }
}
