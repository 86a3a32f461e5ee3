/**
 Memory, buffer and tables always tell one story. There is a history h of stamped events such
 that memory is the image of all of h, the tables are the image and the log rows of its first
 k events, and the buffer holds the rows of the events from j on. A flush that fails leaves j
 behind; one that lands without its answer leaves j behind k, and the next flush skips the
 rows already there.
 */
module Persistence {
  import opened Basics
  import opened Engine
  import opened RoomLaws
  import opened Journal
  import opened Store
  import opened Snapshots
  import opened Actor

  datatype Ledger = Ledger(h: History, j: nat, k: nat)

  /** The tables hold exactly the history h. */
  ghost predicate Stored(grid: Grid, db: Db, h: History) {
    && db.cellLog == CellRows(h) && db.checkLog == CheckRows(h) && db.voteLog == VoteRows(h)
    && (db.row.None? <==> h == [])
    && (db.row.Some? ==> db.row.value == Print(ImageOf(grid, h), db.row.value.stats))
  }

  ghost predicate Buffered(f: Fields, h: History) {
    f.pending == CellRows(h) && f.pendingChecks == CheckRows(h) && f.pendingVotes == VoteRows(h)
  }

  ghost predicate Agrees(grid: Grid, sol: Solution, f: Fields, db: Db, g: Ledger) {
    match g
    case Ledger(h, j, k) =>
      && j <= k <= |h|
      && Good(grid, sol, h) && Good(grid, sol, h[..k])
      && f.image == ImageOf(grid, h)
      && Buffered(f, h[j..])
      && Stored(grid, db, h[..k])
  }

  // --- Insert-if-absent over an overlapping buffer ---

  ghost predicate Keyed<R(!new)>(pick: Stamped -> Option<R>, key: R -> nat) {
    forall s :: pick(s).Some? ==> key(pick(s).value) == s.event.seqNo
  }

  /** A log holds a number exactly when the event of that number makes a row. */
  lemma {:induction false} RowAt<R(!new)>(h: History, pick: Stamped -> Option<R>, key: R -> nat, n: nat)
    requires Numbered(h) && Keyed(pick, key)
    ensures Has(Rows(h, pick), key, n) <==> 1 <= n <= |h| && pick(h[n - 1]).Some?
  {
    if h != [] {
      var front, s := h[..|h| - 1], h[|h| - 1];
      RowAt(front, pick, key, n);
      var rows, all := Rows(front, pick), Rows(h, pick);
      if Has(rows, key, n) {
        var i :| 0 <= i < |rows| && key(rows[i]) == n;
        assert all[i] == rows[i];
      }
      if pick(s).Some? { assert all[|rows|] == pick(s).value; }
      if Has(all, key, n) {
        var i :| 0 <= i < |all| && key(all[i]) == n;
        if i < |rows| { assert all[i] == rows[i]; }
      }
    }
  }

  function Opt<R>(r: Option<R>): seq<R> { if r.Some? then [r.value] else [] }

  lemma RowsStep<R>(h: History, j: nat, n: nat, pick: Stamped -> Option<R>)
    requires j <= n < |h|
    ensures Rows(h[j..n + 1], pick) == Rows(h[j..n], pick) + Opt(pick(h[n]))
  {
    assert h[j..n + 1][..n - j] == h[j..n];
  }

  lemma AddStep<R>(log: seq<R>, rows: seq<R>, before: seq<R>, more: Option<R>, key: R -> nat)
    requires before == AddAbsent(log, rows, key)
    ensures AddAbsent(log, rows + Opt(more), key) ==
      if more.None? || Has(before, key, key(more.value)) then before else before + [more.value]
  {
    if more.None? {
      assert rows + Opt(more) == rows;
    } else {
      assert (rows + Opt(more))[..|rows|] == rows;
    }
  }

  /** The log that reaches past both k and n - 1, offered event n's row, reaches past both k and n. */
  lemma OfferRow<R(!new)>(h: History, k: nat, n: nat, pick: Stamped -> Option<R>, key: R -> nat)
    requires Numbered(h) && Keyed(pick, key) && k <= |h| && 1 <= n <= |h|
    ensures
      var before, s := Rows(h[..Max(k, n - 1)], pick), pick(h[n - 1]);
      Rows(h[..Max(k, n)], pick) ==
        if s.None? || Has(before, key, key(s.value)) then before else before + [s.value]
  {
    RowAt(h[..Max(k, n - 1)], pick, key, n);
    if k < n {
      RowsStep(h, 0, n - 1, pick);
      assert h[0..n] == h[..n] && h[0..n - 1] == h[..n - 1];
    }
  }

  /** Adding the buffered rows from j up to n to a log that reaches k leaves the log of both. */
  lemma {:induction false} AddOverlap<R(!new)>(h: History, j: nat, k: nat, n: nat, pick: Stamped -> Option<R>,
                                               key: R -> nat)
    requires Numbered(h) && Keyed(pick, key) && j <= k <= |h| && j <= n <= |h|
    ensures AddAbsent(Rows(h[..k], pick), Rows(h[j..n], pick), key) == Rows(h[..Max(k, n)], pick)
    decreases n
  {
    if n == j {
      assert h[j..n] == [];
    } else {
      AddOverlap(h, j, k, n - 1, pick, key);
      OverlapStep(h, j, k, n, pick, key);
    }
  }

  lemma OverlapStep<R(!new)>(h: History, j: nat, k: nat, n: nat, pick: Stamped -> Option<R>, key: R -> nat)
    requires Numbered(h) && Keyed(pick, key) && j <= k <= |h| && j < n <= |h|
    requires AddAbsent(Rows(h[..k], pick), Rows(h[j..n - 1], pick), key) == Rows(h[..Max(k, n - 1)], pick)
    ensures AddAbsent(Rows(h[..k], pick), Rows(h[j..n], pick), key) == Rows(h[..Max(k, n)], pick)
  {
    hide AddAbsent, Has, Rows, Numbered, Keyed;
    var log, before, more := Rows(h[..k], pick), Rows(h[..Max(k, n - 1)], pick), pick(h[n - 1]);
    RowsStep(h, j, n - 1, pick);
    AddStep(log, Rows(h[j..n - 1], pick), before, more, key);
    OfferRow(h, k, n, pick, key);
  }

  lemma LogsAreKeyed()
    ensures Keyed(CellOf, CellKey) && Keyed(CheckOf, CheckKey) && Keyed(VoteOf, VoteKey)
  {}

  /** Flushing the buffer brings all three logs to the whole history. */
  lemma LogsCatchUp(h: History, j: nat, k: nat)
    requires Numbered(h) && j <= k <= |h|
    ensures AddAbsent(CellRows(h[..k]), CellRows(h[j..]), CellKey) == CellRows(h)
    ensures AddAbsent(CheckRows(h[..k]), CheckRows(h[j..]), CheckKey) == CheckRows(h)
    ensures AddAbsent(VoteRows(h[..k]), VoteRows(h[j..]), VoteKey) == VoteRows(h)
  {
    LogsAreKeyed();
    assert h[j..|h|] == h[j..] && h[..|h|] == h;
    AddOverlap(h, j, k, |h|, CellOf, CellKey);
    AddOverlap(h, j, k, |h|, CheckOf, CheckKey);
    AddOverlap(h, j, k, |h|, VoteOf, VoteKey);
  }

  // --- One flush ---

  function AfterFlush(g: Ledger, fault: Fault): Ledger {
    if fault.RolledBack? then g
    else if fault.Unreported? then g.(k := |g.h|)
    else Ledger(g.h, |g.h|, |g.h|)
  }

  /**
   The row guard never refuses the game's only writer: the stored row is not ahead of memory,
   and if it is terminal then memory is at the very same event.
   */
  lemma SoleWriterIsNeverRefused(grid: Grid, sol: Solution, f: Fields, db: Db, g: Ledger, stats: Option<Stats>)
    requires Agrees(grid, sol, f, db, g)
    ensures GuardAllows(db.row, Print(f.image, stats))
  {
    if db.row.Some? && db.row.value.status != Ongoing {
      assert IsTerminal(g.h[g.k - 1].event);
      assert g.k == |g.h|;
      assert g.h[..g.k] == g.h;
    }
  }

  lemma FlushCatchesUp(grid: Grid, sol: Solution, f: Fields, db: Db, g: Ledger, stats: Option<Stats>, fault: Fault)
    requires Agrees(grid, sol, f, db, g) && g.h != []
    ensures
      var r := Flush(db, f.Pending(), Print(f.image, stats), fault);
      && r.ok == fault.NoFault?
      && (fault.RolledBack? ==> r.db == db)
      && (!fault.RolledBack? ==> Stored(grid, r.db, g.h) && r.db.row == Some(Print(f.image, stats)))
  {
    SoleWriterIsNeverRefused(grid, sol, f, db, g, stats);
    LogsCatchUp(g.h, g.j, g.k);
  }

  /** Any change of the timers alone, and the emptying of the buffer after a reported commit. */
  lemma FlushAgrees(grid: Grid, sol: Solution, f: Fields, db: Db, g: Ledger, stats: Option<Stats>, fault: Fault,
                    f': Fields)
    requires Agrees(grid, sol, f, db, g) && g.h != []
    requires f'.image == f.image
    requires f'.Pending() == if fault.NoFault? then Batch([], [], []) else f.Pending()
    ensures Agrees(grid, sol, f', Flush(db, f.Pending(), Print(f.image, stats), fault).db, AfterFlush(g, fault))
  {
    FlushCatchesUp(grid, sol, f, db, g, stats, fault);
    assert g.h[..|g.h|] == g.h;
    assert g.h[|g.h|..] == [];
  }

  lemma DoFlushAgrees(grid: Grid, sol: Solution, f: Fields, db: Db, g: Ledger, fault: Fault)
    requires Agrees(grid, sol, f, db, g)
    ensures
      var s := DoFlush(f, db, fault);
      && (f.PendingCount() == 0 ==>
            s.db == db && s.fields == f.(flushTimer := false) && Agrees(grid, sol, s.fields, s.db, g))
      && (f.PendingCount() > 0 ==> Agrees(grid, sol, s.fields, s.db, AfterFlush(g, fault)) && s.ok == fault.NoFault?)
  {
    if f.PendingCount() > 0 {
      assert g.h != [];
      FlushCatchesUp(grid, sol, f, db, g, f.stats, fault);
      FlushAgrees(grid, sol, f, db, g, f.stats, fault, DoFlush(f, db, fault).fields);
    }
  }

  ghost function AfterMutation(f: Fields, g: Ledger, threshold: nat, fault: Fault): Ledger {
    if f.PendingCount() >= threshold && f.PendingCount() > 0 then AfterFlush(g, fault) else g
  }

  lemma AfterMutationAgrees(grid: Grid, sol: Solution, f: Fields, db: Db, g: Ledger, threshold: nat, fault: Fault)
    requires Agrees(grid, sol, f, db, g)
    ensures
      var s := AfterMutationFlush(f, db, threshold, fault);
      Agrees(grid, sol, s.fields, s.db, AfterMutation(f, g, threshold, fault))
  {
    DoFlushAgrees(grid, sol, f, db, g, fault);
  }

  // --- Growing the history ---

  /** Emitting buffers exactly the stamped events' rows. */
  lemma {:induction false} EmitBuffers(f: Fields, es: seq<Event>, at: int, deadline: int)
    ensures
      var e, ss := Emit(f, es, at), Stamp(es, at, deadline);
      && e.pending == f.pending + CellRows(ss)
      && e.pendingChecks == f.pendingChecks + CheckRows(ss)
      && e.pendingVotes == f.pendingVotes + VoteRows(ss)
  {
    if es != [] {
      var n := |es| - 1;
      EmitBuffers(f, es[..n], at, deadline);
      assert Stamp(es, at, deadline)[..n] == Stamp(es[..n], at, deadline);
    }
  }

  lemma BufferGrows(f: Fields, h: History, j: nat, es: seq<Event>, at: int, deadline: int, f': Fields)
    requires j <= |h| && Buffered(f, h[j..])
    requires f'.Pending() == Emit(f, es, at).Pending()
    ensures Buffered(f', (h + Stamp(es, at, deadline))[j..])
  {
    var ss := Stamp(es, at, deadline);
    EmitBuffers(f, es, at, deadline);
    assert (h + ss)[j..] == h[j..] + ss;
    RowsAppend(h[j..], ss, CellOf);
    RowsAppend(h[j..], ss, CheckOf);
    RowsAppend(h[j..], ss, VoteOf);
  }

  /** The longer history's image, by folding the new events onto the old image. */
  lemma ImageExtends(grid: Grid, h: History, es: seq<Event>, at: int, deadline: int)
    ensures
      var m := ImageOf(grid, h + Stamp(es, at, deadline));
      && m == Fold(ImageOf(grid, h), Stamp(es, at, deadline))
      && m.board == Replay(ImageOf(grid, h).board, es)
      && Events(h + Stamp(es, at, deadline)) == Events(h) + es
      && ChecksIn(Events(h + Stamp(es, at, deadline))) == ChecksIn(Events(h)) + ChecksIn(es)
  {
    var ss := Stamp(es, at, deadline);
    FoldAppend(EmptyImage(grid), h, ss);
    FoldIsReplay(ImageOf(grid, h), ss);
    EventsOfStamp(es, at, deadline);
    assert Events(h + ss) == Events(h) + es;
    ChecksAppend(Events(h), es);
  }

  lemma NumbersExtend(h: History, es: seq<Event>, at: int, deadline: int)
    requires Numbered(h) && Contiguous(|h|, es) && EndsOnce(h) && TerminalLast(es)
    requires es != [] && h != [] ==> !IsTerminal(h[|h| - 1].event)
    ensures Numbered(h + Stamp(es, at, deadline)) && EndsOnce(h + Stamp(es, at, deadline))
  {
    var all := h + Stamp(es, at, deadline);
    if es == [] { assert all == h; }
    forall i | 0 <= i < |all| - 1 ensures !IsTerminal(all[i].event) {
      if i < |h| { assert all[i] == h[i]; }
    }
  }

  lemma GoodExtends(grid: Grid, sol: Solution, h: History, es: seq<Event>, at: int, deadline: int, b': Board)
    requires Good(grid, sol, h) && Sound(b', sol)
    requires Explains(ImageOf(grid, h).board, es, b')
    requires WindowDistinct(IdsIn(h + Stamp(es, at, deadline)))
    requires Fold(ImageOf(grid, h), Stamp(es, at, deadline)).expiresAt.Some? <==> b'.checkVote.Some?
    ensures Good(grid, sol, h + Stamp(es, at, deadline))
  {
    var all := h + Stamp(es, at, deadline);
    ImageExtends(grid, h, es, at, deadline);
    NumbersExtend(h, es, at, deadline);
    if es == [] {
      assert all == h;
    } else {
      assert all[|all| - 1].event == es[|es| - 1];
    }
  }

  // --- What a verdict's events do to the image ---

  lemma {:induction false} FoldQuietIds(m: Image, ss: History)
    requires forall i :: 0 <= i < |ss| ==> !CarriesCommand(ss[i].event)
    ensures Fold(m, ss).recent == m.recent && IdsIn(ss) == []
  {
    if ss != [] { FoldQuietIds(m, ss[..|ss| - 1]); }
  }

  ghost predicate HasClose(es: seq<Event>) {
    exists i :: 0 <= i < |es| && es[i].VoteClosed?
  }

  lemma {:induction false} FoldDeadline(m: Image, es: seq<Event>, at: int, deadline: int)
    requires forall i :: 0 <= i < |es| ==> !es[i].VoteOpened?
    ensures Fold(m, Stamp(es, at, deadline)).expiresAt == if HasClose(es) then None else m.expiresAt
  {
    if es != [] {
      var n := |es| - 1;
      FoldDeadline(m, es[..n], at, deadline);
      assert Stamp(es, at, deadline)[..n] == Stamp(es[..n], at, deadline);
      if HasClose(es[..n]) {
        var i :| 0 <= i < n && es[..n][i].VoteClosed?;
        assert es[i].VoteClosed?;
      }
      if HasClose(es) && !es[n].VoteClosed? {
        var i :| 0 <= i < |es| && es[i].VoteClosed?;
        assert es[..n][i].VoteClosed?;
      }
    }
  }

  lemma {:induction false} FoldTimes(m: Image, es: seq<Event>, at: int, deadline: int)
    requires forall i :: 0 <= i < |es| ==> !es[i].GameAbandoned?
    ensures
      var m' := Fold(m, Stamp(es, at, deadline));
      && m'.completedAt == (if CompletionIn(es).Some? then Some(at) else m.completedAt)
      && m'.abandonedAt == m.abandonedAt
  {
    if es != [] {
      var n := |es| - 1;
      FoldTimes(m, es[..n], at, deadline);
      assert Stamp(es, at, deadline)[..n] == Stamp(es[..n], at, deadline);
    }
  }

  /**
   The shape of an accepted command's events: the first one carries the command's id, none
   of the others carries any, and a close is among them exactly when a vote ended.
   */
  ghost predicate Shaped(b: Board, c: Command, v: Verdict)
    requires !c.ExpireVote?
  {
    match v
    case Verdict(es, after, _) =>
      && es != [] && CarriesCommand(es[0]) && IdOf(es[0]) == c.commandId
      && (forall i :: 1 <= i < |es| ==> !CarriesCommand(es[i]) && !es[i].GameAbandoned?)
      && (es[0].VoteOpened? <==> c.CheckPuzzle?)
      && (after.checkVote.Some? ==> !HasClose(es))
      && (after.checkVote.None? && (b.checkVote.Some? || c.CheckPuzzle?) ==> HasClose(es))
      && (after.checkVote.Some? && !c.CheckPuzzle? ==> b.checkVote.Some?)
  }

  ghost predicate TailShape(es: seq<Event>, open: bool) {
    && (forall i :: 0 <= i < |es| ==> !CarriesCommand(es[i]) && !es[i].GameAbandoned?)
    && (open ==> es == [])
    && (!open ==> es != [] && es[0].VoteClosed?)
  }

  lemma TallyShape(b: Board, sol: Solution)
    requires b.checkVote.Some?
    ensures TailShape(ResolveByTally(b, sol).events, ResolveByTally(b, sol).board.checkVote.Some?)
  {}

  lemma TalliedShape(b: Board, c: Command, e: Event, v: Verdict)
    requires !c.ExpireVote? && CarriesCommand(e) && IdOf(e) == c.commandId && (e.VoteOpened? <==> c.CheckPuzzle?)
    requires TailShape(v.events, v.board.checkVote.Some?)
    requires c.CheckPuzzle? || b.checkVote.Some?
    ensures Shaped(b, c, Prepend(e, v))
  {
    var es := Prepend(e, v).events;
    assert forall i :: 1 <= i < |es| ==> es[i] == v.events[i - 1];
    if v.board.checkVote.None? { assert es[1].VoteClosed?; }
  }

  lemma WriteShape(b: Board, c: Command, sol: Solution)
    requires (c.PlaceLetter? || c.ClearCell?) && Mutate(b, c, sol).error.None?
    ensures Shaped(b, c, Mutate(b, c, sol))
  {
    var v := Mutate(b, c, sol);
    if b.checkVote.Some? && v.board.checkVote.None? { assert v.events[1].VoteClosed?; }
  }

  lemma AcceptedShape(b: Board, c: Command, sol: Solution)
    requires !c.ExpireVote? && Apply(b, c, sol).error.None?
    ensures Shaped(b, c, Apply(b, c, sol))
  {
    hide ResolveByTally, Mutate, Shaped, TailShape, WithVoter;
    match c
    case CheckPuzzle(_, _, _) =>
      var mid := b.(seqNo := b.seqNo + 1, checkVote := Some(ProposedVote(b, c)));
      TallyShape(mid, sol);
      TalliedShape(b, c, OpenVote(b, c, sol).events[0], ResolveByTally(mid, sol));
    case CastVote(_, _, _, _) =>
      var mid := b.(seqNo := b.seqNo + 1, checkVote := Some(Ballot(b.checkVote.value, c.who, c.approve)));
      TallyShape(mid, sol);
      TalliedShape(b, c, Cast(b, c, sol).events[0], ResolveByTally(mid, sol));
    case _ => WriteShape(b, c, sol);
  }

  /** Folding shaped events: the id is remembered once, the deadline follows the vote. */
  lemma FoldShaped(m: Image, b: Board, c: Command, v: Verdict, at: int, deadline: int)
    requires !c.ExpireVote? && Shaped(b, c, v)
    ensures
      var ss := Stamp(v.events, at, deadline);
      var m' := Fold(m, ss);
      && IdsIn(ss) == [c.commandId]
      && m'.recent == Remember(m.recent, c.commandId)
      && m'.expiresAt ==
           (if HasClose(v.events) then None else if c.CheckPuzzle? then Some(deadline) else m.expiresAt)
  {
    var es, ss := v.events, Stamp(v.events, at, deadline);
    var head, rest := Stamp([es[0]], at, deadline), Stamp(es[1..], at, deadline);
    assert ss == head + rest;
    FoldAppend(m, head, rest);
    assert head[..0] == [];
    var m1 := Fold(m, head);
    assert m1 == Apply1(m, head[0]);
    FoldQuietIds(m1, rest);
    IdsAppend(head, rest);
    FoldDeadline(m1, es[1..], at, deadline);
    CloseIsLater(es);
  }

  lemma OpeningIsFirst(b: Board, c: Command, v: Verdict)
    requires !c.ExpireVote? && Shaped(b, c, v)
    ensures HasOpening(v.events) <==> c.CheckPuzzle?
  {
    if HasOpening(v.events) {
      var i :| 0 <= i < |v.events| && v.events[i].VoteOpened?;
      assert i == 0;
    }
  }

  /** Remembering the id and reconciling the timer is what folding the stamped events does. */
  lemma PrepareIsFold(f: Fields, c: Command, v: Verdict, at: int, cfg: Config)
    requires !c.ExpireVote? && Shaped(f.image.board, c, v)
    requires Replay(f.image.board, v.events) == v.board
    requires f.image.expiresAt.Some? <==> f.image.board.checkVote.Some?
    ensures
      var m' := Fold(f.image, Stamp(v.events, at, at + cfg.ttl));
      var m := Prepare(f, v, c.commandId, at, cfg).image;
      && m' == (if CompletionIn(v.events).Some? then m.(completedAt := Some(at)) else m)
      && (m'.expiresAt.Some? <==> v.board.checkVote.Some?)
  {
    var deadline := at + cfg.ttl;
    FoldShaped(f.image, f.image.board, c, v, at, deadline);
    OpeningIsFirst(f.image.board, c, v);
    FoldTimes(f.image, v.events, at, deadline);
    FoldIsReplay(f.image, Stamp(v.events, at, deadline));
    EventsOfStamp(v.events, at, deadline);
  }

  lemma CloseIsLater(es: seq<Event>)
    requires es != [] && CarriesCommand(es[0])
    ensures HasClose(es) <==> HasClose(es[1..])
  {
    if HasClose(es) {
      var i :| 0 <= i < |es| && es[i].VoteClosed?;
      assert es[1..][i - 1].VoteClosed?;
    }
    if HasClose(es[1..]) {
      var i :| 0 <= i < |es[1..]| && es[1..][i].VoteClosed?;
      assert es[i + 1].VoteClosed?;
    }
  }
}
