/**
 The tables against the run, row by row: every stored event has its own row in its own log, with
 its number, user, value and time, the logs ascend, and the row's first fill is the log's first.
 */
module RunLogs {
  import opened Basics
  import opened Sorting
  import opened Engine
  import opened RoomLaws
  import opened Journal
  import opened Store
  import opened Actor
  import opened Persistence
  import opened World

  // --- Every event's row ---

  /** The event's row is in its log; a terminal event has none, and the snapshot row says it instead. */
  ghost predicate Logged(db: Db, s: Stamped) {
    match s.event
    case CellSet(n, cell, value, who, _, at) => CellRow(n, cell, who, value, at) in db.cellLog
    case PuzzleChecked(n, _, _, who, _) => CheckRow(n, who, s.at) in db.checkLog
    case VoteOpened(n, who, electorate, _, _) =>
      VoteRow(n, Opened, Some(who), None, n, Some(electorate), None, None, s.at) in db.voteLog
    case VoteCast(n, voteSeq, who, approve, _) =>
      VoteRow(n, CastBallot, Some(who), Some(approve), voteSeq, None, None, None, s.at) in db.voteLog
    case VoteClosed(n, voteSeq, outcome, reason) =>
      VoteRow(n, Closed, None, None, voteSeq, None, Some(outcome), reason, s.at) in db.voteLog
    case GameCompleted(n) =>
      db.row.Some? && db.row.value.status == Completed && db.row.value.lastSeq == n
      && db.row.value.completedAt == Some(s.at)
    case GameAbandoned(n) =>
      db.row.Some? && db.row.value.status == Abandoned && db.row.value.lastSeq == n
      && db.row.value.abandonedAt == Some(s.at)
  }

  lemma {:induction false} RowIsThere<R>(h: History, i: nat, pick: Stamped -> Option<R>)
    requires i < |h| && pick(h[i]).Some?
    ensures pick(h[i]).value in Rows(h, pick)
  {
    if i < |h| - 1 { RowIsThere(h[..|h| - 1], i, pick); }
  }

  /** Numbers in the order of the log, which is the order of the events. */
  ghost predicate Ascends<R>(log: seq<R>, key: R -> nat) {
    forall i, j :: 0 <= i < j < |log| ==> key(log[i]) < key(log[j])
  }

  lemma {:induction false} RowsAscend<R(!new)>(h: History, pick: Stamped -> Option<R>, key: R -> nat)
    requires Numbered(h) && Keyed(pick, key)
    ensures Ascends(Rows(h, pick), key)
  {
    if h != [] {
      var front := h[..|h| - 1];
      RowsAscend(front, pick, key);
      forall i | 0 <= i < |Rows(front, pick)| ensures key(Rows(front, pick)[i]) < |h| {
        RowAt(front, pick, key, key(Rows(front, pick)[i]));
      }
    }
  }

  lemma LastIsTerminal(grid: Grid, sol: Solution, h: History, i: nat)
    requires Good(grid, sol, h) && i < |h| && IsTerminal(h[i].event)
    ensures i == |h| - 1
  {}

  lemma StoredEventIsLogged(grid: Grid, sol: Solution, db: Db, h: History, i: nat)
    requires Good(grid, sol, h) && Stored(grid, db, h) && i < |h|
    ensures Logged(db, h[i])
  {
    var s := h[i];
    if s.event.CellSet? {
      RowIsThere(h, i, CellOf);
    } else if s.event.PuzzleChecked? {
      RowIsThere(h, i, CheckOf);
    } else if IsVoteEvent(s.event) {
      RowIsThere(h, i, VoteOf);
    } else {
      LastIsTerminal(grid, sol, h, i);
    }
  }

  /**
   In every reachable state: every event of the run up to last_seq has its row, with its own number,
   user, value and time, and each log lists its rows by ascending number.
   */
  lemma TablesHoldTheRun(grid: Grid, cfg: Config, steps: seq<Step>)
    requires PuzzleOk(grid, cfg.solution)
    ensures
      var db, h := After(grid, cfg, Start(), steps).db, HistoryOf(grid, cfg, steps);
      && StoredSeq(db) <= |h|
      && (forall i :: 0 <= i < StoredSeq(db) ==> h[i].event.seqNo == i + 1 && Logged(db, h[i]))
      && Ascends(db.cellLog, (r: CellRow) => r.seqNo)
      && Ascends(db.checkLog, (r: CheckRow) => r.seqNo)
      && Ascends(db.voteLog, (r: VoteRow) => r.seqNo)
  {
    hide Good, Logged;
    EveryRunIsCoherent(grid, cfg, steps);
    var w, g := After(grid, cfg, Start(), steps), LedgerOf(grid, cfg, steps);
    StoredReach(grid, cfg, w, g);
    if w.live.None? { assert g.h[..g.k] == g.h; }
    var h := g.h[..g.k];
    GoodIsNumbered(grid, cfg.solution, h);
    forall i | 0 <= i < g.k ensures g.h[i].event.seqNo == i + 1 && Logged(w.db, g.h[i]) {
      StoredEventIsLogged(grid, cfg.solution, w.db, h, i);
    }
    LogsAreKeyed();
    RowsAscend(h, CellOf, CellKey);
    RowsAscend(h, CheckOf, CheckKey);
    RowsAscend(h, VoteOf, VoteKey);
  }

  lemma GoodIsNumbered(grid: Grid, sol: Solution, h: History)
    requires Good(grid, sol, h)
    ensures Numbered(h)
  {}

  // --- The first fill ---

  ghost predicate FirstFillIs(log: seq<CellRow>, firstFillAt: Option<int>) {
    && (firstFillAt.None? ==> forall i :: 0 <= i < |log| ==> log[i].value.None?)
    && (firstFillAt.Some? ==> exists i :: FillsFirst(log, i) && log[i].at == firstFillAt.value)
  }

  ghost predicate FillsFirst(log: seq<CellRow>, i: int) {
    && 0 <= i < |log| && log[i].value.Some?
    && (forall j :: 0 <= j < i ==> log[j].value.None?)
  }

  lemma {:induction false} FirstFillIsLogged(grid: Grid, h: History)
    ensures FirstFillIs(CellRows(h), ImageOf(grid, h).board.firstFillAt)
  {
    if h != [] {
      var front, s := h[..|h| - 1], h[|h| - 1];
      FirstFillIsLogged(grid, front);
      var log, first := CellRows(front), ImageOf(grid, front).board.firstFillAt;
      if s.event.CellSet? {
        assert CellRows(h) == log + [CellRowOf(s.event)];
        if first.Some? {
          var i :| FillsFirst(log, i) && log[i].at == first.value;
          assert FillsFirst(CellRows(h), i);
        } else if s.event.value.Some? {
          assert FillsFirst(CellRows(h), |log|);
        }
      } else {
        assert CellRows(h) == log + [] == log;
      }
    }
  }

  /** In every reachable state the stored first fill is the time of the log's first row with a value. */
  lemma StoredFirstFillIsTheLogs(grid: Grid, cfg: Config, steps: seq<Step>)
    requires PuzzleOk(grid, cfg.solution)
    ensures
      var db := After(grid, cfg, Start(), steps).db;
      db.row.Some? ==> FirstFillIs(db.cellLog, db.row.value.firstFillAt)
  {
    hide Good;
    EveryRunIsCoherent(grid, cfg, steps);
    var w, g := After(grid, cfg, Start(), steps), LedgerOf(grid, cfg, steps);
    if w.live.None? { assert g.h[..g.k] == g.h; }
    FirstFillIsLogged(grid, g.h[..g.k]);
  }

  // --- How many rows there are ---

  lemma {:induction false} OneRowPerEvent(h: History)
    requires forall i :: 0 <= i < |h| ==> !IsTerminal(h[i].event)
    ensures |CellRows(h)| + |CheckRows(h)| + |VoteRows(h)| == |h|
  {
    if h != [] { OneRowPerEvent(h[..|h| - 1]); }
  }

  /** A finished game's rows are one fewer than its terminal number. */
  lemma FinishedGameIsCounted(grid: Grid, cfg: Config, steps: seq<Step>)
    requires PuzzleOk(grid, cfg.solution)
    ensures
      var db := After(grid, cfg, Start(), steps).db;
      db.row.Some? && db.row.value.status != Ongoing ==>
        |db.cellLog| + |db.checkLog| + |db.voteLog| + 1 == db.row.value.lastSeq
  {
    EveryRunIsCoherent(grid, cfg, steps);
    var w, g := After(grid, cfg, Start(), steps), LedgerOf(grid, cfg, steps);
    if w.live.None? { assert g.h[..g.k] == g.h; }
    if w.db.row.Some? && w.db.row.value.status != Ongoing {
      StoredRowsAreCounted(grid, cfg.solution, w.db, g.h[..g.k]);
    }
  }

  lemma StoredRowsAreCounted(grid: Grid, sol: Solution, db: Db, h: History)
    requires Good(grid, sol, h) && Stored(grid, db, h) && db.row.Some? && db.row.value.status != Ongoing
    ensures |db.cellLog| + |db.checkLog| + |db.voteLog| + 1 == db.row.value.lastSeq
  {
    OneRowPerEvent(h[..|h| - 1]);
  }

  // --- The times as the log lists them ---

  /** The log's timestamps, in the log's own order. */
  function LogTimes(log: seq<CellRow>): seq<int> {
    seq(|log|, i requires 0 <= i < |log| => log[i].at)
  }

  /** The log is in sequence order already, so ordering it again changes nothing. */
  lemma TimesInLogOrder(log: seq<CellRow>)
    requires Ascends(log, (r: CellRow) => r.seqNo)
    ensures EventTimes(log) == LogTimes(log)
  {
    SortIsIdentityOnSorted(SeqLess(), log);
  }
}
