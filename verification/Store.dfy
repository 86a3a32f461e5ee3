/**
 The session's tables for one game: the snapshot row and three append-only logs, written
 together in one transaction. The row's upsert is guarded, so a writer that is behind the
 stored row, or that would change a terminal status, loses the whole transaction.
 */
module Store {
  import opened Basics
  import opened Sorting
  import opened Engine
  import opened Journal

  /** Completion statistics; the active pair is absent on rows older than sittings. */
  datatype Stats = Stats(
    solveTimeSeconds: nat, totalEvents: int, participantCount: nat, checkCount: nat,
    activeSolveSeconds: nat, sittingCount: nat)

  datatype RawCell = RawCell(v: Option<string>, who: Option<UserId>)

  datatype StoredVote = StoredVote(
    openedSeq: nat, who: UserId, commandId: CommandId,
    electorate: seq<UserId>, approvals: seq<UserId>, rejections: seq<UserId>, expiresAt: int)

  datatype Row = Row(
    status: Status, cells: seq<RawCell>, checkedWrong: seq<int>, checkCount: nat,
    checkVote: Option<StoredVote>, lastSeq: nat, firstFillAt: Option<int>,
    completedAt: Option<int>, abandonedAt: Option<int>, stats: Option<Stats>,
    recent: seq<CommandId>)

  datatype Db = Db(row: Option<Row>, cellLog: seq<CellRow>, checkLog: seq<CheckRow>, voteLog: seq<VoteRow>)

  /** What the caller's transaction meets: it lands, it fails, or it lands and the answer is lost. */
  datatype Fault = NoFault | RolledBack | Unreported

  /** The newest number the row knows of; a game nobody has written is at nought. */
  function StoredSeq(db: Db): nat {
    if db.row.None? then 0 else db.row.value.lastSeq
  }

  // --- Insert-if-absent ---

  function CellKey(r: CellRow): nat { r.seqNo }

  function CheckKey(r: CheckRow): nat { r.seqNo }

  function VoteKey(r: VoteRow): nat { r.seqNo }

  predicate Has<R>(log: seq<R>, key: R -> nat, n: nat) {
    exists i :: 0 <= i < |log| && key(log[i]) == n
  }

  /** Rows whose number is already in the log are skipped, the others appended. */
  function AddAbsent<R>(log: seq<R>, rows: seq<R>, key: R -> nat): seq<R> {
    if rows == [] then log
    else
      var before := AddAbsent(log, rows[..|rows| - 1], key);
      var row := rows[|rows| - 1];
      if Has(before, key, key(row)) then before else before + [row]
  }

  // --- The transaction ---

  /** The update applies to an ongoing row or an equal status, and never to a newer row. */
  predicate GuardAllows(stored: Option<Row>, snap: Row) {
    stored.None? ||
    ((stored.value.status == Ongoing || snap.status == stored.value.status)
     && snap.lastSeq >= stored.value.lastSeq)
  }

  datatype Batch = Batch(cells: seq<CellRow>, checks: seq<CheckRow>, votes: seq<VoteRow>)

  function Appended(db: Db, b: Batch): Db {
    Db(db.row, AddAbsent(db.cellLog, b.cells, CellKey),
       AddAbsent(db.checkLog, b.checks, CheckKey), AddAbsent(db.voteLog, b.votes, VoteKey))
  }

  datatype FlushResult = FlushResult(db: Db, ok: bool)

  /** One flush, all or nothing. */
  function Flush(db: Db, b: Batch, snap: Row, fault: Fault): FlushResult
  {
    if fault.RolledBack? || !GuardAllows(db.row, snap) then FlushResult(db, false)
    else FlushResult(Appended(db, b).(row := Some(snap)), fault.NoFault?)
  }

  /** Distinct writers over the cell log. */
  function Participants(log: seq<CellRow>): nat {
    |set i | 0 <= i < |log| :: log[i].userId|
  }

  function SeqLess(): (CellRow, CellRow) -> bool { (a: CellRow, b: CellRow) => a.seqNo < b.seqNo }

  /** The cell log's timestamps in sequence order. */
  function EventTimes(log: seq<CellRow>): seq<int> {
    var ordered := Sort(SeqLess(), log);
    seq(|ordered|, i requires 0 <= i < |ordered| => ordered[i].at)
  }

  /** The completing flush: the snapshot is built from the logs as this transaction leaves them. */
  function FlushTerminal(db: Db, b: Batch, build: (nat, seq<int>) -> Row, fault: Fault): FlushResult
  {
    var after := Appended(db, b);
    Flush(db, b, build(Participants(after.cellLog), EventTimes(after.cellLog)), fault)
  }

  // --- The tables as the session updates them ---

  class GameStore {
    var row: Option<Row>
    var cellLog: seq<CellRow>
    var checkLog: seq<CheckRow>
    var voteLog: seq<VoteRow>

    function Value(): Db
      reads this
    {
      Db(row, cellLog, checkLog, voteLog)
    }

    constructor ()
      ensures Value() == Db(None, [], [], [])
    {
      row, cellLog, checkLog, voteLog := None, [], [], [];
    }

    method InsertEvents(events: seq<CellRow>)
      modifies this`cellLog
      ensures cellLog == AddAbsent(old(cellLog), events, CellKey)
    {
      for i := 0 to |events|
        invariant cellLog == AddAbsent(old(cellLog), events[..i], CellKey)
      {
        assert events[..i + 1][..i] == events[..i];
        if !Has(cellLog, CellKey, events[i].seqNo) {
          cellLog := cellLog + [events[i]];
        }
      }
      assert events[..|events|] == events;
    }

    method InsertCheckEvents(checks: seq<CheckRow>)
      modifies this`checkLog
      ensures checkLog == AddAbsent(old(checkLog), checks, CheckKey)
    {
      for i := 0 to |checks|
        invariant checkLog == AddAbsent(old(checkLog), checks[..i], CheckKey)
      {
        assert checks[..i + 1][..i] == checks[..i];
        if !Has(checkLog, CheckKey, checks[i].seqNo) {
          checkLog := checkLog + [checks[i]];
        }
      }
      assert checks[..|checks|] == checks;
    }

    method InsertVoteEvents(votes: seq<VoteRow>)
      modifies this`voteLog
      ensures voteLog == AddAbsent(old(voteLog), votes, VoteKey)
    {
      for i := 0 to |votes|
        invariant voteLog == AddAbsent(old(voteLog), votes[..i], VoteKey)
      {
        assert votes[..i + 1][..i] == votes[..i];
        if !Has(voteLog, VoteKey, votes[i].seqNo) {
          voteLog := voteLog + [votes[i]];
        }
      }
      assert votes[..|votes|] == votes;
    }

    /** True when the guard let the row be written. */
    method UpsertSnapshot(snap: Row) returns (applied: bool)
      modifies this`row
      ensures applied == GuardAllows(old(row), snap)
      ensures row == if applied then Some(snap) else old(row)
    {
      applied := GuardAllows(row, snap);
      if applied { row := Some(snap); }
    }

    method Restore(saved: Db)
      modifies this
      ensures Value() == saved
    {
      row, cellLog, checkLog, voteLog := saved.row, saved.cellLog, saved.checkLog, saved.voteLog;
    }

    method FlushToPostgres(b: Batch, snap: Row, fault: Fault) returns (ok: bool)
      modifies this
      ensures Value() == Flush(old(Value()), b, snap, fault).db
      ensures ok == Flush(old(Value()), b, snap, fault).ok
    {
      var begun := Value();
      InsertEvents(b.cells);
      InsertCheckEvents(b.checks);
      InsertVoteEvents(b.votes);
      var applied := UpsertSnapshot(snap);
      if !applied || fault.RolledBack? {
        Restore(begun);
        return false;
      }
      return fault.NoFault?;
    }

    method FlushTerminalToPostgres(b: Batch, build: (nat, seq<int>) -> Row, fault: Fault) returns (ok: bool)
      modifies this
      ensures Value() == FlushTerminal(old(Value()), b, build, fault).db
      ensures ok == FlushTerminal(old(Value()), b, build, fault).ok
    {
      var begun := Value();
      InsertEvents(b.cells);
      InsertCheckEvents(b.checks);
      InsertVoteEvents(b.votes);
      var applied := UpsertSnapshot(build(Participants(cellLog), EventTimes(cellLog)));
      if !applied || fault.RolledBack? {
        Restore(begun);
        return false;
      }
      return fault.NoFault?;
    }
  }

  // --- What the guard gives, whoever writes ---

  datatype Attempt = Attempt(batch: Batch, snap: Row, fault: Fault)

  function AfterAttempts(db: Db, attempts: seq<Attempt>): Db
  {
    if attempts == [] then db
    else
      var last := attempts[|attempts| - 1];
      Flush(AfterAttempts(db, attempts[..|attempts| - 1]), last.batch, last.snap, last.fault).db
  }

  ghost predicate Advances(a: Db, b: Db) {
    && (a.row.Some? ==>
          && b.row.Some? && a.row.value.lastSeq <= b.row.value.lastSeq
          && (a.row.value.status != Ongoing ==> b.row.value.status == a.row.value.status))
    && a.cellLog <= b.cellLog && a.checkLog <= b.checkLog && a.voteLog <= b.voteLog
  }

  lemma {:induction false} AddAbsentExtends<R>(log: seq<R>, rows: seq<R>, key: R -> nat)
    ensures log <= AddAbsent(log, rows, key)
  {
    if rows != [] { AddAbsentExtends(log, rows[..|rows| - 1], key); }
  }

  lemma FlushAdvances(db: Db, b: Batch, snap: Row, fault: Fault)
    ensures Advances(db, Flush(db, b, snap, fault).db)
  {
    AddAbsentExtends(db.cellLog, b.cells, CellKey);
    AddAbsentExtends(db.checkLog, b.checks, CheckKey);
    AddAbsentExtends(db.voteLog, b.votes, VoteKey);
  }

  /**
   Any number of writers in any interleaving: the stored sequence number never falls, a
   terminal status never changes, and the logs only grow at the end.
   */
  lemma {:induction false} AnyWritersOnlyAdvance(db: Db, attempts: seq<Attempt>)
    ensures Advances(db, AfterAttempts(db, attempts))
  {
    if attempts != [] {
      var last := attempts[|attempts| - 1];
      var front := attempts[..|attempts| - 1];
      AnyWritersOnlyAdvance(db, front);
      FlushAdvances(AfterAttempts(db, front), last.batch, last.snap, last.fault);
    }
  }
}
