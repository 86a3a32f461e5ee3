/**
 Reading the three logs directly, without replaying anything: which sequence numbers they
 hold, what the last row of a cell says, and what the vote rows say about an open vote.
 */
module LogReading {
  import opened Basics
  import opened Sorting
  import opened Engine
  import opened RoomLaws
  import opened Journal
  import opened Store
  import opened Snapshots
  import opened Persistence

  // --- Cells ---

  /** What the newest row of a cell says; an empty cell if it has no row. */
  ghost function LastRow(log: seq<CellRow>, cell: int): RawCell {
    if log == [] then EMPTY_CELL
    else
      var r := log[|log| - 1];
      if r.cell == cell then RawCell(r.value, Some(r.userId)) else LastRow(log[..|log| - 1], cell)
  }

  ghost function HeldBy(b: Board, cell: int): RawCell {
    if cell in b.cells then RawCell(b.cells[cell].v, Some(b.cells[cell].who)) else EMPTY_CELL
  }

  lemma {:induction false} LastRowWins(grid: Grid, h: History, cell: int)
    ensures LastRow(CellRows(h), cell) == HeldBy(ImageOf(grid, h).board, cell)
  {
    if h != [] {
      var front, s := h[..|h| - 1], h[|h| - 1];
      LastRowWins(grid, front, cell);
      if s.event.CellSet? {
        assert CellRows(h)[..|CellRows(h)| - 1] == CellRows(front);
      } else {
        assert CellRows(h) == CellRows(front) + [] == CellRows(front);
      }
    }
  }

  // --- Checks ---

  lemma {:induction false} OneRowPerCheck(h: History)
    ensures |CheckRows(h)| == ChecksIn(Events(h))
  {
    if h == [] {
      assert Events(h) == [];
    } else {
      OneRowPerCheck(h[..|h| - 1]);
      assert Events(h)[..|h| - 1] == Events(h[..|h| - 1]);
    }
  }

  // --- Votes ---

  /** An opening row followed by no close and no other opening. */
  ghost predicate Standing(log: seq<VoteRow>, i: int) {
    && 0 <= i < |log| && log[i].kind == Opened
    && (forall j :: i < j < |log| ==> log[j].kind == CastBallot)
  }

  ghost predicate BallotRow(log: seq<VoteRow>, i: int, u: UserId, approve: bool) {
    exists j :: 0 <= i < j < |log| && log[j].userId == Some(u) && log[j].approve == Some(approve)
  }

  /** The vote's identity and roster are its opening row's; its ballots are the rows after it. */
  ghost predicate ReadsAs(log: seq<VoteRow>, i: int, v: CheckVote)
    requires Standing(log, i)
  {
    && v.openedSeq == log[i].seqNo && log[i].userId == Some(v.who) && log[i].electorate == Some(v.electorate)
    && (forall u :: u in v.approvals <==> u == v.who || BallotRow(log, i, u, true))
    && (forall u :: u in v.rejections <==> BallotRow(log, i, u, false))
  }

  ghost predicate VoteInLog(log: seq<VoteRow>, vote: Option<CheckVote>) {
    && (vote.None? ==> forall i :: !Standing(log, i))
    && (vote.Some? ==> exists i :: Standing(log, i) && ReadsAs(log, i, vote.value))
  }

  lemma BallotRowOneMore(log: seq<VoteRow>, r: VoteRow, i: int, u: UserId, approve: bool)
    requires 0 <= i < |log|
    ensures BallotRow(log + [r], i, u, approve) <==>
      BallotRow(log, i, u, approve) || (r.userId == Some(u) && r.approve == Some(approve))
  {
    var all := log + [r];
    if BallotRow(log, i, u, approve) {
      var j :| 0 <= i < j < |log| && log[j].userId == Some(u) && log[j].approve == Some(approve);
      assert all[j] == log[j];
    }
    if r.userId == Some(u) && r.approve == Some(approve) { assert all[|log|] == r; }
    if BallotRow(all, i, u, approve) {
      var j :| 0 <= i < j < |all| && all[j].userId == Some(u) && all[j].approve == Some(approve);
      if j < |log| { assert all[j] == log[j]; }
    }
  }

  lemma OpeningStands(log: seq<VoteRow>, s: Stamped)
    requires s.event.VoteOpened?
    ensures
      var e := s.event;
      VoteInLog(log + [VoteRowOf(e, s.at)], Some(CheckVote(e.seqNo, e.who, e.commandId, e.electorate, [e.who], [])))
  {
    var e, all := s.event, log + [VoteRowOf(s.event, s.at)];
    var v := CheckVote(e.seqNo, e.who, e.commandId, e.electorate, [e.who], []);
    assert Standing(all, |log|) && ReadsAs(all, |log|, v);
  }

  lemma CloseStandsDown(log: seq<VoteRow>, s: Stamped)
    requires s.event.VoteClosed?
    ensures VoteInLog(log + [VoteRowOf(s.event, s.at)], None)
  {
    var all := log + [VoteRowOf(s.event, s.at)];
    forall i ensures !Standing(all, i) {
      assert all[|log|].kind == Closed;
    }
  }

  lemma BallotIsRead(log: seq<VoteRow>, s: Stamped, vote: Option<CheckVote>)
    requires s.event.VoteCast? && VoteInLog(log, vote)
    ensures
      var e := s.event;
      VoteInLog(log + [VoteRowOf(e, s.at)], if vote.None? then None else Some(Ballot(vote.value, e.who, e.approve)))
  {
    var e, r := s.event, VoteRowOf(s.event, s.at);
    var all := log + [r];
    forall i ensures Standing(all, i) <==> Standing(log, i) {
      if Standing(all, i) {
        assert i < |log|;
        forall j | i < j < |log| ensures log[j].kind == CastBallot { assert all[j] == log[j]; }
      }
    }
    if vote.Some? {
      var i :| Standing(log, i) && ReadsAs(log, i, vote.value);
      forall u, a ensures BallotRow(all, i, u, a) <==> BallotRow(log, i, u, a) || (u == e.who && a == e.approve) {
        BallotRowOneMore(log, r, i, u, a);
      }
      SortKeepsMembers(IdLess(), (if e.approve then vote.value.approvals else vote.value.rejections) + [e.who]);
      assert Standing(all, i) && ReadsAs(all, i, Ballot(vote.value, e.who, e.approve));
    }
  }

  /** The open vote is what the standing rows say, and none is open when no row stands. */
  lemma {:induction false} VoteRowsTell(grid: Grid, h: History)
    ensures VoteInLog(VoteRows(h), ImageOf(grid, h).board.checkVote)
  {
    if h != [] {
      var front, s := h[..|h| - 1], h[|h| - 1];
      VoteRowsTell(grid, front);
      var log := VoteRows(front);
      if s.event.VoteOpened? { OpeningStands(log, s); }
      else if s.event.VoteClosed? { CloseStandsDown(log, s); }
      else if s.event.VoteCast? { BallotIsRead(log, s, ImageOf(grid, front).board.checkVote); }
      else { assert VoteRows(h) == log + [] == log; }
    }
  }

  // --- Which numbers the logs hold ---

  /** Exactly one of four: a cell row, a check row, a vote row, or the terminal event itself. */
  ghost predicate HeldOnce(db: Db, lastSeq: nat, status: Status, n: nat) {
    var terminal := status != Ongoing;
    var c, k, v := Has(db.cellLog, CellKey, n), Has(db.checkLog, CheckKey, n), Has(db.voteLog, VoteKey, n);
    && ((1 <= n <= lastSeq) <==> (c || k || v || (terminal && n == lastSeq)))
    && !(c && k) && !(c && v) && !(k && v)
    && (terminal && n == lastSeq ==> !c && !k && !v)
  }

  lemma NumbersArePartitioned(grid: Grid, sol: Solution, db: Db, h: History, n: nat)
    requires Good(grid, sol, h) && Stored(grid, db, h) && h != []
    ensures HeldOnce(db, |h|, ImageOf(grid, h).board.status, n)
  {
    LogsAreKeyed();
    RowAt(h, CellOf, CellKey, n);
    RowAt(h, CheckOf, CheckKey, n);
    RowAt(h, VoteOf, VoteKey, n);
  }
}
