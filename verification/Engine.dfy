/**
 The room as the pure functions see it: the reducer that writes cells, the level-triggered
 completion driver, and the attributed check vote. A command either is refused with an error
 and changes nothing, or yields events at the next sequence numbers and the next board.
 User ids are strings ordered by code unit; timestamps are data, in milliseconds.
 */
module Engine {
  import opened Basics
  import opened Sorting
  import opened Text

  type UserId = string
  type CommandId = string

  /** The puzzle's answers by cell; None at a block or an unsolved cell. */
  type Solution = seq<Option<string>>

  datatype Grid = Grid(cols: nat, rows: nat, blocks: set<int>) {
    function CellCount(): nat { cols * rows }

    predicate Playable(cell: int) {
      0 <= cell < CellCount() && cell !in blocks
    }
  }

  datatype Status = Ongoing | Completed | Abandoned

  datatype Cell = Cell(v: Option<string>, who: UserId)

  datatype CheckVote = CheckVote(
    openedSeq: nat, who: UserId, commandId: CommandId,
    electorate: seq<UserId>, approvals: seq<UserId>, rejections: seq<UserId>)

  datatype Board = Board(
    grid: Grid, status: Status, seqNo: nat, firstFillAt: Option<int>,
    cells: map<int, Cell>, filledCount: int,
    checkedWrong: set<int>, checkCount: nat, checkVote: Option<CheckVote>)
  {
    function PlayableCount(): int { grid.CellCount() - |grid.blocks| }

    predicate Full() { filledCount == PlayableCount() }

    function ValueAt(cell: int): Option<string> {
      if cell in cells then cells[cell].v else None
    }
  }

  datatype Command =
    | PlaceLetter(commandId: CommandId, cell: int, value: string, who: UserId, at: int)
    | ClearCell(commandId: CommandId, cell: int, who: UserId, at: int)
    | CheckPuzzle(commandId: CommandId, who: UserId, electorate: seq<UserId>)
    | CastVote(commandId: CommandId, who: UserId, voteSeq: int, approve: bool)
    | ExpireVote

  datatype Outcome = Passed | Failed | Cancelled
  datatype Reason = Rejected | Expired | GridBroken | Terminal

  datatype Event =
    | CellSet(seqNo: nat, cell: int, value: Option<string>, who: UserId, commandId: CommandId, at: int)
    | PuzzleChecked(seqNo: nat, wrongCells: seq<int>, checkCount: nat, who: UserId, commandId: CommandId)
    | VoteOpened(seqNo: nat, who: UserId, electorate: seq<UserId>, needed: nat, commandId: CommandId)
    | VoteCast(seqNo: nat, voteSeq: nat, who: UserId, approve: bool, commandId: CommandId)
    | VoteClosed(seqNo: nat, voteSeq: nat, outcome: Outcome, reason: Option<Reason>)
    | GameCompleted(seqNo: nat)
    | GameAbandoned(seqNo: nat)  // composed by the actor, never by the engine

  datatype Refusal =
    | GameNotOngoing | InvalidCell | InvalidValue | GridNotFull
    | VotePending | NoVoteOpen | NotElector | AlreadyVoted

  datatype Verdict = Verdict(events: seq<Event>, board: Board, error: Option<Refusal>)

  function Refuse(b: Board, e: Refusal): Verdict { Verdict([], b, Some(e)) }

  // --- The reducer ---

  function Write(b: Board, cell: int, value: Option<string>, who: UserId,
                 commandId: CommandId, at: int, stampsFill: bool): Verdict
  {
    var previous := b.ValueAt(cell);
    var filled := b.filledCount + (if value.Some? then 1 else 0) - (if previous.Some? then 1 else 0);
    var firstFillAt := if b.firstFillAt.None? && stampsFill then Some(at) else b.firstFillAt;
    var marks := if cell in b.checkedWrong && value != previous then b.checkedWrong - {cell} else b.checkedWrong;
    Verdict(
      [CellSet(b.seqNo + 1, cell, value, who, commandId, at)],
      b.(cells := b.cells[cell := Cell(value, who)], seqNo := b.seqNo + 1, filledCount := filled,
         firstFillAt := firstFillAt, checkedWrong := marks),
      None)
  }

  function Reduce(b: Board, c: Command): Verdict
    requires c.PlaceLetter? || c.ClearCell?
  {
    if b.status != Ongoing then Refuse(b, GameNotOngoing)
    else if !b.grid.Playable(c.cell) then Refuse(b, InvalidCell)
    else if c.PlaceLetter? then
      var value := NormalizeValue(c.value);
      if value.None? then Refuse(b, InvalidValue)
      else Write(b, c.cell, value, c.who, c.commandId, c.at, true)
    else Write(b, c.cell, None, c.who, c.commandId, c.at, false)
  }

  // --- Correctness of the whole board ---

  /** The cell has an answer and the board does not hold a value the comparator accepts. */
  predicate Fails(b: Board, sol: Solution, cell: int) {
    && 0 <= cell < |sol| && sol[cell].Some?
    && (b.ValueAt(cell).None? || !Matches(sol[cell].value, b.ValueAt(cell).value))
  }

  predicate Correct(b: Board, sol: Solution) {
    forall cell :: 0 <= cell < |sol| ==> !Fails(b, sol, cell)
  }

  /** Every failing cell, ascending. */
  function Failures(b: Board, sol: Solution): seq<int> {
    AscendingBelow(FailingCells(b, sol, |sol|), |sol|)
  }

  function FailingCells(b: Board, sol: Solution, n: nat): (r: set<int>)
    ensures forall cell :: cell in r <==> 0 <= cell < n && Fails(b, sol, cell)
  {
    if n == 0 then {}
    else if Fails(b, sol, n - 1) then FailingCells(b, sol, n - 1) + {n - 1}
    else FailingCells(b, sol, n - 1)
  }

  // --- The check vote ---

  function Needed(electorate: seq<UserId>): nat { |electorate| / 2 + 1 }

  function WithVoter(voters: seq<UserId>, u: UserId): seq<UserId> {
    Sort(IdLess(), voters + [u])
  }

  function ClosePassed(b: Board, vote: CheckVote, sol: Solution): Verdict {
    var wrong := Failures(b, sol);
    var count := b.checkCount + 1;
    Verdict(
      [VoteClosed(b.seqNo + 1, vote.openedSeq, Passed, None),
       PuzzleChecked(b.seqNo + 2, wrong, count, vote.who, vote.commandId)],
      b.(seqNo := b.seqNo + 2, checkedWrong := Elems(wrong), checkCount := count, checkVote := None),
      None)
  }

  function Elems(s: seq<int>): set<int> { set x | x in s }

  function CloseFailed(b: Board, vote: CheckVote, outcome: Outcome, reason: Reason): Verdict {
    Verdict([VoteClosed(b.seqNo + 1, vote.openedSeq, outcome, Some(reason))],
            b.(seqNo := b.seqNo + 1, checkVote := None), None)
  }

  function ResolveByTally(b: Board, sol: Solution): Verdict {
    if b.checkVote.None? then Verdict([], b, None)
    else
      var vote := b.checkVote.value;
      var need := Needed(vote.electorate);
      if |vote.approvals| >= need then ClosePassed(b, vote, sol)
      else if |vote.electorate| - |vote.rejections| < need then CloseFailed(b, vote, Failed, Rejected)
      else Verdict([], b, None)
  }

  function Prepend(e: Event, v: Verdict): Verdict { v.(events := [e] + v.events) }

  function OpenVote(b: Board, c: Command, sol: Solution): Verdict
    requires c.CheckPuzzle?
  {
    if b.status != Ongoing then Refuse(b, GameNotOngoing)
    else if !b.Full() then Refuse(b, GridNotFull)
    else if b.checkVote.Some? then Refuse(b, VotePending)
    else
      var electorate := Sort(IdLess(), c.electorate);
      var vote := CheckVote(b.seqNo + 1, c.who, c.commandId, electorate, [c.who], []);
      Prepend(
        VoteOpened(b.seqNo + 1, c.who, electorate, Needed(electorate), c.commandId),
        ResolveByTally(b.(seqNo := b.seqNo + 1, checkVote := Some(vote)), sol))
  }

  function Ballot(vote: CheckVote, u: UserId, approve: bool): CheckVote {
    if approve then vote.(approvals := WithVoter(vote.approvals, u))
    else vote.(rejections := WithVoter(vote.rejections, u))
  }

  function Cast(b: Board, c: Command, sol: Solution): Verdict
    requires c.CastVote?
  {
    if b.status != Ongoing then Refuse(b, GameNotOngoing)
    else if b.checkVote.None? || b.checkVote.value.openedSeq != c.voteSeq then Refuse(b, NoVoteOpen)
    else
      var vote := b.checkVote.value;
      if c.who !in vote.electorate then Refuse(b, NotElector)
      else if c.who in vote.approvals || c.who in vote.rejections then Refuse(b, AlreadyVoted)
      else
        Prepend(
          VoteCast(b.seqNo + 1, vote.openedSeq, c.who, c.approve, c.commandId),
          ResolveByTally(b.(seqNo := b.seqNo + 1, checkVote := Some(Ballot(vote, c.who, c.approve))), sol))
  }

  function Expire(b: Board): Verdict {
    if b.checkVote.None? then Verdict([], b, None)
    else CloseFailed(b, b.checkVote.value, Failed, Expired)
  }

  // --- Mutations, completion and cancellation ---

  function Complete(v: Verdict): Verdict {
    var n := v.board.seqNo + 1;
    v.(events := v.events + [GameCompleted(n)],
       board := v.board.(status := Completed, seqNo := n))
  }

  function CancelVote(v: Verdict, reason: Reason): Verdict
    requires v.board.checkVote.Some?
  {
    var closed := CloseFailed(v.board, v.board.checkVote.value, Cancelled, reason);
    v.(events := v.events + closed.events, board := closed.board)
  }

  function Mutate(b: Board, c: Command, sol: Solution): Verdict
    requires c.PlaceLetter? || c.ClearCell?
  {
    var result := Reduce(b, c);
    if result.error.Some? then result
    else
      var next := result.board;
      var willComplete := next.status == Ongoing && next.Full() && Correct(next, sol);
      if next.checkVote.Some? then
        if willComplete then Complete(CancelVote(result, Terminal))
        else if !next.Full() then CancelVote(result, GridBroken)
        else result
      else if willComplete then Complete(result)
      else result
  }

  /** The vote driver: one command, its events and the next board. */
  function Apply(b: Board, c: Command, sol: Solution): Verdict {
    match c
    case CheckPuzzle(_, _, _) => OpenVote(b, c, sol)
    case CastVote(_, _, _, _) => Cast(b, c, sol)
    case ExpireVote => Expire(b)
    case _ => Mutate(b, c, sol)
  }

  // --- The immediate-check driver the vote driver grew out of ---

  /** The immediate check; its event names nobody, written here as the empty id. */
  function CheckNow(b: Board, commandId: CommandId, sol: Solution): Verdict {
    if b.status != Ongoing then Refuse(b, GameNotOngoing)
    else if b.filledCount < b.PlayableCount() then Refuse(b, GridNotFull)
    else
      var wrong := Failures(b, sol);
      Verdict([PuzzleChecked(b.seqNo + 1, wrong, b.checkCount + 1, "", commandId)],
              b.(seqNo := b.seqNo + 1, checkedWrong := Elems(wrong), checkCount := b.checkCount + 1), None)
  }

  function ApplyWithCompletion(b: Board, c: Command, sol: Solution): Verdict
    requires c.PlaceLetter? || c.ClearCell?
  {
    var result := Reduce(b, c);
    if result.error.None? && result.board.status == Ongoing && result.board.Full() && Correct(result.board, sol)
    then Complete(result)
    else result
  }

  // --- The two loops over the answers ---

  /**
   The answers are visited in the order their map yields them, whatever it is; the first
   miss decides.
   */
  method BoardIsCorrect(b: Board, sol: Solution, order: seq<int>) returns (ok: bool)
    requires forall c :: c in order <==> 0 <= c < |sol| && sol[c].Some?
    ensures ok <==> Correct(b, sol)
  {
    for i := 0 to |order|
      invariant forall k :: 0 <= k < i ==> !Fails(b, sol, order[k])
    {
      var c := order[i];
      assert c in order;
      var filled := b.ValueAt(c);
      if filled.None? || !Matches(sol[c].value, filled.value) {
        assert Fails(b, sol, c);
        return false;
      }
    }
    forall c | 0 <= c < |sol| ensures !Fails(b, sol, c) {
      if sol[c].Some? { assert c in order; }
    }
    return true;
  }

  /** Whatever order the map yields, the sorted result is the ascending failures. */
  method ComparatorFailures(b: Board, sol: Solution, order: seq<int>) returns (wrong: seq<int>)
    requires Distinct(order)
    requires forall c :: c in order <==> 0 <= c < |sol| && sol[c].Some?
    ensures wrong == Failures(b, sol)
  {
    wrong := [];
    for i := 0 to |order|
      invariant Distinct(wrong)
      invariant forall c :: c in wrong <==> c in order[..i] && Fails(b, sol, c)
    {
      var c := order[i];
      assert c in order;
      assert c !in order[..i];
      TakeOneMore(order, i);
      var filled := b.ValueAt(c);
      if filled.None? || !Matches(sol[c].value, filled.value) {
        wrong := wrong + [c];
      }
    }
    assert order[..|order|] == order;
    forall c ensures c in wrong <==> c in Failures(b, sol) {
      if Fails(b, sol, c) { assert c in order; }
    }
    SortedDistinctIsAscending(wrong);
    AscendingUnique(Sort(IntLess(), wrong), Failures(b, sol));
    wrong := Sort(IntLess(), wrong);
  }

  lemma SortedDistinctIsAscending(s: seq<int>)
    requires Distinct(s)
    ensures Ascending(Sort(IntLess(), s))
    ensures forall x :: x in Sort(IntLess(), s) <==> x in s
  {
    SortSorts(IntLess(), s);
    SortKeepsDistinct(IntLess(), s);
    SortKeepsMembers(IntLess(), s);
  }
}
