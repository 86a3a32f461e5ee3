/**
 What the engine answers, told without the engine: when each command is refused and with which
 error, which events an accepted one yields in which order, and what the board holds afterwards.
 */
module Verdicts {
  import opened Basics
  import opened Sorting
  import opened Text
  import opened Engine
  import opened RoomLaws

  // --- The words the rest is told in ---

  predicate OnGrid(b: Board, cell: int) {
    0 <= cell < b.grid.cols * b.grid.rows && cell !in b.grid.blocks
  }

  ghost predicate EveryCellFilled(b: Board) {
    forall cell :: OnGrid(b, cell) ==> b.ValueAt(cell).Some?
  }

  ghost predicate WrongAt(b: Board, sol: Solution, cell: int) {
    && 0 <= cell < |sol| && sol[cell].Some?
    && (b.ValueAt(cell).None? || !Right(sol[cell].value, b.ValueAt(cell).value))
  }

  ghost predicate AllRight(b: Board, sol: Solution) {
    forall cell :: 0 <= cell < |sol| ==> !WrongAt(b, sol, cell)
  }

  /** The capitals of the letters, everything else as it was. */
  ghost predicate Raised(raw: string, value: string) {
    |value| == |raw| && forall i :: 0 <= i < |raw| ==> SameLetter(value[i], raw[i]) && !('a' <= value[i] <= 'z')
  }

  predicate VoteNumbered(b: Board, n: int) {
    b.checkVote.Some? && b.checkVote.value.openedSeq == n
  }

  /** More than half of the electorate said yes. */
  predicate Carried(vote: CheckVote) { 2 * |vote.approvals| > |vote.electorate| }

  /** So many said no that more than half cannot say yes any more. */
  predicate Lost(vote: CheckVote) { 2 * (|vote.electorate| - |vote.rejections|) <= |vote.electorate| }

  lemma FailingIsWrong(b: Board, sol: Solution)
    ensures forall cell :: Fails(b, sol, cell) <==> WrongAt(b, sol, cell)
    ensures Correct(b, sol) <==> AllRight(b, sol)
  {
    forall cell ensures Fails(b, sol, cell) <==> WrongAt(b, sol, cell) {
      if 0 <= cell < |sol| && sol[cell].Some? && b.ValueAt(cell).Some? {
        MatchesMeans(sol[cell].value, b.ValueAt(cell).value);
      }
    }
  }

  lemma FullIsFilled(b: Board, sol: Solution)
    requires Sound(b, sol)
    ensures b.Full() <==> EveryCellFilled(b)
  {
    FullMeansEveryCell(b);
  }

  // --- Refusals ---

  /** When each error is the answer; at most one of these holds. */
  ghost predicate RefusedWith(b: Board, c: Command, e: Refusal)
    requires !c.ExpireVote?
  {
    var writes, inPlay := c.PlaceLetter? || c.ClearCell?, b.status == Ongoing;
    match e
    case GameNotOngoing => !inPlay
    case InvalidCell => inPlay && writes && !OnGrid(b, c.cell)
    case InvalidValue =>
      inPlay && c.PlaceLetter? && OnGrid(b, c.cell)
      && !(1 <= |c.value| <= 10 && forall i :: 0 <= i < |c.value| ==> LetterOrDigit(c.value[i]))
    case GridNotFull => inPlay && c.CheckPuzzle? && !EveryCellFilled(b)
    case VotePending => inPlay && c.CheckPuzzle? && EveryCellFilled(b) && b.checkVote.Some?
    case NoVoteOpen => inPlay && c.CastVote? && !VoteNumbered(b, c.voteSeq)
    case NotElector =>
      inPlay && c.CastVote? && VoteNumbered(b, c.voteSeq) && c.who !in b.checkVote.value.electorate
    case AlreadyVoted =>
      inPlay && c.CastVote? && VoteNumbered(b, c.voteSeq) && c.who in b.checkVote.value.electorate
      && (c.who in b.checkVote.value.approvals || c.who in b.checkVote.value.rejections)
  }

  lemma WriteRefusals(b: Board, c: Command, sol: Solution)
    requires c.PlaceLetter? || c.ClearCell?
    ensures
      var v := Apply(b, c, sol);
      && (forall e :: v.error == Some(e) <==> RefusedWith(b, c, e))
      && (v.error.Some? ==> v.events == [] && v.board == b)
  {
    hide Correct, EveryCellFilled;
    assert b.grid.Playable(c.cell) <==> OnGrid(b, c.cell);
    assert Apply(b, c, sol).error == Reduce(b, c).error;
  }

  lemma ProposalRefusals(b: Board, c: Command, sol: Solution)
    requires Sound(b, sol) && c.CheckPuzzle?
    ensures
      var v := Apply(b, c, sol);
      && (forall e :: v.error == Some(e) <==> RefusedWith(b, c, e))
      && (v.error.Some? ==> v.events == [] && v.board == b)
  {
    hide Sound, ResolveByTally, EveryCellFilled;
    FullIsFilled(b, sol);
    TallyNeverErrs(b.(seqNo := b.seqNo + 1, checkVote := Some(ProposedVote(b, c))), sol);
  }

  lemma BallotRefusals(b: Board, c: Command, sol: Solution)
    requires c.CastVote?
    ensures
      var v := Apply(b, c, sol);
      && (forall e :: v.error == Some(e) <==> RefusedWith(b, c, e))
      && (v.error.Some? ==> v.events == [] && v.board == b)
  {
    hide ResolveByTally, EveryCellFilled;
    if VoteNumbered(b, c.voteSeq) {
      TallyNeverErrs(b.(seqNo := b.seqNo + 1, checkVote := Some(Ballot(b.checkVote.value, c.who, c.approve))), sol);
    }
  }

  /** A command is refused with exactly the error whose case it is, and then nothing happens. */
  lemma RefusalsAreExact(b: Board, c: Command, sol: Solution)
    requires Sound(b, sol) && !c.ExpireVote?
    ensures
      var v := Apply(b, c, sol);
      && (forall e :: v.error == Some(e) <==> RefusedWith(b, c, e))
      && (v.error.Some? ==> v.events == [] && v.board == b)
  {
    hide Apply, Sound, RefusedWith;
    match c
    case CheckPuzzle(_, _, _) => ProposalRefusals(b, c, sol);
    case CastVote(_, _, _, _) => BallotRefusals(b, c, sol);
    case _ => WriteRefusals(b, c, sol);
  }

  // --- Accepted writes ---

  /** The one cell holds the value and the writer; a mark on it goes with a changed value only. */
  ghost predicate Leaves(b: Board, c: Command, value: Option<string>, after: Board)
    requires c.PlaceLetter? || c.ClearCell?
  {
    && after.cells == b.cells[c.cell := Cell(value, c.who)]
    && (forall cell :: cell in after.checkedWrong <==>
          cell in b.checkedWrong && !(cell == c.cell && value != b.ValueAt(cell)))
    && after.firstFillAt == (if b.firstFillAt.None? && c.PlaceLetter? then Some(c.at) else b.firstFillAt)
    && after.checkCount == b.checkCount
  }

  /** A full right board completes the game; otherwise a hole breaks an open vote; otherwise nothing more. */
  ghost predicate WriteEnds(b: Board, rest: seq<Event>, after: Board, sol: Solution) {
    var n, open := b.seqNo + 2, b.checkVote;
    if EveryCellFilled(after) && AllRight(after, sol) then
      && after.status == Completed && after.checkVote.None?
      && rest == if open.None? then [GameCompleted(n)]
                 else [VoteClosed(n, open.value.openedSeq, Cancelled, Some(Terminal)), GameCompleted(n + 1)]
    else
      && after.status == Ongoing
      && (if open.Some? && !EveryCellFilled(after)
          then after.checkVote.None? && rest == [VoteClosed(n, open.value.openedSeq, Cancelled, Some(GridBroken))]
          else after.checkVote == open && rest == [])
  }

  /**
   An accepted write first says the cell, the raised value or none, the sender, the id and the time;
   then it ends a vote or the game, or nothing.
   */
  lemma WriteSays(b: Board, c: Command, sol: Solution)
    requires Sound(b, sol) && (c.PlaceLetter? || c.ClearCell?) && Apply(b, c, sol).error.None?
    ensures
      var v := Apply(b, c, sol);
      && v.events != [] && v.events[0].CellSet?
      && var value := v.events[0].value;
      && v.events[0] == CellSet(b.seqNo + 1, c.cell, value, c.who, c.commandId, c.at)
      && (c.ClearCell? ==> value.None?)
      && (c.PlaceLetter? ==> value.Some? && Raised(c.value, value.value))
      && Leaves(b, c, value, v.board)
      && WriteEnds(b, v.events[1..], v.board, sol)
  {
    hide Sound, EveryCellFilled, AllRight, Leaves, Written, Reduce, Apply, Correct;
    var v, first := Apply(b, c, sol), Reduce(b, c);
    ReduceLaws(b, c, sol);
    EventsAfter(b, c, sol);
    FirstSays(b, c, sol);
    WrittenIsFilled(b, first, sol);
    FailingIsWrong(first.board, sol);
    SameCellsSameTruth(first.board, v.board, sol);
    BoardAfter(b, c, sol);
  }

  lemma FirstSays(b: Board, c: Command, sol: Solution)
    requires (c.PlaceLetter? || c.ClearCell?) && Apply(b, c, sol).error.None?
    ensures
      var first, v := Reduce(b, c), Apply(b, c, sol);
      && first.error.None? && |first.events| == 1 && first.events[0].CellSet?
      && var value := first.events[0].value;
      && first.events[0] == CellSet(b.seqNo + 1, c.cell, value, c.who, c.commandId, c.at)
      && (c.ClearCell? ==> value.None?)
      && (c.PlaceLetter? ==> value.Some? && Raised(c.value, value.value))
      && Leaves(b, c, value, v.board)
  {
    hide Correct;
    PlacedIsRaised(c, Reduce(b, c).events[0].value);
  }

  /** What an accepted write does to the vote and the game, by what the written board is. */
  lemma BoardAfter(b: Board, c: Command, sol: Solution)
    requires (c.PlaceLetter? || c.ClearCell?) && Apply(b, c, sol).error.None?
    ensures
      var next, after := Reduce(b, c).board, Apply(b, c, sol).board;
      if next.Full() && Correct(next, sol) then after.status == Completed && after.checkVote.None?
      else
        && after.status == Ongoing
        && after.checkVote == if b.checkVote.Some? && !next.Full() then None else b.checkVote
  {
    hide Correct;
  }

  lemma PlacedIsRaised(c: Command, value: Option<string>)
    requires c.PlaceLetter? ==> value == NormalizeValue(c.value) && value.Some?
    ensures c.PlaceLetter? ==> Raised(c.value, value.value)
  {}

  lemma WrittenIsFilled(b: Board, v: Verdict, sol: Solution)
    requires Written(b, v, sol)
    ensures v.board.Full() <==> EveryCellFilled(v.board)
  {
    FullMeansEveryCell(v.board);
  }

  lemma SameCellsSameTruth(b: Board, b': Board, sol: Solution)
    requires b'.cells == b.cells && b'.grid == b.grid
    ensures EveryCellFilled(b') <==> EveryCellFilled(b)
    ensures AllRight(b', sol) <==> AllRight(b, sol)
  {
    assert forall cell :: b'.ValueAt(cell) == b.ValueAt(cell);
    assert forall cell :: OnGrid(b', cell) <==> OnGrid(b, cell);
    assert forall cell :: WrongAt(b', sol, cell) <==> WrongAt(b, sol, cell);
  }

  /** The events of an accepted write past its first, by what the written board is. */
  lemma EventsAfter(b: Board, c: Command, sol: Solution)
    requires (c.PlaceLetter? || c.ClearCell?) && Apply(b, c, sol).error.None?
    ensures
      var next, v, n, open := Reduce(b, c).board, Apply(b, c, sol), b.seqNo + 2, b.checkVote;
      && |Reduce(b, c).events| == 1 && next.cells == v.board.cells && next.grid == v.board.grid == b.grid
      && v.events == Reduce(b, c).events + v.events[1..]
      && v.events[1..] ==
           if next.Full() && Correct(next, sol) then
             if open.None? then [GameCompleted(n)]
             else [VoteClosed(n, open.value.openedSeq, Cancelled, Some(Terminal)), GameCompleted(n + 1)]
           else if open.Some? && !next.Full() then [VoteClosed(n, open.value.openedSeq, Cancelled, Some(GridBroken))]
           else []
  {
    hide Correct;
  }

  // --- Accepted proposals and ballots ---

  /** Ascending, each once, and exactly the cells that are wrong. */
  ghost predicate ListsTheWrong(b: Board, sol: Solution, cells: seq<int>) {
    && (forall i, j :: 0 <= i < j < |cells| ==> cells[i] < cells[j])
    && (forall cell :: cell in cells <==> WrongAt(b, sol, cell))
  }

  /**
   What the tally does to a vote: carried, it closes as passed and the check lists what is wrong, in
   the proposer's name; lost, it closes as rejected; otherwise it stays open.
   */
  ghost predicate TallySays(b: Board, vote: CheckVote, n: nat, rest: seq<Event>, after: Board, sol: Solution) {
    && after.cells == b.cells && after.status == Ongoing && after.firstFillAt == b.firstFillAt
    && if Carried(vote) then
         && |rest| == 2 && rest[1].PuzzleChecked?
         && rest[0] == VoteClosed(n, vote.openedSeq, Passed, None)
         && rest[1] == PuzzleChecked(n + 1, rest[1].wrongCells, b.checkCount + 1, vote.who, vote.commandId)
         && ListsTheWrong(b, sol, rest[1].wrongCells)
         && after.checkVote.None? && after.checkCount == b.checkCount + 1
         && (forall cell :: cell in after.checkedWrong <==> WrongAt(b, sol, cell))
       else
         && after.checkCount == b.checkCount && after.checkedWrong == b.checkedWrong
         && if Lost(vote) then
              rest == [VoteClosed(n, vote.openedSeq, Failed, Some(Rejected))] && after.checkVote.None?
            else rest == [] && after.checkVote == Some(vote)
  }

  lemma TallyIs(b: Board, vote: CheckVote, n: nat, sol: Solution)
    requires b.status == Ongoing
    ensures
      var mid := b.(seqNo := n, checkVote := Some(vote));
      TallySays(b, vote, n + 1, ResolveByTally(mid, sol).events, ResolveByTally(mid, sol).board, sol)
  {
    hide Failures;
    var mid := b.(seqNo := n, checkVote := Some(vote));
    FailuresAreWrong(b, mid, sol);
  }

  lemma FailuresAreWrong(b: Board, mid: Board, sol: Solution)
    requires mid.cells == b.cells
    ensures ListsTheWrong(b, sol, Failures(mid, sol))
  {
    FailingIsWrong(mid, sol);
    assert forall cell :: mid.ValueAt(cell) == b.ValueAt(cell);
    assert forall cell :: WrongAt(mid, sol, cell) <==> WrongAt(b, sol, cell);
  }

  /** The least number that is more than half. */
  ghost predicate LeastMajority(n: nat, electorate: seq<UserId>) {
    2 * n > |electorate| && forall m: nat :: 2 * m > |electorate| ==> n <= m
  }

  /**
   An accepted proposal opens a vote at the next number, in the sender's name and with his approval,
   among exactly the electors given, and says the least majority; then the tally is settled.
   */
  lemma ProposalSays(b: Board, c: Command, sol: Solution)
    requires c.CheckPuzzle? && Apply(b, c, sol).error.None?
    ensures
      var v := Apply(b, c, sol);
      && v.events != [] && v.events[0].VoteOpened?
      && var opening := v.events[0];
      && opening == VoteOpened(b.seqNo + 1, c.who, opening.electorate, opening.needed, c.commandId)
      && (forall u :: u in opening.electorate <==> u in c.electorate) && |opening.electorate| == |c.electorate|
      && LeastMajority(opening.needed, opening.electorate)
      && TallySays(b, CheckVote(b.seqNo + 1, c.who, c.commandId, opening.electorate, [c.who], []), b.seqNo + 2,
                   v.events[1..], v.board, sol)
  {
    hide ResolveByTally, Sort;
    var vote := ProposedVote(b, c);
    SortKeepsMembers(IdLess(), c.electorate);
    TallyIs(b, vote, b.seqNo + 1, sol);
    var rest := ResolveByTally(b.(seqNo := b.seqNo + 1, checkVote := Some(vote)), sol).events;
    assert Apply(b, c, sol).events[1..] == rest;
  }

  /** The vote with this ballot recorded, the voter on the one list or on the other. */
  ghost predicate Recorded(vote: CheckVote, who: UserId, approve: bool, next: CheckVote) {
    && next == vote.(approvals := next.approvals, rejections := next.rejections)
    && (forall u :: u in next.approvals <==> u in vote.approvals || (approve && u == who))
    && (forall u :: u in next.rejections <==> u in vote.rejections || (!approve && u == who))
    && |next.approvals| == |vote.approvals| + (if approve then 1 else 0)
    && |next.rejections| == |vote.rejections| + (if approve then 0 else 1)
  }

  /** An accepted ballot says who voted how on which vote; then the tally is settled with it. */
  lemma BallotSaid(b: Board, c: Command, sol: Solution) returns (next: CheckVote)
    requires c.CastVote? && Apply(b, c, sol).error.None?
    ensures
      var v := Apply(b, c, sol);
      && b.checkVote.Some? && v.events != [] && c.voteSeq >= 0
      && v.events[0] == VoteCast(b.seqNo + 1, c.voteSeq, c.who, c.approve, c.commandId)
      && Recorded(b.checkVote.value, c.who, c.approve, next)
      && TallySays(b, next, b.seqNo + 2, v.events[1..], v.board, sol)
  {
    hide ResolveByTally, Sort, TallySays;
    var vote := b.checkVote.value;
    next := Ballot(vote, c.who, c.approve);
    SortKeepsMembers(IdLess(), vote.approvals + [c.who]);
    SortKeepsMembers(IdLess(), vote.rejections + [c.who]);
    TallyIs(b, next, b.seqNo + 1, sol);
    var rest := ResolveByTally(b.(seqNo := b.seqNo + 1, checkVote := Some(next)), sol).events;
    assert Apply(b, c, sol).events[1..] == rest;
  }
}
