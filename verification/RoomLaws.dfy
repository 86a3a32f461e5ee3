/**
 What every command keeps: the board's inductive invariant, contiguous sequence numbers,
 and the fact that the emitted events alone rebuild the new board from the old one.
 */
module RoomLaws {
  import opened Basics
  import opened Sorting
  import opened Text
  import opened Engine

  // --- The invariant ---

  /** Blocks lie on the grid, answers lie on playable cells, and some cell is playable. */
  ghost predicate PuzzleOk(grid: Grid, sol: Solution) {
    && grid.blocks <= Upto(grid.CellCount())
    && (forall c :: 0 <= c < |sol| && sol[c].Some? ==> grid.Playable(c))
    && (exists c :: grid.Playable(c))
  }

  /** The proposal's electorate as the session assembles it. */
  ghost predicate CommandOk(c: Command) {
    c.CheckPuzzle? ==> Distinct(c.electorate) && c.who in c.electorate
  }

  function FilledCells(cells: map<int, Cell>): set<int> {
    set c | c in cells && cells[c].v.Some?
  }

  ghost predicate CellsOk(b: Board) {
    && (forall c :: c in b.cells ==> b.grid.Playable(c))
    && (forall c :: c in b.cells && b.cells[c].v.Some? ==> ValidValue(b.cells[c].v.value))
    && b.filledCount == |FilledCells(b.cells)|
  }

  ghost predicate MarksOk(b: Board, sol: Solution) {
    forall c :: c in b.checkedWrong ==> b.ValueAt(c).Some? && Fails(b, sol, c)
  }

  ghost predicate Ballots(voters: seq<UserId>, electorate: seq<UserId>) {
    && Distinct(voters)
    && SortedBy(IdLess(), voters)
    && (forall u :: u in voters ==> u in electorate)
  }

  ghost predicate VoteShape(v: CheckVote) {
    && Distinct(v.electorate) && SortedBy(IdLess(), v.electorate)
    && Ballots(v.approvals, v.electorate) && Ballots(v.rejections, v.electorate)
    && (forall u :: u in v.approvals ==> u !in v.rejections)
    && v.who in v.approvals
  }

  predicate Undecided(v: CheckVote) {
    2 * |v.approvals| <= |v.electorate| < 2 * (|v.electorate| - |v.rejections|)
  }

  ghost predicate VoteOk(b: Board) {
    b.checkVote.Some? ==>
      && b.status == Ongoing && b.Full()
      && VoteShape(b.checkVote.value) && Undecided(b.checkVote.value)
      && b.checkVote.value.openedSeq <= b.seqNo
  }

  ghost predicate Sound(b: Board, sol: Solution) {
    && PuzzleOk(b.grid, sol)
    && CellsOk(b) && MarksOk(b, sol) && VoteOk(b)
    && (b.Full() ==> (b.status == Completed <==> Correct(b, sol)))
    && (b.status == Completed ==> b.Full())
  }

  function EmptyBoard(grid: Grid): Board {
    Board(grid, Ongoing, 0, None, map[], 0, {}, 0, None)
  }

  lemma PlayableCount(grid: Grid)
    requires grid.blocks <= Upto(grid.CellCount())
    ensures forall c :: c in Upto(grid.CellCount()) - grid.blocks <==> grid.Playable(c)
    ensures |Upto(grid.CellCount()) - grid.blocks| == grid.CellCount() - |grid.blocks|
  {
    var all := Upto(grid.CellCount());
    assert all == (all - grid.blocks) + grid.blocks;
  }

  lemma EmptyBoardIsSound(grid: Grid, sol: Solution)
    requires PuzzleOk(grid, sol)
    ensures Sound(EmptyBoard(grid), sol)
  {
    PlayableCount(grid);
    var b := EmptyBoard(grid);
    assert FilledCells(b.cells) == {};
    var c :| grid.Playable(c);
    assert c in Upto(grid.CellCount()) - grid.blocks;
  }

  /** The cheap count gate is exact: a full board has a letter in every playable cell. */
  lemma FullMeansEveryCell(b: Board)
    requires b.grid.blocks <= Upto(b.grid.CellCount()) && CellsOk(b)
    ensures b.Full() <==> forall c :: b.grid.Playable(c) ==> b.ValueAt(c).Some?
  {
    PlayableCount(b.grid);
    var playable := Upto(b.grid.CellCount()) - b.grid.blocks;
    var filled := FilledCells(b.cells);
    SubsetSize(filled, playable);
    if b.Full() {
      assert filled == playable;
      forall c | b.grid.Playable(c) ensures b.ValueAt(c).Some? { assert c in filled; }
    }
    if forall c :: b.grid.Playable(c) ==> b.ValueAt(c).Some? {
      assert playable <= filled;
      assert playable == filled;
    }
  }

  // --- Events rebuild boards ---

  /** What one event does to a board; fills are recounted, never carried along. */
  ghost function ApplyEvent(b: Board, e: Event): Board {
    match e
    case CellSet(n, cell, value, who, _, at) =>
      var cells := b.cells[cell := Cell(value, who)];
      b.(seqNo := n, cells := cells, filledCount := |FilledCells(cells)|,
         firstFillAt := if b.firstFillAt.None? && value.Some? then Some(at) else b.firstFillAt,
         checkedWrong := if value == b.ValueAt(cell) then b.checkedWrong else b.checkedWrong - {cell})
    case PuzzleChecked(n, wrong, count, _, _) =>
      b.(seqNo := n, checkedWrong := Elems(wrong), checkCount := count)
    case VoteOpened(n, who, electorate, _, commandId) =>
      b.(seqNo := n, checkVote := Some(CheckVote(n, who, commandId, electorate, [who], [])))
    case VoteCast(n, _, who, approve, _) =>
      b.(seqNo := n,
         checkVote := if b.checkVote.None? then None else Some(Ballot(b.checkVote.value, who, approve)))
    case VoteClosed(n, _, _, _) => b.(seqNo := n, checkVote := None)
    case GameCompleted(n) => b.(seqNo := n, status := Completed)
    case GameAbandoned(n) => b.(seqNo := n, status := Abandoned)
  }

  ghost function Replay(b: Board, es: seq<Event>): Board {
    if es == [] then b
    else ApplyEvent(Replay(b, es[..|es| - 1]), es[|es| - 1])
  }

  lemma {:induction false} ReplayAppend(b: Board, s: seq<Event>, t: seq<Event>)
    ensures Replay(b, s + t) == Replay(Replay(b, s), t)
  {
    if t == [] {
      assert s + t == s;
    } else {
      var last := |t| - 1;
      assert (s + t)[..|s + t| - 1] == s + t[..last];
      ReplayAppend(b, s, t[..last]);
    }
  }

  lemma ReplayOne(b: Board, e: Event)
    ensures Replay(b, [e]) == ApplyEvent(b, e)
  {
    assert [e][..0] == [];
  }

  predicate IsTerminal(e: Event) { e.GameCompleted? || e.GameAbandoned? }

  ghost predicate Contiguous(start: nat, es: seq<Event>) {
    forall i :: 0 <= i < |es| ==> es[i].seqNo == start + 1 + i
  }

  ghost predicate TerminalLast(es: seq<Event>) {
    forall i :: 0 <= i < |es| - 1 ==> !IsTerminal(es[i])
  }

  ghost function ChecksIn(es: seq<Event>): nat {
    if es == [] then 0
    else ChecksIn(es[..|es| - 1]) + (if es[|es| - 1].PuzzleChecked? then 1 else 0)
  }

  lemma {:induction false} ChecksAppend(s: seq<Event>, t: seq<Event>)
    ensures ChecksIn(s + t) == ChecksIn(s) + ChecksIn(t)
  {
    if t == [] {
      assert s + t == s;
    } else {
      assert (s + t)[..|s + t| - 1] == s + t[..|t| - 1];
      ChecksAppend(s, t[..|t| - 1]);
    }
  }

  lemma ChecksOne(e: Event)
    ensures ChecksIn([e]) == if e.PuzzleChecked? then 1 else 0
  {
    assert [e][..0] == [];
  }

  /**
   Everything promised of the events `es` that lead from board b to board b'.
   */
  ghost predicate Explains(b: Board, es: seq<Event>, b': Board) {
    && Contiguous(b.seqNo, es) && b'.seqNo == b.seqNo + |es|
    && Replay(b, es) == b'
    && b'.grid == b.grid
    && b'.checkCount == b.checkCount + ChecksIn(es)
    && TerminalLast(es)
    && (es != [] ==> b.status == Ongoing)
    && (es != [] ==> (IsTerminal(es[|es| - 1]) <==> b'.status != Ongoing))
    && (es == [] ==> b' == b)
  }

  lemma ExplainsOne(b: Board, e: Event, b': Board)
    requires b.status == Ongoing && e.seqNo == b.seqNo + 1 && b' == ApplyEvent(b, e)
    requires b'.checkCount == b.checkCount + (if e.PuzzleChecked? then 1 else 0)
    ensures Explains(b, [e], b')
  {
    ReplayOne(b, e);
    ChecksOne(e);
  }

  /** Explanations compose as long as the first one does not end the game. */
  lemma ExplainsThen(b: Board, s: seq<Event>, mid: Board, t: seq<Event>, b': Board)
    requires Explains(b, s, mid) && Explains(mid, t, b')
    ensures Explains(b, s + t, b')
  {
    ReplayAppend(b, s, t);
    ChecksAppend(s, t);
    if t == [] {
      assert s + t == s;
    } else if s == [] {
      assert s + t == t;
    } else {
      forall i | 0 <= i < |s + t| - 1 ensures !IsTerminal((s + t)[i]) {
        if i < |s| - 1 { assert (s + t)[i] == s[i]; }
      }
    }
  }

  /** A verdict's events explain its board, and a refusal is silent. */
  ghost predicate Lawful(b: Board, v: Verdict, sol: Solution) {
    match v
    case Verdict(events, board, error) =>
      && Sound(board, sol)
      && Explains(b, events, board)
      && (error.Some? ==> events == [])
  }

  /** A refusal changes nothing and says nothing. */
  lemma RefusalLawful(b: Board, e: Refusal, sol: Solution)
    requires Sound(b, sol)
    ensures Lawful(b, Refuse(b, e), sol)
  {}

  // --- Cell writes ---

  lemma FilledAfterWrite(cells: map<int, Cell>, cell: int, written: Cell)
    ensures |FilledCells(cells[cell := written])| ==
      |FilledCells(cells)|
      + (if written.v.Some? then 1 else 0)
      - (if cell in cells && cells[cell].v.Some? then 1 else 0)
  {
    var before, after := FilledCells(cells), FilledCells(cells[cell := written]);
    var others := before - {cell};
    assert others == after - {cell};
    assert before == if cell in before then others + {cell} else others;
    assert after == if cell in after then others + {cell} else others;
  }

  /** A write changes only its own cell's failing status, and none when the value is the same. */
  lemma FailsAfterWrite(b: Board, b': Board, sol: Solution, cell: int, written: Cell)
    requires b'.cells == b.cells[cell := written]
    ensures forall c :: c != cell || written.v == b.ValueAt(cell) ==> b'.ValueAt(c) == b.ValueAt(c)
    ensures forall c :: c != cell || written.v == b.ValueAt(cell) ==> (Fails(b', sol, c) <==> Fails(b, sol, c))
  {}

  /** The shape a cell write leaves the room in, before completion is looked at. */
  ghost predicate Written(b: Board, v: Verdict, sol: Solution) {
    && Explains(b, v.events, v.board)
    && v.error.None? && v.events != []
    && b.status == Ongoing && v.board.status == Ongoing
    && v.board.checkVote == b.checkVote
    && CellsOk(v.board) && MarksOk(v.board, sol) && PuzzleOk(v.board.grid, sol)
  }

  lemma WriteLaws(b: Board, cell: int, value: Option<string>, who: UserId, id: CommandId, at: int, sol: Solution)
    requires Sound(b, sol) && b.status == Ongoing && b.grid.Playable(cell)
    requires value.Some? ==> ValidValue(value.value)
    ensures Written(b, Write(b, cell, value, who, id, at, value.Some?), sol)
  {
    var v := Write(b, cell, value, who, id, at, value.Some?);
    var e := CellSet(b.seqNo + 1, cell, value, who, id, at);
    FilledAfterWrite(b.cells, cell, Cell(value, who));
    FailsAfterWrite(b, v.board, sol, cell, Cell(value, who));
    assert v.board == ApplyEvent(b, e);
    ExplainsOne(b, e, v.board);
  }

  /** The reducer keeps cells, count and marks in order and its event tells the whole story. */
  lemma ReduceLaws(b: Board, c: Command, sol: Solution)
    requires (c.PlaceLetter? || c.ClearCell?) && Sound(b, sol)
    ensures
      var v := Reduce(b, c);
      if v.error.Some? then v == Refuse(b, v.error.value) else Written(b, v, sol)
  {
    var v := Reduce(b, c);
    if v.error.None? {
      var value := if c.PlaceLetter? then NormalizeValue(c.value) else None;
      WriteLaws(b, c.cell, value, c.who, c.commandId, c.at, sol);
    }
  }

  lemma CloseExplains(b: Board, outcome: Outcome, reason: Reason, sol: Solution)
    requires b.checkVote.Some? && b.status == Ongoing
    ensures
      var v := CloseFailed(b, b.checkVote.value, outcome, reason);
      Explains(b, v.events, v.board)
  {
    var v := CloseFailed(b, b.checkVote.value, outcome, reason);
    ExplainsOne(b, v.events[0], v.board);
  }

  lemma CompleteExplains(b: Board, v: Verdict)
    requires Explains(b, v.events, v.board) && v.events != [] && v.board.status == Ongoing
    ensures Explains(b, Complete(v).events, Complete(v).board)
  {
    var e := GameCompleted(v.board.seqNo + 1);
    ExplainsOne(v.board, e, Complete(v).board);
    ExplainsThen(b, v.events, v.board, [e], Complete(v).board);
  }

  lemma CancelExplains(b: Board, v: Verdict, reason: Reason, sol: Solution)
    requires Explains(b, v.events, v.board) && v.board.checkVote.Some? && v.board.status == Ongoing
    ensures Explains(b, CancelVote(v, reason).events, CancelVote(v, reason).board)
  {
    CloseExplains(v.board, Cancelled, reason, sol);
    var closed := CloseFailed(v.board, v.board.checkVote.value, Cancelled, reason);
    ExplainsThen(b, v.events, v.board, closed.events, closed.board);
  }

  lemma MutateLaws(b: Board, c: Command, sol: Solution)
    requires (c.PlaceLetter? || c.ClearCell?) && Sound(b, sol)
    ensures Lawful(b, Mutate(b, c, sol), sol)
  {
    var result := Reduce(b, c);
    ReduceLaws(b, c, sol);
    if result.error.Some? {
      RefusalLawful(b, result.error.value, sol);
    } else {
      var next := result.board;
      if next.checkVote.Some? {
        if next.Full() && Correct(next, sol) {
          CancelExplains(b, result, Terminal, sol);
          CompleteExplains(b, CancelVote(result, Terminal));
          SameBoardSameFailures(next, Mutate(b, c, sol).board, sol);
        } else if !next.Full() {
          CancelExplains(b, result, GridBroken, sol);
          SameBoardSameFailures(next, Mutate(b, c, sol).board, sol);
        }
      } else if next.Full() && Correct(next, sol) {
        CompleteExplains(b, result);
        SameBoardSameFailures(next, Mutate(b, c, sol).board, sol);
      }
    }
  }

  lemma SameBoardSameFailures(b: Board, b': Board, sol: Solution)
    requires b'.cells == b.cells
    ensures forall c :: Fails(b', sol, c) <==> Fails(b, sol, c)
    ensures Correct(b', sol) <==> Correct(b, sol)
  {
    assert forall c :: b'.ValueAt(c) == b.ValueAt(c);
    assert forall c :: Fails(b', sol, c) <==> Fails(b, sol, c);
  }

  // --- Votes ---

  lemma AddVoter(voters: seq<UserId>, electorate: seq<UserId>, u: UserId)
    requires Ballots(voters, electorate) && u in electorate && u !in voters
    ensures Ballots(WithVoter(voters, u), electorate)
    ensures |WithVoter(voters, u)| == |voters| + 1
    ensures forall w :: w in WithVoter(voters, u) <==> w in voters || w == u
  {
    StringOrderIsTotal();
    SortSorts(IdLess(), voters + [u]);
    SortKeepsDistinct(IdLess(), voters + [u]);
    SortKeepsMembers(IdLess(), voters + [u]);
  }

  /** Marks come from the board they judge, so an accepted check never points at a right answer. */
  lemma FreshMarks(b: Board, b': Board, sol: Solution)
    requires PuzzleOk(b.grid, sol) && CellsOk(b) && b.Full()
    requires b'.cells == b.cells && b'.checkedWrong == Elems(Failures(b, sol))
    ensures MarksOk(b', sol)
    ensures !Correct(b, sol) ==> Failures(b, sol) != []
  {
    FullMeansEveryCell(b);
    SameBoardSameFailures(b, b', sol);
    if !Correct(b, sol) {
      var c :| 0 <= c < |sol| && Fails(b, sol, c);
      assert c in Failures(b, sol);
    }
  }

  ghost predicate OpenShape(b: Board) {
    && b.checkVote.Some? && b.status == Ongoing && b.Full()
    && VoteShape(b.checkVote.value) && b.checkVote.value.openedSeq <= b.seqNo
  }

  /** A passed vote's close and check are two lawful steps. */
  lemma PassIsLawful(b: Board, vote: CheckVote, sol: Solution)
    requires PuzzleOk(b.grid, sol) && CellsOk(b)
    requires OpenShape(b) && b.checkVote == Some(vote) && !Correct(b, sol)
    ensures Lawful(b, ClosePassed(b, vote, sol), sol)
  {
    hide Ballots, VoteShape, Correct, Failures;
    var v := ClosePassed(b, vote, sol);
    var mid := b.(seqNo := b.seqNo + 1, checkVote := None);
    ExplainsOne(b, v.events[0], mid);
    ExplainsOne(mid, v.events[1], v.board);
    ExplainsThen(b, [v.events[0]], mid, [v.events[1]], v.board);
    assert v.events == [v.events[0]] + [v.events[1]];
    FreshMarks(b, v.board, sol);
    SameBoardSameFailures(b, v.board, sol);
  }

  lemma FailIsLawful(b: Board, vote: CheckVote, sol: Solution)
    requires PuzzleOk(b.grid, sol) && CellsOk(b) && MarksOk(b, sol)
    requires OpenShape(b) && b.checkVote == Some(vote) && !Correct(b, sol)
    ensures Lawful(b, CloseFailed(b, vote, Failed, Rejected), sol)
  {
    hide Ballots, VoteShape, Correct, Failures;
    CloseExplains(b, Failed, Rejected, sol);
    SameBoardSameFailures(b, CloseFailed(b, vote, Failed, Rejected).board, sol);
  }

  /** Settling the tally closes a decided vote, or leaves an undecided one alone. */
  lemma ResolveLaws(b: Board, sol: Solution)
    requires PuzzleOk(b.grid, sol) && CellsOk(b) && MarksOk(b, sol)
    requires OpenShape(b) && !Correct(b, sol)
    ensures Lawful(b, ResolveByTally(b, sol), sol)
  {
    hide Correct, Failures, ClosePassed, CloseFailed;
    var vote := b.checkVote.value;
    if |vote.approvals| >= Needed(vote.electorate) {
      PassIsLawful(b, vote, sol);
    } else if |vote.electorate| - |vote.rejections| < Needed(vote.electorate) {
      FailIsLawful(b, vote, sol);
    } else {
      StaysOpen(b, sol);
    }
  }

  lemma StaysOpen(b: Board, sol: Solution)
    requires PuzzleOk(b.grid, sol) && CellsOk(b) && MarksOk(b, sol)
    requires OpenShape(b) && !Correct(b, sol) && Undecided(b.checkVote.value)
    ensures Lawful(b, Verdict([], b, None), sol)
  {
    hide Correct, MarksOk;
  }

  /** A vote's own event followed by whatever settling the tally does. */
  lemma PrependLawful(b: Board, e: Event, mid: Board, v: Verdict, sol: Solution)
    requires b.status == Ongoing && e.seqNo == b.seqNo + 1 && mid == ApplyEvent(b, e)
    requires e.VoteOpened? || e.VoteCast?
    requires Lawful(mid, v, sol) && v.error.None?
    ensures Lawful(b, Prepend(e, v), sol)
  {
    ExplainsOne(b, e, mid);
    ExplainsThen(b, [e], mid, v.events, v.board);
  }

  /** The vote as a proposal first writes it, before the tally is settled. */
  function ProposedVote(b: Board, c: Command): CheckVote
    requires c.CheckPuzzle?
  {
    CheckVote(b.seqNo + 1, c.who, c.commandId, Sort(IdLess(), c.electorate), [c.who], [])
  }

  lemma ProposalShape(b: Board, c: Command)
    requires c.CheckPuzzle? && CommandOk(c)
    ensures VoteShape(ProposedVote(b, c))
  {
    StringOrderIsTotal();
    SortSorts(IdLess(), c.electorate);
    SortKeepsDistinct(IdLess(), c.electorate);
    SortKeepsMembers(IdLess(), c.electorate);
  }

  lemma ProposalRecorded(b: Board, c: Command, mid: Board, sol: Solution)
    requires c.CheckPuzzle? && CommandOk(c) && Sound(b, sol)
    requires b.status == Ongoing && b.Full() && b.checkVote.None?
    requires mid == b.(seqNo := b.seqNo + 1, checkVote := Some(ProposedVote(b, c)))
    ensures PuzzleOk(mid.grid, sol) && CellsOk(mid) && MarksOk(mid, sol)
    ensures OpenShape(mid) && !Correct(mid, sol)
  {
    ProposalShape(b, c);
    SameBoardSameFailures(b, mid, sol);
  }

  lemma OpenLaws(b: Board, c: Command, sol: Solution)
    requires c.CheckPuzzle? && CommandOk(c) && Sound(b, sol)
    ensures Lawful(b, OpenVote(b, c, sol), sol)
  {
    hide Lawful, Sound, OpenShape, Correct, MarksOk, CellsOk, PuzzleOk;
    if b.status == Ongoing && b.Full() && b.checkVote.None? {
      var vote := ProposedVote(b, c);
      var e := VoteOpened(b.seqNo + 1, c.who, vote.electorate, Needed(vote.electorate), c.commandId);
      var mid := b.(seqNo := b.seqNo + 1, checkVote := Some(vote));
      ProposalRecorded(b, c, mid, sol);
      ResolveLaws(mid, sol);
      TallyNeverErrs(mid, sol);
      PrependLawful(b, e, mid, ResolveByTally(mid, sol), sol);
    } else {
      RefusalLawful(b, OpenVote(b, c, sol).error.value, sol);
    }
  }

  lemma TallyNeverErrs(b: Board, sol: Solution)
    ensures ResolveByTally(b, sol).error.None?
  {}

  lemma BallotShape(vote: CheckVote, u: UserId, approve: bool)
    requires VoteShape(vote) && u in vote.electorate && u !in vote.approvals && u !in vote.rejections
    ensures VoteShape(Ballot(vote, u, approve))
  {
    if approve { AddVoter(vote.approvals, vote.electorate, u); }
    else { AddVoter(vote.rejections, vote.electorate, u); }
  }

  /** Recording a ballot leaves a board on which the tally may be settled. */
  lemma BallotRecorded(b: Board, mid: Board, u: UserId, approve: bool, sol: Solution)
    requires Sound(b, sol) && b.checkVote.Some?
    requires
      var vote := b.checkVote.value;
      && u in vote.electorate && u !in vote.approvals && u !in vote.rejections
      && mid == b.(seqNo := b.seqNo + 1, checkVote := Some(Ballot(vote, u, approve)))
    ensures PuzzleOk(mid.grid, sol) && CellsOk(mid) && MarksOk(mid, sol)
    ensures OpenShape(mid) && !Correct(mid, sol)
  {
    BallotShape(b.checkVote.value, u, approve);
    SameBoardSameFailures(b, mid, sol);
  }

  lemma CastLaws(b: Board, c: Command, sol: Solution)
    requires c.CastVote? && Sound(b, sol)
    ensures Lawful(b, Cast(b, c, sol), sol)
  {
    hide Lawful, Sound, OpenShape, Correct, MarksOk, CellsOk, PuzzleOk;
    if Cast(b, c, sol).error.None? {
      var vote := b.checkVote.value;
      var e := VoteCast(b.seqNo + 1, vote.openedSeq, c.who, c.approve, c.commandId);
      var mid := b.(seqNo := b.seqNo + 1, checkVote := Some(Ballot(vote, c.who, c.approve)));
      BallotRecorded(b, mid, c.who, c.approve, sol);
      ResolveLaws(mid, sol);
      TallyNeverErrs(mid, sol);
      PrependLawful(b, e, mid, ResolveByTally(mid, sol), sol);
    } else {
      RefusalLawful(b, Cast(b, c, sol).error.value, sol);
    }
  }

  lemma ExpireLaws(b: Board, sol: Solution)
    requires Sound(b, sol)
    ensures Lawful(b, Expire(b), sol)
  {
    if b.checkVote.Some? {
      CloseExplains(b, Failed, Expired, sol);
      SameBoardSameFailures(b, Expire(b).board, sol);
    }
  }

  /** Every command keeps the invariant, numbers its events, and its events rebuild the board. */
  lemma ApplyLaws(b: Board, c: Command, sol: Solution)
    requires Sound(b, sol) && CommandOk(c)
    ensures Lawful(b, Apply(b, c, sol), sol)
  {
    match c
    case CheckPuzzle(_, _, _) => OpenLaws(b, c, sol);
    case CastVote(_, _, _, _) => CastLaws(b, c, sol);
    case ExpireVote => ExpireLaws(b, sol);
    case _ => MutateLaws(b, c, sol);
  }
}
