/**
 Whole runs of the room: the laws of one command carried over every command list, and the
 relation between the vote driver and the immediate-check driver.
 */
module RoomRuns {
  import opened Basics
  import opened Sorting
  import opened Engine
  import opened RoomLaws

  datatype Trail = Trail(events: seq<Event>, board: Board)

  function Run(b: Board, cs: seq<Command>, sol: Solution): Trail
    decreases |cs|
  {
    if cs == [] then Trail([], b)
    else
      var v := Apply(b, cs[0], sol);
      var rest := Run(v.board, cs[1..], sol);
      Trail(v.events + rest.events, rest.board)
  }

  ghost predicate AllOk(cs: seq<Command>) {
    forall i :: 0 <= i < |cs| ==> CommandOk(cs[i])
  }

  /**
   For every command list: the invariant holds at the end, the events are numbered without
   gaps from the starting number, at most the last one is terminal, and replaying them from
   the starting board gives the final board.
   */
  lemma {:induction false} RunLaws(b: Board, cs: seq<Command>, sol: Solution)
    requires Sound(b, sol) && AllOk(cs)
    ensures Sound(Run(b, cs, sol).board, sol)
    ensures Explains(b, Run(b, cs, sol).events, Run(b, cs, sol).board)
    decreases |cs|
  {
    if cs != [] {
      var v := Apply(b, cs[0], sol);
      ApplyLaws(b, cs[0], sol);
      RunLaws(v.board, cs[1..], sol);
      var rest := Run(v.board, cs[1..], sol);
      ExplainsThen(b, v.events, v.board, rest.events, rest.board);
    }
  }

  /** A room played from the empty board by any commands at all. */
  lemma RunFromEmpty(grid: Grid, cs: seq<Command>, sol: Solution)
    requires PuzzleOk(grid, sol) && AllOk(cs)
    ensures
      var t := Run(EmptyBoard(grid), cs, sol);
      && Sound(t.board, sol)
      && t.board.seqNo == |t.events|
      && (forall i :: 0 <= i < |t.events| ==> t.events[i].seqNo == i + 1)
      && t.board.checkCount == ChecksIn(t.events)
  {
    EmptyBoardIsSound(grid, sol);
    RunLaws(EmptyBoard(grid), cs, sol);
  }

  /** A replayed prefix stands at its last event's number. */
  lemma PrefixNumber(b: Board, es: seq<Event>, n: nat)
    requires Contiguous(b.seqNo, es) && n <= |es|
    ensures Replay(b, es[..n]).seqNo == b.seqNo + n
  {
    if n > 0 {
      assert es[..n][..n - 1] == es[..n - 1];
      assert es[..n][n - 1] == es[n - 1];
    }
  }

  /** A snapshot taken anywhere in the stream, plus the rest of the stream, is the final board. */
  lemma SnapshotPlusTail(b: Board, cs: seq<Command>, sol: Solution, n: nat)
    requires Sound(b, sol) && AllOk(cs) && n <= |Run(b, cs, sol).events|
    ensures
      var es := Run(b, cs, sol).events;
      && Replay(Replay(b, es[..n]), es[n..]) == Run(b, cs, sol).board
      && Replay(b, es[..n]).seqNo == b.seqNo + n
  {
    hide Run, Sound, AllOk, Replay, Contiguous;
    var es := Run(b, cs, sol).events;
    RunLaws(b, cs, sol);
    PrefixNumber(b, es, n);
    assert es == es[..n] + es[n..];
    ReplayAppend(b, es[..n], es[n..]);
  }

  /** A finished game answers every later command with silence. */
  lemma {:induction false} FinishedStaysFinished(b: Board, cs: seq<Command>, sol: Solution)
    requires Sound(b, sol) && AllOk(cs) && b.status != Ongoing
    ensures Run(b, cs, sol) == Trail([], b)
  {
    if cs != [] {
      ApplyLaws(b, cs[0], sol);
      FinishedStaysFinished(b, cs[1..], sol);
    }
  }

  /** Each check among the events names exactly the failing cells, and at least one. */
  ghost predicate HonestChecks(v: Verdict, sol: Solution) {
    forall i :: 0 <= i < |v.events| && v.events[i].PuzzleChecked? ==>
      && v.events[i].wrongCells != []
      && v.events[i].wrongCells == Failures(v.board, sol)
      && Elems(v.events[i].wrongCells) == v.board.checkedWrong
  }

  lemma TallyIsHonest(b: Board, sol: Solution)
    requires PuzzleOk(b.grid, sol) && CellsOk(b) && OpenShape(b) && !Correct(b, sol)
    ensures HonestChecks(ResolveByTally(b, sol), sol)
  {
    var v := ResolveByTally(b, sol);
    if |b.checkVote.value.approvals| >= Needed(b.checkVote.value.electorate) {
      FreshMarks(b, v.board, sol);
      SameFailureList(b, v.board, sol);
    }
  }

  lemma PrependIsHonest(e: Event, v: Verdict, sol: Solution)
    requires HonestChecks(v, sol) && !e.PuzzleChecked?
    ensures HonestChecks(Prepend(e, v), sol)
  {
    var w := Prepend(e, v);
    forall i | 0 <= i < |w.events| && w.events[i].PuzzleChecked?
      ensures w.events[i].wrongCells != [] && w.events[i].wrongCells == Failures(v.board, sol)
      ensures Elems(w.events[i].wrongCells) == v.board.checkedWrong
    {
      assert w.events[i] == v.events[i - 1];
    }
  }

  lemma SettledHonestly(mid: Board, e: Event, v: Verdict, sol: Solution)
    requires PuzzleOk(mid.grid, sol) && CellsOk(mid) && OpenShape(mid) && !Correct(mid, sol)
    requires !e.PuzzleChecked? && v == Prepend(e, ResolveByTally(mid, sol))
    ensures HonestChecks(v, sol)
  {
    TallyIsHonest(mid, sol);
    PrependIsHonest(e, ResolveByTally(mid, sol), sol);
  }

  lemma RefusalIsHonest(b: Board, e: Refusal, sol: Solution)
    ensures HonestChecks(Refuse(b, e), sol)
  {}

  lemma ProposalsAreHonest(b: Board, c: Command, sol: Solution)
    requires Sound(b, sol) && c.CheckPuzzle? && CommandOk(c)
    ensures HonestChecks(OpenVote(b, c, sol), sol)
  {
    hide ResolveByTally, HonestChecks, Failures, Correct, OpenShape;
    var v := OpenVote(b, c, sol);
    if b.status == Ongoing && b.Full() && b.checkVote.None? {
      var mid := b.(seqNo := b.seqNo + 1, checkVote := Some(ProposedVote(b, c)));
      ProposalRecorded(b, c, mid, sol);
      SettledHonestly(mid, v.events[0], v, sol);
    } else {
      RefusalIsHonest(b, v.error.value, sol);
    }
  }

  lemma BallotsAreHonest(b: Board, c: Command, sol: Solution)
    requires Sound(b, sol) && c.CastVote?
    ensures HonestChecks(Cast(b, c, sol), sol)
  {
    hide HonestChecks, Failures, Correct, OpenShape;
    var v := Cast(b, c, sol);
    if v.error.None? {
      var mid := b.(seqNo := b.seqNo + 1, checkVote := Some(Ballot(b.checkVote.value, c.who, c.approve)));
      BallotRecorded(b, mid, c.who, c.approve, sol);
      SettledHonestly(mid, v.events[0], v, sol);
    } else {
      RefusalIsHonest(b, v.error.value, sol);
    }
  }

  /** An accepted check always finds something wrong, and lists it exactly. */
  lemma AcceptedChecksAreHonest(b: Board, c: Command, sol: Solution)
    requires Sound(b, sol) && CommandOk(c)
    ensures HonestChecks(Apply(b, c, sol), sol)
  {
    match c
    case CheckPuzzle(_, _, _) => ProposalsAreHonest(b, c, sol);
    case CastVote(_, _, _, _) => BallotsAreHonest(b, c, sol);
    case ExpireVote =>
    case _ => assert forall e :: e in Mutate(b, c, sol).events ==> !e.PuzzleChecked?;
  }

  /** No mark survives completion: a marked cell fails, and nothing fails on a completed board. */
  lemma CompletedBoardHasNoMarks(b: Board, sol: Solution)
    requires Sound(b, sol) && b.status == Completed
    ensures b.checkedWrong == {}
  {
    if b.checkedWrong != {} {
      var c :| c in b.checkedWrong;
      assert false;
    }
  }

  lemma SameFailureList(b: Board, b': Board, sol: Solution)
    requires b'.cells == b.cells
    ensures Failures(b', sol) == Failures(b, sol)
  {
    SameBoardSameFailures(b, b', sol);
    var one, two := FailingCells(b, sol, |sol|), FailingCells(b', sol, |sol|);
    assert one == two by {
      forall c ensures c in one <==> c in two {
        assert Fails(b', sol, c) <==> Fails(b, sol, c);
      }
    }
  }

  // --- The two drivers agree ---

  /** With no vote open, a cell write is exactly the two-phase completion path. */
  lemma VoteFreeWritesAgree(b: Board, c: Command, sol: Solution)
    requires (c.PlaceLetter? || c.ClearCell?) && b.checkVote.None?
    ensures Mutate(b, c, sol) == ApplyWithCompletion(b, c, sol)
  {}

  /**
   A proposal in a room of one is decided at once and leaves what the immediate check
   leaves: the same marks and the same count, two sequence numbers later.
   */
  lemma SoloProposalIsTheImmediateCheck(b: Board, c: Command, sol: Solution)
    requires Sound(b, sol) && c.CheckPuzzle? && c.electorate == [c.who] && b.checkVote.None?
    ensures
      var voted, now := OpenVote(b, c, sol), CheckNow(b, c.commandId, sol);
      && voted.error == now.error
      && (now.error.None? ==>
            && |voted.events| == 3 && voted.board == now.board.(seqNo := now.board.seqNo + 2)
            && voted.events[2].PuzzleChecked?
            && now.events == [PuzzleChecked(b.seqNo + 1, voted.events[2].wrongCells, voted.events[2].checkCount, "",
                                            c.commandId)])
  {
    FullMeansEveryCell(b);
    FilledNeverExceeds(b);
    if b.status == Ongoing && b.Full() {
      var electorate := Sort(IdLess(), c.electorate);
      assert [c.who][..0] == [];
      assert electorate == [c.who];
      var mid := b.(seqNo := b.seqNo + 1,
                    checkVote := Some(CheckVote(b.seqNo + 1, c.who, c.commandId, electorate, [c.who], [])));
      SameFailureList(b, mid, sol);
    }
  }

  lemma FilledNeverExceeds(b: Board)
    requires b.grid.blocks <= Upto(b.grid.CellCount()) && CellsOk(b)
    ensures b.filledCount <= b.PlayableCount()
  {
    PlayableCount(b.grid);
    SubsetSize(FilledCells(b.cells), Upto(b.grid.CellCount()) - b.grid.blocks);
  }
}
