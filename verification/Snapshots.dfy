/**
 Printing a room to the snapshot row and reading it back. The printed board is one entry per
 grid cell; reading it back keeps the entries that name a writer and recounts the fills.
 */
module Snapshots {
  import opened Basics
  import opened Sorting
  import opened Engine
  import opened RoomLaws
  import opened Journal
  import opened Store

  const EMPTY_CELL := RawCell(None, None)

  // --- Printing ---

  function PrintCell(b: Board, cell: int): RawCell {
    if cell in b.grid.blocks || cell !in b.cells then EMPTY_CELL
    else RawCell(b.cells[cell].v, Some(b.cells[cell].who))
  }

  function BoardCells(b: Board): seq<RawCell> {
    seq(b.grid.CellCount(), i => PrintCell(b, i))
  }

  method BoardCellsLoop(b: Board) returns (cells: seq<RawCell>)
    ensures cells == BoardCells(b)
  {
    cells := [];
    for i := 0 to b.grid.CellCount()
      invariant cells == BoardCells(b)[..i]
    {
      if i in b.grid.blocks {
        cells := cells + [EMPTY_CELL];
      } else if i in b.cells {
        cells := cells + [RawCell(b.cells[i].v, Some(b.cells[i].who))];
      } else {
        cells := cells + [EMPTY_CELL];
      }
    }
  }

  /** The standing marks, ascending; marks lie on the grid. */
  function MarksAscending(b: Board): seq<int> {
    AscendingBelow(b.checkedWrong, b.grid.CellCount())
  }

  /** Null unless a vote is open and its deadline is known. */
  function PrintVote(vote: Option<CheckVote>, expiresAt: Option<int>): Option<StoredVote> {
    if vote.None? || expiresAt.None? then None
    else
      var v := vote.value;
      Some(StoredVote(v.openedSeq, v.who, v.commandId, v.electorate, v.approvals, v.rejections, expiresAt.value))
  }

  function Print(m: Image, stats: Option<Stats>): Row {
    Row(m.board.status, BoardCells(m.board), MarksAscending(m.board), m.board.checkCount,
        PrintVote(m.board.checkVote, m.expiresAt), m.board.seqNo, m.board.firstFillAt,
        m.completedAt, m.abandonedAt, stats, m.recent)
  }

  // --- Reading back ---

  datatype Tally = Tally(cells: map<int, Cell>, filled: nat)

  function ReadCells(raw: seq<RawCell>): Tally {
    if raw == [] then Tally(map[], 0)
    else
      var i := |raw| - 1;
      var before := ReadCells(raw[..i]);
      if raw[i].who.None? then before
      else
        Tally(before.cells[i := Cell(raw[i].v, raw[i].who.value)],
              before.filled + (if raw[i].v.Some? then 1 else 0))
  }

  function ReadVote(v: Option<StoredVote>): Option<CheckVote> {
    if v.None? then None
    else Some(CheckVote(v.value.openedSeq, v.value.who, v.value.commandId,
                        v.value.electorate, v.value.approvals, v.value.rejections))
  }

  function ReadRow(grid: Grid, row: Option<Row>): Image {
    if row.None? then EmptyImage(grid)
    else
      var r := row.value;
      var t := ReadCells(r.cells);
      Image(
        Board(grid, r.status, r.lastSeq, r.firstFillAt, t.cells, t.filled,
              Elems(r.checkedWrong), r.checkCount, ReadVote(r.checkVote)),
        r.completedAt, r.abandonedAt,
        if r.checkVote.None? then None else Some(r.checkVote.value.expiresAt), r.recent)
  }

  method HydrateGame(grid: Grid, row: Option<Row>) returns (m: Image)
    ensures m == ReadRow(grid, row)
  {
    if row.None? {
      return EmptyImage(grid);
    }
    var r := row.value;
    var cells: map<int, Cell>, filled := map[], 0;
    for i := 0 to |r.cells|
      invariant Tally(cells, filled) == ReadCells(r.cells[..i])
    {
      assert r.cells[..i + 1][..i] == r.cells[..i];
      var raw := r.cells[i];
      if raw.who.Some? {
        cells := cells[i := Cell(raw.v, raw.who.value)];
        if raw.v.Some? { filled := filled + 1; }
      }
    }
    assert r.cells[..|r.cells|] == r.cells;
    m := Image(
      Board(grid, r.status, r.lastSeq, r.firstFillAt, cells, filled,
            Elems(r.checkedWrong), r.checkCount, ReadVote(r.checkVote)),
      r.completedAt, r.abandonedAt,
      if r.checkVote.None? then None else Some(r.checkVote.value.expiresAt), r.recent);
  }

  // --- The round trip ---

  lemma {:induction false} ReadCellsExact(raw: seq<RawCell>)
    ensures forall c :: c in ReadCells(raw).cells <==> 0 <= c < |raw| && raw[c].who.Some?
    ensures forall c :: c in ReadCells(raw).cells ==> ReadCells(raw).cells[c] == Cell(raw[c].v, raw[c].who.value)
    ensures ReadCells(raw).filled == |FilledCells(ReadCells(raw).cells)|
  {
    if raw == [] {
      assert FilledCells(map[]) == {};
    } else {
      var i := |raw| - 1;
      ReadCellsExact(raw[..i]);
      var before := ReadCells(raw[..i]);
      if raw[i].who.Some? {
        FilledAfterWrite(before.cells, i, Cell(raw[i].v, raw[i].who.value));
      }
    }
  }

  lemma BoardSurvives(b: Board)
    requires CellsOk(b)
    ensures ReadCells(BoardCells(b)) == Tally(b.cells, |FilledCells(b.cells)|)
  {
    var raw := BoardCells(b);
    ReadCellsExact(raw);
    var back := ReadCells(raw).cells;
    forall c ensures c in back <==> c in b.cells {
      if c in b.cells { assert b.grid.Playable(c); }
    }
    forall c | c in b.cells ensures back[c] == b.cells[c] {
      assert b.grid.Playable(c) && c in back;
      assert raw[c] == PrintCell(b, c);
    }
    assert back == b.cells;
  }

  /** Hydrating the row a flush wrote gives back the room, its marks, vote, deadline and ids. */
  lemma HydrationUndoesFlushing(m: Image, stats: Option<Stats>, sol: Solution)
    requires Sound(m.board, sol)
    requires m.expiresAt.Some? <==> m.board.checkVote.Some?
    ensures ReadRow(m.board.grid, Some(Print(m, stats))) == m
  {
    BoardSurvives(m.board);
    forall c ensures c in Elems(MarksAscending(m.board)) <==> c in m.board.checkedWrong {
      if c in m.board.checkedWrong { assert Fails(m.board, sol, c); }
    }
    assert Elems(MarksAscending(m.board)) == m.board.checkedWrong;
  }
}
