/**
 The words of a grid: one step along a line, the word around a cell, and the clue list of an
 axis. Every cell index here is on the grid; what a caller does with one that is not is in
 the Cursor module.
 */
module Words {
  import opened Basics
  import opened Engine

  datatype Direction = Across | Down

  predicate InRange(g: Grid, cell: int) { 0 <= cell < g.CellCount() }

  function Stride(g: Grid, d: Direction): int { if d.Across? then 1 else g.cols }

  function Len(g: Grid, d: Direction): nat { if d.Across? then g.cols else g.rows }

  lemma HasColumns(g: Grid, cell: int)
    requires InRange(g, cell)
    ensures g.cols > 0 && g.rows > 0
  {}

  lemma Scales(a: int, b: int, n: nat)
    ensures a >= b ==> a * n >= b * n
  {}

  lemma DivMod(q: int, r: int, n: int)
    requires 0 <= r < n
    ensures (q * n + r) / n == q && (q * n + r) % n == r
  {
    var x := q * n + r;
    assert x == (x / n) * n + x % n;
    var k := x / n - q;
    assert k * n == r - x % n;
    Scales(k, 1, n);
    Scales(-1, k, n);
  }

  /** The cell's column when reading across, its row when reading down. */
  function Pos(g: Grid, d: Direction, cell: int): (r: nat)
    requires InRange(g, cell)
  {
    HasColumns(g, cell);
    if d.Across? then cell % g.cols else cell / g.cols
  }

  lemma PosBelow(g: Grid, d: Direction, cell: int)
    requires InRange(g, cell)
    ensures Pos(g, d, cell) < Len(g, d)
  {
    HasColumns(g, cell);
    if d.Down? {
      var q := cell / g.cols;
      assert cell == q * g.cols + cell % g.cols;
      Scales(q, g.rows, g.cols);
    }
  }

  /** One step along the line, or nothing at its end. */
  function LineNeighbor(g: Grid, d: Direction, cell: int, delta: int): Option<int>
    requires InRange(g, cell)
  {
    var next := Pos(g, d, cell) + delta;
    if next < 0 || next >= Len(g, d) then None else Some(cell + delta * Stride(g, d))
  }

  lemma AtRowAndColumn(g: Grid, row: int, col: int)
    requires 0 <= row < g.rows && 0 <= col < g.cols
    ensures InRange(g, row * g.cols + col)
    ensures Pos(g, Across, row * g.cols + col) == col && Pos(g, Down, row * g.cols + col) == row
  {
    assert (row + 1) * g.cols <= g.rows * g.cols;
    assert row * g.cols >= 0;
    DivMod(row, col, g.cols);
  }

  lemma AcrossStep(g: Grid, cell: int, delta: int)
    requires InRange(g, cell) && LineNeighbor(g, Across, cell, delta).Some?
    ensures InRange(g, cell + delta) && Pos(g, Across, cell + delta) == Pos(g, Across, cell) + delta
  {
    var q, r := Pos(g, Down, cell), Pos(g, Across, cell);
    PosBelow(g, Down, cell);
    assert cell + delta == q * g.cols + (r + delta);
    AtRowAndColumn(g, q, r + delta);
  }

  lemma DownStep(g: Grid, cell: int, delta: int)
    requires InRange(g, cell) && LineNeighbor(g, Down, cell, delta).Some?
    ensures InRange(g, cell + delta * g.cols) && Pos(g, Down, cell + delta * g.cols) == Pos(g, Down, cell) + delta
  {
    var q, r := Pos(g, Down, cell), Pos(g, Across, cell);
    PosBelow(g, Across, cell);
    assert cell + delta * g.cols == (q + delta) * g.cols + r;
    AtRowAndColumn(g, q + delta, r);
  }

  /** A step stays on the grid, moves the position by one, and is undone by the step back. */
  lemma StepLaws(g: Grid, d: Direction, cell: int, delta: int)
    requires InRange(g, cell) && (delta == 1 || delta == -1)
    requires LineNeighbor(g, d, cell, delta).Some?
    ensures
      var n := LineNeighbor(g, d, cell, delta).value;
      InRange(g, n) && Pos(g, d, n) == Pos(g, d, cell) + delta && LineNeighbor(g, d, n, -delta) == Some(cell)
  {
    PosBelow(g, d, cell);
    if d.Across? { AcrossStep(g, cell, delta); } else { DownStep(g, cell, delta); }
  }

  // --- Steps inside a word ---

  /** The neighbour in the same word: the step along the line, unless a block or the edge stops it. */
  function Inward(g: Grid, d: Direction, cell: int, delta: int): (r: Option<int>)
    requires InRange(g, cell) && (delta == 1 || delta == -1)
    ensures r.Some? ==> InRange(g, r.value) && g.Playable(r.value) && Pos(g, d, r.value) == Pos(g, d, cell) + delta
    ensures r.Some? ==> r.value == cell + delta * Stride(g, d)
    ensures r.Some? && g.Playable(cell) ==> LineNeighbor(g, d, r.value, -delta) == Some(cell)
  {
    var n := LineNeighbor(g, d, cell, delta);
    if n.None? then None
    else
      StepLaws(g, d, cell, delta);
      if n.value in g.blocks then None else n
  }

  function WordStart(g: Grid, d: Direction, cell: int): (r: int)
    requires InRange(g, cell)
    ensures InRange(g, r) && Inward(g, d, r, -1).None? && (g.Playable(cell) ==> g.Playable(r))
    decreases Pos(g, d, cell)
  {
    var p := Inward(g, d, cell, -1);
    if p.None? then cell else WordStart(g, d, p.value)
  }

  function WordEnd(g: Grid, d: Direction, cell: int): (r: int)
    requires InRange(g, cell)
    ensures InRange(g, r) && Inward(g, d, r, 1).None? && (g.Playable(cell) ==> g.Playable(r))
    decreases Len(g, d) - Pos(g, d, cell)
  {
    var n := Inward(g, d, cell, 1);
    if n.None? then cell
    else PosBelow(g, d, n.value); WordEnd(g, d, n.value)
  }

  method WordBounds(g: Grid, d: Direction, from: int) returns (start: int, end: int)
    requires InRange(g, from)
    ensures start == WordStart(g, d, from) && end == WordEnd(g, d, from)
  {
    start := from;
    while true
      invariant InRange(g, start) && WordStart(g, d, start) == WordStart(g, d, from)
      decreases Pos(g, d, start)
    {
      var prev := LineNeighbor(g, d, start, -1);
      if prev.None? || prev.value in g.blocks { break; }
      StepLaws(g, d, start, -1);
      start := prev.value;
    }
    end := from;
    while true
      invariant InRange(g, end) && WordEnd(g, d, end) == WordEnd(g, d, from)
      decreases Len(g, d) - Pos(g, d, end)
    {
      var next := LineNeighbor(g, d, end, 1);
      if next.None? || next.value in g.blocks { break; }
      StepLaws(g, d, end, 1);
      PosBelow(g, d, next.value);
      end := next.value;
    }
  }

  /** The cells from this one to the end of its word. */
  function Run(g: Grid, d: Direction, cell: int): (r: seq<int>)
    requires InRange(g, cell)
    ensures r != [] && r[0] == cell
    decreases Len(g, d) - Pos(g, d, cell)
  {
    var n := Inward(g, d, cell, 1);
    if n.None? then [cell]
    else PosBelow(g, d, n.value); [cell] + Run(g, d, n.value)
  }

  /** A run goes by strides. */
  lemma {:induction false} RunByStride(g: Grid, d: Direction, cell: int, i: nat)
    requires InRange(g, cell) && i < |Run(g, d, cell)|
    ensures Run(g, d, cell)[i] == cell + i * Stride(g, d)
    decreases i
  {
    var n := Inward(g, d, cell, 1);
    if i > 0 {
      RunByStride(g, d, n.value, i - 1);
      assert i * Stride(g, d) == (i - 1) * Stride(g, d) + Stride(g, d);
    }
  }

  /** A run ends at the word's end, and everything in it is playable and shares the word's ends. */
  lemma {:induction false} RunLaws(g: Grid, d: Direction, cell: int)
    requires g.Playable(cell)
    ensures
      var r := Run(g, d, cell);
      && r[|r| - 1] == WordEnd(g, d, cell)
      && (forall i :: 0 <= i < |r| ==>
            && g.Playable(r[i])
            && WordStart(g, d, r[i]) == WordStart(g, d, cell) && WordEnd(g, d, r[i]) == WordEnd(g, d, cell))
    decreases Len(g, d) - Pos(g, d, cell)
  {
    var n := Inward(g, d, cell, 1);
    if n.Some? {
      PosBelow(g, d, n.value);
      RunLaws(g, d, n.value);
      StepBack(g, d, cell);
    }
  }

  /** Inside a word, stepping forward and then back returns. */
  lemma StepBack(g: Grid, d: Direction, cell: int)
    requires g.Playable(cell) && Inward(g, d, cell, 1).Some?
    ensures
      var n := Inward(g, d, cell, 1).value;
      Inward(g, d, n, -1) == Some(cell) && WordStart(g, d, n) == WordStart(g, d, cell)
  {}

  lemma StepOn(g: Grid, d: Direction, cell: int)
    requires g.Playable(cell) && Inward(g, d, cell, -1).Some?
    ensures
      var p := Inward(g, d, cell, -1).value;
      Inward(g, d, p, 1) == Some(cell) && Run(g, d, p) == [p] + Run(g, d, cell)
          && WordEnd(g, d, p) == WordEnd(g, d, cell)
  {}

  /** A playable cell lies in the run of its word's start. */
  lemma {:induction false} InItsWord(g: Grid, d: Direction, cell: int)
    requires g.Playable(cell)
    ensures forall c :: c in Run(g, d, cell) ==> c in Run(g, d, WordStart(g, d, cell))
    ensures WordStart(g, d, WordStart(g, d, cell)) == WordStart(g, d, cell)
    ensures WordEnd(g, d, WordStart(g, d, cell)) == WordEnd(g, d, cell)
    decreases Pos(g, d, cell)
  {
    var p := Inward(g, d, cell, -1);
    if p.Some? {
      StepOn(g, d, cell);
      InItsWord(g, d, p.value);
    }
  }

  /** Every cell of a word is playable and has that word's ends. */
  lemma SharesTheWord(g: Grid, d: Direction, cell: int, c: int)
    requires g.Playable(cell) && c in Run(g, d, WordStart(g, d, cell))
    ensures g.Playable(c) && WordStart(g, d, c) == WordStart(g, d, cell) && WordEnd(g, d, c) == WordEnd(g, d, cell)
  {
    InItsWord(g, d, cell);
    RunLaws(g, d, WordStart(g, d, cell));
  }

  /** The word's end is among the cells from here on. */
  lemma EndIsInRun(g: Grid, d: Direction, cell: int)
    requires g.Playable(cell)
    ensures WordEnd(g, d, cell) in Run(g, d, cell)
  {
    RunLaws(g, d, cell);
  }

  // --- The clue list ---

  datatype Clue = Clue(start: int, cells: seq<int>)

  predicate StartsWord(g: Grid, d: Direction, cell: int) {
    g.Playable(cell) && Inward(g, d, cell, -1).None?
  }

  /** The clues whose start lies below n, in order of start. */
  function CluesBelow(g: Grid, d: Direction, n: nat): seq<Clue>
    requires n <= g.CellCount()
  {
    if n == 0 then []
    else if StartsWord(g, d, n - 1) then CluesBelow(g, d, n - 1) + [Clue(n - 1, Run(g, d, n - 1))]
    else CluesBelow(g, d, n - 1)
  }

  function CluesOf(g: Grid, d: Direction): seq<Clue> { CluesBelow(g, d, g.CellCount()) }

  method Clues(g: Grid, d: Direction) returns (list: seq<Clue>)
    ensures list == CluesOf(g, d)
  {
    list := [];
    for cell := 0 to g.CellCount()
      invariant list == CluesBelow(g, d, cell)
    {
      if cell in g.blocks { continue; }
      var prev := LineNeighbor(g, d, cell, -1);
      var startsHere := prev.None? || prev.value in g.blocks;
      if !startsHere { continue; }
      var cells := CollectRun(g, d, cell);
      list := list + [Clue(cell, cells)];
    }
  }

  method CollectRun(g: Grid, d: Direction, cell: int) returns (cells: seq<int>)
    requires InRange(g, cell)
    ensures cells == Run(g, d, cell)
  {
    cells := [cell];
    var scan := cell;
    while true
      invariant InRange(g, scan) && cells != [] && cells[|cells| - 1] == scan
      invariant cells[..|cells| - 1] + Run(g, d, scan) == Run(g, d, cell)
      decreases Len(g, d) - Pos(g, d, scan)
    {
      var next := LineNeighbor(g, d, scan, 1);
      if next.None? || next.value in g.blocks { break; }
      StepLaws(g, d, scan, 1);
      PosBelow(g, d, next.value);
      Regroup(cells[..|cells| - 1], [scan], Run(g, d, next.value));
      assert cells == cells[..|cells| - 1] + [scan];
      cells := cells + [next.value];
      scan := next.value;
    }
    assert cells == cells[..|cells| - 1] + [scan];
  }

  ghost predicate IsWord(g: Grid, d: Direction, c: Clue) {
    StartsWord(g, d, c.start) && c.cells == Run(g, d, c.start)
  }

  ghost predicate AscendingStarts(list: seq<Clue>) {
    forall j, k :: 0 <= j < k < |list| ==> list[j].start < list[k].start
  }

  lemma {:induction false} CluesAreWords(g: Grid, d: Direction, n: nat)
    requires n <= g.CellCount()
    ensures forall k :: 0 <= k < |CluesBelow(g, d, n)| ==>
      IsWord(g, d, CluesBelow(g, d, n)[k]) && CluesBelow(g, d, n)[k].start < n
    ensures AscendingStarts(CluesBelow(g, d, n))
  {
    if n > 0 { CluesAreWords(g, d, n - 1); }
  }

  lemma {:induction false} EveryStartHasAClue(g: Grid, d: Direction, n: nat, start: int)
    requires n <= g.CellCount() && start < n && StartsWord(g, d, start)
    ensures exists k :: 0 <= k < |CluesBelow(g, d, n)| && CluesBelow(g, d, n)[k].start == start
  {
    var list := CluesBelow(g, d, n);
    if start == n - 1 {
      assert list[|list| - 1].start == start;
    } else {
      EveryStartHasAClue(g, d, n - 1, start);
      var k :| 0 <= k < |CluesBelow(g, d, n - 1)| && CluesBelow(g, d, n - 1)[k].start == start;
      assert list[k].start == start;
    }
  }

  /**
   On each axis every playable cell lies in exactly one clue, the one that starts where its word
   starts; that clue is the word from start to end by strides; and the starts ascend.
   */
  lemma WordsPartition(g: Grid, d: Direction, cell: int)
    requires g.Playable(cell)
    ensures
      var list, start := CluesOf(g, d), WordStart(g, d, cell);
      && (exists k :: 0 <= k < |list| && list[k].start == start)
      && (forall k :: 0 <= k < |list| ==> (cell in list[k].cells <==> list[k].start == start))
      && AscendingStarts(list)
  {
    var list, start := CluesOf(g, d), WordStart(g, d, cell);
    CluesAreWords(g, d, g.CellCount());
    EveryStartHasAClue(g, d, g.CellCount(), start);
    InItsWord(g, d, cell);
    assert Run(g, d, cell)[0] in Run(g, d, cell);
    forall k | 0 <= k < |list| ensures cell in list[k].cells <==> list[k].start == start {
      assert IsWord(g, d, list[k]);
      RunLaws(g, d, list[k].start);
    }
  }

  /** Nothing else is in a clue: its cells are playable, by strides, from its start to its word's end. */
  lemma ClueShape(g: Grid, d: Direction, k: nat)
    requires k < |CluesOf(g, d)|
    ensures
      var c := CluesOf(g, d)[k];
      && g.Playable(c.start) && WordStart(g, d, c.start) == c.start
      && c.cells != [] && c.cells[0] == c.start && c.cells[|c.cells| - 1] == WordEnd(g, d, c.start)
      && (forall i :: 0 <= i < |c.cells| ==>
            g.Playable(c.cells[i]) && c.cells[i] == c.start + i * Stride(g, d)
                && WordStart(g, d, c.cells[i]) == c.start)
  {
    forall i | 0 <= i < |CluesOf(g, d)[k].cells|
      ensures CluesOf(g, d)[k].cells[i] == CluesOf(g, d)[k].start + i * Stride(g, d)
    {
      CluesAreWords(g, d, g.CellCount());
      assert IsWord(g, d, CluesOf(g, d)[k]);
      RunByStride(g, d, CluesOf(g, d)[k].start, i);
    }
    CluesAreWords(g, d, g.CellCount());
    assert IsWord(g, d, CluesOf(g, d)[k]);
    RunLaws(g, d, CluesOf(g, d)[k].start);
  }
}
