/**
 Words, typing and Tab told by cell numbers alone: two cells share a word when nothing but playable
 cells lies between them on their line, and every landing is the least or the nearest of its kind.
 */
module Gridlines {
  import opened Basics
  import opened Engine
  import opened Words
  import opened Cursor
  import opened Tab

  // --- Words ---

  predicate OnGrid(g: Grid, cell: int) { 0 <= cell < g.cols * g.rows && cell !in g.blocks }

  /** In the same row reading across, in the same column reading down. */
  predicate OnLine(g: Grid, d: Direction, a: int, b: int) {
    g.cols > 0 && if d == Across then a / g.cols == b / g.cols else a % g.cols == b % g.cols
  }

  /** Both on one line, with no block from the one to the other. */
  ghost predicate SameWord(g: Grid, d: Direction, a: int, b: int) {
    && 0 <= a < g.cols * g.rows && 0 <= b < g.cols * g.rows && OnLine(g, d, a, b)
    && forall c :: Min(a, b) <= c <= Max(a, b) && OnLine(g, d, a, c) ==> c !in g.blocks
  }

  lemma RowStep(g: Grid, a: int, b: int)
    requires InRange(g, a) && InRange(g, b) && g.cols > 0 && a < b && OnLine(g, Across, a, b)
    ensures LineNeighbor(g, Across, a, 1) == Some(a + 1) && OnLine(g, Across, a, a + 1)
  {
    var q := a / g.cols;
    assert a == q * g.cols + a % g.cols && b == q * g.cols + b % g.cols;
    DivMod(q, a % g.cols + 1, g.cols);
  }

  lemma LaterRow(p: int, q: int, n: int)
    requires n > 0 && p * n < q * n
    ensures p + 1 <= q && p * n + n <= q * n
  {
    if q <= p { Scales(p, q, n); }
    Scales(q, p + 1, n);
    assert (p + 1) * n == p * n + n;
  }

  lemma Split(cell: int, n: int) returns (q: int, r: int)
    requires n > 0
    ensures q == cell / n && r == cell % n && 0 <= r < n && cell == q * n + r
  {
    q, r := cell / n, cell % n;
  }

  lemma ColumnStep(g: Grid, a: int, b: int)
    requires InRange(g, a) && InRange(g, b) && g.cols > 0 && a < b && OnLine(g, Down, a, b)
    ensures LineNeighbor(g, Down, a, 1) == Some(a + g.cols) && OnLine(g, Down, a, a + g.cols) && a + g.cols <= b
  {
    var n := g.cols;
    var p, r := Split(a, n);
    var q, _ := Split(b, n);
    LaterRow(p, q, n);
    SameColumn(p, r, n);
    PosBelow(g, Down, b);
  }

  lemma SameColumn(p: int, r: int, n: int)
    requires 0 <= r < n
    ensures (p * n + r + n) % n == r
  {
    DivMod(p + 1, r, n);
    assert (p + 1) * n == p * n + n;
  }

  /** The next cell of the line is a stride on, with none of the line between. */
  lemma NextOnLine(g: Grid, d: Direction, a: int, b: int)
    requires InRange(g, a) && InRange(g, b) && g.cols > 0 && a < b && OnLine(g, d, a, b)
    ensures
      var n := a + Stride(g, d);
      a < n <= b && LineNeighbor(g, d, a, 1) == Some(n) && OnLine(g, d, a, n)
  {
    if d.Across? { RowStep(g, a, b); } else { ColumnStep(g, a, b); }
  }

  lemma NeighborIsOnLine(g: Grid, d: Direction, a: int)
    requires InRange(g, a) && g.cols > 0 && LineNeighbor(g, d, a, 1).Some?
    ensures
      var n := LineNeighbor(g, d, a, 1).value;
      InRange(g, n) && a < n && OnLine(g, d, a, n)
  {
    StepLaws(g, d, a, 1);
    var q, r := Split(a, g.cols);
    if d.Across? { DivMod(q, r + 1, g.cols); } else { SameColumn(q, r, g.cols); }
  }

  /** From a cell on, its run is exactly the cells past it in the same word. */
  lemma {:induction false} RunHolds(g: Grid, d: Direction, a: int, b: int)
    requires g.Playable(a) && g.cols > 0
    ensures b in Run(g, d, a) <==> a <= b && SameWord(g, d, a, b)
    decreases g.CellCount() - a
  {
    hide LineNeighbor, OnLine, Stride;
    var n := Inward(g, d, a, 1);
    if n.Some? {
      NeighborIsOnLine(g, d, a);
      RunHolds(g, d, n.value, b);
      RunOn(g, d, a, n.value, b);
    } else if a < b && InRange(g, b) && OnLine(g, d, a, b) {
      NextOnLine(g, d, a, b);
      assert !SameWord(g, d, a, b);
    }
    LineOfOne(g, d, a);
  }

  lemma LineOfOne(g: Grid, d: Direction, a: int)
    requires g.Playable(a) && g.cols > 0
    ensures SameWord(g, d, a, a)
  {}

  /** Past the next cell, the word from here is the word from there. */
  lemma RunOn(g: Grid, d: Direction, a: int, n: int, b: int)
    requires g.Playable(a) && g.Playable(n) && g.cols > 0
    requires Inward(g, d, a, 1) == Some(n) && a < n && OnLine(g, d, a, n)
    ensures a < b ==> (SameWord(g, d, a, b) <==> n <= b && SameWord(g, d, n, b))
  {
    if a < b && InRange(g, b) && OnLine(g, d, a, b) { NextOnLine(g, d, a, b); }
    forall c | a < c && InRange(g, c) && OnLine(g, d, a, c) ensures n <= c { NextOnLine(g, d, a, c); }
  }

  /** The first cell of the word: nothing of the word is before it. */
  ghost predicate Heads(g: Grid, d: Direction, s: int, a: int) {
    SameWord(g, d, a, s) && forall c :: SameWord(g, d, a, c) ==> s <= c
  }

  ghost predicate Tails(g: Grid, d: Direction, e: int, a: int) {
    SameWord(g, d, a, e) && forall c :: SameWord(g, d, a, c) ==> c <= e
  }

  lemma SameWordBack(g: Grid, d: Direction, a: int, b: int)
    requires g.cols > 0
    ensures SameWord(g, d, a, b) <==> SameWord(g, d, b, a)
  {}

  lemma SameWordIsPlayable(g: Grid, d: Direction, a: int, b: int)
    requires g.cols > 0 && SameWord(g, d, a, b)
    ensures g.Playable(a) && g.Playable(b)
  {}

  /** Two cells of one run share its word. */
  lemma RunIsOneWord(g: Grid, d: Direction, s: int, a: int, b: int)
    requires g.Playable(s) && g.cols > 0 && a in Run(g, d, s) && b in Run(g, d, s)
    ensures SameWord(g, d, a, b)
  {
    RunHolds(g, d, s, a);
    RunHolds(g, d, s, b);
  }

  lemma StartOfRun(g: Grid, d: Direction, a: int, b: int)
    requires g.Playable(a) && g.cols > 0 && b in Run(g, d, a)
    ensures g.Playable(b) && WordStart(g, d, b) == WordStart(g, d, a) && WordEnd(g, d, b) == WordEnd(g, d, a)
  {
    RunLaws(g, d, a);
  }

  /** The word of a cell, as the scans find it, is the cells it shares a word with. */
  lemma WordIsSameWord(g: Grid, d: Direction, a: int, b: int)
    requires g.Playable(a) && g.cols > 0
    ensures b in Run(g, d, WordStart(g, d, a)) <==> SameWord(g, d, a, b)
  {
    hide WordStart, WordEnd, Run, SameWord;
    var s := WordStart(g, d, a);
    InItsWord(g, d, a);
    HeadOfRun(g, d, a);
    if b in Run(g, d, s) { RunIsOneWord(g, d, s, a, b); }
    if SameWord(g, d, a, b) {
      SameWordBack(g, d, a, b);
      SameWordIsPlayable(g, d, a, b);
      RunHolds(g, d, a, b);
      RunHolds(g, d, b, a);
      InItsWord(g, d, b);
      HeadOfRun(g, d, b);
      if a <= b { StartOfRun(g, d, a, b); } else { StartOfRun(g, d, b, a); }
    }
  }

  lemma HeadOfRun(g: Grid, d: Direction, a: int)
    requires g.Playable(a)
    ensures a in Run(g, d, a)
  {
    assert Run(g, d, a)[0] == a;
  }

  /** The scans find the first and the last cell of the word. */
  lemma EndsAreEnds(g: Grid, d: Direction, a: int)
    requires g.Playable(a) && g.cols > 0
    ensures Heads(g, d, WordStart(g, d, a), a) && Tails(g, d, WordEnd(g, d, a), a)
  {
    hide WordStart, WordEnd, Run, SameWord;
    var s, e := WordStart(g, d, a), WordEnd(g, d, a);
    HeadOfRun(g, d, s);
    EndIsInRun(g, d, s);
    InItsWord(g, d, a);
    WordIsSameWord(g, d, a, s);
    WordIsSameWord(g, d, a, e);
    forall c | SameWord(g, d, a, c) ensures s <= c <= e {
      WordIsSameWord(g, d, a, c);
      RunHolds(g, d, s, c);
      StartOfRun(g, d, s, c);
      SameWordIsPlayable(g, d, a, c);
      EndIsNotBefore(g, d, c);
    }
  }

  /** A clue is a word: its cells are those its start shares a word with, and its start is the first of them. */
  lemma ClueIsItsWord(g: Grid, d: Direction, k: nat)
    requires k < |CluesOf(g, d)|
    ensures
      var clue := CluesOf(g, d)[k];
      && Heads(g, d, clue.start, clue.start)
      && (forall c :: c in clue.cells <==> SameWord(g, d, clue.start, c))
  {
    hide WordStart, WordEnd, Run, SameWord;
    ClueShape(g, d, k);
    CluesAreWords(g, d, g.CellCount());
    var clue := CluesOf(g, d)[k];
    assert IsWord(g, d, clue);
    HasColumns(g, clue.start);
    EndsAreEnds(g, d, clue.start);
    forall c ensures c in clue.cells <==> SameWord(g, d, clue.start, c) { WordIsSameWord(g, d, clue.start, c); }
  }

  // --- A step kept inside the word ---

  /** The next cell to the right or below, or the one before, if it is on the line and no block; else this one. */
  lemma ConfinedStepLands(g: Grid, d: Direction, from: int, toward: Toward)
    requires InRange(g, from)
    ensures
      var n := StepsAway(g, d, from, toward, 1);
      NextCell(g, d, from, toward, false) == if OnGrid(g, n) && OnLine(g, d, from, n) then n else from
  {
    HasColumns(g, from);
    EndIsNotBefore(g, d, from);
    StartIsNotAfter(g, d, from);
    var n := StepsAway(g, d, from, toward, 1);
    if toward.Forward? {
      if OnGrid(g, n) && OnLine(g, d, from, n) { NextOnLine(g, d, from, n); }
      if LineNeighbor(g, d, from, 1).Some? { NeighborIsOnLine(g, d, from); }
    } else {
      if OnGrid(g, n) && OnLine(g, d, from, n) {
        NextOnLine(g, d, n, from);
        StepLaws(g, d, n, 1);
      }
      if LineNeighbor(g, d, from, -1).Some? {
        StepLaws(g, d, from, -1);
        NeighborIsOnLine(g, d, n);
      }
    }
  }

  /** Off the grid, any step goes to the first cell that is no block, or to 0 if there is none. */
  lemma OffGridStepLands(g: Grid, d: Direction, from: int, toward: Toward, canEscapeWord: bool)
    requires !InRange(g, from)
    ensures FirstCell(g, NextCell(g, d, from, toward, canEscapeWord))
  {
    FirstPlayableIsFirst(g);
  }

  lemma FirstPlayableIsFirst(g: Grid)
    ensures FirstCell(g, FirstPlayable(g))
  {
    forall c ensures OnGrid(g, c) <==> g.Playable(c) {}
  }

  ghost predicate FirstCell(g: Grid, cell: int) {
    if exists c :: OnGrid(g, c) then OnGrid(g, cell) && (forall c :: OnGrid(g, c) ==> cell <= c) else cell == 0
  }

  // --- Typing ---

  /** An empty cell of the word. */
  ghost predicate Gap(g: Grid, d: Direction, a: int, filled: set<int>, c: int) {
    SameWord(g, d, a, c) && c !in filled
  }

  /** The gap nearest to the front among those past this cell. */
  ghost predicate NextGap(g: Grid, d: Direction, from: int, filled: set<int>, past: int, to: int) {
    Gap(g, d, from, filled, to) && to > past && forall c :: Gap(g, d, from, filled, c) && c > past ==> to <= c
  }

  lemma RunAscends(g: Grid, d: Direction, a: int)
    requires InRange(g, a) && g.cols > 0
    ensures forall i, j :: 0 <= i < j < |Run(g, d, a)| ==> Run(g, d, a)[i] < Run(g, d, a)[j]
  {
    hide Run;
    forall i, j | 0 <= i < j < |Run(g, d, a)| ensures Run(g, d, a)[i] < Run(g, d, a)[j] {
      RunByStride(g, d, a, i);
      RunByStride(g, d, a, j);
      MoreStrides(i, j, Stride(g, d));
    }
  }

  lemma MoreStrides(i: int, j: int, stride: int)
    requires i < j && stride > 0
    ensures i * stride < j * stride
  {
    Scales(j, i + 1, stride);
    assert (i + 1) * stride == i * stride + stride;
  }

  lemma FirstEmptyIsLeast(cells: seq<int>, filled: set<int>)
    requires forall i, j :: 0 <= i < j < |cells| ==> cells[i] < cells[j]
    ensures
      var first := FirstEmpty(cells, filled);
      first.Some? ==> forall c :: c in cells && c !in filled ==> first.value <= c
  {
    forall c | c in cells && c !in filled
      ensures EmptyAt(cells, filled, 0) < |cells| && FirstEmpty(cells, filled).value <= c
    {
      var j :| 0 <= j < |cells| && cells[j] == c;
    }
  }

  /** The first empty cell of the run from a cell on is the word's first gap from there on. */
  lemma GapFromHere(g: Grid, d: Direction, from: int, filled: set<int>, s: int)
    requires g.Playable(from) && g.cols > 0 && SameWord(g, d, from, s)
    ensures
      var first := FirstEmpty(Run(g, d, s), filled);
      if first.Some? then NextGap(g, d, from, filled, s - 1, first.value)
      else forall c :: Gap(g, d, from, filled, c) ==> c < s
  {
    hide Run, SameWord, FirstEmpty;
    SameWordIsPlayable(g, d, from, s);
    RunAscends(g, d, s);
    FirstEmptyIsLeast(Run(g, d, s), filled);
    forall c ensures c in Run(g, d, s) <==> c >= s && SameWord(g, d, from, c) {
      RunHolds(g, d, s, c);
      SameWordThrough(g, d, from, s, c);
    }
    var first := FirstEmpty(Run(g, d, s), filled);
    if first.None? {
      forall c | Gap(g, d, from, filled, c) ensures c < s { NothingEmptyIn(Run(g, d, s), filled, c); }
    }
  }

  lemma NothingEmptyIn(cells: seq<int>, filled: set<int>, c: int)
    requires FirstEmpty(cells, filled).None? && c !in filled
    ensures c !in cells
  {}

  /** Sharing a word with the same cell is sharing a word. */
  lemma SameWordThrough(g: Grid, d: Direction, a: int, b: int, c: int)
    requires g.cols > 0 && SameWord(g, d, a, b)
    ensures SameWord(g, d, a, c) <==> SameWord(g, d, b, c)
  {
    hide SameWord, WordStart, Run;
    SameWordIsPlayable(g, d, a, b);
    WordIsSameWord(g, d, a, b);
    WordIsSameWord(g, d, a, c);
    WordIsSameWord(g, d, b, c);
    SharesTheWord(g, d, a, b);
  }

  /**
   After a letter the cursor goes to the next gap of the word past it; if there is none, to the word's
   first gap; and if the word is full, to its last cell.
   */
  lemma TypingLands(g: Grid, d: Direction, from: int, filled: set<int>)
    requires g.Playable(from)
    ensures
      var to := AfterTyping(g, d, from, filled);
      if exists c :: Gap(g, d, from, filled, c) && c > from then NextGap(g, d, from, filled, from, to)
      else if exists c :: Gap(g, d, from, filled, c) then NextGap(g, d, from, filled, -1, to)
      else Tails(g, d, to, from)
  {
    hide Run, SameWord, FirstEmpty, WordStart, WordEnd;
    HasColumns(g, from);
    OnwardGap(g, d, from, filled);
    EndsAreEnds(g, d, from);
    var s := WordStart(g, d, from);
    GapFromHere(g, d, from, filled, s);
    forall c | Gap(g, d, from, filled, c) ensures 0 <= c && s <= c { InWordInRange(g, d, from, c); }
    FirstGapFromNought(g, d, from, filled, s);
  }

  lemma InWordInRange(g: Grid, d: Direction, a: int, c: int)
    requires g.cols > 0 && SameWord(g, d, a, c)
    ensures c >= 0
  {}

  lemma FirstGapFromNought(g: Grid, d: Direction, from: int, filled: set<int>, s: int)
    requires g.cols > 0 && forall c :: Gap(g, d, from, filled, c) ==> 0 <= c && s <= c
    ensures forall to :: NextGap(g, d, from, filled, s - 1, to) ==> NextGap(g, d, from, filled, -1, to)
  {}

  /** Past the first of an ascending list is all of it that is greater. */
  lemma PastTheFirst(run: seq<int>, from: int, c: int)
    requires run != [] && run[0] == from
    requires forall i, j :: 0 <= i < j < |run| ==> run[i] < run[j]
    ensures c in run[1..] <==> c in run && c > from
  {
    if c in run[1..] {
      var i :| 0 <= i < |run[1..]| && run[1..][i] == c;
      assert run[i + 1] == c;
    }
    if c in run && c > from {
      var i :| 0 <= i < |run| && run[i] == c;
      assert run[1..][i - 1] == c;
    }
  }

  lemma OnwardGap(g: Grid, d: Direction, from: int, filled: set<int>)
    requires g.Playable(from) && g.cols > 0
    ensures
      var first := FirstEmpty(Run(g, d, from)[1..], filled);
      if first.Some? then NextGap(g, d, from, filled, from, first.value)
      else forall c :: Gap(g, d, from, filled, c) ==> c <= from
  {
    hide SameWord, FirstEmpty, Run;
    var run := Run(g, d, from);
    RunAscends(g, d, from);
    FirstEmptyIsLeast(run[1..], filled);
    forall c ensures c in run[1..] <==> c > from && SameWord(g, d, from, c) {
      RunHolds(g, d, from, c);
      PastTheFirst(run, from, c);
    }
    if FirstEmpty(run[1..], filled).None? {
      forall c | Gap(g, d, from, filled, c) ensures c <= from { NothingEmptyIn(run[1..], filled, c); }
    }
  }

  // --- Tab ---

  /** A clue by its direction and its first cell. */
  datatype Place = Place(d: Direction, s: int)

  ghost predicate IsClue(g: Grid, c: Place) { Heads(g, c.d, c.s, c.s) }

  ghost predicate HasGap(g: Grid, c: Place, filled: set<int>) {
    IsClue(g, c) && exists x :: Gap(g, c.d, c.s, filled, x)
  }

  /** Across before down, and by first cell on the same axis. */
  predicate Lower(a: Place, b: Place) { (a.d == Across && b.d == Down) || (a.d == b.d && a.s < b.s) }

  /** The second lies past the first in the direction of travel. */
  predicate Past(toward: Toward, a: Place, b: Place) { if toward == Forward then Lower(a, b) else Lower(b, a) }

  /** Going round from here, a is met no later than b; here itself is met last. */
  predicate MetNoLater(toward: Toward, here: Place, a: Place, b: Place) {
    if Past(toward, here, a) == Past(toward, here, b) then !Past(toward, b, a) else Past(toward, here, a)
  }

  /**
   With something empty, the first gap of the first clue met that has one; with nothing empty, the
   first cell of the first clue met, or its last going backward.
   */
  ghost predicate TabGoes(g: Grid, from: int, toward: Toward, filled: set<int>, here: Place, there: Place,
                          to: Landing) {
    && Heads(g, here.d, here.s, from) && to.direction == there.d && Heads(g, there.d, there.s, to.cell)
    && if exists c :: OnGrid(g, c) && c !in filled then
         && NextGap(g, there.d, there.s, filled, -1, to.cell)
         && (forall c :: HasGap(g, c, filled) ==> MetNoLater(toward, here, there, c))
       else
         && (if toward == Forward then to.cell == there.s else Tails(g, there.d, to.cell, there.s))
         && (forall c :: IsClue(g, c) ==> MetNoLater(toward, here, there, c))
  }

  ghost function PlaceOf(g: Grid, k: nat): Place
    requires k < |TabCycle(g)|
  {
    Place(TabCycle(g)[k].direction, TabCycle(g)[k].start)
  }

  lemma CycleAscends(g: Grid, j: nat, k: nat)
    requires j < |TabCycle(g)| && k < |TabCycle(g)|
    ensures Lower(PlaceOf(g, j), PlaceOf(g, k)) <==> j < k
  {
    CluesAreWords(g, Across, g.CellCount());
    CluesAreWords(g, Down, g.CellCount());
  }

  /** The clue met after i steps is met no later than the one met after j, when i is no more than j. */
  lemma EarlierIsNoLater(g: Grid, here: nat, toward: Toward, i: nat, j: nat)
    requires here < |TabCycle(g)| && 1 <= i <= j <= |TabCycle(g)|
    ensures
      var n := |TabCycle(g)|;
      var a, b := Around(here, toward, i, n), Around(here, toward, j, n);
      MetNoLater(toward, PlaceOf(g, here), PlaceOf(g, a), PlaceOf(g, b))
  {
    hide TabCycle, Lower;
    var n := |TabCycle(g)|;
    var a, b := Around(here, toward, i, n), Around(here, toward, j, n);
    AroundOnce(here, toward, i, n);
    AroundOnce(here, toward, j, n);
    CycleAscends(g, here, a);
    CycleAscends(g, a, here);
    CycleAscends(g, here, b);
    CycleAscends(g, b, here);
    CycleAscends(g, a, b);
    CycleAscends(g, b, a);
  }

  lemma CycleClueIsItsWord(g: Grid, k: nat)
    requires k < |TabCycle(g)|
    ensures
      var clue := TabCycle(g)[k];
      && g.Playable(clue.start) && IsClue(g, PlaceOf(g, k))
      && clue.cells == Run(g, clue.direction, clue.start)
      && (forall c :: c in clue.cells <==> SameWord(g, clue.direction, clue.start, c))
  {
    var across := |CluesOf(g, Across)|;
    CycleLaws(g, k);
    CluesAreWords(g, Across, g.CellCount());
    CluesAreWords(g, Down, g.CellCount());
    if k < across {
      ClueIsItsWord(g, Across, k);
      assert IsWord(g, Across, CluesOf(g, Across)[k]);
    } else {
      ClueIsItsWord(g, Down, k - across);
      assert IsWord(g, Down, CluesOf(g, Down)[k - across]);
    }
  }

  /** Every clue has its place in the cycle, and the current clue is the cell's own. */
  lemma ClueIsInCycle(g: Grid, d: Direction, a: int)
    requires g.Playable(a)
    ensures 0 <= CurrentIndex(g, d, a) < |TabCycle(g)|
    ensures PlaceOf(g, CurrentIndex(g, d, a)).d == d && Heads(g, d, PlaceOf(g, CurrentIndex(g, d, a)).s, a)
  {
    HasColumns(g, a);
    CurrentIsFound(g, d, a);
    EndsAreEnds(g, d, a);
  }

  lemma OneHead(g: Grid, c: Place)
    requires IsClue(g, c)
    ensures g.Playable(c.s) && forall s :: Heads(g, c.d, s, c.s) ==> s == c.s
  {
    SameWordIsPlayable(g, c.d, c.s, c.s);
  }

  /** What the scan looks for: a clue of the cycle is incomplete exactly when it has a gap. */
  lemma IncompleteHasGap(g: Grid, k: nat, filled: set<int>)
    requires k < |TabCycle(g)|
    ensures Incomplete(TabCycle(g)[k], filled) <==> HasGap(g, PlaceOf(g, k), filled)
  {
    hide SameWord, TabCycle, Heads;
    CycleClueIsItsWord(g, k);
    var clue := TabCycle(g)[k];
    if Incomplete(clue, filled) {
      assert Gap(g, clue.direction, clue.start, filled, FirstEmpty(clue.cells, filled).value);
    } else {
      forall x ensures !Gap(g, clue.direction, clue.start, filled, x) {
        if x in clue.cells { assert x in filled; }
      }
    }
  }

  /** Where the clue landed in puts the cursor. */
  lemma LandsInClue(g: Grid, k: nat, toward: Toward, filled: set<int>)
    requires k < |TabCycle(g)| && TabCycle(g)[k].cells != []
    ensures
      var to, there := LandIn(TabCycle(g)[k], toward, filled), PlaceOf(g, k);
      && to.direction == there.d && Heads(g, there.d, there.s, to.cell)
      && if HasGap(g, there, filled) then NextGap(g, there.d, there.s, filled, -1, to.cell)
         else if toward == Forward then to.cell == there.s else Tails(g, there.d, to.cell, there.s)
  {
    hide SameWord, TabCycle, Run, WordEnd, WordStart, FirstEmpty;
    var clue, to := TabCycle(g)[k], LandIn(TabCycle(g)[k], toward, filled);
    CycleClueIsItsWord(g, k);
    HasColumns(g, clue.start);
    IncompleteHasGap(g, k, filled);
    assert to.cell in clue.cells;
    HeadThrough(g, clue.direction, clue.start, to.cell);
    if Incomplete(clue, filled) {
      GapFromHere(g, clue.direction, clue.start, filled, clue.start);
      SameWordIsPlayable(g, clue.direction, clue.start, to.cell);
      forall c | Gap(g, clue.direction, clue.start, filled, c) ensures 0 <= c && clue.start <= c {
        InWordInRange(g, clue.direction, clue.start, c);
      }
      FirstGapFromNought(g, clue.direction, clue.start, filled, clue.start);
    } else {
      RunLaws(g, clue.direction, clue.start);
      EndsAreEnds(g, clue.direction, clue.start);
    }
  }

  lemma HeadThrough(g: Grid, d: Direction, s: int, a: int)
    requires Heads(g, d, s, s) && SameWord(g, d, s, a)
    ensures Heads(g, d, s, a)
  {
    forall c ensures SameWord(g, d, s, c) <==> SameWord(g, d, a, c) { SameWordThrough(g, d, s, a, c); }
  }

  lemma SomethingEmpty(g: Grid, filled: set<int>)
    ensures (exists c :: OnGrid(g, c) && c !in filled) <==> exists c :: g.Playable(c) && c !in filled
  {
    forall c ensures OnGrid(g, c) <==> g.Playable(c) {}
  }

  /** Whichever clue is looked at, the one the scan stops at is met no later, if it stops for any of its kind. */
  lemma StopsFirst(g: Grid, here: nat, toward: Toward, filled: set<int>, k: nat)
    requires here < |TabCycle(g)| && k < |TabCycle(g)|
    requires Offset(TabCycle(g), filled, here, toward, 1) <= |TabCycle(g)| ==> Incomplete(TabCycle(g)[k], filled)
    ensures MetNoLater(toward, PlaceOf(g, here), PlaceOf(g, NextIndex(TabCycle(g), filled, here, toward)),
                       PlaceOf(g, k))
  {
    hide TabCycle, MetNoLater, PlaceOf;
    var n, i := |TabCycle(g)|, Offset(TabCycle(g), filled, here, toward, 1);
    var j := OffsetTo(here, k, toward, n);
    EarlierIsNoLater(g, here, toward, if i <= n then i else 1, j);
  }

  lemma ClueHasIndex(g: Grid, c: Place) returns (k: nat)
    requires IsClue(g, c)
    ensures k < |TabCycle(g)| && PlaceOf(g, k) == c
  {
    hide Heads, SameWord, TabCycle, CurrentIndex;
    OneHead(g, c);
    ClueIsInCycle(g, c.d, c.s);
    k := CurrentIndex(g, c.d, c.s);
  }

  /** From a playable cell: Tab goes where the numbers say, for the clue it starts in and the clue it lands in. */
  lemma TabGoesThere(g: Grid, d: Direction, from: int, toward: Toward, filled: set<int>)
    requires g.Playable(from)
    ensures exists here: Place, there: Place ::
      here.d == d && TabGoes(g, from, toward, filled, here, there, TabTarget(g, d, from, toward, filled))
  {
    hide TabCycle, CurrentIndex, Heads, SameWord, NextGap, Gap, MetNoLater, Incomplete, LandIn, Tails, NextIndex;
    ClueIsInCycle(g, d, from);
    var cycle, current := TabCycle(g), CurrentIndex(g, d, from);
    var next := NextIndex(cycle, filled, current, toward);
    var here, there := PlaceOf(g, current), PlaceOf(g, next);
    CycleLaws(g, next);
    LandsInClue(g, next, toward, filled);
    NothingIsEmpty(cycle, filled, current, toward);
    EmptyCellsShow(g, filled);
    SomethingEmpty(g, filled);
    StopIsOfItsKind(g, current, toward, filled);
    IncompleteHasGap(g, next, filled);
    forall c | IsClue(g, c) && (Offset(cycle, filled, current, toward, 1) <= |cycle| ==> HasGap(g, c, filled))
      ensures MetNoLater(toward, here, there, c)
    {
      var k := ClueHasIndex(g, c);
      IncompleteHasGap(g, k, filled);
      StopsFirst(g, current, toward, filled, k);
    }
    assert TabGoes(g, from, toward, filled, here, there, TabTarget(g, d, from, toward, filled));
  }

  /** The scan stops at an incomplete clue if it stops at all. */
  lemma StopIsOfItsKind(g: Grid, here: nat, toward: Toward, filled: set<int>)
    requires here < |TabCycle(g)|
    ensures
      var cycle := TabCycle(g);
      && (Offset(cycle, filled, here, toward, 1) <= |cycle| ==>
            Incomplete(cycle[NextIndex(cycle, filled, here, toward)], filled))
      && (Offset(cycle, filled, here, toward, 1) == |cycle| + 1 ==>
            !Incomplete(cycle[NextIndex(cycle, filled, here, toward)], filled))
  {
    hide TabCycle, Incomplete;
    NothingIsEmpty(TabCycle(g), filled, here, toward);
  }

  /** From anywhere else it goes to the first cell that is no block, the axis kept. */
  lemma TabFromNowhere(g: Grid, d: Direction, from: int, toward: Toward, filled: set<int>)
    requires !OnGrid(g, from)
    ensures
      var to := TabTarget(g, d, from, toward, filled);
      to.direction == d && FirstCell(g, to.cell)
  {
    FirstPlayableIsFirst(g);
  }
}
