/**
 Tab and Shift+Tab: the clue cycle, every across clue and then every down clue, scanned from
 the current clue for the next one with an empty cell.
 */
module Tab {
  import opened Basics
  import opened Engine
  import opened Words
  import opened Cursor

  datatype CycleClue = CycleClue(direction: Direction, start: int, cells: seq<int>)

  function Tagged(d: Direction, list: seq<Clue>): seq<CycleClue> {
    seq(|list|, i requires 0 <= i < |list| => CycleClue(d, list[i].start, list[i].cells))
  }

  function TabCycle(g: Grid): seq<CycleClue> {
    Tagged(Across, CluesOf(g, Across)) + Tagged(Down, CluesOf(g, Down))
  }

  /** The first index at or after i whose clue has this direction and start; none is -1. */
  function FindFrom(cycle: seq<CycleClue>, d: Direction, start: int, i: nat): (r: int)
    requires i <= |cycle|
    ensures r == -1 || (i <= r < |cycle| && cycle[r].direction == d && cycle[r].start == start)
    ensures r == -1 ==> forall k :: i <= k < |cycle| ==> !(cycle[k].direction == d && cycle[k].start == start)
    ensures r >= 0 ==> forall k :: i <= k < r ==> !(cycle[k].direction == d && cycle[k].start == start)
    decreases |cycle| - i
  {
    if i == |cycle| then -1
    else if cycle[i].direction == d && cycle[i].start == start then i
    else FindFrom(cycle, d, start, i + 1)
  }

  function CurrentIndex(g: Grid, d: Direction, from: int): int
    requires InRange(g, from)
  {
    FindFrom(TabCycle(g), d, WordStart(g, d, from), 0)
  }

  /** The index i clues further round a cycle of n, in the direction of travel. */
  function Around(current: int, toward: Toward, i: nat, n: int): (r: int)
    requires 0 <= current < n
    ensures 0 <= r < n
  {
    if i == 0 then current
    else
      var before := Around(current, toward, i - 1, n);
      if toward.Forward? then if before + 1 == n then 0 else before + 1
      else if before == 0 then n - 1 else before - 1
  }

  /** The remainder that takes the sign of its left operand. */
  function Rem(a: int, n: int): int
    requires n > 0
  {
    if a >= 0 then a % n else -((-a) % n)
  }

  /** Twice the remainder and one addition bring any offset back into the cycle. */
  function Wrap(a: int, n: int): (r: int)
    requires n > 0
    ensures 0 <= r < n && r == a % n
  {
    WrapIsModulo(a, n);
    Rem(Rem(a, n) + n, n)
  }

  lemma WrapIsModulo(a: int, n: int)
    requires n > 0
    ensures Rem(Rem(a, n) + n, n) == a % n
  {
    var r := Rem(a, n);
    if a >= 0 {
      Cycles(a / n, a % n, n);
      Cycles(1, a % n, n);
    } else {
      var q, s := (-a) / n, (-a) % n;
      assert a == -q * n - s;
      if s == 0 {
        Cycles(-q, 0, n);
        Cycles(1, 0, n);
      } else {
        assert a == (-q - 1) * n + (n - s);
        Cycles(-q - 1, n - s, n);
        Cycles(0, n - s, n);
      }
    }
  }

  lemma Cycles(q: int, r: int, n: int)
    requires 0 <= r < n
    ensures (q * n + r) % n == r
  {
    DivMod(q, r, n);
  }

  predicate Incomplete(c: CycleClue, filled: set<int>) { FirstEmpty(c.cells, filled).Some? }

  /** The least offset from i to n at which the scan meets an incomplete clue; n + 1 if there is none. */
  function Offset(cycle: seq<CycleClue>, filled: set<int>, current: int, toward: Toward, i: nat): (r: nat)
    requires 0 <= current < |cycle| && 1 <= i <= |cycle| + 1
    ensures i <= r <= |cycle| + 1
    ensures r <= |cycle| ==> Incomplete(cycle[Around(current, toward, r, |cycle|)], filled)
    ensures forall j :: i <= j < r ==> !Incomplete(cycle[Around(current, toward, j, |cycle|)], filled)
    decreases |cycle| + 1 - i
  {
    if i > |cycle| then i
    else if Incomplete(cycle[Around(current, toward, i, |cycle|)], filled) then i
    else Offset(cycle, filled, current, toward, i + 1)
  }

  /** Where Tab goes in the cycle: the next incomplete clue, or the adjacent one when nothing is empty. */
  function NextIndex(cycle: seq<CycleClue>, filled: set<int>, current: int, toward: Toward): (r: int)
    requires 0 <= current < |cycle|
    ensures 0 <= r < |cycle|
  {
    var i := Offset(cycle, filled, current, toward, 1);
    Around(current, toward, if i <= |cycle| then i else 1, |cycle|)
  }

  lemma {:induction false} AroundOnce(current: int, toward: Toward, i: nat, n: int)
    requires 0 <= current < n && i <= n
    ensures Around(current, toward, i, n) ==
      if toward.Forward? then if current + i < n then current + i else current + i - n
      else if current - i >= 0 then current - i else current - i + n
  {
    if i > 0 { AroundOnce(current, toward, i - 1, n); }
  }

  lemma {:induction false} AroundTwice(current: int, toward: Toward, i: nat, j: nat, n: int)
    requires 0 <= current < n
    ensures Around(Around(current, toward, i, n), toward, j, n) == Around(current, toward, i + j, n)
  {
    if j > 0 { AroundTwice(current, toward, i, j - 1, n); }
  }

  lemma {:induction false} AroundAndBack(current: int, toward: Toward, i: nat, j: nat, n: int)
    requires 0 <= current < n && j <= i
    ensures Around(Around(current, toward, i, n), Opposite(toward), j, n) == Around(current, toward, i - j, n)
  {
    if j > 0 { AroundAndBack(current, toward, i, j - 1, n); }
  }

  function DirectionStep(toward: Toward): int { if toward.Forward? then 1 else -1 }

  /** Counting steps without coming round differs from going round by whole turns. */
  lemma {:induction false} AroundTurns(current: int, toward: Toward, i: nat, n: int) returns (turns: int)
    requires 0 <= current < n
    ensures (if toward.Forward? then current + i else current - i) == turns * n + Around(current, toward, i, n)
  {
    if i == 0 {
      turns := 0;
    } else {
      var before := AroundTurns(current, toward, i - 1, n);
      var r := Around(current, toward, i - 1, n);
      turns :=
        if toward.Forward? && r + 1 == n then before + 1
        else if toward.Backward? && r == 0 then before - 1
        else before;
      assert (before + 1) * n == before * n + n;
      assert (before - 1) * n == before * n - n;
    }
  }

  /** The arithmetic the scan does on its index is going round. */
  lemma WrapGoesRound(current: int, toward: Toward, i: nat, n: int)
    requires 0 <= current < n
    ensures Wrap(current + DirectionStep(toward) * i, n) == Around(current, toward, i, n)
  {
    var turns := AroundTurns(current, toward, i, n);
    Cycles(turns, Around(current, toward, i, n), n);
  }

  /** Scanning one full round meets every clue: the offset from the current clue to the k-th. */
  function OffsetTo(current: int, k: int, toward: Toward, n: int): (i: nat)
    requires 0 <= current < n && 0 <= k < n
    ensures 1 <= i <= n && Around(current, toward, i, n) == k
  {
    var away := if toward.Forward? then k - current else current - k;
    var i := if away > 0 then away else away + n;
    AroundOnce(current, toward, i, n);
    i
  }

  /** When the scan finds nothing, nothing is empty anywhere in the cycle. */
  lemma NothingIsEmpty(cycle: seq<CycleClue>, filled: set<int>, current: int, toward: Toward)
    requires 0 <= current < |cycle|
    ensures Offset(cycle, filled, current, toward, 1) == |cycle| + 1 <==>
      forall k :: 0 <= k < |cycle| ==> !Incomplete(cycle[k], filled)
  {
    if Offset(cycle, filled, current, toward, 1) == |cycle| + 1 {
      forall k | 0 <= k < |cycle| ensures !Incomplete(cycle[k], filled) {
        assert Around(current, toward, OffsetTo(current, k, toward, |cycle|), |cycle|) == k;
      }
    }
  }

  datatype Landing = Landing(cell: int, direction: Direction)

  function LandIn(c: CycleClue, toward: Toward, filled: set<int>): Landing
    requires c.cells != []
  {
    if Incomplete(c, filled) then Landing(FirstEmpty(c.cells, filled).value, c.direction)
    else Landing(if toward.Forward? then c.cells[0] else c.cells[|c.cells| - 1], c.direction)
  }

  // --- The cycle ---

  ghost predicate InCycle(g: Grid, c: CycleClue) {
    && g.Playable(c.start) && WordStart(g, c.direction, c.start) == c.start
    && c.cells != [] && c.cells[0] == c.start
    && (forall i :: 0 <= i < |c.cells| ==> g.Playable(c.cells[i]) && WordStart(g, c.direction, c.cells[i]) == c.start)
  }

  lemma CycleLaws(g: Grid, k: nat)
    requires k < |TabCycle(g)|
    ensures InCycle(g, TabCycle(g)[k])
  {
    var across := |CluesOf(g, Across)|;
    if k < across { ClueShape(g, Across, k); } else { ClueShape(g, Down, k - across); }
  }

  /** Each clue is in the cycle once, so its direction and start identify it. */
  lemma CycleIsDistinct(g: Grid, j: nat, k: nat)
    requires j < k < |TabCycle(g)|
    ensures TabCycle(g)[j].direction != TabCycle(g)[k].direction || TabCycle(g)[j].start != TabCycle(g)[k].start
  {
    CluesAreWords(g, Across, g.CellCount());
    CluesAreWords(g, Down, g.CellCount());
  }

  /** From any playable cell, on either axis, the current clue is found, and it holds the cell. */
  lemma CurrentIsFound(g: Grid, d: Direction, from: int)
    requires g.Playable(from)
    ensures 0 <= CurrentIndex(g, d, from) < |TabCycle(g)|
    ensures from in TabCycle(g)[CurrentIndex(g, d, from)].cells
  {
    WordsPartition(g, d, from);
    var list, start := CluesOf(g, d), WordStart(g, d, from);
    var k :| 0 <= k < |list| && list[k].start == start;
    var cycle := TabCycle(g);
    var at := if d.Across? then k else |CluesOf(g, Across)| + k;
    assert cycle[at] == CycleClue(d, start, list[k].cells);
    var c := CurrentIndex(g, d, from);
    if c < at { CycleIsDistinct(g, c, at); }
  }

  /** Landing in a clue of the cycle makes it the current one. */
  lemma LandingIsCurrent(g: Grid, k: nat, toward: Toward, filled: set<int>)
    requires k < |TabCycle(g)| && TabCycle(g)[k].cells != []
    ensures
      var to := LandIn(TabCycle(g)[k], toward, filled);
      g.Playable(to.cell) && to.cell in TabCycle(g)[k].cells && CurrentIndex(g, to.direction, to.cell) == k
  {
    CycleLaws(g, k);
    var c := TabCycle(g)[k];
    var to := LandIn(c, toward, filled);
    assert to.cell in c.cells;
    CurrentIsFound(g, to.direction, to.cell);
    var found := CurrentIndex(g, to.direction, to.cell);
    if found < k { CycleIsDistinct(g, found, k); }
  }

  // --- The operation ---

  /** Where Tab or Shift+Tab goes from a playable cell. */
  function TabTarget(g: Grid, d: Direction, from: int, toward: Toward, filled: set<int>): Landing {
    if !g.Playable(from) then Landing(FirstPlayable(g), d)
    else
      CurrentIsFound(g, d, from);
      var cycle := TabCycle(g);
      var next := NextIndex(cycle, filled, CurrentIndex(g, d, from), toward);
      CycleLaws(g, next);
      LandIn(cycle[next], toward, filled)
  }

  method TabCycleOf(g: Grid) returns (cycle: seq<CycleClue>)
    ensures cycle == TabCycle(g)
  {
    var across := Clues(g, Across);
    var down := Clues(g, Down);
    cycle := Tagged(Across, across) + Tagged(Down, down);
  }

  method TabTargetLoop(g: Grid, d: Direction, from: int, toward: Toward, filled: set<int>) returns (r: Landing)
    ensures r == TabTarget(g, d, from, toward, filled)
  {
    if g.CellCount() == 0 || !InRange(g, from) || from in g.blocks { return Landing(FirstPlayable(g), d); }
    var cycle := TabCycleOf(g);
    var start, _ := WordBounds(g, d, from);
    var current := FindFrom(cycle, d, start, 0);
    CurrentIsFound(g, d, from);
    forall k | 0 <= k < |cycle| ensures cycle[k].cells != [] { CycleLaws(g, k); }
    r := ScanCycle(cycle, current, toward, filled);
  }

  /** The scan proper: one round, then the adjacent clue. */
  method ScanCycle(cycle: seq<CycleClue>, current: int, toward: Toward, filled: set<int>) returns (r: Landing)
    requires 0 <= current < |cycle| && forall k :: 0 <= k < |cycle| ==> cycle[k].cells != []
    ensures r == LandIn(cycle[NextIndex(cycle, filled, current, toward)], toward, filled)
  {
    var n, step := |cycle|, DirectionStep(toward);
    for i := 1 to n + 1
      invariant Offset(cycle, filled, current, toward, 1) == Offset(cycle, filled, current, toward, i)
    {
      WrapGoesRound(current, toward, i, n);
      var clue := cycle[Wrap(current + step * i, n)];
      var empty := ScanForEmpty(clue.cells, filled);
      if empty.Some? { return Landing(empty.value, clue.direction); }
    }
    WrapGoesRound(current, toward, 1, n);
    NothingIsEmpty(cycle, filled, current, toward);
    var adjacent := cycle[Wrap(current + step, n)];
    var cells := adjacent.cells;
    return Landing(if toward.Forward? then cells[0] else cells[|cells| - 1], adjacent.direction);
  }

  // --- Where it goes ---

  /** The i-th clue after the current one, going round. */
  ghost function Ahead(g: Grid, d: Direction, from: int, toward: Toward, i: nat): CycleClue
    requires g.Playable(from)
  {
    CurrentIsFound(g, d, from);
    TabCycle(g)[Around(CurrentIndex(g, d, from), toward, i, |TabCycle(g)|)]
  }

  /** Landing on the first empty cell of the i-th clue ahead, every clue before it being complete. */
  ghost predicate LandsAhead(g: Grid, d: Direction, from: int, toward: Toward, filled: set<int>, i: nat, to: Landing)
    requires g.Playable(from)
  {
    && (forall j :: 1 <= j < i ==> !Incomplete(Ahead(g, d, from, toward, j), filled))
    && to.direction == Ahead(g, d, from, toward, i).direction
    && Some(to.cell) == FirstEmpty(Ahead(g, d, from, toward, i).cells, filled)
  }

  /**
   If any playable cell is empty, Tab lands on the first empty cell of the next incomplete clue
   in cyclic order, the current clue coming last; if none is, it moves to the adjacent clue.
   */
  lemma TabLands(g: Grid, d: Direction, from: int, toward: Toward, filled: set<int>)
    requires g.Playable(from)
    ensures
      var to := TabTarget(g, d, from, toward, filled);
      if exists c :: g.Playable(c) && c !in filled then
        exists i :: 1 <= i <= |TabCycle(g)| && LandsAhead(g, d, from, toward, filled, i, to)
      else
        var next := Ahead(g, d, from, toward, 1);
        to.direction == next.direction && next.cells != []
        && to.cell == if toward.Forward? then next.cells[0] else next.cells[|next.cells| - 1]
  {
    hide TabCycle, CurrentIndex;
    CurrentIsFound(g, d, from);
    var cycle, current := TabCycle(g), CurrentIndex(g, d, from);
    var i := Offset(cycle, filled, current, toward, 1);
    NothingIsEmpty(cycle, filled, current, toward);
    CycleLaws(g, NextIndex(cycle, filled, current, toward));
    EmptyCellsShow(g, filled);
    if i <= |cycle| {
      assert LandsAhead(g, d, from, toward, filled, i, TabTarget(g, d, from, toward, filled));
    }
  }

  /** An empty playable cell makes some clue of the cycle incomplete, and only that does. */
  lemma EmptyCellsShow(g: Grid, filled: set<int>)
    ensures (exists c :: g.Playable(c) && c !in filled) <==>
      (exists k :: 0 <= k < |TabCycle(g)| && Incomplete(TabCycle(g)[k], filled))
  {
    var cycle := TabCycle(g);
    if c :| g.Playable(c) && c !in filled {
      CurrentIsFound(g, Across, c);
      var k := CurrentIndex(g, Across, c);
      assert Incomplete(cycle[k], filled);
    }
    if k :| 0 <= k < |cycle| && Incomplete(cycle[k], filled) {
      CycleLaws(g, k);
      var c := FirstEmpty(cycle[k].cells, filled).value;
      assert g.Playable(c) && c !in filled;
    }
  }

  /** Tab's landing cell is playable and lies in the clue it went to. */
  lemma TabMovesTo(g: Grid, d: Direction, from: int, toward: Toward, filled: set<int>)
    requires g.Playable(from)
    ensures 0 <= CurrentIndex(g, d, from) < |TabCycle(g)|
    ensures
      var to := TabTarget(g, d, from, toward, filled);
      && g.Playable(to.cell)
      && CurrentIndex(g, to.direction, to.cell) == NextIndex(TabCycle(g), filled, CurrentIndex(g, d, from), toward)
  {
    CurrentIsFound(g, d, from);
    var next := NextIndex(TabCycle(g), filled, CurrentIndex(g, d, from), toward);
    CycleLaws(g, next);
    LandingIsCurrent(g, next, toward, filled);
  }

  // --- Repeated Tab ---

  function TabTimes(g: Grid, at: Landing, toward: Toward, filled: set<int>, n: nat): Landing {
    if n == 0 then at
    else
      var before := TabTimes(g, at, toward, filled, n - 1);
      TabTarget(g, before.direction, before.cell, toward, filled)
  }

  function IndexAfter(cycle: seq<CycleClue>, filled: set<int>, current: int, toward: Toward, times: nat): (r: int)
    requires 0 <= current < |cycle|
    ensures 0 <= r < |cycle|
  {
    if times == 0 then current
    else NextIndex(cycle, filled, IndexAfter(cycle, filled, current, toward, times - 1), toward)
  }

  lemma {:induction false} IndexAfterOne(cycle: seq<CycleClue>, filled: set<int>, current: int, toward: Toward,
                                         times: nat)
    requires 0 <= current < |cycle|
    ensures IndexAfter(cycle, filled, current, toward, times + 1) ==
      IndexAfter(cycle, filled, NextIndex(cycle, filled, current, toward), toward, times)
  {
    assert IndexAfter(cycle, filled, current, toward, 0) == current;
    if times > 0 { IndexAfterOne(cycle, filled, current, toward, times - 1); }
  }

  /** In the cycle, repeating the scan from anywhere reaches any given incomplete clue within its offset. */
  lemma {:induction false} ScanReaches(cycle: seq<CycleClue>, filled: set<int>, current: int, toward: Toward,
                                       k: nat, i: nat)
    returns (times: nat)
    requires 0 <= current < |cycle| && k < |cycle| && Incomplete(cycle[k], filled)
    requires 1 <= i <= |cycle| && Around(current, toward, i, |cycle|) == k
    ensures 1 <= times <= i && IndexAfter(cycle, filled, current, toward, times) == k
    decreases i
  {
    var o, next := Offset(cycle, filled, current, toward, 1), NextIndex(cycle, filled, current, toward);
    assert IndexAfter(cycle, filled, current, toward, 0) == current;
    if o == i {
      times := 1;
    } else {
      AroundTwice(current, toward, o, i - o, |cycle|);
      var rest := ScanReaches(cycle, filled, next, toward, k, i - o);
      IndexAfterOne(cycle, filled, current, toward, rest);
      times := rest + 1;
    }
  }

  lemma {:induction false} TabFollowsIndex(g: Grid, at: Landing, toward: Toward, filled: set<int>, times: nat)
    requires g.Playable(at.cell)
    ensures 0 <= CurrentIndex(g, at.direction, at.cell) < |TabCycle(g)|
    ensures
      var to := TabTimes(g, at, toward, filled, times);
      && g.Playable(to.cell)
      && CurrentIndex(g, to.direction, to.cell) ==
           IndexAfter(TabCycle(g), filled, CurrentIndex(g, at.direction, at.cell), toward, times)
  {
    CurrentIsFound(g, at.direction, at.cell);
    if times > 0 {
      TabFollowsIndex(g, at, toward, filled, times - 1);
      var before := TabTimes(g, at, toward, filled, times - 1);
      TabMovesTo(g, before.direction, before.cell, toward, filled);
    }
  }

  /** With the fills as they are, repeated Tab comes to every incomplete clue within one round. */
  lemma RepeatedTabVisitsAll(g: Grid, at: Landing, toward: Toward, filled: set<int>, k: nat) returns (times: nat)
    requires g.Playable(at.cell) && k < |TabCycle(g)| && Incomplete(TabCycle(g)[k], filled)
    ensures 1 <= times <= |TabCycle(g)|
    ensures
      var to := TabTimes(g, at, toward, filled, times);
      g.Playable(to.cell) && CurrentIndex(g, to.direction, to.cell) == k
  {
    CurrentIsFound(g, at.direction, at.cell);
    var current := CurrentIndex(g, at.direction, at.cell);
    times := ScanReaches(TabCycle(g), filled, current, toward, k, OffsetTo(current, k, toward, |TabCycle(g)|));
    TabFollowsIndex(g, at, toward, filled, times);
  }

  // --- Shift+Tab after Tab ---

  lemma BackIsForth(cycle: seq<CycleClue>, filled: set<int>, current: int, toward: Toward)
    requires 0 <= current < |cycle| && Incomplete(cycle[current], filled)
    ensures NextIndex(cycle, filled, NextIndex(cycle, filled, current, toward), Opposite(toward)) == current
  {
    var n, o := |cycle|, Offset(cycle, filled, current, toward, 1);
    NothingIsEmpty(cycle, filled, current, toward);
    var next := NextIndex(cycle, filled, current, toward);
    forall j | 1 <= j < o ensures !Incomplete(cycle[Around(next, Opposite(toward), j, n)], filled) {
      AroundAndBack(current, toward, o, j, n);
      assert !Incomplete(cycle[Around(current, toward, o - j, n)], filled);
    }
    AroundAndBack(current, toward, o, o, n);
    assert Around(current, toward, 0, n) == current;
    assert Offset(cycle, filled, next, Opposite(toward), 1) == o;
  }

  lemma AdjacentAndBack(cycle: seq<CycleClue>, filled: set<int>, current: int, toward: Toward)
    requires 0 <= current < |cycle|
    requires forall k :: 0 <= k < |cycle| ==> !Incomplete(cycle[k], filled)
    ensures NextIndex(cycle, filled, NextIndex(cycle, filled, current, toward), Opposite(toward)) == current
  {
    var next := NextIndex(cycle, filled, current, toward);
    NothingIsEmpty(cycle, filled, current, toward);
    NothingIsEmpty(cycle, filled, next, Opposite(toward));
    AroundAndBack(current, toward, 1, 1, |cycle|);
    assert Around(current, toward, 0, |cycle|) == current;
  }

  predicate AllComplete(cycle: seq<CycleClue>, filled: set<int>) {
    forall k :: 0 <= k < |cycle| ==> !Incomplete(cycle[k], filled)
  }

  lemma BackExactlyWhen(cycle: seq<CycleClue>, filled: set<int>, current: int, toward: Toward)
    requires 0 <= current < |cycle|
    ensures NextIndex(cycle, filled, NextIndex(cycle, filled, current, toward), Opposite(toward)) == current <==>
      Incomplete(cycle[current], filled) || AllComplete(cycle, filled)
  {
    if Incomplete(cycle[current], filled) { BackIsForth(cycle, filled, current, toward); }
    else if AllComplete(cycle, filled) { AdjacentAndBack(cycle, filled, current, toward); }
    else { NothingIsEmpty(cycle, filled, NextIndex(cycle, filled, current, toward), Opposite(toward)); }
  }

  /**
   Shift+Tab after Tab (or the other way round) is back at the starting clue if and only if that
   clue had an empty cell or nothing is empty anywhere.
   */
  lemma TabIsUndone(g: Grid, d: Direction, from: int, toward: Toward, filled: set<int>)
    requires g.Playable(from)
    ensures
      var to := TabTarget(g, d, from, toward, filled);
      && g.Playable(to.cell)
      && var back := TabTarget(g, to.direction, to.cell, Opposite(toward), filled);
         && g.Playable(back.cell)
         && 0 <= CurrentIndex(g, d, from) < |TabCycle(g)|
         && (CurrentIndex(g, back.direction, back.cell) == CurrentIndex(g, d, from) <==>
               Incomplete(TabCycle(g)[CurrentIndex(g, d, from)], filled) || AllComplete(TabCycle(g), filled))
  {
    TabMovesTo(g, d, from, toward, filled);
    var to := TabTarget(g, d, from, toward, filled);
    TabMovesTo(g, to.direction, to.cell, Opposite(toward), filled);
    BackExactlyWhen(TabCycle(g), filled, CurrentIndex(g, d, from), toward);
  }
}
