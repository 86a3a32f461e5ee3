/**
 Moving the cursor: a single step, Tab and Shift+Tab through the clue cycle, the move after a
 typed letter and the move on Backspace.
 */
module Cursor {
  import opened Basics
  import opened Engine
  import opened Words

  datatype Toward = Forward | Backward

  // --- A single step ---

  /** The smallest playable cell, or 0 on a grid with none. */
  function FirstPlayable(g: Grid): (r: int)
    ensures if exists c :: g.Playable(c) then g.Playable(r) && (forall c :: g.Playable(c) ==> r <= c) else r == 0
  {
    FirstPlayableFrom(g, 0)
  }

  function FirstPlayableFrom(g: Grid, n: nat): (r: int)
    requires n <= g.CellCount() && forall c :: 0 <= c < n ==> c in g.blocks
    ensures if exists c :: g.Playable(c) then g.Playable(r) && (forall c :: g.Playable(c) ==> r <= c) else r == 0
    decreases g.CellCount() - n
  {
    if n == g.CellCount() then 0
    else if n !in g.blocks then assert g.Playable(n); n
    else FirstPlayableFrom(g, n + 1)
  }

  /** The first cell off the blocks, step by step from here; off the grid if there is none. */
  function Skip(g: Grid, cell: int, step: int): (r: int)
    requires step != 0
    ensures InRange(g, r) ==> g.Playable(r)
    decreases if step > 0 then g.CellCount() - cell else cell + 1
  {
    if InRange(g, cell) && cell in g.blocks then Skip(g, cell + step, step) else cell
  }

  function StepOf(g: Grid, d: Direction, toward: Toward): int {
    if toward.Forward? then Stride(g, d) else -Stride(g, d)
  }

  function NextCell(g: Grid, d: Direction, from: int, toward: Toward, canEscapeWord: bool): int {
    if g.CellCount() == 0 || !InRange(g, from) then FirstPlayable(g)
    else if !canEscapeWord then
      if toward.Forward? then if from < WordEnd(g, d, from) then from + Stride(g, d) else from
      else if from > WordStart(g, d, from) then from - Stride(g, d) else from
    else
      HasColumns(g, from);
      var landed := Skip(g, from + StepOf(g, d, toward), StepOf(g, d, toward));
      if InRange(g, landed) then landed else from
  }

  method GetNextCell(g: Grid, d: Direction, from: int, toward: Toward, canEscapeWord: bool) returns (cell: int)
    ensures cell == NextCell(g, d, from, toward, canEscapeWord)
  {
    if g.CellCount() == 0 || !InRange(g, from) { return FirstPlayable(g); }
    HasColumns(g, from);
    var stride := Stride(g, d);
    if !canEscapeWord {
      var start, end := WordBounds(g, d, from);
      if toward.Forward? { return if from < end then from + stride else from; }
      return if from > start then from - stride else from;
    }
    var step := if toward.Forward? then stride else -stride;
    cell := from + step;
    while InRange(g, cell) && cell in g.blocks
      invariant Skip(g, cell, step) == Skip(g, from + step, step)
      decreases if step > 0 then g.CellCount() - cell else cell + 1
    {
      cell := cell + step;
    }
    if !InRange(g, cell) { cell := from; }
  }

  function Opposite(t: Toward): Toward { if t.Forward? then Backward else Forward }

  lemma {:induction false} SkipBack(g: Grid, cell: int, step: int, from: int, n: nat)
    requires step != 0 && cell == from + (n + 1) * step
    requires g.Playable(from)
    requires forall k :: 1 <= k <= n ==> InRange(g, from + k * step) && from + k * step in g.blocks
    ensures Skip(g, cell - step, -step) == from
    decreases n
  {
    if n > 0 {
      assert cell - step == from + n * step;
      SkipBack(g, cell - step, step, from, n - 1);
    }
  }

  lemma {:induction false} SkipPath(g: Grid, cell: int, step: int) returns (n: nat)
    requires step != 0
    ensures Skip(g, cell, step) == cell + n * step
    ensures forall k :: 0 <= k < n ==> InRange(g, cell + k * step) && cell + k * step in g.blocks
    decreases if step > 0 then g.CellCount() - cell else cell + 1
  {
    n := 0;
    if InRange(g, cell) && cell in g.blocks {
      var m := SkipPath(g, cell + step, step);
      n := m + 1;
      assert (m + 1) * step == step + m * step;
      forall k | 0 <= k < n ensures InRange(g, cell + k * step) && cell + k * step in g.blocks {
        if k > 0 { assert cell + k * step == (cell + step) + (k - 1) * step; }
      }
    }
  }

  /** The cell n steps of the axis away, to the right or down when going forward. */
  function StepsAway(g: Grid, d: Direction, from: int, toward: Toward, n: int): int {
    var stride := if d == Across then 1 else g.cols;
    if toward == Forward then from + n * stride else from - n * stride
  }

  /** The nearest cell that way which is no block, with nothing but blocks on the way to it. */
  ghost predicate Nearest(g: Grid, d: Direction, from: int, toward: Toward, n: int, to: int) {
    && n >= 1 && to == StepsAway(g, d, from, toward, n) && g.Playable(to)
    && forall k :: 1 <= k < n ==>
         InRange(g, StepsAway(g, d, from, toward, k)) && StepsAway(g, d, from, toward, k) in g.blocks
  }

  /** Every cell of the grid that way is a block. */
  ghost predicate WalledIn(g: Grid, d: Direction, from: int, toward: Toward) {
    forall n :: n >= 1 && InRange(g, StepsAway(g, d, from, toward, n)) ==>
      StepsAway(g, d, from, toward, n) in g.blocks
  }

  /** Off the grid one way, every further cell that way is off it too. */
  lemma FurtherOut(g: Grid, from: int, step: int, n: int, k: int)
    requires InRange(g, from) && step != 0 && 1 <= n <= k && !InRange(g, from + n * step)
    ensures !InRange(g, from + k * step)
  {
    if step > 0 {
      Scales(k, n, step);
      Scales(n, 0, step);
    } else {
      Scales(k, n, -step);
      Scales(n, 0, -step);
      assert n * -step == -(n * step) && k * -step == -(k * step);
    }
  }

  /** Skipping from the first step: blocks on the way, and nothing beyond once it is off the grid. */
  lemma SkipLands(g: Grid, from: int, step: int) returns (n: nat)
    requires InRange(g, from) && step != 0
    ensures Skip(g, from + step, step) == from + (n + 1) * step != from
    ensures forall k :: 1 <= k <= n ==> InRange(g, from + k * step) && from + k * step in g.blocks
    ensures !InRange(g, from + (n + 1) * step) ==> forall k :: k > n ==> !InRange(g, from + k * step)
  {
    n := SkipPath(g, from + step, step);
    assert from + (n + 1) * step == (from + step) + n * step;
    if (n + 1) * step == 0 { Scales(n + 1, 1, if step > 0 then step else -step); }
    forall k | 1 <= k <= n ensures InRange(g, from + k * step) && from + k * step in g.blocks {
      assert from + k * step == (from + step) + (k - 1) * step;
    }
    if !InRange(g, from + (n + 1) * step) {
      forall k | k > n ensures !InRange(g, from + k * step) { FurtherOut(g, from, step, n + 1, k); }
    }
  }

  lemma AwayBySteps(g: Grid, d: Direction, from: int, toward: Toward, n: int)
    ensures StepsAway(g, d, from, toward, n) == from + n * StepOf(g, d, toward)
  {}

  /** A free step goes to the nearest cell that way which is no block, and stays exactly when there is none. */
  lemma FreeStepLands(g: Grid, d: Direction, from: int, toward: Toward)
    requires InRange(g, from)
    ensures
      var to := NextCell(g, d, from, toward, true);
      if WalledIn(g, d, from, toward) then to == from
      else to != from && exists n :: Nearest(g, d, from, toward, n, to)
  {
    hide Skip, StepsAway, StepOf;
    HasColumns(g, from);
    var step := StepOf(g, d, toward);
    assert step != 0 by { StepsAreReal(g, d, toward); }
    var n := SkipLands(g, from, step);
    forall k ensures StepsAway(g, d, from, toward, k) == from + k * step { AwayBySteps(g, d, from, toward, k); }
    var landed := StepsAway(g, d, from, toward, n + 1);
    if InRange(g, landed) {
      assert Nearest(g, d, from, toward, n + 1, landed);
      assert landed !in g.blocks;
    }
  }

  lemma StepsAreReal(g: Grid, d: Direction, toward: Toward)
    requires g.cols > 0
    ensures StepOf(g, d, toward) != 0
  {}

  /** A free step that moves is undone by the opposite step, exactly when it did not start on a block. */
  lemma StepIsUndone(g: Grid, d: Direction, from: int, toward: Toward)
    requires InRange(g, from)
    ensures
      var to := NextCell(g, d, from, toward, true);
      && InRange(g, to)
      && (to != from ==> (NextCell(g, d, to, Opposite(toward), true) == from <==> from !in g.blocks))
  {
    HasColumns(g, from);
    var step := StepOf(g, d, toward);
    var to := NextCell(g, d, from, toward, true);
    if to != from && from !in g.blocks {
      var n := SkipPath(g, from + step, step);
      assert to == from + (n + 1) * step;
      forall k | 1 <= k <= n ensures InRange(g, from + k * step) && from + k * step in g.blocks {
        assert from + k * step == (from + step) + (k - 1) * step;
      }
      SkipBack(g, to, step, from, n);
    }
  }

  /** A step kept inside the word stays there: it is the next cell of the word, or none at its end. */
  lemma ConfinedStep(g: Grid, d: Direction, from: int, toward: Toward)
    requires g.Playable(from)
    ensures
      var inward := Inward(g, d, from, if toward.Forward? then 1 else -1);
      NextCell(g, d, from, toward, false) == if inward.Some? then inward.value else from
  {
    EndIsNotBefore(g, d, from);
    StartIsNotAfter(g, d, from);
  }

  lemma {:induction false} EndIsNotBefore(g: Grid, d: Direction, from: int)
    requires InRange(g, from)
    ensures WordEnd(g, d, from) >= from && (Inward(g, d, from, 1).Some? ==> WordEnd(g, d, from) > from)
    decreases Len(g, d) - Pos(g, d, from)
  {
    HasColumns(g, from);
    var n := Inward(g, d, from, 1);
    if n.Some? {
      PosBelow(g, d, n.value);
      EndIsNotBefore(g, d, n.value);
    }
  }

  lemma {:induction false} StartIsNotAfter(g: Grid, d: Direction, from: int)
    requires InRange(g, from)
    ensures WordStart(g, d, from) <= from && (Inward(g, d, from, -1).Some? ==> WordStart(g, d, from) < from)
    decreases Pos(g, d, from)
  {
    HasColumns(g, from);
    var p := Inward(g, d, from, -1);
    if p.Some? { StartIsNotAfter(g, d, p.value); }
  }

  // --- Typing ---

  /** The position of the first empty cell at or after i; the length if there is none. */
  function EmptyAt(cells: seq<int>, filled: set<int>, i: nat): (r: nat)
    requires i <= |cells|
    ensures i <= r <= |cells| && (r < |cells| ==> cells[r] !in filled)
    ensures forall j :: i <= j < r ==> cells[j] in filled
    decreases |cells| - i
  {
    if i == |cells| || cells[i] !in filled then i else EmptyAt(cells, filled, i + 1)
  }

  function FirstEmpty(cells: seq<int>, filled: set<int>): (r: Option<int>)
    ensures r.None? <==> forall i :: 0 <= i < |cells| ==> cells[i] in filled
    ensures r.Some? ==> r.value in cells && r.value !in filled
  {
    var at := EmptyAt(cells, filled, 0);
    if at < |cells| then Some(cells[at]) else None
  }

  /** Where the cursor goes after a letter at `from`: onward in the word, else to its first gap, else its end. */
  function AfterTyping(g: Grid, d: Direction, from: int, filled: set<int>): int
    requires g.Playable(from)
  {
    var onward := FirstEmpty(Run(g, d, from)[1..], filled);
    var first := FirstEmpty(Run(g, d, WordStart(g, d, from)), filled);
    if onward.Some? then onward.value else if first.Some? then first.value else WordEnd(g, d, from)
  }

  method ScanForEmpty(cells: seq<int>, filled: set<int>) returns (r: Option<int>)
    ensures r == FirstEmpty(cells, filled)
  {
    for i := 0 to |cells|
      invariant EmptyAt(cells, filled, 0) == EmptyAt(cells, filled, i)
    {
      if cells[i] !in filled { return Some(cells[i]); }
    }
    return None;
  }

  /** The cells from first to end, a stride apart; none when the end comes one stride before the first. */
  ghost predicate Strides(cells: seq<int>, first: int, end: int, stride: int) {
    && (forall i :: 0 <= i < |cells| ==> cells[i] == first + i * stride)
    && end == first + (|cells| - 1) * stride
  }

  lemma RestStrides(cells: seq<int>, first: int, end: int, stride: int)
    requires cells != [] && Strides(cells, first, end, stride)
    ensures Strides(cells[1..], first + stride, end, stride)
  {
    var rest := cells[1..];
    forall i | 0 <= i < |rest| ensures rest[i] == (first + stride) + i * stride {
      assert rest[i] == cells[i + 1];
      assert (i + 1) * stride == i * stride + stride;
    }
    assert (|cells| - 1) * stride == (|rest| - 1) * stride + stride;
  }

  /** A loop by strides from one cell to another, both ends included, looks at the run between them. */
  method ScanByStride(g: Grid, d: Direction, first: int, end: int, ghost cells: seq<int>, filled: set<int>)
    returns (r: Option<int>)
    requires Stride(g, d) > 0 && Strides(cells, first, end, Stride(g, d))
    ensures r == FirstEmpty(cells, filled)
  {
    var cell, stride := first, Stride(g, d);
    ghost var i := 0;
    while cell <= end
      invariant 0 <= i <= |cells| && cell == first + i * stride
      invariant EmptyAt(cells, filled, 0) == EmptyAt(cells, filled, i)
      decreases |cells| - i
    {
      Reached(first, i, |cells|, stride);
      if cell !in filled { return Some(cell); }
      assert (i + 1) * stride == i * stride + stride;
      cell := cell + stride;
      i := i + 1;
    }
    Reached(first, i, |cells|, stride);
    return None;
  }

  lemma Reached(first: int, i: int, n: int, stride: int)
    requires stride > 0
    ensures first + i * stride <= first + (n - 1) * stride <==> i < n
  {
    Scales(i, n, stride);
    Scales(n - 1, i, stride);
    assert n * stride == (n - 1) * stride + stride;
  }

  lemma RunSpan(g: Grid, d: Direction, cell: int)
    requires g.Playable(cell)
    ensures Strides(Run(g, d, cell), cell, WordEnd(g, d, cell), Stride(g, d))
  {
    var r := Run(g, d, cell);
    forall i | 0 <= i < |r| ensures r[i] == cell + i * Stride(g, d) { RunByStride(g, d, cell, i); }
    RunLaws(g, d, cell);
  }

  method TypingAdvance(g: Grid, d: Direction, from: int, filled: set<int>) returns (cell: int)
    requires g.Playable(from)
    ensures cell == AfterTyping(g, d, from, filled)
  {
    HasColumns(g, from);
    var stride := Stride(g, d);
    var start, end := WordBounds(g, d, from);
    RunSpan(g, d, from);
    RestStrides(Run(g, d, from), from, end, stride);
    var onward := ScanByStride(g, d, from + stride, end, Run(g, d, from)[1..], filled);
    if onward.Some? { return onward.value; }
    InItsWord(g, d, from);
    RunSpan(g, d, start);
    var first := ScanByStride(g, d, start, end, Run(g, d, start), filled);
    if first.Some? { return first.value; }
    return end;
  }

  ghost predicate WordFull(g: Grid, d: Direction, cell: int, filled: set<int>)
    requires g.Playable(cell)
  {
    forall c :: c in Run(g, d, WordStart(g, d, cell)) ==> c in filled
  }

  /** After a letter the cursor is on an empty cell of the same word, or on its last cell if none is left. */
  lemma TypingStaysInTheWord(g: Grid, d: Direction, from: int, filled: set<int>)
    requires g.Playable(from)
    ensures
      var to := AfterTyping(g, d, from, filled);
      && g.Playable(to) && to in Run(g, d, WordStart(g, d, from))
      && WordStart(g, d, to) == WordStart(g, d, from) && WordEnd(g, d, to) == WordEnd(g, d, from)
      && (if WordFull(g, d, from, filled) then to == WordEnd(g, d, from) else to !in filled)
  {
    InItsWord(g, d, from);
    EndIsInRun(g, d, from);
    assert forall c :: c in Run(g, d, from)[1..] ==> c in Run(g, d, from);
    SharesTheWord(g, d, from, AfterTyping(g, d, from, filled));
  }

  datatype Typing = Typing(cursor: int, filled: set<int>, allEmpty: bool)

  /** Type a letter and advance, n times; `allEmpty` says every letter went into an empty cell. */
  function TypeTimes(g: Grid, d: Direction, from: int, filled: set<int>, n: nat): (t: Typing)
    requires g.Playable(from)
    ensures g.Playable(t.cursor)
  {
    if n == 0 then Typing(from, filled, true)
    else
      var t := TypeTimes(g, d, from, filled, n - 1);
      TypingStaysInTheWord(g, d, t.cursor, t.filled + {t.cursor});
      Typing(AfterTyping(g, d, t.cursor, t.filled + {t.cursor}), t.filled + {t.cursor},
             t.allEmpty && t.cursor !in t.filled)
  }

  function Gaps(g: Grid, d: Direction, cell: int, filled: set<int>): set<int>
    requires g.Playable(cell)
  {
    set c | c in Run(g, d, WordStart(g, d, cell)) && c !in filled
  }

  /** The cursor is in `from`'s word, which has `left` gaps: on one of them, or at the end if it is full. */
  ghost predicate Typed(g: Grid, d: Direction, from: int, cursor: int, filled: set<int>, left: int)
    requires g.Playable(from) && g.Playable(cursor)
  {
    && WordStart(g, d, cursor) == WordStart(g, d, from) && WordEnd(g, d, cursor) == WordEnd(g, d, from)
    && |Gaps(g, d, from, filled)| == left
    && (if left == 0 then cursor == WordEnd(g, d, from) else cursor in Gaps(g, d, from, filled))
  }

  lemma TypingStep(g: Grid, d: Direction, from: int, cursor: int, filled: set<int>, left: int)
    requires g.Playable(from) && g.Playable(cursor) && left > 0 && Typed(g, d, from, cursor, filled, left)
    ensures
      var next := AfterTyping(g, d, cursor, filled + {cursor});
      g.Playable(next) && Typed(g, d, from, next, filled + {cursor}, left - 1)
  {
    var after := filled + {cursor};
    TypingStaysInTheWord(g, d, cursor, after);
    assert Gaps(g, d, from, after) == Gaps(g, d, from, filled) - {cursor};
    NoGapsIsFull(g, d, cursor, after);
    assert Gaps(g, d, cursor, after) == Gaps(g, d, from, after);
  }

  lemma StartIsTyped(g: Grid, d: Direction, from: int, filled: set<int>)
    requires g.Playable(from) && from !in filled
    ensures |Gaps(g, d, from, filled)| > 0 && Typed(g, d, from, from, filled, |Gaps(g, d, from, filled)|)
  {
    InItsWord(g, d, from);
    assert Run(g, d, from)[0] == from;
    assert from in Gaps(g, d, from, filled);
  }

  lemma {:induction false} TypingRun(g: Grid, d: Direction, from: int, filled: set<int>, left: int, n: nat)
    requires g.Playable(from) && n <= left && Typed(g, d, from, from, filled, left)
    ensures
      var t := TypeTimes(g, d, from, filled, n);
      t.allEmpty && Typed(g, d, from, t.cursor, t.filled, left - n)
  {
    hide AfterTyping, WordStart, WordEnd, Run;
    if n > 0 {
      TypingRun(g, d, from, filled, left, n - 1);
      var before := TypeTimes(g, d, from, filled, n - 1);
      TypingStep(g, d, from, before.cursor, before.filled, left - (n - 1));
    }
  }

  /**
   Typing on from an empty cell: each of the first letters, as many as the word has gaps, goes
   into an empty cell, and then the word is full and the cursor rests on its last cell.
   */
  lemma TypingFillsTheWord(g: Grid, d: Direction, from: int, filled: set<int>)
    requires g.Playable(from) && from !in filled
    ensures
      var t := TypeTimes(g, d, from, filled, |Gaps(g, d, from, filled)|);
      t.allEmpty && WordFull(g, d, from, t.filled) && t.cursor == WordEnd(g, d, from)
  {
    var left := |Gaps(g, d, from, filled)|;
    StartIsTyped(g, d, from, filled);
    TypingRun(g, d, from, filled, left, left);
    NoGapsIsFull(g, d, from, TypeTimes(g, d, from, filled, left).filled);
  }

  lemma GapIsUnfilled(g: Grid, d: Direction, cell: int, filled: set<int>, c: int)
    requires g.Playable(cell) && c in Gaps(g, d, cell, filled)
    ensures c in Run(g, d, WordStart(g, d, cell)) && c !in filled
  {}

  lemma NoGapsIsFull(g: Grid, d: Direction, cell: int, filled: set<int>)
    requires g.Playable(cell)
    ensures WordFull(g, d, cell, filled) <==> Gaps(g, d, cell, filled) == {}
  {
    if Gaps(g, d, cell, filled) == {} {
      forall c | c in Run(g, d, WordStart(g, d, cell)) ensures c in filled {
        assert c !in Gaps(g, d, cell, filled);
      }
    }
    if WordFull(g, d, cell, filled) {
      forall c | c in Gaps(g, d, cell, filled) ensures false { GapIsUnfilled(g, d, cell, filled, c); }
      NoMembers(Gaps(g, d, cell, filled));
    }
  }

  // --- Backspace ---

  function BackspaceTarget(g: Grid, d: Direction, from: int, filled: set<int>): int {
    if from in filled then from else NextCell(g, d, from, Backward, true)
  }

  /**
   Backspace on a filled cell stays; on an empty one it goes to the nearest playable cell before
   it on the axis, or stays when there is none, and a free forward step leads back.
   */
  lemma BackspaceStepsBack(g: Grid, d: Direction, from: int, filled: set<int>)
    requires g.Playable(from)
    ensures
      var to := BackspaceTarget(g, d, from, filled);
      && g.Playable(to) && to <= from
      && (if from in filled || WalledIn(g, d, from, Backward) then to == from
          else exists n :: Nearest(g, d, from, Backward, n, to))
      && (to != from ==> NextCell(g, d, to, Forward, true) == from)
  {
    HasColumns(g, from);
    StepIsUndone(g, d, from, Backward);
    FreeStepLands(g, d, from, Backward);
    var n := SkipPath(g, from - Stride(g, d), -Stride(g, d));
    Scales(n, 0, Stride(g, d));
  }
}
