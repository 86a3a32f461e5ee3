/**
 The stat sheet told without its loops: every column of a row is the number of things anybody could
 point at in the log, in the trace or among the slots.
 */
module SheetColumns {
  import opened Basics
  import opened Sorting
  import opened Text
  import opened Engine
  import opened Sittings
  import opened SolveLog
  import opened Timeline
  import opened Moments
  import opened Tallies
  import opened StatColumns
  import opened SlotScan
  import opened StatSheet
  import opened TitleStats

  // --- Counting by pointing ---

  ghost function HowMany(n: nat, p: int -> bool): nat {
    |set i | 0 <= i < n && p(i)|
  }

  lemma OneMore(n: nat, p: int -> bool)
    ensures HowMany(n + 1, p) == HowMany(n, p) + if p(n) then 1 else 0
  {
    var before, after := set i | 0 <= i < n && p(i), set i | 0 <= i < n + 1 && p(i);
    assert after == before + if p(n) then {n} else {};
  }

  lemma SameCount(n: nat, p: int -> bool, q: int -> bool)
    requires forall i :: 0 <= i < n ==> p(i) == q(i)
    ensures HowMany(n, p) == HowMany(n, q)
  {
    assert (set i | 0 <= i < n && p(i)) == set i | 0 <= i < n && q(i);
  }

  lemma NothingToCount(p: int -> bool)
    ensures HowMany(0, p) == 0
  {
    NoMembers(set i | 0 <= i < 0 && p(i));
  }

  predicate Names(users: seq<UserId>, i: int, u: UserId) { 0 <= i < |users| && users[i] == u }

  predicate FillOf(fills: seq<TraceEntry>, i: int, u: UserId) { 0 <= i < |fills| && fills[i].userId == u }

  predicate WriteOf(events: seq<SolveEvent>, i: int, u: UserId) { 0 <= i < |events| && events[i].userId == u }

  lemma {:induction false} CountPoints(users: seq<UserId>, u: UserId)
    ensures Count(users, u) == HowMany(|users|, i => Names(users, i, u))
  {
    if users == [] {
      NothingToCount(i => Names(users, i, u));
    } else {
      var n := |users| - 1;
      CountPoints(users[..n], u);
      SameCount(n, i => Names(users[..n], i, u), i => Names(users, i, u));
      OneMore(n, i => Names(users, i, u));
    }
  }

  // --- Fills ---

  /** In the half of the rows above the middle or not, and in the half of the columns left of it or not. */
  predicate InCorner(cell: int, g: Geometry, top: bool, left: bool)
    requires g.cols > 0
  {
    (2 * (cell / g.cols) < g.rows <==> top) && (2 * (cell % g.cols) < g.cols <==> left)
  }

  predicate FillInCorner(fills: seq<TraceEntry>, i: int, u: UserId, g: Geometry, top: bool, left: bool)
    requires g.cols > 0
  {
    FillOf(fills, i, u) && InCorner(fills[i].cell, g, top, left)
  }

  ghost function CornerFills(fills: seq<TraceEntry>, u: UserId, g: Geometry, top: bool, left: bool): nat
    requires g.cols > 0
  {
    HowMany(|fills|, i => FillInCorner(fills, i, u, g, top, left))
  }

  /** A user's fills in the half minute from t on, both ends counted. */
  ghost function FillsFrom(fills: seq<TraceEntry>, u: UserId, t: int): nat {
    HowMany(|fills|, i => FillOf(fills, i, u) && t <= fills[i].at <= t + 30_000)
  }

  /** The columns counted over the fills, listed by time and then by number. */
  ghost predicate FillColumns(fills: seq<TraceEntry>, g: Geometry, u: UserId, r: SolverStats)
    requires g.cols > 0
  {
    && r.fills == HowMany(|fills|, i => FillOf(fills, i, u))
    && r.openingFills == HowMany(|fills|, i => FillOf(fills, i, u) && 5 * i < |fills|)
    && r.closingFills == HowMany(|fills|, i => FillOf(fills, i, u) && 5 * (|fills| - 1 - i) < |fills|)
    && (forall t :: FillsFrom(fills, u, t) <= r.burst) && (exists t :: FillsFrom(fills, u, t) == r.burst)
    && (forall top, left :: CornerFills(fills, u, g, top, left) <= r.homeQuadrantFills)
    && (exists top, left :: CornerFills(fills, u, g, top, left) == r.homeQuadrantFills)
    && r.focus == (if r.fills == 0 then 0.0 else r.homeQuadrantFills as real / r.fills as real)
    && r.spread ==
         |set i | 0 <= i < |fills| && FillOf(fills, i, u) :: fills[i].cell / g.cols|
         + |set i | 0 <= i < |fills| && FillOf(fills, i, u) :: fills[i].cell % g.cols|
  }

  lemma {:induction false} WindowPoints(byAt: seq<TraceEntry>, u: UserId, t: int)
    ensures InWindow(OwnFills(byAt, u), t) == FillsFrom(byAt, u, t)
  {
    hide OwnFills, InWindow;
    var p := i => FillOf(byAt, i, u) && t <= byAt[i].at <= t + 30_000;
    if byAt == [] {
      NothingToCount(p);
      NoWindow(u, t);
    } else {
      var n := |byAt| - 1;
      WindowPoints(byAt[..n], u, t);
      SameCount(n, i => FillOf(byAt[..n], i, u) && t <= byAt[..n][i].at <= t + 30_000, p);
      OneMore(n, p);
      WindowStep(OwnFills(byAt[..n], u), byAt[n], t);
      OwnStep(byAt, u);
    }
  }

  lemma NoWindow(u: UserId, t: int)
    ensures InWindow(OwnFills([], u), t) == 0
  {}

  lemma WindowStep(own: seq<TraceEntry>, e: TraceEntry, t: int)
    ensures InWindow(own + [e], t) == InWindow(own, t) + if t <= e.at <= t + 30_000 then 1 else 0
  {
    assert (own + [e])[..|own|] == own;
  }

  predicate CornerNumber(q: int, top: bool, left: bool) {
    q == (if top then 0 else 2) + (if left then 0 else 1)
  }

  lemma CornerOfCell(cell: int, g: Geometry, top: bool, left: bool, q: nat)
    requires g.cols > 0 && CornerNumber(q, top, left)
    ensures Quadrant(cell, g) == q <==> InCorner(cell, g, top, left)
  {
    var row, col := cell / g.cols, cell % g.cols;
    assert row < Half(g.rows) <==> 2 * row < g.rows;
    assert col < Half(g.cols) <==> 2 * col < g.cols;
  }

  lemma {:induction false} CornerPoints(byAt: seq<TraceEntry>, u: UserId, g: Geometry, top: bool, left: bool, q: nat)
    requires g.cols > 0 && CornerNumber(q, top, left)
    ensures InQuadrant(OwnFills(byAt, u), q, g) == CornerFills(byAt, u, g, top, left)
  {
    hide Quadrant, InCorner, CornerNumber, OwnFills, InQuadrant;
    var p := i => FillInCorner(byAt, i, u, g, top, left);
    if byAt == [] {
      NothingToCount(p);
      NoFills(u, q, g);
    } else {
      var n := |byAt| - 1;
      CornerPoints(byAt[..n], u, g, top, left, q);
      SameCount(n, i => FillInCorner(byAt[..n], i, u, g, top, left), p);
      OneMore(n, p);
      CornerOfCell(byAt[n].cell, g, top, left, q);
      CornerStep(OwnFills(byAt[..n], u), byAt[n], q, g);
      OwnStep(byAt, u);
    }
  }

  lemma NoFills(u: UserId, q: nat, g: Geometry)
    requires g.cols > 0
    ensures InQuadrant(OwnFills([], u), q, g) == 0
  {}

  lemma CornerStep(own: seq<TraceEntry>, e: TraceEntry, q: nat, g: Geometry)
    requires g.cols > 0
    ensures InQuadrant(own + [e], q, g) == InQuadrant(own, q, g) + if Quadrant(e.cell, g) == q then 1 else 0
  {
    assert (own + [e])[..|own|] == own;
  }

  lemma OwnStep(byAt: seq<TraceEntry>, u: UserId)
    requires byAt != []
    ensures
      var n := |byAt| - 1;
      var own := OwnFills(byAt[..n], u);
      OwnFills(byAt, u) == if byAt[n].userId == u then own + [byAt[n]] else own
  {
    var own := OwnFills(byAt[..|byAt| - 1], u);
    assert own + [] == own;
  }

  /** What a user's fills take on is what the fills of his take on. */
  lemma ValuesTaken(byAt: seq<TraceEntry>, u: UserId, f: TraceEntry -> int)
    ensures
      var own := OwnFills(byAt, u);
      (set i | 0 <= i < |own| :: f(own[i])) == set i | 0 <= i < |byAt| && FillOf(byAt, i, u) :: f(byAt[i])
  {
    var own := OwnFills(byAt, u);
    var taken := set i | 0 <= i < |own| :: f(own[i]);
    forall x | x in taken ensures exists i :: 0 <= i < |byAt| && FillOf(byAt, i, u) && x == f(byAt[i]) {
      var k :| 0 <= k < |own| && x == f(own[k]);
      assert own[k] in byAt;
      var i :| 0 <= i < |byAt| && byAt[i] == own[k];
      assert FillOf(byAt, i, u);
    }
    forall i | 0 <= i < |byAt| && FillOf(byAt, i, u) ensures f(byAt[i]) in taken {
      assert byAt[i] in own;
      var k :| 0 <= k < |own| && own[k] == byAt[i];
    }
  }

  lemma SpreadPoints(byAt: seq<TraceEntry>, u: UserId, g: Geometry)
    requires g.cols > 0
    ensures Spread(OwnFills(byAt, u), g) ==
      |set i | 0 <= i < |byAt| && FillOf(byAt, i, u) :: byAt[i].cell / g.cols|
      + |set i | 0 <= i < |byAt| && FillOf(byAt, i, u) :: byAt[i].cell % g.cols|
  {
    var own := OwnFills(byAt, u);
    var row, col := (e: TraceEntry) => RowOf(e.cell, g.cols), (e: TraceEntry) => ColOf(e.cell, g.cols);
    ValuesTaken(byAt, u, row);
    ValuesTaken(byAt, u, col);
    assert (set i | 0 <= i < |own| :: RowOf(own[i].cell, g.cols)) == set i | 0 <= i < |own| :: row(own[i]);
    assert (set i | 0 <= i < |own| :: ColOf(own[i].cell, g.cols)) == set i | 0 <= i < |own| :: col(own[i]);
    assert (set i | 0 <= i < |byAt| && FillOf(byAt, i, u) :: byAt[i].cell / g.cols) ==
      set i | 0 <= i < |byAt| && FillOf(byAt, i, u) :: row(byAt[i]);
    assert (set i | 0 <= i < |byAt| && FillOf(byAt, i, u) :: byAt[i].cell % g.cols) ==
      set i | 0 <= i < |byAt| && FillOf(byAt, i, u) :: col(byAt[i]);
  }

  /** Nothing of the first m is counted, so the others may be counted by themselves. */
  lemma {:induction false} CountTail(m: nat, k: nat, p: int -> bool)
    requires forall i :: 0 <= i < m ==> !p(i)
    ensures HowMany(m + k, p) == HowMany(k, i => p(m + i))
  {
    if k == 0 {
      NothingToCount(i => p(m + i));
      NoMembers(set i | 0 <= i < m && p(i));
    } else {
      CountTail(m, k - 1, p);
      OneMore(m + k - 1, p);
      OneMore(k - 1, i => p(m + i));
    }
  }

  /** Nothing past the first m is counted. */
  lemma CountHead(m: nat, n: nat, p: int -> bool)
    requires m <= n && forall i :: m <= i < n ==> !p(i)
    ensures HowMany(n, p) == HowMany(m, p)
  {
    assert (set i | 0 <= i < n && p(i)) == set i | 0 <= i < m && p(i);
  }

  lemma OpeningPoints(byAt: seq<TraceEntry>, u: UserId)
    ensures Count(Solvers(byAt[..Stretch(|byAt|)]), u) == HowMany(|byAt|, i => FillOf(byAt, i, u) && 5 * i < |byAt|)
  {
    var m, p := Stretch(|byAt|), i => FillOf(byAt, i, u) && 5 * i < |byAt|;
    var users := Solvers(byAt[..m]);
    CountPoints(users, u);
    SameCount(m, i => Names(users, i, u), p);
    CountHead(m, |byAt|, p);
  }

  lemma ClosingPoints(byAt: seq<TraceEntry>, u: UserId)
    ensures Count(Solvers(byAt[|byAt| - Stretch(|byAt|)..]), u) ==
      HowMany(|byAt|, i => FillOf(byAt, i, u) && 5 * (|byAt| - 1 - i) < |byAt|)
  {
    var k, p := Stretch(|byAt|), i => FillOf(byAt, i, u) && 5 * (|byAt| - 1 - i) < |byAt|;
    var m := |byAt| - k;
    var users := Solvers(byAt[m..]);
    CountPoints(users, u);
    SameCount(k, i => Names(users, i, u), i => p(m + i));
    CountTail(m, k, p);
  }

  lemma FillsPoint(byAt: seq<TraceEntry>, u: UserId)
    ensures |OwnFills(byAt, u)| == HowMany(|byAt|, i => FillOf(byAt, i, u))
  {
    CountPoints(Solvers(byAt), u);
    SameCount(|byAt|, i => Names(Solvers(byAt), i, u), i => FillOf(byAt, i, u));
  }

  lemma BurstPoints(byAt: seq<TraceEntry>, u: UserId)
    ensures forall t :: FillsFrom(byAt, u, t) <= Burst(OwnFills(byAt, u))
    ensures exists t :: FillsFrom(byAt, u, t) == Burst(OwnFills(byAt, u))
  {
    hide FillsFrom, OwnFills, InWindow, Burst;
    var own := OwnFills(byAt, u);
    forall t ensures FillsFrom(byAt, u, t) <= Burst(own) {
      WindowPoints(byAt, u, t);
      BurstIsTheMaximum(own, t);
    }
    BurstIsTheMaximum(own, 0);
    if own == [] {
      NoBurst();
      WindowPoints(byAt, u, 0);
    } else {
      var i :| 0 <= i < |own| && InWindow(own, own[i].at) == Burst(own);
      WindowPoints(byAt, u, own[i].at);
    }
  }

  lemma NoBurst()
    ensures Burst([]) == 0 && InWindow([], 0) == 0
  {}

  lemma HomePoints(byAt: seq<TraceEntry>, u: UserId, g: Geometry)
    requires g.cols > 0
    ensures forall top, left :: CornerFills(byAt, u, g, top, left) <= HomeFills(OwnFills(byAt, u), g)
    ensures exists top, left :: CornerFills(byAt, u, g, top, left) == HomeFills(OwnFills(byAt, u), g)
  {
    hide CornerFills, OwnFills, InQuadrant;
    CornerPoints(byAt, u, g, true, true, 0);
    CornerPoints(byAt, u, g, true, false, 1);
    CornerPoints(byAt, u, g, false, true, 2);
    CornerPoints(byAt, u, g, false, false, 3);
  }

  lemma FillColumnsCount(s: Sources, u: UserId)
    requires s.Valid()
    ensures FillColumns(s.byAt, s.geometry, u, RowFor(s, u))
  {
    hide OwnFills, Burst, HomeFills, Spread, CornerFills, FillsFrom, Count, HowMany;
    FillsPoint(s.byAt, u);
    OpeningPoints(s.byAt, u);
    ClosingPoints(s.byAt, u);
    BurstPoints(s.byAt, u);
    HomePoints(s.byAt, u, s.geometry);
    SpreadPoints(s.byAt, u, s.geometry);
  }

  // --- Writes ---

  ghost predicate RightAt(sol: Solution, cell: int, value: Option<string>) {
    && value.Some? && 0 <= cell < |sol| && sol[cell].Some?
    && Right(sol[cell].value, value.value)
  }

  /** The newest event before the i-th at that event's cell. */
  ghost predicate StoodThere(events: seq<SolveEvent>, i: int, j: int) {
    && 0 <= j < i < |events| && events[j].cell == events[i].cell
    && (forall k :: j < k < i ==> events[k].cell != events[i].cell)
  }

  predicate Solved(fills: seq<TraceEntry>, cell: int, u: UserId) {
    exists k :: 0 <= k < |fills| && fills[k].cell == cell && fills[k].userId == u
  }

  /** A right value stood there, its cell was not first solved by this user, and what he puts there is not right. */
  ghost predicate Spoils(events: seq<SolveEvent>, fills: seq<TraceEntry>, sol: Solution, i: int) {
    && 0 <= i < |events|
    && (exists j :: StoodThere(events, i, j) && RightAt(sol, events[j].cell, events[j].value))
    && !Solved(fills, events[i].cell, events[i].userId)
    && !RightAt(sol, events[i].cell, events[i].value)
  }

  /** The columns counted over the log. */
  ghost predicate WriteColumns(events: seq<SolveEvent>, fills: seq<TraceEntry>, sol: Solution, u: UserId,
                               r: SolverStats) {
    && r.writes == HowMany(|events|, i => WriteOf(events, i, u))
    && r.wrongWrites ==
         HowMany(|events|, i => WriteOf(events, i, u) && events[i].value.Some?
                                && !RightAt(sol, events[i].cell, events[i].value))
    && r.overwrites == HowMany(|events|, i => WriteOf(events, i, u) && Spoils(events, fills, sol, i))
  }

  lemma ClaimsIsRight(e: SolveEvent, sol: Solution)
    ensures Claims(e, sol) <==> RightAt(sol, e.cell, e.value)
  {
    if e.value.Some? && 0 <= e.cell < |sol| && sol[e.cell].Some? { MatchesMeans(sol[e.cell].value, e.value.value); }
  }

  lemma HeldIsRight(board: map<int, Option<string>>, cell: int, sol: Solution)
    ensures HoldsRight(board, cell, sol) <==> cell in board && RightAt(sol, cell, board[cell])
  {
    if cell in board && board[cell].Some? && 0 <= cell < |sol| && sol[cell].Some? {
      MatchesMeans(sol[cell].value, board[cell].value);
    }
  }

  /** The newest of these events at the cell. */
  ghost predicate NewestAt(events: seq<SolveEvent>, cell: int, j: int) {
    && 0 <= j < |events| && events[j].cell == cell
    && (forall k :: j < k < |events| ==> events[k].cell != cell)
  }

  /** The replayed board holds what the newest event of the cell put there. */
  lemma {:induction false} BoardIsNewest(events: seq<SolveEvent>, cell: int)
    ensures cell in BoardAfter(events) <==> exists j :: NewestAt(events, cell, j)
    ensures forall j :: NewestAt(events, cell, j) ==>
      cell in BoardAfter(events) && BoardAfter(events)[cell] == events[j].value
  {
    if events != [] {
      var n, front := |events| - 1, events[..|events| - 1];
      BoardIsNewest(front, cell);
      if events[n].cell == cell {
        assert NewestAt(events, cell, n);
      } else {
        assert forall j :: NewestAt(events, cell, j) <==> NewestAt(front, cell, j);
      }
    }
  }

  lemma DestroysIsSpoils(events: seq<SolveEvent>, fills: seq<TraceEntry>, sol: Solution, owners: map<int, UserId>,
                         i: nat)
    requires i < |events|
    requires forall c, u :: c in owners && owners[c] == u <==> Solved(fills, c, u)
    ensures Destroys(events[..i], events[i], sol, owners) <==> Spoils(events, fills, sol, i)
  {
    hide Right, Claims, HoldsRight, BoardAfter;
    var e, before := events[i], events[..i];
    ClaimsIsRight(e, sol);
    HeldIsRight(BoardAfter(before), e.cell, sol);
    BoardIsNewest(before, e.cell);
    forall j ensures StoodThere(events, i, j) <==> NewestAt(before, e.cell, j) {
      assert forall k :: 0 <= k < i ==> before[k] == events[k];
    }
    assert e.cell in owners && owners[e.cell] == e.userId <==> Solved(fills, e.cell, e.userId);
  }

  lemma WritePoints(events: seq<SolveEvent>, u: UserId)
    ensures Count(Writers(events), u) == HowMany(|events|, i => WriteOf(events, i, u))
  {
    CountPoints(Writers(events), u);
    SameCount(|events|, i => Names(Writers(events), i, u), i => WriteOf(events, i, u));
  }

  lemma {:induction false} WrongPoints(events: seq<SolveEvent>, sol: Solution, u: UserId)
    ensures Count(WrongWriters(events, sol), u) ==
      HowMany(|events|, i => WriteOf(events, i, u) && events[i].value.Some?
                             && !RightAt(sol, events[i].cell, events[i].value))
  {
    hide Count, Claims, RightAt;
    var p := i => WriteOf(events, i, u) && events[i].value.Some? && !RightAt(sol, events[i].cell, events[i].value);
    if events == [] {
      NothingToCount(p);
      NobodyCounts(u);
    } else {
      var n, front := |events| - 1, events[..|events| - 1];
      WrongPoints(front, sol, u);
      SameCount(
        n, i => WriteOf(front, i, u) && front[i].value.Some? && !RightAt(sol, front[i].cell, front[i].value), p);
      OneMore(n, p);
      ClaimsIsRight(events[n], sol);
      CountIfPush(WrongWriters(front, sol), IsWrong(events[n], sol), events[n].userId, u);
    }
  }

  /** Only what comes before an event matters to whether it spoils anything. */
  lemma SpoilsInPrefix(events: seq<SolveEvent>, n: nat, fills: seq<TraceEntry>, sol: Solution, i: int)
    requires i < n <= |events|
    ensures Spoils(events[..n], fills, sol, i) <==> Spoils(events, fills, sol, i)
  {
    hide RightAt, Solved;
    if 0 <= i {
      var front := events[..n];
      assert forall k :: 0 <= k < n ==> front[k] == events[k];
      forall j ensures StoodThere(front, i, j) <==> StoodThere(events, i, j) {}
    }
  }

  lemma {:induction false} SpoilPoints(events: seq<SolveEvent>, fills: seq<TraceEntry>, sol: Solution,
                                       owners: map<int, UserId>, u: UserId)
    requires forall c, w :: c in owners && owners[c] == w <==> Solved(fills, c, w)
    ensures Count(Overwriters(events, sol, owners), u) ==
      HowMany(|events|, i => WriteOf(events, i, u) && Spoils(events, fills, sol, i))
  {
    hide Count, Destroys, Spoils, Solved;
    var p := i => WriteOf(events, i, u) && Spoils(events, fills, sol, i);
    if events == [] {
      NothingToCount(p);
      NobodyCounts(u);
    } else {
      var n, front := |events| - 1, events[..|events| - 1];
      SpoilPoints(front, fills, sol, owners, u);
      forall i | 0 <= i < n ensures Spoils(front, fills, sol, i) <==> Spoils(events, fills, sol, i) {
        SpoilsInPrefix(events, n, fills, sol, i);
      }
      SameCount(n, i => WriteOf(front, i, u) && Spoils(front, fills, sol, i), p);
      OneMore(n, p);
      DestroysIsSpoils(events, fills, sol, owners, n);
      CountIfPush(Overwriters(front, sol, owners), Destroys(front, events[n], sol, owners), events[n].userId, u);
    }
  }

  /** With a cell named once at most, its owner is whoever the trace says solved it. */
  lemma {:induction false} OwnersSolved(trace: seq<TraceEntry>)
    requires AscendingTrace(trace)
    ensures forall c, u :: c in Owners(trace) && Owners(trace)[c] == u <==> Solved(trace, c, u)
  {
    if trace != [] {
      var n := |trace| - 1;
      var front := trace[..n];
      OwnersSolved(front);
      forall c, u
        ensures Solved(trace, c, u) <==> Solved(front, c, u) || (c == trace[n].cell && u == trace[n].userId)
      {
        if k :| 0 <= k < |trace| && trace[k].cell == c && trace[k].userId == u {
          if k < n { assert front[k].cell == c && front[k].userId == u; }
        }
        if k :| 0 <= k < |front| && front[k].cell == c && front[k].userId == u {
          assert trace[k].cell == c && trace[k].userId == u;
        }
      }
      forall u ensures !Solved(front, trace[n].cell, u) {}
    }
  }

  lemma WriteColumnsCount(s: Sources, u: UserId)
    requires s.Valid() && AscendingTrace(s.trace)
    ensures WriteColumns(s.ordered, s.trace, s.sol, u, RowFor(s, u))
  {
    hide Count, RightAt, Spoils, HowMany, Owners, OwnFills, Solved;
    OwnersSolved(s.trace);
    WritePoints(s.ordered, u);
    WrongPoints(s.ordered, s.sol, u);
    SpoilPoints(s.ordered, s.trace, s.sol, Owners(s.trace), u);
  }

  // --- Slots ---

  /** The slot's first solved square is this user's. */
  ghost predicate Started(fills: seq<TraceEntry>, cells: seq<int>, u: UserId) {
    exists t :: t in fills && t.cell in cells && t.userId == u && NoneSooner(fills, cells, t)
  }

  ghost predicate NoneSooner(fills: seq<TraceEntry>, cells: seq<int>, t: TraceEntry) {
    forall x :: x in fills && x.cell in cells ==> t.at < x.at || (t.at == x.at && t.seqNo <= x.seqNo)
  }

  /** The slot's last solved square is this user's. */
  ghost predicate Finished(fills: seq<TraceEntry>, cells: seq<int>, u: UserId) {
    exists t :: t in fills && t.cell in cells && t.userId == u && NoneLater(fills, cells, t)
  }

  ghost predicate NoneLater(fills: seq<TraceEntry>, cells: seq<int>, t: TraceEntry) {
    forall x :: x in fills && x.cell in cells ==> t.at > x.at || (t.at == x.at && t.seqNo >= x.seqNo)
  }

  ghost function SquaresBy(fills: seq<TraceEntry>, cells: seq<int>, u: UserId): nat {
    HowMany(|cells|, i => 0 <= i < |cells| && Solved(fills, cells[i], u))
  }

  /** More of the slot's squares than anybody else. */
  ghost predicate MostSquares(fills: seq<TraceEntry>, cells: seq<int>, u: UserId) {
    SquaresBy(fills, cells, u) > 0 && forall w :: w != u ==> SquaresBy(fills, cells, w) < SquaresBy(fills, cells, u)
  }

  /** Starred, if any slot is; else seven squares at least, and no two different lengths above its own. */
  ghost predicate Marquee(slots: seq<Slot>, i: int) {
    && 0 <= i < |slots|
    && if exists j :: 0 <= j < |slots| && slots[j].starred then slots[i].starred
       else
         |slots[i].cells| >= 7
         && forall j, k :: Outranks(slots, j, i) && Outranks(slots, k, i) ==> |slots[j].cells| == |slots[k].cells|
  }

  predicate Outranks(slots: seq<Slot>, j: int, i: int) {
    0 <= i < |slots| && 0 <= j < |slots| && |slots[j].cells| > |slots[i].cells|
  }

  predicate SlotOf(slots: seq<Slot>, i: int) { 0 <= i < |slots| }

  /** The columns counted over the slots. */
  ghost predicate SlotColumnsSay(fills: seq<TraceEntry>, slots: seq<Slot>, u: UserId, r: SolverStats) {
    && r.slotsStarted == HowMany(|slots|, i => SlotOf(slots, i) && Started(fills, slots[i].cells, u))
    && r.slotsFinished == HowMany(|slots|, i => SlotOf(slots, i) && Finished(fills, slots[i].cells, u))
    && r.meddles ==
         HowMany(|slots|, i => SlotOf(slots, i) && Finished(fills, slots[i].cells, u)
                               && !Started(fills, slots[i].cells, u))
    && r.slotsTouched == HowMany(|slots|, i => SlotOf(slots, i) && SquaresBy(fills, slots[i].cells, u) > 0)
    && r.marqueeLeads ==
         HowMany(|slots|, i => SlotOf(slots, i) && Marquee(slots, i) && MostSquares(fills, slots[i].cells, u))
  }

  lemma {:induction false} EntryIsThere(trace: seq<TraceEntry>, cell: int)
    ensures EntryAt(trace, cell).Some? ==> exists k :: 0 <= k < |trace| && EntryAt(trace, cell) == Some(trace[k])
    ensures EntryAt(trace, cell).Some? ==> EntryAt(trace, cell).value.cell == cell
    ensures EntryAt(trace, cell).None? ==> forall k :: 0 <= k < |trace| ==> trace[k].cell != cell
  {
    if trace != [] {
      var n, front := |trace| - 1, trace[..|trace| - 1];
      EntryIsThere(front, cell);
      if trace[n].cell == cell {
        assert EntryAt(trace, cell) == Some(trace[n]);
      } else if EntryAt(trace, cell).Some? {
        var k :| 0 <= k < |front| && EntryAt(front, cell) == Some(front[k]);
        assert trace[k] == front[k];
      } else {
        assert forall k :: 0 <= k < n ==> trace[k] == front[k];
      }
    }
  }

  lemma EntryIsTheOne(trace: seq<TraceEntry>, cell: int)
    requires AscendingTrace(trace)
    ensures forall t :: t in trace && t.cell == cell ==> EntryAt(trace, cell) == Some(t)
    ensures
      var e := EntryAt(trace, cell);
      && (e.Some? ==> e.value in trace && e.value.cell == cell)
      && (forall u :: Solved(trace, cell, u) <==> e.Some? && e.value.userId == u)
  {
    hide EntryAt;
    EntryIsThere(trace, cell);
  }

  lemma {:induction false} SlotHolds(trace: seq<TraceEntry>, cells: seq<int>, e: TraceEntry)
    requires AscendingTrace(trace)
    ensures e in SlotEntries(trace, cells) <==> e in trace && e.cell in cells
  {
    if cells != [] {
      var n := |cells| - 1;
      SlotHolds(trace, cells[..n], e);
      EntryIsTheOne(trace, cells[n]);
      assert cells == cells[..n] + [cells[n]];
    }
  }

  lemma {:induction false} SquarePoints(trace: seq<TraceEntry>, cells: seq<int>, u: UserId)
    requires AscendingTrace(trace)
    ensures Count(Solvers(SlotEntries(trace, cells)), u) == SquaresBy(trace, cells, u)
  {
    hide Solved, EntryAt;
    var p := i => 0 <= i < |cells| && Solved(trace, cells[i], u);
    if cells == [] {
      NothingToCount(p);
      NobodyCounts(u);
    } else {
      var n, front := |cells| - 1, cells[..|cells| - 1];
      SquarePoints(trace, front, u);
      SameCount(n, i => 0 <= i < |front| && Solved(trace, front[i], u), p);
      OneMore(n, p);
      EntryIsTheOne(trace, cells[n]);
      SlotEntriesStep(trace, cells, n);
      assert cells[..n + 1] == cells;
      var entries, e := SlotEntries(trace, front), EntryAt(trace, cells[n]);
      if e.Some? {
        assert Solvers(entries + [e.value]) == Solvers(entries) + [e.value.userId];
        CountPush(Solvers(entries), e.value.userId, u);
      }
    }
  }

  lemma StarterIs(trace: seq<TraceEntry>, cells: seq<int>, u: UserId)
    requires AscendingTrace(trace)
    ensures Starter(SlotEntries(trace, cells)) == [u] <==> Started(trace, cells, u)
    ensures Finisher(SlotEntries(trace, cells)) == [u] <==> Finished(trace, cells, u)
    ensures |Starter(SlotEntries(trace, cells))| <= 1 && |Finisher(SlotEntries(trace, cells))| <= 1
  {
    hide FirstToFall, LastSquare;
    var entries := SlotEntries(trace, cells);
    forall e ensures e in entries <==> e in trace && e.cell in cells { SlotHolds(trace, cells, e); }
    if entries != [] {
      var first, last := FirstToFall(entries), LastSquare(entries);
      assert first in entries && NoneSooner(trace, cells, first);
      assert last in entries && NoneLater(trace, cells, last);
      if t :| t in trace && t.cell in cells && t.userId == u && NoneSooner(trace, cells, t) {
        OnlyOne(trace, t, first);
      }
      if t :| t in trace && t.cell in cells && t.userId == u && NoneLater(trace, cells, t) {
        OnlyOne(trace, t, last);
      }
    } else {
      assert forall t :: t in trace && t.cell in cells ==> t in entries;
    }
  }

  lemma OnlyOne(trace: seq<TraceEntry>, a: TraceEntry, b: TraceEntry)
    requires AscendingTrace(trace) && a in trace && b in trace
    ensures a.seqNo == b.seqNo ==> a == b
  {
    var i :| 0 <= i < |trace| && trace[i] == a;
    var j :| 0 <= j < |trace| && trace[j] == b;
  }

  lemma OneNameCounts(users: seq<UserId>, u: UserId)
    requires |users| <= 1
    ensures Count(users, u) == if users == [u] then 1 else 0
  {
    if users != [] { assert users[..0] == []; }
  }

  lemma {:induction false} DistinctNameCounts(users: seq<UserId>, u: UserId)
    requires Distinct(users)
    ensures Count(users, u) == if u in users then 1 else 0
  {
    if users != [] {
      var n := |users| - 1;
      DistinctNameCounts(users[..n], u);
      assert users == users[..n] + [users[n]];
    }
  }

  /** What one slot adds to each of a user's slot columns. */
  lemma SlotAdds(trace: seq<TraceEntry>, cells: seq<int>, u: UserId)
    requires AscendingTrace(trace)
    ensures
      var entries := SlotEntries(trace, cells);
      && Count(Starter(entries), u) == (if Started(trace, cells, u) then 1 else 0)
      && Count(Finisher(entries), u) == (if Finished(trace, cells, u) then 1 else 0)
      && Count(Meddler(entries), u) == (if Finished(trace, cells, u) && !Started(trace, cells, u) then 1 else 0)
      && Count(Touchers(entries), u) == (if SquaresBy(trace, cells, u) > 0 then 1 else 0)
      && Count(Leader(entries), u) == (if MostSquares(trace, cells, u) then 1 else 0)
  {
    hide Started, Finished, SquaresBy, Leader, Count, SlotEntries;
    var entries := SlotEntries(trace, cells);
    EndsAdd(trace, cells, u);
    SquarePoints(trace, cells, u);
    CountedIsMember(Solvers(entries), u);
    DistinctNameCounts(Touchers(entries), u);
    LeaderIs(entries, u);
    OneNameCounts(Leader(entries), u);
    forall w ensures Count(Solvers(entries), w) == SquaresBy(trace, cells, w)
      ensures w !in Touchers(entries) ==> SquaresBy(trace, cells, w) == 0
    {
      SquarePoints(trace, cells, w);
      CountedIsMember(Solvers(entries), w);
    }
  }

  lemma EndsAdd(trace: seq<TraceEntry>, cells: seq<int>, u: UserId)
    requires AscendingTrace(trace)
    ensures
      var entries := SlotEntries(trace, cells);
      && Count(Starter(entries), u) == (if Started(trace, cells, u) then 1 else 0)
      && Count(Finisher(entries), u) == (if Finished(trace, cells, u) then 1 else 0)
      && Count(Meddler(entries), u) == (if Finished(trace, cells, u) && !Started(trace, cells, u) then 1 else 0)
  {
    hide Started, Finished, Count, SlotEntries;
    var entries := SlotEntries(trace, cells);
    StarterIs(trace, cells, u);
    OneNameCounts(Starter(entries), u);
    OneNameCounts(Finisher(entries), u);
    OneNameCounts(Meddler(entries), u);
  }

  lemma MarqueeIs(slots: seq<Slot>, i: nat)
    requires i < |slots|
    ensures IsMarquee(slots, i) <==> Marquee(slots, i)
  {
    hide IsMarquee;
    MarqueeMeans(slots, i);
    if OutrankedByOne(slots, |slots[i].cells|) {
      forall j, k | Outranks(slots, j, i) && Outranks(slots, k, i) ensures |slots[j].cells| == |slots[k].cells| {}
    } else {
      var j, k :| 0 <= j < |slots| && 0 <= k < |slots| && |slots[i].cells| < |slots[j].cells| < |slots[k].cells|;
      assert Outranks(slots, j, i) && Outranks(slots, k, i);
    }
  }

  lemma SlotsStep(trace: seq<TraceEntry>, slots: seq<Slot>, n: nat, u: UserId)
    requires n < |slots| && AscendingTrace(trace)
    ensures
      var c, d, cells := SlotsUpto(trace, slots, n), SlotsUpto(trace, slots, n + 1), slots[n].cells;
      && Count(d.starters, u) == Count(c.starters, u) + (if Started(trace, cells, u) then 1 else 0)
      && Count(d.finishers, u) == Count(c.finishers, u) + (if Finished(trace, cells, u) then 1 else 0)
      && Count(d.meddlers, u) ==
           Count(c.meddlers, u) + (if Finished(trace, cells, u) && !Started(trace, cells, u) then 1 else 0)
      && Count(d.touchers, u) == Count(c.touchers, u) + (if SquaresBy(trace, cells, u) > 0 then 1 else 0)
      && Count(d.leaders, u) ==
           Count(c.leaders, u) + (if Marquee(slots, n) && MostSquares(trace, cells, u) then 1 else 0)
  {
    hide Count, Started, Finished, SquaresBy, MostSquares, Starter, Finisher, Meddler, Touchers, Leader, IsMarquee;
    hide SlotEntries, Marquee;
    var c, entries := SlotsUpto(trace, slots, n), SlotEntries(trace, slots[n].cells);
    SlotAdds(trace, slots[n].cells, u);
    MarqueeIs(slots, n);
    CountAppend(c.starters, Starter(entries), u);
    CountAppend(c.finishers, Finisher(entries), u);
    CountAppend(c.meddlers, Meddler(entries), u);
    CountAppend(c.touchers, Touchers(entries), u);
    CountAppend(c.leaders, Leader(entries), u);
    assert c.leaders + [] == c.leaders;
  }

  lemma {:induction false} SlotPoints(trace: seq<TraceEntry>, slots: seq<Slot>, n: nat, u: UserId)
    requires n <= |slots| && AscendingTrace(trace)
    ensures
      var c := SlotsUpto(trace, slots, n);
      && Count(c.starters, u) == HowMany(n, i => SlotOf(slots, i) && Started(trace, slots[i].cells, u))
      && Count(c.finishers, u) == HowMany(n, i => SlotOf(slots, i) && Finished(trace, slots[i].cells, u))
      && Count(c.meddlers, u) ==
           HowMany(n, i => SlotOf(slots, i) && Finished(trace, slots[i].cells, u)
                           && !Started(trace, slots[i].cells, u))
      && Count(c.touchers, u) == HowMany(n, i => SlotOf(slots, i) && SquaresBy(trace, slots[i].cells, u) > 0)
      && Count(c.leaders, u) ==
           HowMany(n, i => SlotOf(slots, i) && Marquee(slots, i) && MostSquares(trace, slots[i].cells, u))
  {
    hide Count, Started, Finished, SquaresBy, MostSquares, Marquee, SlotsUpto, HowMany;
    var started := i => SlotOf(slots, i) && Started(trace, slots[i].cells, u);
    var finished := i => SlotOf(slots, i) && Finished(trace, slots[i].cells, u);
    var meddled := i => SlotOf(slots, i) && Finished(trace, slots[i].cells, u) && !Started(trace, slots[i].cells, u);
    var touched := i => SlotOf(slots, i) && SquaresBy(trace, slots[i].cells, u) > 0;
    var led := i => SlotOf(slots, i) && Marquee(slots, i) && MostSquares(trace, slots[i].cells, u);
    if n == 0 {
      NothingToCount(started);
      NothingToCount(finished);
      NothingToCount(meddled);
      NothingToCount(touched);
      NothingToCount(led);
      NoSlots(trace, slots, u);
    } else {
      SlotPoints(trace, slots, n - 1, u);
      SlotsStep(trace, slots, n - 1, u);
      OneMore(n - 1, started);
      OneMore(n - 1, finished);
      OneMore(n - 1, meddled);
      OneMore(n - 1, touched);
      OneMore(n - 1, led);
    }
  }

  lemma NoSlots(trace: seq<TraceEntry>, slots: seq<Slot>, u: UserId)
    ensures SlotsUpto(trace, slots, 0) == SlotColumns([], [], [], [], []) && Count([], u) == 0
  {}

  lemma SlotColumnsCount(s: Sources, u: UserId)
    requires s.Valid() && AscendingTrace(s.trace)
    ensures SlotColumnsSay(s.trace, s.slots, u, RowFor(s, u))
  {
    hide Count, Started, Finished, SquaresBy, MostSquares, Marquee, SlotsUpto, HowMany, OwnFills;
    SlotPoints(s.trace, s.slots, |s.slots|, u);
  }

  // --- First and last, the stall, the sittings ---

  predicate EarlierOrSame(a: TraceEntry, b: TraceEntry) { a.at < b.at || (a.at == b.at && a.seqNo <= b.seqNo) }

  ghost predicate EarliestOf(fills: seq<TraceEntry>, u: UserId, a: int) {
    FillOf(fills, a, u) && forall i :: FillOf(fills, i, u) ==> EarlierOrSame(fills[a], fills[i])
  }

  ghost predicate LatestOf(fills: seq<TraceEntry>, u: UserId, b: int) {
    FillOf(fills, b, u) && forall i :: FillOf(fills, i, u) ==> EarlierOrSame(fills[i], fills[b])
  }

  /** The marks of the two fills, and the whole seconds between them. */
  predicate Marked(a: TraceEntry, b: TraceEntry, r: SolverStats) {
    && r.firstFill == Some(FillMark(a.at, a.seqNo)) && r.lastFill == Some(FillMark(b.at, b.seqNo))
    && r.span == (b.at - a.at) / 1000
  }

  ghost predicate MarksSay(fills: seq<TraceEntry>, u: UserId, r: SolverStats) {
    if forall i :: !FillOf(fills, i, u) then r.firstFill.None? && r.lastFill.None? && r.span == 0
    else exists a, b :: EarliestOf(fills, u, a) && LatestOf(fills, u, b) && Marked(fills[a], fills[b], r)
  }

  predicate StepAtMost(trace: seq<TraceEntry>, i: int, ms: int) {
    1 <= i < |trace| && trace[i].at - trace[i - 1].at <= ms
  }

  predicate StepBelow(trace: seq<TraceEntry>, i: int, ms: int) {
    1 <= i < |trace| && trace[i].at - trace[i - 1].at < ms
  }

  /** It ends a step of that many milliseconds: none is longer, and every one before it is shorter. */
  ghost predicate EndsTheStall(trace: seq<TraceEntry>, b: int, ms: int) {
    && 1 <= b < |trace| && 0 <= ms == trace[b].at - trace[b - 1].at
    && (forall i :: 1 <= i < |trace| ==> StepAtMost(trace, i, ms))
    && (forall i :: 1 <= i < b ==> StepBelow(trace, i, ms))
  }

  /** How many sittings ended before this event. */
  ghost function SittingsBefore(events: seq<SolveEvent>, i: int): nat
    requires 0 <= i < |events|
  {
    |LongSteps(Times(events)[..i + 1])|
  }

  ghost predicate AttendanceSays(events: seq<SolveEvent>, collapsed: seq<TraceEntry>, u: UserId, r: SolverStats) {
    && r.sittingsPresent == |set i | 0 <= i < |events| && WriteOf(events, i, u) :: SittingsBefore(events, i)|
    && r.brokeStall == if exists b, ms :: EndsTheStall(collapsed, b, ms) && collapsed[b].userId == u then 1 else 0
  }

  /** The room's header: the longest active step in whole seconds, and one more sitting than there are long steps. */
  ghost predicate HeaderSays(events: seq<SolveEvent>, collapsed: seq<TraceEntry>, room: Room) {
    && (forall b, ms :: EndsTheStall(collapsed, b, ms) ==> room.stallSeconds == ms / 1000)
    && ((forall b, ms :: !EndsTheStall(collapsed, b, ms)) ==> room.stallSeconds == 0)
    && room.sittingCount == if events == [] then 0 else |LongSteps(Times(events))| + 1
  }

  lemma MarksCount(s: Sources, u: UserId)
    requires s.Valid() && s.byAt == Sort(ByAtSeq(), s.trace)
    ensures MarksSay(s.byAt, u, RowFor(s, u))
  {
    hide Sort, Burst, HomeFills, Spread, CountedFor, PresentIn, BreakOwner, OwnFills;
    TraceOrdered(s.trace);
    OwnFillsAscend(s.byAt, u);
    var own, r := OwnFills(s.byAt, u), RowFor(s, u);
    forall i | FillOf(s.byAt, i, u) ensures s.byAt[i] in own { assert s.byAt[i] in s.byAt; }
    if own != [] {
      var a :| 0 <= a < |s.byAt| && s.byAt[a] == own[0];
      assert own[|own| - 1] in own;
      var b :| 0 <= b < |s.byAt| && s.byAt[b] == own[|own| - 1];
      forall i | FillOf(s.byAt, i, u) ensures !Before(s.byAt[i], own[0]) && !Before(own[|own| - 1], s.byAt[i]) {
        OwnEnds(own, s.byAt[i]);
      }
      assert own[0] in own;
      assert EarliestOf(s.byAt, u, a) && LatestOf(s.byAt, u, b) && Marked(s.byAt[a], s.byAt[b], r);
    }
  }

  lemma StallIsBreak(trace: seq<TraceEntry>)
    ensures forall b, ms :: EndsTheStall(trace, b, ms) <==> b > 0 && b == BreakIndex(trace) && ms == Gap(trace, b)
  {
    hide BreakIndex;
    forall b, ms ensures EndsTheStall(trace, b, ms) <==> b > 0 && b == BreakIndex(trace) && ms == Gap(trace, b) {
      BreakIsUnique(trace, b);
      BreakIsEarliestLongest(trace);
      if EndsTheStall(trace, b, ms) {
        forall i | 1 <= i < |trace| ensures Gap(trace, i) <= Gap(trace, b) { assert StepAtMost(trace, i, ms); }
        forall i | 1 <= i < b ensures Gap(trace, i) < Gap(trace, b) { assert StepBelow(trace, i, ms); }
        assert IsBreak(trace, b);
      }
      if IsBreak(trace, b) {
        forall i | 1 <= i < |trace| ensures StepAtMost(trace, i, Gap(trace, b)) {
          assert Gap(trace, i) <= Gap(trace, b);
        }
        forall i | 1 <= i < b ensures StepBelow(trace, i, Gap(trace, b)) { assert Gap(trace, i) < Gap(trace, b); }
      }
    }
  }

  lemma SittingIsLongSteps(ts: seq<int>)
    requires ts != []
    ensures SittingOf(ts) == |LongSteps(ts)|
  {
    FoldedIsIdle(ts);
  }

  lemma PresentIsAttended(events: seq<SolveEvent>, u: UserId)
    ensures PresentIn(events, u) == set i | 0 <= i < |events| && WriteOf(events, i, u) :: SittingsBefore(events, i)
  {
    hide SittingOf, LongSteps;
    var attended := set i | 0 <= i < |events| && WriteOf(events, i, u) :: SittingsBefore(events, i);
    forall i | 0 <= i < |events| ensures SittingOf(Times(events)[..i + 1]) == SittingsBefore(events, i) {
      SittingIsLongSteps(Times(events)[..i + 1]);
    }
    forall n | n in PresentIn(events, u) ensures n in attended {
      var i :| 0 <= i < |events| && events[i].userId == u && n == SittingOf(Times(events)[..i + 1]);
      assert WriteOf(events, i, u);
    }
    forall n | n in attended ensures n in PresentIn(events, u) {
      var i :| 0 <= i < |events| && WriteOf(events, i, u) && n == SittingsBefore(events, i);
      assert events[i].userId == u;
    }
  }

  lemma AttendanceCounts(s: Sources, u: UserId)
    requires s.Valid()
    ensures AttendanceSays(s.ordered, s.collapsed, u, RowFor(s, u))
  {
    hide Burst, HomeFills, Spread, CountedFor, OwnFills, BreakIndex, SittingOf, LongSteps, EndsTheStall;
    StallIsBreak(s.collapsed);
    PresentIsAttended(s.ordered, u);
    var best := BreakIndex(s.collapsed);
    assert best > 0 ==> EndsTheStall(s.collapsed, best, Gap(s.collapsed, best));
  }

  lemma WholeSeconds(ms: int)
    ensures InSeconds(ms).Floor == ms / 1000
  {
    var q := ms / 1000;
    assert 1000 * q <= ms < 1000 * q + 1000;
    assert q as real <= InSeconds(ms) < q as real + 1.0;
  }

  lemma HeaderCounts(s: Sources)
    requires s.Valid()
    ensures HeaderSays(s.ordered, s.collapsed, RoomFor(s))
  {
    hide BreakIndex, LongSteps, EndsTheStall, InSeconds;
    StallIsBreak(s.collapsed);
    FoldedIsIdle(Times(s.ordered));
    var best := BreakIndex(s.collapsed);
    BreakIsEarliestLongest(s.collapsed);
    assert best > 0 ==> EndsTheStall(s.collapsed, best, Gap(s.collapsed, best));
    WholeSeconds(Gap(s.collapsed, best));
  }

  // --- The whole sheet from the log ---

  /** Nobody was right at that cell before. */
  ghost predicate RightFirst(events: seq<SolveEvent>, sol: Solution, e: SolveEvent) {
    && e in events && RightAt(sol, e.cell, e.value)
    && (forall d :: d in events && d.cell == e.cell && RightAt(sol, d.cell, d.value) ==> e.seqNo <= d.seqNo)
  }

  predicate EntersAs(e: SolveEvent, t: TraceEntry) {
    t.cell == e.cell && t.userId == e.userId && t.seqNo == e.seqNo && t.at == e.at
  }

  /** It is the same fill, at its event's time less all the idle time before it. */
  ghost predicate Folded(events: seq<SolveEvent>, t: TraceEntry, c: TraceEntry) {
    && c.cell == t.cell && c.userId == t.userId && c.seqNo == t.seqNo
    && exists k :: 0 <= k < |events| && events[k].seqNo == t.seqNo
                   && c.at == events[k].at - IdleIn(Times(events)[..k + 1])
  }

  /**
   What the columns are counted over: the log by number, the fills that were right first, by number
   and by time, and the same fills with the idle time folded away.
   */
  ghost predicate SourcesSay(events: seq<SolveEvent>, sol: Solution, s: Sources) {
    && multiset(s.ordered) == multiset(events)
    && (forall i, j :: 0 <= i < j < |s.ordered| ==> s.ordered[i].seqNo < s.ordered[j].seqNo)
    && (forall t :: t in s.trace <==> exists e :: RightFirst(events, sol, e) && EntersAs(e, t))
    && AscendingTrace(s.trace)
    && multiset(s.byAt) == multiset(s.trace)
    && (forall i, j :: 0 <= i < j < |s.byAt| ==> EarlierOrSame(s.byAt[i], s.byAt[j]))
    && |s.collapsed| == |s.trace|
    && (forall i :: 0 <= i < |s.trace| ==> Folded(s.ordered, s.trace[i], s.collapsed[i]))
  }

  lemma LogSays(events: seq<SolveEvent>)
    requires DistinctSeqs(events)
    ensures
      var es := Ordered(events);
      && multiset(es) == multiset(events) && DistinctSeqs(es) && SortedBy(BySeq(), es)
      && (forall i, j :: 0 <= i < j < |es| ==> es[i].seqNo < es[j].seqNo)
  {
    var es := Ordered(events);
    SeqOrder();
    SortSorts(BySeq(), events);
    SortKeepsMembers(BySeq(), events);
    SortKeepsDistinct(BySeq(), events);
    forall i, j | 0 <= i < j < |es| ensures es[i].seqNo < es[j].seqNo {
      assert !BySeq()(es[j], es[i]) && es[i] in events && es[j] in events;
    }
  }

  lemma TraceSays(events: seq<SolveEvent>, sol: Solution)
    requires DistinctSeqs(events)
    ensures forall t :: t in SolveTrace(events, sol) <==> exists e :: RightFirst(events, sol, e) && EntersAs(e, t)
  {
    hide SolveTrace, RightAt, Claims;
    TraceIsEarliestClaims(events, sol);
    forall e ensures Claims(e, sol) <==> RightAt(sol, e.cell, e.value) { ClaimsIsRight(e, sol); }
    forall t ensures t in SolveTrace(events, sol) <==> exists e :: RightFirst(events, sol, e) && EntersAs(e, t) {
      if e :| EarliestClaim(events, sol, e) && t == EntryOf(e) {
        assert RightFirst(events, sol, e) && EntersAs(e, t);
      }
      if e :| RightFirst(events, sol, e) && EntersAs(e, t) {
        assert EarliestClaim(events, sol, e) && t == EntryOf(e);
      }
    }
  }

  lemma FoldedSays(events: seq<SolveEvent>, sol: Solution, i: nat)
    requires DistinctSeqs(events) && i < |SolveTrace(events, sol)|
    ensures |SolveTrace(CollapseIdle(events), sol)| == |SolveTrace(events, sol)|
    ensures Folded(Ordered(events), SolveTrace(events, sol)[i], SolveTrace(CollapseIdle(events), sol)[i])
  {
    hide Walk, Folded, Collapse, Ordered, DistinctSeqs;
    var es := Ordered(events);
    LogSays(events);
    CollapseKeepsClaims(events, sol);
    CollapsedIsOrdered(events);
    FoldedEntry(es, sol, i);
  }

  lemma FoldedEntry(es: seq<SolveEvent>, sol: Solution, i: nat)
    requires forall i, j :: 0 <= i < j < |es| ==> es[i].seqNo < es[j].seqNo
    requires i < |Walk(es, sol)| && SameClaims(Walk(es, sol), Walk(Collapse(es), sol))
    ensures Folded(es, Walk(es, sol)[i], Walk(Collapse(es), sol)[i])
  {
    hide Walk, IdleIn, Claims, DistinctSeqs, Collapse;
    var active := Collapse(es);
    ActiveStaysDistinct(es);
    WalkAscends(active, sol);
    var c := Walk(active, sol)[i];
    assert c in Walk(active, sol);
    var e :| e in active && c == EntryOf(e);
    var k :| 0 <= k < |active| && active[k] == e;
    CollapsedTime(es, k);
  }

  lemma CollapsedTime(es: seq<SolveEvent>, k: nat)
    requires k < |Collapse(es)|
    ensures |Collapse(es)| == |es| && Collapse(es)[k].seqNo == es[k].seqNo
    ensures Collapse(es)[k].at == es[k].at - IdleIn(Times(es)[..k + 1])
  {
    FoldedIsIdle(Times(es)[..k + 1]);
  }

  lemma ActiveStaysDistinct(es: seq<SolveEvent>)
    requires forall i, j :: 0 <= i < j < |es| ==> es[i].seqNo < es[j].seqNo
    ensures DistinctSeqs(Collapse(es)) && SortedBy(BySeq(), Collapse(es))
  {
    hide ActiveTimes;
    var active := Collapse(es);
    assert forall i :: 0 <= i < |active| ==> active[i].seqNo == es[i].seqNo;
    AscendingSeqsAreDistinct(active);
  }

  lemma AscendingSeqsAreDistinct(es: seq<SolveEvent>)
    requires forall i, j :: 0 <= i < j < |es| ==> es[i].seqNo < es[j].seqNo
    ensures DistinctSeqs(es) && SortedBy(BySeq(), es)
  {
    forall a, b | a in es && b in es && a.seqNo == b.seqNo ensures a == b {
      var i :| 0 <= i < |es| && es[i] == a;
      var j :| 0 <= j < |es| && es[j] == b;
    }
  }

  lemma SourcesAre(events: seq<SolveEvent>, sol: Solution, slots: seq<Slot>, g: Geometry)
    requires DistinctSeqs(events) && g.cols > 0
    ensures SourcesSay(events, sol, SourcesOf(events, sol, slots, g))
  {
    hide SolveTrace, Ordered, CollapseIdle, RightFirst, EntersAs, Folded;
    var s := SourcesOf(events, sol, slots, g);
    LogSays(events);
    TraceSays(events, sol);
    TraceAscends(events, sol);
    TraceOrdered(s.trace);
    CollapseKeepsClaims(events, sol);
    forall i | 0 <= i < |s.trace| ensures Folded(s.ordered, s.trace[i], s.collapsed[i]) {
      FoldedSays(events, sol, i);
    }
    forall i, j | 0 <= i < j < |s.byAt| ensures EarlierOrSame(s.byAt[i], s.byAt[j]) {
      assert !ByAtSeq()(s.byAt[j], s.byAt[i]);
    }
  }

  /** From any log: every column of everybody's row, and the room's header, counted by pointing. */
  lemma EverySheetSays(events: seq<SolveEvent>, sol: Solution, slots: seq<Slot>, g: Geometry, u: UserId)
    requires DistinctSeqs(events) && g.cols > 0
    ensures
      var s := SourcesOf(events, sol, slots, g);
      var r := RowFor(s, u);
      && SourcesSay(events, sol, s)
      && FillColumns(s.byAt, g, u, r) && WriteColumns(s.ordered, s.trace, sol, u, r)
      && SlotColumnsSay(s.trace, slots, u, r)
      && MarksSay(s.byAt, u, r) && AttendanceSays(s.ordered, s.collapsed, u, r)
      && HeaderSays(s.ordered, s.collapsed, RoomFor(s))
  {
    hide RowFor, RoomFor, FillColumns, WriteColumns, SlotColumnsSay, MarksSay, AttendanceSays, HeaderSays;
    hide SolveTrace, CollapseIdle, Ordered;
    var s := SourcesOf(events, sol, slots, g);
    SourcesAre(events, sol, slots, g);
    FillColumnsCount(s, u);
    WriteColumnsCount(s, u);
    SlotColumnsCount(s, u);
    MarksCount(s, u);
    AttendanceCounts(s, u);
    HeaderCounts(s);
  }
}
