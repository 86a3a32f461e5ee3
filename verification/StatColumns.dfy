/**
 The columns of the stat sheet. Each column says whose event, fill or slot is counted, as a list
 of user ids with one entry per thing counted; the loops that keep running tallies over the
 log, the trace and the slots are proved to count those lists.
 */
module StatColumns {
  import opened Basics
  import opened Sorting
  import opened Text
  import opened Engine
  import opened SolveLog
  import opened Moments
  import opened Tallies

  datatype Slot = Slot(cells: seq<int>, starred: bool)

  const MARQUEE_MIN_LENGTH: nat := 7

  function Solvers(trace: seq<TraceEntry>): seq<UserId> {
    seq(|trace|, i requires 0 <= i < |trace| => trace[i].userId)
  }

  function Writers(events: seq<SolveEvent>): seq<UserId> {
    seq(|events|, i requires 0 <= i < |events| => events[i].userId)
  }

  // --- Fills, opening and closing stretches ---

  function OwnFills(byAt: seq<TraceEntry>, u: UserId): (r: seq<TraceEntry>)
    ensures |r| == Count(Solvers(byAt), u)
    ensures forall e :: e in r <==> e in byAt && e.userId == u
  {
    if byAt == [] then []
    else
      var n := |byAt| - 1;
      assert Solvers(byAt)[..n] == Solvers(byAt[..n]);
      assert byAt == byAt[..n] + [byAt[n]];
      OwnFills(byAt[..n], u) + (if byAt[n].userId == u then [byAt[n]] else [])
  }

  /** A fifth of the trace, rounded up. */
  function Stretch(t: nat): (r: nat)
    ensures r <= t && 5 * r >= t && 5 * r < t + 5
  {
    (t + 4) / 5
  }

  method TallySolvers(entries: seq<TraceEntry>) returns (t: Tally)
    ensures Counts(t, Solvers(entries))
  {
    t := map[];
    for i := 0 to |entries|
      invariant Counts(t, Solvers(entries[..i]))
    {
      BumpCounts(t, Solvers(entries[..i]), entries[i].userId);
      assert Solvers(entries[..i + 1]) == Solvers(entries[..i]) + [entries[i].userId];
      t := Bump(t, entries[i].userId);
    }
    assert entries[..|entries|] == entries;
  }

  // --- The replay of writes ---

  function BoardAfter(events: seq<SolveEvent>): map<int, Option<string>> {
    if events == [] then map[]
    else BoardAfter(events[..|events| - 1])[events[|events| - 1].cell := events[|events| - 1].value]
  }

  predicate IsWrong(e: SolveEvent, sol: Solution) { e.value.Some? && !Claims(e, sol) }

  /** What is on the board at the cell is right. */
  predicate HoldsRight(board: map<int, Option<string>>, cell: int, sol: Solution) {
    && cell in board && board[cell].Some? && 0 <= cell < |sol| && sol[cell].Some?
    && Matches(sol[cell].value, board[cell].value)
  }

  /** A write that destroys a right value whose first solver is somebody else. */
  predicate Destroys(before: seq<SolveEvent>, e: SolveEvent, sol: Solution, owners: map<int, UserId>) {
    && HoldsRight(BoardAfter(before), e.cell, sol)
    && !(e.cell in owners && owners[e.cell] == e.userId)
    && !Claims(e, sol)
  }

  function WrongWriters(events: seq<SolveEvent>, sol: Solution): seq<UserId> {
    if events == [] then []
    else
      var n := |events| - 1;
      WrongWriters(events[..n], sol) + (if IsWrong(events[n], sol) then [events[n].userId] else [])
  }

  function Overwriters(events: seq<SolveEvent>, sol: Solution, owners: map<int, UserId>): seq<UserId> {
    if events == [] then []
    else
      var n := |events| - 1;
      Overwriters(events[..n], sol, owners)
      + (if Destroys(events[..n], events[n], sol, owners) then [events[n].userId] else [])
  }

  datatype WriteTallies = WriteTallies(writes: Tally, wrong: Tally, over: Tally)

  ghost predicate CountsWrites(t: WriteTallies, events: seq<SolveEvent>, sol: Solution, owners: map<int, UserId>) {
    && Counts(t.writes, Writers(events))
    && Counts(t.wrong, WrongWriters(events, sol))
    && Counts(t.over, Overwriters(events, sol, owners))
  }

  lemma WriteCounted(t: WriteTallies, events: seq<SolveEvent>, i: nat, sol: Solution, owners: map<int, UserId>)
    requires i < |events| && CountsWrites(t, events[..i], sol, owners)
    ensures
      var e := events[i];
      CountsWrites(
        WriteTallies(
          Bump(t.writes, e.userId),
          BumpIf(t.wrong, IsWrong(e, sol), e.userId),
          BumpIf(t.over, Destroys(events[..i], e, sol, owners), e.userId)),
        events[..i + 1], sol, owners)
  {
    var e, front, upto := events[i], events[..i], events[..i + 1];
    assert upto[..|upto| - 1] == front && upto[|upto| - 1] == e;
    assert Writers(upto) == Writers(front) + [e.userId];
    BumpCounts(t.writes, Writers(front), e.userId);
    BumpIfCounts(t.wrong, WrongWriters(front, sol), IsWrong(e, sol), e.userId);
    BumpIfCounts(t.over, Overwriters(front, sol, owners), Destroys(front, e, sol, owners), e.userId);
  }

  /** One replay in sequence order with a running board. */
  method ReplayWrites(events: seq<SolveEvent>, sol: Solution, owners: map<int, UserId>) returns (t: WriteTallies)
    ensures CountsWrites(t, events, sol, owners)
  {
    t := WriteTallies(map[], map[], map[]);
    var board: map<int, Option<string>> := map[];
    for i := 0 to |events|
      invariant board == BoardAfter(events[..i])
      invariant CountsWrites(t, events[..i], sol, owners)
    {
      WriteCounted(t, events, i, sol, owners);
      var e := events[i];
      var matches := Claims(e, sol);
      var wrong := BumpIf(t.wrong, e.value.Some? && !matches, e.userId);
      var owned := e.cell in owners && owners[e.cell] == e.userId;
      var over := BumpIf(t.over, HoldsRight(board, e.cell, sol) && !owned && !matches, e.userId);
      t := WriteTallies(Bump(t.writes, e.userId), wrong, over);
      assert events[..i + 1][..i] == events[..i];
      board := board[e.cell := e.value];
    }
    assert events[..|events|] == events;
  }

  // --- Slots ---

  function EntryAt(trace: seq<TraceEntry>, cell: int): Option<TraceEntry> {
    if trace == [] then None
    else if trace[|trace| - 1].cell == cell then Some(trace[|trace| - 1])
    else EntryAt(trace[..|trace| - 1], cell)
  }

  /** The trace entries of a slot's cells, in slot order. */
  function SlotEntries(trace: seq<TraceEntry>, cells: seq<int>): seq<TraceEntry> {
    if cells == [] then []
    else
      var n := |cells| - 1;
      var e := EntryAt(trace, cells[n]);
      SlotEntries(trace, cells[..n]) + (if e.Some? then [e.value] else [])
  }

  function Starter(entries: seq<TraceEntry>): seq<UserId> {
    if entries == [] then [] else [FirstToFall(entries).userId]
  }

  function Finisher(entries: seq<TraceEntry>): seq<UserId> {
    if entries == [] then [] else [LastSquare(entries).userId]
  }

  /** The finisher of a slot somebody else started. */
  function Meddler(entries: seq<TraceEntry>): seq<UserId> {
    if Finisher(entries) == Starter(entries) then [] else Finisher(entries)
  }

  function Touchers(entries: seq<TraceEntry>): seq<UserId> { Members(Solvers(entries)) }

  /** Somebody with strictly more of the entries than everybody else. */
  predicate Leads(entries: seq<TraceEntry>, u: UserId) {
    && Count(Solvers(entries), u) > 0
    && forall w :: w in Touchers(entries) && w != u ==> Count(Solvers(entries), w) < Count(Solvers(entries), u)
  }

  /** The leader among the first n touchers, who is one at most; nobody on a tie. */
  function LeaderAmong(entries: seq<TraceEntry>, keys: seq<UserId>): seq<UserId> {
    if keys == [] then []
    else
      var u := keys[|keys| - 1];
      if Leads(entries, u) then [u] else LeaderAmong(entries, keys[..|keys| - 1])
  }

  function Leader(entries: seq<TraceEntry>): seq<UserId> { LeaderAmong(entries, Touchers(entries)) }

  function LengthsBelow(slots: seq<Slot>, n: nat): (r: set<int>)
    requires n <= |slots|
    ensures forall k :: k in r ==> k >= 0
    ensures forall k :: k in r <==> exists i :: 0 <= i < n && |slots[i].cells| == k
  {
    if n == 0 then {}
    else
      var before := LengthsBelow(slots, n - 1);
      before + {|slots[n - 1].cells|}
  }

  function Longest(slots: seq<Slot>, n: nat): (r: nat)
    requires n <= |slots|
    ensures forall i :: 0 <= i < n ==> |slots[i].cells| <= r
  {
    if n == 0 then 0 else Max(Longest(slots, n - 1), |slots[n - 1].cells|)
  }

  /** The distinct slot lengths, ascending. */
  function DistinctLengths(slots: seq<Slot>): seq<int> {
    AscendingBelow(LengthsBelow(slots, |slots|), Longest(slots, |slots|) + 1)
  }

  /** The greatest two of them. */
  function TopLengths(slots: seq<Slot>): seq<int> {
    var all := DistinctLengths(slots);
    if |all| > 2 then all[|all| - 2..] else all
  }

  /** The starred slots if there are any; else the slots of the two greatest lengths, if long enough. */
  predicate IsMarquee(slots: seq<Slot>, i: nat)
    requires i < |slots|
  {
    if exists j :: 0 <= j < |slots| && slots[j].starred then slots[i].starred
    else |slots[i].cells| >= MARQUEE_MIN_LENGTH && |slots[i].cells| in TopLengths(slots)
  }

  /** All the slots longer than n are of one length. */
  ghost predicate OutrankedByOne(slots: seq<Slot>, n: nat) {
    forall j, k :: 0 <= j < |slots| && 0 <= k < |slots| && n < |slots[j].cells| < |slots[k].cells| ==> false
  }

  /**
   A star anywhere decides alone; without one, a slot is marquee iff long enough and outranked by one
   length at most.
   */
  lemma MarqueeMeans(slots: seq<Slot>, i: nat)
    requires i < |slots|
    ensures (exists j :: 0 <= j < |slots| && slots[j].starred) ==> (IsMarquee(slots, i) <==> slots[i].starred)
    ensures (forall j :: 0 <= j < |slots| ==> !slots[j].starred) ==>
      (IsMarquee(slots, i) <==> |slots[i].cells| >= MARQUEE_MIN_LENGTH && OutrankedByOne(slots, |slots[i].cells|))
  {
    var all, len := DistinctLengths(slots), |slots[i].cells|;
    assert len in LengthsBelow(slots, |slots|);
    var at :| 0 <= at < |all| && all[at] == len;
    forall j | 0 <= j < |slots| && len < |slots[j].cells|
      ensures exists p :: at < p < |all| && all[p] == |slots[j].cells|
    {
      assert |slots[j].cells| in LengthsBelow(slots, |slots|);
      var p :| 0 <= p < |all| && all[p] == |slots[j].cells|;
      assert at < p;
    }
    assert len in TopLengths(slots) <==> at >= |all| - 2;
    if at < |all| - 2 {
      var j := SlotOfLength(slots, all[at + 1]);
      var k := SlotOfLength(slots, all[at + 2]);
      assert len < |slots[j].cells| < |slots[k].cells|;
    }
  }

  lemma SlotOfLength(slots: seq<Slot>, n: int) returns (j: nat)
    requires n in DistinctLengths(slots)
    ensures j < |slots| && |slots[j].cells| == n
  {
    j :| j < |slots| && |slots[j].cells| == n;
  }

  datatype SlotColumns = SlotColumns(
    starters: seq<UserId>, finishers: seq<UserId>, meddlers: seq<UserId>, touchers: seq<UserId>, leaders: seq<UserId>)

  function WithSlot(c: SlotColumns, entries: seq<TraceEntry>, marquee: bool): SlotColumns {
    SlotColumns(
      c.starters + Starter(entries), c.finishers + Finisher(entries), c.meddlers + Meddler(entries),
      c.touchers + Touchers(entries), c.leaders + (if marquee then Leader(entries) else []))
  }

  function SlotsUpto(trace: seq<TraceEntry>, slots: seq<Slot>, n: nat): SlotColumns
    requires n <= |slots|
  {
    if n == 0 then SlotColumns([], [], [], [], [])
    else WithSlot(SlotsUpto(trace, slots, n - 1), SlotEntries(trace, slots[n - 1].cells), IsMarquee(slots, n - 1))
  }

  function SlotColumnsOf(trace: seq<TraceEntry>, slots: seq<Slot>): SlotColumns {
    SlotsUpto(trace, slots, |slots|)
  }
}
