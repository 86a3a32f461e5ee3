/**
 The game's full sequenced history, each event with the clock values the session stamps on
 it, and everything that history determines: the room image a snapshot carries, the rows of
 the three logs, and the window of recently applied command ids.
 */
module Journal {
  import opened Basics
  import opened Engine
  import opened RoomLaws

  const RECENT_COMMAND_LIMIT: nat := 64

  /** An event with its server time; an opening also carries its vote's deadline. */
  datatype Stamped = Stamped(event: Event, at: int, deadline: int)

  type History = seq<Stamped>

  /** All of a room that outlives a flush, apart from the frozen statistics. */
  datatype Image = Image(
    board: Board, completedAt: Option<int>, abandonedAt: Option<int>,
    expiresAt: Option<int>, recent: seq<CommandId>)

  function EmptyImage(grid: Grid): Image {
    Image(EmptyBoard(grid), None, None, None, [])
  }

  // --- Recent command ids ---

  function LastOf<T>(s: seq<T>, n: nat): seq<T> {
    if |s| > n then s[|s| - n..] else s
  }

  /** Push, then cut back to the newest ids once the list is over the limit. */
  function Remember(recent: seq<CommandId>, id: CommandId): seq<CommandId> {
    LastOf(recent + [id], RECENT_COMMAND_LIMIT)
  }

  /** The event that records an accepted command; every accepted command emits exactly one. */
  predicate CarriesCommand(e: Event) {
    e.CellSet? || e.VoteOpened? || e.VoteCast?
  }

  function IdOf(e: Event): CommandId
    requires CarriesCommand(e)
  {
    match e
    case CellSet(_, _, _, _, id, _) => id
    case VoteOpened(_, _, _, _, id) => id
    case VoteCast(_, _, _, _, id) => id
  }

  function IdsIn(h: History): seq<CommandId> {
    if h == [] then []
    else
      var e := h[|h| - 1].event;
      IdsIn(h[..|h| - 1]) + (if CarriesCommand(e) then [IdOf(e)] else [])
  }

  // --- The image a history determines ---

  ghost function Apply1(m: Image, s: Stamped): Image {
    Image(
      ApplyEvent(m.board, s.event),
      if s.event.GameCompleted? then Some(s.at) else m.completedAt,
      if s.event.GameAbandoned? then Some(s.at) else m.abandonedAt,
      if s.event.VoteOpened? then Some(s.deadline) else if s.event.VoteClosed? then None else m.expiresAt,
      if CarriesCommand(s.event) then Remember(m.recent, IdOf(s.event)) else m.recent)
  }

  ghost function Fold(m: Image, h: History): Image {
    if h == [] then m else Apply1(Fold(m, h[..|h| - 1]), h[|h| - 1])
  }

  ghost function ImageOf(grid: Grid, h: History): Image {
    Fold(EmptyImage(grid), h)
  }

  lemma {:induction false} FoldAppend(m: Image, s: History, t: History)
    ensures Fold(m, s + t) == Fold(Fold(m, s), t)
  {
    if t == [] {
      assert s + t == s;
    } else {
      assert (s + t)[..|s + t| - 1] == s + t[..|t| - 1];
      FoldAppend(m, s, t[..|t| - 1]);
    }
  }

  function Stamp(es: seq<Event>, at: int, deadline: int): History {
    seq(|es|, i requires 0 <= i < |es| => Stamped(es[i], at, deadline))
  }

  function Events(h: History): seq<Event> {
    seq(|h|, i requires 0 <= i < |h| => h[i].event)
  }

  /** The board part of a fold is the plain event replay. */
  lemma {:induction false} FoldIsReplay(m: Image, h: History)
    ensures Fold(m, h).board == Replay(m.board, Events(h))
  {
    if h != [] {
      var last := |h| - 1;
      FoldIsReplay(m, h[..last]);
      assert Events(h)[..last] == Events(h[..last]);
    } else {
      assert Events(h) == [];
    }
  }

  lemma EventsOfStamp(es: seq<Event>, at: int, deadline: int)
    ensures Events(Stamp(es, at, deadline)) == es
  {}

  lemma {:induction false} IdsAppend(s: History, t: History)
    ensures IdsIn(s + t) == IdsIn(s) + IdsIn(t)
  {
    if t == [] {
      assert s + t == s;
    } else {
      assert (s + t)[..|s + t| - 1] == s + t[..|t| - 1];
      IdsAppend(s, t[..|t| - 1]);
    }
  }

  lemma LastOfPush<T>(s: seq<T>, x: T, n: nat)
    ensures LastOf(LastOf(s, n) + [x], n) == LastOf(s + [x], n)
  {}

  /** The remembered ids are the newest 64 accepted ids of the whole history. */
  lemma {:induction false} RecentIsTheWindow(grid: Grid, h: History)
    ensures ImageOf(grid, h).recent == LastOf(IdsIn(h), RECENT_COMMAND_LIMIT)
  {
    if h != [] {
      RecentIsTheWindow(grid, h[..|h| - 1]);
      var e := h[|h| - 1].event;
      if CarriesCommand(e) {
        LastOfPush(IdsIn(h[..|h| - 1]), IdOf(e), RECENT_COMMAND_LIMIT);
      }
    }
  }

  // --- Log rows ---

  datatype CellRow = CellRow(seqNo: nat, cell: int, userId: UserId, value: Option<string>, at: int)
  datatype CheckRow = CheckRow(seqNo: nat, userId: UserId, at: int)

  datatype VoteKind = Opened | CastBallot | Closed

  datatype VoteRow = VoteRow(
    seqNo: nat, kind: VoteKind, userId: Option<UserId>, approve: Option<bool>, voteSeq: nat,
    electorate: Option<seq<UserId>>, outcome: Option<Outcome>, reason: Option<Reason>, at: int)

  function CellRowOf(e: Event): CellRow
    requires e.CellSet?
  {
    CellRow(e.seqNo, e.cell, e.who, e.value, e.at)
  }

  function CheckRowOf(e: Event, at: int): CheckRow
    requires e.PuzzleChecked?
  {
    CheckRow(e.seqNo, e.who, at)
  }

  predicate IsVoteEvent(e: Event) { e.VoteOpened? || e.VoteCast? || e.VoteClosed? }

  function VoteRowOf(e: Event, at: int): VoteRow
    requires IsVoteEvent(e)
  {
    match e
    case VoteOpened(n, who, electorate, _, _) =>
      VoteRow(n, Opened, Some(who), None, n, Some(electorate), None, None, at)
    case VoteCast(n, voteSeq, who, approve, _) =>
      VoteRow(n, CastBallot, Some(who), Some(approve), voteSeq, None, None, None, at)
    case VoteClosed(n, voteSeq, outcome, reason) =>
      VoteRow(n, Closed, None, None, voteSeq, None, Some(outcome), reason, at)
  }

  function CellOf(s: Stamped): Option<CellRow> {
    if s.event.CellSet? then Some(CellRowOf(s.event)) else None
  }

  function CheckOf(s: Stamped): Option<CheckRow> {
    if s.event.PuzzleChecked? then Some(CheckRowOf(s.event, s.at)) else None
  }

  function VoteOf(s: Stamped): Option<VoteRow> {
    if IsVoteEvent(s.event) then Some(VoteRowOf(s.event, s.at)) else None
  }

  /** One log of a history: the rows `pick` makes of its events, in order. */
  function Rows<R>(h: History, pick: Stamped -> Option<R>): seq<R> {
    if h == [] then []
    else
      var r := pick(h[|h| - 1]);
      Rows(h[..|h| - 1], pick) + (if r.Some? then [r.value] else [])
  }

  function CellRows(h: History): seq<CellRow> { Rows(h, CellOf) }

  function CheckRows(h: History): seq<CheckRow> { Rows(h, CheckOf) }

  function VoteRows(h: History): seq<VoteRow> { Rows(h, VoteOf) }

  lemma {:induction false} RowsAppend<R>(s: History, t: History, pick: Stamped -> Option<R>)
    ensures Rows(s + t, pick) == Rows(s, pick) + Rows(t, pick)
  {
    if t == [] {
      assert s + t == s;
    } else {
      assert (s + t)[..|s + t| - 1] == s + t[..|t| - 1];
      RowsAppend(s, t[..|t| - 1], pick);
    }
  }

  // --- Well-formed histories ---

  ghost predicate Numbered(h: History) {
    forall i :: 0 <= i < |h| ==> h[i].event.seqNo == i + 1
  }

  /** Ids closer together than the window are different. */
  ghost predicate WindowDistinct(ids: seq<CommandId>) {
    forall i, j :: 0 <= i < j < |ids| && j - i <= RECENT_COMMAND_LIMIT ==> ids[i] != ids[j]
  }

  ghost predicate EndsOnce(h: History) {
    forall i :: 0 <= i < |h| - 1 ==> !IsTerminal(h[i].event)
  }

  /** A history some run of the room can have produced, as far as anything here relies on it. */
  ghost predicate Good(grid: Grid, sol: Solution, h: History) {
    match ImageOf(grid, h)
    case Image(board, _, _, expiresAt, _) =>
      && Sound(board, sol) && board.grid == grid
      && board.seqNo == |h| && Numbered(h)
      && WindowDistinct(IdsIn(h))
      && EndsOnce(h)
      && (board.status != Ongoing <==> h != [] && IsTerminal(h[|h| - 1].event))
      && (expiresAt.Some? <==> board.checkVote.Some?)
      && board.checkCount == ChecksIn(Events(h))
  }

  lemma EmptyHistoryIsGood(grid: Grid, sol: Solution)
    requires PuzzleOk(grid, sol)
    ensures Good(grid, sol, [])
  {
    EmptyBoardIsSound(grid, sol);
    assert Events([]) == [];
  }

  /** A fresh id keeps the window distinct. */
  lemma WindowGrows(ids: seq<CommandId>, id: CommandId)
    requires WindowDistinct(ids) && id !in LastOf(ids, RECENT_COMMAND_LIMIT)
    ensures WindowDistinct(ids + [id])
  {
    var all := ids + [id];
    forall i, j | 0 <= i < j < |all| && j - i <= RECENT_COMMAND_LIMIT ensures all[i] != all[j] {
      if j == |ids| {
        var window := LastOf(ids, RECENT_COMMAND_LIMIT);
        assert all[i] == window[i - (|ids| - |window|)];
      }
    }
  }

  /** No id occurs twice inside the remembered window. */
  lemma WindowHasNoRepeats(ids: seq<CommandId>)
    requires WindowDistinct(ids)
    ensures Distinct(LastOf(ids, RECENT_COMMAND_LIMIT))
  {}
}
