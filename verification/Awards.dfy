/**
 The award ladder: sixteen rungs walked from the top, each awarding at most once, to the best
 untitled solver who passes its gate. Who is best is a total order, so nothing depends on the
 order the solvers are listed in.
 */
module Awards {
  import opened Basics
  import opened Sorting
  import opened Engine
  import opened StatSheet

  const STALL_FLOOR_SECONDS: int := 120
  const SABOTEUR_MIN: nat := 3
  const BULLSEYE_MIN_FILLS: nat := 5
  const SPRINTER_MIN_BURST: nat := 4
  const MEDDLER_MIN: nat := 2
  const ONE_HIT_WONDER_ROOM_MAX_FILLS: nat := 3

  datatype Title =
    | Saboteur | OneHitWonder | IceBreaker | Bullseye | Headliner | Sprinter | Meddler | Marathoner
    | QuickStarter | Closer
    | Specialist | LongHauler | Wanderer | Scribbler | Collector | Workhorse

  const LADDER: seq<Title> := [
    Saboteur, OneHitWonder, IceBreaker, Bullseye, Headliner, Sprinter, Meddler, Marathoner,
    QuickStarter, Closer,
    Specialist, LongHauler, Wanderer, Scribbler, Collector, Workhorse]

  const SPECIALTIES: nat := 10

  /** A row of the sheet as the ladder reads it; sheets older than sittings lack the attendance. */
  datatype TitleRow = TitleRow(
    fills: nat, firstFill: Option<FillMark>, openingFills: nat, closingFills: nat, writes: nat, burst: nat,
    wrongWrites: nat, overwrites: nat, meddles: nat, slotsTouched: nat, marqueeLeads: nat, spread: nat,
    focus: real, homeQuadrantFills: nat, span: int, brokeStall: nat, sittingsPresent: Option<nat>)

  datatype Candidate = Candidate(userId: UserId, row: TitleRow)

  datatype Context = Context(stallSeconds: int, sittingCount: nat, maxFills: nat)

  datatype Award = Award(userId: UserId, title: Title, evidence: Option<real>)

  // --- The rungs ---

  predicate Gate(t: Title, r: TitleRow, ctx: Context) {
    match t
    case Saboteur => r.overwrites >= SABOTEUR_MIN
    case OneHitWonder => r.fills == 1 && r.wrongWrites == 0 && ctx.maxFills >= ONE_HIT_WONDER_ROOM_MAX_FILLS
    case IceBreaker => r.brokeStall == 1 && ctx.stallSeconds >= STALL_FLOOR_SECONDS
    case Bullseye => r.wrongWrites == 0 && r.fills >= BULLSEYE_MIN_FILLS
    case Headliner => r.marqueeLeads >= 1
    case Sprinter => r.burst >= SPRINTER_MIN_BURST
    case Meddler => r.meddles >= MEDDLER_MIN
    case Marathoner => ctx.sittingCount >= 2 && r.sittingsPresent.GetOr(0) == ctx.sittingCount
    case QuickStarter => r.openingFills >= 1
    case Closer => r.closingFills >= 1
    case _ => r.fills >= 1
  }

  /** The column a rung claims the maximum of; the cameo claims the latest first fill instead. */
  function Claim(t: Title, r: TitleRow): real {
    match t
    case Saboteur => r.overwrites as real
    case OneHitWonder => 0.0
    case IceBreaker => r.brokeStall as real
    case Headliner => r.marqueeLeads as real
    case Sprinter => r.burst as real
    case Meddler => r.meddles as real
    case QuickStarter => r.openingFills as real
    case Closer => r.closingFills as real
    case Specialist => r.focus
    case LongHauler => r.span as real
    case Wanderer => r.spread as real
    case Scribbler => r.writes as real
    case Collector => r.slotsTouched as real
    case Bullseye => r.fills as real
    case Marathoner => r.fills as real
    case Workhorse => r.fills as real
  }

  predicate TieByFills(t: Title) { t.Specialist? || t.LongHauler? || t.Wanderer? || t.Collector? }

  function Evidence(t: Title, r: TitleRow, ctx: Context): Option<real> {
    match t
    case OneHitWonder => None
    case Wanderer => None
    case IceBreaker => Some(ctx.stallSeconds as real)
    case Marathoner => Some(ctx.sittingCount as real)
    case Specialist => Some(r.homeQuadrantFills as real)
    case _ => Some(Claim(t, r))
  }

  // --- Who is ahead ---

  /** Earlier first fill, any fill before none, then the smaller id. */
  predicate UniversalBefore(a: Candidate, b: Candidate) {
    var fa, fb := a.row.firstFill, b.row.firstFill;
    if fa.Some? && fb.Some? && fa != fb then Earlier(fa.value, fb.value)
    else if fa.Some? && fb.None? then true
    else if fa.None? && fb.Some? then false
    else StringLess(a.userId, b.userId)
  }

  predicate RungBefore(t: Title, a: Candidate, b: Candidate) {
    var fa, fb := a.row.firstFill, b.row.firstFill;
    if t.OneHitWonder? then
      if fa.Some? && fb.Some? && fa != fb then Earlier(fb.value, fa.value) else UniversalBefore(a, b)
    else if Claim(t, a.row) != Claim(t, b.row) then Claim(t, a.row) > Claim(t, b.row)
    else if TieByFills(t) && a.row.fills != b.row.fills then a.row.fills > b.row.fills
    else UniversalBefore(a, b)
  }

  lemma UniversalIsTotal(a: Candidate, b: Candidate, c: Candidate)
    ensures !UniversalBefore(a, a)
    ensures a.userId != b.userId ==> UniversalBefore(a, b) || UniversalBefore(b, a)
    ensures !(UniversalBefore(a, b) && UniversalBefore(b, a))
    ensures UniversalBefore(a, b) && UniversalBefore(b, c) ==> UniversalBefore(a, c)
  {
    StringOrderIsTotal();
    if StringLess(a.userId, b.userId) && StringLess(b.userId, c.userId) {
      StringTransitive(a.userId, b.userId, c.userId);
    }
  }

  /** On every rung: nobody beats themselves, of two users exactly one is ahead, and being ahead is transitive. */
  lemma RungIsTotal(t: Title, a: Candidate, b: Candidate, c: Candidate)
    ensures !RungBefore(t, a, a)
    ensures a.userId != b.userId ==> RungBefore(t, a, b) || RungBefore(t, b, a)
    ensures !(RungBefore(t, a, b) && RungBefore(t, b, a))
    ensures RungBefore(t, a, b) && RungBefore(t, b, c) ==> RungBefore(t, a, c)
  {
    UniversalIsTotal(a, b, c);
  }

  // --- One rung ---

  predicate Eligible(t: Title, c: Candidate, ctx: Context, titled: set<UserId>) {
    c.userId !in titled && Gate(t, c.row, ctx)
  }

  function Winner(t: Title, pool: seq<Candidate>, ctx: Context, titled: set<UserId>): Option<Candidate> {
    if pool == [] then None
    else
      var before, c := Winner(t, pool[..|pool| - 1], ctx, titled), pool[|pool| - 1];
      if Eligible(t, c, ctx, titled) && (before.None? || RungBefore(t, c, before.value)) then Some(c) else before
  }

  method WinnerLoop(t: Title, pool: seq<Candidate>, ctx: Context, titled: set<UserId>)
    returns (winner: Option<Candidate>)
    ensures winner == Winner(t, pool, ctx, titled)
  {
    winner := None;
    for i := 0 to |pool|
      invariant winner == Winner(t, pool[..i], ctx, titled)
    {
      assert pool[..i + 1][..i] == pool[..i];
      if pool[i].userId in titled { continue; }
      if !Gate(t, pool[i].row, ctx) { continue; }
      if winner.None? || RungBefore(t, pool[i], winner.value) { winner := Some(pool[i]); }
    }
    assert pool[..|pool|] == pool;
  }

  ghost predicate DistinctUsers(pool: seq<Candidate>) {
    forall i, j :: 0 <= i < j < |pool| ==> pool[i].userId != pool[j].userId
  }

  /** The winner is eligible and ahead of every other eligible user; there is none only if nobody is eligible. */
  ghost predicate IsWinner(t: Title, pool: seq<Candidate>, ctx: Context, titled: set<UserId>, w: Option<Candidate>) {
    match w
    case None => forall c :: c in pool ==> !Eligible(t, c, ctx, titled)
    case Some(best) =>
      && best in pool && Eligible(t, best, ctx, titled)
      && forall c :: c in pool && c != best && Eligible(t, c, ctx, titled) ==> RungBefore(t, best, c)
  }

  lemma {:induction false} WinnerIs(t: Title, pool: seq<Candidate>, ctx: Context, titled: set<UserId>)
    requires DistinctUsers(pool)
    ensures IsWinner(t, pool, ctx, titled, Winner(t, pool, ctx, titled))
  {
    if pool != [] {
      var n := |pool| - 1;
      WinnerIs(t, pool[..n], ctx, titled);
      assert forall c :: c in pool <==> c in pool[..n] || c == pool[n];
      var before := Winner(t, pool[..n], ctx, titled);
      forall c | c in pool[..n] ensures c.userId != pool[n].userId {
        var i :| 0 <= i < n && pool[i] == c;
      }
      if before.Some? {
        forall c: Candidate
          ensures RungBefore(t, pool[n], before.value) && RungBefore(t, before.value, c) ==> RungBefore(t, pool[n], c)
        {
          RungIsTotal(t, pool[n], before.value, c);
        }
        RungIsTotal(t, pool[n], before.value, before.value);
      }
    }
  }

  lemma WinnerIsUnique(t: Title, pool: seq<Candidate>, ctx: Context, titled: set<UserId>, v: Option<Candidate>,
                       w: Option<Candidate>)
    requires IsWinner(t, pool, ctx, titled, v) && IsWinner(t, pool, ctx, titled, w)
    ensures v == w
  {
    if v.Some? && w.Some? && v != w {
      RungIsTotal(t, v.value, w.value, v.value);
    }
  }

  // --- The walk ---

  function MaxFills(pool: seq<Candidate>): (r: nat)
    ensures forall c :: c in pool ==> c.row.fills <= r
    ensures r == 0 || exists c :: c in pool && c.row.fills == r
  {
    if pool == [] then 0
    else
      var n := |pool| - 1;
      assert pool == pool[..n] + [pool[n]];
      Max(MaxFills(pool[..n]), pool[n].row.fills)
  }

  datatype Standing = Standing(titled: set<UserId>, awards: seq<Award>)

  function AwardTo(t: Title, c: Candidate, ctx: Context): Award { Award(c.userId, t, Evidence(t, c.row, ctx)) }

  /** After the first n rungs. */
  function Walked(pool: seq<Candidate>, ctx: Context, n: nat): Standing
    requires n <= |LADDER|
  {
    if n == 0 then Standing({}, [])
    else
      var s, t := Walked(pool, ctx, n - 1), LADDER[n - 1];
      var w := Winner(t, pool, ctx, s.titled);
      if w.None? then s else Standing(s.titled + {w.value.userId}, s.awards + [AwardTo(t, w.value, ctx)])
  }

  function ContextOf(pool: seq<Candidate>, stallSeconds: int, sittingCount: Option<nat>): Context {
    Context(stallSeconds, sittingCount.GetOr(1), MaxFills(pool))
  }

  function Awarded(pool: seq<Candidate>, stallSeconds: int, sittingCount: Option<nat>): seq<Award> {
    if |pool| < 2 then [] else Walked(pool, ContextOf(pool, stallSeconds, sittingCount), |LADDER|).awards
  }

  method MaxFillsLoop(pool: seq<Candidate>) returns (m: nat)
    ensures m == MaxFills(pool)
  {
    m := 0;
    for i := 0 to |pool|
      invariant m == MaxFills(pool[..i])
    {
      assert pool[..i + 1][..i] == pool[..i];
      if pool[i].row.fills > m { m := pool[i].row.fills; }
    }
    assert pool[..|pool|] == pool;
  }

  method AwardTitles(pool: seq<Candidate>, stallSeconds: int, sittingCount: Option<nat>) returns (awards: seq<Award>)
    ensures awards == Awarded(pool, stallSeconds, sittingCount)
  {
    hide Winner, AwardTo;
    if |pool| < 2 { return []; }
    var maxFills := MaxFillsLoop(pool);
    var ctx := Context(stallSeconds, sittingCount.GetOr(1), maxFills);
    var titled: set<UserId> := {};
    awards := [];
    for i := 0 to |LADDER|
      invariant Standing(titled, awards) == Walked(pool, ctx, i)
    {
      var winner := WinnerLoop(LADDER[i], pool, ctx, titled);
      if winner.None? { continue; }
      titled := titled + {winner.value.userId};
      awards := awards + [AwardTo(LADDER[i], winner.value, ctx)];
    }
  }

  // --- What the awards are ---

  function Rank(t: Title): (r: nat)
    ensures r < |LADDER| && LADDER[r] == t
  {
    match t
    case Saboteur => 0 case OneHitWonder => 1 case IceBreaker => 2 case Bullseye => 3
    case Headliner => 4 case Sprinter => 5 case Meddler => 6 case Marathoner => 7
    case QuickStarter => 8 case Closer => 9 case Specialist => 10 case LongHauler => 11
    case Wanderer => 12 case Scribbler => 13 case Collector => 14 case Workhorse => 15
  }

  lemma RankOfRung(n: nat)
    requires n < |LADDER|
    ensures Rank(LADDER[n]) == n
  {}

  /** No user and no title twice, and ranks strictly increase. */
  ghost predicate Orderly(awards: seq<Award>) {
    forall i, j :: 0 <= i < j < |awards| ==>
      awards[i].userId != awards[j].userId && Rank(awards[i].title) < Rank(awards[j].title)
  }

  lemma {:induction false} WalkIsOrderly(pool: seq<Candidate>, ctx: Context, n: nat)
    requires n <= |LADDER| && DistinctUsers(pool)
    ensures Orderly(Walked(pool, ctx, n).awards)
    ensures forall i :: 0 <= i < |Walked(pool, ctx, n).awards| ==>
      Walked(pool, ctx, n).awards[i].userId in Walked(pool, ctx, n).titled
          && Rank(Walked(pool, ctx, n).awards[i].title) < n
  {
    if n > 0 {
      WalkIsOrderly(pool, ctx, n - 1);
      RankOfRung(n - 1);
      WinnerIs(LADDER[n - 1], pool, ctx, Walked(pool, ctx, n - 1).titled);
    }
  }

  /** At most one title each, at most one winner a title, listed by rank; and a room of one gets none. */
  lemma AwardsAreOrderly(pool: seq<Candidate>, stallSeconds: int, sittingCount: Option<nat>)
    requires DistinctUsers(pool)
    ensures Orderly(Awarded(pool, stallSeconds, sittingCount))
    ensures |pool| < 2 ==> Awarded(pool, stallSeconds, sittingCount) == []
  {
    WalkIsOrderly(pool, ContextOf(pool, stallSeconds, sittingCount), |LADDER|);
  }

  // --- The order of the pool does not matter ---

  lemma SameWinner(t: Title, pool: seq<Candidate>, shuffled: seq<Candidate>, ctx: Context, titled: set<UserId>)
    requires DistinctUsers(pool) && DistinctUsers(shuffled) && forall c :: c in pool <==> c in shuffled
    ensures Winner(t, pool, ctx, titled) == Winner(t, shuffled, ctx, titled)
  {
    WinnerIs(t, pool, ctx, titled);
    WinnerIs(t, shuffled, ctx, titled);
    WinnerIsUnique(t, pool, ctx, titled, Winner(t, pool, ctx, titled), Winner(t, shuffled, ctx, titled));
  }

  lemma {:induction false} SameWalk(pool: seq<Candidate>, shuffled: seq<Candidate>, ctx: Context, n: nat)
    requires n <= |LADDER|
    requires DistinctUsers(pool) && DistinctUsers(shuffled) && forall c :: c in pool <==> c in shuffled
    ensures Walked(pool, ctx, n) == Walked(shuffled, ctx, n)
  {
    if n > 0 {
      SameWalk(pool, shuffled, ctx, n - 1);
      SameWinner(LADDER[n - 1], pool, shuffled, ctx, Walked(pool, ctx, n - 1).titled);
    }
  }

  /** The same solvers in any order get the same awards. */
  lemma PoolOrderIsIrrelevant(pool: seq<Candidate>, shuffled: seq<Candidate>, stallSeconds: int,
                              sittingCount: Option<nat>)
    requires DistinctUsers(pool) && multiset(pool) == multiset(shuffled)
    ensures Awarded(pool, stallSeconds, sittingCount) == Awarded(shuffled, stallSeconds, sittingCount)
  {
    SameMembers(pool, shuffled);
    ShuffleKeepsUsers(pool, shuffled);
    assert MaxFills(pool) == MaxFills(shuffled);
    SameWalk(pool, shuffled, ContextOf(pool, stallSeconds, sittingCount), |LADDER|);
  }

  lemma ShuffleKeepsUsers(pool: seq<Candidate>, shuffled: seq<Candidate>)
    requires DistinctUsers(pool) && multiset(pool) == multiset(shuffled)
    ensures DistinctUsers(shuffled)
  {
    SameMembers(pool, shuffled);
    DistinctIsMultiplicityOne(pool);
    OnceIsDistinct(shuffled);
    forall i, j | 0 <= i < j < |shuffled| ensures shuffled[i].userId != shuffled[j].userId {
      assert shuffled[i] in pool && shuffled[j] in pool;
      var a :| 0 <= a < |pool| && pool[a] == shuffled[i];
      var b :| 0 <= b < |pool| && pool[b] == shuffled[j];
      assert a != b;
    }
  }

  // --- Coverage ---

  function Fillers(pool: seq<Candidate>): set<UserId> {
    set i | 0 <= i < |pool| && pool[i].row.fills >= 1 :: pool[i].userId
  }

  /** A floor rung titles some filler as long as one is untitled. */
  lemma FloorTitlesAFiller(pool: seq<Candidate>, ctx: Context, n: nat)
    requires SPECIALTIES <= n < |LADDER| && DistinctUsers(pool)
    ensures
      var s, s' := Walked(pool, ctx, n), Walked(pool, ctx, n + 1);
      if Fillers(pool) <= s.titled then s' == s
      else exists u :: u in Fillers(pool) - s.titled && s'.titled == s.titled + {u}
  {
    var s, t := Walked(pool, ctx, n), LADDER[n];
    WinnerIs(t, pool, ctx, s.titled);
    var w := Winner(t, pool, ctx, s.titled);
    FloorGate(n);
    if w.Some? {
      var i :| 0 <= i < |pool| && pool[i] == w.value;
      assert w.value.userId in Fillers(pool) - s.titled;
      assert Walked(pool, ctx, n + 1).titled == s.titled + {w.value.userId};
    } else {
      forall u | u in Fillers(pool) ensures u in s.titled {
        var i :| 0 <= i < |pool| && pool[i].row.fills >= 1 && pool[i].userId == u;
        assert pool[i] in pool;
      }
    }
  }

  lemma FloorGate(n: nat)
    requires SPECIALTIES <= n < |LADDER|
    ensures forall r, ctx :: Gate(LADDER[n], r, ctx) <==> r.fills >= 1
  {}

  lemma {:induction false} FloorCovers(pool: seq<Candidate>, ctx: Context, n: nat)
    requires SPECIALTIES <= n <= |LADDER| && DistinctUsers(pool)
    ensures |Fillers(pool) * Walked(pool, ctx, n).titled| >= Min(n - SPECIALTIES, |Fillers(pool)|)
  {
    if n > SPECIALTIES {
      FloorCovers(pool, ctx, n - 1);
      FloorTitlesAFiller(pool, ctx, n - 1);
      var fillers, before, after := Fillers(pool), Walked(pool, ctx, n - 1).titled, Walked(pool, ctx, n).titled;
      if fillers <= before {
        assert fillers * after == fillers;
      } else {
        var u :| u in fillers - before && after == before + {u};
        assert fillers * after == fillers * before + {u};
      }
    }
  }

  lemma {:induction false} TitledAreAwarded(pool: seq<Candidate>, ctx: Context, n: nat)
    requires n <= |LADDER|
    ensures Walked(pool, ctx, n).titled ==
      set i | 0 <= i < |Walked(pool, ctx, n).awards| :: Walked(pool, ctx, n).awards[i].userId
  {
    if n > 0 {
      TitledAreAwarded(pool, ctx, n - 1);
      var before, after := Walked(pool, ctx, n - 1), Walked(pool, ctx, n);
      if before != after {
        var k := |before.awards|;
        assert after.awards[..k] == before.awards;
        assert forall i :: 0 <= i < k ==> after.awards[i] == before.awards[i];
        assert after.awards[k].userId in after.titled;
      }
    }
  }

  function AwardedUsers(awards: seq<Award>): set<UserId> {
    set i | 0 <= i < |awards| :: awards[i].userId
  }

  /** In a room of two or more, everyone with a fill is titled, or at least six of them are. */
  lemma FillersAreTitled(pool: seq<Candidate>, stallSeconds: int, sittingCount: Option<nat>)
    requires |pool| >= 2 && DistinctUsers(pool)
    ensures |Fillers(pool) * AwardedUsers(Awarded(pool, stallSeconds, sittingCount))| >= Min(6, |Fillers(pool)|)
  {
    var ctx := ContextOf(pool, stallSeconds, sittingCount);
    FloorCovers(pool, ctx, |LADDER|);
    TitledAreAwarded(pool, ctx, |LADDER|);
    assert AwardedUsers(Walked(pool, ctx, |LADDER|).awards) == Walked(pool, ctx, |LADDER|).titled;
  }

  /** Each award went to an untitled gate-passer ahead of every other one, with its own number. */
  lemma {:induction false} EachAwardIsDeserved(pool: seq<Candidate>, ctx: Context, n: nat, i: nat)
    requires n <= |LADDER| && DistinctUsers(pool) && i < |Walked(pool, ctx, n).awards|
    ensures
      var a := Walked(pool, ctx, n).awards[i];
      var earlier := AwardedUsers(Walked(pool, ctx, n).awards[..i]);
      exists c :: c in pool && a == AwardTo(a.title, c, ctx) && IsWinner(a.title, pool, ctx, earlier, Some(c))
  {
    hide IsWinner, Winner, DistinctUsers;
    var before, after := Walked(pool, ctx, n - 1), Walked(pool, ctx, n);
    if i < |before.awards| {
      EachAwardIsDeserved(pool, ctx, n - 1, i);
      assert after.awards[i] == before.awards[i] && after.awards[..i] == before.awards[..i];
    } else {
      WinnerIs(LADDER[n - 1], pool, ctx, before.titled);
      TitledAreAwarded(pool, ctx, n - 1);
      assert after.awards[..i] == before.awards;
      assert AwardedUsers(before.awards) == before.titled;
      var c := Winner(LADDER[n - 1], pool, ctx, before.titled).value;
      assert after.awards[i] == AwardTo(LADDER[n - 1], c, ctx);
    }
  }

  // --- From the sheet to the ladder ---

  function LadderRow(r: SolverStats): TitleRow {
    TitleRow(r.fills, r.firstFill, r.openingFills, r.closingFills, r.writes, r.burst, r.wrongWrites, r.overwrites,
             r.meddles, r.slotsTouched, r.marqueeLeads, r.spread, r.focus, r.homeQuadrantFills, r.span, r.brokeStall,
             Some(r.sittingsPresent))
  }
}
