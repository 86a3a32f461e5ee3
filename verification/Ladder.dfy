/**
 The awards told by the rows alone: for each of the sixteen titles in turn, which numbers let a
 solver in, which number he needs the most of, how ties fall, and what the card says.
 */
module Ladder {
  import opened Basics
  import opened Sorting
  import opened Engine
  import opened StatSheet
  import opened Awards

  // --- Who precedes whom when the numbers are level ---

  /** By code unit at the first difference; the shorter first when there is none. */
  ghost predicate IdBefore(a: string, b: string) {
    exists n :: DiffersAt(a, b, n)
  }

  predicate DiffersAt(a: string, b: string, n: int) {
    0 <= n <= |a| && n < |b| && a[..n] == b[..n] && (n == |a| || a[n] < b[n])
  }

  lemma {:induction false} StringLessIsIdBefore(a: string, b: string)
    ensures StringLess(a, b) <==> IdBefore(a, b)
  {
    if b == [] {
    } else if a == [] {
      assert DiffersAt(a, b, 0);
    } else {
      StringLessIsIdBefore(a[1..], b[1..]);
      if a[0] < b[0] { assert DiffersAt(a, b, 0); }
      if a[0] == b[0] && IdBefore(a[1..], b[1..]) {
        var n :| DiffersAt(a[1..], b[1..], n);
        assert a[..n + 1] == [a[0]] + a[1..][..n] && b[..n + 1] == [b[0]] + b[1..][..n];
        assert DiffersAt(a, b, n + 1);
      }
      if n :| DiffersAt(a, b, n) {
        if n > 0 {
          assert a[0] == a[..n][0] == b[..n][0] == b[0];
          assert a[1..][..n - 1] == a[..n][1..] && b[1..][..n - 1] == b[..n][1..];
          assert DiffersAt(a[1..], b[1..], n - 1);
        }
      }
    }
  }

  /** The earlier of two marks, by time and then by number. */
  predicate Sooner(a: FillMark, b: FillMark) { a.at < b.at || (a.at == b.at && a.seqNo < b.seqNo) }

  /** The earlier first fill, any first fill before none, and on the same mark or none the smaller id. */
  ghost predicate Senior(a: Candidate, b: Candidate) {
    match (a.row.firstFill, b.row.firstFill)
    case (Some(x), Some(y)) => Sooner(x, y) || (x == y && IdBefore(a.userId, b.userId))
    case (Some(_), None) => true
    case (None, Some(_)) => false
    case (None, None) => IdBefore(a.userId, b.userId)
  }

  /** What a title asks for: who may have it, the number to have most of, and the number on the card. */
  datatype Terms = Terms(gate: TitleRow -> bool, claim: TitleRow -> real, tieByFills: bool,
                         evidence: TitleRow -> Option<real>)

  /** More of the claimed number; on a level number more fills where they count; then seniority. */
  ghost predicate HasMore(a: Candidate, b: Candidate, terms: Terms) {
    || terms.claim(a.row) > terms.claim(b.row)
    || (terms.claim(a.row) == terms.claim(b.row)
        && (|| (terms.tieByFills && a.row.fills > b.row.fills)
            || ((terms.tieByFills ==> a.row.fills == b.row.fills) && Senior(a, b))))
  }

  /** The later first fill; seniority decides only between two that cannot be told apart so. */
  ghost predicate CameLater(a: Candidate, b: Candidate) {
    match (a.row.firstFill, b.row.firstFill)
    case (Some(x), Some(y)) => Sooner(y, x) || (x == y && IdBefore(a.userId, b.userId))
    case _ => Senior(a, b)
  }

  // --- The sixteen ---

  predicate SomebodyFilledThree(pool: seq<Candidate>) {
    exists c :: c in pool && c.row.fills >= 3
  }

  function Unclaimed(): TitleRow -> real { (r: TitleRow) => 0.0 }

  function Unsaid(): TitleRow -> Option<real> { (r: TitleRow) => None }

  function TheRoomSays(n: int): TitleRow -> Option<real> { (r: TitleRow) => Some(n as real) }

  /** Any fill at all, with the claimed number on the card. */
  function Floor(claim: TitleRow -> real, tieByFills: bool): Terms {
    Terms((r: TitleRow) => r.fills >= 1, claim, tieByFills, (r: TitleRow) => Some(claim(r)))
  }

  /** At least so much of the claimed number, which is also on the card. */
  function AtLeast(n: int, claim: TitleRow -> nat): Terms {
    Terms((r: TitleRow) => claim(r) >= n, (r: TitleRow) => claim(r) as real, false,
          (r: TitleRow) => Some(claim(r) as real))
  }

  ghost function TermsOf(t: Title, pool: seq<Candidate>, stallSeconds: int, sittings: nat): Terms {
    match t
    case Saboteur => AtLeast(3, (r: TitleRow) => r.overwrites)
    case OneHitWonder =>
      Terms((r: TitleRow) => r.fills == 1 && r.wrongWrites == 0 && SomebodyFilledThree(pool),
            Unclaimed(), false, Unsaid())
    case IceBreaker =>
      Terms((r: TitleRow) => r.brokeStall == 1 && stallSeconds >= 120,
            (r: TitleRow) => r.brokeStall as real, false, TheRoomSays(stallSeconds))
    case Bullseye =>
      AtLeast(5, (r: TitleRow) => r.fills).(gate := (r: TitleRow) => r.fills >= 5 && r.wrongWrites == 0)
    case Headliner => AtLeast(1, (r: TitleRow) => r.marqueeLeads)
    case Sprinter => AtLeast(4, (r: TitleRow) => r.burst)
    case Meddler => AtLeast(2, (r: TitleRow) => r.meddles)
    case Marathoner =>
      Terms((r: TitleRow) => sittings >= 2 && r.sittingsPresent == Some(sittings),
            (r: TitleRow) => r.fills as real, false, TheRoomSays(sittings))
    case QuickStarter => AtLeast(1, (r: TitleRow) => r.openingFills)
    case Closer => AtLeast(1, (r: TitleRow) => r.closingFills)
    case Specialist =>
      Floor((r: TitleRow) => r.focus, true).(evidence := (r: TitleRow) => Some(r.homeQuadrantFills as real))
    case LongHauler => Floor((r: TitleRow) => r.span as real, true)
    case Wanderer => Floor((r: TitleRow) => r.spread as real, true).(evidence := Unsaid())
    case Scribbler => Floor((r: TitleRow) => r.writes as real, false)
    case Collector => Floor((r: TitleRow) => r.slotsTouched as real, true)
    case Workhorse => Floor((r: TitleRow) => r.fills as real, false)
  }

  /** The titles awarded before this one. */
  ghost function Higher(t: Title): set<Title>
    decreases Rank(t)
  {
    match t
    case Saboteur => {}
    case OneHitWonder => Higher(Saboteur) + {Saboteur}
    case IceBreaker => Higher(OneHitWonder) + {OneHitWonder}
    case Bullseye => Higher(IceBreaker) + {IceBreaker}
    case Headliner => Higher(Bullseye) + {Bullseye}
    case Sprinter => Higher(Headliner) + {Headliner}
    case Meddler => Higher(Sprinter) + {Sprinter}
    case Marathoner => Higher(Meddler) + {Meddler}
    case QuickStarter => Higher(Marathoner) + {Marathoner}
    case Closer => Higher(QuickStarter) + {QuickStarter}
    case Specialist => Higher(Closer) + {Closer}
    case LongHauler => Higher(Specialist) + {Specialist}
    case Wanderer => Higher(LongHauler) + {LongHauler}
    case Scribbler => Higher(Wanderer) + {Wanderer}
    case Collector => Higher(Scribbler) + {Scribbler}
    case Workhorse => Higher(Collector) + {Collector}
  }

  // --- One title ---

  ghost predicate HoldsOneOf(awards: seq<Award>, u: UserId, titles: set<Title>) {
    exists i :: 0 <= i < |awards| && awards[i].userId == u && awards[i].title in titles
  }

  /** In the pool, past the gate, and without a higher title. */
  ghost predicate InTheRunning(pool: seq<Candidate>, awards: seq<Award>, t: Title, terms: Terms, c: Candidate) {
    c in pool && terms.gate(c.row) && !HoldsOneOf(awards, c.userId, Higher(t))
  }

  ghost predicate Ahead(t: Title, terms: Terms, a: Candidate, b: Candidate) {
    if t == OneHitWonder then CameLater(a, b) else HasMore(a, b, terms)
  }

  /** In the running, and ahead of everybody else who is. */
  ghost predicate Deserves(pool: seq<Candidate>, awards: seq<Award>, t: Title, terms: Terms, c: Candidate) {
    && InTheRunning(pool, awards, t, terms, c)
    && (forall d :: d != c && InTheRunning(pool, awards, t, terms, d) ==> Ahead(t, terms, c, d))
  }

  /** The title is awarded iff somebody is in the running, to the one who deserves it, with his number. */
  ghost predicate Decided(pool: seq<Candidate>, awards: seq<Award>, t: Title, terms: Terms) {
    && (forall i :: 0 <= i < |awards| && awards[i].title == t ==>
          exists c :: Deserves(pool, awards, t, terms, c) && awards[i] == Award(c.userId, t, terms.evidence(c.row)))
    && ((exists c :: InTheRunning(pool, awards, t, terms, c)) ==>
          exists i :: 0 <= i < |awards| && awards[i].title == t)
  }

  lemma {:induction false} HigherIsRank(t: Title)
    ensures forall u :: u in Higher(t) <==> Rank(u) < Rank(t)
    decreases Rank(t)
  {
    if t != Saboteur {
      var above := LADDER[Rank(t) - 1];
      RankOfRung(Rank(t) - 1);
      HigherIsRank(above);
      assert Higher(t) == Higher(above) + {above};
      forall u ensures u in Higher(t) <==> Rank(u) < Rank(t) {
        assert LADDER[Rank(u)] == u;
      }
    }
  }

  lemma SeniorIsUniversal(a: Candidate, b: Candidate)
    ensures UniversalBefore(a, b) <==> Senior(a, b)
  {
    StringLessIsIdBefore(a.userId, b.userId);
  }

  lemma AheadIsRung(t: Title, pool: seq<Candidate>, stallSeconds: int, sittings: nat, a: Candidate, b: Candidate)
    ensures Ahead(t, TermsOf(t, pool, stallSeconds, sittings), a, b) <==> RungBefore(t, a, b)
  {
    SeniorIsUniversal(a, b);
    StringLessIsIdBefore(a.userId, b.userId);
  }

  lemma GateIsGate(t: Title, pool: seq<Candidate>, stallSeconds: int, sittingCount: Option<nat>, r: TitleRow)
    ensures
      TermsOf(t, pool, stallSeconds, sittingCount.GetOr(1)).gate(r) <==>
        Gate(t, r, ContextOf(pool, stallSeconds, sittingCount))
    ensures
      TermsOf(t, pool, stallSeconds, sittingCount.GetOr(1)).evidence(r) ==
        Evidence(t, r, ContextOf(pool, stallSeconds, sittingCount))
  {}

  // --- The walk, seen from one rung ---

  /** The first n rungs award exactly the titles above rung n, and the later ones only add others. */
  lemma {:induction false} WalkSplits(pool: seq<Candidate>, ctx: Context, n: nat, m: nat)
    requires n <= m <= |LADDER| && DistinctUsers(pool)
    ensures
      var early, late := Walked(pool, ctx, n).awards, Walked(pool, ctx, m).awards;
      && early <= late
      && (forall i :: 0 <= i < |late| ==> (Rank(late[i].title) < n <==> i < |early|))
    decreases m
  {
    hide Winner;
    if n == m {
      WalkIsOrderly(pool, ctx, n);
    } else {
      WalkSplits(pool, ctx, n, m - 1);
      RankOfRung(m - 1);
    }
  }

  /** Being titled when a rung is reached is holding a higher title at the end. */
  lemma TitledIsHigher(pool: seq<Candidate>, ctx: Context, t: Title, u: UserId)
    requires DistinctUsers(pool)
    ensures u in Walked(pool, ctx, Rank(t)).titled <==>
      HoldsOneOf(Walked(pool, ctx, |LADDER|).awards, u, Higher(t))
  {
    hide Walked, DistinctUsers, Higher;
    var early, all := Walked(pool, ctx, Rank(t)), Walked(pool, ctx, |LADDER|).awards;
    WalkSplits(pool, ctx, Rank(t), |LADDER|);
    TitledAreAwarded(pool, ctx, Rank(t));
    HigherIsRank(t);
    if u in early.titled {
      var i :| 0 <= i < |early.awards| && early.awards[i].userId == u;
      assert all[i] == early.awards[i];
    }
    if i :| 0 <= i < |all| && all[i].userId == u && all[i].title in Higher(t) {
      assert early.awards[i] == all[i];
    }
  }

  /** The title is awarded at the end iff its rung found a winner, and to that one. */
  lemma RungIsKept(pool: seq<Candidate>, ctx: Context, t: Title)
    requires DistinctUsers(pool)
    ensures
      var w, all := Winner(t, pool, ctx, Walked(pool, ctx, Rank(t)).titled), Walked(pool, ctx, |LADDER|).awards;
      && (forall i :: 0 <= i < |all| && all[i].title == t ==> w.Some? && all[i] == AwardTo(t, w.value, ctx))
      && (w.Some? ==> exists i :: 0 <= i < |all| && all[i].title == t)
  {
    hide Winner, DistinctUsers, AwardTo;
    var k, all := Rank(t), Walked(pool, ctx, |LADDER|).awards;
    var before, after := Walked(pool, ctx, k).awards, Walked(pool, ctx, k + 1).awards;
    var w := Winner(t, pool, ctx, Walked(pool, ctx, k).titled);
    WalkSplits(pool, ctx, k, |LADDER|);
    WalkSplits(pool, ctx, k + 1, |LADDER|);
    assert after == if w.None? then before else before + [AwardTo(t, w.value, ctx)];
    AwardsItsTitle(t, w, ctx);
    if w.Some? { assert all[|before|] == after[|before|]; }
    forall i | 0 <= i < |all| && all[i].title == t ensures w.Some? && all[i] == AwardTo(t, w.value, ctx) {
      assert |before| <= i < |after| && all[i] == after[i];
    }
  }

  lemma AwardsItsTitle(t: Title, w: Option<Candidate>, ctx: Context)
    ensures w.Some? ==> AwardTo(t, w.value, ctx).title == t
  {}

  lemma RunningIsEligible(pool: seq<Candidate>, stallSeconds: int, sittingCount: Option<nat>, t: Title, c: Candidate)
    requires DistinctUsers(pool)
    ensures
      var ctx := ContextOf(pool, stallSeconds, sittingCount);
      InTheRunning(pool, Walked(pool, ctx, |LADDER|).awards, t,
                   TermsOf(t, pool, stallSeconds, sittingCount.GetOr(1)), c) <==>
        c in pool && Eligible(t, c, ctx, Walked(pool, ctx, Rank(t)).titled)
  {
    hide Gate, TermsOf, Walked, DistinctUsers;
    GateIsGate(t, pool, stallSeconds, sittingCount, c.row);
    TitledIsHigher(pool, ContextOf(pool, stallSeconds, sittingCount), t, c.userId);
  }

  /**
   Every title in a room of two or more: it is awarded iff somebody without a higher one passes its
   gate, to the one of them who is ahead of all the others on its own number, and with that number.
   */
  lemma EveryTitleIsDeserved(pool: seq<Candidate>, stallSeconds: int, sittingCount: Option<nat>, t: Title)
    requires |pool| >= 2 && DistinctUsers(pool)
    ensures Decided(pool, Awarded(pool, stallSeconds, sittingCount), t,
                    TermsOf(t, pool, stallSeconds, sittingCount.GetOr(1)))
  {
    hide Walked, Winner, DistinctUsers, TermsOf, InTheRunning, Ahead, RungBefore, Eligible, Evidence, MaxFills;
    var ctx := ContextOf(pool, stallSeconds, sittingCount);
    var terms := TermsOf(t, pool, stallSeconds, sittingCount.GetOr(1));
    var titled, all := Walked(pool, ctx, Rank(t)).titled, Awarded(pool, stallSeconds, sittingCount);
    var w := Winner(t, pool, ctx, titled);
    assert all == Walked(pool, ctx, |LADDER|).awards;
    WinnerIs(t, pool, ctx, titled);
    RungIsKept(pool, ctx, t);
    forall c ensures InTheRunning(pool, all, t, terms, c) <==> c in pool && Eligible(t, c, ctx, titled) {
      RunningIsEligible(pool, stallSeconds, sittingCount, t, c);
    }
    if w.Some? {
      forall d ensures Ahead(t, terms, w.value, d) <==> RungBefore(t, w.value, d) {
        AheadIsRung(t, pool, stallSeconds, sittingCount.GetOr(1), w.value, d);
      }
      GateIsGate(t, pool, stallSeconds, sittingCount, w.value.row);
      assert AwardTo(t, w.value, ctx) == Award(w.value.userId, t, terms.evidence(w.value.row));
    }
    DecidedBy(pool, all, t, terms, w);
  }

  lemma DecidedBy(pool: seq<Candidate>, awards: seq<Award>, t: Title, terms: Terms, w: Option<Candidate>)
    requires w.None? ==> forall c :: !InTheRunning(pool, awards, t, terms, c)
    requires w.Some? ==> Deserves(pool, awards, t, terms, w.value)
    requires forall i :: 0 <= i < |awards| && awards[i].title == t ==>
      w.Some? && awards[i] == Award(w.value.userId, t, terms.evidence(w.value.row))
    requires w.Some? ==> exists i :: 0 <= i < |awards| && awards[i].title == t
    ensures Decided(pool, awards, t, terms)
  {
    hide InTheRunning;
  }
}
