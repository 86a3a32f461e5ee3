/**
 Closing a vote early never changes its result. A round is one ballot from every elector who
 has not voted yet, in any order, with no cell write and no expiry in between.
 */
module Ballots {
  import opened Basics
  import opened Engine
  import opened RoomLaws
  import opened RoomRuns

  ghost predicate Ballotlist(cs: seq<Command>, vote: CheckVote) {
    && (forall i :: 0 <= i < |cs| ==> cs[i].CastVote? && cs[i].voteSeq == vote.openedSeq)
    && (forall i, j :: 0 <= i < j < |cs| ==> cs[i].who != cs[j].who)
  }

  ghost function Senders(cs: seq<Command>): set<UserId>
    requires forall i :: 0 <= i < |cs| ==> cs[i].CastVote?
  {
    set i | 0 <= i < |cs| :: cs[i].who
  }

  /** One ballot from each elector still silent. */
  ghost predicate Round(cs: seq<Command>, vote: CheckVote) {
    && Ballotlist(cs, vote)
    && Senders(cs) == Elements(vote.electorate) - Elements(vote.approvals) - Elements(vote.rejections)
  }

  function Yes(cs: seq<Command>): nat
    requires forall i :: 0 <= i < |cs| ==> cs[i].CastVote?
  {
    if cs == [] then 0 else (if cs[0].approve then 1 else 0) + Yes(cs[1..])
  }

  lemma {:induction false} YesAtMost(cs: seq<Command>)
    requires forall i :: 0 <= i < |cs| ==> cs[i].CastVote?
    ensures Yes(cs) <= |cs|
  {
    if cs != [] { YesAtMost(cs[1..]); }
  }

  lemma {:induction false} SendersCount(cs: seq<Command>, vote: CheckVote)
    requires Ballotlist(cs, vote)
    ensures |Senders(cs)| == |cs|
  {
    if cs == [] {
      assert Senders(cs) == {};
    } else {
      var rest := cs[1..];
      SendersCount(rest, vote);
      SendersSplit(cs, vote);
    }
  }

  lemma SendersSplit(cs: seq<Command>, vote: CheckVote)
    requires Ballotlist(cs, vote) && cs != []
    ensures Ballotlist(cs[1..], vote)
    ensures Senders(cs) == {cs[0].who} + Senders(cs[1..])
    ensures cs[0].who !in Senders(cs[1..])
  {
    var rest := cs[1..];
    forall u ensures u in Senders(cs) <==> u == cs[0].who || u in Senders(rest) {
      if u in Senders(cs) {
        var i :| 0 <= i < |cs| && cs[i].who == u;
        if i > 0 { assert rest[i - 1].who == u; }
      }
      if u in Senders(rest) {
        var i :| 0 <= i < |rest| && rest[i].who == u;
        assert cs[i + 1].who == u;
      }
      if u == cs[0].who { assert cs[0].who in Senders(cs); }
    }
  }

  /** Ballots cast and ballots to come account for the whole electorate. */
  lemma Turnout(cs: seq<Command>, vote: CheckVote)
    requires VoteShape(vote) && Round(cs, vote)
    ensures |vote.approvals| + |vote.rejections| + |cs| == |vote.electorate|
  {
    SendersCount(cs, vote);
    DistinctCount(vote.electorate);
    DistinctCount(vote.approvals);
    DistinctCount(vote.rejections);
    var e, a, r, s := Elements(vote.electorate), Elements(vote.approvals), Elements(vote.rejections), Senders(cs);
    assert e == s + (a + r);
    assert |a + r| == |a| + |r| by { assert a !! r; }
    assert s !! (a + r);
  }

  /** Once no vote is open, ballots are refused one by one and nothing moves. */
  lemma {:induction false} LateBallotsAreRefused(b: Board, cs: seq<Command>, sol: Solution)
    requires b.checkVote.None? && forall i :: 0 <= i < |cs| ==> cs[i].CastVote?
    ensures Run(b, cs, sol) == Trail([], b)
  {
    if cs != [] { LateBallotsAreRefused(b, cs[1..], sol); }
  }

  lemma RoundGoesOn(cs: seq<Command>, vote: CheckVote)
    requires VoteShape(vote) && Round(cs, vote) && cs != []
    ensures
      var c := cs[0];
      && c.who in vote.electorate && c.who !in vote.approvals && c.who !in vote.rejections
      && VoteShape(Ballot(vote, c.who, c.approve))
      && Round(cs[1..], Ballot(vote, c.who, c.approve))
      && |Ballot(vote, c.who, c.approve).approvals| == |vote.approvals| + (if c.approve then 1 else 0)
      && |Ballot(vote, c.who, c.approve).rejections| == |vote.rejections| + (if c.approve then 0 else 1)
  {
    var c := cs[0];
    SendersSplit(cs, vote);
    assert c.who in Senders(cs);
    BallotShape(vote, c.who, c.approve);
    AddVoter(if c.approve then vote.approvals else vote.rejections, vote.electorate, c.who);
    var next := Ballot(vote, c.who, c.approve);
    var rest := Elements(next.electorate) - Elements(next.approvals) - Elements(next.rejections);
    assert rest == Senders(cs) - {c.who};
    assert Senders(cs[1..]) == rest;
  }

  ghost predicate Carries(vote: CheckVote, cs: seq<Command>)
    requires forall i :: 0 <= i < |cs| ==> cs[i].CastVote?
  {
    2 * (|vote.approvals| + Yes(cs)) > |vote.electorate|
  }

  /** What a decided round leaves behind, given only the tally. */
  ghost predicate Decided(b: Board, passed: bool, after: Board, sol: Solution) {
    && after.checkVote.None?
    && after.cells == b.cells && after.status == b.status
    && after.checkCount == b.checkCount + (if passed then 1 else 0)
    && after.checkedWrong == (if passed then Elems(Failures(b, sol)) else b.checkedWrong)
  }

  /** One ballot of the round: it decides the vote, or the vote is open with it recorded. */
  lemma BallotSettles(b: Board, c: Command, sol: Solution)
    requires Sound(b, sol) && b.checkVote.Some? && c.CastVote? && c.voteSeq == b.checkVote.value.openedSeq
    requires c.who in b.checkVote.value.electorate
    requires c.who !in b.checkVote.value.approvals && c.who !in b.checkVote.value.rejections
    ensures
      var next, after := Ballot(b.checkVote.value, c.who, c.approve), Apply(b, c, sol).board;
      if after.checkVote.Some? then after == b.(seqNo := b.seqNo + 1, checkVote := Some(next))
      else
        var passed := 2 * |next.approvals| > |next.electorate|;
        && Decided(b, passed, after, sol)
        && (!passed ==> 2 * (|next.electorate| - |next.rejections|) <= |next.electorate|)
  {
    hide Ballot, Failures;
    var next := Ballot(b.checkVote.value, c.who, c.approve);
    var mid := b.(seqNo := b.seqNo + 1, checkVote := Some(next));
    SameFailureList(b, mid, sol);
    assert Apply(b, c, sol) == Prepend(Apply(b, c, sol).events[0], ResolveByTally(mid, sol));
  }

  /**
   Every electorate, every assignment of ballots, every order: by the last ballot the vote is
   closed, and it passed exactly when more than half of the electorate approved, the proposer included.
   */
  lemma {:induction false} RoundDecidesByTally(b: Board, cs: seq<Command>, sol: Solution)
    requires Sound(b, sol) && b.checkVote.Some? && Round(cs, b.checkVote.value)
    ensures Decided(b, Carries(b.checkVote.value, cs), Run(b, cs, sol).board, sol)
    decreases |cs|
  {
    hide Apply, Failures, Round, Sound, VoteShape, Explains;
    var vote := b.checkVote.value;
    OpenVoteIsShaped(b, sol);
    RoundIsBallots(cs, vote);
    Turnout(cs, vote);
    YesAtMost(cs);
    if cs != [] {
      YesAtMost(cs[1..]);
      RoundGoesOn(cs, vote);
      BallotSettles(b, cs[0], sol);
      ApplyLaws(b, cs[0], sol);
      var after := Apply(b, cs[0], sol).board;
      if after.checkVote.None? {
        LateBallotsAreRefused(after, cs[1..], sol);
      } else {
        SameFailureList(b, after, sol);
        RoundDecidesByTally(after, cs[1..], sol);
      }
    }
  }

  lemma RoundIsBallots(cs: seq<Command>, vote: CheckVote)
    requires Round(cs, vote)
    ensures forall i :: 0 <= i < |cs| ==> cs[i].CastVote? && cs[i].voteSeq == vote.openedSeq
  {}

  lemma OpenVoteIsShaped(b: Board, sol: Solution)
    requires Sound(b, sol) && b.checkVote.Some?
    ensures VoteShape(b.checkVote.value) && Undecided(b.checkVote.value)
  {}

  /** Two rounds that cast the same ballots in different orders decide alike. */
  lemma OrderOfBallotsIsIrrelevant(b: Board, cs: seq<Command>, ds: seq<Command>, sol: Solution)
    requires Sound(b, sol) && b.checkVote.Some?
    requires Round(cs, b.checkVote.value) && Round(ds, b.checkVote.value)
    requires forall i, j :: 0 <= i < |cs| && 0 <= j < |ds| && cs[i].who == ds[j].who ==>
      cs[i].approve == ds[j].approve
    ensures
      var one, two := Run(b, cs, sol).board, Run(b, ds, sol).board;
      && one.checkVote.None? && two.checkVote.None?
      && one.cells == two.cells && one.status == two.status
      && one.checkCount == two.checkCount && one.checkedWrong == two.checkedWrong
  {
    RoundDecidesByTally(b, cs, sol);
    RoundDecidesByTally(b, ds, sol);
    YesIsAVoterCount(cs, b.checkVote.value);
    YesIsAVoterCount(ds, b.checkVote.value);
    SameApprovers(cs, ds, b.checkVote.value);
    SameApprovers(ds, cs, b.checkVote.value);
    assert Approvers(cs) == Approvers(ds);
  }

  ghost function Approvers(cs: seq<Command>): set<UserId>
    requires forall i :: 0 <= i < |cs| ==> cs[i].CastVote?
  {
    set i | 0 <= i < |cs| && cs[i].approve :: cs[i].who
  }

  lemma {:induction false} YesIsAVoterCount(cs: seq<Command>, vote: CheckVote)
    requires Ballotlist(cs, vote)
    ensures Yes(cs) == |Approvers(cs)|
  {
    if cs == [] {
      assert Approvers(cs) == {};
    } else {
      var rest := cs[1..];
      YesIsAVoterCount(rest, vote);
      SendersSplit(cs, vote);
      assert Approvers(rest) <= Senders(rest);
      forall u ensures u in Approvers(cs) <==> (cs[0].approve && u == cs[0].who) || u in Approvers(rest) {
        if u in Approvers(cs) {
          var i :| 0 <= i < |cs| && cs[i].approve && cs[i].who == u;
          if i > 0 { assert rest[i - 1].who == u; }
        }
        if u in Approvers(rest) {
          var i :| 0 <= i < |rest| && rest[i].approve && rest[i].who == u;
          assert cs[i + 1].who == u;
        }
      }
      assert Approvers(cs) == (if cs[0].approve then {cs[0].who} else {}) + Approvers(rest);
    }
  }

  lemma SameApprovers(cs: seq<Command>, ds: seq<Command>, vote: CheckVote)
    requires Round(cs, vote) && Round(ds, vote)
    requires forall i, j :: 0 <= i < |cs| && 0 <= j < |ds| && cs[i].who == ds[j].who ==>
      cs[i].approve == ds[j].approve
    ensures Approvers(cs) <= Approvers(ds)
  {
    forall u | u in Approvers(cs) ensures u in Approvers(ds) {
      var i :| 0 <= i < |cs| && cs[i].approve && cs[i].who == u;
      assert u in Senders(cs);
      assert u in Senders(ds);
      var j :| 0 <= j < |ds| && ds[j].who == u;
      assert ds[j].who in Approvers(ds);
    }
  }
}
