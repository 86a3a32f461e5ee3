/** Counting how often each user occurs, and the fact every column of the stat sheet rests on. */
module Tallies {
  import opened Basics
  import opened Engine

  function Count(owners: seq<UserId>, u: UserId): (r: nat)
    ensures r <= |owners|
  {
    if owners == [] then 0
    else Count(owners[..|owners| - 1], u) + (if owners[|owners| - 1] == u then 1 else 0)
  }

  /** A running count by user, absent meaning nought. */
  type Tally = map<UserId, nat>

  function At(t: Tally, u: UserId): nat { if u in t then t[u] else 0 }

  function Bump(t: Tally, u: UserId): Tally { t[u := At(t, u) + 1] }

  ghost predicate Counts(t: Tally, owners: seq<UserId>) {
    forall u :: At(t, u) == Count(owners, u)
  }

  lemma CountPush(owners: seq<UserId>, x: UserId, u: UserId)
    ensures Count(owners + [x], u) == Count(owners, u) + (if x == u then 1 else 0)
  {
    assert (owners + [x])[..|owners|] == owners;
  }

  lemma BumpCounts(t: Tally, owners: seq<UserId>, x: UserId)
    requires Counts(t, owners)
    ensures Counts(Bump(t, x), owners + [x])
  {
    forall u ensures At(Bump(t, x), u) == Count(owners + [x], u) { CountPush(owners, x, u); }
  }

  function BumpIf(t: Tally, c: bool, u: UserId): Tally { if c then Bump(t, u) else t }

  lemma BumpIfCounts(t: Tally, owners: seq<UserId>, c: bool, x: UserId)
    requires Counts(t, owners)
    ensures Counts(BumpIf(t, c, x), owners + (if c then [x] else []))
  {
    if c { BumpCounts(t, owners, x); } else { assert owners + [] == owners; }
  }

  lemma CountIfPush(owners: seq<UserId>, c: bool, x: UserId, u: UserId)
    ensures Count(owners + (if c then [x] else []), u) == Count(owners, u) + (if c && x == u then 1 else 0)
  {
    if c { CountPush(owners, x, u); } else { assert owners + [] == owners; }
  }

  lemma {:induction false} CountAppend(a: seq<UserId>, b: seq<UserId>, u: UserId)
    ensures Count(a + b, u) == Count(a, u) + Count(b, u)
  {
    if b == [] {
      assert a + b == a;
    } else {
      assert (a + b)[..|a + b| - 1] == a + b[..|b| - 1];
      CountAppend(a, b[..|b| - 1], u);
    }
  }

  /** The distinct users in order of first appearance. */
  function Members(users: seq<UserId>): (r: seq<UserId>)
    ensures Distinct(r)
    ensures forall u :: u in r <==> u in users
  {
    if users == [] then []
    else
      var before, u := Members(users[..|users| - 1]), users[|users| - 1];
      assert forall w :: w in users <==> w in users[..|users| - 1] || w == u;
      if u in before then before else before + [u]
  }

  /** The sum of one column over the rows of these members. */
  function SumOf(members: seq<UserId>, column: UserId -> nat): nat {
    if members == [] then 0
    else SumOf(members[..|members| - 1], column) + column(members[|members| - 1])
  }

  lemma {:induction false} SumOfNone(members: seq<UserId>)
    ensures SumOf(members, u => Count([], u)) == 0
  {
    if members != [] { SumOfNone(members[..|members| - 1]); }
  }

  lemma {:induction false} SumOfPush(members: seq<UserId>, owners: seq<UserId>, x: UserId)
    requires Distinct(members)
    ensures SumOf(members, u => Count(owners + [x], u)) ==
      SumOf(members, u => Count(owners, u)) + (if x in members then 1 else 0)
  {
    if members != [] {
      var n := |members| - 1;
      SumOfPush(members[..n], owners, x);
      CountPush(owners, x, members[n]);
      assert members == members[..n] + [members[n]];
    }
  }

  /** When every owner has a row, counting by row and adding up loses nobody and counts nobody twice. */
  lemma {:induction false} Conserved(members: seq<UserId>, owners: seq<UserId>)
    requires Distinct(members) && forall u :: u in owners ==> u in members
    ensures SumOf(members, u => Count(owners, u)) == |owners|
  {
    if owners == [] {
      SumOfNone(members);
    } else {
      var n := |owners| - 1;
      Conserved(members, owners[..n]);
      SumOfPush(members, owners[..n], owners[n]);
      assert owners == owners[..n] + [owners[n]];
    }
  }

  lemma {:induction false} SameColumnSameSum(members: seq<UserId>, f: UserId -> nat, g: UserId -> nat)
    requires forall u :: u in members ==> f(u) == g(u)
    ensures SumOf(members, f) == SumOf(members, g)
  {
    if members != [] {
      var n := |members| - 1;
      assert members[n] in members && forall u :: u in members[..n] ==> u in members;
      SameColumnSameSum(members[..n], f, g);
    }
  }
}
