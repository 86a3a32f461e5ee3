/**
 The per-socket cap on presence frames: a list of the times sent within the last second, cut
 at the front and tested before each send. Cursors and reactions each have a limiter of their own.
 */
module RateLimit {
  import opened Sorting

  const CURSOR_WINDOW_MS: int := 1000
  const CURSOR_MAX_PER_SECOND: nat := 10
  const REACTION_MAX_PER_SECOND: nat := 5

  /** The list without the leading times that have left the window. */
  function Fresh(sentAt: seq<int>, now: int): seq<int> {
    if sentAt != [] && now - sentAt[0] >= CURSOR_WINDOW_MS then Fresh(sentAt[1..], now) else sentAt
  }

  predicate Allows(sentAt: seq<int>, now: int, cap: nat) { |Fresh(sentAt, now)| < cap }

  function Sent(sentAt: seq<int>, now: int, cap: nat): seq<int> {
    if Allows(sentAt, now, cap) then Fresh(sentAt, now) + [now] else Fresh(sentAt, now)
  }

  class Limiter {
    const cap: nat
    var sentAt: seq<int>

    constructor (cap: nat)
      ensures this.cap == cap && sentAt == []
    {
      this.cap := cap;
      sentAt := [];
    }

    method Allow(nowMs: int) returns (allowed: bool)
      modifies this
      ensures allowed == Allows(old(sentAt), nowMs, cap)
      ensures sentAt == Sent(old(sentAt), nowMs, cap)
    {
      while |sentAt| > 0 && nowMs - sentAt[0] >= CURSOR_WINDOW_MS
        invariant Fresh(sentAt, nowMs) == Fresh(old(sentAt), nowMs)
        decreases |sentAt|
      {
        sentAt := sentAt[1..];
      }
      if |sentAt| >= cap { return false; }
      sentAt := sentAt + [nowMs];
      return true;
    }
  }

  // --- A whole session of requests ---

  datatype Served = Served(sentAt: seq<int>, accepted: seq<int>)

  /** The kept list and every accepted time, after requests at the given clock readings. */
  function Serve(cap: nat, clock: seq<int>): Served {
    if clock == [] then Served([], [])
    else
      var s, now := Serve(cap, clock[..|clock| - 1]), clock[|clock| - 1];
      Served(Sent(s.sentAt, now, cap), if Allows(s.sentAt, now, cap) then s.accepted + [now] else s.accepted)
  }

  /** How many times lie in the half-open window [lo, hi). */
  function CountIn(ts: seq<int>, lo: int, hi: int): (r: nat)
    ensures r <= |ts|
  {
    if ts == [] then 0
    else CountIn(ts[..|ts| - 1], lo, hi) + (if lo <= ts[|ts| - 1] < hi then 1 else 0)
  }

  /** Any cap + 1 accepted times span at least the window. */
  ghost predicate Spaced(accepted: seq<int>, cap: nat) {
    forall i :: cap <= i < |accepted| ==> accepted[i] - accepted[i - cap] >= CURSOR_WINDOW_MS
  }

  /** The kept list is the recent end of the accepted times; what was cut has left the window. */
  ghost predicate Keeps(s: Served, now: int, cap: nat) {
    match s
    case Served(sentAt, accepted) =>
      var p := |accepted| - |sentAt|;
      && 0 <= p && |sentAt| <= cap && sentAt == accepted[p..]
      && NeverBack(accepted)
      && (forall i :: 0 <= i < |accepted| ==> accepted[i] <= now)
      && (forall i :: 0 <= i < p ==> now - accepted[i] >= CURSOR_WINDOW_MS)
      && Spaced(accepted, cap)
  }

  lemma {:induction false} FreshIsSuffix(sentAt: seq<int>, now: int)
    requires NeverBack(sentAt)
    ensures
      var f := Fresh(sentAt, now);
      var cut := |sentAt| - |f|;
      && 0 <= cut && f == sentAt[cut..]
      && (forall i :: 0 <= i < cut ==> now - sentAt[i] >= CURSOR_WINDOW_MS)
      && (forall i :: cut <= i < |sentAt| ==> now - sentAt[i] < CURSOR_WINDOW_MS)
  {
    if sentAt != [] && now - sentAt[0] >= CURSOR_WINDOW_MS {
      FreshIsSuffix(sentAt[1..], now);
    }
  }

  /** From position p on the times are inside the window and kept; those before it are not. */
  ghost predicate Current(f: seq<int>, accepted: seq<int>, p: nat, now: int) {
    && p <= |accepted| && f == accepted[p..]
    && (forall i :: 0 <= i < p ==> now - accepted[i] >= CURSOR_WINDOW_MS)
    && (forall i :: p <= i < |accepted| ==> now - accepted[i] < CURSOR_WINDOW_MS)
  }

  /** Cutting the front of the kept list moves the position by as much. */
  lemma CutIsCurrent(kept: seq<int>, f: seq<int>, accepted: seq<int>, p: nat, cut: nat, now: int)
    requires p <= |accepted| && kept == accepted[p..]
    requires forall i :: 0 <= i < p ==> now - accepted[i] >= CURSOR_WINDOW_MS
    requires cut <= |kept| && f == kept[cut..]
    requires forall i :: 0 <= i < cut ==> now - kept[i] >= CURSOR_WINDOW_MS
    requires forall i :: cut <= i < |kept| ==> now - kept[i] < CURSOR_WINDOW_MS
    ensures Current(f, accepted, p + cut, now)
  {
    assert forall i :: p <= i < |accepted| ==> accepted[i] == kept[i - p];
  }

  lemma SuffixNeverBack(ts: seq<int>, p: nat)
    requires NeverBack(ts) && p <= |ts|
    ensures NeverBack(ts[p..])
  {}

  lemma KeptIsCut(kept: seq<int>, accepted: seq<int>, p: nat, before: int, now: int)
    requires p <= |accepted| && kept == accepted[p..] && NeverBack(accepted) && before <= now
    requires forall i :: 0 <= i < p ==> before - accepted[i] >= CURSOR_WINDOW_MS
    ensures |Fresh(kept, now)| <= |kept|
    ensures Current(Fresh(kept, now), accepted, |accepted| - |Fresh(kept, now)|, now)
  {
    SuffixNeverBack(accepted, p);
    FreshIsSuffix(kept, now);
    CutIsCurrent(kept, Fresh(kept, now), accepted, p, |kept| - |Fresh(kept, now)|, now);
  }

  lemma FreshIsCurrent(s: Served, before: int, now: int, cap: nat)
    requires Keeps(s, before, cap) && before <= now
    ensures |Fresh(s.sentAt, now)| <= |s.sentAt|
    ensures Current(Fresh(s.sentAt, now), s.accepted, |s.accepted| - |Fresh(s.sentAt, now)|, now)
  {
    KeptIsCut(s.sentAt, s.accepted, |s.accepted| - |s.sentAt|, before, now);
  }

  lemma PushKeeps(f: seq<int>, accepted: seq<int>, before: int, now: int, cap: nat)
    requires |f| <= |accepted| && Current(f, accepted, |accepted| - |f|, now) && |f| < cap
    requires NeverBack(accepted) && Spaced(accepted, cap)
    requires before <= now && forall i :: 0 <= i < |accepted| ==> accepted[i] <= before
    ensures Keeps(Served(f + [now], accepted + [now]), now, cap)
  {
    var all := accepted + [now];
    assert all[|all| - (|f| + 1)..] == f + [now];
    forall i | cap <= i < |all| ensures all[i] - all[i - cap] >= CURSOR_WINDOW_MS {
      if i == |accepted| { assert now - accepted[i - cap] >= CURSOR_WINDOW_MS; }
    }
  }

  lemma SendKeeps(s: Served, before: int, now: int, cap: nat)
    requires Keeps(s, before, cap) && before <= now
    ensures Keeps(Served(Sent(s.sentAt, now, cap),
                         if Allows(s.sentAt, now, cap) then s.accepted + [now] else s.accepted), now, cap)
  {
    hide Fresh, Spaced, NeverBack;
    FreshIsCurrent(s, before, now, cap);
    if Allows(s.sentAt, now, cap) { PushKeeps(Fresh(s.sentAt, now), s.accepted, before, now, cap); }
  }

  lemma {:induction false} ServeKeeps(cap: nat, clock: seq<int>)
    requires NeverBack(clock)
    ensures clock != [] ==> Keeps(Serve(cap, clock), clock[|clock| - 1], cap)
    ensures clock == [] ==> Serve(cap, clock) == Served([], [])
  {
    if clock != [] {
      var n := |clock| - 1;
      ServeKeeps(cap, clock[..n]);
      SendKeeps(Serve(cap, clock[..n]), if n > 0 then clock[n - 1] else clock[n], clock[n], cap);
    }
  }

  /** In an ordered list that ends inside the window, the window's members are the last ones. */
  lemma {:induction false} WindowIsAtTheEnd(ts: seq<int>, lo: int, hi: int)
    requires NeverBack(ts) && CountIn(ts, lo, hi) > 0 && ts[|ts| - 1] < hi
    ensures ts[|ts| - CountIn(ts, lo, hi)] >= lo
  {
    var n := |ts| - 1;
    if ts[n] < lo {
      NoneBelow(ts, lo, hi);
    } else if CountIn(ts[..n], lo, hi) > 0 {
      WindowIsAtTheEnd(ts[..n], lo, hi);
    }
  }

  lemma {:induction false} NoneBelow(ts: seq<int>, lo: int, hi: int)
    requires forall i :: 0 <= i < |ts| ==> ts[i] < lo
    ensures CountIn(ts, lo, hi) == 0
  {
    if ts != [] { NoneBelow(ts[..|ts| - 1], lo, hi); }
  }

  lemma SpacedEnd(ts: seq<int>, cap: nat)
    requires NeverBack(ts) && Spaced(ts, cap) && ts != []
    ensures forall j :: 0 <= j < |ts| - cap ==> ts[|ts| - 1] - ts[j] >= CURSOR_WINDOW_MS
  {
    forall j | 0 <= j < |ts| - cap ensures ts[|ts| - 1] - ts[j] >= CURSOR_WINDOW_MS {
      assert ts[j] <= ts[|ts| - 1 - cap];
      assert ts[|ts| - 1] - ts[|ts| - 1 - cap] >= CURSOR_WINDOW_MS;
    }
  }

  lemma {:induction false} SpacedWindow(ts: seq<int>, lo: int, cap: nat)
    requires NeverBack(ts) && Spaced(ts, cap)
    ensures CountIn(ts, lo, lo + CURSOR_WINDOW_MS) <= cap
  {
    var hi := lo + CURSOR_WINDOW_MS;
    if ts != [] {
      var n := |ts| - 1;
      if ts[n] >= hi {
        SpacedWindow(ts[..n], lo, cap);
      } else if CountIn(ts, lo, hi) > 0 {
        WindowIsAtTheEnd(ts, lo, hi);
        SpacedEnd(ts, cap);
      }
    }
  }

  /**
   For any clock that never goes back: no window of a second, wherever it starts, holds more
   accepted sends than the cap, and the kept list never grows past it.
   */
  lemma NoWindowExceedsTheCap(cap: nat, clock: seq<int>, lo: int)
    requires NeverBack(clock)
    ensures CountIn(Serve(cap, clock).accepted, lo, lo + 1000) <= cap
    ensures |Serve(cap, clock).sentAt| <= cap
  {
    ServeKeeps(cap, clock);
    if clock != [] { SpacedWindow(Serve(cap, clock).accepted, lo, cap); }
  }

  /** In any second at most ten cursors and five reactions pass, each family on its own list. */
  lemma PresenceIsCapped(cursors: seq<int>, reactions: seq<int>, lo: int)
    requires NeverBack(cursors) && NeverBack(reactions)
    ensures CountIn(Serve(CURSOR_MAX_PER_SECOND, cursors).accepted, lo, lo + 1000) <= 10
    ensures CountIn(Serve(REACTION_MAX_PER_SECOND, reactions).accepted, lo, lo + 1000) <= 5
  {
    NoWindowExceedsTheCap(CURSOR_MAX_PER_SECOND, cursors, lo);
    NoWindowExceedsTheCap(REACTION_MAX_PER_SECOND, reactions, lo);
  }

  lemma {:induction false} CountOfSplit(ts: seq<int>, cut: nat, lo: int, hi: int)
    requires cut <= |ts|
    requires forall i :: 0 <= i < cut ==> ts[i] < lo
    requires forall i :: cut <= i < |ts| ==> lo <= ts[i] < hi
    ensures CountIn(ts, lo, hi) == |ts| - cut
  {
    if |ts| == cut {
      NoneBelow(ts, lo, hi);
    } else {
      CountOfSplit(ts[..|ts| - 1], cut, lo, hi);
    }
  }

  /** A request is dropped exactly when the second up to and including it is already full. */
  lemma DroppedExactlyWhenFull(cap: nat, clock: seq<int>, now: int)
    requires NeverBack(clock) && (clock != [] ==> clock[|clock| - 1] <= now)
    ensures
      var s := Serve(cap, clock);
      Allows(s.sentAt, now, cap) <==> CountIn(s.accepted, now - 999, now + 1) < cap
  {
    var s := Serve(cap, clock);
    ServeKeeps(cap, clock);
    if clock != [] { DropsWhenFull(s, clock[|clock| - 1], now, cap); }
  }

  lemma DropsWhenFull(s: Served, before: int, now: int, cap: nat)
    requires Keeps(s, before, cap) && before <= now
    ensures CountIn(s.accepted, now - CURSOR_WINDOW_MS + 1, now + 1) == |Fresh(s.sentAt, now)|
  {
    FreshIsCurrent(s, before, now, cap);
    CountOfSplit(s.accepted, |s.accepted| - |Fresh(s.sentAt, now)|, now - CURSOR_WINDOW_MS + 1, now + 1);
  }
}
