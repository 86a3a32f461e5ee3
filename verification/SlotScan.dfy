/** The loops over the slots: who began and finished each, who touched it, and who led it. */
module SlotScan {
  import opened Basics
  import opened Engine
  import opened SolveLog
  import opened Moments
  import opened Tallies
  import opened StatColumns

  datatype Seen = Seen(first: Option<TraceEntry>, last: Option<TraceEntry>, keys: seq<UserId>, fillsByOwner: Tally)

  /** The scan of a slot has seen exactly these entries. */
  ghost predicate Saw(s: Seen, entries: seq<TraceEntry>) {
    match s
    case Seen(first, last, keys, fillsByOwner) =>
      && first == (if entries == [] then None else Some(FirstToFall(entries)))
      && last == (if entries == [] then None else Some(LastSquare(entries)))
      && keys == Touchers(entries)
      && Counts(fillsByOwner, Solvers(entries))
  }

  function See(s: Seen, e: TraceEntry): Seen {
    Seen(if s.first.None? || Before(e, s.first.value) then Some(e) else s.first,
         if s.last.None? || Before(s.last.value, e) then Some(e) else s.last,
         if e.userId in s.keys then s.keys else s.keys + [e.userId],
         Bump(s.fillsByOwner, e.userId))
  }

  lemma SeesOneMore(s: Seen, entries: seq<TraceEntry>, e: TraceEntry)
    requires Saw(s, entries)
    ensures Saw(See(s, e), entries + [e])
  {
    var all := entries + [e];
    assert all[..|all| - 1] == entries;
    assert Solvers(all) == Solvers(entries) + [e.userId];
    assert Solvers(all)[..|entries|] == Solvers(entries);
    BumpCounts(s.fillsByOwner, Solvers(entries), e.userId);
  }

  lemma SlotEntriesStep(trace: seq<TraceEntry>, cells: seq<int>, i: nat)
    requires i < |cells|
    ensures
      var e := EntryAt(trace, cells[i]);
      SlotEntries(trace, cells[..i + 1]) ==
        if e.Some? then SlotEntries(trace, cells[..i]) + [e.value] else SlotEntries(trace, cells[..i])
  {
    assert cells[..i + 1][..i] == cells[..i];
    assert SlotEntries(trace, cells[..i]) + [] == SlotEntries(trace, cells[..i]);
  }

  method ScanSlot(trace: seq<TraceEntry>, cells: seq<int>) returns (s: Seen)
    ensures Saw(s, SlotEntries(trace, cells))
  {
    s := Seen(None, None, [], map[]);
    for i := 0 to |cells|
      invariant Saw(s, SlotEntries(trace, cells[..i]))
    {
      SlotEntriesStep(trace, cells, i);
      var entry := EntryAt(trace, cells[i]);
      if entry.None? { continue; }
      SeesOneMore(s, SlotEntries(trace, cells[..i]), entry.value);
      s := See(s, entry.value);
    }
    assert cells[..|cells|] == cells;
  }

  // --- The leader of a slot ---

  lemma {:induction false} NobodyLeads(entries: seq<TraceEntry>, keys: seq<UserId>)
    requires forall u :: u in keys ==> !Leads(entries, u)
    ensures LeaderAmong(entries, keys) == []
  {
    if keys != [] { NobodyLeads(entries, keys[..|keys| - 1]); }
  }

  lemma {:induction false} TheLeaderIsFound(entries: seq<TraceEntry>, keys: seq<UserId>, u: UserId)
    requires u in keys && Leads(entries, u)
    requires forall w :: w in keys ==> w in Touchers(entries)
    ensures LeaderAmong(entries, keys) == [u]
  {
    var n := |keys| - 1;
    assert keys == keys[..n] + [keys[n]];
    if keys[n] != u {
      assert !Leads(entries, keys[n]) by { assert u in Touchers(entries); }
      TheLeaderIsFound(entries, keys[..n], u);
    }
  }

  /** Nobody but a leader beats everybody: the leader is unique, and a tie has none. */
  lemma LeaderIs(entries: seq<TraceEntry>, u: UserId)
    ensures Leader(entries) == [u] <==> Leads(entries, u)
    ensures |Leader(entries)| <= 1
  {
    var keys := Touchers(entries);
    if w :| w in keys && Leads(entries, w) {
      TheLeaderIsFound(entries, keys, w);
      if Leads(entries, u) { LeadersAreTouchers(entries, u); }
    } else {
      NobodyLeads(entries, keys);
      if Leads(entries, u) { LeadersAreTouchers(entries, u); }
    }
  }

  lemma {:induction false} CountedIsMember(users: seq<UserId>, u: UserId)
    ensures Count(users, u) > 0 <==> u in users
  {
    if users != [] {
      var n := |users| - 1;
      CountedIsMember(users[..n], u);
      assert users == users[..n] + [users[n]];
    }
  }

  lemma LeadersAreTouchers(entries: seq<TraceEntry>, u: UserId)
    requires Leads(entries, u)
    ensures u in Touchers(entries)
  {
    CountedIsMember(Solvers(entries), u);
  }

  method FindLeader(s: Seen, ghost entries: seq<TraceEntry>) returns (leader: seq<UserId>)
    requires Saw(s, entries)
    ensures leader == Leader(entries)
  {
    var who: Option<UserId>, best: int, tied := None, -1, false;
    ghost var owners := Solvers(entries);
    for i := 0 to |s.keys|
      invariant i == 0 <==> who.None?
      invariant i == 0 ==> best == -1
      invariant forall k :: 0 <= k < i ==> Count(owners, s.keys[k]) <= best
      invariant who.Some? ==> exists k :: 0 <= k < i && s.keys[k] == who.value && Count(owners, who.value) == best
      invariant tied ==> exists k :: 0 <= k < i && s.keys[k] != who.value && Count(owners, s.keys[k]) == best
      invariant !tied ==> forall k :: 0 <= k < i && s.keys[k] != who.value ==> Count(owners, s.keys[k]) < best
    {
      var owner := s.keys[i];
      var count := At(s.fillsByOwner, owner);
      if count > best {
        best, who, tied := count, Some(owner), false;
      } else if count == best {
        tied := true;
      }
    }
    LeaderOfScan(entries, s.keys, who, best, tied);
    leader := if who.Some? && !tied then [who.value] else [];
  }

  lemma LeaderOfScan(entries: seq<TraceEntry>, keys: seq<UserId>, who: Option<UserId>, best: int, tied: bool)
    requires keys == Touchers(entries)
    requires |keys| == 0 <==> who.None?
    requires who.Some? ==> who.value in keys && Count(Solvers(entries), who.value) == best
    requires tied ==> exists k :: 0 <= k < |keys| && keys[k] != who.value && Count(Solvers(entries), keys[k]) == best
    requires who.Some? ==> forall k :: 0 <= k < |keys| ==> Count(Solvers(entries), keys[k]) <= best
    requires who.Some? && !tied ==> forall k :: 0 <= k < |keys| && keys[k] != who.value ==>
      Count(Solvers(entries), keys[k]) < best
    ensures Leader(entries) == if who.Some? && !tied then [who.value] else []
  {
    if who.Some? {
      CountedIsMember(Solvers(entries), who.value);
      if tied {
        var k :| 0 <= k < |keys| && keys[k] != who.value && Count(Solvers(entries), keys[k]) == best;
        assert keys[k] in keys;
        forall u | u in keys ensures !Leads(entries, u) {
          var rival := if u == who.value then keys[k] else who.value;
          assert rival in Touchers(entries) && rival != u;
        }
        NobodyLeads(entries, keys);
      } else {
        assert Leads(entries, who.value);
        LeaderIs(entries, who.value);
      }
    }
  }

  // --- The tallies over all slots ---

  datatype SlotTallies = SlotTallies(started: Tally, finished: Tally, meddles: Tally, touched: Tally, leads: Tally)

  ghost predicate CountsSlots(t: SlotTallies, c: SlotColumns) {
    && Counts(t.started, c.starters) && Counts(t.finished, c.finishers) && Counts(t.meddles, c.meddlers)
    && Counts(t.touched, c.touchers) && Counts(t.leads, c.leaders)
  }

  method BumpAll(t: Tally, users: seq<UserId>, ghost owners: seq<UserId>) returns (r: Tally)
    requires Counts(t, owners)
    ensures Counts(r, owners + users)
  {
    r := t;
    assert owners + [] == owners;
    for i := 0 to |users|
      invariant Counts(r, owners + users[..i])
    {
      BumpCounts(r, owners + users[..i], users[i]);
      assert owners + users[..i + 1] == owners + users[..i] + [users[i]];
      r := Bump(r, users[i]);
    }
    assert users[..|users|] == users;
  }

  method TallySlot(t: SlotTallies, trace: seq<TraceEntry>, cells: seq<int>, marquee: bool, ghost c: SlotColumns)
    returns (r: SlotTallies)
    requires CountsSlots(t, c)
    ensures CountsSlots(r, WithSlot(c, SlotEntries(trace, cells), marquee))
  {
    ghost var entries := SlotEntries(trace, cells);
    var s := ScanSlot(trace, cells);
    var started, finished, meddles := t.started, t.finished, t.meddles;
    if s.first.Some? && s.last.Some? {
      started := Bump(started, s.first.value.userId);
      finished := Bump(finished, s.last.value.userId);
      if s.last.value.userId != s.first.value.userId { meddles := Bump(meddles, s.last.value.userId); }
    }
    EndsCounted(t, c, s, entries);
    var touched := BumpAll(t.touched, s.keys, c.touchers);
    var leads := t.leads;
    assert c.leaders + [] == c.leaders;
    if marquee && |s.keys| > 0 {
      var leader := FindLeader(s, entries);
      leads := BumpAll(leads, leader, c.leaders);
    } else {
      NoTouchersNoLeader(entries);
    }
    r := SlotTallies(started, finished, meddles, touched, leads);
  }

  method TallySlots(trace: seq<TraceEntry>, slots: seq<Slot>) returns (t: SlotTallies)
    ensures CountsSlots(t, SlotColumnsOf(trace, slots))
  {
    t := SlotTallies(map[], map[], map[], map[], map[]);
    for i := 0 to |slots|
      invariant CountsSlots(t, SlotsUpto(trace, slots, i))
    {
      t := TallySlot(t, trace, slots[i].cells, IsMarquee(slots, i), SlotsUpto(trace, slots, i));
    }
  }

  lemma NoTouchersNoLeader(entries: seq<TraceEntry>)
    ensures Touchers(entries) == [] ==> Leader(entries) == []
  {}

  lemma EndsCounted(t: SlotTallies, c: SlotColumns, s: Seen, entries: seq<TraceEntry>)
    requires CountsSlots(t, c) && Saw(s, entries)
    ensures
      var any := s.first.Some? && s.last.Some?;
      && any == (entries != [])
      && Counts(if any then Bump(t.started, s.first.value.userId) else t.started, c.starters + Starter(entries))
      && Counts(if any then Bump(t.finished, s.last.value.userId) else t.finished, c.finishers + Finisher(entries))
      && Counts(if any && s.last.value.userId != s.first.value.userId
                then Bump(t.meddles, s.last.value.userId) else t.meddles,
                c.meddlers + Meddler(entries))
  {
    if entries == [] {
      assert c.starters + [] == c.starters && c.finishers + [] == c.finishers && c.meddlers + [] == c.meddlers;
    } else {
      BumpCounts(t.started, c.starters, s.first.value.userId);
      BumpCounts(t.finished, c.finishers, s.last.value.userId);
      BumpIfCounts(t.meddles, c.meddlers, s.last.value.userId != s.first.value.userId, s.last.value.userId);
    }
  }
}
