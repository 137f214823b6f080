/** Sharing is confined: hosts that no selection ever links cannot disturb each other's rotation.

    `group` is any set of names that every call's selection lies inside or outside of, for instance a class of names
    linked by chains of selections.  Running all the calls, or only those inside the group, hands out the same hosts. */
module RoundRobinIsolation {
  import opened Basics
  import opened Hosts
  import opened SlidingCache
  import opened RoundRobinWeights
  import opened RoundRobin

  predicate Inside(call: Call, group: set<string>) {
    Names(call.sel) <= group
  }

  ghost predicate Separated(calls: seq<Call>, group: set<string>) {
    forall i | 0 <= i < |calls| :: Inside(calls[i], group) || Names(calls[i].sel) !! group
  }

  function InsideCalls(calls: seq<Call>, group: set<string>): seq<Call> {
    if calls == [] then []
    else
      var n := |calls| - 1;
      InsideCalls(calls[..n], group) + if Inside(calls[n], group) then [calls[n]] else []
  }

  function InsideResults(calls: seq<Call>, results: seq<Result<HostInfo>>, group: set<string>): seq<Result<HostInfo>>
    requires |results| == |calls|
  {
    if calls == [] then []
    else
      var n := |calls| - 1;
      InsideResults(calls[..n], results[..n], group) + if Inside(calls[n], group) then [results[n]] else []
  }

  // ---- what relates the two runs ----

  /** Both stores give the group the same live entries, the same records and the same sharing. */
  ghost predicate Same(s: Store, s': Store, group: set<string>, t: int)
    requires ValidStore(s) && ValidStore(s')
  {
    && (forall k | k in group :: Live(s.cache, k, t) == Live(s'.cache, k, t))
    && (forall k | k in group && Live(s.cache, k, t) ::
          && s.cache[k].expiry == s'.cache[k].expiry
          && s.infos[s.cache[k].value] == s'.infos[s'.cache[k].value])
    && (forall k, l | k in group && l in group && Live(s.cache, k, t) && Live(s.cache, l, t) ::
          s.cache[k].value == s.cache[l].value <==> s'.cache[k].value == s'.cache[l].value)
  }

  /** No live name inside the group shares a record with a live name outside it. */
  ghost predicate Apart(s: Store, group: set<string>, t: int) {
    forall k, l | k in group && l !in group && Live(s.cache, k, t) && Live(s.cache, l, t) ::
      s.cache[k].value != s.cache[l].value
  }

  /** Record `id` belongs to no live name, or to one that the call selected. */
  ghost predicate Concerned(s: Store, names: set<string>, t: int, id: nat) {
    forall k | Live(s.cache, k, t) && s.cache[k].value == id ::
      exists l :: l in names && Live(s.cache, l, t) && s.cache[l].value == id
  }

  /** What one call can change, seen from any name. */
  ghost predicate Shape(s: Store, s1: Store, names: set<string>, id: nat, start: int, end: int) {
    && |s.infos| <= |s1.infos|
    && Concerned(s, names, start, id)
    && (forall i | 0 <= i < |s.infos| && i != id :: s1.infos[i] == s.infos[i])
    && (forall k | k !in names ::
          && Live(s1.cache, k, end) == Live(s.cache, k, end)
          && (Live(s1.cache, k, end) ==> s1.cache[k] == s.cache[k]))
    && (forall k | k in names && Live(s1.cache, k, end) ::
          s1.cache[k].value == id || (Live(s.cache, k, start) && s1.cache[k].value == s.cache[k].value))
  }

  /** What the lookups leave of the listed names was live when they began. */
  lemma {:induction false} FindAllLive(c: Cache<string, nat>, hosts: seq<HostInfo>, clock: Clock, k: string)
    requires Monotone(clock) && k in Names(hosts) && k in FindAll(c, hosts, clock)
    ensures Live(c, k, clock(0))
  {
    var n := |hosts| - 1;
    assert Names(hosts) == Names(hosts[..n]) + {hosts[n].host};
    assert clock(0) <= clock(n + 1);
    if k in Names(hosts[..n]) {
      FindAllLive(c, hosts[..n], clock, k);
    } else {
      FindAllOthers(c, hosts[..n], clock, k);
    }
  }

  lemma FoundShape(s: Store, sel: seq<HostInfo>, clock: Clock)
    requires ValidStore(s) && GoodClock(clock, |sel|)
    ensures Shape(s, Found(s, sel, clock), Names(sel), RecordUsed(s, sel, clock), clock(0), clock(2 * |sel| + 2))
    ensures RecordUsed(s, sel, clock) <= |s.infos|
  {
    var purged: Cache<string, nat> := Purged(s.cache, clock(0));
    var f := Found(s, sel, clock);
    assert clock(0) <= clock(2 * |sel| + 2);
    forall k
      ensures k !in Names(sel) ==> (k in f.cache <==> k in purged) && (k in f.cache ==> f.cache[k] == purged[k])
      ensures k in Names(sel) && k in f.cache ==> Live(s.cache, k, clock(0)) && f.cache[k].value == s.cache[k].value
    {
      if k !in Names(sel) {
        FindAllOthers(purged, sel, clock, k);
      } else if k in f.cache {
        FindAllLive(purged, sel, clock, k);
        FindAllKeeps(purged, sel, clock, k);
      }
    }
    var hit := FirstHit(purged, sel, clock);
    if hit < |sel| {
      assert sel[hit].host in Names(sel);
    }
  }

  /** A change confined to record `id` and to the names of one selection, which end up at `id` if they move. */
  ghost predicate Step(f: Store, s1: Store, names: set<string>, id: nat) {
    && |f.infos| <= |s1.infos|
    && (forall i | 0 <= i < |f.infos| && i != id :: s1.infos[i] == f.infos[i])
    && (forall k | k !in names :: (k in s1.cache <==> k in f.cache) && (k in f.cache ==> s1.cache[k] == f.cache[k]))
    && (forall k | k in names && k in s1.cache ::
          s1.cache[k].value == id || (k in f.cache && s1.cache[k] == f.cache[k]))
  }

  lemma StepKeepsShape(s: Store, f: Store, s1: Store, names: set<string>, id: nat, start: int, end: int)
    requires Shape(s, f, names, id, start, end) && Step(f, s1, names, id)
    ensures Shape(s, s1, names, id, start, end)
  {
  }

  lemma NewEntryStep(f: Store, sel: seq<HostInfo>, props: Props, clock: Clock)
    requires Monotone(clock)
    ensures var (s1, _) := NewEntry(f, sel, props, clock);
            Step(f, s1, Names(sel), |f.infos|)
  {
    PutAllEffect<nat>(f.cache, sel, |f.infos|, clock, |sel| + 2, clock(|sel| + 2));
  }

  lemma ReuseEntryStep(f: Store, key: string, sel: seq<HostInfo>, props: Props, clock: Clock)
    requires ValidStore(f) && Monotone(clock) && key in f.cache && key in Names(sel)
    ensures var (s1, _) := ReuseEntry(f, key, sel, props, clock);
            Step(f, s1, Names(sel), f.cache[key].value)
  {
    var id := f.cache[key].value;
    var got: Cache<string, nat> := Accessed(f.cache, key, clock(|sel| + 1));
    PutAllEffect<nat>(got, sel, id, clock, |sel| + 2, clock(|sel| + 2));
  }

  lemma EntriesShape(s: Store, sel: seq<HostInfo>, props: Props, clock: Clock)
    requires ValidStore(s) && GoodClock(clock, |sel|)
    ensures var (s1, _) := CreateEntries(s, sel, props, clock);
            Shape(s, s1, Names(sel), RecordUsed(s, sel, clock), clock(0), clock(2 * |sel| + 2))
  {
    FoundShape(s, sel, clock);
    var f, id := Found(s, sel, clock), RecordUsed(s, sel, clock);
    var hit := FirstHit(Purged(s.cache, clock(0)), sel, clock);
    if hit == |sel| {
      NewEntryStep(f, sel, props, clock);
    } else {
      assert sel[hit].host in Names(sel);
      ReuseEntryStep(f, sel[hit].host, sel, props, clock);
    }
    StepKeepsShape(s, f, CreateEntries(s, sel, props, clock).0, Names(sel), id, clock(0), clock(2 * |sel| + 2));
  }

  lemma RotatedStep(s: Store, sel: seq<HostInfo>, clock: Clock)
    requires ValidStore(s) && sel != [] && sel[0].host in s.cache
    ensures Step(s, Rotated(s, sel, clock).0, Names(sel), s.cache[sel[0].host].value)
  {
    assert sel[0].host in Names(sel);
  }

  lemma CallShape(s: Store, sel: seq<HostInfo>, props: Props, clock: Clock)
    requires ValidStore(s) && GoodClock(clock, |sel|) && sel != []
    ensures var (s1, _) := GetHost(s, sel, props, clock);
            Shape(s, s1, Names(sel), RecordUsed(s, sel, clock), clock(0), clock(2 * |sel| + 2))
  {
    EntriesShape(s, sel, props, clock);
    var (s1, ok) := CreateEntries(s, sel, props, clock);
    if ok {
      EntriesUseRecord(s, sel, props, clock);
      CreateEntriesLinks(s, sel, props, clock);
      RotatedStep(s1, sel, clock);
      StepKeepsShape(s, s1, Rotated(s1, sel, clock).0, Names(sel), RecordUsed(s, sel, clock), clock(0),
                     clock(2 * |sel| + 2));
    }
  }

  // ---- a call outside the group ----

  lemma OutsideCall(s: Store, s1: Store, s': Store, group: set<string>, names: set<string>, id: nat,
                    start: int, end: int)
    requires ValidStore(s) && ValidStore(s1) && ValidStore(s')
    requires Shape(s, s1, names, id, start, end) && start <= end && names !! group
    requires Same(s, s', group, start) && Apart(s, group, start)
    ensures Same(s1, s', group, end) && Apart(s1, group, end)
  {
    assert forall k | k in group && Live(s.cache, k, start) :: s.cache[k].value != id;
  }

  lemma InsideApart(s: Store, s1: Store, group: set<string>, names: set<string>, id: nat, start: int, end: int)
    requires ValidStore(s) && ValidStore(s1)
    requires Shape(s, s1, names, id, start, end) && start <= end && names <= group && Apart(s, group, start)
    ensures Apart(s1, group, end)
  {
    assert forall l | l !in group && Live(s.cache, l, start) :: s.cache[l].value != id;
  }

  // ---- the same call inside the group, on both stores ----

  /** The two records hold the same and are shared by the same names of the group. */
  ghost predicate Twin(s: Store, s': Store, group: set<string>, t: int, id: nat, id': nat)
    requires ValidStore(s) && ValidStore(s')
  {
    && id < |s.infos| && id' < |s'.infos| && s.infos[id] == s'.infos[id']
    && (forall k | k in group && Live(s.cache, k, t) && Live(s'.cache, k, t) ::
          s.cache[k].value == id <==> s'.cache[k].value == id')
  }

  lemma SameLater(s: Store, s': Store, group: set<string>, t: int, now: int)
    requires ValidStore(s) && ValidStore(s') && Same(s, s', group, t) && t <= now
    ensures Same(s, s', group, now)
    ensures forall id, id' | Twin(s, s', group, t, id, id') :: Twin(s, s', group, now, id, id')
  {
  }

  lemma SameAccessed(s: Store, s': Store, group: set<string>, t: int, k: string, now: int)
    requires ValidStore(s) && ValidStore(s') && Same(s, s', group, t) && t <= now && k in group
    ensures Live(s.cache, k, now) == Live(s'.cache, k, now)
    ensures var a, a' := Store(Accessed(s.cache, k, now), s.infos), Store(Accessed(s'.cache, k, now), s'.infos);
            && ValidStore(a) && ValidStore(a') && Same(a, a', group, now)
            && (forall id, id' | Twin(s, s', group, t, id, id') :: Twin(a, a', group, now, id, id'))
  {
  }

  lemma SameStored(s: Store, s': Store, group: set<string>, t: int, k: string, now: int, id: nat, id': nat)
    requires ValidStore(s) && ValidStore(s') && Same(s, s', group, t) && t <= now && k in group
    requires Twin(s, s', group, t, id, id')
    ensures var a := Store(Stored(s.cache, k, id, DEFAULT_EXPIRATION_SEC, now), s.infos);
            var a' := Store(Stored(s'.cache, k, id', DEFAULT_EXPIRATION_SEC, now), s'.infos);
            ValidStore(a) && ValidStore(a') && Same(a, a', group, now) && Twin(a, a', group, now, id, id')
  {
  }

  lemma SameUpdated(s: Store, s': Store, group: set<string>, t: int, id: nat, id': nat, info: Info)
    requires ValidStore(s) && ValidStore(s') && Same(s, s', group, t) && Twin(s, s', group, t, id, id')
    ensures var a, a' := s.(infos := s.infos[id := info]), s'.(infos := s'.infos[id' := info]);
            ValidStore(a) && ValidStore(a') && Same(a, a', group, t) && Twin(a, a', group, t, id, id')
  {
  }

  lemma SameGrown(s: Store, s': Store, group: set<string>, t: int, info: Info)
    requires ValidStore(s) && ValidStore(s') && Same(s, s', group, t)
    ensures var a, a' := s.(infos := s.infos + [info]), s'.(infos := s'.infos + [info]);
            ValidStore(a) && ValidStore(a') && Same(a, a', group, t) && Twin(a, a', group, t, |s.infos|, |s'.infos|)
  {
  }

  lemma {:induction false} SameFindAll(s: Store, s': Store, group: set<string>, hosts: seq<HostInfo>, clock: Clock)
    requires ValidStore(s) && ValidStore(s') && Same(s, s', group, clock(0)) && Names(hosts) <= group && Monotone(clock)
    ensures FirstHit(s.cache, hosts, clock) == FirstHit(s'.cache, hosts, clock)
    ensures var a := Store(FindAll(s.cache, hosts, clock), s.infos);
            var a' := Store(FindAll(s'.cache, hosts, clock), s'.infos);
            ValidStore(a) && ValidStore(a') && Same(a, a', group, clock(|hosts|))
  {
    if hosts != [] {
      var n := |hosts| - 1;
      assert Names(hosts) == Names(hosts[..n]) + {hosts[n].host};
      SameFindAll(s, s', group, hosts[..n], clock);
      var a := Store(FindAll(s.cache, hosts[..n], clock), s.infos);
      var a' := Store(FindAll(s'.cache, hosts[..n], clock), s'.infos);
      SameAccessed(a, a', group, clock(n), hosts[n].host, clock(n + 1));
    }
  }

  lemma SamePut(s: Store, s': Store, group: set<string>, k: string, now: int, later: int, id: nat, id': nat)
    requires ValidStore(s) && ValidStore(s') && Same(s, s', group, now) && now <= later && k in group
    requires Twin(s, s', group, now, id, id')
    ensures var a := Store(Stored(s.cache, k, id, DEFAULT_EXPIRATION_SEC, now), s.infos);
            var a' := Store(Stored(s'.cache, k, id', DEFAULT_EXPIRATION_SEC, now), s'.infos);
            ValidStore(a) && ValidStore(a') && Same(a, a', group, later) && Twin(a, a', group, later, id, id')
  {
    SameStored(s, s', group, now, k, now, id, id');
    SameLater(Store(Stored(s.cache, k, id, DEFAULT_EXPIRATION_SEC, now), s.infos),
              Store(Stored(s'.cache, k, id', DEFAULT_EXPIRATION_SEC, now), s'.infos), group, now, later);
  }

  lemma LastName(hosts: seq<HostInfo>)
    requires hosts != []
    ensures Names(hosts[..|hosts| - 1]) <= Names(hosts) && hosts[|hosts| - 1].host in Names(hosts)
  {
  }

  lemma {:induction false} SamePutAll(s: Store, s': Store, group: set<string>, hosts: seq<HostInfo>,
                                      id: nat, id': nat, clock: Clock, base: nat)
    requires ValidStore(s) && ValidStore(s') && Same(s, s', group, clock(base))
    requires Twin(s, s', group, clock(base), id, id')
    requires Names(hosts) <= group && Monotone(clock)
    ensures var a := Store(PutAll<nat>(s.cache, hosts, id, clock, base), s.infos);
            var a' := Store(PutAll<nat>(s'.cache, hosts, id', clock, base), s'.infos);
            && ValidStore(a) && ValidStore(a')
            && Same(a, a', group, clock(base + |hosts|)) && Twin(a, a', group, clock(base + |hosts|), id, id')
  {
    hide Same, Twin, Names;
    if hosts == [] {
      assert Store(s.cache, s.infos) == s && Store(s'.cache, s'.infos) == s';
    } else {
      var n := |hosts| - 1;
      LastName(hosts);
      SamePutAll(s, s', group, hosts[..n], id, id', clock, base);
      var a := Store(PutAll<nat>(s.cache, hosts[..n], id, clock, base), s.infos);
      var a' := Store(PutAll<nat>(s'.cache, hosts[..n], id', clock, base), s'.infos);
      SamePut(a, a', group, hosts[n].host, clock(base + n), clock(base + n + 1), id, id');
    }
  }

  lemma SameNewEntry(f: Store, f': Store, group: set<string>, sel: seq<HostInfo>, props: Props, clock: Clock)
    requires ValidStore(f) && ValidStore(f') && GoodClock(clock, |sel|) && Names(sel) <= group
    requires Same(f, f', group, clock(|sel|))
    ensures var ((a, ok), (a', ok')) := (NewEntry(f, sel, props, clock), NewEntry(f', sel, props, clock));
            ok == ok' && ValidStore(a) && ValidStore(a') && Same(a, a', group, clock(2 * |sel| + 2))
  {
    hide Same, Twin, Created, PutAll, Names;
    var (info, ok) := Created(props);
    SameGrown(f, f', group, clock(|sel|), info);
    var g, g' := f.(infos := f.infos + [info]), f'.(infos := f'.infos + [info]);
    if ok {
      SameLater(g, g', group, clock(|sel|), clock(|sel| + 2));
      SamePutAll(g, g', group, sel, |f.infos|, |f'.infos|, clock, |sel| + 2);
      assert |sel| + 2 + |sel| == 2 * |sel| + 2;
    } else {
      SameLater(g, g', group, clock(|sel|), clock(2 * |sel| + 2));
    }
  }

  lemma TwinOfKey(s: Store, s': Store, group: set<string>, t: int, k: string)
    requires ValidStore(s) && ValidStore(s') && Same(s, s', group, t) && k in group && Live(s.cache, k, t)
    ensures k in s'.cache && Twin(s, s', group, t, s.cache[k].value, s'.cache[k].value)
  {
  }

  /** The record of one name is looked up and rewritten in both stores. */
  lemma SameRewritten(f: Store, f': Store, group: set<string>, key: string, t: int, now: int, info: Info)
    requires ValidStore(f) && ValidStore(f') && Same(f, f', group, t) && t <= now
    requires key in group && Live(f.cache, key, t) && key in f'.cache
    ensures var (id, id') := (f.cache[key].value, f'.cache[key].value);
            && id < |f.infos| && id' < |f'.infos| && f.infos[id] == f'.infos[id']
            && var h := Store(Accessed(f.cache, key, now), f.infos[id := info]);
               var h' := Store(Accessed(f'.cache, key, now), f'.infos[id' := info]);
               ValidStore(h) && ValidStore(h') && Same(h, h', group, now) && Twin(h, h', group, now, id, id')
  {
    TwinOfKey(f, f', group, t, key);
    var id, id' := f.cache[key].value, f'.cache[key].value;
    SameAccessed(f, f', group, t, key, now);
    var g, g' := Store(Accessed(f.cache, key, now), f.infos), Store(Accessed(f'.cache, key, now), f'.infos);
    assert id < |f.infos| && id' < |f'.infos| && f.infos[id] == f'.infos[id'];
    hide Same, Accessed;
    SameUpdated(g, g', group, now, id, id', info);
  }

  lemma SameReuseEntry(f: Store, f': Store, group: set<string>, key: string, sel: seq<HostInfo>, props: Props,
                       clock: Clock)
    requires ValidStore(f) && ValidStore(f') && GoodClock(clock, |sel|) && Names(sel) <= group
    requires Same(f, f', group, clock(|sel|)) && key in group && Live(f.cache, key, clock(|sel|)) && key in f'.cache
    ensures var ((a, ok), (a', ok')) := (ReuseEntry(f, key, sel, props, clock), ReuseEntry(f', key, sel, props, clock));
            ok == ok' && ValidStore(a) && ValidStore(a') && Same(a, a', group, clock(2 * |sel| + 2))
  {
    hide Same, Twin, Refreshed, Accessed, PutAll, Names;
    var n := |sel|;
    var id, id' := f.cache[key].value, f'.cache[key].value;
    var (info, ok) := Refreshed(f.infos[id], props);
    SameRewritten(f, f', group, key, clock(n), clock(n + 1), info);
    var h := Store(Accessed(f.cache, key, clock(n + 1)), f.infos[id := info]);
    var h' := Store(Accessed(f'.cache, key, clock(n + 1)), f'.infos[id' := info]);
    if ok {
      SameLater(h, h', group, clock(n + 1), clock(n + 2));
      SamePutAll(h, h', group, sel, id, id', clock, n + 2);
      assert n + 2 + n == 2 * n + 2;
    } else {
      SameLater(h, h', group, clock(n + 1), clock(2 * n + 2));
    }
  }

  lemma SameRotated(s: Store, s': Store, group: set<string>, sel: seq<HostInfo>, clock: Clock)
    requires ValidStore(s) && ValidStore(s') && sel != [] && Names(sel) <= group
    requires var t := clock(2 * |sel| + 2);
             Same(s, s', group, t) && Live(s.cache, sel[0].host, t) && sel[0].host in s'.cache
    ensures var ((a, host), (a', host')) := (Rotated(s, sel, clock), Rotated(s', sel, clock));
            host == host' && ValidStore(a) && ValidStore(a') && Same(a, a', group, clock(2 * |sel| + 2))
  {
    var key, t := sel[0].host, clock(2 * |sel| + 2);
    assert key in Names(sel);
    var id, id' := s.cache[key].value, s'.cache[key].value;
    assert Twin(s, s', group, t, id, id');
    SameAccessed(s, s', group, t, key, t);
    var g, g' := Store(Accessed(s.cache, key, t), s.infos), Store(Accessed(s'.cache, key, t), s'.infos);
    assert Twin(g, g', group, t, id, id');
    SameUpdated(g, g', group, t, id, id', Advanced(s.infos[id], sel));
  }

  lemma SameFound(s: Store, s': Store, group: set<string>, sel: seq<HostInfo>, clock: Clock)
    requires ValidStore(s) && ValidStore(s') && GoodClock(clock, |sel|) && Names(sel) <= group
    requires Same(s, s', group, clock(0))
    ensures Same(Found(s, sel, clock), Found(s', sel, clock), group, clock(|sel|))
    ensures var hit := FirstHit(Purged(s.cache, clock(0)), sel, clock);
            && hit == FirstHit(Purged(s'.cache, clock(0)), sel, clock)
            && (hit < |sel| ==> Live(Found(s, sel, clock).cache, sel[hit].host, clock(|sel|)))
  {
    var p, p' := Store(Purged(s.cache, clock(0)), s.infos), Store(Purged(s'.cache, clock(0)), s'.infos);
    SameFindAll(p, p', group, sel, clock);
    HitStays(p.cache, sel, clock, |s.infos|, clock(|sel|));
  }

  lemma SameEntries(s: Store, s': Store, group: set<string>, sel: seq<HostInfo>, props: Props, clock: Clock)
    requires ValidStore(s) && ValidStore(s') && GoodClock(clock, |sel|) && Names(sel) <= group
    requires Same(s, s', group, clock(0))
    ensures var ((a, ok), (a', ok')) := (CreateEntries(s, sel, props, clock), CreateEntries(s', sel, props, clock));
            ok == ok' && ValidStore(a) && ValidStore(a') && Same(a, a', group, clock(2 * |sel| + 2))
  {
    SameFound(s, s', group, sel, clock);
    var f, f' := Found(s, sel, clock), Found(s', sel, clock);
    var hit := FirstHit(Purged(s.cache, clock(0)), sel, clock);
    if hit == |sel| {
      SameNewEntry(f, f', group, sel, props, clock);
    } else {
      assert sel[hit].host in Names(sel);
      SameReuseEntry(f, f', group, sel[hit].host, sel, props, clock);
    }
  }

  lemma InsideCall(s: Store, s': Store, group: set<string>, sel: seq<HostInfo>, props: Props, clock: Clock)
    requires ValidStore(s) && ValidStore(s') && GoodClock(clock, |sel|) && Names(sel) <= group && sel != []
    requires Same(s, s', group, clock(0))
    ensures var ((a, r), (a', r')) := (GetHost(s, sel, props, clock), GetHost(s', sel, props, clock));
            r == r' && ValidStore(a) && ValidStore(a') && Same(a, a', group, clock(2 * |sel| + 2))
  {
    SameEntries(s, s', group, sel, props, clock);
    var (a, ok) := CreateEntries(s, sel, props, clock);
    var (a', ok') := CreateEntries(s', sel, props, clock);
    if ok {
      EntriesLive(s, sel, props, clock);
      EntriesLive(s', sel, props, clock);
      SameRotated(a, a', group, sel, clock);
    }
  }

  // ---- whole runs ----

  function EndOf(calls: seq<Call>, t: int): int {
    if calls == [] then t else calls[|calls| - 1].End()
  }

  /** The run of all the calls and the run of the inside ones agree on the group. */
  ghost predicate Agreeing(s: Store, s': Store, calls: seq<Call>, group: set<string>, t: int)
    requires ValidStore(s) && ValidStore(s') && Ready(calls)
  {
    && Ready(InsideCalls(calls, group))
    && var ((a, results), (a', results')) := (RunAll(s, calls), RunAll(s', InsideCalls(calls, group)));
       && results' == InsideResults(calls, results, group)
       && Same(a, a', group, EndOf(calls, t)) && Apart(a, group, EndOf(calls, t))
  }

  lemma {:induction false} RunsAgree(s: Store, s': Store, calls: seq<Call>, group: set<string>, t: int)
    requires ValidStore(s) && ValidStore(s') && Ready(calls) && Separated(calls, group)
    requires calls != [] ==> t <= calls[0].Start()
    requires Same(s, s', group, t) && Apart(s, group, t)
    ensures Agreeing(s, s', calls, group, t)
  {
    if calls != [] {
      hide RunAll, GetHost, InsideResults, InsideCalls, Ready, Separated, Same, Apart, ValidStore, GoodClock;
      hide Names, EndOf;
      var n := |calls| - 1;
      PrefixSeparated(calls, group);
      RunsAgree(s, s', calls[..n], group, t);
      var (a, results) := RunAll(s, calls[..n]);
      var (a', results') := RunAll(s', InsideCalls(calls[..n], group));
      assert results' == InsideResults(calls[..n], results, group);
      assert Same(a, a', group, EndOf(calls[..n], t)) && Apart(a, group, EndOf(calls[..n], t));
      LastCall(calls, group, t);
      OneCall(a, a', calls[n], group, EndOf(calls[..n], t));
      RunStep(s, calls);
      InsideResultsStep(calls, results, GetHost(a, calls[n].sel, calls[n].props, calls[n].clock).1, group);
      InsideReady(calls, group);
      InsideReady(calls[..n], group);
      InsideRunStep(s', calls, group);
    }
  }

  lemma PrefixSeparated(calls: seq<Call>, group: set<string>)
    requires Ready(calls) && Separated(calls, group) && calls != []
    ensures var before := calls[..|calls| - 1];
            Ready(before) && Separated(before, group) && (before != [] ==> before[0] == calls[0])
  {
  }

  lemma LastCall(calls: seq<Call>, group: set<string>, t: int)
    requires Ready(calls) && Separated(calls, group) && calls != [] && t <= calls[0].Start()
    ensures var n := |calls| - 1;
            && Ready(calls[..n])
            && EndOf(calls[..n], t) <= calls[n].Start() && EndOf(calls, t) == calls[n].End()
            && GoodClock(calls[n].clock, |calls[n].sel|)
            && (Inside(calls[n], group) || Names(calls[n].sel) !! group)
            && (!Inside(calls[n], group) ==> InsideCalls(calls, group) == InsideCalls(calls[..n], group))
  {
  }

  lemma InsideResultsStep(calls: seq<Call>, results: seq<Result<HostInfo>>, r: Result<HostInfo>, group: set<string>)
    requires |results| + 1 == |calls|
    ensures InsideResults(calls, results + [r], group) ==
            InsideResults(calls[..|results|], results, group) + if Inside(calls[|results|], group) then [r] else []
  {
    assert (results + [r])[..|results|] == results;
  }

  /** The run of the inside calls makes the last call only if it is inside. */
  lemma InsideRunStep(s: Store, calls: seq<Call>, group: set<string>)
    requires ValidStore(s) && calls != []
    requires Ready(InsideCalls(calls, group)) && Ready(InsideCalls(calls[..|calls| - 1], group))
    requires var c := calls[|calls| - 1]; GoodClock(c.clock, |c.sel|)
    ensures var (a, results) := RunAll(s, InsideCalls(calls[..|calls| - 1], group));
            var c := calls[|calls| - 1];
            RunAll(s, InsideCalls(calls, group)) ==
            if !Inside(c, group) then (a, results)
            else
              var (b, r) := GetHost(a, c.sel, c.props, c.clock);
              (b, results + [r])
  {
    hide GetHost;
    var before, all := InsideCalls(calls[..|calls| - 1], group), InsideCalls(calls, group);
    if Inside(calls[|calls| - 1], group) {
      assert all[..|all| - 1] == before;
    } else {
      assert all == before;
    }
  }

  lemma ApartLater(s: Store, group: set<string>, t: int, now: int)
    requires Apart(s, group, t) && t <= now
    ensures Apart(s, group, now)
  {
  }

  lemma OneCall(a: Store, a': Store, c: Call, group: set<string>, now: int)
    requires ValidStore(a) && ValidStore(a') && GoodClock(c.clock, |c.sel|) && now <= c.Start()
    requires Inside(c, group) || Names(c.sel) !! group
    requires Same(a, a', group, now) && Apart(a, group, now)
    ensures var (b, r) := GetHost(a, c.sel, c.props, c.clock);
            var (b', r') := if Inside(c, group) then GetHost(a', c.sel, c.props, c.clock) else (a', r);
            ValidStore(b) && ValidStore(b') && r == r' && Same(b, b', group, c.End()) && Apart(b, group, c.End())
  {
    hide Same, Apart, Shape, RecordUsed, CreateEntries;
    assert c.clock(0) <= c.clock(2 * |c.sel| + 2);
    if c.sel == [] {
      ApartLater(a, group, now, c.End());
      SameLater(a, a', group, now, c.End());
    } else {
      ApartLater(a, group, now, c.Start());
      SameLater(a, a', group, now, c.Start());
      CallShape(a, c.sel, c.props, c.clock);
      GetHostEffect(a, c.sel, c.props, c.clock);
      var b, id := GetHost(a, c.sel, c.props, c.clock).0, RecordUsed(a, c.sel, c.clock);
      if Inside(c, group) {
        InsideCall(a, a', group, c.sel, c.props, c.clock);
        InsideApart(a, b, group, Names(c.sel), id, c.Start(), c.End());
      } else {
        OutsideCall(a, b, a', group, Names(c.sel), id, c.Start(), c.End());
      }
    }
  }

  lemma {:induction false} InsideReady(calls: seq<Call>, group: set<string>)
    requires Ready(calls)
    ensures Ready(InsideCalls(calls, group))
    ensures forall c | c in InsideCalls(calls, group) :: c in calls
  {
    if calls != [] {
      hide GoodClock, Inside;
      var n := |calls| - 1;
      InsideReady(calls[..n], group);
      var before, all := InsideCalls(calls[..n], group), InsideCalls(calls, group);
      assert all == before || all == before + [calls[n]];
      forall i, j | 0 <= i < j < |all| ensures all[i].End() <= all[j].Start() {
        if j == |before| {
          assert before[i] in calls[..n];
        }
      }
    }
  }

  /** Starting from an empty cache, what the group's calls hand out does not depend on the calls outside it,
      and a record is never shared across the border of the group. */
  lemma SharingIsConfined(calls: seq<Call>, group: set<string>)
    requires Ready(calls) && Separated(calls, group)
    ensures Ready(InsideCalls(calls, group))
    ensures RunAll(EMPTY_STORE, InsideCalls(calls, group)).1 ==
            InsideResults(calls, RunAll(EMPTY_STORE, calls).1, group)
    ensures calls != [] ==> Apart(RunAll(EMPTY_STORE, calls).0, group, calls[|calls| - 1].End())
  {
    RunsAgree(EMPTY_STORE, EMPTY_STORE, calls, group, if calls == [] then 0 else calls[0].Start());
  }

  // ---- sharing goes back to a chain of selections ----

  /** Calls, each sharing a name with the next, the first selecting `k` and the last `l`. */
  ghost predicate Chain(calls: seq<Call>, path: seq<nat>, k: string, l: string) {
    && path != [] && (forall i | 0 <= i < |path| :: path[i] < |calls|)
    && k in Names(calls[path[0]].sel) && l in Names(calls[path[|path| - 1]].sel)
    && forall i | 0 <= i < |path| - 1 :: Names(calls[path[i]].sel) * Names(calls[path[i + 1]].sel) != {}
  }

  ghost predicate Chained(calls: seq<Call>, k: string, l: string) {
    exists path :: Chain(calls, path, k, l)
  }

  ghost function AllNames(calls: seq<Call>): set<string> {
    set i, name | 0 <= i < |calls| && name in Names(calls[i].sel) :: name
  }

  /** Everything a chain leads to from `k`. */
  ghost function ChainGroup(calls: seq<Call>, k: string): set<string> {
    {k} + set l | l in AllNames(calls) && Chained(calls, k, l)
  }

  /** A call that selects a chained name chains all it selects. */
  lemma ChainGrows(calls: seq<Call>, k: string, i: nat, name: string, l: string)
    requires i < |calls| && name in Names(calls[i].sel) && l in Names(calls[i].sel)
    requires name == k || Chained(calls, k, name)
    ensures Chained(calls, k, l)
  {
    hide Names;
    if name == k {
      assert Chain(calls, [i], k, l);
    } else {
      var path :| Chain(calls, path, k, name);
      assert name in Names(calls[path[|path| - 1]].sel) * Names(calls[i].sel);
      assert Chain(calls, path + [i], k, l);
    }
  }

  lemma ChainGroupSeparates(calls: seq<Call>, k: string)
    ensures Separated(calls, ChainGroup(calls, k))
  {
    hide Names, Chained;
    var group := ChainGroup(calls, k);
    forall i | 0 <= i < |calls| ensures Inside(calls[i], group) || Names(calls[i].sel) !! group {
      forall name, l | name in Names(calls[i].sel) && name in group && l in Names(calls[i].sel) ensures l in group {
        ChainGrows(calls, k, i, name, l);
        assert l in AllNames(calls);
      }
    }
  }

  /** Two names that share a record after any run from an empty cache were linked by a chain of selections. */
  lemma SharersAreChained(calls: seq<Call>, k: string, l: string)
    requires Ready(calls) && calls != [] && k != l
    requires var (c, t) := (RunAll(EMPTY_STORE, calls).0.cache, calls[|calls| - 1].End());
             Live(c, k, t) && Live(c, l, t) && c[k].value == c[l].value
    ensures Chained(calls, k, l)
  {
    hide RunAll, Ready, Separated;
    ChainGroupSeparates(calls, k);
    SharingIsConfined(calls, ChainGroup(calls, k));
  }
}
