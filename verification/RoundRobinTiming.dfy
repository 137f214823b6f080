/** Calls of the scheduler whatever the clock does.

    The source fetches a record it has just found, or just stored, with a second lookup, and does not ask whether that
    lookup succeeded.  Here such a lookup may come too late, and then the call dereferences null. */
module RoundRobinTiming {
  import opened Basics
  import opened Hosts
  import opened SlidingCache
  import opened RoundRobinWeights
  import opened RoundRobin

  /** How a call ends. */
  datatype Answer = Returned(result: Result<HostInfo>) | NullDereferenced

  lemma {:induction false} FindAllValid(c: Cache<string, nat>, hosts: seq<HostInfo>, clock: Clock, records: nat)
    requires ValidCache(c, records)
    ensures ValidCache(FindAll(c, hosts, clock), records)
  {
    if hosts != [] {
      FindAllValid(c, hosts[..|hosts| - 1], clock, records);
    }
  }

  lemma {:induction false} PutAllValid(c: Cache<string, nat>, hosts: seq<HostInfo>, v: nat, clock: Clock, base: nat,
                                       records: nat)
    requires ValidCache(c, records) && v < records
    ensures ValidCache(PutAll(c, hosts, v, clock, base), records)
  {
    if hosts != [] {
      PutAllValid(c, hosts[..|hosts| - 1], v, clock, base, records);
    }
  }

  /** The store after the sweep and the lookups. */
  function Swept(s: Store, sel: seq<HostInfo>, clock: Clock): (f: Store)
    requires ValidStore(s)
    ensures ValidStore(f)
  {
    FindAllValid(Purged(s.cache, clock(0)), sel, clock, |s.infos|);
    Store(FindAll<nat>(Purged(s.cache, clock(0)), sel, clock), s.infos)
  }

  /** The branch that reuses a record; no verdict on the properties when the record is gone. */
  function TryReuse(s: Store, key: string, sel: seq<HostInfo>, props: Props, clock: Clock): (r: (Store, Option<bool>))
    requires ValidStore(s)
    ensures ValidStore(r.0)
  {
    if !Live(s.cache, key, clock(|sel| + 1)) then
      (Store(Accessed(s.cache, key, clock(|sel| + 1)), s.infos), None)
    else
      var (s1, ok) := ReuseEntry(s, key, sel, props, clock);
      PutAllValid(Accessed(s.cache, key, clock(|sel| + 1)), sel, s.cache[key].value, clock, |sel| + 2, |s.infos|);
      (s1, Some(ok))
  }

  /** `create_cache_entries`. */
  function TryCreateEntries(s: Store, sel: seq<HostInfo>, props: Props, clock: Clock): (r: (Store, Option<bool>))
    requires ValidStore(s)
    ensures ValidStore(r.0)
  {
    var f, hit := Swept(s, sel, clock), FirstHit(Purged(s.cache, clock(0)), sel, clock);
    if hit == |sel| then
      var (s1, ok) := NewEntry(f, sel, props, clock);
      PutAllValid(f.cache, sel, |f.infos|, clock, |sel| + 2, |f.infos| + 1);
      (s1, Some(ok))
    else
      TryReuse(f, sel[hit].host, sel, props, clock)
  }

  function TryRotate(s: Store, sel: seq<HostInfo>, clock: Clock): (r: (Store, Answer))
    requires ValidStore(s) && sel != []
    ensures ValidStore(r.0)
  {
    var key, now := sel[0].host, clock(2 * |sel| + 2);
    if !Live(s.cache, key, now) then (Store(Accessed(s.cache, key, now), s.infos), NullDereferenced)
    else
      var (s1, host) := Rotated(s, sel, clock);
      (s1, Returned(Ok(host)))
  }

  /** One whole call at any readings of the clock. */
  function Attempt(s: Store, sel: seq<HostInfo>, props: Props, clock: Clock): (r: (Store, Answer))
    requires ValidStore(s)
    ensures ValidStore(r.0)
  {
    if sel == [] then (s, Returned(Throws))
    else
      match TryCreateEntries(s, sel, props, clock)
      case (s1, None) => (s1, NullDereferenced)
      case (s1, Some(ok)) => if ok then TryRotate(s1, sel, clock) else (s1, Returned(Throws))
  }

  /** The store after the calls, whatever the clock did in them, throwing calls included. */
  function AttemptAll(s: Store, calls: seq<Call>): (r: Store)
    requires ValidStore(s)
    ensures ValidStore(r)
  {
    if calls == [] then s
    else
      var c := calls[|calls| - 1];
      Attempt(AttemptAll(s, calls[..|calls| - 1]), c.sel, c.props, c.clock).0
  }

  // ---- a call in time ----

  /** A call in which less than the time to live passes does what the timely specification says. */
  lemma TimelyAttempt(s: Store, sel: seq<HostInfo>, props: Props, clock: Clock)
    requires ValidStore(s) && GoodClock(clock, |sel|)
    ensures var (s1, r) := GetHost(s, sel, props, clock); Attempt(s, sel, props, clock) == (s1, Returned(r))
  {
    if sel != [] {
      hide PutAll, Refreshed, Created, Rotated;
      var purged: Cache<string, nat> := Purged(s.cache, clock(0));
      assert clock(|sel| + 1) <= clock(2 * |sel| + 2);
      HitStays(purged, sel, clock, |s.infos|, clock(2 * |sel| + 2));
      assert Swept(s, sel, clock) == Found(s, sel, clock);
      EntriesLive(s, sel, props, clock);
    }
  }

  // ---- expired entries go ----

  ghost predicate Unexpired(c: Cache<string, nat>, now: int) {
    forall k | k in c :: c[k].ttl == DEFAULT_EXPIRATION_SEC && c[k].expiry >= now
  }

  lemma {:induction false} FindAllUnexpired(c: Cache<string, nat>, hosts: seq<HostInfo>, clock: Clock)
    requires Unexpired(c, clock(0)) && Monotone(clock)
    ensures Unexpired(FindAll(c, hosts, clock), clock(0))
  {
    if hosts != [] {
      FindAllUnexpired(c, hosts[..|hosts| - 1], clock);
      assert clock(0) <= clock(|hosts|);
    }
  }

  lemma {:induction false} PutAllUnexpired(c: Cache<string, nat>, hosts: seq<HostInfo>, v: nat, clock: Clock, base: nat)
    requires Unexpired(c, clock(0)) && Monotone(clock)
    ensures Unexpired(PutAll(c, hosts, v, clock, base), clock(0))
  {
    if hosts != [] {
      PutAllUnexpired(c, hosts[..|hosts| - 1], v, clock, base);
      assert clock(0) <= clock(base + |hosts| - 1);
    }
  }

  lemma AccessedUnexpired(c: Cache<string, nat>, k: string, clock: Clock, i: nat)
    requires Unexpired(c, clock(0)) && Monotone(clock)
    ensures Unexpired(Accessed(c, k, clock(i)), clock(0))
  {
    assert clock(0) <= clock(i);
  }

  lemma EntriesUnexpired(f: Store, key: string, sel: seq<HostInfo>, props: Props, clock: Clock)
    requires ValidStore(f) && Unexpired(f.cache, clock(0)) && Monotone(clock)
    ensures Unexpired(NewEntry(f, sel, props, clock).0.cache, clock(0))
    ensures Unexpired(TryReuse(f, key, sel, props, clock).0.cache, clock(0))
  {
    hide Created, Refreshed, PutAll, Unexpired;
    PutAllUnexpired(f.cache, sel, |f.infos|, clock, |sel| + 2);
    AccessedUnexpired(f.cache, key, clock, |sel| + 1);
    if key in f.cache {
      PutAllUnexpired(Accessed(f.cache, key, clock(|sel| + 1)), sel, f.cache[key].value, clock, |sel| + 2);
    }
  }

  /** However a call on some host ends, it leaves no entry of any name that had expired before it began. */
  lemma ExpiredEntriesGo(s: Store, sel: seq<HostInfo>, props: Props, clock: Clock)
    requires ValidStore(s) && Monotone(clock) && sel != []
    ensures Unexpired(Attempt(s, sel, props, clock).0.cache, clock(0))
  {
    var purged: Cache<string, nat> := Purged(s.cache, clock(0));
    FindAllUnexpired(purged, sel, clock);
    hide NewEntry, TryReuse, Unexpired, FindAll, FirstHit, Advanced;
    var f, hit := Swept(s, sel, clock), FirstHit(purged, sel, clock);
    EntriesUnexpired(f, if hit < |sel| then sel[hit].host else "", sel, props, clock);
    var s1 := TryCreateEntries(s, sel, props, clock).0;
    AccessedUnexpired(s1.cache, sel[0].host, clock, 2 * |sel| + 2);
  }

  // ---- when a call is too slow ----

  /** The last place before `n` where the name is listed. */
  function Before(sel: seq<HostInfo>, name: string, n: nat): nat
    requires n <= |sel|
  {
    LastIndexOf(sel, name, n)
  }

  /** A stretch between two readings that an entry refreshed at the first survives. */
  predicate Spans(clock: Clock, from: nat, to: nat) {
    clock(to) < ExpiryAt(clock(from), DEFAULT_EXPIRATION_SEC)
  }

  /** The lookups of the name found at `hit`, up to `m`, each come in time after the one before. */
  ghost predicate FoundInTime(sel: seq<HostInfo>, clock: Clock, hit: nat, m: nat)
    requires hit < m <= |sel|
  {
    forall p | hit < p < m && sel[p].host == sel[hit].host ::
      Spans(clock, Before(sel, sel[hit].host, p) + 1, p + 1)
  }

  /** The name is cached with this expiry, or not at all. */
  ghost predicate EntryIs(f: Cache<string, nat>, name: string, there: bool, expiry: int) {
    if there then name in f && f[name].expiry == expiry && f[name].ttl == DEFAULT_EXPIRATION_SEC else name !in f
  }

  lemma AccessedEntry(f: Cache<string, nat>, name: string, there: bool, expiry: int, k: string, now: int)
    requires EntryIs(f, name, there, expiry)
    ensures var f1 := Accessed(f, k, now);
            if k == name then EntryIs(f1, name, there && now < expiry, ExpiryAt(now, DEFAULT_EXPIRATION_SEC))
            else EntryIs(f1, name, there, expiry)
  {
  }

  /** The entry first found at `hit` is still there after `m` lookups, refreshed at the last one of its name, if those
      lookups were in time; otherwise it is gone. */
  ghost predicate LeftAfter(f: Cache<string, nat>, sel: seq<HostInfo>, clock: Clock, hit: nat, m: nat)
    requires hit < m <= |sel|
  {
    var name, last := sel[hit].host, Before(sel, sel[hit].host, m);
    && hit <= last < m
    && EntryIs(f, name, FoundInTime(sel, clock, hit, m), ExpiryAt(clock(last + 1), DEFAULT_EXPIRATION_SEC))
  }

  lemma LeftAfterHit(f: Cache<string, nat>, sel: seq<HostInfo>, clock: Clock, hit: nat, records: nat)
    requires ValidCache(f, records) && hit < |sel| && Live(f, sel[hit].host, clock(hit + 1))
    ensures LeftAfter(Accessed(f, sel[hit].host, clock(hit + 1)), sel, clock, hit, hit + 1)
  {
  }

  lemma FoundInTimeNext(sel: seq<HostInfo>, clock: Clock, hit: nat, m: nat)
    requires hit < m < |sel|
    ensures FoundInTime(sel, clock, hit, m + 1) <==>
            FoundInTime(sel, clock, hit, m) &&
            (sel[m].host == sel[hit].host ==> Spans(clock, Before(sel, sel[hit].host, m) + 1, m + 1))
  {
    hide Spans, Before;
  }

  lemma BeforeNext(sel: seq<HostInfo>, name: string, m: nat)
    requires m < |sel|
    ensures Before(sel, name, m + 1) == if sel[m].host == name then m else Before(sel, name, m)
    ensures Before(sel, name, m) < m || Before(sel, name, m) == |sel|
  {
  }

  lemma LeftAfterNext(f: Cache<string, nat>, sel: seq<HostInfo>, clock: Clock, hit: nat, m: nat)
    requires hit < m < |sel| && LeftAfter(f, sel, clock, hit, m)
    ensures LeftAfter(Accessed(f, sel[m].host, clock(m + 1)), sel, clock, hit, m + 1)
  {
    hide FoundInTime, Before, EntryIs, Accessed;
    var name, expiry := sel[hit].host, ExpiryAt(clock(Before(sel, sel[hit].host, m) + 1), DEFAULT_EXPIRATION_SEC);
    BeforeNext(sel, name, m);
    FoundInTimeNext(sel, clock, hit, m);
    AccessedEntry(f, name, FoundInTime(sel, clock, hit, m), expiry, sel[m].host, clock(m + 1));
  }

  lemma {:induction false} HitAfter(c: Cache<string, nat>, sel: seq<HostInfo>, clock: Clock, hit: nat, m: nat,
                                    records: nat)
    requires ValidCache(c, records) && hit < m <= |sel|
    requires Live(FindAll(c, sel[..hit], clock), sel[hit].host, clock(hit + 1))
    ensures LeftAfter(FindAll(c, sel[..m], clock), sel, clock, hit, m)
    decreases m
  {
    hide FindAll, FirstHit, Accessed, LeftAfter;
    FindAllValid(c, sel[..m - 1], clock, records);
    FindStep(c, sel, m - 1, clock);
    if m - 1 == hit {
      LeftAfterHit(FindAll(c, sel[..hit], clock), sel, clock, hit, records);
    } else {
      HitAfter(c, sel, clock, hit, m - 1, records);
      LeftAfterNext(FindAll(c, sel[..m - 1], clock), sel, clock, hit, m - 1);
    }
  }

  lemma {:induction false} HitAtFirst(c: Cache<string, nat>, sel: seq<HostInfo>, clock: Clock, n: nat)
    requires n <= |sel| && FirstHit(c, sel[..n], clock) < n
    ensures var hit := FirstHit(c, sel[..n], clock);
            Live(FindAll(c, sel[..hit], clock), sel[hit].host, clock(hit + 1))
  {
    hide FindAll, FirstHit;
    FindStep(c, sel, n - 1, clock);
    if FirstHit(c, sel[..n - 1], clock) < n - 1 {
      HitAtFirst(c, sel, clock, n - 1);
    }
  }

  /** After the stores the entry of a listed name dates from the last place that lists it. */
  lemma {:induction false} PutAllLast(c: Cache<string, nat>, sel: seq<HostInfo>, v: nat, clock: Clock, base: nat,
                                      m: nat, name: string)
    requires m <= |sel| && Before(sel, name, m) < m
    ensures var p := PutAll(c, sel[..m], v, clock, base);
            name in p && p[name].expiry == ExpiryAt(clock(base + Before(sel, name, m)), DEFAULT_EXPIRATION_SEC)
  {
    hide PutAll, Before;
    BeforeNext(sel, name, m - 1);
    PutStep(c, sel, m - 1, v, clock, base);
    if sel[m - 1].host != name {
      PutAllLast(c, sel, v, clock, base, m - 1, name);
    }
  }

  /** The record found is still there when it is fetched. */
  ghost predicate KeepsHit(s: Store, sel: seq<HostInfo>, clock: Clock) {
    var n, hit := |sel|, FirstHit(Purged(s.cache, clock(0)), sel, clock);
    hit < n ==> FoundInTime(sel, clock, hit, n) && Spans(clock, Before(sel, sel[hit].host, n) + 1, n + 1)
  }

  /** The record stored is still there when it is used. */
  predicate KeepsRecord(sel: seq<HostInfo>, clock: Clock)
    requires sel != []
  {
    var n := |sel|;
    Spans(clock, n + 2 + Before(sel, sel[0].host, n), 2 * n + 2)
  }

  /** The record the call works on, as it is before the call, or a new one if none is found, takes the properties. */
  predicate AcceptsProps(s: Store, sel: seq<HostInfo>, props: Props, clock: Clock)
    requires ValidStore(s)
  {
    var hit := FirstHit(Purged(s.cache, clock(0)), sel, clock);
    if hit == |sel| then Created(props).1
    else sel[hit].host in s.cache && Refreshed(s.infos[s.cache[sel[hit].host].value], props).1
  }

  /** A call dereferences null exactly when a stretch between two of its readings is too long: between the lookups
      and the fetch of the record found, or, for acceptable properties, between the store and the fetch of the record
      used. */
  lemma NullDereferencedExactly(s: Store, sel: seq<HostInfo>, props: Props, clock: Clock)
    requires ValidStore(s) && sel != []
    ensures Attempt(s, sel, props, clock).1 == NullDereferenced <==>
            !KeepsHit(s, sel, clock) || (AcceptsProps(s, sel, props, clock) && !KeepsRecord(sel, clock))
  {
    EntriesVerdict(s, sel, props, clock);
    if TryCreateEntries(s, sel, props, clock).1 == Some(true) {
      UseInTime(s, sel, props, clock);
    }
    hide KeepsHit, KeepsRecord, AcceptsProps, TryCreateEntries;
  }

  lemma FetchInTime(c: Cache<string, nat>, sel: seq<HostInfo>, clock: Clock, records: nat)
    requires ValidCache(c, records) && FirstHit(c, sel, clock) < |sel|
    ensures var (n, hit) := (|sel|, FirstHit(c, sel, clock));
            Live(FindAll(c, sel, clock), sel[hit].host, clock(n + 1)) <==>
            FoundInTime(sel, clock, hit, n) && Spans(clock, Before(sel, sel[hit].host, n) + 1, n + 1)
  {
    hide FindAll, FirstHit, FoundInTime;
    var n, hit := |sel|, FirstHit(c, sel, clock);
    assert sel[..n] == sel;
    HitAtFirst(c, sel, clock, n);
    HitAfter(c, sel, clock, hit, n, records);
  }

  /** The outcome of `create_cache_entries` told from the state before the call and the readings. */
  lemma EntriesVerdict(s: Store, sel: seq<HostInfo>, props: Props, clock: Clock)
    requires ValidStore(s) && sel != []
    ensures TryCreateEntries(s, sel, props, clock).1 ==
            if KeepsHit(s, sel, clock) then Some(AcceptsProps(s, sel, props, clock)) else None
  {
    hide FindAll, FirstHit, PutAll, Refreshed, Created, FoundInTime, Before, Spans;
    var purged: Cache<string, nat> := Purged(s.cache, clock(0));
    var hit := FirstHit(purged, sel, clock);
    if hit < |sel| {
      FetchInTime(purged, sel, clock, |s.infos|);
      FindAllKeeps(purged, sel, clock, sel[hit].host);
    }
  }

  lemma StoredLast(c: Cache<string, nat>, sel: seq<HostInfo>, v: nat, clock: Clock)
    requires sel != []
    ensures Live(PutAll(c, sel, v, clock, |sel| + 2), sel[0].host, clock(2 * |sel| + 2)) <==> KeepsRecord(sel, clock)
  {
    assert sel[..|sel|] == sel;
    PutAllLast(c, sel, v, clock, |sel| + 2, |sel|, sel[0].host);
  }

  lemma UseInTime(s: Store, sel: seq<HostInfo>, props: Props, clock: Clock)
    requires ValidStore(s) && sel != [] && TryCreateEntries(s, sel, props, clock).1 == Some(true)
    ensures Live(TryCreateEntries(s, sel, props, clock).0.cache, sel[0].host, clock(2 * |sel| + 2)) <==>
            KeepsRecord(sel, clock)
  {
    hide PutAll, FindAll, FirstHit, Refreshed, Created, KeepsRecord;
    var f, hit := Swept(s, sel, clock), FirstHit(Purged(s.cache, clock(0)), sel, clock);
    if hit == |sel| {
      StoredLast(f.cache, sel, |f.infos|, clock);
    } else {
      var key := sel[hit].host;
      StoredLast(Accessed(f.cache, key, clock(|sel| + 1)), sel, f.cache[key].value, clock);
    }
  }

  /** A new host is stored, and ten minutes pass before its record is fetched. */
  lemma SlowCallDereferencesNull(h: HostInfo)
    ensures var clock := (n: nat) => if n < 4 then 0 else 600_000_000_000;
            Monotone(clock) && Attempt(EMPTY_STORE, [h], map[], clock).1 == NullDereferenced
  {
  }
}
