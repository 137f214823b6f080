/** The scheduler as the source has it: objects in a cache, several names pointing at the same one.
    Every method is proved to compute the function of the same purpose in module RoundRobin. */
module RoundRobinHostSelector {
  import opened Basics
  import opened Hosts
  import opened SlidingCache
  import opened RoundRobinWeights
  import RR = RoundRobin
  import RT = RoundRobinTiming

  /** src/host_selector/round_robin_property.h */
  class ClusterInfo {
    ghost const id: nat
    var lastHost: Option<HostInfo>
    var clusterWeightMap: map<string, int>
    var defaultWeight: int
    var weightCounter: int
    var lastDefaultWeightText: string
    var lastHostWeightText: string

    constructor (ghost id: nat)
      ensures this.id == id && Value() == RR.FRESH_INFO
    {
      this.id := id;
      lastHost, clusterWeightMap, defaultWeight, weightCounter := None, map[], 1, 0;
      lastDefaultWeightText, lastHostWeightText := "", "";
    }

    ghost function Value(): RR.Info
      reads this
    {
      RR.Info(lastHost, clusterWeightMap, defaultWeight, weightCounter, lastDefaultWeightText, lastHostWeightText)
    }
  }

  type Entries = Cache<string, ClusterInfo>

  ghost function Ids(m: Entries): Cache<string, nat> {
    map k | k in m :: Entry(m[k].value.id, m[k].expiry, m[k].ttl)
  }

  lemma IdsAccessed(m: Entries, k: string, now: int)
    ensures Live(Ids(m), k, now) == Live(m, k, now)
    ensures Ids(Accessed(m, k, now)) == Accessed(Ids(m), k, now)
  {
  }

  lemma IdsStored(m: Entries, k: string, v: ClusterInfo, ttl: int, now: int)
    ensures Ids(Stored(m, k, v, ttl, now)) == Stored(Ids(m), k, v.id, ttl, now)
  {
  }

  ghost function Values(records: seq<ClusterInfo>): seq<RR.Info>
    reads records
  {
    seq(|records|, i requires 0 <= i < |records| reads records => records[i].Value())
  }

  method SortByName(hosts: seq<HostInfo>) returns (sorted: seq<HostInfo>)
    ensures RR.SortedByName(sorted) && multiset(sorted) == multiset(hosts)
  {
    hide RR.SortedByName, Less;
    assert RR.SortedByName([]) by {
      NothingSorted();
    }
    sorted := [];
    for i := 0 to |hosts|
      invariant RR.SortedByName(sorted) && multiset(sorted) == multiset(hosts[..i])
    {
      var j := |sorted|;
      while j > 0 && Less(hosts[i].host, sorted[j - 1].host)
        invariant 0 <= j <= |sorted|
        invariant forall k | j <= k < |sorted| :: Less(hosts[i].host, sorted[k].host)
      {
        j := j - 1;
      }
      InsertedSorted(sorted, j, hosts[i]);
      InsertedOnce(sorted, j, hosts[i]);
      assert hosts[..i + 1] == hosts[..i] + [hosts[i]];
      sorted := sorted[..j] + [hosts[i]] + sorted[j..];
    }
    assert hosts[..|hosts|] == hosts;
  }

  lemma NothingSorted()
    ensures RR.SortedByName([])
  {
  }

  lemma InsertedOnce(s: seq<HostInfo>, j: nat, h: HostInfo)
    requires j <= |s|
    ensures multiset(s[..j] + [h] + s[j..]) == multiset(s) + multiset{h}
  {
    assert s == s[..j] + s[j..];
  }

  lemma InsertedSorted(s: seq<HostInfo>, j: nat, h: HostInfo)
    requires RR.SortedByName(s) && j <= |s|
    requires forall k | j <= k < |s| :: Less(h.host, s[k].host)
    requires j > 0 ==> !Less(h.host, s[j - 1].host)
    ensures RR.SortedByName(s[..j] + [h] + s[j..])
  {
    forall k | 0 <= k < |s| ensures if k < j then !Less(h.host, s[k].host) else !Less(s[k].host, h.host) {
      if k < j - 1 && Less(h.host, s[k].host) {
        LessTotal(s[k].host, s[j - 1].host);
        if Less(s[k].host, s[j - 1].host) {
          LessTransitive(h.host, s[k].host, s[j - 1].host);
        }
        assert false;
      }
      if j <= k && Less(s[k].host, h.host) {
        LessTransitive(h.host, s[k].host, h.host);
        LessIrreflexive(h.host);
      }
    }
  }

  /** The `copy_if` and the sort. */
  method SortedHosts(hosts: seq<HostInfo>, isWriter: bool) returns (selection: seq<HostInfo>)
    ensures RR.SortedSelection(selection, hosts, isWriter)
  {
    selection := SortByName(RR.Selection(hosts, isWriter));
  }

  class RoundRobinHostSelector {
    const roundRobinCache: SlidingCacheMap<string, ClusterInfo>
    /** Every record ever created, in order; the ones nothing points at any more included. */
    ghost var records: seq<ClusterInfo>

    ghost predicate Valid()
      reads this, roundRobinCache
    {
      && (forall i | 0 <= i < |records| :: records[i].id == i)
      && (forall k | k in roundRobinCache.cache ::
            var e := roundRobinCache.cache[k];
            e.value.id < |records| && records[e.value.id] == e.value && e.ttl == DEFAULT_EXPIRATION_SEC)
    }

    ghost function Contents(): RR.Store
      reads this, roundRobinCache, records
      requires Valid()
      ensures RR.ValidStore(Contents())
    {
      RR.Store(Ids(roundRobinCache.cache), Values(records))
    }

    /** Records are only ever added. */
    twostate predicate Grown(before: seq<ClusterInfo>)
      reads this
    {
      before <= records && forall i | |before| <= i < |records| :: fresh(records[i])
    }

    constructor ()
      ensures Valid() && fresh(roundRobinCache) && Contents() == RR.EMPTY_STORE
    {
      roundRobinCache := new SlidingCacheMap();
      records := [];
    }

    method ClearCache()
      requires Valid()
      modifies roundRobinCache
      ensures Valid() && Contents() == RR.Store(map[], old(Contents()).infos)
    {
      roundRobinCache.Clear();
    }

    static method UpdatePropsDefaultWeight(info: ClusterInfo, props: Props) returns (ok: bool)
      modifies info
      ensures (info.Value(), ok) == RR.UpdateDefaultWeight(old(info.Value()), props)
    {
      var setWeight := DEFAULT_WEIGHT;
      if DEFAULT_WEIGHT_KEY in props {
        var parsed := ConvertToInt(props[DEFAULT_WEIGHT_KEY]);
        if parsed.None? || parsed.value < DEFAULT_WEIGHT {
          return false;
        }
        setWeight := parsed.value;
        info.lastDefaultWeightText := DEFAULT_WEIGHT_KEY;
      }
      info.defaultWeight := setWeight;
      return true;
    }

    static method UpdatePropsHostWeight(info: ClusterInfo, props: Props) returns (ok: bool)
      modifies info
      ensures (info.Value(), ok) == RR.UpdateHostWeight(old(info.Value()), props)
    {
      if HOST_WEIGHT_KEY !in props {
        return true;
      }
      var text := props[HOST_WEIGHT_KEY];
      if text == "" {
        info.clusterWeightMap := map[];
        info.lastHostWeightText := "";
        return true;
      }
      var groups := ReadLines(text, ',');
      var i := 0;
      while i < |groups|
        invariant 0 <= i <= |groups|
        invariant RR.RecordGroups(info.Value(), groups[i..], text) == RR.RecordGroups(old(info.Value()), groups, text)
      {
        var split := ReadLines(groups[i], ':');
        if |split| != 2 || split[0] == "" || split[1] == "" {
          return false;
        }
        var weight := ConvertToInt(split[1]);
        if weight.None? || weight.value < DEFAULT_WEIGHT {
          return false;
        }
        info.clusterWeightMap := info.clusterWeightMap[split[0] := weight.value];
        info.lastHostWeightText := text;
        i := i + 1;
      }
      return true;
    }

    static predicate CheckPropChange(value: string, name: string, props: Props)
    {
      if name !in props then false else value != props[name]
    }

    method UpdateCache(hosts: seq<HostInfo>, info: ClusterInfo, clock: RR.Clock, base: nat)
      requires Valid() && info.id < |records| && records[info.id] == info
      modifies roundRobinCache
      ensures Valid()
      ensures Ids(roundRobinCache.cache) == RR.PutAll(old(Ids(roundRobinCache.cache)), hosts, info.id, clock, base)
    {
      ghost var c: Cache<string, nat> := Ids(roundRobinCache.cache);
      for i := 0 to |hosts|
        invariant Valid()
        invariant Ids(roundRobinCache.cache) == RR.PutAll(c, hosts[..i], info.id, clock, base)
      {
        RR.PutStep(c, hosts, i, info.id, clock, base);
        IdsStored(roundRobinCache.cache, hosts[i].host, info, DEFAULT_EXPIRATION_SEC, clock(base + i));
        roundRobinCache.Put(hosts[i].host, info, DEFAULT_EXPIRATION_SEC, clock(base + i));
      }
      assert hosts[..|hosts|] == hosts;
    }

    method FindHost(name: string, now: int) returns (found: bool)
      requires Valid()
      modifies roundRobinCache
      ensures Valid()
      ensures found == Live(old(Ids(roundRobinCache.cache)), name, now)
      ensures Ids(roundRobinCache.cache) == Accessed(old(Ids(roundRobinCache.cache)), name, now)
    {
      IdsAccessed(roundRobinCache.cache, name, now);
      found := roundRobinCache.Find(name, now);
    }

    /** The `copy_if` over `Find`. */
    method CachedHosts(hosts: seq<HostInfo>, clock: RR.Clock) returns (cached: seq<HostInfo>)
      requires Valid()
      modifies roundRobinCache
      ensures Valid()
      ensures Ids(roundRobinCache.cache) == RR.FindAll(old(Ids(roundRobinCache.cache)), hosts, clock)
      ensures var hit := RR.FirstHit(old(Ids(roundRobinCache.cache)), hosts, clock);
              if hit == |hosts| then cached == [] else cached != [] && cached[0] == hosts[hit]
    {
      hide Valid, Ids, Accessed;
      cached := [];
      ghost var c: Cache<string, nat> := Ids(roundRobinCache.cache);
      for i := 0 to |hosts|
        invariant Valid()
        invariant Ids(roundRobinCache.cache) == RR.FindAll(c, hosts[..i], clock)
        invariant var hit := RR.FirstHit(c, hosts[..i], clock);
                  if hit == i then cached == [] else cached != [] && cached[0] == hosts[hit]
      {
        RR.FindStep(c, hosts, i, clock);
        var found := FindHost(hosts[i].host, clock(i + 1));
        if found {
          cached := cached + [hosts[i]];
        }
      }
      assert hosts[..|hosts|] == hosts;
    }

    static method InitRecord(info: ClusterInfo, props: Props) returns (ok: bool)
      requires info.Value() == RR.FRESH_INFO
      modifies info
      ensures (info.Value(), ok) == RR.Created(props)
    {
      ok := UpdatePropsDefaultWeight(info, props);
      if ok {
        ok := UpdatePropsHostWeight(info, props);
      }
    }

    static method RefreshRecord(info: ClusterInfo, props: Props) returns (ok: bool)
      modifies info
      ensures (info.Value(), ok) == RR.Refreshed(old(info.Value()), props)
    {
      if CheckPropChange(info.lastDefaultWeightText, DEFAULT_WEIGHT_KEY, props) {
        info.defaultWeight := 1;
        ok := UpdatePropsDefaultWeight(info, props);
        if !ok {
          return;
        }
      }
      ok := true;
      if CheckPropChange(info.lastHostWeightText, HOST_WEIGHT_KEY, props) {
        info.lastHost := None;
        info.weightCounter := 0;
        ok := UpdatePropsHostWeight(info, props);
      }
    }

    method NewEntry(hosts: seq<HostInfo>, props: Props, clock: RR.Clock) returns (ok: bool)
      requires Valid()
      modifies this, roundRobinCache
      ensures Valid()
      ensures (Contents(), ok) == RR.NewEntry(old(Contents()), hosts, props, clock)
      ensures Grown(old(records))
    {
      ghost var infos := Values(records);
      var info := new ClusterInfo(|records|);
      ok := InitRecord(info, props);
      records := records + [info];
      assert Values(records) == infos + [info.Value()];
      if ok {
        UpdateCache(hosts, info, clock, |hosts| + 2);
      }
    }

    /** `None` when the record is gone: the source would dereference null. */
    method ReuseEntry(key: string, hosts: seq<HostInfo>, props: Props, clock: RR.Clock) returns (ok: Option<bool>)
      requires Valid()
      modifies roundRobinCache, records
      ensures Valid() && records == old(records)
      ensures (Contents(), ok) == RT.TryReuse(old(Contents()), key, hosts, props, clock)
    {
      hide RR.PutAll, RR.Refreshed;
      ghost var infos, entries := Values(records), roundRobinCache.cache;
      IdsAccessed(entries, key, clock(|hosts| + 1));
      var entry := roundRobinCache.Get(key, clock(|hosts| + 1));
      if entry.None? {
        assert Values(records) == infos;
        return None;
      }
      var info := entry.value;
      var accepted := RefreshRecord(info, props);
      assert Values(records) == infos[info.id := info.Value()];
      if accepted {
        UpdateCache(hosts, info, clock, |hosts| + 2);
      }
      ok := Some(accepted);
    }

    /** Sweeps the cache, then looks every host up. */
    method SweepAndFind(hosts: seq<HostInfo>, clock: RR.Clock) returns (cached: seq<HostInfo>)
      requires Valid()
      modifies roundRobinCache
      ensures Valid()
      ensures Contents() == RT.Swept(old(Contents()), hosts, clock)
      ensures var hit := RR.FirstHit(Purged(old(Contents()).cache, clock(0)), hosts, clock);
              if hit == |hosts| then cached == [] else cached != [] && cached[0] == hosts[hit]
    {
      hide RR.FindAll, RR.FirstHit;
      ghost var s := Contents();
      var size := roundRobinCache.Size(clock(0));
      assert Ids(roundRobinCache.cache) == Purged(s.cache, clock(0));
      cached := CachedHosts(hosts, clock);
      assert Values(records) == s.infos;
    }

    method CreateCacheEntries(hosts: seq<HostInfo>, props: Props, clock: RR.Clock) returns (ok: Option<bool>)
      requires Valid() && hosts != []
      modifies this, roundRobinCache, records
      ensures Valid()
      ensures (Contents(), ok) == RT.TryCreateEntries(old(Contents()), hosts, props, clock)
      ensures Grown(old(records))
    {
      hide RR.FindAll, RR.FirstHit, RR.NewEntry, RT.TryReuse, RT.Swept;
      var cached := SweepAndFind(hosts, clock);
      if cached == [] {
        var accepted := NewEntry(hosts, props, clock);
        ok := Some(accepted);
      } else {
        ok := ReuseEntry(cached[0].host, hosts, props, clock);
      }
    }

    /** The search for the last host served, and the choice of the next one. */
    static method Advance(info: ClusterInfo, selection: seq<HostInfo>) returns (targetHostIdx: nat)
      requires selection != []
      modifies info
      ensures targetHostIdx == RR.Target(old(info.Value()), selection)
      ensures info.Value() == RR.Advanced(old(info.Value()), selection)
    {
      var lastHostIdx := -1;
      if info.lastHost.Some? {
        for i := 0 to |selection|
          invariant -1 <= lastHostIdx < i
          invariant lastHostIdx >= 0 ==> selection[lastHostIdx].host == info.lastHost.value.host
          invariant forall j | lastHostIdx < j < i :: selection[j].host != info.lastHost.value.host
        {
          if selection[i].host == info.lastHost.value.host {
            lastHostIdx := i;
          }
        }
      }
      assert (if lastHostIdx == -1 then |selection| else lastHostIdx) == RR.LastIndex(selection, info.lastHost);

      if info.weightCounter > 0 && lastHostIdx != -1 {
        targetHostIdx := lastHostIdx;
      } else {
        if lastHostIdx != -1 && lastHostIdx != |selection| - 1 {
          targetHostIdx := lastHostIdx + 1;
        } else {
          targetHostIdx := 0;
        }
        var weight := info.defaultWeight;
        if selection[targetHostIdx].host in info.clusterWeightMap {
          weight := info.clusterWeightMap[selection[targetHostIdx].host];
        }
        info.weightCounter := weight;
      }
      info.weightCounter := info.weightCounter - 1;
      info.lastHost := Some(selection[targetHostIdx]);
    }

    /** `NullDereferenced` when the record is gone. */
    method Rotate(selection: seq<HostInfo>, clock: RR.Clock) returns (answer: RT.Answer)
      requires Valid() && selection != []
      modifies roundRobinCache, records
      ensures Valid() && records == old(records)
      ensures (Contents(), answer) == RT.TryRotate(old(Contents()), selection, clock)
    {
      ghost var infos, entries := Values(records), roundRobinCache.cache;
      IdsAccessed(entries, selection[0].host, clock(2 * |selection| + 2));
      var entry := roundRobinCache.Get(selection[0].host, clock(2 * |selection| + 2));
      if entry.None? {
        assert Values(records) == infos;
        return RT.NullDereferenced;
      }
      var info := entry.value;
      var i := Advance(info, selection);
      assert Values(records) == infos[info.id := info.Value()];
      answer := RT.Returned(Ok(selection[i]));
    }

    /** `sel` is the order the sort chose; it matters only when names repeat. */
    method GetHost(hosts: seq<HostInfo>, isWriter: bool, props: Props, clock: RR.Clock)
      returns (answer: RT.Answer, ghost sel: seq<HostInfo>)
      requires Valid()
      modifies this, roundRobinCache, records
      ensures Valid()
      ensures RR.SortedSelection(sel, hosts, isWriter)
      ensures (Contents(), answer) == RT.Attempt(old(Contents()), sel, props, clock)
    {
      hide RT.TryCreateEntries, RT.TryRotate;
      var selection := SortedHosts(hosts, isWriter);
      sel := selection;
      if selection == [] {
        return RT.Returned(Throws), sel;
      }
      var ok := CreateCacheEntries(selection, props, clock);
      if ok.None? {
        return RT.NullDereferenced, sel;
      }
      if !ok.value {
        return RT.Returned(Throws), sel;
      }
      answer := Rotate(selection, clock);
    }
  }
}
