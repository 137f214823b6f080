/** The weighted round-robin scheduler of src/host_selector/round_robin_host_selector.cc, on values.

    Records are shared between host names; here a record is an index into `infos` and the cache maps names to
    indices.  The class in RoundRobinHostSelector.dfy is proved to compute exactly these functions. */
module RoundRobin {
  import opened Basics
  import opened Hosts
  import opened SlidingCache
  import opened RoundRobinWeights

  datatype Info = Info(
    lastHost: Option<HostInfo>,
    weights: map<string, int>,
    defaultWeight: int,
    counter: int,
    lastDefaultText: string,
    lastWeightText: string)

  const FRESH_INFO: Info := Info(None, map[], 1, 0, "", "")

  datatype Store = Store(cache: Cache<string, nat>, infos: seq<Info>)

  const EMPTY_STORE: Store := Store(map[], [])

  /** The clock readings of one call: 0 for `Size`, 1..n for the `Find`s, n + 1 for the first `Get`,
      n + 2..2n + 1 for the `Put`s and 2n + 2 for the last `Get`. */
  type Clock = nat -> int

  ghost predicate Monotone(clock: Clock) {
    forall i: nat, j: nat | i <= j :: clock(i) <= clock(j)
  }

  /** Less than the time to live passes inside one call on `n` hosts, so no entry it relies on expires. */
  predicate ShortCall(clock: Clock, n: nat) {
    clock(2 * n + 2) - clock(0) < DEFAULT_EXPIRATION_SEC * NANOS_PER_SECOND
  }

  /** Every entry was stored with the default time to live and points at an existing record. */
  ghost predicate ValidCache(c: Cache<string, nat>, records: nat) {
    forall k | k in c :: c[k].value < records && c[k].ttl == DEFAULT_EXPIRATION_SEC
  }

  ghost predicate ValidStore(s: Store) {
    ValidCache(s.cache, |s.infos|)
  }

  /** The readings of one call on `n` hosts. */
  ghost predicate GoodClock(clock: Clock, n: nat) {
    Monotone(clock) && ShortCall(clock, n)
  }

  // ---- selection and order ----

  predicate Eligible(h: HostInfo, isWriter: bool) {
    h.IsUp() && (isWriter ==> h.isWriter)
  }

  function Selection(hosts: seq<HostInfo>, isWriter: bool): (sel: seq<HostInfo>)
    ensures forall h :: h in sel <==> h in hosts && Eligible(h, isWriter)
  {
    if hosts == [] then []
    else (if Eligible(hosts[0], isWriter) then [hosts[0]] else []) + Selection(hosts[1..], isWriter)
  }

  /** The selection holds the hosts that are up and, if a writer is wanted, writers, as often as the list does. */
  lemma {:induction false} SelectionCounts(hosts: seq<HostInfo>, isWriter: bool, h: HostInfo)
    ensures multiset(Selection(hosts, isWriter))[h] ==
            if h.state == Up && (isWriter ==> h.isWriter) then multiset(hosts)[h] else 0
  {
    if hosts != [] {
      SelectionCounts(hosts[1..], isWriter, h);
      SplitFirst(hosts);
    }
  }

  predicate SortedByName(s: seq<HostInfo>) {
    forall i, j | 0 <= i < j < |s| :: !Less(s[j].host, s[i].host)
  }

  /** What `std::sort` may produce; the order of equal names is its own choice. */
  ghost predicate SortedSelection(sel: seq<HostInfo>, hosts: seq<HostInfo>, isWriter: bool) {
    SortedByName(sel) && multiset(sel) == multiset(Selection(hosts, isWriter))
  }

  // ---- properties ----

  function UpdateDefaultWeight(info: Info, props: Props): (Info, bool) {
    if DEFAULT_WEIGHT_KEY !in props then (info.(defaultWeight := DEFAULT_WEIGHT), true)
    else
      match ConvertToInt(props[DEFAULT_WEIGHT_KEY])
      case Some(w) =>
        if w < DEFAULT_WEIGHT then (info, false)
        // the key, not its value, is what gets recorded
        else (info.(lastDefaultText := DEFAULT_WEIGHT_KEY, defaultWeight := w), true)
      case None => (info, false)
  }

  function UpdateHostWeight(info: Info, props: Props): (Info, bool) {
    if HOST_WEIGHT_KEY !in props then (info, true)
    else
      var text := props[HOST_WEIGHT_KEY];
      if text == "" then (info.(weights := map[], lastWeightText := ""), true)
      else RecordGroups(info, Lines(text, ','), text)
  }

  /** Every accepted group is stored at once, together with the whole text it came from. */
  function RecordGroups(info: Info, groups: seq<string>, text: string): (Info, bool)
    decreases |groups|
  {
    if groups == [] then (info, true)
    else
      match ParsePair(groups[0])
      case Some(pair) =>
        RecordGroups(info.(weights := info.weights[pair.0 := pair.1], lastWeightText := text), groups[1..], text)
      case None => (info, false)
  }

  lemma {:induction false} RecordGroupsReads(info: Info, groups: seq<string>, text: string)
    ensures var ((after, ok), (read, ok')) := (RecordGroups(info, groups, text), ReadGroups(info.weights, groups));
            ok == ok' && after.weights == read && after.defaultWeight == info.defaultWeight
    decreases |groups|
  {
    if groups != [] && ParsePair(groups[0]).Some? {
      var pair := ParsePair(groups[0]).value;
      RecordGroupsReads(info.(weights := info.weights[pair.0 := pair.1], lastWeightText := text), groups[1..], text);
    }
  }

  /** `update_props_host_weight` on a new record restores what `SetRoundRobinWeight` printed, the last listing of a
      name winning, and throws exactly when some weight is 0 or does not fit an `int`. */
  lemma PrintedWeightsAreRead(props: Props, hosts: seq<HostInfo>)
    requires forall h | h in hosts :: CleanName(h.host)
    ensures var (info, ok) := UpdateHostWeight(FRESH_INFO, props[HOST_WEIGHT_KEY := Print(hosts)]);
            && (ok <==> forall h | h in hosts :: Accepted(h))
            && (ok ==> info.weights == WeightsOf(map[], hosts))
  {
    WeightTextRoundTrip(map[], hosts);
    RecordGroupsReads(FRESH_INFO, Lines(Print(hosts), ','), Print(hosts));
  }

  /** On any record a printed non-empty list takes effect on top of the weights recorded, and is accepted exactly when
      every weight is in range. */
  lemma PrintedWeightsTaken(info: Info, props: Props, hosts: seq<HostInfo>)
    requires hosts != [] && (forall h | h in hosts :: CleanName(h.host))
    requires HOST_WEIGHT_KEY in props && props[HOST_WEIGHT_KEY] == Print(hosts)
    ensures var (after, ok) := UpdateHostWeight(info, props);
            && (ok <==> forall h | h in hosts :: Accepted(h))
            && (ok ==> after == info.(weights := WeightsOf(info.weights, hosts), lastWeightText := Print(hosts)))
  {
    PrintEnds(hosts);
    WeightTextRoundTrip(info.weights, hosts);
    RecordGroupsReads(info, Lines(Print(hosts), ','), Print(hosts));
    LinesMean(Print(hosts), ',');
    hide Lines, Print, ReadGroups;
    RecordGroupsRest(info, Lines(Print(hosts), ','), Print(hosts));
  }

  lemma {:induction false} RecordGroupsRest(info: Info, groups: seq<string>, text: string)
    ensures var (after, ok) := RecordGroups(info, groups, text);
            ok ==> after == info.(weights := after.weights,
                                  lastWeightText := if groups == [] then info.lastWeightText else text)
    decreases |groups|
  {
    if groups != [] && ParsePair(groups[0]).Some? {
      var pair := ParsePair(groups[0]).value;
      RecordGroupsRest(info.(weights := info.weights[pair.0 := pair.1], lastWeightText := text), groups[1..], text);
    }
  }

  /** An empty text forgets all weights, and without a text nothing changes. */
  lemma NoWeightsGiven(info: Info, props: Props)
    ensures HOST_WEIGHT_KEY !in props ==> UpdateHostWeight(info, props) == (info, true)
    ensures HOST_WEIGHT_KEY in props && props[HOST_WEIGHT_KEY] == "" ==>
              UpdateHostWeight(info, props) == (info.(weights := map[], lastWeightText := ""), true)
  {
  }

  /** A bad group makes the call throw after the groups before it have taken effect. */
  lemma BadWeightsStop(info: Info, props: Props, good: seq<HostInfo>, bad: string, rest: seq<string>)
    requires (forall h | h in good :: CleanName(h.host) && Accepted(h)) && ParsePair(bad).None?
    requires HOST_WEIGHT_KEY in props && props[HOST_WEIGHT_KEY] != ""
    requires Lines(props[HOST_WEIGHT_KEY], ',') == Lines(Print(good), ',') + [bad] + rest
    ensures var (after, ok) := UpdateHostWeight(info, props); !ok && after.weights == WeightsOf(info.weights, good)
  {
    BadGroupStops(info.weights, good, bad, rest);
    RecordGroupsReads(info, Lines(props[HOST_WEIGHT_KEY], ','), props[HOST_WEIGHT_KEY]);
  }

  /** A default weight is accepted exactly when it is a number of at least 1, and then in force; without one it is 1. */
  lemma DefaultWeightTaken(info: Info, props: Props)
    ensures var (after, ok) := UpdateDefaultWeight(info, props);
            if DEFAULT_WEIGHT_KEY !in props then ok && after.defaultWeight == 1
            else
              var given := ConvertToInt(props[DEFAULT_WEIGHT_KEY]);
              && (ok <==> given.Some? && given.value >= 1)
              && (if ok then given == Some(after.defaultWeight) else after == info)
  {
    hide ConvertToInt;
  }

  predicate PropChanged(recorded: string, key: string, props: Props) {
    key in props && recorded != props[key]
  }

  /** How an existing record takes in the properties of a call. */
  function Refreshed(info: Info, props: Props): (Info, bool) {
    var (info1, ok1) :=
      if PropChanged(info.lastDefaultText, DEFAULT_WEIGHT_KEY, props)
      then UpdateDefaultWeight(info.(defaultWeight := 1), props)
      else (info, true);
    if !ok1 then (info1, false)
    else if PropChanged(info1.lastWeightText, HOST_WEIGHT_KEY, props)
    then UpdateHostWeight(info1.(lastHost := None, counter := 0), props)
    else (info1, true)
  }

  /** A default weight that differs from the text recorded is read again: a good one replaces the old and the rest of
      the update follows, a bad one leaves 1 and stops it. */
  lemma NewDefaultReplaces(info: Info, props: Props)
    requires DEFAULT_WEIGHT_KEY in props
    ensures var others, given := props - {DEFAULT_WEIGHT_KEY}, ConvertToInt(props[DEFAULT_WEIGHT_KEY]);
            Refreshed(info, props) ==
            if props[DEFAULT_WEIGHT_KEY] == info.lastDefaultText then Refreshed(info, others)
            else if given.Some? && given.value >= 1 then
              Refreshed(info.(defaultWeight := given.value, lastDefaultText := DEFAULT_WEIGHT_KEY), others)
            else (info.(defaultWeight := 1), false)
  {
    assert |DEFAULT_WEIGHT_KEY| != |HOST_WEIGHT_KEY|;
    hide ConvertToInt, RecordGroups;
  }

  /** New printed weights reach an existing record: they take effect, and the rotation starts over. */
  lemma NewWeightsReplace(info: Info, props: Props, hosts: seq<HostInfo>)
    requires hosts != [] && (forall h | h in hosts :: CleanName(h.host) && Accepted(h))
    requires DEFAULT_WEIGHT_KEY !in props && HOST_WEIGHT_KEY in props && props[HOST_WEIGHT_KEY] == Print(hosts)
    requires info.lastWeightText != Print(hosts)
    ensures Refreshed(info, props) ==
            (info.(weights := WeightsOf(info.weights, hosts), lastWeightText := Print(hosts), lastHost := None,
                   counter := 0),
             true)
  {
    PrintedWeightsTaken(info.(lastHost := None, counter := 0), props, hosts);
  }

  /** How a new record takes in the properties of the call that creates it. */
  function Created(props: Props): (Info, bool) {
    var (info1, ok1) := UpdateDefaultWeight(FRESH_INFO, props);
    if ok1 then UpdateHostWeight(info1, props) else (info1, false)
  }

  // ---- the cache ----

  /** Looks up every host in turn, host `i` at reading `clock(i + 1)`. */
  function FindAll<V>(c: Cache<string, V>, hosts: seq<HostInfo>, clock: Clock): Cache<string, V> {
    if hosts == [] then c
    else Accessed(FindAll(c, hosts[..|hosts| - 1], clock), hosts[|hosts| - 1].host, clock(|hosts|))
  }

  /** The first host whose lookup hits; the number of hosts when none does. */
  function FirstHit<V>(c: Cache<string, V>, hosts: seq<HostInfo>, clock: Clock): (i: nat)
    ensures i <= |hosts|
  {
    if hosts == [] then 0
    else
      var n := |hosts| - 1;
      var i := FirstHit(c, hosts[..n], clock);
      if i < n || Live(FindAll(c, hosts[..n], clock), hosts[n].host, clock(n + 1)) then i else n + 1
  }

  /** The first hit is one, and no earlier lookup hits. */
  lemma {:induction false} FirstHitMeans<V>(c: Cache<string, V>, hosts: seq<HostInfo>, clock: Clock, j: nat)
    requires j < |hosts| && j <= FirstHit(c, hosts, clock)
    ensures Live(FindAll(c, hosts[..j], clock), hosts[j].host, clock(j + 1)) <==> j == FirstHit(c, hosts, clock)
  {
    var n := |hosts| - 1;
    if j < n {
      assert hosts[..n][..j] == hosts[..j];
      FirstHitMeans(c, hosts[..n], clock, j);
    }
  }

  /** Points every host at one record, host `i` at reading `clock(base + i)`. */
  function PutAll<V>(c: Cache<string, V>, hosts: seq<HostInfo>, v: V, clock: Clock, base: nat): Cache<string, V> {
    if hosts == [] then c
    else
      var n := |hosts| - 1;
      Stored(PutAll(c, hosts[..n], v, clock, base), hosts[n].host, v, DEFAULT_EXPIRATION_SEC, clock(base + n))
  }

  lemma FindStep<V>(c: Cache<string, V>, hosts: seq<HostInfo>, i: nat, clock: Clock)
    requires i < |hosts|
    ensures var f := FindAll(c, hosts[..i], clock);
            && FindAll(c, hosts[..i + 1], clock) == Accessed(f, hosts[i].host, clock(i + 1))
            && FirstHit(c, hosts[..i + 1], clock) ==
               var hit := FirstHit(c, hosts[..i], clock);
               if hit < i || Live(f, hosts[i].host, clock(i + 1)) then hit else i + 1
  {
    assert hosts[..i + 1][..i] == hosts[..i];
  }

  lemma PutStep<V>(c: Cache<string, V>, hosts: seq<HostInfo>, i: nat, v: V, clock: Clock, base: nat)
    requires i < |hosts|
    ensures PutAll(c, hosts[..i + 1], v, clock, base) ==
            Stored(PutAll(c, hosts[..i], v, clock, base), hosts[i].host, v, DEFAULT_EXPIRATION_SEC, clock(base + i))
  {
    assert hosts[..i + 1][..i] == hosts[..i];
  }

  /** A hit is still live when the call ends, with the record it had. */
  lemma {:induction false} HitStays(c: Cache<string, nat>, hosts: seq<HostInfo>, clock: Clock, records: nat, end: int)
    requires ValidCache(c, records) && Monotone(clock)
    requires clock(|hosts|) <= end < ExpiryAt(clock(0), DEFAULT_EXPIRATION_SEC)
    ensures var f, i := FindAll(c, hosts, clock), FirstHit(c, hosts, clock);
            && ValidCache(f, records)
            && (i < |hosts| ==>
                  var key := hosts[i].host;
                  key in c && Live(f, key, end) && f[key].value == c[key].value)
  {
    if hosts != [] {
      var n := |hosts| - 1;
      HitStays(c, hosts[..n], clock, records, end);
      FindAllKeeps(c, hosts[..n], clock, hosts[n].host);
      assert clock(0) <= clock(n + 1);
    }
  }

  lemma {:induction false} FindAllKeeps<V>(c: Cache<string, V>, hosts: seq<HostInfo>, clock: Clock, k: string)
    ensures var f := FindAll(c, hosts, clock);
            k in f ==> k in c && f[k].value == c[k].value && f[k].ttl == c[k].ttl
  {
    if hosts != [] {
      FindAllKeeps(c, hosts[..|hosts| - 1], clock, k);
    }
  }

  /** After the `Put`s every listed name is live until the call ends and points at `v`; no other name moved. */
  lemma {:induction false} PutAllEffect<V>(c: Cache<string, V>, hosts: seq<HostInfo>, v: V, clock: Clock,
                                           base: nat, end: int)
    requires Monotone(clock) && end < ExpiryAt(clock(base), DEFAULT_EXPIRATION_SEC)
    ensures var p := PutAll(c, hosts, v, clock, base);
            forall k :: if k in Names(hosts)
                        then Live(p, k, end) && p[k].value == v && p[k].ttl == DEFAULT_EXPIRATION_SEC
                        else (k in p <==> k in c) && (k in p ==> p[k] == c[k])
  {
    if hosts != [] {
      var n := |hosts| - 1;
      PutAllEffect(c, hosts[..n], v, clock, base, end);
      assert Names(hosts) == Names(hosts[..n]) + {hosts[n].host};
      assert clock(base) <= clock(base + n);
    }
  }

  /** No host was found: one new record for all of them.  When the properties are bad the record exists, but
      nothing points at it. */
  function NewEntry(s: Store, sel: seq<HostInfo>, props: Props, clock: Clock): (Store, bool) {
    var (info, ok) := Created(props);
    (Store(if ok then PutAll<nat>(s.cache, sel, |s.infos|, clock, |sel| + 2) else s.cache, s.infos + [info]), ok)
  }

  /** The record of the first host found, for all of them. */
  function ReuseEntry(s: Store, key: string, sel: seq<HostInfo>, props: Props, clock: Clock): (Store, bool)
    requires ValidStore(s) && key in s.cache
  {
    var id := s.cache[key].value;
    var (info, ok) := Refreshed(s.infos[id], props);
    var got: Cache<string, nat> := Accessed(s.cache, key, clock(|sel| + 1));
    (Store(if ok then PutAll<nat>(got, sel, id, clock, |sel| + 2) else got, s.infos[id := info]), ok)
  }

  function Found(s: Store, sel: seq<HostInfo>, clock: Clock): (f: Store)
    requires ValidStore(s) && GoodClock(clock, |sel|)
    ensures ValidStore(f)
    ensures var hit := FirstHit(Purged(s.cache, clock(0)), sel, clock);
            hit < |sel| ==> sel[hit].host in f.cache
  {
    HitStays(Purged(s.cache, clock(0)), sel, clock, |s.infos|, clock(2 * |sel| + 2));
    Store(FindAll<nat>(Purged(s.cache, clock(0)), sel, clock), s.infos)
  }

  /** `create_cache_entries`. */
  function CreateEntries(s: Store, sel: seq<HostInfo>, props: Props, clock: Clock): (Store, bool)
    requires ValidStore(s) && GoodClock(clock, |sel|)
  {
    var hit := FirstHit(Purged(s.cache, clock(0)), sel, clock);
    if hit == |sel| then NewEntry(Found(s, sel, clock), sel, props, clock)
    else ReuseEntry(Found(s, sel, clock), sel[hit].host, sel, props, clock)
  }

  /** What `create_cache_entries` leaves behind: on success all selected names share one record, live at `end`,
      and no other record changed; either way the store stays valid and the other names keep what they had. */
  ghost predicate Linked(s: Store, s1: Store, ok: bool, sel: seq<HostInfo>, end: int)
    requires sel != []
  {
    && ValidStore(s1) && |s.infos| <= |s1.infos|
    && (ok ==> sel[0].host in s1.cache && SharedRecord(s, s1, s1.cache[sel[0].host].value, sel, end))
    && (forall k | k !in Names(sel) && k in s.cache :: k in s1.cache && s1.cache[k] == s.cache[k])
  }

  ghost predicate SharedRecord(s: Store, s1: Store, id: nat, sel: seq<HostInfo>, end: int)
    requires |s.infos| <= |s1.infos|
  {
    && (forall k | k in Names(sel) :: Live(s1.cache, k, end) && s1.cache[k].value == id)
    && (forall i | 0 <= i < |s.infos| && i != id :: s1.infos[i] == s.infos[i])
  }

  /** Properties that are not accepted move no name to another record. */
  lemma RejectedMovesNothing(s: Store, sel: seq<HostInfo>, props: Props, clock: Clock)
    requires ValidStore(s) && GoodClock(clock, |sel|)
    ensures var (s1, ok) := CreateEntries(s, sel, props, clock);
            !ok ==> forall k | k in s1.cache :: k in s.cache && s1.cache[k].value == s.cache[k].value
  {
    hide Created, Refreshed, PutAll;
    var purged: Cache<string, nat> := Purged(s.cache, clock(0));
    forall k | k in FindAll(purged, sel, clock)
      ensures k in s.cache && FindAll(purged, sel, clock)[k].value == s.cache[k].value
    {
      FindAllKeeps(purged, sel, clock, k);
    }
  }

  lemma NewEntryLinks(s: Store, sel: seq<HostInfo>, props: Props, clock: Clock)
    requires ValidStore(s) && GoodClock(clock, |sel|) && sel != []
    ensures var (s1, ok) := NewEntry(s, sel, props, clock);
            Linked(s, s1, ok, sel, clock(2 * |sel| + 2)) && (ok ==> s1.cache[sel[0].host].value == |s.infos|)
  {
    assert clock(0) <= clock(|sel| + 2) && sel[0].host in Names(sel);
    PutAllEffect<nat>(s.cache, sel, |s.infos|, clock, |sel| + 2, clock(2 * |sel| + 2));
  }

  lemma ReuseEntryLinks(s: Store, key: string, sel: seq<HostInfo>, props: Props, clock: Clock)
    requires ValidStore(s) && GoodClock(clock, |sel|) && sel != []
    requires key in s.cache && key in Names(sel)
    ensures var (s1, ok) := ReuseEntry(s, key, sel, props, clock);
            Linked(s, s1, ok, sel, clock(2 * |sel| + 2)) && (ok ==> s1.cache[sel[0].host].value == s.cache[key].value)
  {
    assert clock(0) <= clock(|sel| + 2) && sel[0].host in Names(sel);
    var got: Cache<string, nat> := Accessed(s.cache, key, clock(|sel| + 1));
    PutAllEffect<nat>(got, sel, s.cache[key].value, clock, |sel| + 2, clock(2 * |sel| + 2));
  }

  lemma CreateEntriesLinks(s: Store, sel: seq<HostInfo>, props: Props, clock: Clock)
    requires ValidStore(s) && GoodClock(clock, |sel|) && sel != []
    ensures var (s1, ok) := CreateEntries(s, sel, props, clock);
            Linked(Store(Purged(s.cache, clock(0)), s.infos), s1, ok, sel, clock(2 * |sel| + 2))
  {
    var purged: Cache<string, nat> := Purged(s.cache, clock(0));
    HitStays(purged, sel, clock, |s.infos|, clock(2 * |sel| + 2));
    var found: Cache<string, nat> := FindAll(purged, sel, clock);
    var hit := FirstHit(purged, sel, clock);
    forall k | k !in Names(sel)
      ensures (k in found <==> k in purged) && (k in found ==> found[k] == purged[k])
    {
      FindAllOthers(purged, sel, clock, k);
    }
    if hit == |sel| {
      NewEntryLinks(Store(found, s.infos), sel, props, clock);
    } else {
      assert sel[hit].host in Names(sel);
      ReuseEntryLinks(Store(found, s.infos), sel[hit].host, sel, props, clock);
    }
  }

  lemma EntriesLive(s: Store, sel: seq<HostInfo>, props: Props, clock: Clock)
    requires ValidStore(s) && GoodClock(clock, |sel|) && sel != []
    ensures var (s1, ok) := CreateEntries(s, sel, props, clock);
            ok ==> Live(s1.cache, sel[0].host, clock(2 * |sel| + 2))
  {
    CreateEntriesLinks(s, sel, props, clock);
    assert sel[0].host in Names(sel);
  }

  /** The record a call works on: the one of the first host found, or a new one. */
  function RecordUsed(s: Store, sel: seq<HostInfo>, clock: Clock): nat
    requires ValidStore(s) && GoodClock(clock, |sel|)
  {
    var hit := FirstHit(Purged(s.cache, clock(0)), sel, clock);
    if hit == |sel| then |s.infos| else Found(s, sel, clock).cache[sel[hit].host].value
  }

  lemma EntriesUseRecord(s: Store, sel: seq<HostInfo>, props: Props, clock: Clock)
    requires ValidStore(s) && GoodClock(clock, |sel|) && sel != []
    ensures var (s1, ok) := CreateEntries(s, sel, props, clock);
            ok ==> sel[0].host in s1.cache && s1.cache[sel[0].host].value == RecordUsed(s, sel, clock)
  {
    var f := Found(s, sel, clock);
    var hit := FirstHit(Purged(s.cache, clock(0)), sel, clock);
    if hit == |sel| {
      NewEntryLinks(f, sel, props, clock);
    } else {
      assert sel[hit].host in Names(sel);
      ReuseEntryLinks(f, sel[hit].host, sel, props, clock);
    }
  }

  lemma {:induction false} FindAllOthers<V>(c: Cache<string, V>, hosts: seq<HostInfo>, clock: Clock, k: string)
    requires k !in Names(hosts)
    ensures var f := FindAll(c, hosts, clock);
            (k in f <==> k in c) && (k in f ==> f[k] == c[k])
  {
    if hosts != [] {
      assert hosts[|hosts| - 1].host in Names(hosts);
      FindAllOthers(c, hosts[..|hosts| - 1], clock, k);
    }
  }

  // ---- the rotation ----

  /** The last position holding the remembered host; the number of hosts when there is none. */
  function LastIndex(sel: seq<HostInfo>, lastHost: Option<HostInfo>): (i: nat)
    ensures i <= |sel|
    ensures i < |sel| ==> lastHost.Some? && sel[i].host == lastHost.value.host
    ensures forall j | 0 <= j < |sel| && lastHost.Some? && sel[j].host == lastHost.value.host :: j <= i < |sel|
  {
    if lastHost.None? then |sel| else LastIndexOf(sel, lastHost.value.host, |sel|)
  }

  function LastIndexOf(sel: seq<HostInfo>, name: string, n: nat): (i: nat)
    requires n <= |sel|
    ensures i < n || i == |sel|
    ensures i < n ==> sel[i].host == name && forall j | i < j < n :: sel[j].host != name
    ensures i == |sel| ==> forall j | 0 <= j < n :: sel[j].host != name
  {
    if n == 0 then |sel| else if sel[n - 1].host == name then n - 1 else LastIndexOf(sel, name, n - 1)
  }

  function WeightIn(info: Info, name: string): int {
    if name in info.weights then info.weights[name] else info.defaultWeight
  }

  /** The next position to serve. */
  function Target(info: Info, sel: seq<HostInfo>): (i: nat)
    requires sel != []
    ensures i < |sel|
  {
    var last := LastIndex(sel, info.lastHost);
    if info.counter > 0 && last < |sel| then last
    else if last < |sel| - 1 then last + 1 else 0
  }

  function Advanced(info: Info, sel: seq<HostInfo>): Info
    requires sel != []
  {
    var i := Target(info, sel);
    var stays := info.counter > 0 && LastIndex(sel, info.lastHost) < |sel|;
    info.(lastHost := Some(sel[i]), counter := (if stays then info.counter else WeightIn(info, sel[i].host)) - 1)
  }

  function Rotated(s: Store, sel: seq<HostInfo>, clock: Clock): (Store, HostInfo)
    requires ValidStore(s) && sel != [] && sel[0].host in s.cache
  {
    var key := sel[0].host;
    var id := s.cache[key].value;
    (Store(Accessed(s.cache, key, clock(2 * |sel| + 2)), s.infos[id := Advanced(s.infos[id], sel)]),
     sel[Target(s.infos[id], sel)])
  }

  /** One whole call, on the sorted selection. */
  function GetHost(s: Store, sel: seq<HostInfo>, props: Props, clock: Clock): (Store, Result<HostInfo>)
    requires ValidStore(s) && GoodClock(clock, |sel|)
  {
    if sel == [] then (s, Throws)
    else
      var (s1, ok) := CreateEntries(s, sel, props, clock);
      CreateEntriesLinks(s, sel, props, clock);
      assert sel[0].host in Names(sel);
      if !ok then (s1, Throws)
      else
        var (s2, host) := Rotated(s1, sel, clock);
        (s2, Ok(host))
  }

  /** What a call leaves behind.  After a success every selected name points at one record, live until the call
      ends, that remembers the host handed out; no other record changed.  Any call keeps the store valid, and
      names outside the selection lose nothing but entries that had expired. */
  lemma GetHostEffect(s: Store, sel: seq<HostInfo>, props: Props, clock: Clock)
    requires ValidStore(s) && GoodClock(clock, |sel|)
    ensures var (s1, r) := GetHost(s, sel, props, clock);
            && ValidStore(s1) && |s.infos| <= |s1.infos|
            && (r.Ok? ==>
                  && sel != [] && r.value in sel && sel[0].host in s1.cache
                  && var id := s1.cache[sel[0].host].value;
                     && s1.infos[id].lastHost == Some(r.value)
                     && (forall k | k in Names(sel) ::
                           Live(s1.cache, k, clock(2 * |sel| + 2)) && s1.cache[k].value == id)
                     && (forall i | 0 <= i < |s.infos| && i != id :: s1.infos[i] == s.infos[i]))
            && (forall k | k !in Names(sel) && Live(s.cache, k, clock(0)) :: k in s1.cache && s1.cache[k] == s.cache[k])
  {
    if sel != [] {
      CreateEntriesLinks(s, sel, props, clock);
      assert sel[0].host in Names(sel);
    }
  }

  // ---- whole runs ----

  datatype Call = Call(sel: seq<HostInfo>, props: Props, clock: Clock) {
    function Start(): int { clock(0) }
    function End(): int { clock(2 * |sel| + 2) }
  }

  ghost predicate Ready(calls: seq<Call>) {
    && (forall i | 0 <= i < |calls| :: GoodClock(calls[i].clock, |calls[i].sel|))
    && (forall i, j | 0 <= i < j < |calls| :: calls[i].End() <= calls[j].Start())
  }

  /** The store after the calls, and what each of them answered. */
  function RunAll(s: Store, calls: seq<Call>): (r: (Store, seq<Result<HostInfo>>))
    requires ValidStore(s) && Ready(calls)
    ensures ValidStore(r.0) && |r.1| == |calls|
  {
    if calls == [] then (s, [])
    else
      var n := |calls| - 1;
      var (s1, results) := RunAll(s, calls[..n]);
      GetHostEffect(s1, calls[n].sel, calls[n].props, calls[n].clock);
      var (s2, result) := GetHost(s1, calls[n].sel, calls[n].props, calls[n].clock);
      (s2, results + [result])
  }

  lemma RunStep(s: Store, calls: seq<Call>)
    requires ValidStore(s) && calls != [] && Ready(calls)
    ensures var (a, results) := RunAll(s, calls[..|calls| - 1]);
            var c := calls[|calls| - 1];
            var (b, r) := GetHost(a, c.sel, c.props, c.clock);
            RunAll(s, calls) == (b, results + [r])
  {
    hide GetHost;
  }
}
