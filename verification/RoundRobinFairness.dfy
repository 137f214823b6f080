/** Exact weighted fairness, and the sanity of the scheduler's state.

    With fixed properties and a fixed list of distinct up hosts, call k hands out element k mod W of the list in which
    every host, in name order, is repeated as often as it weighs. */
module RoundRobinFairness {
  import opened Basics
  import opened Hosts
  import opened SlidingCache
  import opened RoundRobinWeights
  import opened RoundRobin
  import RT = RoundRobinTiming

  // ---- the state stays sane over all runs, throwing calls included ----

  ghost predicate Sane(info: Info) {
    && 1 <= info.defaultWeight <= INT_MAX
    && (forall k | k in info.weights :: 1 <= info.weights[k] <= INT_MAX)
    && 0 <= info.counter < INT_MAX
  }

  ghost predicate SaneStore(s: Store) {
    forall i | 0 <= i < |s.infos| :: Sane(s.infos[i])
  }

  lemma ConvertFits(s: string)
    ensures ConvertToInt(s).Some? ==> INT_MIN <= ConvertToInt(s).value <= INT_MAX
  {
  }

  lemma {:induction false} RecordGroupsSane(info: Info, groups: seq<string>, text: string)
    requires Sane(info)
    ensures var (after, ok) := RecordGroups(info, groups, text);
            && Sane(after)
            && (ok && groups != [] ==> after.lastWeightText == text)
            && after.lastDefaultText == info.lastDefaultText && after.defaultWeight == info.defaultWeight
            && after.lastHost == info.lastHost && after.counter == info.counter
    decreases |groups|
  {
    if groups != [] && ParsePair(groups[0]).Some? {
      ConvertFits(Lines(groups[0], ':')[1]);
      var pair := ParsePair(groups[0]).value;
      var next := info.(weights := info.weights[pair.0 := pair.1], lastWeightText := text);
      RecordGroupsSane(next, groups[1..], text);
    }
  }

  /** A record that has taken in the properties and needs no update when it meets them again. */
  ghost predicate Settled(info: Info, props: Props) {
    && (PropChanged(info.lastDefaultText, DEFAULT_WEIGHT_KEY, props) ==>
          && info.lastDefaultText == DEFAULT_WEIGHT_KEY
          && ConvertToInt(props[DEFAULT_WEIGHT_KEY]) == Some(info.defaultWeight))
    && !PropChanged(info.lastWeightText, HOST_WEIGHT_KEY, props)
  }

  lemma HostWeightSettles(info: Info, props: Props)
    requires Sane(info)
    ensures var (after, ok) := UpdateHostWeight(info, props);
            && Sane(after)
            && (ok ==> !PropChanged(after.lastWeightText, HOST_WEIGHT_KEY, props))
            && after.lastDefaultText == info.lastDefaultText && after.defaultWeight == info.defaultWeight
            && after.lastHost == info.lastHost && after.counter == info.counter
  {
    if HOST_WEIGHT_KEY in props && props[HOST_WEIGHT_KEY] != "" {
      RecordGroupsSane(info, Lines(props[HOST_WEIGHT_KEY], ','), props[HOST_WEIGHT_KEY]);
    }
  }

  lemma DefaultWeightSettles(info: Info, props: Props)
    requires Sane(info)
    ensures var (after, ok) := UpdateDefaultWeight(info, props);
            && Sane(after)
            && (ok && DEFAULT_WEIGHT_KEY in props ==>
                  && after.lastDefaultText == DEFAULT_WEIGHT_KEY
                  && ConvertToInt(props[DEFAULT_WEIGHT_KEY]) == Some(after.defaultWeight))
            && after.lastHost == info.lastHost && after.counter == info.counter
  {
    if DEFAULT_WEIGHT_KEY in props {
      ConvertFits(props[DEFAULT_WEIGHT_KEY]);
    }
  }

  lemma CreatedSettles(props: Props)
    ensures var (info, ok) := Created(props);
            Sane(info) && (ok ==> Settled(info, props) && info.lastHost == None)
  {
    DefaultWeightSettles(FRESH_INFO, props);
    HostWeightSettles(UpdateDefaultWeight(FRESH_INFO, props).0, props);
  }

  lemma RefreshedSettles(info: Info, props: Props)
    requires Sane(info)
    ensures var (after, ok) := Refreshed(info, props);
            && Sane(after)
            && (ok ==> Settled(after, props))
            && (ok && PropChanged(info.lastWeightText, HOST_WEIGHT_KEY, props) ==> after.lastHost == None)
  {
    DefaultWeightSettles(info.(defaultWeight := 1), props);
    var info1 := if PropChanged(info.lastDefaultText, DEFAULT_WEIGHT_KEY, props)
                 then UpdateDefaultWeight(info.(defaultWeight := 1), props).0 else info;
    HostWeightSettles(info1.(lastHost := None, counter := 0), props);
  }

  lemma SettledStays(info: Info, props: Props)
    requires Sane(info) && Settled(info, props)
    ensures Refreshed(info, props) == (info, true)
  {
  }

  lemma AdvancedSane(info: Info, sel: seq<HostInfo>)
    requires Sane(info) && sel != []
    ensures Sane(Advanced(info, sel))
  {
  }

  lemma EntriesKeepSane(s: Store, sel: seq<HostInfo>, props: Props, clock: Clock)
    requires ValidStore(s) && SaneStore(s)
    ensures SaneStore(RT.TryCreateEntries(s, sel, props, clock).0)
  {
    hide FindAll, FirstHit, PutAll, Sane, Created, Refreshed;
    CreatedSettles(props);
    var f := RT.Swept(s, sel, clock);
    var hit := FirstHit(Purged(s.cache, clock(0)), sel, clock);
    if hit < |sel| && sel[hit].host in f.cache {
      RefreshedSettles(f.infos[f.cache[sel[hit].host].value], props);
    }
  }

  lemma CallKeepsSane(s: Store, sel: seq<HostInfo>, props: Props, clock: Clock)
    requires ValidStore(s) && SaneStore(s)
    ensures SaneStore(RT.Attempt(s, sel, props, clock).0)
  {
    if sel != [] {
      EntriesKeepSane(s, sel, props, clock);
      hide Sane, Advanced, RT.TryCreateEntries;
      var s1 := RT.TryCreateEntries(s, sel, props, clock).0;
      if sel[0].host in s1.cache {
        AdvancedSane(s1.infos[s1.cache[sel[0].host].value], sel);
      }
    }
  }

  /** From any sane store, whatever is called, whatever throws and however long it takes, every stored weight and
      default weight is at least 1 and every counter is non-negative. */
  lemma {:induction false} StateStaysSane(s: Store, calls: seq<Call>)
    requires ValidStore(s) && SaneStore(s)
    ensures SaneStore(RT.AttemptAll(s, calls))
  {
    if calls != [] {
      var c := calls[|calls| - 1];
      StateStaysSane(s, calls[..|calls| - 1]);
      CallKeepsSane(RT.AttemptAll(s, calls[..|calls| - 1]), c.sel, c.props, c.clock);
    }
  }

  // ---- the rotation as a list of positions ----

  function Total(ws: seq<nat>): nat {
    if ws == [] then 0 else Total(ws[..|ws| - 1]) + ws[|ws| - 1]
  }

  function Repeat(i: nat, n: nat): seq<nat> {
    seq(n, _ => i)
  }

  /** Position 0 as often as it weighs, then position 1, and so on. */
  function Expand(ws: seq<nat>): (e: seq<nat>)
    ensures |e| == Total(ws)
  {
    if ws == [] then [] else Expand(ws[..|ws| - 1]) + Repeat(|ws| - 1, ws[|ws| - 1])
  }

  lemma {:induction false} ExpandAt(ws: seq<nat>, i: nat, c: nat)
    requires i < |ws| && c < ws[i]
    ensures Total(ws[..i]) + ws[i] <= Total(ws)
    ensures Expand(ws)[Total(ws[..i]) + c] == i
  {
    var n := |ws| - 1;
    if i < n {
      ExpandAt(ws[..n], i, c);
      assert ws[..n][..i] == ws[..i];
    }
  }

  lemma TotalStep(ws: seq<nat>, i: nat)
    requires i < |ws|
    ensures Total(ws[..i + 1]) == Total(ws[..i]) + ws[i]
  {
    assert ws[..i + 1][..i] == ws[..i];
  }

  ghost function WeightsFor(info: Info, sel: seq<HostInfo>): seq<nat>
    requires Sane(info)
  {
    seq(|sel|, i requires 0 <= i < |sel| => WeightIn(info, sel[i].host))
  }

  /** The record has served `p` turns of its round: none, or up to the remembered host's remaining ones. */
  ghost predicate AtTurn(info: Info, sel: seq<HostInfo>, p: nat)
    requires Sane(info)
  {
    var ws, last := WeightsFor(info, sel), LastIndex(sel, info.lastHost);
    if last == |sel| then p == 0
    else info.counter < ws[last] && p == Total(ws[..last]) + ws[last] - info.counter
  }

  /** Serving position `i` with `counter` turns left on it is turn `q` of the round. */
  ghost predicate Serves(ws: seq<nat>, q: nat, i: nat, counter: nat) {
    i < |ws| && counter < ws[i] && q == Total(ws[..i]) + ws[i] - counter
  }

  lemma ServesExpand(ws: seq<nat>, q: nat, i: nat, counter: nat)
    requires Serves(ws, q, i, counter)
    ensures 0 < q <= Total(ws) && Expand(ws)[q - 1] == i
  {
    ExpandAt(ws, i, ws[i] - counter - 1);
  }

  lemma ServesNext(ws: seq<nat>, q: nat, i: nat)
    requires Serves(ws, q, i, 0)
    ensures i + 1 < |ws| && ws[i + 1] > 0 ==> Serves(ws, q + 1, i + 1, ws[i + 1] - 1)
    ensures i + 1 == |ws| ==> q == Total(ws)
  {
    TotalStep(ws, i);
    if i + 1 == |ws| {
      assert ws[..|ws|] == ws;
    }
  }

  lemma RoundWraps(p: nat, w: nat)
    requires 0 < w && p <= w
    ensures p % w == if p == w then 0 else p
  {
  }

  /** The host served next, the turns left on it, and nothing else about the weights. */
  lemma AdvancedTurn(info: Info, sel: seq<HostInfo>)
    requires Sane(info) && sel != [] && DistinctNames(sel)
    ensures var (ws, next, i) := (WeightsFor(info, sel), Advanced(info, sel), Target(info, sel));
            var last := LastIndex(sel, info.lastHost);
            && Sane(next) && WeightsFor(next, sel) == ws && LastIndex(sel, next.lastHost) == i
            && ws[0] > 0
            && if last < |sel| && info.counter > 0 then i == last && next.counter == info.counter - 1
               else i == (if last + 1 < |sel| then last + 1 else 0) && ws[i] > 0 && next.counter == ws[i] - 1
  {
    AdvancedSane(info, sel);
    assert WeightsFor(Advanced(info, sel), sel) == WeightsFor(info, sel);
  }

  /** Turn `p` serves element p mod W of the round, and turn p mod W + 1 is next. */
  lemma TurnAdvances(info: Info, sel: seq<HostInfo>, p: nat)
    requires Sane(info) && sel != [] && DistinctNames(sel) && AtTurn(info, sel, p)
    ensures var (ws, next) := (WeightsFor(info, sel), Advanced(info, sel));
            && Total(ws) > 0 && Target(info, sel) == Expand(ws)[p % Total(ws)]
            && Sane(next) && WeightsFor(next, sel) == ws && AtTurn(next, sel, p % Total(ws) + 1)
  {
    hide Expand, Total, Advanced, Target, WeightIn, LastIndex, DistinctNames;
    AdvancedTurn(info, sel);
    var ws, last := WeightsFor(info, sel), LastIndex(sel, info.lastHost);
    var next, i := Advanced(info, sel), Target(info, sel);
    FirstTurn(ws);
    var q: nat := 1;
    if last < |sel| {
      ServesExpand(ws, p, last, info.counter);
      RoundWraps(p, Total(ws));
      if info.counter > 0 {
        q := p + 1;
      } else {
        ServesNext(ws, p, last);
        q := if last + 1 < |sel| then p + 1 else 1;
      }
    } else {
      ServesExpand(ws, 1, 0, ws[0] - 1);
      RoundWraps(0, Total(ws));
    }
    assert Serves(ws, q, i, next.counter);
    ServesExpand(ws, q, i, next.counter);
    RoundWraps(q - 1, Total(ws));
  }

  lemma FirstTurn(ws: seq<nat>)
    requires ws != [] && ws[0] > 0
    ensures Serves(ws, 1, 0, ws[0] - 1)
  {
  }

  // ---- the rotation over a run ----

  /** What the first call makes of the record it works on, before it picks a host. */
  function Taken(s: Store, sel: seq<HostInfo>, props: Props, clock: Clock): (Info, bool)
    requires ValidStore(s) && GoodClock(clock, |sel|)
  {
    var id := RecordUsed(s, sel, clock);
    if id < |s.infos| then Refreshed(s.infos[id], props) else Created(props)
  }

  /** All selected names point at one settled record that has served `p` turns.  The first name was refreshed at `t`,
      and no other was refreshed later. */
  ghost predicate Rotating(s: Store, sel: seq<HostInfo>, props: Props, ws: seq<nat>, p: nat, t: int)
    requires sel != []
  {
    && sel[0].host in s.cache
    && var id := s.cache[sel[0].host].value;
       && id < |s.infos| && Sane(s.infos[id]) && Settled(s.infos[id], props)
       && WeightsFor(s.infos[id], sel) == ws && AtTurn(s.infos[id], sel, p)
       && s.cache[sel[0].host].expiry == ExpiryAt(t, DEFAULT_EXPIRATION_SEC)
       && (forall k | k in Names(sel) ::
             k in s.cache && s.cache[k].value == id && s.cache[k].expiry <= ExpiryAt(t, DEFAULT_EXPIRATION_SEC))
  }

  /** Every listed name ends up at `v`, refreshed at one of the readings of the stores. */
  lemma {:induction false} PutAllSpan(c: Cache<string, nat>, hosts: seq<HostInfo>, v: nat, clock: Clock, base: nat)
    requires Monotone(clock)
    ensures var p := PutAll(c, hosts, v, clock, base);
            forall k | k in Names(hosts) ::
              && k in p && p[k].value == v && p[k].ttl == DEFAULT_EXPIRATION_SEC
              && ExpiryAt(clock(base), DEFAULT_EXPIRATION_SEC) <= p[k].expiry
              && p[k].expiry <= ExpiryAt(clock(base + |hosts|), DEFAULT_EXPIRATION_SEC)
  {
    if hosts != [] {
      var n := |hosts| - 1;
      PutAllSpan(c, hosts[..n], v, clock, base);
      assert Names(hosts) == Names(hosts[..n]) + {hosts[n].host};
      assert clock(base) <= clock(base + n) <= clock(base + |hosts|);
    }
  }

  /** The entries after `create_cache_entries` last a full time to live from some reading of the call. */
  lemma EntriesTaken(s: Store, sel: seq<HostInfo>, props: Props, clock: Clock)
    requires ValidStore(s) && GoodClock(clock, |sel|) && sel != []
    ensures var (s1, ok) := CreateEntries(s, sel, props, clock);
            var id := RecordUsed(s, sel, clock);
            && ok == Taken(s, sel, props, clock).1
            && id < |s1.infos| && s1.infos[id] == Taken(s, sel, props, clock).0
            && (ok ==> forall k | k in Names(sel) ::
                  k in s1.cache && s1.cache[k].value == id && s1.cache[k].ttl == DEFAULT_EXPIRATION_SEC &&
                  ExpiryAt(clock(0), DEFAULT_EXPIRATION_SEC) <= s1.cache[k].expiry &&
                  s1.cache[k].expiry <= ExpiryAt(clock(2 * |sel| + 2), DEFAULT_EXPIRATION_SEC))
  {
    hide Created, Refreshed, PutAll, FindAll, FirstHit;
    var n, f := |sel|, Found(s, sel, clock);
    var hit := FirstHit(Purged(s.cache, clock(0)), sel, clock);
    assert clock(0) <= clock(n + 2) && n + 2 + n == 2 * n + 2;
    if hit == n {
      PutAllSpan(f.cache, sel, |s.infos|, clock, n + 2);
    } else {
      PutAllSpan(Accessed(f.cache, sel[hit].host, clock(n + 1)), sel, f.cache[sel[hit].host].value, clock, n + 2);
    }
  }

  /** A call that leaves its record settled at turn `p` serves that turn. */
  lemma CallServes(s: Store, sel: seq<HostInfo>, props: Props, clock: Clock, p: nat)
    requires ValidStore(s) && GoodClock(clock, |sel|) && sel != [] && DistinctNames(sel)
    requires var (info, ok) := Taken(s, sel, props, clock);
             ok && Sane(info) && Settled(info, props) && AtTurn(info, sel, p)
    ensures var (s1, r) := GetHost(s, sel, props, clock);
            var ws := WeightsFor(Taken(s, sel, props, clock).0, sel);
            && Total(ws) > 0 && Expand(ws)[p % Total(ws)] < |sel|
            && r == Ok(sel[Expand(ws)[p % Total(ws)]])
            && Rotating(s1, sel, props, ws, p % Total(ws) + 1, clock(2 * |sel| + 2))
  {
    hide Taken, CreateEntries, RecordUsed, AtTurn, Target, Advanced, WeightsFor, Expand, Total;
    EntriesTaken(s, sel, props, clock);
    var s1 := CreateEntries(s, sel, props, clock).0;
    var info := Taken(s, sel, props, clock).0;
    assert sel[0].host in Names(sel);
    assert clock(0) <= clock(2 * |sel| + 2);
    TurnAdvances(info, sel, p);
    AdvancedSettled(info, sel, props);
  }

  lemma AdvancedSettled(info: Info, sel: seq<HostInfo>, props: Props)
    requires sel != [] && Settled(info, props)
    ensures Settled(Advanced(info, sel), props)
  {
  }

  /** A rotating selection is found by its first name, and its record needs no update. */
  lemma RotatingTaken(s: Store, sel: seq<HostInfo>, props: Props, clock: Clock, ws: seq<nat>, p: nat, t: int)
    requires ValidStore(s) && GoodClock(clock, |sel|) && sel != [] && Rotating(s, sel, props, ws, p, t)
    requires clock(1) < ExpiryAt(t, DEFAULT_EXPIRATION_SEC)
    ensures Taken(s, sel, props, clock) == (s.infos[s.cache[sel[0].host].value], true)
  {
    hide Refreshed, AtTurn, WeightsFor, Created;
    var purged: Cache<string, nat> := Purged(s.cache, clock(0));
    assert clock(0) <= clock(1);
    assert sel[0].host in Names(sel);
    FirstHitAtOnce(purged, sel, clock, |sel|);
    assert FirstHit(purged, sel[..|sel|], clock) == 0;
    assert sel[..|sel|] == sel;
    HitStays(purged, sel, clock, |s.infos|, clock(2 * |sel| + 2));
    SettledStays(s.infos[s.cache[sel[0].host].value], props);
  }

  lemma {:induction false} FirstHitAtOnce(c: Cache<string, nat>, hosts: seq<HostInfo>, clock: Clock, n: nat)
    requires 0 < n <= |hosts| && Live(c, hosts[0].host, clock(1))
    ensures FirstHit(c, hosts[..n], clock) == 0
  {
    FindStep(c, hosts, n - 1, clock);
    if n > 1 {
      FirstHitAtOnce(c, hosts, clock, n - 1);
    } else {
      assert hosts[..0] == [];
    }
  }

  /** The time to live passes between the end of one call and the first lookup of the next. */
  predicate LongGap(before: Call, c: Call) {
    c.clock(1) >= ExpiryAt(before.End(), DEFAULT_EXPIRATION_SEC)
  }

  /** The same selection and properties, over and over, each call looking its first host up less than the time to live
      after the previous call ended. */
  ghost predicate Steady(calls: seq<Call>, sel: seq<HostInfo>, props: Props) {
    && (forall i | 0 <= i < |calls| :: calls[i].sel == sel && calls[i].props == props)
    && (forall i | 0 < i < |calls| :: !LongGap(calls[i - 1], calls[i]))
  }

  /** The first call finds no record, or one whose weight text the properties replace: its rotation starts over. */
  ghost predicate StartsOver(s: Store, c: Call)
    requires ValidStore(s) && GoodClock(c.clock, |c.sel|)
  {
    var id := RecordUsed(s, c.sel, c.clock);
    id < |s.infos| ==> PropChanged(s.infos[id].lastWeightText, HOST_WEIGHT_KEY, c.props)
  }

  ghost predicate ServedInOrder(results: seq<Result<HostInfo>>, sel: seq<HostInfo>, ws: seq<nat>) {
    && Total(ws) > 0
    && forall k | 0 <= k < |results| ::
         Expand(ws)[k % Total(ws)] < |sel| && results[k] == Ok(sel[Expand(ws)[k % Total(ws)]])
  }

  /** The turn after `k` calls. */
  function TurnAfter(k: nat, w: nat): nat
    requires w > 0
  {
    if k == 0 then 0 else (k - 1) % w + 1
  }

  lemma Scaled(x: nat, y: nat, w: nat)
    requires x < y
    ensures x * w + w <= y * w
  {
    if x + 1 < y {
      Scaled(x, y - 1, w);
    }
    assert (y - 1) * w + w == y * w;
  }

  lemma Remainder(a: nat, q: nat, r: nat, w: nat)
    requires r < w && a == q * w + r
    ensures a % w == r
  {
    var q', r' := a / w, a % w;
    assert a == q' * w + r';
    if q' < q {
      Scaled(q', q, w);
    } else if q < q' {
      Scaled(q, q', w);
    }
  }

  lemma NextRemainder(k: nat, w: nat)
    requires w > 0
    ensures (k + 1) % w == if k % w + 1 < w then k % w + 1 else 0
  {
    var q, r := k / w, k % w;
    assert k == q * w + r;
    if r + 1 < w {
      Remainder(k + 1, q, r + 1, w);
    } else {
      assert (q + 1) * w == q * w + w;
      Remainder(k + 1, q + 1, 0, w);
    }
  }

  lemma TurnAfterWraps(k: nat, w: nat)
    requires w > 0
    ensures TurnAfter(k, w) <= w
    ensures TurnAfter(k, w) % w == k % w && TurnAfter(k, w) % w + 1 == TurnAfter(k + 1, w)
  {
    if k > 0 {
      NextRemainder(k - 1, w);
      RoundWraps((k - 1) % w + 1, w);
    } else {
      RoundWraps(0, w);
    }
  }

  lemma FirstCall(s: Store, c: Call)
    requires ValidStore(s) && SaneStore(s) && GoodClock(c.clock, |c.sel|) && c.sel != [] && DistinctNames(c.sel)
    requires StartsOver(s, c) && GetHost(s, c.sel, c.props, c.clock).1.Ok?
    ensures var (s1, r) := GetHost(s, c.sel, c.props, c.clock);
            var (info, ok) := Taken(s, c.sel, c.props, c.clock);
            && ok && Sane(info)
            && var ws := WeightsFor(info, c.sel);
               && Total(ws) > 0 && Expand(ws)[0] < |c.sel| && r == Ok(c.sel[Expand(ws)[0]])
               && Rotating(s1, c.sel, c.props, ws, 1, c.End())
  {
    OkTaken(s, c.sel, c.props, c.clock);
    TakenSettles(s, c);
    hide GetHost, Taken, AtTurn, WeightsFor, Expand, Total, Rotating;
    CallServes(s, c.sel, c.props, c.clock, 0);
    RoundWraps(0, Total(WeightsFor(Taken(s, c.sel, c.props, c.clock).0, c.sel)));
  }

  lemma OkTaken(s: Store, sel: seq<HostInfo>, props: Props, clock: Clock)
    requires ValidStore(s) && GoodClock(clock, |sel|) && GetHost(s, sel, props, clock).1.Ok?
    ensures Taken(s, sel, props, clock).1
  {
    hide CreateEntries, Taken;
    EntriesTaken(s, sel, props, clock);
  }

  lemma TakenSettles(s: Store, c: Call)
    requires ValidStore(s) && SaneStore(s) && GoodClock(c.clock, |c.sel|) && StartsOver(s, c)
    ensures var (info, ok) := Taken(s, c.sel, c.props, c.clock);
            Sane(info) && (ok ==> Settled(info, c.props) && AtTurn(info, c.sel, 0))
  {
    hide Refreshed, Created;
    var id := RecordUsed(s, c.sel, c.clock);
    CreatedSettles(c.props);
    if id < |s.infos| {
      RefreshedSettles(s.infos[id], c.props);
    }
  }

  lemma {:induction false} RunServes(s: Store, calls: seq<Call>, sel: seq<HostInfo>, props: Props, ws: seq<nat>)
    requires ValidStore(s) && SaneStore(s) && Ready(calls) && Steady(calls, sel, props) && calls != []
    requires sel != [] && DistinctNames(sel) && StartsOver(s, calls[0])
    requires GetHost(s, sel, props, calls[0].clock).1.Ok?
    requires var info := Taken(s, sel, props, calls[0].clock).0; Sane(info) && ws == WeightsFor(info, sel)
    ensures var (s1, results) := RunAll(s, calls);
            && ServedInOrder(results, sel, ws)
            && Rotating(s1, sel, props, ws, TurnAfter(|calls|, Total(ws)), calls[|calls| - 1].End())
  {
    hide GetHost, Rotating, Taken, StartsOver, Expand, Total, WeightsFor, GoodClock;
    var n := |calls| - 1;
    RunStep(s, calls);
    if n == 0 {
      assert RunAll(s, calls[..0]) == (s, []);
      FirstCall(s, calls[0]);
      RoundWraps(0, Total(ws));
      TurnAfterWraps(0, Total(ws));
    } else {
      RunServes(s, calls[..n], sel, props, ws);
      TurnAfterWraps(n, Total(ws));
      NextCall(RunAll(s, calls[..n]).0, calls[n], ws, TurnAfter(n, Total(ws)), calls[n - 1].End());
    }
  }

  lemma NextCall(a: Store, c: Call, ws: seq<nat>, p: nat, t: int)
    requires ValidStore(a) && GoodClock(c.clock, |c.sel|) && c.sel != [] && DistinctNames(c.sel) && Total(ws) > 0
    requires Rotating(a, c.sel, c.props, ws, p, t)
    requires c.clock(1) < ExpiryAt(t, DEFAULT_EXPIRATION_SEC)
    ensures var (b, r) := GetHost(a, c.sel, c.props, c.clock);
            && Expand(ws)[p % Total(ws)] < |c.sel| && r == Ok(c.sel[Expand(ws)[p % Total(ws)]])
            && Rotating(b, c.sel, c.props, ws, p % Total(ws) + 1, c.End())
  {
    hide GetHost, Expand, Total, WeightsFor, AtTurn, Settled, Taken;
    RotatingTaken(a, c.sel, c.props, c.clock, ws, p, t);
    CallServes(a, c.sel, c.props, c.clock, p);
  }

  /** When the time to live has passed, a rotating selection is not found any more: the next call works on a new
      record, and its rotation starts over. */
  lemma ExpiredStartsOver(s: Store, c: Call, ws: seq<nat>, p: nat, t: int)
    requires ValidStore(s) && GoodClock(c.clock, |c.sel|) && c.sel != [] && Rotating(s, c.sel, c.props, ws, p, t)
    requires c.clock(1) >= ExpiryAt(t, DEFAULT_EXPIRATION_SEC)
    ensures StartsOver(s, c) && Taken(s, c.sel, c.props, c.clock) == Created(c.props)
  {
    var purged: Cache<string, nat> := Purged(s.cache, c.clock(0));
    assert forall k | k in Names(c.sel) :: !Live(purged, k, c.clock(1));
    NothingFound(purged, c.sel, c.clock);
  }

  lemma {:induction false} NotRevived(c: Cache<string, nat>, hosts: seq<HostInfo>, clock: Clock, k: string, t: int)
    requires Monotone(clock) && !Live(c, k, clock(1)) && clock(|hosts|) <= t && clock(1) <= t
    ensures !Live(FindAll(c, hosts, clock), k, t)
  {
    if hosts != [] {
      var n := |hosts| - 1;
      assert clock(1) <= clock(n + 1) && clock(n) <= clock(n + 1);
      NotRevived(c, hosts[..n], clock, k, clock(n + 1));
      NotRevived(c, hosts[..n], clock, k, t);
    }
  }

  lemma {:induction false} NothingFound(c: Cache<string, nat>, hosts: seq<HostInfo>, clock: Clock)
    requires Monotone(clock) && forall k | k in Names(hosts) :: !Live(c, k, clock(1))
    ensures FirstHit(c, hosts, clock) == |hosts|
  {
    if hosts != [] {
      var n := |hosts| - 1;
      assert hosts[n].host in Names(hosts) && Names(hosts[..n]) <= Names(hosts);
      NothingFound(c, hosts[..n], clock);
      NotRevived(c, hosts[..n], clock, hosts[n].host, clock(n + 1));
    }
  }

  /** Whether a run goes on is decided by the gap alone: after a short one the next call serves the next turn of the
      round, after a long one it starts over on a new record. */
  lemma GapDecides(s: Store, calls: seq<Call>, c: Call, sel: seq<HostInfo>, props: Props, ws: seq<nat>)
    requires ValidStore(s) && SaneStore(s) && Ready(calls) && Steady(calls, sel, props) && calls != []
    requires c.sel == sel && c.props == props && sel != [] && DistinctNames(sel) && StartsOver(s, calls[0])
    requires GoodClock(c.clock, |sel|)
    requires GetHost(s, sel, props, calls[0].clock).1.Ok?
    requires var info := Taken(s, sel, props, calls[0].clock).0; Sane(info) && ws == WeightsFor(info, sel)
    ensures var before, w := RunAll(s, calls).0, Total(ws);
            if LongGap(calls[|calls| - 1], c)
            then StartsOver(before, c) && Taken(before, sel, props, c.clock) == Created(props)
            else
              && w > 0 && Expand(ws)[|calls| % w] < |sel|
              && GetHost(before, sel, props, c.clock).1 == Ok(sel[Expand(ws)[|calls| % w]])
  {
    hide GetHost, Taken, StartsOver, Expand, Total, WeightsFor, Rotating;
    RunServes(s, calls, sel, props, ws);
    var before, p, t := RunAll(s, calls).0, TurnAfter(|calls|, Total(ws)), calls[|calls| - 1].End();
    if LongGap(calls[|calls| - 1], c) {
      ExpiredStartsOver(before, c, ws, p, t);
    } else {
      TurnAfterWraps(|calls|, Total(ws));
      NextCall(before, c, ws, p, t);
    }
  }

  // ---- fairness ----

  /** The turns of one round, as answers. */
  function Round(sel: seq<HostInfo>, ws: seq<nat>): (r: seq<Result<HostInfo>>)
    requires |ws| <= |sel|
    ensures |r| == Total(ws)
  {
    if ws == [] then []
    else Round(sel, ws[..|ws| - 1]) + seq(ws[|ws| - 1], _ => Ok(sel[|ws| - 1]))
  }

  lemma {:induction false} RoundIsExpand(sel: seq<HostInfo>, ws: seq<nat>, k: nat)
    requires |ws| <= |sel| && k < Total(ws)
    ensures Expand(ws)[k] < |ws| && Round(sel, ws)[k] == Ok(sel[Expand(ws)[k]])
  {
    var n := |ws| - 1;
    if k < Total(ws[..n]) {
      RoundIsExpand(sel, ws[..n], k);
    }
  }

  lemma RepeatCount<T>(x: T, n: nat, y: T)
    ensures multiset(seq(n, _ => x))[y] == if x == y then n else 0
  {
    if n > 0 {
      RepeatCount(x, n - 1, y);
      assert seq(n, _ => x) == seq(n - 1, _ => x) + [x];
    }
  }

  lemma RoundSplits(sel: seq<HostInfo>, ws: seq<nat>)
    requires ws != [] && |ws| <= |sel|
    ensures var n := |ws| - 1;
            multiset(Round(sel, ws)) == multiset(Round(sel, ws[..n])) + multiset(seq(ws[n], _ => Ok(sel[n])))
  {
  }

  lemma {:induction false} RoundCounts(sel: seq<HostInfo>, ws: seq<nat>, i: nat)
    requires |ws| <= |sel| && i < |sel| && DistinctNames(sel)
    ensures multiset(Round(sel, ws))[Ok(sel[i])] == if i < |ws| then ws[i] else 0
  {
    if ws != [] {
      var n := |ws| - 1;
      assert sel[n] == sel[i] <==> n == i;
      RoundSplits(sel, ws);
      hide DistinctNames, Round, Total;
      RoundCounts(sel, ws[..n], i);
      RepeatCount(Ok(sel[n]), ws[n], Ok(sel[i]));
    }
  }

  lemma RemainderShift(a: nat, k: nat, w: nat)
    requires k < w
    ensures (a + k) % w == if a % w + k < w then a % w + k else a % w + k - w
  {
    var q, r := a / w, a % w;
    assert a == q * w + r;
    if r + k < w {
      Remainder(a + k, q, r + k, w);
    } else {
      assert (q + 1) * w == q * w + w;
      Remainder(a + k, q + 1, r + k - w, w);
    }
  }

  lemma WindowEntry(results: seq<Result<HostInfo>>, sel: seq<HostInfo>, ws: seq<nat>, a: nat, k: nat)
    requires |ws| == |sel| && ServedInOrder(results, sel, ws) && k < Total(ws) && a + k < |results|
    ensures var (w, r, round) := (Total(ws), a % Total(ws), Round(sel, ws));
            results[a + k] == if r + k < w then round[r + k] else round[r + k - w]
  {
    hide Round, Expand, Total;
    RemainderShift(a, k, Total(ws));
    RoundIsExpand(sel, ws, (a + k) % Total(ws));
  }

  /** Any W consecutive answers are one round, begun somewhere in the middle. */
  lemma WindowIsRound(results: seq<Result<HostInfo>>, sel: seq<HostInfo>, ws: seq<nat>, a: nat)
    requires |ws| == |sel| && ServedInOrder(results, sel, ws) && a + Total(ws) <= |results|
    ensures multiset(results[a..a + Total(ws)]) == multiset(Round(sel, ws))
  {
    hide Total, Expand, Round;
    var w, round := Total(ws), Round(sel, ws);
    var r := a % w;
    var rotated := round[r..] + round[..r];
    forall k | 0 <= k < w
      ensures results[a..a + w][k] == rotated[k]
    {
      WindowEntry(results, sel, ws, a, k);
    }
    assert results[a..a + w] == rotated;
    assert round == round[..r] + round[r..];
  }

  /** Over the window of W calls from the `a`-th on, every host is served exactly as often as it weighs. */
  ghost predicate FairWindow(results: seq<Result<HostInfo>>, sel: seq<HostInfo>, ws: seq<nat>, a: nat)
    requires |ws| == |sel| && a + Total(ws) <= |results|
  {
    forall i | 0 <= i < |sel| :: multiset(results[a..a + Total(ws)])[Ok(sel[i])] == ws[i]
  }

  lemma WindowIsFair(results: seq<Result<HostInfo>>, sel: seq<HostInfo>, ws: seq<nat>, a: nat)
    requires |ws| == |sel| && DistinctNames(sel) && ServedInOrder(results, sel, ws) && a + Total(ws) <= |results|
    ensures FairWindow(results, sel, ws, a)
  {
    WindowIsRound(results, sel, ws, a);
    forall i | 0 <= i < |sel| ensures multiset(results[a..a + Total(ws)])[Ok(sel[i])] == ws[i] {
      RoundCounts(sel, ws, i);
    }
  }

  /** Exact weighted fairness.  The weights are those of the record the first call works on: the listed ones, the
      default for the rest.  Call k serves element k mod W of the round, and every window of W consecutive calls
      serves each host exactly as often as it weighs. */
  lemma ExactFairness(s: Store, calls: seq<Call>, sel: seq<HostInfo>, props: Props)
    requires ValidStore(s) && SaneStore(s) && Ready(calls) && calls != [] && Steady(calls, sel, props)
    requires DistinctNames(sel) && StartsOver(s, calls[0])
    requires GetHost(s, sel, props, calls[0].clock).1.Ok?
    ensures var info := Taken(s, sel, props, calls[0].clock).0;
            && Sane(info)
            && var (ws, results) := (WeightsFor(info, sel), RunAll(s, calls).1);
               && ServedInOrder(results, sel, ws)
               && forall a: nat | a + Total(ws) <= |calls| :: FairWindow(results, sel, ws, a)
  {
    TakenSettles(s, calls[0]);
    hide GetHost, Taken, FairWindow, Total, StartsOver;
    var ws := WeightsFor(Taken(s, sel, props, calls[0].clock).0, sel);
    RunServes(s, calls, sel, props, ws);
    var results := RunAll(s, calls).1;
    forall a: nat | a + Total(ws) <= |calls| ensures FairWindow(results, sel, ws, a) {
      WindowIsFair(results, sel, ws, a);
    }
  }

  /** A new record weighs hosts by the properties alone. */
  lemma FreshWeights(s: Store, sel: seq<HostInfo>, props: Props, clock: Clock)
    requires ValidStore(s) && GoodClock(clock, |sel|)
    requires forall k | k in Names(sel) :: !Live(s.cache, k, clock(0))
    ensures Taken(s, sel, props, clock) == Created(props)
  {
    var purged: Cache<string, nat> := Purged(s.cache, clock(0));
    HitStays(purged, sel, clock, |s.infos|, clock(2 * |sel| + 2));
    var hit := FirstHit(purged, sel, clock);
    if hit < |sel| {
      assert sel[hit].host in Names(sel) && clock(0) <= clock(1);
      NothingFound(purged, sel, clock);
    }
  }

  // ---- distinct names leave the sort no choice ----

  lemma HeadIsForced(a: seq<HostInfo>, b: seq<HostInfo>)
    requires SortedByName(a) && SortedByName(b) && DistinctNames(a) && multiset(a) == multiset(b) && a != [] && b != []
    ensures a[0] == b[0]
  {
    assert a[0] in multiset(b) && b[0] in multiset(a);
    var i :| 0 <= i < |a| && a[i] == b[0];
    var j :| 0 <= j < |b| && b[j] == a[0];
    if i > 0 && j > 0 {
      LessTotal(a[0].host, b[0].host);
    }
  }

  /** With distinct names there is one sorted order only, so the sort's choice among equals never shows. */
  lemma {:induction false} SortIsForced(a: seq<HostInfo>, b: seq<HostInfo>)
    requires SortedByName(a) && SortedByName(b) && DistinctNames(a) && multiset(a) == multiset(b)
    ensures a == b
    decreases |a|
  {
    assert |multiset(a)| == |multiset(b)|;
    if a != [] {
      HeadIsForced(a, b);
      hide DistinctNames, SortedByName;
      assert a == [a[0]] + a[1..] && b == [b[0]] + b[1..];
      assert multiset(a[1..]) == multiset(a) - multiset{a[0]};
      assert multiset(b[1..]) == multiset(b) - multiset{b[0]};
      TailSorted(a);
      TailSorted(b);
      assert DistinctNames(a[1..]) by { TailDistinct(a); }
      SortIsForced(a[1..], b[1..]);
    }
  }

  lemma TailSorted(a: seq<HostInfo>)
    requires SortedByName(a) && a != []
    ensures SortedByName(a[1..])
  {
  }

  lemma TailDistinct(a: seq<HostInfo>)
    requires DistinctNames(a) && a != []
    ensures DistinctNames(a[1..])
  {
  }
}
