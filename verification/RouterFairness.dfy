/** Fairness from end to end: the weights printed for a list of hosts are the ones they are served by. */
module RouterFairness {
  import opened Basics
  import opened Hosts
  import opened SlidingCache
  import opened RoundRobinWeights
  import opened RoundRobin
  import opened RoundRobinFairness
  import opened LimitlessQueryHelper
  import RT = RoundRobinTiming

  function Weights(sel: seq<HostInfo>): seq<nat> {
    seq(|sel|, i requires 0 <= i < |sel| => sel[i].weight)
  }

  // ---- the selection of distinct hosts is distinct ----

  lemma {:induction false} SelectionWithin(hosts: seq<HostInfo>, isWriter: bool)
    ensures multiset(Selection(hosts, isWriter)) <= multiset(hosts)
  {
    if hosts != [] {
      SelectionWithin(hosts[1..], isWriter);
      assert hosts == [hosts[0]] + hosts[1..];
    }
  }

  lemma {:induction false} DistinctOnce(hosts: seq<HostInfo>, h: HostInfo)
    requires DistinctNames(hosts)
    ensures multiset(hosts)[h] <= 1
  {
    if hosts != [] {
      var n := |hosts| - 1;
      assert hosts == hosts[..n] + [hosts[n]];
      DistinctOnce(hosts[..n], h);
      if hosts[n] == h {
        assert forall i | 0 <= i < n :: hosts[..n][i].host != h.host;
        assert h !in hosts[..n];
      }
    }
  }

  lemma TwiceCounts(s: seq<HostInfo>, i: nat, j: nat)
    requires i < j < |s| && s[i] == s[j]
    ensures multiset(s)[s[i]] >= 2
  {
    assert s == s[..j] + s[j..] && s[i] in s[..j] && s[j] in s[j..];
  }

  lemma SelectionDistinct(sel: seq<HostInfo>, hosts: seq<HostInfo>, isWriter: bool)
    requires SortedSelection(sel, hosts, isWriter) && DistinctNames(hosts)
    ensures DistinctNames(sel) && forall h | h in sel :: h in hosts
  {
    SelectionWithin(hosts, isWriter);
    forall h | h in sel ensures h in hosts {
      assert h in multiset(sel) && h in multiset(hosts);
    }
    forall i, j | 0 <= i < j < |sel| ensures sel[i].host != sel[j].host {
      assert sel[i] in hosts && sel[j] in hosts;
      if sel[i] == sel[j] {
        TwiceCounts(sel, i, j);
        DistinctOnce(hosts, sel[i]);
      }
    }
  }

  // ---- the hosts are weighed as printed ----

  /** Whether the call works on a new record or on one whose weights the printed ones replace: they are taken, and the
      record weighs every selected host as listed. */
  lemma PrintedWeightsServe(s: Store, hosts: seq<HostInfo>, sel: seq<HostInfo>, clock: Clock)
    requires ValidStore(s) && SaneStore(s) && GoodClock(clock, |sel|) && sel != []
    requires StartsOver(s, Call(sel, RouterProps(hosts), clock))
    requires DistinctNames(hosts) && forall h | h in hosts :: CleanName(h.host) && Accepted(h)
    requires forall h | h in sel :: h in hosts
    ensures var (info, ok) := Taken(s, sel, RouterProps(hosts), clock);
            ok && Sane(info) && WeightsFor(info, sel) == Weights(sel)
  {
    hide Print, UpdateHostWeight;
    var props := RouterProps(hosts);
    assert |DEFAULT_WEIGHT_KEY| != |HOST_WEIGHT_KEY| && sel[0] in hosts;
    var id := RecordUsed(s, sel, clock);
    var base := if id < |s.infos| then s.infos[id] else FRESH_INFO;
    CreatedSettles(props);
    if id < |s.infos| {
      RefreshedSettles(base, props);
      NewWeightsReplace(base, props, hosts);
    } else {
      PrintedWeightsTaken(FRESH_INFO, props, hosts);
      assert UpdateDefaultWeight(FRESH_INFO, props) == (FRESH_INFO, true);
    }
    var info := Taken(s, sel, props, clock).0;
    assert info.weights == WeightsOf(base.weights, hosts);
    hide Created, Refreshed, Taken;
    forall i | 0 <= i < |sel| ensures WeightIn(info, sel[i].host) == sel[i].weight {
      var j :| 0 <= j < |hosts| && hosts[j] == sel[i];
      WeightsOfLast(base.weights, hosts, j);
    }
  }

  // ---- routers ----

  /** Routers with distinct clean names, whose weights are new to the scheduler, and calls less than a time to live
      apart: every call succeeds, call k serves element k mod W of the routers in name order, each repeated as often as
      the weight its load gave it, and every window of W calls serves each router exactly that often. */
  lemma RoutersServedByWeight(s: Store, calls: seq<Call>, hosts: seq<HostInfo>, sel: seq<HostInfo>)
    requires ValidStore(s) && SaneStore(s) && Ready(calls) && calls != [] && Steady(calls, sel, RouterProps(hosts))
    requires DistinctNames(hosts) && (forall h | h in hosts :: CleanName(h.host) && IsRouter(h))
    requires SortedSelection(sel, hosts, true) && sel != [] && StartsOver(s, calls[0])
    ensures var results := RunAll(s, calls).1;
            && ServedInOrder(results, sel, Weights(sel))
            && forall a: nat | a + Total(Weights(sel)) <= |calls| :: FairWindow(results, sel, Weights(sel), a)
  {
    var clock := calls[0].clock;
    SelectionDistinct(sel, hosts, true);
    forall h | h in hosts ensures Accepted(h) {
      var load: real :| h == CreateHost(load, h.host, h.port);
      WeightFallsWithLoad(load, h.host, h.port);
    }
    assert calls[0] == Call(sel, RouterProps(hosts), clock);
    PrintedWeightsServe(s, hosts, sel, clock);
    RoutersAlwaysServed(s, hosts, sel, clock);
    RT.TimelyAttempt(s, sel, RouterProps(hosts), clock);
    hide *;
    ExactFairness(s, calls, sel, RouterProps(hosts));
  }

  /** The weights are new when no selected name is cached, or when the record found was last given another text. */
  lemma NewWeightsStartOver(s: Store, c: Call)
    requires ValidStore(s) && GoodClock(c.clock, |c.sel|)
    requires (forall k | k in Names(c.sel) :: !Live(s.cache, k, c.Start())) ||
             (HOST_WEIGHT_KEY in c.props &&
              forall i | 0 <= i < |s.infos| :: s.infos[i].lastWeightText != c.props[HOST_WEIGHT_KEY])
    ensures StartsOver(s, c)
  {
    if forall k | k in Names(c.sel) :: !Live(s.cache, k, c.Start()) {
      var purged: Cache<string, nat> := Purged(s.cache, c.clock(0));
      assert c.clock(0) <= c.clock(1);
      NothingFound(purged, c.sel, c.clock);
    }
  }
}
