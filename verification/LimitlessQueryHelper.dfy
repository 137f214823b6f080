/** Router loads turned into weights (src/limitless/limitless_query_helper.cc), and why the scheduler always accepts
    the weight text written for them. */
module LimitlessQueryHelper {
  import opened Basics
  import opened Hosts
  import opened RoundRobinWeights
  import RR = RoundRobin
  import RT = RoundRobinTiming

  const WEIGHT_SCALING: int := 10
  const MAX_WEIGHT: int := 10
  const MIN_WEIGHT: int := 1

  /** `std::round`: the nearest integer, halves away from zero. */
  function Round(x: real): (n: int)
    ensures -0.5 <= x - n as real <= 0.5
    ensures x - n as real == 0.5 ==> x < 0.0
    ensures x - n as real == -0.5 ==> x > 0.0
  {
    if x >= 0.0 then (x + 0.5).Floor else -((0.5 - x).Floor)
  }

  function Scaled(load: real): int {
    Round(WEIGHT_SCALING as real - load * WEIGHT_SCALING as real)
  }

  /** `create_host`, after the load has been read as a number. */
  function CreateHost(load: real, endpoint: string, port: int): HostInfo {
    var weight := Scaled(load);
    HostInfo(endpoint, port, Up, true, if weight < MIN_WEIGHT || weight > MAX_WEIGHT then MIN_WEIGHT else weight)
  }

  lemma RoundMonotone(x: real, y: real)
    requires x <= y
    ensures Round(x) <= Round(y)
  {
    hide Round;
  }

  /** Every router is an up writer with a weight in 1..10, which does not grow with the load.  That holds from just
      above -0.05 on, hence for every load a router may report; below, the guard against weights over 10 gives the
      smallest weight to the smallest loads. */
  lemma WeightFallsWithLoad(load: real, endpoint: string, port: int)
    ensures var h := CreateHost(load, endpoint, port);
            h.IsUp() && h.isWriter && MIN_WEIGHT <= h.weight <= MAX_WEIGHT
    ensures (forall more: real | load <= more ::
               CreateHost(more, endpoint, port).weight <= CreateHost(load, endpoint, port).weight)
            <==> load > -0.05
  {
    hide Round;
    if load > -0.05 {
      assert Scaled(load) <= MAX_WEIGHT;
      forall more: real | load <= more
        ensures CreateHost(more, endpoint, port).weight <= CreateHost(load, endpoint, port).weight
      {
        RoundMonotone(WEIGHT_SCALING as real - more * WEIGHT_SCALING as real,
                      WEIGHT_SCALING as real - load * WEIGHT_SCALING as real);
      }
    } else {
      assert Scaled(load) > MAX_WEIGHT;
      assert Scaled(0.0) == 10;
      assert CreateHost(0.0, endpoint, port).weight == 10;
    }
  }

  /** A router keeps its endpoint and port.  Its weight is the nearest whole number to 10 - 10 * load wherever that lies
      in 1..10, and 1 for any other load. */
  lemma WeightIsScaledLoad(load: real, endpoint: string, port: int)
    ensures var h := CreateHost(load, endpoint, port);
            && h.host == endpoint && h.port == port
            && if -0.05 < load <= 0.95 then -0.5 <= h.weight as real - (10.0 - 10.0 * load) <= 0.5 else h.weight == 1
  {
    hide Round;
  }

  /** A load just below zero gets the smallest weight, an idle router the largest. */
  lemma NegativeLoadWeighsLess(endpoint: string, port: int)
    ensures CreateHost(-0.1, endpoint, port).weight == MIN_WEIGHT
    ensures CreateHost(0.0, endpoint, port).weight == MAX_WEIGHT
  {
    assert Scaled(-0.1) == 11;
  }

  // ---- the scheduler never rejects limitless weights ----

  ghost predicate IsRouter(h: HostInfo) {
    exists load: real :: h == CreateHost(load, h.host, h.port)
  }

  /** The properties `LimitlessMonitorService::GetHostInfo` hands to the scheduler. */
  function RouterProps(hosts: seq<HostInfo>): Props {
    map[HOST_WEIGHT_KEY := Print(hosts)]
  }

  lemma RouterTextAccepted(info: RR.Info, hosts: seq<HostInfo>)
    requires forall h | h in hosts :: CleanName(h.host) && IsRouter(h)
    ensures RR.UpdateHostWeight(info, RouterProps(hosts)).1
  {
    forall h | h in hosts ensures Accepted(h) {
      var load: real :| h == CreateHost(load, h.host, h.port);
      WeightFallsWithLoad(load, h.host, h.port);
    }
    WeightTextRoundTrip(info.weights, hosts);
    RR.RecordGroupsReads(info, Lines(Print(hosts), ','), Print(hosts));
  }

  /** In every state of the scheduler, routers with clean names never make it throw: a call ends with a host, or with
      a null dereference when it was too slow. */
  lemma RoutersAlwaysServed(s: RR.Store, hosts: seq<HostInfo>, sel: seq<HostInfo>, clock: RR.Clock)
    requires RR.ValidStore(s) && sel != []
    requires forall h | h in hosts :: CleanName(h.host) && IsRouter(h)
    ensures var answer := RT.Attempt(s, sel, RouterProps(hosts), clock).1;
            answer.Returned? ==> answer.result.Ok?
    ensures RR.GoodClock(clock, |sel|) ==> RT.Attempt(s, sel, RouterProps(hosts), clock).1.Returned?
  {
    forall info: RR.Info ensures RR.UpdateHostWeight(info, RouterProps(hosts)).1 {
      RouterTextAccepted(info, hosts);
    }
    hide RR.UpdateHostWeight, RR.PutAll, RR.FindAll, RR.FirstHit;
    var (s1, ok) := RT.TryCreateEntries(s, sel, RouterProps(hosts), clock);
    assert ok != Some(false);
    if RR.GoodClock(clock, |sel|) {
      RT.TimelyAttempt(s, sel, RouterProps(hosts), clock);
    }
  }
}
