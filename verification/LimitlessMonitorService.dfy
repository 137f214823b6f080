/** The limitless services themselves (src/limitless/limitless_monitor_service.cc): reference-counted monitors in a map
    under one mutex, and the choice of a router to connect to. */
module LimitlessMonitorService {
  import opened Basics
  import opened Hosts
  import opened HostSelectors
  import opened LimitlessWalk
  import C = LimitlessCounts
  import CS = ConnectionString
  import RR = RoundRobin
  import RRS = RoundRobinHostSelector
  import RT = RoundRobinTiming
  import RoundRobinWeights
  import LimitlessQueryHelper

  const LIMITLESS_MODE_KEY: string := "LIMITLESSMODE"
  const LIMITLESS_MODE_VALUE_LAZY: string := "lazy"
  const LIMITLESS_MONITOR_INTERVAL_MS_KEY: string := "LIMITLESSMONITORINTERVALMS"

  const DEFAULT_LIMITLESS_MONITOR_INTERVAL_MS: C.Counter := 7500

  class LimitlessMonitor {
    var referenceCounter: C.Counter
    var limitlessRouters: seq<HostInfo>
    /** How often the monitor thread asks for routers, an `unsigned int` as well. */
    const intervalMs: C.Counter

    constructor (routers: seq<HostInfo>, intervalMs: C.Counter)
      ensures referenceCounter == 1 && limitlessRouters == routers && this.intervalMs == intervalMs
    {
      referenceCounter, limitlessRouters := 1, routers;
      this.intervalMs := intervalMs;
    }

    /** The monitor thread's update after a query; a failed query answers with no routers and changes nothing. */
    method Update(newRouters: seq<HostInfo>)
      modifies this`limitlessRouters
      ensures limitlessRouters == if newRouters == [] then old(limitlessRouters) else newRouters
    {
      if newRouters != [] {
        limitlessRouters := newRouters;
      }
    }
  }

  /** The id a creation goes by: the one given, else the cluster named in the connection string, else the time;
      without a server it stays empty. */
  function ResolvedId(given: string, attrs: CS.ConnMap, clusterId: string -> string, now: string): string {
    if given != "" || CS.SERVER_HOST_KEY !in attrs then given
    else if clusterId(attrs[CS.SERVER_HOST_KEY]) != "" then clusterId(attrs[CS.SERVER_HOST_KEY])
    else now
  }

  /** Two creations without an id whose servers belong to one cluster meet under one id, whenever they come; the id is
      the cluster's, not the server's or the time's. */
  lemma OneClusterOneService(a: CS.ConnMap, b: CS.ConnMap, clusterId: string -> string, now: string, later: string)
    requires CS.SERVER_HOST_KEY in a && CS.SERVER_HOST_KEY in b
    requires clusterId(a[CS.SERVER_HOST_KEY]) == clusterId(b[CS.SERVER_HOST_KEY]) != ""
    ensures ResolvedId("", a, clusterId, now) == ResolvedId("", b, clusterId, later) == clusterId(a[CS.SERVER_HOST_KEY])
  {
  }

  /** An id that is given is kept whatever the settings say; a server of no known cluster goes by the time. */
  lemma OtherIds(given: string, a: CS.ConnMap, clusterId: string -> string, now: string)
    ensures given != "" ==> ResolvedId(given, a, clusterId, now) == given
    ensures CS.SERVER_HOST_KEY in a && clusterId(a[CS.SERVER_HOST_KEY]) == "" ==>
              ResolvedId("", a, clusterId, now) == now
    ensures CS.SERVER_HOST_KEY !in a ==> ResolvedId("", a, clusterId, now) == ""
  {
  }

  predicate BadInterval(attrs: CS.ConnMap, stoi: string -> Option<int>) {
    LIMITLESS_MONITOR_INTERVAL_MS_KEY in attrs && stoi(attrs[LIMITLESS_MONITOR_INTERVAL_MS_KEY]).None?
  }

  /** The interval in force: the setting, wrapped to 32 bits when negative, or the default. */
  function Interval(attrs: CS.ConnMap, stoi: string -> Option<int>): C.Counter
    requires !BadInterval(attrs, stoi)
  {
    if LIMITLESS_MONITOR_INTERVAL_MS_KEY !in attrs then DEFAULT_LIMITLESS_MONITOR_INTERVAL_MS
    else stoi(attrs[LIMITLESS_MONITOR_INTERVAL_MS_KEY]).value % C.COUNTER_SIZE
  }

  /** A setting that fits is taken as it is; a negative one wraps round, so that -1 polls at the longest interval;
      without a setting it is seven and a half seconds. */
  lemma IntervalInForce(attrs: CS.ConnMap, stoi: string -> Option<int>)
    requires !BadInterval(attrs, stoi)
    ensures var interval := Interval(attrs, stoi);
            if LIMITLESS_MONITOR_INTERVAL_MS_KEY !in attrs then interval == 7500
            else
              var given := stoi(attrs[LIMITLESS_MONITOR_INTERVAL_MS_KEY]).value;
              && (0 <= given < 0x1_0000_0000 ==> interval == given)
              && (-0x1_0000_0000 <= given < 0 ==> interval == 0x1_0000_0000 + given)
  {
    if LIMITLESS_MONITOR_INTERVAL_MS_KEY in attrs {
      var given := stoi(attrs[LIMITLESS_MONITOR_INTERVAL_MS_KEY]).value;
      assert -0x1_0000_0000 <= given < 0 ==> (given + 0x1_0000_0000) % 0x1_0000_0000 == given % 0x1_0000_0000;
    }
  }

  /** Of the connection strings printed from clean settings, exactly those whose mode reads "lazy" make a monitor
      wait. */
  lemma LazyAsWritten(m: CS.ConnMap, text: string)
    requires CS.CleanMap(m) && CS.Prints(m, text)
    ensures Lazy(CS.Parse(text)) <==> LIMITLESS_MODE_KEY in m && m[LIMITLESS_MODE_KEY] == "lazy"
  {
    hide CS.Parse, CS.CleanMap, CS.Prints;
    CS.PrintThenParse(m, text);
  }

  predicate Lazy(attrs: CS.ConnMap) {
    LIMITLESS_MODE_KEY in attrs && attrs[LIMITLESS_MODE_KEY] == LIMITLESS_MODE_VALUE_LAZY
  }

  /** What the search for a router did: how the scheduler's call ended, and the fallback if that did not do. */
  datatype Attempt = Attempt(first: RT.Answer, tried: seq<HostInfo>)

  /** The scheduler offered a host. */
  predicate Offered(first: RT.Answer) {
    first.Returned? && first.result.Ok?
  }

  /** The scheduler's host if it passes the first test; otherwise a walk over the heaviest, its tests counted on.  A
      scheduler call that dereferences null ends the search. */
  ghost predicate Searched(hosts: seq<HostInfo>, a: Attempt, host: Option<HostInfo>, test: Tests) {
    if a.first.NullDereferenced? then host.None? && a.tried == []
    else if Offered(a.first) && test(a.first.result.value.host, 0) then
      host == Some(a.first.result.value) && a.tried == []
    else
      && Walk(hosts, a.tried) && |a.tried| <= CONNECT_RETRY_ATTEMPTS
      && Outcome(a.tried, host, test, if Offered(a.first) then 1 else 0)
      && (host.None? ==> |a.tried| == if |Candidates(hosts)| < CONNECT_RETRY_ATTEMPTS then |Candidates(hosts)|
                                      else CONNECT_RETRY_ATTEMPTS)
  }

  /** How many connection tests a search made. */
  function TestsMade(a: Attempt): nat {
    (if Offered(a.first) then 1 else 0) + |a.tried|
  }

  /** A router handed out is a listed writer that was up, and it passed the last connection test made. */
  lemma SearchIsSound(hosts: seq<HostInfo>, a: Attempt, h: HostInfo, test: Tests)
    requires Searched(hosts, a, Some(h), test) && (a.first.Returned? ==> Selects(hosts, true, a.first.result))
    ensures h in hosts && h.IsUp() && h.isWriter
    ensures TestsMade(a) > 0 && test(h.host, TestsMade(a) - 1)
  {
    if !(Offered(a.first) && test(a.first.result.value.host, 0)) {
      assert HeaviestLeft(hosts, a.tried, |a.tried| - 1);
    }
  }

  /** While the scheduler's host passes its test no other router is handed out, and none is tried. */
  lemma SchedulerComesFirst(hosts: seq<HostInfo>, a: Attempt, host: Option<HostInfo>, test: Tests, h: HostInfo)
    requires Searched(hosts, a, host, test) && a.first == RT.Returned(Ok(h)) && test(h.host, 0)
    ensures host == Some(h) && TestsMade(a) == 1
  {
  }

  class LimitlessMonitorService {
    var services: map<string, LimitlessMonitor>
    const roundRobin: RRS.RoundRobinHostSelector

    /** No two ids share a monitor. */
    ghost predicate Valid()
      reads this, roundRobin, roundRobin.roundRobinCache
    {
      && (forall a, b | a in services && b in services && services[a] == services[b] :: a == b)
      && roundRobin.Valid()
    }

    ghost function Counts(): C.Counts
      reads this, services.Values
    {
      map id | id in services :: services[id].referenceCounter
    }

    ghost function Routers(): map<string, seq<HostInfo>>
      reads this, services.Values
    {
      map id | id in services :: services[id].limitlessRouters
    }

    lemma KnownIds()
      ensures Counts().Keys == services.Keys
    {
    }

    constructor ()
      ensures Valid() && Counts() == C.Run([]) && fresh(roundRobin) && fresh(roundRobin.roundRobinCache)
    {
      services := map[];
      roundRobin := new RRS.RoundRobinHostSelector();
    }

    method CheckService(serviceId: string) returns (known: bool)
      ensures known <==> serviceId in Counts()
    {
      return serviceId in services;
    }

    method Start(serviceId: string, service: LimitlessMonitor)
      requires Valid() && serviceId !in services && service !in services.Values
      modifies this`services
      ensures Valid() && services == old(services)[serviceId := service]
      ensures Counts() == old(Counts())[serviceId := service.referenceCounter]
      ensures Routers() == old(Routers())[serviceId := service.limitlessRouters]
    {
      hide RRS.RoundRobinHostSelector.Valid;
      assert forall id | id in services :: services[id] in services.Values;
      services := services[serviceId := service];
    }

    /** `fetched` is what the first query answers; a lazy monitor does not make it.  `clusterId` reads a cluster name
        out of a host name, `stoi` a number out of a text. */
    method NewService(given: string, connStr: string, clusterId: string -> string, now: string,
                      stoi: string -> Option<int>, fetched: seq<HostInfo>)
      returns (created: Result<bool>, serviceId: string)
      requires Valid()
      modifies this`services
      ensures Valid()
      ensures serviceId == ResolvedId(given, CS.Parse(connStr), clusterId, now)
      ensures created == if serviceId in old(Counts()) then Ok(false)
                         else if BadInterval(CS.Parse(connStr), stoi) then Throws else Ok(true)
      ensures Counts() == if created.Throws? then old(Counts()) else C.Step(old(Counts()), C.New(serviceId))
      ensures Routers() == if created != Ok(true) then old(Routers())
                           else old(Routers())[serviceId := if Lazy(CS.Parse(connStr)) then [] else fetched]
      ensures created == Ok(true) ==>
                serviceId in services && services[serviceId].intervalMs == Interval(CS.Parse(connStr), stoi)
    {
      hide Valid, CS.Collected, CS.Segments, Counts, Routers;
      var attrs := CS.ParseConnectionString(connStr, map[]);
      assert Counts().Keys == services.Keys by {
        KnownIds();
      }
      serviceId := given;
      if serviceId == "" {
        if CS.SERVER_HOST_KEY in attrs {
          serviceId := clusterId(attrs[CS.SERVER_HOST_KEY]);
          if serviceId == "" {
            serviceId := now;
          }
        }
      }
      if serviceId in services {
        return Ok(false), serviceId;
      }
      var blockAndQueryImmediately := true;
      if LIMITLESS_MODE_KEY in attrs {
        if attrs[LIMITLESS_MODE_KEY] == LIMITLESS_MODE_VALUE_LAZY {
          blockAndQueryImmediately := false;
        }
      }
      var intervalMs := DEFAULT_LIMITLESS_MONITOR_INTERVAL_MS;
      if LIMITLESS_MONITOR_INTERVAL_MS_KEY in attrs {
        var value := stoi(attrs[LIMITLESS_MONITOR_INTERVAL_MS_KEY]);
        if value.None? {
          return Throws, serviceId;
        }
        intervalMs := value.value % C.COUNTER_SIZE;
      }
      var service := new LimitlessMonitor(if blockAndQueryImmediately then fetched else [], intervalMs);
      Start(serviceId, service);
      return Ok(true), serviceId;
    }

    method IncrementReferenceCounter(serviceId: string)
      requires Valid()
      modifies services.Values`referenceCounter
      ensures Valid() && services == old(services)
      ensures Counts() == C.Step(old(Counts()), C.Increment(serviceId))
    {
      if serviceId !in services {
        return;
      }
      var service := services[serviceId];
      service.referenceCounter := C.Incremented(service.referenceCounter);
    }

    method DecrementReferenceCounter(serviceId: string)
      requires Valid()
      modifies this`services, services.Values`referenceCounter
      ensures Valid() && services.Keys <= old(services.Keys)
      ensures Counts() == C.Step(old(Counts()), C.Decrement(serviceId))
      ensures forall id | id in services :: services[id] == old(services)[id]
    {
      if serviceId !in services {
        return;
      }
      var service := services[serviceId];
      if service.referenceCounter > 0 {
        service.referenceCounter := service.referenceCounter - 1;
      }
      if service.referenceCounter == 0 {
        services := services - {serviceId};
      }
    }

    /** The scheduler's choice among the routers, their weights written into its properties. */
    method RoundRobinChoice(hosts: seq<HostInfo>, clock: RR.Clock) returns (first: RT.Answer, ghost sel: seq<HostInfo>)
      requires Valid()
      modifies roundRobin, roundRobin.roundRobinCache, roundRobin.records
      ensures Valid() && Counts() == old(Counts()) && Routers() == old(Routers())
      ensures RR.SortedSelection(sel, hosts, true)
      ensures (roundRobin.Contents(), first) ==
              RT.Attempt(old(roundRobin.Contents()), sel, LimitlessQueryHelper.RouterProps(hosts), clock)
      ensures first.Returned? ==> Selects(hosts, true, first.result)
    {
      hide RT.Attempt, RR.Selection, RR.SortedSelection, Selects, Counts, Routers, RoundRobinWeights.Print;
      var properties := RoundRobinWeights.SetRoundRobinWeight(hosts, map[]);
      ghost var before := roundRobin.Contents();
      first, sel := roundRobin.GetHost(hosts, true, properties, clock);
      RoundRobinSelects(before, hosts, true, sel, properties, clock);
    }

    /** `sel` is the order in which the scheduler sorted the routers. */
    method GetHostInfo(serviceId: string, test: Tests, clock: RR.Clock)
      returns (host: Option<HostInfo>, a: Attempt, ghost sel: seq<HostInfo>)
      requires Valid()
      modifies roundRobin, roundRobin.roundRobinCache, roundRobin.records
      ensures Valid() && Counts() == old(Counts()) && Routers() == old(Routers())
      ensures serviceId !in Routers() || Routers()[serviceId] == [] ==> host == None
      ensures serviceId in Routers() && Routers()[serviceId] != [] ==>
                var hosts := Routers()[serviceId];
                && RR.SortedSelection(sel, hosts, true)
                && (roundRobin.Contents(), a.first) ==
                   RT.Attempt(old(roundRobin.Contents()), sel, LimitlessQueryHelper.RouterProps(hosts), clock)
                && (a.first.Returned? ==> Selects(hosts, true, a.first.result)) && Searched(hosts, a, host, test)
    {
      hide RT.Attempt, RR.Selection, RR.SortedSelection, Walk, Outcome, Selects;
      a, sel := Attempt(RT.Returned(Throws), []), [];
      if serviceId !in services || services[serviceId].limitlessRouters == [] {
        return None, a, sel;
      }
      var hosts := services[serviceId].limitlessRouters;
      var first;
      first, sel := RoundRobinChoice(hosts, clock);
      a := Attempt(first, []);
      if first.NullDereferenced? {
        return None, a, sel;
      }
      var tests := 0;
      if first.result.Ok? {
        if test(first.result.value.host, 0) {
          return Some(first.result.value), a, sel;
        }
        tests := 1;
      }
      var tried;
      host, tried := Fallback(hosts, test, tests);
      a := Attempt(first, tried);
    }
  }
}
