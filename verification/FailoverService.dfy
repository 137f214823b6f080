/** The failover loops of src/failover/failover_service.cc.  The clock, the host selector and the answers of the
    database are inputs: streams read at positions the service keeps track of. */
module FailoverService {
  import opened Basics
  import opened Hosts
  import opened HostSelectors
  import opened FailoverTrace
  import CS = ConnectionString
  import RR = RoundRobin
  import RoundRobinWeights

  type Selector = (nat, seq<HostInfo>, bool, RoundRobinWeights.Props) -> Result<HostInfo>

  /** Clock readings in order; the selector, which may remember earlier calls; and what the k-th connection attempt
      met: whether the connection string connected, the check passed and the role query said reader. */
  datatype Env = Env(clock: RR.Clock, choose: Selector, connects: (nat, string) -> bool, checks: nat -> bool,
                     roles: nat -> bool)
  {
    ghost predicate Lawful() {
      && RR.Monotone(clock)
      && forall k, hosts, isWriter, props :: Selects(hosts, isWriter, choose(k, hosts, isWriter, props))
    }

    ghost predicate ClockReaches(time: int) {
      exists n: nat :: clock(n) >= time
    }
  }

  datatype FailoverStatus = Failed | Skipped | Succeed

  const SQL_STATE_PREFIX: string := "08"
  const FAILOVER_MODE_KEY: string := "FAILOVERMODE"

  /** How a reader failover ends. */
  datatype Ending = Found | NoTopology | NoEligibleHost | TimedOut

  /** The settings after an attempt: the server replaced, all else as it was. */
  function Pointed(connInfo: CS.ConnMap, name: string): CS.ConnMap {
    connInfo[CS.SERVER_HOST_KEY := name]
  }

  function LastPointed(connInfo: CS.ConnMap, t: Trace): CS.ConnMap {
    if t == [] then connInfo else Pointed(connInfo, t[|t| - 1].host.host)
  }

  /** The answers recorded in an attempt are those of the k-th connection. */
  ghost predicate Answered(env: Env, a: Attempt, k: nat, connInfo: CS.ConnMap) {
    && CS.Prints(Pointed(connInfo, a.host.host), a.connStr)
    && a.connected == env.connects(k, a.connStr)
    && a.alive == (a.connected && env.checks(k))
    && a.reader == (a.alive && env.roles(k))
  }

  /** Where the service stood when it had made `k` attempts with these settings, the attempts `t` came next, with the
      answers recorded, and led to the second standing. */
  ghost predicate Consulted(env: Env, k: nat, connInfo: CS.ConnMap, t: Trace, k1: nat, connInfo1: CS.ConnMap) {
    && (forall i | 0 <= i < |t| :: Answered(env, t[i], k + i, connInfo))
    && k1 == k + |t| && connInfo1 == LastPointed(connInfo, t)
  }

  lemma NotConsulted(env: Env, k: nat, connInfo: CS.ConnMap)
    ensures Consulted(env, k, connInfo, [], k, connInfo)
  {
  }

  lemma ConsultedOnce(env: Env, k: nat, connInfo: CS.ConnMap, a: Attempt)
    requires Answered(env, a, k, connInfo)
    ensures Consulted(env, k, connInfo, [a], k + 1, Pointed(connInfo, a.host.host))
  {
  }

  lemma ConsultedOn(env: Env, k: nat, c: CS.ConnMap, t: Trace, k1: nat, c1: CS.ConnMap, u: Trace,
                    k2: nat, c2: CS.ConnMap)
    requires Consulted(env, k, c, t, k1, c1) && Consulted(env, k1, c1, u, k2, c2)
    ensures Consulted(env, k, c, t + u, k2, c2)
  {
    hide CS.Prints;
    forall i | 0 <= i < |t + u| ensures Answered(env, (t + u)[i], k + i, c) {
      if i >= |t| {
        var a := u[i - |t|];
        assert Answered(env, a, k1 + (i - |t|), c1);
        assert Pointed(c1, a.host.host) == Pointed(c, a.host.host);
      }
    }
  }

  // ---- what the selector was asked ----

  /** Asked about this list at position `k`, the selector offers `h`. */
  ghost predicate Offers(env: Env, k: nat, list: seq<HostInfo>, props: RoundRobinWeights.Props, h: HostInfo) {
    env.choose(k, list, false, props) == Ok(h)
  }

  ghost predicate Refuses(env: Env, k: nat, list: seq<HostInfo>, props: RoundRobinWeights.Props) {
    env.choose(k, list, false, props).Throws?
  }

  /** Within a pass: `h` was offered from what was left of the candidates after `u`. */
  ghost predicate OfferedIn(env: Env, props: RoundRobinWeights.Props, candidates: seq<HostInfo>, u: Trace,
                            h: HostInfo)
  {
    exists k, remaining, left :: Shrunk(candidates, remaining, left, u) && Offers(env, k, remaining, props, h)
  }

  ghost predicate PassOffered(env: Env, props: RoundRobinWeights.Props, candidates: seq<HostInfo>, u: Trace) {
    forall i | 0 <= i < |u| :: OfferedIn(env, props, candidates, u[..i], u[i].host)
  }

  /** Over the whole trace: the reader of attempt `i` was offered from exactly the readers open at that point. */
  ghost predicate OfferedAt(env: Env, props: RoundRobinWeights.Props, hosts: seq<HostInfo>, t: Trace, i: nat)
    requires i < |t|
  {
    exists k, list :: ListsOpen(list, t[..i], t[i].pass, hosts) && Offers(env, k, list, props, t[i].host)
  }

  ghost predicate AllOffered(env: Env, props: RoundRobinWeights.Props, hosts: seq<HostInfo>, t: Trace) {
    forall i | 0 <= i < |t| && t[i].fromReaders :: OfferedAt(env, props, hosts, t, i)
  }

  /** In the pass reached, readers were open, and asked about exactly those the selector threw. */
  ghost predicate NoneOffered(env: Env, props: RoundRobinWeights.Props, hosts: seq<HostInfo>, t: Trace) {
    exists k, list, pass ::
      list != [] && WriterDue(t, pass) && ListsOpen(list, t, pass, hosts) && Refuses(env, k, list, props)
  }

  lemma OffersJoin(env: Env, props: RoundRobinWeights.Props, hosts: seq<HostInfo>, t: Trace, u: Trace, pass: nat,
                   candidates: seq<HostInfo>, end: int)
    requires AllOffered(env, props, hosts, t) && Before(t, pass) && Remaining(candidates, hosts, t)
    requires PassTrace(u, pass, candidates, end) && PassOffered(env, props, candidates, u)
    ensures AllOffered(env, props, hosts, t + u)
  {
    hide Before, Remaining, ListsOpen, Shrunk, Offers;
    forall i | 0 <= i < |t + u| && (t + u)[i].fromReaders ensures OfferedAt(env, props, hosts, t + u, i) {
      if i < |t| {
        assert (t + u)[..i] == t[..i] && OfferedAt(env, props, hosts, t, i);
      } else {
        var j := i - |t|;
        assert PassAttempt(u[j], pass, candidates, end) && OfferedIn(env, props, candidates, u[..j], u[j].host);
        var k, remaining, left :|
          Shrunk(candidates, remaining, left, u[..j]) && Offers(env, k, remaining, props, u[j].host);
        PassesAlone(u[..j], u, pass, candidates, end);
        OpenHere(t, u[..j], pass, candidates, remaining, left, hosts);
        assert (t + u)[..i] == t + u[..j];
      }
    }
  }

  lemma PassesAlone(v: Trace, u: Trace, pass: nat, candidates: seq<HostInfo>, end: int)
    requires PassTrace(u, pass, candidates, end) && v <= u
    ensures forall a | a in v :: a.fromReaders && a.pass == pass
  {
    forall a | a in v ensures a.fromReaders && a.pass == pass {
      var i :| 0 <= i < |v| && v[i] == a;
      assert PassAttempt(u[i], pass, candidates, end);
    }
  }

  lemma WriterOffersNothing(env: Env, props: RoundRobinWeights.Props, hosts: seq<HostInfo>, t: Trace, w: Trace)
    requires AllOffered(env, props, hosts, t) && forall a | a in w :: !a.fromReaders
    ensures AllOffered(env, props, hosts, t + w)
  {
    assert forall i | 0 <= i < |w| :: w[i] in w;
    forall i | 0 <= i < |t + w| && (t + w)[i].fromReaders ensures OfferedAt(env, props, hosts, t + w, i) {
      assert (t + w)[..i] == t[..i] && OfferedAt(env, props, hosts, t, i);
    }
  }

  lemma OffersStep(env: Env, props: RoundRobinWeights.Props, candidates: seq<HostInfo>, remaining: seq<HostInfo>,
                   left: seq<HostInfo>, u: Trace, k: nat, a: Attempt)
    requires PassOffered(env, props, candidates, u) && Shrunk(candidates, remaining, left, u)
    requires Offers(env, k, remaining, props, a.host)
    ensures PassOffered(env, props, candidates, u + [a])
  {
    hide Shrunk, Offers;
    forall i | 0 <= i < |u + [a]| ensures OfferedIn(env, props, candidates, (u + [a])[..i], (u + [a])[i].host) {
      assert (u + [a])[..i] == u[..i];
      assert i < |u| ==> OfferedIn(env, props, candidates, u[..i], u[i].host);
      assert i == |u| ==> u[..i] == u;
    }
  }

  /** A success ends with an accepted attempt, and nothing else is ever accepted. */
  ghost predicate EndsWell(t: Trace, ok: bool, mode: FailoverMode) {
    if ok then t != [] && Accepts(mode, t[|t| - 1]) && NoneAccepted(t[..|t| - 1], mode)
    else NoneAccepted(t, mode)
  }

  lemma EndsWellOn(t: Trace, u: Trace, ok: bool, mode: FailoverMode)
    requires EndsWell(t, false, mode) && EndsWell(u, ok, mode)
    ensures EndsWell(t + u, ok, mode) && (ok ==> u != [])
  {
    if ok {
      assert (t + u)[..|t + u| - 1] == t + u[..|u| - 1];
    }
  }

  lemma NoneOfferedHere(env: Env, props: RoundRobinWeights.Props, hosts: seq<HostInfo>, t: Trace, k: nat,
                        list: seq<HostInfo>, pass: nat)
    requires list != [] && WriterDue(t, pass) && ListsOpen(list, t, pass, hosts) && Refuses(env, k, list, props)
    ensures NoneOffered(env, props, hosts, t)
  {
    hide WriterDue, ListsOpen, Refuses;
  }

  lemma NothingOffered(env: Env, props: RoundRobinWeights.Props, candidates: seq<HostInfo>)
    ensures PassOffered(env, props, candidates, [])
  {
  }

  lemma NothingYet(candidates: seq<HostInfo>, pass: nat, end: int)
    ensures PassTrace([], pass, candidates, end) && Shrunk(candidates, candidates, candidates, [])
  {
  }

  lemma ClockAdvances(env: Env, n: nat)
    requires env.Lawful()
    ensures n > 0 ==> env.clock(n - 1) <= env.clock(n)
  {
  }

  lemma BeforeHorizon(env: Env, n: nat, horizon: nat, end: int)
    requires env.Lawful() && env.clock(horizon) >= end > env.clock(n)
    ensures n < horizon
  {
  }

  lemma LawfulChoice(env: Env, k: nat, hosts: seq<HostInfo>, props: RoundRobinWeights.Props)
    requires env.Lawful()
    ensures Selects(hosts, false, env.choose(k, hosts, false, props))
  {
  }

  /** A lawful choice among the remaining readers may be tried next, and removing it shortens the list. */
  lemma ChosenExtends(chosen: Result<HostInfo>, remaining: seq<HostInfo>, candidates: seq<HostInfo>,
                      left: seq<HostInfo>, u: Trace, a: Attempt, pass: nat, end: int)
    requires Selects(remaining, false, chosen) && chosen.Ok? && Shrunk(candidates, remaining, left, u)
    requires a.host == chosen.value && a.pass == pass && a.fromReaders && a.at < end
    ensures PassAttempt(a, pass, candidates, end) && a.host.host !in Tried(u)
    ensures |Without(remaining, a.host.host)| < |remaining|
  {
    assert a.host.host in Names(remaining);
  }

  lemma AllTried(candidates: seq<HostInfo>, left: seq<HostInfo>, u: Trace, pass: nat, end: int)
    requires Shrunk(candidates, [], left, u) && PassTrace(u, pass, candidates, end)
    ensures Tried(u) == Names(candidates)
  {
    forall a | a in u ensures a.host in candidates {
      var i :| 0 <= i < |u| && u[i] == a;
      assert PassAttempt(u[i], pass, candidates, end);
    }
    forall name | name in Names(candidates) ensures name in Tried(u) {
      var h :| h in candidates && h.host == name;
    }
  }

  lemma NothingAccepted(mode: FailoverMode)
    ensures EndsWell([], false, mode)
  {
  }

  lemma NothingTried(env: Env, props: RoundRobinWeights.Props, hosts: seq<HostInfo>)
    ensures AllOffered(env, props, hosts, []) && EachPassEnds([]) && WritersTried([], 0)
  {
  }

  lemma NothingKept(hosts: seq<HostInfo>, end: int)
    ensures Kept([], hosts, end) && Before([], 0) && Remaining(Readers(hosts), hosts, [])
  {
  }

  /** What a reader failover on this topology may leave behind: the attempts in order, each at a reader the selector
      offered from those open or at the original writer, who is tried in every pass before the next; nothing accepted
      before the last; no host given up as ineligible unless the selector threw on open readers; and the current host
      moved only by success. */
  ghost predicate ReaderOutcome(env: Env, hosts: seq<HostInfo>, end: int, mode: FailoverMode, ending: Ending, t: Trace,
                                before: HostInfo, after: HostInfo)
  {
    && Kept(t, hosts, end) && EndsWell(t, ending == Found, mode) && EachPassEnds(t)
    && AllOffered(env, ListProps(Readers(hosts)), hosts, t)
    && (ending == NoEligibleHost ==> NoneOffered(env, ListProps(Readers(hosts)), hosts, t))
    && after == (if ending == Found then t[|t| - 1].host else before)
    && (ending == NoTopology <==> hosts == []) && (hosts == [] ==> t == [])
  }

  ghost predicate SomeReaderOutcome(env: Env, hosts: seq<HostInfo>, end: int, mode: FailoverMode, ok: bool, t: Trace,
                                    before: HostInfo, after: HostInfo)
  {
    exists ending :: ReaderOutcome(env, hosts, end, mode, ending, t, before, after) && (ending == Found <==> ok)
  }

  /** What a writer failover may leave behind: at most one attempt, at an up writer of the topology, and success
      exactly when it connected, passed the check and the role query did not say reader. */
  ghost predicate WriterOutcome(hosts: seq<HostInfo>, ok: bool, t: Trace, before: HostInfo, after: HostInfo) {
    && |t| <= 1
    && (t != [] ==> t[0].host in hosts && t[0].host.isWriter && t[0].host.IsUp())
    && (ok <==> t != [] && t[0].connected && t[0].alive && !t[0].reader)
    && after == (if ok then t[0].host else before)
  }

  /** The weights of a list, as the selector gets them. */
  function ListProps(hosts: seq<HostInfo>): RoundRobinWeights.Props {
    map[RoundRobinWeights.HOST_WEIGHT_KEY := RoundRobinWeights.Print(hosts)]
  }

  function Enabled(connInfo: CS.ConnMap): CS.ConnMap {
    connInfo[CS.ENABLE_FAILOVER_KEY := CS.BOOL_TRUE]
  }

  lemma WriterChosen(env: Env, k: nat, hosts: seq<HostInfo>, props: RoundRobinWeights.Props)
    requires env.Lawful()
    ensures var r := env.choose(k, hosts, true, props);
            r.Ok? ==> r.value in hosts && r.value.isWriter && r.value.IsUp()
  {
    assert Selects(hosts, true, env.choose(k, hosts, true, props));
  }

  /** The mode a setting names, whatever its case. */
  function ModeNamed(text: string): Option<FailoverMode> {
    if CS.Upper(text) == "STRICT_READER" then Some(StrictReader)
    else if CS.Upper(text) == "STRICT_WRITER" then Some(StrictWriter)
    else if CS.Upper(text) == "READER_OR_WRITER" then Some(ReaderOrWriter)
    else None
  }

  /** `init_failover_mode`: without a valid setting, a reader endpoint accepts either role and any other wants the
      writer. */
  function InitialMode(connInfo: CS.ConnMap, isReaderClusterDns: bool): FailoverMode {
    var named := if FAILOVER_MODE_KEY in connInfo then ModeNamed(connInfo[FAILOVER_MODE_KEY]) else None;
    if named.Some? then named.value else if isReaderClusterDns then ReaderOrWriter else StrictWriter
  }

  /** The three modes are recognised in any mix of capitals and small letters. */
  lemma ModesRecognised(connInfo: CS.ConnMap, isReaderClusterDns: bool)
    requires FAILOVER_MODE_KEY in connInfo
    ensures var (text, mode) := (connInfo[FAILOVER_MODE_KEY], InitialMode(connInfo, isReaderClusterDns));
            && (CS.Capitals("STRICT_READER", text) ==> mode == StrictReader)
            && (CS.Capitals("STRICT_WRITER", text) ==> mode == StrictWriter)
            && (CS.Capitals("READER_OR_WRITER", text) ==> mode == ReaderOrWriter)
  {
    hide CS.Capitals, CS.Upper;
    var text := connInfo[FAILOVER_MODE_KEY];
    forall large | CS.Capitals(large, text) ensures CS.Upper(text) == large {
      CS.CapitalsAreUpper(large, text);
    }
    assert "STRICT_READER"[7] != "STRICT_WRITER"[7] && |"READER_OR_WRITER"| != |"STRICT_READER"|;
  }

  /** Any other setting, or none, leaves the choice to the endpoint: strict writer unless it is one of readers. */
  lemma ModeOtherwise(connInfo: CS.ConnMap, isReaderClusterDns: bool)
    requires FAILOVER_MODE_KEY in connInfo ==>
               forall large | CS.Capitals(large, connInfo[FAILOVER_MODE_KEY]) ::
                 large != "STRICT_READER" && large != "STRICT_WRITER" && large != "READER_OR_WRITER"
    ensures InitialMode(connInfo, isReaderClusterDns) == if isReaderClusterDns then ReaderOrWriter else StrictWriter
  {
    if FAILOVER_MODE_KEY in connInfo {
      var text := connInfo[FAILOVER_MODE_KEY];
      assert CS.Capitals(CS.Upper(text), text);
    }
  }

  class FailoverService {
    var currHost: HostInfo
    var connInfo: CS.ConnMap
    const failoverMode: FailoverMode
    const failoverTimeout: nat
    /** How many clock readings and connection attempts there have been. */
    var readings: nat
    var attempts: nat

    /** `timeout` is the parsed setting or its default. */
    constructor (host: string, defaultPort: int, connInfo: CS.ConnMap, isReaderClusterDns: bool, timeout: nat)
      ensures failoverMode == InitialMode(connInfo, isReaderClusterDns) && failoverTimeout == timeout
      ensures currHost == HostInfo(host, defaultPort, Up, false, 0) && this.connInfo == connInfo
      ensures readings == 0 && attempts == 0
    {
      failoverMode := InitialMode(connInfo, isReaderClusterDns);
      failoverTimeout := timeout;
      currHost := HostInfo(host, defaultPort, Up, false, 0);
      this.connInfo := connInfo;
      readings, attempts := 0, 0;
    }

    method GetCurrent(env: Env) returns (now: int)
      modifies this`readings
      ensures now == env.clock(old(readings)) && readings == old(readings) + 1
    {
      now := env.clock(readings);
      readings := readings + 1;
    }

    method ConnectToHost(env: Env, host: string) returns (connected: bool, connStr: string)
      modifies this`connInfo, this`attempts
      ensures connInfo == Pointed(old(connInfo), host) && CS.Prints(connInfo, connStr)
      ensures connected == env.connects(old(attempts), connStr) && attempts == old(attempts) + 1
    {
      connInfo := connInfo[CS.SERVER_HOST_KEY := host];
      connStr := CS.BuildConnectionString(connInfo);
      connected := env.connects(attempts, connStr);
      attempts := attempts + 1;
    }

    /** Connects, checks and asks for the role, stopping at the first no. */
    method TryHost(env: Env, pass: nat, fromReaders: bool, host: HostInfo, at: int) returns (a: Attempt)
      modifies this`connInfo, this`attempts
      ensures Consulted(env, old(attempts), old(connInfo), [a], attempts, connInfo)
      ensures a.pass == pass && a.fromReaders == fromReaders && a.host == host && a.at == at
      ensures (a.reader ==> a.alive) && (a.alive ==> a.connected)
    {
      var connected, connStr := ConnectToHost(env, host.host);
      var alive, reader := false, false;
      if connected {
        alive := env.checks(attempts - 1);
        if alive {
          reader := env.roles(attempts - 1);
        }
      }
      a := Attempt(pass, fromReaders, host, at, connStr, connected, alive, reader);
      ConsultedOnce(env, old(attempts), old(connInfo), a);
    }

    /** The inner loop of one pass. */
    method ReaderPass(env: Env, pass: nat, candidates: seq<HostInfo>, props: RoundRobinWeights.Props, end: int)
      returns (ok: bool, exhausted: bool, u: Trace, left: seq<HostInfo>)
      requires env.Lawful()
      modifies this
      ensures PassTrace(u, pass, candidates, end) && EndsWell(u, ok, failoverMode)
      ensures Consulted(env, old(attempts), old(connInfo), u, attempts, connInfo)
      ensures readings >= old(readings)
      ensures currHost == if ok then u[|u| - 1].host else old(currHost)
      ensures ok ==> !exhausted
      ensures !ok && !exhausted ==> Tried(u) == Names(candidates) || (readings > 0 && env.clock(readings - 1) >= end)
      ensures !ok ==> exists remaining :: Shrunk(candidates, remaining, left, u)
      ensures PassOffered(env, props, candidates, u)
      ensures exhausted ==>
                exists k, remaining ::
                  remaining != [] && Shrunk(candidates, remaining, left, u) && Refuses(env, k, remaining, props)
    {
      hide Consulted, Tried, Connected, PassTrace, Selects, Shrunk, Env.Lawful, PassOffered;
      ok, exhausted, u, left := false, false, [], candidates;
      assert PassOffered(env, props, candidates, []) by {
        NothingOffered(env, props, candidates);
      }
      NothingYet(candidates, pass, end);
      NotConsulted(env, attempts, connInfo);
      var remaining := candidates;
      while remaining != []
        invariant PassTrace(u, pass, candidates, end) && NoneAccepted(u, failoverMode)
        invariant Consulted(env, old(attempts), old(connInfo), u, attempts, connInfo)
        invariant currHost == old(currHost) && readings >= old(readings)
        invariant Shrunk(candidates, remaining, left, u) && PassOffered(env, props, candidates, u)
        decreases |remaining|
      {
        var now := GetCurrent(env);
        if now >= end {
          return;
        }
        var chosen := env.choose(readings, remaining, false, props);
        assert Selects(remaining, false, chosen) by {
          LawfulChoice(env, readings, remaining, props);
        }
        if chosen.Throws? {
          assert Refuses(env, readings, remaining, props);
          exhausted := true;
          return;
        }
        var host := chosen.value;
        assert Offers(env, readings, remaining, props, host);
        ghost var k, c := attempts, connInfo;
        var a := TryHost(env, pass, true, host, now);
        ChosenExtends(chosen, remaining, candidates, left, u, a, pass, end);
        PassStep(u, a, pass, candidates, end);
        OffersStep(env, props, candidates, remaining, left, u, readings, a);
        ShrunkStep(candidates, remaining, left, u, a);
        ConsultedOn(env, old(attempts), old(connInfo), u, k, c, [a], attempts, connInfo);
        u := u + [a];
        if !a.connected {
          remaining := Without(remaining, host.host);
          continue;
        }
        if a.alive {
          if a.reader || failoverMode != StrictReader {
            currHost := host;
            ok := true;
            return;
          }
        }
        remaining := Without(remaining, host.host);
        if !a.reader {
          left := Without(left, host.host);
        }
      }
      AllTried(candidates, left, u, pass, end);
    }

    /** The original writer, which may have become a reader; skipped when the deadline has passed. */
    method TryOriginalWriter(env: Env, pass: nat, writer: HostInfo, end: int) returns (ok: bool, u: Trace)
      modifies this
      ensures |u| <= 1 && EndsWell(u, ok, failoverMode)
      ensures forall a | a in u ::
                a.pass == pass && !a.fromReaders && a.host == writer && a.at == env.clock(old(readings)) <= end
      ensures Consulted(env, old(attempts), old(connInfo), u, attempts, connInfo)
      ensures readings == old(readings) + 1
      ensures currHost == if ok then writer else old(currHost)
      ensures u == [] ==> env.clock(old(readings)) > end
    {
      hide Consulted;
      ok, u := false, [];
      NotConsulted(env, attempts, connInfo);
      var now := GetCurrent(env);
      if now > end {
        return;
      }
      var a := TryHost(env, pass, false, writer, now);
      u := [a];
      if a.connected {
        if !a.alive {
          return;
        }
        if a.reader || failoverMode != StrictReader {
          currHost := writer;
          ok := true;
        }
      }
    }

    /** One turn of the outer loop: the remaining readers, then the original writer. */
    method Pass(env: Env, pass: nat, writer: HostInfo, candidates: seq<HostInfo>, props: RoundRobinWeights.Props,
                end: int, ghost hosts: seq<HostInfo>, ghost t: Trace)
      returns (ok: bool, exhausted: bool, u: Trace, left: seq<HostInfo>)
      requires env.Lawful() && writer == OriginalWriter(hosts)
      requires Kept(t, hosts, end) && Before(t, pass) && Remaining(candidates, hosts, t)
      requires AllOffered(env, props, hosts, t)
      modifies this
      ensures Kept(t + u, hosts, end) && EndsWell(u, ok, failoverMode)
      ensures !ok && !exhausted ==> Before(t + u, pass + 1) && Remaining(left, hosts, t + u)
      ensures AllOffered(env, props, hosts, t + u) && (exhausted ==> NoneOffered(env, props, hosts, t + u))
      ensures forall a | a in u :: a.pass == pass
      ensures !ok && !exhausted ==> WriterIn(u, pass) || (readings > 0 && env.clock(readings - 1) > end)
      ensures Consulted(env, old(attempts), old(connInfo), u, attempts, connInfo)
      ensures readings >= old(readings)
      ensures currHost == if ok then u[|u| - 1].host else old(currHost)
      ensures ok ==> !exhausted
    {
      hide Kept, Before, Remaining, PassTrace, Shrunk, Consulted, Tried, Covered, WriterDue, Env.Lawful, ListsOpen;
      hide AllOffered, PassOffered, NoneOffered, Refuses;
      ok, exhausted, u, left := ReaderPass(env, pass, candidates, props, end);
      ReadersDone(t, u, pass, candidates, hosts, end);
      OffersJoin(env, props, hosts, t, u, pass, candidates, end);
      PassesAlone(u, u, pass, candidates, end);
      if ok {
        return;
      }
      if exhausted {
        ghost var k, rest :| rest != [] && Shrunk(candidates, rest, left, u) && Refuses(env, k, rest, props);
        OpenHere(t, u, pass, candidates, rest, left, hosts);
        NoneOfferedHere(env, props, hosts, t + u, k, rest, pass);
        return;
      }
      ghost var remaining :| Shrunk(candidates, remaining, left, u);
      LeftRemaining(t, u, candidates, remaining, left, hosts);
      ClockAdvances(env, readings);
      var r := u;
      ghost var k, c := attempts, connInfo;
      var w;
      ok, w := TryOriginalWriter(env, pass, writer, end);
      WriterDone(t + r, w, pass, left, hosts, end);
      WriterOffersNothing(env, props, hosts, t + r, w);
      assert w != [] ==> w[0] in r + w && WriterIn(r + w, pass);
      ConsultedOn(env, old(attempts), old(connInfo), r, k, c, w, attempts, connInfo);
      assert t + (r + w) == t + r + w;
      u := r + w;
    }

    /** The outer loop, from the first pass on. */
    method RetryUntil(env: Env, writer: HostInfo, readers: seq<HostInfo>, props: RoundRobinWeights.Props, end: int,
                      ghost hosts: seq<HostInfo>, ghost horizon: nat)
      returns (ending: Ending, t: Trace)
      requires env.Lawful() && env.clock(horizon) >= end
      requires writer == OriginalWriter(hosts) && readers == Readers(hosts)
      modifies this
      ensures ending != NoTopology && Kept(t, hosts, end) && EndsWell(t, ending == Found, failoverMode)
      ensures currHost == if ending == Found then t[|t| - 1].host else old(currHost)
      ensures ending == TimedOut ==> readings > 0 && env.clock(readings - 1) >= end
      ensures AllOffered(env, props, hosts, t) && (ending == NoEligibleHost ==> NoneOffered(env, props, hosts, t))
      ensures EachPassEnds(t)
      ensures Consulted(env, old(attempts), old(connInfo), t, attempts, connInfo)
    {
      hide Kept, Before, Remaining, Consulted, EndsWell, OriginalWriter, Readers, Env.Lawful, AllOffered, NoneOffered;
      hide EachPassEnds, WritersTried, WriterIn;
      t := [];
      NothingKept(hosts, end);
      NothingAccepted(failoverMode);
      NothingTried(env, props, hosts);
      NotConsulted(env, attempts, connInfo);
      var candidates, again, pass := readers, true, 0;
      while again
        invariant Kept(t, hosts, end) && Before(t, pass) && Remaining(candidates, hosts, t)
        invariant EndsWell(t, false, failoverMode) && currHost == old(currHost)
        invariant Consulted(env, old(attempts), old(connInfo), t, attempts, connInfo)
        invariant AllOffered(env, props, hosts, t) && EachPassEnds(t) && (again ==> WritersTried(t, pass))
        invariant again ==> pass == 0 || readings <= horizon
        invariant !again ==> readings > 0 && env.clock(readings - 1) >= end
        decreases again, horizon - readings
      {
        ghost var k, c := attempts, connInfo;
        var ok, exhausted, u, left := Pass(env, pass, writer, candidates, props, end, hosts, t);
        EndsWellOn(t, u, ok, failoverMode);
        PassAfterWriters(t, u, pass);
        ConsultedOn(env, old(attempts), old(connInfo), t, k, c, u, attempts, connInfo);
        t := t + u;
        if ok {
          return Found, t;
        }
        if exhausted {
          return NoEligibleHost, t;
        }
        candidates := left;
        ClockAdvances(env, readings);
        if env.clock(readings) < end {
          BeforeHorizon(env, readings, horizon, end);
        }
        var now := GetCurrent(env);
        again := now < end;
        pass := pass + 1;
      }
      ending := TimedOut;
    }

    /** `failover_reader`; `hosts` is the topology read after the refresh. */
    method FailoverReader(env: Env, hosts: seq<HostInfo>) returns (ending: Ending, t: Trace)
      requires env.Lawful() && env.ClockReaches(env.clock(readings) + failoverTimeout)
      modifies this
      ensures var end := env.clock(old(readings)) + failoverTimeout;
              && ReaderOutcome(env, hosts, end, failoverMode, ending, t, old(currHost), currHost)
              && (ending == TimedOut ==> readings > 0 && env.clock(readings - 1) >= end)
      ensures Consulted(env, old(attempts), old(connInfo), t, attempts, connInfo)
    {
      hide Kept, Consulted, EndsWell, OriginalWriter, Readers, Env.Lawful, RoundRobinWeights.Print;
      hide AllOffered, NoneOffered, EachPassEnds;
      var currTime := GetCurrent(env);
      var end := currTime + failoverTimeout;
      ghost var horizon: nat :| env.clock(horizon) >= end;
      if hosts == [] {
        NothingKept(hosts, end);
        NothingAccepted(failoverMode);
        NothingTried(env, ListProps(Readers(hosts)), hosts);
        NotConsulted(env, attempts, connInfo);
        return NoTopology, [];
      }
      var originalWriter, readers := SplitHosts(hosts);
      var props := RoundRobinWeights.SetRoundRobinWeight(readers, map[]);
      ending, t := RetryUntil(env, originalWriter, readers, props, end, hosts, horizon);
    }

    /** `failover_writer`; `hosts` is the topology read after the refresh.  No clock is read. */
    method FailoverWriter(env: Env, hosts: seq<HostInfo>) returns (ok: bool, t: Trace)
      requires env.Lawful()
      modifies this
      ensures WriterOutcome(hosts, ok, t, old(currHost), currHost) && readings == old(readings)
      ensures Consulted(env, old(attempts), old(connInfo), t, attempts, connInfo)
      ensures env.choose(readings, hosts, true, ListProps(hosts)) == if t == [] then Throws else Ok(t[0].host)
    {
      hide Consulted, Selects, Env.Lawful, RoundRobinWeights.Print;
      ok, t := false, [];
      NotConsulted(env, attempts, connInfo);
      var props := RoundRobinWeights.SetRoundRobinWeight(hosts, map[]);
      var chosen := env.choose(readings, hosts, true, props);
      if chosen.Throws? {
        return;
      }
      WriterChosen(env, readings, hosts, props);
      var a := TryHost(env, 0, false, chosen.value, 0);
      t := [a];
      if !a.connected {
        return;
      }
      if a.alive {
        if !a.reader {
          currHost := chosen.value;
          ok := true;
        }
      }
    }

    static predicate CheckShouldFailover(sqlState: string) {
      SQL_STATE_PREFIX <= sqlState
    }

    /** A state that is no communication error changes nothing; any other switches failover on in the settings and
        goes to the writer or the readers as the mode says.  Only a success moves the current host. */
    method Failover(env: Env, sqlState: string, hosts: seq<HostInfo>) returns (status: FailoverStatus, t: Trace)
      requires env.Lawful()
      requires CheckShouldFailover(sqlState) && failoverMode != StrictWriter ==>
                 env.ClockReaches(env.clock(readings) + failoverTimeout)
      modifies this
      ensures status == Skipped <==> !(|sqlState| >= 2 && sqlState[0] == '0' && sqlState[1] == '8')
      ensures status == Skipped ==> t == [] && connInfo == old(connInfo)
      ensures status != Succeed ==> currHost == old(currHost)
      ensures status != Skipped && failoverMode == StrictWriter ==>
                WriterOutcome(hosts, status == Succeed, t, old(currHost), currHost)
      ensures status != Skipped && failoverMode != StrictWriter ==>
                SomeReaderOutcome(env, hosts, env.clock(old(readings)) + failoverTimeout, failoverMode,
                                  status == Succeed, t, old(currHost), currHost)
      ensures status != Skipped ==>
                Consulted(env, old(attempts), Enabled(old(connInfo)), t, attempts, connInfo)
    {
      hide Consulted, Kept, EndsWell, Env.Lawful, AllOffered, NoneOffered, EachPassEnds;
      t := [];
      if !CheckShouldFailover(sqlState) {
        return Skipped, t;
      }
      connInfo := connInfo[CS.ENABLE_FAILOVER_KEY := CS.BOOL_TRUE];
      var result;
      if failoverMode == StrictWriter {
        result, t := FailoverWriter(env, hosts);
      } else {
        var ending;
        ending, t := FailoverReader(env, hosts);
        result := ending == Found;
      }
      status := if result then Succeed else Failed;
    }
  }

  // ---- what a success means ----

  lemma PointedClean(connInfo: CS.ConnMap, name: string)
    requires CS.CleanMap(connInfo) && ';' !in name
    ensures CS.CleanMap(Pointed(connInfo, name))
  {
    var key := CS.SERVER_HOST_KEY;
    assert key == ['S', 'E', 'R', 'V', 'E', 'R'];
  }

  /** After any attempts of a failover, failover is switched on in the settings, and all settings but that switch and
      the server are what they were. */
  lemma SwitchedOnThroughout(env: Env, k: nat, c: CS.ConnMap, t: Trace, k1: nat, c1: CS.ConnMap)
    requires Consulted(env, k, Enabled(c), t, k1, c1)
    ensures "ENABLECLUSTERFAILOVER" in c1 && c1["ENABLECLUSTERFAILOVER"] == "1"
    ensures forall key | key != "SERVER" && key != "ENABLECLUSTERFAILOVER" ::
              (key in c1 <==> key in c) && (key in c ==> c1[key] == c[key])
  {
    assert "ENABLECLUSTERFAILOVER" != "SERVER" by {
      assert "ENABLECLUSTERFAILOVER"[0] != "SERVER"[0];
    }
    hide Answered;
  }

  /** After a successful reader failover: the current host is a host of the topology, or the default one if the
      topology has no writer; the server setting names it; the database last answered that it connected, passed the
      check and, in strict reader mode, is a reader; and the connection string used, parsed again, says what the
      settings say. */
  lemma ReaderSuccessIsSound(env: Env, hosts: seq<HostInfo>, end: int, mode: FailoverMode, t: Trace, before: HostInfo,
                             after: HostInfo, k: nat, c: CS.ConnMap, k1: nat, c1: CS.ConnMap)
    requires ReaderOutcome(env, hosts, end, mode, Found, t, before, after) && Consulted(env, k, c, t, k1, c1)
    ensures after in hosts || (after == NO_HOST && forall h | h in hosts :: !h.isWriter)
    ensures CS.SERVER_HOST_KEY in c1 && c1[CS.SERVER_HOST_KEY] == after.host
    ensures k1 > 0 && t != []
    ensures var text := t[|t| - 1].connStr;
            && env.connects(k1 - 1, text) && env.checks(k1 - 1) && (mode == StrictReader ==> env.roles(k1 - 1))
            && (CS.CleanMap(c) && ';' !in after.host ==> CS.Parse(text) == CS.NonEmpty(c1))
  {
    hide CS.Parse, CS.CleanMap, CS.NonEmpty;
    var n := |t| - 1;
    assert Sound(t[n], hosts, end);
    assert Answered(env, t[n], k + n, c);
    if CS.CleanMap(c) && ';' !in after.host {
      PointedClean(c, after.host);
      CS.PrintThenParse(c1, t[n].connStr);
    }
  }

  /** After a failed reader failover, every attempt met a refused connection, a failed check or, in strict reader mode,
      no reader. */
  lemma ReaderFailureIsComplete(env: Env, hosts: seq<HostInfo>, end: int, mode: FailoverMode, ending: Ending, t: Trace,
                                before: HostInfo, after: HostInfo, k: nat, c: CS.ConnMap, k1: nat, c1: CS.ConnMap)
    requires ReaderOutcome(env, hosts, end, mode, ending, t, before, after) && Consulted(env, k, c, t, k1, c1)
    requires ending != Found
    ensures after == before && k1 == k + |t|
    ensures forall i | 0 <= i < |t| ::
              !env.connects(k + i, t[i].connStr) || !env.checks(k + i) || (mode == StrictReader && !env.roles(k + i))
  {
    hide AllOffered, NoneOffered, EachPassEnds, Kept;
    forall i | 0 <= i < |t|
      ensures !env.connects(k + i, t[i].connStr) || !env.checks(k + i) || (mode == StrictReader && !env.roles(k + i))
    {
      assert t[i] in t && Answered(env, t[i], k + i, c);
    }
  }

  /** A reader given up as ineligible: the topology still lists a reader that never connected. */
  lemma GivenUpLeavesReaders(env: Env, hosts: seq<HostInfo>, end: int, mode: FailoverMode, t: Trace, before: HostInfo,
                             after: HostInfo) returns (h: HostInfo)
    requires ReaderOutcome(env, hosts, end, mode, NoEligibleHost, t, before, after)
    ensures h in hosts && !h.isWriter && h.host !in Connected(t)
  {
    hide AllOffered, EachPassEnds, Kept, EndsWell;
    var k, list, pass :| list != [] && WriterDue(t, pass) && ListsOpen(list, t, pass, hosts) &&
      Refuses(env, k, list, ListProps(Readers(hosts)));
    h := list[0];
    assert h in list && Open(h, t, pass, hosts);
  }
}
