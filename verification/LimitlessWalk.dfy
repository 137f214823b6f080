/** The fallback of `LimitlessMonitorService::GetHostInfo`: up to five tries over the heaviest routers, each failed one
    marked down in the local copy of the list. */
module LimitlessWalk {
  import opened Basics
  import opened Hosts
  import opened HostSelectors

  const CONNECT_RETRY_ATTEMPTS: nat := 5

  /** Whether the server of this name answers the k-th connection test. */
  type Tests = (string, nat) -> bool

  /** The names a fallback may try. */
  ghost function Candidates(hosts: seq<HostInfo>): set<string> {
    set h | h in hosts && SameRole(h, true) :: h.host
  }

  /** The i-th try went to a writer that was up, had not been tried, and was the heaviest of those. */
  ghost predicate HeaviestLeft(hosts: seq<HostInfo>, tried: seq<HostInfo>, i: nat)
    requires i < |tried|
  {
    && tried[i] in hosts && SameRole(tried[i], true) && tried[i].host !in Names(tried[..i])
    && forall h | h in hosts && SameRole(h, true) && h.host !in Names(tried[..i]) :: h.weight <= tried[i].weight
  }

  ghost predicate Walk(hosts: seq<HostInfo>, tried: seq<HostInfo>) {
    forall i | 0 <= i < |tried| :: HeaviestLeft(hosts, tried, i)
  }

  /** What the tests said: the last try of a successful walk passed, every other try failed. */
  ghost predicate Outcome(tried: seq<HostInfo>, host: Option<HostInfo>, test: Tests, offset: nat) {
    && (host.Some? ==> tried != [] && host.value == tried[|tried| - 1] && test(host.value.host, offset + |tried| - 1))
    && (forall i | 0 <= i < (if host.Some? then |tried| - 1 else |tried|) :: !test(tried[i].host, offset + i))
  }

  /** The tries have pairwise different names and never grow in weight. */
  lemma WalkDescends(hosts: seq<HostInfo>, tried: seq<HostInfo>)
    requires Walk(hosts, tried)
    ensures DistinctNames(tried)
    ensures forall i, j | 0 <= i < j < |tried| :: tried[j].weight <= tried[i].weight
  {
    forall i, j | 0 <= i < j < |tried|
      ensures tried[i].host != tried[j].host && tried[j].weight <= tried[i].weight
    {
      assert HeaviestLeft(hosts, tried, i) && HeaviestLeft(hosts, tried, j);
      assert tried[i] == tried[..j][i];
      assert Names(tried[..i]) <= Names(tried[..j]);
    }
  }

  lemma {:induction false} DistinctSize(tried: seq<HostInfo>)
    requires DistinctNames(tried)
    ensures |Names(tried)| == |tried|
  {
    if tried != [] {
      var n := |tried| - 1;
      DistinctSize(tried[..n]);
      assert Names(tried) == Names(tried[..n]) + {tried[n].host};
    }
  }

  lemma SubsetSize<T>(a: set<T>, b: set<T>)
    requires a <= b
    ensures |a| <= |b| && (|a| == |b| ==> a == b)
  {
    assert b == a + (b - a) && a !! b - a;
  }

  /** A walk never tries more hosts than there are candidates; it has tried as many exactly when none is left. */
  lemma WalkSize(hosts: seq<HostInfo>, tried: seq<HostInfo>)
    requires Walk(hosts, tried)
    ensures |tried| <= |Candidates(hosts)|
    ensures |tried| == |Candidates(hosts)| <==>
            forall h | h in hosts && SameRole(h, true) :: h.host in Names(tried)
  {
    WalkDescends(hosts, tried);
    DistinctSize(tried);
    forall name | name in Names(tried) ensures name in Candidates(hosts) {
      var i :| 0 <= i < |tried| && tried[i].host == name;
      assert HeaviestLeft(hosts, tried, i);
    }
    SubsetSize(Names(tried), Candidates(hosts));
    if forall h | h in hosts && SameRole(h, true) :: h.host in Names(tried) {
      assert Names(tried) == Candidates(hosts);
    } else {
      var h :| h in hosts && SameRole(h, true) && h.host !in Names(tried);
      assert h.host in Candidates(hosts);
    }
  }

  // ---- the loop ----

  /** The list with every host of these names marked down. */
  ghost predicate MarkedDown(now: seq<HostInfo>, hosts: seq<HostInfo>, names: set<string>) {
    && |now| == |hosts|
    && forall i | 0 <= i < |hosts| ::
         now[i] == if hosts[i].host in names then hosts[i].(state := Down) else hosts[i]
  }

  method MarkDown(hosts: seq<HostInfo>, name: string) returns (now: seq<HostInfo>)
    ensures MarkedDown(now, hosts, {name})
  {
    now := hosts;
    for i := 0 to |hosts|
      invariant |now| == |hosts|
      invariant forall k | 0 <= k < |hosts| ::
        now[k] == if k < i && hosts[k].host == name then hosts[k].(state := Down) else hosts[k]
    {
      if now[i].host == name {
        now := now[i := now[i].(state := Down)];
      }
    }
  }

  /** What the selector sees in the marked list is what has not been tried. */
  lemma MarkedEligible(now: seq<HostInfo>, hosts: seq<HostInfo>, names: set<string>, h: HostInfo)
    requires MarkedDown(now, hosts, names)
    ensures h in now && SameRole(h, true) <==> h in hosts && SameRole(h, true) && h.host !in names
  {
    if h in hosts {
      var i :| 0 <= i < |hosts| && hosts[i] == h;
      assert now[i] == if h.host in names then h.(state := Down) else h;
    }
  }

  lemma MarkedAgain(next: seq<HostInfo>, now: seq<HostInfo>, hosts: seq<HostInfo>, tried: seq<HostInfo>, h: HostInfo)
    requires MarkedDown(now, hosts, Names(tried)) && MarkedDown(next, now, {h.host})
    ensures MarkedDown(next, hosts, Names(tried + [h]))
  {
    assert Names(tried + [h]) == Names(tried) + {h.host};
  }

  /** The host chosen from the marked list extends the walk. */
  lemma WalkOn(hosts: seq<HostInfo>, now: seq<HostInfo>, tried: seq<HostInfo>)
    requires Walk(hosts, tried) && MarkedDown(now, hosts, Names(tried)) && HighestWeight(now, true).Ok?
    ensures Walk(hosts, tried + [HighestWeight(now, true).value])
  {
    var best := HighestWeight(now, true).value;
    var k := HighestWeightIsFirstHeaviest(now, true);
    var longer := tried + [best];
    forall h | h in hosts && SameRole(h, true) && h.host !in Names(tried) ensures h.weight <= best.weight {
      MarkedEligible(now, hosts, Names(tried), h);
    }
    MarkedEligible(now, hosts, Names(tried), best);
    assert longer[..|tried|] == tried;
    forall i | 0 <= i < |longer| ensures HeaviestLeft(hosts, longer, i) {
      if i < |tried| {
        assert HeaviestLeft(hosts, tried, i) && longer[..i] == tried[..i];
      }
    }
  }

  /** The walk ends with a host that passed its test, or after five failures, or when no candidate is left. */
  method Fallback(list: seq<HostInfo>, test: Tests, offset: nat)
    returns (host: Option<HostInfo>, tried: seq<HostInfo>)
    ensures Walk(list, tried) && Outcome(tried, host, test, offset) && |tried| <= 5
    ensures host.None? ==> |tried| == if |Candidates(list)| < 5 then |Candidates(list)| else 5
  {
    hide HighestWeight;
    var hosts := list;
    host, tried := None, [];
    var i := 0;
    while i < CONNECT_RETRY_ATTEMPTS
      invariant i == |tried| <= CONNECT_RETRY_ATTEMPTS
      invariant Walk(list, tried) && Outcome(tried, None, test, offset)
      invariant MarkedDown(hosts, list, Names(tried))
    {
      var chosen := HighestWeight(hosts, true);
      if chosen.Throws? {
        forall h | h in list && SameRole(h, true) ensures h.host in Names(tried) {
          MarkedEligible(hosts, list, Names(tried), h);
        }
        break;
      }
      WalkOn(list, hosts, tried);
      if test(chosen.value.host, offset + i) {
        return Some(chosen.value), tried + [chosen.value];
      }
      var marked := MarkDown(hosts, chosen.value.host);
      MarkedAgain(marked, hosts, list, tried, chosen.value);
      hosts := marked;
      tried := tried + [chosen.value];
      i := i + 1;
    }
    WalkSize(list, tried);
  }
}
