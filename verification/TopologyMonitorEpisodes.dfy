/** What the topology monitor decides: the choice of mode, regular mode, the start of a panic episode, the pick-up of a
    writer, and what a node does with the connection it has.  Every statement follows one thread while the others
    wait. */
module TopologyMonitorEpisodes {
  import opened Basics
  import opened Hosts
  import opened TopologyMonitor
  import opened TopologyMonitorRuns

  lemma Once(s: State, a: Action, end: State)
    requires Enabled(s, a) && Apply(s, a) == end
    ensures Takes(s, [a], end)
  {
    hide Enabled, Apply;
    assert [a][1..] == [];
    Stays(end);
    First(s, [a], end, end);
  }

  lemma Onwards(s: State, a: Action, next: State, rest: seq<Action>, end: State)
    requires Enabled(s, a) && Apply(s, a) == next && Takes(next, rest, end)
    ensures Takes(s, [a] + rest, end)
  {
    hide Enabled, Apply, Takes;
    assert ([a] + rest)[1..] == rest;
    First(s, [a] + rest, next, end);
  }

  lemma Twice(s: State, a: Action, next: State, b: Action, end: State)
    requires Enabled(s, a) && Apply(s, a) == next && Enabled(next, b) && Apply(next, b) == end
    ensures Takes(s, [a, b], end)
  {
    hide Enabled, Apply, Takes;
    Once(next, b, end);
    Onwards(s, a, next, [b], end);
    assert [a] + [b] == [a, b];
  }

  lemma Thrice(s: State, a: Action, next: State, b: Action, last: State, c: Action, end: State)
    requires Enabled(s, a) && Apply(s, a) == next && Enabled(next, b) && Apply(next, b) == last
    requires Enabled(last, c) && Apply(last, c) == end
    ensures Takes(s, [a, b, c], end)
  {
    hide Enabled, Apply, Takes;
    Twice(next, b, last, c, end);
    Onwards(s, a, next, [b, c], end);
    assert [a] + [b, c] == [a, b, c];
  }

  lemma Joined(s: State, xs: seq<Action>, middle: State, ys: seq<Action>, end: State)
    requires Takes(s, xs, middle) && Takes(middle, ys, end)
    ensures Takes(s, xs + ys, end)
  {
    RunConcat(s, xs, ys);
  }

  // ---- the choice of mode ----

  /** The main thread enters regular mode exactly when it holds a handle and believes it to be the writer's; otherwise
      it panics, starting an episode when there are no nodes and looking for a writer when there are. */
  lemma ModeChoice(s: State)
    requires s.pc.Top?
    ensures if s.main.Some? && s.isWriter then Takes(s, [ByMode(ReadMain), ByMode(ReadFlag)], s.(pc := RegularJoin))
            else
              var panic := s.(pc := if s.nodes == map[] then InitStop else Pickup);
              if s.main.None? then Takes(s, [ByMode(ReadMain)], panic)
              else Takes(s, [ByMode(ReadMain), ByMode(ReadFlag)], panic)
  {
    hide Takes;
    if s.main.None? {
      Once(s, ByMode(ReadMain), Apply(s, ByMode(ReadMain)));
    } else {
      var next := s.(pc := TopFlag);
      Twice(s, ByMode(ReadMain), next, ByMode(ReadFlag), Apply(next, ByMode(ReadFlag)));
    }
  }

  /** The handle of the main slot, once freed, is the last one freed. */
  function FreedNow(s: State): seq<Handle> {
    s.log.freed + if s.main.Some? then [s.main.value] else []
  }

  /** A forced refresh takes the main connection away, frees it, and leaves all else as it was; the main thread panics
      the next time it chooses. */
  lemma ForceRefreshPanics(s: State)
    requires !s.pc.HoldsHdbcMutex()
    ensures var s1 := s.(main := None, isWriter := false, log := s.log.(freed := FreedNow(s)));
            && Takes(s, [ByMode(ForceRefresh)], s1)
            && (s.pc.Top? ==> Takes(s1, [ByMode(ReadMain)], s1.(pc := if s.nodes == map[] then InitStop else Pickup)))
  {
    hide Takes;
    var s1 := s.(main := None, isWriter := false, log := s.log.(freed := FreedNow(s)));
    assert s.log.freed + [] == s.log.freed;
    Once(s, ByMode(ForceRefresh), s1);
    if s.pc.Top? {
      ModeChoice(s1);
    }
  }

  /** Regular mode keeps the connection while it answers with a topology, and drops it otherwise. */
  lemma RegularMode(s: State, empty: bool)
    requires s.pc.RegularJoin? && s.nodes == map[] && (s.main.None? ==> empty)
    ensures if empty then
              Takes(s, [ByMode(JoinDone), ByMode(RegularHosts(true)), ByMode(DropMain)],
                    s.(main := None, isWriter := false, pc := Top, log := s.log.(freed := FreedNow(s))))
            else Takes(s, [ByMode(JoinDone), ByMode(RegularHosts(false))], s.(pc := Top))
  {
    hide Takes;
    assert s.log.freed + [] == s.log.freed;
    if empty {
      Thrice(s, ByMode(JoinDone), s.(pc := RegularFetch), ByMode(RegularHosts(true)), s.(pc := RegularDrop),
             ByMode(DropMain), s.(main := None, isWriter := false, pc := Top, log := s.log.(freed := FreedNow(s))));
    } else {
      Twice(s, ByMode(JoinDone), s.(pc := RegularFetch), ByMode(RegularHosts(false)), s.(pc := Top));
    }
  }

  // ---- the start of an episode ----

  function Also(freed: seq<Handle>, h: Option<Handle>): seq<Handle> {
    freed + if h.Some? then [h.value] else []
  }

  /** An episode starts with the stop flag down and both hand-over slots empty, what they held freed, the writer's
      first. */
  lemma EpisodeStarts(s: State)
    requires s.pc.InitStop?
    ensures Takes(s, [ByInit(ClearStop), ByInit(FreeNodeWriter), ByInit(FreeNodeReader)] + [ByInit(ClearNodeInfo)],
                  s.(stop := false, nodeWriter := None, nodeReader := None, nodeWriterHost := None, pc := InitHosts,
                     log := s.log.(freed := Also(Also(s.log.freed, s.nodeWriter), s.nodeReader), filledBy := [])))
  {
    hide Takes;
    var f1 := Also(s.log.freed, s.nodeWriter);
    var f2 := Also(f1, s.nodeReader);
    assert s.log.freed + [] == s.log.freed && f1 + [] == f1;
    var s1 := s.(stop := false, pc := InitWriter);
    var s2 := s1.(nodeWriter := None, pc := InitReader, log := s.log.(freed := f1, filledBy := []));
    var s3 := s2.(nodeReader := None, pc := InitInfo, log := s2.log.(freed := f2));
    var s4 := s3.(nodeWriterHost := None, pc := InitHosts);
    Thrice(s, ByInit(ClearStop), s1, ByInit(FreeNodeWriter), s2, ByInit(FreeNodeReader), s3);
    Once(s3, ByInit(ClearNodeInfo), s4);
    Joined(s, [ByInit(ClearStop), ByInit(FreeNodeWriter), ByInit(FreeNodeReader)], s3, [ByInit(ClearNodeInfo)], s4);
  }

  /** A topology in the cache is used as it is: nodes are started for it, unless a writer has been found meanwhile. */
  lemma KnownTopology(s: State, hosts: seq<HostInfo>)
    requires s.pc.InitHosts? && hosts != []
    ensures Takes(s, [ByInit(ReadTopology(hosts)), ByInit(PassGate)],
                  s.(pc := if s.isWriter then Top else Spawn(hosts)))
  {
    hide Takes;
    Twice(s, ByInit(ReadTopology(hosts)), s.(pc := InitGate(hosts)), ByInit(PassGate),
          s.(pc := if s.isWriter then Top else Spawn(hosts)));
  }

  /** Without one, a main connection that is there is asked; it is dropped when it knows no topology either. */
  lemma AskMain(s: State, hosts: seq<HostInfo>)
    requires s.pc.InitHosts? && s.main.Some?
    ensures var asked := [ByInit(ReadTopology([])), ByInit(TestMain), ByInit(FetchHosts(hosts))];
            if hosts != [] then Takes(s, asked, s.(pc := InitGate(hosts)))
            else Takes(s, asked + [ByInit(CloseMain)],
                       s.(main := None, isWriter := false, pc := InitGate([]), log := s.log.(freed := FreedNow(s))))
  {
    hide Takes;
    var asked := [ByInit(ReadTopology([])), ByInit(TestMain), ByInit(FetchHosts(hosts))];
    var s3 := s.(pc := if hosts == [] then OpenClose else InitGate(hosts));
    Thrice(s, ByInit(ReadTopology([])), s.(pc := OpenCheck), ByInit(TestMain), s.(pc := OpenFetch),
           ByInit(FetchHosts(hosts)), s3);
    if hosts == [] {
      var s4 := s.(main := None, isWriter := false, pc := InitGate([]), log := s.log.(freed := FreedNow(s)));
      Once(s3, ByInit(CloseMain), s4);
      Joined(s, asked, s3, [ByInit(CloseMain)], s4);
    }
  }

  /** Without a main connection one is opened.  A connection that fails is freed; one that opens becomes the main one,
      and the writer's exactly when the writer query names a writer, whose host is then remembered. */
  lemma OpenMain(s: State, h: Handle, connected: bool, writerHost: Option<HostInfo>)
    requires s.pc.InitHosts? && s.main.None? && s.local.None? && !s.isWriter && h !in s.log.issued
    ensures var log := s.log.(issued := s.log.issued + {h});
            var open := [ByInit(ReadTopology([])), ByInit(TestMain), ByInit(Connect(h, connected))];
            if !connected then Takes(s, open, s.(pc := InitGate([]), log := log.(freed := s.log.freed + [h])))
            else
              Takes(s, open + [ByInit(Install(writerHost))],
                    if writerHost.None? then s.(main := Some(h), pc := OpenFetch, log := log)
                    else s.(main := Some(h), isWriter := true, mainHost := writerHost, pc := OpenFetch,
                            log := log.(verified := s.log.verified + {h})))
  {
    hide Takes;
    var log := s.log.(issued := s.log.issued + {h});
    var open := [ByInit(ReadTopology([])), ByInit(TestMain), ByInit(Connect(h, connected))];
    var s3 := if connected then s.(local := Some(h), pc := OpenInstall, log := log)
              else s.(pc := InitGate([]), log := log.(freed := s.log.freed + [h]));
    Thrice(s, ByInit(ReadTopology([])), s.(pc := OpenCheck), ByInit(TestMain), s.(pc := OpenConnect),
           ByInit(Connect(h, connected)), s3);
    if connected {
      var s4 := if writerHost.None? then s.(main := Some(h), pc := OpenFetch, log := log)
                else s.(main := Some(h), isWriter := true, mainHost := writerHost, pc := OpenFetch,
                        log := log.(verified := s.log.verified + {h}));
      Once(s3, ByInit(Install(writerHost)), s4);
      Joined(s, open, s3, [ByInit(Install(writerHost))], s4);
    }
  }

  /** Nodes are started exactly for a topology, and only while no writer is known. */
  lemma Gate(s: State)
    requires s.pc.InitGate?
    ensures Takes(s, [ByInit(PassGate)], s.(pc := if s.pc.hosts != [] && !s.isWriter then Spawn(s.pc.hosts) else Top))
  {
    hide Takes;
    Once(s, ByInit(PassGate), s.(pc := if s.pc.hosts != [] && !s.isWriter then Spawn(s.pc.hosts) else Top));
  }

  /** The map with a new node for every listed host that has none, the first listing of a name counting. */
  ghost predicate NodesFor(now: map<string, Node>, before: map<string, Node>, hosts: seq<HostInfo>) {
    && now.Keys == before.Keys + Names(hosts)
    && (forall name | name in before :: now[name] == before[name])
    && forall i | 0 <= i < |hosts| && hosts[i].host !in before && FirstListing(hosts, i) ::
         hosts[i].host in now && now[hosts[i].host] == Node(hosts[i], None, false, Idle)
  }

  ghost predicate FirstListing(hosts: seq<HostInfo>, i: nat)
    requires i < |hosts|
  {
    forall j | 0 <= j < i :: hosts[j].host != hosts[i].host
  }

  function SpawnActions(n: nat): seq<Action> {
    if n == 0 then [ByPickup(SpawnNode)] else [ByPickup(SpawnNode)] + SpawnActions(n - 1)
  }

  /** The main thread adds one node for every listed host that has none, and nothing else. */
  lemma {:induction false} AllSpawn(s: State, hosts: seq<HostInfo>) returns (nodes: map<string, Node>)
    requires s.pc == Spawn(hosts) || s.pc == Grow(hosts)
    ensures NodesFor(nodes, s.nodes, hosts)
    ensures Takes(s, SpawnActions(|hosts|), s.(nodes := nodes, pc := Top))
    decreases |hosts|
  {
    hide Takes, NodesFor;
    if hosts == [] {
      nodes := s.nodes;
      assert NodesFor(nodes, s.nodes, hosts) by {
        NoNodesFor(nodes);
      }
      Once(s, ByPickup(SpawnNode), s.(pc := Top));
    } else {
      var next := Apply(s, ByPickup(SpawnNode));
      nodes := AllSpawn(next, hosts[1..]);
      NodesForOneMore(nodes, s.nodes, hosts);
      Onwards(s, ByPickup(SpawnNode), next, SpawnActions(|hosts| - 1), s.(nodes := nodes, pc := Top));
    }
  }

  lemma NoNodesFor(nodes: map<string, Node>)
    ensures NodesFor(nodes, nodes, [])
  {
  }

  lemma NodesForOneMore(now: map<string, Node>, before: map<string, Node>, hosts: seq<HostInfo>)
    requires hosts != []
    requires var h := hosts[0];
             var added := if h.host in before then before else before[h.host := Node(h, None, false, Idle)];
             NodesFor(now, added, hosts[1..])
    ensures NodesFor(now, before, hosts)
  {
    var h, rest := hosts[0], hosts[1..];
    assert Names(hosts) == Names(rest) + {h.host};
    forall i | 0 <= i < |hosts| && hosts[i].host !in before && FirstListing(hosts, i)
      ensures hosts[i].host in now && now[hosts[i].host] == Node(hosts[i], None, false, Idle)
    {
      if i > 0 {
        assert hosts[0].host != hosts[i].host && rest[i - 1] == hosts[i];
        forall j | 0 <= j < i - 1 ensures rest[j].host != rest[i - 1].host {
          assert hosts[j + 1].host != hosts[i].host;
        }
        assert FirstListing(rest, i - 1);
      }
    }
  }

  // ---- looking for a writer ----

  /** A handed-over connection that answers, of a host that is up, becomes the main one: the old one is freed, the nodes
      are told to stop and are joined. */
  lemma WriterTaken(s: State)
    requires s.pc.Pickup? && s.nodeWriter.Some? && s.nodeWriterHost.Some? && s.nodeWriterHost.value.IsUp()
    ensures Takes(s, [ByPickup(LookForWriter(true)), ByPickup(MoveWriter)],
                  s.(main := s.nodeWriter, mainHost := s.nodeWriterHost, isWriter := true, nodeWriter := None,
                     stop := true, pc := Join, log := s.log.(freed := FreedNow(s))))
  {
    hide Takes;
    assert s.log.freed + [] == s.log.freed;
    Twice(s, ByPickup(LookForWriter(true)), s.(pc := TakeOver), ByPickup(MoveWriter),
          s.(main := s.nodeWriter, mainHost := s.nodeWriterHost, isWriter := true, nodeWriter := None,
             stop := true, pc := Join, log := s.log.(freed := FreedNow(s))));
  }

  /** Otherwise, when nothing was handed over, the connection is dead or its host is down, everything stays as it is but
      for nodes of hosts that a reader has seen since. */
  lemma WriterNotTaken(s: State, alive: bool, hosts: seq<HostInfo>) returns (nodes: map<string, Node>)
    requires s.pc.Pickup?
    requires s.nodeWriter.None? || !alive || s.nodeWriterHost.None? || s.nodeWriterHost.value.state == Down
    ensures NodesFor(nodes, s.nodes, hosts)
    ensures Takes(s, [ByPickup(LookForWriter(alive)), ByPickup(ReadLatest(hosts))] + SpawnActions(|hosts|),
                  s.(nodes := nodes, pc := Top))
  {
    hide Takes, NodesFor;
    var s2 := s.(pc := Grow(hosts));
    Twice(s, ByPickup(LookForWriter(alive)), s.(pc := GrowRead), ByPickup(ReadLatest(hosts)), s2);
    nodes := AllSpawn(s2, hosts);
    Joined(s, [ByPickup(LookForWriter(alive)), ByPickup(ReadLatest(hosts))], s2, SpawnActions(|hosts|),
           s.(nodes := nodes, pc := Top));
  }

  // ---- a node ----

  function With(s: State, name: string, n: Node): State {
    s.(nodes := s.nodes[name := n])
  }

  /** A node whose connection answers the writer query fills the writer slot if it is empty, with its host, and frees
      its connection otherwise; either way it tells all nodes to stop. */
  lemma NodeSeesWriter(s: State, name: string)
    requires name in s.nodes && s.nodes[name].pc.Check? && s.nodes[name].hdbc.Some? && !s.pc.HoldsWriterMutex()
    ensures var n := s.nodes[name];
            var h := n.hdbc.value;
            var log := s.log.(verified := s.log.verified + {h});
            Takes(s, [ByNode(name, Verify(true)), ByNode(name, HandOverWriter)],
                  With(if s.nodeWriter.None? then
                         s.(nodeWriter := Some(h), nodeWriterHost := Some(n.host), stop := true,
                            log := log.(filledBy := s.log.filledBy + [n.host.host]))
                       else s.(stop := true, log := log.(freed := s.log.freed + [h])),
                       name, n.(hdbc := None, pc := Idle)))
  {
    hide Takes;
    var n := s.nodes[name];
    var s1 := With(s, name, n.(pc := AtWriter)).(log := s.log.(verified := s.log.verified + {n.hdbc.value}));
    var s2 := Apply(s1, ByNode(name, HandOverWriter));
    assert s1.nodes[name := n.(hdbc := None, pc := Idle)] == s.nodes[name := n.(hdbc := None, pc := Idle)];
    Twice(s, ByNode(name, Verify(true)), s1, ByNode(name, HandOverWriter), s2);
  }

  /** A node connected to a reader leaves the topology alone once a writer has been handed over; before that, the node
      that holds the reader slot asks for the topology. */
  lemma NodeSeesReader(s: State, name: string)
    requires name in s.nodes && s.nodes[name].pc.Check? && s.nodes[name].hdbc.Some?
    ensures var n := s.nodes[name];
            var next := if s.nodeWriter.Some? then Idle else if n.readerUpdate then Fetch else ReaderLock;
            Takes(s, [ByNode(name, Verify(false)), ByNode(name, MeetReader)], With(s, name, n.(pc := next)))
  {
    hide Takes;
    var n := s.nodes[name];
    var s1 := With(s, name, n.(pc := AtReader));
    var s2 := Apply(s1, ByNode(name, MeetReader));
    assert s1.nodes[name := s2.nodes[name]] == s.nodes[name := s2.nodes[name]];
    Twice(s, ByNode(name, Verify(false)), s1, ByNode(name, MeetReader), s2);
  }

  /** The first node at an empty reader slot fills it and speaks for it from then on; later ones keep their
      connections. */
  lemma NodeOffersReader(s: State, name: string)
    requires name in s.nodes && s.nodes[name].pc.ReaderLock?
    ensures var n := s.nodes[name];
            if s.nodeReader.Some? then Takes(s, [ByNode(name, HandOverReader)], With(s, name, n.(pc := Idle)))
            else Takes(s, [ByNode(name, HandOverReader), ByNode(name, FetchTopology)],
                       With(s.(nodeReader := n.hdbc), name, n.(hdbc := None, readerUpdate := true, pc := Idle)))
  {
    hide Takes;
    var n := s.nodes[name];
    var s1 := Apply(s, ByNode(name, HandOverReader));
    if s.nodeReader.Some? {
      Once(s, ByNode(name, HandOverReader), s1);
    } else {
      var s2 := Apply(s1, ByNode(name, FetchTopology));
      assert s1.nodes[name := s2.nodes[name]] == s.nodes[name := s2.nodes[name]];
      Twice(s, ByNode(name, HandOverReader), s1, ByNode(name, FetchTopology), s2);
    }
  }

  /** A node goes on until it is told to stop, and then frees its connection. */
  lemma NodeWakes(s: State, name: string)
    requires name in s.nodes && s.nodes[name].pc.Idle?
    ensures var n := s.nodes[name];
            if !s.stop then Takes(s, [ByNode(name, Wake)], With(s, name, n.(pc := Check)))
            else Takes(s, [ByNode(name, Wake), ByNode(name, Leave)],
                       With(s.(log := s.log.(freed := Also(s.log.freed, n.hdbc))), name, n.(hdbc := None, pc := Done)))
  {
    hide Takes;
    var n := s.nodes[name];
    assert s.log.freed + [] == s.log.freed;
    var s1 := With(s, name, n.(pc := if s.stop then Exit else Check));
    if !s.stop {
      Once(s, ByNode(name, Wake), s1);
    } else {
      var s2 := Apply(s1, ByNode(name, Leave));
      assert s1.nodes[name := s2.nodes[name]] == s.nodes[name := s2.nodes[name]];
      Twice(s, ByNode(name, Wake), s1, ByNode(name, Leave), s2);
    }
  }

  /** A dead connection is freed and replaced, by nothing when no handle is to be had. */
  lemma NodeReconnects(s: State, name: string, h: Option<Handle>)
    requires name in s.nodes && s.nodes[name].pc.Check? && (h.Some? ==> h.value !in s.log.issued)
    ensures var n := s.nodes[name];
            var log := s.log.(freed := Also(s.log.freed, n.hdbc));
            Takes(s, [ByNode(name, Reconnect(h))],
                  With(s.(log := if h.None? then log
                                 else log.(issued := log.issued + {h.value},
                                           dialled := log.dialled[h.value := n.host])),
                       name, n.(hdbc := h, pc := Idle)))
  {
    hide Takes;
    assert s.log.freed + [] == s.log.freed;
    Once(s, ByNode(name, Reconnect(h)), Apply(s, ByNode(name, Reconnect(h))));
  }

  /** A node that has not ended can always take a step of its own, unless it waits to hand over a writer connection
      while the main thread holds the mutex for it. */
  lemma NodeCanStep(s: State, name: string)
    requires name in s.nodes && !s.nodes[name].pc.Done?
    ensures (exists a :: Enabled(s, ByNode(name, a))) <==> !(s.nodes[name].pc.AtWriter? && s.pc.HoldsWriterMutex())
  {
    match s.nodes[name].pc {
      case Idle => assert Enabled(s, ByNode(name, Wake));
      case Check => assert Enabled(s, ByNode(name, Reconnect(None)));
      case AtWriter => assert !s.pc.HoldsWriterMutex() ==> Enabled(s, ByNode(name, HandOverWriter));
      case AtReader => assert Enabled(s, ByNode(name, MeetReader));
      case ReaderLock => assert Enabled(s, ByNode(name, HandOverReader));
      case Fetch => assert Enabled(s, ByNode(name, FetchTopology));
      case Exit => assert Enabled(s, ByNode(name, Leave));
      case Done =>
    }
  }

  // ---- regular mode is reached ----

  const WRITER: HostInfo := HostInfo("a", 5432, Up, true, 100)

  const WITH_WRITER: State :=
    INITIAL.(main := Some(0), mainHost := Some(WRITER), isWriter := true, log := Log({0}, [], {0}, map[], []))

  /** A monitor that starts at the writer enters regular mode and asks it for the topology. */
  lemma RegularModeIsReached()
    ensures exists actions :: Possible(INITIAL, actions) && Run(INITIAL, actions) == WITH_WRITER.(pc := RegularFetch)
  {
    hide Takes;
    assert Also(Also([], None), None) == [] && INITIAL.log.issued + {0} == {0} == INITIAL.log.verified + {0};
    var s1, s2 := INITIAL.(pc := InitStop), INITIAL.(pc := InitHosts);
    ModeChoice(INITIAL);
    EpisodeStarts(s1);
    OpenMain(s2, 0, true, Some(WRITER));
    var s3 := WITH_WRITER.(pc := OpenFetch);
    Twice(s3, ByInit(FetchHosts([WRITER])), s3.(pc := InitGate([WRITER])), ByInit(PassGate), WITH_WRITER);
    ModeChoice(WITH_WRITER);
    var s5 := WITH_WRITER.(pc := RegularJoin);
    Once(s5, ByMode(JoinDone), WITH_WRITER.(pc := RegularFetch));
    var toHosts := [ByInit(ClearStop), ByInit(FreeNodeWriter), ByInit(FreeNodeReader)] + [ByInit(ClearNodeInfo)];
    var open := [ByInit(ReadTopology([])), ByInit(TestMain), ByInit(Connect(0, true))] +
                [ByInit(Install(Some(WRITER)))];
    var found := [ByInit(FetchHosts([WRITER])), ByInit(PassGate)];
    var choose := [ByMode(ReadMain), ByMode(ReadFlag)];
    Joined(INITIAL, [ByMode(ReadMain)], s1, toHosts, s2);
    Joined(INITIAL, [ByMode(ReadMain)] + toHosts, s2, open, s3);
    Joined(INITIAL, [ByMode(ReadMain)] + toHosts + open, s3, found, WITH_WRITER);
    Joined(INITIAL, [ByMode(ReadMain)] + toHosts + open + found, WITH_WRITER, choose, s5);
    Joined(INITIAL, [ByMode(ReadMain)] + toHosts + open + found + choose, s5, [ByMode(JoinDone)],
           WITH_WRITER.(pc := RegularFetch));
    TakesExists([ByMode(ReadMain)] + toHosts + open + found + choose + [ByMode(JoinDone)],
                WITH_WRITER.(pc := RegularFetch));
  }

  lemma TakesExists(actions: seq<Action>, end: State)
    requires Takes(INITIAL, actions, end)
    ensures exists run :: Possible(INITIAL, run) && Run(INITIAL, run) == end
  {
  }
}
