/** When the main thread of the topology monitor is locked for ever, when nothing moves at all, and a run that ends
    there. */
module TopologyMonitorDeadlock {
  import opened Basics
  import opened Hosts
  import opened TopologyMonitor
  import opened TopologyMonitorProofs
  import opened TopologyMonitorRuns

  // ---- the main thread locked for ever ----

  /** The main thread joins the nodes, holding the mutex that one of them waits for. */
  ghost predicate Blocked(s: State) {
    s.pc.Join? && exists name :: name in s.nodes && s.nodes[name].pc.AtWriter?
  }

  lemma BlockedStep(s: State, a: Action)
    requires Blocked(s) && Enabled(s, a)
    ensures Blocked(Apply(s, a))
  {
    var name :| name in s.nodes && s.nodes[name].pc.AtWriter?;
    var s1 := Apply(s, a);
    assert name in s1.nodes && s1.nodes[name] == s.nodes[name];
  }

  /** Once the main thread waits for such a node, no run ever ends the wait, and no client refreshes again. */
  lemma {:induction false} BlockedForever(s: State, actions: seq<Action>)
    requires Blocked(s) && Possible(s, actions)
    ensures Blocked(Run(s, actions)) && Run(s, actions).pc.Join? && !Enabled(Run(s, actions), ByMode(ForceRefresh))
    decreases |actions|
  {
    if actions != [] {
      BlockedStep(s, actions[0]);
      BlockedForever(Apply(s, actions[0]), actions[1..]);
    }
  }

  /** The nodes are being joined, and told to stop. */
  predicate Joining(s: State) {
    s.pc.Join? && s.stop
  }

  /** Only node `name` moved. */
  ghost predicate OthersWait(s: State, s1: State, name: string) {
    s1.nodes - {name} == s.nodes - {name}
  }

  /** How far a node that is told to stop is from its end. */
  function Distance(pc: NodePc): nat {
    match pc
    case Done => 0
    case Exit => 1
    case Idle => 2
    case Check => 3
    case Fetch => 3
    case ReaderLock => 4
    case AtReader => 5
    case AtWriter => 6
  }

  /** The next step of a node that waits for no mutex, towards its end. */
  function Onward(pc: NodePc): NodeAction {
    match pc
    case Check => Reconnect(None)
    case AtReader => MeetReader
    case ReaderLock => HandOverReader
    case Fetch => FetchTopology
    case Exit => Leave
    case _ => Wake
  }

  lemma OnwardStep(s: State, name: string)
    requires Joining(s) && name in s.nodes && !s.nodes[name].pc.AtWriter? && !s.nodes[name].pc.Done?
    ensures var a := ByNode(name, Onward(s.nodes[name].pc));
            && Enabled(s, a)
            && var s1 := Apply(s, a);
               && Joining(s1) && OthersWait(s, s1, name) && name in s1.nodes && !s1.nodes[name].pc.AtWriter?
               && Distance(s1.nodes[name].pc) < Distance(s.nodes[name].pc)
  {
  }

  /** Such a node can be brought to its end and joined while all others wait. */
  lemma {:induction false} NodeJoins(s: State, name: string) returns (actions: seq<Action>)
    requires Joining(s) && name in s.nodes && !s.nodes[name].pc.AtWriter?
    ensures Possible(s, actions)
    ensures var s1 := Run(s, actions); Joining(s1) && s1.nodes == s.nodes - {name}
    decreases Distance(s.nodes[name].pc)
  {
    hide Possible, Run;
    if s.nodes[name].pc.Done? {
      actions := [ByMode(JoinNode(name))];
      RunSingle(s, actions[0]);
    } else {
      OnwardStep(s, name);
      var a := ByNode(name, Onward(s.nodes[name].pc));
      var s1 := Apply(s, a);
      RunSingle(s, a);
      var rest := NodeJoins(s1, name);
      RunConcat(s, [a], rest);
      actions := [a] + rest;
    }
  }

  lemma {:induction false} AllJoin(s: State) returns (actions: seq<Action>)
    requires Joining(s) && !Blocked(s)
    ensures Possible(s, actions) && !Run(s, actions).pc.Join?
    decreases |s.nodes|
  {
    hide Possible, Run, Enabled, Apply;
    if s.nodes == map[] {
      actions := [ByMode(JoinDone)];
      JoinFinishes(s);
      RunSingle(s, actions[0]);
    } else {
      var name :| name in s.nodes;
      var first := NodeJoins(s, name);
      var s1 := Run(s, first);
      assert s1.nodes.Keys == s.nodes.Keys - {name} && |s1.nodes| == |s1.nodes.Keys|;
      var rest := AllJoin(s1);
      RunConcat(s, first, rest);
      actions := first + rest;
    }
  }

  lemma JoinFinishes(s: State)
    requires s.pc.Join? && s.nodes == map[]
    ensures Enabled(s, ByMode(JoinDone)) && Apply(s, ByMode(JoinDone)).pc == Top
  {
  }

  /** The main thread can finish joining if and only if no node waits to hand over a writer connection.  This is about
      every reachable state: whenever nodes are joined they have been told to stop. */
  lemma JoinEndsExactly(s: State)
    requires Control(s) && s.pc.Join?
    ensures (exists actions :: Possible(s, actions) && !Run(s, actions).pc.Join?) <==> !Blocked(s)
  {
    if Blocked(s) {
      forall actions | Possible(s, actions) ensures Run(s, actions).pc.Join? {
        BlockedForever(s, actions);
      }
    } else {
      var actions := AllJoin(s);
    }
  }

  lemma JoinEndsExactlyWhenReached(actions: seq<Action>)
    requires Possible(INITIAL, actions) && Run(INITIAL, actions).pc.Join?
    ensures var s := Run(INITIAL, actions);
            (exists more :: Possible(s, more) && !Run(s, more).pc.Join?) <==> !Blocked(s)
  {
    Reachable(actions);
    JoinEndsExactly(Run(INITIAL, actions));
  }

  // ---- nothing moves at all ----

  ghost predicate Stuck(s: State) {
    forall a: Action :: !Enabled(s, a)
  }

  /** The main thread joins nodes while it holds the mutex that every one of them waits for. */
  predicate JoinsWaiters(s: State) {
    s.pc.Join? && s.nodes != map[] && forall name | name in s.nodes :: s.nodes[name].pc.AtWriter?
  }

  /** A node that is not waiting to hand over a writer connection can always go on, or be joined. */
  lemma NodeGoesOn(s: State, name: string) returns (a: Action)
    requires s.pc.Join? && name in s.nodes && !s.nodes[name].pc.AtWriter?
    ensures Enabled(s, a) && a != ByMode(ForceRefresh)
  {
    match s.nodes[name].pc {
      case Idle => a := ByNode(name, Wake);
      case Check => a := ByNode(name, Reconnect(None));
      case AtReader => a := ByNode(name, MeetReader);
      case ReaderLock => a := ByNode(name, HandOverReader);
      case Fetch => a := ByNode(name, FetchTopology);
      case Exit => a := ByNode(name, Leave);
      case Done => a := ByMode(JoinNode(name));
    }
  }

  /** Numbers that no handle has. */
  lemma {:induction false} FreshHandle(issued: set<Handle>) returns (h: Handle)
    ensures forall g | g in issued :: g < h
    decreases |issued|
  {
    if issued == {} {
      h := 0;
    } else {
      var g :| g in issued;
      var above := FreshHandle(issued - {g});
      h := if g < above then above else g + 1;
      assert forall x | x in issued :: x == g || x in issued - {g};
    }
  }

  /** The main thread itself can go on wherever it does not join nodes. */
  lemma MainGoesOn(s: State) returns (a: Action)
    requires Control(s) && !s.pc.Join?
    ensures Enabled(s, a) && a != ByMode(ForceRefresh)
  {
    match s.pc {
      case Top => a := ByMode(ReadMain);
      case TopFlag => a := ByMode(ReadFlag);
      case InitStop => a := ByInit(ClearStop);
      case InitWriter => a := ByInit(FreeNodeWriter);
      case InitReader => a := ByInit(FreeNodeReader);
      case InitInfo => a := ByInit(ClearNodeInfo);
      case InitHosts => a := ByInit(ReadTopology([]));
      case OpenCheck => a := ByInit(TestMain);
      case OpenConnect =>
        var h := FreshHandle(s.log.issued);
        a := ByInit(Connect(h, false));
      case OpenInstall => a := ByInit(Install(None));
      case OpenFetch => a := ByInit(FetchHosts([]));
      case OpenClose => a := ByInit(CloseMain);
      case InitGate(_) => a := ByInit(PassGate);
      case Spawn(_) => a := ByPickup(SpawnNode);
      case Pickup => a := ByPickup(LookForWriter(false));
      case TakeOver => a := ByPickup(MoveWriter);
      case GrowRead => a := ByPickup(ReadLatest([]));
      case Grow(_) => a := ByPickup(SpawnNode);
      case RegularJoin => a := ByMode(JoinDone);
      case RegularFetch => a := ByMode(RegularHosts(true));
      case RegularDrop => a := ByMode(DropMain);
      case Join =>
    }
  }

  /** Clients set aside, the main thread or some node can take a step in every state the invariant allows, unless the
      main thread joins nodes that all wait for it. */
  lemma ThreadsGoOn(s: State)
    requires Control(s)
    ensures (exists a :: Enabled(s, a) && a != ByMode(ForceRefresh)) <==> !JoinsWaiters(s)
  {
    hide Control;
    if !s.pc.Join? {
      var a := MainGoesOn(s);
    } else if s.nodes == map[] {
      assert Enabled(s, ByMode(JoinDone));
    } else if !JoinsWaiters(s) {
      var name :| name in s.nodes && !s.nodes[name].pc.AtWriter?;
      var a := NodeGoesOn(s, name);
    }
  }

  /** Nothing can happen exactly when the main thread joins nodes that all wait for it. */
  lemma StuckExactly(s: State)
    ensures Stuck(s) <==> JoinsWaiters(s)
  {
    if !s.pc.Join? {
      assert Enabled(s, ByMode(ForceRefresh));
    } else if s.nodes == map[] {
      assert Enabled(s, ByMode(JoinDone));
    } else if !JoinsWaiters(s) {
      var name :| name in s.nodes && !s.nodes[name].pc.AtWriter?;
      var a := NodeGoesOn(s, name);
    }
  }

  // ---- it does happen ----

  const A: HostInfo := HostInfo("a", 5432, Up, true, 100)
  const B: HostInfo := HostInfo("b", 5432, Up, false, 100)

  /** Two nodes, each with an open connection that is about to be asked for the writer. */
  const TWO_NODES: State :=
    INITIAL.(nodes := map["a" := Node(A, Some(0), false, Check), "b" := Node(B, Some(1), false, Check)],
             log := Log({0, 1}, [], {}, map[0 := A, 1 := B], []))

  /** Both saw a writer, `a` handed its connection over and left, `b` waits to hand over its own. */
  const ONE_WAITS: State :=
    TWO_NODES.(nodeWriter := Some(0), nodeWriterHost := Some(A), stop := true,
               nodes := map["a" := Node(A, None, false, Done), "b" := Node(B, Some(1), false, AtWriter)],
               log := Log({0, 1}, [], {0, 1}, map[0 := A, 1 := B], ["a"]))

  const DEADLOCKED: State :=
    ONE_WAITS.(main := Some(0), mainHost := Some(A), isWriter := true, nodeWriter := None, pc := Join,
               nodes := map["b" := Node(B, Some(1), false, AtWriter)])

  lemma PanicReached()
    ensures Reached(INITIAL.(pc := InitStop))
  {
    assert Reached(INITIAL) by {
      assert Possible(INITIAL, []) && Run(INITIAL, []) == INITIAL;
    }
    hide Reached;
    Then(INITIAL, ByMode(ReadMain), INITIAL.(pc := InitStop));
  }

  lemma ClearedReached()
    ensures Reached(INITIAL.(pc := InitInfo))
  {
    PanicReached();
    hide Reached, NodeEnabled, NodeStep, PickupEnabled, PickupStep, ModeEnabled, ModeStep;
    Then(INITIAL.(pc := InitStop), ByInit(ClearStop), INITIAL.(pc := InitWriter));
    Then(INITIAL.(pc := InitWriter), ByInit(FreeNodeWriter), INITIAL.(pc := InitReader));
    Then(INITIAL.(pc := InitReader), ByInit(FreeNodeReader), INITIAL.(pc := InitInfo));
  }

  lemma SpawningReached()
    ensures Reached(INITIAL.(pc := Spawn([A, B])))
  {
    ClearedReached();
    hide Reached, NodeEnabled, NodeStep, PickupEnabled, PickupStep, ModeEnabled, ModeStep;
    Then(INITIAL.(pc := InitInfo), ByInit(ClearNodeInfo), INITIAL.(pc := InitHosts));
    Then(INITIAL.(pc := InitHosts), ByInit(ReadTopology([A, B])), INITIAL.(pc := InitGate([A, B])));
    Then(INITIAL.(pc := InitGate([A, B])), ByInit(PassGate), INITIAL.(pc := Spawn([A, B])));
  }

  lemma SpawnOne(s: State, h: HostInfo, rest: seq<HostInfo>)
    requires Reached(s) && s.pc == Spawn([h] + rest) && h.host !in s.nodes
    ensures Reached(s.(pc := Spawn(rest), nodes := s.nodes[h.host := Node(h, None, false, Idle)]))
  {
    hide Reached;
    assert ([h] + rest)[1..] == rest;
    Then(s, ByPickup(SpawnNode), s.(pc := Spawn(rest), nodes := s.nodes[h.host := Node(h, None, false, Idle)]));
  }

  lemma SpawnsReached()
    ensures Reached(INITIAL.(nodes := map["a" := Node(A, None, false, Idle), "b" := Node(B, None, false, Idle)]))
  {
    SpawningReached();
    hide Reached, NodeEnabled, NodeStep, ModeEnabled, ModeStep, InitEnabled, InitStep;
    assert [A, B] == [A] + [B] && [B] == [B] + [];
    SpawnOne(INITIAL.(pc := Spawn([A, B])), A, [B]);
    var one := INITIAL.(pc := Spawn([B]), nodes := map["a" := Node(A, None, false, Idle)]);
    SpawnOne(one, B, []);
    var two := one.(pc := Spawn([]), nodes := one.nodes["b" := Node(B, None, false, Idle)]);
    Then(two, ByPickup(SpawnNode), two.(pc := Top));
  }

  lemma TwoNodesReached()
    ensures Reached(TWO_NODES)
  {
    SpawnsReached();
    hide Reached;
    var a, b := Node(A, None, false, Idle), Node(B, None, false, Idle);
    var s0 := INITIAL.(nodes := map["a" := a, "b" := b]);
    var s1 := s0.(nodes := map["a" := a.(pc := Check), "b" := b]);
    Then(s0, ByNode("a", Wake), s1);
    var s2 := s0.(nodes := map["a" := a.(hdbc := Some(0)), "b" := b], log := Log({0}, [], {}, map[0 := A], []));
    Then(s1, ByNode("a", Reconnect(Some(0))), s2);
    var s3 := s2.(nodes := map["a" := Node(A, Some(0), false, Check), "b" := b]);
    Then(s2, ByNode("a", Wake), s3);
    var s4 := s2.(nodes := map["a" := Node(A, Some(0), false, Check), "b" := b.(pc := Check)]);
    Then(s3, ByNode("b", Wake), s4);
    var s5 := TWO_NODES.(nodes := map["a" := Node(A, Some(0), false, Check), "b" := Node(B, Some(1), false, Idle)]);
    Then(s4, ByNode("b", Reconnect(Some(1))), s5);
    Then(s5, ByNode("b", Wake), TWO_NODES);
  }

  lemma BothVerified()
    ensures var a, b := Node(A, Some(0), false, AtWriter), Node(B, Some(1), false, AtWriter);
            Reached(TWO_NODES.(nodes := map["a" := a, "b" := b], log := TWO_NODES.log.(verified := {0, 1})))
  {
    TwoNodesReached();
    hide Reached, ModeEnabled, ModeStep, InitEnabled, InitStep, PickupEnabled, PickupStep;
    var a, b := Node(A, Some(0), false, AtWriter), Node(B, Some(1), false, AtWriter);
    var s1 := TWO_NODES.(nodes := map["a" := a, "b" := b.(pc := Check)], log := TWO_NODES.log.(verified := {0}));
    Then(TWO_NODES, ByNode("a", Verify(true)), s1);
    Then(s1, ByNode("b", Verify(true)), s1.(nodes := map["a" := a, "b" := b], log := s1.log.(verified := {0, 1})));
  }

  lemma HandedOver()
    ensures var a, b := Node(A, None, false, Idle), Node(B, Some(1), false, AtWriter);
            Reached(ONE_WAITS.(nodes := map["a" := a, "b" := b]))
  {
    BothVerified();
    hide Reached, ModeEnabled, ModeStep, InitEnabled, InitStep, PickupEnabled, PickupStep;
    var b := Node(B, Some(1), false, AtWriter);
    var both := TWO_NODES.(nodes := map["a" := Node(A, Some(0), false, AtWriter), "b" := b],
                           log := TWO_NODES.log.(verified := {0, 1}));
    Then(both, ByNode("a", HandOverWriter), ONE_WAITS.(nodes := map["a" := Node(A, None, false, Idle), "b" := b]));
  }

  lemma OneWaitsReached()
    ensures Reached(ONE_WAITS)
  {
    HandedOver();
    hide Reached, ModeEnabled, ModeStep, InitEnabled, InitStep, PickupEnabled, PickupStep;
    var a, b := Node(A, None, false, Idle), Node(B, Some(1), false, AtWriter);
    var leaving := ONE_WAITS.(nodes := map["a" := a.(pc := Exit), "b" := b]);
    Then(ONE_WAITS.(nodes := map["a" := a, "b" := b]), ByNode("a", Wake), leaving);
    Then(leaving, ByNode("a", Leave), ONE_WAITS);
  }

  /** An ordinary panic episode in which two nodes see a writer can end with every thread waiting for ever. */
  lemma DeadlockIsReached()
    ensures exists actions :: Possible(INITIAL, actions) && Stuck(Run(INITIAL, actions))
  {
    OneWaitsReached();
    hide Reached, NodeEnabled, NodeStep, InitEnabled, InitStep, Stuck;
    assert "a" in ONE_WAITS.nodes && "b" in DEADLOCKED.nodes;
    Then(ONE_WAITS, ByMode(ReadMain), ONE_WAITS.(pc := Pickup));
    Then(ONE_WAITS.(pc := Pickup), ByPickup(LookForWriter(true)), ONE_WAITS.(pc := TakeOver));
    var joining := DEADLOCKED.(nodes := ONE_WAITS.nodes);
    Then(ONE_WAITS.(pc := TakeOver), ByPickup(MoveWriter), joining);
    Then(joining, ByMode(JoinNode("a")), DEADLOCKED);
    ReachedStuck(DEADLOCKED);
  }

  /** The main thread is locked before everything else is: `a` handed its connection over and can still run, `b`
      waits for the main thread, and the main thread joins both. */
  lemma LockIsReachedEarlier()
    ensures exists actions ::
              Possible(INITIAL, actions) && Blocked(Run(INITIAL, actions)) && !Stuck(Run(INITIAL, actions))
  {
    HandedOver();
    hide Reached, NodeEnabled, NodeStep, InitEnabled, InitStep;
    var nodes := map["a" := Node(A, None, false, Idle), "b" := Node(B, Some(1), false, AtWriter)];
    var s0, joining := ONE_WAITS.(nodes := nodes), DEADLOCKED.(nodes := nodes);
    assert "a" in nodes && "b" in nodes;
    Then(s0, ByMode(ReadMain), s0.(pc := Pickup));
    Then(s0.(pc := Pickup), ByPickup(LookForWriter(true)), s0.(pc := TakeOver));
    Then(s0.(pc := TakeOver), ByPickup(MoveWriter), joining);
    assert nodes["b"].pc.AtWriter? && Blocked(joining);
    StuckExactly(joining);
    ReachedMeans(joining);
  }

  lemma ReachedStuck(s: State)
    requires Reached(s) && JoinsWaiters(s)
    ensures exists actions :: Possible(INITIAL, actions) && Stuck(Run(INITIAL, actions))
  {
    StuckExactly(s);
    hide Stuck;
  }
}
