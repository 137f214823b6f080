/** What every interleaving of the topology monitor keeps: the control invariant, then the ownership of handles. */
module TopologyMonitorProofs {
  import opened Basics
  import opened Hosts
  import opened TopologyMonitor

  // ---- roles ----

  /** The last seen episode is over: its writer was moved to the main slot and every node was joined. */
  ghost predicate Quiet(s: State) {
    s.nodes == map[] && (s.pc.Top? || s.pc.TopFlag? || s.pc.Regular() || s.pc.InitStop? || s.pc.InitWriter?)
  }

  ghost predicate WriterSlot(s: State) {
    && (s.isWriter ==>
          && s.main.Some? && s.main.value in s.log.verified && s.main.value in s.log.issued
          && (s.main.value in s.log.dialled ==> s.mainHost == Some(s.log.dialled[s.main.value])))
    && (s.local.Some? ==> s.local.value in s.log.issued && s.local.value !in s.log.dialled)
    && (s.nodeWriter.Some? ==>
          && s.nodeWriter.value in s.log.verified
          && s.nodeWriter.value in s.log.dialled
          && s.nodeWriterHost == Some(s.log.dialled[s.nodeWriter.value])
          && s.log.filledBy == [s.nodeWriterHost.value.host])
    && (s.nodeWriter.None? ==> s.log.filledBy == [] || (|s.log.filledBy| == 1 && (s.pc.Join? || Quiet(s))))
    && (s.stop ==> s.nodeWriter.Some? || s.pc.Join? || (Quiet(s) && !s.pc.InitWriter?))
    && (s.nodeWriter.Some? ==> s.stop || Quiet(s))
  }

  ghost predicate MainControl(s: State) {
    && (s.isWriter ==> s.nodes == map[] || s.pc.Join?)
    && (s.pc.Regular() || s.pc.Opening() || s.pc.InitStop? || s.pc.InitWriter? ==> s.nodes == map[])
    && (s.pc.InitWriter? ==> !s.stop)
    && (s.pc.Opening() ==> s.nodeWriter.None? && s.log.filledBy == [] && !s.stop)
    && (s.pc.Spawn? || s.pc.Pickup? || s.pc.TakeOver? || s.pc.GrowRead? || s.pc.Grow? ==> !s.isWriter)
    && (s.pc.TakeOver? ==> s.nodeWriter.Some?)
    && (s.local.Some? <==> s.pc.OpenInstall?)
    && (s.pc.InitInfo? || (s.pc.Opening() && !s.pc.InitReader?) ==> s.nodeReader.None?)
    && (s.pc.Join? ==> s.isWriter && s.nodeWriter.None? && s.stop)
  }

  ghost predicate NodeControl(s: State, name: string)
    requires name in s.nodes
  {
    var n := s.nodes[name];
    && n.host.host == name
    && (n.hdbc.Some? ==> n.hdbc.value in s.log.dialled && s.log.dialled[n.hdbc.value] == n.host)
    && (n.pc.AtWriter? ==> n.hdbc.Some? && n.hdbc.value in s.log.verified)
    && (n.pc.AtReader? || n.pc.ReaderLock? ==> n.hdbc.Some?)
    && (n.pc.ReaderLock? ==> !n.readerUpdate)
    && (n.pc.Done? ==> n.hdbc.None?)
    && (n.pc.Fetch? ==> n.readerUpdate)
    && (n.readerUpdate ==> s.nodeReader.Some?)
  }

  /** At most one node speaks for the reader slot. */
  ghost predicate OneReader(s: State) {
    forall m, n | m in s.nodes && n in s.nodes && s.nodes[m].readerUpdate && s.nodes[n].readerUpdate :: m == n
  }

  ghost predicate Nodes(s: State) {
    OneReader(s) && (forall name | name in s.nodes :: NodeControl(s, name)) && s.log.dialled.Keys <= s.log.issued
  }

  ghost predicate Control(s: State) {
    WriterSlot(s) && MainControl(s) && Nodes(s)
  }

  /** Nodes keep their part when only some of them go, or new ones come. */
  lemma NodesFrame(s: State, s1: State)
    requires Nodes(s)
    requires s1.nodeReader == s.nodeReader && s1.log.dialled == s.log.dialled
    requires s.log.issued <= s1.log.issued && s.log.verified <= s1.log.verified
    requires forall name | name in s1.nodes ::
               if name in s.nodes then s1.nodes[name] == s.nodes[name]
               else s1.nodes[name] == Node(s1.nodes[name].host, None, false, Idle) && s1.nodes[name].host.host == name
    ensures Nodes(s1)
  {
    forall name | name in s1.nodes ensures NodeControl(s1, name) {
      if name in s.nodes {
        assert NodeControl(s, name);
      }
    }
  }

  lemma ModeKeepsWriterSlot(s: State, a: ModeAction)
    requires WriterSlot(s) && MainControl(s) && ModeEnabled(s, a)
    ensures WriterSlot(ModeStep(s, a))
  {
    match a {
      case ForceRefresh =>
      case DropMain =>
      case _ =>
    }
  }

  lemma ModeKeepsSlots(s: State, a: ModeAction)
    requires Control(s) && ModeEnabled(s, a)
    ensures WriterSlot(ModeStep(s, a)) && MainControl(ModeStep(s, a))
  {
    hide Nodes;
    ModeKeepsWriterSlot(s, a);
    hide WriterSlot;
  }

  lemma ModeKeeps(s: State, a: ModeAction)
    requires Control(s) && ModeEnabled(s, a)
    ensures Control(ModeStep(s, a))
  {
    ModeKeepsSlots(s, a);
    hide Nodes, WriterSlot, MainControl;
    NodesFrame(s, ModeStep(s, a));
  }

  lemma InitKeepsSlots(s: State, a: InitAction)
    requires Control(s) && InitEnabled(s, a)
    ensures WriterSlot(InitStep(s, a)) && MainControl(InitStep(s, a))
  {
    assert s.log.dialled.Keys <= s.log.issued;
    hide Nodes;
  }

  lemma InitKeeps(s: State, a: InitAction)
    requires Control(s) && InitEnabled(s, a)
    ensures Control(InitStep(s, a))
  {
    InitKeepsSlots(s, a);
    hide NodeControl, WriterSlot;
    assert InitStep(s, a).nodes == map[];
  }

  lemma PickupKeepsSlots(s: State, a: PickupAction)
    requires Control(s) && PickupEnabled(s, a)
    ensures WriterSlot(PickupStep(s, a)) && MainControl(PickupStep(s, a))
  {
    assert s.log.dialled.Keys <= s.log.issued;
    hide Nodes;
  }

  lemma PickupKeeps(s: State, a: PickupAction)
    requires Control(s) && PickupEnabled(s, a)
    ensures Control(PickupStep(s, a))
  {
    PickupKeepsSlots(s, a);
    hide Nodes, WriterSlot, MainControl;
    NodesFrame(s, PickupStep(s, a));
  }

  lemma HandOverKeepsWriterSlot(s: State, name: string)
    requires WriterSlot(s) && MainControl(s) && NodeEnabled(s, name, HandOverWriter) && NodeControl(s, name)
    ensures WriterSlot(NodeStep(s, name, HandOverWriter))
  {
    assert s.nodes != map[];
  }

  /** All but the log, the reader slot and the nodes, of which there are still some. */
  ghost predicate SameForMain(s: State, s1: State) {
    && s1.main == s.main && s1.mainHost == s.mainHost && s1.isWriter == s.isWriter && s1.local == s.local
    && s1.nodeWriter == s.nodeWriter && s1.nodeWriterHost == s.nodeWriterHost && s1.stop == s.stop && s1.pc == s.pc
    && s.nodes != map[] && s1.nodes != map[]
  }

  /** The log only grows, and new handles are new. */
  ghost predicate LogGrows(s: State, s1: State) {
    && s1.log.filledBy == s.log.filledBy
    && s.log.verified <= s1.log.verified && s.log.issued <= s1.log.issued
    && forall h | h in s.log.issued ::
         (h in s1.log.dialled <==> h in s.log.dialled) && (h in s.log.dialled ==> s1.log.dialled[h] == s.log.dialled[h])
  }

  lemma OnlyHandOverIsSeen(s: State, name: string, a: NodeAction)
    requires NodeEnabled(s, name, a) && !a.HandOverWriter?
    ensures SameForMain(s, NodeStep(s, name, a)) && LogGrows(s, NodeStep(s, name, a))
  {
    assert name in NodeStep(s, name, a).nodes;
  }

  lemma UnseenKeepsWriterSlot(s: State, s1: State)
    requires WriterSlot(s) && SameForMain(s, s1) && LogGrows(s, s1) && s.log.dialled.Keys <= s.log.issued
    ensures WriterSlot(s1)
  {
  }

  lemma NodeKeepsWriterSlot(s: State, name: string, a: NodeAction)
    requires Control(s) && NodeEnabled(s, name, a)
    ensures WriterSlot(NodeStep(s, name, a))
  {
    assert NodeControl(s, name);
    hide WriterSlot, MainControl, NodeControl, NodeStep;
    if a.HandOverWriter? {
      HandOverKeepsWriterSlot(s, name);
    } else {
      OnlyHandOverIsSeen(s, name, a);
      UnseenKeepsWriterSlot(s, NodeStep(s, name, a));
    }
  }

  lemma NodeKeepsMainControl(s: State, name: string, a: NodeAction)
    requires Control(s) && NodeEnabled(s, name, a)
    ensures MainControl(NodeStep(s, name, a))
    ensures var log := NodeStep(s, name, a).log; log.dialled.Keys <= log.issued
  {
    assert s.nodes != map[] && NodeStep(s, name, a).nodes != map[] && s.log.dialled.Keys <= s.log.issued;
    hide Nodes, OneReader, NodeControl, WriterSlot;
  }

  /** Handles keep the node that opened them, and nodes do not empty the reader slot. */
  lemma NodeKeepsFacts(s: State, name: string, a: NodeAction)
    requires Control(s) && NodeEnabled(s, name, a)
    ensures var s1 := NodeStep(s, name, a);
            && (s.nodeReader.Some? ==> s1.nodeReader.Some?)
            && s.log.verified <= s1.log.verified
            && (forall h | h in s.log.dialled :: h in s1.log.dialled && s1.log.dialled[h] == s.log.dialled[h])
            && (s1.nodes[name].readerUpdate ==> s.nodes[name].readerUpdate || s.nodeReader.None?)
  {
    hide OneReader, WriterSlot, MainControl, NodeControl;
  }

  lemma NodeKeepsSelf(s: State, name: string, a: NodeAction)
    requires Control(s) && NodeEnabled(s, name, a)
    ensures NodeControl(NodeStep(s, name, a), name)
  {
    assert NodeControl(s, name);
    hide OneReader, WriterSlot, MainControl;
  }

  lemma NodeKeepsOneReader(s: State, name: string, a: NodeAction)
    requires Control(s) && NodeEnabled(s, name, a)
    ensures OneReader(NodeStep(s, name, a))
  {
    NodeKeepsFacts(s, name, a);
    hide WriterSlot, MainControl, NodeNext, SharedNext;
    if s.nodeReader.None? {
      forall other | other in s.nodes ensures !s.nodes[other].readerUpdate {
        assert NodeControl(s, other);
      }
    }
  }

  lemma NodeKeeps(s: State, name: string, a: NodeAction)
    requires Control(s) && NodeEnabled(s, name, a)
    ensures Control(NodeStep(s, name, a))
  {
    NodeKeepsWriterSlot(s, name, a);
    NodeKeepsMainControl(s, name, a);
    NodeKeepsOneReader(s, name, a);
    NodeKeepsSelf(s, name, a);
    NodeKeepsFacts(s, name, a);
    hide OneReader, WriterSlot, MainControl, NodeNext, SharedNext;
    forall other | other in s.nodes && other != name ensures NodeControl(NodeStep(s, name, a), other) {
      assert NodeControl(s, other);
    }
  }

  lemma ControlKept(s: State, a: Action)
    requires Control(s) && Enabled(s, a)
    ensures Control(Apply(s, a))
  {
    hide Control, ModeStep, InitStep, PickupStep, NodeStep;
    match a {
      case ByMode(m) => ModeKeeps(s, m);
      case ByInit(i) => InitKeeps(s, i);
      case ByPickup(p) => PickupKeeps(s, p);
      case ByNode(name, n) => NodeKeeps(s, name, n);
    }
  }

  // ---- ownership of handles ----

  /** The places that can hold a connection handle. */
  datatype Slot = MainSlot | WriterSlotOf | ReaderSlotOf | InFlight | NodeSlot(name: string)

  function Holder(s: State, slot: Slot): Option<Handle> {
    match slot
    case MainSlot => s.main
    case WriterSlotOf => s.nodeWriter
    case ReaderSlotOf => s.nodeReader
    case InFlight => s.local
    case NodeSlot(name) => if name in s.nodes then s.nodes[name].hdbc else None
  }

  /** Every issued handle was either freed once or sits in exactly one place. */
  ghost predicate Conserved(s: State) {
    && (forall slot | Holder(s, slot).Some? ::
          Holder(s, slot).value in s.log.issued && Holder(s, slot).value !in s.log.freed)
    && (forall a, b | Holder(s, a).Some? && Holder(s, a) == Holder(s, b) :: a == b)
    && (forall h | h in s.log.issued && h !in s.log.freed :: exists slot :: Holder(s, slot) == Some(h))
    && (forall h | h in s.log.freed :: h in s.log.issued)
    && (forall i, j | 0 <= i < j < |s.log.freed| :: s.log.freed[i] != s.log.freed[j])
  }

  ghost predicate SameElsewhere(s: State, s1: State, a: Slot, b: Slot) {
    forall slot | slot != a && slot != b :: Holder(s1, slot) == Holder(s, slot)
  }

  ghost predicate SameBooks(s: State, s1: State) {
    s1.log.issued == s.log.issued && s1.log.freed == s.log.freed
  }

  lemma Untouched(s: State, s1: State)
    requires Conserved(s) && SameBooks(s, s1) && forall slot :: Holder(s1, slot) == Holder(s, slot)
    ensures Conserved(s1)
  {
    hide Holder;
    forall h | h in s1.log.issued && h !in s1.log.freed ensures exists slot :: Holder(s1, slot) == Some(h) {
      var slot :| Holder(s, slot) == Some(h);
      assert Holder(s1, slot) == Some(h);
    }
  }

  lemma Moved(s: State, s1: State, from: Slot, to: Slot)
    requires Conserved(s) && SameBooks(s, s1) && from != to && SameElsewhere(s, s1, from, to)
    requires Holder(s, to).None? && Holder(s1, from).None? && Holder(s1, to) == Holder(s, from)
    ensures Conserved(s1)
  {
    hide Holder;
    forall h | h in s1.log.issued && h !in s1.log.freed ensures exists slot :: Holder(s1, slot) == Some(h) {
      var slot :| Holder(s, slot) == Some(h);
      assert Holder(s1, if slot == from then to else slot) == Some(h);
    }
  }

  lemma Released(s: State, s1: State, slot: Slot)
    requires Conserved(s) && SameElsewhere(s, s1, slot, slot) && Holder(s1, slot).None?
    requires s1.log.issued == s.log.issued
    requires s1.log.freed == if Holder(s, slot).None? then s.log.freed else s.log.freed + [Holder(s, slot).value]
    ensures Conserved(s1)
  {
    hide Holder;
    forall h | h in s1.log.issued && h !in s1.log.freed ensures exists place :: Holder(s1, place) == Some(h) {
      var place :| Holder(s, place) == Some(h);
      assert Holder(s1, place) == Some(h);
    }
  }

  lemma Issued(s: State, s1: State, slot: Slot, h: Handle)
    requires Conserved(s) && SameElsewhere(s, s1, slot, slot)
    requires h !in s.log.issued && s1.log.issued == s.log.issued + {h} && s1.log.freed == s.log.freed
    requires Holder(s, slot).None? && Holder(s1, slot) == Some(h)
    ensures Conserved(s1)
  {
    hide Holder;
    forall g | g in s1.log.issued && g !in s1.log.freed ensures exists place :: Holder(s1, place) == Some(g) {
      if g != h {
        var place :| Holder(s, place) == Some(g);
        assert Holder(s1, place) == Some(g);
      } else {
        assert Holder(s1, slot) == Some(g);
      }
    }
  }

  lemma MainDroppedConserves(s: State)
    requires Conserved(s)
    ensures Conserved(MainDropped(s))
  {
    hide Conserved;
    Released(s, MainDropped(s), MainSlot);
  }

  lemma JoinedHoldsNothing(s: State, name: string)
    requires Control(s) && name in s.nodes && s.nodes[name].pc.Done?
    ensures s.nodes[name].hdbc.None?
  {
    assert NodeControl(s, name);
  }

  lemma ModeConserves(s: State, a: ModeAction)
    requires Control(s) && Conserved(s) && ModeEnabled(s, a)
    ensures Conserved(ModeStep(s, a))
  {
    hide Conserved, Control;
    match a {
      case ForceRefresh => MainDroppedConserves(s);
      case DropMain =>
        MainDroppedConserves(s);
        Untouched(MainDropped(s), ModeStep(s, a));
      case JoinNode(name) =>
        JoinedHoldsNothing(s, name);
        Untouched(s, ModeStep(s, a));
      case _ => Untouched(s, ModeStep(s, a));
    }
  }

  lemma ConnectConserves(s: State, h: Handle, connected: bool)
    requires Conserved(s) && InitEnabled(s, InitAction.Connect(h, connected)) && s.local.None?
    ensures Conserved(InitStep(s, InitAction.Connect(h, connected)))
  {
    hide Conserved;
    var s1 := InitStep(s, InitAction.Connect(h, connected));
    var held := s.(local := Some(h), log := s.log.(issued := s.log.issued + {h}));
    Issued(s, held, InFlight, h);
    if connected {
      Untouched(held, s1);
    } else {
      Released(held, s1, InFlight);
    }
  }

  lemma InstallConserves(s: State, writerHost: Option<HostInfo>)
    requires Conserved(s) && InitEnabled(s, Install(writerHost))
    ensures Conserved(InitStep(s, Install(writerHost)))
  {
    hide Conserved;
    var s1 := InitStep(s, Install(writerHost));
    if s.main.Some? || s.local.None? {
      Released(s, s1, InFlight);
    } else {
      Moved(s, s1, InFlight, MainSlot);
    }
  }

  lemma InitConserves(s: State, a: InitAction)
    requires Control(s) && Conserved(s) && InitEnabled(s, a)
    ensures Conserved(InitStep(s, a))
  {
    assert s.pc.OpenConnect? ==> s.local.None?;
    hide Conserved, Control;
    match a {
      case FreeNodeWriter => Released(s, InitStep(s, a), WriterSlotOf);
      case FreeNodeReader => Released(s, InitStep(s, a), ReaderSlotOf);
      case Connect(h, connected) => ConnectConserves(s, h, connected);
      case Install(writerHost) => InstallConserves(s, writerHost);
      case CloseMain =>
        MainDroppedConserves(s);
        Untouched(MainDropped(s), InitStep(s, a));
      case _ => Untouched(s, InitStep(s, a));
    }
  }

  lemma PickupConserves(s: State, a: PickupAction)
    requires Control(s) && Conserved(s) && PickupEnabled(s, a)
    ensures Conserved(PickupStep(s, a))
  {
    hide Conserved, Control;
    match a {
      case MoveWriter =>
        MainDroppedConserves(s);
        Moved(MainDropped(s), PickupStep(s, a), WriterSlotOf, MainSlot);
      case _ => Untouched(s, PickupStep(s, a));
    }
  }

  lemma ReconnectConserves(s: State, name: string, h: Option<Handle>)
    requires Conserved(s) && NodeEnabled(s, name, Reconnect(h))
    ensures Conserved(NodeStep(s, name, Reconnect(h)))
  {
    hide Conserved;
    var s1, n, slot := NodeStep(s, name, Reconnect(h)), s.nodes[name], NodeSlot(name);
    var closed := Freed(s, n.hdbc).(nodes := s.nodes[name := n.(hdbc := None)]);
    Released(s, closed, slot);
    if h.Some? {
      Issued(closed, s1, slot, h.value);
    } else {
      Untouched(closed, s1);
    }
  }

  lemma HandOverConserves(s: State, name: string, a: NodeAction)
    requires Conserved(s) && NodeEnabled(s, name, a) && (a.HandOverWriter? || a.HandOverReader?)
    ensures Conserved(NodeStep(s, name, a))
  {
    hide Conserved;
    var s1, slot := NodeStep(s, name, a), NodeSlot(name);
    if a.HandOverWriter? {
      if s.nodeWriter.Some? {
        Released(s, s1, slot);
      } else {
        Moved(s, s1, slot, WriterSlotOf);
      }
    } else if s.nodeReader.Some? {
      Untouched(s, s1);
    } else {
      Moved(s, s1, slot, ReaderSlotOf);
    }
  }

  lemma NodeConserves(s: State, name: string, a: NodeAction)
    requires Control(s) && Conserved(s) && NodeEnabled(s, name, a)
    ensures Conserved(NodeStep(s, name, a))
  {
    hide Conserved, Control;
    match a {
      case Reconnect(h) => ReconnectConserves(s, name, h);
      case HandOverWriter => HandOverConserves(s, name, a);
      case HandOverReader => HandOverConserves(s, name, a);
      case Leave => Released(s, NodeStep(s, name, a), NodeSlot(name));
      case _ => Untouched(s, NodeStep(s, name, a));
    }
  }

  lemma ConservationKept(s: State, a: Action)
    requires Control(s) && Conserved(s) && Enabled(s, a)
    ensures Conserved(Apply(s, a))
  {
    hide Conserved, Control, ModeStep, InitStep, PickupStep, NodeStep;
    match a {
      case ByMode(m) => ModeConserves(s, m);
      case ByInit(i) => InitConserves(s, i);
      case ByPickup(p) => PickupConserves(s, p);
      case ByNode(name, n) => NodeConserves(s, name, n);
    }
  }

  // ---- all interleavings ----

  lemma {:induction false} InvariantKept(s: State, actions: seq<Action>)
    requires Control(s) && Conserved(s) && Possible(s, actions)
    ensures Control(Run(s, actions)) && Conserved(Run(s, actions))
    decreases |actions|
  {
    hide Conserved, Control, Apply, Enabled;
    if actions != [] {
      ControlKept(s, actions[0]);
      ConservationKept(s, actions[0]);
      InvariantKept(Apply(s, actions[0]), actions[1..]);
    }
  }

  lemma InitialInvariant()
    ensures Control(INITIAL) && Conserved(INITIAL)
  {
    assert forall slot :: Holder(INITIAL, slot).None?;
  }

  lemma Reachable(actions: seq<Action>)
    requires Possible(INITIAL, actions)
    ensures Control(Run(INITIAL, actions)) && Conserved(Run(INITIAL, actions))
  {
    InitialInvariant();
    InvariantKept(INITIAL, actions);
  }

  /** Over every interleaving, each handle ever issued was freed exactly once and sits nowhere, or was not freed and
      sits in exactly one place; nothing is freed twice. */
  lemma HandlesAreConserved(actions: seq<Action>)
    requires Possible(INITIAL, actions)
    ensures var s := Run(INITIAL, actions);
            && (forall h | h in s.log.issued ::
                  && (h !in s.log.freed ==> exists slot :: Holder(s, slot) == Some(h))
                  && (forall a, b | Holder(s, a) == Some(h) && Holder(s, b) == Some(h) :: a == b)
                  && (h in s.log.freed ==> forall slot :: Holder(s, slot) != Some(h)))
            && (forall slot | Holder(s, slot).Some? :: Holder(s, slot).value in s.log.issued)
            && (forall h | h in s.log.freed :: h in s.log.issued && multiset(s.log.freed)[h] == 1)
  {
    Reachable(actions);
    var s := Run(INITIAL, actions);
    forall h | h in s.log.freed ensures multiset(s.log.freed)[h] == 1 {
      DistinctOnce(s.log.freed, h);
    }
  }

  lemma {:induction false} DistinctOnce(s: seq<Handle>, h: Handle)
    requires (forall i, j | 0 <= i < j < |s| :: s[i] != s[j]) && h in s
    ensures multiset(s)[h] == 1
  {
    var n := |s| - 1;
    assert s == s[..n] + [s[n]];
    if s[n] != h {
      DistinctOnce(s[..n], h);
    }
  }

  /** The handle the monitor believes to be the writer's once answered the writer query, and if a node opened it
      the monitor also remembers that node's host as the writer. */
  lemma WriterIsVerified(actions: seq<Action>)
    requires Possible(INITIAL, actions)
    ensures var s := Run(INITIAL, actions);
            s.isWriter ==>
              && s.main.Some? && s.main.value in s.log.verified
              && (s.main.value in s.log.dialled ==> s.mainHost == Some(s.log.dialled[s.main.value]))
  {
    Reachable(actions);
  }

  /** A believed writer means no node thread is left, except while they are being joined; so the `clear()` on entry
      to regular mode never meets a running thread. */
  lemma ModesExclude(actions: seq<Action>)
    requires Possible(INITIAL, actions)
    ensures var s := Run(INITIAL, actions);
            && (s.isWriter && !s.pc.Join? ==> s.nodes == map[])
            && (s.pc.Regular() ==> s.nodes == map[])
  {
    Reachable(actions);
  }

  /** Between two clean-ups of the writer slot it is filled at most once, with a verified handle and the host of the
      node that opened it; at most one node speaks for the reader slot and never finds it empty; and a raised stop
      flag with nodes left means the slot is filled, unless the nodes are being joined. */
  lemma OneWriterOneReader(actions: seq<Action>)
    requires Possible(INITIAL, actions)
    ensures var s := Run(INITIAL, actions);
            && |s.log.filledBy| <= 1
            && (s.nodeWriter.Some? ==>
                  && s.nodeWriter.value in s.log.verified && s.nodeWriter.value in s.log.dialled
                  && s.nodeWriterHost == Some(s.log.dialled[s.nodeWriter.value]))
            && (forall m, n | m in s.nodes && n in s.nodes && s.nodes[m].readerUpdate && s.nodes[n].readerUpdate ::
                  m == n)
            && (forall n | n in s.nodes && s.nodes[n].pc.Fetch? :: s.nodeReader.Some?)
            && (s.stop && s.nodes != map[] && !s.pc.Join? ==> s.nodeWriter.Some?)
  {
    Reachable(actions);
    var s := Run(INITIAL, actions);
    forall n | n in s.nodes && s.nodes[n].pc.Fetch? ensures s.nodeReader.Some? {
      assert NodeControl(s, n);
    }
  }
}
