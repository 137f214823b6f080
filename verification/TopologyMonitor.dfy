/** The cluster topology monitor of src/failover/cluster_topology_monitor.cc as a transition system.

    One main thread, any number of node threads and any number of clients interleave; every action is one critical
    section, one atomic access or one stretch of thread-private work.  What ODBC answers, what the topology cache holds
    and which hosts a query returns are parameters of the actions. */
module TopologyMonitor {
  import opened Basics
  import opened Hosts

  type Handle = nat

  /** Where the main thread is. */
  datatype MainPc =
    | Top                                       // in_panic_mode reads main_hdbc_ ...
    | TopFlag                                   // ... and then is_writer_connection_
    | InitStop | InitWriter | InitReader | InitInfo | InitHosts      // init_node_monitors
    | OpenCheck | OpenConnect | OpenInstall | OpenFetch | OpenClose  // open_any_conn_get_hosts
    | InitGate(hosts: seq<HostInfo>)            // before the test of line 383
    | Spawn(hosts: seq<HostInfo>)               // lines 385-391, one node thread at a time
    | Pickup                                    // get_possible_writer_conn, node_threads_writer_hdbc_mutex_ held
    | TakeOver                                  // the handed-over handle looked good
    | Join                                      // clear() at line 421, hdbc_mutex_ held as well
    | GrowRead | Grow(hosts: seq<HostInfo>)     // lines 424-436, node_threads_writer_hdbc_mutex_ still held
    | RegularJoin | RegularFetch | RegularDrop  // handle_regular_mode
  {
    predicate HoldsWriterMutex() { Pickup? || TakeOver? || Join? || GrowRead? || Grow? }

    predicate HoldsHdbcMutex() { Join? }

    predicate Regular() { RegularJoin? || RegularFetch? || RegularDrop? }

    /** `init_node_monitors` after it released the previous writer handle, before it adds nodes. */
    predicate Opening() {
      || InitReader? || InitInfo? || InitHosts? || OpenCheck? || OpenConnect? || OpenInstall? || OpenFetch?
      || OpenClose? || InitGate?
    }
  }

  /** Where a node thread is. */
  datatype NodePc = Idle | Check | AtWriter | AtReader | ReaderLock | Fetch | Exit | Done

  datatype Node = Node(host: HostInfo, hdbc: Option<Handle>, readerUpdate: bool, pc: NodePc)

  datatype State = State(
    main: Option<Handle>,
    mainHost: Option<HostInfo>,
    isWriter: bool,
    nodeWriter: Option<Handle>,
    nodeWriterHost: Option<HostInfo>,
    nodeReader: Option<Handle>,
    local: Option<Handle>,
    stop: bool,
    nodes: map<string, Node>,
    pc: MainPc,
    log: Log)

  /** What has happened, kept for the properties only. */
  datatype Log = Log(
    issued: set<Handle>,
    freed: seq<Handle>,
    verified: set<Handle>,           // handles on which GetWriterId answered non-empty
    dialled: map<Handle, HostInfo>,  // which node opened a handle
    filledBy: seq<string>)           // who filled the writer slot since init_node_monitors cleared it

  const INITIAL: State :=
    State(None, None, false, None, None, None, None, false, map[], Top, Log({}, [], {}, map[], []))

  /** A client's call, `handle_regular_mode` and the choice of mode. */
  datatype ModeAction =
    | ForceRefresh               // a client, with verify_writer set
    | ReadMain | ReadFlag
    | JoinNode(joined: string) | JoinDone
    | RegularHosts(empty: bool)
    | DropMain

  /** `init_node_monitors` and `open_any_conn_get_hosts`. */
  datatype InitAction =
    | ClearStop | FreeNodeWriter | FreeNodeReader | ClearNodeInfo
    | ReadTopology(hosts: seq<HostInfo>)
    | TestMain
    | Connect(handle: Handle, connected: bool)
    | Install(writerHost: Option<HostInfo>)
    | FetchHosts(hosts: seq<HostInfo>)
    | CloseMain | PassGate

  /** `get_possible_writer_conn`, and the adding of nodes it shares with `init_node_monitors`. */
  datatype PickupAction =
    | LookForWriter(alive: bool)
    | MoveWriter
    | ReadLatest(hosts: seq<HostInfo>)
    | SpawnNode

  /** `NodeMonitoringThread`. */
  datatype NodeAction =
    | Wake
    | Reconnect(handle: Option<Handle>)
    | Verify(isWriter: bool)
    | HandOverWriter
    | MeetReader
    | HandOverReader
    | FetchTopology
    | Leave

  datatype Action =
    | ByMode(mode: ModeAction)
    | ByInit(init: InitAction)
    | ByPickup(pickup: PickupAction)
    | ByNode(name: string, node: NodeAction)

  // ---- effects shared by several actions ----

  function Freed(s: State, h: Option<Handle>): State {
    if h.None? then s else s.(log := s.log.(freed := s.log.freed + [h.value]))
  }

  /** `dbc_clean_up(main_hdbc_)` and the flag with it, under `hdbc_mutex_`. */
  function MainDropped(s: State): State {
    Freed(s, s.main).(main := None, isWriter := false)
  }

  /** Entering `handle_panic_mode`. */
  function Panic(s: State): State {
    s.(pc := if s.nodes == map[] then InitStop else Pickup)
  }

  // ---- modes and clients ----

  predicate ModeEnabled(s: State, a: ModeAction) {
    match a
    case ForceRefresh => !s.pc.HoldsHdbcMutex()
    case ReadMain => s.pc.Top?
    case ReadFlag => s.pc.TopFlag?
    case JoinNode(n) => (s.pc.Join? || s.pc.RegularJoin?) && n in s.nodes && s.nodes[n].pc.Done?
    case JoinDone => (s.pc.Join? || s.pc.RegularJoin?) && s.nodes == map[]
    case RegularHosts(empty) => s.pc.RegularFetch? && (s.main.None? ==> empty)
    case DropMain => s.pc.RegularDrop?
  }

  function ModeStep(s: State, a: ModeAction): State
    requires ModeEnabled(s, a)
  {
    match a
    case ForceRefresh => MainDropped(s)
    case ReadMain => if s.main.None? then Panic(s) else s.(pc := TopFlag)
    case ReadFlag => if s.isWriter then s.(pc := RegularJoin) else Panic(s)
    case JoinNode(n) => s.(nodes := s.nodes - {n})
    case JoinDone => s.(pc := if s.pc.Join? then Top else RegularFetch)
    case RegularHosts(empty) => s.(pc := if empty then RegularDrop else Top)
    case DropMain => MainDropped(s).(pc := Top)
  }

  // ---- starting a panic episode ----

  predicate InitEnabled(s: State, a: InitAction) {
    match a
    case ClearStop => s.pc.InitStop?
    case FreeNodeWriter => s.pc.InitWriter?
    case FreeNodeReader => s.pc.InitReader?
    case ClearNodeInfo => s.pc.InitInfo?
    case ReadTopology(_) => s.pc.InitHosts?
    case TestMain => s.pc.OpenCheck?
    case Connect(h, _) => s.pc.OpenConnect? && h !in s.log.issued
    case Install(_) => s.pc.OpenInstall?
    case FetchHosts(_) => s.pc.OpenFetch?
    case CloseMain => s.pc.OpenClose?
    case PassGate => s.pc.InitGate?
  }

  function InitStep(s: State, a: InitAction): State
    requires InitEnabled(s, a)
  {
    match a
    case ClearStop => s.(stop := false, pc := InitWriter)
    case FreeNodeWriter =>
      var s1 := Freed(s, s.nodeWriter);
      s1.(nodeWriter := None, pc := InitReader, log := s1.log.(filledBy := []))
    case FreeNodeReader => Freed(s, s.nodeReader).(nodeReader := None, pc := InitInfo)
    case ClearNodeInfo => s.(nodeWriterHost := None, pc := InitHosts)
    case ReadTopology(hosts) => s.(pc := if hosts == [] then OpenCheck else InitGate(hosts))
    case TestMain => s.(pc := if s.main.None? then OpenConnect else OpenFetch)
    case Connect(h, connected) =>
      var s1 := s.(log := s.log.(issued := s.log.issued + {h}));
      if connected then s1.(local := Some(h), pc := OpenInstall) else Freed(s1, Some(h)).(pc := InitGate([]))
    case Install(writerHost) =>
      if s.main.Some? || s.local.None? then Freed(s, s.local).(local := None, pc := OpenFetch)
      else if writerHost.None? then s.(main := s.local, local := None, pc := OpenFetch)
      else s.(main := s.local, local := None, pc := OpenFetch, isWriter := true, mainHost := writerHost,
              log := s.log.(verified := s.log.verified + {s.local.value}))
    case FetchHosts(hosts) => s.(pc := if hosts == [] then OpenClose else InitGate(hosts))
    case CloseMain => MainDropped(s).(pc := InitGate([]))
    case PassGate => s.(pc := if s.pc.hosts != [] && !s.isWriter then Spawn(s.pc.hosts) else Top)
  }

  // ---- waiting for a writer ----

  predicate PickupEnabled(s: State, a: PickupAction) {
    match a
    case LookForWriter(_) => s.pc.Pickup?
    case MoveWriter => s.pc.TakeOver?
    case ReadLatest(_) => s.pc.GrowRead?
    case SpawnNode => s.pc.Spawn? || s.pc.Grow?
  }

  function PickupStep(s: State, a: PickupAction): State
    requires PickupEnabled(s, a)
  {
    match a
    case LookForWriter(alive) =>
      var good := s.nodeWriter.Some? && alive && s.nodeWriterHost.Some? && s.nodeWriterHost.value.IsUp();
      s.(pc := if good then TakeOver else GrowRead)
    case MoveWriter =>
      Freed(s, s.main).(main := s.nodeWriter, nodeWriter := None, mainHost := s.nodeWriterHost,
                        isWriter := true, stop := true, pc := Join)
    case ReadLatest(hosts) => s.(pc := Grow(hosts))
    case SpawnNode =>
      if s.pc.hosts == [] then s.(pc := Top)
      else
        var h, rest := s.pc.hosts[0], s.pc.hosts[1..];
        s.(nodes := if h.host in s.nodes then s.nodes else s.nodes[h.host := Node(h, None, false, Idle)],
           pc := if s.pc.Spawn? then Spawn(rest) else Grow(rest))
  }

  // ---- node threads ----

  predicate NodeEnabled(s: State, name: string, a: NodeAction) {
    && name in s.nodes
    && var n := s.nodes[name];
       match a
       case Wake => n.pc.Idle?
       case Reconnect(h) => n.pc.Check? && (h.Some? ==> h.value !in s.log.issued)
       case Verify(_) => n.pc.Check? && n.hdbc.Some?
       case HandOverWriter => n.pc.AtWriter? && !s.pc.HoldsWriterMutex()
       case MeetReader => n.pc.AtReader?
       case HandOverReader => n.pc.ReaderLock?
       case FetchTopology => n.pc.Fetch?
       case Leave => n.pc.Exit?
  }

  /** What the action makes of the node itself. */
  function NodeNext(s: State, n: Node, a: NodeAction): Node {
    match a
    case Wake => n.(pc := if s.stop then Exit else Check)
    case Reconnect(h) => n.(hdbc := h, pc := Idle)
    case Verify(isWriter) => n.(pc := if isWriter then AtWriter else AtReader)
    case HandOverWriter => n.(hdbc := None, pc := Idle)
    case MeetReader => n.(pc := if s.nodeWriter.Some? then Idle else if n.readerUpdate then Fetch else ReaderLock)
    case HandOverReader =>
      if s.nodeReader.Some? then n.(pc := Idle) else n.(hdbc := None, readerUpdate := true, pc := Fetch)
    case FetchTopology => n.(pc := Idle)
    case Leave => n.(hdbc := None, pc := Done)
  }

  /** What the action does to the state the threads share. */
  function SharedNext(s: State, n: Node, a: NodeAction): State {
    match a
    case Reconnect(h) =>
      var s1 := Freed(s, n.hdbc);
      if h.None? then s1
      else s1.(log := s1.log.(issued := s1.log.issued + {h.value}, dialled := s1.log.dialled[h.value := n.host]))
    case Verify(isWriter) =>
      if isWriter && n.hdbc.Some? then s.(log := s.log.(verified := s.log.verified + {n.hdbc.value})) else s
    case HandOverWriter =>
      if s.nodeWriter.Some? then Freed(s, n.hdbc).(stop := true)
      else s.(nodeWriter := n.hdbc, nodeWriterHost := Some(n.host), stop := true,
              log := s.log.(filledBy := s.log.filledBy + [n.host.host]))
    case HandOverReader => if s.nodeReader.Some? then s else s.(nodeReader := n.hdbc)
    case Leave => Freed(s, n.hdbc)
    case _ => s
  }

  function NodeStep(s: State, name: string, a: NodeAction): State
    requires NodeEnabled(s, name, a)
  {
    var n := s.nodes[name];
    SharedNext(s, n, a).(nodes := s.nodes[name := NodeNext(s, n, a)])
  }

  // ---- runs ----

  predicate Enabled(s: State, a: Action) {
    match a
    case ByMode(m) => ModeEnabled(s, m)
    case ByInit(i) => InitEnabled(s, i)
    case ByPickup(p) => PickupEnabled(s, p)
    case ByNode(name, n) => NodeEnabled(s, name, n)
  }

  function Apply(s: State, a: Action): State
    requires Enabled(s, a)
  {
    match a
    case ByMode(m) => ModeStep(s, m)
    case ByInit(i) => InitStep(s, i)
    case ByPickup(p) => PickupStep(s, p)
    case ByNode(name, n) => NodeStep(s, name, n)
  }

  /** The actions are one possible interleaving from `s`. */
  ghost predicate Possible(s: State, actions: seq<Action>)
    decreases |actions|
  {
    actions == [] || (Enabled(s, actions[0]) && Possible(Apply(s, actions[0]), actions[1..]))
  }

  function Run(s: State, actions: seq<Action>): State
    requires Possible(s, actions)
    decreases |actions|
  {
    if actions == [] then s else Run(Apply(s, actions[0]), actions[1..])
  }
}
