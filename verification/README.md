# Verification of the host routing core

This project models, in Dafny, the parts of the ODBC wrapper library that keep clients attached to the right database
host, and proves what they promise.

- **Weighted round robin.** `RoundRobinWeights.dfy` holds the weight text, its printer and its reader.
  `RoundRobin.dfy` is the scheduler on values: records shared between host names are indices, and a call is a function
  of the store, the sorted selection, the properties and the clock readings. `RoundRobinHostSelector.dfy` is the same
  scheduler with shared objects in a cache, each method proved equal to its function; `RoundRobinTiming.dfy` says what
  those do at any clock readings, and exactly when a slow call dereferences null. On top of it,
  `RoundRobinFairness.dfy` proves exact weighted fairness and the sanity of the state, and `RoundRobinIsolation.dfy`
  that hosts never linked by a selection cannot disturb each other. `RouterFairness.dfy` carries fairness from the loads
  of limitless routers to the hosts served.
- **Sliding cache.** `SlidingCache.dfy` is the class with its expiry times; `SlidingCacheHistory.dfy` says what it
  promises about the history of calls alone and proves that the class refines it.
- **Topology monitor.** `TopologyMonitor.dfy` is a transition system with one action for each critical section of the
  main thread, any number of node threads and any number of clients, and `TopologyMonitorRuns.dfy` puts its runs
  together. `TopologyMonitorEpisodes.dfy` says what the threads decide and where each decision leads;
  `TopologyMonitorProofs.dfy` proves the invariant over all interleavings and the ownership of connection handles, and
  `TopologyMonitorDeadlock.dfy` says exactly when the main thread is locked for ever.
- **Connection strings.** `ConnectionString.dfy` proves that the regular-expression loop is a plain parser, and that
  building and parsing undo each other.
- **Failover.** `FailoverTrace.dfy` describes the connection attempts of a failover and what keeps them in order;
  `FailoverService.dfy` is the service class whose nested loops are proved to end and to produce such attempts.
- **Limitless routers.** `LimitlessCounts.dfy` is the life of reference-counted services over whole histories,
  `LimitlessWalk.dfy` the walk over the heaviest routers, `LimitlessQueryHelper.dfy` the weights of routers, and
  `LimitlessMonitorService.dfy` the service class that combines them with the scheduler and the connection strings.
- **Selectors and entities.** `HostSelectors.dfy` has the stateless selectors and the contract all three share;
  `HtmlUtil.dfy` the entity decoder.

`Basics.dfy` and `Hosts.dfy` hold shared vocabulary. `dafny verify dfyconfig.toml` checks everything.

Answers of the database, readings of the clock, random draws and the contents of the topology cache are inputs: streams
or parameters that may be anything. Clock readings are integers in nanoseconds, except in the failover, where the unit
does not matter.

Five properties one may expect are false of the code. Each is stated with an input that shows it and with its exact
condition:

- Reference counters are 32 bits wide and wrap (`LimitlessCounts.WrapEndsService`); they stay positive exactly when no
  increment finds the largest value (`LimitlessCounts.PositiveExactlyWithoutWrap`).
- The entity decoder does not finish on unknown entities (`HtmlUtil.UnknownNeverDecodes`);
  `HtmlUtil.FinishesExactlyOnKnown` says on which texts it does.
- A router's weight can grow with its load below zero (`LimitlessQueryHelper.NegativeLoadWeighsLess`); it does not
  exactly above -0.05 (`LimitlessQueryHelper.WeightFallsWithLoad`).
- A slow call of the scheduler dereferences null (`RoundRobinTiming.SlowCallDereferencesNull`), exactly when
  `RoundRobinTiming.NullDereferencedExactly` says.
- The main thread of the topology monitor can wait for its nodes for ever (`TopologyMonitorDeadlock.DeadlockIsReached`):
  it does exactly when one of the nodes it joins waits to hand over a writer connection
  (`TopologyMonitorDeadlock.JoinEndsExactly`).

## Model

| member | source | states |
|---|---|---|
| `RoundRobinFairness.ExactFairness` | src/host_selector/round_robin_host_selector.cc:45-102 | Exact weighted fairness: from a new or just reset record, with fixed properties, a fixed list of distinct names and less than 600 seconds between the end of one call and the first lookup of the next, call k serves element k mod W of the name-ordered list in which each host is repeated as often as it weighs, and every window of W consecutive calls serves each host exactly as often as it weighs |
| `RoundRobinFairness.RunServes` | src/host_selector/round_robin_host_selector.cc:72-101 | Over any number of such calls, less than 600 seconds apart, the answers follow the round, and the record is left at the turn the number of calls implies |
| `RoundRobinFairness.GapDecides` | src/host_selector/round_robin_host_selector.cc:133-162 | After such a run the gap alone decides: when less than 600 seconds pass before the next lookup the next turn of the round is served, otherwise the next call works on a new record and starts over |
| `RoundRobinFairness.TurnAdvances` | src/host_selector/round_robin_host_selector.cc:72-99 | One rotation step serves the element of the expanded list that belongs to its turn and moves to the next turn, whatever the weights |
| `RoundRobinFairness.WindowIsFair` | src/host_selector/round_robin_host_selector.cc:82-99 | Any W consecutive answers of the rotation contain each host exactly its weight of times, wherever the window begins |
| `RoundRobinFairness.FreshWeights` | src/host_selector/round_robin_host_selector.cc:143-147 | When no selected name has a live entry, the weights in force are those the properties alone give |
| `RouterFairness.PrintedWeightsServe` | src/limitless/limitless_monitor_service.cc:183-185 | Whenever the call starts the rotation over, on a new record or on one that was last given another text, the printed weights are taken and every host is weighed as listed |
| `RouterFairness.RoutersServedByWeight` | src/limitless/limitless_monitor_service.cc:183-185 | From end to end: routers with distinct clean names, whose weights are new to the scheduler, and calls less than 600 seconds apart are served in name order, each as often as the weight its load gave it, in every window of W calls |
| `RouterFairness.NewWeightsStartOver` | src/host_selector/round_robin_host_selector.cc:143-160 | A call starts the rotation over when no selected name is cached, or when its weight text is new to every record |
| `RoundRobinFairness.SortIsForced` | src/host_selector/round_robin_host_selector.cc:61-66 | With distinct names the sort has one possible outcome, so its treatment of equal names cannot show |
| `RoundRobinFairness.StateStaysSane` | src/host_selector/round_robin_host_selector.cc:82-98 | Over every run, throwing calls and calls of any duration included, stored weights and default weights stay at least 1 and counters never go negative |
| `RoundRobinFairness.CreatedSettles` | src/host_selector/round_robin_host_selector.cc:144-147 | A new record is sane even when the properties are rejected, and when they are accepted it needs no update on meeting them again |
| `RoundRobinFairness.RefreshedSettles` | src/host_selector/round_robin_host_selector.cc:151-160 | Updating a record keeps it sane whether or not it throws; an accepted change of the weight text forgets the last host |
| `RoundRobinIsolation.SharingIsConfined` | src/host_selector/round_robin_host_selector.cc:68-101 | Starting from an empty cache, what the calls inside a group of names hand out does not depend on calls outside it, and no record is shared across its border |
| `RoundRobinIsolation.SharersAreChained` | src/host_selector/round_robin_host_selector.cc:68-101 | Two names that share a record after any run from an empty cache were linked by a chain of calls, each selecting a name in common with the next |
| `RoundRobinIsolation.RunsAgree` | src/host_selector/round_robin_host_selector.cc:133-173 | The same from any two states that agree on the group: entries, records and sharing of the group evolve alike with and without the other calls |
| `RoundRobinIsolation.CallShape` | src/host_selector/round_robin_host_selector.cc:68-101 | A call changes one record only, one that belongs to a selected live name or to none, and moves selected names to that record only |
| `RoundRobin.GetHostEffect` | src/host_selector/round_robin_host_selector.cc:68-101 | After a success all selected names share one live record whose last host is the answer, which is one of the selection; no other record changed, and other names keep their live entries |
| `RoundRobinTiming.NullDereferencedExactly` | src/host_selector/round_robin_host_selector.cc:68-72 | A call dereferences null if and only if too long a stretch of time lies between two of its readings: between the lookups and the fetch of the record found, or, when the record, as it is before the call, accepts the properties, between the store and the fetch of the record used |
| `RoundRobinTiming.SlowCallDereferencesNull` | src/host_selector/round_robin_host_selector.cc:68-72 | A call that stores a new host and fetches its record ten minutes later dereferences null |
| `RoundRobinTiming.TimelyAttempt` | src/host_selector/round_robin_host_selector.cc:45-102 | A call in which less than the time to live passes never does, and has the answer and effect the other theorems are about |
| `RoundRobinTiming.HitAfter` | src/host_selector/round_robin_host_selector.cc:138-150 | A record found is still cached after further lookups if and only if the lookups of its name follow each other in time |
| `RoundRobinTiming.ExpiredEntriesGo` | src/host_selector/round_robin_host_selector.cc:136-140 | However a call on some host ends, and however slow it is, it leaves no entry of any name that had expired before it began |
| `RoundRobin.HitStays` | src/host_selector/round_robin_host_selector.cc:138-150 | A name found in the cache is still live when its record is fetched, with the record it had, as long as the call takes less than the time to live |
| `RoundRobin.PutAllEffect` | src/host_selector/round_robin_host_selector.cc:164-173 | Storing the selection leaves every listed name live and pointing at the one record until the call ends, and moves no other name |
| `RoundRobin.PrintedWeightsAreRead` | src/host_selector/round_robin_host_selector.cc:25-38 | The printed weight text is accepted on a new record exactly when every weight is at least 1 and fits an int, and then restores exactly the weights, the last listing of a name winning |
| `RoundRobin.PrintedWeightsTaken` | src/host_selector/round_robin_host_selector.cc:194-241 | On any record, whatever weights it holds, a printed list of clean names is accepted exactly when every weight is in range, and then leaves the listed weights on top of those recorded, with the text, and nothing else changed |
| `RoundRobin.NewWeightsReplace` | src/host_selector/round_robin_host_selector.cc:151-160 | A new text reaches an existing record: its weights replace the old ones of the names listed, and the last host and the counter are forgotten |
| `RoundRobin.NewDefaultReplaces` | src/host_selector/round_robin_host_selector.cc:151-160 | A default weight other than the recorded text is read again: a good one replaces the old before the rest of the update, a bad one leaves 1 and stops it |
| `RoundRobin.BadWeightsStop` | src/host_selector/round_robin_host_selector.cc:212-239 | At the first bad group the call throws; the groups before it have taken effect and no later one does |
| `RoundRobin.DefaultWeightTaken` | src/host_selector/round_robin_host_selector.cc:175-192 | A default weight is accepted exactly when it is a number of at least 1, and is then in force; without one it is 1; a bad one changes nothing |
| `RoundRobin.RejectedMovesNothing` | src/host_selector/round_robin_host_selector.cc:133-162 | Properties that are not accepted move no name to another record |
| `RoundRobin.SelectionCounts` | src/host_selector/round_robin_host_selector.cc:50-55 | The selection holds a host as often as the list does if it is up and, when a writer is wanted, a writer, and otherwise not at all |
| `RoundRobin.FirstHitMeans` | src/host_selector/round_robin_host_selector.cc:138-149 | The host whose record is used is the first one whose lookup hits: its lookup does and no earlier one does |
| `RoundRobin.RecordGroupsReads` | src/host_selector/round_robin_host_selector.cc:212-239 | Recording the text of each accepted group beside its weight does not change which weights are read nor whether reading throws |
| `RoundRobinWeights.WeightTextRoundTrip` | src/host_selector/round_robin_host_selector.cc:205-239 | Reading a printed list of clean names succeeds exactly when every weight is in range and gives back the listed weights |
| `RoundRobinWeights.WeightsOfLast` | src/host_selector/round_robin_host_selector.cc:234 | The map rebuilt from a list holds each name with the weight of its last listing, and no other name |
| `RoundRobinWeights.GroupReadsBack` | src/host_selector/round_robin_host_selector.cc:213-233 | One printed name:weight group reads back as that pair, or is rejected when the weight is out of range |
| `RoundRobinWeights.ConvertDecimal` | src/host_selector/round_robin_host_selector.cc:110-121 | A printed number converts back to itself exactly when it fits an int |
| `RoundRobinWeights.ConvertReads` | src/host_selector/round_robin_host_selector.cc:110-121 | Blanks, an optional sign and digits are read as the number they write, and rejected when it does not fit an int |
| `RoundRobinWeights.ConvertReadsOnly` | src/host_selector/round_robin_host_selector.cc:110-121 | Every text that is read is of that form, with nothing behind the digits |
| `RoundRobinWeights.PairReads` | src/host_selector/round_robin_host_selector.cc:213-233 | A name and a number of at least 1 with a colon between them are read as that pair, with or without a colon behind |
| `RoundRobinWeights.PairReadsOnly` | src/host_selector/round_robin_host_selector.cc:213-233 | Every group that is read is of that form |
| `RoundRobinWeights.SetRoundRobinWeight` | src/host_selector/round_robin_host_selector.cc:25-38 | The loop writes, under the weight key, every host as name:weight in order with commas between and none at the end |
| `RoundRobinWeights.ReadLines` | src/host_selector/round_robin_host_selector.cc:207-210 | The token loop yields the pieces between delimiters; a delimiter at the end opens no further piece |
| `RoundRobinWeights.LinesMean` | src/host_selector/round_robin_host_selector.cc:207-210 | The pieces hold no delimiter and, joined by it, give the text back but for one delimiter at its end |
| `RoundRobinHostSelector.RoundRobinHostSelector.GetHost` | src/host_selector/round_robin_host_selector.cc:45-102 | On shared heap records and at any clock readings the call has the answer and the effect of the scheduler's specification, null dereferences included, on some sorted order of the eligible hosts |
| `RoundRobinHostSelector.RoundRobinHostSelector.CreateCacheEntries` | src/host_selector/round_robin_host_selector.cc:133-162 | Merges the entries of the selection onto the first record found, or onto a new one, as specified; says when the record found is gone |
| `RoundRobinHostSelector.RoundRobinHostSelector.Advance` | src/host_selector/round_robin_host_selector.cc:72-99 | The search for the last host and the counter arithmetic pick the specified position and leave the specified record |
| `RoundRobinHostSelector.RoundRobinHostSelector.CachedHosts` | src/host_selector/round_robin_host_selector.cc:138-140 | Looking up every host refreshes or drops entries as specified, and the first host kept is the first one found |
| `RoundRobinHostSelector.RoundRobinHostSelector.UpdateCache` | src/host_selector/round_robin_host_selector.cc:164-173 | Every listed name ends up stored with the given record |
| `RoundRobinHostSelector.RoundRobinHostSelector.UpdatePropsDefaultWeight` | src/host_selector/round_robin_host_selector.cc:175-192 | Bad default weights throw and change nothing; the key, not the value, is recorded |
| `RoundRobinHostSelector.RoundRobinHostSelector.UpdatePropsHostWeight` | src/host_selector/round_robin_host_selector.cc:194-241 | The loop leaves the record and throws as the function whose meaning PrintedWeightsTaken, BadWeightsStop and NoWeightsGiven state: groups take effect one by one up to the first bad one, which throws, the whole text is recorded with each, and an empty text clears the weights |
| `RoundRobinHostSelector.SortedHosts` | src/host_selector/round_robin_host_selector.cc:50-66 | The eligible hosts, in an order sorted by name and containing each exactly as often as before |
| `RoundRobinHostSelector.RoundRobinHostSelector.ClearCache` | src/host_selector/round_robin_host_selector.cc:40-43 | Clearing the cache forgets every entry and touches no record |
| `SlidingCacheHistory.CacheRefinesHistory` | src/util/sliding_cache_map.cc:27-90 | A lookup succeeds exactly when the history of calls contains a last effective write whose touches, and the lookup, each came less than the time to live after an earlier one, and it gives that write's value |
| `SlidingCacheHistory.SizeCountsLeases` | src/util/sliding_cache_map.cc:93-104 | The size is the number of keys whose lease has not passed its lapse time, that instant included |
| `SlidingCacheHistory.PurgeKeepsUnlapsed` | src/util/sliding_cache_map.cc:96-102 | A purge keeps exactly the keys whose lease has not passed its lapse time |
| `SlidingCacheHistory.PurgingIsInvisible` | src/util/sliding_cache_map.cc:96-102 | Dropping every purge from a history changes no later lookup or store |
| `SlidingCacheHistory.AgreementKept` | src/util/sliding_cache_map.cc:27-110 | Two caches that agree on live entries keep agreeing under every operation, even when only one of them is purged |
| `SlidingCache.SlidingCacheMap.Put` | src/util/sliding_cache_map.cc:27-32 | Stores the value with an expiry one time to live after the clock reading |
| `SlidingCache.SlidingCacheMap.PutIfAbsent` | src/util/sliding_cache_map.cc:40-56 | Refreshes a live entry and otherwise stores the value, timed by the second clock reading |
| `SlidingCache.SlidingCacheMap.Get` | src/util/sliding_cache_map.cc:59-73 | Answers a live entry and refreshes it; drops a dead one |
| `SlidingCache.SlidingCacheMap.Find` | src/util/sliding_cache_map.cc:76-90 | Says whether the entry is live and refreshes it; drops a dead one |
| `SlidingCache.SlidingCacheMap.Size` | src/util/sliding_cache_map.cc:93-104 | Drops the entries that expired before the reading and counts the rest |
| `SlidingCache.SlidingCacheMap.Clear` | src/util/sliding_cache_map.cc:107-110 | Forgets every entry |
| `TopologyMonitorProofs.HandlesAreConserved` | src/failover/cluster_topology_monitor.cc:249-312 | Over every interleaving each issued handle was freed exactly once and sits nowhere, or was not freed and sits in exactly one slot; every slot holds an unfreed issued handle |
| `TopologyMonitorProofs.WriterIsVerified` | src/failover/cluster_topology_monitor.cc:265-276 | Whenever the writer flag is set the main slot holds a handle on which the writer query once answered, and the remembered host is the node's that opened it |
| `TopologyMonitorProofs.ModesExclude` | src/failover/cluster_topology_monitor.cc:244-247 | A set writer flag means no node threads are left, except while they are joined, so regular mode never joins a running thread; ModeChoice says when regular mode is entered, and RegularModeIsReached that it can be |
| `TopologyMonitorEpisodes.ModeChoice` | src/failover/cluster_topology_monitor.cc:122-134 | From the head of the loop the two reads of the main thread lead to regular mode if and only if it holds a connection and the writer flag is set, and otherwise to panic: to a new episode without nodes, to the search for a writer with nodes |
| `TopologyMonitorEpisodes.RegularModeIsReached` | src/failover/cluster_topology_monitor.cc:122-143 | A run from the initial state opens a connection to the writer, leaves panic and asks for the topology in regular mode |
| `TopologyMonitorEpisodes.RegularMode` | src/failover/cluster_topology_monitor.cc:325-353 | With its nodes joined, regular mode keeps the connection when it answers with hosts, and frees it, with the flag, when it answers with none |
| `TopologyMonitorEpisodes.ForceRefreshPanics` | src/failover/cluster_topology_monitor.cc:92-96 | A forced refresh frees the main connection, changes nothing else, and makes the next choice of mode panic |
| `TopologyMonitorEpisodes.EpisodeStarts` | src/failover/cluster_topology_monitor.cc:365-376 | An episode starts with the stop flag down and both hand-over slots empty, what they held freed once each, the writer's first |
| `TopologyMonitorEpisodes.KnownTopology` | src/failover/cluster_topology_monitor.cc:378-392 | A topology in the cache opens no connection: nodes are started for it unless a writer is known |
| `TopologyMonitorEpisodes.AskMain` | src/failover/cluster_topology_monitor.cc:284-303 | Without a cached topology a main connection that exists is asked, and freed exactly when it knows none either |
| `TopologyMonitorEpisodes.OpenMain` | src/failover/cluster_topology_monitor.cc:253-276 | Without a main connection one is opened: freed at once when it fails, installed otherwise, and marked as the writer's exactly when the writer query names one, whose host is remembered |
| `TopologyMonitorEpisodes.Gate` | src/failover/cluster_topology_monitor.cc:383-384 | Nodes are started exactly for a topology that is not empty, and only while the writer flag is not set |
| `TopologyMonitorEpisodes.AllSpawn` | src/failover/cluster_topology_monitor.cc:385-391 | The loop adds one idle node for every listed name that has none, made of its first listing, and touches no other node |
| `TopologyMonitorEpisodes.WriterTaken` | src/failover/cluster_topology_monitor.cc:401-422 | A handed-over connection that answers, of a host that is up, becomes the main one: the old one is freed, the flag and the stop flag are set, and the nodes are joined |
| `TopologyMonitorEpisodes.WriterNotTaken` | src/failover/cluster_topology_monitor.cc:401-437 | When nothing was handed over, the connection is dead or its host is down, only nodes for hosts seen since are added |
| `TopologyMonitorEpisodes.NodeSeesWriter` | src/failover/cluster_topology_monitor.cc:477-530 | A node whose connection answers the writer query fills the writer slot if it is empty and frees its connection otherwise; either way the stop flag is raised |
| `TopologyMonitorEpisodes.NodeSeesReader` | src/failover/cluster_topology_monitor.cc:532-543 | A node at a reader does nothing once a writer was handed over; before, the node that speaks for the reader slot fetches the topology and any other goes for the slot |
| `TopologyMonitorEpisodes.NodeWakes` | src/failover/cluster_topology_monitor.cc:467-494 | A node goes on until the stop flag is up, and then frees its connection and ends |
| `TopologyMonitorEpisodes.NodeCanStep` | src/failover/cluster_topology_monitor.cc:461-551 | A node that has not ended has a step of its own if and only if it does not wait to hand over a writer connection while the main thread holds the mutex |
| `TopologyMonitorProofs.OneWriterOneReader` | src/failover/cluster_topology_monitor.cc:509-554 | Between two clean-ups the writer slot is filled at most once, with a verified handle and its node's host; at most one node speaks for the reader slot and finds it filled; a raised stop flag with nodes left means the writer slot is filled |
| `TopologyMonitorDeadlock.JoinEndsExactly` | src/failover/cluster_topology_monitor.cc:420-422 | Whenever the main thread joins nodes in a state the invariant allows, some run ends the joining if and only if no node waits to hand over a writer connection |
| `TopologyMonitorDeadlock.JoinEndsExactlyWhenReached` | src/failover/cluster_topology_monitor.cc:420-422 | The same for every reachable state |
| `TopologyMonitorDeadlock.BlockedForever` | src/failover/cluster_topology_monitor.cc:396-421 | While a node waits so, no run ever ends the joining, and no client can force a refresh again |
| `TopologyMonitorDeadlock.ThreadsGoOn` | src/failover/cluster_topology_monitor.cc:122-143 | Clients set aside, the main thread or a node can take a step in every state the invariant allows, unless the main thread joins nodes that all wait to hand over a writer connection |
| `TopologyMonitorDeadlock.LockIsReachedEarlier` | src/failover/cluster_topology_monitor.cc:396-421 | A panic episode can lock the main thread for ever while another node still runs |
| `TopologyMonitorDeadlock.DeadlockIsReached` | src/failover/cluster_topology_monitor.cc:396-421 | A panic episode in which two nodes see a writer can end with nothing able to move, clients included |
| `TopologyMonitorProofs.ControlKept` | src/failover/cluster_topology_monitor.cc:314-393 | Every action of the main thread, a node or a client keeps the control invariant |
| `TopologyMonitorProofs.ConservationKept` | src/failover/cluster_topology_monitor.cc:305-312 | Every action keeps each handle in exactly one place or freed exactly once |
| `TopologyMonitorProofs.NodeKeeps` | src/failover/cluster_topology_monitor.cc:461-551 | Every critical section of a node thread keeps the invariant, for any number of nodes |
| `TopologyMonitorProofs.NodeConserves` | src/failover/cluster_topology_monitor.cc:497-551 | Reconnecting, handing over and leaving move or free the node's handle without losing or doubling it |
| `TopologyMonitorProofs.InitKeeps` | src/failover/cluster_topology_monitor.cc:365-393 | Every step of starting an episode keeps the invariant while clients interfere |
| `TopologyMonitorProofs.InitConserves` | src/failover/cluster_topology_monitor.cc:249-303 | Opening a connection in flight, installing it or finding the main slot taken never leaks or doubles a handle |
| `TopologyMonitorProofs.PickupKeeps` | src/failover/cluster_topology_monitor.cc:395-438 | Taking over a node's writer connection, or adding nodes, keeps the invariant |
| `TopologyMonitorProofs.ModeKeeps` | src/failover/cluster_topology_monitor.cc:79-103 | A client's forced refresh, the choice of mode and regular mode keep the invariant |
| `ConnectionString.SearchIsLeftmostGreedy` | src/util/connection_string_helper.cc:21-25 | One search finds the leftmost match of the pattern and the longest one there, whenever there is a match at all |
| `ConnectionString.ScanningIsSplitting` | src/util/connection_string_helper.cc:25-34 | The search-and-suffix loop files exactly what splitting on semicolons, dropping leading equals signs and cutting at the first equals sign files |
| `ConnectionString.ParseConnectionString` | src/util/connection_string_helper.cc:20-35 | The loop ends and adds to the given map what the plain parser collects, the last of equal keys winning; OnePairFiled and ParsedInCapitals say what becomes of the keys |
| `ConnectionString.OnePairFiled` | src/util/connection_string_helper.cc:26-31 | Of one pair, of a key free of semicolons and equals signs and a non-empty value free of semicolons, exactly one entry is filed: the value under the key with each small letter replaced by the capital at the same distance from A and every other character kept |
| `ConnectionString.ParsedInCapitals` | src/util/connection_string_helper.cc:26-31 | No key of any parsed text contains a small letter |
| `ConnectionString.LastDecides` | src/util/connection_string_helper.cc:26-31 | Of the segments about one key, in whatever case it is written, the last one gives the value; OthersStay: a key no segment is about keeps what the given map held |
| `ConnectionString.BuiltPieces` | src/util/connection_string_helper.cc:37-46 | Split at its semicolons, the text built from clean entries has one piece key=value for every key, in order, and no other |
| `ConnectionString.BuildConnectionString` | src/util/connection_string_helper.cc:37-46 | The text lists the entries once each in ascending key order with semicolons between |
| `ConnectionString.PrintThenParse` | src/util/connection_string_helper.cc:20-46 | Parsing a built string gives the map back without its empty-valued entries, for every map with clean keys and semicolon-free values |
| `ConnectionString.PrintedOnce` | src/util/connection_string_helper.cc:37-46 | A map has exactly one printed form |
| `ConnectionString.ParseBuildParse` | src/util/connection_string_helper.cc:20-46 | For every string, parsing, building and parsing again gives what the first parse gave |
| `ConnectionString.ParsedClean` | src/util/connection_string_helper.cc:25-34 | Whatever is parsed has keys that are not empty, hold no semicolon, equals sign or small letter, and values that are not empty and hold no semicolon |
| `ConnectionString.ConnForHost` | src/failover/cluster_topology_monitor.cc:229-242 | The node's string is the built form of the monitor's settings with server and failover switch replaced where present |
| `ConnectionString.RedirectedParses` | src/failover/cluster_topology_monitor.cc:234-241 | Parsed again, that string differs from the monitor's in the server, if one was given, and in failover being off, if it was mentioned; nothing else |
| `HostSelectors.HighestWeight` | src/host_selector/highest_weight_host_selector.cc:20-45 | Answers a listed host of the wanted role and throws exactly when there is none |
| `HostSelectors.HighestWeightIsFirstHeaviest` | src/host_selector/highest_weight_host_selector.cc:33-44 | The answer is the first, in list order, of the heaviest hosts of the wanted role |
| `HostSelectors.HighestWeightMeans` | src/host_selector/highest_weight_host_selector.cc:24-44 | Asked for a writer the answer is an up writer, asked for a reader an up reader, that no listed host of that kind outweighs; it throws when there is none of the kind |
| `HostSelectors.RandomHost` | src/host_selector/random_host_selector.cc:21-41 | Answers an eligible listed host and throws exactly when there is none |
| `HostSelectors.RandomHostReaches` | src/host_selector/random_host_selector.cc:36-40 | Every eligible host is the answer for some draw |
| `HostSelectors.RoundRobinSelects` | src/host_selector/round_robin_host_selector.cc:53-66 | In every state the scheduler too answers only with eligible listed hosts |
| `LimitlessQueryHelper.WeightFallsWithLoad` | src/limitless/limitless_query_helper.cc:118-135 | Every router is an up writer with a weight in 1..10; weights do not grow with the load exactly for loads above -0.05 |
| `LimitlessQueryHelper.WeightIsScaledLoad` | src/limitless/limitless_query_helper.cc:118-135 | The weight is the whole number nearest to 10 - 10 * load for loads above -0.05 and up to 0.95, and 1 for any other; endpoint and port are kept |
| `LimitlessQueryHelper.NegativeLoadWeighsLess` | src/limitless/limitless_query_helper.cc:119-124 | A load of -0.1 gets the weight 1 although an idle router gets 10 |
| `LimitlessQueryHelper.RouterTextAccepted` | src/host_selector/round_robin_host_selector.cc:194-241 | On every record the weight text of routers with clean names is accepted |
| `LimitlessQueryHelper.RoutersAlwaysServed` | src/limitless/limitless_monitor_service.cc:183-185 | In every state of the scheduler, routers with clean names never make it throw; in a timely call they yield a host |
| `LimitlessCounts.ExistsExactlyWhileHeld` | src/limitless/limitless_monitor_service.cc:78-157 | Over every run without counter wrap, a service exists if and only if references have been held ever since one of its creations |
| `LimitlessCounts.ExistsOnlyWhileHeld` | src/limitless/limitless_monitor_service.cc:126-157 | An existing service's counter is the balance of the references since its creation |
| `LimitlessCounts.HeldExists` | src/limitless/limitless_monitor_service.cc:126-157 | A service held since some creation exists, with at least the references taken since |
| `LimitlessCounts.PositiveExactlyWithoutWrap` | src/limitless/limitless_monitor_service.cc:134 | Stored counters stay at least 1 if and only if no increment finds the counter at its largest value |
| `LimitlessCounts.ShortRunsDoNotWrap` | src/limitless/limitless_monitor_service.cc:134 | Runs of fewer than 2^32 operations never wrap |
| `LimitlessCounts.WrapEndsService` | src/limitless/limitless_monitor_service.cc:134-156 | With 2^32 references held, giving one back ends the service |
| `LimitlessMonitorService.LimitlessMonitorService.NewService` | src/limitless/limitless_monitor_service.cc:52-124 | Resolves the id, refuses a known one, throws on a bad interval before anything is stored, and otherwise adds a service with one reference, its polling interval, and the routers of the first query unless lazy |
| `LimitlessMonitorService.OneClusterOneService` | src/limitless/limitless_monitor_service.cc:65-76 | Two creations without an id whose servers belong to the same cluster get the cluster as their id, whenever they come, so they meet one service |
| `LimitlessMonitorService.IntervalInForce` | src/limitless/limitless_monitor_service.cc:93-99 | An interval that fits 32 bits is taken as it is, a negative one wraps round, and without one it is 7500 ms |
| `LimitlessMonitorService.LazyAsWritten` | src/limitless/limitless_monitor_service.cc:83-91 | Of the strings printed from clean settings, exactly those whose mode is lazy make a monitor that does not query at once |
| `LimitlessMonitorService.LimitlessMonitorService.IncrementReferenceCounter` | src/limitless/limitless_monitor_service.cc:126-135 | Adds one to a known counter, modulo 2^32, and nothing else |
| `LimitlessMonitorService.LimitlessMonitorService.DecrementReferenceCounter` | src/limitless/limitless_monitor_service.cc:137-157 | Takes one from a known counter and removes the service when none is left |
| `LimitlessMonitorService.LimitlessMonitorService.CheckService` | src/limitless/limitless_monitor_service.cc:47-50 | Says whether the id is known |
| `LimitlessMonitorService.LimitlessMonitorService.GetHostInfo` | src/limitless/limitless_monitor_service.cc:159-220 | Without a service or routers there is no host; otherwise the scheduler's host if it passes its test, else the outcome of the walk over the heaviest, unless the scheduler dereferences null; counters and routers stay as they are |
| `LimitlessMonitorService.SearchIsSound` | src/limitless/limitless_monitor_service.cc:186-206 | A router handed out is a listed up writer that passed the last connection test made |
| `LimitlessMonitorService.SchedulerComesFirst` | src/limitless/limitless_monitor_service.cc:186-194 | While the scheduler's host passes its test it is handed out after that one test |
| `LimitlessWalk.Fallback` | src/limitless/limitless_monitor_service.cc:195-219 | Every try is the heaviest untried up writer; the walk ends with a host that passed, or with exactly min(5, distinct eligible names) tries, all failed |
| `LimitlessWalk.WalkDescends` | src/limitless/limitless_monitor_service.cc:196-213 | Tried hosts have pairwise different names and never grow in weight |
| `LimitlessWalk.WalkSize` | src/limitless/limitless_monitor_service.cc:207-218 | A walk has tried as many hosts as there are eligible names exactly when none is left |
| `LimitlessWalk.WalkOn` | src/limitless/limitless_monitor_service.cc:198-213 | The host chosen from the marked list is the heaviest not yet tried |
| `LimitlessWalk.MarkDown` | src/limitless/limitless_monitor_service.cc:208-212 | Every host of the failed name is down in the copy, all others are as before |
| `FailoverService.FailoverService.FailoverReader` | src/failover/failover_service.cc:196-308 | The loops end. The attempts are in order and carry the answers the database gave; every reader tried was offered by the selector from exactly the readers open at that point, those neither connected so far nor tried in the pass; the original writer is tried in every pass before the next. Only the last attempt can be accepted; success sets the current host to it, failure leaves it. Giving up early means that the selector threw on a non-empty list of exactly the open readers, timing out that the deadline was reached |
| `FailoverService.FailoverService.RetryUntil` | src/failover/failover_service.cc:231-302 | The same from the first pass on, for any readers and original writer of the topology |
| `FailoverService.ReaderSuccessIsSound` | src/failover/failover_service.cc:252-256 | After a success the current host comes from the topology, or is the default one if it lists no writer; the server setting names it, and the connection string used parses back to the settings; the last answers were connected, alive and, in strict reader mode, reader |
| `FailoverService.ReaderFailureIsComplete` | src/failover/failover_service.cc:244-299 | After a failure every attempt met a refused connection, a failed check or, in strict reader mode, an answer other than reader; the current host is unchanged |
| `FailoverService.GivenUpLeavesReaders` | src/failover/failover_service.cc:236-243 | When failover gives up for want of an eligible host, the topology still lists a reader that never connected |
| `FailoverService.FailoverService.ReaderPass` | src/failover/failover_service.cc:232-270 | Each reader name is tried at most once, each as the selector offered it from exactly the candidates not yet tried; the pass ends early only by success, by the deadline, or by the selector throwing on a non-empty list of exactly the candidates not yet tried; those that connected and were refused leave the list for good |
| `FailoverService.FailoverService.Pass` | src/failover/failover_service.cc:231-302 | A whole turn, readers then original writer, keeps the order of all attempts so far and what the selector was asked, and skips the writer only after the deadline |
| `FailoverService.FailoverService.TryOriginalWriter` | src/failover/failover_service.cc:275-300 | At most one attempt, at the original writer, and none after the deadline |
| `FailoverService.FailoverService.FailoverWriter` | src/failover/failover_service.cc:310-344 | One attempt, at the up writer the selector answered with, and none exactly when it threw; success exactly when it connected, passed the check and did not say reader; only success moves the current host |
| `FailoverService.FailoverService.Failover` | src/failover/failover_service.cc:163-178 | Skipped exactly for states that do not begin with 08, changing nothing; otherwise failover is switched on in the settings and the mode decides between writer and readers; only success moves the current host |
| `FailoverService.SwitchedOnThroughout` | src/failover/failover_service.cc:169-174 | After any attempts of a failover the settings have failover switched on, and all others but the server are what they were |
| `FailoverService.ModesRecognised` | src/failover/failover_service.cc:121-131 | The three modes are recognised in any mix of capitals and small letters |
| `FailoverService.ModeOtherwise` | src/failover/failover_service.cc:133-135 | Any other setting, or none, means reader-or-writer at an endpoint of readers and strict writer at any other |
| `FailoverService.FailoverService.ConnectToHost` | src/failover/failover_service.cc:346-352 | The server setting is replaced and the connection string is the printed form of the settings |
| `FailoverService.FailoverService.TryHost` | src/failover/failover_service.cc:244-253 | The check is made only once connected, the role query only once checked, and the record holds their answers |
| `FailoverTrace.PassKeepsOrder` | src/failover/failover_service.cc:232-270 | A pass over readers that never connected keeps the trace in order: no repeats within a pass, no return to a reader that connected, nothing started after the deadline |
| `FailoverTrace.WriterKeepsOrder` | src/failover/failover_service.cc:286-300 | The original writer's attempt closes its pass |
| `FailoverTrace.PassCovers` | src/failover/failover_service.cc:232-278 | Before the deadline the writer is tried only when every reader had connected and been refused earlier or was tried in the same pass |
| `FailoverTrace.OpenHere` | src/failover/failover_service.cc:232-270 | The readers left in a pass are exactly those of the topology that neither connected so far nor were tried in the pass |
| `FailoverTrace.PassAfterWriters` | src/failover/failover_service.cc:275-302 | A pass begins only after every earlier one has tried the original writer |
| `FailoverTrace.SplitHosts` | src/failover/failover_service.cc:218-224 | The readers in order, and the last writer listed or the default host |
| `FailoverTrace.Without` | src/failover/failover_service.cc:191-194 | Removing a name removes every host of that name and no other, and shortens a list that has it |
| `HtmlUtil.DecodeInvertsEncode` | src/authentication/html_util.cc:32-60 | For every text, decoding the text with its table characters replaced by entities gives the text back |
| `HtmlUtil.FinishesExactlyOnKnown` | src/authentication/html_util.cc:37-57 | The loop finishes if and only if every ampersand with a later semicolon opens a table entity |
| `HtmlUtil.UnknownNeverDecodes` | src/authentication/html_util.cc:45-51 | On the text &foo; the loop never gets past the first character |
| `HtmlUtil.PlainIsCopied` | src/authentication/html_util.cc:38-43 | Up to the next ampersand the text is copied as it is |
| `HtmlUtil.NoSemicolonNoChange` | src/authentication/html_util.cc:52-55 | A text without semicolons is decoded to itself |
| `HtmlUtil.CodesMeanThemselves` | src/authentication/html_util.cc:22-30 | A numeric entity of the table decodes to the character of its code |
| `HtmlUtil.EscapeHtmlEntity` | src/authentication/html_util.cc:32-60 | On such texts the loop computes the decoded text, which is never longer |
| `HtmlUtil.StaysBefore` | src/authentication/html_util.cc:46-51 | The loop never steps over an unknown entity |
| `HtmlUtil.TableShape` | src/authentication/html_util.cc:22-30 | Every table entity opens with an ampersand, closes with a semicolon and holds neither in between |

## Left out

- EscapeHtmlEntity: requires that every ampersand with a later semicolon opens a table entity, because the loop does not
  end otherwise; `FinishesExactlyOnKnown` proves that this condition is exact.
- FailoverReader: requires a non-decreasing clock that reaches the deadline and a selector that answers with eligible
  listed hosts, which `HostSelectors` proves of all three; with a clock that stands still the loop need not end. It does
  not claim that the writer is still the writer (the flag for that is never set, line 230), that the handle is
  disconnected before every attempt (lines 293-297), or that "not a reader" was answered rather than a failed query
  (lines 354-385).
- GetHost: after a null dereference the behaviour of the source is undefined, and nothing is said about the state. The
  order the sort gives equal names is left open.
- GetHostEffect, CallShape, RunsAgree, SharingIsConfined, SharersAreChained, ExactFairness, RunServes: speak of calls in
  which less than the time to live, 600 seconds, passes, hence of calls that do not dereference null.
- HandlesAreConserved: covers runs before shutdown only; the destructor (lines 51-73) clears the node map while the main
  thread may refill it. Handle identifiers are taken as never reused. Threads that leave by an exception (lines 125-142
  and 466-493) are not modelled: one thrown by the query of line 522 would leave a handle both with its node and in the
  writer slot, and line 493 would free it there.
- TopologyMonitor: a state machine on values, one action per critical section, instead of a class; it does not capture
  the aliasing of `shared_ptr` objects. The mutexes appear as enabling conditions of the actions.
- TopologyMonitor: liveness is not stated beyond deadlock; a writer connection that dies before pick-up leaves stopped
  nodes in a non-empty map, and the main thread looks at it again and again (lines 316, 401, 529).
- TopologyMonitor: the handle read at line 284 without a lock may already be freed by a forced refresh; ownership is
  proved there, not safe use.
- TopologyMonitor: request flags, condition variables, delays, refresh rates and the ignore window (line 84) are not
  modelled, nor is what the topology cache holds; the comparison at line 577 and the flag at line 197 look reversed in
  the source and only influence those.
- NewService: the number parser, the cluster name in a host name and the time are parameters; the monitor thread it
  starts is not modelled.
- WeightFallsWithLoad: loads are real numbers; reading the text and the overflow of a huge negative result when it is
  converted to 64 bits are not modelled.
- FailoverService: the choice of the selector from the settings and the reading of the timeout (lines 109, 138-161) are
  parameters.
- SplitHosts: the role and state flags of a default-constructed host are indeterminate in the source and fixed here.
- ParseConnectionString: upper-casing is that of ASCII letters; the regular-expression library is represented by its
  leftmost, greedy meaning for this pattern. Wide and narrow strings are not told apart.
- SetRoundRobinWeight, ReadLines: string lengths and list indices are unbounded integers.
- RoundRobinHostSelector: the mutex and the sharing of one static cache by all selector objects are represented by one
  object whose calls follow each other.
- Failover: the handle itself, the refresh of the topology before it, and the trackers of
  src/failover/failover_service.cc:45-81 and 415-520 are not modelled; a tracker reset there is never recreated, and
  check-then-put can lose a reference.
- CheckLimitlessCluster, GetLimitlessInstance: calls into ODBC and copying of C strings only.
- Authentication plug-ins, token and secrets caches, region and host-name patterns, number converters and logging: calls
  into libraries, or easy members only.
