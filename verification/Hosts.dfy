/** Host descriptions (src/host_info.h): plain values, copied wherever they go. */
module Hosts {

  datatype HostState = Up | Down

  /** The weight is a `uint64_t`. */
  type Weight = w: int | 0 <= w < 0x1_0000_0000_0000_0000

  datatype HostInfo = HostInfo(host: string, port: int, state: HostState, isWriter: bool, weight: Weight) {
    predicate IsUp() { state == Up }
  }

  function Names(hosts: seq<HostInfo>): (names: set<string>) {
    set h | h in hosts :: h.host
  }

  /** No two positions of the list carry the same host name. */
  ghost predicate DistinctNames(hosts: seq<HostInfo>) {
    forall i, j | 0 <= i < j < |hosts| :: hosts[i].host != hosts[j].host
  }
}
