/** The host selectors that keep no state (src/host_selector/highest_weight_host_selector.cc and
    random_host_selector.cc), and the contract all three selectors share. */
module HostSelectors {
  import opened Basics
  import opened Hosts
  import RR = RoundRobin
  import RT = RoundRobinTiming

  /** What failover relies on: a selector answers with a listed host that is up, and with a writer when asked
      for one. */
  predicate Selects(hosts: seq<HostInfo>, isWriter: bool, r: Result<HostInfo>) {
    r.Ok? ==> r.value in hosts && RR.Eligible(r.value, isWriter)
  }

  /** The highest-weight selector matches the role both ways: asked for a reader it skips writers. */
  predicate SameRole(h: HostInfo, isWriter: bool) {
    h.IsUp() && isWriter == h.isWriter
  }

  function Eligibles(hosts: seq<HostInfo>, isWriter: bool): (sel: seq<HostInfo>)
    ensures forall h :: h in sel <==> h in hosts && SameRole(h, isWriter)
  {
    if hosts == [] then []
    else (if SameRole(hosts[0], isWriter) then [hosts[0]] else []) + Eligibles(hosts[1..], isWriter)
  }

  /** `std::max_element`: the first of the heaviest. */
  function MaxElement(hosts: seq<HostInfo>): (h: HostInfo)
    requires hosts != []
    ensures h in hosts
  {
    if |hosts| == 1 then hosts[0]
    else
      var best := MaxElement(hosts[1..]);
      if hosts[0].weight < best.weight then best else hosts[0]
  }

  /** HighestWeightHostSelector::GetHost. */
  function HighestWeight(hosts: seq<HostInfo>, isWriter: bool): (r: Result<HostInfo>)
    ensures Selects(hosts, isWriter, r)
    ensures r.Throws? <==> forall h | h in hosts :: !SameRole(h, isWriter)
  {
    var sel := Eligibles(hosts, isWriter);
    if sel == [] then
      assert forall h | h in hosts && SameRole(h, isWriter) :: h in sel;
      Throws
    else
      Ok(MaxElement(sel))
  }

  /** The host at `i` is of the wanted role, nothing of that role outweighs it, and what precedes it is lighter. */
  ghost predicate FirstHeaviest(hosts: seq<HostInfo>, isWriter: bool, i: nat) {
    && i < |hosts| && SameRole(hosts[i], isWriter)
    && forall j | 0 <= j < |hosts| && SameRole(hosts[j], isWriter) ::
         hosts[j].weight <= hosts[i].weight && (j < i ==> hosts[j].weight < hosts[i].weight)
  }

  lemma HighestWeightStep(hosts: seq<HostInfo>, isWriter: bool)
    requires hosts != []
    ensures var (h, rest) := (hosts[0], HighestWeight(hosts[1..], isWriter));
            HighestWeight(hosts, isWriter) ==
            if !SameRole(h, isWriter) then rest
            else if rest.Ok? && h.weight < rest.value.weight then rest else Ok(h)
  {
    var tail := Eligibles(hosts[1..], isWriter);
    assert Eligibles(hosts, isWriter) == if SameRole(hosts[0], isWriter) then [hosts[0]] + tail else tail;
    assert ([hosts[0]] + tail)[1..] == tail;
  }

  /** The answer is the first of the heaviest hosts of the wanted role, in the order of the list. */
  lemma {:induction false} HighestWeightIsFirstHeaviest(hosts: seq<HostInfo>, isWriter: bool) returns (i: nat)
    requires HighestWeight(hosts, isWriter).Ok?
    ensures FirstHeaviest(hosts, isWriter, i) && HighestWeight(hosts, isWriter) == Ok(hosts[i])
  {
    hide Eligibles, MaxElement, HighestWeight;
    var rest := hosts[1..];
    HighestWeightStep(hosts, isWriter);
    assert forall j | 1 <= j < |hosts| :: hosts[j] == rest[j - 1];
    if HighestWeight(rest, isWriter).Throws? {
      i := 0;
    } else {
      var k := HighestWeightIsFirstHeaviest(rest, isWriter);
      i := if SameRole(hosts[0], isWriter) && hosts[0].weight >= rest[k].weight then 0 else k + 1;
    }
  }

  /** Asked for a writer it answers with an up writer, asked for a reader with an up reader, that nothing of the kind
      outweighs; it throws when the list has none of the kind. */
  lemma HighestWeightMeans(hosts: seq<HostInfo>, isWriter: bool)
    ensures match HighestWeight(hosts, isWriter)
            case Ok(best) =>
              && best in hosts && best.state == Up && best.isWriter == isWriter
              && forall h | h in hosts && h.state == Up && h.isWriter == isWriter :: h.weight <= best.weight
            case Throws => forall h | h in hosts :: h.state == Down || h.isWriter != isWriter
  {
    hide Eligibles, MaxElement;
    if HighestWeight(hosts, isWriter).Ok? {
      var i := HighestWeightIsFirstHeaviest(hosts, isWriter);
      hide HighestWeight;
      forall h | h in hosts && h.state == Up && h.isWriter == isWriter ensures h.weight <= hosts[i].weight {
        var j :| 0 <= j < |hosts| && hosts[j] == h;
        assert SameRole(hosts[j], isWriter);
      }
    } else {
      assert forall h | h in hosts :: !SameRole(h, isWriter);
    }
  }

  /** RandomHostSelector::GetHost; `draw` is what the distribution over the indices answers. */
  function RandomHost(hosts: seq<HostInfo>, isWriter: bool, draw: nat): (r: Result<HostInfo>)
    requires RR.Selection(hosts, isWriter) != [] ==> draw < |RR.Selection(hosts, isWriter)|
    ensures Selects(hosts, isWriter, r)
    ensures r.Throws? <==> forall h | h in hosts :: !RR.Eligible(h, isWriter)
  {
    var sel := RR.Selection(hosts, isWriter);
    if sel == [] then
      assert forall h | h in hosts && RR.Eligible(h, isWriter) :: h in sel;
      Throws
    else
      Ok(sel[draw])
  }

  /** No eligible host is out of reach of the draw. */
  lemma RandomHostReaches(hosts: seq<HostInfo>, isWriter: bool, h: HostInfo) returns (draw: nat)
    requires h in hosts && RR.Eligible(h, isWriter)
    ensures draw < |RR.Selection(hosts, isWriter)| && RandomHost(hosts, isWriter, draw) == Ok(h)
  {
    var sel := RR.Selection(hosts, isWriter);
    assert h in sel;
    draw :| draw < |sel| && sel[draw] == h;
  }

  /** The scheduler keeps the shared contract in every state and at any readings of the clock. */
  lemma RoundRobinSelects(s: RR.Store, hosts: seq<HostInfo>, isWriter: bool, sel: seq<HostInfo>,
                          props: map<string, string>, clock: RR.Clock)
    requires RR.ValidStore(s) && RR.SortedSelection(sel, hosts, isWriter)
    ensures var answer := RT.Attempt(s, sel, props, clock).1;
            answer.Returned? ==> Selects(hosts, isWriter, answer.result)
  {
    hide RT.TryCreateEntries, RR.Selection;
    var answer := RT.Attempt(s, sel, props, clock).1;
    if answer.Returned? && answer.result.Ok? {
      var h := answer.result.value;
      assert h in multiset(sel) && h in multiset(RR.Selection(hosts, isWriter));
    }
  }
}
