/** The connection attempts of a reader failover (src/failover/failover_service.cc), as a trace, and what keeps the
    trace in order from one pass of the loop to the next. */
module FailoverTrace {
  import opened Basics
  import opened Hosts

  datatype FailoverMode = StrictReader | StrictWriter | ReaderOrWriter

  /** One attempt: in which pass, whether its host came from the reader candidates, the clock just before it, the
      connection string used, and the answers.  A check is made once connected, a role asked for once checked. */
  datatype Attempt = Attempt(pass: nat, fromReaders: bool, host: HostInfo, at: int, connStr: string,
                             connected: bool, alive: bool, reader: bool)

  type Trace = seq<Attempt>

  /** Good enough to end the failover. */
  predicate Accepts(mode: FailoverMode, a: Attempt) {
    a.connected && a.alive && (a.reader || mode != StrictReader)
  }

  // ---- candidates ----

  /** `remove_candidate`. */
  function Without(hosts: seq<HostInfo>, name: string): (rest: seq<HostInfo>)
    ensures forall h :: h in rest <==> h in hosts && h.host != name
    ensures |rest| <= |hosts| && (name in Names(hosts) ==> |rest| < |hosts|)
  {
    if hosts == [] then []
    else (if hosts[0].host == name then [] else [hosts[0]]) + Without(hosts[1..], name)
  }

  function Readers(hosts: seq<HostInfo>): (readers: seq<HostInfo>)
    ensures forall h :: h in readers <==> h in hosts && !h.isWriter
  {
    if hosts == [] then []
    else Readers(hosts[..|hosts| - 1]) + if hosts[|hosts| - 1].isWriter then [] else [hosts[|hosts| - 1]]
  }

  /** A default-constructed host; its two flags are indeterminate in the source. */
  const NO_HOST: HostInfo := HostInfo("", -1, Up, false, 100)

  /** The last writer listed. */
  function OriginalWriter(hosts: seq<HostInfo>): (w: HostInfo)
    ensures (forall h | h in hosts :: !h.isWriter) ==> w == NO_HOST
    ensures (exists h :: h in hosts && h.isWriter) ==>
              exists i ::
                0 <= i < |hosts| && hosts[i] == w && w.isWriter && forall j | i < j < |hosts| :: !hosts[j].isWriter
  {
    if hosts == [] then NO_HOST
    else if hosts[|hosts| - 1].isWriter then hosts[|hosts| - 1]
    else OriginalWriter(hosts[..|hosts| - 1])
  }

  lemma OneOf(h: HostInfo, name: string)
    ensures Readers([h]) == if h.isWriter then [] else [h]
    ensures Without([h], name) == if h.host == name then [] else [h]
  {
    assert [h][..0] == [] && [h][1..] == [];
  }

  lemma LastReader(hosts: seq<HostInfo>, h: HostInfo)
    ensures Readers(hosts + [h]) == Readers(hosts) + if h.isWriter then [] else [h]
  {
    assert (hosts + [h])[..|hosts|] == hosts;
  }

  /** The readers of a list are those of its parts in the same order; by `OneOf` a single host stays unless it is a
      writer. */
  lemma {:induction false} ReadersOfParts(a: seq<HostInfo>, b: seq<HostInfo>)
    ensures Readers(a + b) == Readers(a) + Readers(b)
    decreases |b|
  {
    hide Readers;
    if b == [] {
      assert a + b == a;
      NoReaders();
    } else {
      var init, last := b[..|b| - 1], b[|b| - 1];
      SplitLast(b);
      Associative(a, init, [last]);
      ReadersOfParts(a, init);
      LastReader(a + init, last);
      LastReader(init, last);
      Associative(Readers(a), Readers(init), if last.isWriter then [] else [last]);
    }
  }

  lemma NoReaders()
    ensures Readers([]) == []
  {
  }

  lemma WithoutFirst(h: HostInfo, hosts: seq<HostInfo>, name: string)
    ensures Without([h] + hosts, name) == (if h.host == name then [] else [h]) + Without(hosts, name)
  {
    assert ([h] + hosts)[1..] == hosts;
  }

  /** Removing a name from a list removes it from the parts; by `OneOf` a single host goes exactly when it has it. */
  lemma {:induction false} WithoutOfParts(a: seq<HostInfo>, b: seq<HostInfo>, name: string)
    ensures Without(a + b, name) == Without(a, name) + Without(b, name)
    decreases |a|
  {
    hide Without;
    if a == [] {
      assert a + b == b;
      NothingWithout(name);
    } else {
      SplitFirst(a);
      Associative([a[0]], a[1..], b);
      WithoutOfParts(a[1..], b, name);
      WithoutFirst(a[0], a[1..] + b, name);
      WithoutFirst(a[0], a[1..], name);
      Associative(if a[0].host == name then [] else [a[0]], Without(a[1..], name), Without(b, name));
    }
  }

  lemma NothingWithout(name: string)
    ensures Without([], name) == []
  {
  }

  method SplitHosts(hosts: seq<HostInfo>) returns (writer: HostInfo, readers: seq<HostInfo>)
    ensures writer == OriginalWriter(hosts) && readers == Readers(hosts)
  {
    writer, readers := NO_HOST, [];
    for i := 0 to |hosts|
      invariant writer == OriginalWriter(hosts[..i]) && readers == Readers(hosts[..i])
    {
      assert hosts[..i + 1][..i] == hosts[..i];
      if hosts[i].isWriter {
        writer := hosts[i];
      } else {
        readers := readers + [hosts[i]];
      }
    }
    assert hosts[..|hosts|] == hosts;
  }

  // ---- order ----

  /** The reader names a trace tried. */
  ghost function Tried(t: Trace): set<string> {
    set a | a in t && a.fromReaders :: a.host.host
  }

  /** The reader names a trace connected to. */
  ghost function Connected(t: Trace): set<string> {
    set a | a in t && a.fromReaders && a.connected :: a.host.host
  }

  /** A later attempt never goes back a pass, repeats a reader name within a pass, returns to a reader that had
      connected, or follows the writer's attempt of its own pass. */
  ghost predicate InOrder(a: Attempt, later: Attempt) {
    && a.pass <= later.pass
    && (!a.fromReaders ==> a.pass < later.pass)
    && (a.fromReaders && later.fromReaders && (a.pass == later.pass || a.connected) ==> a.host.host != later.host.host)
  }

  /** Readers come from the topology and are started before the deadline; the only other host is the writer. */
  ghost predicate Sound(a: Attempt, hosts: seq<HostInfo>, end: int) {
    if a.fromReaders then a.host in hosts && !a.host.isWriter && a.host.IsUp() && a.at < end
    else a.host == OriginalWriter(hosts) && a.at <= end
  }

  ghost predicate Orderly(t: Trace, hosts: seq<HostInfo>, end: int) {
    && (forall i | 0 <= i < |t| :: Sound(t[i], hosts, end))
    && (forall i, j | 0 <= i < j < |t| :: InOrder(t[i], t[j]))
  }

  ghost predicate NoneAccepted(t: Trace, mode: FailoverMode) {
    forall a | a in t :: !Accepts(mode, a)
  }

  /** The attempts of the inner loop of one pass. */
  ghost predicate PassTrace(u: Trace, pass: nat, candidates: seq<HostInfo>, end: int) {
    && (forall i | 0 <= i < |u| :: PassAttempt(u[i], pass, candidates, end))
    && (forall i, j | 0 <= i < j < |u| :: u[i].host.host != u[j].host.host)
  }

  ghost predicate PassAttempt(a: Attempt, pass: nat, candidates: seq<HostInfo>, end: int) {
    a.pass == pass && a.fromReaders && a.host in candidates && a.host.IsUp() && a.at < end
  }

  /** What is left to choose from: the readers of the topology that never connected. */
  ghost predicate Remaining(candidates: seq<HostInfo>, hosts: seq<HostInfo>, t: Trace) {
    forall h :: h in candidates <==> h in hosts && !h.isWriter && h.host !in Connected(t)
  }

  ghost predicate Before(t: Trace, pass: nat) {
    forall a | a in t :: a.pass < pass
  }

  /** A pass over the remaining candidates keeps the whole trace in order. */
  lemma PassKeepsOrder(t: Trace, u: Trace, pass: nat, candidates: seq<HostInfo>, hosts: seq<HostInfo>, end: int)
    requires Orderly(t, hosts, end) && Before(t, pass) && Remaining(candidates, hosts, t)
    requires PassTrace(u, pass, candidates, end)
    ensures Orderly(t + u, hosts, end) && forall a | a in t + u :: a.pass < pass || (a.pass == pass && a.fromReaders)
  {
    var w := t + u;
    forall i | 0 <= i < |w| ensures Sound(w[i], hosts, end) {
      if i >= |t| {
        assert PassAttempt(u[i - |t|], pass, candidates, end);
      }
    }
    forall i, j | 0 <= i < j < |w| ensures InOrder(w[i], w[j]) {
      if j >= |t| {
        assert PassAttempt(u[j - |t|], pass, candidates, end);
        if i >= |t| {
          assert PassAttempt(u[i - |t|], pass, candidates, end);
        } else {
          assert t[i] in t && (t[i].fromReaders && t[i].connected ==> t[i].host.host in Connected(t));
        }
      }
    }
  }

  /** So does the writer's attempt after it. */
  lemma WriterKeepsOrder(t: Trace, a: Attempt, hosts: seq<HostInfo>, end: int)
    requires Orderly(t, hosts, end) && Sound(a, hosts, end) && !a.fromReaders
    requires forall b | b in t :: b.pass < a.pass || (b.pass == a.pass && b.fromReaders)
    ensures Orderly(t + [a], hosts, end) && Before(t + [a], a.pass + 1) && Connected(t + [a]) == Connected(t)
  {
    var w := t + [a];
    forall i, j | 0 <= i < j < |w| ensures InOrder(w[i], w[j]) {
      if j == |t| {
        assert t[i] in t;
      }
    }
  }

  /** One more attempt of the inner loop. */
  lemma PassStep(u: Trace, a: Attempt, pass: nat, candidates: seq<HostInfo>, end: int)
    requires PassTrace(u, pass, candidates, end) && PassAttempt(a, pass, candidates, end)
    requires a.host.host !in Tried(u)
    ensures PassTrace(u + [a], pass, candidates, end)
  {
    forall i | 0 <= i < |u| ensures u[i].host.host in Tried(u) {
      assert PassAttempt(u[i], pass, candidates, end) && u[i] in u;
    }
  }

  /** The two lists of one pass: readers not tried in it yet, and readers that never connected. */
  ghost predicate Shrunk(candidates: seq<HostInfo>, remaining: seq<HostInfo>, left: seq<HostInfo>, u: Trace) {
    && (forall h :: h in remaining <==> h in candidates && h.host !in Tried(u))
    && (forall h :: h in left <==> h in candidates && h.host !in Connected(u))
  }

  lemma ShrunkStep(candidates: seq<HostInfo>, remaining: seq<HostInfo>, left: seq<HostInfo>, u: Trace, a: Attempt)
    requires Shrunk(candidates, remaining, left, u) && a.fromReaders
    ensures var name := a.host.host;
            Shrunk(candidates, Without(remaining, name), if a.connected then Without(left, name) else left, u + [a])
  {
    assert Tried(u + [a]) == Tried(u) + {a.host.host};
    assert Connected(u + [a]) == Connected(u) + if a.connected then {a.host.host} else {};
  }

  // ---- what is open to the selector ----

  ghost predicate TriedIn(t: Trace, pass: nat, name: string) {
    exists a :: a in t && a.fromReaders && a.pass == pass && a.host.host == name
  }

  /** A reader of the topology that has neither connected so far nor been tried in this pass. */
  ghost predicate Open(h: HostInfo, t: Trace, pass: nat, hosts: seq<HostInfo>) {
    h in hosts && !h.isWriter && h.host !in Connected(t) && !TriedIn(t, pass, h.host)
  }

  ghost predicate ListsOpen(remaining: seq<HostInfo>, t: Trace, pass: nat, hosts: seq<HostInfo>) {
    forall h :: h in remaining <==> Open(h, t, pass, hosts)
  }

  lemma OpenHere(t: Trace, u: Trace, pass: nat, candidates: seq<HostInfo>, remaining: seq<HostInfo>,
                 left: seq<HostInfo>, hosts: seq<HostInfo>)
    requires Before(t, pass) && Remaining(candidates, hosts, t) && Shrunk(candidates, remaining, left, u)
    requires forall a | a in u :: a.fromReaders && a.pass == pass
    ensures ListsOpen(remaining, t + u, pass, hosts)
  {
    ConnectedJoin(t, u);
    forall name ensures TriedIn(t + u, pass, name) <==> name in Tried(u) {
      if name in Tried(u) {
        var a :| a in u && a.host.host == name;
        assert a in t + u;
      }
    }
    forall h ensures h in remaining <==> Open(h, t + u, pass, hosts) {
    }
  }

  // ---- no pass leaves its writer out ----

  ghost predicate WriterIn(t: Trace, pass: nat) {
    exists a :: a in t && !a.fromReaders && a.pass == pass
  }

  ghost predicate WritersTried(t: Trace, passes: nat) {
    forall q: nat | q < passes :: WriterIn(t, q)
  }

  /** Before a later pass begins, the original writer was tried in every earlier one. */
  ghost predicate EachPassEnds(t: Trace) {
    forall i | 0 <= i < |t| :: WritersTried(t[..i], t[i].pass)
  }

  lemma PassAfterWriters(t: Trace, u: Trace, pass: nat)
    requires EachPassEnds(t) && WritersTried(t, pass) && forall a | a in u :: a.pass == pass
    ensures EachPassEnds(t + u) && WritersTried(t + u, pass)
    ensures WriterIn(u, pass) ==> WritersTried(t + u, pass + 1)
  {
    var w := t + u;
    forall i | 0 <= i < |w| ensures WritersTried(w[..i], w[i].pass) {
      if i < |t| {
        assert w[..i] == t[..i];
      } else {
        assert u[i - |t|] in u && t <= w[..i];
        WritersStay(t, w[..i], pass);
      }
    }
    WritersStay(t, w, pass);
    if WriterIn(u, pass) {
      var a :| a in u && !a.fromReaders && a.pass == pass;
      assert a in w;
    }
  }

  lemma WritersStay(t: Trace, w: Trace, passes: nat)
    requires WritersTried(t, passes) && t <= w
    ensures WritersTried(w, passes)
  {
    forall q: nat | q < passes ensures WriterIn(w, q) {
      assert WriterIn(t, q);
      var a :| a in t && !a.fromReaders && a.pass == q;
      assert a in w;
    }
  }

  lemma ConnectedJoin(t: Trace, u: Trace)
    ensures Connected(t + u) == Connected(t) + Connected(u)
  {
  }

  // ---- completeness ----

  /** When the writer is tried before the deadline, every reader had either connected earlier, and was refused, or
      been tried in the same pass. */
  ghost predicate ReadersFirst(t: Trace, hosts: seq<HostInfo>, end: int) {
    forall i | 0 <= i < |t| && !t[i].fromReaders && t[i].at < end :: Covered(t[..i], t[i].pass, hosts)
  }

  ghost predicate Covered(t: Trace, pass: nat, hosts: seq<HostInfo>) {
    forall h | h in hosts && !h.isWriter ::
      h.host in Connected(t) || exists a :: a in t && a.fromReaders && a.pass == pass && a.host.host == h.host
  }

  /** What is left after a pass is what never connected at all. */
  lemma LeftRemaining(t: Trace, u: Trace, candidates: seq<HostInfo>, remaining: seq<HostInfo>, left: seq<HostInfo>,
                      hosts: seq<HostInfo>)
    requires Remaining(candidates, hosts, t) && Shrunk(candidates, remaining, left, u)
    ensures Remaining(left, hosts, t + u)
  {
    ConnectedJoin(t, u);
  }

  lemma PassCovers(t: Trace, u: Trace, pass: nat, candidates: seq<HostInfo>, hosts: seq<HostInfo>, end: int)
    requires ReadersFirst(t, hosts, end) && Remaining(candidates, hosts, t) && PassTrace(u, pass, candidates, end)
    ensures ReadersFirst(t + u, hosts, end)
    ensures Tried(u) == Names(candidates) ==> Covered(t + u, pass, hosts)
  {
    hide Covered;
    forall k | 0 <= k < |u| ensures u[k].fromReaders {
      assert PassAttempt(u[k], pass, candidates, end);
    }
    forall i | 0 <= i < |t + u| && !(t + u)[i].fromReaders && (t + u)[i].at < end
      ensures Covered((t + u)[..i], (t + u)[i].pass, hosts)
    {
      assert (t + u)[..i] == t[..i];
    }
    if Tried(u) == Names(candidates) {
      TriedCovers(t, u, pass, candidates, hosts, end);
    }
  }

  lemma TriedCovers(t: Trace, u: Trace, pass: nat, candidates: seq<HostInfo>, hosts: seq<HostInfo>, end: int)
    requires Remaining(candidates, hosts, t) && PassTrace(u, pass, candidates, end) && Tried(u) == Names(candidates)
    ensures Covered(t + u, pass, hosts)
  {
    ConnectedJoin(t, u);
    forall h | h in hosts && !h.isWriter && h.host !in Connected(t + u)
      ensures exists a :: a in t + u && a.fromReaders && a.pass == pass && a.host.host == h.host
    {
      assert h in candidates && h.host in Tried(u);
      var i :| 0 <= i < |u| && u[i].host.host == h.host;
      assert PassAttempt(u[i], pass, candidates, end) && u[i] in t + u;
    }
  }

  lemma WriterCovers(t: Trace, a: Attempt, hosts: seq<HostInfo>, end: int)
    requires ReadersFirst(t, hosts, end) && (a.at < end ==> Covered(t, a.pass, hosts))
    ensures ReadersFirst(t + [a], hosts, end)
  {
    hide Covered;
    assert (t + [a])[..|t|] == t;
    forall i | 0 <= i < |t| ensures (t + [a])[..i] == t[..i] {
    }
  }

  // ---- one whole turn of the outer loop ----

  /** Everything a turn of the loop keeps. */
  ghost predicate Kept(t: Trace, hosts: seq<HostInfo>, end: int) {
    Orderly(t, hosts, end) && ReadersFirst(t, hosts, end)
  }

  /** The readers of this pass are done, its writer is not. */
  ghost predicate WriterDue(t: Trace, pass: nat) {
    forall b | b in t :: b.pass < pass || (b.pass == pass && b.fromReaders)
  }

  lemma ReadersDone(t: Trace, u: Trace, pass: nat, candidates: seq<HostInfo>, hosts: seq<HostInfo>, end: int)
    requires Kept(t, hosts, end) && Before(t, pass) && Remaining(candidates, hosts, t)
    requires PassTrace(u, pass, candidates, end)
    ensures Kept(t + u, hosts, end) && WriterDue(t + u, pass)
    ensures Tried(u) == Names(candidates) ==> Covered(t + u, pass, hosts)
  {
    PassKeepsOrder(t, u, pass, candidates, hosts, end);
    PassCovers(t, u, pass, candidates, hosts, end);
  }

  /** The attempt at the writer, if there was time for one. */
  lemma WriterDone(t: Trace, w: Trace, pass: nat, left: seq<HostInfo>, hosts: seq<HostInfo>, end: int)
    requires Kept(t, hosts, end) && WriterDue(t, pass) && Remaining(left, hosts, t)
    requires |w| <= 1
    requires forall a | a in w :: a.pass == pass && !a.fromReaders && a.host == OriginalWriter(hosts) && a.at <= end
    requires (exists a :: a in w && a.at < end) ==> Covered(t, pass, hosts)
    ensures Kept(t + w, hosts, end) && Before(t + w, pass + 1) && Remaining(left, hosts, t + w)
  {
    if w == [] {
      assert t + w == t;
    } else {
      var a := w[0];
      assert w == [a] && a in w;
      WriterKeepsOrder(t, a, hosts, end);
      WriterCovers(t, a, hosts, end);
    }
  }
}
