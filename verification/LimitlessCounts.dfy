/** The life of the limitless services (src/limitless/limitless_monitor_service.cc) over whole histories: a service
    exists exactly while references to it are held. */
module LimitlessCounts {

  const COUNTER_SIZE: int := 0x1_0000_0000

  /** `unsigned int` */
  type Counter = n: int | 0 <= n < COUNTER_SIZE

  type Counts = map<string, Counter>

  datatype Op = New(id: string) | Increment(id: string) | Decrement(id: string)

  function Incremented(n: Counter): Counter {
    (n + 1) % COUNTER_SIZE
  }

  /** What one call does to the reference counters.  Calls on unknown ids, and creations of known ones, are only
      logged. */
  function Step(c: Counts, op: Op): Counts {
    match op
    case New(id) => if id in c then c else c[id := 1]
    case Increment(id) => if id in c then c[id := Incremented(c[id])] else c
    case Decrement(id) =>
      if id !in c then c
      else if c[id] <= 1 then c - {id}
      else c[id := c[id] - 1]
  }

  function Run(ops: seq<Op>): Counts {
    if ops == [] then map[] else Step(Run(ops[..|ops| - 1]), ops[|ops| - 1])
  }

  // ---- the history a service answers to ----

  /** References taken minus references given back. */
  function Net(ops: seq<Op>, id: string): int {
    if ops == [] then 0
    else
      Net(ops[..|ops| - 1], id) +
      match ops[|ops| - 1] {
        case New(_) => 0
        case Increment(i) => if i == id then 1 else 0
        case Decrement(i) => if i == id then -1 else 0
      }
  }

  /** The references held at point `j` if operation `k` created the service. */
  function Balance(ops: seq<Op>, id: string, k: nat, j: nat): int
    requires k < j <= |ops|
  {
    1 + Net(ops[k + 1..j], id)
  }

  /** Operation `k` asked for the service, and ever since some reference was held. */
  ghost predicate HeldSince(ops: seq<Op>, id: string, k: nat) {
    && k < |ops| && ops[k] == New(id)
    && forall j | k < j <= |ops| :: Balance(ops, id, k, j) > 0
  }

  /** No increment finds the counter at its largest value. */
  ghost predicate NoWrap(ops: seq<Op>) {
    forall j | 0 <= j < |ops| :: !Wraps(Run(ops[..j]), ops[j])
  }

  predicate Wraps(c: Counts, op: Op) {
    op.Increment? && op.id in c && c[op.id] == COUNTER_SIZE - 1
  }

  ghost predicate Positive(c: Counts) {
    forall id | id in c :: c[id] >= 1
  }

  lemma PrefixOfPrefix<T>(s: seq<T>, i: nat, j: nat)
    requires i <= j <= |s|
    ensures s[..j][..i] == s[..i]
  {
  }

  lemma NoWrapPrefix(ops: seq<Op>, n: nat)
    requires NoWrap(ops) && n <= |ops|
    ensures NoWrap(ops[..n])
  {
    forall j | 0 <= j < n ensures !Wraps(Run(ops[..n][..j]), ops[..n][j]) {
      PrefixOfPrefix(ops, j, n);
    }
  }

  lemma {:induction false} PositiveWithoutWrap(ops: seq<Op>)
    requires NoWrap(ops)
    ensures Positive(Run(ops))
  {
    if ops != [] {
      var n := |ops| - 1;
      NoWrapPrefix(ops, n);
      PositiveWithoutWrap(ops[..n]);
      assert !Wraps(Run(ops[..n]), ops[n]);
    }
  }

  lemma WrapStoresZero(ops: seq<Op>, j: nat)
    requires j < |ops| && Wraps(Run(ops[..j]), ops[j])
    ensures !Positive(Run(ops[..j + 1]))
  {
    assert ops[..j + 1][..j] == ops[..j];
    assert Run(ops[..j + 1])[ops[j].id] == 0;
  }

  /** Every stored counter is at least 1 throughout a run if and only if no increment wraps. */
  lemma PositiveExactlyWithoutWrap(ops: seq<Op>)
    ensures (forall j | 0 <= j <= |ops| :: Positive(Run(ops[..j]))) <==> NoWrap(ops)
  {
    hide Run, Wraps, Positive;
    if NoWrap(ops) {
      forall j | 0 <= j <= |ops| ensures Positive(Run(ops[..j])) {
        NoWrapPrefix(ops, j);
        PositiveWithoutWrap(ops[..j]);
      }
    }
    if !NoWrap(ops) {
      var j :| 0 <= j < |ops| && Wraps(Run(ops[..j]), ops[j]);
      WrapStoresZero(ops, j);
    }
  }

  lemma {:induction false} CountBounded(ops: seq<Op>)
    ensures forall id | id in Run(ops) :: Run(ops)[id] <= |ops|
  {
    if ops != [] {
      CountBounded(ops[..|ops| - 1]);
    }
  }

  /** No run of fewer than 2^32 operations wraps. */
  lemma ShortRunsDoNotWrap(ops: seq<Op>)
    requires |ops| < COUNTER_SIZE
    ensures NoWrap(ops)
  {
    forall j | 0 <= j < |ops| ensures !Wraps(Run(ops[..j]), ops[j]) {
      CountBounded(ops[..j]);
    }
  }

  // ---- a service exists exactly while it is held ----

  lemma SliceInit<T>(s: seq<T>, i: nat)
    requires i < |s|
    ensures s[i..|s|][..|s| - 1 - i] == s[i..|s| - 1]
  {
  }

  lemma HeldStep(ops: seq<Op>, id: string, k: nat)
    requires ops != [] && k < |ops| - 1
    ensures HeldSince(ops, id, k) <==> HeldSince(ops[..|ops| - 1], id, k) && Balance(ops, id, k, |ops|) > 0
    ensures Balance(ops, id, k, |ops|) == Balance(ops[..|ops| - 1], id, k, |ops| - 1) + Net([ops[|ops| - 1]], id)
  {
    hide Run, Step;
    var n := |ops| - 1;
    var before := ops[..n];
    forall j | k < j <= n ensures Balance(before, id, k, j) == Balance(ops, id, k, j) {
      assert before[k + 1..j] == ops[k + 1..j];
    }
    SliceInit(ops, k + 1);
    assert [ops[n]][..0] == [];
  }

  lemma LastStep(ops: seq<Op>)
    requires ops != [] && NoWrap(ops)
    ensures var (c, op) := (Run(ops[..|ops| - 1]), ops[|ops| - 1]);
            Run(ops) == Step(c, op) && !Wraps(c, op) && Positive(c)
  {
    NoWrapPrefix(ops, |ops| - 1);
    PositiveWithoutWrap(ops[..|ops| - 1]);
  }

  lemma JustCreated(ops: seq<Op>, id: string)
    requires ops != [] && id in Run(ops) && id !in Run(ops[..|ops| - 1])
    ensures HeldSince(ops, id, |ops| - 1) && Run(ops)[id] == 1 == Balance(ops, id, |ops| - 1, |ops|)
  {
    assert ops[|ops|..|ops|] == [];
  }

  lemma CountMoves(c: Counts, op: Op, id: string)
    requires id in c && c[id] >= 1 && !Wraps(c, op)
    ensures id in Step(c, op) <==> c[id] + Net([op], id) > 0
    ensures id in Step(c, op) ==> Step(c, op)[id] == c[id] + Net([op], id)
  {
    assert [op][..0] == [];
  }

  lemma StillHeld(ops: seq<Op>, id: string, k: nat)
    requires ops != [] && NoWrap(ops) && id in Run(ops)
    requires HeldSince(ops[..|ops| - 1], id, k) && id in Run(ops[..|ops| - 1])
    requires Run(ops[..|ops| - 1])[id] == Balance(ops[..|ops| - 1], id, k, |ops| - 1)
    ensures k < |ops| - 1 && HeldSince(ops, id, k) && Run(ops)[id] == Balance(ops, id, k, |ops|)
  {
    var n := |ops| - 1;
    LastStep(ops);
    HeldStep(ops, id, k);
    CountMoves(Run(ops[..n]), ops[n], id);
    hide *;
  }

  /** An existing service was created by an operation since which it has been held, and its counter is the balance of
      the references since then. */
  lemma {:induction false} ExistsOnlyWhileHeld(ops: seq<Op>, id: string) returns (k: nat)
    requires NoWrap(ops) && id in Run(ops)
    ensures HeldSince(ops, id, k) && id !in Run(ops[..k])
    ensures Run(ops)[id] == Balance(ops, id, k, |ops|)
  {
    hide *;
    var n := |ops| - 1;
    assert ops != [] by {
      NothingRuns();
    }
    if id !in Run(ops[..n]) {
      JustCreated(ops, id);
      k := n;
    } else {
      NoWrapPrefix(ops, n);
      k := ExistsOnlyWhileHeld(ops[..n], id);
      StillHeld(ops, id, k);
      PrefixOfPrefix(ops, k, n);
    }
  }

  lemma NothingRuns()
    ensures Run([]) == map[]
  {
  }

  /** A service held since some creation exists, with at least the references taken since. */
  lemma {:induction false} HeldExists(ops: seq<Op>, id: string, k: nat)
    requires NoWrap(ops) && HeldSince(ops, id, k)
    ensures id in Run(ops) && Run(ops)[id] >= Balance(ops, id, k, |ops|)
  {
    var n := |ops| - 1;
    NoWrapPrefix(ops, n);
    PositiveWithoutWrap(ops[..n]);
    if k == n {
      assert ops[k + 1..|ops|] == [];
    } else {
      HeldStep(ops, id, k);
      HeldExists(ops[..n], id, k);
      assert !Wraps(Run(ops[..n]), ops[n]);
      CountMoves(Run(ops[..n]), ops[n], id);
    }
  }

  /** Over every run that does not wrap, a service exists if and only if it has been held since one of its
      creations. */
  lemma ExistsExactlyWhileHeld(ops: seq<Op>, id: string)
    requires NoWrap(ops)
    ensures id in Run(ops) <==> exists k: nat :: HeldSince(ops, id, k)
  {
    if id in Run(ops) {
      var k := ExistsOnlyWhileHeld(ops, id);
    }
    forall k: nat | HeldSince(ops, id, k) ensures id in Run(ops) {
      HeldExists(ops, id, k);
    }
  }

  // ---- what a wrap costs ----

  function Taken(id: string, n: nat): (ops: seq<Op>)
    ensures |ops| == n + 1
  {
    if n == 0 then [New(id)] else Taken(id, n - 1) + [Increment(id)]
  }

  lemma RunAppend(ops: seq<Op>, op: Op)
    ensures Run(ops + [op]) == Step(Run(ops), op)
  {
    assert (ops + [op])[..|ops|] == ops;
  }

  lemma OnlyCreated(id: string)
    ensures Run([New(id)]) == map[id := 1]
  {
    assert [New(id)][..0] == [];
  }

  lemma OneMore(id: string, n: Counter)
    ensures Step(map[id := n], Increment(id)) == map[id := if n + 1 == COUNTER_SIZE then 0 else n + 1]
  {
  }

  lemma {:induction false} TakenCounts(id: string, n: nat)
    requires n < COUNTER_SIZE
    ensures Run(Taken(id, n)) == map[id := if n + 1 == COUNTER_SIZE then 0 else n + 1]
  {
    hide Run, Step;
    if n == 0 {
      OnlyCreated(id);
    } else {
      TakenCounts(id, n - 1);
      RunAppend(Taken(id, n - 1), Increment(id));
      OneMore(id, n);
    }
  }

  /** With 2^32 references held, giving a single one back ends the service. */
  lemma WrapEndsService(id: string)
    ensures Run(Taken(id, COUNTER_SIZE - 1)) == map[id := 0]
    ensures Run(Taken(id, COUNTER_SIZE - 1) + [Decrement(id)]) == map[]
  {
    TakenCounts(id, COUNTER_SIZE - 1);
    RunAppend(Taken(id, COUNTER_SIZE - 1), Decrement(id));
    hide Run, Taken;
  }
}
