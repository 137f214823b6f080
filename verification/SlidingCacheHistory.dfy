/** What a sliding cache promises, said about the history of calls alone: no expiry is stored anywhere here.

    A key is held at time `t` exactly when some call wrote it and every later touch of it, and `t` itself,
    came less than the time to live after an earlier event of the same lease. */
module SlidingCacheHistory {
  import opened Basics
  import opened SlidingCache

  datatype Op<K, V> =
    | Put(key: K, value: V, ttl: int, at: int)
    | PutIfAbsent(key: K, value: V, ttl: int, at: int, storedAt: int)
    | Get(key: K, at: int)
    | Find(key: K, at: int)
    | Size(at: int)
    | Clear(at: int)
  {
    /** The last clock reading the call may take. */
    function End(): int {
      if PutIfAbsent? then storedAt else at
    }

    ghost predicate Touches(k: K) {
      (Get? || Find? || PutIfAbsent?) && key == k
    }

    ghost predicate Replaces(k: K) {
      Clear? || (Put? && key == k)
    }
  }

  function Apply<K, V>(m: Cache<K, V>, op: Op<K, V>): Cache<K, V> {
    match op
    case Put(k, v, ttl, at) => Stored(m, k, v, ttl, at)
    case PutIfAbsent(k, v, ttl, at, storedAt) => StoredIfAbsent(m, k, v, ttl, at, storedAt)
    case Get(k, at) => Accessed(m, k, at)
    case Find(k, at) => Accessed(m, k, at)
    case Size(at) => Purged(m, at)
    case Clear(at) => map[]
  }

  function Replay<K, V>(h: seq<Op<K, V>>): Cache<K, V> {
    if h == [] then map[] else Apply(Replay(h[..|h| - 1]), h[|h| - 1])
  }

  /** The clock never goes back, within a call or between calls. */
  ghost predicate Ordered<K, V>(h: seq<Op<K, V>>) {
    && (forall i | 0 <= i < |h| :: h[i].at <= h[i].End())
    && (forall i, j | 0 <= i < j < |h| :: h[i].End() <= h[j].at)
  }

  ghost predicate Past<K, V>(h: seq<Op<K, V>>, t: int) {
    forall i | 0 <= i < |h| :: h[i].End() <= t
  }

  /** Call `i` started or refreshed the lease on `k` that call `w` wrote. */
  ghost predicate Event<K(!new), V(!new)>(h: seq<Op<K, V>>, k: K, w: nat, i: nat) {
    w <= i < |h| && (i == w || h[i].Touches(k))
  }

  ghost function EventTime<K, V>(h: seq<Op<K, V>>, w: nat, i: nat): int
    requires i < |h|
  {
    if i == w then h[w].End() else h[i].at
  }

  /** Some event of the lease before call `j` is less than the time to live away from `t`. */
  ghost predicate InTime<K(!new), V(!new)>(h: seq<Op<K, V>>, k: K, w: nat, j: nat, t: int)
    requires w < |h| && (h[w].Put? || h[w].PutIfAbsent?)
  {
    exists i: nat :: Event(h, k, w, i) && i < j && t - EventTime(h, w, i) < h[w].ttl * NANOS_PER_SECOND
  }

  /** Call `j` leaves the lease unbroken. */
  ghost predicate OnTime<K(!new), V(!new)>(h: seq<Op<K, V>>, k: K, w: nat, j: nat)
    requires w < j < |h| && (h[w].Put? || h[w].PutIfAbsent?)
  {
    !h[j].Replaces(k) && (h[j].Touches(k) ==> InTime(h, k, w, j, h[j].at))
  }

  /** Nothing replaced what call `w` wrote, and no touch of it came too late. */
  ghost predicate Kept<K(!new), V(!new)>(h: seq<Op<K, V>>, k: K, w: nat)
    requires w < |h| && (h[w].Put? || h[w].PutIfAbsent?)
  {
    forall j: nat | w < j < |h| :: OnTime(h, k, w, j)
  }

  /** Call `w` stored its value: every `Put` does, a `PutIfAbsent` only when the key is not held. */
  ghost predicate Writes<K(!new), V(!new)>(h: seq<Op<K, V>>, k: K, w: nat)
    decreases |h|, 0
  {
    && w < |h|
    && (h[w].Put? || h[w].PutIfAbsent?)
    && h[w].key == k
    && (h[w].PutIfAbsent? ==> !Held(h[..w], k, h[w].at))
  }

  ghost predicate Held<K(!new), V(!new)>(h: seq<Op<K, V>>, k: K, t: int)
    decreases |h|, 1
  {
    exists w: nat :: Writes(h, k, w) && Kept(h, k, w) && InTime(h, k, w, |h|, t)
  }

  ghost function LastEvent<K(!new), V(!new)>(h: seq<Op<K, V>>, k: K, w: nat, n: nat): (i: nat)
    requires w < n <= |h|
    ensures Event(h, k, w, i) && i < n
    ensures forall j: nat | i < j < n :: !Event(h, k, w, j)
  {
    if w == n - 1 || h[n - 1].Touches(k) then n - 1 else LastEvent(h, k, w, n - 1)
  }

  ghost predicate StoredWithLapse<K(!new), V(!new)>(h: seq<Op<K, V>>, k: K, w: nat)
    requires w < |h| && (h[w].Put? || h[w].PutIfAbsent?)
  {
    var m := Replay(h);
    var lapse := EventTime(h, w, LastEvent(h, k, w, |h|)) + h[w].ttl * NANOS_PER_SECOND;
    if k in m then m[k] == Entry(h[w].value, lapse, h[w].ttl) else lapse < h[|h| - 1].End()
  }

  /** The refinement invariant: what the stored entry says about the lease. */
  ghost predicate Represents<K(!new), V(!new)>(h: seq<Op<K, V>>, k: K) {
    var m := Replay(h);
    && (k in m ==> exists w: nat :: Writes(h, k, w) && Kept(h, k, w))
    && (forall w: nat | Writes(h, k, w) && Kept(h, k, w) :: StoredWithLapse(h, k, w))
  }

  lemma EventsOrdered<K(!new), V(!new)>(h: seq<Op<K, V>>, k: K, w: nat, i: nat, j: nat)
    requires Ordered(h) && Event(h, k, w, i) && Event(h, k, w, j) && i <= j
    ensures EventTime(h, w, i) <= EventTime(h, w, j)
  {
  }

  /** A call is in time for a lease exactly when the last event before it is recent enough. */
  lemma InTimeByLast<K(!new), V(!new)>(h: seq<Op<K, V>>, k: K, w: nat, t: int)
    requires Ordered(h) && w < |h| && (h[w].Put? || h[w].PutIfAbsent?)
    ensures InTime(h, k, w, |h|, t) <==>
            t - EventTime(h, w, LastEvent(h, k, w, |h|)) < h[w].ttl * NANOS_PER_SECOND
  {
    var last := LastEvent(h, k, w, |h|);
    if InTime(h, k, w, |h|, t) {
      var i: nat :| Event(h, k, w, i) && i < |h| && t - EventTime(h, w, i) < h[w].ttl * NANOS_PER_SECOND;
      EventsOrdered(h, k, w, i, last);
    }
  }

  lemma HeldByRepresents<K(!new), V(!new)>(h: seq<Op<K, V>>, k: K, t: int)
    requires Ordered(h) && Past(h, t) && Represents(h, k)
    ensures Live(Replay(h), k, t) <==> Held(h, k, t)
  {
    forall w: nat | Writes(h, k, w) {
      InTimeByLast(h, k, w, t);
    }
  }

  // Facts about calls before the last one do not depend on the last one.

  lemma InTimePrefix<K(!new), V(!new)>(h: seq<Op<K, V>>, k: K, w: nat, n: nat, j: nat, t: int)
    requires w < n <= |h| && j <= n && (h[w].Put? || h[w].PutIfAbsent?)
    ensures InTime(h[..n], k, w, j, t) <==> InTime(h, k, w, j, t)
  {
    var g := h[..n];
    if InTime(h, k, w, j, t) {
      var i: nat :| Event(h, k, w, i) && i < j && t - EventTime(h, w, i) < h[w].ttl * NANOS_PER_SECOND;
      assert Event(g, k, w, i);
    }
    if InTime(g, k, w, j, t) {
      var i: nat :| Event(g, k, w, i) && i < j && t - EventTime(g, w, i) < g[w].ttl * NANOS_PER_SECOND;
      assert Event(h, k, w, i);
    }
  }

  lemma WritesPrefix<K(!new), V(!new)>(h: seq<Op<K, V>>, k: K, w: nat, n: nat)
    requires w < n <= |h|
    ensures Writes(h[..n], k, w) <==> Writes(h, k, w)
  {
    assert h[..n][..w] == h[..w];
  }

  lemma LastEventPrefix<K(!new), V(!new)>(h: seq<Op<K, V>>, k: K, w: nat, n: nat)
    requires w < n <= |h|
    ensures LastEvent(h[..n], k, w, n) == LastEvent(h, k, w, n)
  {
    var a, b := LastEvent(h[..n], k, w, n), LastEvent(h, k, w, n);
    assert Event(h, k, w, a) && Event(h[..n], k, w, b);
  }

  /** A lease survives one more call that neither replaces it nor touches it too late. */
  lemma KeptSteps<K(!new), V(!new)>(h: seq<Op<K, V>>, k: K, w: nat)
    requires h != [] && w < |h| - 1 && (h[w].Put? || h[w].PutIfAbsent?)
    ensures var n := |h| - 1;
            Kept(h, k, w) <==> Kept(h[..n], k, w) && OnTime(h, k, w, n)
  {
    var n := |h| - 1;
    forall j: nat | w < j < n
      ensures OnTime(h, k, w, j) <==> OnTime(h[..n], k, w, j)
    {
      InTimePrefix(h, k, w, n, j, h[j].at);
    }
  }

  lemma {:induction false} Representation<K(!new), V(!new)>(h: seq<Op<K, V>>, k: K)
    requires Ordered(h)
    ensures Represents(h, k)
  {
    if h != [] {
      var n := |h| - 1;
      Representation(h[..n], k);
      RepresentsStored(h, k);
      forall w: nat | Writes(h, k, w) && Kept(h, k, w)
        ensures StoredWithLapse(h, k, w)
      {
        if w < n {
          WritesPrefix(h, k, w, n);
          KeptSteps(h, k, w);
          RepresentsLease(h, k, w);
        } else {
          RepresentsWrite(h, k);
        }
      }
    }
  }

  /** A stored entry goes back to a call that wrote it. */
  lemma RepresentsStored<K(!new), V(!new)>(h: seq<Op<K, V>>, k: K)
    requires h != [] && Ordered(h) && Represents(h[..|h| - 1], k)
    ensures k in Replay(h) ==> exists w: nat :: Writes(h, k, w) && Kept(h, k, w)
  {
    var n := |h| - 1;
    var g, op := h[..n], h[n];
    HeldByRepresents(g, k, op.at);
    if k in Replay(h) {
      if (op.Put? || (op.PutIfAbsent? && !Live(Replay(g), k, op.at))) && op.key == k {
        assert Writes(h, k, n) && Kept(h, k, n);
      } else {
        assert k in Replay(g) && !op.Replaces(k);
        var w: nat :| Writes(g, k, w) && Kept(g, k, w);
        WritesPrefix(h, k, w, n);
        InTimePrefix(h, k, w, n, n, op.at);
        InTimeByLast(g, k, w, op.at);
        assert StoredWithLapse(g, k, w);
        assert op.Touches(k) ==> Live(Replay(g), k, op.at);
        KeptSteps(h, k, w);
      }
    }
  }

  /** An unbroken lease is stored with its own lapse time, unless it lapsed and was swept away. */
  lemma RepresentsLease<K(!new), V(!new)>(h: seq<Op<K, V>>, k: K, w: nat)
    requires h != [] && w < |h| - 1 && Ordered(h)
    requires Writes(h, k, w) && Kept(h, k, w) && StoredWithLapse(h[..|h| - 1], k, w)
    ensures StoredWithLapse(h, k, w)
  {
    var n := |h| - 1;
    var g, op := h[..n], h[n];
    assert OnTime(h, k, w, n);
    InTimePrefix(h, k, w, n, n, op.at);
    InTimeByLast(g, k, w, op.at);
    LastEventPrefix(h, k, w, n);
    var last := LastEvent(g, k, w, n);
    assert EventTime(g, w, last) == EventTime(h, w, last);
    if op.Touches(k) {
      assert Live(Replay(g), k, op.at);
    }
  }

  lemma RepresentsWrite<K(!new), V(!new)>(h: seq<Op<K, V>>, k: K)
    requires h != [] && Ordered(h) && Represents(h[..|h| - 1], k)
    requires Writes(h, k, |h| - 1)
    ensures StoredWithLapse(h, k, |h| - 1)
  {
    HeldByRepresents(h[..|h| - 1], k, h[|h| - 1].at);
  }

  /** The stored expiry decides exactly what the history decides, with the value of the call that wrote. */
  lemma CacheRefinesHistory<K(!new), V(!new)>(h: seq<Op<K, V>>, k: K, t: int)
    requires Ordered(h) && Past(h, t)
    ensures Lookup(Replay(h), k, t).Some? <==> Held(h, k, t)
    ensures forall w: nat | Writes(h, k, w) && Kept(h, k, w) && InTime(h, k, w, |h|, t) ::
              Lookup(Replay(h), k, t) == Some(h[w].value)
  {
    Representation(h, k);
    HeldByRepresents(h, k, t);
  }

  /** Some unbroken lease on `k` has not passed its lapse time, the lapse time itself included. */
  ghost predicate Unlapsed<K(!new), V(!new)>(h: seq<Op<K, V>>, k: K, t: int) {
    exists w: nat :: Writes(h, k, w) && Kept(h, k, w) &&
      t - EventTime(h, w, LastEvent(h, k, w, |h|)) <= h[w].ttl * NANOS_PER_SECOND
  }

  lemma PurgeKeepsUnlapsed<K(!new), V(!new)>(h: seq<Op<K, V>>, k: K, t: int)
    requires Ordered(h) && Past(h, t)
    ensures k in Purged(Replay(h), t) <==> Unlapsed(h, k, t)
  {
    Representation(h, k);
  }

  /** `Size` answers how many keys have an unlapsed lease: of those, and only those, an entry is left. */
  lemma SizeCountsLeases<K(!new), V(!new)>(h: seq<Op<K, V>>, keys: set<K>, t: int)
    requires Ordered(h) && Past(h, t) && forall k :: k in keys <==> Unlapsed(h, k, t)
    ensures Purged(Replay(h), t).Keys == keys && |Purged(Replay(h), t)| == |keys|
  {
    forall k ensures k in Purged(Replay(h), t) <==> k in keys {
      PurgeKeepsUnlapsed(h, k, t);
    }
    assert Purged(Replay(h), t).Keys == keys;
  }

  // Sweeping expired entries away is invisible.

  function WithoutSize<K, V>(h: seq<Op<K, V>>): seq<Op<K, V>> {
    if h == [] then []
    else WithoutSize(h[..|h| - 1]) + if h[|h| - 1].Size? then [] else [h[|h| - 1]]
  }

  ghost predicate Agree<K(!new), V>(m: Cache<K, V>, n: Cache<K, V>, now: int) {
    forall k :: Live(m, k, now) == Live(n, k, now) && (Live(m, k, now) ==> m[k] == n[k])
  }

  /** Caches that agree on live entries keep agreeing, whatever is called, even if only one of them is purged. */
  lemma AgreementKept<K(!new), V>(m: Cache<K, V>, n: Cache<K, V>, op: Op<K, V>, now: int)
    requires Agree(m, n, now) && now <= op.at <= op.End()
    ensures Agree(Apply(m, op), Apply(n, op), op.End())
    ensures op.Size? ==> Agree(Apply(m, op), n, op.End())
  {
    assert Agree(m, n, op.at);
  }

  /** Dropping every `Size` call from a history changes no later `Get`, `Find` or `putIfAbsent`. */
  lemma {:induction false} PurgingIsInvisible<K(!new), V>(h: seq<Op<K, V>>, t: int)
    requires Ordered(h) && Past(h, t)
    ensures Agree(Replay(h), Replay(WithoutSize(h)), t)
    ensures forall k :: Lookup(Replay(h), k, t) == Lookup(Replay(WithoutSize(h)), k, t)
  {
    if h != [] {
      var n := |h| - 1;
      var g := h[..n];
      PurgingIsInvisible(g, h[n].at);
      AgreementKept(Replay(g), Replay(WithoutSize(g)), h[n], h[n].at);
      if h[n].Size? {
        assert WithoutSize(h) == WithoutSize(g);
      } else {
        assert WithoutSize(h)[..|WithoutSize(h)| - 1] == WithoutSize(g);
      }
    }
  }
}
