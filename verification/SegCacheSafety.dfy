/** Any number of readers acquiring and releasing segments in any interleaving: a pinned
    segment is never closed, none is closed twice, and few are open at once. */
module SegCacheSafety {
  import opened SegCache
  import TopK

  /** Where a reader is, between critical sections. */
  datatype Thread =
    | Idle
    | Opening(shard: nat)
    | Installing(shard: nat, seg: nat)
    | Discarding(seg: nat, e: nat)
    | Holding(e: nat)
    | Closing(e: nat)

  datatype State = State(c: Cache, threads: seq<Thread>, nextSeg: nat)

  datatype Act = Want(shard: nat) | Opened(ok: bool) | Go

  ghost predicate Enabled(s: State, t: nat, a: Act) {
    t < |s.threads| && InRange(s.c)
    && match s.threads[t]
       case Idle => a.Want?
       case Opening(_) => a.Opened?
       case Installing(_, _) => a.Go?
       case Discarding(_, _) => a.Go?
       case Holding(e) => a.Go? && e < |s.c.entries|
       case Closing(e) => a.Go? && e < |s.c.entries|
  }

  ghost function Next(s: State, t: nat, a: Act): State
    requires Enabled(s, t, a)
  {
    match s.threads[t]
    case Idle =>
      if a.shard in s.c.open
      then State(Pin(s.c, s.c.open[a.shard]), s.threads[t := Holding(s.c.open[a.shard])], s.nextSeg)
      else s.(threads := s.threads[t := Opening(a.shard)])
    case Opening(shard) =>
      if a.ok then s.(threads := s.threads[t := Installing(shard, s.nextSeg)], nextSeg := s.nextSeg + 1)
      else s.(threads := s.threads[t := Idle])
    case Installing(shard, seg) =>
      if shard in s.c.open
      then s.(c := Pin(s.c, s.c.open[shard]), threads := s.threads[t := Discarding(seg, s.c.open[shard])])
      else s.(c := Evict(Enter(s.c, shard, seg)), threads := s.threads[t := Holding(|s.c.entries|)])
    case Discarding(seg, e) =>
      s.(c := CloseSeg(s.c, seg), threads := s.threads[t := Holding(e)])
    case Holding(e) =>
      var c := Unpin(s.c, e);
      s.(c := c, threads := s.threads[t := if c.entries[e].evicted && c.entries[e].refs == 0 then Closing(e) else Idle])
    case Closing(e) =>
      s.(c := CloseSeg(s.c, s.c.entries[e].seg), threads := s.threads[t := Idle])
  }

  ghost predicate Run(limit: nat, readers: nat, trace: seq<State>, who: seq<nat>, acts: seq<Act>) {
    && |trace| == |acts| + 1 == |who| + 1
    && trace[0] == State(Cache([], map[], [], multiset{}, limit), seq(readers, _ => Idle), 0)
    && forall i :: 0 <= i < |acts| ==>
      Enabled(trace[i], who[i], acts[i]) && trace[i + 1] == Next(trace[i], who[i], acts[i])
  }

  // ---- counting

  function PinOf(th: Thread): int {
    match th
    case Holding(e) => e
    case Discarding(_, e) => e
    case _ => -1
  }

  function CloserOf(th: Thread): int {
    if th.Closing? then th.e else -1
  }

  /** The segment a reader opened and has neither installed nor closed. */
  function LooseOf(th: Thread): int {
    match th
    case Installing(_, seg) => seg
    case Discarding(seg, _) => seg
    case _ => -1
  }

  function Count(threads: seq<Thread>, f: Thread -> int, e: int): nat
    decreases |threads|
  {
    if threads == [] then 0
    else Count(threads[..|threads| - 1], f, e) + if f(threads[|threads| - 1]) == e then 1 else 0
  }

  lemma {:induction false} CountUpdate(threads: seq<Thread>, f: Thread -> int, e: int, t: nat, th: Thread)
    requires t < |threads|
    ensures Count(threads[t := th], f, e)
            == Count(threads, f, e) - (if f(threads[t]) == e then 1 else 0) + (if f(th) == e then 1 else 0)
    decreases |threads|
  {
    var n := |threads| - 1;
    if t == n {
      assert threads[t := th][..n] == threads[..n];
    } else {
      assert threads[t := th][..n] == threads[..n][t := th];
      CountUpdate(threads[..n], f, e, t, th);
    }
  }

  lemma {:induction false} CountOne(threads: seq<Thread>, f: Thread -> int, e: int, t: nat)
    requires t < |threads| && f(threads[t]) == e
    ensures Count(threads, f, e) >= 1
    decreases |threads|
  {
    if t < |threads| - 1 {
      CountOne(threads[..|threads| - 1], f, e, t);
    }
  }

  lemma {:induction false} CountNone(threads: seq<Thread>, f: Thread -> int, e: int)
    requires forall t :: 0 <= t < |threads| ==> f(threads[t]) != e
    ensures Count(threads, f, e) == 0
    decreases |threads|
  {
    if threads != [] {
      CountNone(threads[..|threads| - 1], f, e);
    }
  }

  // ---- the invariant

  /** The map and the list hold the same entries, exactly those not evicted. */
  ghost predicate Resident(c: Cache) {
    && InRange(c)
    && Distinct(c.lru)
    && (forall e :: e in c.lru ==> c.entries[e].shard in c.open && c.open[c.entries[e].shard] == e)
    && (forall s :: s in c.open ==> c.entries[c.open[s]].shard == s && c.open[s] in c.lru)
    && (forall e :: 0 <= e < |c.entries| ==> (e in c.lru <==> !c.entries[e].evicted))
  }

  /** Reference counts are the number of readers that hold a handle. */
  ghost predicate Counted(c: Cache, threads: seq<Thread>) {
    forall e :: 0 <= e < |c.entries| ==> c.entries[e].refs == Count(threads, PinOf, e)
  }

  /** An entry is closed, or about to be, exactly once, and only evicted and unpinned. */
  ghost predicate ClosedOnce(c: Cache, threads: seq<Thread>) {
    forall e :: 0 <= e < |c.entries| ==>
      c.closed[c.entries[e].seg] + Count(threads, CloserOf, e)
      == if c.entries[e].evicted && c.entries[e].refs == 0 then 1 else 0
  }

  ghost predicate Named(c: Cache, threads: seq<Thread>) {
    forall t :: 0 <= t < |threads| ==> PinOf(threads[t]) < |c.entries| && CloserOf(threads[t]) < |c.entries|
  }

  ghost predicate OfEntry(c: Cache, seg: nat) {
    exists e :: 0 <= e < |c.entries| && c.entries[e].seg == seg
  }

  ghost predicate OfThread(threads: seq<Thread>, seg: nat) {
    exists t :: 0 <= t < |threads| && LooseOf(threads[t]) == seg
  }

  /** Every opened segment has one owner: an entry, a reader still deciding, or no one once
      closed as a duplicate. */
  ghost predicate Owned(s: State) {
    && (forall d, e :: 0 <= d < e < |s.c.entries| ==> s.c.entries[d].seg != s.c.entries[e].seg)
    && (forall e :: 0 <= e < |s.c.entries| ==> s.c.entries[e].seg < s.nextSeg)
    && (forall t, u :: 0 <= t < u < |s.threads| && LooseOf(s.threads[t]) == LooseOf(s.threads[u]) ==>
      LooseOf(s.threads[t]) == -1)
    && (forall t :: 0 <= t < |s.threads| && LooseOf(s.threads[t]) != -1 ==>
          LooseOf(s.threads[t]) < s.nextSeg && !OfEntry(s.c, LooseOf(s.threads[t]))
            && s.c.closed[LooseOf(s.threads[t])] == 0)
    && (forall seg :: seg in s.c.closed ==> seg < s.nextSeg)
    && (forall seg: nat :: seg < s.nextSeg ==> OfEntry(s.c, seg) || OfThread(s.threads, seg) || s.c.closed[seg] == 1)
  }

  ghost predicate Inv(s: State) {
    && Resident(s.c) && |s.c.lru| <= s.c.limit && Named(s.c, s.threads)
    && Counted(s.c, s.threads) && ClosedOnce(s.c, s.threads) && Owned(s)
  }

  // ---- the map and the list

  ghost predicate Distinct(lru: seq<nat>) {
    forall i, j :: 0 <= i < j < |lru| ==> lru[i] != lru[j]
  }

  lemma {:induction false} WithoutIn(lru: seq<nat>, e: nat, x: nat)
    ensures x in Without(lru, e) <==> x in lru && x != e
    decreases |lru|
  {
    if lru != [] {
      WithoutIn(lru[1..], e, x);
      assert lru == [lru[0]] + lru[1..];
    }
  }

  lemma Behead(lru: seq<nat>)
    requires Distinct(lru) && lru != []
    ensures Distinct(lru[1..]) && lru[0] !in lru[1..]
  {
    forall i | 0 <= i < |lru[1..]| ensures lru[1..][i] != lru[0] { assert lru[1..][i] == lru[i + 1]; }
  }

  lemma Prepend(e: nat, lru: seq<nat>)
    requires Distinct(lru) && e !in lru
    ensures Distinct([e] + lru)
  {
    forall i | 0 <= i < |lru| ensures lru[i] != e { assert lru[i] in lru; }
  }

  lemma {:induction false} WithoutDistinct(lru: seq<nat>, e: nat)
    requires Distinct(lru)
    ensures Distinct(Without(lru, e)) && |Without(lru, e)| == |lru| - if e in lru then 1 else 0
    decreases |lru|
  {
    if lru != [] {
      hide Distinct;
      Behead(lru);
      WithoutDistinct(lru[1..], e);
      WithoutIn(lru[1..], e, lru[0]);
      assert lru == [lru[0]] + lru[1..];
      if lru[0] != e {
        Prepend(lru[0], Without(lru[1..], e));
      }
    }
  }

  lemma PinResident(c: Cache, e: nat)
    requires Resident(c) && e in c.lru
    ensures Resident(Pin(c, e)) && |Pin(c, e).lru| == |c.lru|
  {
    hide Distinct;
    WithoutDistinct(c.lru, e);
    WithoutIn(c.lru, e, e);
    Prepend(e, Without(c.lru, e));
    forall x ensures x in Pin(c, e).lru <==> x in c.lru {
      if x >= 0 { WithoutIn(c.lru, e, x); }
    }
    forall i | 0 <= i < |Pin(c, e).lru| ensures Pin(c, e).lru[i] < |c.entries| {
      assert Pin(c, e).lru[i] in Pin(c, e).lru;
    }
  }

  lemma EnterResident(c: Cache, shard: nat, seg: nat)
    requires Resident(c) && shard !in c.open
    ensures Resident(Enter(c, shard, seg))
  {
    var c' := Enter(c, shard, seg);
    Prepend(|c.entries|, c.lru);
    hide Distinct;
    assert forall x :: x in c'.lru <==> x == |c.entries| || x in c.lru;
    forall x | x in c.lru ensures x < |c.entries| && c.entries[x].shard != shard {
    }
  }

  lemma EvictOneResident(c: Cache)
    requires Resident(c) && c.lru != []
    ensures Resident(EvictOne(c))
  {
    var e := c.lru[|c.lru| - 1];
    assert e in c.lru;
    var lru := c.lru[..|c.lru| - 1];
    forall x ensures x in lru <==> x in c.lru && x != e {
      if x in c.lru && x != e {
        var i :| 0 <= i < |c.lru| && c.lru[i] == x;
        assert lru[i] == x;
      }
    }
  }

  /** Entries keep their segments, and only entries' segments are closed. */
  ghost predicate SameSegs(c: Cache, c': Cache) {
    && |c'.entries| == |c.entries|
    && (forall e :: 0 <= e < |c.entries| ==> c'.entries[e].seg == c.entries[e].seg)
    && (forall seg :: (forall e :: 0 <= e < |c.entries| ==> c.entries[e].seg != seg) ==>
      c'.closed[seg] == c.closed[seg])
  }

  /** What eviction leaves alone. */
  ghost predicate Evicted(c: Cache, c': Cache) {
    && SameSegs(c, c') && c'.limit == c.limit
    && forall e :: 0 <= e < |c.entries| ==> c'.entries[e].refs == c.entries[e].refs
  }

  lemma EvictOneFrame(c: Cache, threads: seq<Thread>)
    requires Resident(c) && c.lru != [] && ClosedOnce(c, threads)
    requires forall d, e :: 0 <= d < e < |c.entries| ==> c.entries[d].seg != c.entries[e].seg
    ensures ClosedOnce(EvictOne(c), threads) && Evicted(c, EvictOne(c))
  {
    var e := c.lru[|c.lru| - 1];
    assert e in c.lru;
  }

  lemma {:induction false} EvictFrame(c: Cache, threads: seq<Thread>)
    requires Resident(c) && ClosedOnce(c, threads)
    requires forall d, e :: 0 <= d < e < |c.entries| ==> c.entries[d].seg != c.entries[e].seg
    ensures Resident(Evict(c)) && ClosedOnce(Evict(c), threads) && Evicted(c, Evict(c))
    ensures |Evict(c).lru| <= c.limit
    decreases |c.lru|
  {
    hide Resident, ClosedOnce;
    ResidentIn(c);
    if |c.lru| > c.limit {
      EvictOneResident(c);
      EvictOneFrame(c, threads);
      EvictFrame(EvictOne(c), threads);
    }
  }

  lemma ResidentIn(c: Cache)
    requires Resident(c)
    ensures InRange(c)
  {
  }

  // ---- one step

  lemma CountsUpdate(threads: seq<Thread>, t: nat, th: Thread, e: int)
    requires t < |threads|
    ensures Count(threads[t := th], PinOf, e)
            == Count(threads, PinOf, e) - (if PinOf(threads[t]) == e then 1 else 0) + (if PinOf(th) == e then 1 else 0)
    ensures Count(threads[t := th], CloserOf, e)
            == Count(threads, CloserOf, e) - (if CloserOf(threads[t]) == e then 1 else 0)
              + (if CloserOf(th) == e then 1 else 0)
  {
    CountUpdate(threads, PinOf, e, t, th);
    CountUpdate(threads, CloserOf, e, t, th);
  }

  /** A reader moves between states that hold no entry. */
  lemma Wandered(s: State, t: nat, th: Thread)
    requires Inv(s) && t < |s.threads|
    requires PinOf(s.threads[t]) == PinOf(th) == CloserOf(s.threads[t]) == CloserOf(th) == -1
    ensures Named(s.c, s.threads[t := th]) && Counted(s.c, s.threads[t := th]) && ClosedOnce(s.c, s.threads[t := th])
  {
    hide Resident, Owned, PinOf, CloserOf;
    forall e | 0 <= e < |s.c.entries|
      ensures Count(s.threads[t := th], PinOf, e) == Count(s.threads, PinOf, e)
      ensures Count(s.threads[t := th], CloserOf, e) == Count(s.threads, CloserOf, e)
    {
      CountsUpdate(s.threads, t, th, e);
    }
  }

  /** A reader pins a resident entry. */
  lemma Pinned(s: State, t: nat, th: Thread, e: nat)
    requires Inv(s) && t < |s.threads| && e in s.c.lru
    requires PinOf(s.threads[t]) == -1 && PinOf(th) == e && CloserOf(s.threads[t]) == CloserOf(th) == -1
    ensures var c', ts := Pin(s.c, e), s.threads[t := th];
      Resident(c') && |c'.lru| <= c'.limit && Named(c', ts) && Counted(c', ts) && ClosedOnce(c', ts)
  {
    hide Owned, PinOf, CloserOf;
    PinResident(s.c, e);
    forall d | 0 <= d < |s.c.entries|
      ensures Count(s.threads[t := th], PinOf, d) == Count(s.threads, PinOf, d) + (if d == e then 1 else 0)
      ensures Count(s.threads[t := th], CloserOf, d) == Count(s.threads, CloserOf, d)
    {
      CountsUpdate(s.threads, t, th, d);
    }
  }

  /** A reader installs the segment it opened. */
  lemma Installed(s: State, t: nat, shard: nat, seg: nat)
    requires Inv(s) && t < |s.threads| && s.threads[t] == Installing(shard, seg) && shard !in s.c.open
    ensures var c', ts := Evict(Enter(s.c, shard, seg)), s.threads[t := Holding(|s.c.entries|)];
      && Resident(Enter(s.c, shard, seg)) && Evicted(Enter(s.c, shard, seg), c')
      && Resident(c') && |c'.lru| <= c'.limit && Named(c', ts) && Counted(c', ts) && ClosedOnce(c', ts)
  {
    var n, ts := |s.c.entries|, s.threads[t := Holding(|s.c.entries|)];
    var c1 := Enter(s.c, shard, seg);
    EnterResident(s.c, shard, seg);
    SegOfThread(s, t, seg);
    EnterCounts(s, t, shard, seg);
    hide Resident, PinOf, CloserOf, Count, ClosedOnce;
    EvictFrame(c1, ts);
  }

  lemma EnterCounts(s: State, t: nat, shard: nat, seg: nat)
    requires Inv(s) && t < |s.threads| && s.threads[t] == Installing(shard, seg)
    ensures var c1, ts := Enter(s.c, shard, seg), s.threads[t := Holding(|s.c.entries|)];
      Named(c1, ts) && Counted(c1, ts) && ClosedOnce(c1, ts)
  {
    var n, ts := |s.c.entries|, s.threads[t := Holding(|s.c.entries|)];
    CountNone(s.threads, PinOf, n);
    CountNone(s.threads, CloserOf, n);
    SegOfThread(s, t, seg);
    HoldingOf(n, shard, seg);
    hide Resident, PinOf, CloserOf, Owned;
    forall d | 0 <= d < n + 1
      ensures Count(ts, PinOf, d) == Count(s.threads, PinOf, d) + (if d == n then 1 else 0)
      ensures Count(ts, CloserOf, d) == Count(s.threads, CloserOf, d)
    {
      CountsUpdate(s.threads, t, Holding(n), d);
    }
  }

  lemma HoldingOf(n: nat, shard: nat, seg: nat)
    ensures PinOf(Holding(n)) == n && CloserOf(Holding(n)) == -1
    ensures PinOf(Installing(shard, seg)) == -1 && CloserOf(Installing(shard, seg)) == -1
  {
  }

  lemma SegOfThread(s: State, t: nat, seg: nat)
    requires Owned(s) && t < |s.threads| && LooseOf(s.threads[t]) == seg
    ensures s.c.closed[seg] == 0 && seg < s.nextSeg && forall e :: 0 <= e < |s.c.entries| ==> s.c.entries[e].seg != seg
  {
    forall e | 0 <= e < |s.c.entries| ensures s.c.entries[e].seg != seg {
      if s.c.entries[e].seg == seg { assert OfEntry(s.c, seg); }
    }
  }

  lemma UnpinResident(c: Cache, e: nat)
    requires Resident(c) && e < |c.entries|
    ensures Resident(Unpin(c, e))
  {
  }

  lemma UnpinCounts(c: Cache, ts: seq<Thread>, ts': seq<Thread>, e: nat)
    requires e < |c.entries| && c.entries[e].refs > 0 && Counted(c, ts) && ClosedOnce(c, ts)
    requires forall d :: 0 <= d < |c.entries| ==>
      Count(ts', PinOf, d) == Count(ts, PinOf, d) - (if d == e then 1 else 0)
    requires var closing := c.entries[e].evicted && c.entries[e].refs == 1;
      forall d :: 0 <= d < |c.entries| ==>
        Count(ts', CloserOf, d) == Count(ts, CloserOf, d) + (if closing && d == e then 1 else 0)
    ensures Counted(Unpin(c, e), ts') && ClosedOnce(Unpin(c, e), ts')
  {
    hide Count, PinOf, CloserOf;
  }

  lemma UnpinNamed(c: Cache, ts: seq<Thread>, t: nat, e: nat, th: Thread)
    requires Named(c, ts) && t < |ts| && e < |c.entries| && PinOf(th) < |c.entries| && CloserOf(th) < |c.entries|
    ensures Named(Unpin(c, e), ts[t := th])
  {
    hide PinOf, CloserOf;
  }

  lemma CanRelease(s: State, t: nat, e: nat)
    requires Inv(s) && t < |s.threads| && s.threads[t] == Holding(e) && e < |s.c.entries|
    ensures Enabled(s, t, Go)
  {
    CountOne(s.threads, PinOf, e, t);
  }

  lemma ReleasedNext(s: State, t: nat, e: nat)
    requires Enabled(s, t, Go) && t < |s.threads| && s.threads[t] == Holding(e) && e < |s.c.entries|
    ensures var th := if s.c.entries[e].evicted && s.c.entries[e].refs == 1 then Closing(e) else Idle;
      Next(s, t, Go) == s.(c := Unpin(s.c, e), threads := s.threads[t := th])
  {
  }

  /** A reader lets go: the last pin of an evicted entry leaves it to be closed. */
  lemma Released(s: State, t: nat, e: nat)
    requires Inv(s) && t < |s.threads| && s.threads[t] == Holding(e) && e < |s.c.entries|
    ensures var s' := Next(s, t, Go);
      Resident(s'.c) && |s'.c.lru| <= s'.c.limit && Named(s'.c, s'.threads) && Counted(s'.c, s'.threads)
      && ClosedOnce(s'.c, s'.threads)
  {
    hide Owned, Resident, Named, ClosedOnce, Next, Unpin, PinOf, CloserOf, Count, Enabled;
    assert Enabled(s, t, Go) by { CanRelease(s, t, e); }
    var closing := s.c.entries[e].evicted && s.c.entries[e].refs == 1;
    var th := if closing then Closing(e) else Idle;
    ReleasedThread(e, closing);
    CountOne(s.threads, PinOf, e, t);
    forall d: nat | d < |s.c.entries|
      ensures Count(s.threads[t := th], PinOf, d) == Count(s.threads, PinOf, d) - (if d == e then 1 else 0)
      ensures Count(s.threads[t := th], CloserOf, d) == Count(s.threads, CloserOf, d)
        + (if closing && d == e then 1 else 0)
    {
      CountsUpdate(s.threads, t, th, d);
    }
    ReleasedNext(s, t, e);
    UnpinResident(s.c, e);
    UnpinLimit(s.c, e);
    UnpinCounts(s.c, s.threads, s.threads[t := th], e);
    UnpinNamed(s.c, s.threads, t, e, th);
  }

  lemma UnpinLimit(c: Cache, e: nat)
    requires e < |c.entries|
    ensures Unpin(c, e).lru == c.lru && Unpin(c, e).limit == c.limit
  {
  }

  lemma ReleasedThread(e: nat, closing: bool)
    ensures PinOf(Holding(e)) == e && CloserOf(Holding(e)) == -1
    ensures var th := if closing then Closing(e) else Idle; PinOf(th) == -1 && CloserOf(th) == if closing then e else -1
  {
  }

  /** The deferred close happens. */
  lemma ClosedNow(s: State, t: nat, e: nat)
    requires Inv(s) && t < |s.threads| && s.threads[t] == Closing(e) && e < |s.c.entries|
    ensures var s' := Next(s, t, Go);
      Resident(s'.c) && Named(s'.c, s'.threads) && Counted(s'.c, s'.threads) && ClosedOnce(s'.c, s'.threads)
  {
    var s' := Next(s, t, Go);
    forall d | 0 <= d < |s.c.entries|
      ensures Count(s'.threads, PinOf, d) == Count(s.threads, PinOf, d)
      ensures Count(s'.threads, CloserOf, d) == Count(s.threads, CloserOf, d) - (if d == e then 1 else 0)
    {
      CountsUpdate(s.threads, t, Idle, d);
    }
  }

  /** The duplicate is closed. */
  lemma Discarded(s: State, t: nat, seg: nat, e: nat)
    requires Inv(s) && t < |s.threads| && s.threads[t] == Discarding(seg, e)
    ensures var s' := Next(s, t, Go);
      Resident(s'.c) && Named(s'.c, s'.threads) && Counted(s'.c, s'.threads) && ClosedOnce(s'.c, s'.threads)
  {
    var s' := Next(s, t, Go);
    SegOfThread(s, t, seg);
    forall d | 0 <= d < |s.c.entries|
      ensures Count(s'.threads, PinOf, d) == Count(s.threads, PinOf, d)
      ensures Count(s'.threads, CloserOf, d) == Count(s.threads, CloserOf, d)
    {
      CountsUpdate(s.threads, t, Holding(e), d);
    }
  }

  // ---- ownership

  lemma SameEntries(c: Cache, c': Cache)
    requires SameSegs(c, c')
    ensures forall seg: int :: OfSeg(c', seg) <==> OfSeg(c, seg)
    ensures forall seg: nat :: !OfEntry(c, seg) ==> c'.closed[seg] == c.closed[seg]
  {
    forall seg: int ensures OfSeg(c', seg) <==> OfSeg(c, seg) {
      if seg >= 0 {
        if e :| 0 <= e < |c.entries| && c.entries[e].seg == seg { assert c'.entries[e].seg == seg; }
        if e :| 0 <= e < |c'.entries| && c'.entries[e].seg == seg { assert c.entries[e].seg == seg; }
      }
    }
  }

  ghost predicate OfSeg(c: Cache, seg: int) {
    seg >= 0 && OfEntry(c, seg)
  }

  lemma SameThreads(ts: seq<Thread>, ts': seq<Thread>, t: nat)
    requires t < |ts| == |ts'| && ts' == ts[t := ts'[t]] && LooseOf(ts'[t]) == LooseOf(ts[t])
    ensures forall seg: nat :: OfThread(ts', seg) <==> OfThread(ts, seg)
    ensures forall u :: 0 <= u < |ts| ==> LooseOf(ts'[u]) == LooseOf(ts[u])
  {
    hide LooseOf;
    forall seg: nat ensures OfThread(ts', seg) <==> OfThread(ts, seg) {
      if u :| 0 <= u < |ts| && LooseOf(ts[u]) == seg { assert LooseOf(ts'[u]) == seg; }
      if u :| 0 <= u < |ts| && LooseOf(ts'[u]) == seg { assert LooseOf(ts[u]) == seg; }
    }
  }

  /** Ownership survives a step that keeps every entry's segment, closes only entries'
      segments, and lets the stepping reader keep or drop what it had. */
  lemma OwnedKept(s: State, s': State, t: nat)
    requires Owned(s) && t < |s.threads| && |s'.threads| == |s.threads| && s'.threads == s.threads[t := s'.threads[t]]
    requires s'.nextSeg == s.nextSeg && LooseOf(s'.threads[t]) == LooseOf(s.threads[t])
    requires SameSegs(s.c, s'.c)
    ensures Owned(s')
  {
    SameEntries(s.c, s'.c);
    SameThreads(s.threads, s'.threads, t);
    OwnedSegs(s.c, s.nextSeg, s'.c) by {
      forall seg: nat | OfEntry(s.c, seg) ensures seg < s.nextSeg { }
    }
    hide LooseOf, OfEntry, OfThread;
    forall seg: nat ensures OfEntry(s'.c, seg) <==> OfEntry(s.c, seg) {
      assert OfSeg(s'.c, seg) <==> OfSeg(s.c, seg);
    }
  }

  lemma OwnedSegs(c: Cache, nextSeg: nat, c': Cache)
    requires forall seg: nat :: OfEntry(c, seg) ==> seg < nextSeg
    requires forall seg: nat :: !OfEntry(c, seg) ==> c'.closed[seg] == c.closed[seg]
    requires forall seg :: seg in c.closed ==> seg < nextSeg
    ensures forall seg :: seg in c'.closed ==> seg < nextSeg
  {
    hide OfEntry;
    forall seg | seg in c'.closed ensures seg < nextSeg {
      if !OfEntry(c, seg) { assert c'.closed[seg] == c.closed[seg]; }
    }
  }

  /** An open succeeds: the reader owns the new segment. */
  lemma OwnedOpened(s: State, t: nat, shard: nat)
    requires Owned(s) && t < |s.threads| && s.threads[t] == Opening(shard)
    ensures Owned(s.(threads := s.threads[t := Installing(shard, s.nextSeg)], nextSeg := s.nextSeg + 1))
  {
    var s' := s.(threads := s.threads[t := Installing(shard, s.nextSeg)], nextSeg := s.nextSeg + 1);
    assert LooseOf(s'.threads[t]) == s.nextSeg && LooseOf(s.threads[t]) == -1;
    hide LooseOf;
    assert s.c.closed[s.nextSeg] == 0;
    assert !OfEntry(s.c, s.nextSeg);
    forall seg: nat | seg < s'.nextSeg ensures OfEntry(s.c, seg) || OfThread(s'.threads, seg) || s.c.closed[seg] == 1 {
      if u :| 0 <= u < |s.threads| && LooseOf(s.threads[u]) == seg { assert LooseOf(s'.threads[u]) == seg; }
      if seg == s.nextSeg { assert LooseOf(s'.threads[t]) == seg; }
    }
  }

  /** The segment passes from the reader to a new entry. */
  lemma OwnedEntered(s: State, t: nat, shard: nat, seg: nat)
    requires Owned(s) && t < |s.threads| && s.threads[t] == Installing(shard, seg)
    ensures Owned(State(Enter(s.c, shard, seg), s.threads[t := Holding(|s.c.entries|)], s.nextSeg))
  {
    var s' := State(Enter(s.c, shard, seg), s.threads[t := Holding(|s.c.entries|)], s.nextSeg);
    SegOfThread(s, t, seg);
    assert LooseOf(s'.threads[t]) == -1 && LooseOf(s.threads[t]) == seg;
    hide LooseOf;
    forall g: nat ensures OfEntry(s'.c, g) <==> OfEntry(s.c, g) || g == seg {
      if OfEntry(s'.c, g) {
        var e :| 0 <= e < |s'.c.entries| && s'.c.entries[e].seg == g;
        assert e < |s.c.entries| ==> s.c.entries[e].seg == g;
      }
      if e :| 0 <= e < |s.c.entries| && s.c.entries[e].seg == g { assert s'.c.entries[e].seg == g; }
      if g == seg { assert s'.c.entries[|s.c.entries|].seg == seg; }
    }
    forall g: nat | OfThread(s.threads, g) && g != seg ensures OfThread(s'.threads, g) {
      var u :| 0 <= u < |s.threads| && LooseOf(s.threads[u]) == g;
      assert LooseOf(s'.threads[u]) == g;
    }
  }

  /** The duplicate is closed, once, and is no one's. */
  lemma OwnedDiscarded(s: State, t: nat, seg: nat, e: nat)
    requires Owned(s) && t < |s.threads| && s.threads[t] == Discarding(seg, e)
    ensures Owned(State(CloseSeg(s.c, seg), s.threads[t := Holding(e)], s.nextSeg))
  {
    var s' := State(CloseSeg(s.c, seg), s.threads[t := Holding(e)], s.nextSeg);
    SegOfThread(s, t, seg);
    assert LooseOf(s'.threads[t]) == -1 && LooseOf(s.threads[t]) == seg;
    hide LooseOf;
    forall g: nat ensures OfEntry(s'.c, g) <==> OfEntry(s.c, g) {
      if e :| 0 <= e < |s'.c.entries| && s'.c.entries[e].seg == g { assert s.c.entries[e].seg == g; }
      if e :| 0 <= e < |s.c.entries| && s.c.entries[e].seg == g { assert s'.c.entries[e].seg == g; }
    }
    ThreadsWithout(s.threads, s'.threads, t, seg);
    hide OfEntry, OfThread, CloseSeg;
    assert forall g: nat :: s'.c.closed[g] == s.c.closed[g] + (if g == seg then 1 else 0) by { ClosedMore(s.c, seg); }
  }

  lemma ClosedMore(c: Cache, seg: nat)
    ensures forall g: nat :: CloseSeg(c, seg).closed[g] == c.closed[g] + (if g == seg then 1 else 0)
    ensures CloseSeg(c, seg).entries == c.entries
    ensures forall g :: g in CloseSeg(c, seg).closed ==> g in c.closed || g == seg
  {
  }

  lemma ThreadsWithout(ts: seq<Thread>, ts': seq<Thread>, t: nat, seg: nat)
    requires t < |ts| == |ts'| && LooseOf(ts[t]) == seg && forall u :: 0 <= u < |ts| && u != t ==> ts'[u] == ts[u]
    ensures forall g: nat :: OfThread(ts, g) && g != seg ==> OfThread(ts', g)
  {
    hide LooseOf;
    forall g: nat | OfThread(ts, g) && g != seg ensures OfThread(ts', g) {
      var u :| 0 <= u < |ts| && LooseOf(ts[u]) == g;
      assert LooseOf(ts'[u]) == g;
    }
  }

  lemma PinSame(c: Cache, e: nat)
    requires e < |c.entries|
    ensures SameSegs(c, Pin(c, e)) && SameSegs(c, Unpin(c, e)) && SameSegs(c, CloseSeg(c, c.entries[e].seg))
      && SameSegs(c, c)
  {
  }

  lemma OpenResident(c: Cache, shard: nat)
    requires Resident(c) && shard in c.open
    ensures c.open[shard] in c.lru && c.open[shard] < |c.entries|
  {
  }

  lemma WantSteps(s: State, t: nat, shard: nat)
    requires Inv(s) && Enabled(s, t, Want(shard))
    ensures Inv(Next(s, t, Want(shard)))
  {
    hide Resident, Named, Counted, ClosedOnce, Owned, SameSegs, Pin;
    if shard in s.c.open {
      var e := s.c.open[shard];
      OpenResident(s.c, shard);
      Pinned(s, t, Holding(e), e);
      PinSame(s.c, e);
    } else {
      Wandered(s, t, Opening(shard));
      SelfSame(s.c);
    }
    OwnedKept(s, Next(s, t, Want(shard)), t);
  }

  lemma SelfSame(c: Cache)
    ensures SameSegs(c, c)
  {
  }

  lemma OpenedSteps(s: State, t: nat, ok: bool)
    requires Inv(s) && Enabled(s, t, Opened(ok))
    ensures Inv(Next(s, t, Opened(ok)))
  {
    hide Resident, Named, Counted, ClosedOnce, Owned, SameSegs;
    Wandered(s, t, Next(s, t, Opened(ok)).threads[t]);
    SelfSame(s.c);
    if ok {
      OwnedOpened(s, t, s.threads[t].shard);
    } else {
      OwnedKept(s, Next(s, t, Opened(ok)), t);
    }
  }

  lemma InstallSteps(s: State, t: nat, shard: nat, seg: nat)
    requires Inv(s) && Enabled(s, t, Go) && s.threads[t] == Installing(shard, seg)
    ensures Inv(Next(s, t, Go))
  {
    hide Resident, Named, Counted, ClosedOnce, Owned, SameSegs, Pin, Evict, Enter;
    var s' := Next(s, t, Go);
    if shard in s.c.open {
      var e := s.c.open[shard];
      OpenResident(s.c, shard);
      Pinned(s, t, Discarding(seg, e), e);
      PinSame(s.c, e);
      OwnedKept(s, s', t);
    } else {
      Installed(s, t, shard, seg);
      OwnedEntered(s, t, shard, seg);
      OwnedKept(State(Enter(s.c, shard, seg), s'.threads, s.nextSeg), s', t);
    }
  }

  lemma HeldSteps(s: State, t: nat)
    requires Inv(s) && Enabled(s, t, Go) && (s.threads[t].Holding? || s.threads[t].Closing? || s.threads[t].Discarding?)
    ensures Inv(Next(s, t, Go))
  {
    hide Resident, Named, Counted, ClosedOnce, Owned, SameSegs;
    match s.threads[t]
    case Discarding(seg, e) =>
      Discarded(s, t, seg, e);
      OwnedDiscarded(s, t, seg, e);
    case Holding(e) =>
      Released(s, t, e);
      PinSame(s.c, e);
      OwnedKept(s, Next(s, t, Go), t);
    case Closing(e) =>
      ClosedNow(s, t, e);
      PinSame(s.c, e);
      OwnedKept(s, Next(s, t, Go), t);
  }

  /** Every critical section, open and close keeps the invariant. */
  lemma Steps(s: State, t: nat, a: Act)
    requires Inv(s) && Enabled(s, t, a)
    ensures Inv(Next(s, t, a))
  {
    hide Inv, Next;
    match s.threads[t]
    case Idle => WantSteps(s, t, a.shard);
    case Opening(_) => OpenedSteps(s, t, a.ok);
    case Installing(shard, seg) => InstallSteps(s, t, shard, seg);
    case _ => HeldSteps(s, t);
  }

  // ---- over every run

  lemma {:induction false} RunInv(limit: nat, readers: nat, trace: seq<State>, who: seq<nat>, acts: seq<Act>, i: nat)
    requires Run(limit, readers, trace, who, acts) && i < |trace|
    ensures Inv(trace[i]) && trace[i].c.limit == limit && |trace[i].threads| == readers
    decreases i
  {
    if i > 0 {
      hide Inv;
      RunInv(limit, readers, trace, who, acts, i - 1);
      Steps(trace[i - 1], who[i - 1], acts[i - 1]);
      LimitStays(trace[i - 1], who[i - 1], acts[i - 1]);
      assert trace[i - 1 + 1] == Next(trace[i - 1], who[i - 1], acts[i - 1]);
    }
  }

  lemma {:induction false} EvictLimit(c: Cache)
    requires InRange(c)
    ensures Evict(c).limit == c.limit
    decreases |c.lru|
  {
    if |c.lru| > c.limit {
      EvictLimit(EvictOne(c));
    }
  }

  lemma LimitStays(s: State, t: nat, a: Act)
    requires Enabled(s, t, a)
    ensures Next(s, t, a).c.limit == s.c.limit && |Next(s, t, a).threads| == |s.threads|
  {
    if s.threads[t].Installing? && s.threads[t].shard !in s.c.open {
      EvictLimit(Enter(s.c, s.threads[t].shard, s.threads[t].seg));
    }
  }

  ghost function OpenSegs(s: State): set<nat> {
    set seg: nat | seg < s.nextSeg && s.c.closed[seg] == 0
  }

  ghost function Pinning(s: State): set<nat> {
    set t: nat | t < |s.threads| && PinOf(s.threads[t]) >= 0
  }

  ghost function Unsettled(s: State): set<nat> {
    set t: nat | t < |s.threads| && LooseOf(s.threads[t]) >= 0
  }

  ghost function Closers(s: State): set<nat> {
    set t: nat | t < |s.threads| && CloserOf(s.threads[t]) >= 0
  }

  /** A set of values that each come from some index is no larger than the indices. */
  lemma {:induction false} ImageSize(ts: set<nat>, f: nat -> nat, out: set<nat>)
    requires forall x :: x in out ==> exists t :: t in ts && f(t) == x
    ensures |out| <= |ts|
    decreases |ts|
  {
    if ts == {} {
      assert out == {};
    } else {
      var u :| u in ts;
      ImageSize(ts - {u}, f, out - {f(u)});
      assert |out| <= |out - {f(u)}| + 1;
    }
  }

  lemma {:induction false} ListSize(lru: seq<nat>, f: nat -> nat, out: set<nat>)
    requires forall x :: x in out ==> exists e :: e in lru && f(e) == x
    ensures |out| <= |lru|
    decreases |lru|
  {
    if lru == [] {
      assert out == {};
    } else {
      var rest := lru[1..];
      assert lru == [lru[0]] + rest;
      ListSize(rest, f, out - {f(lru[0])});
      assert |out| <= |out - {f(lru[0])}| + 1;
    }
  }

  function SegOf(c: Cache, e: int): nat {
    if 0 <= e < |c.entries| then c.entries[e].seg else 0
  }

  ghost function ResidentSegs(s: State): set<nat> {
    set i | 0 <= i < |s.c.lru| :: SegOf(s.c, s.c.lru[i])
  }

  ghost function PinnedSegs(s: State): set<nat> {
    set t | t in Pinning(s) :: PinSeg(s, t)
  }

  ghost function LooseSegs(s: State): set<nat> {
    set t | t in Unsettled(s) :: LooseSeg(s, t)
  }

  ghost function ClosingSegs(s: State): set<nat> {
    set t | t in Closers(s) :: ClosingSeg(s, t)
  }

  function PinSeg(s: State, t: nat): nat {
    if t < |s.threads| then SegOf(s.c, PinOf(s.threads[t])) else 0
  }

  function LooseSeg(s: State, t: nat): nat {
    if t < |s.threads| && LooseOf(s.threads[t]) >= 0 then LooseOf(s.threads[t]) else 0
  }

  function ClosingSeg(s: State, t: nat): nat {
    if t < |s.threads| then SegOf(s.c, CloserOf(s.threads[t])) else 0
  }

  /** An open segment is resident, pinned, still loose, or about to be closed. */
  lemma WhyOpen(s: State, seg: nat)
    requires Inv(s) && seg in OpenSegs(s)
    ensures seg in ResidentSegs(s) || seg in PinnedSegs(s) || seg in LooseSegs(s) || seg in ClosingSegs(s)
  {
    if OfThread(s.threads, seg) {
      var t :| 0 <= t < |s.threads| && LooseOf(s.threads[t]) == seg;
      assert t in Unsettled(s) && LooseSeg(s, t) == seg;
    } else {
      var e :| 0 <= e < |s.c.entries| && s.c.entries[e].seg == seg;
      if e in s.c.lru {
        var i :| 0 <= i < |s.c.lru| && s.c.lru[i] == e;
        assert SegOf(s.c, s.c.lru[i]) == seg;
      } else if s.c.entries[e].refs != 0 {
        var t := CountSome(s.threads, PinOf, e);
        assert t in Pinning(s) && PinSeg(s, t) == seg;
      } else {
        var t := CountSome(s.threads, CloserOf, e);
        assert t in Closers(s) && ClosingSeg(s, t) == seg;
      }
    }
  }

  lemma {:induction false} CountSome(threads: seq<Thread>, f: Thread -> int, e: int) returns (t: nat)
    requires Count(threads, f, e) > 0
    ensures t < |threads| && f(threads[t]) == e
    decreases |threads|
  {
    t := |threads| - 1;
    if f(threads[t]) != e {
      t := CountSome(threads[..t], f, e);
    }
  }

  lemma SegCounts(s: State)
    ensures |ResidentSegs(s)| <= |s.c.lru|
    ensures |PinnedSegs(s)| <= |Pinning(s)|
    ensures |LooseSegs(s)| <= |Unsettled(s)|
    ensures |ClosingSegs(s)| <= |Closers(s)|
  {
    hide Pinning, Unsettled, Closers, PinSeg, LooseSeg, ClosingSeg, SegOf;
    forall x | x in ResidentSegs(s) ensures exists e :: e in s.c.lru && SegOf(s.c, e) == x {
      var i :| 0 <= i < |s.c.lru| && SegOf(s.c, s.c.lru[i]) == x;
      assert s.c.lru[i] in s.c.lru;
    }
    ListSize(s.c.lru, (e: nat) => SegOf(s.c, e), ResidentSegs(s));
    ImageSize(Pinning(s), (t: nat) => PinSeg(s, t), PinnedSegs(s));
    ImageSize(Unsettled(s), (t: nat) => LooseSeg(s, t), LooseSegs(s));
    ImageSize(Closers(s), (t: nat) => ClosingSeg(s, t), ClosingSegs(s));
  }

  /** Open files: at most the limit, the pins, the opens not yet installed or discarded, and
      the deferred closes under way. */
  lemma OpenBound(s: State)
    requires Inv(s)
    ensures |OpenSegs(s)| <= s.c.limit + |Pinning(s)| + |Unsettled(s)| + |Closers(s)|
  {
    SegCounts(s);
    LimitHolds(s);
    hide Inv, OpenSegs, ResidentSegs, PinnedSegs, LooseSegs, ClosingSegs;
    var all := ResidentSegs(s) + PinnedSegs(s) + LooseSegs(s) + ClosingSegs(s);
    forall seg | seg in OpenSegs(s) ensures seg in all {
      WhyOpen(s, seg);
    }
    TopK.SubsetSize(OpenSegs(s), all);
  }

  lemma LimitHolds(s: State)
    requires Inv(s)
    ensures |s.c.lru| <= s.c.limit
  {
  }

  /** Main result, over every run of any number of readers: a pinned segment is not closed,
      nothing is closed twice, the resident set is within the limit whenever the mutex is
      free, and few segments are open; when every reader is done, only resident ones are. */
  lemma EveryRun(limit: nat, readers: nat, trace: seq<State>, who: seq<nat>, acts: seq<Act>, i: nat)
    requires Run(limit, readers, trace, who, acts) && i < |trace|
    ensures var s := trace[i];
      && (forall t :: 0 <= t < |s.threads| && PinOf(s.threads[t]) >= 0 ==>
            PinOf(s.threads[t]) < |s.c.entries| && s.c.closed[s.c.entries[PinOf(s.threads[t])].seg] == 0)
      && (forall seg :: s.c.closed[seg] <= 1)
      && |s.c.lru| <= limit
      && (forall shard :: shard in s.c.open ==>
            s.c.open[shard] < |s.c.entries| && s.c.open[shard] in s.c.lru
              && s.c.entries[s.c.open[shard]].shard == shard)
      && (forall e :: e in s.c.lru ==> e < |s.c.entries| && s.c.entries[e].shard in s.c.open)
      && |OpenSegs(s)| <= limit + |Pinning(s)| + |Unsettled(s)| + |Closers(s)|
      && ((forall t :: 0 <= t < |s.threads| ==> s.threads[t].Idle?)
            ==> OpenSegs(s) == ResidentSegs(s))
  {
    hide Run;
    RunInv(limit, readers, trace, who, acts, i);
    var s := trace[i];
    OpenBound(s);
    Safe(s);
    Quiet(s);
    ResidentFacts(s.c) by { InvParts(s); }
  }

  lemma InvParts(s: State)
    requires Inv(s)
    ensures Resident(s.c)
  {
  }

  lemma ResidentFacts(c: Cache)
    requires Resident(c)
    ensures forall shard :: shard in c.open ==>
      c.open[shard] < |c.entries| && c.open[shard] in c.lru && c.entries[c.open[shard]].shard == shard
    ensures forall e :: e in c.lru ==> e < |c.entries| && c.entries[e].shard in c.open
  {
  }

  lemma Safe(s: State)
    requires Inv(s)
    ensures forall t :: 0 <= t < |s.threads| && PinOf(s.threads[t]) >= 0 ==>
      PinOf(s.threads[t]) < |s.c.entries| && s.c.closed[s.c.entries[PinOf(s.threads[t])].seg] == 0
    ensures forall seg :: s.c.closed[seg] <= 1
  {
    forall t | 0 <= t < |s.threads| && PinOf(s.threads[t]) >= 0
      ensures s.c.closed[s.c.entries[PinOf(s.threads[t])].seg] == 0
    {
      CountOne(s.threads, PinOf, PinOf(s.threads[t]), t);
    }
    forall seg ensures s.c.closed[seg] <= 1 {
      if OfEntry(s.c, seg) {
        var e :| 0 <= e < |s.c.entries| && s.c.entries[e].seg == seg;
      }
    }
  }

  lemma Quiet(s: State)
    requires Inv(s)
    ensures (forall t :: 0 <= t < |s.threads| ==> s.threads[t].Idle?)
      ==> OpenSegs(s) == ResidentSegs(s)
  {
    if forall t :: 0 <= t < |s.threads| ==> s.threads[t].Idle? {
      forall seg | seg in OpenSegs(s) ensures seg in ResidentSegs(s) {
        WhyOpen(s, seg);
      }
      forall j | 0 <= j < |s.c.lru| ensures SegOf(s.c, s.c.lru[j]) in OpenSegs(s) {
        assert s.c.lru[j] in s.c.lru;
      }
    }
  }
}
