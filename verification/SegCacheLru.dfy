/** Which segment the cache gives up (segcache.go): over every run of any number of readers, the one
    whose last acquire is the longest ago. */
module SegCacheLru {
  import opened SegCache
  import opened SegCacheSafety

  // ---- when an entry was last acquired, read off the readers alone

  /** In step `i` its reader comes to hold entry `e`, as a hit, an adopted entry or one of its own. */
  ghost predicate Acquires(trace: seq<State>, who: seq<nat>, i: nat, e: nat)
    requires i < |who| && i + 1 < |trace|
  {
    && who[i] < |trace[i].threads| && who[i] < |trace[i + 1].threads|
    && PinOf(trace[i].threads[who[i]]) == -1 && PinOf(trace[i + 1].threads[who[i]]) == e
  }

  /** The last of the first `n` steps to acquire `e`, or -1. */
  ghost function LastAcquire(trace: seq<State>, who: seq<nat>, n: nat, e: nat): (i: int)
    requires n <= |who| && n < |trace|
    ensures -1 <= i < n
    ensures i >= 0 ==> Acquires(trace, who, i, e)
    ensures forall j :: i < j < n ==> !Acquires(trace, who, j, e)
  {
    if n == 0 then -1
    else if Acquires(trace, who, n - 1, e) then n - 1
    else LastAcquire(trace, who, n - 1, e)
  }

  // ---- lists in descending order of a key

  ghost predicate Descending(lru: seq<nat>, key: nat -> int) {
    forall i, j :: 0 <= i < j < |lru| ==> key(lru[i]) > key(lru[j])
  }

  lemma {:induction false} WithoutIn(lru: seq<nat>, e: nat, x: nat)
    ensures x in Without(lru, e) <==> x in lru && x != e
  {
    if lru != [] { WithoutIn(lru[1..], e, x); }
  }

  lemma {:induction false} WithoutDescends(lru: seq<nat>, e: nat, key: nat -> int)
    requires Descending(lru, key)
    ensures Descending(Without(lru, e), key)
  {
    if lru != [] {
      WithoutDescends(lru[1..], e, key);
      var rest := Without(lru[1..], e);
      forall j | 0 <= j < |rest| ensures key(lru[0]) > key(rest[j]) {
        WithoutIn(lru[1..], e, rest[j]);
        var i :| 0 <= i < |lru[1..]| && lru[1..][i] == rest[j];
        assert lru[i + 1] == rest[j];
      }
    }
  }

  /** Putting an element in front, its key raised above all others'. */
  lemma FrontDescends(lru: seq<nat>, rest: seq<nat>, e: nat, was: nat -> int, key: nat -> int)
    requires Descending(rest, was) && (forall x :: x in rest ==> x != e && key(x) == was(x) < key(e))
    ensures Descending([e] + rest, key)
  {
    var all := [e] + rest;
    forall i, j | 0 <= i < j < |all| ensures key(all[i]) > key(all[j]) {
      assert all[j] == rest[j - 1] && rest[j - 1] in rest;
      if i > 0 { assert all[i] == rest[i - 1] && rest[i - 1] in rest; }
    }
  }

  function Cut(lru: seq<nat>, limit: nat): seq<nat> {
    if |lru| > limit then lru[..limit] else lru
  }

  lemma {:induction false} WithoutSize(lru: seq<nat>, e: nat)
    ensures |Without(lru, e)| <= |lru|
    ensures e in lru ==> |Without(lru, e)| < |lru|
    ensures e !in lru ==> Without(lru, e) == lru
  {
    if lru != [] {
      WithoutSize(lru[1..], e);
      assert lru == [lru[0]] + lru[1..];
    }
  }

  lemma {:induction false} EvictCuts(c: Cache)
    requires InRange(c)
    ensures Evict(c).lru == Cut(c.lru, c.limit) && Evict(c).limit == c.limit
    decreases |c.lru|
  {
    if |c.lru| > c.limit { EvictCuts(EvictOne(c)); }
  }

  // ---- one step

  ghost predicate Acquiring(s: State, s': State, t: nat, e: nat) {
    t < |s.threads| && t < |s'.threads| && PinOf(s.threads[t]) == -1 && PinOf(s'.threads[t]) == e
  }

  /** An acquire puts its entry in front and cuts the list to the limit; no other step changes it. */
  ghost predicate ListStep(s: State, s': State, t: nat) {
    && s'.c.limit == s.c.limit
    && (forall e: nat :: Acquiring(s, s', t, e) ==> s'.c.lru == Cut([e] + Without(s.c.lru, e), s.c.limit))
    && ((forall e: nat :: !Acquiring(s, s', t, e)) ==> s'.c.lru == s.c.lru)
  }

  lemma HitStep(s: State, s': State, t: nat, e: nat)
    requires Resident(s.c) && |s.c.lru| <= s.c.limit && e in s.c.lru && e < |s.c.entries|
    requires t < |s.threads| == |s'.threads| && s'.c == Pin(s.c, e)
    requires PinOf(s.threads[t]) == -1 && PinOf(s'.threads[t]) == e
    ensures ListStep(s, s', t)
  {
    hide Resident, Without, PinOf;
    WithoutSize(s.c.lru, e);
    assert Acquiring(s, s', t, e);
  }

  lemma EnterStep(s: State, s': State, t: nat, shard: nat, seg: nat)
    requires Resident(s.c) && t < |s.threads| == |s'.threads| && s'.c == Evict(Enter(s.c, shard, seg))
    requires PinOf(s.threads[t]) == -1 && PinOf(s'.threads[t]) == |s.c.entries| && InRange(Enter(s.c, shard, seg))
    ensures ListStep(s, s', t)
  {
    var n := |s.c.entries|;
    assert n !in s.c.lru;
    hide Resident, Without, PinOf, Evict;
    WithoutSize(s.c.lru, n);
    EvictCuts(Enter(s.c, shard, seg));
    assert Acquiring(s, s', t, n);
  }

  lemma StillStep(s: State, s': State, t: nat)
    requires t < |s.threads| == |s'.threads| && s'.c.lru == s.c.lru && s'.c.limit == s.c.limit
    requires PinOf(s.threads[t]) != -1 || PinOf(s'.threads[t]) == -1
    ensures ListStep(s, s', t)
  {
    hide PinOf;
  }

  lemma IdleStep(s: State, t: nat, shard: nat)
    requires Resident(s.c) && |s.c.lru| <= s.c.limit && Enabled(s, t, Want(shard)) && s.threads[t].Idle?
    ensures ListStep(s, Next(s, t, Want(shard)), t)
  {
    var s' := Next(s, t, Want(shard));
    ResidentFacts(s.c);
    hide Resident, ListStep, Pin;
    if shard in s.c.open {
      HitStep(s, s', t, s.c.open[shard]);
    } else {
      StillStep(s, s', t);
    }
  }

  lemma InstallStep(s: State, t: nat)
    requires Resident(s.c) && |s.c.lru| <= s.c.limit && Enabled(s, t, Go) && s.threads[t].Installing?
    ensures ListStep(s, Next(s, t, Go), t)
  {
    var shard, seg, s' := s.threads[t].shard, s.threads[t].seg, Next(s, t, Go);
    ResidentFacts(s.c);
    EnterRange(s.c, shard, seg);
    hide Resident, ListStep, Pin, Evict, Enter;
    if shard in s.c.open {
      HitStep(s, s', t, s.c.open[shard]);
    } else {
      EnterStep(s, s', t, shard, seg);
    }
  }

  lemma EnterRange(c: Cache, shard: nat, seg: nat)
    requires Resident(c)
    ensures InRange(Enter(c, shard, seg))
  {
  }

  lemma OtherStep(s: State, t: nat, a: Act)
    requires Enabled(s, t, a) && !s.threads[t].Idle? && !s.threads[t].Installing?
    ensures ListStep(s, Next(s, t, a), t)
  {
    hide ListStep;
    StillStep(s, Next(s, t, a), t);
  }

  lemma StepList(s: State, t: nat, a: Act)
    requires Inv(s) && Enabled(s, t, a)
    ensures ListStep(s, Next(s, t, a), t)
  {
    InvParts(s);
    LimitHolds(s);
    hide Inv, Resident, ListStep, Next;
    if s.threads[t].Idle? {
      IdleStep(s, t, a.shard);
    } else if s.threads[t].Installing? {
      InstallStep(s, t);
    } else {
      OtherStep(s, t, a);
    }
  }

  // ---- every run

  ghost function KeyAt(trace: seq<State>, who: seq<nat>, n: nat): nat -> int
    requires n <= |who| && n < |trace|
  {
    (e: nat) => LastAcquire(trace, who, n, e)
  }

  ghost predicate Recent(trace: seq<State>, who: seq<nat>, n: nat)
    requires n <= |who| && n < |trace|
  {
    Descending(trace[n].c.lru, KeyAt(trace, who, n))
  }

  lemma KeysNext(trace: seq<State>, who: seq<nat>, n: nat, e: nat)
    requires n < |who| && n + 1 < |trace|
    ensures LastAcquire(trace, who, n + 1, e)
            == if Acquiring(trace[n], trace[n + 1], who[n], e) then n else LastAcquire(trace, who, n, e)
  {
  }

  lemma SameKeys(lru: seq<nat>, was: nat -> int, key: nat -> int)
    requires Descending(lru, was) && forall x :: x in lru ==> key(x) == was(x)
    ensures Descending(lru, key)
  {
  }

  /** The list before it is cut. */
  ghost function Fronted(trace: seq<State>, n: nat, e: nat): seq<nat>
    requires n < |trace|
  {
    [e] + Without(trace[n].c.lru, e)
  }

  lemma FrontedDescends(trace: seq<State>, who: seq<nat>, n: nat, e: nat)
    requires n < |who| && n + 1 < |trace| && Recent(trace, who, n) && Acquiring(trace[n], trace[n + 1], who[n], e)
    ensures Descending(Fronted(trace, n, e), KeyAt(trace, who, n + 1))
  {
    var lru, was, key := trace[n].c.lru, KeyAt(trace, who, n), KeyAt(trace, who, n + 1);
    WithoutDescends(lru, e, was);
    forall x | x in Without(lru, e) ensures x != e && key(x) == was(x) < key(e) {
      WithoutIn(lru, e, x);
      KeysNext(trace, who, n, x);
    }
    KeysNext(trace, who, n, e);
    FrontDescends(lru, Without(lru, e), e, was, key);
  }

  /** In every state the list is in order of last acquire, the latest first. */
  lemma {:induction false} RunRecent(limit: nat, readers: nat, trace: seq<State>, who: seq<nat>, acts: seq<Act>, n: nat)
    requires Run(limit, readers, trace, who, acts) && n < |trace|
    ensures Recent(trace, who, n)
  {
    if n == 0 {
      assert trace[0].c.lru == [];
    } else {
      RunRecent(limit, readers, trace, who, acts, n - 1);
      RunInv(limit, readers, trace, who, acts, n - 1);
      StepOf(limit, readers, trace, who, acts, n - 1);
      RecentNext(trace, who, n - 1);
    }
  }

  lemma RecentNext(trace: seq<State>, who: seq<nat>, n: nat)
    requires n < |who| && n + 1 < |trace| && Recent(trace, who, n) && ListStep(trace[n], trace[n + 1], who[n])
    ensures Recent(trace, who, n + 1)
  {
    hide Cut, Without, LastAcquire;
    var s, s' := trace[n], trace[n + 1];
    if e: nat :| Acquiring(s, s', who[n], e) {
      FrontedDescends(trace, who, n, e);
      CutDescends(Fronted(trace, n, e), s.c.limit, KeyAt(trace, who, n + 1));
    } else {
      forall x | x in s.c.lru ensures KeyAt(trace, who, n + 1)(x) == KeyAt(trace, who, n)(x) {
        KeysNext(trace, who, n, x);
      }
      SameKeys(s.c.lru, KeyAt(trace, who, n), KeyAt(trace, who, n + 1));
    }
  }

  lemma CutDescends(lru: seq<nat>, limit: nat, key: nat -> int)
    requires Descending(lru, key)
    ensures Descending(Cut(lru, limit), key)
  {
  }

  /** From the resident entries `was`, with `e` acquired, to `now`: no more are given up than the limit
      asks, and only entries acquired longer ago than every one kept. */
  ghost predicate KeepsRecent(was: seq<nat>, now: seq<nat>, e: nat, limit: nat, last: nat -> int) {
    && |now| == (if e in was then |was| else if |was| < limit then |was| + 1 else limit)
    && (forall x :: x in now ==> x in was || x == e)
    && (limit > 0 ==> e in now)
    && forall x, y :: (x in was || x == e) && x !in now && y in now ==> last(x) < last(y)
  }

  /** Main result: of the steps of any run only an acquire changes what is resident, and what it gives
      up is the least recently acquired. */
  lemma LeastRecentlyUsed(limit: nat, readers: nat, trace: seq<State>, who: seq<nat>, acts: seq<Act>, n: nat)
    requires Run(limit, readers, trace, who, acts) && n < |acts|
    ensures forall e :: Acquires(trace, who, n, e) ==>
      KeepsRecent(trace[n].c.lru, trace[n + 1].c.lru, e, limit, KeyAt(trace, who, n + 1))
    ensures (forall e :: !Acquires(trace, who, n, e)) ==> trace[n + 1].c.lru == trace[n].c.lru
  {
    RunRecent(limit, readers, trace, who, acts, n);
    RunInv(limit, readers, trace, who, acts, n);
    LimitIs(limit, readers, trace, who, acts, n);
    StepOf(limit, readers, trace, who, acts, n);
    hide Run, Inv, KeepsRecent, KeyAt, Recent, Acquires;
    forall e: nat | Acquires(trace, who, n, e)
      ensures KeepsRecent(trace[n].c.lru, trace[n + 1].c.lru, e, limit, KeyAt(trace, who, n + 1))
    {
      AcquireKeeps(trace, who, n, e);
    }
    if forall e :: !Acquires(trace, who, n, e) {
      NoAcquire(trace, who, n);
    }
  }

  lemma StepOf(limit: nat, readers: nat, trace: seq<State>, who: seq<nat>, acts: seq<Act>, n: nat)
    requires Run(limit, readers, trace, who, acts) && n < |acts| && Inv(trace[n])
    ensures ListStep(trace[n], trace[n + 1], who[n])
  {
    hide Inv, ListStep, Next;
    StepList(trace[n], who[n], acts[n]);
  }

  lemma AcquireKeeps(trace: seq<State>, who: seq<nat>, n: nat, e: nat)
    requires n < |who| && n + 1 < |trace| && Recent(trace, who, n) && Inv(trace[n])
    requires ListStep(trace[n], trace[n + 1], who[n]) && Acquires(trace, who, n, e)
    ensures KeepsRecent(trace[n].c.lru, trace[n + 1].c.lru, e, trace[n].c.limit, KeyAt(trace, who, n + 1))
  {
    InvParts(trace[n]);
    LimitHolds(trace[n]);
    DistinctList(trace[n].c);
    hide Inv, Resident, KeepsRecent, Recent, Cut, Without, KeyAt, Descending;
    assert Acquiring(trace[n], trace[n + 1], who[n], e);
    FrontedDescends(trace, who, n, e);
    CutKeeps(trace[n].c.lru, e, trace[n].c.limit, KeyAt(trace, who, n + 1));
  }

  lemma NoAcquire(trace: seq<State>, who: seq<nat>, n: nat)
    requires n < |who| && n + 1 < |trace| && ListStep(trace[n], trace[n + 1], who[n])
    requires forall e :: !Acquires(trace, who, n, e)
    ensures trace[n + 1].c.lru == trace[n].c.lru
  {
    var s, s', t := trace[n], trace[n + 1], who[n];
    forall e: nat ensures !Acquiring(s, s', t, e) {
      assert !Acquires(trace, who, n, e);
    }
  }

  lemma DistinctList(c: Cache)
    requires Resident(c)
    ensures Distinct(c.lru)
  {
  }

  lemma CutKeeps(was: seq<nat>, e: nat, limit: nat, last: nat -> int)
    requires Distinct(was) && |was| <= limit && Descending([e] + Without(was, e), last)
    ensures KeepsRecent(was, Cut([e] + Without(was, e), limit), e, limit, last)
  {
    hide Distinct, Without;
    var all := [e] + Without(was, e);
    WithoutOne(was, e);
    forall x: nat ensures x in all <==> x in was || x == e {
      WithoutIn(was, e, x);
    }
    CutLater(all, limit, last);
    if limit > 0 { assert Cut(all, limit)[0] == e; }
  }

  lemma {:induction false} WithoutOne(lru: seq<nat>, e: nat)
    requires Distinct(lru)
    ensures |Without(lru, e)| == if e in lru then |lru| - 1 else |lru|
  {
    if lru != [] {
      WithoutOne(lru[1..], e);
      assert lru == [lru[0]] + lru[1..];
    }
  }

  lemma CutLater(all: seq<nat>, limit: nat, key: nat -> int)
    requires Descending(all, key)
    ensures forall x, y :: x in all && x !in Cut(all, limit) && y in Cut(all, limit) ==> key(x) < key(y)
    ensures forall x :: x in Cut(all, limit) ==> x in all
  {
    var kept := Cut(all, limit);
    assert forall m :: 0 <= m < |kept| ==> all[m] in kept;
    forall x, y | x in all && x !in kept && y in kept ensures key(x) < key(y) {
      var i :| 0 <= i < |all| && all[i] == x;
      var j :| 0 <= j < |kept| && kept[j] == y;
      assert i >= |kept| && all[j] == y;
    }
  }

  lemma {:induction false} LimitIs(limit: nat, readers: nat, trace: seq<State>, who: seq<nat>, acts: seq<Act>, n: nat)
    requires Run(limit, readers, trace, who, acts) && n < |trace|
    ensures trace[n].c.limit == limit
  {
    if n > 0 {
      LimitIs(limit, readers, trace, who, acts, n - 1);
      RunInv(limit, readers, trace, who, acts, n - 1);
      StepList(trace[n - 1], who[n - 1], acts[n - 1]);
    }
  }

  // ---- the right segment

  /** The shard reader `t` last asked for in the first `n` steps, or -1. */
  ghost function LastWant(who: seq<nat>, acts: seq<Act>, n: nat, t: nat): int
    requires n <= |who| == |acts|
  {
    if n == 0 then -1
    else if who[n - 1] == t && acts[n - 1].Want? then acts[n - 1].shard
    else LastWant(who, acts, n - 1, t)
  }

  /** What a reader is after, or holds, is `shard`. */
  ghost predicate About(c: Cache, th: Thread, shard: int) {
    match th
    case Idle => true
    case Opening(s) => s == shard
    case Installing(s, _) => s == shard
    case Discarding(_, e) => e < |c.entries| && c.entries[e].shard == shard
    case Holding(e) => e < |c.entries| && c.entries[e].shard == shard
    case Closing(_) => true
  }

  /** Entries are never renamed. */
  ghost predicate SameShards(c: Cache, c': Cache) {
    |c.entries| <= |c'.entries| && forall e :: 0 <= e < |c.entries| ==> c'.entries[e].shard == c.entries[e].shard
  }

  lemma {:induction false} EvictShards(c: Cache)
    requires InRange(c)
    ensures SameShards(c, Evict(c)) && |Evict(c).entries| == |c.entries|
    decreases |c.lru|
  {
    if |c.lru| > c.limit { EvictShards(EvictOne(c)); }
  }

  lemma StepAbout(s: State, t: nat, a: Act, shard: int)
    requires Resident(s.c) && Enabled(s, t, a) && About(s.c, s.threads[t], shard)
    ensures var s' := Next(s, t, a);
      && SameShards(s.c, s'.c) && |s'.threads| == |s.threads|
      && About(s'.c, s'.threads[t], if a.Want? then a.shard else shard)
      && forall u :: 0 <= u < |s.threads| && u != t ==> s'.threads[u] == s.threads[u]
  {
    ResidentFacts(s.c);
    hide Evict, Without, Resident;
    if s.threads[t].Installing? {
      EnterRange(s.c, s.threads[t].shard, s.threads[t].seg);
      EvictShards(Enter(s.c, s.threads[t].shard, s.threads[t].seg));
    }
  }

  /** In every state of every run, what a reader holds is a segment of the shard it last asked for. */
  lemma {:induction false} RightShard(limit: nat, readers: nat, trace: seq<State>, who: seq<nat>, acts: seq<Act>,
                                      n: nat)
    requires Run(limit, readers, trace, who, acts) && n < |trace|
    ensures forall t :: 0 <= t < |trace[n].threads| ==>
      About(trace[n].c, trace[n].threads[t], LastWant(who, acts, n, t))
  {
    if n > 0 {
      var m := n - 1;
      RightShard(limit, readers, trace, who, acts, m);
      RunInv(limit, readers, trace, who, acts, m);
      InvParts(trace[m]);
      var s, s' := trace[m], trace[n];
      StepAbout(s, who[m], acts[m], LastWant(who, acts, m, who[m]));
      hide Inv, Resident, Next, Enabled;
      forall t | 0 <= t < |s'.threads| ensures About(s'.c, s'.threads[t], LastWant(who, acts, n, t)) {
        if t != who[m] { assert s'.threads[t] == s.threads[t]; }
      }
    }
  }
}
