/** The reference-counted LRU of open segments (segcache.go). The mutex guards only the
    bookkeeping; files are opened and closed outside it, so opens race and closes are
    deferred. Entries and segments are named by the order they were created in. */
module SegCache {

  const DEFAULT_CACHE_SIZE: nat := 64

  /** One `segEntry`. */
  datatype Entry = Entry(shard: nat, seg: nat, refs: int, evicted: bool)

  /** The bookkeeping under the mutex, and every `Close` so far. */
  datatype Cache = Cache(entries: seq<Entry>, open: map<nat, nat>, lru: seq<nat>, closed: multiset<nat>, limit: nat)

  function Without(lru: seq<nat>, e: nat): seq<nat> {
    if lru == [] then [] else if lru[0] == e then Without(lru[1..], e) else [lru[0]] + Without(lru[1..], e)
  }

  predicate InRange(c: Cache) {
    && (forall s :: s in c.open ==> c.open[s] < |c.entries|)
    && (forall i :: 0 <= i < |c.lru| ==> c.lru[i] < |c.entries|)
  }

  /** Pin a resident entry: to the front, one more reference. */
  function Pin(c: Cache, e: nat): Cache
    requires e < |c.entries|
  {
    c.(lru := [e] + Without(c.lru, e), entries := c.entries[e := c.entries[e].(refs := c.entries[e].refs + 1)])
  }

  /** Drop the least recently used entry; close it now only if nothing pins it. */
  function EvictOne(c: Cache): Cache
    requires InRange(c) && c.lru != []
  {
    var e := c.lru[|c.lru| - 1];
    var n := c.entries[e];
    c.(lru := c.lru[..|c.lru| - 1], open := map s | s in c.open && s != n.shard :: c.open[s],
       entries := c.entries[e := n.(evicted := true)],
       closed := if n.refs == 0 then c.closed + multiset{n.seg} else c.closed)
  }

  function Evict(c: Cache): Cache
    requires InRange(c)
    decreases |c.lru|
  {
    if |c.lru| > c.limit then Evict(EvictOne(c)) else c
  }

  /** A newly opened segment enters, pinned once. */
  function Enter(c: Cache, shard: nat, seg: nat): Cache {
    var e := |c.entries|;
    c.(entries := c.entries + [Entry(shard, seg, 1, false)], lru := [e] + c.lru, open := c.open[shard := e])
  }

  function Unpin(c: Cache, e: nat): Cache
    requires e < |c.entries|
  {
    c.(entries := c.entries[e := c.entries[e].(refs := c.entries[e].refs - 1)])
  }

  function CloseSeg(c: Cache, seg: nat): Cache {
    c.(closed := c.closed + multiset{seg})
  }

  // ---- the object, one method per critical section

  class SegCache {
    var entries: seq<Entry>
    var open: map<nat, nat>
    var lru: seq<nat>
    ghost var closed: multiset<nat>
    const limit: nat

    ghost function View(): Cache
      reads this
    {
      Cache(entries, open, lru, closed, limit)
    }

    constructor (limit: int)
      ensures View() == Cache([], map[], [], multiset{}, if limit <= 0 then DEFAULT_CACHE_SIZE else limit)
    {
      entries, open, lru, closed := [], map[], [], multiset{};
      this.limit := if limit <= 0 then DEFAULT_CACHE_SIZE else limit;
    }

    /** `acquire` up to the first unlock: a hit, or a miss to be opened outside the lock. */
    method TryPin(shard: nat) returns (hit: bool, e: nat)
      requires InRange(View())
      modifies this
      ensures hit <==> shard in old(open)
      ensures hit ==> e == old(open[shard]) && View() == Pin(old(View()), e)
      ensures !hit ==> View() == old(View())
    {
      hit, e := shard in open, 0;
      if hit {
        e := open[shard];
        MoveToFront(e);
        entries := entries[e := entries[e].(refs := entries[e].refs + 1)];
      }
    }

    method MoveToFront(e: nat)
      modifies this`lru
      ensures lru == [e] + Without(old(lru), e)
    {
      var kept, i := [], 0;
      while i < |lru|
        invariant 0 <= i <= |lru| && lru == old(lru) && Without(lru, e) == kept + Without(lru[i..], e)
      {
        if lru[i] != e {
          kept := kept + [lru[i]];
        }
        i := i + 1;
      }
      lru := [e] + kept;
    }

    /** `acquire` under its second lock: adopt an entry that raced in, or install ours. */
    method Install(shard: nat, seg: nat) returns (adopted: bool, e: nat)
      requires InRange(View())
      modifies this
      ensures adopted <==> shard in old(open)
      ensures adopted ==> e == old(open[shard]) && View() == Pin(old(View()), e)
      ensures !adopted ==> e == |old(entries)| && InRange(Enter(old(View()), shard, seg))
                           && View() == Evict(Enter(old(View()), shard, seg))
    {
      adopted, e := TryPin(shard);
      if !adopted {
        e := |entries|;
        entries := entries + [Entry(shard, seg, 1, false)];
        lru := [e] + lru;
        open := open[shard := e];
        EvictLocked();
      }
    }

    method EvictLocked()
      requires InRange(View())
      modifies this
      ensures View() == Evict(old(View()))
    {
      while |lru| > limit
        invariant InRange(View()) && Evict(View()) == Evict(old(View()))
        decreases |lru|
      {
        ghost var was := View();
        var e := lru[|lru| - 1];
        lru := lru[..|lru| - 1];
        open := map s | s in open && s != entries[e].shard :: open[s];
        entries := entries[e := entries[e].(evicted := true)];
        if entries[e].refs == 0 {
          closed := closed + multiset{entries[e].seg};
        }
        assert View() == EvictOne(was);
      }
    }

    /** `release` under the lock; the close itself, if this was the last pin, comes after. */
    method Release(e: nat) returns (closeNow: bool)
      requires e < |entries|
      modifies this
      ensures View() == Unpin(old(View()), e)
      ensures closeNow <==> entries[e].evicted && entries[e].refs == 0
    {
      entries := entries[e := entries[e].(refs := entries[e].refs - 1)];
      closeNow := entries[e].evicted && entries[e].refs == 0;
    }
  }
}
