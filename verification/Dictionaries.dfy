/** Reading a term dictionary: the sorted list (search/terms.go) and the block tree
    (search/blocktree.go) give the same answers. */
module Dictionaries {
  import opened Digits
  import opened Varint
  import opened Keys
  import opened TermLists
  import opened InvertedFile
  import opened BlockTree

  datatype Found = Found(entry: Entry) | Missing

  // ---- what a dictionary answers

  ghost predicate Ordered(ts: seq<DictTerm>) {
    forall i, j :: 0 <= i < j < |ts| ==> Less(ts[i].term, ts[j].term)
  }

  function Find(ts: seq<DictTerm>, t: Term): Found {
    if ts == [] then Missing else if ts[0].term == t then Found(ts[0].entry) else Find(ts[1..], t)
  }

  predicate HasPrefix(t: Term, p: Term) {
    |p| <= |t| && t[..|p|] == p
  }

  /** The calls a prefix scan makes: every term with the prefix, in order, until one says stop. */
  function ScanCalls(ts: seq<DictTerm>, p: Term, more: DictTerm -> bool): seq<DictTerm> {
    if ts == [] then []
    else if !HasPrefix(ts[0].term, p) then ScanCalls(ts[1..], p, more)
    else [ts[0]] + if more(ts[0]) then ScanCalls(ts[1..], p, more) else []
  }

  /** The calls on the terms from position `from` are made at rising positions, each on a term with the
      prefix and each but the last told to go on; a term with the prefix is passed over only after a
      last call that said stop. */
  ghost predicate CalledAt(at: seq<nat>, calls: seq<DictTerm>, ts: seq<DictTerm>, from: nat, p: Term,
                           more: DictTerm -> bool) {
    && |at| == |calls|
    && (forall k :: 0 <= k < |at| ==> from <= at[k] < |ts| && calls[k] == ts[at[k]] && HasPrefix(calls[k].term, p))
    && (forall j, k :: 0 <= j < k < |at| ==> at[j] < at[k])
    && (forall k :: 0 <= k < |at| - 1 ==> more(calls[k]))
    && forall i :: from <= i < |ts| && HasPrefix(ts[i].term, p) && i !in at ==>
         at != [] && at[|at| - 1] < i && !more(calls[|at| - 1])
  }

  lemma {:induction false} CallsMade(ts: seq<DictTerm>, from: nat, p: Term, more: DictTerm -> bool)
    returns (at: seq<nat>)
    requires from <= |ts|
    ensures CalledAt(at, ScanCalls(ts[from..], p, more), ts, from, p, more)
    decreases |ts| - from
  {
    hide HasPrefix, ScanCalls, CalledAt;
    if from == |ts| {
      at := [];
      NoCalls(ts, p, more);
      assert ts[from..] == [];
    } else {
      ScanHead(ts, from, p, more);
      if HasPrefix(ts[from].term, p) && !more(ts[from]) {
        at := [from];
        LastCall(ts, from, p, more);
      } else {
        at := CallsMade(ts, from + 1, p, more);
        if HasPrefix(ts[from].term, p) {
          CallFirst(at, ScanCalls(ts[from + 1..], p, more), ts, from, p, more);
          at := [from] + at;
        } else {
          PassOver(at, ScanCalls(ts[from + 1..], p, more), ts, from, p, more);
        }
      }
    }
  }

  lemma NoCalls(ts: seq<DictTerm>, p: Term, more: DictTerm -> bool)
    ensures CalledAt([], ScanCalls([], p, more), ts, |ts|, p, more)
  {
  }

  lemma LastCall(ts: seq<DictTerm>, from: nat, p: Term, more: DictTerm -> bool)
    requires from < |ts| && HasPrefix(ts[from].term, p) && !more(ts[from])
    ensures CalledAt([from], [ts[from]], ts, from, p, more)
  {
    hide HasPrefix;
  }

  lemma PassOver(at: seq<nat>, calls: seq<DictTerm>, ts: seq<DictTerm>, from: nat, p: Term, more: DictTerm -> bool)
    requires from < |ts| && CalledAt(at, calls, ts, from + 1, p, more) && !HasPrefix(ts[from].term, p)
    ensures CalledAt(at, calls, ts, from, p, more)
  {
    hide HasPrefix;
  }

  lemma CallFirst(at: seq<nat>, calls: seq<DictTerm>, ts: seq<DictTerm>, from: nat, p: Term, more: DictTerm -> bool)
    requires from < |ts| && CalledAt(at, calls, ts, from + 1, p, more)
    requires HasPrefix(ts[from].term, p) && more(ts[from])
    ensures CalledAt([from] + at, [ts[from]] + calls, ts, from, p, more)
  {
    hide HasPrefix;
    var all := [from] + at;
    assert all[0] == from;
    forall i | i in at ensures i in all {
    }
  }

  /** Whether some call said stop. */
  function Stops(ts: seq<DictTerm>, p: Term, more: DictTerm -> bool): bool {
    ts != [] && ((HasPrefix(ts[0].term, p) && !more(ts[0])) || Stops(ts[1..], p, more))
  }

  lemma {:induction false} FindJoin(a: seq<DictTerm>, b: seq<DictTerm>, t: Term)
    ensures Find(a + b, t) == if Find(a, t).Found? then Find(a, t) else Find(b, t)
    decreases |a|
  {
    if a == [] {
      assert a + b == b;
    } else {
      FindJoin(a[1..], b, t);
      assert (a + b)[1..] == a[1..] + b;
    }
  }

  lemma {:induction false} FindNone(ts: seq<DictTerm>, t: Term)
    requires forall i :: 0 <= i < |ts| ==> ts[i].term != t
    ensures Find(ts, t) == Missing
    decreases |ts|
  {
    if ts != [] { FindNone(ts[1..], t); }
  }

  lemma {:induction false} FindAt(ts: seq<DictTerm>, i: nat)
    requires Ordered(ts) && i < |ts|
    ensures Find(ts, ts[i].term) == Found(ts[i].entry)
    decreases |ts|
  {
    if i > 0 {
      assert Less(ts[0].term, ts[i].term);
      LessIrreflexive(ts[0].term);
      FindAt(ts[1..], i - 1);
    }
  }

  lemma {:induction false} ScanJoin(a: seq<DictTerm>, b: seq<DictTerm>, p: Term, more: DictTerm -> bool)
    ensures ScanCalls(a + b, p, more) == ScanCalls(a, p, more) + if Stops(a, p, more) then [] else ScanCalls(b, p, more)
    ensures Stops(a + b, p, more) <==> Stops(a, p, more) || Stops(b, p, more)
    decreases |a|
  {
    hide HasPrefix;
    if a == [] {
      assert a + b == b;
    } else {
      ScanJoin(a[1..], b, p, more);
      assert (a + b)[1..] == a[1..] + b;
    }
  }

  lemma {:induction false} ScanNone(ts: seq<DictTerm>, p: Term, more: DictTerm -> bool)
    requires forall i :: 0 <= i < |ts| ==> !HasPrefix(ts[i].term, p)
    ensures ScanCalls(ts, p, more) == [] && !Stops(ts, p, more)
    decreases |ts|
  {
    hide HasPrefix;
    if ts != [] { ScanNone(ts[1..], p, more); }
  }

  lemma {:induction false} PrefixNotLess(t: Term, p: Term)
    requires HasPrefix(t, p)
    ensures !Less(t, p)
    decreases |p|
  {
    if p != [] {
      assert t[..|p|][0] == p[0];
      assert t[1..][..|p| - 1] == t[..|p|][1..];
      PrefixNotLess(t[1..], p[1..]);
    }
  }

  /** Terms with a prefix are contiguous: past the prefix and without it, none follows. */
  lemma {:induction false} PastPrefix(t: Term, u: Term, p: Term)
    requires Less(t, u) && !HasPrefix(t, p) && Less(p, t)
    ensures !HasPrefix(u, p)
    decreases |p|
  {
    PrefixStep(t, p);
    PrefixStep(u, p);
    if p != [] && t != [] && u != [] && t[0] == p[0] && u[0] == p[0] {
      PastPrefix(t[1..], u[1..], p[1..]);
    }
  }

  lemma PrefixStep(t: Term, p: Term)
    ensures HasPrefix(t, p) <==> p == [] || (t != [] && t[0] == p[0] && HasPrefix(t[1..], p[1..]))
  {
    if p != [] && t != [] && |p| <= |t| {
      assert t[..|p|] == [t[0]] + t[1..][..|p| - 1];
      assert p == [p[0]] + p[1..];
    }
  }

  lemma SelfPrefix(p: Term)
    ensures HasPrefix(p, p)
  {
  }

  // ---- the sorted list

  method Search(ts: seq<DictTerm>, t: Term) returns (lo: nat)
    requires Ordered(ts)
    ensures lo <= |ts| && (forall j :: 0 <= j < lo ==> Less(ts[j].term, t))
    ensures forall j :: lo <= j < |ts| ==> !Less(ts[j].term, t)
  {
    hide Less;
    var hi := |ts|;
    lo := 0;
    while lo < hi
      invariant 0 <= lo <= hi <= |ts|
      invariant forall j :: 0 <= j < lo ==> Less(ts[j].term, t)
      invariant forall j :: hi <= j < |ts| ==> !Less(ts[j].term, t)
    {
      var mid := (lo + hi) / 2;
      if Less(ts[mid].term, t) {
        forall j | 0 <= j <= mid ensures Less(ts[j].term, t) {
          if j < mid { LessTransitive(ts[j].term, ts[mid].term, t); }
        }
        lo := mid + 1;
      } else {
        forall j | mid <= j < |ts| ensures !Less(ts[j].term, t) {
          if j > mid && Less(ts[j].term, t) { LessTransitive(ts[mid].term, ts[j].term, t); }
        }
        hi := mid;
      }
    }
  }

  method SortedLookup(ts: seq<DictTerm>, t: Term) returns (r: Found)
    requires Ordered(ts)
    ensures r == Find(ts, t)
  {
    hide Less;
    var i := Search(ts, t);
    LessIrreflexive(t);
    if i < |ts| && ts[i].term == t {
      FindAt(ts, i);
      return Found(ts[i].entry);
    }
    forall j | 0 <= j < |ts| ensures ts[j].term != t {
      if j > i { LessTotal(ts[i].term, t); }
    }
    FindNone(ts, t);
    r := Missing;
  }

  /** The calls `SortedDict.PrefixScan` makes. */
  method SortedScan(ts: seq<DictTerm>, p: Term, more: DictTerm -> bool) returns (calls: seq<DictTerm>)
    requires Ordered(ts)
    ensures calls == ScanCalls(ts, p, more)
  {
    hide Less, HasPrefix, ScanCalls, Stops;
    calls := [];
    var i := Search(ts, p);
    SkipBefore(ts, i, p, more);
    while i < |ts|
      invariant 0 <= i <= |ts| && calls + ScanCalls(ts[i..], p, more) == ScanCalls(ts, p, more)
      invariant forall j :: i <= j < |ts| ==> !Less(ts[j].term, p)
    {
      ScanHead(ts, i, p, more);
      if !HasPrefix(ts[i].term, p) {
        NoneFollow(ts, i, p);
        ScanNone(ts[i..], p, more);
        return;
      }
      calls := calls + [ts[i]];
      if !more(ts[i]) {
        return;
      }
      i := i + 1;
    }
    assert ts[i..] == [];
    ScanNone([], p, more);
  }

  lemma ScanHead(ts: seq<DictTerm>, i: nat, p: Term, more: DictTerm -> bool)
    requires i < |ts|
    ensures var tail := ScanCalls(ts[i + 1..], p, more);
      ScanCalls(ts[i..], p, more)
      == if !HasPrefix(ts[i].term, p) then tail else if more(ts[i]) then [ts[i]] + tail else [ts[i]]
  {
    hide HasPrefix;
    assert ts[i..][1..] == ts[i + 1..];
    assert [ts[i]] + [] == [ts[i]];
  }

  lemma SkipBefore(ts: seq<DictTerm>, i: nat, p: Term, more: DictTerm -> bool)
    requires i <= |ts| && forall j :: 0 <= j < i ==> Less(ts[j].term, p)
    ensures ScanCalls(ts[i..], p, more) == ScanCalls(ts, p, more)
  {
    hide Less, HasPrefix, ScanCalls, Stops;
    forall j | 0 <= j < i ensures !HasPrefix(ts[..i][j].term, p) {
      if HasPrefix(ts[j].term, p) { PrefixNotLess(ts[j].term, p); }
    }
    ScanNone(ts[..i], p, more);
    ScanJoin(ts[..i], ts[i..], p, more);
    assert ts == ts[..i] + ts[i..];
  }

  lemma NoneFollow(ts: seq<DictTerm>, i: nat, p: Term)
    requires Ordered(ts) && i < |ts| && !Less(ts[i].term, p) && !HasPrefix(ts[i].term, p)
    ensures forall j :: 0 <= j < |ts| - i ==> !HasPrefix(ts[i..][j].term, p)
  {
    hide Less;
    forall j | i <= j < |ts| ensures !HasPrefix(ts[j].term, p) {
      if j > i {
        LessTotal(ts[i].term, p);
        SelfPrefix(p);
        PastPrefix(ts[i].term, ts[j].term, p);
      }
    }
  }

  // ---- the block tree

  ghost predicate Chunked(cs: seq<seq<DictTerm>>) {
    && Ordered(Flatten(cs))
    && forall i :: 0 <= i < |cs| ==> cs[i] != [] && forall j :: 0 <= j < |cs[i]| ==> GoodTerm(cs[i][j])
  }

  lemma {:induction false} FlattenAt(cs: seq<seq<DictTerm>>, i: nat)
    requires i < |cs|
    ensures Flatten(cs) == Flatten(cs[..i]) + (cs[i] + Flatten(cs[i + 1..]))
    decreases |cs|
  {
    if i == 0 {
      assert cs[..0] == [];
    } else {
      FlattenAt(cs[1..], i - 1);
      assert cs[1..][..i - 1] == cs[..i][1..] && cs[1..][i..] == cs[i + 1..];
    }
  }

  lemma {:induction false} FlattenIn(cs: seq<seq<DictTerm>>, x: DictTerm) returns (i: nat, j: nat)
    requires x in Flatten(cs)
    ensures i < |cs| && j < |cs[i]| && cs[i][j] == x
    decreases |cs|
  {
    if x in cs[0] {
      i := 0;
      j :| 0 <= j < |cs[0]| && cs[0][j] == x;
    } else {
      i, j := FlattenIn(cs[1..], x);
      i := i + 1;
    }
  }

  /** Terms before block `i`, and after it, by their distance from its first term. */
  lemma AroundBlock(cs: seq<seq<DictTerm>>, i: nat)
    requires Chunked(cs) && i < |cs|
    ensures Ordered(cs[i])
    ensures forall j :: 0 <= j < |Flatten(cs[..i])| ==> Less(Flatten(cs[..i])[j].term, cs[i][0].term)
    ensures i + 1 < |cs| ==> forall j :: 0 <= j < |cs[i]| ==> Less(cs[i][j].term, cs[i + 1][0].term)
  {
    FlattenAt(cs, i);
    var all, a, c, b := Flatten(cs), Flatten(cs[..i]), cs[i], Flatten(cs[i + 1..]);
    hide Less, Flatten;
    forall j, k | 0 <= j < k < |c| ensures Less(c[j].term, c[k].term) {
      assert all[|a| + j] == c[j] && all[|a| + k] == c[k];
    }
    forall j | 0 <= j < |a| ensures Less(a[j].term, c[0].term) {
      assert all[j] == a[j] && all[|a|] == c[0];
    }
    if i + 1 < |cs| {
      FirstOf(cs, i + 1);
      forall j | 0 <= j < |c| ensures Less(c[j].term, b[0].term) {
        assert all[|a| + j] == c[j] && all[|a| + |c|] == b[0];
      }
    }
  }

  lemma FirstOf(cs: seq<seq<DictTerm>>, i: nat)
    requires Chunked(cs) && i < |cs|
    ensures |Flatten(cs[i..])| > 0 && Flatten(cs[i..])[0] == cs[i][0]
  {
    assert cs[i..][0] == cs[i];
  }

  class BlockTreeDict {
    const blocks: seq<Rec>
    const data: Bytes
    const z: Codec
    var cache: map<nat, Bytes>

    /** The tree holds the blocks `cs`. */
    ghost predicate Serves(cs: seq<seq<DictTerm>>) {
      && Inverse(z) && Chunked(cs) && |blocks| == |cs|
      && forall i :: 0 <= i < |cs| ==> (
           blocks[i].first == cs[i][0].term && blocks[i].offset + blocks[i].compLen <= |data|
           && data[blocks[i].offset..blocks[i].offset + blocks[i].compLen] == Comp(cs[i], z))
    }

    /** Every cached body is its block's, and there are at most 32. */
    ghost predicate Cached(cs: seq<seq<DictTerm>>)
      reads this
    {
      |cache| <= 32 && forall i :: i in cache ==> i < |cs| && cache[i] == RawOf(cs[i], [])
    }

    constructor (blocks: seq<Rec>, data: Bytes, z: Codec)
      ensures this.blocks == blocks && this.data == data && this.z == z && cache == map[]
    {
      this.blocks, this.data, this.z, cache := blocks, data, z, map[];
    }

    /** The last block whose first term is not after the term, or -1. */
    method BlockOf(t: Term, ghost cs: seq<seq<DictTerm>>) returns (i: int)
      requires Serves(cs)
      ensures -1 <= i < |blocks|
      ensures i >= 0 ==> !Less(t, blocks[i].first)
      ensures i + 1 < |blocks| ==> Less(t, blocks[i + 1].first)
    {
      hide Less, RawOf, Flatten;
      var lo, hi := 0, |blocks|;
      while lo < hi
        invariant 0 <= lo <= hi <= |blocks|
        invariant lo > 0 ==> !Less(t, blocks[lo - 1].first)
        invariant hi < |blocks| ==> Less(t, blocks[hi].first)
      {
        var mid := (lo + hi) / 2;
        if !Less(t, blocks[mid].first) {
          lo := mid + 1;
        } else {
          hi := mid;
        }
      }
      i := lo - 1;
    }

    method DecodeBlock(i: nat, ghost cs: seq<seq<DictTerm>>) returns (body: Bytes)
      requires Serves(cs) && Cached(cs) && i < |blocks|
      modifies this`cache
      ensures Cached(cs) && body == RawOf(cs[i], [])
    {
      hide Chunked, RawOf, Comp, Inverse;
      if i in cache {
        return cache[i];
      }
      body := ReadBlock(i, cs);
      cache := Remember(cache, i, body);
    }

    method ReadBlock(i: nat, ghost cs: seq<seq<DictTerm>>) returns (body: Bytes)
      requires Serves(cs) && i < |blocks|
      ensures body == RawOf(cs[i], [])
    {
      hide Chunked, RawOf;
      var r := blocks[i];
      var p := z.dec(data[r.offset..r.offset + r.compLen]);
      body := p.value;
    }

    method Lookup(t: Term, ghost cs: seq<seq<DictTerm>>) returns (r: Found)
      requires Serves(cs) && Cached(cs)
      modifies this`cache
      ensures Cached(cs) && r == Find(Flatten(cs), t)
    {
      hide Less, RawOf, Flatten, DecodeTerm;
      var i := BlockOf(t, cs);
      LookupBlock(cs, i, t);
      if i < 0 {
        return Missing;
      }
      var body := DecodeBlock(i, cs);
      r := ScanFor(body, t, cs[i]);
    }

    /** The calls `PrefixScan` makes, block after block. */
    method PrefixScan(p: Term, more: DictTerm -> bool, ghost cs: seq<seq<DictTerm>>) returns (calls: seq<DictTerm>)
      requires Serves(cs) && Cached(cs)
      modifies this`cache
      ensures Cached(cs) && calls == ScanCalls(Flatten(cs), p, more)
    {
      hide Less, RawOf, Flatten, DecodeTerm, HasPrefix, ScanCalls, Stops;
      var b := BlockOf(p, cs);
      var i := Max(b, 0);
      calls := [];
      ScanStart(cs, i, p, more);
      var stop := false;
      while i < |blocks| && !stop
        invariant 0 <= i <= |blocks| && Cached(cs)
        invariant !stop ==> calls + ScanCalls(Flatten(cs[i..]), p, more) == ScanCalls(Flatten(cs), p, more)
        invariant stop ==> calls == ScanCalls(Flatten(cs), p, more)
        decreases |blocks| - i
      {
        var body := DecodeBlock(i, cs);
        var found;
        ScanBlockJoin(cs, i, p, more);
        BlockOrdered(cs, i);
        found, stop := ScanBody(body, p, more, cs[i], After(cs, i));
        calls := calls + found;
        i := i + 1;
      }
      if !stop { ScanEnd(cs, p, more); }
    }
  }

  /** The body joins the cache; a full cache gives up some block first. */
  method Remember(m: map<nat, Bytes>, i: nat, body: Bytes) returns (m': map<nat, Bytes>)
    requires |m| <= 32
    ensures |m'| <= 32 && i in m' && m'[i] == body
    ensures forall k :: k in m' ==> k == i || (k in m && m'[k] == m[k])
  {
    var kept := m;
    if |m| >= 32 {
      var k :| k in m;
      Dropped(m, k);
      kept := m - {k};
    }
    CacheGrows(kept, i, body);
    m' := kept[i := body];
  }

  lemma Dropped(m: map<nat, Bytes>, k: nat)
    requires k in m
    ensures |m - {k}| == |m| - 1
  {
    assert m.Keys == (m - {k}).Keys + {k};
  }

  lemma CacheGrows(m: map<nat, Bytes>, i: nat, body: Bytes)
    ensures |m[i := body]| <= |m| + 1
  {
    assert m[i := body].Keys == m.Keys + {i};
  }

  lemma LessThrough(a: Term, b: Term, c: Term)
    requires Less(a, b) && !Less(c, b)
    ensures Less(a, c)
  {
    LessTotal(b, c);
    if b != c { LessTransitive(a, b, c); }
  }

  /** Only the block `BlockOf` names can hold the term. */
  lemma LookupBlock(cs: seq<seq<DictTerm>>, i: int, t: Term)
    requires Chunked(cs) && -1 <= i < |cs|
    requires i >= 0 ==> !Less(t, cs[i][0].term)
    requires i + 1 < |cs| ==> Less(t, cs[i + 1][0].term)
    ensures i < 0 ==> Find(Flatten(cs), t) == Missing
    ensures i >= 0 ==> Find(Flatten(cs), t) == Find(cs[i], t) && Ordered(cs[i])
    ensures i >= 0 ==> forall j :: 0 <= j < |cs[i]| ==> GoodTerm(cs[i][j])
  {
    hide Less, Flatten;
    LessIrreflexive(t);
    if i + 1 < |cs| {
      AroundBlock(cs, i + 1);
      AfterFirst(cs, i + 1, t);
    }
    if i < 0 {
      assert cs[0..] == cs;
      if |cs| == 0 { FlattenNone(); }
    } else {
      AroundBlock(cs, i);
      var a, b := Flatten(cs[..i]), Flatten(cs[i + 1..]);
      FlattenAt(cs, i);
      forall j | 0 <= j < |a| ensures a[j].term != t {
        LessThrough(a[j].term, cs[i][0].term, t);
      }
      FindNone(a, t);
      FindJoin(a, cs[i] + b, t);
      FindJoin(cs[i], b, t);
      if i + 1 == |cs| {
        assert cs[i + 1..] == [];
        FlattenNone();
      }
    }
  }

  lemma FlattenNone()
    ensures Flatten([]) == [] && forall t :: Find([], t) == Missing
  {
  }

  lemma AfterFirst(cs: seq<seq<DictTerm>>, i: nat, t: Term)
    requires Chunked(cs) && i < |cs| && Less(t, cs[i][0].term)
    ensures Find(Flatten(cs[i..]), t) == Missing
  {
    hide Less, Flatten;
    var b := Flatten(cs[i..]);
    FlattenAt(cs, i);
    assert Flatten(cs[i..]) == cs[i] + Flatten(cs[i + 1..]) by { FlattenHead(cs, i); }
    var all, a := Flatten(cs), Flatten(cs[..i]);
    LessIrreflexive(t);
    forall j | 0 <= j < |b| ensures b[j].term != t {
      assert all[|a|] == b[0] && all[|a| + j] == b[j];
      if j > 0 { LessTransitive(t, b[0].term, b[j].term); }
    }
    FindNone(b, t);
  }

  lemma FlattenHead(cs: seq<seq<DictTerm>>, i: nat)
    requires i < |cs|
    ensures Flatten(cs[i..]) == cs[i] + Flatten(cs[i + 1..])
  {
    assert cs[i..][1..] == cs[i + 1..];
  }

  /** The scan of one block body for one term, stopping past it. */
  method ScanFor(body: Bytes, t: Term, ghost c: seq<DictTerm>) returns (r: Found)
    requires Ordered(c) && body == RawOf(c, []) && forall j :: 0 <= j < |c| ==> GoodTerm(c[j])
    ensures r == Find(c, t)
  {
    hide Less, RawOf, DecodeTerm;
    var src, prev: Term := body, [];
    ghost var j: nat := 0;
    assert c[0..] == c;
    RawNone(prev);
    while src != []
      invariant j <= |c| && src == RawOf(c[j..], prev) && Find(c, t) == Find(c[j..], t)
      decreases |c| - j
    {
      RawAt(c, j, prev);
      match DecodeTerm(src, prev) {
        case Short => return Missing;
        case Parsed(x, rest) =>
          if x.term == t {
            return Found(x.entry);
          }
          if Less(t, x.term) {
            PastTerm(c, j, t);
            return Missing;
          }
          assert c[j..][1..] == c[j + 1..];
          src, prev := rest, x.term;
          j := j + 1;
      }
    }
    RawAt(c, j, prev);
    r := Missing;
  }

  lemma RawNone(prev: Term)
    ensures RawOf([], prev) == []
  {
  }

  lemma RawAt(c: seq<DictTerm>, j: nat, prev: Term)
    requires j <= |c| && forall j :: 0 <= j < |c| ==> GoodTerm(c[j])
    ensures j == |c| ==> RawOf(c[j..], prev) == [] && c[j..] == []
    ensures j < |c| ==> RawOf(c[j..], prev) != []
    ensures j < |c| ==> DecodeTerm(RawOf(c[j..], prev), prev) == Parsed(c[j], RawOf(c[j + 1..], c[j].term))
  {
    hide DecodeTerm, RawOf;
    if j < |c| {
      assert c[j..][1..] == c[j + 1..];
      RawNext(c[j..], prev);
    } else {
      assert c[j..] == [];
      RawNone(prev);
    }
  }

  lemma PastTerm(c: seq<DictTerm>, j: nat, t: Term)
    requires Ordered(c) && j < |c| && Less(t, c[j].term)
    ensures Find(c[j..], t) == Missing
  {
    hide Less;
    LessIrreflexive(t);
    forall k | j <= k < |c| ensures c[k].term != t {
      if k > j { LessTransitive(t, c[j].term, c[k].term); }
    }
    FindNone(c[j..], t);
  }

  /** The scan of one block body for a prefix: `stop` once nothing can follow. */
  method ScanBody(body: Bytes, p: Term, more: DictTerm -> bool, ghost c: seq<DictTerm>, ghost after: seq<DictTerm>)
    returns (found: seq<DictTerm>, stop: bool)
    requires Ordered(c + after) && body == RawOf(c, []) && forall j :: 0 <= j < |c| ==> GoodTerm(c[j])
    ensures stop ==> found == ScanCalls(c + after, p, more)
    ensures !stop ==> found + ScanCalls(after, p, more) == ScanCalls(c + after, p, more)
  {
    hide Less, RawOf, DecodeTerm, HasPrefix, ScanCalls;
    var src, prev: Term := body, [];
    ghost var j: nat := 0;
    found, stop := [], false;
    assert c[0..] == c;
    while src != []
      invariant j <= |c| && src == RawOf(c[j..], prev) && !stop
      invariant found + ScanCalls(c[j..] + after, p, more) == ScanCalls(c + after, p, more)
      decreases |c| - j
    {
      RawAt(c, j, prev);
      match DecodeTerm(src, prev) {
        case Short => return;
        case Parsed(x, rest) =>
          ScanNext(c, j, after, p, more);
          if HasPrefix(x.term, p) {
            found := found + [x];
            if !more(x) {
              stop := true;
              return;
            }
          } else if Less(p, x.term) {
            NoneAfter(c, j, after, p, more);
            stop := true;
            return;
          }
          src, prev := rest, x.term;
          j := j + 1;
      }
    }
    RawAt(c, j, prev);
    assert c[j..] + after == after;
  }

  lemma ScanNext(c: seq<DictTerm>, j: nat, after: seq<DictTerm>, p: Term, more: DictTerm -> bool)
    requires j < |c|
    ensures var tail := ScanCalls(c[j + 1..] + after, p, more);
      ScanCalls(c[j..] + after, p, more)
      == if !HasPrefix(c[j].term, p) then tail else if more(c[j]) then [c[j]] + tail else [c[j]]
  {
    hide HasPrefix;
    assert (c[j..] + after)[1..] == c[j + 1..] + after;
    assert [c[j]] + [] == [c[j]];
  }

  lemma NoneAfter(c: seq<DictTerm>, j: nat, after: seq<DictTerm>, p: Term, more: DictTerm -> bool)
    requires j < |c| && Ordered(c + after) && Less(p, c[j].term) && !HasPrefix(c[j].term, p)
    ensures ScanCalls(c[j..] + after, p, more) == []
  {
    hide Less, HasPrefix;
    var all := c + after;
    assert all[j..] == c[j..] + after && all[j] == c[j];
    LessOrder(p, c[j].term);
    NoneFollow(all, j, p);
    ScanNone(all[j..], p, more);
  }

  lemma ScanStart(cs: seq<seq<DictTerm>>, i: nat, p: Term, more: DictTerm -> bool)
    requires Chunked(cs) && i <= |cs| && (i == |cs| ==> i == 0) && (i > 0 ==> !Less(p, cs[i][0].term))
    ensures ScanCalls(Flatten(cs[i..]), p, more) == ScanCalls(Flatten(cs), p, more)
  {
    hide Less, HasPrefix, Flatten, ScanCalls, Stops;
    if i == 0 {
      assert cs[0..] == cs;
    } else {
      AroundBlock(cs, i);
      FlattenAt(cs, i);
      FlattenHead(cs, i);
      var a := Flatten(cs[..i]);
      forall j | 0 <= j < |a| ensures !HasPrefix(a[j].term, p) {
        LessThrough(a[j].term, cs[i][0].term, p);
        if HasPrefix(a[j].term, p) { PrefixNotLess(a[j].term, p); }
      }
      ScanNone(a, p, more);
      ScanJoin(a, Flatten(cs[i..]), p, more);
    }
  }

  ghost function After(cs: seq<seq<DictTerm>>, i: nat): seq<DictTerm>
    requires i < |cs|
  {
    if i + 1 < |cs| then Flatten(cs[i + 1..]) else []
  }

  lemma ScanBlockJoin(cs: seq<seq<DictTerm>>, i: nat, p: Term, more: DictTerm -> bool)
    requires Chunked(cs) && i < |cs|
    ensures Flatten(cs[i..]) == cs[i] + After(cs, i) && Flatten(cs[i + 1..]) == After(cs, i)
  {
    hide Less, HasPrefix;
    FlattenHead(cs, i);
    if i + 1 == |cs| { FlattenNone(); }
  }

  lemma BlockOrdered(cs: seq<seq<DictTerm>>, i: nat)
    requires Chunked(cs) && i < |cs|
    ensures Ordered(cs[i] + After(cs, i))
    ensures forall j :: 0 <= j < |cs[i]| ==> GoodTerm(cs[i][j])
  {
    hide Less, Flatten;
    FlattenAt(cs, i);
    if i + 1 == |cs| { FlattenNone(); }
    var a, b := Flatten(cs[..i]), cs[i] + After(cs, i);
    var all := Flatten(cs);
    forall j, k | 0 <= j < k < |b| ensures Less(b[j].term, b[k].term) {
      assert all[|a| + j] == b[j] && all[|a| + k] == b[k];
    }
  }

  lemma ScanEnd(cs: seq<seq<DictTerm>>, p: Term, more: DictTerm -> bool)
    ensures ScanCalls(Flatten(cs[|cs|..]), p, more) == []
  {
    FlattenNone();
  }

  // ---- from bytes to dictionary

  ghost predicate Buildable(ts: seq<DictTerm>, size: nat, z: Codec) {
    && 0 < size < U64 && |ts| < U64 && Ordered(ts) && Inverse(z) && |TreeBytes(ts, size, z)| < U64
    && (forall i :: 0 <= i < |ts| ==> GoodTerm(ts[i]))
    && (forall r :: r in Recs(Chunk(ts, size), 0, z) ==> GoodRec(r))
  }

  lemma BuiltServes(ts: seq<DictTerm>, size: nat, z: Codec, i: nat)
    requires Buildable(ts, size, z) && i < |Chunk(ts, size)|
    ensures var cs := Chunk(ts, size); var r := Recs(cs, 0, z)[i]; var data := BlockBytes(cs, z);
      && r.first == cs[i][0].term && r.offset + r.compLen <= |data|
      && data[r.offset..r.offset + r.compLen] == Comp(cs[i], z)
  {
    hide Chunk, Recs, BlockBytes, Comp, TreeBytes, Ordered;
    var cs := Chunk(ts, size);
    BlockStands(cs, [], i, z);
    assert [] + BlockBytes(cs, z) == BlockBytes(cs, z);
  }

  lemma BuiltChunked(ts: seq<DictTerm>, size: nat, z: Codec)
    requires Buildable(ts, size, z)
    ensures Chunked(Chunk(ts, size)) && Flatten(Chunk(ts, size)) == ts
  {
    hide Chunk, Recs, TreeBytes, Less, Flatten;
    var cs := Chunk(ts, size);
    FlattenChunk(ts, size);
    forall i, j | 0 <= i < |cs| && 0 <= j < |cs[i]| ensures GoodTerm(cs[i][j]) {
      FlattenAt(cs, i);
      assert ts[|Flatten(cs[..i])| + j] == cs[i][j];
    }
  }

  /** Main result: a dictionary opened on the bytes `BuildBlockTree` wrote serves the very
      terms it was built from; its lookups and scans are then those of the sorted list. */
  method OpenDict(bytes: Bytes, z: Codec, ghost ts: seq<DictTerm>, ghost size: nat) returns (ok: bool, d: BlockTreeDict)
    requires size > 0
    ensures Buildable(ts, size, z) && bytes == TreeBytes(ts, size, z) ==>
      ok && d.Serves(Chunk(ts, size)) && d.Cached(Chunk(ts, size)) && Flatten(Chunk(ts, size)) == ts
  {
    hide Chunk, Recs, BlockBytes, Comp, TreeBytes, Ordered, Chunked, Flatten;
    var o := OpenBlockTree(bytes, ts, size, z);
    match o {
      case Malformed =>
        ok := false;
        d := new BlockTreeDict([], [], z);
      case Opened(n, blocks, data) =>
        ok := true;
        d := new BlockTreeDict(blocks, data, z);
    }
    if Buildable(ts, size, z) && bytes == TreeBytes(ts, size, z) {
      BuiltChunked(ts, size, z);
      forall i | 0 <= i < |Chunk(ts, size)|
        ensures var r := Recs(Chunk(ts, size), 0, z)[i]; var data := BlockBytes(Chunk(ts, size), z);
          && r.first == Chunk(ts, size)[i][0].term && r.offset + r.compLen <= |data|
          && data[r.offset..r.offset + r.compLen] == Comp(Chunk(ts, size)[i], z)
      {
        BuiltServes(ts, size, z, i);
      }
    }
  }
}
