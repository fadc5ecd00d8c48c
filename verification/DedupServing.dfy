/** The deduplicating query end to end (cluster.go): routed by its BM25 bounds, walked shard by
    shard through what searching the encoded lists promises, ranked one copy per document id. */
module DedupServing {
  import opened Digits
  import opened Keys
  import opened TopK
  import opened TermLists
  import opened Scoring
  import opened Routing
  import opened RouteQuery
  import opened Dedup
  import opened DedupSearch
  import Postings
  import Retrieval
  import Serving

  /** What a broker stands on: what each shard told the router, its documents, which of them are
      live, and the stable id of each. */
  datatype Corpus = Corpus(srcs: seq<Source>, shards: seq<seq<DocTerms>>, keep: seq<nat -> bool>, id: (nat, nat) -> Id)

  ghost predicate WellBuilt(c: Corpus) {
    && |c.srcs| == |c.shards| == |c.keep|
    && (forall s :: 0 <= s < |c.shards| ==>
          Serving.Describes(c.srcs[s], c.shards[s]) && Fits(c.shards[s]) && |c.shards[s]| < U32)
    && (forall s, d, e :: 0 <= s < |c.shards| && 0 <= d < e < |c.shards[s]| ==> c.id(s, d) != c.id(s, e))
  }

  /** BM25 with one IDF for each term of the whole corpus. */
  function Bm25s(idf: Term -> real, k1: real): Term -> Scorer
    requires k1 > 0.0
  {
    t => Bm25Scorer(idf(t), k1)
  }

  lemma Bm25sSteady(idf: Term -> real, k1: real)
    requires k1 > 0.0 && forall t :: idf(t) > 0.0
    ensures forall t :: Steady(Bm25s(idf, k1)(t))
  {
    hide Steady;
    forall t: Term ensures Steady(Bm25s(idf, k1)(t)) {
      Bm25Steady(idf(t), k1);
    }
  }

  /** Scoring every document of one shard. */
  ghost function HitsOf(c: Corpus, s: nat, q: seq<Term>, sc: Term -> Scorer): set<Retrieval.Hit>
    requires s < |c.shards| == |c.keep|
  {
    Serving.Scored(c.shards[s], q, sc, c.keep[s])
  }

  ghost function CopyOf(c: Corpus, s: nat, h: Retrieval.Hit): Entry {
    Entry(h.score, c.id(s, h.doc))
  }

  /** Every copy of every document holding a query term. */
  ghost function Copies(c: Corpus, q: seq<Term>, sc: Term -> Scorer): set<Entry>
    requires |c.shards| == |c.keep|
  {
    set s, h | 0 <= s < |c.shards| && h in HitsOf(c, s, q, sc) :: CopyOf(c, s, h)
  }

  /** Of those, the first 2k documents of each shard. */
  ghost function FirstCopies(c: Corpus, q: seq<Term>, sc: Term -> Scorer, k: nat): set<Entry>
    requires |c.shards| == |c.keep|
  {
    set s, h | 0 <= s < |c.shards| && h in Top(Retrieval.Better, HitsOf(c, s, q, sc), 2 * k) :: CopyOf(c, s, h)
  }

  /** What `Serving.SearchSeeded` ensures of every shard, asked for 2k. */
  ghost predicate Answers(c: Corpus, q: seq<Term>, sc: Term -> Scorer, k: nat,
                          search: (nat, real) -> seq<Retrieval.Hit>)
    requires |c.shards| == |c.keep|
  {
    forall s, seed :: 0 <= s < |c.shards| ==> Retrieval.SeededAnswer(search(s, seed), HitsOf(c, s, q, sc), 2 * k, seed)
  }

  ghost predicate RoutedTo(c: Corpus, q: seq<Term>, sc: Term -> Scorer, out: seq<ShardBound>) {
    && Ranked(BoundBetter, out)
    && forall b :: b in out <==>
      b.shard < |c.srcs| && HoldsAny(q, c.srcs[b.shard]) && b.bound == BoundOf(q, c.srcs[b.shard], sc)
  }

  function WalkOf(out: seq<ShardBound>, id: (nat, nat) -> Id): Walk {
    Walk(seq(|out|, i requires 0 <= i < |out| => out[i].shard), seq(|out|, i requires 0 <= i < |out| => out[i].bound),
         (i: nat, d: nat) => if i < |out| then id(out[i].shard, d) else [])
  }

  ghost function RouteOf(c: Corpus, q: seq<Term>, sc: Term -> Scorer, out: seq<ShardBound>): Route
    requires |c.shards| == |c.keep| && forall i :: 0 <= i < |out| ==> out[i].shard < |c.shards|
  {
    var w := WalkOf(out, c.id);
    Route(w.shards, w.bounds, seq(|out|, i requires 0 <= i < |out| => HitsOf(c, out[i].shard, q, sc)), w.id)
  }

  lemma RoutedShards(c: Corpus, q: seq<Term>, sc: Term -> Scorer, out: seq<ShardBound>)
    requires WellBuilt(c) && RoutedTo(c, q, sc, out)
    ensures forall i :: 0 <= i < |out| ==> out[i].shard < |c.shards|
  {
    hide HoldsAny, BoundOf, Ranked;
    forall i | 0 <= i < |out| ensures out[i].shard < |c.shards| {
      assert out[i] in out;
    }
  }

  /** The route meets what the walk requires. */
  lemma RouteSound(c: Corpus, q: seq<Term>, sc: Term -> Scorer, out: seq<ShardBound>)
    requires WellBuilt(c) && RoutedTo(c, q, sc, out) && forall t :: Steady(sc(t))
    ensures forall i :: 0 <= i < |out| ==> out[i].shard < |c.shards|
    ensures DedupSearch.Sound(RouteOf(c, q, sc, out))
  {
    hide HoldsAny, BoundOf, Ranked, Steady, Serving.Describes, Fits, HitsOf;
    RoutedShards(c, q, sc, out);
    var r := RouteOf(c, q, sc, out);
    forall i, j | 0 <= i < j < |out| ensures r.bounds[i] >= r.bounds[j] {
      Serving.RouteOrder(out, i, j);
    }
    forall i, h | 0 <= i < |out| && h in r.hits[i]
      ensures 0.0 < h.score <= r.bounds[i] && h.doc < |c.shards[out[i].shard]|
    {
      assert out[i] in out;
      HitBounded(c, out[i].shard, q, sc, h);
    }
    forall i, g, h | 0 <= i < |out| && g in r.hits[i] && h in r.hits[i] && g != h
      ensures r.id(i, g.doc) != r.id(i, h.doc)
    {
      HitNames(c, out[i].shard, q, sc, g, h);
    }
  }

  lemma HitBounded(c: Corpus, s: nat, q: seq<Term>, sc: Term -> Scorer, h: Retrieval.Hit)
    requires WellBuilt(c) && s < |c.shards| && (forall t :: Steady(sc(t))) && h in HitsOf(c, s, q, sc)
    ensures 0.0 < h.score <= BoundOf(q, c.srcs[s], sc) && HoldsAny(q, c.srcs[s]) && h.doc < |c.shards[s]|
  {
    hide Serving.Describes, BoundOf, HoldsAny, Steady, Fits;
    Serving.ShardBounded(c.srcs[s], c.shards[s], q, sc, c.keep[s], h);
  }

  lemma HitNames(c: Corpus, s: nat, q: seq<Term>, sc: Term -> Scorer, g: Retrieval.Hit, h: Retrieval.Hit)
    requires WellBuilt(c) && s < |c.shards| && g in HitsOf(c, s, q, sc) && h in HitsOf(c, s, q, sc) && g != h
    ensures c.id(s, g.doc) != c.id(s, h.doc)
  {
    hide Serving.Describes, Fits, ScoreOf, Serving.Asked;
    assert g.doc != h.doc;
    assert g.doc < h.doc || h.doc < g.doc;
  }

  /** A shard with a hit is routed to. */
  lemma HitRouted(c: Corpus, q: seq<Term>, sc: Term -> Scorer, out: seq<ShardBound>, s: nat, h: Retrieval.Hit)
    returns (i: nat)
    requires WellBuilt(c) && RoutedTo(c, q, sc, out) && forall t :: Steady(sc(t))
    requires s < |c.shards| && h in HitsOf(c, s, q, sc)
    ensures i < |out| && out[i].shard == s
  {
    hide HoldsAny, BoundOf, Ranked, Steady, HitsOf;
    HitBounded(c, s, q, sc, h);
    var b := ShardBound(s, BoundOf(q, c.srcs[s], sc));
    assert b in out;
    i :| 0 <= i < |out| && out[i] == b;
  }

  lemma RouteAt(c: Corpus, q: seq<Term>, sc: Term -> Scorer, out: seq<ShardBound>, i: nat, h: Retrieval.Hit)
    requires |c.shards| == |c.keep| && i < |out| && forall i :: 0 <= i < |out| ==> out[i].shard < |c.shards|
    ensures var r := RouteOf(c, q, sc, out); i < |r.hits| && r.hits[i] == HitsOf(c, out[i].shard, q, sc)
    ensures Entry(h.score, RouteOf(c, q, sc, out).id(i, h.doc)) == CopyOf(c, out[i].shard, h)
  {
    hide HitsOf;
  }

  /** So what the route holds is what all shards hold. */
  lemma RouteCopies(c: Corpus, q: seq<Term>, sc: Term -> Scorer, out: seq<ShardBound>, r: Route, e: Entry)
    requires WellBuilt(c) && RoutedTo(c, q, sc, out) && (forall t :: Steady(sc(t)))
    requires forall i :: 0 <= i < |out| ==> out[i].shard < |c.shards|
    requires r == RouteOf(c, q, sc, out) && |r.hits| == |out|
    ensures e in Entries(r, |r.hits|) <==> e in Copies(c, q, sc)
  {
    hide RoutedTo, Steady, HitsOf, RouteOf, Serving.Describes, Fits;
    if e in Entries(r, |r.hits|) {
      var i, x :| 0 <= i < |r.hits| && x in ShardEntries(r, i) && x == e;
      var h :| h in r.hits[i] && e == Entry(h.score, r.id(i, h.doc));
      RouteAt(c, q, sc, out, i, h);
    }
    if e in Copies(c, q, sc) {
      var s, h :| 0 <= s < |c.shards| && h in HitsOf(c, s, q, sc) && e == CopyOf(c, s, h);
      var i := HitRouted(c, q, sc, out, s, h);
      RouteAt(c, q, sc, out, i, h);
      assert e in ShardEntries(r, i);
    }
  }

  /** And what it lists is what all shards list. */
  lemma RouteLists(c: Corpus, q: seq<Term>, sc: Term -> Scorer, out: seq<ShardBound>, r: Route, k: nat, e: Entry)
    requires WellBuilt(c) && RoutedTo(c, q, sc, out) && (forall t :: Steady(sc(t)))
    requires forall i :: 0 <= i < |out| ==> out[i].shard < |c.shards|
    requires r == RouteOf(c, q, sc, out) && |r.hits| == |out|
    ensures e in DedupSearch.Listed(r, |r.hits|, k) <==> e in FirstCopies(c, q, sc, k)
  {
    hide RoutedTo, Steady, HitsOf, RouteOf, Serving.Describes, Fits, Top;
    if e in DedupSearch.Listed(r, |r.hits|, k) {
      var i, x :| 0 <= i < |r.hits| && x in ShardTop(r, i, k) && x == e;
      var h :| h in Top(Retrieval.Better, r.hits[i], 2 * k) && e == Entry(h.score, r.id(i, h.doc));
      RouteAt(c, q, sc, out, i, h);
    }
    if e in FirstCopies(c, q, sc, k) {
      var s, h :| 0 <= s < |c.shards| && h in Top(Retrieval.Better, HitsOf(c, s, q, sc), 2 * k) && e == CopyOf(c, s, h);
      TopIn(HitsOf(c, s, q, sc), 2 * k, h);
      var i := HitRouted(c, q, sc, out, s, h);
      RouteAt(c, q, sc, out, i, h);
      assert e in ShardTop(r, i, k);
    }
  }

  lemma RouteEntries(c: Corpus, q: seq<Term>, sc: Term -> Scorer, out: seq<ShardBound>, k: nat)
    requires WellBuilt(c) && RoutedTo(c, q, sc, out) && forall t :: Steady(sc(t))
    ensures |c.shards| == |c.keep| && forall i :: 0 <= i < |out| ==> out[i].shard < |c.shards|
    ensures var r := RouteOf(c, q, sc, out);
      Entries(r, |r.hits|) == Copies(c, q, sc) && DedupSearch.Listed(r, |r.hits|, k) == FirstCopies(c, q, sc, k)
  {
    RoutedShards(c, q, sc, out);
    var r := RouteOf(c, q, sc, out);
    assert |r.hits| == |out|;
    hide RoutedTo, Steady, HitsOf, RouteOf, Serving.Describes, Fits, Entries, Copies, DedupSearch.Listed, FirstCopies;
    forall e ensures e in Entries(r, |r.hits|) <==> e in Copies(c, q, sc) {
      RouteCopies(c, q, sc, out, r, e);
    }
    forall e ensures e in DedupSearch.Listed(r, |r.hits|, k) <==> e in FirstCopies(c, q, sc, k) {
      RouteLists(c, q, sc, out, r, k, e);
    }
  }

  lemma TopIn(s: set<Retrieval.Hit>, k: nat, h: Retrieval.Hit)
    requires h in Top(Retrieval.Better, s, k)
    ensures h in s
  {
    hide Retrieval.Better;
  }

  /** `SearchWith`. Over every document of every shard the reply has the scores of the exhaustive
      ranking; it is the ranking of each shard's first 2k documents, whatever seeds and stops did;
      and it is the exhaustive ranking exactly when that cut loses none of its entries. */
  method SearchWith(ri: RoutingIndex, q: seq<Term>, k: int, idf: Term -> real, k1: real, noSeed: bool,
                    id: (nat, nat) -> Id,
                    opens: nat -> bool, search: (nat, real) -> seq<Retrieval.Hit>, ghost c: Corpus)
    returns (reply: Reply)
    requires WellBuilt(c) && Routes(ri, c.srcs) && c.id == id && k1 > 0.0 && forall t :: idf(t) > 0.0
    requires k > 0 ==> Answers(c, q, Bm25s(idf, k1), k, search)
    ensures k <= 0 ==> reply == Found([], 0)
    ensures (forall s :: 0 <= s < |c.shards| ==> opens(s)) ==> reply.Found?
    ensures k > 0 && reply.Found? ==>
      var all, first := Copies(c, q, Bm25s(idf, k1)), FirstCopies(c, q, Bm25s(idf, k1), k);
      && ScoreExact(Es(reply.cands), all, k)
      && Es(reply.cands) == Reference(first, k)
      && (Es(reply.cands) == Reference(all, k) <==> forall e :: e in Reference(all, k) ==> e in first)
  {
    hide Routes, Answers, WellBuilt, RouteOf, RoutedTo, Ranked, HoldsAny, BoundOf, DedupSearch.Sound, ScoreExact,
      Reference, Copies, FirstCopies, Bm25s, Steady, Entries, DedupSearch.Listed, Overfull, Genuine;
    if k <= 0 {
      return Found([], 0);
    }
    var sc := Bm25s(idf, k1);
    Bm25sSteady(idf, k1);
    var out := RouteWith(ri, q, sc, c.srcs);
    assert RoutedTo(c, q, sc, out) by { IsRouted(c, q, sc, out); }
    RouteSound(c, q, sc, out);
    RouteEntries(c, q, sc, out, k);
    RouteShape(c, q, sc, out);
    AnswersRoute(c, q, sc, out, k, search);
    var w := WalkOf(out, id);
    var threshold;
    reply, threshold := SearchBounds(w, k, noSeed, opens, (i: nat, seed: real) =>
      if i < |out| then search(out[i].shard, seed) else [], RouteOf(c, q, sc, out));
  }

  lemma IsRouted(c: Corpus, q: seq<Term>, sc: Term -> Scorer, out: seq<ShardBound>)
    requires Ranked(BoundBetter, out)
    requires forall b :: b in out <==>
      b.shard < |c.srcs| && HoldsAny(q, c.srcs[b.shard]) && b.bound == BoundOf(q, c.srcs[b.shard], sc)
    ensures RoutedTo(c, q, sc, out)
  {
  }

  lemma RouteShape(c: Corpus, q: seq<Term>, sc: Term -> Scorer, out: seq<ShardBound>)
    requires |c.shards| == |c.keep| && forall i :: 0 <= i < |out| ==> out[i].shard < |c.shards|
    ensures var r := RouteOf(c, q, sc, out);
      && Walks(WalkOf(out, c.id), r) && |r.hits| == |r.shards| == |out|
      && forall i :: 0 <= i < |out| ==> r.shards[i] == out[i].shard
  {
  }

  lemma AnswersRoute(c: Corpus, q: seq<Term>, sc: Term -> Scorer, out: seq<ShardBound>, k: nat,
                     search: (nat, real) -> seq<Retrieval.Hit>)
    requires |c.shards| == |c.keep| && forall i :: 0 <= i < |out| ==> out[i].shard < |c.shards|
    requires Answers(c, q, sc, k, search)
    ensures Searches(RouteOf(c, q, sc, out), k,
      (i: nat, seed: real) => if i < |out| then search(out[i].shard, seed) else [])
  {
    hide HitsOf, Retrieval.SeededAnswer;
  }

  /** One shard searched as the walk needs it, through its encoded lists. */
  method SearchShard(m: map<Term, Postings.List>, q: seq<Term>, k: nat, idf: Term -> real, k1: real, keep: nat -> bool,
                     seed: real, ghost c: Corpus, ghost s: nat)
    returns (hits: seq<Retrieval.Hit>)
    requires WellBuilt(c) && s < |c.shards| && c.keep[s] == keep && Serving.Stores(m, c.shards[s])
    requires k > 0 && k1 > 0.0 && forall t :: idf(t) > 0.0
    ensures Retrieval.SeededAnswer(hits, HitsOf(c, s, q, Bm25s(idf, k1)), 2 * k, seed)
  {
    hide Serving.Stores, Serving.Describes, Retrieval.SeededAnswer, Serving.Scored, Bm25s;
    var sc := Bm25s(idf, k1);
    Bm25sSteady(idf, k1);
    hits := Serving.SearchSeeded(m, q, 2 * k, sc, keep, seed, c.shards[s]);
  }

  // ---- the same shards behind one broker and behind many

  /** Leaf `l` holds the shards `at[l]` of the whole, and no shard is left out. */
  ghost predicate Parts(whole: Corpus, leaves: seq<Corpus>, at: seq<seq<nat>>) {
    && |at| == |leaves|
    && (forall l, j :: 0 <= l < |leaves| && 0 <= j < |leaves[l].shards| ==> Dealt(whole, leaves[l], at[l], j))
    && (forall s :: 0 <= s < |whole.shards| ==> Placed(whole, leaves, at, s))
  }

  ghost predicate Placed(whole: Corpus, leaves: seq<Corpus>, at: seq<seq<nat>>, s: nat)
    requires |at| == |leaves|
  {
    exists l, j :: 0 <= l < |leaves| && 0 <= j < |leaves[l].shards| && j < |at[l]| && at[l][j] == s
  }

  ghost predicate Dealt(whole: Corpus, leaf: Corpus, at: seq<nat>, j: nat) {
    j < |at| && PartAt(whole, leaf, at[j], j)
  }

  ghost predicate PartAt(whole: Corpus, leaf: Corpus, s: nat, j: nat) {
    && s < |whole.shards| && |whole.srcs| == |whole.shards| == |whole.keep|
    && j < |leaf.shards| && |leaf.srcs| == |leaf.shards| == |leaf.keep|
    && leaf.srcs[j] == whole.srcs[s] && leaf.shards[j] == whole.shards[s] && leaf.keep[j] == whole.keep[s]
    && forall d :: leaf.id(j, d) == whole.id(s, d)
  }

  /** A shard routed by its leaf is routed by the whole, and the other way about. */
  lemma PartRouted(whole: Corpus, leaf: Corpus, q: seq<Term>, sc: Term -> Scorer, out: seq<ShardBound>,
                   part: seq<ShardBound>, s: nat, j: nat)
    requires RoutedTo(whole, q, sc, out) && RoutedTo(leaf, q, sc, part) && PartAt(whole, leaf, s, j)
    ensures (exists i :: 0 <= i < |out| && out[i].shard == s) <==> (exists i :: 0 <= i < |part| && part[i].shard == j)
  {
    hide HoldsAny, BoundOf, Ranked;
    if i :| 0 <= i < |out| && out[i].shard == s {
      assert out[i] in out;
      assert ShardBound(j, BoundOf(q, leaf.srcs[j], sc)) in part;
    }
    if i :| 0 <= i < |part| && part[i].shard == j {
      assert part[i] in part;
      assert ShardBound(s, BoundOf(q, whole.srcs[s], sc)) in out;
    }
  }

  ghost predicate AllRouted(whole: Corpus, leaves: seq<Corpus>, q: seq<Term>, sc: Term -> Scorer, out: seq<ShardBound>,
                            outs: seq<seq<ShardBound>>) {
    && WellBuilt(whole) && RoutedTo(whole, q, sc, out) && |outs| == |leaves|
    && forall l :: 0 <= l < |leaves| ==> WellBuilt(leaves[l]) && RoutedTo(leaves[l], q, sc, outs[l])
  }

  ghost function LeafRoutes(leaves: seq<Corpus>, q: seq<Term>, sc: Term -> Scorer,
                            outs: seq<seq<ShardBound>>): seq<Route>
    requires |outs| == |leaves|
    requires forall l :: 0 <= l < |leaves| ==> |leaves[l].shards| == |leaves[l].keep|
    requires forall l, i :: 0 <= l < |leaves| && 0 <= i < |outs[l]| ==> outs[l][i].shard < |leaves[l].shards|
  {
    seq(|leaves|, l requires 0 <= l < |leaves| => RouteOf(leaves[l], q, sc, outs[l]))
  }

  lemma SameAsPart(whole: Corpus, leaf: Corpus, q: seq<Term>, sc: Term -> Scorer, out: seq<ShardBound>,
                   part: seq<ShardBound>, i: nat, j: nat)
    requires WellBuilt(whole) && RoutedTo(whole, q, sc, out) && WellBuilt(leaf) && RoutedTo(leaf, q, sc, part)
    requires i < |out| && j < |part| && PartAt(whole, leaf, out[i].shard, part[j].shard)
    ensures (forall i :: 0 <= i < |out| ==> out[i].shard < |whole.shards|)
    ensures (forall j :: 0 <= j < |part| ==> part[j].shard < |leaf.shards|)
    ensures var r, s := RouteOf(whole, q, sc, out), RouteOf(leaf, q, sc, part);
      i < |r.hits| && j < |s.hits| && SameShard(r, i, s, j)
  {
    RoutedShards(whole, q, sc, out);
    RoutedShards(leaf, q, sc, part);
    SameHits(whole, leaf, q, sc, out[i].shard, part[j].shard);
    hide RoutedTo, WellBuilt, HitsOf;
  }

  lemma SameHits(whole: Corpus, leaf: Corpus, q: seq<Term>, sc: Term -> Scorer, s: nat, j: nat)
    requires PartAt(whole, leaf, s, j)
    ensures HitsOf(whole, s, q, sc) == HitsOf(leaf, j, q, sc)
  {
  }

  /** However shards are dealt out to leaves, the leaves route what one broker would: so by
      `DedupSearch.SearchFleet` the fleet returns what that broker returns. */
  lemma FleetSplits(whole: Corpus, leaves: seq<Corpus>, at: seq<seq<nat>>, q: seq<Term>, sc: Term -> Scorer,
                    out: seq<ShardBound>, outs: seq<seq<ShardBound>>)
    requires Parts(whole, leaves, at) && AllRouted(whole, leaves, q, sc, out, outs)
    ensures forall i :: 0 <= i < |out| ==> out[i].shard < |whole.shards|
    ensures forall l, i :: 0 <= l < |leaves| && 0 <= i < |outs[l]| ==> outs[l][i].shard < |leaves[l].shards|
    ensures Splits(RouteOf(whole, q, sc, out), LeafRoutes(leaves, q, sc, outs))
  {
    hide RoutedTo, SameShard, PartAt, HitsOf, Ranked;
    RoutedShards(whole, q, sc, out);
    forall l | 0 <= l < |leaves| ensures forall i :: 0 <= i < |outs[l]| ==> outs[l][i].shard < |leaves[l].shards| {
      RoutedShards(leaves[l], q, sc, outs[l]);
    }
    var r, rs := RouteOf(whole, q, sc, out), LeafRoutes(leaves, q, sc, outs);
    forall i | 0 <= i < |r.hits| ensures InLeaves(r, i, rs) {
      var s := out[i].shard;
      assert Placed(whole, leaves, at, s);
      var l, j :| 0 <= l < |leaves| && 0 <= j < |leaves[l].shards| && j < |at[l]| && at[l][j] == s;
      assert Dealt(whole, leaves[l], at[l], j);
      PartRouted(whole, leaves[l], q, sc, out, outs[l], s, j);
      var n :| 0 <= n < |outs[l]| && outs[l][n].shard == j;
      SameAsPart(whole, leaves[l], q, sc, out, outs[l], i, n);
      assert rs[l] == RouteOf(leaves[l], q, sc, outs[l]) && SameShard(r, i, rs[l], n);
    }
    forall l, n | 0 <= l < |rs| && 0 <= n < |rs[l].hits| ensures InWhole(r, rs[l], n) {
      assert rs[l] == RouteOf(leaves[l], q, sc, outs[l]) && n < |outs[l]|;
      var j := outs[l][n].shard;
      assert Dealt(whole, leaves[l], at[l], j);
      var s := at[l][j];
      PartRouted(whole, leaves[l], q, sc, out, outs[l], s, j);
      var i :| 0 <= i < |out| && out[i].shard == s;
      SameAsPart(whole, leaves[l], q, sc, out, outs[l], i, n);
    }
  }
}
