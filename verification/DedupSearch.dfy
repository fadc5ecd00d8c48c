/** The deduplicating bound walk of one broker (cluster.go) and the merge over brokers
    (aggregator.go), as they run: folding hits into one best copy per document id. */
module DedupSearch {
  import opened Digits
  import opened Keys
  import opened TopK
  import opened Dedup
  import Retrieval

  datatype Cand = Cand(score: real, shard: nat, dense: nat, id: Id)

  function E(c: Cand): Entry {
    Entry(c.score, c.id)
  }

  /** `clusterCand.better`, and `betterResult`. */
  predicate CandBetter(a: Cand, b: Cand) {
    Better(E(a), E(b))
  }

  function Es(cs: seq<Cand>): (r: seq<Entry>)
    ensures |r| == |cs| && forall i :: 0 <= i < |cs| ==> r[i] == E(cs[i])
  {
    seq(|cs|, i requires 0 <= i < |cs| => E(cs[i]))
  }

  // ---- the best-copy map

  /** The map holds the best copy of every id folded in so far. */
  ghost predicate Holds(best: map<Id, Cand>, f: set<Entry>) {
    && (forall id :: id in best ==> best[id].id == id && E(best[id]) in f)
    && (forall e :: e in f ==> e.id in best && e.score <= best[e.id].score)
  }

  method Fold(best: map<Id, Cand>, c: Cand, ghost f: set<Entry>) returns (best': map<Id, Cand>)
    requires Holds(best, f)
    ensures Holds(best', f + {E(c)})
    ensures forall id :: id in best' ==> (id in best && best'[id] == best[id]) || best'[id] == c
  {
    best' := best;
    if c.id !in best || CandBetter(c, best[c.id]) {
      best' := best[c.id := c];
    }
    LessIrreflexive(c.id);
  }

  lemma EsJoin(a: seq<Cand>, b: seq<Cand>)
    ensures Es(a + b) == Es(a) + Es(b)
  {
  }

  lemma {:induction false} InsertCand(out: seq<Cand>, c: Cand)
    ensures Es(Insert(CandBetter, out, c)) == Insert(Better, Es(out), E(c))
    decreases |out|
  {
    hide Better, Es;
    EsOne(c);
    if out == [] {
      EsNone();
    } else {
      EsJoin([out[0]], out[1..]);
      EsOne(out[0]);
      assert out == [out[0]] + out[1..];
      assert Es(out)[0] == E(out[0]) && Es(out)[1..] == Es(out[1..]);
      if CandBetter(c, out[0]) {
        EsJoin([c], out);
      } else {
        InsertCand(out[1..], c);
        EsJoin([out[0]], Insert(CandBetter, out[1..], c));
      }
    }
  }

  lemma EsOne(c: Cand)
    ensures Es([c]) == [E(c)]
  {
  }

  lemma EsNone()
    ensures Es([]) == []
  {
  }

  lemma {:induction false} InsertIn(out: seq<Cand>, c: Cand, d: Cand)
    ensures d in Insert(CandBetter, out, c) <==> d in out || d == c
    decreases |out|
  {
    if out != [] && !CandBetter(c, out[0]) {
      InsertIn(out[1..], c, d);
      assert out == [out[0]] + out[1..];
    }
  }

  /** The values of the map, whatever order it hands them out in, sorted. */
  method RankAll(best: map<Id, Cand>, ghost f: set<Entry>) returns (ranked: seq<Cand>)
    requires Holds(best, f)
    ensures Ranked(Better, Es(ranked)) && Elements(Es(ranked)) == BestOf(f) && |ranked| == |best|
    ensures forall c :: c in ranked ==> c.id in best && best[c.id] == c
  {
    hide Better;
    BetterTotal();
    ranked := [];
    var left := best.Keys;
    ghost var done := {};
    assert Elements(Es(ranked)) == done;
    while left != {}
      invariant left <= best.Keys && |ranked| + |left| == |best.Keys|
      invariant done == set id | id in best && id !in left :: E(best[id])
      invariant Ranked(Better, Es(ranked)) && Elements(Es(ranked)) == done
      invariant forall c :: c in ranked ==> c.id in best && best[c.id] == c
      decreases |left|
    {
      var id :| id in left;
      var c := best[id];
      assert E(c) !in Es(ranked) by {
        assert E(c) in Es(ranked) <==> E(c) in Elements(Es(ranked));
      }
      InsertCand(ranked, c);
      forall d ensures d in Insert(CandBetter, ranked, c) <==> d in ranked || d == c {
        InsertIn(ranked, c, d);
      }
      InsertRanked(Better, Es(ranked), E(c));
      ranked := Insert(CandBetter, ranked, c);
      left := left - {id};
      done := done + {E(c)};
    }
    HoldsBest(best, f);
  }

  lemma HoldsBest(best: map<Id, Cand>, f: set<Entry>)
    requires Holds(best, f)
    ensures BestOf(f) == set id | id in best :: E(best[id])
  {
    forall e | e in BestOf(f) ensures e == E(best[e.id]) {
    }
  }

  method Cut(ranked: seq<Cand>, k: nat, ghost f: set<Entry>) returns (out: seq<Cand>)
    requires Ranked(Better, Es(ranked)) && Elements(Es(ranked)) == BestOf(f)
    ensures IsTop(Better, Es(out), BestOf(f), k) && forall c :: c in out ==> c in ranked
  {
    hide Better;
    BetterTotal();
    RankedPrefix(Better, Es(ranked), k);
    out := if |ranked| > k then ranked[..k] else ranked;
    assert Es(out) == if |ranked| > k then Es(ranked)[..k] else Es(ranked);
  }

  /** `kthDistinct`: the k-th best score over distinct ids. */
  method KthDistinct(best: map<Id, Cand>, k: nat, ghost f: set<Entry>) returns (th: real, ok: bool)
    requires Holds(best, f) && k > 0
    ensures ok <==> |best| >= k
    ensures ok ==> Crowded(f, k, th) && (forall t :: t > th ==> !Crowded(f, k, t))
    ensures ok ==> exists e :: e in f && e.score == th
    ensures ok <==> |Reference(f, k)| == k
    ensures ok ==> th == Reference(f, k)[k - 1].score
  {
    hide Better, Holds, BestOf, Reference;
    ReferenceSize(best, f, k);
    if |best| < k {
      return 0.0, false;
    }
    // The scores, descending: the map's values in rank order.
    var ranked := RankAll(best, f);
    th, ok := ranked[k - 1].score, true;
    BetterTotal();
    RankedPrefix(Better, Es(ranked), k);
    ghost var top := Es(ranked)[..k];
    assert |Es(ranked)| == k ==> top == Es(ranked);
    ExactAnswerUnique(Better, top, Reference(f, k), BestOf(f), k) by { ReferenceIsTop(f, k); }
    forall t ensures Crowded(f, k, t) <==> th >= t {
      PlaceCount(top, BestOf(f), k, k - 1, t);
      HighIs(f, t);
    }
    assert Es(ranked)[k - 1] in Elements(Es(ranked));
    BestIn(f);
  }

  lemma ReferenceIsTop(f: set<Entry>, k: nat)
    requires k > 0
    ensures IsTop(Better, Reference(f, k), BestOf(f), k)
  {
  }

  lemma ReferenceSize(best: map<Id, Cand>, f: set<Entry>, k: nat)
    requires Holds(best, f) && k > 0
    ensures |Reference(f, k)| == if |best| < k then |best| else k
  {
    hide Reference, Better;
    HoldsBest(best, f);
    HeldSize(best, best.Keys);
    assert BestOf(f) == set id | id in best.Keys :: E(best[id]);
    BetterTotal();
    TopSize(Better, BestOf(f), k);
    ReferenceIsTop(f, k);
    RankedSize(Better, Reference(f, k));
  }

  lemma {:induction false} HeldSize(best: map<Id, Cand>, ids: set<Id>)
    requires ids <= best.Keys && forall id :: id in best ==> best[id].id == id
    ensures |set id | id in ids :: E(best[id])| == |ids|
    decreases |ids|
  {
    var es := set id | id in ids :: E(best[id]);
    if ids == {} {
      assert es == {};
    } else {
      var x :| x in ids;
      HeldSize(best, ids - {x});
      assert es == (set id | id in ids - {x} :: E(best[id])) + {E(best[x])};
    }
  }

  lemma BestIn(f: set<Entry>)
    ensures BestOf(f) <= f
  {
  }

  // ---- the bound walk of one broker

  /** Routed shards: their bounds in walk order, what exhaustive scoring finds in each, and
      the stable id of each of their documents. */
  datatype Route = Route(shards: seq<nat>, bounds: seq<real>, hits: seq<set<Retrieval.Hit>>, id: (nat, nat) -> Id)

  /** What the walk itself reads of a route: all but what exhaustive scoring would find. */
  datatype Walk = Walk(shards: seq<nat>, bounds: seq<real>, id: (nat, nat) -> Id)

  ghost predicate Walks(w: Walk, r: Route) {
    r == Route(w.shards, w.bounds, r.hits, w.id)
  }

  ghost predicate Sound(r: Route) {
    && |r.shards| == |r.bounds| == |r.hits|
    && (forall i, j :: 0 <= i < j < |r.bounds| ==> r.bounds[i] >= r.bounds[j])
    && (forall i, h :: 0 <= i < |r.hits| && h in r.hits[i] ==> 0.0 < h.score <= r.bounds[i])
    && (forall i, g, h :: 0 <= i < |r.hits| && g in r.hits[i] && h in r.hits[i] && g != h ==>
      r.id(i, g.doc) != r.id(i, h.doc))
  }

  ghost function ShardEntries(r: Route, i: nat): set<Entry>
    requires i < |r.hits|
  {
    set h | h in r.hits[i] :: Entry(h.score, r.id(i, h.doc))
  }

  ghost function Entries(r: Route, n: nat): set<Entry>
    requires n <= |r.hits|
  {
    set i, e | 0 <= i < n && e in ShardEntries(r, i) :: e
  }

  ghost predicate Searches(r: Route, k: nat, search: (nat, real) -> seq<Retrieval.Hit>) {
    forall i, seed :: 0 <= i < |r.hits| ==> Retrieval.SeededAnswer(search(i, seed), r.hits[i], 2 * k, seed)
  }

  /** More documents of one shard reach `t` than it is asked for. */
  ghost predicate Overfull(r: Route, k: nat, t: real) {
    exists i :: 0 <= i < |r.hits| && |Reaching(r, i, t)| > 2 * k
  }

  ghost function Reaching(r: Route, i: nat, t: real): set<Retrieval.Hit>
    requires i < |r.hits|
  {
    set h | h in r.hits[i] && h.score >= t
  }

  /** Why `x` need not be looked at again: it was folded in, a higher score already has k
      ids, or its shard held too many ties. */
  ghost predicate Handled(r: Route, f: set<Entry>, k: nat, x: Entry) {
    || x in f
    || (exists t :: t > x.score && Crowded(f, k, t))
    || (Overfull(r, k, x.score) && Crowded(f, k, x.score))
  }

  lemma CrowdedStays(f: set<Entry>, f': set<Entry>, k: nat, t: real, t': real)
    requires Crowded(f, k, t) && f <= f' && t' <= t
    ensures Crowded(f', k, t')
  {
    HighMono(f, f', t, t');
  }

  lemma HandledStays(r: Route, f: set<Entry>, f': set<Entry>, k: nat, x: Entry)
    requires Handled(r, f, k, x) && f <= f'
    ensures Handled(r, f', k, x)
  {
    hide Crowded, Overfull;
    if t :| t > x.score && Crowded(f, k, t) {
      CrowdedStays(f, f', k, t, t);
    } else if Overfull(r, k, x.score) && Crowded(f, k, x.score) {
      CrowdedStays(f, f', k, x.score, x.score);
    }
  }

  /** One shard's seeded answer handles all of its documents. */
  lemma ShardHandled(r: Route, i: nat, k: nat, seed: real, hits: seq<Retrieval.Hit>, f: set<Entry>, h: Retrieval.Hit)
    requires Sound(r) && i < |r.hits| && k > 0 && h in r.hits[i]
    requires Retrieval.SeededAnswer(hits, r.hits[i], 2 * k, seed)
    requires seed > 0.0 ==> Crowded(f, k, seed)
    requires forall g :: g in hits ==> Entry(g.score, r.id(i, g.doc)) in f
    ensures Handled(r, f, k, Entry(h.score, r.id(i, h.doc)))
  {
    hide Crowded, Retrieval.Better;
    var s := r.hits[i];
    if h.score >= seed && h !in hits {
      var b := Beaters(Retrieval.Better, s, h);
      assert |b| >= 2 * k;
      TooMany(r, i, k, h);
      CutCrowds(r, i, k, seed, hits, f, h);
    }
  }

  lemma TooMany(r: Route, i: nat, k: nat, h: Retrieval.Hit)
    requires i < |r.hits| && h in r.hits[i] && |Beaters(Retrieval.Better, r.hits[i], h)| >= 2 * k
    ensures Overfull(r, k, h.score)
  {
    var b := Beaters(Retrieval.Better, r.hits[i], h);
    assert h !in b;
    SubsetSize(b + {h}, Reaching(r, i, h.score));
  }

  /** A document cut from the shard's list leaves the list full of ids no worse. */
  lemma CutCrowds(r: Route, i: nat, k: nat, seed: real, hits: seq<Retrieval.Hit>, f: set<Entry>, h: Retrieval.Hit)
    requires Sound(r) && i < |r.hits| && k > 0 && h in r.hits[i] && h.score >= seed
    requires Retrieval.SeededAnswer(hits, r.hits[i], 2 * k, seed)
    requires |Beaters(Retrieval.Better, r.hits[i], h)| >= 2 * k
    requires forall g :: g in hits ==> Entry(g.score, r.id(i, g.doc)) in f
    ensures Crowded(f, k, h.score)
  {
    hide Retrieval.Better, StrictTotal, Sound;
    Retrieval.BetterTotal();
    var s := r.hits[i];
    var top := Top(Retrieval.Better, s, 2 * k);
    SubsetSize(Beaters(Retrieval.Better, s, h), s);
    TopSize(Retrieval.Better, s, 2 * k);
    forall g | g in top ensures g in hits && g.score >= h.score {
      TopBeatsRest(Retrieval.Better, s, 2 * k, g, h);
      HitBeats(g, h);
    }
    IdsOf(r, i, top);
    var ids := set g | g in top :: r.id(i, g.doc);
    forall g | g in top ensures r.id(i, g.doc) in High(f, h.score) {
      assert Entry(g.score, r.id(i, g.doc)) in f;
    }
    SubsetSize(ids, High(f, h.score));
  }

  lemma HitBeats(g: Retrieval.Hit, h: Retrieval.Hit)
    requires Retrieval.Better(g, h)
    ensures g.score >= h.score
  {
  }

  lemma {:induction false} IdsOf(r: Route, i: nat, s: set<Retrieval.Hit>)
    requires Sound(r) && i < |r.hits| && s <= r.hits[i]
    ensures |set g | g in s :: r.id(i, g.doc)| == |s|
    decreases |s|
  {
    var ids := set g | g in s :: r.id(i, g.doc);
    if s == {} {
      assert ids == {};
    } else {
      var h :| h in s;
      var rest := s - {h};
      IdsOf(r, i, rest);
      assert ids == (set g | g in rest :: r.id(i, g.doc)) + {r.id(i, h.doc)};
    }
  }

  /** Where a candidate came from. */
  ghost predicate Genuine(r: Route, c: Cand) {
    exists i :: 0 <= i < |r.shards| && |r.hits| == |r.shards| && c.shard == r.shards[i]
      && Retrieval.Hit(c.dense, c.score) in r.hits[i] && c.id == r.id(i, c.dense)
  }

  datatype Reply = Found(cands: seq<Cand>, visited: nat) | OpenError

  /** The walk so far: the first `n` shards are handled. */
  ghost predicate Walked(r: Route, n: nat, best: map<Id, Cand>, f: set<Entry>, k: nat) {
    && n <= |r.hits| && Holds(best, f) && f <= Entries(r, n)
    && (forall id :: id in best ==> Genuine(r, best[id]))
    && (forall x :: x in Entries(r, n) ==> Handled(r, f, k, x))
  }

  ghost predicate FromHits(r: Route, i: nat, hits: seq<Retrieval.Hit>, e: Entry) {
    exists h :: h in hits && e == Entry(h.score, r.id(i, h.doc))
  }

  lemma IsFromHits(r: Route, i: nat, hits: seq<Retrieval.Hit>, j: nat)
    requires j < |hits|
    ensures FromHits(r, i, hits, Entry(hits[j].score, r.id(i, hits[j].doc)))
  {
    assert hits[j] in hits;
  }

  method FoldHits(w: Walk, i: nat, hits: seq<Retrieval.Hit>, best: map<Id, Cand>, ghost r: Route, ghost f: set<Entry>)
    returns (best': map<Id, Cand>, ghost f': set<Entry>)
    requires Walks(w, r)
    requires Holds(best, f) && i < |r.shards| == |r.hits| && forall h :: h in hits ==> h in r.hits[i]
    requires forall id :: id in best ==> Genuine(r, best[id])
    ensures Holds(best', f') && f <= f'
    ensures forall e :: e in f' ==> e in f || e in ShardEntries(r, i)
    ensures forall h :: h in hits ==> Entry(h.score, r.id(i, h.doc)) in f'
    ensures forall e :: e in f' ==> e in f || FromHits(r, i, hits, e)
    ensures forall id :: id in best' ==> Genuine(r, best'[id])
  {
    hide Holds, Genuine, FromHits;
    best', f' := best, f;
    var j := 0;
    while j < |hits|
      invariant 0 <= j <= |hits| && Holds(best', f') && f <= f'
      invariant forall e :: e in f' ==> e in f || e in ShardEntries(r, i)
      invariant forall h :: h in hits[..j] ==> Entry(h.score, r.id(i, h.doc)) in f'
      invariant forall e :: e in f' ==> e in f || FromHits(r, i, hits, e)
      invariant forall id :: id in best' ==> Genuine(r, best'[id])
    {
      var c := Cand(hits[j].score, w.shards[i], hits[j].doc, w.id(i, hits[j].doc));
      assert hits[j] in hits;
      Comes(r, i, hits[j], c);
      IsFromHits(r, i, hits, j);
      best' := Fold(best', c, f');
      f' := f' + {E(c)};
      j := j + 1;
    }
  }

  lemma Comes(r: Route, i: nat, h: Retrieval.Hit, c: Cand)
    requires i < |r.shards| == |r.hits| && h in r.hits[i] && c == Cand(h.score, r.shards[i], h.doc, r.id(i, h.doc))
    ensures Genuine(r, c) && E(c) in ShardEntries(r, i)
  {
    assert Retrieval.Hit(c.dense, c.score) == h;
  }

  lemma WalkNone(r: Route, k: nat)
    ensures Walked(r, 0, map[], {}, k)
  {
  }

  /** One more shard walked. */
  lemma WalkShard(r: Route, i: nat, best: map<Id, Cand>, f: set<Entry>, best': map<Id, Cand>, f': set<Entry>, k: nat,
                  seed: real, hits: seq<Retrieval.Hit>)
    requires Sound(r) && i < |r.hits| && k > 0 && Walked(r, i, best, f, k) && Holds(best', f') && f <= f'
    requires Retrieval.SeededAnswer(hits, r.hits[i], 2 * k, seed) && (seed > 0.0 ==> Crowded(f, k, seed))
    requires forall e :: e in f' ==> e in f || e in ShardEntries(r, i)
    requires forall h :: h in hits ==> Entry(h.score, r.id(i, h.doc)) in f'
    requires forall id :: id in best' ==> Genuine(r, best'[id])
    ensures Walked(r, i + 1, best', f', k)
  {
    hide Handled, Crowded, Holds, Genuine, Retrieval.SeededAnswer, Sound;
    forall x | x in Entries(r, i + 1) ensures Handled(r, f', k, x) {
      var j, e :| 0 <= j < i + 1 && e in ShardEntries(r, j) && e == x;
      if j < i {
        assert x in Entries(r, i);
        HandledStays(r, f, f', k, x);
      } else {
        var h :| h in r.hits[i] && Entry(h.score, r.id(i, h.doc)) == x;
        if seed > 0.0 { CrowdedStays(f, f', k, seed, seed); }
        ShardHandled(r, i, k, seed, hits, f', h);
      }
    }
    forall e | e in f' ensures e in Entries(r, i + 1) {
      if e in f { assert e in Entries(r, i); }
    }
  }

  /** The walk stops: every shard left is bounded below the k-th distinct score. */
  lemma WalkStops(r: Route, i: nat, best: map<Id, Cand>, f: set<Entry>, k: nat, th: real)
    requires Sound(r) && i < |r.hits| && Walked(r, i, best, f, k) && Crowded(f, k, th) && r.bounds[i] < th
    ensures Walked(r, |r.hits|, best, f, k)
  {
    hide Crowded, Holds, Genuine;
    forall x | x in Entries(r, |r.hits|) ensures Handled(r, f, k, x) {
      var j, e :| 0 <= j < |r.hits| && e in ShardEntries(r, j) && e == x;
      if j < i {
        assert x in Entries(r, i);
      } else {
        assert x.score <= r.bounds[j] <= r.bounds[i];
      }
    }
  }

  lemma HandledCovers(r: Route, best: map<Id, Cand>, f: set<Entry>, k: nat)
    requires Walked(r, |r.hits|, best, f, k)
    ensures Covers(Entries(r, |r.hits|), f, k)
  {
    hide Crowded, Holds, Genuine;
    forall x | x in Entries(r, |r.hits|) ensures Dominated(f, x) || Crowded(f, k, x.score) {
      if t :| t > x.score && Crowded(f, k, t) {
        CrowdedStays(f, f, k, t, x.score);
      }
    }
  }

  /** With no shard overfull at the k-th best score, ties at that score are all collected. */
  lemma HandledTies(r: Route, best: map<Id, Cand>, f: set<Entry>, k: nat, x: Entry)
    requires k > 0 && Walked(r, |r.hits|, best, f, k) && x in Entries(r, |r.hits|)
    requires var ref := Reference(Entries(r, |r.hits|), k);
      |ref| == k && x.score >= ref[k - 1].score && !Overfull(r, k, ref[k - 1].score)
    ensures Dominated(f, x)
  {
    var u := Entries(r, |r.hits|);
    var ref := Reference(u, k);
    WalkedHandled(r, best, f, k, x);
    hide Walked, BestOf, Reference, Overfull, Crowded, Entries, Dominated;
    if t :| t > x.score && Crowded(f, k, t) {
      NotAbove(u, f, k, t);
    } else if Overfull(r, k, x.score) {
      OverfullBelow(r, k, x.score, ref[k - 1].score);
    } else {
      InDominates(f, x);
    }
  }

  lemma WalkedHandled(r: Route, best: map<Id, Cand>, f: set<Entry>, k: nat, x: Entry)
    requires Walked(r, |r.hits|, best, f, k) && x in Entries(r, |r.hits|)
    ensures Handled(r, f, k, x) && f <= Entries(r, |r.hits|)
  {
    hide Holds, Genuine, Handled;
  }

  lemma InDominates(f: set<Entry>, x: Entry)
    requires x in f
    ensures Dominated(f, x)
  {
  }

  /** No score above the k-th best has k ids. */
  lemma NotAbove(u: set<Entry>, f: set<Entry>, k: nat, t: real)
    requires k > 0 && f <= u && |Reference(u, k)| == k && Crowded(f, k, t)
    ensures t <= Reference(u, k)[k - 1].score
  {
    hide BestOf, Reference;
    HighMono(f, u, t, t);
    PlaceCount(Reference(u, k), BestOf(u), k, k - 1, t);
    HighIs(u, t);
  }

  lemma OverfullBelow(r: Route, k: nat, t: real, t': real)
    requires Overfull(r, k, t) && t' <= t
    ensures Overfull(r, k, t')
  {
    var i :| 0 <= i < |r.hits| && |Reaching(r, i, t)| > 2 * k;
    SubsetSize(Reaching(r, i, t), Reaching(r, i, t'));
  }

  // ---- which entries can reach the answer at all

  /** The shard's own first 2k documents, all that it is ever asked for. */
  ghost function ShardTop(r: Route, i: nat, k: nat): set<Entry>
    requires i < |r.hits|
  {
    set h | h in Top(Retrieval.Better, r.hits[i], 2 * k) :: Entry(h.score, r.id(i, h.doc))
  }

  ghost function Listed(r: Route, n: nat, k: nat): set<Entry>
    requires n <= |r.hits|
  {
    set i, e | 0 <= i < n && e in ShardTop(r, i, k) :: e
  }

  /** k ids already score above `e`. */
  ghost predicate Past(f: set<Entry>, k: nat, e: Entry) {
    exists t :: t > e.score && Crowded(f, k, t)
  }

  /** What is collected is what the shards list, up to entries the answer is past. */
  ghost predicate Collects(r: Route, n: nat, f: set<Entry>, k: nat) {
    n <= |r.hits| && forall e :: (e in f <==> e in Listed(r, n, k)) || Past(f, k, e)
  }

  lemma CollectsNone(r: Route, k: nat)
    ensures Collects(r, 0, {}, k)
  {
  }

  lemma PastStays(f: set<Entry>, f': set<Entry>, k: nat, e: Entry)
    requires Past(f, k, e) && f <= f'
    ensures Past(f', k, e)
  {
    hide Crowded;
    var t :| t > e.score && Crowded(f, k, t);
    CrowdedStays(f, f', k, t, t);
  }

  lemma ListedNext(r: Route, i: nat, k: nat, e: Entry)
    requires i < |r.hits|
    ensures e in Listed(r, i + 1, k) <==> e in Listed(r, i, k) || e in ShardTop(r, i, k)
  {
    hide ShardTop;
  }

  /** A seed only drops what the answer is past. */
  lemma CollectsShard(r: Route, i: nat, f: set<Entry>, f': set<Entry>, k: nat, seed: real, hits: seq<Retrieval.Hit>)
    requires Sound(r) && i < |r.hits| && Collects(r, i, f, k) && f <= f'
    requires Retrieval.SeededAnswer(hits, r.hits[i], 2 * k, seed) && (seed > 0.0 ==> Crowded(f, k, seed))
    requires forall h :: h in hits ==> Entry(h.score, r.id(i, h.doc)) in f'
    requires forall e :: e in f' ==> e in f || FromHits(r, i, hits, e)
    ensures Collects(r, i + 1, f', k)
  {
    hide Past, Listed, ShardTop, FromHits, Crowded;
    forall e: Entry ensures (e in f' <==> e in Listed(r, i + 1, k)) || Past(f', k, e) {
      ListedNext(r, i, k, e);
      if Past(f, k, e) {
        PastStays(f, f', k, e);
      } else {
        SeedDrops(r, i, f, k, seed, hits, e);
        assert e in ShardTop(r, i, k) ==> FromHits(r, i, hits, e);
        FromHitsIn(r, i, hits, e, f');
      }
    }
  }

  lemma FromHitsIn(r: Route, i: nat, hits: seq<Retrieval.Hit>, e: Entry, f: set<Entry>)
    requires forall h :: h in hits ==> Entry(h.score, r.id(i, h.doc)) in f
    ensures FromHits(r, i, hits, e) ==> e in f
  {
  }

  lemma SeedDrops(r: Route, i: nat, f: set<Entry>, k: nat, seed: real, hits: seq<Retrieval.Hit>, e: Entry)
    requires Sound(r) && i < |r.hits| && !Past(f, k, e)
    requires Retrieval.SeededAnswer(hits, r.hits[i], 2 * k, seed) && (seed > 0.0 ==> Crowded(f, k, seed))
    ensures FromHits(r, i, hits, e) <==> e in ShardTop(r, i, k)
  {
    hide Retrieval.Better, Crowded;
    assert forall h :: h in hits ==> h in Elements(hits);
    if FromHits(r, i, hits, e) {
      var h :| h in hits && e == Entry(h.score, r.id(i, h.doc));
      assert h in r.hits[i] && h.score >= seed;
    }
    if e in ShardTop(r, i, k) {
      var h :| h in Top(Retrieval.Better, r.hits[i], 2 * k) && e == Entry(h.score, r.id(i, h.doc));
      assert h in r.hits[i] && h.score >= seed;
    }
  }

  lemma CollectsStops(r: Route, i: nat, f: set<Entry>, k: nat, th: real)
    requires Sound(r) && i < |r.hits| && Collects(r, i, f, k) && Crowded(f, k, th) && r.bounds[i] < th
    ensures Collects(r, |r.hits|, f, k)
  {
    hide Crowded, Retrieval.Better;
    forall e: Entry ensures (e in f <==> e in Listed(r, |r.hits|, k)) || Past(f, k, e) {
      if e in Listed(r, |r.hits|, k) && e !in Listed(r, i, k) {
        var j, x :| 0 <= j < |r.hits| && x in ShardTop(r, j, k) && x == e;
        var h :| h in Top(Retrieval.Better, r.hits[j], 2 * k) && e == Entry(h.score, r.id(j, h.doc));
        assert h in r.hits[j] && h.score <= r.bounds[j] <= r.bounds[i];
      }
    }
  }

  /** The answer is never past an entry of the exhaustive ranking. */
  lemma ReferenceNotPast(u: set<Entry>, f: set<Entry>, k: nat, e: Entry)
    requires k > 0 && f <= u && e in Reference(u, k)
    ensures !Past(f, k, e)
  {
    hide BestOf, Reference, Crowded, Better;
    var ref := Reference(u, k);
    BetterTotal();
    var j :| 0 <= j < |ref| && ref[j] == e;
    if t :| t > e.score && Crowded(f, k, t) {
      FullReference(u, f, k, t);
      NotAbove(u, f, k, t);
      RankedScore(ref, j, k - 1);
    }
  }

  lemma FullReference(u: set<Entry>, f: set<Entry>, k: nat, t: real)
    requires k > 0 && f <= u && Crowded(f, k, t)
    ensures |Reference(u, k)| == k
  {
    hide BestOf, Reference, Better;
    BetterTotal();
    HighMono(f, u, t, t);
    HighIs(u, t);
    SubsetSize(HighBest(u, t), BestOf(u));
    TopSize(Better, BestOf(u), k);
    RankedSize(Better, Reference(u, k));
  }

  /** The exhaustive ranking is found as soon as all of it is collected. */
  lemma ReferenceCollected(u: set<Entry>, f: set<Entry>, k: nat, out: seq<Entry>)
    requires k > 0 && f <= u && IsTop(Better, out, BestOf(f), k)
    requires forall e :: e in Reference(u, k) ==> e in f
    ensures out == Reference(u, k)
  {
    hide Reference, BestOf, Better;
    BetterTotal();
    forall x | x in u - f ensures |High2(f, x)| >= k || Dominates(f, x) {
      LeftOut(u, k, x, f);
    }
    MergeTop(u, f, k);
    ExactAnswerUnique(Better, out, Reference(u, k), BestOf(u), k);
  }

  lemma PastCrowds(f: set<Entry>, listed: set<Entry>, k: nat, x: Entry)
    requires k > 0 && Past(f, k, x)
    requires forall e :: e in f ==> e in listed || Past(f, k, e)
    ensures |High2(f * listed, x)| >= k
  {
    hide Reference, Past;
    var ref := Reference(f, k);
    forall e | e in ref ensures e in f * listed && e.score > x.score {
      ReferenceIn(f, k, e);
      ReferenceNotPast(f, f, k, e);
      PastBelow(f, k, x, e);
    }
    FullAbove(f, k, x);
    ListIds(f, k);
    var ids := set e | e in ref :: e.id;
    forall id | id in ids ensures id in High2(f * listed, x) {
      var e :| e in ref && e.id == id;
      HigherBeats(e, x);
    }
    SubsetSize(ids, High2(f * listed, x));
  }

  lemma FullAbove(f: set<Entry>, k: nat, x: Entry)
    requires k > 0 && Past(f, k, x)
    ensures |Reference(f, k)| == k && Reference(f, k)[k - 1].score > x.score
  {
    hide Reference, Crowded;
    var t :| t > x.score && Crowded(f, k, t);
    FullReference(f, f, k, t);
    NotAbove(f, f, k, t);
  }

  lemma PastBelow(f: set<Entry>, k: nat, x: Entry, e: Entry)
    requires k > 0 && Past(f, k, x) && e in Reference(f, k)
    ensures e.score > x.score
  {
    hide BestOf, Better, Past;
    FullAbove(f, k, x);
    var ref := Reference(f, k);
    var j :| 0 <= j < |ref| && ref[j] == e;
    RankedScore(ref, j, k - 1);
  }

  /** The answer is the ranking of what the shards list: no seed, no stop and no order of the walk
      shows in it. */
  lemma ListedRanking(r: Route, n: nat, f: set<Entry>, k: nat, out: seq<Entry>)
    requires k > 0 && Collects(r, n, f, k) && IsTop(Better, out, BestOf(f), k)
    ensures out == Reference(Listed(r, n, k), k)
  {
    hide Listed, Past, Reference, Better, BestOf;
    BetterTotal();
    var listed := Listed(r, n, k);
    var both := f * listed;
    forall x | x in f - both || x in listed - both ensures |High2(both, x)| >= k {
      PastCrowds(f, listed, k, x);
    }
    MergeTop(f, both, k);
    MergeTop(listed, both, k);
    ExactAnswerUnique(Better, out, Reference(listed, k), BestOf(listed), k);
  }

  /** Before shard `n` the walk stops: what the shards before it list has k ids, all scoring above its
      bound. */
  ghost predicate Stops(r: Route, k: nat, n: nat)
    requires k > 0
  {
    n < |r.hits| && n < |r.bounds|
    && var ref := Reference(Listed(r, n, k), k); |ref| == k && r.bounds[n] < ref[k - 1].score
  }

  lemma StopsHere(r: Route, n: nat, f: set<Entry>, k: nat, th: real, ok: bool)
    requires k > 0 && n < |r.hits| == |r.bounds| && Collects(r, n, f, k)
    requires (ok <==> |Reference(f, k)| == k) && (ok ==> th == Reference(f, k)[k - 1].score)
    ensures Stops(r, k, n) <==> ok && r.bounds[n] < th
  {
    hide Reference, Listed, Collects;
    ListedRanking(r, n, f, k, Reference(f, k)) by { ReferenceIsTop(f, k); }
  }

  /** No entry of the exhaustive ranking is cut from its own shard's list. */
  ghost predicate NoneCut(r: Route, k: nat)
    requires k > 0
  {
    forall e :: e in Reference(Entries(r, |r.hits|), k) ==> e in Listed(r, |r.hits|, k)
  }

  lemma ExactIff(r: Route, f: set<Entry>, k: nat, out: seq<Entry>)
    requires k > 0 && f <= Entries(r, |r.hits|) && Collects(r, |r.hits|, f, k) && IsTop(Better, out, BestOf(f), k)
    ensures out == Reference(Entries(r, |r.hits|), k) <==> NoneCut(r, k)
  {
    hide Entries, Reference, Listed, Past, Better;
    var u := Entries(r, |r.hits|);
    forall e | e in Reference(u, k) ensures e in f <==> e in Listed(r, |r.hits|, k) {
      ReferenceNotPast(u, f, k, e);
    }
    if forall e :: e in Reference(u, k) ==> e in f {
      ReferenceCollected(u, f, k, out);
    }
    if out == Reference(u, k) {
      forall e | e in out ensures e in f {
        assert e in Elements(out);
        BestIn(f);
      }
    }
  }

  /** One shard of the walk: searched down to the seed, its hits folded in. */
  method VisitShard(w: Walk, i: nat, k: nat, seed: real, search: (nat, real) -> seq<Retrieval.Hit>, best: map<Id, Cand>,
                    ghost r: Route, ghost f: set<Entry>)
    returns (best': map<Id, Cand>, ghost f': set<Entry>)
    requires Walks(w, r) && Sound(r) && k > 0 && i < |r.hits| && Searches(r, k, search)
    requires Walked(r, i, best, f, k) && Collects(r, i, f, k) && (seed > 0.0 ==> Crowded(f, k, seed))
    ensures Walked(r, i + 1, best', f', k) && Collects(r, i + 1, f', k)
  {
    hide Collects, FromHits, Walked, Crowded, Entries, Listed, Retrieval.SeededAnswer, Genuine, Holds, ShardEntries,
      Searches;
    WalkedHolds(r, i, best, f, k);
    var hits := search(i, seed);
    SearchIn(r, k, search, i, seed);
    best', f' := FoldHits(w, i, hits, best, r, f);
    WalkShard(r, i, best, f, best', f', k, seed, hits);
    CollectsShard(r, i, f, f', k, seed, hits);
  }

  /** `searchBounds`, up to fetching the stored fields of the survivors. */
  method SearchBounds(w: Walk, k: nat, noSeed: bool, opens: nat -> bool, search: (nat, real) -> seq<Retrieval.Hit>,
                      ghost r: Route)
    returns (reply: Reply, threshold: real)
    requires Walks(w, r) && Sound(r) && k > 0 && Searches(r, k, search)
    ensures (forall i :: 0 <= i < |r.shards| ==> opens(r.shards[i])) ==> reply.Found?
    ensures reply.Found? ==> ScoreExact(Es(reply.cands), Entries(r, |r.hits|), k)
    ensures reply.Found? ==> forall c :: c in reply.cands ==> Genuine(r, c)
    ensures reply.Found? ==> var ref := Reference(Entries(r, |r.hits|), k);
      (|ref| == k ==> !Overfull(r, k, ref[k - 1].score)) ==> Es(reply.cands) == ref
    ensures reply.Found? ==> (Es(reply.cands) == Reference(Entries(r, |r.hits|), k) <==> NoneCut(r, k))
    ensures reply.Found? ==> Es(reply.cands) == Reference(Listed(r, |r.hits|, k), k)
    ensures reply.Found? ==> forall n :: 0 <= n < reply.visited ==> !Stops(r, k, n)
    ensures reply.Found? ==> reply.visited == |w.bounds| || Stops(r, k, reply.visited)
    ensures reply.Found? ==> threshold == if |reply.cands| == k then reply.cands[k - 1].score else 0.0
  {
    hide Stops, Collects, NoneCut, FromHits, Walked, Crowded, Entries, Listed, ScoreExact, Retrieval.SeededAnswer,
      Genuine, Overfull, Reference, Holds, Covers, ShardEntries, Searches, BestOf;
    var best: map<Id, Cand> := map[];
    ghost var f: set<Entry> := {};
    WalkNone(r, k);
    CollectsNone(r, k);
    var i, visited := 0, 0;
    threshold := 0.0;
    while i < |w.bounds|
      invariant 0 <= i <= |r.bounds| && Walked(r, i, best, f, k) && Collects(r, i, f, k)
      invariant visited == i && forall n :: 0 <= n < i ==> !Stops(r, k, n)
    {
      WalkedHolds(r, i, best, f, k);
      var seed := 0.0;
      var th, ok := KthDistinct(best, k, f);
      StopsHere(r, i, f, k, th, ok);
      if ok {
        if w.bounds[i] < th {
          WalkStops(r, i, best, f, k, th);
          CollectsStops(r, i, f, k, th);
          i := |w.bounds|;
          break;
        }
        if !noSeed {
          seed := th;
        }
      }
      if !opens(w.shards[i]) {
        return OpenError, 0.0;
      }
      visited := visited + 1;
      best, f := VisitShard(w, i, k, seed, search, best, r, f);
      i := i + 1;
    }
    var out;
    out, threshold := RankWalked(best, k, r, f);
    reply := Found(out, visited);
  }

  /** The ranking of the finished walk, and its k-th score. */
  method RankWalked(best: map<Id, Cand>, k: nat, ghost r: Route, ghost f: set<Entry>)
    returns (out: seq<Cand>, threshold: real)
    requires k > 0 && Walked(r, |r.hits|, best, f, k) && Collects(r, |r.hits|, f, k)
    ensures ScoreExact(Es(out), Entries(r, |r.hits|), k) && Es(out) == Reference(Listed(r, |r.hits|, k), k)
    ensures forall c :: c in out ==> Genuine(r, c)
    ensures Es(out) == Reference(Entries(r, |r.hits|), k) <==> NoneCut(r, k)
    ensures var ref := Reference(Entries(r, |r.hits|), k);
      (|ref| == k ==> !Overfull(r, k, ref[k - 1].score)) ==> Es(out) == ref
    ensures threshold == if |out| == k then out[k - 1].score else 0.0
  {
    hide Collects, NoneCut, Walked, Crowded, Entries, Listed, ScoreExact, Genuine, Overfull, Reference, Holds, BestOf;
    WalkedHolds(r, |r.hits|, best, f, k);
    threshold := 0.0;
    var last, full := KthDistinct(best, k, f);
    if full {
      threshold := last;
    }
    var ranked := RankAll(best, f);
    out := Cut(ranked, k, f);
    Conclusions(r, best, f, k, Es(out));
  }

  /** What the finished walk's answer is. */
  lemma Conclusions(r: Route, best: map<Id, Cand>, f: set<Entry>, k: nat, out: seq<Entry>)
    requires k > 0 && Walked(r, |r.hits|, best, f, k) && Collects(r, |r.hits|, f, k) && IsTop(Better, out, BestOf(f), k)
    ensures ScoreExact(out, Entries(r, |r.hits|), k) && out == Reference(f, k) == Reference(Listed(r, |r.hits|, k), k)
    ensures out == Reference(Entries(r, |r.hits|), k) <==> NoneCut(r, k)
    ensures var ref := Reference(Entries(r, |r.hits|), k);
      (|ref| == k ==> !Overfull(r, k, ref[k - 1].score)) ==> out == ref
  {
    hide Collects, NoneCut, Walked, Entries, Listed, ScoreExact, Overfull, Reference, Covers, BestOf, IsTop;
    ReferenceIsTop(f, k);
    ListedRanking(r, |r.hits|, f, k, out);
    ListedRanking(r, |r.hits|, f, k, Reference(f, k));
    HandledCovers(r, best, f, k);
    Collected(Entries(r, |r.hits|), f, k, out);
    Finish(r, best, f, k, out);
    WalkedIn(r, best, f, k);
    ExactIff(r, f, k, out);
  }

  lemma WalkedIn(r: Route, best: map<Id, Cand>, f: set<Entry>, k: nat)
    requires Walked(r, |r.hits|, best, f, k)
    ensures f <= Entries(r, |r.hits|)
  {
  }

  lemma WalkedHolds(r: Route, n: nat, best: map<Id, Cand>, f: set<Entry>, k: nat)
    requires Walked(r, n, best, f, k)
    ensures Holds(best, f) && forall id :: id in best ==> Genuine(r, best[id])
  {
  }

  lemma SearchIn(r: Route, k: nat, search: (nat, real) -> seq<Retrieval.Hit>, i: nat, seed: real)
    requires Searches(r, k, search) && i < |r.hits|
    ensures Retrieval.SeededAnswer(search(i, seed), r.hits[i], 2 * k, seed)
    ensures forall h :: h in search(i, seed) ==> h in r.hits[i]
  {
    forall h | h in search(i, seed) ensures h in r.hits[i] {
      assert h in Elements(search(i, seed));
    }
  }

  lemma Finish(r: Route, best: map<Id, Cand>, f: set<Entry>, k: nat, out: seq<Entry>)
    requires k > 0 && Walked(r, |r.hits|, best, f, k) && IsTop(Better, out, BestOf(f), k)
    ensures var ref := Reference(Entries(r, |r.hits|), k);
      (|ref| == k ==> !Overfull(r, k, ref[k - 1].score)) ==> out == ref
  {
    hide Walked, Entries, Reference, Overfull, Covers, BestOf, Better, Dominated;
    var u := Entries(r, |r.hits|);
    var ref := Reference(u, k);
    HandledCovers(r, best, f, k);
    if |ref| == k ==> !Overfull(r, k, ref[k - 1].score) {
      forall x | x in u && |ref| == k && x.score >= ref[k - 1].score ensures Dominated(f, x) {
        HandledTies(r, best, f, k, x);
      }
      NoTieLost(u, f, k, out);
    }
  }

  // ---- the merge over brokers

  ghost function AllOf(lists: seq<seq<Cand>>, n: nat): set<Entry>
    requires n <= |lists|
  {
    set i, e | 0 <= i < n && e in Es(lists[i]) :: e
  }

  ghost function Union(parts: seq<set<Entry>>): set<Entry> {
    set i, x | 0 <= i < |parts| && x in parts[i] :: x
  }

  ghost predicate InSomeList(lists: seq<seq<Cand>>, e: Entry) {
    exists i :: 0 <= i < |lists| && e in Es(lists[i])
  }

  ghost predicate AreScoreExact(lists: seq<seq<Cand>>, parts: seq<set<Entry>>, k: nat)
    requires k > 0
  {
    |parts| == |lists| && forall i :: 0 <= i < |lists| ==> ScoreExact(Es(lists[i]), parts[i], k)
  }

  ghost predicate AreRankings(lists: seq<seq<Cand>>, parts: seq<set<Entry>>, k: nat)
    requires k > 0
  {
    |parts| == |lists| && forall i :: 0 <= i < |lists| ==> Es(lists[i]) == Reference(parts[i], k)
  }

  /** `mergeLeafResults`: given score-exact lists it is score-exact for the fleet, and the exhaustive
      ranking of the fleet exactly when every entry of that is in some list; given the rankings of
      any parts it is the ranking of the parts together. */
  method MergeLeafResults(lists: seq<seq<Cand>>, k: nat) returns (out: seq<Cand>)
    requires k > 0
    ensures forall parts :: AreScoreExact(lists, parts, k) ==>
      && ScoreExact(Es(out), Union(parts), k)
      && (Es(out) == Reference(Union(parts), k) <==> forall e :: e in Reference(Union(parts), k) ==>
        InSomeList(lists, e))
    ensures forall parts :: AreRankings(lists, parts, k) ==> Es(out) == Reference(Union(parts), k)
    ensures forall c :: c in out ==> exists i :: 0 <= i < |lists| && c in lists[i]
  {
    hide ScoreExact, Reference, Holds, BestOf, Union, InSomeList;
    var best: map<Id, Cand> := map[];
    ghost var f: set<Entry> := {};
    assert Holds(best, f) by { NoneHeld(); }
    var i := 0;
    while i < |lists|
      invariant 0 <= i <= |lists| && Holds(best, f) && f == AllOf(lists, i)
      invariant forall id :: id in best ==> exists i :: 0 <= i < |lists| && best[id] in lists[i]
    {
      var j := 0;
      while j < |lists[i]|
        invariant 0 <= j <= |lists[i]| && Holds(best, f)
        invariant f == AllOf(lists, i) + Elements(Es(lists[i][..j]))
        invariant forall id :: id in best ==> exists i :: 0 <= i < |lists| && best[id] in lists[i]
      {
        best := Fold(best, lists[i][j], f);
        f := f + {E(lists[i][j])};
        AddElement(lists[i], j);
        j := j + 1;
      }
      AddList(lists, i);
      i := i + 1;
    }
    var ranked := RankAll(best, f);
    out := Cut(ranked, k, f);
    forall parts | AreScoreExact(lists, parts, k)
      ensures ScoreExact(Es(out), Union(parts), k)
      ensures Es(out) == Reference(Union(parts), k) <==> forall e :: e in Reference(Union(parts), k) ==>
        InSomeList(lists, e)
    {
      MergeIsCovered(lists, parts, k, f);
      Collected(Union(parts), f, k, Es(out));
      MergeIff(lists, parts, k, f, Es(out));
    }
    forall parts | AreRankings(lists, parts, k) ensures Es(out) == Reference(Union(parts), k) {
      MergeIsExact(lists, parts, k, f, Es(out));
    }
  }

  lemma NoneHeld()
    ensures Holds(map[], {})
  {
  }

  lemma AddElement(list: seq<Cand>, j: nat)
    requires j < |list|
    ensures Elements(Es(list[..j + 1])) == Elements(Es(list[..j])) + {E(list[j])}
  {
    assert Es(list[..j + 1]) == Es(list[..j]) + [E(list[j])];
  }

  lemma AddList(lists: seq<seq<Cand>>, i: nat)
    requires i < |lists|
    ensures AllOf(lists, i + 1) == AllOf(lists, i) + Elements(Es(lists[i][..|lists[i]|]))
  {
    assert lists[i][..|lists[i]|] == lists[i];
    forall e ensures e in AllOf(lists, i + 1) <==> e in AllOf(lists, i) || e in Elements(Es(lists[i])) {
      if e in Elements(Es(lists[i])) { assert e in Es(lists[i]); }
    }
  }

  lemma MergeIsCovered(lists: seq<seq<Cand>>, parts: seq<set<Entry>>, k: nat, f: set<Entry>)
    requires k > 0 && |parts| == |lists| && f == AllOf(lists, |lists|)
    requires forall i :: 0 <= i < |lists| ==> ScoreExact(Es(lists[i]), parts[i], k)
    ensures Covers(Union(parts), f, k)
  {
    hide ScoreExact, Covers;
    var outs := seq(|lists|, i requires 0 <= i < |lists| => Es(lists[i]));
    var g := set i, x | 0 <= i < |outs| && x in outs[i] :: x;
    forall x ensures x in f <==> x in g {
      if x in f {
        var i, e :| 0 <= i < |lists| && e in Es(lists[i]) && e == x;
        assert x in outs[i];
      }
      if x in g {
        var i :| 0 <= i < |outs| && x in outs[i];
        assert x in Es(lists[i]);
      }
    }
    assert f == g;
    MergeCovers(parts, outs, k, Union(parts), f);
  }

  lemma MergeIsExact(lists: seq<seq<Cand>>, parts: seq<set<Entry>>, k: nat, f: set<Entry>, out: seq<Entry>)
    requires k > 0 && |parts| == |lists| && f == AllOf(lists, |lists|) && IsTop(Better, out, BestOf(f), k)
    requires forall i :: 0 <= i < |lists| ==> Es(lists[i]) == Reference(parts[i], k)
    ensures out == Reference(Union(parts), k)
  {
    hide Reference, BestOf, Better;
    BetterTotal();
    var u := Union(parts);
    forall e | e in f ensures e in u {
      var i :| 0 <= i < |lists| && e in Es(lists[i]);
      ReferenceIn(parts[i], k, e);
    }
    forall x | x in u - f ensures |High2(f, x)| >= k || Dominates(f, x) {
      var i :| 0 <= i < |parts| && x in parts[i];
      assert forall e :: e in Es(lists[i]) ==> e in f;
      LeftOut(parts[i], k, x, f);
    }
    MergeTop(u, f, k);
    ExactAnswerUnique(Better, out, Reference(u, k), BestOf(u), k);
  }

  lemma MergeIff(lists: seq<seq<Cand>>, parts: seq<set<Entry>>, k: nat, f: set<Entry>, out: seq<Entry>)
    requires k > 0 && f == AllOf(lists, |lists|) && Covers(Union(parts), f, k) && IsTop(Better, out, BestOf(f), k)
    ensures out == Reference(Union(parts), k) <==> forall e :: e in Reference(Union(parts), k) ==> InSomeList(lists, e)
  {
    hide Reference, BestOf, Better, Union, Dominated;
    var u := Union(parts);
    assert forall e :: e in f <==> InSomeList(lists, e);
    if forall e :: e in Reference(u, k) ==> InSomeList(lists, e) {
      ReferenceCollected(u, f, k, out);
    }
    if out == Reference(u, k) {
      forall e | e in out ensures e in f {
        assert e in Elements(out);
        BestIn(f);
      }
    }
  }

  lemma ReferenceIn(u: set<Entry>, k: nat, e: Entry)
    requires k > 0 && e in Reference(u, k)
    ensures e in BestOf(u) && e in u
  {
    assert e in Elements(Reference(u, k));
  }

  /** The ids in `f` with a copy ranked before `x`. */
  ghost function High2(f: set<Entry>, x: Entry): set<Id> {
    set e | e in f && Better(e, x) :: e.id
  }

  ghost predicate Dominates(f: set<Entry>, x: Entry) {
    exists e :: e in f && e.id == x.id && e.score > x.score
  }

  /** A leaf leaves a document out of its exact list only for k others, or a better copy. */
  lemma LeftOut(u: set<Entry>, k: nat, x: Entry, f: set<Entry>)
    requires k > 0 && x in u && x !in f && forall e :: e in Reference(u, k) ==> e in f
    ensures |High2(f, x)| >= k || Dominates(f, x)
  {
    hide Better, Reference, BestOf;
    BetterTotal();
    var ref := Reference(u, k);
    var b := BestCopy(u, x);
    if b in ref {
      CopyBetter(b, x);
    } else {
      assert b in Elements(ref) <==> b in ref;
      assert b !in Top(Better, BestOf(u), k);
      var ids := set e | e in ref :: e.id;
      ListIds(u, k);
      OutsideReference(ref, u, k, b);
      forall e | e in ref ensures e.id in High2(f, x) {
        assert e in Elements(ref);
        TopBeatsRest(Better, BestOf(u), k, e, b);
        BetterThrough(e, b, x);
      }
      SubsetSize(ids, High2(f, x));
    }
  }

  lemma CopyBetter(b: Entry, x: Entry)
    ensures b.id == x.id && b.score >= x.score && b != x ==> b.score > x.score
  {
  }

  lemma BetterThrough(e: Entry, b: Entry, x: Entry)
    requires Better(e, b) && b.id == x.id && b.score >= x.score
    ensures Better(e, x)
  {
  }

  lemma ListIds(u: set<Entry>, k: nat)
    requires k > 0
    ensures |set e | e in Reference(u, k) :: e.id| == |Reference(u, k)|
  {
    CoversSelf(u, k);
    ListFacts(Reference(u, k), u, u, k);
    SeqIds(Reference(u, k));
  }

  lemma {:induction false} IdBeaters(f: set<Entry>, x: Entry)
    ensures |High2(f, x)| <= |Beaters(Better, BestOf(f), x)|
  {
    var b := Beaters(Better, BestOf(f), x);
    IdCount(b);
    var ids := set e | e in b :: e.id;
    forall id | id in High2(f, x) ensures id in ids {
      var e :| e in f && Better(e, x) && e.id == id;
      var c := BestCopy(f, e);
      assert Better(c, x);
    }
    SubsetSize(High2(f, x), ids);
  }

  /** The best copies of `f` and of `u` have the same top k. */
  lemma MergeTop(u: set<Entry>, f: set<Entry>, k: nat)
    requires k > 0 && f <= u && forall x :: x in u - f ==> |High2(f, x)| >= k || Dominates(f, x)
    ensures Top(Better, BestOf(f), k) == Top(Better, BestOf(u), k)
  {
    hide Better, StrictTotal;
    BetterTotal();
    var both := BestOf(f) * BestOf(u);
    forall x | x in BestOf(u) - both ensures |Beaters(Better, BestOf(u), x)| >= k {
      NotBoth(u, f, k, x);
      High2Mono(f, u, x);
      IdBeaters(u, x);
    }
    Prune(Better, BestOf(u), both, k);
    forall x | x in BestOf(f) - both ensures |Beaters(Better, BestOf(f), x)| >= k {
      var b := BestCopy(u, x);
      LowerCopy(u, f, k, x, b);
      High2Copy(f, b, x);
      IdBeaters(f, x);
    }
    Prune(Better, BestOf(f), both, k);
  }

  lemma NotBoth(u: set<Entry>, f: set<Entry>, k: nat, x: Entry)
    requires f <= u && x in BestOf(u) && x !in BestOf(f)
    requires x in u - f ==> |High2(f, x)| >= k || Dominates(f, x)
    ensures |High2(f, x)| >= k
  {
    BestInFewer(u, f, x);
  }

  lemma BestInFewer(u: set<Entry>, f: set<Entry>, x: Entry)
    requires f <= u
    ensures x in f && x in BestOf(u) ==> x in BestOf(f)
  {
  }

  lemma LowerCopy(u: set<Entry>, f: set<Entry>, k: nat, x: Entry, b: Entry)
    requires f <= u && x in BestOf(f) && x !in BestOf(u) && b in BestOf(u) && b.id == x.id && b.score >= x.score
    requires b in u - f ==> |High2(f, b)| >= k || Dominates(f, b)
    ensures |High2(f, b)| >= k
  {
    assert Tops(u, b);
    if b in f {
      CopyIn(f, x, b);
    }
  }

  lemma CopyIn(f: set<Entry>, x: Entry, b: Entry)
    requires x in BestOf(f) && b in f && b.id == x.id && b.score >= x.score
    ensures x == b
  {
    assert Tops(f, x);
  }

  lemma High2Mono(f: set<Entry>, u: set<Entry>, x: Entry)
    requires f <= u
    ensures |High2(f, x)| <= |High2(u, x)|
  {
    SubsetSize(High2(f, x), High2(u, x));
  }

  lemma High2Copy(f: set<Entry>, b: Entry, x: Entry)
    requires b.id == x.id && b.score >= x.score
    ensures |High2(f, b)| <= |High2(f, x)|
  {
    SubsetSize(High2(f, b), High2(f, x));
  }

  // ---- a fleet of brokers, and one broker over all of its shards

  /** One shard, wherever its route lists it: the same hits under the same ids. */
  ghost predicate SameShard(r: Route, i: nat, s: Route, j: nat)
    requires i < |r.hits| && j < |s.hits|
  {
    r.hits[i] == s.hits[j] && forall h :: h in r.hits[i] ==> r.id(i, h.doc) == s.id(j, h.doc)
  }

  ghost predicate InWhole(whole: Route, s: Route, j: nat)
    requires j < |s.hits|
  {
    exists i :: 0 <= i < |whole.hits| && SameShard(whole, i, s, j)
  }

  ghost predicate InLeaves(whole: Route, i: nat, leaves: seq<Route>)
    requires i < |whole.hits|
  {
    exists l, j :: 0 <= l < |leaves| && 0 <= j < |leaves[l].hits| && SameShard(whole, i, leaves[l], j)
  }

  /** The leaves route the shards that the whole route lists, in whatever order. */
  ghost predicate Splits(whole: Route, leaves: seq<Route>) {
    && (forall i :: 0 <= i < |whole.hits| ==> InLeaves(whole, i, leaves))
    && (forall l, j :: 0 <= l < |leaves| && 0 <= j < |leaves[l].hits| ==> InWhole(whole, leaves[l], j))
  }

  lemma SameShardSets(r: Route, i: nat, s: Route, j: nat, k: nat)
    requires i < |r.hits| && j < |s.hits| && SameShard(r, i, s, j)
    ensures ShardTop(r, i, k) == ShardTop(s, j, k)
  {
    hide Retrieval.Better;
    forall e ensures e in ShardTop(r, i, k) <==> e in ShardTop(s, j, k) {
      if e in ShardTop(r, i, k) {
        var h :| h in Top(Retrieval.Better, r.hits[i], 2 * k) && e == Entry(h.score, r.id(i, h.doc));
        assert h in r.hits[i];
      }
      if e in ShardTop(s, j, k) {
        var h :| h in Top(Retrieval.Better, s.hits[j], 2 * k) && e == Entry(h.score, s.id(j, h.doc));
        assert h in r.hits[i];
      }
    }
  }

  ghost function AllListed(leaves: seq<Route>, k: nat): (parts: seq<set<Entry>>)
    ensures |parts| == |leaves| && forall l :: 0 <= l < |leaves| ==> parts[l] == Listed(leaves[l], |leaves[l].hits|, k)
  {
    seq(|leaves|, l requires 0 <= l < |leaves| => Listed(leaves[l], |leaves[l].hits|, k))
  }

  ghost function AllEntries(leaves: seq<Route>): (parts: seq<set<Entry>>)
    ensures |parts| == |leaves| && forall l :: 0 <= l < |leaves| ==> parts[l] == Entries(leaves[l], |leaves[l].hits|)
  {
    seq(|leaves|, l requires 0 <= l < |leaves| => Entries(leaves[l], |leaves[l].hits|))
  }

  /** Cutting the shards into leaves changes nothing of what they list. */
  lemma SplitListed(whole: Route, leaves: seq<Route>, k: nat)
    requires Splits(whole, leaves)
    ensures Listed(whole, |whole.hits|, k) == Union(AllListed(leaves, k))
  {
    hide ShardTop, SameShard, AllListed;
    var parts := AllListed(leaves, k);
    forall e ensures e in Listed(whole, |whole.hits|, k) <==> e in Union(parts) {
      if e in Listed(whole, |whole.hits|, k) {
        var i, x :| 0 <= i < |whole.hits| && x in ShardTop(whole, i, k) && x == e;
        assert InLeaves(whole, i, leaves);
        var l, j :| 0 <= l < |leaves| && 0 <= j < |leaves[l].hits| && SameShard(whole, i, leaves[l], j);
        SameShardSets(whole, i, leaves[l], j, k);
        assert e in parts[l];
      }
      if e in Union(parts) {
        var l, x :| 0 <= l < |parts| && x in parts[l] && x == e;
        var j, y :| 0 <= j < |leaves[l].hits| && y in ShardTop(leaves[l], j, k) && y == e;
        assert InWhole(whole, leaves[l], j);
        var i :| 0 <= i < |whole.hits| && SameShard(whole, i, leaves[l], j);
        SameShardSets(whole, i, leaves[l], j, k);
      }
    }
  }

  lemma ListedGenuine(r: Route, k: nat)
    ensures Listed(r, |r.hits|, k) <= Entries(r, |r.hits|)
  {
    hide Retrieval.Better;
    forall e | e in Listed(r, |r.hits|, k) ensures e in Entries(r, |r.hits|) {
      var i, x :| 0 <= i < |r.hits| && x in ShardTop(r, i, k) && x == e;
      var h :| h in Top(Retrieval.Better, r.hits[i], 2 * k) && e == Entry(h.score, r.id(i, h.doc));
      assert e in ShardEntries(r, i);
    }
  }

  /** What the shards list ranks as everything they hold does, exactly when no entry of that
      ranking is cut. */
  lemma ListedIff(r: Route, k: nat)
    requires k > 0
    ensures Reference(Listed(r, |r.hits|, k), k) == Reference(Entries(r, |r.hits|), k) <==> NoneCut(r, k)
  {
    hide Listed, Entries, Reference, NoneCut, IsTop;
    ListedGenuine(r, k);
    ExactIff(r, Listed(r, |r.hits|, k), k, Reference(Listed(r, |r.hits|, k), k));
  }

  /** `scatter` and its merge: every leaf searched by its own walk, then folded into one list. It is
      score-exact, and it is what one broker over all the shards returns, score by score and id by
      id, ties included. */
  method SearchFleet(walks: seq<Walk>, k: nat, noSeed: bool, opens: (nat, nat) -> bool,
                     search: (nat, nat, real) -> seq<Retrieval.Hit>, ghost leaves: seq<Route>)
    returns (reply: Reply)
    requires |walks| == |leaves| && forall l :: 0 <= l < |leaves| ==> Walks(walks[l], leaves[l])
    requires k > 0 && forall l :: 0 <= l < |leaves| ==> Sound(leaves[l]) && LeafSearches(leaves, l, k, search)
    ensures (forall l, i :: 0 <= l < |leaves| && 0 <= i < |leaves[l].shards| ==> opens(l, leaves[l].shards[i]))
              ==> reply.Found?
    ensures reply.Found? ==> ScoreExact(Es(reply.cands), Union(AllEntries(leaves)), k)
    ensures reply.Found? ==> forall c :: c in reply.cands ==> FromLeaf(leaves, c)
    ensures reply.Found? ==> forall whole :: Splits(whole, leaves) ==>
      && Es(reply.cands) == Reference(Listed(whole, |whole.hits|, k), k)
      && (Es(reply.cands) == Reference(Entries(whole, |whole.hits|), k) <==> NoneCut(whole, k))
  {
    hide Sound, Splits, Listed, Entries, Reference, NoneCut, ScoreExact, Union, Overfull, Genuine, InSomeList,
      LeafSearches;
    var lists: seq<seq<Cand>>, visited: nat := [], 0;
    while |lists| < |walks|
      invariant |lists| <= |walks|
      invariant forall l :: 0 <= l < |lists| ==>
        && Es(lists[l]) == Reference(AllListed(leaves, k)[l], k)
        && ScoreExact(Es(lists[l]), AllEntries(leaves)[l], k)
      invariant forall l, c :: 0 <= l < |lists| && c in lists[l] ==> Genuine(leaves[l], c)
    {
      var l := |lists|;
      LeafSearch(leaves, l, k, search);
      var r, th := SearchBounds(walks[l], k, noSeed, (s: nat) => opens(l, s),
        (i: nat, seed: real) => search(l, i, seed), leaves[l]);
      if r.OpenError? {
        return OpenError;
      }
      lists, visited := lists + [r.cands], visited + r.visited;
    }
    var out := MergeLeafResults(lists, k);
    assert AreScoreExact(lists, AllEntries(leaves), k) && AreRankings(lists, AllListed(leaves, k), k);
    forall whole | Splits(whole, leaves)
      ensures Es(out) == Reference(Listed(whole, |whole.hits|, k), k)
      ensures Es(out) == Reference(Entries(whole, |whole.hits|), k) <==> NoneCut(whole, k)
    {
      SplitListed(whole, leaves, k);
      ListedIff(whole, k);
    }
    reply := Found(out, visited);
  }

  ghost predicate FromLeaf(leaves: seq<Route>, c: Cand) {
    exists l :: 0 <= l < |leaves| && Genuine(leaves[l], c)
  }

  /** Hit `h` of the i-th shard is a copy of `id`. */
  ghost predicate Copy(r: Route, i: nat, h: Retrieval.Hit, id: Id) {
    i < |r.hits| && h in r.hits[i] && r.id(i, h.doc) == id
  }

  /** No id has two copies at one score, so an entry names one document. */
  ghost predicate OneCopyPerScore(r: Route) {
    forall i, j, g, h, id :: Copy(r, i, g, id) && Copy(r, j, h, id) && g.score == h.score ==> g == h
  }

  lemma GenuineCopy(r: Route, c: Cand) returns (i: nat)
    requires Genuine(r, c)
    ensures Copy(r, i, Retrieval.Hit(c.dense, c.score), c.id)
  {
    i :| 0 <= i < |r.shards| && |r.hits| == |r.shards| && c.shard == r.shards[i]
      && Retrieval.Hit(c.dense, c.score) in r.hits[i] && c.id == r.id(i, c.dense);
  }

  /** Where that is so, equal entries of the fleet and of the one broker are one document. */
  lemma SameCopies(whole: Route, leaves: seq<Route>, c: Cand, d: Cand)
    requires Splits(whole, leaves) && OneCopyPerScore(whole)
    requires FromLeaf(leaves, c) && Genuine(whole, d) && E(c) == E(d)
    ensures c.dense == d.dense
  {
    hide Genuine, OneCopyPerScore;
    var l :| 0 <= l < |leaves| && Genuine(leaves[l], c);
    var j := GenuineCopy(leaves[l], c);
    assert InWhole(whole, leaves[l], j);
    var i :| 0 <= i < |whole.hits| && SameShard(whole, i, leaves[l], j);
    var m := GenuineCopy(whole, d);
    hide Splits;
    NameOne(whole, i, m, Retrieval.Hit(c.dense, c.score), Retrieval.Hit(d.dense, d.score), c.id);
  }

  lemma NameOne(r: Route, i: nat, j: nat, g: Retrieval.Hit, h: Retrieval.Hit, id: Id)
    requires OneCopyPerScore(r) && Copy(r, i, g, id) && Copy(r, j, h, id) && g.score == h.score
    ensures g == h
  {
  }

  ghost predicate LeafSearches(leaves: seq<Route>, l: nat, k: nat, search: (nat, nat, real) -> seq<Retrieval.Hit>)
    requires l < |leaves|
  {
    forall i, seed :: 0 <= i < |leaves[l].hits| ==>
      Retrieval.SeededAnswer(search(l, i, seed), leaves[l].hits[i], 2 * k, seed)
  }

  lemma LeafSearch(leaves: seq<Route>, l: nat, k: nat, search: (nat, nat, real) -> seq<Retrieval.Hit>)
    requires l < |leaves| && LeafSearches(leaves, l, k, search)
    ensures Searches(leaves[l], k, (i: nat, seed: real) => search(l, i, seed))
  {
    hide Retrieval.SeededAnswer;
  }

  // ---- a tie that falls the other way

  /** Documents 0, 1 and 2 have ids [2], [1] and [0]. */
  function TieId(shard: nat, doc: nat): Id {
    if doc == 0 then [2] else if doc == 1 then [1] else [0]
  }

  const TIE0 := Retrieval.Hit(0, 1.0)
  const TIE1 := Retrieval.Hit(1, 1.0)
  const TIE2 := Retrieval.Hit(2, 1.0)

  /** One shard of three documents with one score, their ids in descending order. */
  function TieRoute(): Route {
    Route([0], [1.0], [{TIE0, TIE1, TIE2}], TieId)
  }

  /** The first two documents are listed; the smallest id is on the third. */
  lemma TieCut()
    ensures Sound(TieRoute()) && Reference(Entries(TieRoute(), 1), 1) == [Entry(1.0, [0])] && !NoneCut(TieRoute(), 1)
  {
    var r, z := TieRoute(), Entry(1.0, [0]);
    TieSound();
    TieEntries(r);
    TieFirst(Entries(r, 1));
    TieUnlisted(r);
    hide TieRoute, ShardTop, Reference;
    assert z in Reference(Entries(r, 1), 1) && z !in Listed(r, 1, 1);
  }

  lemma TieSound()
    ensures Sound(TieRoute()) && |TieRoute().hits| == 1
  {
  }

  lemma TieEntries(r: Route)
    requires r == TieRoute()
    ensures Entry(1.0, [0]) in Entries(r, 1)
    ensures forall e :: e in Entries(r, 1) ==> e.score == 1.0 && e.id in {[0], [1], [2]}
  {
    assert TIE2 in r.hits[0] && r.id(0, TIE2.doc) == [0];
    assert Entry(1.0, [0]) in ShardEntries(r, 0);
  }

  lemma TieFirst(u: set<Entry>)
    requires Entry(1.0, [0]) in u && forall e :: e in u ==> e.score == 1.0 && e.id in {[0], [1], [2]}
    ensures Reference(u, 1) == [Entry(1.0, [0])]
  {
    var z, ref := Entry(1.0, [0]), Reference(u, 1);
    BetterTotal();
    assert z in BestOf(u);
    assert Beaters(Better, BestOf(u), z) == {};
    hide BestOf, Better, Reference;
    assert z in Elements(ref);
    TopSize(Better, BestOf(u), 1);
    RankedSize(Better, ref);
    assert ref == [ref[0]];
  }

  lemma TieUnlisted(r: Route)
    requires r == TieRoute()
    ensures Entry(1.0, [0]) !in ShardTop(r, 0, 1)
  {
    var s := r.hits[0];
    assert Retrieval.Better(TIE0, TIE2) && Retrieval.Better(TIE1, TIE2);
    hide Retrieval.Better;
    SubsetSize({TIE0, TIE1}, Beaters(Retrieval.Better, s, TIE2));
    assert TIE2 !in Top(Retrieval.Better, s, 2);
  }

  /** The walk over that shard with k = 1: whatever answers its search may give, the reply is
      not the exhaustive ranking. */
  method TieExample(noSeed: bool, search: (nat, real) -> seq<Retrieval.Hit>) returns (reply: Reply)
    requires Searches(TieRoute(), 1, search)
    ensures reply.Found? && Es(reply.cands) != Reference(Entries(TieRoute(), 1), 1) == [Entry(1.0, [0])]
  {
    hide Searches, Entries, Reference, NoneCut, Sound, ScoreExact, Genuine, Overfull;
    TieCut();
    var threshold;
    reply, threshold := SearchBounds(Walk([0], [1.0], TieId), 1, noSeed, _ => true, search, TieRoute());
  }

  /** Such searches exist: the list of the first two documents. */
  lemma TieSearchable()
    ensures Searches(TieRoute(), 1, (_, _) => [TIE0, TIE1])
  {
    var s := {TIE0, TIE1, TIE2};
    assert Retrieval.Better(TIE0, TIE1) && Retrieval.Better(TIE0, TIE2) && Retrieval.Better(TIE1, TIE2);
    Retrieval.BetterTotal();
    hide Retrieval.Better;
    assert Beaters(Retrieval.Better, s, TIE0) == {} && Beaters(Retrieval.Better, s, TIE1) == {TIE0};
    assert Beaters(Retrieval.Better, s, TIE2) == {TIE0, TIE1};
    assert Top(Retrieval.Better, s, 2) == {TIE0, TIE1};
  }
}
