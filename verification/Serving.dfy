/** One query end to end: a shard scored through its encoded lists equals scoring every
    document (search/index.go), and routing gives the fan-out what its proof needs. */
module Serving {
  import opened Digits
  import opened Keys
  import opened TopK
  import opened TermLists
  import opened Scoring
  import opened Routing
  import opened RouteQuery
  import Postings
  import Cursors
  import Sums
  import Retrieval
  import Wand
  import WandLoop
  import Broker
  import BrokerExact
  import BrokerProgress
  import ShardSearch

  /** A shard's store: every term's encoded list. */
  ghost predicate Stores(m: map<Term, Postings.List>, docs: seq<DocTerms>) {
    && (forall t :: t in m <==> PostingsFrom(docs, 0, t) != [])
    && (forall t :: t in m ==> m[t] == Postings.EncodeList(PostingsFrom(docs, 0, t)))
  }

  /** The cursors' terms of a query, absent terms skipped, repeated terms repeated. */
  ghost function QueryTerms(docs: seq<DocTerms>, q: seq<Term>, sc: Term -> Scorer): seq<Retrieval.Term> {
    if q == [] then [] else
      var t := q[|q| - 1];
      var ps := PostingsFrom(docs, 0, t);
      QueryTerms(docs, q[..|q| - 1], sc)
      + if ps == [] then [] else [Retrieval.Term(ps, sc(t), Postings.MaxOf(Postings.Freqs(ps)))]
  }

  predicate Asked(q: seq<Term>, doc: DocTerms) {
    exists i :: 0 <= i < |q| && q[i] in doc && doc[q[i]] != 0
  }

  /** Scoring every document: the live ones holding a query term, with their scores. */
  ghost function Scored(docs: seq<DocTerms>, q: seq<Term>, sc: Term -> Scorer, keep: nat -> bool): set<Retrieval.Hit> {
    set d: nat | d < |docs| && Asked(q, docs[d]) && keep(d) :: Retrieval.Hit(d, ScoreOf(q, docs[d], sc))
  }

  ghost predicate Servable(docs: seq<DocTerms>, sc: Term -> Scorer) {
    Fits(docs) && |docs| < U32 && forall t :: Sound(sc(t))
  }

  lemma {:induction false} ListHolds(docs: seq<DocTerms>, t: Term, p: Postings.Posting)
    ensures p in PostingsFrom(docs, 0, t) <==> p.doc < |docs| && t in docs[p.doc] && docs[p.doc][t] == p.freq != 0
    decreases |docs|
  {
    if docs != [] {
      ListHolds(docs[..|docs| - 1], t, p);
    }
  }

  lemma TermGood(docs: seq<DocTerms>, t: Term, sc: Term -> Scorer)
    requires Servable(docs, sc)
    ensures var ps := PostingsFrom(docs, 0, t);
      Retrieval.GoodTerm(Retrieval.Term(ps, sc(t), Postings.MaxOf(Postings.Freqs(ps))))
  {
    hide PostingsFrom, Postings.MaxOf;
    var ps := PostingsFrom(docs, 0, t);
    PostingsAscend(docs, 0, t);
    forall i | 0 <= i < |ps| ensures 1 <= ps[i].freq <= Postings.MaxOf(Postings.Freqs(ps)) && ps[i].doc < U32 - 1 {
      assert ps[i] in ps;
      ListHolds(docs, t, ps[i]);
      assert Postings.Freqs(ps)[i] == ps[i].freq;
    }
  }

  /** One term adds to a document what the document's own frequency says. */
  lemma TermAdds(docs: seq<DocTerms>, t: Term, sc: Term -> Scorer, m: nat, d: nat)
    requires Servable(docs, sc) && d < |docs|
    requires Retrieval.GoodTerm(Retrieval.Term(PostingsFrom(docs, 0, t), sc(t), m))
    ensures Retrieval.Contribution(Retrieval.Term(PostingsFrom(docs, 0, t), sc(t), m), d) == TermScore(t, docs[d], sc)
  {
    hide PostingsFrom, Cursors.FirstGEQ;
    var term := Retrieval.Term(PostingsFrom(docs, 0, t), sc(t), m);
    Retrieval.ContributionNonNegative(term, d);
    if t in docs[d] && docs[d][t] != 0 {
      ListHolds(docs, t, Postings.Posting(d, docs[d][t]));
      var i :| 0 <= i < |term.ps| && term.ps[i] == Postings.Posting(d, docs[d][t]);
      Retrieval.ContributionAt(term, d, i);
    } else if i :| 0 <= i < |term.ps| && term.ps[i].doc == d {
      assert term.ps[i] in term.ps;
      ListHolds(docs, t, term.ps[i]);
    }
  }

  lemma ScoreSnoc(terms: seq<Retrieval.Term>, t: Retrieval.Term, d: nat)
    ensures Retrieval.DocScore(terms + [t], d) == Retrieval.DocScore(terms, d) + Retrieval.Contribution(t, d)
  {
    hide Retrieval.Contribution;
    var c := Retrieval.Contributions(terms + [t], d);
    assert c[..|terms|] == Retrieval.Contributions(terms, d);
  }

  lemma DocsSnoc(terms: seq<Retrieval.Term>, t: Retrieval.Term, d: nat)
    ensures d in Retrieval.Docs(terms + [t]) <==>
      d in Retrieval.Docs(terms) || exists i :: 0 <= i < |t.ps| && t.ps[i].doc == d
  {
    var all := terms + [t];
    if d in Retrieval.Docs(all) {
      var u, i :| 0 <= u < |all| && 0 <= i < |all[u].ps| && all[u].ps[i].doc == d;
      assert u < |terms| ==> terms[u] == all[u];
    }
    if d in Retrieval.Docs(terms) {
      var u, i :| 0 <= u < |terms| && 0 <= i < |terms[u].ps| && terms[u].ps[i].doc == d;
      assert all[u] == terms[u];
    }
    if i :| 0 <= i < |t.ps| && t.ps[i].doc == d {
      assert all[|terms|].ps[i].doc == d;
    }
  }

  lemma AskedSnoc(q: seq<Term>, t: Term, doc: DocTerms)
    ensures Asked(q + [t], doc) <==> Asked(q, doc) || (t in doc && doc[t] != 0)
  {
    var all := q + [t];
    if i :| 0 <= i < |all| && all[i] in doc && doc[all[i]] != 0 {
      assert i < |q| ==> q[i] == all[i];
    }
    if i :| 0 <= i < |q| && q[i] in doc && doc[q[i]] != 0 {
      assert all[i] == q[i];
    }
    if t in doc && doc[t] != 0 {
      assert all[|q|] in doc;
    }
  }

  lemma NoPosting(docs: seq<DocTerms>, t: Term, d: nat)
    requires d < |docs|
    ensures (exists i :: 0 <= i < |PostingsFrom(docs, 0, t)| && PostingsFrom(docs, 0, t)[i].doc == d)
            <==> t in docs[d] && docs[d][t] != 0
  {
    hide PostingsFrom;
    var ps := PostingsFrom(docs, 0, t);
    if t in docs[d] && docs[d][t] != 0 {
      ListHolds(docs, t, Postings.Posting(d, docs[d][t]));
      var i :| 0 <= i < |ps| && ps[i] == Postings.Posting(d, docs[d][t]);
      assert ps[i].doc == d;
    }
    if i :| 0 <= i < |ps| && ps[i].doc == d {
      assert ps[i] in ps;
      ListHolds(docs, t, ps[i]);
    }
  }

  /** The retrieval loop's score and match are the documents' own. */
  lemma {:induction false} SameScore(docs: seq<DocTerms>, q: seq<Term>, sc: Term -> Scorer, d: nat)
    requires Servable(docs, sc) && d < |docs|
    ensures Retrieval.DocScore(QueryTerms(docs, q, sc), d) == ScoreOf(q, docs[d], sc)
    ensures d in Retrieval.Docs(QueryTerms(docs, q, sc)) <==> Asked(q, docs[d])
    decreases |q|
  {
    hide PostingsFrom, Retrieval.DocScore, Retrieval.Docs, Asked, Postings.MaxOf, Servable, TermScore;
    if q == [] {
      NoTermsNoScore(docs, d);
    } else {
      var front, t := q[..|q| - 1], q[|q| - 1];
      var ps := PostingsFrom(docs, 0, t);
      var m := Postings.MaxOf(Postings.Freqs(ps));
      SameScore(docs, front, sc, d);
      assert q == front + [t];
      AskedSnoc(front, t, docs[d]);
      NoPosting(docs, t, d);
      TermGood(docs, t, sc);
      TermAdds(docs, t, sc, m, d);
      if ps == [] {
        NoTermScore(t, docs[d], sc);
        assert QueryTerms(docs, q, sc) == QueryTerms(docs, front, sc);
      } else {
        ScoreSnoc(QueryTerms(docs, front, sc), Retrieval.Term(ps, sc(t), m), d);
        DocsSnoc(QueryTerms(docs, front, sc), Retrieval.Term(ps, sc(t), m), d);
      }
    }
  }

  lemma NoTermScore(t: Term, doc: DocTerms, sc: Term -> Scorer)
    requires !(t in doc && doc[t] != 0)
    ensures TermScore(t, doc, sc) == 0.0
  {
  }

  lemma NoTermsNoScore(docs: seq<DocTerms>, d: nat)
    requires d < |docs|
    ensures Retrieval.DocScore([], d) == 0.0 && d !in Retrieval.Docs([]) && !Asked([], docs[d])
  {
  }

  lemma {:induction false} DocsBelow(docs: seq<DocTerms>, q: seq<Term>, sc: Term -> Scorer, d: nat)
    requires d in Retrieval.Docs(QueryTerms(docs, q, sc))
    ensures d < |docs|
    decreases |q|
  {
    hide PostingsFrom, Retrieval.Docs, Postings.MaxOf;
    if q == [] {
      assert d !in Retrieval.Docs([]) by { NoDocs(); }
    } else {
      var t := q[|q| - 1];
      var ps := PostingsFrom(docs, 0, t);
      if ps == [] {
        assert QueryTerms(docs, q, sc) == QueryTerms(docs, q[..|q| - 1], sc);
        DocsBelow(docs, q[..|q| - 1], sc, d);
      } else {
        DocsSnoc(QueryTerms(docs, q[..|q| - 1], sc), Retrieval.Term(ps, sc(t), Postings.MaxOf(Postings.Freqs(ps))), d);
        PostingsAscend(docs, 0, t);
        if d in Retrieval.Docs(QueryTerms(docs, q[..|q| - 1], sc)) { DocsBelow(docs, q[..|q| - 1], sc, d); }
      }
    }
  }

  lemma NoDocs()
    ensures Retrieval.Docs([]) == {}
  {
  }

  /** What the retrieval loop ranks is what scoring every document gives. */
  lemma SameMatches(docs: seq<DocTerms>, q: seq<Term>, sc: Term -> Scorer, keep: nat -> bool)
    requires Servable(docs, sc)
    ensures Retrieval.Matches(QueryTerms(docs, q, sc), keep) == Scored(docs, q, sc, keep)
  {
    hide Servable, QueryTerms, Asked, ScoreOf, Retrieval.DocScore, Retrieval.Docs;
    var terms := QueryTerms(docs, q, sc);
    forall h ensures h in Retrieval.Matches(terms, keep) <==> h in Scored(docs, q, sc, keep) {
      if h in Retrieval.Matches(terms, keep) { DocsBelow(docs, q, sc, h.doc); }
      if h.doc < |docs| { SameScore(docs, q, sc, h.doc); }
    }
  }

  lemma {:induction false} QueryGood(docs: seq<DocTerms>, q: seq<Term>, sc: Term -> Scorer)
    requires Servable(docs, sc)
    ensures Retrieval.Good(QueryTerms(docs, q, sc))
    decreases |q|
  {
    hide PostingsFrom, Postings.MaxOf, Servable, Retrieval.GoodTerm;
    if q != [] {
      QueryGood(docs, q[..|q| - 1], sc);
      TermGood(docs, q[|q| - 1], sc);
    }
  }

  // ---- one shard

  lemma StoredList(m: map<Term, Postings.List>, docs: seq<DocTerms>, t: Term)
    requires Stores(m, docs) && Fits(docs)
    ensures t in m <==> PostingsFrom(docs, 0, t) != []
    ensures t in m ==>
      m[t] == Postings.EncodeList(PostingsFrom(docs, 0, t)) && Cursors.IsEncoding(m[t], PostingsFrom(docs, 0, t))
    ensures t in m ==> Postings.Ascending(PostingsFrom(docs, 0, t)) && Postings.Words(PostingsFrom(docs, 0, t))
  {
    hide PostingsFrom, Postings.EncodeList;
    if t in m {
      PostingsAscend(docs, 0, t);
      Cursors.Opened(m[t], PostingsFrom(docs, 0, t));
    }
  }

  /** The cursors so far stand for the first terms of the query. */
  ghost predicate Prepared(inputs: seq<Wand.TermInput>, docs: seq<DocTerms>, q: seq<Term>, sc: Term -> Scorer) {
    WandLoop.InputTerms(inputs) == QueryTerms(docs, q, sc) && WandLoop.Apart(inputs)
  }

  lemma PreparedNext(inputs: seq<Wand.TermInput>, input: Wand.TermInput, docs: seq<DocTerms>, q: seq<Term>, t: Term,
                     sc: Term -> Scorer)
    requires Prepared(inputs, docs, q, sc) && PostingsFrom(docs, 0, t) != []
    requires Retrieval.Term(input.cursor.ps, input.scorer, input.maxFreq)
             == Retrieval.Term(PostingsFrom(docs, 0, t), sc(t),
               Postings.MaxOf(Postings.Freqs(PostingsFrom(docs, 0, t))))
    requires forall i :: 0 <= i < |inputs| ==> inputs[i].cursor.Foot() !! input.cursor.Foot()
    ensures Prepared(inputs + [input], docs, q + [t], sc)
  {
    hide PostingsFrom, Postings.MaxOf;
    assert (q + [t])[..|q|] == q;
    var all := inputs + [input];
    assert WandLoop.InputTerms(all) == WandLoop.InputTerms(inputs)
      + [Retrieval.Term(input.cursor.ps, input.scorer, input.maxFreq)];
  }

  lemma PreparedSkip(inputs: seq<Wand.TermInput>, docs: seq<DocTerms>, q: seq<Term>, t: Term, sc: Term -> Scorer)
    requires Prepared(inputs, docs, q, sc) && PostingsFrom(docs, 0, t) == []
    ensures Prepared(inputs, docs, q + [t], sc)
  {
    hide PostingsFrom, Postings.MaxOf;
    assert (q + [t])[..|q|] == q;
    assert QueryTerms(docs, q + [t], sc) == QueryTerms(docs, q, sc);
  }

  /** One query term: a cursor on its list, its scorer, and its bound. */
  method OpenTerm(m: map<Term, Postings.List>, t: Term, sc: Term -> Scorer, ghost docs: seq<DocTerms>)
    returns (input: Wand.TermInput)
    requires Stores(m, docs) && Fits(docs) && t in m
    ensures Retrieval.Term(input.cursor.ps, input.scorer, input.maxFreq)
            == Retrieval.Term(PostingsFrom(docs, 0, t), sc(t), Postings.MaxOf(Postings.Freqs(PostingsFrom(docs, 0, t))))
    ensures WandLoop.Ready(input.cursor)
    ensures fresh(input.cursor.Foot())
  {
    hide PostingsFrom, Postings.EncodeList, Postings.MaxOf, Stores;
    ghost var ps := PostingsFrom(docs, 0, t);
    StoredList(m, docs, t);
    var cursor := new Cursors.Cursor(m[t], ps);
    var mf := Postings.MaxFreq(m[t], ps);
    input := Wand.TermInput(cursor, sc(t), mf);
  }

  lemma AllReady(inputs: seq<Wand.TermInput>)
    requires forall c :: c in inputs ==> WandLoop.Ready(c.cursor)
    ensures WandLoop.Unmoved(inputs, 0)
  {
    hide WandLoop.Ready;
    forall i | 0 <= i < |inputs| ensures WandLoop.Ready(inputs[i].cursor) {
      assert inputs[i] in inputs;
    }
  }

  method OpenTerms(m: map<Term, Postings.List>, q: seq<Term>, sc: Term -> Scorer, ghost docs: seq<DocTerms>)
    returns (inputs: seq<Wand.TermInput>)
    requires Stores(m, docs) && Fits(docs)
    ensures Prepared(inputs, docs, q, sc) && WandLoop.Unmoved(inputs, 0) && fresh(WandLoop.InputFeet(inputs))
  {
    hide Prepared, Stores, PostingsFrom, WandLoop.Ready, WandLoop.Unmoved, Fits, Postings.MaxOf, Postings.EncodeList;
    inputs := [];
    PreparedNone(docs, sc);
    var i := 0;
    assert q[..0] == [];
    while i < |q|
      invariant 0 <= i <= |q| && Prepared(inputs, docs, q[..i], sc)
      invariant forall c :: c in inputs ==> WandLoop.Ready(c.cursor)
      invariant forall c :: c in inputs ==> fresh(c.cursor) && fresh(c.cursor.docs) && fresh(c.cursor.freqs)
    {
      assert q[..i + 1] == q[..i] + [q[i]];
      StoredList(m, docs, q[i]);
      if q[i] in m {
        label before:
        var input := OpenTerm(m, q[i], sc, docs);
        forall j | 0 <= j < |inputs| ensures inputs[j].cursor.Foot() !! input.cursor.Foot() {
          assert fresh@before(input.cursor.Foot()) && !fresh@before(inputs[j].cursor);
          assert !fresh@before(inputs[j].cursor.docs) && !fresh@before(inputs[j].cursor.freqs);
        }
        PreparedNext(inputs, input, docs, q[..i], q[i], sc);
        inputs := inputs + [input];
      } else {
        PreparedSkip(inputs, docs, q[..i], q[i], sc);
      }
      i := i + 1;
    }
    assert q[..i] == q;
    AllReady(inputs);
  }

  /** `SearchSeeded`: through the encoded lists, the answer of scoring every document. */
  method SearchSeeded(m: map<Term, Postings.List>, q: seq<Term>, k: int, sc: Term -> Scorer, keep: nat -> bool,
                      seed: real, ghost docs: seq<DocTerms>)
    returns (hits: seq<Retrieval.Hit>)
    requires Stores(m, docs) && Servable(docs, sc)
    ensures k <= 0 ==> hits == []
    ensures k > 0 ==> Retrieval.SeededAnswer(hits, Scored(docs, q, sc, keep), k, seed)
  {
    hide Prepared, Stores, QueryTerms, Retrieval.SeededAnswer, Scored, WandLoop.Unmoved, WandLoop.Apart,
      WandLoop.InputFeet, Retrieval.Good, Retrieval.Matches;
    var inputs := OpenTerms(m, q, sc, docs);
    QueryGood(docs, q, sc);
    PreparedAll(inputs, docs, q, sc);
    SameMatches(docs, q, sc, keep);
    hits := WandLoop.WANDFilterSeeded(inputs, k, keep, seed);
  }

  lemma PreparedNone(docs: seq<DocTerms>, sc: Term -> Scorer)
    ensures Prepared([], docs, [], sc) && WandLoop.Unmoved([], 0) && WandLoop.InputFeet([]) == {}
  {
  }

  lemma PreparedAll(inputs: seq<Wand.TermInput>, docs: seq<DocTerms>, q: seq<Term>, sc: Term -> Scorer)
    requires Prepared(inputs, docs, q, sc)
    ensures WandLoop.Apart(inputs) && WandLoop.InputTerms(inputs) == QueryTerms(docs, q, sc)
  {
  }

  // ---- all shards

  /** What a shard tells the router about itself. */
  ghost predicate Describes(src: Source, docs: seq<DocTerms>) {
    forall t ::
      && (t in src <==> PostingsFrom(docs, 0, t) != [])
      && (t in src ==> src[t].maxFreq == Postings.MaxOf(Postings.Freqs(PostingsFrom(docs, 0, t))))
  }

  lemma DescribesCovers(src: Source, docs: seq<DocTerms>, d: nat)
    requires Describes(src, docs) && d < |docs|
    ensures Covers(src, docs[d])
    ensures forall t :: t in src ==> src[t].maxFreq >= 1
  {
    hide PostingsFrom, Postings.MaxOf;
    forall t | t in docs[d] && docs[d][t] != 0 ensures t in src && docs[d][t] <= src[t].maxFreq {
      ListHolds(docs, t, Postings.Posting(d, docs[d][t]));
      var ps := PostingsFrom(docs, 0, t);
      var i :| 0 <= i < |ps| && ps[i] == Postings.Posting(d, docs[d][t]);
      assert Postings.Freqs(ps)[i] == docs[d][t];
    }
    forall t | t in src ensures src[t].maxFreq >= 1 {
      var ps := PostingsFrom(docs, 0, t);
      assert ps[0] in ps;
      ListHolds(docs, t, ps[0]);
      assert Postings.Freqs(ps)[0] == ps[0].freq;
    }
  }

  /** The fan-out's configuration: routed shards with their bounds, and in each what scoring
      every document gives. */
  ghost predicate Configures(c: Broker.Config, out: seq<ShardBound>, shards: seq<seq<DocTerms>>, q: seq<Term>,
                             sc: Term -> Scorer, keep: seq<nat -> bool>) {
    && c.k > 0 && |keep| == |shards| && |c.shards| == |c.bounds| == |c.hits| == |out|
    && forall i :: 0 <= i < |out| ==> (
         out[i].shard < |shards| && c.shards[i] == out[i].shard && c.bounds[i] == out[i].bound
         && c.hits[i] == ShardSearch.TagSet(out[i].shard, Scored(shards[out[i].shard], q, sc, keep[out[i].shard])))
  }

  /** Every hit of scoring every document of every shard. */
  ghost function Everything(shards: seq<seq<DocTerms>>, q: seq<Term>, sc: Term -> Scorer,
                            keep: seq<nat -> bool>): set<Broker.CHit>
    requires |keep| == |shards|
  {
    set s, h | 0 <= s < |shards| && h in Scored(shards[s], q, sc, keep[s]) :: ShardSearch.Tag(s, h)
  }

  lemma ShardBounded(src: Source, docs: seq<DocTerms>, q: seq<Term>, sc: Term -> Scorer, keep: nat -> bool,
                     h: Retrieval.Hit)
    requires Describes(src, docs) && (forall t :: Steady(sc(t))) && h in Scored(docs, q, sc, keep)
    ensures 0.0 < h.score <= BoundOf(q, src, sc) && HoldsAny(q, src)
  {
    hide PostingsFrom, Postings.MaxOf, Steady, Describes, ScoreOf, BoundOf;
    DescribesCovers(src, docs, h.doc);
    BoundCovers(q, src, docs[h.doc], sc);
    ScorePositive(q, docs[h.doc], sc);
    var i :| 0 <= i < |q| && q[i] in docs[h.doc] && docs[h.doc][q[i]] != 0;
    assert q[i] in src;
  }

  lemma {:induction false} ScorePositive(q: seq<Term>, doc: DocTerms, sc: Term -> Scorer)
    requires forall t :: Steady(sc(t))
    ensures ScoreOf(q, doc, sc) >= 0.0
    ensures Asked(q, doc) ==> ScoreOf(q, doc, sc) > 0.0
    decreases |q|
  {
    if q != [] {
      var front, t := q[..|q| - 1], q[|q| - 1];
      ScorePositive(front, doc, sc);
      assert Steady(sc(t));
      assert q == front + [t];
      AskedSnoc(front, t, doc);
      hide Asked;
      if t in doc && doc[t] != 0 {
        assert 0.0 < sc(t).score(doc[t]) <= sc(t).maxScore(doc[t]);
      }
    }
  }

  lemma RouteOrder(out: seq<ShardBound>, i: nat, j: nat)
    requires Ranked(BoundBetter, out) && i < j < |out|
    ensures out[i].bound >= out[j].bound
    ensures out[i].bound == out[j].bound ==> out[i].shard < out[j].shard
  {
    assert BoundBetter(out[i], out[j]);
  }

  /** Routing meets the fan-out's requirements, and the shards it leaves out hold nothing:
      so with `BrokerProgress.EveryScheduleReturns` the broker's answer is the exact top-k of
      scoring every document of every shard. */
  lemma RouteServes(c: Broker.Config, out: seq<ShardBound>, srcs: seq<Source>, shards: seq<seq<DocTerms>>, q: seq<Term>,
                    sc: Term -> Scorer, keep: seq<nat -> bool>)
    requires Configures(c, out, shards, q, sc, keep) && |srcs| == |shards| && (forall t :: Steady(sc(t)))
    requires forall s :: 0 <= s < |srcs| ==> Describes(srcs[s], shards[s])
    requires Ranked(BoundBetter, out)
    requires forall b :: b in out <==>
      b.shard < |srcs| && HoldsAny(q, srcs[b.shard]) && b.bound == BoundOf(q, srcs[b.shard], sc)
    ensures Broker.Routed(c)
    ensures Broker.AllHits(c) == Everything(shards, q, sc, keep)
  {
    hide Describes, BoundOf, HoldsAny, Scored, Ranked, Steady;
    forall i, j | 0 <= i < j < |out| ensures c.bounds[i] >= c.bounds[j] && c.shards[i] != c.shards[j] {
      RouteOrder(out, i, j);
      assert out[i] in out && out[j] in out;
    }
    forall i, h | 0 <= i < |c.hits| && h in c.hits[i] ensures h.shard == c.shards[i] && 0.0 < h.score <= c.bounds[i] {
      var s := out[i].shard;
      assert out[i] in out;
      var g :| g in Scored(shards[s], q, sc, keep[s]) && ShardSearch.Tag(s, g) == h;
      ShardBounded(srcs[s], shards[s], q, sc, keep[s], g);
    }
    forall h ensures h in Broker.AllHits(c) <==> h in Everything(shards, q, sc, keep) {
      RouteComplete(c, out, srcs, shards, q, sc, keep, h);
    }
  }

  lemma RouteComplete(c: Broker.Config, out: seq<ShardBound>, srcs: seq<Source>, shards: seq<seq<DocTerms>>,
                      q: seq<Term>, sc: Term -> Scorer, keep: seq<nat -> bool>, h: Broker.CHit)
    requires Configures(c, out, shards, q, sc, keep) && |srcs| == |shards| && (forall t :: Steady(sc(t)))
    requires forall s :: 0 <= s < |srcs| ==> Describes(srcs[s], shards[s])
    requires forall b :: b in out <==>
      b.shard < |srcs| && HoldsAny(q, srcs[b.shard]) && b.bound == BoundOf(q, srcs[b.shard], sc)
    ensures h in Broker.AllHits(c) <==> h in Everything(shards, q, sc, keep)
  {
    hide Describes, BoundOf, HoldsAny, Scored, Steady;
    if h in Broker.AllHits(c) {
      var i, x :| 0 <= i < |c.hits| && x in c.hits[i] && x == h;
      var s := out[i].shard;
      var g :| g in Scored(shards[s], q, sc, keep[s]) && ShardSearch.Tag(s, g) == h;
    }
    if h in Everything(shards, q, sc, keep) {
      var s, g :| 0 <= s < |shards| && g in Scored(shards[s], q, sc, keep[s]) && ShardSearch.Tag(s, g) == h;
      ShardBounded(srcs[s], shards[s], q, sc, keep[s], g);
      var b := ShardBound(s, BoundOf(q, srcs[s], sc));
      assert b in out;
      var i :| 0 <= i < |out| && out[i] == b;
      assert h in c.hits[i];
    }
  }

  // ---- what the statistics count

  ghost predicate HasTerm(shards: seq<seq<DocTerms>>, t: Term, s: nat, d: nat) {
    s < |shards| && d < |shards[s]| && t in shards[s][d] && shards[s][d][t] != 0
  }

  /** The documents of the first `n` shards holding `t`, by shard and number. */
  ghost function Holders(shards: seq<seq<DocTerms>>, t: Term, n: nat): set<(nat, nat)>
    requires n <= |shards|
  {
    set s, d | 0 <= s < n && 0 <= d < |shards[s]| && HasTerm(shards, t, s, d) :: (s, d)
  }

  ghost function HoldersIn(docs: seq<DocTerms>, t: Term, s: nat): set<(nat, nat)> {
    set d: nat | d < |docs| && t in docs[d] && docs[d][t] != 0 :: (s, d)
  }

  lemma HoldersSnoc(docs: seq<DocTerms>, t: Term, s: nat)
    requires docs != []
    ensures var n := |docs| - 1; var front := HoldersIn(docs[..n], t, s);
      && (s, n) !in front
      && HoldersIn(docs, t, s) == front + (if t in docs[n] && docs[n][t] != 0 then {(s, n)} else {})
  {
    var n := |docs| - 1;
    forall d: nat | d < n ensures docs[..n][d] == docs[d] {
    }
  }

  lemma {:induction false} ListCounts(docs: seq<DocTerms>, t: Term, s: nat)
    ensures |PostingsFrom(docs, 0, t)| == |HoldersIn(docs, t, s)|
    decreases |docs|
  {
    if docs == [] {
      assert HoldersIn(docs, t, s) == {};
    } else {
      HoldersSnoc(docs, t, s);
      ListCounts(docs[..|docs| - 1], t, s);
      hide HoldersIn;
    }
  }

  lemma HoldersNext(shards: seq<seq<DocTerms>>, t: Term)
    requires shards != []
    ensures var n := |shards| - 1;
      && Holders(shards, t, n + 1) == Holders(shards[..n], t, n) + HoldersIn(shards[n], t, n)
      && Holders(shards[..n], t, n) !! HoldersIn(shards[n], t, n)
  {
    var n := |shards| - 1;
    var last := HoldersIn(shards[n], t, n);
    forall s, d | (s, d) in Holders(shards, t, n + 1) ensures (s, d) in Holders(shards[..n], t, n) + last {
      assert HasTerm(shards, t, s, d);
      if s < n { assert HasTerm(shards[..n], t, s, d); }
    }
    forall s, d | (s, d) in Holders(shards[..n], t, n) + last ensures (s, d) in Holders(shards, t, n + 1) {
      if s < n { assert HasTerm(shards[..n], t, s, d); }
      assert HasTerm(shards, t, s, d);
    }
  }

  /** If every shard says of every term how long its list is, the global document frequency is the
      number of documents of all shards that hold the term. */
  lemma {:induction false} DocFreqCounts(srcs: seq<Source>, shards: seq<seq<DocTerms>>, t: Term)
    requires |srcs| == |shards|
    requires forall s :: 0 <= s < |srcs| ==>
      (t in srcs[s] ==> srcs[s][t].df == |PostingsFrom(shards[s], 0, t)|)
      && (t !in srcs[s] ==> PostingsFrom(shards[s], 0, t) == [])
    ensures GlobalDF(srcs, t) == |Holders(shards, t, |shards|)|
    decreases |srcs|
  {
    hide PostingsFrom, HoldersIn;
    if srcs == [] {
      assert Holders(shards, t, 0) == {};
    } else {
      hide Holders;
      var n := |srcs| - 1;
      DocFreqCounts(srcs[..n], shards[..n], t);
      ListCounts(shards[n], t, n);
      HoldersNext(shards, t);
    }
  }

  /** A one-term bound is no looser than it must be: where the bound of a frequency is its score, as
      BM25's is, some document of the shard scores it. */
  lemma BoundAttained(src: Source, docs: seq<DocTerms>, t: Term, sc: Term -> Scorer) returns (d: nat)
    requires Describes(src, docs) && t in src && forall f: nat :: f > 0 ==> sc(t).maxScore(f) == sc(t).score(f)
    ensures d < |docs| && ScoreOf([t], docs[d], sc) == BoundOf([t], src, sc)
  {
    var ps := PostingsFrom(docs, 0, t);
    var i :| 0 <= i < |ps| && Postings.Freqs(ps)[i] == Postings.MaxOf(Postings.Freqs(ps));
    assert ps[i] in ps && ps[i].freq == src[t].maxFreq;
    ListHolds(docs, t, ps[i]);
    d := ps[i].doc;
    ScoreAdds([], [], t, docs[d], sc);
    BoundAdds([], [], t, src, sc);
  }

  // ---- a whole query

  /** What a query is asked of: its routed shards, all shards' documents, terms and scorers. */
  datatype Query = Query(c: Broker.Config, out: seq<ShardBound>, srcs: seq<Source>, shards: seq<seq<DocTerms>>,
                         q: seq<Term>, sc: Term -> Scorer, keep: seq<nat -> bool>)

  /** Routed as `RouteWith` routes, over shards that describe themselves truly. */
  ghost predicate WellRouted(u: Query) {
    && Configures(u.c, u.out, u.shards, u.q, u.sc, u.keep) && |u.srcs| == |u.shards|
    && (forall t :: Steady(u.sc(t)))
    && (forall s :: 0 <= s < |u.srcs| ==> Describes(u.srcs[s], u.shards[s]) && Servable(u.shards[s], u.sc))
    && Ranked(BoundBetter, u.out)
    && forall b :: b in u.out <==>
         b.shard < |u.srcs| && HoldsAny(u.q, u.srcs[b.shard]) && b.bound == BoundOf(u.q, u.srcs[b.shard], u.sc)
  }

  /** `reply` is what `SearchSeeded` promises of the i-th routed shard, tagged with it. */
  ghost predicate Served(u: Query, i: nat, seed: real, reply: seq<Broker.CHit>)
    requires Configures(u.c, u.out, u.shards, u.q, u.sc, u.keep) && i < |u.out|
  {
    var s := u.out[i].shard;
    exists hits :: reply == ShardSearch.TagAll(s, hits)
      && Retrieval.SeededAnswer(hits, Scored(u.shards[s], u.q, u.sc, u.keep[s]), u.c.k, seed)
  }

  lemma ServedIsAnswer(u: Query, i: nat, seed: real, reply: seq<Broker.CHit>)
    requires WellRouted(u) && i < |u.out| && Served(u, i, seed, reply)
    ensures Broker.SearchAnswer(u.c, i, seed, reply)
  {
    hide Broker.SearchAnswer, Retrieval.SeededAnswer, Scored, Servable, QueryTerms, Retrieval.Matches, Describes,
      Ranked, BoundOf, HoldsAny, Steady, ShardSearch.TagAll, ShardSearch.TagSet;
    var s := u.out[i].shard;
    var hits :| reply == ShardSearch.TagAll(s, hits)
      && Retrieval.SeededAnswer(hits, Scored(u.shards[s], u.q, u.sc, u.keep[s]), u.c.k, seed);
    SameMatches(u.shards[s], u.q, u.sc, u.keep[s]);
    ShardSearch.SeededIsAnswer(u.c, i, QueryTerms(u.shards[s], u.q, u.sc), u.keep[s], seed, hits);
  }

  /** A step of the query: a search that completes gives a served reply, any other step is the
      fan-out's own. */
  ghost predicate Steps(u: Query, s: Broker.State, a: Broker.Act)
    requires Configures(u.c, u.out, u.shards, u.q, u.sc, u.keep)
  {
    if !a.choice.Answer? then Broker.Enabled(u.c, s, a)
    else
      match a
      case Main(ch) =>
        && s.phase == Broker.Warming && s.sh.next < |u.out| && |s.sh.heap| < u.c.k
        && Served(u, s.sh.next, 0.0, ch.out)
      case Step(w, ch) =>
        && s.phase == Broker.Pooling && w < |s.ws| && s.ws[w].Search? && Broker.Indexed(u.c, s.sh, s.ws[w])
        && s.ws[w].i < |u.out| && Served(u, s.ws[w].i, s.ws[w].seed, ch.out)
  }

  ghost predicate Moves(u: Query, s: Broker.State, a: Broker.Act, s': Broker.State)
    requires Configures(u.c, u.out, u.shards, u.q, u.sc, u.keep)
  {
    Steps(u, s, a) && (Broker.Enabled(u.c, s, a) ==> s' == Broker.Next(u.c, s, a))
  }

  lemma StepsEnabled(u: Query, s: Broker.State, a: Broker.Act)
    requires WellRouted(u) && Steps(u, s, a)
    ensures Broker.Enabled(u.c, s, a)
  {
    hide WellRouted, Served, Broker.SearchAnswer;
    if a.choice.Answer? {
      Shapes(u);
      match a
      case Main(ch) => ServedIsAnswer(u, s.sh.next, 0.0, ch.out);
      case Step(w, ch) => ServedIsAnswer(u, s.ws[w].i, s.ws[w].seed, ch.out);
    }
  }

  lemma Shapes(u: Query)
    requires WellRouted(u)
    ensures u.c.k > 0 && |u.c.bounds| == |u.c.hits| == |u.out|
  {
  }

  /** The whole query: routed by its terms, its shards searched through their encoded lists by
      any number of workers under any schedule, it ends; and unless some shard failed to open, it
      returns the exact top k of scoring every document of every shard. */
  lemma QueryReturns(u: Query, f: nat -> Broker.State, g: nat -> Broker.Act) returns (n: nat)
    requires WellRouted(u) && f(0) == Broker.Init()
    requires forall i: nat :: !Broker.Terminal(f(i)) ==> Moves(u, f(i), g(i), f(i + 1))
    ensures Broker.Terminal(f(n)) && forall j :: 0 <= j < n ==> !Broker.Terminal(f(j))
    ensures Broker.Returned(u.c, f(n)).OpenError? <==> exists i :: 0 <= i < n && BrokerProgress.OpenFailed(g(i))
    ensures Broker.Returned(u.c, f(n)).Hits? ==>
      && IsTop(Broker.Better, Broker.Returned(u.c, f(n)).hits, Everything(u.shards, u.q, u.sc, u.keep), u.c.k)
      && BrokerExact.FirstK(Broker.Returned(u.c, f(n)).hits, Everything(u.shards, u.q, u.sc, u.keep), u.c.k)
  {
    assert Broker.Routed(u.c) && Broker.AllHits(u.c) == Everything(u.shards, u.q, u.sc, u.keep) by {
      RouteServes(u.c, u.out, u.srcs, u.shards, u.q, u.sc, u.keep);
    }
    hide WellRouted, Steps, Broker.Enabled, Broker.Next, Broker.Terminal, Broker.Routed, Broker.AllHits, Everything,
      IsTop;
    forall i: nat | !Broker.Terminal(f(i))
      ensures Broker.Enabled(u.c, f(i), g(i)) && f(i + 1) == Broker.Next(u.c, f(i), g(i))
    {
      assert Moves(u, f(i), g(i), f(i + 1));
      StepsEnabled(u, f(i), g(i));
    }
    n := BrokerProgress.EveryScheduleReturns(u.c, f, g);
  }
}
