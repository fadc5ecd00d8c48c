/** The routing index (search/routing.go): which shards hold a term, flat in columns, and the
    bounds that let a broker stop early. */
module Routing {
  import opened Digits
  import opened Keys
  import opened TopK
  import opened TermLists
  import opened Scoring

  /** What one shard says of one term. */
  datatype Stat = Stat(df: nat, maxFreq: nat)
  type Source = map<Term, Stat>

  datatype ShardPosting = ShardPosting(shard: nat, df: nat, maxFreq: nat)
  datatype TermRoute = TermRoute(globalDF: nat, shards: seq<ShardPosting>)

  // ---- what the index must say

  /** The shards holding `t`, ascending. */
  function RowOf(srcs: seq<Source>, t: Term): seq<ShardPosting> {
    if srcs == [] then [] else
      var n := |srcs| - 1;
      RowOf(srcs[..n], t) + if t in srcs[n] then [ShardPosting(n, srcs[n][t].df, srcs[n][t].maxFreq)] else []
  }

  function GlobalDF(srcs: seq<Source>, t: Term): nat {
    if srcs == [] then 0 else
      var n := |srcs| - 1;
      GlobalDF(srcs[..n], t) + if t in srcs[n] then srcs[n][t].df else 0
  }

  lemma {:induction false} RowFacts(srcs: seq<Source>, t: Term)
    ensures forall i, j :: 0 <= i < j < |RowOf(srcs, t)| ==> RowOf(srcs, t)[i].shard < RowOf(srcs, t)[j].shard
    ensures forall i :: 0 <= i < |RowOf(srcs, t)| ==> Says(srcs, t, RowOf(srcs, t)[i])
    decreases |srcs|
  {
    if srcs != [] {
      var n := |srcs| - 1;
      RowFacts(srcs[..n], t);
      forall i | 0 <= i < |RowOf(srcs[..n], t)| ensures Says(srcs, t, RowOf(srcs, t)[i]) {
        assert Says(srcs[..n], t, RowOf(srcs[..n], t)[i]);
      }
    }
  }

  predicate Says(srcs: seq<Source>, t: Term, p: ShardPosting) {
    p.shard < |srcs| && t in srcs[p.shard] && srcs[p.shard][t] == Stat(p.df, p.maxFreq)
  }

  lemma {:induction false} RowHolds(srcs: seq<Source>, t: Term, s: nat) returns (i: nat)
    requires s < |srcs| && t in srcs[s]
    ensures i < |RowOf(srcs, t)| && RowOf(srcs, t)[i].shard == s
    decreases |srcs|
  {
    var n := |srcs| - 1;
    if s < n {
      i := RowHolds(srcs[..n], t, s);
    } else {
      i := |RowOf(srcs[..n], t)|;
    }
  }

  lemma SourcesSnoc(srcs: seq<Source>, src: Source, t: Term)
    ensures RowOf(srcs + [src], t)
            == RowOf(srcs, t) + if t in src then [ShardPosting(|srcs|, src[t].df, src[t].maxFreq)] else []
    ensures GlobalDF(srcs + [src], t) == GlobalDF(srcs, t) + if t in src then src[t].df else 0
  {
    assert (srcs + [src])[..|srcs|] == srcs;
  }

  // ---- the builder

  ghost predicate Folded(terms: map<Term, TermRoute>, srcs: seq<Source>) {
    forall t :: FoldedAt(terms, srcs, t)
  }

  ghost predicate FoldedAt(terms: map<Term, TermRoute>, srcs: seq<Source>, t: Term) {
    && (t in terms <==> RowOf(srcs, t) != [])
    && (t in terms ==> terms[t].shards == RowOf(srcs, t) && terms[t].globalDF == GlobalDF(srcs, t))
    && (t !in terms ==> GlobalDF(srcs, t) == 0)
  }

  class RoutingBuilder {
    var terms: map<Term, TermRoute>
    var shardDocs: seq<nat>
    var totalDocs: nat
    ghost var srcs: seq<Source>

    ghost predicate Valid()
      reads this
    {
      Folded(terms, srcs) && |shardDocs| == |srcs| && totalDocs == Total(shardDocs)
    }

    constructor ()
      ensures Valid() && srcs == [] && shardDocs == []
    {
      terms, shardDocs, totalDocs, srcs := map[], [], 0, [];
    }

    /** `AddShard`: the shard's terms, in whatever order it enumerates them. */
    method AddShard(src: Source, live: nat) returns (sid: nat)
      requires Valid()
      modifies this
      ensures Valid() && srcs == old(srcs) + [src] && shardDocs == old(shardDocs) + [live] && sid == |old(srcs)|
    {
      hide Folded;
      sid := |shardDocs|;
      TotalSnoc(shardDocs, live);
      shardDocs, totalDocs := shardDocs + [live], totalDocs + live;
      terms := FoldTerms(terms, sid, src, srcs);
      srcs := srcs + [src];
    }
  }

  method FoldTerms(was: map<Term, TermRoute>, sid: nat, src: Source, ghost srcs: seq<Source>)
    returns (terms: map<Term, TermRoute>)
    requires Folded(was, srcs) && sid == |srcs|
    ensures Folded(terms, srcs + [src])
  {
    hide Folded, AddTo;
    terms := was;
    var left := src.Keys;
    while left != {}
      invariant left <= src.Keys
      invariant forall t :: t in left || t !in src ==> (t in terms <==> t in was) && (t in was ==> terms[t] == was[t])
      invariant forall t :: t in src && t !in left ==> t in terms && terms[t] == AddTo(was, t, sid, src[t])
      decreases |left|
    {
      var t :| t in left;
      AddToSame(was, terms, t, sid, src[t]);
      terms := terms[t := AddTo(terms, t, sid, src[t])];
      left := left - {t};
    }
    FoldedNext(was, terms, sid, src, srcs);
  }

  lemma AddToSame(was: map<Term, TermRoute>, terms: map<Term, TermRoute>, t: Term, sid: nat, s: Stat)
    requires (t in terms <==> t in was) && (t in was ==> terms[t] == was[t])
    ensures AddTo(terms, t, sid, s) == AddTo(was, t, sid, s)
  {
  }

  lemma FoldedNext(was: map<Term, TermRoute>, terms: map<Term, TermRoute>, sid: nat, src: Source, srcs: seq<Source>)
    requires Folded(was, srcs) && sid == |srcs|
    requires forall t :: t !in src ==> (t in terms <==> t in was) && (t in was ==> terms[t] == was[t])
    requires forall t :: t in src ==> t in terms && terms[t] == AddTo(was, t, sid, src[t])
    ensures Folded(terms, srcs + [src])
  {
    hide RowOf, GlobalDF;
    forall t ensures FoldedAt(terms, srcs + [src], t) {
      SourcesSnoc(srcs, src, t);
      assert FoldedAt(was, srcs, t);
    }
  }

  function AddTo(terms: map<Term, TermRoute>, t: Term, sid: nat, s: Stat): TermRoute {
    var tr := if t in terms then terms[t] else TermRoute(0, []);
    TermRoute(tr.globalDF + s.df, tr.shards + [ShardPosting(sid, s.df, s.maxFreq)])
  }

  function Total(vs: seq<nat>): nat {
    if vs == [] then 0 else Total(vs[..|vs| - 1]) + vs[|vs| - 1]
  }

  /** The total over shards, however they are split. */
  lemma {:induction false} TotalAdds(a: seq<nat>, b: seq<nat>)
    ensures Total(a + b) == Total(a) + Total(b) && forall n: nat :: Total([n]) == n
    decreases |b|
  {
    if b == [] {
      assert a + b == a;
      forall n: nat ensures Total([n]) == n {
        assert [n][..0] == [];
      }
    } else {
      TotalAdds(a, b[..|b| - 1]);
      assert (a + b)[..|a + b| - 1] == a + b[..|b| - 1];
    }
  }

  lemma TotalSnoc(vs: seq<nat>, v: nat)
    ensures Total(vs + [v]) == Total(vs) + v
  {
    assert (vs + [v])[..|vs|] == vs;
  }

  // ---- the flat index

  datatype RoutingIndex = RoutingIndex(termBlob: Bytes, termOff: seq<nat>, globalDF: seq<nat>, postOff: seq<nat>,
                                       postShard: seq<nat>, postDf: seq<nat>, postMax: seq<nat>, shardDocs: seq<nat>,
                                       totalDocs: nat)

  function NumTerms(ri: RoutingIndex): nat {
    if |ri.termOff| == 0 then 0 else |ri.termOff| - 1
  }

  ghost predicate Shaped(ri: RoutingIndex) {
    && |ri.globalDF| == NumTerms(ri) && |ri.postOff| == NumTerms(ri) + 1 && |ri.termOff| == NumTerms(ri) + 1
    && |ri.postShard| == |ri.postDf| == |ri.postMax|
    && (forall i, j :: 0 <= i <= j < |ri.termOff| ==> ri.termOff[i] <= ri.termOff[j] <= |ri.termBlob|)
    && (forall i, j :: 0 <= i <= j < |ri.postOff| ==> ri.postOff[i] <= ri.postOff[j] <= |ri.postShard|)
  }

  function TermAt(ri: RoutingIndex, i: nat): Term
    requires Shaped(ri) && i < NumTerms(ri)
  {
    ri.termBlob[ri.termOff[i]..ri.termOff[i + 1]]
  }

  /** Term `i`'s slice of the columns. */
  function RowAt(ri: RoutingIndex, i: nat): (row: seq<ShardPosting>)
    requires Shaped(ri) && i < NumTerms(ri)
  {
    seq(ri.postOff[i + 1] - ri.postOff[i], j requires 0 <= j < ri.postOff[i + 1] - ri.postOff[i] =>
      ShardPosting(ri.postShard[ri.postOff[i] + j], ri.postDf[ri.postOff[i] + j], ri.postMax[ri.postOff[i] + j]))
  }

  /** The columns say of every term exactly what the shards say. */
  ghost predicate Routes(ri: RoutingIndex, srcs: seq<Source>) {
    && Shaped(ri)
    && (forall i, j :: 0 <= i < j < NumTerms(ri) ==> Less(TermAt(ri, i), TermAt(ri, j)))
    && (forall i :: 0 <= i < NumTerms(ri) ==>
          RowAt(ri, i) == RowOf(srcs, TermAt(ri, i)) != [] && ri.globalDF[i] == GlobalDF(srcs, TermAt(ri, i)))
    && (forall t :: RowOf(srcs, t) != [] ==> Listed(ri, t))
  }

  ghost predicate Listed(ri: RoutingIndex, t: Term)
    requires Shaped(ri)
  {
    exists i :: 0 <= i < NumTerms(ri) && TermAt(ri, i) == t
  }

  /** Columns written for the first `n` terms. */
  ghost predicate Written(ri: RoutingIndex, n: nat, keys: seq<Term>, terms: map<Term, TermRoute>) {
    && n <= |keys| && NumTerms(ri) == n && Shaped(ri)
    && ri.termOff[n] == |ri.termBlob| && ri.postOff[n] == |ri.postShard|
    && forall i :: 0 <= i < n ==> (
         keys[i] in terms && TermAt(ri, i) == keys[i]
         && RowAt(ri, i) == terms[keys[i]].shards && ri.globalDF[i] == terms[keys[i]].globalDF)
  }

  /** Appends one term's bytes, frequency and postings, and the offsets past them. */
  function AppendTerm(ri: RoutingIndex, t: Term, tr: TermRoute): RoutingIndex {
    var blob, n := ri.termBlob + t, |tr.shards|;
    ri.(termBlob := blob, termOff := ri.termOff + [|blob|], globalDF := ri.globalDF + [tr.globalDF],
        postOff := ri.postOff + [|ri.postShard| + n],
        postShard := ri.postShard + seq(n, j requires 0 <= j < n => tr.shards[j].shard),
        postDf := ri.postDf + seq(n, j requires 0 <= j < n => tr.shards[j].df),
        postMax := ri.postMax + seq(n, j requires 0 <= j < n => tr.shards[j].maxFreq))
  }

  lemma WrittenNext(ri: RoutingIndex, n: nat, keys: seq<Term>, terms: map<Term, TermRoute>)
    requires Written(ri, n, keys, terms) && n < |keys| && keys[n] in terms
    ensures Written(AppendTerm(ri, keys[n], terms[keys[n]]), n + 1, keys, terms)
  {
    var ri' := AppendTerm(ri, keys[n], terms[keys[n]]);
    AppendShaped(ri, keys[n], terms[keys[n]]);
    hide AppendTerm, TermAt, RowAt, Shaped;
    forall i | 0 <= i < n
      ensures TermAt(ri', i) == TermAt(ri, i) && RowAt(ri', i) == RowAt(ri, i) && ri'.globalDF[i] == ri.globalDF[i]
    {
      AppendKeeps(ri, keys[n], terms[keys[n]], i);
    }
  }

  lemma AppendShaped(ri: RoutingIndex, t: Term, tr: TermRoute)
    requires Shaped(ri) && ri.termOff[NumTerms(ri)] == |ri.termBlob| && ri.postOff[NumTerms(ri)] == |ri.postShard|
    ensures var ri' := AppendTerm(ri, t, tr); var n := NumTerms(ri);
      && Shaped(ri') && NumTerms(ri') == n + 1
      && ri'.termOff[n + 1] == |ri'.termBlob| && ri'.postOff[n + 1] == |ri'.postShard|
      && TermAt(ri', n) == t && RowAt(ri', n) == tr.shards && ri'.globalDF[n] == tr.globalDF
  {
    var ri', n := AppendTerm(ri, t, tr), NumTerms(ri);
    assert TermAt(ri', n) == t;
    assert RowAt(ri', n) == tr.shards;
  }

  lemma AppendKeeps(ri: RoutingIndex, t: Term, tr: TermRoute, i: nat)
    requires Shaped(ri) && Shaped(AppendTerm(ri, t, tr)) && i < NumTerms(ri)
    ensures var ri' := AppendTerm(ri, t, tr);
      NumTerms(ri') == NumTerms(ri) + 1 && TermAt(ri', i) == TermAt(ri, i) && RowAt(ri', i) == RowAt(ri, i)
      && ri'.globalDF[i] == ri.globalDF[i]
  {
    var ri' := AppendTerm(ri, t, tr);
    assert ri'.termOff[i + 1] == ri.termOff[i + 1] && ri'.postOff[i + 1] == ri.postOff[i + 1];
    assert RowAt(ri', i) == RowAt(ri, i);
  }

  method SortedTerms(m: map<Term, TermRoute>) returns (keys: seq<Term>)
    ensures Ranked(Less, keys) && Elements(keys) == m.Keys
  {
    hide Less, StrictTotal;
    LessStrict();
    keys := [];
    var left := m.Keys;
    while left != {}
      invariant left <= m.Keys && Ranked(Less, keys) && Elements(keys) == m.Keys - left
      decreases |left|
    {
      var t :| t in left;
      assert t !in keys by { assert t in keys <==> t in Elements(keys); }
      InsertRanked(Less, keys, t);
      keys, left := Insert(Less, keys, t), left - {t};
    }
  }

  /** `Build`. */
  method Build(b: RoutingBuilder) returns (ri: RoutingIndex)
    requires b.Valid()
    ensures Routes(ri, b.srcs) && ri.shardDocs == b.shardDocs && ri.totalDocs == b.totalDocs
  {
    hide Written, AppendTerm, Folded, Less;
    var keys := SortedTerms(b.terms);
    assert forall i :: 0 <= i < |keys| ==> keys[i] in Elements(keys);
    ri := RoutingIndex([], [0], [], [0], [], [], [], b.shardDocs, b.totalDocs);
    WrittenNone(ri, keys, b.terms);
    var i := 0;
    while i < |keys|
      invariant 0 <= i <= |keys| && Written(ri, i, keys, b.terms)
      invariant ri.shardDocs == b.shardDocs && ri.totalDocs == b.totalDocs
    {
      WrittenNext(ri, i, keys, b.terms);
      DocsStay(ri, keys[i], b.terms[keys[i]]);
      ri := AppendTerm(ri, keys[i], b.terms[keys[i]]);
      i := i + 1;
    }
    WrittenAll(ri, keys, b.terms, b.srcs);
  }

  lemma DocsStay(ri: RoutingIndex, t: Term, tr: TermRoute)
    ensures AppendTerm(ri, t, tr).shardDocs == ri.shardDocs && AppendTerm(ri, t, tr).totalDocs == ri.totalDocs
  {
  }

  lemma WrittenNone(ri: RoutingIndex, keys: seq<Term>, terms: map<Term, TermRoute>)
    requires ri.termBlob == [] && ri.termOff == [0] && ri.globalDF == [] && ri.postOff == [0]
    requires ri.postShard == ri.postDf == ri.postMax == []
    ensures Written(ri, 0, keys, terms)
  {
  }

  lemma WrittenAll(ri: RoutingIndex, keys: seq<Term>, terms: map<Term, TermRoute>, srcs: seq<Source>)
    requires Written(ri, |keys|, keys, terms) && Folded(terms, srcs) && Ranked(Less, keys)
      && Elements(keys) == terms.Keys
    ensures Routes(ri, srcs)
  {
    hide Less, TermAt, RowAt, RowOf, GlobalDF, Shaped;
    forall i | 0 <= i < |keys| ensures FoldedAt(terms, srcs, keys[i]) {
    }
    forall t | RowOf(srcs, t) != [] ensures Listed(ri, t) {
      assert FoldedAt(terms, srcs, t);
      assert t in Elements(keys);
      var i :| 0 <= i < |keys| && keys[i] == t;
      assert TermAt(ri, i) == t;
    }
  }
}
