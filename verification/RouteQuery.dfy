/** Asking the routing index (search/routing.go): term lookup, shard bounds, and the fold of
    whole indexes one level up. */
module RouteQuery {
  import opened Digits
  import opened Keys
  import opened TopK
  import opened TermLists
  import opened Scoring
  import opened Routing

  datatype ShardBound = ShardBound(shard: nat, bound: real)

  /** Bound descending, then shard ascending. */
  predicate BoundBetter(a: ShardBound, b: ShardBound) {
    a.bound > b.bound || (a.bound == b.bound && a.shard < b.shard)
  }

  lemma BoundTotal()
    ensures StrictTotal(BoundBetter)
  {
  }

  /** A scorer the bounds can rest on: sound, and its bound grows with the frequency. */
  ghost predicate Steady(s: Scorer) {
    && Sound(s)
    && forall m: nat, n: nat {:trigger s.maxScore(m), s.maxScore(n)} :: 1 <= m <= n ==> s.maxScore(m) <= s.maxScore(n)
  }

  lemma Bm25Steady(idf: real, k1: real)
    requires idf > 0.0 && k1 > 0.0
    ensures Steady(Bm25Scorer(idf, k1))
  {
    hide Bm25;
    Bm25Sound(idf, k1);
    var s := Bm25Scorer(idf, k1);
    forall m: nat, n: nat {:trigger s.maxScore(m), s.maxScore(n)} | 1 <= m <= n
      ensures s.maxScore(m) <= s.maxScore(n)
    {
      Bm25Monotone(idf, k1, m, n);
    }
  }

  // ---- what a route must be

  predicate HoldsAny(q: seq<Term>, src: Source) {
    exists i :: 0 <= i < |q| && q[i] in src
  }

  function TermBound(t: Term, src: Source, sc: Term -> Scorer): real {
    if t in src then sc(t).maxScore(src[t].maxFreq) else 0.0
  }

  /** The bound of one shard: a query term counts as often as it is asked. */
  function BoundOf(q: seq<Term>, src: Source, sc: Term -> Scorer): real {
    if q == [] then 0.0 else BoundOf(q[..|q| - 1], src, sc) + TermBound(q[|q| - 1], src, sc)
  }

  /** The score of one document for a query. */
  function ScoreOf(q: seq<Term>, doc: DocTerms, sc: Term -> Scorer): real {
    if q == [] then 0.0 else ScoreOf(q[..|q| - 1], doc, sc) + TermScore(q[|q| - 1], doc, sc)
  }

  function TermScore(t: Term, doc: DocTerms, sc: Term -> Scorer): real {
    if t in doc && doc[t] != 0 then sc(t).score(doc[t]) else 0.0
  }

  /** What fixes a score: it adds up over the query, order aside and repeats counted, and one term adds
      what its scorer gives the document's frequency of it, if any. */
  lemma {:induction false} ScoreAdds(p: seq<Term>, q: seq<Term>, t: Term, doc: DocTerms, sc: Term -> Scorer)
    ensures ScoreOf(p + q, doc, sc) == ScoreOf(p, doc, sc) + ScoreOf(q, doc, sc)
    ensures t in doc && doc[t] > 0 ==> ScoreOf([t], doc, sc) == sc(t).score(doc[t])
    ensures t !in doc || doc[t] == 0 ==> ScoreOf([t], doc, sc) == 0.0
    decreases |q|
  {
    assert [t][..0] == [];
    if q == [] {
      assert p + q == p;
    } else {
      ScoreAdds(p, q[..|q| - 1], t, doc, sc);
      assert (p + q)[..|p + q| - 1] == p + q[..|q| - 1];
    }
  }

  /** So does a bound, with each term's greatest frequency in the shard. */
  lemma {:induction false} BoundAdds(p: seq<Term>, q: seq<Term>, t: Term, src: Source, sc: Term -> Scorer)
    ensures BoundOf(p + q, src, sc) == BoundOf(p, src, sc) + BoundOf(q, src, sc)
    ensures t in src ==> BoundOf([t], src, sc) == sc(t).maxScore(src[t].maxFreq)
    ensures t !in src ==> BoundOf([t], src, sc) == 0.0
    decreases |q|
  {
    assert [t][..0] == [];
    if q == [] {
      assert p + q == p;
    } else {
      BoundAdds(p, q[..|q| - 1], t, src, sc);
      assert (p + q)[..|p + q| - 1] == p + q[..|q| - 1];
    }
  }

  /** What the shard says covers one of its documents. */
  ghost predicate Covers(src: Source, doc: DocTerms) {
    forall t :: t in doc && doc[t] != 0 ==> t in src && doc[t] <= src[t].maxFreq
  }

  /** A shard's bound is at least any of its documents' scores, repeated terms counted. */
  lemma {:induction false} BoundCovers(q: seq<Term>, src: Source, doc: DocTerms, sc: Term -> Scorer)
    requires Covers(src, doc) && (forall t :: Steady(sc(t))) && (forall t :: t in src ==> src[t].maxFreq >= 1)
    ensures ScoreOf(q, doc, sc) <= BoundOf(q, src, sc)
    decreases |q|
  {
    if q != [] {
      var t := q[|q| - 1];
      BoundCovers(q[..|q| - 1], src, doc, sc);
      hide Covers;
      assert Steady(sc(t));
      TermCovered(t, src, doc, sc);
    }
  }

  lemma TermCovered(t: Term, src: Source, doc: DocTerms, sc: Term -> Scorer)
    requires Covers(src, doc) && Steady(sc(t)) && (t in src ==> src[t].maxFreq >= 1)
    ensures TermScore(t, doc, sc) <= TermBound(t, src, sc)
  {
    if t in src {
      assert 0.0 < sc(t).score(src[t].maxFreq) <= sc(t).maxScore(src[t].maxFreq);
      if t in doc && doc[t] != 0 {
        assert sc(t).score(doc[t]) <= sc(t).maxScore(src[t].maxFreq);
      }
    }
  }

  // ---- lookup

  /** `cmpBytesStr`. */
  method CmpBytesStr(b: Bytes, s: Bytes) returns (c: int)
    ensures c == if b == s then 0 else if Less(b, s) then -1 else 1
  {
    var n := if |s| < |b| then |s| else |b|;
    var i := 0;
    while i < n
      invariant 0 <= i <= n && b[..i] == s[..i]
      invariant Less(b, s) <==> Less(b[i..], s[i..])
    {
      if b[i] != s[i] {
        return if b[i] < s[i] then -1 else 1;
      }
      assert b[i..][1..] == b[i + 1..] && s[i..][1..] == s[i + 1..];
      i := i + 1;
    }
    if |b| < |s| {
      return -1;
    }
    if |b| > |s| {
      return 1;
    }
    assert b[..i] == b && s[..i] == s;
    c := 0;
  }

  lemma TermsSorted(ri: RoutingIndex, srcs: seq<Source>, i: nat, j: nat)
    requires Routes(ri, srcs) && i < NumTerms(ri) && j < NumTerms(ri)
    ensures i < j ==> Less(TermAt(ri, i), TermAt(ri, j))
  {
  }

  method Lookup(ri: RoutingIndex, t: Term, ghost srcs: seq<Source>) returns (i: nat, ok: bool)
    requires Routes(ri, srcs)
    ensures ok <==> RowOf(srcs, t) != []
    ensures ok ==> i < NumTerms(ri) && TermAt(ri, i) == t && RowAt(ri, i) == RowOf(srcs, t)
    ensures ok ==> ri.globalDF[i] == GlobalDF(srcs, t)
  {
    hide Less, TermAt, RowAt, RowOf, GlobalDF;
    var lo, hi := 0, NumTerms(ri);
    while lo < hi
      invariant 0 <= lo <= hi <= NumTerms(ri)
      invariant forall j :: 0 <= j < lo ==> Less(TermAt(ri, j), t)
      invariant forall j :: hi <= j < NumTerms(ri) ==> !Less(TermAt(ri, j), t)
    {
      var mid := (lo + hi) / 2;
      var c := CmpBytesStr(TermAt(ri, mid), t);
      if c >= 0 {
        forall j | mid <= j < NumTerms(ri) ensures !Less(TermAt(ri, j), t) {
          LessOrder(TermAt(ri, mid), t);
          TermsSorted(ri, srcs, mid, j);
          NotLessAbove(TermAt(ri, mid), TermAt(ri, j), t);
        }
        hi := mid;
      } else {
        forall j | 0 <= j <= mid ensures Less(TermAt(ri, j), t) {
          TermsSorted(ri, srcs, j, mid);
          if j < mid { LessTransitive(TermAt(ri, j), TermAt(ri, mid), t); }
        }
        lo := mid + 1;
      }
    }
    FoundSomewhere(ri, t, srcs, lo);
    i, ok := lo, false;
    if lo < NumTerms(ri) {
      var c := CmpBytesStr(TermAt(ri, lo), t);
      ok := c == 0;
    }
  }

  lemma NotLessAbove(a: Term, b: Term, t: Term)
    requires !Less(a, t) && (a == b || Less(a, b))
    ensures !Less(b, t)
  {
    if Less(b, t) && a != b {
      LessTransitive(a, b, t);
    }
  }

  /** A listed term stands exactly where the search ends. */
  lemma FoundSomewhere(ri: RoutingIndex, t: Term, srcs: seq<Source>, lo: nat)
    requires Routes(ri, srcs) && lo <= NumTerms(ri)
    requires forall j :: 0 <= j < lo ==> Less(TermAt(ri, j), t)
    requires forall j :: lo <= j < NumTerms(ri) ==> !Less(TermAt(ri, j), t)
    ensures RowOf(srcs, t) != [] ==> lo < NumTerms(ri) && TermAt(ri, lo) == t
  {
    hide Less, TermAt, RowAt, RowOf, GlobalDF;
    if RowOf(srcs, t) != [] {
      assert Listed(ri, t);
      var i :| 0 <= i < NumTerms(ri) && TermAt(ri, i) == t;
      LessIrreflexive(t);
    }
  }

  /** `DocFreq`: the sum of the shards' document frequencies. */
  method DocFreq(ri: RoutingIndex, t: Term, ghost srcs: seq<Source>) returns (df: nat)
    requires Routes(ri, srcs)
    ensures df == GlobalDF(srcs, t)
  {
    hide Routes;
    RoutesShaped(ri, srcs);
    var i, ok := Lookup(ri, t, srcs);
    if ok {
      return ri.globalDF[i];
    }
    NoRowNoDocs(srcs, t);
    df := 0;
  }

  lemma RoutesShaped(ri: RoutingIndex, srcs: seq<Source>)
    requires Routes(ri, srcs)
    ensures Shaped(ri)
  {
  }

  lemma {:induction false} NoRowNoDocs(srcs: seq<Source>, t: Term)
    requires RowOf(srcs, t) == []
    ensures GlobalDF(srcs, t) == 0 && forall s :: 0 <= s < |srcs| ==> t !in srcs[s]
    decreases |srcs|
  {
    if srcs != [] {
      NoRowNoDocs(srcs[..|srcs| - 1], t);
    }
  }

  // ---- routing

  /** The bounds accumulated over the first part of a query. */
  ghost predicate Bounded(bounds: map<nat, real>, q: seq<Term>, srcs: seq<Source>, sc: Term -> Scorer) {
    && (forall s :: s in bounds ==> s < |srcs| && HoldsAny(q, srcs[s]) && bounds[s] == BoundOf(q, srcs[s], sc))
    && (forall s :: 0 <= s < |srcs| && HoldsAny(q, srcs[s]) ==> s in bounds)
  }

  lemma HoldsSnoc(q: seq<Term>, t: Term, src: Source, sc: Term -> Scorer)
    ensures HoldsAny(q + [t], src) <==> HoldsAny(q, src) || t in src
    ensures BoundOf(q + [t], src, sc) == BoundOf(q, src, sc) + TermBound(t, src, sc)
  {
    assert (q + [t])[..|q|] == q;
    if i :| 0 <= i < |q + [t]| && (q + [t])[i] in src {
      assert i < |q| ==> q[i] in src;
    }
    if i :| 0 <= i < |q| && q[i] in src {
      assert (q + [t])[i] in src;
    }
    if t in src {
      assert (q + [t])[|q|] in src;
    }
  }

  lemma {:induction false} NoneHeldBound(q: seq<Term>, src: Source, sc: Term -> Scorer)
    requires !HoldsAny(q, src)
    ensures BoundOf(q, src, sc) == 0.0
    decreases |q|
  {
    if q != [] {
      assert q == q[..|q| - 1] + [q[|q| - 1]];
      HoldsSnoc(q[..|q| - 1], q[|q| - 1], src, sc);
      NoneHeldBound(q[..|q| - 1], src, sc);
    }
  }

  predicate InRow(row: seq<ShardPosting>, n: nat, x: nat) {
    exists i :: 0 <= i < n && i < |row| && row[i].shard == x
  }

  function At(bounds: map<nat, real>, x: nat): real {
    if x in bounds then bounds[x] else 0.0
  }

  /** The first `n` postings of a row added to the bounds, and nothing else touched. */
  ghost predicate Added(was: map<nat, real>, now: map<nat, real>, row: seq<ShardPosting>, n: nat, s: Scorer) {
    && (forall i :: 0 <= i < n && i < |row| ==>
          row[i].shard in now && now[row[i].shard] == At(was, row[i].shard) + s.maxScore(row[i].maxFreq))
    && (forall x: nat :: !InRow(row, n, x) ==> (x in now <==> x in was) && At(now, x) == At(was, x))
  }

  /** Adds one query term's row to the bounds. */
  method AddRow(bounds: map<nat, real>, row: seq<ShardPosting>, s: Scorer) returns (bounds': map<nat, real>)
    requires forall i, j :: 0 <= i < j < |row| ==> row[i].shard < row[j].shard
    ensures Added(bounds, bounds', row, |row|, s)
  {
    assert Added(bounds, bounds, row, 0, s);
    hide Added;
    bounds' := bounds;
    var j := 0;
    while j < |row|
      invariant 0 <= j <= |row| && Added(bounds, bounds', row, j, s)
    {
      AddedNext(bounds, bounds', row, j, s);
      bounds' := bounds'[row[j].shard := At(bounds', row[j].shard) + s.maxScore(row[j].maxFreq)];
      j := j + 1;
    }
  }

  lemma AddedNext(was: map<nat, real>, now: map<nat, real>, row: seq<ShardPosting>, j: nat, s: Scorer)
    requires forall i, j :: 0 <= i < j < |row| ==> row[i].shard < row[j].shard
    requires Added(was, now, row, j, s) && j < |row|
    ensures Added(was, now[row[j].shard := At(now, row[j].shard) + s.maxScore(row[j].maxFreq)], row, j + 1, s)
  {
    var x := row[j].shard;
    assert !InRow(row, j, x);
    forall y: nat ensures InRow(row, j + 1, y) <==> InRow(row, j, y) || y == x {
      if InRow(row, j, y) {
        var i :| 0 <= i < j && i < |row| && row[i].shard == y;
        assert i < j + 1;
      }
    }
  }

  lemma RowAdded(bounds: map<nat, real>, bounds': map<nat, real>, q: seq<Term>, t: Term, srcs: seq<Source>,
                 sc: Term -> Scorer)
    requires Bounded(bounds, q, srcs, sc)
    requires Added(bounds, bounds', RowOf(srcs, t), |RowOf(srcs, t)|, sc(t))
    ensures Bounded(bounds', q + [t], srcs, sc)
  {
    hide HoldsAny, BoundOf, RowOf;
    RowFacts(srcs, t);
    var row := RowOf(srcs, t);
    forall s: nat
      ensures s in bounds' ==> s < |srcs| && HoldsAny(q + [t], srcs[s]) && bounds'[s] == BoundOf(q + [t], srcs[s], sc)
      ensures s < |srcs| && HoldsAny(q + [t], srcs[s]) ==> s in bounds'
    {
      RowAt1(srcs, t, s);
      if s < |srcs| {
        HoldsSnoc(q, t, srcs[s], sc);
        if !HoldsAny(q, srcs[s]) { NoneHeldBound(q, srcs[s], sc); }
      }
    }
  }

  lemma RowAt1(srcs: seq<Source>, t: Term, s: nat)
    ensures InRow(RowOf(srcs, t), |RowOf(srcs, t)|, s) <==> s < |srcs| && t in srcs[s]
    ensures forall i :: 0 <= i < |RowOf(srcs, t)| && RowOf(srcs, t)[i].shard == s ==>
      s < |srcs| && t in srcs[s] && RowOf(srcs, t)[i].maxFreq == srcs[s][t].maxFreq
  {
    hide RowOf;
    RowFacts(srcs, t);
    var row := RowOf(srcs, t);
    if i :| 0 <= i < |row| && row[i].shard == s {
      assert Says(srcs, t, row[i]);
    }
    if s < |srcs| && t in srcs[s] {
      var i := RowHolds(srcs, t, s);
    }
    forall i | 0 <= i < |row| && row[i].shard == s
      ensures s < |srcs| && t in srcs[s] && row[i].maxFreq == srcs[s][t].maxFreq
    {
      assert Says(srcs, t, row[i]);
    }
  }

  /** `RouteWith`: exactly the shards holding a query term, by descending bound. */
  method RouteWith(ri: RoutingIndex, q: seq<Term>, sc: Term -> Scorer, ghost srcs: seq<Source>)
    returns (out: seq<ShardBound>)
    requires Routes(ri, srcs)
    ensures Ranked(BoundBetter, out)
    ensures forall b :: b in out <==>
      b.shard < |srcs| && HoldsAny(q, srcs[b.shard]) && b.bound == BoundOf(q, srcs[b.shard], sc)
  {
    hide Routes, RowOf, HoldsAny, BoundOf, Bounded;
    RoutesShaped(ri, srcs);
    var bounds: map<nat, real> := map[];
    BoundedNone(srcs, sc);
    var i := 0;
    assert q[..0] == [];
    while i < |q|
      invariant 0 <= i <= |q| && Bounded(bounds, q[..i], srcs, sc)
    {
      var at, ok := Lookup(ri, q[i], srcs);
      var row := if ok then RowAt(ri, at) else [];
      RowFacts(srcs, q[i]);
      var bounds' := AddRow(bounds, row, sc(q[i]));
      RowAdded(bounds, bounds', q[..i], q[i], srcs, sc);
      assert q[..i + 1] == q[..i] + [q[i]];
      bounds := bounds';
      i := i + 1;
    }
    assert q[..i] == q;
    out := SortBounds(bounds);
    BoundedList(bounds, out, q, srcs, sc);
  }

  lemma BoundedNone(srcs: seq<Source>, sc: Term -> Scorer)
    ensures Bounded(map[], [], srcs, sc)
  {
  }

  lemma BoundedList(bounds: map<nat, real>, out: seq<ShardBound>, q: seq<Term>, srcs: seq<Source>, sc: Term -> Scorer)
    requires Bounded(bounds, q, srcs, sc)
    requires forall b :: b in out <==> b.shard in bounds && b.bound == bounds[b.shard]
    ensures forall b :: b in out <==>
      b.shard < |srcs| && HoldsAny(q, srcs[b.shard]) && b.bound == BoundOf(q, srcs[b.shard], sc)
  {
    hide HoldsAny, BoundOf;
  }

  method SortBounds(bounds: map<nat, real>) returns (out: seq<ShardBound>)
    ensures Ranked(BoundBetter, out)
    ensures forall b :: b in out <==> b.shard in bounds && b.bound == bounds[b.shard]
  {
    hide BoundBetter, StrictTotal;
    BoundTotal();
    out := [];
    var left := bounds.Keys;
    while left != {}
      invariant left <= bounds.Keys && Ranked(BoundBetter, out)
      invariant forall b :: b in out <==> b.shard in bounds && b.shard !in left && b.bound == bounds[b.shard]
      decreases |left|
    {
      var s :| s in left;
      var b := ShardBound(s, bounds[s]);
      InsertRanked(BoundBetter, out, b);
      assert forall x :: x in Insert(BoundBetter, out, b) <==> x in Elements(Insert(BoundBetter, out, b));
      assert forall x :: x in out <==> x in Elements(out);
      out, left := Insert(BoundBetter, out, b), left - {s};
    }
  }

  // ---- one level up

  function MaxFreqOf(row: seq<ShardPosting>): nat {
    if row == [] then 0 else Max(MaxFreqOf(row[..|row| - 1]), row[|row| - 1].maxFreq)
  }

  lemma {:induction false} MaxFreqIs(row: seq<ShardPosting>, i: nat)
    requires i < |row|
    ensures row[i].maxFreq <= MaxFreqOf(row)
    decreases |row|
  {
    if i < |row| - 1 {
      MaxFreqIs(row[..|row| - 1], i);
    }
  }

  lemma {:induction false} MaxFreqAttained(row: seq<ShardPosting>) returns (i: nat)
    requires row != []
    ensures i < |row| && row[i].maxFreq == MaxFreqOf(row)
    decreases |row|
  {
    i := |row| - 1;
    assert row[..0] == [] && MaxFreqOf([]) == 0;
    if i > 0 && MaxFreqOf(row) != row[i].maxFreq {
      i := MaxFreqAttained(row[..i]);
    }
  }

  /** A whole collection summarised as one shard. */
  ghost predicate Summary(src: Source, srcs: seq<Source>) {
    forall t ::
      && (t in src <==> RowOf(srcs, t) != [])
      && (t in src ==> src[t] == Stat(GlobalDF(srcs, t), MaxFreqOf(RowOf(srcs, t))))
  }

  /** `EachTerm`, folded into a source. */
  method Summarize(ri: RoutingIndex, ghost srcs: seq<Source>) returns (src: Source)
    requires Routes(ri, srcs)
    ensures Summary(src, srcs)
  {
    hide TermAt, RowAt, RowOf, GlobalDF, Less, MaxFreqOf;
    src := map[];
    var i := 0;
    while i < NumTerms(ri)
      invariant 0 <= i <= NumTerms(ri)
      invariant forall j :: 0 <= j < i ==> TermAt(ri, j) in src
      invariant forall t :: t in src ==>
        RowOf(srcs, t) != [] && src[t] == Stat(GlobalDF(srcs, t), MaxFreqOf(RowOf(srcs, t)))
    {
      var mx := RowMax(RowAt(ri, i));
      src := src[TermAt(ri, i) := Stat(ri.globalDF[i], mx)];
      i := i + 1;
    }
    forall t | RowOf(srcs, t) != [] ensures t in src {
      assert Listed(ri, t);
    }
  }

  method RowMax(row: seq<ShardPosting>) returns (mx: nat)
    ensures mx == MaxFreqOf(row)
  {
    mx := 0;
    var j := 0;
    while j < |row|
      invariant 0 <= j <= |row| && mx == MaxFreqOf(row[..j])
    {
      assert row[..j + 1][..j] == row[..j];
      if row[j].maxFreq > mx {
        mx := row[j].maxFreq;
      }
      j := j + 1;
    }
    assert row[..j] == row;
  }

  /** The summary says at least as much of every document as its own shard does. */
  lemma SummaryCovers(src: Source, srcs: seq<Source>, s: nat)
    requires Summary(src, srcs) && s < |srcs|
    ensures forall t :: t in srcs[s] ==> t in src && srcs[s][t].maxFreq <= src[t].maxFreq
    ensures forall doc :: Covers(srcs[s], doc) ==> Covers(src, doc)
  {
    hide RowOf, GlobalDF, MaxFreqOf;
    forall t | t in srcs[s] ensures t in src && srcs[s][t].maxFreq <= src[t].maxFreq {
      RowFacts(srcs, t);
      var i := RowHolds(srcs, t, s);
      MaxFreqIs(RowOf(srcs, t), i);
      assert Says(srcs, t, RowOf(srcs, t)[i]);
    }
  }

  /** So a box's bound is at least each of its shards' bounds, and with `BoundCovers` at
      least every score in the box: pruning boxes is as safe as pruning shards. */
  lemma {:induction false} BoxBound(q: seq<Term>, src: Source, srcs: seq<Source>, s: nat, sc: Term -> Scorer)
    requires Summary(src, srcs) && s < |srcs| && (forall t :: Steady(sc(t)))
    requires forall s, t :: 0 <= s < |srcs| && t in srcs[s] ==> srcs[s][t].maxFreq >= 1
    ensures BoundOf(q, srcs[s], sc) <= BoundOf(q, src, sc)
    ensures HoldsAny(q, srcs[s]) ==> HoldsAny(q, src)
    decreases |q|
  {
    hide Summary;
    if q != [] {
      var t := q[|q| - 1];
      BoxBound(q[..|q| - 1], src, srcs, s, sc);
      SummaryCovers(src, srcs, s);
      assert Steady(sc(t));
      SummaryPositive(src, srcs, t);
      SteadyBound(t, srcs[s], src, sc);
    }
  }

  /** Nor does a summary say more than some shard does: its greatest frequency is one shard's. */
  lemma SummaryTight(src: Source, srcs: seq<Source>, t: Term) returns (s: nat)
    requires Summary(src, srcs) && t in src
    ensures s < |srcs| && t in srcs[s] && srcs[s][t].maxFreq == src[t].maxFreq
    ensures forall r :: 0 <= r < |srcs| && t in srcs[r] ==> srcs[r][t].maxFreq <= src[t].maxFreq
  {
    var row := RowOf(srcs, t);
    var i := MaxFreqAttained(row);
    RowFacts(srcs, t);
    assert Says(srcs, t, row[i]);
    s := row[i].shard;
    forall r | 0 <= r < |srcs| && t in srcs[r] ensures srcs[r][t].maxFreq <= src[t].maxFreq {
      SummaryCovers(src, srcs, r);
    }
  }

  lemma SteadyBound(t: Term, a: Source, b: Source, sc: Term -> Scorer)
    requires Steady(sc(t)) && (t in a ==> t in b && 1 <= a[t].maxFreq <= b[t].maxFreq) && (t in b ==> b[t].maxFreq >= 1)
    ensures TermBound(t, a, sc) <= TermBound(t, b, sc)
  {
    if t in b {
      assert 0.0 < sc(t).score(b[t].maxFreq) <= sc(t).maxScore(b[t].maxFreq);
    }
  }

  lemma SummaryPositive(src: Source, srcs: seq<Source>, t: Term)
    requires Summary(src, srcs) && forall s, t :: 0 <= s < |srcs| && t in srcs[s] ==> srcs[s][t].maxFreq >= 1
    ensures t in src ==> src[t].maxFreq >= 1
  {
    hide RowOf, GlobalDF, MaxFreqOf;
    if t in src {
      RowFacts(srcs, t);
      MaxFreqIs(RowOf(srcs, t), 0);
      assert Says(srcs, t, RowOf(srcs, t)[0]);
    }
  }

  function Flatten(boxes: seq<seq<Source>>): seq<Source> {
    if boxes == [] then [] else Flatten(boxes[..|boxes| - 1]) + boxes[|boxes| - 1]
  }

  lemma OneDF(src: Source, t: Term)
    ensures GlobalDF([src], t) == if t in src then src[t].df else 0
  {
    assert [src][..0] == [];
  }

  lemma {:induction false} JoinDF(a: seq<Source>, b: seq<Source>, t: Term)
    ensures GlobalDF(a + b, t) == GlobalDF(a, t) + GlobalDF(b, t)
    decreases |b|
  {
    if b == [] {
      assert a + b == a;
    } else {
      JoinDF(a, b[..|b| - 1], t);
      assert (a + b)[..|a + b| - 1] == a + b[..|b| - 1];
    }
  }

  /** Folding box summaries sums document frequencies over the whole fleet. */
  lemma {:induction false} FleetDF(boxes: seq<seq<Source>>, sums: seq<Source>, t: Term)
    requires |boxes| == |sums| && forall i :: 0 <= i < |boxes| ==> Summary(sums[i], boxes[i])
    ensures GlobalDF(sums, t) == GlobalDF(Flatten(boxes), t)
    decreases |boxes|
  {
    if boxes != [] {
      var n := |boxes| - 1;
      FleetDF(boxes[..n], sums[..n], t);
      JoinDF(Flatten(boxes[..n]), boxes[n], t);
      assert Summary(sums[n], boxes[n]);
      if t !in sums[n] { NoRowNoDocs(boxes[n], t); }
    }
  }
}
