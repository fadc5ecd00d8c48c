/** What block-max WAND must compute (search/wand.go): the scored disjunction of posting
    lists, its exact top-k, and the invariant that lets documents go unscored. */
module Retrieval {
  import opened Digits
  import opened Postings
  import opened Cursors
  import opened Scoring
  import opened Sums
  import opened TopK

  datatype Hit = Hit(doc: nat, score: real)

  /** `better`: score descending, then document ascending. */
  predicate Better(a: Hit, b: Hit) {
    a.score > b.score || (a.score == b.score && a.doc < b.doc)
  }

  lemma BetterTotal()
    ensures StrictTotal(Better)
  {
  }

  datatype Term = Term(ps: seq<Posting>, scorer: Scorer, maxFreq: nat)

  /** The builder drops zero frequencies, and `pivotDoc + 1` must not wrap. */
  ghost predicate GoodTerm(t: Term) {
    && Ascending(t.ps) && Sound(t.scorer)
    && forall i :: 0 <= i < |t.ps| ==> 1 <= t.ps[i].freq <= t.maxFreq && t.ps[i].doc < U32 - 1
  }

  ghost predicate Good(terms: seq<Term>) {
    forall t :: 0 <= t < |terms| ==> GoodTerm(terms[t])
  }

  /** What term `t` adds to the score of document `d`. */
  ghost function Contribution(t: Term, d: nat): real {
    var i := FirstGEQ(t.ps, 0, d);
    if i < |t.ps| && t.ps[i].doc == d then t.scorer.score(t.ps[i].freq) else 0.0
  }

  ghost function Contributions(terms: seq<Term>, d: nat): (c: seq<real>)
    ensures |c| == |terms| && forall t :: 0 <= t < |terms| ==> c[t] == Contribution(terms[t], d)
  {
    seq(|terms|, t requires 0 <= t < |terms| => Contribution(terms[t], d))
  }

  ghost function DocScore(terms: seq<Term>, d: nat): real {
    Total(Contributions(terms, d))
  }

  ghost function Docs(terms: seq<Term>): set<nat> {
    set t, i | 0 <= t < |terms| && 0 <= i < |terms[t].ps| :: terms[t].ps[i].doc
  }

  ghost function Scored(terms: seq<Term>, d: nat): Hit {
    Hit(d, DocScore(terms, d))
  }

  /** Every matching document that the liveness filter keeps, with its score. */
  ghost function Matches(terms: seq<Term>, keep: nat -> bool): set<Hit> {
    set d | d in Docs(terms) && keep(d) :: Scored(terms, d)
  }

  /** The contract of a seeded search: among hits scoring at least the seed it is exactly
      the exhaustive top-k; a seed of zero makes it the whole top-k (`SeedZero`). */
  ghost predicate SeededAnswer(out: seq<Hit>, s: set<Hit>, k: nat, seed: real) {
    && Ranked(Better, out) && Elements(out) <= s && |out| <= k
    && forall h :: h in s && h.score >= seed ==> (h in out <==> h in Top(Better, s, k))
  }

  lemma {:induction false} ContributionAt(t: Term, d: nat, i: nat)
    requires GoodTerm(t) && i < |t.ps| && t.ps[i].doc == d
    ensures Contribution(t, d) == t.scorer.score(t.ps[i].freq)
  {
    FirstGEQAtMost(t.ps, 0, d, i);
    var j := FirstGEQ(t.ps, 0, d);
    DocOrder(t.ps, j, i);
  }

  lemma ContributionNonNegative(t: Term, d: nat)
    requires GoodTerm(t)
    ensures 0.0 <= Contribution(t, d)
    ensures Contribution(t, d) > 0.0 <==> exists i :: 0 <= i < |t.ps| && t.ps[i].doc == d
  {
    hide FirstGEQ;
    var i := FirstGEQ(t.ps, 0, d);
    if i < |t.ps| && t.ps[i].doc == d {
      assert t.scorer.score(t.ps[i].freq) <= t.scorer.maxScore(t.ps[i].freq);
    }
    forall j | 0 <= j < |t.ps| && t.ps[j].doc == d ensures Contribution(t, d) > 0.0 {
      ContributionAt(t, d, j);
      assert t.scorer.score(t.ps[j].freq) <= t.scorer.maxScore(t.ps[j].freq);
    }
  }

  lemma DocScorePositive(terms: seq<Term>, d: nat)
    requires Good(terms) && d in Docs(terms)
    ensures DocScore(terms, d) > 0.0
  {
    hide Contribution, GoodTerm;
    var c := Contributions(terms, d);
    forall t | 0 <= t < |terms| ensures c[t] >= 0.0 { ContributionNonNegative(terms[t], d); }
    var t, i :| 0 <= t < |terms| && 0 <= i < |terms[t].ps| && terms[t].ps[i].doc == d;
    ContributionNonNegative(terms[t], d);
    SumAtSome(c, [t]);
    assert SumAt(c, [t]) == SumAt(c, []) + c[t];
  }

  // ---- positions: where each term's cursor stands

  ghost predicate Placed(terms: seq<Term>, pos: seq<nat>) {
    |pos| == |terms| && forall t :: 0 <= t < |terms| ==> pos[t] <= |terms[t].ps|
  }

  /** No cursor has passed a document at or above the floor. */
  ghost predicate Behind(terms: seq<Term>, pos: seq<nat>, floor: nat)
    requires Placed(terms, pos)
  {
    forall t, i :: 0 <= t < |terms| && 0 <= i < pos[t] ==> terms[t].ps[i].doc < floor
  }

  ghost predicate Live(terms: seq<Term>, pos: seq<nat>, t: nat)
    requires Placed(terms, pos) && t < |terms|
  {
    pos[t] < |terms[t].ps|
  }

  ghost function DocAt(terms: seq<Term>, pos: seq<nat>, t: nat): nat
    requires Placed(terms, pos) && t < |terms| && Live(terms, pos, t)
  {
    terms[t].ps[pos[t]].doc
  }

  /** The global upper bounds of the terms. */
  ghost function Bounds(terms: seq<Term>): (b: seq<real>)
    ensures |b| == |terms|
    ensures forall t :: 0 <= t < |terms| ==> b[t] == terms[t].scorer.maxScore(terms[t].maxFreq)
  {
    seq(|terms|, t requires 0 <= t < |terms| => terms[t].scorer.maxScore(terms[t].maxFreq))
  }

  /** A bound is competitive when it beats the local k-th and reaches the seed. */
  predicate Competitive(bound: real, threshold: real, seed: real) {
    bound > threshold && bound >= seed
  }

  /** `at` lists exactly the live terms, by current document. */
  ghost predicate LiveSorted(terms: seq<Term>, pos: seq<nat>, at: seq<nat>)
    requires Placed(terms, pos)
  {
    && Positions(at, |terms|)
    && (forall t :: 0 <= t < |terms| ==> (t in at <==> Live(terms, pos, t)))
    && (forall i, j :: 0 <= i < j < |at| ==> DocAt(terms, pos, at[i]) <= DocAt(terms, pos, at[j]))
  }

  /** A document no cursor has passed gets nothing from a term whose cursor is beyond it. */
  lemma BeyondContributesNothing(terms: seq<Term>, pos: seq<nat>, floor: nat, d: nat, t: nat)
    requires Good(terms) && Placed(terms, pos) && Behind(terms, pos, floor) && floor <= d && t < |terms|
    requires !Live(terms, pos, t) || DocAt(terms, pos, t) > d
    ensures Contribution(terms[t], d) == 0.0
  {
    hide FirstGEQ;
    var ps := terms[t].ps;
    assert forall j :: 0 <= j < pos[t] ==> ps[j].doc < floor;
    var i := FirstGEQ(ps, 0, d);
    if i < |ps| && pos[t] < |ps| {
      DocOrder(ps, pos[t], i);
    }
  }

  /** A term contributes at most its bound, and nothing it does not hold. */
  lemma ContributionBounded(t: Term, d: nat)
    requires GoodTerm(t)
    ensures Contribution(t, d) <= if t.ps == [] then 0.0 else t.scorer.maxScore(t.maxFreq)
    ensures t.ps != [] ==> t.scorer.maxScore(t.maxFreq) > 0.0
  {
    hide FirstGEQ;
    var i := FirstGEQ(t.ps, 0, d);
    if i < |t.ps| {
      assert t.scorer.score(t.ps[i].freq) <= t.scorer.maxScore(t.maxFreq);
    }
    if t.ps != [] {
      assert t.scorer.score(t.ps[0].freq) <= t.scorer.maxScore(t.maxFreq);
    }
  }

  lemma InPrefix(at: seq<nat>, p: nat, j: nat)
    requires j < |at| && p <= |at|
    ensures j < p ==> at[j] in at[..p]
  {
    if j < p {
      assert at[..p][j] == at[j];
    }
  }

  /** A document below the pivot scores at most the bounds of the terms before the pivot. */
  lemma BelowPivot(terms: seq<Term>, pos: seq<nat>, at: seq<nat>, floor: nat, p: nat, d: nat)
    requires Good(terms) && Placed(terms, pos) && Behind(terms, pos, floor) && LiveSorted(terms, pos, at)
    requires p <= |at| && floor <= d && (p < |at| ==> d < DocAt(terms, pos, at[p]))
    ensures Positions(at[..p], |terms|)
    ensures DocScore(terms, d) <= SumAt(Bounds(terms), at[..p])
  {
    hide Contribution, GoodTerm, FirstGEQ;
    var c, b, l := Contributions(terms, d), Bounds(terms), at[..p];
    forall t | 0 <= t < |terms| && t !in l ensures c[t] == 0.0 {
      if t in at {
        var j :| 0 <= j < |at| && at[j] == t;
        InPrefix(at, p, j);
        assert j >= p && (j == p || DocAt(terms, pos, at[p]) <= DocAt(terms, pos, at[j]));
      }
      BeyondContributesNothing(terms, pos, floor, d, t);
    }
    forall j | 0 <= j < |l| ensures c[l[j]] <= b[l[j]] {
      assert l[j] == at[j] && at[j] in at;
      ContributionBounded(terms[l[j]], d);
    }
    SumAtAll(c, l);
    SumAtMono(c, b, l);
  }

  /** The bounds of the terms standing below the floor; the others count for nothing. */
  ghost function LowBounds(terms: seq<Term>, pos: seq<nat>, floor: nat): (b: seq<real>)
    requires Placed(terms, pos)
    ensures |b| == |terms|
    ensures forall t :: 0 <= t < |terms| ==>
      b[t] == if Live(terms, pos, t) && DocAt(terms, pos, t) < floor then Bounds(terms)[t] else 0.0
  {
    seq(|terms|, t requires 0 <= t < |terms| =>
      if Live(terms, pos, t) && DocAt(terms, pos, t) < floor then Bounds(terms)[t] else 0.0)
  }

  lemma BoundNonNegative(terms: seq<Term>, pos: seq<nat>, t: nat)
    requires Good(terms) && Placed(terms, pos) && t < |terms| && Live(terms, pos, t)
    ensures Bounds(terms)[t] > 0.0
  {
    ContributionBounded(terms[t], 0);
  }

  /** The pivot never falls below the floor: the terms below it are together too weak. */
  lemma PivotAboveFloor(terms: seq<Term>, pos: seq<nat>, at: seq<nat>, floor: nat, p: nat, threshold: real, seed: real)
    requires Good(terms) && Placed(terms, pos) && LiveSorted(terms, pos, at) && p < |at|
    requires Positions(at[..p + 1], |terms|) && Competitive(SumAt(Bounds(terms), at[..p + 1]), threshold, seed)
    requires !Competitive(Total(LowBounds(terms, pos, floor)), threshold, seed)
    ensures DocAt(terms, pos, at[p]) >= floor
  {
    hide GoodTerm;
    var l, low, b := at[..p + 1], LowBounds(terms, pos, floor), Bounds(terms);
    forall t | 0 <= t < |terms| ensures low[t] >= 0.0 {
      if Live(terms, pos, t) { BoundNonNegative(terms, pos, t); }
    }
    SumAtSome(low, l);
    if DocAt(terms, pos, at[p]) < floor {
      forall j | 0 <= j < |l| ensures b[l[j]] <= low[l[j]] {
        assert l[j] == at[j] && at[j] in at;
        assert j == p || DocAt(terms, pos, at[j]) <= DocAt(terms, pos, at[p]);
      }
      SumAtMono(b, low, l);
    }
  }

  /** Raising the floor to the pivot keeps the terms below it too weak. */
  lemma LowBelowPivot(terms: seq<Term>, pos: seq<nat>, at: seq<nat>, p: nat)
    requires Good(terms) && Placed(terms, pos) && LiveSorted(terms, pos, at) && p < |at|
    ensures Positions(at[..p], |terms|)
    ensures Total(LowBounds(terms, pos, DocAt(terms, pos, at[p]))) <= SumAt(Bounds(terms), at[..p])
  {
    hide GoodTerm;
    var l, low, b := at[..p], LowBounds(terms, pos, DocAt(terms, pos, at[p])), Bounds(terms);
    forall t | 0 <= t < |terms| && t !in l ensures low[t] == 0.0 {
      if t in at {
        var j :| 0 <= j < |at| && at[j] == t;
        InPrefix(at, p, j);
        assert j == p || DocAt(terms, pos, at[p]) <= DocAt(terms, pos, at[j]);
      }
    }
    forall j | 0 <= j < |l| ensures low[l[j]] <= b[l[j]] {
      assert l[j] == at[j] && at[j] in at;
      BoundNonNegative(terms, pos, l[j]);
    }
    SumAtAll(low, l);
    SumAtMono(low, b, l);
  }

  /** Every cursor moved to the first posting at or after `target`. */
  ghost predicate Moved(terms: seq<Term>, pos: seq<nat>, pos': seq<nat>, target: nat)
    requires Placed(terms, pos)
  {
    |pos'| == |pos| && forall t :: 0 <= t < |terms| ==> pos'[t] == FirstGEQ(terms[t].ps, pos[t], target)
  }

  lemma MovedFacts(terms: seq<Term>, pos: seq<nat>, pos': seq<nat>, floor: nat, target: nat)
    requires Placed(terms, pos) && Behind(terms, pos, floor) && floor <= target && Moved(terms, pos, pos', target)
    ensures Placed(terms, pos') && Behind(terms, pos', target)
    ensures Total(LowBounds(terms, pos', target)) == 0.0
  {
    hide FirstGEQ;
    assert Placed(terms, pos');
    forall t, i | 0 <= t < |terms| && 0 <= i < pos'[t] ensures terms[t].ps[i].doc < target {
      assert i < pos[t] ==> terms[t].ps[i].doc < floor;
    }
    TotalZero(LowBounds(terms, pos', target));
  }

  /** Moving one cursor below the pivot up to it. */
  lemma MovedOne(terms: seq<Term>, pos: seq<nat>, floor: nat, target: nat, t: nat)
    requires Good(terms) && Placed(terms, pos) && Behind(terms, pos, floor) && floor <= target && t < |terms|
    ensures var pos' := pos[t := FirstGEQ(terms[t].ps, pos[t], target)];
      && Placed(terms, pos') && Behind(terms, pos', target)
      && Total(LowBounds(terms, pos', target)) <= Total(LowBounds(terms, pos, target))
  {
    hide FirstGEQ, GoodTerm;
    var pos' := pos[t := FirstGEQ(terms[t].ps, pos[t], target)];
    forall u, i | 0 <= u < |terms| && 0 <= i < pos'[u] ensures terms[u].ps[i].doc < target {
      assert i < pos[u] ==> terms[u].ps[i].doc < floor;
    }
    forall u | 0 <= u < |terms| ensures LowBounds(terms, pos', target)[u] <= LowBounds(terms, pos, target)[u] {
      assert u != t ==> (Live(terms, pos', u) <==> Live(terms, pos, u));
      if Live(terms, pos, u) { BoundNonNegative(terms, pos, u); }
    }
    TotalMono(LowBounds(terms, pos', target), LowBounds(terms, pos, target));
  }

  /** The postings still ahead of the cursors, which every iteration must reduce. */
  ghost function Remaining(terms: seq<Term>, pos: seq<nat>): nat
    requires Placed(terms, pos)
    decreases |terms|
  {
    if terms == [] then 0 else
      var n := |terms| - 1;
      Remaining(terms[..n], pos[..n]) + (|terms[n].ps| - pos[n])
  }

  lemma {:induction false} RemainingShrinks(terms: seq<Term>, pos: seq<nat>, pos': seq<nat>, t: nat)
    requires Placed(terms, pos) && Placed(terms, pos')
    requires forall u :: 0 <= u < |terms| ==> pos[u] <= pos'[u]
    ensures Remaining(terms, pos') <= Remaining(terms, pos)
    ensures t < |terms| && pos[t] < pos'[t] ==> Remaining(terms, pos') < Remaining(terms, pos)
    decreases |terms|
  {
    if terms != [] {
      var n := |terms| - 1;
      RemainingShrinks(terms[..n], pos[..n], pos'[..n], t);
    }
  }

  lemma StepForward(ps: seq<Posting>, from: nat, target: nat)
    requires from < |ps| && ps[from].doc < target
    ensures FirstGEQ(ps, from, target) > from
  {
  }

  /** At a document every live cursor has reached, the terms standing on it are the whole score. */
  lemma ScoreIsSum(terms: seq<Term>, pos: seq<nat>, at: seq<nat>, g: seq<real>, d: nat)
    requires Good(terms) && Placed(terms, pos) && Behind(terms, pos, d) && LiveSorted(terms, pos, at)
    requires |g| == |terms|
    requires forall t :: 0 <= t < |terms| && Live(terms, pos, t) ==> (
      && DocAt(terms, pos, t) >= d
      && g[t] == if DocAt(terms, pos, t) == d then terms[t].scorer.score(terms[t].ps[pos[t]].freq) else 0.0)
    ensures SumAt(g, at) == DocScore(terms, d)
  {
    hide Contribution, FirstGEQ, GoodTerm;
    var c := Contributions(terms, d);
    forall t | 0 <= t < |terms|
      ensures Live(terms, pos, t) ==> c[t] == g[t]
      ensures t !in at ==> c[t] == 0.0
    {
      if Live(terms, pos, t) && DocAt(terms, pos, t) == d {
        ContributionAt(terms[t], d, pos[t]);
      } else {
        BeyondContributesNothing(terms, pos, d, d, t);
      }
    }
    forall j | 0 <= j < |at| ensures g[at[j]] == c[at[j]] {
      assert at[j] in at;
    }
    SumAtMono(g, c, at);
    SumAtMono(c, g, at);
    SumAtAll(c, at);
  }

  // ---- the bounded heap of hits

  /** `pushTop`, with the heap as its ranked contents. */
  function PushTop(top: seq<Hit>, h: Hit, k: nat): seq<Hit>
    requires k > 0
  {
    Push(Better, top, h, k)
  }

  ghost predicate HoldsTop(top: seq<Hit>, pushed: set<Hit>, k: nat, threshold: real) {
    && k > 0 && IsTop(Better, top, pushed, k) && |top| <= k
    && threshold == if |top| == k then top[k - 1].score else 0.0
  }

  // ---- what is settled about the documents below the floor

  /** Scored, or unable to matter: below the seed, or beaten by k scored documents. */
  ghost predicate Settled(terms: seq<Term>, pushed: set<Hit>, k: nat, seed: real, d: nat) {
    var h := Scored(terms, d);
    h in pushed || h.score < seed || |Beaters(Better, pushed, h)| >= k
  }

  ghost predicate Progress(terms: seq<Term>, keep: nat -> bool, floor: nat, pushed: set<Hit>, k: nat, seed: real) {
    && (forall d :: d in Docs(terms) && d < floor && keep(d) ==> Settled(terms, pushed, k, seed, d))
    && (forall h :: h in pushed ==>
          h.doc < floor && h.doc in Docs(terms) && keep(h.doc) && h == Scored(terms, h.doc))
  }

  /** A document at or above the floor that is not competitive is already beaten: k scored
      documents reach the threshold, and all of them come before it. */
  lemma NotCompetitive(terms: seq<Term>, top: seq<Hit>, pushed: set<Hit>, floor: nat, k: nat, threshold: real,
                       seed: real, d: nat)
    requires Good(terms) && HoldsTop(top, pushed, k, threshold)
    requires forall h :: h in pushed ==> h.doc < floor
    requires d in Docs(terms) && d >= floor
    requires !Competitive(DocScore(terms, d), threshold, seed)
    ensures Settled(terms, pushed, k, seed, d)
  {
    hide DocScore, Docs, GoodTerm, StrictTotal;
    BetterTotal();
    DocScorePositive(terms, d);
    var h := Scored(terms, d);
    if h.score >= seed {
      assert |top| == k && h.score <= threshold;
      forall x | x in Elements(top) ensures x in Beaters(Better, pushed, h) {
        var i :| 0 <= i < |top| && top[i] == x;
        assert i == k - 1 || Better(top[i], top[k - 1]);
        assert x in Top(Better, pushed, k);
      }
      RankedSize(Better, top);
      SubsetSize(Elements(top), Beaters(Better, pushed, h));
    }
  }

  lemma SettledStays(terms: seq<Term>, pushed: set<Hit>, pushed': set<Hit>, k: nat, seed: real, d: nat)
    requires pushed <= pushed' && Settled(terms, pushed, k, seed, d)
    ensures Settled(terms, pushed', k, seed, d)
  {
    BeatersMono(Better, pushed, pushed', Scored(terms, d));
  }

  /** Documents between two floors that are not competitive are settled with the rest. */
  lemma RaiseFloor(terms: seq<Term>, keep: nat -> bool, floor: nat, floor': nat, top: seq<Hit>, pushed: set<Hit>,
                   k: nat, threshold: real, seed: real)
    requires Good(terms) && HoldsTop(top, pushed, k, threshold) && floor <= floor'
    requires Progress(terms, keep, floor, pushed, k, seed)
    requires forall d :: d in Docs(terms) && floor <= d < floor' && keep(d)
               ==> !Competitive(DocScore(terms, d), threshold, seed)
    ensures Progress(terms, keep, floor', pushed, k, seed)
  {
    hide Docs, DocScore, HoldsTop, Settled, Competitive, GoodTerm, Scored;
    forall d | d in Docs(terms) && d < floor' && keep(d) ensures Settled(terms, pushed, k, seed, d) {
      if d >= floor {
        NotCompetitive(terms, top, pushed, floor, k, threshold, seed, d);
      }
    }
  }

  /** Scoring the document at the floor and pushing its hit. */
  lemma PushHit(terms: seq<Term>, keep: nat -> bool, d: nat, top: seq<Hit>, pushed: set<Hit>, k: nat, threshold: real,
                seed: real)
    requires HoldsTop(top, pushed, k, threshold) && Progress(terms, keep, d, pushed, k, seed)
    requires d in Docs(terms) && keep(d)
    ensures var h := Scored(terms, d); var top' := PushTop(top, h, k); var pushed' := pushed + {h};
      && HoldsTop(top', pushed', k, if |top'| == k then top'[k - 1].score else threshold)
      && Progress(terms, keep, d + 1, pushed', k, seed)
  {
    hide Docs, DocScore, Push, IsTop;
    var h := Scored(terms, d);
    assert h !in pushed;
    BetterTotal();
    PushKeepsTop(Better, top, pushed, k, h);
    forall e | e in Docs(terms) && e < d + 1 && keep(e) ensures Settled(terms, pushed + {h}, k, seed, e) {
      if e < d {
        SettledStays(terms, pushed, pushed + {h}, k, seed, e);
      }
    }
  }

  lemma ThresholdNonNegative(terms: seq<Term>, keep: nat -> bool, floor: nat, top: seq<Hit>, pushed: set<Hit>, k: nat,
                             threshold: real, seed: real)
    requires Good(terms) && HoldsTop(top, pushed, k, threshold) && Progress(terms, keep, floor, pushed, k, seed)
    ensures threshold >= 0.0
  {
    hide Docs, DocScore;
    if |top| == k {
      assert top[k - 1] in Elements(top);
      assert top[k - 1] in Top(Better, pushed, k);
      DocScorePositive(terms, top[k - 1].doc);
    }
  }

  /** Everything settled, the heap is the answer. */
  lemma Conclude(terms: seq<Term>, keep: nat -> bool, floor: nat, top: seq<Hit>, pushed: set<Hit>, k: nat,
                 threshold: real, seed: real)
    requires HoldsTop(top, pushed, k, threshold) && Progress(terms, keep, floor, pushed, k, seed)
    requires forall d :: d in Docs(terms) && d >= floor && keep(d) ==> Settled(terms, pushed, k, seed, d)
    ensures SeededAnswer(top, Matches(terms, keep), k, seed)
  {
    hide StrictTotal, Docs, DocScore;
    BetterTotal();
    var s := Matches(terms, keep);
    forall h | h in pushed ensures h in s {
      assert h == Scored(terms, h.doc);
    }
    var s', pushed' := set h | h in s && h.score >= seed, set h | h in pushed && h.score >= seed;
    forall h | h in s' - pushed' ensures |Beaters(Better, s', h)| >= k {
      assert h == Scored(terms, h.doc) && Settled(terms, pushed, k, seed, h.doc);
      SameBeaters(pushed, pushed', seed, h);
      BeatersMono(Better, pushed', s', h);
    }
    Prune(Better, s', pushed', k);
    forall h | h in s && h.score >= seed ensures h in top <==> h in Top(Better, s, k) {
      SameBeaters(s, s', seed, h);
      SameBeaters(pushed, pushed', seed, h);
      assert h in top <==> h in Elements(top);
      assert h in Top(Better, s, k) <==> h in Top(Better, s', k);
      assert h in Top(Better, pushed, k) <==> h in Top(Better, pushed', k);
    }
    forall h | h in Elements(top) ensures h in s {
      assert h in Top(Better, pushed, k);
    }
  }

  /** Only hits reaching the seed can beat a hit that reaches it. */
  lemma SameBeaters(s: set<Hit>, s': set<Hit>, seed: real, h: Hit)
    requires s' == (set x | x in s && x.score >= seed) && h.score >= seed
    ensures Beaters(Better, s, h) == Beaters(Better, s', h)
  {
  }

  /** The first k of `s`, spelled out: scores fall, equal scores stand in order of document, and what is
      left out would stand after everything that is not. */
  ghost predicate FirstK(hits: seq<Hit>, s: set<Hit>, k: nat) {
    && |hits| == (if |s| < k then |s| else k)
    && (forall h :: h in hits ==> h in s)
    && (forall i, j :: 0 <= i < j < |hits| ==>
          hits[i].score >= hits[j].score && (hits[i].score == hits[j].score ==> hits[i].doc < hits[j].doc))
    && (forall i, x :: 0 <= i < |hits| && x in s && x !in hits ==>
          hits[i].score >= x.score && (hits[i].score == x.score ==> hits[i].doc < x.doc))
  }

  lemma TopIsFirst(hits: seq<Hit>, s: set<Hit>, k: nat)
    requires IsTop(Better, hits, s, k)
    ensures FirstK(hits, s, k)
  {
    BetterTotal();
    RankedSize(Better, hits);
    TopSize(Better, s, k);
    forall h | h in hits ensures h in s {
      assert h in Elements(hits);
    }
    forall i, x | 0 <= i < |hits| && x in s && x !in hits ensures Better(hits[i], x) {
      assert hits[i] in Elements(hits) && x !in Elements(hits);
      TopBeatsRest(Better, s, k, hits[i], x);
    }
  }

  /** A seed of zero is below every score, so the answer is the exact top-k. */
  lemma SeedZero(terms: seq<Term>, keep: nat -> bool, out: seq<Hit>, k: nat)
    requires Good(terms) && SeededAnswer(out, Matches(terms, keep), k, 0.0)
    ensures IsTop(Better, out, Matches(terms, keep), k)
  {
    var s := Matches(terms, keep);
    forall h | h in s ensures h.score >= 0.0 {
      DocScorePositive(terms, h.doc);
    }
    forall h ensures h in Elements(out) <==> h in Top(Better, s, k) {
      assert h in out <==> h in Elements(out);
    }
  }
}
