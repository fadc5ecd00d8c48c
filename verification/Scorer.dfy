/** The per-term scorer (search/scorer.go): BM25 without length normalisation. */
module Scoring {

  /** The seam the retrieval loop is written against: a score for a frequency, and a bound
      for every frequency up to a maximum. */
  datatype Scorer = Scorer(score: nat -> real, maxScore: nat -> real)

  /** What the loop needs of a scorer: positive scores, and bounds that are bounds. */
  ghost predicate Sound(s: Scorer) {
    forall f: nat, m: nat {:trigger s.score(f), s.maxScore(m)} ::
      1 <= f <= m ==> 0.0 < s.score(f) <= s.maxScore(m)
  }

  function Bm25(idf: real, k1: real, freq: nat): real
    requires k1 > 0.0
  {
    if freq == 0 then 0.0 else Div(Gain(idf, k1, freq as real), k1 + freq as real)
  }

  function Gain(idf: real, k1: real, f: real): real {
    idf * f * (k1 + 1.0)
  }

  function Times(a: real, b: real): real {
    a * b
  }

  function Div(a: real, b: real): real
    requires b != 0.0
  {
    a / b
  }

  function Bm25Scorer(idf: real, k1: real): Scorer
    requires k1 > 0.0
  {
    Scorer((f: nat) => Bm25(idf, k1, f), (m: nat) => Bm25(idf, k1, m))
  }

  lemma Mul3(a: real, b: real, c: real)
    requires a > 0.0 && b > 0.0 && c > 0.0
    ensures a * b * c > 0.0
  {
  }

  lemma CrossLe(a: real, b: real, c: real, d: real)
    requires b > 0.0 && d > 0.0 && Times(a, d) <= Times(c, b)
    ensures Div(a, b) <= Div(c, d)
  {
    var x, y := Div(a, b), Div(c, d);
    assert x * b == a && y * d == c;
    Regroup(x, b, d);
    Regroup(y, d, b);
    assert b * d > 0.0;
    Cancel(x, y, b * d);
  }

  lemma Regroup(x: real, b: real, d: real)
    ensures (x * b) * d == x * (b * d) && x * (d * b) == x * (b * d)
  {
  }

  lemma Cancel(x: real, y: real, p: real)
    requires p > 0.0 && x * p <= y * p
    ensures x <= y
  {
    assert (y - x) * p >= 0.0;
  }

  lemma DivPositive(a: real, b: real)
    requires a > 0.0 && b > 0.0
    ensures Div(a, b) > 0.0
  {
  }

  /** The score grows with the frequency, which is what makes the block bound a bound. */
  lemma Bm25Monotone(idf: real, k1: real, f: nat, m: nat)
    requires idf > 0.0 && k1 > 0.0 && 1 <= f <= m
    ensures 0.0 < Bm25(idf, k1, f) <= Bm25(idf, k1, m)
    ensures f < m ==> Bm25(idf, k1, f) < Bm25(idf, k1, m)
  {
    hide Div, Gain;
    if f < m { Bm25Strict(idf, k1, f, m); }
    var x, y := f as real, m as real;
    GainFacts(idf, k1, x, y);
    DivPositive(Gain(idf, k1, x), k1 + x);
    CrossLe(Gain(idf, k1, x), k1 + x, Gain(idf, k1, y), k1 + y);
  }

  lemma Bm25Strict(idf: real, k1: real, f: nat, m: nat)
    requires idf > 0.0 && k1 > 0.0 && f < m
    ensures Bm25(idf, k1, f) < Bm25(idf, k1, m)
  {
    hide Bm25;
    Bm25Is(idf, k1, f);
    Bm25Is(idf, k1, m);
    Mul3(idf, k1 + 1.0, 1.0);
    Rises(Bm25(idf, k1, f), Bm25(idf, k1, m), idf * (k1 + 1.0), k1, f as real, m as real);
  }

  lemma Rises(x: real, y: real, c: real, k: real, f: real, m: real)
    requires c > 0.0 && k > 0.0 && 0.0 <= f < m && x * (k + f) == c * f && y * (k + m) == c * m
    ensures x < y
  {
    if y <= x {
      Scale(y, x, k + m);
      assert x * (k + m) == x * (k + f) + x * (m - f);
      assert c * m == c * f + c * (m - f);
      assert (x - c) * (m - f) >= 0.0;
      Below(x, c, k, f);
    }
  }

  lemma Scale(x: real, y: real, p: real)
    requires x <= y && p > 0.0
    ensures x * p <= y * p
  {
  }

  lemma GainFacts(idf: real, k1: real, x: real, y: real)
    requires idf > 0.0 && k1 > 0.0 && 0.0 < x <= y
    ensures Gain(idf, k1, x) > 0.0
    ensures Times(Gain(idf, k1, x), k1 + y) <= Times(Gain(idf, k1, y), k1 + x)
  {
    var p := idf * (k1 + 1.0);
    GainIs(idf, k1, x);
    GainIs(idf, k1, y);
    hide Gain, Times;
    Saturates(p, k1, x, y);
  }

  lemma GainIs(idf: real, k1: real, x: real)
    requires idf > 0.0 && k1 > 0.0 && x > 0.0
    ensures Gain(idf, k1, x) == (idf * (k1 + 1.0)) * x
    ensures Gain(idf, k1, x) > 0.0 && idf * (k1 + 1.0) > 0.0
  {
    Mul3(idf, x, k1 + 1.0);
  }

  /** What the score is: at every frequency, `idf * (k1 + 1) * f` shared out over `k1 + f`. */
  lemma Bm25Is(idf: real, k1: real, freq: nat)
    requires k1 > 0.0
    ensures Bm25(idf, k1, freq) * (k1 + freq as real) == idf * (k1 + 1.0) * freq as real
  {
    var f := freq as real;
    if freq == 0 {
      TimesZero(idf * (k1 + 1.0), f);
    } else {
      DivTimes(Gain(idf, k1, f), k1 + f);
      Swap(idf, f, k1 + 1.0);
    }
  }

  lemma TimesZero(a: real, f: real)
    requires f == 0.0
    ensures a * f == 0.0
  {
  }

  lemma DivTimes(a: real, b: real)
    requires b != 0.0
    ensures Div(a, b) * b == a
  {
  }

  lemma Swap(a: real, b: real, c: real)
    ensures a * b * c == a * c * b
  {
  }

  /** So a single occurrence scores the IDF, and no frequency scores `k1 + 1` times that. */
  lemma Bm25Range(idf: real, k1: real, freq: nat)
    requires idf > 0.0 && k1 > 0.0
    ensures Bm25(idf, k1, 1) == idf && 0.0 <= Bm25(idf, k1, freq) < idf * (k1 + 1.0)
  {
    hide Bm25;
    Bm25Is(idf, k1, 1);
    Bm25Is(idf, k1, freq);
    Cancels(Bm25(idf, k1, 1), idf, k1 + 1.0);
    Mul3(idf, 1.0, k1 + 1.0);
    Below(Bm25(idf, k1, freq), idf * (k1 + 1.0), k1, freq as real);
  }

  lemma Cancels(x: real, y: real, p: real)
    requires p > 0.0 && x * p == y * p * 1.0
    ensures x == y
  {
    Cancel(x, y, p);
    Cancel(y, x, p);
  }

  lemma Below(x: real, top: real, k: real, f: real)
    requires k > 0.0 && f >= 0.0 && top > 0.0 && x * (k + f) == top * f
    ensures 0.0 <= x < top
  {
    assert top * f >= 0.0;
    assert (top - x) * (k + f) == top * k > 0.0;
  }

  /** The scorer scores by it, and its bound for a maximum frequency is the score at that frequency. */
  lemma Bm25ScorerIs(idf: real, k1: real, freq: nat)
    requires k1 > 0.0
    ensures var s := Bm25Scorer(idf, k1);
      && s.score(freq) * (k1 + freq as real) == idf * (k1 + 1.0) * freq as real
      && s.maxScore(freq) * (k1 + freq as real) == idf * (k1 + 1.0) * freq as real
  {
    Bm25Is(idf, k1, freq);
  }

  lemma Saturates(p: real, k: real, x: real, y: real)
    requires p > 0.0 && k > 0.0 && x <= y
    ensures Times(p * x, k + y) <= Times(p * y, k + x)
  {
    assert p * k * (y - x) >= 0.0;
    assert p * y * (k + x) - p * x * (k + y) == p * k * (y - x);
  }

  lemma Bm25Sound(idf: real, k1: real)
    requires idf > 0.0 && k1 > 0.0
    ensures Sound(Bm25Scorer(idf, k1))
  {
    hide Bm25;
    var s := Bm25Scorer(idf, k1);
    forall f: nat, m: nat {:trigger s.score(f), s.maxScore(m)} | 1 <= f <= m
      ensures 0.0 < s.score(f) <= s.maxScore(m)
    {
      Bm25Monotone(idf, k1, f, m);
    }
  }
}
