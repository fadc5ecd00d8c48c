/** Seeded block-max WAND (search/wand.go) over cursors, proved to give the seeded exact
    answer while skipping documents and blocks that cannot matter. */
module Wand {
  import opened Digits
  import opened Postings
  import opened Cursors
  import opened Scoring
  import opened Sums
  import opened TopK
  import opened Retrieval

  datatype TermInput = TermInput(cursor: Cursor, scorer: Scorer, maxFreq: nat)

  class TermState {
    const cur: Cursor
    const scorer: Scorer
    const maxScore: real
    ghost const maxFreq: nat
    var doc: nat
    var done: bool

    ghost function Foot(): set<object> {
      {this} + cur.Foot()
    }

    ghost function T(): Term {
      Term(cur.ps, scorer, maxFreq)
    }

    ghost predicate Valid()
      reads this, cur, cur.docs, cur.freqs
    {
      && cur.Valid() && cur.Pos() >= 0
      && maxScore == scorer.maxScore(maxFreq)
      && (done <==> cur.Pos() == |cur.ps|)
      && (!done ==> doc == cur.ps[cur.Pos()].doc)
    }

    constructor (input: TermInput)
      requires input.cursor.Valid() && input.cursor.Pos() == -1
      modifies input.cursor.Foot()
      ensures Valid() && cur == input.cursor && scorer == input.scorer && maxFreq == input.maxFreq
      ensures cur.Pos() == 0 && cur.shallowIdx == old(input.cursor.shallowIdx)
    {
      hide IsEncoding;
      cur, scorer, maxFreq := input.cursor, input.scorer, input.maxFreq;
      maxScore := input.scorer.maxScore(input.maxFreq);
      doc, done := 0, true;
      new;
      var d, ok := cur.NextGEQ(0);
      if ok {
        doc, done := d, false;
      }
    }

    method Advance(target: nat)
      requires Valid()
      modifies Foot()
      ensures Valid() && cur.shallowIdx == old(cur.shallowIdx)
      ensures cur.Pos() == FirstGEQ(cur.ps, old(cur.Pos()), target)
    {
      hide IsEncoding;
      var d, ok := cur.NextGEQ(target);
      if ok {
        doc, done := d, false;
      } else {
        done := true;
      }
    }
  }

  ghost function Feet(states: seq<TermState>): set<object> {
    set i, o | 0 <= i < |states| && o in states[i].Foot() :: o
  }

  ghost predicate Separate(states: seq<TermState>) {
    forall i, j :: 0 <= i < j < |states| ==> states[i].Foot() !! states[j].Foot()
  }

  ghost function Terms(states: seq<TermState>): (t: seq<Term>)
    ensures |t| == |states| && forall i :: 0 <= i < |states| ==> t[i] == states[i].T()
  {
    seq(|states|, i requires 0 <= i < |states| => states[i].T())
  }

  lemma FootInFeet(states: seq<TermState>, i: nat)
    requires i < |states|
    ensures states[i].Foot() <= Feet(states)
  {
  }

  ghost predicate StateIs(t: TermState, pos: nat, sh: nat)
    reads t.Foot()
  {
    t.Valid() && t.cur.Pos() == pos && t.cur.shallowIdx == sh
  }

  /** The value of the mutable state: cursor positions and shallow block pointers. */
  ghost predicate Snap(states: seq<TermState>, pos: seq<nat>, sh: seq<nat>)
    reads Feet(states)
  {
    && |pos| == |states| == |sh| && Separate(states)
    && forall i :: 0 <= i < |states| ==> (FootInFeet(states, i); StateIs(states[i], pos[i], sh[i]))
  }

  method AdvanceOne(states: seq<TermState>, i: nat, target: nat, ghost pos: seq<nat>, ghost sh: seq<nat>)
    returns (ghost pos': seq<nat>)
    requires i < |states| && Snap(states, pos, sh)
    modifies states[i].Foot()
    ensures |pos'| == |pos| && Snap(states, pos', sh)
    ensures pos[i] <= |states[i].cur.ps|
    ensures pos' == pos[i := FirstGEQ(states[i].cur.ps, pos[i], target)]
  {
    hide IsEncoding;
    assert StateIs(states[i], pos[i], sh[i]);
    states[i].Advance(target);
    pos' := pos[i := states[i].cur.Pos()];
    forall j | 0 <= j < |states| && j != i
      ensures StateIs(states[j], pos'[j], sh[j])
    {
      assert StateIs(states[j], pos[j], sh[j]) && states[i].Foot() !! states[j].Foot();
    }
  }

  /** What the fields of a state say about its term and position. */
  lemma StateFacts(states: seq<TermState>, pos: seq<nat>, sh: seq<nat>)
    requires Snap(states, pos, sh)
    ensures Placed(Terms(states), pos)
    ensures forall i :: 0 <= i < |states| ==>
      && states[i].cur.Fixed()
      && states[i].maxScore == Bounds(Terms(states))[i]
      && (!states[i].done <==> Live(Terms(states), pos, i))
      && (!states[i].done ==> states[i].doc == DocAt(Terms(states), pos, i))
  {
    forall i | 0 <= i < |states|
      ensures states[i].cur.Fixed() && pos[i] <= |states[i].cur.ps|
      ensures states[i].maxScore == states[i].scorer.maxScore(states[i].maxFreq)
      ensures !states[i].done <==> pos[i] < |states[i].cur.ps|
      ensures !states[i].done ==> states[i].doc == states[i].cur.ps[pos[i]].doc
    {
      assert StateIs(states[i], pos[i], sh[i]);
    }
  }

  /** `liveSorted`: the unfinished terms by current document, ties in term order. */
  method OrderLive(states: seq<TermState>, ghost pos: seq<nat>, ghost sh: seq<nat>) returns (live: seq<nat>)
    requires Snap(states, pos, sh)
    ensures Snap(states, pos, sh) && Placed(Terms(states), pos) && LiveSorted(Terms(states), pos, live)
  {
    hide IsEncoding;
    StateFacts(states, pos, sh);
    ghost var terms := Terms(states);
    hide Terms, Snap, Placed, Ordered, Positions;
    NoneOrdered(terms, pos);
    live := [];
    var i := 0;
    while i < |states|
      invariant 0 <= i <= |states| && Positions(live, i) && Ordered(terms, pos, live)
      invariant forall t :: 0 <= t < i ==> (t in live <==> Live(terms, pos, t))
    {
      if !states[i].done {
        var j := Slot(states, live, states[i].doc);
        InsertOrdered(terms, pos, live, i, j);
        InsertPositions(live, i, j);
        live := live[..j] + [i] + live[j..];
      }
      i := i + 1;
    }
  }

  lemma NoneOrdered(terms: seq<Term>, pos: seq<nat>)
    requires Placed(terms, pos)
    ensures Positions([], 0) && Ordered(terms, pos, [])
  {
  }

  /** Where a document goes in the order: after everything not larger. */
  method Slot(states: seq<TermState>, live: seq<nat>, doc: nat) returns (j: nat)
    requires forall k :: 0 <= k < |live| ==> live[k] < |states|
    ensures j <= |live| && forall k :: 0 <= k < j ==> states[live[k]].doc <= doc
    ensures j < |live| ==> doc < states[live[j]].doc
  {
    j := 0;
    while j < |live| && states[live[j]].doc <= doc
      invariant 0 <= j <= |live|
      invariant forall k :: 0 <= k < j ==> states[live[k]].doc <= doc
    {
      j := j + 1;
    }
  }

  ghost predicate Ordered(terms: seq<Term>, pos: seq<nat>, live: seq<nat>)
    requires Placed(terms, pos)
  {
    && (forall k :: 0 <= k < |live| ==> live[k] < |terms| && Live(terms, pos, live[k]))
    && (forall i, j :: 0 <= i < j < |live| ==> DocAt(terms, pos, live[i]) <= DocAt(terms, pos, live[j]))
  }

  lemma InsertOrdered(terms: seq<Term>, pos: seq<nat>, live: seq<nat>, i: nat, j: nat)
    requires Placed(terms, pos) && i < |terms| && j <= |live| && Live(terms, pos, i) && Ordered(terms, pos, live)
    requires forall k :: 0 <= k < j ==> DocAt(terms, pos, live[k]) <= DocAt(terms, pos, i)
    requires j < |live| ==> DocAt(terms, pos, i) <= DocAt(terms, pos, live[j])
    ensures Ordered(terms, pos, live[..j] + [i] + live[j..])
  {
    var out := live[..j] + [i] + live[j..];
    assert forall k :: 0 <= k < |out| ==> out[k] == if k < j then live[k] else if k == j then i else live[k - 1];
    hide Live, Placed, DocAt;
    assert forall k :: j <= k < |live| ==> DocAt(terms, pos, i) <= DocAt(terms, pos, live[k]);
  }

  lemma InsertPositions(live: seq<nat>, i: nat, j: nat)
    requires Positions(live, i) && j <= |live|
    ensures var out := live[..j] + [i] + live[j..];
      Positions(out, i + 1) && forall t :: t in out <==> t in live || t == i
  {
    var out := live[..j] + [i] + live[j..];
    assert forall k :: 0 <= k < |out| ==> out[k] == if k < j then live[k] else if k == j then i else live[k - 1];
    forall t | t in live ensures t in out {
      var k :| 0 <= k < |live| && live[k] == t;
      assert out[if k < j then k else k + 1] == t;
    }
    assert out[j] == i;
  }

  /** `p` is the first live position whose prefix of bounds competes; -1 if none does. */
  ghost predicate IsPivot(terms: seq<Term>, live: seq<nat>, threshold: real, seed: real, p: int) {
    && p < |live|
    && (forall j :: 0 <= j <= |live| ==> Positions(live[..j], |terms|))
    && (p >= 0 ==> Competitive(SumAt(Bounds(terms), live[..p + 1]), threshold, seed))
    && !Competitive(SumAt(Bounds(terms), live[..if p < 0 then |live| else p]), threshold, seed)
  }

  /** `findPivotSeeded`. */
  method FindPivot(states: seq<TermState>, live: seq<nat>, threshold: real, seed: real, ghost pos: seq<nat>,
                   ghost sh: seq<nat>)
    returns (p: int)
    requires Snap(states, pos, sh) && Positions(live, |states|) && threshold >= 0.0
    requires forall i :: 0 <= i < |states| ==> states[i].maxScore == Bounds(Terms(states))[i]
    ensures Snap(states, pos, sh) && IsPivot(Terms(states), live, threshold, seed, p)
  {
    hide IsEncoding;
    ghost var b := Bounds(Terms(states));
    var sum := 0.0;
    p := 0;
    while p < |live|
      invariant 0 <= p <= |live| && sum == SumAt(b, live[..p])
      invariant !Competitive(sum, threshold, seed)
    {
      assert live[..p + 1][..p] == live[..p];
      sum := sum + states[live[p]].maxScore;
      if Competitive(sum, threshold, seed) {
        return;
      }
      p := p + 1;
    }
    assert live[..p] == live;
    p := -1;
  }

  /** What each term standing on the document adds. */
  ghost function OnDoc(terms: seq<Term>, pos: seq<nat>, doc: nat): (g: seq<real>)
    requires Placed(terms, pos)
    ensures |g| == |terms|
    ensures forall t :: 0 <= t < |terms| ==>
      g[t] == if Live(terms, pos, t) && DocAt(terms, pos, t) == doc
              then terms[t].scorer.score(terms[t].ps[pos[t]].freq) else 0.0
  {
    seq(|terms|, t requires 0 <= t < |terms| =>
      if Live(terms, pos, t) && DocAt(terms, pos, t) == doc
      then terms[t].scorer.score(terms[t].ps[pos[t]].freq) else 0.0)
  }

  /** Every live cursor stands at or beyond the document, and none has passed it. */
  ghost predicate Aligned(terms: seq<Term>, pos: seq<nat>, live: seq<nat>, doc: nat) {
    && Placed(terms, pos) && LiveSorted(terms, pos, live) && Behind(terms, pos, doc)
    && forall t :: t in live ==> t < |terms| && Live(terms, pos, t) && DocAt(terms, pos, t) >= doc
  }

  ghost predicate ScoredUpTo(terms: seq<Term>, pos: seq<nat>, live: seq<nat>, doc: nat, i: nat, score: real) {
    && Placed(terms, pos) && i <= |live| && Positions(live[..i], |terms|)
    && score == SumAt(OnDoc(terms, pos, doc), live[..i])
  }

  lemma ScoredNone(terms: seq<Term>, pos: seq<nat>, live: seq<nat>, doc: nat)
    requires Aligned(terms, pos, live, doc)
    ensures ScoredUpTo(terms, pos, live, doc, 0, 0.0)
  {
  }

  lemma ScoredNext(states: seq<TermState>, pos: seq<nat>, sh: seq<nat>, live: seq<nat>, doc: nat, i: nat, score: real)
    requires Snap(states, pos, sh) && Aligned(Terms(states), pos, live, doc) && i < |live|
    requires ScoredUpTo(Terms(states), pos, live, doc, i, score)
    ensures live[i] < |states| && states[live[i]].Valid() && 0 <= states[live[i]].cur.Pos() < |states[live[i]].cur.ps|
    ensures ScoredUpTo(Terms(states), pos, live, doc, i + 1, if states[live[i]].doc == doc
              then score + states[live[i]].scorer.score(states[live[i]].cur.Freq()) else score)
  {
    hide IsEncoding, Terms, Snap, Behind, OnDoc;
    assert live[..i + 1][..i] == live[..i];
    assert live[i] in live;
    OnDocAt(states, pos, sh, doc, live[i]);
  }

  lemma ScoredAll(terms: seq<Term>, pos: seq<nat>, live: seq<nat>, doc: nat, score: real)
    requires Good(terms) && Aligned(terms, pos, live, doc) && ScoredUpTo(terms, pos, live, doc, |live|, score)
    ensures score == DocScore(terms, doc)
  {
    hide Good, DocScore, Behind;
    assert live[..|live|] == live;
    LiveDistinct(terms, pos, live);
    assert forall t :: 0 <= t < |terms| && Live(terms, pos, t) ==> t in live;
    ScoreIsSum(terms, pos, live, OnDoc(terms, pos, doc), doc);
  }

  /** `scoreDoc`: the contributions of the terms standing on the document. */
  method ScoreDoc(states: seq<TermState>, live: seq<nat>, doc: nat, ghost pos: seq<nat>, ghost sh: seq<nat>)
    returns (score: real)
    requires Snap(states, pos, sh) && Good(Terms(states)) && Aligned(Terms(states), pos, live, doc)
    ensures score == DocScore(Terms(states), doc) && Snap(states, pos, sh)
  {
    hide IsEncoding, Good, DocScore, Snap, Terms, Aligned, ScoredUpTo;
    ScoredNone(Terms(states), pos, live, doc);
    score := 0.0;
    var i := 0;
    while i < |live|
      invariant 0 <= i <= |live| && Snap(states, pos, sh) && ScoredUpTo(Terms(states), pos, live, doc, i, score)
    {
      ScoredNext(states, pos, sh, live, doc, i, score);
      if states[live[i]].doc == doc {
        score := score + states[live[i]].scorer.score(states[live[i]].cur.Freq());
      }
      i := i + 1;
    }
    ScoredAll(Terms(states), pos, live, doc, score);
  }

  lemma OnDocAt(states: seq<TermState>, pos: seq<nat>, sh: seq<nat>, doc: nat, t: nat)
    requires Snap(states, pos, sh) && Placed(Terms(states), pos) && t < |states| && Live(Terms(states), pos, t)
    ensures states[t].Valid() && 0 <= states[t].cur.Pos() < |states[t].cur.ps|
    ensures OnDoc(Terms(states), pos, doc)[t]
            == if states[t].doc == doc then states[t].scorer.score(states[t].cur.Freq()) else 0.0
  {
    assert StateIs(states[t], pos[t], sh[t]);
    assert Terms(states)[t] == states[t].T();
  }

  /** `pickAdvance`: among the terms before the pivot, one with the largest bound. */
  method PickAdvance(states: seq<TermState>, live: seq<nat>, pivotDoc: nat, ghost pos: seq<nat>, ghost sh: seq<nat>)
    returns (best: nat)
    requires Snap(states, pos, sh) && Positions(live, |states|) && live != [] && states[live[0]].doc < pivotDoc
    requires forall i :: 0 <= i < |live| ==> states[live[i]].maxScore > -1.0
    ensures Snap(states, pos, sh) && best < |live| && states[live[best]].doc < pivotDoc
    ensures forall i :: 0 <= i < |live| && states[live[i]].doc < pivotDoc
              ==> states[live[i]].maxScore <= states[live[best]].maxScore
  {
    hide Snap, Positions;
    InRange(live, |states|);
    var found, bestScore, i := -1, -1.0, 0;
    while i < |live|
      invariant 0 <= i <= |live| && -1 <= found < i
      invariant found == -1 ==> i == 0
      invariant found >= 0 ==> states[live[found]].doc < pivotDoc && bestScore == states[live[found]].maxScore
      invariant forall j :: 0 <= j < i && states[live[j]].doc < pivotDoc ==> states[live[j]].maxScore <= bestScore
      invariant found == -1 ==> bestScore == -1.0
    {
      if states[live[i]].doc < pivotDoc && states[live[i]].maxScore > bestScore {
        found, bestScore := i, states[live[i]].maxScore;
      }
      i := i + 1;
    }
    best := found;
  }

  lemma InRange(live: seq<nat>, n: nat)
    requires Positions(live, n)
    ensures forall i :: 0 <= i < |live| ==> live[i] < n
  {
  }

  /** Advances every live term below `target` up to it. */
  method AdvanceBelow(states: seq<TermState>, live: seq<nat>, target: nat, ghost pos: seq<nat>, ghost sh: seq<nat>)
    returns (ghost pos': seq<nat>)
    requires Snap(states, pos, sh) && Placed(Terms(states), pos) && LiveSorted(Terms(states), pos, live)
    modifies Feet(states)
    ensures Snap(states, pos', sh) && Moved(Terms(states), pos, pos', target)
  {
    hide IsEncoding, FirstGEQ, Snap, Terms, LiveSorted, MovedSome, Moved;
    ghost var terms := Terms(states);
    LiveDistinct(terms, pos, live);
    pos' := pos;
    MovedNone(terms, pos, target);
    var i := 0;
    while i < |live|
      invariant 0 <= i <= |live| && |pos'| == |states| && Snap(states, pos', sh)
      invariant MovedSome(terms, pos, pos', live[..i], target)
    {
      var t := live[i];
      FootInFeet(states, t);
      pos' := AdvanceIf(states, t, target, pos, pos', sh, live[..i]);
      assert live[..i + 1] == live[..i] + [t];
      i := i + 1;
    }
    assert live[..i] == live;
    MovedAll(terms, pos, pos', live, target);
  }

  method AdvanceIf(states: seq<TermState>, t: nat, target: nat, ghost was: seq<nat>, ghost pos: seq<nat>,
                   ghost sh: seq<nat>, ghost moved: seq<nat>)
    returns (ghost pos': seq<nat>)
    requires t < |states| && t !in moved && |pos| == |states| && Snap(states, pos, sh)
    requires Placed(Terms(states), was) && Live(Terms(states), was, t)
    requires MovedSome(Terms(states), was, pos, moved, target)
    modifies states[t].Foot()
    ensures |pos'| == |states| && Snap(states, pos', sh)
    ensures MovedSome(Terms(states), was, pos', moved + [t], target)
  {
    hide FirstGEQ, Snap, MovedSome, Terms;
    pos' := pos;
    StateFacts(states, pos, sh);
    MovedNext(Terms(states), was, pos, moved, target, t);
    if states[t].doc < target {
      pos' := AdvanceOne(states, t, target, pos, sh);
    }
  }

  /** The listed terms have been advanced, the others have not. */
  ghost predicate MovedSome(terms: seq<Term>, pos: seq<nat>, pos': seq<nat>, moved: seq<nat>, target: nat)
    requires Placed(terms, pos)
  {
    |pos'| == |pos| && forall t :: 0 <= t < |terms| ==>
      pos'[t] == if t in moved then FirstGEQ(terms[t].ps, pos[t], target) else pos[t]
  }

  lemma MovedNone(terms: seq<Term>, pos: seq<nat>, target: nat)
    requires Placed(terms, pos)
    ensures MovedSome(terms, pos, pos, [], target)
  {
  }

  lemma MovedNext(terms: seq<Term>, pos: seq<nat>, pos': seq<nat>, moved: seq<nat>, target: nat, t: nat)
    requires Placed(terms, pos) && Placed(terms, pos') && MovedSome(terms, pos, pos', moved, target)
    requires t < |terms| && t !in moved && Live(terms, pos, t)
    ensures MovedSome(terms, pos, pos'[t := FirstGEQ(terms[t].ps, pos'[t], target)], moved + [t], target)
    ensures Live(terms, pos', t)
    ensures DocAt(terms, pos', t) >= target ==> pos'[t := FirstGEQ(terms[t].ps, pos'[t], target)] == pos'
  {
    if DocAt(terms, pos', t) >= target {
      Stays(terms[t].ps, pos'[t], target);
    }
  }

  lemma MovedAll(terms: seq<Term>, pos: seq<nat>, pos': seq<nat>, live: seq<nat>, target: nat)
    requires Placed(terms, pos) && MovedSome(terms, pos, pos', live, target)
    requires forall t :: 0 <= t < |terms| && t !in live ==> pos[t] == |terms[t].ps|
    ensures Moved(terms, pos, pos', target)
  {
    forall t | 0 <= t < |terms| && t !in live ensures FirstGEQ(terms[t].ps, pos[t], target) == pos[t] {
      Stays(terms[t].ps, pos[t], target);
    }
  }

  lemma LiveDistinct(terms: seq<Term>, pos: seq<nat>, live: seq<nat>)
    requires Placed(terms, pos) && LiveSorted(terms, pos, live)
    ensures Positions(live, |terms|)
    ensures forall i :: 0 <= i < |live| ==> live[i] !in live[..i] && Live(terms, pos, live[i])
    ensures forall t :: 0 <= t < |terms| && t !in live ==> pos[t] == |terms[t].ps|
  {
    forall i | 0 <= i < |live| ensures live[i] !in live[..i] && Live(terms, pos, live[i]) {
      assert live[i] in live;
    }
  }

  lemma Stays(ps: seq<Posting>, from: nat, target: nat)
    requires from <= |ps| && (from < |ps| ==> ps[from].doc >= target)
    ensures FirstGEQ(ps, from, target) == from
  {
  }

  // ---- block bounds

  /** Blocks before the shallow pointers end below the floor. */
  ghost predicate Shallow(states: seq<TermState>, sh: seq<nat>, floor: nat) {
    && |sh| == |states|
    && forall i, b :: 0 <= i < |states| && 0 <= b < sh[i] && b < |states[i].cur.l.blocks|
         ==> states[i].cur.l.blocks[b].lastDoc < floor
  }

  ghost predicate Covers(t: TermState, b: nat, target: nat) {
    b < |t.cur.l.blocks| && t.cur.l.blocks[b].lastDoc >= target
  }

  /** The bound each term's shallow block puts on a document in it. */
  ghost function BlockBounds(states: seq<TermState>, sh: seq<nat>): (b: seq<real>)
    requires |sh| == |states|
    ensures |b| == |states|
    ensures forall i :: 0 <= i < |states| && sh[i] < |states[i].cur.l.blocks|
              ==> b[i] == states[i].scorer.maxScore(states[i].cur.l.blocks[sh[i]].maxFreq)
  {
    seq(|states|, i requires 0 <= i < |states| =>
      if sh[i] >= |states[i].cur.l.blocks| then 0.0
      else states[i].scorer.maxScore(states[i].cur.l.blocks[sh[i]].maxFreq))
  }

  /** Between the pivot and the end of the covering block, the block bound holds. */
  lemma TermBlockBound(t: TermState, i: nat, b: nat, pivot: nat, d: nat)
    requires GoodTerm(t.T()) && IsEncoding(t.cur.l, t.cur.ps) && i < |t.cur.ps| && t.cur.ps[i].doc == pivot
    requires b < |t.cur.l.blocks| && pivot <= d <= t.cur.l.blocks[b].lastDoc
    requires forall c :: 0 <= c < b ==> t.cur.l.blocks[c].lastDoc < pivot
    ensures Contribution(t.T(), d) <= t.scorer.maxScore(t.cur.l.blocks[b].maxFreq)
  {
    hide IsEncoding, FirstGEQ;
    var ps, m := t.cur.ps, t.cur.l.blocks[b].maxFreq;
    BlockCovers(t.cur.l, ps, b, pivot, i);
    assert t.scorer.score(ps[i].freq) <= t.scorer.maxScore(m);
    var j := FirstGEQ(ps, 0, d);
    if j < |ps| && ps[j].doc == d {
      BlockCovers(t.cur.l, ps, b, pivot, j);
      assert t.scorer.score(ps[j].freq) <= t.scorer.maxScore(m);
    }
  }

  /** The first `m` live terms stand on the pivot, the others beyond it. */
  ghost predicate OnPivot(terms: seq<Term>, pos: seq<nat>, live: seq<nat>, m: nat, pivot: nat)
    requires Placed(terms, pos)
  {
    && m <= |live| && LiveSorted(terms, pos, live)
    && (forall j :: 0 <= j < m ==>
      live[j] < |terms| && Live(terms, pos, live[j]) && DocAt(terms, pos, live[j]) == pivot)
    && (m < |live| ==> live[m] in live && DocAt(terms, pos, live[m]) > pivot)
  }

  /** `skipBlock` may pass a document that every pivot term's block still covers and that
      no term outside the pivot set has reached: the block bounds hold for it. */
  lemma SkippedDocument(states: seq<TermState>, pos: seq<nat>, live: seq<nat>, sh: seq<nat>, m: nat, pivot: nat, d: nat)
    requires Good(Terms(states)) && Placed(Terms(states), pos) && Behind(Terms(states), pos, pivot)
    requires forall i :: 0 <= i < |states| ==> states[i].cur.Fixed()
    requires OnPivot(Terms(states), pos, live, m, pivot) && Shallow(states, sh, pivot)
    requires pivot <= d && forall j :: 0 <= j < m ==> Covers(states[live[j]], sh[live[j]], d)
    requires m < |live| ==> d < DocAt(Terms(states), pos, live[m])
    ensures Positions(live[..m], |states|)
    ensures DocScore(Terms(states), d) <= SumAt(BlockBounds(states, sh), live[..m])
  {
    hide Contribution, GoodTerm, IsEncoding;
    var terms, bb, l := Terms(states), BlockBounds(states, sh), live[..m];
    var c := Contributions(terms, d);
    forall t | 0 <= t < |terms| && t !in l ensures c[t] == 0.0 {
      if t in live {
        var j :| 0 <= j < |live| && live[j] == t;
        InPrefix(live, m, j);
        assert j == m || DocAt(terms, pos, live[m]) <= DocAt(terms, pos, live[j]);
      }
      BeyondContributesNothing(terms, pos, pivot, d, t);
    }
    forall j | 0 <= j < |l| ensures c[l[j]] <= bb[l[j]] {
      var t := l[j];
      assert t == live[j] && Covers(states[t], sh[t], d);
      TermBlockBound(states[t], pos[t], sh[t], pivot, d);
    }
    SumAtAll(c, l);
    SumAtMono(c, bb, l);
  }

  method AdvanceShallowOne(states: seq<TermState>, t: nat, target: nat, ghost pos: seq<nat>, ghost sh: seq<nat>)
    returns (ghost sh': seq<nat>)
    requires t < |states| && Snap(states, pos, sh) && Shallow(states, sh, target)
    requires pos[t] < |states[t].cur.ps| && states[t].cur.ps[pos[t]].doc >= target
    modifies states[t].cur`shallowIdx
    ensures |sh'| == |sh| && Snap(states, pos, sh') && Shallow(states, sh', target)
    ensures Covers(states[t], sh'[t], target)
    ensures sh' == sh[t := sh'[t]] && (Covers(states[t], sh[t], target) ==> sh' == sh)
  {
    hide IsEncoding;
    assert StateIs(states[t], pos[t], sh[t]);
    states[t].cur.AdvanceShallow(target);
    ghost var x := states[t].cur.shallowIdx;
    sh' := sh[t := x];
    CoveringBlock(states[t].cur.l, states[t].cur.ps, x, pos[t], target);
    forall j | 0 <= j < |states| && j != t ensures StateIs(states[j], pos[j], sh'[j]) {
      assert StateIs(states[j], pos[j], sh[j]) && states[j].Foot() !! states[t].Foot();
    }
  }

  /** A block pointer that stopped short of the end, or at it, covers any document still ahead. */
  lemma CoveringBlock(l: List, ps: seq<Posting>, b: nat, i: nat, target: nat)
    requires IsEncoding(l, ps) && i < |ps| && ps[i].doc >= target && (b == 0 || b < |l.blocks|)
    requires b + 1 < |l.blocks| ==> l.blocks[b].lastDoc >= target
    ensures b < |l.blocks| && l.blocks[b].lastDoc >= target
  {
    Opened(l, ps);
    hide EncodeList;
    BlockFacts(l, ps, b);
    if b + 1 == |l.blocks| {
      DocOrder(ps, i, |ps| - 1);
    }
  }

  /** The facts that block refinement at a pivot starts from. */
  ghost predicate AtPivot(states: seq<TermState>, pos: seq<nat>, sh: seq<nat>, live: seq<nat>, pivot: nat) {
    && Placed(Terms(states), pos) && LiveSorted(Terms(states), pos, live) && live != []
    && (forall j :: 0 <= j < |live| ==> live[j] < |states| && Live(Terms(states), pos, live[j])
                                        && DocAt(Terms(states), pos, live[j]) >= pivot)
    && DocAt(Terms(states), pos, live[0]) == pivot
    && Shallow(states, sh, pivot)
  }

  /** The shallow pointers of the first `m` live terms cover the pivot. */
  ghost predicate CoverFirst(states: seq<TermState>, sh: seq<nat>, live: seq<nat>, m: nat, pivot: nat) {
    |sh| == |states| && m <= |live|
    && forall j :: 0 <= j < m ==> live[j] < |states| && Covers(states[live[j]], sh[live[j]], pivot)
  }

  ghost function Curs(states: seq<TermState>): set<Cursor> {
    set i | 0 <= i < |states| :: states[i].cur
  }

  /** `sum` adds the bounds of the blocks the first `i` live terms have at the pivot. */
  ghost predicate BlockSum(states: seq<TermState>, pos: seq<nat>, sh: seq<nat>, live: seq<nat>, i: nat, pivot: nat,
                           sum: real) {
    && Placed(Terms(states), pos) && Shallow(states, sh, pivot) && CoverFirst(states, sh, live, i, pivot)
    && Positions(live[..i], |states|)
    && (forall j :: 0 <= j < i ==> Live(Terms(states), pos, live[j]) && DocAt(Terms(states), pos, live[j]) == pivot)
    && sum == SumAt(BlockBounds(states, sh), live[..i])
  }

  lemma BlockSumStep(states: seq<TermState>, pos: seq<nat>, sh: seq<nat>, sh': seq<nat>, live: seq<nat>, i: nat,
                     pivot: nat, sum: real)
    requires BlockSum(states, pos, sh, live, i, pivot, sum) && i < |live| && Positions(live, |states|)
    requires live[i] !in live[..i] && Live(Terms(states), pos, live[i]) && DocAt(Terms(states), pos, live[i]) == pivot
    requires |sh'| == |states| && sh' == sh[live[i] := sh'[live[i]]] && Shallow(states, sh', pivot)
    requires Covers(states[live[i]], sh'[live[i]], pivot)
    ensures BlockSum(states, pos, sh', live, i + 1, pivot, sum + BlockBounds(states, sh')[live[i]])
  {
    hide Covers, Shallow, Live, DocAt;
    var b, b', l := BlockBounds(states, sh), BlockBounds(states, sh'), live[..i];
    forall j | 0 <= j < |l| ensures b[l[j]] == b'[l[j]] && Covers(states[live[j]], sh'[live[j]], pivot) {
      assert l[j] == live[j] && l[j] != live[i];
      assert Covers(states[live[j]], sh[live[j]], pivot);
    }
    SumAtMono(b, b', l);
    SumAtMono(b', b, l);
    assert live[..i + 1][..i] == l;
  }

  lemma AtPivotTerm(states: seq<TermState>, pos: seq<nat>, sh: seq<nat>, sh0: seq<nat>, live: seq<nat>, pivot: nat,
                    i: nat)
    requires AtPivot(states, pos, sh0, live, pivot) && Snap(states, pos, sh) && i < |live|
    ensures Positions(live, |states|) && live[i] !in live[..i] && live[i] < |states| && live[i] in live
    ensures Placed(Terms(states), pos) && Live(Terms(states), pos, live[i])
    ensures DocAt(Terms(states), pos, live[i]) == states[live[i]].doc >= pivot
    ensures i == 0 ==> states[live[i]].doc == pivot
  {
    LiveDistinct(Terms(states), pos, live);
    StateFacts(states, pos, sh);
  }

  /** `blockMaxSum`: positions the shallow pointers at the pivot and sums the block bounds. */
  method BlockMaxSum(states: seq<TermState>, live: seq<nat>, pivot: nat, ghost pos: seq<nat>, ghost sh: seq<nat>)
    returns (sum: real, ghost sh': seq<nat>, ghost m: nat)
    requires Snap(states, pos, sh) && AtPivot(states, pos, sh, live, pivot)
    modifies Curs(states)`shallowIdx
    ensures m <= |live| && Snap(states, pos, sh') && BlockSum(states, pos, sh', live, m, pivot, sum)
    ensures 0 < m && (m < |live| ==> DocAbove(states, pos, live, m, pivot))
  {
    hide Snap, AtPivot, Terms, BlockSum, Positions, Placed, Live, DocAt, DocAbove;
    BlockSumNone(states, pos, sh, live, pivot);
    sum, sh', m := 0.0, sh, 0;
    var i := 0;
    while i < |live|
      invariant 0 <= i <= |live| && Snap(states, pos, sh') && BlockSum(states, pos, sh', live, i, pivot, sum)
    {
      AtPivotTerm(states, pos, sh', sh, live, pivot, i);
      if states[live[i]].doc > pivot {
        DocAboveIs(states, pos, live, i, pivot);
        break;
      }
      var x;
      x, sh' := BlockMaxOne(states, live, i, pivot, pos, sh', sum);
      sum := sum + x;
      i := i + 1;
    }
    m := i;
  }

  ghost predicate DocAbove(states: seq<TermState>, pos: seq<nat>, live: seq<nat>, m: nat, pivot: nat) {
    && Placed(Terms(states), pos) && m < |live| && live[m] < |states| && live[m] in live
    && Live(Terms(states), pos, live[m]) && DocAt(Terms(states), pos, live[m]) > pivot
  }

  lemma DocAboveIs(states: seq<TermState>, pos: seq<nat>, live: seq<nat>, m: nat, pivot: nat)
    requires Placed(Terms(states), pos) && m < |live| && live[m] < |states| && live[m] in live
    requires Live(Terms(states), pos, live[m]) && DocAt(Terms(states), pos, live[m]) > pivot
    ensures DocAbove(states, pos, live, m, pivot)
  {
  }

  lemma BlockSumNone(states: seq<TermState>, pos: seq<nat>, sh: seq<nat>, live: seq<nat>, pivot: nat)
    requires AtPivot(states, pos, sh, live, pivot)
    ensures live != [] && BlockSum(states, pos, sh, live, 0, pivot, 0.0)
  {
  }

  method BlockMaxOne(states: seq<TermState>, live: seq<nat>, i: nat, pivot: nat, ghost pos: seq<nat>,
                     ghost sh: seq<nat>, ghost sum: real)
    returns (x: real, ghost sh': seq<nat>)
    requires Snap(states, pos, sh) && BlockSum(states, pos, sh, live, i, pivot, sum)
    requires i < |live| && Positions(live, |states|) && live[i] !in live[..i]
    requires Live(Terms(states), pos, live[i]) && DocAt(Terms(states), pos, live[i]) == pivot
    modifies Curs(states)`shallowIdx
    ensures Snap(states, pos, sh') && BlockSum(states, pos, sh', live, i + 1, pivot, sum + x)
  {
    hide IsEncoding, Snap, Shallow, Covers;
    var t := live[i];
    sh' := AdvanceShallowOne(states, t, pivot, pos, sh);
    BlockSumStep(states, pos, sh, sh', live, i, pivot, sum);
    BlockBoundAt(states, t, pos, sh');
    x := states[t].scorer.maxScore(states[t].cur.BlockMaxFreq());
  }

  lemma BlockBoundAt(states: seq<TermState>, t: nat, pos: seq<nat>, sh: seq<nat>)
    requires t < |states| && Snap(states, pos, sh) && pos[t] < |states[t].cur.ps|
    ensures |sh| == |states| && states[t].cur.Valid() && states[t].cur.ps != []
    ensures states[t].scorer.maxScore(states[t].cur.BlockMaxFreq()) == BlockBounds(states, sh)[t]
    ensures sh[t] < |states[t].cur.l.blocks|
    ensures states[t].cur.BlockLastDoc() == states[t].cur.l.blocks[sh[t]].lastDoc
  {
    assert StateIs(states[t], pos[t], sh[t]);
  }

  /** The blocks of the first `i` live terms all reach `d`. */
  ghost predicate Reach(states: seq<TermState>, sh: seq<nat>, live: seq<nat>, i: nat, d: nat) {
    |sh| == |states| && i <= |live|
    && forall j :: 0 <= j < i ==> live[j] < |states| && Covers(states[live[j]], sh[live[j]], d)
  }

  lemma ReachStep(states: seq<TermState>, sh: seq<nat>, live: seq<nat>, i: nat, d: nat, d': nat)
    requires i < |live| && |sh| == |states| && live[i] < |states|
    requires i > 0 ==> Reach(states, sh, live, i, d)
    requires (i > 0 ==> d' <= d) && Covers(states[live[i]], sh[live[i]], d')
    ensures Reach(states, sh, live, i + 1, d')
  {
  }

  /** One term of `skipBlock`'s first loop: its shallow pointer stays, its block end is read. */
  method BlockEnd(states: seq<TermState>, t: nat, pivot: nat, ghost pos: seq<nat>, ghost sh: seq<nat>)
    returns (last: nat)
    requires t < |states| && Snap(states, pos, sh) && Shallow(states, sh, pivot) && GoodTerm(states[t].T())
    requires pos[t] < |states[t].cur.ps| && states[t].cur.ps[pos[t]].doc >= pivot
    requires Covers(states[t], sh[t], pivot)
    modifies states[t].cur`shallowIdx
    ensures Snap(states, pos, sh) && Covers(states[t], sh[t], last) && pivot <= last < U32 - 1
  {
    hide IsEncoding, Snap, Shallow;
    ghost var sh' := AdvanceShallowOne(states, t, pivot, pos, sh);
    BlockBoundAt(states, t, pos, sh);
    last := states[t].cur.BlockLastDoc();
    BlockFacts(states[t].cur.l, states[t].cur.ps, sh[t]);
  }

  method FirstBlockEnd(states: seq<TermState>, live: seq<nat>, pivot: nat, ghost pos: seq<nat>, ghost sh: seq<nat>,
                       ghost m: nat, ghost sum: real)
    returns (minLast: nat, next: nat, haveNext: bool)
    requires Snap(states, pos, sh) && AtPivot(states, pos, sh, live, pivot) && Good(Terms(states))
    requires 0 < m <= |live| && BlockSum(states, pos, sh, live, m, pivot, sum)
    requires m < |live| ==> DocAbove(states, pos, live, m, pivot)
    modifies Curs(states)`shallowIdx
    ensures Snap(states, pos, sh) && Reach(states, sh, live, m, minLast) && pivot <= minLast < U32 - 1
    ensures haveNext <==> m < |live|
    ensures haveNext ==> live[m] < |states| && next == states[live[m]].doc && next > pivot
  {
    hide Snap, AtPivot, Terms, BlockSum, Placed, Live, DocAt, DocAbove, Covers, Shallow, Good, GoodTerm, Reach;
    minLast, next, haveNext := 0, 0, false;
    var first, i := true, 0;
    while i < |live|
      invariant 0 <= i <= m && Snap(states, pos, sh) && (first <==> i == 0)
      invariant i > 0 ==> Reach(states, sh, live, i, minLast) && pivot <= minLast < U32 - 1
      invariant !haveNext
    {
      SkipTerm(states, pos, sh, live, pivot, i, m, sum);
      if states[live[i]].doc > pivot {
        next, haveNext := states[live[i]].doc, true;
        break;
      }
      var last := BlockEnd(states, live[i], pivot, pos, sh);
      ghost var was := minLast;
      if first || last < minLast {
        minLast, first := last, false;
      }
      CoversLess(states[live[i]], sh[live[i]], last, minLast);
      ReachStep(states, sh, live, i, was, minLast);
      i := i + 1;
    }
  }

  lemma CoversLess(t: TermState, b: nat, d: nat, d': nat)
    requires Covers(t, b, d) && d' <= d
    ensures Covers(t, b, d')
  {
  }

  lemma SkipTerm(states: seq<TermState>, pos: seq<nat>, sh: seq<nat>, live: seq<nat>, pivot: nat, i: nat, m: nat,
                 sum: real)
    requires Snap(states, pos, sh) && AtPivot(states, pos, sh, live, pivot) && Good(Terms(states))
    requires 0 < m <= |live| && BlockSum(states, pos, sh, live, m, pivot, sum) && i < |live| && i <= m
    requires m < |live| ==> DocAbove(states, pos, live, m, pivot)
    ensures |sh| == |states| && |pos| == |states| && live[i] < |states| && Shallow(states, sh, pivot)
    ensures GoodTerm(states[live[i]].T())
    ensures pos[live[i]] < |states[live[i]].cur.ps| && states[live[i]].cur.ps[pos[live[i]]].doc >= pivot
    ensures i < m ==> Covers(states[live[i]], sh[live[i]], pivot) && states[live[i]].doc == pivot
    ensures i == m ==> states[live[i]].doc > pivot
  {
    hide IsEncoding;
    StateFacts(states, pos, sh);
    AtPivotTerm(states, pos, sh, sh, live, pivot, i);
    assert Terms(states)[live[i]] == states[live[i]].T();
  }

  /** `skipBlock`: to just past the nearest block end, or to the next term's document. */
  method SkipBlock(states: seq<TermState>, live: seq<nat>, pivot: nat, ghost pos: seq<nat>, ghost sh: seq<nat>,
                   ghost m: nat, ghost sum: real)
    returns (ghost pos': seq<nat>, ghost target: nat)
    requires Snap(states, pos, sh) && AtPivot(states, pos, sh, live, pivot) && Good(Terms(states))
    requires 0 < m <= |live| && BlockSum(states, pos, sh, live, m, pivot, sum)
    requires m < |live| ==> DocAbove(states, pos, live, m, pivot)
    requires Behind(Terms(states), pos, pivot)
    modifies Feet(states)
    ensures Snap(states, pos', sh) && Moved(Terms(states), pos, pos', target) && pivot < target
    ensures forall d :: pivot <= d < target ==> DocScore(Terms(states), d) <= sum
  {
    hide IsEncoding, Snap, AtPivot, Terms, BlockSum, Live, DocAt, DocAbove, Good, Reach, Behind, Moved, DocScore,
      LiveSorted, Placed, Feet, Curs;
    CursInFeet(states);
    var minLast, next, haveNext := FirstBlockEnd(states, live, pivot, pos, sh, m, sum);
    var to := (minLast + 1) % U32;
    if haveNext && next < to {
      to := next;
    }
    target := to;
    SkipBounds(states, pos, live, sh, m, pivot, minLast, to, sum);
    AtPivotSorted(states, pos, sh, live, pivot);
    pos' := AdvanceBelow(states, live, to, pos, sh);
  }

  lemma AtPivotSorted(states: seq<TermState>, pos: seq<nat>, sh: seq<nat>, live: seq<nat>, pivot: nat)
    requires AtPivot(states, pos, sh, live, pivot)
    ensures Placed(Terms(states), pos) && LiveSorted(Terms(states), pos, live)
    ensures live != [] && live[0] < |states| && Live(Terms(states), pos, live[0])
    ensures DocAt(Terms(states), pos, live[0]) == pivot
    ensures forall t :: t in live ==>
      t < |states| && Live(Terms(states), pos, t) && DocAt(Terms(states), pos, t) >= pivot
  {
  }

  lemma CursInFeet(states: seq<TermState>)
    ensures forall c :: c in Curs(states) ==> c in Feet(states)
  {
    forall i | 0 <= i < |states| ensures states[i].cur in Feet(states) {
      FootInFeet(states, i);
    }
  }

  lemma SkipBounds(states: seq<TermState>, pos: seq<nat>, live: seq<nat>, sh: seq<nat>, m: nat, pivot: nat,
                   minLast: nat, to: nat, sum: real)
    requires Snap(states, pos, sh) && AtPivot(states, pos, sh, live, pivot) && Good(Terms(states))
    requires 0 < m <= |live| && BlockSum(states, pos, sh, live, m, pivot, sum)
    requires m < |live| ==> DocAbove(states, pos, live, m, pivot)
    requires Behind(Terms(states), pos, pivot) && Reach(states, sh, live, m, minLast)
    requires pivot < to <= minLast + 1
    requires m < |live| ==> live[m] < |states| && to <= states[live[m]].doc
    ensures forall d :: pivot <= d < to ==> DocScore(Terms(states), d) <= sum
  {
    hide IsEncoding, Snap, AtPivot, Terms, BlockSum, DocAbove, Good, Reach, Behind, DocScore;
    forall d | pivot <= d < to ensures DocScore(Terms(states), d) <= sum {
      SkipBound(states, pos, live, sh, m, pivot, minLast, d, sum);
    }
  }

  lemma SkipBound(states: seq<TermState>, pos: seq<nat>, live: seq<nat>, sh: seq<nat>, m: nat, pivot: nat,
                  minLast: nat, d: nat, sum: real)
    requires Snap(states, pos, sh) && AtPivot(states, pos, sh, live, pivot) && Good(Terms(states))
    requires 0 < m <= |live| && BlockSum(states, pos, sh, live, m, pivot, sum)
    requires m < |live| ==> DocAbove(states, pos, live, m, pivot)
    requires Behind(Terms(states), pos, pivot) && Reach(states, sh, live, m, minLast)
    requires pivot <= d <= minLast
    requires m < |live| ==> live[m] < |states| && d < states[live[m]].doc
    ensures DocScore(Terms(states), d) <= sum
    ensures Placed(Terms(states), pos) && LiveSorted(Terms(states), pos, live)
  {
    hide IsEncoding;
    StateFacts(states, pos, sh);
    forall j | 0 <= j < m ensures Covers(states[live[j]], sh[live[j]], d) {
      CoversLess(states[live[j]], sh[live[j]], minLast, d);
    }
    hide Covers, Good, DocScore, Behind, Snap;
    SkippedDocument(states, pos, live, sh, m, pivot, d);
  }
}
