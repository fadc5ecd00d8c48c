/** The retrieval loop of search/wand.go: for every input it ends, and with the seeded
    exact answer. */
module WandLoop {
  import opened Digits
  import Postings
  import opened Cursors
  import opened Scoring
  import opened Sums
  import opened TopK
  import opened Retrieval
  import opened Wand

  /** Where the run stands: cursor positions, shallow blocks, the document below which all
      is settled, and every hit pushed so far. */
  datatype Stage = Stage(pos: seq<nat>, sh: seq<nat>, floor: nat, pushed: set<Hit>)

  datatype Query = Query(k: nat, seed: real, keep: nat -> bool)

  ghost predicate Placing(states: seq<TermState>, g: Stage) {
    && Good(Terms(states)) && Placed(Terms(states), g.pos) && Behind(Terms(states), g.pos, g.floor)
    && Shallow(states, g.sh, g.floor)
  }

  ghost predicate Sinking(states: seq<TermState>, g: Stage, threshold: real, seed: real) {
    && Placed(Terms(states), g.pos)
    && !Competitive(Total(LowBounds(Terms(states), g.pos, g.floor)), threshold, seed)
  }

  /** The loop invariant over values. */
  ghost predicate Run(states: seq<TermState>, g: Stage, top: seq<Hit>, threshold: real, q: Query) {
    && Placing(states, g) && Sinking(states, g, threshold, q.seed)
    && HoldsTop(top, g.pushed, q.k, threshold) && Progress(Terms(states), q.keep, g.floor, g.pushed, q.k, q.seed)
  }

  lemma RunThreshold(states: seq<TermState>, g: Stage, top: seq<Hit>, threshold: real, q: Query)
    requires Run(states, g, top, threshold, q)
    ensures threshold >= 0.0 && Placed(Terms(states), g.pos) && Good(Terms(states)) && q.k > 0
  {
    hide Good, Behind, Progress, IsTop, Shallow;
    ThresholdNonNegative(Terms(states), q.keep, g.floor, top, g.pushed, q.k, threshold, q.seed);
  }

  /** No live term, or no pivot: nothing unscored can matter, and the heap is the answer. */
  lemma Exhausted(states: seq<TermState>, g: Stage, top: seq<Hit>, threshold: real, q: Query, live: seq<nat>)
    requires Run(states, g, top, threshold, q)
    requires LiveSorted(Terms(states), g.pos, live) && Positions(live, |states|)
    requires !Competitive(SumAt(Bounds(Terms(states)), live), threshold, q.seed)
    ensures SeededAnswer(top, Matches(Terms(states), q.keep), q.k, q.seed)
  {
    hide Terms, Behind, Settled, IsTop, Shallow, LiveSorted, Docs, DocScore, SumAt, SeededAnswer, Matches, Good;
    var terms := Terms(states);
    assert live[..|live|] == live;
    forall d | d in Docs(terms) && d >= g.floor && q.keep(d) ensures Settled(terms, g.pushed, q.k, q.seed, d) {
      BelowPivot(terms, g.pos, live, g.floor, |live|, d);
      NotCompetitive(terms, top, g.pushed, g.floor, q.k, threshold, q.seed, d);
    }
    Conclude(terms, q.keep, g.floor, top, g.pushed, q.k, threshold, q.seed);
  }

  /** Everything below the pivot document is settled. */
  lemma ReachPivot(states: seq<TermState>, g: Stage, top: seq<Hit>, threshold: real, q: Query, live: seq<nat>, p: nat)
    requires Run(states, g, top, threshold, q)
    requires LiveSorted(Terms(states), g.pos, live) && p < |live|
    requires Positions(live[..p + 1], |states|) && Positions(live[..p], |states|)
    requires Competitive(SumAt(Bounds(Terms(states)), live[..p + 1]), threshold, q.seed)
    requires !Competitive(SumAt(Bounds(Terms(states)), live[..p]), threshold, q.seed)
    ensures Run(states, g.(floor := DocAt(Terms(states), g.pos, live[p])), top, threshold, q)
  {
    hide Terms, Behind, Progress, HoldsTop, Shallow, LiveSorted, Docs, DocScore, SumAt, Good, Bounds, LowBounds;
    var terms := Terms(states);
    LiveDistinct(terms, g.pos, live);
    PivotAboveFloor(terms, g.pos, live, g.floor, p, threshold, q.seed);
    var doc := DocAt(terms, g.pos, live[p]);
    forall d | d in Docs(terms) && g.floor <= d < doc && q.keep(d)
      ensures !Competitive(DocScore(terms, d), threshold, q.seed)
    {
      BelowPivot(terms, g.pos, live, g.floor, p, d);
    }
    RaiseFloor(terms, q.keep, g.floor, doc, top, g.pushed, q.k, threshold, q.seed);
    LowBelowPivot(terms, g.pos, live, p);
    FloorUp(states, g, doc);
  }

  lemma FloorUp(states: seq<TermState>, g: Stage, floor: nat)
    requires Placing(states, g) && g.floor <= floor
    ensures Placing(states, g.(floor := floor))
  {
    hide Terms, Good;
  }

  /** Cursors moved past documents that were all settled. */
  lemma PassOver(states: seq<TermState>, g: Stage, top: seq<Hit>, threshold: real, q: Query, pos': seq<nat>,
                 sh': seq<nat>, target: nat)
    requires Run(states, g, top, threshold, q) && g.floor <= target
    requires Moved(Terms(states), g.pos, pos', target) && Shallow(states, sh', target)
    requires forall d :: d in Docs(Terms(states)) && g.floor <= d < target && q.keep(d)
               ==> !Competitive(DocScore(Terms(states), d), threshold, q.seed)
    ensures Run(states, Stage(pos', sh', target, g.pushed), top, threshold, q)
  {
    hide Terms, Moved, Progress, HoldsTop, Shallow, Docs, DocScore, Good, LowBounds, Behind, Placed;
    RunThreshold(states, g, top, threshold, q);
    MovedFacts(Terms(states), g.pos, pos', g.floor, target);
    RaiseFloor(Terms(states), q.keep, g.floor, target, top, g.pushed, q.k, threshold, q.seed);
  }

  /** Cursors moved past the document just scored and pushed. */
  lemma PushAndPass(states: seq<TermState>, g: Stage, top: seq<Hit>, threshold: real, q: Query, pos': seq<nat>,
                    h: Hit, threshold': real)
    requires Run(states, g, top, threshold, q)
    requires Moved(Terms(states), g.pos, pos', g.floor + 1)
    requires g.floor in Docs(Terms(states)) && q.keep(g.floor) && h == Scored(Terms(states), g.floor)
    requires var t := PushTop(top, h, q.k); threshold' == if |t| == q.k then t[q.k - 1].score else threshold
    ensures Run(states, Stage(pos', g.sh, g.floor + 1, g.pushed + {h}), PushTop(top, h, q.k), threshold', q)
  {
    hide Terms, Moved, Progress, HoldsTop, Shallow, Docs, Good, LowBounds, Behind, Placed, PushTop, Scored;
    RunThreshold(states, g, top, threshold, q);
    PushHit(Terms(states), q.keep, g.floor, top, g.pushed, q.k, threshold, q.seed);
    MovedFacts(Terms(states), g.pos, pos', g.floor, g.floor + 1);
    ShallowUp(states, g.sh, g.floor);
    var g' := Stage(pos', g.sh, g.floor + 1, g.pushed + {h});
    PushedThreshold(Terms(states), q.keep, g', PushTop(top, h, q.k), threshold', q);
  }

  lemma PushedThreshold(terms: seq<Term>, keep: nat -> bool, g: Stage, top: seq<Hit>, threshold: real, q: Query)
    requires Good(terms) && HoldsTop(top, g.pushed, q.k, threshold)
      && Progress(terms, keep, g.floor, g.pushed, q.k, q.seed)
    ensures threshold >= 0.0
  {
    ThresholdNonNegative(terms, keep, g.floor, top, g.pushed, q.k, threshold, q.seed);
  }

  lemma ShallowUp(states: seq<TermState>, sh: seq<nat>, floor: nat)
    requires Shallow(states, sh, floor)
    ensures Shallow(states, sh, floor + 1)
  {
  }

  /** One cursor below the pivot moved up to it. */
  lemma Realigned(states: seq<TermState>, g: Stage, top: seq<Hit>, threshold: real, q: Query, t: nat)
    requires Run(states, g, top, threshold, q) && t < |states| && |g.pos| == |states|
    requires g.pos[t] <= |Terms(states)[t].ps|
    ensures Run(states, g.(pos := g.pos[t := FirstGEQ(Terms(states)[t].ps, g.pos[t], g.floor)]), top, threshold, q)
  {
    hide Terms, Progress, HoldsTop, Shallow, Good, LowBounds, Behind, FirstGEQ;
    MovedOne(Terms(states), g.pos, g.floor, g.floor, t);
  }

  /** Moving some cursor that stood below the target leaves fewer postings ahead. */
  lemma Shrinks(terms: seq<Term>, pos: seq<nat>, pos': seq<nat>, target: nat, t: nat)
    requires Placed(terms, pos) && t < |terms| && Live(terms, pos, t) && DocAt(terms, pos, t) < target
    requires Moved(terms, pos, pos', target) || pos' == pos[t := FirstGEQ(terms[t].ps, pos[t], target)]
    ensures Placed(terms, pos') && Remaining(terms, pos') < Remaining(terms, pos)
  {
    hide FirstGEQ;
    StepForward(terms[t].ps, pos[t], target);
    RemainingShrinks(terms, pos, pos', t);
  }

  ghost predicate Smaller(states: seq<TermState>, pos': seq<nat>, pos: seq<nat>) {
    && Placed(Terms(states), pos) && Placed(Terms(states), pos')
    && Remaining(Terms(states), pos') < Remaining(Terms(states), pos)
  }

  lemma PivotFacts(states: seq<TermState>, g: Stage, top: seq<Hit>, threshold: real, q: Query, live: seq<nat>,
                   pivot: nat)
    requires Run(states, g, top, threshold, q) && AtPivot(states, g.pos, g.sh, live, pivot) && g.floor == pivot
    ensures Good(Terms(states)) && Aligned(Terms(states), g.pos, live, pivot) && Behind(Terms(states), g.pos, pivot)
    ensures pivot in Docs(Terms(states)) && pivot < U32 - 1 && q.k > 0 && threshold >= 0.0
  {
    RunThreshold(states, g, top, threshold, q);
    hide Progress, HoldsTop, Shallow, Terms, LowBounds;
    assert live[0] in live;
    assert GoodTerm(Terms(states)[live[0]]);
  }

  lemma PivotShrinks(states: seq<TermState>, pos: seq<nat>, sh: seq<nat>, pos': seq<nat>, live: seq<nat>, pivot: nat,
                     target: nat)
    requires AtPivot(states, pos, sh, live, pivot) && pivot < target && Moved(Terms(states), pos, pos', target)
    ensures Smaller(states, pos', pos)
  {
    hide Terms, Moved;
    Shrinks(Terms(states), pos, pos', target, live[0]);
  }

  lemma PivotAgain(states: seq<TermState>, pos: seq<nat>, sh: seq<nat>, sh': seq<nat>, live: seq<nat>, pivot: nat,
                   m: nat, sum: real)
    requires AtPivot(states, pos, sh, live, pivot) && BlockSum(states, pos, sh', live, m, pivot, sum)
    ensures AtPivot(states, pos, sh', live, pivot) && Shallow(states, sh', pivot)
  {
    hide Shallow, Terms;
  }

  /** The pivot's blocks cannot hold a competitive document. */
  method Skip(states: seq<TermState>, live: seq<nat>, pivot: nat, top: seq<Hit>, threshold: real, q: Query,
              ghost g: Stage, ghost sh: seq<nat>, ghost m: nat, ghost sum: real)
    returns (ghost g': Stage)
    requires Snap(states, g.pos, sh) && Run(states, g, top, threshold, q)
    requires AtPivot(states, g.pos, g.sh, live, pivot) && g.floor == pivot
    requires 0 < m <= |live| && BlockSum(states, g.pos, sh, live, m, pivot, sum)
    requires m < |live| ==> DocAbove(states, g.pos, live, m, pivot)
    requires !Competitive(sum, threshold, q.seed)
    modifies Feet(states)
    ensures Snap(states, g'.pos, g'.sh) && Run(states, g', top, threshold, q) && Smaller(states, g'.pos, g.pos)
  {
    hide Snap, Run, AtPivot, BlockSum, DocAbove, Smaller, Moved, Terms, Feet, DocScore, Docs, Shallow, Good, Behind;
    PivotAgain(states, g.pos, g.sh, sh, live, pivot, m, sum);
    PivotFacts(states, g, top, threshold, q, live, pivot);
    ghost var pos', target := SkipBlock(states, live, pivot, g.pos, sh, m, sum);
    PivotShrinks(states, g.pos, g.sh, pos', live, pivot, target);
    ShallowFar(states, sh, pivot, target);
    PassOver(states, g, top, threshold, q, pos', sh, target);
    g' := Stage(pos', sh, target, g.pushed);
  }

  lemma ShallowFar(states: seq<TermState>, sh: seq<nat>, floor: nat, floor': nat)
    requires Shallow(states, sh, floor) && floor <= floor'
    ensures Shallow(states, sh, floor')
  {
  }

  /** The pivot's document is scored, pushed if it is kept, and passed. */
  method Score(states: seq<TermState>, live: seq<nat>, pivot: nat, top: seq<Hit>, threshold: real, q: Query,
               ghost g: Stage)
    returns (top': seq<Hit>, threshold': real, ghost g': Stage)
    requires Snap(states, g.pos, g.sh) && Run(states, g, top, threshold, q)
    requires AtPivot(states, g.pos, g.sh, live, pivot) && g.floor == pivot
    modifies Feet(states)
    ensures Snap(states, g'.pos, g'.sh) && Run(states, g', top', threshold', q) && Smaller(states, g'.pos, g.pos)
  {
    hide Snap, Run, AtPivot, Smaller, Moved, Terms, Feet, DocScore, Docs, Shallow, Good, Behind, Aligned, PushTop,
      LiveSorted;
    PivotFacts(states, g, top, threshold, q, live, pivot);
    top', threshold' := top, threshold;
    ghost var h := Scored(Terms(states), pivot);
    if q.keep(pivot) {
      var score := ScoreDoc(states, live, pivot, g.pos, g.sh);
      top' := PushTop(top, Hit(pivot, score), q.k);
      if |top'| == q.k {
        threshold' := top'[q.k - 1].score;
      }
    }
    // The live terms standing below pivot + 1 are the ones standing on the pivot.
    AtPivotSorted(states, g.pos, g.sh, live, pivot);
    ghost var pos' := AdvanceBelow(states, live, (pivot + 1) % U32, g.pos, g.sh);
    PivotShrinks(states, g.pos, g.sh, pos', live, pivot, pivot + 1);
    if q.keep(pivot) {
      PushAndPass(states, g, top, threshold, q, pos', h, threshold');
      g' := Stage(pos', g.sh, pivot + 1, g.pushed + {h});
    } else {
      PivotShallow(states, g, live, pivot);
      PassOver(states, g, top, threshold, q, pos', g.sh, pivot + 1);
      g' := Stage(pos', g.sh, pivot + 1, g.pushed);
    }
  }

  lemma PivotShallow(states: seq<TermState>, g: Stage, live: seq<nat>, pivot: nat)
    requires AtPivot(states, g.pos, g.sh, live, pivot)
    ensures Shallow(states, g.sh, pivot + 1)
  {
  }

  method SkipOrScore(states: seq<TermState>, live: seq<nat>, pivot: nat, top: seq<Hit>, threshold: real, q: Query,
                     ghost g: Stage)
    returns (top': seq<Hit>, threshold': real, ghost g': Stage)
    requires Snap(states, g.pos, g.sh) && Run(states, g, top, threshold, q)
    requires AtPivot(states, g.pos, g.sh, live, pivot) && g.floor == pivot
    modifies Feet(states)
    ensures Snap(states, g'.pos, g'.sh) && Run(states, g', top', threshold', q) && Smaller(states, g'.pos, g.pos)
  {
    hide Snap, Run, AtPivot, BlockSum, DocAbove, Smaller, Terms, Feet;
    CursInFeet(states);
    ghost var sh, m;
    var sum;
    sum, sh, m := BlockMaxSum(states, live, pivot, g.pos, g.sh);
    if (threshold > 0.0 && sum <= threshold) || (q.seed > 0.0 && sum < q.seed) {
      g' := Skip(states, live, pivot, top, threshold, q, g, sh, m, sum);
      top', threshold' := top, threshold;
    } else {
      PivotAgain(states, g.pos, g.sh, sh, live, pivot, m, sum);
      NewShallow(states, g, top, threshold, q, sh);
      top', threshold', g' := Score(states, live, pivot, top, threshold, q, g.(sh := sh));
    }
  }

  lemma NewShallow(states: seq<TermState>, g: Stage, top: seq<Hit>, threshold: real, q: Query, sh: seq<nat>)
    requires Run(states, g, top, threshold, q) && Shallow(states, sh, g.floor)
    ensures Run(states, g.(sh := sh), top, threshold, q)
  {
    hide Progress, HoldsTop, Terms, Shallow;
  }

  /** Below the pivot: one term is brought up to it. */
  method Realign(states: seq<TermState>, live: seq<nat>, p: nat, pivot: nat, top: seq<Hit>, threshold: real, q: Query,
                 ghost g: Stage)
    returns (ghost g': Stage)
    requires Snap(states, g.pos, g.sh) && Run(states, g, top, threshold, q) && g.floor == pivot
    requires Lined(states, g.pos, live, p) && states[live[0]].doc < pivot
    modifies Feet(states)
    ensures Snap(states, g'.pos, g'.sh) && Run(states, g', top, threshold, q) && Smaller(states, g'.pos, g.pos)
  {
    hide Snap, Run, Smaller, Terms, Lined, Feet, FirstGEQ, Positions;
    LinedFacts(states, g.pos, g.sh, live, p);
    BoundsPositive(states, g, top, threshold, q, live, p);
    var best := PickAdvance(states, live, pivot, g.pos, g.sh);
    FootInFeet(states, live[best]);
    LinedTerm(states, g.pos, g.sh, live, p, best);
    ghost var pos' := AdvanceOne(states, live[best], pivot, g.pos, g.sh);
    Realigned(states, g, top, threshold, q, live[best]);
    OneShrinks(states, g.pos, pos', pivot, live[best]);
    g' := g.(pos := pos');
  }

  ghost predicate Lined(states: seq<TermState>, pos: seq<nat>, live: seq<nat>, p: nat) {
    Placed(Terms(states), pos) && LiveSorted(Terms(states), pos, live) && p < |live|
  }

  lemma LinedFacts(states: seq<TermState>, pos: seq<nat>, sh: seq<nat>, live: seq<nat>, p: nat)
    requires Snap(states, pos, sh) && Lined(states, pos, live, p)
    ensures Positions(live, |states|) && live != [] && forall t :: t in live ==> t < |states|
    ensures forall i :: 0 <= i < |live| ==> live[i] < |states|
    ensures |pos| == |states| && Placed(Terms(states), pos)
    ensures Live(Terms(states), pos, live[p]) && states[live[p]].doc == DocAt(Terms(states), pos, live[p])
  {
    StateFacts(states, pos, sh);
    LiveDistinct(Terms(states), pos, live);
  }

  lemma LinedTerm(states: seq<TermState>, pos: seq<nat>, sh: seq<nat>, live: seq<nat>, p: nat, i: nat)
    requires Snap(states, pos, sh) && Lined(states, pos, live, p) && i < |live|
    ensures live[i] < |states| == |pos| && Placed(Terms(states), pos) && Live(Terms(states), pos, live[i])
    ensures states[live[i]].doc == DocAt(Terms(states), pos, live[i])
    ensures Terms(states)[live[i]].ps == states[live[i]].cur.ps
  {
    LinedFacts(states, pos, sh, live, i);
  }

  lemma BoundsPositive(states: seq<TermState>, g: Stage, top: seq<Hit>, threshold: real, q: Query, live: seq<nat>,
                       p: nat)
    requires Snap(states, g.pos, g.sh) && Run(states, g, top, threshold, q) && Lined(states, g.pos, live, p)
    ensures forall i :: 0 <= i < |live| ==> live[i] < |states| && states[live[i]].maxScore > -1.0
  {
    RunThreshold(states, g, top, threshold, q);
    StateFacts(states, g.pos, g.sh);
    hide Run, Terms, Good;
    forall i | 0 <= i < |live| ensures live[i] < |states| && states[live[i]].maxScore > -1.0 {
      LinedTerm(states, g.pos, g.sh, live, p, i);
      BoundNonNegative(Terms(states), g.pos, live[i]);
    }
  }

  lemma OneShrinks(states: seq<TermState>, pos: seq<nat>, pos': seq<nat>, pivot: nat, t: nat)
    requires Placed(Terms(states), pos) && t < |states| && Live(Terms(states), pos, t)
    requires DocAt(Terms(states), pos, t) < pivot
    requires pos' == pos[t := FirstGEQ(Terms(states)[t].ps, pos[t], pivot)]
    ensures Smaller(states, pos', pos)
  {
    hide Terms, FirstGEQ;
    Shrinks(Terms(states), pos, pos', pivot, t);
  }

  lemma AtPivotNow(states: seq<TermState>, g: Stage, sh: seq<nat>, top: seq<Hit>, threshold: real, q: Query,
                   live: seq<nat>, p: nat)
    requires Snap(states, g.pos, sh) && sh == g.sh && Run(states, g, top, threshold, q) && Lined(states, g.pos, live, p)
    requires live[p] < |states| && live[0] < |states|
    requires g.floor == states[live[p]].doc == states[live[0]].doc
    ensures AtPivot(states, g.pos, g.sh, live, g.floor)
  {
    StateFacts(states, g.pos, g.sh);
    hide Terms, Good, Progress, HoldsTop, Shallow, LowBounds;
    LiveDistinct(Terms(states), g.pos, live);
  }

  /** The pivot, with everything below it settled; or, with none, the answer. */
  method Pivot(states: seq<TermState>, live: seq<nat>, top: seq<Hit>, threshold: real, q: Query, ghost g: Stage)
    returns (p: int)
    requires Snap(states, g.pos, g.sh) && Run(states, g, top, threshold, q)
    requires Placed(Terms(states), g.pos) && LiveSorted(Terms(states), g.pos, live)
    ensures p < |live|
    ensures p < 0 ==> SeededAnswer(top, Matches(Terms(states), q.keep), q.k, q.seed)
    ensures p >= 0 ==>
      && live[p] < |states| && live[0] < |states| && states[live[0]].doc <= states[live[p]].doc
      && Snap(states, g.pos, g.sh) && Lined(states, g.pos, live, p)
      && Run(states, g.(floor := states[live[p]].doc), top, threshold, q)
  {
    hide Snap, Run, Terms, SeededAnswer, Matches, SumAt, Bounds, Good;
    RunThreshold(states, g, top, threshold, q);
    StateFacts(states, g.pos, g.sh);
    LiveDistinct(Terms(states), g.pos, live);
    hide LiveSorted, Positions, Live, DocAt;
    p := -1;
    if |live| > 0 {
      p := FindPivot(states, live, threshold, q.seed, g.pos, g.sh);
    }
    if p < 0 {
      assert live[..|live|] == live;
      SumNone(Bounds(Terms(states)));
      Exhausted(states, g, top, threshold, q, live);
    } else {
      ReachPivot(states, g, top, threshold, q, live, p);
      LinedOrder(states, g.pos, g.sh, live, p);
    }
  }

  lemma SumNone(b: seq<real>)
    ensures SumAt(b, []) == 0.0
  {
  }

  lemma LinedOrder(states: seq<TermState>, pos: seq<nat>, sh: seq<nat>, live: seq<nat>, p: nat)
    requires Snap(states, pos, sh)
    requires Placed(Terms(states), pos) && LiveSorted(Terms(states), pos, live) && p < |live|
    ensures Lined(states, pos, live, p) && live[p] < |states| && live[0] < |states|
    ensures states[live[0]].doc <= states[live[p]].doc
    ensures Live(Terms(states), pos, live[p]) && states[live[p]].doc == DocAt(Terms(states), pos, live[p])
  {
    LinedTerm(states, pos, sh, live, p, 0);
    LinedTerm(states, pos, sh, live, p, p);
  }

  /** One pass: the answer is complete, or fewer postings lie ahead. */
  method Step(states: seq<TermState>, top: seq<Hit>, threshold: real, q: Query, ghost g: Stage)
    returns (done: bool, top': seq<Hit>, threshold': real, ghost g': Stage)
    requires Snap(states, g.pos, g.sh) && Run(states, g, top, threshold, q)
    modifies Feet(states)
    ensures done ==> g' == g && SeededAnswer(top', Matches(Terms(states), q.keep), q.k, q.seed)
    ensures !done ==>
      Snap(states, g'.pos, g'.sh) && Run(states, g', top', threshold', q) && Smaller(states, g'.pos, g.pos)
  {
    hide Snap, Run, Smaller, Terms, Lined, Feet, AtPivot, SeededAnswer, Matches, LiveSorted, Positions, SumAt, Bounds;
    RunThreshold(states, g, top, threshold, q);
    done, top', threshold', g' := true, top, threshold, g;
    var live := OrderLive(states, g.pos, g.sh);
    var p := Pivot(states, live, top, threshold, q, g);
    if p < 0 {
      return;
    }
    done := false;
    var pivot := states[live[p]].doc;
    ghost var r := g.(floor := pivot);
    if states[live[0]].doc == pivot {
      AtPivotNow(states, r, g.sh, top, threshold, q, live, p);
      top', threshold', g' := SkipOrScore(states, live, pivot, top, threshold, q, r);
    } else {
      g' := Realign(states, live, p, pivot, top, threshold, q, r);
    }
  }

  // ---- the whole search

  ghost function InputFeet(inputs: seq<TermInput>): set<object> {
    set i, o | 0 <= i < |inputs| && o in inputs[i].cursor.Foot() :: o
  }

  ghost predicate Ready(c: Cursor)
    reads c.Foot()
  {
    c.Valid() && c.Pos() == -1 && c.shallowIdx == 0
  }

  ghost predicate Apart(inputs: seq<TermInput>) {
    forall i, j :: 0 <= i < j < |inputs| ==> inputs[i].cursor.Foot() !! inputs[j].cursor.Foot()
  }

  lemma CursorInInputs(inputs: seq<TermInput>, i: nat)
    requires i < |inputs|
    ensures inputs[i].cursor.Foot() <= InputFeet(inputs)
  {
  }

  /** Cursors as the segment hands them out, from the `n`-th on: not yet moved. */
  ghost predicate Unmoved(inputs: seq<TermInput>, n: nat)
    reads InputFeet(inputs)
  {
    forall i :: n <= i < |inputs| ==> (CursorInInputs(inputs, i); Ready(inputs[i].cursor))
  }

  ghost function InputTerms(inputs: seq<TermInput>): (t: seq<Term>)
    ensures |t| == |inputs|
    ensures forall i :: 0 <= i < |inputs| ==> t[i] == Term(inputs[i].cursor.ps, inputs[i].scorer, inputs[i].maxFreq)
  {
    seq(|inputs|, i requires 0 <= i < |inputs| => Term(inputs[i].cursor.ps, inputs[i].scorer, inputs[i].maxFreq))
  }

  /** The states are for the first inputs. */
  ghost predicate Wired(inputs: seq<TermInput>, states: seq<TermState>) {
    && |states| <= |inputs|
    && (forall i :: 0 <= i < |states| ==> states[i].cur == inputs[i].cursor && states[i].scorer == inputs[i].scorer
                                          && states[i].maxFreq == inputs[i].maxFreq)
  }

  lemma WiredFeet(inputs: seq<TermInput>, states: seq<TermState>)
    requires Wired(inputs, states)
    ensures forall o :: o in Feet(states) ==> o in InputFeet(inputs) || o in states
    ensures Apart(inputs) && |states| < |inputs| ==> Feet(states) !! inputs[|states|].cursor.Foot()
  {
    forall i, o | 0 <= i < |states| && o in states[i].Foot()
      ensures o in InputFeet(inputs) || o in states
      ensures Apart(inputs) && |states| < |inputs| ==> o !in inputs[|states|].cursor.Foot()
    {
      if o != states[i] {
        assert o in inputs[i].cursor.Foot();
      }
    }
  }

  method StartOne(ghost inputs: seq<TermInput>, ghost states: seq<TermState>, input: TermInput, ghost pos: seq<nat>,
                  ghost sh: seq<nat>)
    returns (t: TermState)
    requires Apart(inputs) && Wired(inputs, states) && Snap(states, pos, sh)
    requires |states| < |inputs| && Unmoved(inputs, |states|) && input == inputs[|states|]
    modifies input.cursor.Foot()
    ensures fresh(t) && Wired(inputs, states + [t]) && Snap(states + [t], pos + [0], sh + [0])
    ensures Unmoved(inputs, |states| + 1)
  {
    hide FirstGEQ, IsEncoding;
    WiredFeet(inputs, states);
    assert Ready(inputs[|states|].cursor);
    t := new TermState(input);
    SnapSnoc(states, pos, sh, t);
  }

  lemma SnapSnoc(states: seq<TermState>, pos: seq<nat>, sh: seq<nat>, t: TermState)
    requires Snap(states, pos, sh) && StateIs(t, 0, 0) && Feet(states) !! t.Foot()
    ensures Snap(states + [t], pos + [0], sh + [0])
  {
    hide IsEncoding, StateIs;
    SeparateSnoc(states, t);
    var all := states + [t];
    forall i | 0 <= i < |all| ensures StateIs(all[i], (pos + [0])[i], (sh + [0])[i]) {
      if i < |states| { assert all[i] == states[i] && StateIs(states[i], pos[i], sh[i]); }
    }
  }

  lemma SeparateSnoc(states: seq<TermState>, t: TermState)
    requires Separate(states) && Feet(states) !! t.Foot()
    ensures Separate(states + [t])
  {
    var all := states + [t];
    forall i, j | 0 <= i < j < |all| ensures all[i].Foot() !! all[j].Foot() {
      if j == |states| { FootInFeet(states, i); }
    }
  }

  method Start(inputs: seq<TermInput>) returns (states: seq<TermState>, ghost pos: seq<nat>, ghost sh: seq<nat>)
    requires Apart(inputs) && Unmoved(inputs, 0)
    modifies InputFeet(inputs)
    ensures Terms(states) == InputTerms(inputs) && Snap(states, pos, sh)
    ensures |pos| == |inputs| && (forall i :: 0 <= i < |pos| ==> pos[i] == 0) && sh == pos
    ensures forall o :: o in Feet(states) ==> o in InputFeet(inputs) || fresh(o)
  {
    hide IsEncoding, Snap, Unmoved, Apart;
    states, pos, sh := [], [], [];
    NoStates(inputs);
    while |states| < |inputs|
      invariant |states| <= |inputs| && Wired(inputs, states) && Snap(states, pos, sh) && Unmoved(inputs, |states|)
      invariant |pos| == |states| && (forall i :: 0 <= i < |pos| ==> pos[i] == 0) && sh == pos
      invariant forall t :: t in states ==> fresh(t)
    {
      CursorInInputs(inputs, |states|);
      var t := StartOne(inputs, states, inputs[|states|], pos, sh);
      states, pos, sh := states + [t], pos + [0], sh + [0];
    }
    WiredFeet(inputs, states);
    assert Terms(states) == InputTerms(inputs);
  }

  lemma NoStates(inputs: seq<TermInput>)
    ensures Snap([], [], []) && Wired(inputs, [])
  {
  }

  lemma Begin(states: seq<TermState>, pos: seq<nat>, sh: seq<nat>, q: Query)
    requires Good(Terms(states)) && |pos| == |states| == |sh| && q.k > 0
    requires forall i :: 0 <= i < |pos| ==> pos[i] == 0 && sh[i] == 0
    ensures Run(states, Stage(pos, sh, 0, {}), [], 0.0, q)
  {
    hide Good;
    var low := LowBounds(Terms(states), pos, 0);
    TotalZero(low);
    assert Top(Better, {}, q.k) == {};
  }

  /** `WANDFilterSeeded`. */
  method WANDFilterSeeded(inputs: seq<TermInput>, k: int, keep: nat -> bool, seed: real) returns (hits: seq<Hit>)
    requires Apart(inputs) && Unmoved(inputs, 0) && Good(InputTerms(inputs))
    modifies InputFeet(inputs)
    ensures k <= 0 ==> hits == []
    ensures k > 0 ==> SeededAnswer(hits, Matches(InputTerms(inputs), keep), k, seed)
  {
    hide Unmoved, Apart, Good, Run, Terms, Snap, SeededAnswer, Matches, Smaller;
    if k <= 0 || |inputs| == 0 {
      if k > 0 { NoTerms(InputTerms(inputs), k, keep, seed); }
      return [];
    }
    var q := Query(k, seed, keep);
    ghost var pos, sh;
    var states;
    states, pos, sh := Start(inputs);
    ghost var g := Stage(pos, sh, 0, {});
    var threshold, done := 0.0, false;
    hits := [];
    Begin(states, pos, sh, q);
    RunThreshold(states, g, hits, threshold, q);
    while !done
      invariant done ==> SeededAnswer(hits, Matches(Terms(states), keep), k, seed)
      invariant !done ==> Snap(states, g.pos, g.sh) && Run(states, g, hits, threshold, q)
      invariant Placed(Terms(states), g.pos)
      decreases !done, Remaining(Terms(states), g.pos)
    {
      ghost var was := g;
      done, hits, threshold, g := Step(states, hits, threshold, q, g);
      if !done { SmallerIs(states, g.pos, was.pos); }
    }
  }

  lemma SmallerIs(states: seq<TermState>, pos': seq<nat>, pos: seq<nat>)
    requires Smaller(states, pos', pos)
    ensures Placed(Terms(states), pos) && Placed(Terms(states), pos')
    ensures Remaining(Terms(states), pos') < Remaining(Terms(states), pos)
  {
  }

  lemma NoTerms(terms: seq<Term>, k: nat, keep: nat -> bool, seed: real)
    requires terms == []
    ensures SeededAnswer([], Matches(terms, keep), k, seed)
  {
  }

  /** `WANDFilter`, and with a filter that keeps everything `WAND`: the exact top-k. */
  method WANDFilter(inputs: seq<TermInput>, k: int, keep: nat -> bool) returns (hits: seq<Hit>)
    requires Apart(inputs) && Unmoved(inputs, 0) && Good(InputTerms(inputs))
    modifies InputFeet(inputs)
    ensures k <= 0 ==> hits == []
    ensures k > 0 ==> IsTop(Better, hits, Matches(InputTerms(inputs), keep), k)
    ensures k > 0 ==> FirstK(hits, Matches(InputTerms(inputs), keep), k)
  {
    hide Unmoved, Good, SeededAnswer, Matches, IsTop, FirstK;
    hits := WANDFilterSeeded(inputs, k, keep, 0.0);
    if k > 0 {
      SeedZero(InputTerms(inputs), keep, hits, k);
      TopIsFirst(hits, Matches(InputTerms(inputs), keep), k);
    }
  }
}
