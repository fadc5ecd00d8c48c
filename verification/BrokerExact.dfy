/** What every interleaving of the fan-out returns, and that every schedule returns. */
module BrokerExact {
  import opened TopK
  import opened ScoreHeap
  import opened Broker
  import opened BrokerSafety

  lemma InitInv(c: Config)
    requires Routed(c)
    ensures Inv(c, Init())
  {
  }

  /** The warm-up scores one more shard, exactly. */
  lemma WarmAnswer(c: Config, s: State, out: seq<CHit>)
    requires Routed(c) && Inv(c, s) && Enabled(c, s, Main(Answer(out)))
    requires s.sh.next < |c.bounds| && |s.sh.heap| < c.k
    ensures Inv(c, Next(c, s, Main(Answer(out)))) && Grows(c, s.sh, Next(c, s, Main(Answer(out))).sh)
  {
    var s', i := Next(c, s, Main(Answer(out))), s.sh.next;
    WarmNew(c, s, out);
    hide SharedOk, Largest, PushAll, Better, SearchAnswer, Survivors, Grows, HeapOk;
    FoldShared(c, s.sh, out, s'.sh);
    WarmCollects(c, s.sh, i, out);
    WarmStays(c, s, s', i);
  }

  lemma WarmNew(c: Config, s: State, out: seq<CHit>)
    requires Routed(c) && Inv(c, s) && s.sh.next < |c.bounds| && SearchAnswer(c, s.sh.next, 0.0, out)
    ensures NewHits(c, s.sh.cands, out) && forall h :: h in out ==> h.shard == c.shards[s.sh.next]
  {
    forall h | h in out ensures h in c.hits[s.sh.next] {
      assert h in Elements(out);
    }
  }

  lemma WarmCollects(c: Config, sh: Shared, i: nat, out: seq<CHit>)
    requires Routed(c) && SharedOk(c, sh) && i < |c.hits| && SearchAnswer(c, i, 0.0, out)
    ensures Collected(c, sh.cands + out, i)
  {
    SearchSurvivors(c, sh, i, 0.0, out);
    hide SharedOk, SearchAnswer, Doomed;
    assert [] + out == out;
  }

  lemma WarmStays(c: Config, s: State, s': State, i: nat)
    requires Accounted(c, s) && s.ws == s'.ws == [] && i == s.sh.next && s'.sh.next == i + 1 && s'.sh.err == s.sh.err
    requires Collected(c, s'.sh.cands, i) && forall h :: h in s.sh.cands ==> h in s'.sh.cands
    ensures Accounted(c, s')
  {
    hide Collected;
    if !s.sh.err {
      forall j | 0 <= j < |c.hits| && j < s'.sh.next ensures Collected(c, s'.sh.cands, j) {
        if j < i {
          CollectedStays(c, s.sh.cands, s'.sh.cands, j);
        }
      }
    }
  }

  /** The end of the warm-up: publish, then fan out or finish. */
  lemma WarmEnd(c: Config, s: State)
    requires Routed(c) && Inv(c, s) && Enabled(c, s, Main(Go))
    ensures Inv(c, Next(c, s, Main(Go))) && Grows(c, s.sh, Next(c, s, Main(Go)).sh)
  {
    hide Largest, Scores, Known, Distinct, Collected, Doomed;
    HeapSize(c, s.sh);
    var s' := Next(c, s, Main(Go));
    assert forall j :: 0 <= j < |s'.ws| ==> s'.ws[j] == CheckStopped;
    if !s'.sh.err {
      forall j | 0 <= j < |c.hits| && j < s'.sh.next ensures Collected(c, s'.sh.cands, j) {
        assert HasOwner(s.ws, j) || Collected(c, s.sh.cands, j);
      }
    }
  }

  lemma MainSteps(c: Config, s: State, ch: Choice)
    requires Routed(c) && Inv(c, s) && Enabled(c, s, Main(ch))
    ensures Inv(c, Next(c, s, Main(ch))) && Grows(c, s.sh, Next(c, s, Main(ch)).sh)
  {
    if s.sh.next < |c.bounds| && |s.sh.heap| < c.k {
      if ch.Answer? {
        WarmAnswer(c, s, ch.out);
      } else {
        HeapSize(c, s.sh);
        hide Routed, SharedOk, Accounted, WorkerOk;
      }
    } else {
      WarmEnd(c, s);
    }
  }

  lemma Steps(c: Config, s: State, a: Act)
    requires Routed(c) && Inv(c, s) && Enabled(c, s, a)
    ensures Inv(c, Next(c, s, a)) && Grows(c, s.sh, Next(c, s, a).sh)
  {
    hide Inv, Grows, Routed;
    match a
    case Main(ch) => MainSteps(c, s, ch);
    case Step(w, ch) => PoolSteps(c, s, w, ch);
  }

  /** Safety over every run: the invariant holds at each state, and the state only grows. */
  lemma {:induction false} RunKeeps(c: Config, trace: seq<State>, acts: seq<Act>, i: nat, j: nat)
    requires Routed(c) && Run(c, trace, acts) && i <= j < |trace|
    ensures Inv(c, trace[j])
    ensures trace[i].sh.kth <= trace[j].sh.kth && (trace[i].sh.full ==> trace[j].sh.full)
    ensures trace[i].sh.next <= trace[j].sh.next
    decreases j
  {
    hide Inv, Routed, Enabled, Next;
    InitInv(c);
    if j > 0 {
      if i < j {
        RunKeeps(c, trace, acts, i, j - 1);
      } else {
        RunKeeps(c, trace, acts, i - 1, j - 1);
      }
      assert trace[j - 1 + 1] == Next(c, trace[j - 1], acts[j - 1]);
      Steps(c, trace[j - 1], acts[j - 1]);
    }
  }

  lemma {:induction false} SortRanked(cands: seq<CHit>)
    requires Distinct(cands)
    ensures Ranked(Better, SortHits(cands)) && Elements(SortHits(cands)) == Elements(cands)
    decreases |cands|
  {
    hide Better;
    BetterTotal();
    if cands != [] {
      var rest := cands[1..];
      assert Distinct(rest) && cands[0] !in rest by {
        forall i, j | 0 <= i < j < |rest| ensures rest[i] != rest[j] { assert cands[i + 1] != cands[j + 1]; }
        forall i | 0 <= i < |rest| ensures rest[i] != cands[0] { assert cands[0] != cands[i + 1]; }
      }
      SortRanked(rest);
      assert cands[0] !in SortHits(rest) by {
        assert cands[0] in SortHits(rest) <==> cands[0] in Elements(SortHits(rest));
      }
      InsertRanked(Better, SortHits(rest), cands[0]);
      assert cands == [cands[0]] + rest;
      assert Elements(cands) == Elements(rest) + {cands[0]};
    } else {
      assert Elements(SortHits(cands)) == Elements(cands);
    }
  }

  /** Once every worker has exited, nothing outside the candidates can matter. */
  lemma Complete(c: Config, s: State, x: CHit)
    requires Routed(c) && Inv(c, s) && Terminal(s) && s.phase == Pooling && !s.sh.err && x in AllHits(c)
    ensures x in s.sh.cands || Doomed(c, x)
  {
    hide Doomed, Largest, Scores;
    var i :| 0 <= i < |c.hits| && x in c.hits[i];
    assert Closed(c, s.sh) by {
      if s.ws != [] { assert WorkerOk(c, s.sh, s.ws[0]); }
    }
    if i < s.sh.next {
      assert HasOwner(s.ws, i) || Collected(c, s.sh.cands, i);
    } else {
      StoppedCollects(c, s.sh, i);
    }
  }

  lemma ExactState(c: Config, s: State)
    requires Routed(c) && Inv(c, s) && Terminal(s) && Returned(c, s).Hits?
    ensures IsTop(Better, Returned(c, s).hits, AllHits(c), c.k)
  {
    var kept := Elements(s.sh.cands);
    hide Better, Doomed, StrictTotal;
    BetterTotal();
    SortRanked(s.sh.cands);
    RankedPrefix(Better, SortHits(s.sh.cands), c.k);
    forall x | x in AllHits(c) - kept ensures |Beaters(Better, AllHits(c), x)| >= c.k {
      Complete(c, s, x);
      DoomedIs(c, x);
    }
    Prune(Better, AllHits(c), kept, c.k);
  }

  lemma DoomedIs(c: Config, x: CHit)
    ensures Doomed(c, x) <==> |Beaters(Better, AllHits(c), x)| >= c.k
  {
  }

  /** The first k of `all`, spelled out: scores fall; equal scores stand in order of shard, and within a
      shard of document; and what is left out would stand after everything that is not. */
  ghost predicate FirstK(hits: seq<CHit>, all: set<CHit>, k: nat) {
    && |hits| == (if |all| < k then |all| else k)
    && (forall h :: h in hits ==> h in all)
    && (forall i, j :: 0 <= i < j < |hits| ==>
          hits[i].score >= hits[j].score
          && (hits[i].score == hits[j].score ==>
                hits[i].shard < hits[j].shard || (hits[i].shard == hits[j].shard && hits[i].doc < hits[j].doc)))
    && (forall i, x :: 0 <= i < |hits| && x in all && x !in hits ==>
          hits[i].score >= x.score
          && (hits[i].score == x.score ==>
                hits[i].shard < x.shard || (hits[i].shard == x.shard && hits[i].doc < x.doc)))
  }

  lemma TopIsFirst(hits: seq<CHit>, all: set<CHit>, k: nat)
    requires IsTop(Better, hits, all, k)
    ensures FirstK(hits, all, k)
  {
    BetterTotal();
    RankedSize(Better, hits);
    TopSize(Better, all, k);
    forall h | h in hits ensures h in all {
      assert h in Elements(hits);
    }
    forall i, j | 0 <= i < j < |hits| ensures Better(hits[i], hits[j]) {
    }
    forall i, x | 0 <= i < |hits| && x in all && x !in hits ensures Better(hits[i], x) {
      assert hits[i] in Elements(hits) && x !in Elements(hits);
      TopBeatsRest(Better, all, k, hits[i], x);
    }
  }

  /** Main result: however the workers interleave and whatever their seeded searches return,
      a query that opened every shard it wanted returns the exact top-k by score, shard and
      document of scoring every document of every routed shard. */
  lemma Exact(c: Config, trace: seq<State>, acts: seq<Act>)
    requires Routed(c) && Run(c, trace, acts)
    ensures var last := trace[|acts|];
      Terminal(last) && Returned(c, last).Hits? ==>
        IsTop(Better, Returned(c, last).hits, AllHits(c), c.k) && FirstK(Returned(c, last).hits, AllHits(c), c.k)
  {
    hide Inv, Routed, Enabled, Next, IsTop, FirstK;
    RunKeeps(c, trace, acts, 0, |acts|);
    if Terminal(trace[|acts|]) && Returned(c, trace[|acts|]).Hits? {
      ExactState(c, trace[|acts|]);
      TopIsFirst(Returned(c, trace[|acts|]).hits, AllHits(c), c.k);
    }
  }

  /** The published threshold only rises, and never passes the final k-th best score; once
      the stop flag is up, every shard still unclaimed is bounded below it. */
  lemma Threshold(c: Config, trace: seq<State>, acts: seq<Act>, i: nat, j: nat)
    requires Routed(c) && Run(c, trace, acts) && i <= j < |trace|
    ensures trace[i].sh.kth <= trace[j].sh.kth
    ensures trace[i].sh.full ==> |trace[j].sh.heap| == c.k && trace[i].sh.kth <= Lowest(trace[j].sh.heap)
    ensures trace[i].sh.stopped ==> forall u :: trace[i].sh.next <= u < |c.bounds| ==>
              |trace[j].sh.heap| == c.k && c.bounds[u] < Lowest(trace[j].sh.heap)
    ensures Largest(trace[j].sh.heap, Scores(trace[j].sh.cands), c.k)
  {
    hide Run, Largest, Scores, Lowest;
    RunKeeps(c, trace, acts, i, j);
    RunKeeps(c, trace, acts, i, i);
  }

  // ---- the published threshold at the end is the answer's last score

  lemma {:induction false} ScoresJoin(a: seq<CHit>, b: seq<CHit>)
    ensures Scores(a + b) == Scores(a) + Scores(b)
    decreases |b|
  {
    hide Scores;
    if b == [] {
      assert a + b == a;
      NoScores();
    } else {
      var front, last := b[..|b| - 1], b[|b| - 1];
      ScoresJoin(a, front);
      assert a + b == (a + front) + [last] && b == front + [last];
      ScoresSnoc(a + front, last);
      ScoresSnoc(front, last);
    }
  }

  lemma NoScores()
    ensures Scores([]) == multiset{}
  {
  }

  lemma OneScore(h: CHit)
    ensures Scores([h]) == multiset{h.score}
  {
    ScoresSnoc([], h);
    assert [] + [h] == [h];
  }

  lemma {:induction false} InsertScores(out: seq<CHit>, x: CHit)
    ensures Scores(Insert(Better, out, x)) == Scores(out) + multiset{x.score}
    decreases |out|
  {
    hide Scores;
    OneScore(x);
    if out == [] {
      NoScores();
    } else if Better(x, out[0]) {
      ScoresJoin([x], out);
    } else {
      InsertScores(out[1..], x);
      ScoresJoin([out[0]], Insert(Better, out[1..], x));
      ScoresJoin([out[0]], out[1..]);
      assert out == [out[0]] + out[1..];
    }
  }

  lemma {:induction false} SortScores(cands: seq<CHit>)
    ensures Scores(SortHits(cands)) == Scores(cands)
    decreases |cands|
  {
    hide Scores;
    if cands != [] {
      SortScores(cands[1..]);
      InsertScores(SortHits(cands[1..]), cands[0]);
      ScoresJoin([cands[0]], cands[1..]);
      OneScore(cands[0]);
      assert cands == [cands[0]] + cands[1..];
    }
  }

  lemma {:induction false} ScoreOf(cands: seq<CHit>, v: real)
    ensures |Scores(cands)| == |cands|
    ensures v in Scores(cands) <==> exists i :: 0 <= i < |cands| && cands[i].score == v
    decreases |cands|
  {
    if cands != [] {
      var front, last := cands[..|cands| - 1], cands[|cands| - 1];
      ScoreOf(front, v);
      if v in Scores(cands) && v != last.score {
        var i :| 0 <= i < |front| && front[i].score == v;
        assert cands[i].score == v;
      }
      if i :| 0 <= i < |cands| && cands[i].score == v {
        assert i < |front| ==> front[i].score == v;
      }
    }
  }

  lemma RankedScores(all: seq<CHit>, i: nat, j: nat)
    requires Ranked(Better, all) && i <= j < |all|
    ensures all[i].score >= all[j].score
  {
    assert i == j || Better(all[i], all[j]);
  }

  lemma TopLast(all: seq<CHit>, k: nat, a: real)
    requires Ranked(Better, all) && 0 < k <= |all| && a in Scores(all[..k])
    ensures all[k - 1].score <= a
  {
    hide Better, Scores;
    ScoreOf(all[..k], a);
    var i :| 0 <= i < k && all[..k][i].score == a;
    RankedScores(all, i, k - 1);
  }

  lemma TopScore(all: seq<CHit>, k: nat, a: real, b: real)
    requires Ranked(Better, all) && 0 < k <= |all| && a in Scores(all[..k]) && b in Scores(all[k..])
    ensures b <= a && all[k - 1].score <= a
  {
    hide Better, Scores;
    TopLast(all, k, a);
    ScoreOf(all[k..], b);
    var j :| 0 <= j < |all| - k && all[k..][j].score == b;
    RankedScores(all, k - 1, k + j);
  }

  lemma TopIsLargest(all: seq<CHit>, k: nat)
    requires Ranked(Better, all) && 0 < k <= |all|
    ensures Largest(Scores(all[..k]), Scores(all), k)
  {
    hide Better, Scores, Ranked;
    var top, low := all[..k], all[k..];
    assert all == top + low;
    ScoresJoin(top, low);
    ScoreOf(top, 0.0);
    ScoreOf(all, 0.0);
    assert Scores(all) - Scores(top) == Scores(low);
    forall a, b | a in Scores(top) && b in Scores(low) ensures b <= a {
      TopScore(all, k, a, b);
    }
  }

  lemma LowestOfTop(all: seq<CHit>, k: nat)
    requires Ranked(Better, all) && 0 < k <= |all|
    ensures |Scores(all[..k])| == k && Lowest(Scores(all[..k])) == all[k - 1].score
  {
    hide Better, Scores, Ranked;
    var top := all[..k];
    ScoreOf(top, all[k - 1].score);
    assert top[k - 1].score == all[k - 1].score;
    TopLast(all, k, Lowest(Scores(top)));
  }

  /** With k hits found, the heap's minimum is the score of the last hit returned: the
      threshold the query reports. */
  lemma ThresholdIsLast(c: Config, s: State)
    requires Routed(c) && Inv(c, s) && Terminal(s) && Returned(c, s).Hits? && |s.sh.heap| == c.k
    ensures var hits := Returned(c, s).hits;
      |hits| == c.k && Lowest(s.sh.heap) == hits[c.k - 1].score
  {
    hide Better, Scores, Ranked, SortHits, Largest, Owned, Accounted, WorkerOk, Lowest;
    var all := SortHits(s.sh.cands);
    SortRanked(s.sh.cands);
    SortScores(s.sh.cands);
    ScoreOf(all, 0.0);
    Inside(s.sh.heap, Scores(s.sh.cands), c.k);
    TopIsLargest(all, c.k);
    LowestOfTop(all, c.k);
    LargestUnique(s.sh.heap, Scores(all[..c.k]), Scores(s.sh.cands), c.k);
    assert |all| == c.k ==> all[..c.k] == all;
  }
}
