/** Safety of the fan-out: an invariant of every interleaving, and from it the exact top-k. */
module BrokerSafety {
  import opened TopK
  import opened ScoreHeap
  import opened Broker

  // ---- what is true of the shared state

  /** Beaten by k hits, whoever has found them: it cannot be in the answer. */
  ghost predicate Doomed(c: Config, x: CHit) {
    |Beaters(Better, AllHits(c), x)| >= c.k
  }

  ghost predicate Distinct(cands: seq<CHit>) {
    forall i, j :: 0 <= i < j < |cands| ==> cands[i] != cands[j]
  }

  ghost predicate Known(c: Config, cands: seq<CHit>) {
    forall h :: h in cands ==> h in AllHits(c)
  }

  /** Every shard not yet claimed is bounded below the published k-th. */
  ghost predicate Closed(c: Config, sh: Shared) {
    && (sh.next < |c.bounds| ==> sh.full)
    && forall i :: sh.next <= i < |c.bounds| ==> c.bounds[i] < sh.kth
  }

  /** The heap holds the k largest scores pushed, and the published word never exceeds its minimum. */
  ghost predicate HeapOk(c: Config, sh: Shared) {
    && Largest(sh.heap, Scores(sh.cands), c.k)
    && (sh.full ==> |sh.heap| == c.k)
    && (|sh.heap| < c.k ==> sh.kth == 0.0)
    && (|sh.heap| == c.k && c.k > 0 ==> sh.kth <= Lowest(sh.heap))
  }

  ghost predicate SharedOk(c: Config, sh: Shared) {
    && HeapOk(c, sh) && Distinct(sh.cands) && Known(c, sh.cands)
    && (sh.stopped ==> Closed(c, sh)) && (sh.failed ==> sh.err)
  }

  // ---- what is true of a worker

  /** A seed or threshold a worker holds is none, or a k-th published before. */
  ghost predicate Published(sh: Shared, v: real) {
    v == 0.0 || (sh.full && v <= sh.kth)
  }

  /** The hits of shard `i` still in hand; what was dropped cannot be in the answer. */
  ghost predicate Survivors(c: Config, i: nat, rest: seq<CHit>, batch: seq<CHit>) {
    && i < |c.hits| && Ranked(Better, batch + rest)
    && (forall h :: h in batch + rest ==> h in c.hits[i])
    && (forall x :: x in c.hits[i] ==> x in batch + rest || Doomed(c, x))
  }

  ghost predicate WorkerOk(c: Config, sh: Shared, wk: Worker) {
    && Owner(wk) < |c.bounds| && Owner(wk) < sh.next
    && match wk
       case ReadKth(i) => sh.full
       case Stopping(i) => sh.full && c.bounds[i] < sh.kth
       case Acquire(i, seed) => Published(sh, seed)
       case Search(i, seed) => Published(sh, seed)
       case Filter(i, rest, batch) => rest != [] && Survivors(c, i, rest, batch)
       case FilterKth(i, rest, batch) => sh.full && rest != [] && Survivors(c, i, rest, batch)
       case Lock(i, batch) => Survivors(c, i, [], batch)
       case Fold(i, batch) => Survivors(c, i, [], batch)
       case PublishKth => |sh.heap| == c.k
       case PublishFull => |sh.heap| == c.k
       case UnlockErr => sh.err
       case SetFailed => sh.err
       case Exited => sh.err || Closed(c, sh)
       case _ => true
  }

  // ---- what is true of the pool

  /** No two workers hold the same shard, and candidates come only from shards let go. */
  ghost predicate Owned(c: Config, s: State) {
    && (forall v, w :: 0 <= v < w < |s.ws| && Owner(s.ws[v]) == Owner(s.ws[w]) ==> Owner(s.ws[v]) == -1)
    && (forall w, h :: 0 <= w < |s.ws| && 0 <= Owner(s.ws[w]) < |c.shards| && h in s.sh.cands
          ==> h.shard != c.shards[Owner(s.ws[w])])
    && (forall i, h :: s.sh.next <= i < |c.shards| && h in s.sh.cands ==> h.shard != c.shards[i])
  }

  ghost predicate Collected(c: Config, cands: seq<CHit>, i: nat) {
    i < |c.hits| && forall x :: x in c.hits[i] ==> x in cands || Doomed(c, x)
  }

  ghost predicate HasOwner(ws: seq<Worker>, i: nat) {
    exists w :: 0 <= w < |ws| && Owner(ws[w]) == i
  }

  /** Unless a shard failed to open, every claimed shard is in hand or accounted for. */
  ghost predicate Accounted(c: Config, s: State) {
    s.sh.err || forall i :: 0 <= i < |c.hits| && i < s.sh.next ==> HasOwner(s.ws, i) || Collected(c, s.sh.cands, i)
  }

  ghost predicate LockOk(s: State) {
    && -1 <= s.sh.lock < |s.ws|
    && forall w :: 0 <= w < |s.ws| ==> (Holding(s.ws[w]) <==> s.sh.lock == w)
  }

  ghost predicate PhaseOk(c: Config, s: State) {
    && (s.phase == Warming ==>
      s.ws == [] && !s.sh.full && !s.sh.stopped && !s.sh.failed && s.sh.lock == FREE && s.sh.kth == 0.0)
    && (s.phase == Pooling && s.ws == [] ==> Closed(c, s.sh))
    && (s.phase != Pooling ==> s.ws == [])
  }

  ghost predicate Inv(c: Config, s: State) {
    && SharedOk(c, s.sh) && (forall w :: 0 <= w < |s.ws| ==> WorkerOk(c, s.sh, s.ws[w]))
    && Owned(c, s) && Accounted(c, s) && LockOk(s) && PhaseOk(c, s)
  }

  // ---- the heap

  lemma PushLargest(heap: multiset<real>, pushed: multiset<real>, v: real, k: nat)
    requires Largest(heap, pushed, k) && k > 0
    ensures Largest(PushScore(heap, v, k), pushed + multiset{v}, k)
  {
    hide Largest;
    Inside(heap, pushed, k);
    if |heap| < k {
      GrowLargest(heap, pushed, k, v);
    } else if v <= Lowest(heap) {
      SkipLargest(heap, pushed, k, v);
    } else {
      ReplaceLargest(heap, pushed, k, v, Lowest(heap));
    }
  }

  lemma ScoresSnoc(front: seq<CHit>, last: CHit)
    ensures Scores(front + [last]) == Scores(front) + multiset{last.score}
  {
    assert (front + [last])[..|front|] == front;
  }

  lemma {:induction false} PushAllLargest(heap: multiset<real>, cands: seq<CHit>, batch: seq<CHit>, k: nat)
    requires Largest(heap, Scores(cands), k) && k > 0
    ensures Largest(PushAll(heap, batch, k), Scores(cands + batch), k)
    ensures Scores(cands) <= Scores(cands + batch)
    decreases |batch|
  {
    hide Largest, PushScore, Scores;
    if batch == [] {
      assert cands + batch == cands;
    } else {
      var front, last := batch[..|batch| - 1], batch[|batch| - 1];
      PushAllLargest(heap, cands, front, k);
      PushLargest(PushAll(heap, front, k), Scores(cands + front), last.score, k);
      assert cands + batch == (cands + front) + [last];
      ScoresSnoc(cands + front, last);
    }
  }

  ghost function High(cands: seq<CHit>, v: real): set<CHit> {
    set h | h in cands && h.score >= v
  }

  lemma HighSnoc(front: seq<CHit>, last: CHit, v: real)
    requires Distinct(front + [last])
    ensures Distinct(front) && |High(front, v)| <= |High(front + [last], v)|
    ensures last.score >= v ==> |High(front + [last], v)| >= |High(front, v)| + 1
  {
    var high, high', cands := High(front + [last], v), High(front, v), front + [last];
    forall i, j | 0 <= i < j < |front| ensures front[i] != front[j] {
      assert cands[i] != cands[j];
    }
    SubsetSize(high', high);
    forall i | 0 <= i < |front| ensures front[i] != last {
      assert cands[i] != cands[|front|];
    }
    if last.score >= v {
      SubsetSize(high' + {last}, high);
    }
  }

  /** Distinct hits behind a multiset of scores that all reach `v`. */
  lemma {:induction false} HighHits(cands: seq<CHit>, held: multiset<real>, v: real)
    requires Distinct(cands) && held <= Scores(cands) && forall a :: a in held ==> a >= v
    ensures |High(cands, v)| >= |held|
    decreases |cands|
  {
    if cands == [] {
      assert held == multiset{};
    } else {
      hide Scores, Distinct, High;
      var front, last := cands[..|cands| - 1], cands[|cands| - 1];
      assert cands == front + [last];
      HighSnoc(front, last, v);
      ScoresSnoc(front, last);
      if last.score in held {
        HighHits(front, held - multiset{last.score}, v);
      } else {
        assert held <= Scores(front);
        HighHits(front, held, v);
      }
    }
  }

  /** A hit below the k-th best score found so far is beaten by k hits. */
  lemma BelowKth(c: Config, sh: Shared, x: CHit)
    requires SharedOk(c, sh) && c.k > 0 && |sh.heap| == c.k && x.score < Lowest(sh.heap)
    ensures Doomed(c, x)
  {
    hide Better;
    var v := Lowest(sh.heap);
    HighHits(sh.cands, sh.heap, v);
    var high := High(sh.cands, v);
    forall h | h in high ensures h in Beaters(Better, AllHits(c), x) { HigherBeats(h, x); }
    SubsetSize(high, Beaters(Better, AllHits(c), x));
  }

  lemma HigherBeats(a: CHit, b: CHit)
    requires a.score > b.score
    ensures Better(a, b)
  {
  }

  lemma BelowPublished(c: Config, sh: Shared, v: real, x: CHit)
    requires SharedOk(c, sh) && c.k > 0 && Published(sh, v) && 0.0 < x.score < v
    ensures Doomed(c, x)
  {
    hide Doomed, Largest, Scores;
    BelowKth(c, sh, x);
  }

  // ---- one step

  /** What a step can do to the shared state, as the other workers see it. */
  ghost predicate Grows(c: Config, sh: Shared, sh': Shared) {
    && (sh.full ==> sh'.full) && sh.kth <= sh'.kth && sh.next <= sh'.next && (sh.err ==> sh'.err)
    && |sh.heap| <= |sh'.heap| <= c.k
    && (forall h :: h in sh.cands ==> h in sh'.cands)
  }

  lemma ClosedStays(c: Config, sh: Shared, sh': Shared)
    requires Closed(c, sh) && Grows(c, sh, sh')
    ensures Closed(c, sh')
  {
  }

  lemma WorkerStays(c: Config, sh: Shared, sh': Shared, wk: Worker)
    requires WorkerOk(c, sh, wk) && Grows(c, sh, sh')
    ensures WorkerOk(c, sh', wk)
  {
    hide Survivors;
    if wk.Exited? && Closed(c, sh) {
      ClosedStays(c, sh, sh');
    }
  }

  ghost predicate NewHits(c: Config, cands: seq<CHit>, batch: seq<CHit>) {
    Ranked(Better, batch) && Known(c, batch) && forall h :: h in batch ==> h !in cands
  }

  /** Folding new hits in. */
  lemma FoldShared(c: Config, sh: Shared, batch: seq<CHit>, sh': Shared)
    requires SharedOk(c, sh) && Routed(c) && NewHits(c, sh.cands, batch)
    requires sh'.cands == sh.cands + batch && sh'.heap == PushAll(sh.heap, batch, c.k)
    requires sh'.next >= sh.next
    requires sh' == sh.(cands := sh'.cands, heap := sh'.heap, next := sh'.next)
    ensures SharedOk(c, sh') && Grows(c, sh, sh')
  {
    FoldHeap(c, sh, batch, sh');
    hide HeapOk, Routed, AllHits, Scores, PushAll, Better;
    FoldDistinct(c, sh.cands, batch);
    if sh.stopped {
      ClosedStays(c, sh, sh');
    }
  }

  lemma FoldDistinct(c: Config, cands: seq<CHit>, batch: seq<CHit>)
    requires Distinct(cands) && Known(c, cands) && NewHits(c, cands, batch)
    ensures Distinct(cands + batch) && Known(c, cands + batch)
    ensures forall h :: h in cands ==> h in cands + batch
  {
    hide AllHits;
    var all := cands + batch;
    forall i, j | 0 <= i < j < |all| ensures all[i] != all[j] {
      if i >= |cands| {
        assert Better(batch[i - |cands|], batch[j - |cands|]);
      } else if j >= |cands| {
        assert batch[j - |cands|] in batch;
      }
    }
  }

  lemma PositiveScores(c: Config, cands: seq<CHit>)
    requires Routed(c) && Known(c, cands)
    ensures forall v :: v in Scores(cands) ==> v > 0.0
    decreases |cands|
  {
    if cands != [] {
      assert cands[|cands| - 1] in cands;
      PositiveScores(c, cands[..|cands| - 1]);
    }
  }

  lemma FoldHeap(c: Config, sh: Shared, batch: seq<CHit>, sh': Shared)
    requires SharedOk(c, sh) && Routed(c) && NewHits(c, sh.cands, batch)
    requires sh'.cands == sh.cands + batch && sh'.heap == PushAll(sh.heap, batch, c.k)
    requires sh'.full == sh.full && sh'.kth == sh.kth
    ensures HeapOk(c, sh') && |sh.heap| <= |sh'.heap| <= c.k
  {
    PositiveScores(c, sh.cands + batch) by { FoldDistinct(c, sh.cands, batch); }
    hide Routed, Scores, PushAll;
    PushAllLargest(sh.heap, sh.cands, batch, c.k);
    HeapGrows(sh.heap, sh'.heap, Scores(sh.cands), Scores(sh'.cands), c.k);
    if |sh'.heap| == c.k {
      assert Lowest(sh'.heap) in Scores(sh'.cands);
    }
  }

  lemma HeapGrows(heap: multiset<real>, heap': multiset<real>, pushed: multiset<real>, pushed': multiset<real>, k: nat)
    requires Largest(heap, pushed, k) && Largest(heap', pushed', k) && pushed <= pushed' && k > 0
    ensures |heap| <= |heap'| <= k
    ensures |heap| == k ==> Lowest(heap) <= Lowest(heap')
  {
    assert |pushed' - pushed| == |pushed'| - |pushed|;
    if |heap| == k {
      LargestRises(heap, heap', pushed, pushed', k, Lowest(heap), Lowest(heap'));
    }
  }

  /** A worker's step keeps the shared invariant. */
  lemma SharedSteps(c: Config, sh: Shared, w: nat, wk: Worker, ch: Choice)
    requires Routed(c) && SharedOk(c, sh) && WorkerOk(c, sh, wk) && Indexed(c, sh, wk) && CanStep(c, sh, wk, ch)
    requires wk.Fold? ==> forall h :: h in wk.batch ==> h !in sh.cands
    ensures SharedOk(c, NextShared(c, sh, w, wk)) && Grows(c, sh, NextShared(c, sh, w, wk))
  {
    hide AllHits, Largest, Scores, PushAll;
    var sh' := NextShared(c, sh, w, wk);
    HeapSize(c, sh);
    if wk.Fold? {
      SurvivorsNew(c, wk.i, wk.batch);
      FoldShared(c, sh, wk.batch, sh');
    } else if sh.stopped {
      ClosedStays(c, sh, sh');
    }
  }

  lemma HeapSize(c: Config, sh: Shared)
    requires HeapOk(c, sh)
    ensures |sh.heap| <= c.k
  {
  }

  lemma SurvivorsNew(c: Config, i: nat, batch: seq<CHit>)
    requires Survivors(c, i, [], batch)
    ensures Ranked(Better, batch) && Known(c, batch)
    ensures forall h :: h in batch ==> h in c.hits[i]
  {
    assert batch + [] == batch;
  }

  // ---- the stepping worker

  lemma SearchSurvivors(c: Config, sh: Shared, i: nat, seed: real, out: seq<CHit>)
    requires Routed(c) && SharedOk(c, sh) && i < |c.hits| && Published(sh, seed) && SearchAnswer(c, i, seed, out)
    ensures Survivors(c, i, out, [])
  {
    hide SharedOk, AllHits, Better, Published;
    assert [] + out == out;
    forall h | h in out ensures h in c.hits[i] {
      assert h in Elements(out);
    }
    forall x | x in c.hits[i] ensures x in out || Doomed(c, x) {
      if x.score >= seed {
        ShardDoomed(c, i, x);
      } else {
        BelowPublished(c, sh, seed, x);
      }
    }
  }

  lemma ShardDoomed(c: Config, i: nat, x: CHit)
    requires i < |c.hits| && x in c.hits[i]
    ensures x in Top(Better, c.hits[i], c.k) || Doomed(c, x)
  {
    hide Better;
    assert c.hits[i] <= AllHits(c);
    BeatersMono(Better, c.hits[i], AllHits(c), x);
  }

  lemma FilterSurvivors(c: Config, i: nat, rest: seq<CHit>, batch: seq<CHit>)
    requires rest != [] && Survivors(c, i, rest, batch)
    ensures Survivors(c, i, rest[1..], batch + [rest[0]])
    ensures rest[0] in c.hits[i]
    ensures Doomed(c, rest[0]) ==> Survivors(c, i, rest[1..], batch)
  {
    hide Doomed, Better;
    assert batch + [rest[0]] + rest[1..] == batch + rest;
    var all, less := batch + rest, batch + rest[1..];
    assert all[|batch|] == rest[0];
    assert forall j :: 0 <= j < |less| ==> less[j] == all[if j < |batch| then j else j + 1];
    forall x | x in all ensures x in less || x == rest[0] {
      var j :| 0 <= j < |all| && all[j] == x;
      if j != |batch| {
        assert less[if j < |batch| then j else j - 1] == x;
      }
    }
  }

  lemma FilteredOk(c: Config, sh: Shared, i: nat, rest: seq<CHit>, batch: seq<CHit>)
    requires Survivors(c, i, rest, batch) && i < |c.bounds| && i < sh.next
    ensures WorkerOk(c, sh, Filtered(i, rest, batch))
  {
    hide Survivors;
  }

  lemma WorkerSteps(c: Config, sh: Shared, w: nat, wk: Worker, ch: Choice)
    requires Routed(c) && SharedOk(c, sh) && WorkerOk(c, sh, wk) && Indexed(c, sh, wk) && CanStep(c, sh, wk, ch)
    requires SharedOk(c, NextShared(c, sh, w, wk))
    ensures WorkerOk(c, NextShared(c, sh, w, wk), NextWorker(c, sh, wk, ch))
  {
    hide Survivors, SearchAnswer, Largest, Lowest, PushAll, Scores, Known, Distinct, AllHits, HeapOk, Published;
    var sh' := NextShared(c, sh, w, wk);
    match wk
    case Search(i, seed) =>
      SearchSurvivors(c, sh, i, seed, ch.out);
      FilteredOk(c, sh, i, ch.out, []);
    case Filter(i, rest, batch) =>
      FilterSurvivors(c, i, rest, batch);
      FilteredOk(c, sh, i, rest[1..], batch + [rest[0]]);
    case FilterKth(i, rest, batch) =>
      FilterSurvivors(c, i, rest, batch);
      FilterKthOk(c, sh, i, rest, batch);
    case Fold(i, batch) =>
      HeapSize(c, sh');
    case Stopping(i) =>
      StopCloses(c, sh, sh', i);
    case _ =>
      PublishedNow(sh);
  }

  lemma PublishedNow(sh: Shared)
    ensures Published(sh, 0.0) && (sh.full ==> Published(sh, sh.kth))
  {
  }

  /** Bounds descend, so a bound below the threshold closes everything unclaimed. */
  lemma StopCloses(c: Config, sh: Shared, sh': Shared, i: nat)
    requires Routed(c) && i < |c.bounds| && i < sh.next && sh.full && c.bounds[i] < sh.kth
    requires sh' == sh.(stopped := true)
    ensures Closed(c, sh')
  {
  }

  lemma FilterKthOk(c: Config, sh: Shared, i: nat, rest: seq<CHit>, batch: seq<CHit>)
    requires Routed(c) && SharedOk(c, sh) && sh.full && i < |c.bounds| && i < sh.next && rest != []
    requires Survivors(c, i, rest, batch)
    ensures WorkerOk(c, sh, Filtered(i, rest[1..], if rest[0].score < sh.kth then batch else batch + [rest[0]]))
  {
    FilterSurvivors(c, i, rest, batch);
    hide Survivors, SharedOk;
    if rest[0].score < sh.kth {
      BelowPublished(c, sh, sh.kth, rest[0]);
      FilteredOk(c, sh, i, rest[1..], batch);
    } else {
      FilteredOk(c, sh, i, rest[1..], batch + [rest[0]]);
    }
  }

  // ---- the pool

  ghost predicate Ready(c: Config, s: State, w: nat, ch: Choice) {
    && Routed(c) && Inv(c, s) && s.phase == Pooling && w < |s.ws|
    && Indexed(c, s.sh, s.ws[w]) && CanStep(c, s.sh, s.ws[w], ch)
  }

  lemma WorkersStep(c: Config, s: State, w: nat, ch: Choice)
    requires Ready(c, s, w, ch)
    ensures var s' := Next(c, s, Step(w, ch));
      && SharedOk(c, s'.sh) && Grows(c, s.sh, s'.sh)
      && forall v :: 0 <= v < |s'.ws| ==> WorkerOk(c, s'.sh, s'.ws[v])
  {
    var s' := Next(c, s, Step(w, ch));
    BatchNew(c, s, w);
    hide SharedOk, WorkerOk, Accounted, LockOk, PhaseOk, Owned, Routed, NextShared, NextWorker, CanStep, Grows;
    SharedSteps(c, s.sh, w, s.ws[w], ch);
    WorkerSteps(c, s.sh, w, s.ws[w], ch);
    forall v | 0 <= v < |s.ws| && v != w ensures WorkerOk(c, s'.sh, s.ws[v]) {
      WorkerStays(c, s.sh, s'.sh, s.ws[v]);
    }
  }

  lemma BatchNew(c: Config, s: State, w: nat)
    requires Routed(c) && Inv(c, s) && w < |s.ws|
    ensures s.ws[w].Fold? ==> forall h :: h in s.ws[w].batch ==> h !in s.sh.cands && h.shard == c.shards[Owner(s.ws[w])]
  {
    assert WorkerOk(c, s.sh, s.ws[w]);
    if s.ws[w].Fold? {
      SurvivorsNew(c, s.ws[w].i, s.ws[w].batch);
    }
  }

  /** How a step changes what its worker holds: keeps it, lets it go, or claims the next shard. */
  lemma OwnerSteps(c: Config, sh: Shared, w: nat, wk: Worker, ch: Choice)
    requires Indexed(c, sh, wk) && CanStep(c, sh, wk, ch)
    ensures var sh', wk' := NextShared(c, sh, w, wk), NextWorker(c, sh, wk, ch);
      && -1 <= Owner(wk') && -1 <= Owner(wk)
      && (Owner(wk') == Owner(wk) || Owner(wk') == -1 || (wk.Claim? && Owner(wk') == sh.next))
      && sh'.next == (if wk.Claim? then sh.next + 1 else sh.next)
      && sh'.cands == (if wk.Fold? then sh.cands + wk.batch else sh.cands)
      && (wk.Claim? && sh.next < |c.bounds| ==> Owner(wk') == sh.next)
      && (wk.Claim? ==> Owner(wk) == -1) && (wk.Fold? ==> Owner(wk') == -1)
  {
    hide SearchAnswer, Lowest, PushAll;
  }

  lemma OwnedSteps(c: Config, s: State, w: nat, ch: Choice)
    requires Ready(c, s, w, ch)
    ensures Owned(c, Next(c, s, Step(w, ch)))
  {
    var s', wk := Next(c, s, Step(w, ch)), s.ws[w];
    BatchNew(c, s, w);
    OwnerSteps(c, s.sh, w, wk, ch);
    assert WorkerOk(c, s.sh, wk);
    assert forall v :: 0 <= v < |s.ws| ==> WorkerOk(c, s.sh, s.ws[v]);
    hide SharedOk, Accounted, LockOk, PhaseOk, NextShared, NextWorker, CanStep;
    assert forall v :: 0 <= v < |s.ws| ==> Owner(s.ws[v]) < s.sh.next;
    hide WorkerOk;
    OwnedApart(c, s, w, s'.ws[w], s'.sh.next);
    if wk.Fold? {
      OwnedFold(c, s, w, wk.batch, s');
    }
  }

  lemma OwnedApart(c: Config, s: State, w: nat, wk': Worker, next': nat)
    requires Owned(c, s) && w < |s.ws| && forall v :: 0 <= v < |s.ws| ==> Owner(s.ws[v]) < s.sh.next <= next'
    requires Owner(wk') == Owner(s.ws[w]) || Owner(wk') == -1 || (Owner(wk') == s.sh.next && next' == s.sh.next + 1)
    ensures Owned(c, s.(ws := s.ws[w := wk'], sh := s.sh.(next := next')))
  {
    hide Owner;
  }

  lemma OwnedFold(c: Config, s: State, w: nat, batch: seq<CHit>, s': State)
    requires Routed(c) && Owned(c, s) && w < |s.ws| && 0 <= Owner(s.ws[w]) < |c.shards| && Owner(s.ws[w]) < s.sh.next
    requires forall h :: h in batch ==> h.shard == c.shards[Owner(s.ws[w])]
    requires |s'.ws| == |s.ws| && s'.ws == s.ws[w := s'.ws[w]] && Owner(s'.ws[w]) == -1
    requires s'.sh.next == s.sh.next && s'.sh.cands == s.sh.cands + batch
    ensures Owned(c, s')
  {
    hide Owner;
  }

  lemma CollectedStays(c: Config, cands: seq<CHit>, cands': seq<CHit>, i: nat)
    requires Collected(c, cands, i) && forall h :: h in cands ==> h in cands'
    ensures Collected(c, cands', i)
  {
    hide Doomed;
  }

  /** Letting a shard go: its hits are all collected, or doomed, or its open failed. */
  lemma LetGo(c: Config, sh: Shared, w: nat, wk: Worker, ch: Choice)
    requires Routed(c) && SharedOk(c, sh) && WorkerOk(c, sh, wk) && Indexed(c, sh, wk) && CanStep(c, sh, wk, ch)
    requires Owner(wk) >= 0 && Owner(NextWorker(c, sh, wk, ch)) == -1
    ensures NextShared(c, sh, w, wk).err || Collected(c, NextShared(c, sh, w, wk).cands, Owner(wk))
  {
    hide SearchAnswer, Lowest, PushAll, SharedOk, Survivors, Collected, Routed, Closed;
    match wk
    case Stopping(i) => StoppedCollects(c, sh, i);
    case Search(i, seed) =>
      SearchSurvivors(c, sh, i, seed, ch.out);
      SurvivorsCollect(c, sh.cands, i, ch.out, []);
    case FilterKth(i, rest, batch) =>
      FilterKthCollects(c, sh, i, rest, batch);
    case Fold(i, batch) =>
      FoldCollects(c, sh.cands, i, batch);
    case _ =>
  }

  lemma StoppedCollects(c: Config, sh: Shared, i: nat)
    requires Routed(c) && SharedOk(c, sh) && sh.full && i < |c.bounds| && c.bounds[i] < sh.kth
    ensures Collected(c, sh.cands, i)
  {
    hide SharedOk, Doomed;
    forall x | x in c.hits[i] ensures Doomed(c, x) {
      BelowPublished(c, sh, sh.kth, x);
    }
  }

  lemma SurvivorsCollect(c: Config, cands: seq<CHit>, i: nat, rest: seq<CHit>, batch: seq<CHit>)
    requires Survivors(c, i, rest, batch)
    ensures rest == [] && batch == [] ==> Collected(c, cands, i)
  {
    hide Doomed;
  }

  lemma FoldCollects(c: Config, cands: seq<CHit>, i: nat, batch: seq<CHit>)
    requires Survivors(c, i, [], batch)
    ensures Collected(c, cands + batch, i)
  {
    hide Doomed;
  }

  lemma FilterKthCollects(c: Config, sh: Shared, i: nat, rest: seq<CHit>, batch: seq<CHit>)
    requires Routed(c) && SharedOk(c, sh) && sh.full && rest != [] && Survivors(c, i, rest, batch)
    ensures rest[1..] == [] && batch == [] && rest[0].score < sh.kth ==> Collected(c, sh.cands, i)
  {
    FilterSurvivors(c, i, rest, batch);
    hide Survivors, SharedOk;
    if rest[0].score < sh.kth {
      FilterInHits(c, i, rest, batch);
      BelowPublished(c, sh, sh.kth, rest[0]);
      SurvivorsCollect(c, sh.cands, i, rest[1..], batch);
    }
  }

  lemma FilterInHits(c: Config, i: nat, rest: seq<CHit>, batch: seq<CHit>)
    requires Routed(c) && rest != [] && Survivors(c, i, rest, batch)
    ensures rest[0].score > 0.0
  {
    FilterSurvivors(c, i, rest, batch);
  }

  lemma AccountedSteps(c: Config, s: State, w: nat, ch: Choice)
    requires Ready(c, s, w, ch)
    ensures Accounted(c, Next(c, s, Step(w, ch)))
  {
    var s', wk := Next(c, s, Step(w, ch)), s.ws[w];
    WorkersStep(c, s, w, ch);
    OwnerSteps(c, s.sh, w, wk, ch);
    assert WorkerOk(c, s.sh, wk);
    if Owner(wk) >= 0 && Owner(s'.ws[w]) == -1 { LetGo(c, s.sh, w, wk, ch); }
    hide SharedOk, WorkerOk, LockOk, PhaseOk, Owned, NextShared, NextWorker, CanStep, Owner, Collected;
    if !s'.sh.err {
      forall i | 0 <= i < |c.hits| && i < s'.sh.next ensures HasOwner(s'.ws, i) || Collected(c, s'.sh.cands, i) {
        if i == s.sh.next {
          assert Owner(s'.ws[w]) == i;
        } else if HasOwner(s.ws, i) {
          var v :| 0 <= v < |s.ws| && Owner(s.ws[v]) == i;
          assert v != w ==> s'.ws[v] == s.ws[v];
          assert Owner(s'.ws[v]) == i || v == w;
        } else {
          CollectedStays(c, s.sh.cands, s'.sh.cands, i);
        }
      }
    }
  }

  lemma LockSteps(c: Config, s: State, w: nat, ch: Choice)
    requires Ready(c, s, w, ch)
    ensures LockOk(Next(c, s, Step(w, ch)))
  {
    hide SharedOk, WorkerOk, Accounted, PhaseOk, Owned, SearchAnswer, Lowest, PushAll;
  }

  lemma PoolSteps(c: Config, s: State, w: nat, ch: Choice)
    requires Ready(c, s, w, ch)
    ensures Inv(c, Next(c, s, Step(w, ch))) && Grows(c, s.sh, Next(c, s, Step(w, ch)).sh)
  {
    hide SharedOk, WorkerOk, Accounted, Owned, LockOk, NextShared, NextWorker, CanStep, Grows;
    WorkersStep(c, s, w, ch);
    OwnedSteps(c, s, w, ch);
    AccountedSteps(c, s, w, ch);
    LockSteps(c, s, w, ch);
  }
}
