/** The broker's parallel fan-out (cluster.go): a serial warm-up, then a pool of workers that
    claim shards by an atomic counter, read the published threshold without a lock, and fold
    their hits into one heap under a mutex. One step per atomic operation or critical section. */
module Broker {
  import opened TopK
  import opened ScoreHeap

  datatype CHit = CHit(shard: nat, doc: nat, score: real)

  /** Score descending, then shard, then document ascending. */
  predicate Better(a: CHit, b: CHit) {
    a.score > b.score
    || (a.score == b.score && (a.shard < b.shard || (a.shard == b.shard && a.doc < b.doc)))
  }

  lemma BetterTotal()
    ensures StrictTotal(Better)
  {
  }

  /** The routed shards in bound order, and what exhaustive scoring finds in each. */
  datatype Config = Config(shards: seq<nat>, bounds: seq<real>, hits: seq<set<CHit>>, k: nat, workers: nat,
                           noSeed: bool)

  ghost predicate Routed(c: Config) {
    && |c.shards| == |c.bounds| == |c.hits| && c.k > 0
    && (forall i, j :: 0 <= i < j < |c.bounds| ==> c.bounds[i] >= c.bounds[j] && c.shards[i] != c.shards[j])
    && (forall i, h :: 0 <= i < |c.hits| && h in c.hits[i] ==>
          h.shard == c.shards[i] && 0.0 < h.score <= c.bounds[i])
  }

  ghost function AllHits(c: Config): set<CHit> {
    set i, h | 0 <= i < |c.hits| && h in c.hits[i] :: h
  }

  /** A seeded search of shard `i` may return any list that is exact down to the seed. */
  ghost predicate SearchAnswer(c: Config, i: nat, seed: real, out: seq<CHit>)
    requires i < |c.hits|
  {
    && Ranked(Better, out) && Elements(out) <= c.hits[i] && |out| <= c.k
    && forall h :: h in c.hits[i] && h.score >= seed ==> (h in out <==> h in Top(Better, c.hits[i], c.k))
  }

  // ---- state

  datatype Worker =
    | CheckStopped | CheckFailed | Claim
    | ReadFull(i: nat) | ReadKth(i: nat) | Stopping(i: nat)
    | Acquire(i: nat, seed: real) | Search(i: nat, seed: real)
    | Filter(i: nat, rest: seq<CHit>, batch: seq<CHit>) | FilterKth(i: nat, rest: seq<CHit>, batch: seq<CHit>)
    | Lock(i: nat, batch: seq<CHit>) | Fold(i: nat, batch: seq<CHit>) | PublishKth | PublishFull | Unlock
    | LockErr(i: nat) | SetErr(i: nat) | UnlockErr | SetFailed
    | Exited

  datatype Shared = Shared(cands: seq<CHit>, heap: multiset<real>, next: nat, kth: real, full: bool, stopped: bool,
                           failed: bool, err: bool, lock: int)

  datatype Phase = Warming | Pooling | Aborted

  datatype State = State(phase: Phase, sh: Shared, ws: seq<Worker>)

  /** What the environment decides: how an open ends, and what a search returns. */
  datatype Choice = Go | Fail | Answer(out: seq<CHit>)

  datatype Act = Main(choice: Choice) | Step(w: nat, choice: Choice)

  const FREE := -1

  ghost function Init(): State {
    State(Warming, Shared([], multiset{}, 0, 0.0, false, false, false, false, FREE), [])
  }

  // ---- the shared heap

  ghost function Lowest(m: multiset<real>): (r: real)
    requires |m| > 0
    ensures r in m && forall a :: a in m ==> r <= a
  {
    LowestExists(m);
    var r :| r in m && forall a :: a in m ==> r <= a;
    r
  }

  lemma NoneIn(m: multiset<real>)
    ensures (forall x :: x !in m) ==> m == multiset{}
  {
    if forall x :: x !in m {
      assert m == multiset{};
    }
  }

  lemma {:induction false} LowestExists(m: multiset<real>)
    requires |m| > 0
    ensures exists r :: r in m && forall a :: a in m ==> r <= a
    decreases |m|
  {
    NoneIn(m);
    var x :| x in m;
    var rest := m - multiset{x};
    assert m == rest + multiset{x};
    if |rest| > 0 {
      LowestExists(rest);
      var r :| r in rest && forall a :: a in rest ==> r <= a;
      var least := if r <= x then r else x;
      assert least in m && forall a :: a in m ==> least <= a;
    }
  }

  ghost function PushScore(heap: multiset<real>, v: real, k: nat): multiset<real> {
    if k == 0 then heap
    else if |heap| < k then heap + multiset{v}
    else if v <= Lowest(heap) then heap
    else heap - multiset{Lowest(heap)} + multiset{v}
  }

  ghost function PushAll(heap: multiset<real>, batch: seq<CHit>, k: nat): multiset<real>
    decreases |batch|
  {
    if batch == [] then heap
    else PushScore(PushAll(heap, batch[..|batch| - 1], k), batch[|batch| - 1].score, k)
  }

  ghost function Scores(cands: seq<CHit>): multiset<real>
    decreases |cands|
  {
    if cands == [] then multiset{}
    else Scores(cands[..|cands| - 1]) + multiset{cands[|cands| - 1].score}
  }

  // ---- steps

  ghost function Owner(wk: Worker): int {
    match wk
    case ReadFull(i) => i
    case ReadKth(i) => i
    case Stopping(i) => i
    case Acquire(i, _) => i
    case Search(i, _) => i
    case Filter(i, _, _) => i
    case FilterKth(i, _, _) => i
    case Lock(i, _) => i
    case Fold(i, _) => i
    case LockErr(i) => i
    case SetErr(i) => i
    case _ => -1
  }

  predicate Holding(wk: Worker) {
    wk.Fold? || wk.PublishKth? || wk.PublishFull? || wk.Unlock? || wk.SetErr? || wk.UnlockErr?
  }

  ghost predicate CanStep(c: Config, sh: Shared, wk: Worker, ch: Choice) {
    match wk
    case Exited => false
    case Acquire(_, _) => ch.Go? || ch.Fail?
    case Search(i, seed) => ch.Answer? && i < |c.hits| && SearchAnswer(c, i, seed, ch.out)
    case Lock(_, _) => ch.Go? && sh.lock == FREE
    case LockErr(_) => ch.Go? && sh.lock == FREE
    case _ => ch.Go?
  }

  ghost predicate Indexed(c: Config, sh: Shared, wk: Worker) {
    && |c.bounds| == |c.hits| && c.k > 0 && Owner(wk) < |c.bounds|
    && (wk.PublishKth? ==> |sh.heap| > 0)
    && (wk.FilterKth? ==> wk.rest != [])
  }

  /** After the last hit of a shard: fold the survivors, if any. */
  ghost function Filtered(i: nat, rest: seq<CHit>, batch: seq<CHit>): Worker {
    if rest != [] then Filter(i, rest, batch) else if batch != [] then Lock(i, batch) else CheckStopped
  }

  ghost function NextWorker(c: Config, sh: Shared, wk: Worker, ch: Choice): Worker
    requires Indexed(c, sh, wk) && CanStep(c, sh, wk, ch)
  {
    match wk
    case CheckStopped => if sh.stopped then Exited else CheckFailed
    case CheckFailed => if sh.failed then Exited else Claim
    case Claim => if sh.next >= |c.bounds| then Exited else ReadFull(sh.next)
    case ReadFull(i) => if sh.full then ReadKth(i) else Acquire(i, 0.0)
    case ReadKth(i) =>
      if c.bounds[i] < sh.kth then Stopping(i) else Acquire(i, if c.noSeed then 0.0 else sh.kth)
    case Stopping(_) => Exited
    case Acquire(i, seed) => if ch.Fail? then LockErr(i) else Search(i, seed)
    case Search(i, _) => Filtered(i, ch.out, [])
    case Filter(i, rest, batch) =>
      if rest == [] then Filtered(i, rest, batch)
      else if sh.full then FilterKth(i, rest, batch)
      else Filtered(i, rest[1..], batch + [rest[0]])
    case FilterKth(i, rest, batch) =>
      Filtered(i, rest[1..], if rest[0].score < sh.kth then batch else batch + [rest[0]])
    case Lock(i, batch) => Fold(i, batch)
    case Fold(_, batch) => if |PushAll(sh.heap, batch, c.k)| >= c.k then PublishKth else Unlock
    case PublishKth => PublishFull
    case PublishFull => Unlock
    case Unlock => CheckStopped
    case LockErr(i) => SetErr(i)
    case SetErr(_) => UnlockErr
    case UnlockErr => SetFailed
    case SetFailed => Exited
  }

  ghost function NextShared(c: Config, sh: Shared, w: nat, wk: Worker): Shared
    requires Indexed(c, sh, wk)
  {
    match wk
    case Claim => sh.(next := sh.next + 1)
    case Stopping(_) => sh.(stopped := true)
    case Lock(_, _) => sh.(lock := w)
    case Fold(_, batch) => sh.(cands := sh.cands + batch, heap := PushAll(sh.heap, batch, c.k))
    case PublishKth => sh.(kth := Lowest(sh.heap))
    case PublishFull => sh.(full := true)
    case Unlock => sh.(lock := FREE)
    case LockErr(_) => sh.(lock := w)
    case SetErr(_) => sh.(err := true)
    case UnlockErr => sh.(lock := FREE)
    case SetFailed => sh.(failed := true)
    case _ => sh
  }

  function Min(a: int, b: int): int {
    if a <= b then a else b
  }

  /** The serial prefix, then the publish and the decision whether to fan out at all. */
  ghost function NextMain(c: Config, s: State, ch: Choice): State
    requires |c.bounds| == |c.hits| && c.k > 0
  {
    var sh := s.sh;
    if sh.next < |c.bounds| && |sh.heap| < c.k then
      if ch.Answer? then
        s.(sh := sh.(cands := sh.cands + ch.out, heap := PushAll(sh.heap, ch.out, c.k), next := sh.next + 1))
      else s.(phase := Aborted)
    else
      var full := |sh.heap| >= c.k;
      var sh' := if full then sh.(kth := Lowest(sh.heap), full := true) else sh;
      var fanout := sh.next < |c.bounds| && !(full && c.bounds[sh.next] < Lowest(sh.heap));
      var n := if fanout then Min(if c.workers < 1 then 1 else c.workers, |c.bounds| - sh.next) else 0;
      State(Pooling, sh', seq(n, _ => CheckStopped))
  }

  ghost predicate Enabled(c: Config, s: State, a: Act) {
    match a
    case Main(ch) =>
      && s.phase == Warming && |c.bounds| == |c.hits| && c.k > 0
      && (if s.sh.next < |c.bounds| && |s.sh.heap| < c.k
          then ch.Fail? || (ch.Answer? && SearchAnswer(c, s.sh.next, 0.0, ch.out))
          else ch.Go?)
    case Step(w, ch) =>
      && s.phase == Pooling && w < |s.ws|
      && Indexed(c, s.sh, s.ws[w]) && CanStep(c, s.sh, s.ws[w], ch)
  }

  ghost function Next(c: Config, s: State, a: Act): State
    requires Enabled(c, s, a)
  {
    match a
    case Main(ch) => NextMain(c, s, ch)
    case Step(w, ch) =>
      s.(sh := NextShared(c, s.sh, w, s.ws[w]), ws := s.ws[w := NextWorker(c, s.sh, s.ws[w], ch)])
  }

  ghost predicate Terminal(s: State) {
    s.phase == Aborted || (s.phase == Pooling && forall w :: 0 <= w < |s.ws| ==> s.ws[w].Exited?)
  }

  function SortHits(cands: seq<CHit>): seq<CHit> {
    if cands == [] then [] else Insert(Better, SortHits(cands[1..]), cands[0])
  }

  datatype Outcome = Hits(hits: seq<CHit>) | OpenError

  /** What the query returns once every worker has exited. */
  function Returned(c: Config, s: State): Outcome {
    if s.phase == Aborted || s.sh.err then OpenError
    else
      var sorted := SortHits(s.sh.cands);
      Hits(if |sorted| > c.k then sorted[..c.k] else sorted)
  }

  /** Any interleaving, any search answers, any open failures. */
  ghost predicate Run(c: Config, trace: seq<State>, acts: seq<Act>) {
    && |trace| == |acts| + 1 && trace[0] == Init()
    && forall i :: 0 <= i < |acts| ==> Enabled(c, trace[i], acts[i]) && trace[i + 1] == Next(c, trace[i], acts[i])
  }
}
