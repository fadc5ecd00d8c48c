/** Progress of the fan-out: some step is always possible, no run goes on for ever, and an
    error is returned exactly when a shard failed to open. */
module BrokerProgress {
  import opened TopK
  import opened ScoreHeap
  import opened Broker
  import opened BrokerSafety
  import opened BrokerExact

  // ---- no deadlock

  lemma SomeAnswer(c: Config, i: nat, seed: real) returns (out: seq<CHit>)
    requires Routed(c) && i < |c.hits|
    ensures SearchAnswer(c, i, seed, out)
  {
    hide Better, Ranked;
    BetterTotal();
    out := ListTop(Better, c.hits[i], c.k);
    forall h ensures h in out <==> h in Top(Better, c.hits[i], c.k) {
      assert h in out <==> h in Elements(out);
    }
  }

  /** A worker that is not waiting for the mutex can always step. */
  lemma WorkerCanStep(c: Config, s: State, w: nat) returns (ch: Choice)
    requires Routed(c) && Inv(c, s) && s.phase == Pooling && w < |s.ws| && !s.ws[w].Exited?
    requires (s.ws[w].Lock? || s.ws[w].LockErr?) ==> s.sh.lock == FREE
    ensures Enabled(c, s, Step(w, ch))
  {
    var wk := s.ws[w];
    assert WorkerOk(c, s.sh, wk);
    hide SearchAnswer, Survivors, SharedOk, Owned, Accounted, LockOk, PhaseOk, Closed;
    ch := Go;
    if wk.Search? {
      var out := SomeAnswer(c, wk.i, wk.seed);
      ch := Answer(out);
    }
  }

  lemma NoDeadlock(c: Config, s: State) returns (a: Act)
    requires Routed(c) && Inv(c, s) && !Terminal(s)
    ensures Enabled(c, s, a)
  {
    if s.phase == Warming {
      a := Main(Go);
      if s.sh.next < |c.bounds| && |s.sh.heap| < c.k {
        var out := SomeAnswer(c, s.sh.next, 0.0);
        a := Main(Answer(out));
      }
    } else {
      hide Routed, SharedOk, Owned, Accounted, WorkerOk;
      var w: nat :| w < |s.ws| && !s.ws[w].Exited?;
      if s.sh.lock != FREE {
        w := s.sh.lock;
      }
      var ch := WorkerCanStep(c, s, w);
      a := Step(w, ch);
    }
  }

  // ---- no endless run

  /** The steps a worker has left before it claims another shard. */
  function Rank(k: nat, wk: Worker): nat {
    match wk
    case Exited => 0
    case Claim => 1
    case CheckFailed => 2
    case CheckStopped => 3
    case Unlock => 4
    case PublishFull => 5
    case PublishKth => 6
    case Fold(_, _) => 7
    case Lock(_, _) => 8
    case Filter(_, rest, _) => 9 + 2 * |rest|
    case FilterKth(_, rest, _) => 8 + 2 * |rest|
    case Search(_, _) => 10 + 2 * k
    case Acquire(_, _) => 11 + 2 * k
    case ReadKth(_) => 12 + 2 * k
    case ReadFull(_) => 13 + 2 * k
    case Stopping(_) => 1
    case SetFailed => 1
    case UnlockErr => 2
    case SetErr(_) => 3
    case LockErr(_) => 4
  }

  function Ranks(k: nat, ws: seq<Worker>): nat
    decreases |ws|
  {
    if ws == [] then 0 else Ranks(k, ws[..|ws| - 1]) + Rank(k, ws[|ws| - 1])
  }

  lemma {:induction false} RanksUpdate(k: nat, ws: seq<Worker>, w: nat, wk: Worker)
    requires w < |ws|
    ensures Ranks(k, ws[w := wk]) == Ranks(k, ws) - Rank(k, ws[w]) + Rank(k, wk)
    decreases |ws|
  {
    hide Rank;
    var n := |ws| - 1;
    if w == n {
      assert ws[w := wk][..n] == ws[..n];
    } else {
      assert ws[w := wk][..n] == ws[..n][w := wk];
      RanksUpdate(k, ws[..n], w, wk);
    }
  }

  function PhaseRank(s: State): nat {
    if s.phase == Warming then 1 else 0
  }

  function Unclaimed(c: Config, s: State): nat {
    if s.sh.next < |c.bounds| then |c.bounds| - s.sh.next else 0
  }

  function Work(c: Config, s: State): nat {
    if s.phase == Pooling then Ranks(c.k, s.ws) else 0
  }

  ghost predicate Lesser(c: Config, t: State, s: State) {
    PhaseRank(t) < PhaseRank(s)
    || (PhaseRank(t) == PhaseRank(s)
        && (Unclaimed(c, t) < Unclaimed(c, s) || (Unclaimed(c, t) == Unclaimed(c, s) && Work(c, t) < Work(c, s))))
  }

  lemma RankDrops(c: Config, sh: Shared, wk: Worker, ch: Choice)
    requires Routed(c) && WorkerOk(c, sh, wk) && Indexed(c, sh, wk) && CanStep(c, sh, wk, ch)
    ensures var wk' := NextWorker(c, sh, wk, ch);
      Rank(c.k, wk') < Rank(c.k, wk) || (wk.Claim? && sh.next < |c.bounds|)
  {
    hide Survivors, Closed, PushAll, Ranked, Better;
  }

  /** Every step moves down a well-founded order. */
  lemma StepLesser(c: Config, s: State, a: Act)
    requires Routed(c) && Inv(c, s) && Enabled(c, s, a)
    ensures Lesser(c, Next(c, s, a), s)
  {
    match a
    case Main(ch) =>
      hide Inv, Routed, PushAll, Lowest, SearchAnswer;
    case Step(w, ch) =>
      assert WorkerOk(c, s.sh, s.ws[w]);
      hide Inv, Routed, WorkerOk, SearchAnswer, Rank, PushAll, Lowest, CanStep, NextWorker;
      RankDrops(c, s.sh, s.ws[w], ch);
      OwnerSteps(c, s.sh, w, s.ws[w], ch);
      RanksUpdate(c.k, s.ws, w, NextWorker(c, s.sh, s.ws[w], ch));
  }

  // ---- errors

  ghost predicate Failing(wk: Worker) {
    wk.LockErr? || wk.SetErr?
  }

  ghost predicate Failed(s: State) {
    s.phase == Aborted || s.sh.err || exists w :: 0 <= w < |s.ws| && Failing(s.ws[w])
  }

  ghost predicate OpenFailed(a: Act) {
    a.choice.Fail?
  }

  lemma FailedSteps(c: Config, s: State, a: Act)
    requires Enabled(c, s, a) && (s.phase == Warming ==> s.ws == [])
    ensures Failed(Next(c, s, a)) <==> Failed(s) || OpenFailed(a)
  {
    hide PushAll, Lowest, SearchAnswer;
    var s' := Next(c, s, a);
    if a.Step? {
      var w := a.w;
      assert forall v :: 0 <= v < |s.ws| && v != w ==> s'.ws[v] == s.ws[v];
      assert s'.ws[w] == NextWorker(c, s.sh, s.ws[w], a.choice);
      if Failing(s.ws[w]) {
        assert s'.sh.err || Failing(s'.ws[w]);
      }
    }
  }

  /** Follows a schedule of any kind from step `i` to the end. */
  lemma {:induction false} Follow(c: Config, f: nat -> State, g: nat -> Act, i: nat) returns (n: nat)
    requires Routed(c) && Inv(c, f(i))
    requires forall j :: j >= i && !Terminal(f(j)) ==> Enabled(c, f(j), g(j)) && f(j + 1) == Next(c, f(j), g(j))
    ensures n >= i && Terminal(f(n)) && Inv(c, f(n))
    ensures forall j :: i <= j < n ==> !Terminal(f(j))
    ensures Failed(f(n)) <==> Failed(f(i)) || exists j :: i <= j < n && OpenFailed(g(j))
    decreases PhaseRank(f(i)), Unclaimed(c, f(i)), Work(c, f(i))
  {
    hide Inv, Routed, Terminal, Enabled, Next, Failed, OpenFailed, Work, Unclaimed, PhaseRank;
    if Terminal(f(i)) {
      n := i;
    } else {
      Steps(c, f(i), g(i));
      StepLesser(c, f(i), g(i));
      WarmNone(c, f(i));
      FailedSteps(c, f(i), g(i));
      n := Follow(c, f, g, i + 1);
    }
  }

  lemma WarmNone(c: Config, s: State)
    requires Inv(c, s)
    ensures s.phase == Warming ==> s.ws == []
  {
  }

  /** Main result: every schedule, fair or not, ends; unless some shard failed to open it
      ends with the exact top-k, and if one did, with the error. */
  lemma EveryScheduleReturns(c: Config, f: nat -> State, g: nat -> Act) returns (n: nat)
    requires Routed(c) && f(0) == Init()
    requires forall i: nat :: !Terminal(f(i)) ==> Enabled(c, f(i), g(i)) && f(i + 1) == Next(c, f(i), g(i))
    ensures Terminal(f(n)) && forall j :: 0 <= j < n ==> !Terminal(f(j))
    ensures Returned(c, f(n)).OpenError? <==> exists i :: 0 <= i < n && OpenFailed(g(i))
    ensures Returned(c, f(n)).Hits? ==> IsTop(Better, Returned(c, f(n)).hits, AllHits(c), c.k)
    ensures Returned(c, f(n)).Hits? ==> FirstK(Returned(c, f(n)).hits, AllHits(c), c.k)
  {
    hide Inv, Routed, Enabled, Next, OpenFailed, IsTop, FirstK;
    InitInv(c);
    n := Follow(c, f, g, 0);
    if Returned(c, f(n)).Hits? {
      ExactState(c, f(n));
      TopIsFirst(Returned(c, f(n)).hits, AllHits(c), c.k);
    }
  }
}
