/** That the fan-out prunes as it says (cluster.go): the published word mirrors the heap whenever the
    mutex is free, and a shard is opened only past a check of its bound against that word. */
module BrokerPruning {
  import opened Broker
  import opened BrokerSafety
  import opened BrokerExact

  /** The k-th best score is published. */
  ghost predicate Mirrors(c: Config, sh: Shared) {
    |sh.heap| >= c.k && c.k > 0 ==> sh.full && sh.kth == Lowest(sh.heap)
  }

  /** It is, except between a fold and the end of its publish. */
  ghost predicate MirrorsBut(c: Config, s: State) {
    s.phase == Pooling ==>
      if 0 <= s.sh.lock < |s.ws| && s.ws[s.sh.lock].PublishKth? then true
      else if 0 <= s.sh.lock < |s.ws| && s.ws[s.sh.lock].PublishFull? then
        c.k > 0 && |s.sh.heap| > 0 ==> s.sh.kth == Lowest(s.sh.heap)
      else Mirrors(c, s.sh)
  }

  /** A worker without the mutex changes none of it. */
  lemma OtherMirrors(c: Config, s: State, w: nat, ch: Choice)
    requires LockOk(s) && MirrorsBut(c, s) && Enabled(c, s, Step(w, ch)) && s.sh.lock != w
    ensures MirrorsBut(c, Next(c, s, Step(w, ch)))
  {
    hide SearchAnswer, PushAll, Lowest;
    assert !Holding(s.ws[w]);
  }

  lemma HolderMirrors(c: Config, s: State, w: nat, ch: Choice)
    requires LockOk(s) && MirrorsBut(c, s) && Enabled(c, s, Step(w, ch)) && s.sh.lock == w
    ensures MirrorsBut(c, Next(c, s, Step(w, ch)))
  {
    hide SearchAnswer, PushAll, Lowest;
    assert Holding(s.ws[w]);
  }

  lemma WorkerMirrors(c: Config, s: State, w: nat, ch: Choice)
    requires Inv(c, s) && MirrorsBut(c, s) && Enabled(c, s, Step(w, ch))
    ensures MirrorsBut(c, Next(c, s, Step(w, ch)))
  {
    assert LockOk(s);
    hide Inv, LockOk, MirrorsBut, Enabled, Next;
    if s.sh.lock == w {
      HolderMirrors(c, s, w, ch);
    } else {
      OtherMirrors(c, s, w, ch);
    }
  }

  lemma MainMirrors(c: Config, s: State, ch: Choice)
    requires Routed(c) && Inv(c, s) && MirrorsBut(c, s) && Enabled(c, s, Main(ch))
    ensures MirrorsBut(c, Next(c, s, Main(ch)))
  {
    hide Routed, Accounted, Owned, SearchAnswer, PushAll, Lowest;
  }

  lemma {:induction false} RunMirrorsBut(c: Config, trace: seq<State>, acts: seq<Act>, n: nat)
    requires Routed(c) && Run(c, trace, acts) && n < |trace|
    ensures MirrorsBut(c, trace[n])
  {
    if n > 0 {
      RunMirrorsBut(c, trace, acts, n - 1);
      RunKeeps(c, trace, acts, 0, n - 1);
      hide Inv, MirrorsBut, Routed, Next, Enabled;
      match acts[n - 1]
      case Main(ch) => MainMirrors(c, trace[n - 1], ch);
      case Step(w, ch) => WorkerMirrors(c, trace[n - 1], w, ch);
    }
  }

  /** Main result: in every state of every run in which the pool is at work and no worker holds the
      mutex, the published word is the k-th best score found, as soon as there are k. */
  lemma PublishedMirrors(c: Config, trace: seq<State>, acts: seq<Act>, n: nat)
    requires Routed(c) && Run(c, trace, acts) && n < |trace|
    ensures trace[n].phase == Pooling && trace[n].sh.lock == FREE && |trace[n].sh.heap| >= c.k ==>
      trace[n].sh.full && trace[n].sh.kth == Lowest(trace[n].sh.heap)
  {
    RunMirrorsBut(c, trace, acts, n);
    RoutedK(c);
  }

  lemma RoutedK(c: Config)
    requires Routed(c)
    ensures c.k > 0
  {
  }

  /** The worker that goes on to open a shard in step `n`. */
  ghost predicate Opens(c: Config, trace: seq<State>, acts: seq<Act>, n: nat, i: nat, seed: real)
    requires n < |acts| && n + 1 < |trace|
  {
    && acts[n].Step? && acts[n].w < |trace[n].ws| && acts[n].w < |trace[n + 1].ws|
    && !trace[n].ws[acts[n].w].Acquire? && trace[n + 1].ws[acts[n].w] == Acquire(i, seed)
  }

  /** It does so only if nothing was published when it looked, and then without a seed, or if the shard's
      bound reaches what was, and then, unless seeding is off, with that as its seed. */
  lemma OpensPastCheck(c: Config, trace: seq<State>, acts: seq<Act>, n: nat, i: nat, seed: real)
    requires Routed(c) && Run(c, trace, acts) && n < |acts| && Opens(c, trace, acts, n, i, seed)
    ensures i < |c.bounds|
    ensures var sh := trace[n].sh;
      || (!sh.full && seed == 0.0)
      || (sh.full && c.bounds[i] >= sh.kth && seed == if c.noSeed then 0.0 else sh.kth)
  {
    RunKeeps(c, trace, acts, 0, n);
    OpensStep(c, trace[n], acts[n].w, acts[n].choice, i, seed);
  }

  lemma OpensStep(c: Config, s: State, w: nat, ch: Choice, i: nat, seed: real)
    requires Inv(c, s) && Enabled(c, s, Step(w, ch)) && !s.ws[w].Acquire?
    requires Next(c, s, Step(w, ch)).ws[w] == Acquire(i, seed)
    ensures i < |c.bounds|
    ensures (!s.sh.full && seed == 0.0)
      || (s.sh.full && c.bounds[i] >= s.sh.kth && seed == if c.noSeed then 0.0 else s.sh.kth)
  {
    hide SharedOk, Accounted, Owned, LockOk, PhaseOk, SearchAnswer, PushAll, Lowest;
    assert WorkerOk(c, s.sh, s.ws[w]);
  }

  /** Once the stop flag is up no further shard is claimed by a worker that looks at it. */
  lemma StopsClaims(c: Config, s: State, w: nat, ch: Choice)
    requires Enabled(c, s, Step(w, ch)) && s.ws[w].CheckStopped? && s.sh.stopped
    ensures Next(c, s, Step(w, ch)).ws[w].Exited? && Next(c, s, Step(w, ch)).sh.next == s.sh.next
  {
  }

  /** As many as are allowed, one at least, but no more than there is work for. */
  predicate PoolSize(n: nat, allowed: int, work: int) {
    1 <= n <= work && (n == work || n == allowed || (n == 1 && allowed < 1)) && (n == 1 || n <= allowed)
  }

  /** The serial walk goes on until k scores are held or no shard is left. The pool then starts unless no
      shard is left or the next bound is already below the k-th, with as many workers as are allowed, one
      at least, but no more than there are shards left. */
  lemma PoolStarts(c: Config, s: State, ch: Choice)
    requires Enabled(c, s, Main(ch)) && Next(c, s, Main(ch)).phase == Pooling
    ensures s.sh.next >= |c.bounds| || |s.sh.heap| >= c.k
    ensures var n := |Next(c, s, Main(ch)).ws|;
      if s.sh.next >= |c.bounds| || c.bounds[s.sh.next] < Lowest(s.sh.heap) then n == 0
      else PoolSize(n, c.workers, |c.bounds| - s.sh.next)
  {
    hide Lowest;
  }

  /** An error on record has raised the flag that stops the others, or its worker is about to. */
  ghost predicate Told(s: State) {
    s.sh.err ==> s.sh.failed || exists w :: 0 <= w < |s.ws| && (s.ws[w].UnlockErr? || s.ws[w].SetFailed?)
  }

  lemma StepTells(c: Config, s: State, w: nat, ch: Choice)
    requires Told(s) && Enabled(c, s, Step(w, ch))
    ensures Told(Next(c, s, Step(w, ch))) && Next(c, s, Step(w, ch)).phase == Pooling
  {
    hide SearchAnswer, PushAll, Lowest;
    var s' := Next(c, s, Step(w, ch));
    if s.sh.err && !s.sh.failed {
      var v :| 0 <= v < |s.ws| && (s.ws[v].UnlockErr? || s.ws[v].SetFailed?);
      assert v != w ==> s'.ws[v] == s.ws[v];
    }
    assert s'.ws[w] == NextWorker(c, s.sh, s.ws[w], ch);
  }

  /** No error is on record before the pool is at work. */
  ghost predicate CalmWarmUp(s: State) {
    s.phase == Warming ==> !s.sh.err
  }

  lemma MainTells(c: Config, s: State, ch: Choice)
    requires CalmWarmUp(s) && Enabled(c, s, Main(ch))
    ensures Told(Next(c, s, Main(ch))) && CalmWarmUp(Next(c, s, Main(ch)))
  {
    hide SearchAnswer, PushAll, Lowest;
  }

  /** In every state of every run a failed open stops the pool: once its worker is through with it, the
      flag is up, and a worker that sees the flag claims nothing more. */
  lemma {:induction false} ErrorTells(c: Config, trace: seq<State>, acts: seq<Act>, n: nat)
    requires Run(c, trace, acts) && n < |trace|
    ensures Told(trace[n]) && CalmWarmUp(trace[n])
  {
    if n > 0 {
      ErrorTells(c, trace, acts, n - 1);
      hide Told, Next, Enabled;
      match acts[n - 1]
      case Main(ch) => MainTells(c, trace[n - 1], ch);
      case Step(w, ch) => StepTells(c, trace[n - 1], w, ch);
    }
  }

  lemma FailureStops(c: Config, s: State, w: nat, ch: Choice)
    requires Enabled(c, s, Step(w, ch)) && s.ws[w].CheckFailed? && s.sh.failed
    ensures Next(c, s, Step(w, ch)).ws[w].Exited? && Next(c, s, Step(w, ch)).sh.next == s.sh.next
  {
  }
}
