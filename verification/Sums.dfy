/** Sums of reals taken in different orders: over a whole list, and over a list of
    distinct positions in it. */
module Sums {

  ghost function Total(c: seq<real>): real {
    if c == [] then 0.0 else Total(c[..|c| - 1]) + c[|c| - 1]
  }

  ghost predicate Positions(at: seq<nat>, n: nat) {
    && (forall j :: 0 <= j < |at| ==> at[j] < n)
    && (forall i, j :: 0 <= i < j < |at| ==> at[i] != at[j])
  }

  ghost function SumAt(c: seq<real>, at: seq<nat>): real
    requires forall j :: 0 <= j < |at| ==> at[j] < |c|
  {
    if at == [] then 0.0 else SumAt(c, at[..|at| - 1]) + c[at[|at| - 1]]
  }

  ghost predicate NonNegative(c: seq<real>) {
    forall i :: 0 <= i < |c| ==> c[i] >= 0.0
  }

  ghost function Without(at: seq<nat>, j: nat): seq<nat>
    requires j < |at|
  {
    at[..j] + at[j + 1..]
  }

  lemma WithoutPositions(at: seq<nat>, n: nat, j: nat)
    requires Positions(at, n) && j < |at|
    ensures Positions(Without(at, j), n)
  {
    var rest := Without(at, j);
    assert forall i :: 0 <= i < |rest| ==> rest[i] == at[if i < j then i else i + 1];
  }

  lemma WithoutLast(at: seq<nat>, j: nat)
    requires j < |at| - 1
    ensures Without(at, j) == Without(at[..|at| - 1], j) + [at[|at| - 1]]
  {
  }

  lemma SumAtSnoc(c: seq<real>, at: seq<nat>, x: nat)
    requires x < |c| && forall j :: 0 <= j < |at| ==> at[j] < |c|
    ensures SumAt(c, at + [x]) == SumAt(c, at) + c[x]
  {
    assert (at + [x])[..|at|] == at;
  }

  lemma {:induction false} SumAtDrop(c: seq<real>, at: seq<nat>, j: nat)
    requires Positions(at, |c|) && j < |at|
    ensures Positions(Without(at, j), |c|)
    ensures SumAt(c, at) == SumAt(c, Without(at, j)) + c[at[j]]
    decreases |at|
  {
    var n := |at| - 1;
    WithoutPositions(at, |c|, j);
    SumAtSnoc(c, at[..n], at[n]);
    assert at == at[..n] + [at[n]];
    if j == n {
      assert Without(at, j) == at[..n];
    } else {
      hide SumAt, Without;
      SumAtDrop(c, at[..n], j);
      WithoutLast(at, j);
      SumAtSnoc(c, Without(at[..n], j), at[n]);
    }
  }

  lemma {:induction false} SumAtShorter(c: seq<real>, at: seq<nat>)
    requires c != [] && forall j :: 0 <= j < |at| ==> at[j] < |c| - 1
    ensures SumAt(c, at) == SumAt(c[..|c| - 1], at)
  {
    if at != [] {
      SumAtShorter(c, at[..|at| - 1]);
    }
  }

  /** Positions that cover every nonzero entry give the whole sum, in any order. */
  lemma {:induction false} SumAtAll(c: seq<real>, at: seq<nat>)
    requires Positions(at, |c|)
    requires forall i :: 0 <= i < |c| && i !in at ==> c[i] == 0.0
    ensures SumAt(c, at) == Total(c)
    decreases |c|
  {
    if c == [] {
      assert at == [];
    } else {
      hide SumAt, Without;
      var n := |c| - 1;
      if n in at {
        var j :| 0 <= j < |at| && at[j] == n;
        var rest := Without(at, j);
        SumAtDrop(c, at, j);
        Covered(c, at, j);
        SumAtShorter(c, rest);
        SumAtAll(c[..n], rest);
      } else {
        SumAtShorter(c, at);
        SumAtAll(c[..n], at);
      }
    }
  }

  lemma Covered(c: seq<real>, at: seq<nat>, j: nat)
    requires c != [] && Positions(at, |c|) && j < |at| && at[j] == |c| - 1
    requires forall i :: 0 <= i < |c| && i !in at ==> c[i] == 0.0
    ensures var rest := Without(at, j); var n := |c| - 1;
      && Positions(rest, n)
      && forall i :: 0 <= i < n && i !in rest ==> c[..n][i] == 0.0
  {
    var rest, n := Without(at, j), |c| - 1;
    forall i | 0 <= i < n && i in at ensures i in rest {
      var k :| 0 <= k < |at| && at[k] == i;
      assert rest[if k < j then k else k - 1] == i;
    }
    forall k | 0 <= k < |rest| ensures rest[k] < n {
      assert rest[k] == at[if k < j then k else k + 1];
      assert at[if k < j then k else k + 1] != at[j];
    }
  }

  lemma {:induction false} SumAtMono(c: seq<real>, d: seq<real>, at: seq<nat>)
    requires |c| == |d| && forall j :: 0 <= j < |at| ==> at[j] < |c| && c[at[j]] <= d[at[j]]
    ensures SumAt(c, at) <= SumAt(d, at)
  {
    if at != [] {
      SumAtMono(c, d, at[..|at| - 1]);
    }
  }

  lemma {:induction false} TotalMono(c: seq<real>, d: seq<real>)
    requires |c| == |d| && forall i :: 0 <= i < |c| ==> c[i] <= d[i]
    ensures Total(c) <= Total(d)
  {
    if c != [] {
      TotalMono(c[..|c| - 1], d[..|c| - 1]);
    }
  }

  lemma {:induction false} TotalZero(c: seq<real>)
    requires forall i :: 0 <= i < |c| ==> c[i] == 0.0
    ensures Total(c) == 0.0
  {
    if c != [] {
      TotalZero(c[..|c| - 1]);
    }
  }

  /** Some of the entries of a nonnegative list sum to no more than all of them. */
  lemma SumAtSome(c: seq<real>, at: seq<nat>)
    requires Positions(at, |c|) && NonNegative(c)
    ensures SumAt(c, at) <= Total(c)
  {
    var picked := seq(|c|, i requires 0 <= i < |c| => if i in at then c[i] else 0.0);
    SumAtMono(c, picked, at);
    SumAtAll(picked, at);
    TotalMono(picked, c);
  }
}
