/** The broker's bounded min-heap of scores (cluster.go): it holds the k largest scores
    pushed, with the smallest of them, the k-th best so far, at the root. */
module ScoreHeap {

  /** `held` is the `cap` largest of `pushed`, or all of it when there are fewer. */
  ghost predicate Largest(held: multiset<real>, pushed: multiset<real>, cap: nat) {
    && held <= pushed
    && |held| == (if |pushed| <= cap then |pushed| else cap)
    && forall a, b :: a in held && b in pushed - held ==> b <= a
  }

  lemma AllHeld(held: multiset<real>, pushed: multiset<real>)
    requires held <= pushed && |held| == |pushed|
    ensures held == pushed
  {
    assert pushed == held + (pushed - held);
    assert |pushed - held| == 0;
  }

  lemma Odd(a: multiset<real>, b: multiset<real>) returns (x: real)
    requires |a| == |b| && a != b
    ensures a[x] > b[x]
  {
    if forall x :: x in a ==> a[x] <= b[x] {
      assert a <= b;
      AllHeld(a, b);
    }
    x :| x in a && a[x] > b[x];
  }

  /** The definition leaves no choice: equal scores are interchangeable. */
  lemma LargestUnique(a: multiset<real>, b: multiset<real>, pushed: multiset<real>, cap: nat)
    requires Largest(a, pushed, cap) && Largest(b, pushed, cap)
    ensures a == b
  {
    hide Largest;
    Inside(a, pushed, cap);
    Inside(b, pushed, cap);
    if a != b {
      var x := Odd(a, b);
      var y := Odd(b, a);
      Bigger(b, pushed, cap, x, y);
      Bigger(a, pushed, cap, y, x);
    }
  }

  lemma Inside(held: multiset<real>, pushed: multiset<real>, cap: nat)
    requires Largest(held, pushed, cap)
    ensures |held| == if |pushed| <= cap then |pushed| else cap
    ensures forall x :: held[x] <= pushed[x]
  {
  }

  lemma Bigger(held: multiset<real>, pushed: multiset<real>, cap: nat, x: real, y: real)
    requires Largest(held, pushed, cap) && held[x] < pushed[x] && held[y] > 0
    ensures x <= y
  {
    assert x in pushed - held;
  }

  /** Once full, the k-th best never falls. */
  lemma LargestRises(held: multiset<real>, held': multiset<real>, pushed: multiset<real>, pushed': multiset<real>,
                     cap: nat, low: real, low': real)
    requires Largest(held, pushed, cap) && Largest(held', pushed', cap) && pushed <= pushed'
    requires |held| == cap && |held'| == cap && low in held && low' in held'
    requires forall a :: a in held ==> low <= a
    ensures low <= low'
  {
    if held != held' {
      var x := Odd(held, held');
      assert pushed'[x] >= pushed[x] >= held[x];
      assert x in pushed' - held';
    }
  }

  function Parent(i: nat): (p: nat)
    requires i > 0
    ensures p < i
  {
    (i - 1) / 2
  }

  ghost predicate Heaped(d: seq<real>) {
    forall i :: 0 < i < |d| ==> d[Parent(i)] <= d[i]
  }

  lemma {:induction false} RootLeast(d: seq<real>, i: nat)
    requires Heaped(d) && i < |d|
    ensures d[0] <= d[i]
    decreases i
  {
    if i > 0 {
      RootLeast(d, Parent(i));
    }
  }

  lemma RootFacts(d: seq<real>)
    requires Heaped(d) && d != []
    ensures d[0] in multiset(d) && forall a :: a in multiset(d) ==> d[0] <= a
    ensures forall a :: a in d ==> d[0] <= a
  {
    forall i | 0 <= i < |d| ensures d[0] <= d[i] { RootLeast(d, i); }
  }

  lemma AddLast(d: seq<real>, v: real)
    requires Heaped(d)
    ensures OpenAbove(d + [v], |d|) && multiset(d + [v]) == multiset(d) + multiset{v}
  {
  }

  /** A heap but for the link from `i` to its parent. */
  ghost predicate OpenAbove(d: seq<real>, i: nat) {
    && (forall j :: 0 < j < |d| && j != i ==> d[Parent(j)] <= d[j])
    && (forall j :: 0 < j < |d| && Parent(j) == i && i > 0 ==> d[Parent(i)] <= d[j])
  }

  /** A heap but for the links from `i` to its children. */
  ghost predicate OpenBelow(d: seq<real>, i: nat) {
    && (forall j :: 0 < j < |d| && Parent(j) != i ==> d[Parent(j)] <= d[j])
    && (forall j :: 0 < j < |d| && Parent(j) == i && i > 0 ==> d[Parent(i)] <= d[j])
  }

  function Swap(d: seq<real>, i: nat, j: nat): seq<real>
    requires i < |d| && j < |d|
  {
    d[i := d[j]][j := d[i]]
  }

  lemma SwapKeeps(d: seq<real>, i: nat, j: nat)
    requires i < |d| && j < |d|
    ensures multiset(Swap(d, i, j)) == multiset(d)
  {
  }

  /** Pushing onto a heap with room. */
  lemma GrowLargest(held: multiset<real>, pushed: multiset<real>, cap: nat, v: real)
    requires Largest(held, pushed, cap) && |held| < cap
    ensures Largest(held + multiset{v}, pushed + multiset{v}, cap)
  {
    AllHeld(held, pushed);
  }

  /** A score no larger than the root stays out. */
  lemma SkipLargest(held: multiset<real>, pushed: multiset<real>, cap: nat, v: real)
    requires Largest(held, pushed, cap) && |held| == cap && forall a :: a in held ==> v <= a
    ensures Largest(held, pushed + multiset{v}, cap)
  {
    assert |held| <= |pushed| by {
      assert pushed == held + (pushed - held);
    }
    forall a, b | a in held && b in pushed + multiset{v} - held ensures b <= a {
      if b != v {
        assert (pushed + multiset{v} - held)[b] == (pushed - held)[b];
      }
    }
  }

  /** A larger score takes the place of the smallest held. */
  lemma ReplaceLargest(held: multiset<real>, pushed: multiset<real>, cap: nat, v: real, low: real)
    requires Largest(held, pushed, cap) && |held| == cap && low in held && low < v
    requires forall a :: a in held ==> low <= a
    ensures Largest(held - multiset{low} + multiset{v}, pushed + multiset{v}, cap)
  {
    var held', pushed' := held - multiset{low} + multiset{v}, pushed + multiset{v};
    assert |held| <= |pushed| by {
      assert pushed == held + (pushed - held);
    }
    assert held' <= pushed';
    forall a, b | a in held' && b in pushed' - held' ensures b <= a {
      if b != low {
        assert b in pushed - held;
        assert b <= low;
      }
    }
  }

  class MinHeap {
    var data: seq<real>
    const cap: nat
    ghost var pushed: multiset<real>

    ghost predicate Valid()
      reads this
    {
      Heaped(data) && Largest(multiset(data), pushed, cap)
    }

    constructor (k: nat)
      ensures Valid() && pushed == multiset{} && cap == k
    {
      data, cap, pushed := [], k, multiset{};
    }

    predicate Full()
      reads this
    {
      |data| >= cap
    }

    /** The least score held; with the heap full, the k-th best pushed. */
    function Min(): (m: real)
      requires Valid() && |data| > 0
      reads this
      ensures m in data && forall a :: a in data ==> m <= a
    {
      RootFacts(data);
      data[0]
    }

    method Push(v: real)
      requires Valid()
      modifies this
      ensures Valid() && pushed == old(pushed) + multiset{v}
    {
      hide Largest, Heaped, OpenAbove, OpenBelow;
      CapFacts(multiset(data), pushed, cap);
      ghost var was := multiset(data);
      assert |was| == |data|;
      if cap == 0 {
        SkipLargest(was, pushed, cap, v);
        pushed := pushed + multiset{v};
        return;
      }
      if |data| < cap {
        GrowLargest(was, pushed, cap, v);
        AddLast(data, v);
        data := data + [v];
        Up(|data| - 1);
        pushed := pushed + multiset{v};
        return;
      }
      RootFacts(data);
      if v <= data[0] {
        SkipLargest(was, pushed, cap, v);
        pushed := pushed + multiset{v};
        return;
      }
      ReplaceLargest(was, pushed, cap, v, data[0]);
      RootGone(data, v);
      data := data[0 := v];
      Down(0);
      pushed := pushed + multiset{v};
    }

    method Up(start: nat)
      requires start < |data| && OpenAbove(data, start)
      modifies this`data
      ensures Heaped(data) && multiset(data) == multiset(old(data))
    {
      var i := start;
      while i > 0
        invariant 0 <= i < |data| && OpenAbove(data, i) && multiset(data) == multiset(old(data))
      {
        var p := Parent(i);
        if data[p] <= data[i] {
          break;
        }
        UpStep(data, i);
        SwapKeeps(data, p, i);
        data := Swap(data, p, i);
        i := p;
      }
    }

    method Down(start: nat)
      requires start < |data| && OpenBelow(data, start)
      modifies this`data
      ensures Heaped(data) && multiset(data) == multiset(old(data))
    {
      hide OpenBelow, Heaped, Swap;
      var i := start;
      while true
        invariant 0 <= i < |data| && OpenBelow(data, i) && multiset(data) == multiset(old(data))
        decreases |data| - i
      {
        var l, r, small := 2 * i + 1, 2 * i + 2, i;
        if l < |data| && data[l] < data[small] {
          small := l;
        }
        if r < |data| && data[r] < data[small] {
          small := r;
        }
        DownStep(data, i, small);
        if small == i {
          break;
        }
        SwapKeeps(data, small, i);
        data := Swap(data, small, i);
        i := small;
      }
    }
  }

  lemma UpStep(d: seq<real>, i: nat)
    requires 0 < i < |d| && OpenAbove(d, i) && d[i] < d[Parent(i)]
    ensures |Swap(d, Parent(i), i)| == |d| && OpenAbove(Swap(d, Parent(i), i), Parent(i))
  {
    var p, s := Parent(i), Swap(d, Parent(i), i);
    forall j | 0 < j < |s| && j != p
      ensures s[Parent(j)] <= s[j] && (Parent(j) == p && p > 0 ==> s[Parent(p)] <= s[j])
    {
      assert d[Parent(j)] <= d[j] || j == i;
    }
  }

  lemma Children(i: nat, j: nat)
    requires j > 0
    ensures Parent(j) == i <==> j == 2 * i + 1 || j == 2 * i + 2
  {
  }

  /** With the smallest of a node and its children on top, only that child's links are open. */
  lemma DownStep(d: seq<real>, i: nat, small: nat)
    requires i < |d| && OpenBelow(d, i) && small < |d|
    requires small == i || (small > 0 && Parent(small) == i && d[small] < d[i])
    requires forall j :: j == 2 * i + 1 || j == 2 * i + 2 ==> j < |d| ==> d[small] <= d[j]
    ensures small == i ==> Heaped(d)
    ensures small != i ==> small > i && |Swap(d, small, i)| == |d| && OpenBelow(Swap(d, small, i), small)
  {
    var s := Swap(d, small, i);
    forall j | 0 < j < |d|
      ensures small == i ==> d[Parent(j)] <= d[j]
      ensures small != i && Parent(j) != small ==> s[Parent(j)] <= s[j]
      ensures small != i && Parent(j) == small ==> s[i] <= s[j]
    {
      Children(i, j);
    }
  }

  lemma CapFacts(held: multiset<real>, pushed: multiset<real>, cap: nat)
    requires Largest(held, pushed, cap)
    ensures |held| <= cap
  {
  }

  lemma RootGone(d: seq<real>, v: real)
    requires Heaped(d) && d != []
    ensures OpenBelow(d[0 := v], 0)
    ensures multiset(d[0 := v]) == multiset(d) - multiset{d[0]} + multiset{v}
  {
  }
}
