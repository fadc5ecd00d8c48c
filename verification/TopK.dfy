/** The exact top-k of a finite set under a strict total order: the elements that fewer
    than k others beat. Every ranked answer in the repository is an instance. */
module TopK {

  ghost predicate StrictTotal<T(!new)>(beats: (T, T) -> bool) {
    && (forall a :: !beats(a, a))
    && (forall a, b, c :: beats(a, b) && beats(b, c) ==> beats(a, c))
    && (forall a, b :: a != b ==> beats(a, b) || beats(b, a))
  }

  ghost function Beaters<T(!new)>(beats: (T, T) -> bool, s: set<T>, x: T): set<T> {
    set y | y in s && beats(y, x)
  }

  ghost predicate InTop<T(!new)>(beats: (T, T) -> bool, s: set<T>, k: nat, x: T) {
    x in s && |Beaters(beats, s, x)| < k
  }

  ghost function Top<T(!new)>(beats: (T, T) -> bool, s: set<T>, k: nat): set<T> {
    set x | x in s && InTop(beats, s, k, x)
  }

  /** Listed best first, without repetition. */
  ghost predicate Ranked<T(!new)>(beats: (T, T) -> bool, out: seq<T>) {
    forall i, j :: 0 <= i < j < |out| ==> beats(out[i], out[j])
  }

  ghost function Elements<T(!new)>(out: seq<T>): set<T> {
    set x | x in out
  }

  /** `out` is the exact top-k of `s`, best first. */
  ghost predicate IsTop<T(!new)>(beats: (T, T) -> bool, out: seq<T>, s: set<T>, k: nat) {
    Ranked(beats, out) && Elements(out) == Top(beats, s, k)
  }

  lemma SubsetSize<T>(a: set<T>, b: set<T>)
    requires a <= b
    ensures |a| <= |b|
  {
    assert |b - a| == |b| - |a|;
  }

  lemma BeatersMono<T(!new)>(beats: (T, T) -> bool, s: set<T>, s': set<T>, x: T)
    requires s <= s'
    ensures Beaters(beats, s, x) <= Beaters(beats, s', x)
    ensures |Beaters(beats, s, x)| <= |Beaters(beats, s', x)|
  {
    SubsetSize(Beaters(beats, s, x), Beaters(beats, s', x));
  }

  /** A nonempty finite set has an element nothing in it beats. */
  lemma {:induction false} Best<T(!new)>(beats: (T, T) -> bool, s: set<T>) returns (m: T)
    requires StrictTotal(beats) && s != {}
    ensures m in s && forall y :: y in s ==> !beats(y, m)
    decreases |s|
  {
    var x :| x in s;
    if s == {x} {
      m := x;
    } else {
      var rest := s - {x};
      m := Best(beats, rest);
      if beats(x, m) {
        m := x;
      }
    }
  }

  /** Dropping elements that `k` others beat leaves the top-k unchanged. */
  lemma Prune<T(!new)>(beats: (T, T) -> bool, s: set<T>, kept: set<T>, k: nat)
    requires StrictTotal(beats) && kept <= s
    requires forall x :: x in s - kept ==> |Beaters(beats, s, x)| >= k
    ensures Top(beats, kept, k) == Top(beats, s, k)
  {
    hide StrictTotal;
    forall x | x in s
      ensures InTop(beats, kept, k, x) <==> InTop(beats, s, k, x)
    {
      BeatersMono(beats, kept, s, x);
      if InTop(beats, kept, k, x) && !InTop(beats, s, k, x) {
        PruneOne(beats, s, kept, k, x);
      }
    }
  }

  lemma PruneOne<T(!new)>(beats: (T, T) -> bool, s: set<T>, kept: set<T>, k: nat, x: T)
    requires StrictTotal(beats) && kept <= s && x in kept
    requires forall y :: y in s - kept ==> |Beaters(beats, s, y)| >= k
    requires |Beaters(beats, s, x)| >= k
    ensures |Beaters(beats, kept, x)| >= k
  {
    var lost := Beaters(beats, s, x) - kept;
    if lost == {} {
      forall y ensures y in Beaters(beats, s, x) <==> y in Beaters(beats, kept, x) {
        assert y !in lost;
      }
      assert Beaters(beats, s, x) == Beaters(beats, kept, x);
    } else {
      var d := Best(beats, lost);
      assert Beaters(beats, s, d) <= Beaters(beats, kept, x) by {
        forall y | y in Beaters(beats, s, d) ensures y in Beaters(beats, kept, x) {
          assert beats(y, x);
        }
      }
      SubsetSize(Beaters(beats, s, d), Beaters(beats, kept, x));
    }
  }

  /** The definition means what it should: everything in the top beats everything outside. */
  lemma TopBeatsRest<T(!new)>(beats: (T, T) -> bool, s: set<T>, k: nat, x: T, y: T)
    requires StrictTotal(beats) && x in Top(beats, s, k) && y in s - Top(beats, s, k)
    ensures beats(x, y)
  {
    if beats(y, x) {
      assert Beaters(beats, s, y) <= Beaters(beats, s, x);
      SubsetSize(Beaters(beats, s, y), Beaters(beats, s, x));
    }
  }

  /** ... and it has k elements, or all of them when there are fewer. */
  lemma {:induction false} TopSize<T(!new)>(beats: (T, T) -> bool, s: set<T>, k: nat)
    requires StrictTotal(beats)
    ensures |Top(beats, s, k)| == if |s| <= k then |s| else k
    decreases |s|
  {
    hide StrictTotal, Top;
    if s == {} {
      TopOfNone(beats, s, k);
    } else {
      var m := Best(beats, s);
      var rest := s - {m};
      WithoutBest(beats, s, m, k);
      if k > 0 {
        TopSize(beats, rest, k - 1);
        AddOne(Top(beats, rest, k - 1), m);
      }
      AddOne(rest, m);
      assert rest + {m} == s;
    }
  }

  lemma TopOfNone<T(!new)>(beats: (T, T) -> bool, s: set<T>, k: nat)
    requires s == {}
    ensures Top(beats, s, k) == {}
  {
  }

  lemma AddOne<T>(s: set<T>, x: T)
    requires x !in s
    ensures |s + {x}| == |s| + 1
  {
  }

  lemma WithoutBest<T(!new)>(beats: (T, T) -> bool, s: set<T>, m: T, k: nat)
    requires StrictTotal(beats) && m in s && forall y :: y in s ==> !beats(y, m)
    ensures k == 0 ==> Top(beats, s, k) == {}
    ensures k > 0 ==> Top(beats, s, k) == Top(beats, s - {m}, k - 1) + {m}
    ensures k > 0 ==> m !in Top(beats, s - {m}, k - 1)
  {
    var rest := s - {m};
    assert Beaters(beats, s, m) == {};
    if k > 0 {
      forall x | x in rest ensures InTop(beats, s, k, x) <==> InTop(beats, rest, k - 1, x) {
        assert beats(m, x);
        assert Beaters(beats, s, x) == Beaters(beats, rest, x) + {m};
      }
    }
  }

  /** A ranked list is determined by its elements, so an exact answer is unique. */
  lemma {:induction false} RankedUnique<T(!new)>(beats: (T, T) -> bool, a: seq<T>, b: seq<T>)
    requires StrictTotal(beats) && Ranked(beats, a) && Ranked(beats, b) && Elements(a) == Elements(b)
    ensures a == b
    decreases |a|
  {
    forall y ensures y in a <==> y in b {
      assert y in Elements(a) <==> y in Elements(b);
    }
    RankedSize(beats, a);
    RankedSize(beats, b);
    if a != [] {
      assert a[0] in a;
      assert b[0] in b;
      assert a[0] == b[0];
      assert Elements(a[1..]) == Elements(a) - {a[0]} by { Behead(beats, a); }
      assert Elements(b[1..]) == Elements(b) - {b[0]} by { Behead(beats, b); }
      RankedUnique(beats, a[1..], b[1..]);
    }
  }

  lemma Behead<T(!new)>(beats: (T, T) -> bool, a: seq<T>)
    requires StrictTotal(beats) && a != [] && Ranked(beats, a)
    ensures Elements(a[1..]) == Elements(a) - {a[0]}
    ensures Ranked(beats, a[1..])
  {
    forall x ensures x in a[1..] <==> x in a && x != a[0] {
      if x in a && x != a[0] {
        var i :| 0 <= i < |a| && a[i] == x;
        assert a[1..][i - 1] == x;
      }
      if x in a[1..] {
        var i :| 0 <= i < |a| - 1 && a[1..][i] == x;
        assert beats(a[0], a[i + 1]);
      }
    }
  }

  lemma {:induction false} RankedSize<T(!new)>(beats: (T, T) -> bool, a: seq<T>)
    requires StrictTotal(beats) && Ranked(beats, a)
    ensures |Elements(a)| == |a|
  {
    if a == [] {
      assert Elements(a) == {};
    } else {
      Behead(beats, a);
      RankedSize(beats, a[1..]);
      assert a[0] in Elements(a);
      assert Elements(a) == Elements(a[1..]) + {a[0]};
    }
  }

  lemma ExactAnswerUnique<T(!new)>(beats: (T, T) -> bool, a: seq<T>, b: seq<T>, s: set<T>, k: nat)
    requires StrictTotal(beats) && IsTop(beats, a, s, k) && IsTop(beats, b, s, k)
    ensures a == b
  {
    RankedUnique(beats, a, b);
  }

  /** The first k of a ranked listing of everything are its top-k. */
  lemma RankedPrefix<T(!new)>(beats: (T, T) -> bool, all: seq<T>, k: nat)
    requires StrictTotal(beats) && Ranked(beats, all)
    ensures IsTop(beats, if |all| <= k then all else all[..k], Elements(all), k)
  {
    var out := if |all| <= k then all else all[..k];
    forall i | 0 <= i < |all| ensures |Beaters(beats, Elements(all), all[i])| == i {
      assert Beaters(beats, Elements(all), all[i]) == Elements(all[..i]) by {
        BeatersAt(beats, all, i);
      }
      RankedSize(beats, all[..i]);
    }
    forall x ensures x in Elements(out) <==> x in Top(beats, Elements(all), k) {
      if x in all {
        var i :| 0 <= i < |all| && all[i] == x;
        if x in out {
          var j :| 0 <= j < |out| && out[j] == x;
          assert all[j] == x;
        } else {
          assert i >= k;
        }
      }
    }
  }

  lemma BeatsEarlier<T(!new)>(beats: (T, T) -> bool, all: seq<T>, i: nat, j: nat)
    requires StrictTotal(beats) && Ranked(beats, all) && i < |all| && j < |all|
    ensures beats(all[j], all[i]) ==> j < i
  {
  }

  lemma BeatersAt<T(!new)>(beats: (T, T) -> bool, all: seq<T>, i: nat)
    requires StrictTotal(beats) && Ranked(beats, all) && i < |all|
    ensures Beaters(beats, Elements(all), all[i]) == Elements(all[..i])
  {
    forall y ensures y in Beaters(beats, Elements(all), all[i]) <==> y in all[..i] {
      if y in all && beats(y, all[i]) {
        var j :| 0 <= j < |all| && all[j] == y;
        BeatsEarlier(beats, all, i, j);
        assert all[..i][j] == y;
      }
      if y in all[..i] {
        var j :| 0 <= j < i && all[..i][j] == y;
        assert beats(all[j], all[i]);
      }
    }
  }

  /** Inserting keeps a ranked list ranked. */
  function Insert<T>(beats: (T, T) -> bool, out: seq<T>, x: T): (r: seq<T>)
    ensures |r| == |out| + 1
    decreases |out|
  {
    if out == [] then [x]
    else if beats(x, out[0]) then [x] + out
    else [out[0]] + Insert(beats, out[1..], x)
  }

  lemma {:induction false} InsertRanked<T(!new)>(beats: (T, T) -> bool, out: seq<T>, x: T)
    requires StrictTotal(beats) && Ranked(beats, out) && x !in out
    ensures Ranked(beats, Insert(beats, out, x))
    ensures Elements(Insert(beats, out, x)) == Elements(out) + {x}
    decreases |out|
  {
    if out != [] && !beats(x, out[0]) {
      var r := Insert(beats, out[1..], x);
      InsertRanked(beats, out[1..], x);
      assert beats(out[0], x);
      Behead(beats, out);
      forall y | y in r ensures beats(out[0], y) {
        assert y in Elements(r);
        assert y in Elements(out[1..]) + {x};
        if y != x {
          var i :| 0 <= i < |out| - 1 && out[1..][i] == y;
          assert beats(out[0], out[i + 1]);
        }
      }
      PrependRanked(beats, out[0], r);
      assert Elements([out[0]] + r) == Elements(out) + {x};
    } else {
      forall y | y in out ensures beats(x, y) {
        var i :| 0 <= i < |out| && out[i] == y;
        assert i == 0 || beats(out[0], out[i]);
      }
      PrependRanked(beats, x, out);
    }
  }

  lemma PrependRanked<T(!new)>(beats: (T, T) -> bool, x: T, r: seq<T>)
    requires Ranked(beats, r) && forall y :: y in r ==> beats(x, y)
    ensures Ranked(beats, [x] + r)
    ensures Elements([x] + r) == Elements(r) + {x}
  {
    var s := [x] + r;
    forall i, j | 0 <= i < j < |s| ensures beats(s[i], s[j]) {
      assert s[j] == r[j - 1];
      assert s[j] in r;
      if i > 0 { assert s[i] == r[i - 1]; }
    }
    assert s[0] == x;
    forall y ensures y in s <==> y in r || y == x {
      if y in r {
        var i :| 0 <= i < |r| && r[i] == y;
        assert s[i + 1] == y;
      }
    }
  }

  /** A bounded heap as its ranked contents: insert, and with k held drop the weakest. */
  function Push<T>(beats: (T, T) -> bool, top: seq<T>, x: T, k: nat): seq<T>
    requires k > 0
  {
    if |top| < k then Insert(beats, top, x)
    else if beats(x, top[|top| - 1]) then Insert(beats, top[..|top| - 1], x)
    else top
  }

  lemma {:induction false} InsertPrefix<T(!new)>(beats: (T, T) -> bool, top: seq<T>, x: T)
    requires StrictTotal(beats) && top != [] && Ranked(beats, top) && x !in top
    ensures Insert(beats, top, x)[..|top|]
            == if beats(x, top[|top| - 1]) then Insert(beats, top[..|top| - 1], x) else top
    decreases |top|
  {
    var n := |top| - 1;
    var front := top[..n];
    if beats(x, top[0]) {
      assert n == 0 || beats(top[0], top[n]);
      assert Insert(beats, top, x) == [x] + top;
      assert ([x] + top)[..n + 1] == [x] + front;
      assert n > 0 ==> front[0] == top[0];
    } else {
      assert Insert(beats, top, x) == [top[0]] + Insert(beats, top[1..], x);
      if n == 0 {
        assert Insert(beats, top[1..], x) == [x];
      } else {
        InsertPrefix(beats, top[1..], x);
        assert top[1..][..n - 1] == front[1..];
        assert ([top[0]] + Insert(beats, top[1..], x))[..n + 1] == [top[0]] + Insert(beats, top[1..], x)[..n];
        assert top == [top[0]] + top[1..];
      }
    }
  }

  /** Pushing a new element keeps the heap equal to the top-k of everything pushed. */
  lemma PushKeepsTop<T(!new)>(beats: (T, T) -> bool, top: seq<T>, pushed: set<T>, k: nat, x: T)
    requires StrictTotal(beats) && k > 0 && IsTop(beats, top, pushed, k) && |top| <= k && x !in pushed
    ensures var top' := Push(beats, top, x, k);
      && IsTop(beats, top', pushed + {x}, k) && |top'| <= k
      && (|top| < k ==> |top'| == |top| + 1) && (|top| == k ==> |top'| == k)
  {
    hide StrictTotal, Insert;
    var all := Insert(beats, top, x);
    var kept := Elements(top) + {x};
    assert x !in top by { assert x in top ==> x in Elements(top); }
    InsertRanked(beats, top, x);
    RankedPrefix(beats, all, k);
    forall y | y in (pushed + {x}) - kept ensures |Beaters(beats, pushed + {x}, y)| >= k {
      assert y !in Top(beats, pushed, k);
      BeatersMono(beats, pushed, pushed + {x}, y);
    }
    Prune(beats, pushed + {x}, kept, k);
    if |top| == k {
      InsertPrefix(beats, top, x);
    }
  }

  /** Every finite set has its top-k as a ranked list. */
  lemma {:induction false} ListTop<T(!new)>(beats: (T, T) -> bool, s: set<T>, k: nat) returns (out: seq<T>)
    requires StrictTotal(beats) && k > 0
    ensures IsTop(beats, out, s, k) && |out| <= k
    decreases |s|
  {
    if s == {} {
      out := [];
    } else {
      var x :| x in s;
      var rest := ListTop(beats, s - {x}, k);
      hide StrictTotal, Push;
      PushKeepsTop(beats, rest, s - {x}, k, x);
      out := Push(beats, rest, x, k);
      assert s - {x} + {x} == s;
    }
  }
}
