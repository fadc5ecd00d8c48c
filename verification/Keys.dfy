/** Byte strings in the order the repository sorts terms and document ids by. */
module Keys {
  import opened Digits

  /** Lexicographic, a proper prefix first. */
  predicate Less(a: Bytes, b: Bytes)
    decreases |a|
  {
    b != [] && (a == [] || a[0] < b[0] || (a[0] == b[0] && Less(a[1..], b[1..])))
  }

  lemma {:induction false} LessIrreflexive(a: Bytes)
    ensures !Less(a, a)
    decreases |a|
  {
    if a != [] { LessIrreflexive(a[1..]); }
  }

  lemma {:induction false} LessTransitive(a: Bytes, b: Bytes, c: Bytes)
    requires Less(a, b) && Less(b, c)
    ensures Less(a, c)
    decreases |a|
  {
    if a != [] && a[0] == b[0] == c[0] { LessTransitive(a[1..], b[1..], c[1..]); }
  }

  lemma {:induction false} LessTotal(a: Bytes, b: Bytes)
    ensures a == b || Less(a, b) || Less(b, a)
    decreases |a|
  {
    if a != [] && b != [] && a[0] == b[0] {
      LessTotal(a[1..], b[1..]);
      assert a == [a[0]] + a[1..] && b == [b[0]] + b[1..];
    }
  }

  lemma LessOrder(a: Bytes, b: Bytes)
    ensures Less(a, b) <==> !(a == b || Less(b, a))
  {
    LessTotal(a, b);
    LessIrreflexive(a);
    if Less(a, b) && Less(b, a) { LessTransitive(a, b, a); }
  }

  /** Position `i` decides: the two agree before it, and there `a` ends or has the lesser byte. */
  predicate Decides(a: Bytes, b: Bytes, i: nat) {
    i <= |a| && i < |b| && a[..i] == b[..i] && (i == |a| || a[i] < b[i])
  }

  lemma DecidesTail(a: Bytes, b: Bytes, i: nat)
    requires a != [] && b != [] && a[0] == b[0]
    ensures !Decides(a, b, 0)
    ensures Decides(a, b, i + 1) <==> Decides(a[1..], b[1..], i)
  {
    if i <= |a[1..]| && i < |b[1..]| {
      assert a[..i + 1] == [a[0]] + a[1..][..i] && b[..i + 1] == [b[0]] + b[1..][..i];
      assert a[..i + 1][1..] == a[1..][..i] && b[..i + 1][1..] == b[1..][..i];
    }
  }

  /** Less at the first byte that differs, or for want of one. */
  lemma {:induction false} LessAt(a: Bytes, b: Bytes)
    ensures Less(a, b) <==> exists i :: Decides(a, b, i)
    decreases |a|
  {
    if a != [] && b != [] && a[0] == b[0] {
      LessAt(a[1..], b[1..]);
      forall i: nat ensures Decides(a, b, i) <==> i > 0 && Decides(a[1..], b[1..], i - 1) {
        DecidesTail(a, b, if i > 0 then i - 1 else 0);
      }
      if i: nat :| Decides(a[1..], b[1..], i) { assert Decides(a, b, i + 1); }
    } else {
      assert a[..0] == b[..0];
      assert Less(a, b) ==> Decides(a, b, 0);
      forall i: nat | Decides(a, b, i) ensures Less(a, b) {
        assert a == [] || b == [] || a[..i] == b[..i];
      }
    }
  }
}
