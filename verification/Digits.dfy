/** Little-endian positional notation, the arithmetic under every byte format in the
    repository. A packed bit stream is one natural number written twice: in base
    2^width by the values and in base 256 by the bytes. */
module Digits {

  type Byte = x: int | 0 <= x < 256
  type Bytes = seq<Byte>

  const U32: nat := 0x1_0000_0000
  const U64: nat := 0x1_0000_0000_0000_0000

  function Min(a: int, b: int): int {
    if a <= b then a else b
  }

  function Max(a: int, b: int): int {
    if a >= b then a else b
  }

  function Pow(b: nat, e: nat): (r: nat)
    ensures b > 0 ==> r > 0
  {
    if e == 0 then 1 else
      var p := Pow(b, e - 1);
      MulPositive(b, p);
      b * p
  }

  lemma MulPositive(a: nat, b: nat)
    ensures a * b >= 0
    ensures a > 0 && b > 0 ==> a * b > 0
  {
  }

  lemma {:induction false} PowAdd(b: nat, m: nat, n: nat)
    ensures Pow(b, m + n) == Pow(b, m) * Pow(b, n)
  {
    if m == 0 {
    } else {
      PowAdd(b, m - 1, n);
      Assoc(b, Pow(b, m - 1), Pow(b, n));
    }
  }

  lemma Assoc(a: int, b: int, c: int)
    ensures a * (b * c) == (a * b) * c
  {
  }

  lemma {:induction false} PowPow(b: nat, m: nat, n: nat)
    ensures m * n >= 0
    ensures Pow(Pow(b, m), n) == Pow(b, m * n)
  {
    MulPositive(m, n);
    if n == 0 {
      assert m * n == 0;
    } else {
      PowPow(b, m, n - 1);
      assert m * n == m + m * (n - 1);
      PowAdd(b, m, m * (n - 1));
    }
  }

  lemma {:induction false} PowMono(b: nat, m: nat, n: nat)
    requires b > 0 && m <= n
    ensures Pow(b, m) <= Pow(b, n)
    decreases n - m
  {
    if m < n {
      PowMono(b, m, n - 1);
      Grows(b, Pow(b, n - 1));
    }
  }

  lemma Grows(b: nat, p: nat)
    requires b > 0
    ensures p <= b * p
  {
    assert (b - 1) * p >= 0;
  }

  /** 256 == 2^8, so a byte string of length `n` ranges over 2^(8n) numbers. */
  lemma Pow256(n: nat)
    ensures Pow(256, n) == Pow(2, 8 * n)
  {
    assert Pow(2, 8) == 256 by {
      PowAdd(2, 4, 4);
      assert Pow(2, 4) == 16;
    }
    PowPow(2, 8, n);
  }

  predicate Below(ds: seq<nat>, base: nat) {
    forall i :: 0 <= i < |ds| ==> ds[i] < base
  }

  function FromDigits(ds: seq<nat>, base: nat): nat {
    if ds == [] then 0 else
      MulPositive(base, FromDigits(ds[1..], base));
      ds[0] + base * FromDigits(ds[1..], base)
  }

  function Quot(n: nat, base: nat): nat
    requires base > 0
  {
    n / base
  }

  function Rem(n: nat, base: nat): (r: nat)
    requires base > 0
    ensures r < base
  {
    n % base
  }

  lemma QuotRem(n: nat, base: nat)
    requires base > 0
    ensures base * Quot(n, base) >= 0
    ensures n == Rem(n, base) + base * Quot(n, base)
  {
  }

  function ToDigits(n: nat, base: nat, len: nat): (ds: seq<nat>)
    requires base > 0
    ensures |ds| == len
    decreases len
  {
    if len == 0 then [] else [Rem(n, base)] + ToDigits(Quot(n, base), base, len - 1)
  }

  lemma {:induction false} ToDigitsBelow(n: nat, base: nat, len: nat)
    requires base > 0
    ensures Below(ToDigits(n, base, len), base)
    decreases len
  {
    if len > 0 {
      ToDigitsBelow(Quot(n, base), base, len - 1);
    }
  }

  lemma {:induction false} DigitsBelow(ds: seq<nat>, base: nat)
    requires base > 0 && Below(ds, base)
    ensures FromDigits(ds, base) < Pow(base, |ds|)
  {
    if ds != [] {
      DigitsBelow(ds[1..], base);
      BelowStep(ds[0], FromDigits(ds[1..], base), Pow(base, |ds| - 1), base);
    }
  }

  lemma BelowStep(d: nat, f: nat, p: nat, base: nat)
    requires d < base && f < p
    ensures d + base * f < base * p
  {
    MulGap(base, f, p);
  }

  lemma DivModUnique(q: nat, r: nat, base: nat)
    requires r < base
    ensures base * q >= 0
    ensures Rem(r + base * q, base) == r && Quot(r + base * q, base) == q
  {
    MulPositive(base, q);
    var n := r + base * q;
    QuotRem(n, base);
    MulGap(base, q, Quot(n, base));
    MulGap(base, Quot(n, base), q);
  }

  lemma Distribute(a: int, x: int, y: int, z: int)
    ensures a * (x + y + z) == a * x + a * y + a * z
  {
  }

  lemma RemSmall(n: nat, base: nat)
    requires n < base
    ensures Rem(n, base) == n
  {
    assert base * 0 == 0;
    DivModUnique(0, n, base);
  }

  lemma MulGap(a: nat, x: int, y: int)
    ensures x < y ==> a * x + a <= a * y
  {
    if x < y {
      MulPositive(a, y - x - 1);
      Distribute(a, x, 1, y - x - 1);
    }
  }

  /** Writing a number in a base and reading it back is the identity, on digits
      (whatever higher digits follow them) ... */
  lemma {:induction false} ToFrom(ds: seq<nat>, base: nat, high: nat)
    requires base > 0 && Below(ds, base)
    ensures Pow(base, |ds|) * high >= 0
    ensures ToDigits(FromDigits(ds, base) + Pow(base, |ds|) * high, base, |ds|) == ds
  {
    MulPositive(Pow(base, |ds|), high);
    if ds != [] {
      ToFrom(ds[1..], base, high);
      var f, p := FromDigits(ds[1..], base), Pow(base, |ds| - 1);
      MulPositive(p, high);
      MulSpread(base, f, p, high);
      DivModUnique(f + p * high, ds[0], base);
    }
  }

  /** ... and on every number the digit count can hold. */
  lemma {:induction false} FromTo(n: nat, base: nat, len: nat)
    requires base > 0 && n < Pow(base, len)
    ensures FromDigits(ToDigits(n, base, len), base) == n
    decreases len
  {
    if len > 0 {
      QuotBelow(n, base, Pow(base, len - 1));
      FromTo(Quot(n, base), base, len - 1);
      var ds := ToDigits(n, base, len);
      assert ds[0] == Rem(n, base) && ds[1..] == ToDigits(Quot(n, base), base, len - 1);
    }
  }

  lemma QuotBelow(n: nat, base: nat, p: nat)
    requires base > 0 && n < base * p
    ensures Quot(n, base) < p
    ensures base * Quot(n, base) >= 0 && n == Rem(n, base) + base * Quot(n, base)
  {
    QuotRem(n, base);
    MulGap(base, p - 1, Quot(n, base));
  }

  lemma {:induction false} FromAppend(a: seq<nat>, b: seq<nat>, base: nat)
    ensures Pow(base, |a|) * FromDigits(b, base) >= 0
    ensures FromDigits(a + b, base) == FromDigits(a, base) + Pow(base, |a|) * FromDigits(b, base)
  {
    MulPositive(Pow(base, |a|), FromDigits(b, base));
    if a == [] {
      assert a + b == b;
    } else {
      FromAppend(a[1..], b, base);
      assert (a + b)[1..] == a[1..] + b;
      MulSpread(base, FromDigits(a[1..], base), Pow(base, |a| - 1), FromDigits(b, base));
    }
  }

  lemma MulSpread(b: int, f: int, p: int, g: int)
    ensures b * (f + p * g) == b * f + (b * p) * g
  {
    assert b * (p * g) == (b * p) * g;
  }

  lemma FromSnoc(a: seq<nat>, x: nat, base: nat)
    ensures Pow(base, |a|) * x >= 0
    ensures FromDigits(a + [x], base) == FromDigits(a, base) + Pow(base, |a|) * x
  {
    FromAppend(a, [x], base);
    assert FromDigits([x], base) == x;
  }

  lemma AppendAssoc<T>(a: seq<T>, b: seq<T>, c: seq<T>)
    ensures (a + b) + c == a + (b + c)
  {
  }

  lemma HeadTail<T>(s: seq<T>)
    requires s != []
    ensures [s[0]] + s[1..] == s
  {
  }
}
