/** Membership filters (index/bloom.go): double hashing into a bit array set in place; an
    answer of no is definitive. */
module Bloom {
  import opened Digits

  type Hash = Bytes -> nat

  /** Bit `i` of a byte. */
  predicate Bit(b: bv8, i: nat)
    requires i < 8
  {
    b & (1 << i) != 0
  }

  lemma SetBit(b: bv8, i: nat, j: nat)
    requires i < 8 && j < 8
    ensures Bit(b | (1 << i), j) <==> i == j || Bit(b, j)
  {
    var m: bv8, n: bv8 := 1 << i, 1 << j;
    assert m == [1, 2, 4, 8, 16, 32, 64, 128][i] by { Shift(i); }
    assert n == [1, 2, 4, 8, 16, 32, 64, 128][j] by { Shift(j); }
    assert (b | m) & n == (b & n) | (m & n);
  }

  lemma Shift(i: nat)
    requires i < 8
    ensures (1 as bv8) << i == [1, 2, 4, 8, 16, 32, 64, 128][i]
  {
  }

  predicate Has(bits: seq<bv8>, pos: nat)
    requires pos < 8 * |bits|
  {
    Bit(bits[pos / 8], pos % 8)
  }

  /** The hash after `i` strides, in 32-bit words. */
  function HashAt(h: nat, d: nat, i: nat): nat {
    if i == 0 then h else (HashAt(h, d, i - 1) + d) % U32
  }

  /** Double hashing: the i-th probe is `i` strides from the base. */
  lemma {:induction false} HashIs(h: nat, d: nat, i: nat)
    requires h < U32
    ensures i * d >= 0 && HashAt(h, d, i) == (h + i * d) % U32
  {
    MulPositive(i, d);
    if i > 0 {
      HashIs(h, d, i - 1);
      MulPositive(i - 1, d);
      assert i * d == (i - 1) * d + d;
      WrapAdd(h + (i - 1) * d, d);
    }
  }

  lemma WrapAdd(a: nat, b: nat)
    ensures (a % U32 + b) % U32 == (a + b) % U32
  {
    assert a == U32 * (a / U32) + a % U32;
  }

  /** `1 <= n`, so the mask `n - 1` of a power of two keeps the low bits. */
  function Probe(h: nat, d: nat, i: nat, nbits: nat): (pos: nat)
    requires nbits > 0
    ensures pos < nbits
  {
    HashAt(h, d, i) % nbits
  }

  ghost predicate IsPow2(n: nat) {
    exists e: nat :: n == Pow(2, e)
  }

  lemma Double(n: nat)
    requires IsPow2(n)
    ensures IsPow2(2 * n)
  {
    var e: nat :| n == Pow(2, e);
    assert 2 * n == Pow(2, e + 1);
  }

  lemma SixtyFour()
    ensures IsPow2(64)
  {
    assert Pow(2, 0) == 1 && Pow(2, 1) == 2 && Pow(2, 2) == 4 && Pow(2, 3) == 8;
    assert Pow(2, 4) == 16 && Pow(2, 5) == 32 && Pow(2, 6) == 64;
  }

  /** The least power of two reaching `v`, from the power `p` on. */
  function NextPow2(v: nat, p: nat): (n: nat)
    requires p > 0
    ensures n >= v && n >= p
    ensures p % 8 == 0 ==> n % 8 == 0
    decreases if p >= v then 0 else v - p
  {
    if p >= v then p else NextPow2(v, 2 * p)
  }

  lemma {:induction false} NextIsPow2(v: nat, p: nat)
    requires p > 0 && IsPow2(p)
    ensures IsPow2(NextPow2(v, p)) && (NextPow2(v, p) > p ==> NextPow2(v, p) < 2 * v)
    decreases if p >= v then 0 else v - p
  {
    hide IsPow2;
    if p < v {
      Double(p);
      NextIsPow2(v, 2 * p);
    }
  }

  /** Every probe of the key is set. */
  predicate Contains(bits: seq<bv8>, nbits: nat, k: nat, key: Bytes, base: Hash, stride: Hash)
    requires nbits > 0 && nbits == 8 * |bits|
  {
    forall i :: 0 <= i < k ==> Has(bits, Probe(base(key), stride(key), i, nbits))
  }

  /** Bit `pos` is one of the key's first `n` probes. */
  predicate Probed(pos: nat, key: Bytes, n: nat, nbits: nat, base: Hash, stride: Hash)
    requires nbits > 0
  {
    exists i :: 0 <= i < n && Probe(base(key), stride(key), i, nbits) == pos
  }

  /** Exactly the key's first `n` probes have been set. */
  ghost predicate SetBy(was: seq<bv8>, now: seq<bv8>, key: Bytes, n: nat, nbits: nat, base: Hash, stride: Hash)
    requires nbits > 0
  {
    |was| == |now| && forall pos :: 0 <= pos < 8 * |was| ==>
      (Has(now, pos) <==> Has(was, pos) || Probed(pos, key, n, nbits, base, stride))
  }

  /** Bits are only ever set. */
  ghost predicate Grown(was: seq<bv8>, now: seq<bv8>) {
    |was| == |now| && forall pos :: 0 <= pos < 8 * |was| && Has(was, pos) ==> Has(now, pos)
  }

  class Filter {
    const bits: array<bv8>
    const k: nat
    const nbits: nat
    const base: Hash
    const stride: Hash

    ghost predicate Valid() {
      nbits > 0 && nbits == 8 * bits.Length
    }

    constructor (nbits: nat, k: nat, base: Hash, stride: Hash)
      requires nbits > 0 && nbits % 8 == 0
      ensures Valid() && fresh(bits) && this.nbits == nbits && this.k == k && this.base == base && this.stride == stride
      ensures forall pos :: 0 <= pos < nbits ==> !Has(bits[..], pos)
    {
      bits := new bv8[nbits / 8](_ => 0);
      this.k, this.nbits, this.base, this.stride := k, nbits, base, stride;
    }

    /** Sets the key's probes, in place. */
    method Insert(key: Bytes)
      requires Valid()
      modifies bits
      ensures Contains(bits[..], nbits, k, key, base, stride) && Grown(old(bits[..]), bits[..])
      ensures SetBy(old(bits[..]), bits[..], key, k, nbits, base, stride)
    {
      hide Has;
      var h, d, i := base(key), stride(key), 0;
      while i < k
        invariant 0 <= i <= k && h == HashAt(base(key), d, i)
        invariant forall j :: 0 <= j < i ==> Has(bits[..], Probe(base(key), d, j, nbits))
        invariant Grown(old(bits[..]), bits[..])
        invariant SetBy(old(bits[..]), bits[..], key, i, nbits, base, stride)
      {
        var pos := h % nbits;
        SetPos(bits[..], pos);
        SetMore(old(bits[..]), bits[..], key, i, nbits, base, stride);
        bits[pos / 8] := bits[pos / 8] | (1 << (pos % 8));
        h := (h + d) % U32;
        i := i + 1;
      }
    }

    /** `MayContain`: exactly whether every probe is set. */
    method MayContain(key: Bytes) returns (yes: bool)
      requires Valid()
      ensures yes <==> Contains(bits[..], nbits, k, key, base, stride)
    {
      hide Bit;
      var h, d, i := base(key), stride(key), 0;
      while i < k
        invariant 0 <= i <= k && h == HashAt(base(key), d, i)
        invariant forall j :: 0 <= j < i ==> Has(bits[..], Probe(base(key), d, j, nbits))
      {
        var pos := h % nbits;
        assert pos == Probe(base(key), d, i, nbits);
        if !Bit(bits[pos / 8], pos % 8) {
          assert !Has(bits[..], pos);
          return false;
        }
        assert Has(bits[..], pos);
        h := (h + d) % U32;
        i := i + 1;
      }
      yes := true;
    }
  }

  function WithPos(bits: seq<bv8>, pos: nat): seq<bv8>
    requires pos < 8 * |bits|
  {
    bits[pos / 8 := bits[pos / 8] | (1 << (pos % 8))]
  }

  lemma SetAt(bits: seq<bv8>, pos: nat, q: nat)
    requires pos < 8 * |bits| && q < 8 * |bits|
    ensures Has(WithPos(bits, pos), q) <==> Has(bits, q) || q == pos
  {
    hide Bit;
    if q / 8 == pos / 8 { SetBit(bits[pos / 8], pos % 8, q % 8); }
  }

  lemma SetPos(bits: seq<bv8>, pos: nat)
    requires pos < 8 * |bits|
    ensures Grown(bits, WithPos(bits, pos)) && Has(WithPos(bits, pos), pos)
    ensures forall q :: 0 <= q < 8 * |bits| ==> (Has(WithPos(bits, pos), q) <==> Has(bits, q) || q == pos)
  {
    assert |WithPos(bits, pos)| == |bits|;
    hide Has, WithPos;
    forall q | 0 <= q < 8 * |bits| ensures Has(WithPos(bits, pos), q) <==> Has(bits, q) || q == pos {
      SetAt(bits, pos, q);
    }
  }

  lemma SetMore(was: seq<bv8>, now: seq<bv8>, key: Bytes, n: nat, nbits: nat, base: Hash, stride: Hash)
    requires nbits > 0 && nbits == 8 * |was| && SetBy(was, now, key, n, nbits, base, stride)
    ensures SetBy(was, WithPos(now, Probe(base(key), stride(key), n, nbits)), key, n + 1, nbits, base, stride)
  {
    hide Has, Probe;
    var pos := Probe(base(key), stride(key), n, nbits);
    SetPos(now, pos);
    forall q: nat | q < 8 * |was|
      ensures Probed(q, key, n + 1, nbits, base, stride) <==> Probed(q, key, n, nbits, base, stride) || q == pos
    {
      if q == pos { assert Probe(base(key), stride(key), n, nbits) == q; }
    }
  }

  lemma GrownContains(was: seq<bv8>, now: seq<bv8>, nbits: nat, k: nat, key: Bytes, base: Hash, stride: Hash)
    requires nbits > 0 && nbits == 8 * |was| && Grown(was, now) && Contains(was, nbits, k, key, base, stride)
    ensures Contains(now, nbits, k, key, base, stride)
  {
    hide Has;
  }

  function BitsPerKey(given: int): (bits: nat)
    ensures (given > 0 ==> bits == given) && (given <= 0 ==> bits == 10)
  {
    if given <= 0 then 10 else given
  }

  /** The bits asked for, in 32-bit arithmetic, leave room for the next power of two. */
  predicate Sized(keys: nat, bitsPerKey: int) {
    MulPositive(keys, BitsPerKey(bitsPerKey));
    (keys * BitsPerKey(bitsPerKey)) % U32 <= 0x8000_0000
  }

  ghost predicate ProbedBySome(pos: nat, keys: seq<Bytes>, k: nat, nbits: nat, base: Hash, stride: Hash)
    requires nbits > 0
  {
    exists key :: key in keys && Probed(pos, key, k, nbits, base, stride)
  }

  /** The bits set are exactly those some key probes. */
  ghost predicate SetByAll(bits: seq<bv8>, keys: seq<Bytes>, k: nat, nbits: nat, base: Hash, stride: Hash)
    requires nbits > 0
  {
    nbits == 8 * |bits| && forall pos :: 0 <= pos < nbits ==>
      (Has(bits, pos) <==> ProbedBySome(pos, keys, k, nbits, base, stride))
  }

  lemma SetByOne(was: seq<bv8>, now: seq<bv8>, keys: seq<Bytes>, key: Bytes, k: nat, nbits: nat,
                  base: Hash, stride: Hash)
    requires nbits > 0 && SetByAll(was, keys, k, nbits, base, stride) && SetBy(was, now, key, k, nbits, base, stride)
    ensures SetByAll(now, keys + [key], k, nbits, base, stride)
  {
    hide Has, Probed;
    forall pos: nat | pos < nbits
      ensures ProbedBySome(pos, keys + [key], k, nbits, base, stride) <==>
        ProbedBySome(pos, keys, k, nbits, base, stride) || Probed(pos, key, k, nbits, base, stride)
    {
      assert key in keys + [key];
      if x :| x in keys && Probed(pos, x, k, nbits, base, stride) { assert x in keys + [key]; }
    }
  }

  /** `BuildBloom`: no key put in is ever denied, and no bit is set that none of them probes. */
  method BuildBloom(keys: seq<Bytes>, bitsPerKey: int, base: Hash, stride: Hash) returns (f: Filter)
    requires Sized(|keys|, bitsPerKey)
    ensures fresh(f) && fresh(f.bits) && f.Valid() && 1 <= f.k <= 30 && f.base == base && f.stride == stride
    ensures IsPow2(f.nbits) && f.nbits >= 64
    ensures var wanted := (|keys| * BitsPerKey(bitsPerKey)) % U32;
      f.nbits >= wanted && (f.nbits > 64 ==> f.nbits < 2 * wanted)
    ensures var scaled := 69 * BitsPerKey(bitsPerKey) + 50;
      100 <= scaled < 3100 ==> 100 * f.k <= scaled < 100 * (f.k + 1)
    ensures SetByAll(f.bits[..], keys, f.k, f.nbits, base, stride)
    ensures forall key :: key in keys ==> Contains(f.bits[..], f.nbits, f.k, key, base, stride)
  {
    hide Contains, Grown, IsPow2, SetBy, SetByAll;
    var bpk := BitsPerKey(bitsPerKey);
    var k := Max(1, Min(30, (bpk * 69 + 50) / 100));
    MulPositive(|keys|, bpk);
    SixtyFour();
    NextIsPow2((|keys| * bpk) % U32, 64);
    f := new Filter(NextPow2((|keys| * bpk) % U32, 64), k, base, stride);
    var i := 0;
    NoneSet(f.bits[..], k, f.nbits, base, stride);
    assert keys[..0] == [];
    while i < |keys|
      invariant 0 <= i <= |keys|
      invariant forall key :: key in keys[..i] ==> Contains(f.bits[..], f.nbits, k, key, base, stride)
      invariant SetByAll(f.bits[..], keys[..i], k, f.nbits, base, stride)
    {
      ghost var was := f.bits[..];
      f.Insert(keys[i]);
      forall key | key in keys[..i] ensures Contains(f.bits[..], f.nbits, k, key, base, stride) {
        GrownContains(was, f.bits[..], f.nbits, k, key, base, stride);
      }
      assert keys[..i + 1] == keys[..i] + [keys[i]];
      SetByOne(was, f.bits[..], keys[..i], keys[i], k, f.nbits, base, stride);
      i := i + 1;
    }
    assert keys[..i] == keys;
  }

  lemma NoneSet(bits: seq<bv8>, k: nat, nbits: nat, base: Hash, stride: Hash)
    requires nbits > 0 && nbits == 8 * |bits| && forall pos :: 0 <= pos < nbits ==> !Has(bits, pos)
    ensures SetByAll(bits, [], k, nbits, base, stride)
  {
    hide Has;
  }

  // ---- the filter as stored

  /** What `Encode` keeps of a filter. */
  datatype Image = Image(bits: seq<bv8>, nbits: nat, k: nat)

  /** A stored filter that does not parse denies nothing. */
  predicate MayHold(m: Image, key: Bytes, base: Hash, stride: Hash) {
    m.nbits == 0 || m.nbits != 8 * |m.bits| || Contains(m.bits, m.nbits, m.k, key, base, stride)
  }
}
