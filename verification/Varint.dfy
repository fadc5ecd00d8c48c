/** Unsigned LEB128 (section 7.6 of DWARF Version 5), the framing of every integer the
    repository writes outside a bit-packed body. */
module Varint {
  import opened Digits

  /** A parser either rejects its input or returns a value and the unread bytes. */
  datatype Parsed<+T> = Short | Parsed(value: T, rest: Bytes)

  function Encode(x: nat): (r: Bytes)
    ensures |r| > 0
  {
    if x < 128 then [x] else [128 + x % 128] + Encode(x / 128)
  }

  function Decode(src: Bytes): Parsed<nat> {
    DecodeFrom(src, 0)
  }

  /** `i` bytes have been read; a 64-bit value has at most ten, the tenth at most 1. */
  function DecodeFrom(src: Bytes, i: nat): Parsed<nat>
    decreases |src|
  {
    if src == [] || i == 10 then Short
    else if src[0] < 128 then
      if i == 9 && src[0] > 1 then Short else Parsed(src[0], src[1..])
    else
      match DecodeFrom(src[1..], i + 1)
      case Short => Short
      case Parsed(hi, rest) => Parsed(src[0] - 128 + 128 * hi, rest)
  }

  /** 2^64 / 128^i, rounded up: the bound on what is left after `i` groups. */
  function Cap(i: nat): nat {
    if i == 0 then U64 else (Cap(i - 1) + 127) / 128
  }

  lemma CapNine()
    ensures Cap(9) == 2
    ensures forall i :: 0 <= i < 9 ==> 128 * Cap(i + 1) == Cap(i) >= 256
  {
    assert Cap(1) == 0x200_0000_0000_0000;
    assert Cap(2) == 0x4_0000_0000_0000;
    assert Cap(3) == 0x800_0000_0000;
    assert Cap(4) == 0x10_0000_0000;
    assert Cap(5) == 0x2000_0000;
    assert Cap(6) == 0x40_0000;
    assert Cap(7) == 0x8000;
    assert Cap(8) == 0x100;
    assert Cap(9) == 2;
  }

  lemma CapStep(x: nat, i: nat)
    requires i <= 9 && 128 <= x < Cap(i)
    ensures i < 9 && x / 128 < Cap(i + 1)
  {
    if i == 9 {
      CapNine();
    }
  }

  lemma {:induction false} RoundTripFrom(x: nat, i: nat, rest: Bytes)
    requires i <= 9 && x < Cap(i)
    ensures DecodeFrom(Encode(x) + rest, i) == Parsed(x, rest)
    decreases x
  {
    hide Cap;
    var src := Encode(x) + rest;
    if x < 128 {
      assert src[1..] == rest;
      if i == 9 { CapNine(); }
    } else {
      CapStep(x, i);
      RoundTripFrom(x / 128, i + 1, rest);
      assert src[1..] == Encode(x / 128) + rest;
    }
  }

  lemma RoundTrip(x: nat, rest: Bytes)
    requires x < U64
    ensures Decode(Encode(x) + rest) == Parsed(x, rest)
  {
    RoundTripFrom(x, 0, rest);
  }

  /** A cut inside a varint is always noticed: every byte but the last has the high bit. */
  lemma {:induction false} TornFrom(x: nat, i: nat, cut: nat)
    requires cut < |Encode(x)|
    ensures DecodeFrom(Encode(x)[..cut], i) == Short
    decreases x
  {
    if cut > 0 {
      TornFrom(x / 128, i + 1, cut - 1);
      assert Encode(x)[..cut][1..] == Encode(x / 128)[..cut - 1];
    }
  }

  /** What a successful parse leaves is a proper suffix of its input. */
  lemma {:induction false} Suffix(src: Bytes, i: nat)
    ensures var p := DecodeFrom(src, i);
      p.Parsed? ==> |p.rest| < |src| && p.rest == src[|src| - |p.rest|..]
    decreases |src|
  {
    if src != [] && i != 10 && src[0] >= 128 {
      Suffix(src[1..], i + 1);
    }
  }

  method AppendUvarint(dst: Bytes, v: nat) returns (r: Bytes)
    ensures r == dst + Encode(v)
  {
    r := dst;
    var x := v;
    while x >= 128
      invariant r + Encode(x) == dst + Encode(v)
    {
      r := r + [x % 128 + 128];
      x := x / 128;
    }
    r := r + [x];
  }

  // ---- the reading loop, on any input

  /** The seven-bit groups of the bytes, lowest first, however many there are. */
  function Sevens(src: Bytes): nat {
    if src == [] then 0 else src[0] % 128 + 128 * Sevens(src[1..])
  }

  /** What the bytes of an encoding are: the base-128 digits of the value, lowest first and no more than
      it has, the high bit set on all but the last. */
  lemma {:induction false} EncodeReads(x: nat)
    ensures Sevens(Encode(x)) == x && Ends(Encode(x), |Encode(x)|)
    ensures |Encode(x)| > 1 ==> Encode(x)[|Encode(x)| - 1] > 0
    decreases x
  {
    if x >= 128 {
      EncodeReads(x / 128);
      assert Encode(x)[1..] == Encode(x / 128);
      assert (128 + x % 128) % 128 == x % 128;
    } else {
      assert Encode(x)[1..] == [];
    }
  }

  /** The examples of section 7.6 of DWARF Version 5. */
  lemma Examples()
    ensures Encode(2) == [2] && Encode(127) == [127]
    ensures Encode(128) == [0x80, 1] && Encode(129) == [0x81, 1] && Encode(12857) == [0xB9, 100]
  {
  }

  /** `n` bytes end at the first one without the high bit. */
  predicate Ends(src: Bytes, n: nat) {
    0 < n <= |src| && src[n - 1] < 128 && forall i :: 0 <= i < n - 1 ==> src[i] >= 128
  }

  lemma {:induction false} SevensSnoc(src: Bytes, b: Byte)
    ensures b % 128 * Pow(128, |src|) >= 0
    ensures Sevens(src + [b]) == Sevens(src) + b % 128 * Pow(128, |src|)
  {
    MulPositive(b % 128, Pow(128, |src|));
    if src == [] {
      assert src + [b] == [b] && [b][1..] == [];
    } else {
      SevensSnoc(src[1..], b);
      assert (src + [b])[1..] == src[1..] + [b];
      Assoc(128, b % 128, Pow(128, |src| - 1));
      Assoc(b % 128, 128, Pow(128, |src| - 1));
    }
  }

  /** An accepted encoding is its groups, and they fit 64 bits. */
  lemma {:induction false} DecodeIsSevens(src: Bytes, i: nat)
    requires i <= 10
    ensures var p := DecodeFrom(src, i); p.Parsed? ==>
      && |p.rest| < |src| && Ends(src, |src| - |p.rest|) && p.rest == src[|src| - |p.rest|..]
      && p.value == Sevens(src[..|src| - |p.rest|]) && i < 10 && p.value < Cap(i)
    decreases |src|
  {
    hide Cap, Sevens, Ends;
    var p := DecodeFrom(src, i);
    LeavesLess(src, i);
    if p.Parsed? {
      var n := |src| - |p.rest|;
      CapNine();
      SevensHead(src, n);
      if src[0] < 128 {
        NoSevens(src[1..]);
      } else {
        DecodeIsSevens(src[1..], i + 1);
        EndsNext(src, n - 1);
      }
    }
  }

  lemma LeavesLess(src: Bytes, i: nat)
    ensures DecodeFrom(src, i).Parsed? ==> |DecodeFrom(src, i).rest| < |src|
    ensures src != [] && src[0] < 128 ==> Ends(src, 1)
  {
    Suffix(src, i);
  }

  lemma SevensHead(src: Bytes, n: nat)
    requires 0 < n <= |src|
    ensures Sevens(src[..n]) == src[0] % 128 + 128 * Sevens(src[1..][..n - 1])
  {
    assert src[..n][1..] == src[1..][..n - 1];
  }

  lemma EndsNext(src: Bytes, n: nat)
    requires src != [] && src[0] >= 128 && Ends(src[1..], n)
    ensures Ends(src, n + 1)
  {
    assert forall j :: 1 <= j <= n ==> src[j] == src[1..][j - 1];
  }

  lemma NoSevens(src: Bytes)
    ensures Sevens(src[..0]) == 0 && Pow(128, 0) == 1
  {
  }

  lemma EndsOnce(src: Bytes, m: nat, n: nat)
    requires Ends(src, m) && Ends(src, n)
    ensures m == n
  {
  }

  lemma ModAdd(a: int, b: int)
    ensures (a % U64 + b) % U64 == (a + b) % U64
  {
    assert a == U64 * (a / U64) + a % U64;
  }

  /** `x |= uint64(b & 0x7f) << s`: the bits above the 64th fall off. */
  function Put(x: nat, b: Byte, s: nat): nat {
    MulPositive(b % 128, s);
    (x + b % 128 * s) % U64
  }

  lemma SevensStep(src: Bytes, n: nat, x: nat, s: nat)
    requires n < |src| && s == Pow(128, n) && x == Sevens(src[..n]) % U64
    ensures 128 * s == Pow(128, n + 1)
    ensures Put(x, src[n], s) == Sevens(src[..n + 1]) % U64
  {
    hide Sevens;
    assert src[..n + 1] == src[..n] + [src[n]];
    SevensSnoc(src[..n], src[n]);
    ModAdd(Sevens(src[..n]), src[n] % 128 * s);
  }

  /** The loop of `readUvarint`: the groups up to the first byte without the high bit, wrapped
      to 64 bits, and the number of bytes; (0, 0) when no byte ends the value. On an accepted
      encoding that is the encoded value. */
  method ReadUvarint(src: Bytes) returns (x: nat, n: nat)
    ensures n == 0 <==> forall i :: 0 <= i < |src| ==> src[i] >= 128
    ensures n == 0 ==> x == 0
    ensures n > 0 ==> Ends(src, n) && x == Sevens(src[..n]) % U64
    ensures Decode(src).Parsed? ==> n <= |src| && Decode(src) == Parsed(x, src[n..])
  {
    hide Sevens, Decode, DecodeFrom, Pow, Put, Cap;
    DecodeIsSevens(src, 0);
    assert Decode(src) == DecodeFrom(src, 0) && Cap(0) == U64 by { Starts(src); }
    x, n := 0, 0;
    var s: nat := 1;
    NoSevens(src);
    while n < |src|
      invariant n <= |src| && s == Pow(128, n)
      invariant x == Sevens(src[..n]) % U64
      invariant forall i :: 0 <= i < n ==> src[i] >= 128
    {
      var b := src[n];
      SevensStep(src, n, x, s);
      if b < 128 {
        x, n := Put(x, b, s), n + 1;
        if Decode(src).Parsed? { EndsOnce(src, n, |src| - |Decode(src).rest|); }
        return;
      }
      x, s, n := Put(x, b, s), 128 * s, n + 1;
    }
    x, n := 0, 0;
  }

  lemma Starts(src: Bytes)
    ensures Decode(src) == DecodeFrom(src, 0) && Cap(0) == U64
  {
  }
}
