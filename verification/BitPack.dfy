/** Fixed-width bit packing: search/bitpack.go for widths up to 32 and
    encoding/encoding.go for widths up to 64. */
module BitPack {
  import opened Digits
  import opened Varint

  function PackedLen(count: nat, width: nat): nat {
    MulPositive(count, width);
    (count * width + 7) / 8
  }

  /** The packed form: the values, as base-2^width digits, rewritten as base-256 digits. */
  function Pack(vs: seq<nat>, width: nat): (r: Bytes)
    ensures |r| == PackedLen(|vs|, width)
  {
    var n := FromDigits(vs, Pow(2, width));
    ToDigitsBelow(n, 256, PackedLen(|vs|, width));
    ToDigits(n, 256, PackedLen(|vs|, width))
  }

  function Unpack(src: Bytes, count: nat, width: nat): (r: Parsed<seq<nat>>)
    ensures r.Parsed? ==> |r.value| == count
  {
    var n := PackedLen(count, width);
    if |src| < n then Short
    else Parsed(ToDigits(FromDigits(src[..n], 256), Pow(2, width), count), src[n..])
  }

  lemma Fits(vs: seq<nat>, width: nat)
    requires Below(vs, Pow(2, width))
    ensures FromDigits(vs, Pow(2, width)) < Pow(256, PackedLen(|vs|, width))
  {
    DigitsBelow(vs, Pow(2, width));
    PowPow(2, width, |vs|);
    Pow256(PackedLen(|vs|, width));
    assert width * |vs| == |vs| * width;
    PowMono(2, width * |vs|, 8 * PackedLen(|vs|, width));
  }

  lemma PackRoundTrip(vs: seq<nat>, width: nat, rest: Bytes)
    requires Below(vs, Pow(2, width))
    ensures Unpack(Pack(vs, width) + rest, |vs|, width) == Parsed(vs, rest)
  {
    var n, base := FromDigits(vs, Pow(2, width)), Pow(2, width);
    var len := PackedLen(|vs|, width);
    Fits(vs, width);
    FromTo(n, 256, len);
    ToFrom(vs, base, 0);
    var src := Pack(vs, width) + rest;
    assert src[..len] == Pack(vs, width);
    assert src[len..] == rest;
  }

  // ---- the writer: `body` holds whole bytes, `acc` the `nbits` bits after them

  ghost predicate Packed(n: nat, bits: nat, body: Bytes, acc: nat, nbits: nat) {
    && 8 * |body| + nbits == bits
    && acc < Pow(2, nbits)
    && FromDigits(body, 256) + Pow(256, |body|) * acc == n
  }

  lemma AddBits(n: nat, bits: nat, body: Bytes, acc: nat, nbits: nat, c: nat, m: nat)
    requires Packed(n, bits, body, acc, nbits) && c < Pow(2, m)
    ensures c * Pow(2, nbits) >= 0 && Pow(2, bits) * c >= 0
    ensures Packed(n + Pow(2, bits) * c, bits + m, body, acc + c * Pow(2, nbits), nbits + m)
  {
    hide Pow, FromDigits;
    var p, lo, hi, b := Pow(256, |body|), Pow(2, nbits), Pow(2, m), Pow(2, bits);
    SplitPow(|body|, nbits, m);
    AddArith(n, FromDigits(body, 256), p, acc, c, lo, hi, b);
  }

  lemma SplitPow(len: nat, nbits: nat, m: nat)
    ensures Pow(2, 8 * len + nbits) == Pow(256, len) * Pow(2, nbits)
    ensures Pow(2, nbits + m) == Pow(2, nbits) * Pow(2, m)
  {
    Pow256(len);
    PowAdd(2, 8 * len, nbits);
    PowAdd(2, nbits, m);
  }

  lemma AddArith(n: nat, f: nat, p: nat, acc: nat, c: nat, lo: nat, hi: nat, b: nat)
    requires acc < lo && c < hi && b == p * lo && n == f + p * acc
    ensures c * lo >= 0 && b * c >= 0
    ensures acc + c * lo < lo * hi
    ensures f + p * (acc + c * lo) == n + b * c
  {
    MulPositive(c, lo);
    MulPositive(b, c);
    ShiftBelow(acc, c, lo, hi);
    ShiftValue(p, acc, c, lo);
  }

  lemma ShiftBelow(acc: nat, c: nat, lo: nat, hi: nat)
    requires acc < lo && c < hi
    ensures acc + c * lo < lo * hi
  {
    assert c * lo + lo <= hi * lo by {
      MulGap(lo, c, hi);
    }
  }

  lemma ShiftValue(p: int, acc: int, c: int, lo: int)
    ensures p * (acc + c * lo) == p * acc + (p * lo) * c
  {
    assert p * (c * lo) == (p * lo) * c;
  }

  lemma PowEight()
    ensures Pow(2, 8) == 256
  {
    Pow256(1);
    assert Pow(256, 1) == 256;
  }

  lemma EmitByte(n: nat, bits: nat, body: Bytes, acc: nat, nbits: nat)
    requires Packed(n, bits, body, acc, nbits) && nbits >= 8
    ensures Packed(n, bits, body + [acc % 256], acc / 256, nbits - 8)
  {
    FromSnoc(body, acc % 256, 256);
    PowAdd(2, 8, nbits - 8);
    PowEight();
    assert Pow(256, |body| + 1) == 256 * Pow(256, |body|);
    var p := Pow(256, |body|);
    assert p * acc == p * (acc % 256) + (256 * p) * (acc / 256) by {
      assert acc == acc % 256 + 256 * (acc / 256);
      MulSpread(p, acc % 256, 256, acc / 256);
      assert p * 256 == 256 * p;
    }
  }

  /** Flushing the last partial byte yields exactly the packed form. */
  lemma Flushed(vs: seq<nat>, width: nat, body: Bytes, acc: nat, nbits: nat)
    requires width * |vs| >= 0
    requires Packed(FromDigits(vs, Pow(2, width)), width * |vs|, body, acc, nbits) && nbits < 8
    ensures acc < 256
    ensures body + (if nbits > 0 then [acc] else []) == Pack(vs, width)
  {
    SmallAcc(acc, nbits);
    assert width * |vs| == |vs| * width;
    if nbits > 0 {
      FromSnoc(body, acc, 256);
      IsPacked(vs, width, body + [acc]);
    } else {
      assert acc == 0;
      assert body + [] == body;
      IsPacked(vs, width, body);
    }
  }

  lemma SmallAcc(acc: nat, nbits: nat)
    requires acc < Pow(2, nbits) && nbits < 8
    ensures acc < 256
  {
    PowMono(2, nbits, 8);
    Pow256(1);
    assert Pow(256, 1) == 256;
  }

  lemma IsPacked(vs: seq<nat>, width: nat, body: Bytes)
    requires |body| == PackedLen(|vs|, width) && FromDigits(body, 256) == FromDigits(vs, Pow(2, width))
    ensures body == Pack(vs, width)
  {
    ToFrom(body, 256, 0);
  }

  lemma NextValue(vs: seq<nat>, i: nat, width: nat)
    requires i < |vs|
    ensures width * i >= 0 && Pow(2, width * i) * vs[i] >= 0
    ensures width * (i + 1) == width * i + width
    ensures FromDigits(vs[..i + 1], Pow(2, width))
            == FromDigits(vs[..i], Pow(2, width)) + Pow(2, width * i) * vs[i]
  {
    assert vs[..i + 1] == vs[..i] + [vs[i]];
    FromSnoc(vs[..i], vs[i], Pow(2, width));
    PowPow(2, width, i);
  }

  /** The width used: zero stands for one. */
  function AtLeastOne(width: nat): (w: nat)
    ensures (width > 0 ==> w == width) && (width == 0 ==> w == 1)
  {
    if width == 0 then 1 else width
  }

  /** search/bitpack.go: the 64-bit accumulator takes a whole value at a time, which is
      safe for widths up to 32 because fewer than eight bits are pending. */
  method PackBits32(dst: Bytes, vs: seq<nat>, givenWidth: nat) returns (r: Bytes)
    requires givenWidth <= 32 && Below(vs, Pow(2, AtLeastOne(givenWidth)))
    ensures r == dst + Pack(vs, AtLeastOne(givenWidth))
  {
    hide PackedSoFar, Pack, Below, Pow;
    var width := AtLeastOne(givenWidth);
    var body: Bytes := [];
    var acc: nat, nbits: nat, i := 0, 0, 0;
    PackStart(vs, width);
    while i < |vs|
      invariant 0 <= i <= |vs| && nbits < 8 && PackedSoFar(vs, i, width, body, acc, nbits)
    {
      AddValue(vs, i, width, body, acc, nbits);
      acc, nbits := acc + vs[i] * Pow(2, nbits), nbits + width;
      i := i + 1;
      while nbits >= 8
        invariant PackedSoFar(vs, i, width, body, acc, nbits)
      {
        EmitNext(vs, i, width, body, acc, nbits);
        body := body + [acc % 256];
        acc, nbits := acc / 256, nbits - 8;
      }
    }
    FlushAll(vs, width, body, acc, nbits);
    if nbits > 0 {
      body := body + [acc];
    } else {
      assert body + [] == body;
    }
    r := dst + body;
  }

  /** The first `i` values are in the body and the accumulator. */
  ghost predicate PackedSoFar(vs: seq<nat>, i: nat, width: nat, body: Bytes, acc: nat, nbits: nat) {
    MulPositive(width, i);
    i <= |vs| && Packed(FromDigits(vs[..i], Pow(2, width)), width * i, body, acc, nbits)
  }

  lemma PackStart(vs: seq<nat>, width: nat)
    ensures PackedSoFar(vs, 0, width, [], 0, 0)
  {
    assert vs[..0] == [];
  }

  /** Another value fits the 64-bit accumulator. */
  lemma AddValue(vs: seq<nat>, i: nat, width: nat, body: Bytes, acc: nat, nbits: nat)
    requires PackedSoFar(vs, i, width, body, acc, nbits) && i < |vs| && nbits < 8 && width <= 32
    requires Below(vs, Pow(2, width))
    ensures vs[i] * Pow(2, nbits) >= 0
    ensures PackedSoFar(vs, i + 1, width, body, acc + vs[i] * Pow(2, nbits), nbits + width)
    ensures acc + vs[i] * Pow(2, nbits) < U64
  {
    hide Packed, FromDigits, Pow;
    NextValue(vs, i, width);
    AddBits(FromDigits(vs[..i], Pow(2, width)), width * i, body, acc, nbits, vs[i], width);
    PendingFits(FromDigits(vs[..i + 1], Pow(2, width)), width * (i + 1), body, acc + vs[i] * Pow(2, nbits),
      nbits + width);
  }

  lemma PendingFits(n: nat, bits: nat, body: Bytes, acc: nat, nbits: nat)
    requires Packed(n, bits, body, acc, nbits) && nbits <= 40
    ensures acc < U64
  {
    PowMono(2, nbits, 40);
    PowForty();
  }

  lemma EmitNext(vs: seq<nat>, i: nat, width: nat, body: Bytes, acc: nat, nbits: nat)
    requires PackedSoFar(vs, i, width, body, acc, nbits) && nbits >= 8
    ensures PackedSoFar(vs, i, width, body + [acc % 256], acc / 256, nbits - 8)
  {
    hide Packed, FromDigits, Pow;
    EmitByte(FromDigits(vs[..i], Pow(2, width)), width * i, body, acc, nbits);
  }

  lemma FlushAll(vs: seq<nat>, width: nat, body: Bytes, acc: nat, nbits: nat)
    requires PackedSoFar(vs, |vs|, width, body, acc, nbits) && nbits < 8
    ensures acc < 256
    ensures body + (if nbits > 0 then [acc] else []) == Pack(vs, width)
  {
    hide Packed, Pack;
    assert vs[..|vs|] == vs;
    Flushed(vs, width, body, acc, nbits);
  }

  lemma PowForty()
    ensures Pow(2, 40) <= U64
  {
    Pow256(5);
    assert Pow(256, 5) == 256 * Pow(256, 4) == 256 * (256 * Pow(256, 3));
    assert Pow(256, 3) == 256 * Pow(256, 2) == 256 * (256 * Pow(256, 1));
  }

  // ---- the reader: `outN` is the value read so far, `acc` the `nbits` loaded bits after it

  ghost predicate Reading(src: Bytes, pos: nat, outN: nat, bits: nat, acc: nat, nbits: nat) {
    && pos <= |src|
    && 8 * pos == bits + nbits
    && acc < Pow(2, nbits)
    && FromDigits(src[..pos], 256) == outN + Pow(2, bits) * acc
  }

  lemma LoadByte(src: Bytes, pos: nat, outN: nat, bits: nat, acc: nat, nbits: nat)
    requires Reading(src, pos, outN, bits, acc, nbits) && pos < |src|
    ensures src[pos] * Pow(2, nbits) >= 0
    ensures Reading(src, pos + 1, outN, bits, acc + src[pos] * Pow(2, nbits), nbits + 8)
  {
    hide Pow, FromDigits;
    var b: nat := src[pos];
    MulPositive(b, Pow(2, nbits));
    assert src[..pos + 1] == src[..pos] + [src[pos]];
    FromSnoc(src[..pos], b, 256);
    Pow256(pos);
    PowAdd(2, bits, nbits);
    PowEight();
    PowAdd(2, nbits, 8);
    ShiftBelow(acc, b, Pow(2, nbits), 256);
    ShiftValue(Pow(2, bits), acc, b, Pow(2, nbits));
  }

  lemma TakeBits(src: Bytes, pos: nat, outN: nat, bits: nat, acc: nat, nbits: nat, m: nat)
    requires Reading(src, pos, outN, bits, acc, nbits) && m <= nbits
    ensures Pow(2, bits) * Rem(acc, Pow(2, m)) >= 0
    ensures Reading(src, pos, outN + Pow(2, bits) * Rem(acc, Pow(2, m)), bits + m, Quot(acc, Pow(2, m)), nbits - m)
  {
    PowAdd(2, m, nbits - m);
    PowAdd(2, bits, m);
    TakeArith(acc, Pow(2, m), Pow(2, nbits - m), Pow(2, bits));
  }

  lemma TakeArith(acc: nat, base: nat, hi: nat, b: nat)
    requires base > 0 && acc < base * hi
    ensures b * Rem(acc, base) >= 0
    ensures Quot(acc, base) < hi
    ensures b * acc == b * Rem(acc, base) + (b * base) * Quot(acc, base)
  {
    MulPositive(b, Rem(acc, base));
    QuotRem(acc, base);
    MulGap(base, hi - 1, Quot(acc, base));
    MulSpread(b, Rem(acc, base), base, Quot(acc, base));
  }

  lemma Read(src: Bytes, pos: nat, outN: nat, bits: nat, acc: nat, nbits: nat)
    requires Reading(src, pos, outN, bits, acc, nbits)
    ensures pos <= |src| && 8 * pos == bits + nbits
    ensures FromDigits(src[..pos], 256) == outN + Pow(2, bits) * acc
  {
  }

  lemma ReadStart(src: Bytes, width: nat)
    ensures width * 0 == 0 && Reading(src, 0, FromDigits([], Pow(2, width)), 0, 0, 0)
  {
    assert src[..0] == [];
  }

  /** Reading is complete: the values are the ones the specification unpacks. */
  lemma Unpacked(src: Bytes, pos: nat, outs: seq<nat>, width: nat, acc: nat, nbits: nat)
    requires width * |outs| >= 0 && Below(outs, Pow(2, width)) && nbits < 8
    requires Reading(src, pos, FromDigits(outs, Pow(2, width)), width * |outs|, acc, nbits)
    ensures Unpack(src, |outs|, width) == Parsed(outs, src[pos..])
  {
    hide Pow, FromDigits, ToDigits, Reading;
    Read(src, pos, FromDigits(outs, Pow(2, width)), width * |outs|, acc, nbits);
    assert width * |outs| == |outs| * width;
    assert pos == PackedLen(|outs|, width);
    PowPow(2, width, |outs|);
    ToFrom(outs, Pow(2, width), acc);
  }

  /** The values read so far, and what is loaded beyond them. */
  ghost predicate ReadSoFar(src: Bytes, pos: nat, out: seq<nat>, width: nat, acc: nat, nbits: nat) {
    MulPositive(width, |out|);
    Below(out, Pow(2, width)) && Reading(src, pos, FromDigits(out, Pow(2, width)), width * |out|, acc, nbits)
  }

  lemma ReadNone(src: Bytes, width: nat)
    ensures ReadSoFar(src, 0, [], width, 0, 0)
  {
    ReadStart(src, width);
  }

  lemma TakeValue(src: Bytes, pos: nat, out: seq<nat>, width: nat, acc: nat, nbits: nat)
    requires ReadSoFar(src, pos, out, width, acc, nbits) && width <= nbits
    ensures ReadSoFar(src, pos, out + [Rem(acc, Pow(2, width))], width, Quot(acc, Pow(2, width)), nbits - width)
  {
    hide Reading, FromDigits, Pow;
    var bits := width * |out|;
    TakeBits(src, pos, FromDigits(out, Pow(2, width)), bits, acc, nbits, width);
    PowPow(2, width, |out|);
    FromSnoc(out, Rem(acc, Pow(2, width)), Pow(2, width));
    Next(width, |out|);
  }

  lemma Next(width: nat, n: nat)
    ensures width * (n + 1) == width * n + width
  {
  }

  method UnpackBits32(src: Bytes, count: nat, givenWidth: nat) returns (out: seq<nat>, pos: nat)
    requires givenWidth <= 32 && |src| >= PackedLen(count, AtLeastOne(givenWidth))
    ensures pos <= |src| && Unpack(src, count, AtLeastOne(givenWidth)) == Parsed(out, src[pos..])
  {
    hide Unpack, PackedLen, ReadSoFar, Pow;
    var width := AtLeastOne(givenWidth);
    out, pos := [], 0;
    var acc: nat, nbits: nat := 0, 0;
    ReadNone(src, width);
    while |out| < count
      invariant |out| <= count && nbits < 8 && ReadSoFar(src, pos, out, width, acc, nbits)
    {
      while nbits < width
        invariant ReadSoFar(src, pos, out, width, acc, nbits) && nbits < width + 8
        decreases width - nbits
      {
        LoadNext(src, pos, out, width, acc, nbits, count);
        acc := acc + src[pos] * Pow(2, nbits);
        pos, nbits := pos + 1, nbits + 8;
      }
      TakeValue(src, pos, out, width, acc, nbits);
      out := out + [Rem(acc, Pow(2, width))];
      acc, nbits := Quot(acc, Pow(2, width)), nbits - width;
    }
    ReadAll(src, pos, out, width, acc, nbits);
  }

  /** Another byte fits the 64-bit accumulator. */
  lemma LoadNext(src: Bytes, pos: nat, out: seq<nat>, width: nat, acc: nat, nbits: nat, count: nat)
    requires ReadSoFar(src, pos, out, width, acc, nbits) && nbits < width <= 32
    requires |out| < count && |src| >= PackedLen(count, width)
    ensures pos < |src| && src[pos] * Pow(2, nbits) >= 0
    ensures ReadSoFar(src, pos + 1, out, width, acc + src[pos] * Pow(2, nbits), nbits + 8)
    ensures acc + src[pos] * Pow(2, nbits) < U64
  {
    hide Reading, PackedLen, FromDigits, Pow;
    var outN, bits := FromDigits(out, Pow(2, width)), width * |out|;
    Read(src, pos, outN, bits, acc, nbits);
    Enough(src, pos, count, width, |out|, nbits);
    LoadByte(src, pos, outN, bits, acc, nbits);
    AccFits(src, pos + 1, outN, bits, acc + src[pos] * Pow(2, nbits), nbits + 8);
  }

  lemma ReadAll(src: Bytes, pos: nat, out: seq<nat>, width: nat, acc: nat, nbits: nat)
    requires ReadSoFar(src, pos, out, width, acc, nbits) && nbits < 8
    ensures Unpack(src, |out|, width) == Parsed(out, src[pos..]) && pos <= |src|
  {
    hide Unpack;
    MulPositive(width, |out|);
    Unpacked(src, pos, out, width, acc, nbits);
  }

  /** The 64-bit accumulator does not overflow. */
  lemma AccFits(src: Bytes, pos: nat, outN: nat, bits: nat, acc: nat, nbits: nat)
    requires Reading(src, pos, outN, bits, acc, nbits) && nbits <= 40
    ensures acc < U64
  {
    PowMono(2, nbits, 40);
    PowForty();
  }

  /** While a value is incomplete the packed body still has a byte to load. */
  lemma Enough(src: Bytes, pos: nat, count: nat, width: nat, i: nat, nbits: nat)
    requires i < count && nbits < width && |src| >= PackedLen(count, width)
    requires width * i >= 0 && 8 * pos == width * i + nbits
    ensures pos < |src|
  {
    MulGap(width, i, count);
    assert width * count == count * width;
  }
}
