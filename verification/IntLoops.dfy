/** The loops behind the integer encodings (encoding/encoding.go, encoding/integer.go): bit
    packing a byte-sized chunk at a time, so that widths up to 64 keep their high bits. */
module IntLoops {
  import opened Digits
  import opened Varint
  import opened BitPack
  import opened IntCodec
  import Postings

  // ---- chunks of a value

  function LowBits(v: nat, b: nat): nat {
    Rem(v, Pow(2, b))
  }

  function HighBits(v: nat, b: nat): nat {
    Quot(v, Pow(2, b))
  }

  lemma TakeChunk(v: nat, b: nat, m: nat)
    ensures Pow(2, b) * LowBits(HighBits(v, b), m) >= 0
    ensures LowBits(v, b + m) == LowBits(v, b) + Pow(2, b) * LowBits(HighBits(v, b), m)
  {
    PowAdd(2, b, m);
    ChunkArith(v, Pow(2, b), Pow(2, m));
  }

  lemma ChunkArith(v: nat, p: nat, q: nat)
    requires p > 0 && q > 0
    ensures p * q > 0 && p * Rem(Quot(v, p), q) >= 0
    ensures Rem(v, p * q) == Rem(v, p) + p * Rem(Quot(v, p), q)
  {
    MulPositive(p, q);
    QuotRem(v, p);
    QuotRem(Quot(v, p), q);
    var r, h, t := Rem(v, p), Rem(Quot(v, p), q), Quot(Quot(v, p), q);
    MulPositive(p, h);
    MulPositive(p * q, t);
    MulSpread(p, h, q, t);
    BelowStep(r, h, q, p);
    DivModUnique(t, r + p * h, p * q);
  }

  lemma NoBits(v: nat)
    ensures Pow(2, 0) == 1 && LowBits(v, 0) == 0
  {
    RemOne(v);
  }

  lemma RemOne(v: nat)
    ensures Rem(v, 1) == 0
  {
  }

  lemma AllBits(v: nat, w: nat)
    requires v < Pow(2, w)
    ensures LowBits(v, w) == v
  {
    RemSmall(v, Pow(2, w));
  }

  // ---- packing

  /** `b` bits of value `i` have been written after the values before it. */
  ghost predicate Writing(vs: seq<nat>, width: nat, i: nat, b: nat, body: Bytes, acc: nat, nbits: nat) {
    && i < |vs| && b <= width && width * i >= 0 && Pow(2, width * i) * LowBits(vs[i], b) >= 0
    && Packed(FromDigits(vs[..i], Pow(2, width)) + Pow(2, width * i) * LowBits(vs[i], b),
      width * i + b, body, acc, nbits)
  }

  lemma WritingStart(vs: seq<nat>, width: nat, i: nat, body: Bytes, acc: nat, nbits: nat)
    requires i < |vs| && width * i >= 0
    requires Packed(FromDigits(vs[..i], Pow(2, width)), width * i, body, acc, nbits)
    ensures Writing(vs, width, i, 0, body, acc, nbits)
  {
    hide Packed;
    NoBits(vs[i]);
    TimesZero(Pow(2, width * i));
  }

  lemma TimesZero(p: nat)
    ensures p * 0 == 0
  {
  }

  lemma WritingChunk(vs: seq<nat>, width: nat, i: nat, b: nat, body: Bytes, acc: nat, nbits: nat, m: nat)
    requires Writing(vs, width, i, b, body, acc, nbits) && b + m <= width
    ensures var c := LowBits(HighBits(vs[i], b), m);
      c * Pow(2, nbits) >= 0 && Writing(vs, width, i, b + m, body, acc + c * Pow(2, nbits), nbits + m)
  {
    hide Packed, LowBits, HighBits;
    var c, n := LowBits(HighBits(vs[i], b), m), FromDigits(vs[..i], Pow(2, width));
    var p := Pow(2, width * i);
    ChunkBelow(HighBits(vs[i], b), m);
    AddBits(n + p * LowBits(vs[i], b), width * i + b, body, acc, nbits, c, m);
    PowAdd(2, width * i, b);
    TakeChunk(vs[i], b, m);
    MulPositive(p, LowBits(vs[i], b + m));
    MulSpread(p, LowBits(vs[i], b), Pow(2, b), c);
  }

  lemma ChunkBelow(v: nat, m: nat)
    ensures LowBits(v, m) < Pow(2, m)
  {
  }

  lemma WritingByte(vs: seq<nat>, width: nat, i: nat, b: nat, body: Bytes, acc: nat)
    requires Writing(vs, width, i, b, body, acc, 8)
    ensures acc < 256 && Writing(vs, width, i, b, body + [acc], 0, 0)
  {
    assert Pow(2, 8) == 256 by { Pow256(1); assert Pow(256, 1) == 256; }
    EmitByte(FromDigits(vs[..i], Pow(2, width)) + Pow(2, width * i) * LowBits(vs[i], b), width * i + b, body, acc, 8);
  }

  lemma WritingEnd(vs: seq<nat>, width: nat, i: nat, body: Bytes, acc: nat, nbits: nat)
    requires Writing(vs, width, i, width, body, acc, nbits) && Below(vs, Pow(2, width))
    ensures width * (i + 1) >= 0
    ensures Packed(FromDigits(vs[..i + 1], Pow(2, width)), width * (i + 1), body, acc, nbits)
  {
    hide Packed;
    AllBits(vs[i], width);
    NextValue(vs, i, width);
  }

  /** `packBits`: fewer than eight bits are ever pending. */
  method PackBits64(dst: Bytes, vs: seq<nat>, width: nat) returns (r: Bytes)
    requires 1 <= width <= 64 && Below(vs, Pow(2, width))
    ensures r == dst + Pack(vs, width)
  {
    hide Writing, Packed, LowBits, HighBits, FromDigits, Pow;
    var body: Bytes := [];
    var acc: nat, nbits: nat, i := 0, 0, 0;
    PackedNone(vs, width);
    while i < |vs|
      invariant 0 <= i <= |vs| && nbits < 8 && width * i >= 0
      invariant Packed(FromDigits(vs[..i], Pow(2, width)), width * i, body, acc, nbits)
    {
      WritingStart(vs, width, i, body, acc, nbits);
      var b := 0;
      while b < width
        invariant 0 <= b <= width && nbits < 8 && Writing(vs, width, i, b, body, acc, nbits)
      {
        var chunk := Min(width - b, 8 - nbits);
        WritingChunk(vs, width, i, b, body, acc, nbits, chunk);
        acc := acc + LowBits(HighBits(vs[i], b), chunk) * Pow(2, nbits);
        nbits, b := nbits + chunk, b + chunk;
        if nbits == 8 {
          WritingByte(vs, width, i, b, body, acc);
          body := body + [acc];
          acc, nbits := 0, 0;
        }
      }
      WritingEnd(vs, width, i, body, acc, nbits);
      i := i + 1;
    }
    assert vs[..i] == vs;
    Flushed(vs, width, body, acc, nbits);
    if nbits > 0 {
      body := body + [acc];
    } else {
      assert body + [] == body;
    }
    r := dst + body;
  }

  lemma PackedNone(vs: seq<nat>, width: nat)
    ensures width * 0 == 0 && Packed(FromDigits(vs[..0], Pow(2, width)), 0, [], 0, 0)
  {
    NoBits(0);
    assert vs[..0] == [];
    TimesZero(Pow(256, 0));
  }

  // ---- unpacking

  /** `got` bits of the next value are in `v`; `nbits` more wait in `acc`. */
  ghost predicate Loading(src: Bytes, pos: nat, out: seq<nat>, width: nat, v: nat, got: nat, acc: nat, nbits: nat) {
    && got <= width && width * |out| >= 0 && v < Pow(2, got) && Pow(2, width * |out|) * v >= 0
    && Reading(src, pos, FromDigits(out, Pow(2, width)) + Pow(2, width * |out|) * v, width * |out| + got, acc, nbits)
  }

  lemma LoadingStart(src: Bytes, pos: nat, out: seq<nat>, width: nat, acc: nat, nbits: nat)
    requires width * |out| >= 0 && Reading(src, pos, FromDigits(out, Pow(2, width)), width * |out|, acc, nbits)
    ensures Loading(src, pos, out, width, 0, 0, acc, nbits)
  {
    hide Reading;
    NoBits(0);
    TimesZero(Pow(2, width * |out|));
  }

  lemma LoadingByte(src: Bytes, pos: nat, out: seq<nat>, width: nat, v: nat, got: nat, acc: nat)
    requires Loading(src, pos, out, width, v, got, acc, 0) && pos < |src|
    ensures Loading(src, pos + 1, out, width, v, got, src[pos], 8)
  {
    NoBits(0);
    LoadByte(src, pos, FromDigits(out, Pow(2, width)) + Pow(2, width * |out|) * v, width * |out| + got, acc, 0);
    assert acc == 0;
  }

  lemma LoadingTake(src: Bytes, pos: nat, out: seq<nat>, width: nat, v: nat, got: nat, acc: nat, nbits: nat, m: nat)
    requires Loading(src, pos, out, width, v, got, acc, nbits) && m <= nbits && got + m <= width
    ensures LowBits(acc, m) * Pow(2, got) >= 0
    ensures Loading(src, pos, out, width, v + LowBits(acc, m) * Pow(2, got), got + m, HighBits(acc, m), nbits - m)
  {
    hide Reading;
    var c, p := LowBits(acc, m), Pow(2, width * |out|);
    TakeBits(src, pos, FromDigits(out, Pow(2, width)) + p * v, width * |out| + got, acc, nbits, m);
    PowAdd(2, width * |out|, got);
    PowAdd(2, got, m);
    ChunkBelow(acc, m);
    MulPositive(c, Pow(2, got));
    ShiftBelow(v, c, Pow(2, got), Pow(2, m));
    ShiftValue(p, v, c, Pow(2, got));
    MulPositive(p, v + c * Pow(2, got));
  }

  lemma LoadingEnd(src: Bytes, pos: nat, out: seq<nat>, width: nat, v: nat, acc: nat, nbits: nat)
    requires Loading(src, pos, out, width, v, width, acc, nbits) && Below(out, Pow(2, width))
    ensures width * |out + [v]| >= 0 && Below(out + [v], Pow(2, width))
    ensures Reading(src, pos, FromDigits(out + [v], Pow(2, width)), width * |out + [v]|, acc, nbits)
  {
    hide Reading;
    PowPow(2, width, |out|);
    FromSnoc(out, v, Pow(2, width));
    Distribute(width, |out|, 1, 0);
    assert width * (|out| + 1) == width * |out| + width;
  }

  /** A value that still lacks bits when the bytes are out means the stream is short. */
  lemma ShortStream(src: Bytes, out: seq<nat>, width: nat, v: nat, got: nat, acc: nat, count: nat)
    requires Loading(src, |src|, out, width, v, got, acc, 0) && |out| < count && got < width
    ensures Unpack(src, count, width).Short?
  {
    MulGap(width, |out|, count);
    assert width * count == count * width;
    assert 8 * |src| == width * |out| + got;
  }

  /** `unpackBits`. */
  method UnpackBits64(src: Bytes, count: nat, width: nat) returns (ok: bool, out: seq<nat>, pos: nat)
    ensures ok <==> Unpack(src, count, width).Parsed?
    ensures ok ==> pos <= |src| && Unpack(src, count, width) == Parsed(out, src[pos..])
  {
    hide Loading, Reading, LowBits, HighBits, FromDigits, Pow, Unpack;
    if width == 0 {
      out := seq(count, _ => 0);
      NoWidth(src, count, out);
      assert src[0..] == src;
      return true, out, 0;
    }
    out, pos := [], 0;
    var acc: nat, nbits: nat := 0, 0;
    ReadingNone(src, width);
    while |out| < count
      invariant |out| <= count && nbits < 8 && pos <= |src| && width * |out| >= 0 && Below(out, Pow(2, width))
      invariant Reading(src, pos, FromDigits(out, Pow(2, width)), width * |out|, acc, nbits)
    {
      LoadingStart(src, pos, out, width, acc, nbits);
      var v: nat, got := 0, 0;
      while got < width
        invariant 0 <= got <= width && nbits < 8 && pos <= |src| && Loading(src, pos, out, width, v, got, acc, nbits)
      {
        if nbits == 0 {
          if pos >= |src| {
            ShortStream(src, out, width, v, got, acc, count);
            return false, out, pos;
          }
          LoadingByte(src, pos, out, width, v, got, acc);
          acc, nbits, pos := src[pos], 8, pos + 1;
        }
        var take := Min(width - got, nbits);
        LoadingTake(src, pos, out, width, v, got, acc, nbits, take);
        v := v + LowBits(acc, take) * Pow(2, got);
        acc, nbits, got := HighBits(acc, take), nbits - take, got + take;
      }
      LoadingEnd(src, pos, out, width, v, acc, nbits);
      out := out + [v];
    }
    UnpackDone(src, pos, out, width, acc, nbits);
    ok := true;
  }

  lemma NoWidth(src: Bytes, count: nat, out: seq<nat>)
    requires |out| == count && forall i :: 0 <= i < count ==> out[i] == 0
    ensures Unpack(src, count, 0) == Parsed(out, src)
  {
    hide ToDigits, FromDigits;
    assert PackedLen(count, 0) == 0 by { TimesZero(count); }
    assert src[..0] == [] && src[0..] == src;
    NoBits(0);
    ZeroDigits(count, out);
    NoValue();
  }

  lemma NoValue()
    ensures FromDigits([], 256) == 0
  {
  }

  lemma {:induction false} ZeroDigits(count: nat, out: seq<nat>)
    requires |out| == count && forall i :: 0 <= i < count ==> out[i] == 0
    ensures ToDigits(0, 1, count) == out
    decreases count
  {
    if count > 0 {
      ZeroDigits(count - 1, out[1..]);
      RemOne(0);
      assert Quot(0, 1) == 0;
      assert out == [0] + out[1..];
    }
  }

  lemma ReadingNone(src: Bytes, width: nat)
    ensures width * 0 == 0 && Reading(src, 0, FromDigits([], Pow(2, width)), 0, 0, 0) && Below([], Pow(2, width))
  {
    NoBits(0);
    assert src[..0] == [];
    TimesZero(Pow(2, 0));
  }

  lemma UnpackDone(src: Bytes, pos: nat, outs: seq<nat>, width: nat, acc: nat, nbits: nat)
    requires width * |outs| >= 0 && Below(outs, Pow(2, width)) && nbits < 8
    requires Reading(src, pos, FromDigits(outs, Pow(2, width)), width * |outs|, acc, nbits)
    ensures pos <= |src| && Unpack(src, |outs|, width) == Parsed(outs, src[pos..])
  {
    Unpacked(src, pos, outs, width, acc, nbits);
  }

  // ---- frame of reference and deltas

  /** `minMax` in signed or unsigned order. */
  method MinMax(vs: seq<nat>, signed: bool) returns (lo: nat, hi: nat)
    requires vs != []
    ensures IsMinMax(vs, signed, lo, hi)
  {
    hide Rank;
    lo, hi := vs[0], vs[0];
    var i := 1;
    while i < |vs|
      invariant 1 <= i <= |vs| && IsMinMax(vs[..i], signed, lo, hi)
    {
      assert vs[..i + 1] == vs[..i] + [vs[i]];
      if Rank(vs[i], signed) < Rank(lo, signed) {
        lo := vs[i];
      }
      if Rank(hi, signed) < Rank(vs[i], signed) {
        hi := vs[i];
      }
      i := i + 1;
    }
    assert vs[..i] == vs;
  }

  lemma MinMaxIs(vs: seq<nat>, signed: bool, lo: nat, hi: nat)
    requires vs != [] && Words(vs) && IsMinMax(vs, signed, lo, hi)
    ensures lo == MinOf(vs, signed) && hi == MaxOf(vs, signed)
  {
    hide MinOf, MaxOf;
    Extremes(vs, signed);
    RankInjective(lo, MinOf(vs, signed), signed);
    RankInjective(hi, MaxOf(vs, signed), signed);
  }

  lemma RankInjective(a: nat, b: nat, signed: bool)
    requires a < U64 && b < U64
    ensures Rank(a, signed) == Rank(b, signed) ==> a == b
  {
  }

  /** `encodeBitpackFOR`. */
  method AppendFor(dst: Bytes, vs: seq<nat>, signed: bool) returns (r: Bytes)
    requires Words(vs)
    ensures r == dst + EncodeFor(vs, signed)
  {
    hide Pack, Encode, MinOf, MaxOf, Rank, Pow, Words;
    if |vs| == 0 {
      return dst + [1];
    }
    var lo, hi := MinMax(vs, signed);
    MinMaxIs(vs, signed, lo, hi);
    ResidualsFit(vs, signed);
    var width := Postings.MinWidth(Minus(hi, lo));
    r := dst + [width];
    r := AppendUvarint(r, lo);
    var res: seq<nat>, i := [], 0;
    while i < |vs|
      invariant 0 <= i <= |vs| && |res| == i && forall j :: 0 <= j < i ==> res[j] == Minus(vs[j], lo)
    {
      res := res + [Minus(vs[i], lo)];
      i := i + 1;
    }
    assert res == Residuals(vs, lo);
    r := PackBits64(r, res, width);
    assert r == dst + ([width] + (Encode(lo) + Pack(res, width)));
  }

  /** `decodeBitpackFOR`. */
  method ReadFor(src: Bytes, count: nat) returns (ok: bool, out: seq<nat>)
    ensures ok <==> DecodeFor(src, count).Parsed?
    ensures ok ==> out == DecodeFor(src, count).value
  {
    hide Decode, Unpack;
    if count == 0 {
      return true, [];
    }
    if |src| < 1 {
      return false, [];
    }
    match Decode(src[1..]) {
      case Short => ok, out := false, [];
      case Parsed(base, s1) =>
        var rs, pos;
        ok, rs, pos := UnpackBits64(s1, count, src[0]);
        out := rs;
        if ok {
          var i := 0;
          while i < |out|
            invariant 0 <= i <= |out| == |rs|
            invariant forall j :: 0 <= j < i ==> out[j] == Wrap(rs[j] + base)
            invariant forall j :: i <= j < |rs| ==> out[j] == rs[j]
          {
            out := out[i := Wrap(out[i] + base)];
            i := i + 1;
          }
          assert out == Rebased(rs, base);
        }
    }
  }

  /** `encodeDelta`. */
  method AppendDelta(dst: Bytes, vs: seq<nat>) returns (r: Bytes)
    requires Words(vs)
    ensures r == dst + EncodeDelta(vs)
  {
    hide Encode, EncodeFor, Zigzag, Deltas, Minus;
    if |vs| == 0 {
      return dst + [];
    }
    r := AppendUvarint(dst, vs[0]);
    var ds: seq<nat>, i := [], 1;
    assert vs[0..] == vs;
    while i < |vs|
      invariant 1 <= i <= |vs| && ds + Deltas(vs[i - 1..]) == Deltas(vs)
    {
      DeltasStep(ds, vs, i);
      ds := ds + [Zigzag(Minus(vs[i], vs[i - 1]))];
      i := i + 1;
    }
    LastDelta(ds, vs);
    DeltasUndone(vs);
    r := AppendFor(r, ds, false);
    Split3(dst, Encode(vs[0]), EncodeFor(ds, false));
  }

  lemma DeltasStep(ds: seq<nat>, vs: seq<nat>, i: nat)
    requires 1 <= i < |vs|
    ensures Minus(vs[i], vs[i - 1]) < U64
    ensures ds + Deltas(vs[i - 1..]) == (ds + [Zigzag(Minus(vs[i], vs[i - 1]))]) + Deltas(vs[i..])
  {
    hide Zigzag, Minus;
    WrapBelow(vs[i], vs[i - 1]);
    assert vs[i - 1..][1..] == vs[i..];
  }

  lemma LastDelta(ds: seq<nat>, vs: seq<nat>)
    requires vs != []
    ensures ds + Deltas(vs[|vs| - 1..]) == ds
  {
  }

  // ---- runs

  /** `runLengthAt`. */
  method RunLengthAt(vs: seq<nat>, i: nat) returns (n: nat)
    requires i < |vs|
    ensures n == RunLen(vs[i..])
  {
    var j := i + 1;
    while j < |vs| && vs[j] == vs[i]
      invariant i < j <= |vs| && vs[j - 1] == vs[i]
      invariant RunLen(vs[i..]) == (j - 1 - i) + RunLen(vs[j - 1..])
    {
      assert vs[j - 1..][1..] == vs[j..];
      j := j + 1;
    }
    n := j - i;
  }

  /** The literals up to the next qualifying run. */
  method LiteralsAt(vs: seq<nat>, i: nat) returns (j: nat)
    requires i < |vs|
    ensures i <= j <= |vs| && j - i == LiteralLen(vs[i..])
  {
    hide RunLen;
    j := i;
    while j < |vs|
      invariant i <= j <= |vs| && LiteralLen(vs[i..]) == (j - i) + LiteralLen(vs[j..])
    {
      var run := RunLengthAt(vs, j);
      if run >= MIN_RUN {
        return;
      }
      assert vs[j..][1..] == vs[j + 1..];
      j := j + 1;
    }
  }

  /** `encodeRLE`. */
  method AppendRle(dst: Bytes, vs: seq<nat>) returns (r: Bytes)
    requires Words(vs)
    ensures r == dst + EncodeRle(vs)
  {
    hide Groups, RunLen, LiteralLen, RunBytes, LiteralBytes, MaxOf, MinOf, Pow, Rank, Words;
    if |vs| == 0 {
      return dst + [1];
    }
    var lo, hi := MinMax(vs, false);
    MinMaxIs(vs, false, lo, hi);
    RleWidth(vs);
    var width := Postings.MinWidth(hi);
    var body: Bytes, i: nat := [], 0;
    assert vs[0..] == vs;
    while i < |vs|
      invariant i <= |vs| && body + Groups(vs[i..], width) == Groups(vs, width)
      decreases |vs| - i
    {
      var g, n := AppendGroup(vs, i, width);
      Split3(body, g, Groups(vs[i + n..], width));
      body := body + g;
      i := i + n;
    }
    assert vs[i..] == [];
    GroupsAre([], width);
    r := dst + ([width] + body);
  }

  method AppendGroup(vs: seq<nat>, i: nat, width: nat) returns (g: Bytes, n: nat)
    requires i < |vs| && 1 <= width <= 64 && Below(vs, Pow(2, width))
    ensures 0 < n <= |vs| - i && Groups(vs[i..], width) == g + Groups(vs[i + n..], width)
  {
    hide Groups, Pack, Encode, Pow;
    var tail := vs[i..];
    GroupsAre(tail, width);
    var run := RunLengthAt(vs, i);
    if run >= MIN_RUN {
      g := AppendUvarint([], 2 * run + 1);
      assert vs[i..i + 1] == [tail[0]];
      g := PackBits64(g, vs[i..i + 1], width);
      assert [] + Encode(2 * run + 1) == Encode(2 * run + 1);
      n := run;
    } else {
      var j := LiteralsAt(vs, i);
      g := AppendUvarint([], 2 * (j - i));
      assert vs[i..j] == tail[..j - i];
      g := PackBits64(g, vs[i..j], width);
      assert [] + Encode(2 * (j - i)) == Encode(2 * (j - i));
      n := j - i;
    }
    assert tail[n..] == vs[i + n..];
  }

  /** `decodeDelta`. */
  method ReadDelta(src: Bytes, count: nat) returns (ok: bool, out: seq<nat>)
    ensures ok <==> DecodeDelta(src, count).Parsed?
    ensures ok ==> out == DecodeDelta(src, count).value
  {
    hide Decode, DecodeFor, Undelta, Unzigzag;
    ok, out := false, [];
    if count == 0 {
      return true, [];
    }
    match Decode(src) {
      case Short =>
      case Parsed(first, s1) =>
        var ds;
        ok, ds := ReadFor(s1, count - 1);
        if ok {
          out := Sum(first, ds);
        }
    }
  }

  /** Running sums of the decoded deltas, in 64-bit words. */
  method Sum(first: nat, ds: seq<nat>) returns (out: seq<nat>)
    ensures out == Undelta(first, ds)
  {
    hide Unzigzag;
    out := [first];
    var i := 0;
    assert ds[0..] == ds;
    while i < |ds|
      invariant 0 <= i <= |ds| && |out| == i + 1
      invariant out[..i] + Undelta(out[i], ds[i..]) == Undelta(first, ds)
    {
      assert ds[i..][1..] == ds[i + 1..];
      var next := Wrap(out[i] + Unzigzag(ds[i]));
      assert (out + [next])[..i + 1] == out[..i] + [out[i]];
      out := out + [next];
      i := i + 1;
    }
    assert ds[i..] == [];
    assert out == out[..i] + [out[i]];
  }

  /** The whole decoding is what is out so far and the decoding of the rest. */
  ghost predicate Joins(whole: Parsed<seq<nat>>, out: seq<nat>, rest: Parsed<seq<nat>>) {
    whole == if rest.Short? then Short else Parsed(out + rest.value, rest.rest)
  }

  lemma JoinsNext(whole: Parsed<seq<nat>>, out: seq<nat>, src: Bytes, w: nat, left: nat)
    requires left > 0 && Joins(whole, out, DecodeGroups(src, w, left))
    ensures DecodeGroup(src, w, left).Short? ==> whole.Short?
    ensures DecodeGroup(src, w, left).Parsed? ==> var p := DecodeGroup(src, w, left);
      |p.rest| < |src| && Joins(whole, out + p.value, DecodeGroups(p.rest, w, left - |p.value|))
  {
    hide DecodeGroup;
    GroupShrinks(src, w, left);
    var p := DecodeGroup(src, w, left);
    if p.Parsed? {
      var q := DecodeGroups(p.rest, w, left - |p.value|);
      if q.Parsed? { assert (out + p.value) + q.value == out + (p.value + q.value); }
    }
  }

  /** `decodeRLE`. */
  method ReadRle(src: Bytes, count: nat) returns (ok: bool, out: seq<nat>)
    ensures ok <==> DecodeRle(src, count).Parsed?
    ensures ok ==> out == DecodeRle(src, count).value
  {
    hide DecodeGroup, DecodeGroups;
    ok, out := false, [];
    if |src| < 1 {
      return;
    }
    var w, left, rest: Bytes := src[0], count, src[1..];
    ghost var whole := DecodeGroups(rest, w, count);
    JoinsStart(whole);
    while |out| < count
      invariant |out| <= count && Joins(whole, out, DecodeGroups(rest, w, count - |out|))
      decreases |rest|
    {
      JoinsNext(whole, out, rest, w, count - |out|);
      var good, vs, rest' := ReadGroup(rest, w, count - |out|);
      if !good {
        return;
      }
      out, rest := out + vs, rest';
    }
    NoGroups(rest, w);
    assert out + [] == out;
    ok := true;
  }

  lemma JoinsStart(whole: Parsed<seq<nat>>)
    ensures Joins(whole, [], whole)
  {
    if whole.Parsed? { assert [] + whole.value == whole.value; }
  }

  /** One control varint and its body: a run, or literals. */
  method ReadGroup(src: Bytes, w: nat, left: nat) returns (ok: bool, vs: seq<nat>, rest: Bytes)
    ensures ok <==> DecodeGroup(src, w, left).Parsed?
    ensures ok ==> DecodeGroup(src, w, left) == Parsed(vs, rest)
  {
    hide Decode, Unpack;
    ok, vs, rest := false, [], src;
    match Decode(src) {
      case Short =>
      case Parsed(ctrl, s1) =>
        var body, pos;
        if ctrl % 2 == 1 {
          ok, body, pos := UnpackBits64(s1, 1, w);
          if ok {
            var r := 0;
            while r < ctrl / 2 && |vs| < left
              invariant 0 <= r <= ctrl / 2 && |vs| == r && r <= left
              invariant forall i :: 0 <= i < r ==> vs[i] == body[0]
            {
              vs, r := vs + [body[0]], r + 1;
            }
            assert vs == Copies(body[0], Min(ctrl / 2, left));
            rest := s1[pos..];
          }
        } else {
          ok, body, pos := UnpackBits64(s1, ctrl / 2, w);
          if ok {
            var r := 0;
            while r < ctrl / 2 && |vs| < left
              invariant 0 <= r <= ctrl / 2 == |body| && |vs| == r && r <= left && vs == body[..r]
            {
              vs, r := vs + [body[r]], r + 1;
            }
            rest := s1[pos..];
          }
        }
    }
  }
}
