/** Integer pages (cascade.go): present rows gathered into 64-bit words, the smallest of the
    candidate encodings kept, and on reading the values put back around the nulls. */
module Cascade {
  import opened Digits
  import opened Varint
  import opened BitPack
  import opened IntCodec
  import opened IntLoops
  import GroupVarint
  import PForDelta

  datatype Row = Null | Present(x: int)

  /** An integer column type: its width in bits, and whether it is signed. */
  datatype Type = Type(bits: nat, signed: bool)

  predicate IsType(t: Type) {
    t.bits == 8 || t.bits == 16 || t.bits == 32 || t.bits == 64
  }

  function Span(t: Type): nat
    requires IsType(t)
  {
    if t.bits == 8 then 0x100 else if t.bits == 16 then 0x1_0000 else if t.bits == 32 then U32 else U64
  }

  ghost predicate InRange(x: int, t: Type)
    requires IsType(t)
  {
    if t.signed then -(Span(t) / 2) <= x < Span(t) / 2 else 0 <= x < Span(t)
  }

  /** Sign-extended, or zero-extended, to a word. */
  function Widen(x: int): nat {
    Wrap(x)
  }

  function LowOf(v: nat, t: Type): nat
    requires IsType(t)
  {
    v % Span(t)
  }

  /** The low bits of a word, read back as the type. */
  function Narrow(v: nat, t: Type): int
    requires IsType(t)
  {
    var low := LowOf(v, t);
    if t.signed && low >= Span(t) / 2 then low - Span(t) else low
  }

  lemma LowWord(x: int, t: Type)
    requires IsType(t)
    ensures Wrap(x) % Span(t) == x % Span(t)
  {
    var q := x / U64;
    assert x == U64 * q + Wrap(x);
    if t.bits == 8 {
      ModIs(x, 0x100, 0x100_0000_0000_0000 * q + Wrap(x) / 0x100, Wrap(x) % 0x100);
    } else if t.bits == 16 {
      ModIs(x, 0x1_0000, 0x1_0000_0000_0000 * q + Wrap(x) / 0x1_0000, Wrap(x) % 0x1_0000);
    } else if t.bits == 32 {
      ModIs(x, U32, U32 * q + Wrap(x) / U32, Wrap(x) % U32);
    }
  }

  lemma ModIs(x: int, n: nat, q: int, r: int)
    requires 0 <= r < n && x == n * q + r
    ensures x % n == r
  {
    assert x == n * (x / n) + x % n;
    MulGap(n, q, x / n);
    MulGap(n, x / n, q);
  }

  lemma NarrowWiden(x: int, t: Type)
    requires IsType(t) && InRange(x, t)
    ensures Widen(x) < U64 && Narrow(Widen(x), t) == x
  {
    LowWord(x, t);
    SpanEven(t);
    hide Span;
    LowOfSigned(x, Span(t));
  }

  lemma SpanEven(t: Type)
    requires IsType(t)
    ensures Span(t) == 2 * (Span(t) / 2) && Span(t) > 0
  {
  }

  lemma LowOfSigned(x: int, n: int)
    requires n > 0
    ensures 0 <= x < n ==> x % n == x
    ensures 0 <= x + n < n ==> x % n == x + n
  {
    if 0 <= x < n {
      TimesZero(n);
      ModIs(x, n, 0, x);
    }
    if 0 <= x + n < n {
      assert n * -1 == -n;
      ModIs(x, n, -1, x + n);
    }
  }

  // ---- gathering and scattering

  function Dense(rows: seq<Row>): seq<nat> {
    if rows == [] then [] else
      var n := |rows| - 1;
      Dense(rows[..n]) + if rows[n].Present? then [Widen(rows[n].x)] else []
  }

  /** What a page must read back as: its values, zero where there was none. */
  function Values(rows: seq<Row>): (r: seq<int>)
    ensures |r| == |rows| && forall i :: 0 <= i < |rows| ==> r[i] == if rows[i].Present? then rows[i].x else 0
  {
    seq(|rows|, i requires 0 <= i < |rows| => if rows[i].Present? then rows[i].x else 0)
  }

  function Mask(rows: seq<Row>): (r: seq<bool>)
    ensures |r| == |rows| && forall i :: 0 <= i < |rows| ==> r[i] == rows[i].Present?
  {
    seq(|rows|, i requires 0 <= i < |rows| => rows[i].Present?)
  }

  method GatherUint64(rows: seq<Row>) returns (dense: seq<nat>)
    ensures dense == Dense(rows)
  {
    dense := [];
    var j := 0;
    while j < |rows|
      invariant 0 <= j <= |rows| && dense == Dense(rows[..j])
    {
      assert rows[..j + 1][..j] == rows[..j];
      if rows[j].Present? {
        dense := dense + [Widen(rows[j].x)];
      }
      j := j + 1;
    }
    assert rows[..j] == rows;
  }

  function Count(mask: seq<bool>): nat {
    if mask == [] then 0 else Count(mask[..|mask| - 1]) + if mask[|mask| - 1] then 1 else 0
  }

  method PresentCount(mask: seq<bool>) returns (c: nat)
    ensures c == Count(mask)
  {
    c := 0;
    var i := 0;
    while i < |mask|
      invariant 0 <= i <= |mask| && c == Count(mask[..i])
    {
      assert mask[..i + 1][..i] == mask[..i];
      if mask[i] {
        c := c + 1;
      }
      i := i + 1;
    }
    assert mask[..i] == mask;
  }

  lemma {:induction false} CountPrefix(mask: seq<bool>, i: nat)
    requires i <= |mask|
    ensures Count(mask[..i]) <= Count(mask)
    decreases |mask| - i
  {
    if i < |mask| {
      CountPrefix(mask, i + 1);
      assert mask[..i + 1][..i] == mask[..i];
    } else {
      assert mask[..i] == mask;
    }
  }

  /** The dense values on their rows, zero on the others. */
  function Scattered(dense: seq<nat>, mask: seq<bool>, t: Type): (r: seq<int>)
    requires IsType(t) && |dense| == Count(mask)
    ensures |r| == |mask|
    decreases |mask|
  {
    if mask == [] then [] else
      var n := |mask| - 1;
      if mask[n] then Scattered(dense[..|dense| - 1], mask[..n], t) + [Narrow(dense[|dense| - 1], t)]
      else Scattered(dense, mask[..n], t) + [0]
  }

  lemma {:induction false} DenseWords(rows: seq<Row>)
    ensures Words(Dense(rows)) && |Dense(rows)| <= |rows|
    decreases |rows|
  {
    if rows != [] {
      DenseWords(rows[..|rows| - 1]);
    }
  }

  /** Narrowed values land on their rows; null rows keep zero. */
  method ScatterUint64(t: Type, dense: seq<nat>, mask: seq<bool>) returns (out: array<int>)
    requires IsType(t) && |dense| == Count(mask)
    ensures fresh(out) && out[..] == Scattered(dense, mask, t)
  {
    hide Narrow, IsType;
    out := new int[|mask|](_ => 0);
    var k, i := 0, 0;
    assert dense[..0] == [];
    while i < |mask|
      invariant 0 <= i <= |mask| && k == Count(mask[..i]) <= |dense|
      invariant out[..i] == Scattered(dense[..k], mask[..i], t)
      invariant forall j :: i <= j < |mask| ==> out[j] == 0
    {
      CountPrefix(mask, i + 1);
      assert mask[..i + 1][..i] == mask[..i];
      if mask[i] {
        assert dense[..k + 1][..k] == dense[..k];
        out[i] := Narrow(dense[k], t);
        k := k + 1;
      }
      assert out[..i + 1] == out[..i] + [out[i]];
      i := i + 1;
    }
    assert mask[..i] == mask && dense[..k] == dense && out[..i] == out[..];
  }

  lemma {:induction false} DenseCount(rows: seq<Row>)
    ensures |Dense(rows)| == Count(Mask(rows))
    decreases |rows|
  {
    if rows != [] {
      DenseCount(rows[..|rows| - 1]);
      assert Mask(rows)[..|rows| - 1] == Mask(rows[..|rows| - 1]);
    }
  }

  /** Gathering then scattering restores present rows and leaves nulls at zero, even when only
      the type's low bits were kept. */
  lemma {:induction false} ScatterRestores(rows: seq<Row>, t: Type, dense: seq<nat>)
    requires IsType(t) && (dense == Dense(rows) || dense == Lows(Dense(rows), t))
    requires forall i :: 0 <= i < |rows| && rows[i].Present? ==> InRange(rows[i].x, t)
    ensures |dense| == Count(Mask(rows)) && Scattered(dense, Mask(rows), t) == Values(rows)
    decreases |rows|
  {
    hide InRange, Widen, Narrow, IsType, LowOf;
    DenseCount(rows);
    if rows != [] {
      var n := |rows| - 1;
      var front := rows[..n];
      assert Mask(rows)[..n] == Mask(front);
      assert Values(rows) == Values(front) + [Values(rows)[n]];
      if rows[n].Present? {
        NarrowWiden(rows[n].x, t);
        NarrowLow(Widen(rows[n].x), t);
        assert Lows(Dense(rows), t)[..|dense| - 1] == Lows(Dense(front), t);
        ScatterRestores(front, t, dense[..|dense| - 1]);
      } else {
        ScatterRestores(front, t, dense);
      }
    }
  }

  function Lows(dense: seq<nat>, t: Type): (r: seq<nat>)
    requires IsType(t)
    ensures |r| == |dense| && forall i :: 0 <= i < |dense| ==> r[i] == LowOf(dense[i], t)
  {
    seq(|dense|, i requires 0 <= i < |dense| => LowOf(dense[i], t))
  }

  /** Narrowing sees only the low bits. */
  lemma NarrowLow(v: nat, t: Type)
    requires IsType(t)
    ensures Narrow(LowOf(v, t), t) == Narrow(v, t)
  {
  }

  // ---- the sampler

  datatype Encoding = Plain | Coded(id: Id)

  /** Fixed-width little-endian values: packing at a whole number of bytes. */
  function PlainBytes(dense: seq<nat>, t: Type): Bytes
    requires IsType(t)
  {
    Pack(Lows(dense, t), t.bits)
  }

  /** The page body an encoding gives, if it applies. */
  function Body(e: Encoding, dense: seq<nat>, t: Type): Encoded
    requires IsType(t)
  {
    match e
    case Plain => Encoded.Bytes(PlainBytes(dense, t))
    case Coded(id) => EncodeInts(id, dense, t.signed)
  }

  const CANDIDATES: seq<Id> := [BitpackFor, Delta, Rle, GroupVarintId, PForDeltaId]

  /** The order in which encodings are tried. */
  function Place(e: Encoding): nat {
    match e
    case Plain => 0
    case Coded(BitpackFor) => 1
    case Coded(Delta) => 2
    case Coded(Rle) => 3
    case Coded(GroupVarintId) => 4
    case Coded(PForDeltaId) => 5
  }

  /** No encoding that applies gives a smaller body, and no earlier one as small a body. */
  ghost predicate Beats(e: Encoding, body: Bytes, c: Encoding, dense: seq<nat>, t: Type)
    requires IsType(t)
  {
    Body(c, dense, t).Bytes? ==>
      && |body| <= |Body(c, dense, t).b|
      && (Place(c) < Place(e) ==> |body| < |Body(c, dense, t).b|)
  }

  ghost predicate Sampled(e: Encoding, body: Bytes, dense: seq<nat>, t: Type)
    requires IsType(t)
  {
    Body(e, dense, t) == Encoded.Bytes(body) && forall c :: Beats(e, body, c, dense, t)
  }

  /** `encodePageValues`: the smallest body, the earlier candidate on a tie. */
  method EncodePageValues(rows: seq<Row>, t: Type) returns (e: Encoding, body: Bytes)
    requires IsType(t)
    ensures Sampled(e, body, Dense(rows), t)
  {
    hide EncodeInts, PlainBytes;
    var dense := GatherUint64(rows);
    e, body := Plain, PlainBytes(dense, t);
    var i := 0;
    while i < |CANDIDATES|
      invariant 0 <= i <= |CANDIDATES| && Body(e, dense, t) == Encoded.Bytes(body) && Place(e) <= i
      invariant forall c :: Place(c) <= i ==> Beats(e, body, c, dense, t)
    {
      assert forall c :: Place(c) == i + 1 ==> c == Coded(CANDIDATES[i]);
      var b := EncodeInts(CANDIDATES[i], dense, t.signed);
      if b.Bytes? && |b.b| < |body| {
        e, body := Coded(CANDIDATES[i]), b.b;
      }
      i := i + 1;
    }
  }

  // ---- why no kept page overflows the exception count

  /** The bytes of the values as varints. */
  function VarintBytes(vs: seq<nat>): nat {
    if vs == [] then 0 else |Encode(vs[0])| + VarintBytes(vs[1..])
  }

  lemma {:induction false} VarintAtLeast(v: nat)
    requires v < U32
    ensures GroupVarint.Size(v) <= |Encode(v)|
  {
    assert v >= 128 ==> |Encode(v)| == 1 + |Encode(v / 128)|;
    assert v >= 0x4000 ==> |Encode(v / 128)| == 1 + |Encode(v / 0x4000)|;
    assert v >= 0x20_0000 ==> |Encode(v / 0x4000)| == 1 + |Encode(v / 0x20_0000)|;
  }

  lemma {:induction false} BodiesSize(vs: seq<nat>)
    requires PForDelta.Fits32(vs)
    ensures |GroupVarint.Bodies(vs)| <= VarintBytes(vs)
  {
    if vs != [] {
      VarintAtLeast(vs[0]);
      BodiesSize(vs[1..]);
    }
  }

  lemma {:induction false} VarintBytesJoin(a: seq<nat>, b: seq<nat>)
    ensures VarintBytes(a + b) == VarintBytes(a) + VarintBytes(b)
    decreases |a|
  {
    if a == [] {
      assert a + b == b;
    } else {
      VarintBytesJoin(a[1..], b);
      assert (a + b)[1..] == a[1..] + b;
    }
  }

  lemma {:induction false} GroupVarintSize(vs: seq<nat>)
    requires PForDelta.Fits32(vs)
    ensures |GroupVarint.Encode(vs)| <= (|vs| + 3) / 4 + VarintBytes(vs)
  {
    if vs != [] {
      var n := Min(4, |vs|);
      BodiesSize(vs[..n]);
      GroupVarintSize(vs[n..]);
      VarintBytesJoin(vs[..n], vs[n..]);
      assert vs == vs[..n] + vs[n..];
    }
  }

  /** A block of nothing but exceptions stores every value whole, with its position. */
  lemma {:induction false} AllPatched(vs: seq<nat>, w: nat, at: nat)
    requires |PForDelta.Patches(vs, w, at)| == |vs|
    ensures |PForDelta.EncodePatches(PForDelta.Patches(vs, w, at))| == |vs| + VarintBytes(vs)
    decreases |vs|
  {
    if vs != [] {
      AllPatched(vs[1..], w, at + 1);
      PForDelta.PatchesHead(vs, w, at);
      assert PForDelta.Patches(vs, w, at)[1..] == PForDelta.Patches(vs[1..], w, at + 1);
    }
  }

  /** A block whose 256 exceptions would wrap the count byte is longer than the group varint
      of the same values, an earlier candidate that accepts whatever it accepts. */
  lemma OverflowLoses(vs: seq<nat>)
    requires PForDelta.Fits32(vs) && |vs| == Exceptions(vs) == 256
    ensures |GroupVarint.Encode(vs)| < |PForDelta.Encode(vs)|
  {
    hide GroupVarint.Encode, PForDelta.Patches, PForDelta.EncodePatches, Pack, PForDelta.ArgMin, PForDelta.Low;
    GroupVarintSize(vs);
    AllPatched(vs, PForDelta.ChosenWidth(vs), 0);
  }

  lemma NeverOverflows(e: Encoding, body: Bytes, dense: seq<nat>, t: Type)
    requires IsType(t) && Sampled(e, body, dense, t)
    ensures e == Coded(PForDeltaId) ==> Exceptions(dense) <= 255
  {
    hide PForDelta.Encode, GroupVarint.Encode, Exceptions;
    if e == Coded(PForDeltaId) {
      AtMostAll(dense);
      assert Beats(e, body, Coded(GroupVarintId), dense, t);
      if |dense| == Exceptions(dense) == 256 { OverflowLoses(dense); }
    }
  }

  lemma AtMostAll(dense: seq<nat>)
    ensures Exceptions(dense) <= |dense|
  {
  }

  function DecodeBody(e: Encoding, body: Bytes, count: nat, t: Type): Parsed<seq<nat>>
    requires IsType(t)
  {
    match e
    case Plain => Unpack(body, count, t.bits)
    case Coded(id) => DecodeInts(id, body, count)
  }

  lemma SpanIs(t: Type)
    requires IsType(t)
    ensures Pow(2, t.bits) == Span(t)
  {
    Pow256(t.bits / 8);
    assert Pow(256, 1) == 256 * Pow(256, 0);
    PowAdd(256, 1, 1);
    PowAdd(256, 2, 2);
    PowAdd(256, 4, 4);
  }

  lemma LowsBelow(dense: seq<nat>, t: Type)
    requires IsType(t)
    ensures Below(Lows(dense, t), Pow(2, t.bits))
  {
    SpanIs(t);
  }

  /** A page as the writer leaves it. */
  ghost predicate Written(e: Encoding, body: Bytes, rows: seq<Row>, t: Type)
    requires IsType(t)
  {
    && Sampled(e, body, Dense(rows), t) && 2 * |rows| + 1 < U64
    && (forall i :: 0 <= i < |rows| && rows[i].Present? ==> InRange(rows[i].x, t))
  }

  /** `decodePageValues`: whichever candidate the sampler kept, the page reads back. */
  method DecodePageValues(e: Encoding, body: Bytes, t: Type, mask: seq<bool>, ghost rows: seq<Row>)
    returns (ok: bool, out: array<int>)
    requires IsType(t)
    ensures Written(e, body, rows, t) && mask == Mask(rows) ==> ok && out[..] == Values(rows)
  {
    hide Written, Scattered, Narrow, IsType, DecodeBody, Values;
    var count := PresentCount(mask);
    if Written(e, body, rows, t) && mask == Mask(rows) { BodyRestores(e, rows, t, body); }
    ok, out := false, new int[0];
    match DecodeBody(e, body, count, t) {
      case Short =>
      case Parsed(dense, _) =>
        if |dense| == count {
          ok := true;
          out := ScatterUint64(t, dense, mask);
        }
    }
  }

  /** Whatever the sampler keeps, the page's values come back from it. */
  lemma BodyRestores(e: Encoding, rows: seq<Row>, t: Type, body: Bytes)
    requires IsType(t) && Written(e, body, rows, t)
    ensures var p := DecodeBody(e, body, Count(Mask(rows)), t);
      p.Parsed? && |p.value| == Count(Mask(rows)) && Scattered(p.value, Mask(rows), t) == Values(rows)
  {
    hide Beats, EncodeInts, DecodeInts, Exceptions, Pack, Unpack, Span, Pow, IsType, InRange, Scattered, Narrow, LowOf;
    var dense := Dense(rows);
    DenseWords(rows);
    DenseCount(rows);
    NeverOverflows(e, body, dense, t);
    match e
    case Plain =>
      LowsBelow(dense, t);
      PackRoundTrip(Lows(dense, t), t.bits, []);
      assert body + [] == body;
      ScatterRestores(rows, t, Lows(dense, t));
    case Coded(id) =>
      IntsRoundTrip(id, dense, t.signed);
      ScatterRestores(rows, t, dense);
  }

  /** The two halves together: every integer page the writer encodes reads back as its rows'
      values, zero where a row is null, whichever encoding was kept. */
  method PageRoundTrip(rows: seq<Row>, t: Type) returns (ok: bool, out: array<int>)
    requires IsType(t) && 2 * |rows| + 1 < U64
    requires forall i :: 0 <= i < |rows| && rows[i].Present? ==> InRange(rows[i].x, t)
    ensures ok && out[..] == Values(rows)
  {
    hide Sampled, Values;
    var e, body := EncodePageValues(rows, t);
    ok, out := DecodePageValues(e, body, t, Mask(rows), rows);
  }
}
