/** Patched frame of reference (search/pfordelta.go and encoding/integer.go): the low
    `width` bits of every value packed, and each value that needs more stored whole. */
module PForDelta {
  import opened Digits
  import opened Varint
  import opened BitPack

  predicate Fits32(vs: seq<nat>) {
    forall i :: 0 <= i < |vs| ==> vs[i] < U32
  }

  /** `v > limit`, with limit the largest value of `width` bits. */
  predicate IsException(v: nat, width: nat) {
    v >= Pow(2, width)
  }

  function Low(vs: seq<nat>, width: nat): (r: seq<nat>)
    ensures |r| == |vs| && Below(r, Pow(2, width))
  {
    if vs == [] then [] else [Rem(vs[0], Pow(2, width))] + Low(vs[1..], width)
  }

  /** The exceptions with their positions, counting positions from `at`. */
  function Patches(vs: seq<nat>, width: nat, at: nat): (r: seq<(nat, nat)>)
    ensures |r| <= |vs|
    ensures forall i :: 0 <= i < |r| ==> at <= r[i].0 < at + |vs|
    decreases |vs|
  {
    if vs == [] then []
    else (if IsException(vs[0], width) then [(at, vs[0])] else []) + Patches(vs[1..], width, at + 1)
  }

  /** A position byte and a varint for each exception. */
  function EncodePatches(ps: seq<(nat, nat)>): Bytes {
    if ps == [] then [] else [ps[0].0 % 256] + Varint.Encode(ps[0].1) + EncodePatches(ps[1..])
  }

  function EncodeAt(vs: seq<nat>, width: nat): Bytes {
    var ps := Patches(vs, width, 0);
    [width % 256, |ps| % 256] + EncodePatches(ps) + Pack(Low(vs, width), width)
  }

  function DecodePatches(src: Bytes, n: nat): (r: Parsed<seq<(nat, nat)>>)
    decreases n
  {
    if n == 0 then Parsed([], src)
    else if src == [] then Short
    else
      match Varint.Decode(src[1..])
      case Short => Short
      case Parsed(v, rest) =>
        match DecodePatches(rest, n - 1)
        case Short => Short
        case Parsed(ps, end) => Parsed([(src[0], v)] + ps, end)
  }

  function Apply(out: seq<nat>, ps: seq<(nat, nat)>): (r: seq<nat>)
    ensures |r| == |out|
    decreases |ps|
  {
    if ps == [] then out
    else if ps[0].0 >= |out| then out
    else Apply(out[ps[0].0 := ps[0].1], ps[1..])
  }

  /** Short where the source returns an error, including a patch position out of range. */
  function Decode(src: Bytes, count: nat): Parsed<seq<nat>> {
    if |src| < 2 then Short else
      match DecodePatches(src[2..], src[1])
      case Short => Short
      case Parsed(ps, body) =>
        match Unpack(body, count, AtLeastOne(src[0]))
        case Short => Short
        case Parsed(low, rest) =>
          if forall i :: 0 <= i < |ps| ==> ps[i].0 < count then Parsed(Apply(low, ps), rest) else Short
  }

  lemma {:induction false} PatchesParse(ps: seq<(nat, nat)>, tail: Bytes)
    requires forall i :: 0 <= i < |ps| ==> ps[i].0 < 256 && ps[i].1 < U64
    ensures DecodePatches(EncodePatches(ps) + tail, |ps|) == Parsed(ps, tail)
  {
    if ps == [] {
      assert EncodePatches(ps) + tail == tail;
    } else {
      hide Varint.Encode, Varint.Decode, DecodePatches;
      var more := EncodePatches(ps[1..]) + tail;
      PatchesParse(ps[1..], tail);
      PatchParse(ps[0], more, |ps|);
      AppendAssoc([ps[0].0 % 256] + Varint.Encode(ps[0].1), EncodePatches(ps[1..]), tail);
      HeadTail(ps);
    }
  }

  lemma PatchParse(p: (nat, nat), more: Bytes, n: nat)
    requires p.0 < 256 && p.1 < U64 && n > 0
    ensures DecodePatches([p.0 % 256] + Varint.Encode(p.1) + more, n)
            == match DecodePatches(more, n - 1)
               case Short => Short
               case Parsed(ps, end) => Parsed([p] + ps, end)
  {
    hide Varint.Encode, Varint.Decode;
    var src := [p.0 % 256] + Varint.Encode(p.1) + more;
    Varint.RoundTrip(p.1, more);
    assert src[1..] == Varint.Encode(p.1) + more;
  }

  lemma LowHead(vs: seq<nat>, width: nat)
    requires vs != []
    ensures Low(vs, width) == [Rem(vs[0], Pow(2, width))] + Low(vs[1..], width)
  {
  }

  /** Restoring the exceptions over the low bits gives the values back. */
  lemma {:induction false} ApplyRestores(pre: seq<nat>, vs: seq<nat>, width: nat)
    ensures Apply(pre + Low(vs, width), Patches(vs, width, |pre|)) == pre + vs
    decreases |vs|
  {
    var out, ps := pre + Low(vs, width), Patches(vs, width, |pre|);
    if vs == [] {
      assert out == pre + vs;
    } else {
      hide Low, Pow, Patches, Apply;
      LowHead(vs, width);
      PatchesHead(vs, width, |pre|);
      ApplyRestores(pre + [vs[0]], vs[1..], width);
      Shift(pre, Rem(vs[0], Pow(2, width)), vs[0], Low(vs[1..], width));
      Shift(pre, vs[0], vs[0], vs[1..]);
      HeadTail(vs);
      if IsException(vs[0], width) {
        assert ps[1..] == Patches(vs[1..], width, |pre| + 1);
        ApplyStep(out, ps);
      } else {
        RemSmall(vs[0], Pow(2, width));
      }
    }
  }

  lemma Shift(pre: seq<nat>, x: nat, y: nat, more: seq<nat>)
    ensures (pre + ([x] + more))[|pre| := y] == pre + [y] + more
    ensures pre + ([x] + more) == pre + [x] + more
  {
  }

  lemma PatchesHead(vs: seq<nat>, width: nat, at: nat)
    requires vs != []
    ensures Patches(vs, width, at)
            == if IsException(vs[0], width) then [(at, vs[0])] + Patches(vs[1..], width, at + 1)
               else Patches(vs[1..], width, at + 1)
  {
  }

  lemma {:induction false} PatchValues(vs: seq<nat>, width: nat, at: nat)
    requires Fits32(vs)
    ensures forall i :: 0 <= i < |Patches(vs, width, at)| ==> Patches(vs, width, at)[i].1 < U32
    decreases |vs|
  {
    if vs != [] {
      PatchValues(vs[1..], width, at + 1);
    }
  }

  /** With at most 255 exceptions the block decodes to its values, at any width. */
  lemma RoundTripAt(vs: seq<nat>, width: nat, rest: Bytes)
    requires Fits32(vs) && |vs| <= 256 && 1 <= width <= 32
    requires |Patches(vs, width, 0)| <= 255
    ensures Decode(EncodeAt(vs, width) + rest, |vs|) == Parsed(vs, rest)
  {
    hide Pack, Unpack, EncodePatches, DecodePatches, Apply, Low, Patches;
    var ps, low := Patches(vs, width, 0), Low(vs, width);
    var body := Pack(low, width) + rest;
    var src := EncodeAt(vs, width) + rest;
    assert src[2..] == EncodePatches(ps) + body;
    PatchValues(vs, width, 0);
    PatchesParse(ps, body);
    PackRoundTrip(low, width, rest);
    ApplyRestores([], vs, width);
    assert [] + low == low && [] + vs == vs;
  }

  /** A full block of 256 exceptions wraps its count byte to zero, and the values that
      come back are all too small: such a block never decodes to its input. */
  lemma CountByteWraps(vs: seq<nat>, width: nat, rest: Bytes)
    requires |vs| == 256 && 1 <= width <= 32 && |Patches(vs, width, 0)| == 256
    ensures Decode(EncodeAt(vs, width) + rest, |vs|).Parsed? ==> Decode(EncodeAt(vs, width) + rest, |vs|).value != vs
  {
    hide Pack, EncodePatches, Low, Patches, Pow;
    var src := EncodeAt(vs, width) + rest;
    assert src[0] == width && src[1] == 0;
    assert DecodePatches(src[2..], 0) == Parsed([], src[2..]);
    AllExceptions(vs, width, 0);
    var q := Unpack(src[2..], 256, width);
    if q.Parsed? {
      ToDigitsBelow(FromDigits(src[2..][..PackedLen(256, width)], 256), Pow(2, width), 256);
      assert Apply(q.value, []) == q.value;
      assert q.value[0] < Pow(2, width) && IsException(vs[0], width);
    }
  }

  lemma {:induction false} AllExceptions(vs: seq<nat>, width: nat, at: nat)
    requires |Patches(vs, width, at)| == |vs|
    ensures forall i :: 0 <= i < |vs| ==> IsException(vs[i], width)
    decreases |vs|
  {
    if vs != [] {
      AllExceptions(vs[1..], width, at + 1);
    }
  }

  /** Exactly which admitted blocks survive, for every width the search may pick. */
  lemma RoundTripIff(vs: seq<nat>, width: nat, rest: Bytes)
    requires Fits32(vs) && |vs| <= 256 && 1 <= width <= 32
    ensures Decode(EncodeAt(vs, width) + rest, |vs|) == Parsed(vs, rest)
            <==> |Patches(vs, width, 0)| <= 255
    ensures (Decode(EncodeAt(vs, width) + rest, |vs|).Parsed? && Decode(EncodeAt(vs, width) + rest, |vs|).value == vs)
            <==> |Patches(vs, width, 0)| <= 255
  {
    if |Patches(vs, width, 0)| <= 255 {
      RoundTripAt(vs, width, rest);
    } else {
      CountByteWraps(vs, width, rest);
    }
  }

  // ---- the width search

  function ExceptionBytes(vs: seq<nat>, width: nat): nat {
    if vs == [] then 0
    else (if IsException(vs[0], width) then 1 + |Varint.Encode(vs[0])| else 0) + ExceptionBytes(vs[1..], width)
  }

  function Cost(vs: seq<nat>, width: nat): nat {
    PackedLen(|vs|, width) + ExceptionBytes(vs, width)
  }

  /** The cost searched over is the size of the block, its two-byte header aside. */
  lemma {:induction false} PatchBytes(vs: seq<nat>, width: nat, at: nat)
    ensures |EncodePatches(Patches(vs, width, at))| == ExceptionBytes(vs, width)
    decreases |vs|
  {
    if vs != [] {
      PatchBytes(vs[1..], width, at + 1);
      PatchesHead(vs, width, at);
      hide Patches, Pow, Varint.Encode;
      if IsException(vs[0], width) {
        assert ([(at, vs[0])] + Patches(vs[1..], width, at + 1))[1..] == Patches(vs[1..], width, at + 1);
      }
    }
  }

  /** So the width chosen gives the smallest block any width would, and is the least that does. */
  lemma ChosenSmallest(vs: seq<nat>, width: nat)
    requires 1 <= width <= 32
    ensures |EncodeAt(vs, width)| == 2 + Cost(vs, width)
    ensures 1 <= ChosenWidth(vs) <= 32 && |EncodeAt(vs, ChosenWidth(vs))| <= |EncodeAt(vs, width)|
    ensures |EncodeAt(vs, width)| == |EncodeAt(vs, ChosenWidth(vs))| ==> ChosenWidth(vs) <= width
  {
    hide Patches, EncodePatches, Pack, Low, ArgMin, ExceptionBytes, PackedLen;
    PatchBytes(vs, width, 0);
    PatchBytes(vs, ChosenWidth(vs), 0);
    assert Cheapest(vs, ChosenWidth(vs));
  }

  ghost predicate Cheapest(vs: seq<nat>, width: nat) {
    && 1 <= width <= 32
    && (forall w :: 1 <= w <= 32 ==> Cost(vs, width) <= Cost(vs, w))
    && (forall w :: 1 <= w < width ==> Cost(vs, width) < Cost(vs, w))
  }

  method UvarintLen(v: nat) returns (n: nat)
    ensures n == |Varint.Encode(v)|
  {
    n := 1;
    var x := v;
    while x >= 128
      invariant n + |Varint.Encode(x)| == |Varint.Encode(v)| + 1
    {
      x, n := x / 128, n + 1;
    }
  }

  /** The first cheapest width among 1 to `top`. */
  function ArgMin(vs: seq<nat>, top: nat): (width: nat)
    requires 1 <= top
    ensures 1 <= width <= top
    ensures forall w :: 1 <= w <= top ==> Cost(vs, width) <= Cost(vs, w)
    ensures forall w :: 1 <= w < width ==> Cost(vs, width) < Cost(vs, w)
    decreases top
  {
    if top == 1 then 1 else
      var best := ArgMin(vs, top - 1);
      if Cost(vs, top) < Cost(vs, best) then top else best
  }

  function ChosenWidth(vs: seq<nat>): (width: nat)
    ensures Cheapest(vs, width)
  {
    ArgMin(vs, 32)
  }

  /** `chooseWidth`: the smallest of the widths with the least encoded size. */
  method ChooseWidth(vs: seq<nat>) returns (width: nat)
    ensures width == ChosenWidth(vs)
  {
    hide Cost;
    width := 1;
    var best := CostOf(vs, 1);
    var w := 2;
    while w <= 32
      invariant 1 <= width < w <= 33 && best == Cost(vs, width) && width == ArgMin(vs, w - 1)
    {
      var cost := CostOf(vs, w);
      if cost < best {
        best, width := cost, w;
      }
      w := w + 1;
    }
  }

  method CostOf(vs: seq<nat>, width: nat) returns (cost: nat)
    ensures cost == Cost(vs, width)
  {
    var i, excBytes := 0, 0;
    assert vs[0..] == vs;
    while i < |vs|
      invariant 0 <= i <= |vs|
      invariant excBytes + ExceptionBytes(vs[i..], width) == ExceptionBytes(vs, width)
    {
      assert vs[i..][1..] == vs[i + 1..];
      if IsException(vs[i], width) {
        var n := UvarintLen(vs[i]);
        excBytes := excBytes + 1 + n;
      }
      i := i + 1;
    }
    cost := PackedLen(|vs|, width) + excBytes;
  }

  function Encode(vs: seq<nat>): Bytes {
    EncodeAt(vs, ChosenWidth(vs))
  }

  lemma EncodeHead(vs: seq<nat>, rest: Bytes)
    ensures Encode(vs) + rest != [] && 1 <= (Encode(vs) + rest)[0] <= 32
  {
    hide EncodePatches, Pack, Patches, Low, ArgMin, Cost;
  }

  method AppendPForDelta(dst: Bytes, vs: seq<nat>) returns (r: Bytes)
    requires Fits32(vs) && |vs| <= 256
    ensures r == dst + Encode(vs)
  {
    hide Patches, EncodePatches, Low, Pack, Cost, Pow, Rem, ArgMin;
    var w := ChooseWidth(vs);
    var low, exc, excCount := SplitExceptions(vs, w);
    var body := PackBits32([], low, w);
    assert [] + Pack(low, w) == Pack(low, w);
    Reassociate(dst, [w % 256, excCount % 256], exc, body);
    r := dst + [w % 256, excCount % 256] + exc + body;
  }

  /** The low bits of every value, and the exceptions written out. */
  method SplitExceptions(vs: seq<nat>, w: nat) returns (low: seq<nat>, exc: Bytes, excCount: nat)
    ensures low == Low(vs, w) && exc == EncodePatches(Patches(vs, w, 0)) && excCount == |Patches(vs, w, 0)|
  {
    hide Patches, EncodePatches, Low, Pow, Rem;
    low, exc, excCount := [], [], 0;
    var i := 0;
    GatherStart(vs, w);
    while i < |vs|
      invariant 0 <= i <= |vs|
      invariant low + Low(vs[i..], w) == Low(vs, w)
      invariant exc + EncodePatches(Patches(vs[i..], w, i)) == EncodePatches(Patches(vs, w, 0))
      invariant excCount + |Patches(vs[i..], w, i)| == |Patches(vs, w, 0)|
    {
      GatherStep(vs, w, i);
      AppendAssoc(low, [Rem(vs[i], Pow(2, w))], Low(vs[i + 1..], w));
      low := low + [Rem(vs[i], Pow(2, w))];
      if IsException(vs[i], w) {
        AppendAssoc(exc, [i % 256] + Varint.Encode(vs[i]), EncodePatches(Patches(vs[i + 1..], w, i + 1)));
        excCount := excCount + 1;
        var v := Varint.AppendUvarint([i % 256], vs[i]);
        exc := exc + v;
      }
      i := i + 1;
    }
    GatherEnd(vs[i..], w, i);
    assert low + [] == low && exc + [] == exc;
  }

  lemma Reassociate<T>(a: seq<T>, b: seq<T>, c: seq<T>, d: seq<T>)
    ensures a + b + c + d == a + (b + c + d)
  {
  }

  lemma GatherStart(vs: seq<nat>, w: nat)
    ensures vs[0..] == vs && [] + Low(vs[0..], w) == Low(vs, w)
    ensures [] + EncodePatches(Patches(vs[0..], w, 0)) == EncodePatches(Patches(vs, w, 0))
  {
    hide Patches, EncodePatches, Low;
    assert vs[0..] == vs;
  }

  lemma GatherEnd(vs: seq<nat>, w: nat, at: nat)
    requires vs == []
    ensures Low(vs, w) == [] && Patches(vs, w, at) == [] && EncodePatches(Patches(vs, w, at)) == []
  {
  }

  lemma GatherStep(vs: seq<nat>, w: nat, i: nat)
    requires i < |vs|
    ensures Low(vs[i..], w) == [Rem(vs[i], Pow(2, w))] + Low(vs[i + 1..], w)
    ensures var more := Patches(vs[i + 1..], w, i + 1);
      if IsException(vs[i], w) then
        && |Patches(vs[i..], w, i)| == 1 + |more|
        && EncodePatches(Patches(vs[i..], w, i)) == [i % 256] + Varint.Encode(vs[i]) + EncodePatches(more)
      else Patches(vs[i..], w, i) == more
  {
    hide Rem, Pow, Varint.Encode;
    assert vs[i..][1..] == vs[i + 1..];
    var more := Patches(vs[i + 1..], w, i + 1);
    if IsException(vs[i], w) {
      assert Patches(vs[i..], w, i) == [(i, vs[i])] + more;
      assert ([(i, vs[i])] + more)[1..] == more;
    } else {
      assert [] + more == more;
    }
  }

  /** `readPForDelta`: the patches, the packed body, then the patches applied in place. */
  method ReadPForDelta(src: Bytes, count: nat) returns (ok: bool, out: seq<nat>, pos: nat)
    requires Decode(src, count).Parsed? && src[0] <= 32
    ensures ok && pos <= |src| && Decode(src, count) == Parsed(out, src[pos..])
  {
    hide DecodePatches, Apply, Unpack;
    ok := true;
    var w: nat, patches: seq<(nat, nat)>, n: nat := src[0], [], 0;
    patches, pos := ReadPatches(src, 2, src[1]);
    EnoughBytes(src[pos..], count, AtLeastOne(w));
    out, n := UnpackBits32(src[pos..], count, w);
    assert src[pos..][n..] == src[pos + n..];
    pos := pos + n;
    out := ApplyPatches(out, patches);
  }

  /** The position and the whole value of each exception. */
  method ReadPatches(src: Bytes, start: nat, excCount: nat) returns (patches: seq<(nat, nat)>, pos: nat)
    requires start <= |src| && DecodePatches(src[start..], excCount).Parsed?
    ensures start <= pos <= |src| && DecodePatches(src[start..], excCount) == Parsed(patches, src[pos..])
  {
    hide DecodePatches, Varint.Decode;
    patches, pos := [], start;
    ghost var all := DecodePatches(src[start..], excCount);
    assert [] + all.value == all.value;
    while |patches| < excCount
      invariant start <= pos <= |src| && |patches| <= excCount
      invariant var q := DecodePatches(src[pos..], excCount - |patches|);
        q.Parsed? && all == Parsed(patches + q.value, q.rest)
    {
      PatchStep(src, pos, excCount - |patches|);
      ghost var q := DecodePatches(src[pos..], excCount - |patches|);
      var at := src[pos];
      var v, n := Varint.ReadUvarint(src[pos + 1..]);
      assert src[pos + 1..][n..] == src[pos + 1 + n..];
      AppendAssoc(patches, [(at, v)], q.value[1..]);
      pos := pos + 1 + n;
      patches := patches + [(at as nat, v)];
    }
    PatchesDone(src[pos..]);
    assert patches + [] == patches;
  }

  /** Each exception written over its low bits. */
  method ApplyPatches(low: seq<nat>, patches: seq<(nat, nat)>) returns (out: seq<nat>)
    requires forall i :: 0 <= i < |patches| ==> patches[i].0 < |low|
    ensures out == Apply(low, patches)
  {
    hide Apply;
    out := low;
    var i := 0;
    assert patches[0..] == patches;
    while i < |patches|
      invariant 0 <= i <= |patches| && |out| == |low|
      invariant Apply(out, patches[i..]) == Apply(low, patches)
    {
      ApplyStep(out, patches[i..]);
      assert patches[i..][1..] == patches[i + 1..];
      out := out[patches[i].0 := patches[i].1];
      i := i + 1;
    }
    ApplyDone(out, patches[i..]);
  }

  lemma EnoughBytes(body: Bytes, count: nat, w: nat)
    requires Unpack(body, count, w).Parsed?
    ensures |body| >= PackedLen(count, w)
  {
  }

  lemma PatchesDone(src: Bytes)
    ensures DecodePatches(src, 0) == Parsed([], src)
  {
  }

  lemma ApplyDone(out: seq<nat>, ps: seq<(nat, nat)>)
    ensures ps == [] ==> Apply(out, ps) == out
  {
  }

  lemma ApplyStep(out: seq<nat>, ps: seq<(nat, nat)>)
    requires ps != [] && ps[0].0 < |out|
    ensures Apply(out, ps) == Apply(out[ps[0].0 := ps[0].1], ps[1..])
  {
  }

  lemma PatchStep(src: Bytes, pos: nat, n: nat)
    requires pos <= |src| && n > 0 && DecodePatches(src[pos..], n).Parsed?
    ensures pos < |src|
    ensures var p := Varint.Decode(src[pos + 1..]);
      && p.Parsed?
      && var q := DecodePatches(p.rest, n - 1);
         q.Parsed? && DecodePatches(src[pos..], n) == Parsed([(src[pos] as nat, p.value)] + q.value, q.rest)
  {
    hide Varint.Decode;
    assert src[pos..] == [] || src[pos..][1..] == src[pos + 1..];
  }

  // ---- the overflow is reachable

  function Repeat(v: nat, n: nat): (r: seq<nat>)
    ensures |r| == n && forall i :: 0 <= i < n ==> r[i] == v
  {
    seq(n, _ => v)
  }

  lemma {:induction false} RepeatBytes(v: nat, n: nat, more: seq<nat>, width: nat)
    ensures ExceptionBytes(Repeat(v, n) + more, width)
            == (if IsException(v, width) then n * (1 + |Varint.Encode(v)|) else 0) + ExceptionBytes(more, width)
    decreases n
  {
    hide IsException, Varint.Encode;
    if n == 0 {
      assert Repeat(v, n) + more == more;
    } else {
      RepeatBytes(v, n - 1, more, width);
      assert (Repeat(v, n) + more)[1..] == Repeat(v, n - 1) + more;
      NextCopy(n - 1, 1 + |Varint.Encode(v)|);
    }
  }

  lemma NextCopy(n: nat, c: nat)
    ensures (n + 1) * c == n * c + c
  {
  }

  /** 256 values for which one bit with 256 exceptions is as cheap as anything. */
  function Overflowing(): (vs: seq<nat>)
    ensures |vs| == 256
  {
    Repeat(0x7F, 96) + (Repeat(0x3FFF, 74) + (Repeat(0x1F_FFFF, 56) + Repeat(0xFFF_FFFF, 30)))
  }

  lemma SmallPowers()
    ensures Pow(2, 1) == 2 && Pow(2, 7) == 0x80 && Pow(2, 14) == 0x4000 && Pow(2, 21) == 0x20_0000
      && Pow(2, 28) == 0x1000_0000
  {
    assert Pow(2, 1) == 2 * Pow(2, 0);
    PowAdd(2, 1, 1);
    PowAdd(2, 2, 1);
    PowAdd(2, 3, 3);
    PowAdd(2, 6, 1);
    PowAdd(2, 7, 7);
    PowAdd(2, 14, 7);
    PowAdd(2, 14, 14);
  }

  lemma Lengths()
    ensures |Varint.Encode(0x7F)| == 1 && |Varint.Encode(0x3FFF)| == 2
    ensures |Varint.Encode(0x1F_FFFF)| == 3 && |Varint.Encode(0xFFF_FFFF)| == 4
  {
    assert |Varint.Encode(0x3FFF)| == 1 + |Varint.Encode(0x7F)|;
    assert |Varint.Encode(0x1F_FFFF)| == 1 + |Varint.Encode(0x3FFF)|;
    assert |Varint.Encode(0xFFF_FFFF)| == 1 + |Varint.Encode(0x1F_FFFF)|;
  }

  /** A width covers `2^k - 1` exactly from `k` bits on. */
  lemma ExceptionFrom(v: nat, k: nat, width: nat)
    requires v + 1 == Pow(2, k)
    ensures IsException(v, width) <==> width < k
  {
    if width < k {
      PowMono(2, width + 1, k);
      assert Pow(2, width + 1) == 2 * Pow(2, width);
    } else {
      PowMono(2, k, width);
    }
  }

  lemma OverflowCost(width: nat)
    requires 1 <= width <= 32
    ensures Cost(Overflowing(), width) == 32 * width + (if width < 7 then 192 else 0) + (if width < 14 then 222 else 0)
            + (if width < 21 then 224 else 0) + (if width < 28 then 150 else 0)
  {
    SmallPowers();
    Lengths();
    hide Pow, Varint.Encode, IsException;
    ExceptionFrom(0x7F, 7, width);
    ExceptionFrom(0x3FFF, 14, width);
    ExceptionFrom(0x1F_FFFF, 21, width);
    ExceptionFrom(0xFFF_FFFF, 28, width);
    var c := Repeat(0x1F_FFFF, 56) + Repeat(0xFFF_FFFF, 30);
    var b := Repeat(0x3FFF, 74) + c;
    RepeatBytes(0x7F, 96, b, width);
    RepeatBytes(0x3FFF, 74, c, width);
    RepeatBytes(0x1F_FFFF, 56, Repeat(0xFFF_FFFF, 30), width);
    RepeatBytes(0xFFF_FFFF, 30, [], width);
    assert Repeat(0xFFF_FFFF, 30) + [] == Repeat(0xFFF_FFFF, 30);
  }

  lemma {:induction false} CountAll(vs: seq<nat>, width: nat, at: nat)
    requires forall i :: 0 <= i < |vs| ==> IsException(vs[i], width)
    ensures |Patches(vs, width, at)| == |vs|
    decreases |vs|
  {
    hide IsException;
    if vs != [] {
      CountAll(vs[1..], width, at + 1);
      PatchesHead(vs, width, at);
    }
  }

  lemma OverflowWidth()
    ensures ChosenWidth(Overflowing()) == 1
  {
    hide ArgMin, Cost, Overflowing;
    var w := ArgMin(Overflowing(), 32);
    OverflowCost(1);
    OverflowCost(w);
  }

  /** The width search does choose a width that leaves 256 exceptions: an admitted block of
      256 values, all below 2^28, that does not decode to itself. */
  lemma OverflowReached()
    ensures Fits32(Overflowing()) && |Patches(Overflowing(), ChosenWidth(Overflowing()), 0)| == 256
    ensures Decode(Encode(Overflowing()), 256).Parsed? ==> Decode(Encode(Overflowing()), 256).value != Overflowing()
  {
    hide ChosenWidth, Cost, Overflowing, Repeat, Patches, EncodeAt, Decode, Pow, IsException;
    OverflowWidth();
    OverflowValues();
    CountAll(Overflowing(), 1, 0);
    CountByteWraps(Overflowing(), 1, []);
    assert Encode(Overflowing()) + [] == Encode(Overflowing());
  }

  lemma OverflowValues()
    ensures Fits32(Overflowing()) && forall i :: 0 <= i < 256 ==> IsException(Overflowing()[i], 1)
  {
    SmallPowers();
  }
}
