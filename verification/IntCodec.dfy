/** The integer encodings of column pages (encoding/integer.go): frame of reference, deltas
    and runs over 64-bit words, each with the decoder that undoes it. */
module IntCodec {
  import opened Digits
  import opened Varint
  import opened BitPack
  import Postings
  import GroupVarint
  import PForDelta

  const HALF: nat := 0x8000_0000_0000_0000
  const MIN_RUN: nat := 8

  ghost predicate Words(vs: seq<nat>) {
    forall i :: 0 <= i < |vs| ==> vs[i] < U64
  }

  // ---- 64-bit words

  function Wrap(x: int): nat {
    x % U64
  }

  /** The difference as a word. */
  function Minus(a: int, b: int): nat {
    Wrap(a - b)
  }

  /** A word read as a two's-complement integer. */
  function AsSigned(v: nat): int {
    if v < HALF then v else v - U64
  }

  /** A word's place in the order the encoder was asked to use. */
  function Rank(v: nat, signed: bool): int {
    if signed then AsSigned(v) else v
  }

  lemma MinusAdd(v: nat, base: nat)
    requires v < U64
    ensures Wrap(Minus(v, base) + base) == v && Wrap(base + Minus(v, base)) == v
  {
    var q := (v - base) / U64;
    assert (v - base) == Minus(v, base) + U64 * q;
    assert Minus(v, base) + base == v + U64 * (-q);
  }

  // ---- frame of reference

  /** The least and greatest words in the order. */
  ghost predicate IsMinMax(vs: seq<nat>, signed: bool, lo: nat, hi: nat) {
    && lo in vs && hi in vs
    && forall v :: v in vs ==> Rank(lo, signed) <= Rank(v, signed) <= Rank(hi, signed)
  }

  function MinOf(vs: seq<nat>, signed: bool): nat
    requires vs != []
  {
    if |vs| == 1 then vs[0] else
      var m := MinOf(vs[1..], signed);
      if Rank(vs[0], signed) <= Rank(m, signed) then vs[0] else m
  }

  function MaxOf(vs: seq<nat>, signed: bool): nat
    requires vs != []
  {
    if |vs| == 1 then vs[0] else
      var m := MaxOf(vs[1..], signed);
      if Rank(vs[0], signed) >= Rank(m, signed) then vs[0] else m
  }

  lemma {:induction false} Extremes(vs: seq<nat>, signed: bool)
    requires vs != []
    ensures IsMinMax(vs, signed, MinOf(vs, signed), MaxOf(vs, signed))
    decreases |vs|
  {
    hide Rank;
    assert vs == [vs[0]] + vs[1..];
    if |vs| > 1 {
      Extremes(vs[1..], signed);
    } else {
      assert vs[1..] == [];
    }
  }

  function Residuals(vs: seq<nat>, base: nat): (r: seq<nat>)
    ensures |r| == |vs| && forall i :: 0 <= i < |vs| ==> r[i] == Minus(vs[i], base)
  {
    seq(|vs|, i requires 0 <= i < |vs| => Minus(vs[i], base))
  }

  function Rebased(rs: seq<nat>, base: nat): (r: seq<nat>)
    ensures |r| == |rs| && forall i :: 0 <= i < |rs| ==> r[i] == Wrap(rs[i] + base)
  {
    seq(|rs|, i requires 0 <= i < |rs| => Wrap(rs[i] + base))
  }

  function Width(vs: seq<nat>, signed: bool): nat
    requires vs != []
  {
    Postings.MinWidth(Minus(MaxOf(vs, signed), MinOf(vs, signed)))
  }

  function EncodeFor(vs: seq<nat>, signed: bool): Bytes {
    if vs == [] then [1]
    else
      var w := Width(vs, signed);
      [w % 256] + (Encode(MinOf(vs, signed)) + Pack(Residuals(vs, MinOf(vs, signed)), w))
  }

  function DecodeFor(src: Bytes, count: nat): Parsed<seq<nat>> {
    if count == 0 then Parsed([], src)
    else if src == [] then Short
    else
      match Decode(src[1..])
      case Short => Short
      case Parsed(base, s1) =>
        match Unpack(s1, count, src[0])
        case Short => Short
        case Parsed(rs, rest) => Parsed(Rebased(rs, base), rest)
  }

  lemma RankGap(v: nat, lo: nat, signed: bool)
    requires v < U64 && lo < U64 && Rank(lo, signed) <= Rank(v, signed)
    ensures Minus(v, lo) == Rank(v, signed) - Rank(lo, signed)
  {
  }

  /** Every residual fits the width of the range, in either order: signed ranges wrap to it. */
  lemma ResidualsFit(vs: seq<nat>, signed: bool)
    requires vs != [] && Words(vs)
    ensures var w := Width(vs, signed); 1 <= w <= 64 && Below(Residuals(vs, MinOf(vs, signed)), Pow(2, w))
  {
    hide Rank, Minus, MinOf, MaxOf;
    var lo, hi := MinOf(vs, signed), MaxOf(vs, signed);
    Extremes(vs, signed);
    WordIn(vs, lo);
    WordIn(vs, hi);
    RankGap(hi, lo, signed);
    Postings.MinWidthFits(Minus(hi, lo));
    WrapBelow(hi, lo);
    Pow64();
    Postings.MinWidthBound(Minus(hi, lo), 64);
    forall i | 0 <= i < |vs| ensures Residuals(vs, lo)[i] < Pow(2, Width(vs, signed)) {
      assert vs[i] in vs;
      RankGap(vs[i], lo, signed);
    }
  }

  lemma WrapBelow(a: int, b: int)
    ensures Minus(a, b) < U64
  {
  }

  lemma WordIn(vs: seq<nat>, v: nat)
    requires Words(vs) && v in vs
    ensures v < U64
  {
  }

  lemma Pow64()
    ensures Pow(2, 64) == U64
  {
    Pow256(8);
    assert Pow(256, 1) == 256;
    PowAdd(256, 1, 1);
    PowAdd(256, 2, 2);
    PowAdd(256, 4, 4);
  }

  lemma RebaseResiduals(vs: seq<nat>, base: nat)
    requires Words(vs)
    ensures Rebased(Residuals(vs, base), base) == vs
  {
    forall i | 0 <= i < |vs| ensures Wrap(Minus(vs[i], base) + base) == vs[i] {
      MinusAdd(vs[i], base);
    }
  }

  lemma ForRoundTrip(vs: seq<nat>, signed: bool, rest: Bytes)
    requires Words(vs)
    ensures vs != [] ==> DecodeFor(EncodeFor(vs, signed) + rest, |vs|) == Parsed(vs, rest)
    ensures vs == [] ==> DecodeFor(EncodeFor(vs, signed) + rest, 0).Parsed?
  {
    hide Encode, Decode, Pack, Unpack, MinOf, MaxOf, Residuals, Rebased, Width;
    if vs != [] {
      var w, lo := Width(vs, signed), MinOf(vs, signed);
      var body := Pack(Residuals(vs, lo), w);
      ResidualsFit(vs, signed);
      MinIsWord(vs, signed);
      var src := EncodeFor(vs, signed) + rest;
      assert src[1..] == Encode(lo) + (body + rest);
      RoundTrip(lo, body + rest);
      ResidualSize(vs, lo);
      PackRoundTrip(Residuals(vs, lo), w, rest);
      RebaseResiduals(vs, lo);
    }
  }

  lemma MinIsWord(vs: seq<nat>, signed: bool)
    requires vs != [] && Words(vs)
    ensures MinOf(vs, signed) < U64
  {
    Extremes(vs, signed);
  }

  lemma ResidualSize(vs: seq<nat>, base: nat)
    ensures |Residuals(vs, base)| == |vs|
  {
  }

  // ---- deltas

  /** `zigzag` on a word read as signed. */
  function Zigzag(v: nat): nat
    requires v < U64
  {
    if v < HALF then 2 * v else 2 * (U64 - v) - 1
  }

  function Unzigzag(z: nat): nat {
    if z % 2 == 0 then z / 2 else Wrap(-((z + 1) / 2))
  }

  /** A word is the two's complement of one integer of its 64 bits, and its order the integers'. */
  lemma SignedIs(x: int)
    requires 0 - HALF <= x < HALF
    ensures Wrap(x) < U64 && AsSigned(Wrap(x)) == x && Rank(Wrap(x), true) == x
  {
    if x < 0 {
      assert x == U64 * -1 + (x + U64);
    }
  }

  /** Small differences of either sign get small numbers: 0, -1, 1, -2, 2, ... */
  lemma ZigzagIs(x: int)
    requires 0 - HALF <= x < HALF
    ensures Wrap(x) < U64 && Zigzag(Wrap(x)) == if x >= 0 then 2 * x else -2 * x - 1
  {
    SignedIs(x);
  }

  lemma ZigzagRoundTrip(v: nat)
    requires v < U64
    ensures Zigzag(v) < U64 && Unzigzag(Zigzag(v)) == v
  {
  }

  function Deltas(vs: seq<nat>): seq<nat> {
    if |vs| <= 1 then [] else [Zigzag(Minus(vs[1], vs[0]))] + Deltas(vs[1..])
  }

  function Undelta(first: nat, ds: seq<nat>): seq<nat>
    decreases |ds|
  {
    if ds == [] then [first] else [first] + Undelta(Wrap(first + Unzigzag(ds[0])), ds[1..])
  }

  lemma {:induction false} DeltasUndone(vs: seq<nat>)
    requires vs != [] && Words(vs)
    ensures Undelta(vs[0], Deltas(vs)) == vs && |Deltas(vs)| == |vs| - 1 && Words(Deltas(vs))
    decreases |vs|
  {
    hide Zigzag, Unzigzag;
    if |vs| > 1 {
      var d := Minus(vs[1], vs[0]);
      ZigzagRoundTrip(d);
      MinusAdd(vs[1], vs[0]);
      DeltasUndone(vs[1..]);
      assert Deltas(vs)[1..] == Deltas(vs[1..]);
      assert vs == [vs[0]] + vs[1..];
    }
  }

  function EncodeDelta(vs: seq<nat>): Bytes {
    if vs == [] then [] else Encode(vs[0]) + EncodeFor(Deltas(vs), false)
  }

  function DecodeDelta(src: Bytes, count: nat): Parsed<seq<nat>> {
    if count == 0 then Parsed([], src)
    else
      match Decode(src)
      case Short => Short
      case Parsed(first, s1) =>
        match DecodeFor(s1, count - 1)
        case Short => Short
        case Parsed(ds, rest) => Parsed(Undelta(first, ds), rest)
  }

  /** Wrapping differences still sum back, over the whole 64-bit range. */
  lemma DeltaRoundTrip(vs: seq<nat>, rest: Bytes)
    requires Words(vs)
    ensures DecodeDelta(EncodeDelta(vs) + rest, |vs|).Parsed?
    ensures DecodeDelta(EncodeDelta(vs) + rest, |vs|).value == vs
  {
    hide Encode, Decode, EncodeFor, DecodeFor, Deltas, Undelta;
    if vs != [] {
      DeltasUndone(vs);
      Split3(Encode(vs[0]), EncodeFor(Deltas(vs), false), rest);
      RoundTrip(vs[0], EncodeFor(Deltas(vs), false) + rest);
      ForRoundTrip(Deltas(vs), false, rest);
      NoDeltas(EncodeFor(Deltas(vs), false) + rest);
    }
  }

  lemma NoDeltas(src: Bytes)
    ensures DecodeFor(src, 0) == Parsed([], src)
  {
  }

  lemma Split3(a: Bytes, b: Bytes, c: Bytes)
    ensures (a + b) + c == a + (b + c)
  {
  }

  // ---- runs

  function RunLen(vs: seq<nat>): (n: nat)
    requires vs != []
    ensures 1 <= n <= |vs| && forall i :: 0 <= i < n ==> vs[i] == vs[0]
  {
    if |vs| > 1 && vs[1] == vs[0] then
      var n := RunLen(vs[1..]);
      assert forall i :: 1 <= i < n + 1 ==> vs[i] == vs[1..][i - 1];
      n + 1
    else 1
  }

  /** How many literals precede the next qualifying run. */
  function LiteralLen(vs: seq<nat>): (n: nat)
    ensures n <= |vs|
    ensures vs != [] && RunLen(vs) < MIN_RUN ==> n > 0
  {
    if vs == [] || RunLen(vs) >= MIN_RUN then 0 else 1 + LiteralLen(vs[1..])
  }

  /** A run goes on as long as it can. */
  lemma {:induction false} RunWhole(vs: seq<nat>)
    requires vs != []
    ensures RunLen(vs) < |vs| ==> vs[RunLen(vs)] != vs[0]
    decreases |vs|
  {
    if |vs| > 1 && vs[1] == vs[0] {
      RunWhole(vs[1..]);
      assert forall i :: 0 <= i < |vs| - 1 ==> vs[1..][i] == vs[i + 1];
    }
  }

  /** Literals go on up to the first run worth coding, and never into one. */
  lemma {:induction false} LiteralsWhole(vs: seq<nat>, i: nat)
    requires i <= LiteralLen(vs) && i < |vs|
    ensures i < LiteralLen(vs) <==> RunLen(vs[i..]) < MIN_RUN
    decreases |vs|
  {
    hide RunLen;
    assert vs[0..] == vs;
    if i > 0 {
      LiteralsWhole(vs[1..], i - 1);
      assert vs[1..][i - 1..] == vs[i..];
    }
  }

  function RunBytes(v: nat, n: nat, w: nat): Bytes {
    Encode(2 * n + 1) + Pack([v], w)
  }

  function LiteralBytes(vs: seq<nat>, w: nat): Bytes {
    Encode(2 * |vs|) + Pack(vs, w)
  }

  function Groups(vs: seq<nat>, w: nat): Bytes
    decreases |vs|
  {
    if vs == [] then []
    else if RunLen(vs) >= MIN_RUN then RunBytes(vs[0], RunLen(vs), w) + Groups(vs[RunLen(vs)..], w)
    else LiteralBytes(vs[..LiteralLen(vs)], w) + Groups(vs[LiteralLen(vs)..], w)
  }

  function Copies(v: nat, n: nat): (r: seq<nat>)
    ensures |r| == n && forall i :: 0 <= i < n ==> r[i] == v
  {
    seq(n, _ => v)
  }

  /** What one group decodes to, no more than is asked for. */
  function DecodeGroup(src: Bytes, w: nat, left: nat): (r: Parsed<seq<nat>>)
    ensures r.Parsed? ==> |r.value| <= left
  {
    match Decode(src)
    case Short => Short
    case Parsed(ctrl, s1) =>
      if ctrl % 2 == 1 then
        match Unpack(s1, 1, w)
        case Short => Short
        case Parsed(one, rest) => Parsed(Copies(one[0], Min(ctrl / 2, left)), rest)
      else
        match Unpack(s1, ctrl / 2, w)
        case Short => Short
        case Parsed(vs, rest) => Parsed(vs[..Min(ctrl / 2, left)], rest)
  }

  lemma GroupShrinks(src: Bytes, w: nat, left: nat)
    ensures DecodeGroup(src, w, left).Parsed? ==> |DecodeGroup(src, w, left).rest| < |src|
  {
    hide Decode;
    DecodeShrinks(src);
  }

  lemma DecodeShrinks(src: Bytes)
    ensures Decode(src).Parsed? ==> |Decode(src).rest| < |src|
  {
    Suffix(src, 0);
  }

  /** Groups until enough values are out; an empty group is passed over. */
  function DecodeGroups(src: Bytes, w: nat, left: nat): Parsed<seq<nat>>
    decreases |src|
  {
    if left == 0 then Parsed([], src) else
      GroupShrinks(src, w, left);
      match DecodeGroup(src, w, left)
      case Short => Short
      case Parsed(vs, rest) =>
        match DecodeGroups(rest, w, left - |vs|)
        case Short => Short
        case Parsed(more, end) => Parsed(vs + more, end)
  }

  lemma RunDecodes(v: nat, n: nat, w: nat, left: nat, rest: Bytes)
    requires v < Pow(2, w) && n <= left && 2 * n + 1 < U64
    ensures DecodeGroup(RunBytes(v, n, w) + rest, w, left) == Parsed(Copies(v, n), rest)
  {
    hide Encode, Decode, Pack, Unpack;
    Split3(Encode(2 * n + 1), Pack([v], w), rest);
    RoundTrip(2 * n + 1, Pack([v], w) + rest);
    PackRoundTrip([v], w, rest);
  }

  lemma LiteralsDecode(vs: seq<nat>, w: nat, left: nat, rest: Bytes)
    requires Below(vs, Pow(2, w)) && |vs| <= left && 2 * |vs| < U64
    ensures DecodeGroup(LiteralBytes(vs, w) + rest, w, left) == Parsed(vs, rest)
  {
    hide Encode, Decode, Pack, Unpack;
    Split3(Encode(2 * |vs|), Pack(vs, w), rest);
    RoundTrip(2 * |vs|, Pack(vs, w) + rest);
    PackRoundTrip(vs, w, rest);
    assert vs[..|vs|] == vs;
  }

  lemma GroupsAre(vs: seq<nat>, w: nat)
    ensures vs == [] ==> Groups(vs, w) == []
    ensures vs != [] && RunLen(vs) >= MIN_RUN ==>
      Groups(vs, w) == RunBytes(vs[0], RunLen(vs), w) + Groups(vs[RunLen(vs)..], w)
    ensures vs != [] && RunLen(vs) < MIN_RUN ==>
      Groups(vs, w) == LiteralBytes(vs[..LiteralLen(vs)], w) + Groups(vs[LiteralLen(vs)..], w)
  {
    hide RunBytes, LiteralBytes, RunLen, LiteralLen;
  }

  /** A decoded group followed by the rest. */
  lemma GroupsNext(head: Bytes, tail: Bytes, part: seq<nat>, more: seq<nat>, w: nat, rest: Bytes)
    requires part != [] && DecodeGroup(head + (tail + rest), w, |part| + |more|) == Parsed(part, tail + rest)
    requires DecodeGroups(tail + rest, w, |more|) == Parsed(more, rest)
    ensures DecodeGroups((head + tail) + rest, w, |part + more|) == Parsed(part + more, rest)
  {
    hide DecodeGroup;
    Split3(head, tail, rest);
  }

  lemma {:induction false} GroupsRoundTrip(vs: seq<nat>, w: nat, rest: Bytes)
    requires Below(vs, Pow(2, w)) && 2 * |vs| + 1 < U64
    ensures DecodeGroups(Groups(vs, w) + rest, w, |vs|) == Parsed(vs, rest)
    decreases |vs|
  {
    hide RunBytes, LiteralBytes, DecodeGroup, DecodeGroups, Groups, Pow;
    GroupsAre(vs, w);
    if vs == [] {
      assert Groups(vs, w) + rest == rest;
      NoGroups(rest, w);
    } else {
      var n := if RunLen(vs) >= MIN_RUN then RunLen(vs) else LiteralLen(vs);
      var tail := Groups(vs[n..], w) + rest;
      GroupsRoundTrip(vs[n..], w, rest);
      assert vs == vs[..n] + vs[n..];
      if RunLen(vs) >= MIN_RUN {
        assert vs[..n] == Copies(vs[0], n);
        RunDecodes(vs[0], n, w, |vs|, tail);
        GroupsNext(RunBytes(vs[0], n, w), Groups(vs[n..], w), vs[..n], vs[n..], w, rest);
      } else {
        LiteralsDecode(vs[..n], w, |vs|, tail);
        GroupsNext(LiteralBytes(vs[..n], w), Groups(vs[n..], w), vs[..n], vs[n..], w, rest);
      }
    }
  }

  function EncodeRle(vs: seq<nat>): Bytes {
    if vs == [] then [1]
    else
      var w := Postings.MinWidth(MaxOf(vs, false));
      [w % 256] + Groups(vs, w)
  }

  function DecodeRle(src: Bytes, count: nat): Parsed<seq<nat>> {
    if src == [] then Short else DecodeGroups(src[1..], src[0], count)
  }

  lemma RleRoundTrip(vs: seq<nat>, rest: Bytes)
    requires Words(vs) && 2 * |vs| + 1 < U64
    ensures DecodeRle(EncodeRle(vs) + rest, |vs|) == Parsed(vs, rest)
  {
    hide Groups, DecodeGroups, MaxOf;
    var src := EncodeRle(vs) + rest;
    if vs == [] {
      assert src[1..] == rest;
      NoGroups(rest, src[0]);
    } else {
      var m := MaxOf(vs, false);
      var w := Postings.MinWidth(m);
      RleWidth(vs);
      assert src[1..] == Groups(vs, w) + rest;
      GroupsRoundTrip(vs, w, rest);
    }
  }

  lemma NoGroups(src: Bytes, w: nat)
    ensures DecodeGroups(src, w, 0) == Parsed([], src)
  {
  }

  lemma RleWidth(vs: seq<nat>)
    requires vs != [] && Words(vs)
    ensures var w := Postings.MinWidth(MaxOf(vs, false)); 1 <= w <= 64 && Below(vs, Pow(2, w))
  {
    hide MaxOf;
    var m := MaxOf(vs, false);
    Extremes(vs, false);
    Postings.MinWidthFits(m);
    WordIn(vs, m);
    Pow64();
    Postings.MinWidthBound(m, 64);
    forall i | 0 <= i < |vs| ensures vs[i] < Pow(2, Postings.MinWidth(m)) {
      assert vs[i] in vs;
    }
  }

  // ---- the dispatcher

  datatype Id = BitpackFor | Delta | Rle | GroupVarintId | PForDeltaId

  datatype Encoded = Bytes(b: Bytes) | Declined

  function EncodeInts(id: Id, vs: seq<nat>, signed: bool): Encoded {
    match id
    case BitpackFor => Encoded.Bytes(EncodeFor(vs, signed))
    case Delta => Encoded.Bytes(EncodeDelta(vs))
    case Rle => Encoded.Bytes(EncodeRle(vs))
    case GroupVarintId => if PForDelta.Fits32(vs) then Encoded.Bytes(GroupVarint.Encode(vs)) else Declined
    case PForDeltaId =>
      if PForDelta.Fits32(vs) && |vs| <= 256 then Encoded.Bytes(PForDelta.Encode(vs)) else Declined
  }

  function DecodeInts(id: Id, src: Bytes, count: nat): Parsed<seq<nat>> {
    match id
    case BitpackFor => DecodeFor(src, count)
    case Delta => DecodeDelta(src, count)
    case Rle => DecodeRle(src, count)
    case GroupVarintId => GroupVarint.Decode(src, count)
    case PForDeltaId => PForDelta.Decode(src, count)
  }

  /** The exceptions patched frame of reference leaves at the width it chooses. */
  function Exceptions(vs: seq<nat>): nat {
    |PForDelta.Patches(vs, PForDelta.ChosenWidth(vs), 0)|
  }

  /** Every encoding that accepts its input gives it back, patched frame of reference exactly
      when its one-byte exception count does not overflow. */
  lemma IntsRoundTrip(id: Id, vs: seq<nat>, signed: bool)
    requires Words(vs) && 2 * |vs| + 1 < U64 && EncodeInts(id, vs, signed).Bytes?
    ensures var p := DecodeInts(id, EncodeInts(id, vs, signed).b, |vs|);
      (p.Parsed? && p.value == vs) <==> (id == PForDeltaId ==> Exceptions(vs) <= 255)
  {
    hide EncodeFor, DecodeFor, EncodeDelta, DecodeDelta, EncodeRle, DecodeRle, GroupVarint.Encode, GroupVarint.Decode,
      PForDelta.EncodeAt, PForDelta.Decode, PForDelta.Patches, PForDelta.ChosenWidth;
    var b := EncodeInts(id, vs, signed).b;
    assert b + [] == b;
    match id
    case BitpackFor =>
      ForRoundTrip(vs, signed, []);
      NoDeltas(b);
    case Delta => DeltaRoundTrip(vs, []);
    case Rle => RleRoundTrip(vs, []);
    case GroupVarintId => GroupVarint.RoundTrip(vs, []);
    case PForDeltaId =>
      PForDelta.RoundTripIff(vs, PForDelta.ChosenWidth(vs), []);
      PForEncodes(vs);
  }

  lemma PForEncodes(vs: seq<nat>)
    ensures PForDelta.Encode(vs) == PForDelta.EncodeAt(vs, PForDelta.ChosenWidth(vs))
    ensures 1 <= PForDelta.ChosenWidth(vs) <= 32
  {
    hide PForDelta.EncodeAt;
  }
}
