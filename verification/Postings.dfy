/** Encoded posting lists (search/postings.go): blocks of 128 postings, each with an
    uncompressed skip record, and the codec between a list and its bytes. */
module Postings {
  import opened Digits
  import opened Varint
  import opened BitPack
  import GroupVarint
  import PForDelta

  const BLOCK_SIZE: nat := 128

  datatype Posting = Posting(doc: nat, freq: nat)
  datatype Block = Block(firstDoc: nat, lastDoc: nat, maxFreq: nat, offset: nat, count: nat)
  datatype List = List(data: Bytes, blocks: seq<Block>, numDoc: nat)

  datatype EncodeResult = Encoded(list: List) | NotAscending

  predicate Ascending(ps: seq<Posting>) {
    forall i, j :: 0 <= i < j < |ps| ==> ps[i].doc < ps[j].doc
  }

  /** Documents and frequencies are 32-bit words. */
  predicate Words(ps: seq<Posting>) {
    forall i :: 0 <= i < |ps| ==> ps[i].doc < U32 && ps[i].freq < U32
  }

  // ---- one block

  function MaxOf(vs: seq<nat>): (m: nat)
    ensures forall i :: 0 <= i < |vs| ==> vs[i] <= m
    ensures vs != [] ==> m in vs
    ensures vs == [] ==> m == 0
  {
    if vs == [] then 0 else
      var m := MaxOf(vs[1..]);
      if vs[0] >= m then vs[0] else m
  }

  /** The bits of `v`, at least one. */
  function MinWidth(v: nat): (w: nat)
    ensures w >= 1
  {
    if v < 2 then 1 else 1 + MinWidth(v / 2)
  }

  lemma {:induction false} MinWidthFits(v: nat)
    ensures v < Pow(2, MinWidth(v))
    decreases v
  {
    assert Pow(2, 1) == 2 * Pow(2, 0);
    if v >= 2 {
      MinWidthFits(v / 2);
    }
  }

  lemma {:induction false} MinWidthBound(v: nat, n: nat)
    requires n >= 1 && v < Pow(2, n)
    ensures MinWidth(v) <= n
    decreases v
  {
    if v >= 2 {
      assert n >= 2 by { assert Pow(2, 1) == 2 * Pow(2, 0); }
      MinWidthBound(v / 2, n - 1);
    }
  }

  function Freqs(ps: seq<Posting>): (r: seq<nat>)
    ensures |r| == |ps|
    ensures forall i :: 0 <= i < |ps| ==> r[i] == ps[i].freq
  {
    seq(|ps|, i requires 0 <= i < |ps| => ps[i].freq)
  }

  function Docs(ps: seq<Posting>): (r: seq<nat>)
    ensures |r| == |ps|
    ensures forall i :: 0 <= i < |ps| ==> r[i] == ps[i].doc
  {
    seq(|ps|, i requires 0 <= i < |ps| => ps[i].doc)
  }

  /** The difference of neighbours, as 32-bit words. */
  function Gaps(docs: seq<nat>): (r: seq<nat>)
    ensures |r| == if docs == [] then 0 else |docs| - 1
    ensures forall i :: 0 <= i < |r| ==> r[i] < U32
    ensures forall i :: 0 <= i < |r| && docs[i] < docs[i + 1] < U32 ==> r[i] == docs[i + 1] - docs[i]
  {
    seq(if docs == [] then 0 else |docs| - 1,
        i requires 0 <= i < |docs| - 1 => (docs[i + 1] - docs[i]) % U32)
  }

  /** `docs[i] = docs[i-1] + gap`, from the first document on, as 32-bit words. */
  function Accumulate(first: nat, gaps: seq<nat>): (r: seq<nat>)
    ensures |r| == |gaps| + 1
    decreases |gaps|
  {
    if gaps == [] then [first] else [first] + Accumulate((first + gaps[0]) % U32, gaps[1..])
  }

  lemma {:induction false} AccumulateGaps(docs: seq<nat>)
    requires docs != [] && forall i :: 0 <= i < |docs| ==> docs[i] < U32
    requires forall i, j :: 0 <= i < j < |docs| ==> docs[i] < docs[j]
    ensures Accumulate(docs[0], Gaps(docs)) == docs
  {
    if |docs| > 1 {
      hide Gaps;
      var more := docs[1..];
      AccumulateGaps(more);
      assert Gaps(docs)[1..] == Gaps(more) by {
        forall i | 0 <= i < |more| - 1 ensures Gaps(docs)[i + 1] == Gaps(more)[i] {
          assert more[i] == docs[i + 1] < docs[i + 2] == more[i + 1];
        }
      }
      assert docs[0] < docs[1] && Gaps(docs)[0] == docs[1] - docs[0];
      HeadTail(docs);
    }
  }

  function GapBytes(gaps: seq<nat>): Bytes {
    if |gaps| + 1 == BLOCK_SIZE then
      var w := MinWidth(MaxOf(gaps));
      [w % 256] + Pack(gaps, w)
    else GroupVarint.Encode(gaps)
  }

  function Payload(ps: seq<Posting>): Bytes {
    GapBytes(Gaps(Docs(ps))) + PForDelta.Encode(Freqs(ps))
  }

  function DecodeGaps(src: Bytes, count: nat): Parsed<seq<nat>>
    requires count > 0
  {
    if count == BLOCK_SIZE then
      if src == [] then Short else Unpack(src[1..], count - 1, src[0])
    else GroupVarint.Decode(src, count - 1)
  }

  /** What `decodeBlock` reconstructs: the documents and the frequencies. */
  function DecodePayload(src: Bytes, first: nat, count: nat): (r: Parsed<(seq<nat>, seq<nat>)>)
    requires count > 0
  {
    match DecodeGaps(src, count)
    case Short => Short
    case Parsed(gaps, rest) =>
      match PForDelta.Decode(rest, count)
      case Short => Short
      case Parsed(freqs, end) => Parsed((Accumulate(first, gaps), freqs), end)
  }

  lemma GapsWidth(gaps: seq<nat>)
    requires forall i :: 0 <= i < |gaps| ==> gaps[i] < U32
    ensures var w := MinWidth(MaxOf(gaps)); 1 <= w <= 32 && Below(gaps, Pow(2, w))
  {
    var m := MaxOf(gaps);
    MinWidthFits(m);
    assert m < U32;
    assert Pow(2, 32) == U32 by { Pow256(4); Words4(); }
    MinWidthBound(m, 32);
  }

  lemma Words4()
    ensures Pow(256, 4) == U32
  {
    assert Pow(256, 2) == 256 * Pow(256, 1) == 65536;
    PowAdd(256, 2, 2);
  }

  lemma GapsRoundTrip(gaps: seq<nat>, rest: Bytes)
    requires |gaps| < BLOCK_SIZE && forall i :: 0 <= i < |gaps| ==> gaps[i] < U32
    ensures DecodeGaps(GapBytes(gaps) + rest, |gaps| + 1) == Parsed(gaps, rest)
  {
    hide Pack, Unpack, GroupVarint.Encode, GroupVarint.Decode, MinWidth, MaxOf, Pow;
    if |gaps| + 1 == BLOCK_SIZE {
      var w := MinWidth(MaxOf(gaps));
      GapsWidth(gaps);
      PackRoundTrip(gaps, w, rest);
      var src := GapBytes(gaps) + rest;
      assert src[1..] == Pack(gaps, w) + rest;
    } else {
      GroupVarint.RoundTrip(gaps, rest);
    }
  }

  /** Every block payload decodes to the postings it was written from. */
  lemma PayloadRoundTrip(ps: seq<Posting>, rest: Bytes)
    requires 0 < |ps| <= BLOCK_SIZE && Ascending(ps) && Words(ps)
    ensures DecodePayload(Payload(ps) + rest, ps[0].doc, |ps|) == Parsed((Docs(ps), Freqs(ps)), rest)
  {
    hide GapBytes, DecodeGaps, PForDelta.Encode, PForDelta.Decode, Accumulate;
    var gaps, freqs := Gaps(Docs(ps)), Freqs(ps);
    var tail := PForDelta.Encode(freqs) + rest;
    GapsRoundTrip(gaps, tail);
    FreqsRoundTrip(freqs, rest);
    AccumulateGaps(Docs(ps));
    AppendAssoc(GapBytes(gaps), PForDelta.Encode(freqs), rest);
  }

  lemma FreqsRoundTrip(freqs: seq<nat>, rest: Bytes)
    requires |freqs| <= BLOCK_SIZE && forall i :: 0 <= i < |freqs| ==> freqs[i] < U32
    ensures PForDelta.Decode(PForDelta.Encode(freqs) + rest, |freqs|) == Parsed(freqs, rest)
  {
    hide PForDelta.EncodeAt, PForDelta.Decode, PForDelta.ArgMin, PForDelta.Patches;
    PForDelta.RoundTripAt(freqs, PForDelta.ChosenWidth(freqs), rest);
  }

  // ---- the list

  function Summary(ps: seq<Posting>, offset: nat): Block
    requires ps != []
  {
    Block(ps[0].doc, ps[|ps| - 1].doc, MaxOf(Freqs(ps)), offset, |ps|)
  }

  function NumBlocks(n: nat): (r: nat)
    ensures n <= r * BLOCK_SIZE < n + BLOCK_SIZE
  {
    (n + BLOCK_SIZE - 1) / BLOCK_SIZE
  }

  /** The postings of block `b`. */
  function Slice(ps: seq<Posting>, b: nat): (r: seq<Posting>)
    requires b < NumBlocks(|ps|)
    ensures 0 < |r| <= BLOCK_SIZE
  {
    ps[b * BLOCK_SIZE..Min((b + 1) * BLOCK_SIZE, |ps|)]
  }

  /** The payload bytes of the first `b` blocks. */
  function DataUpTo(ps: seq<Posting>, b: nat): Bytes
    requires b <= NumBlocks(|ps|)
  {
    if b == 0 then [] else DataUpTo(ps, b - 1) + Payload(Slice(ps, b - 1))
  }

  function EncodeList(ps: seq<Posting>): (l: List)
    ensures |l.blocks| == NumBlocks(|ps|)
  {
    List(DataUpTo(ps, NumBlocks(|ps|)),
         seq(NumBlocks(|ps|), b requires 0 <= b < NumBlocks(|ps|) => Summary(Slice(ps, b), |DataUpTo(ps, b)|)),
         |ps|)
  }

  lemma {:induction false} DataGrows(ps: seq<Posting>, b: nat, c: nat)
    requires b <= c <= NumBlocks(|ps|)
    ensures DataUpTo(ps, b) <= DataUpTo(ps, c)
    decreases c
  {
    hide Payload, NumBlocks, Slice;
    if b < c {
      DataGrows(ps, b, c - 1);
    }
  }

  lemma SliceAscends(ps: seq<Posting>, b: nat)
    requires Ascending(ps) && Words(ps) && b < NumBlocks(|ps|)
    ensures Ascending(Slice(ps, b)) && Words(Slice(ps, b))
  {
  }

  /** Block `b` of an encoding summarises slice `b`, and its offset locates the payload. */
  lemma BlockBytes(ps: seq<Posting>, b: nat)
    requires Ascending(ps) && Words(ps) && b < NumBlocks(|ps|)
    ensures var l, s := EncodeList(ps), Slice(ps, b); var blk := l.blocks[b];
      && Ascending(s) && Words(s)
      && blk == Summary(s, blk.offset)
      && blk.offset + |Payload(s)| <= |l.data|
      && l.data[blk.offset..] == Payload(s) + l.data[blk.offset + |Payload(s)|..]
  {
    hide Payload, NumBlocks, Slice, Ascending, Words, EncodeList, DataUpTo;
    var l, s, before := EncodeList(ps), Slice(ps, b), DataUpTo(ps, b);
    ListBlock(ps, b);
    SliceStep(ps, b);
    DataGrows(ps, b + 1, NumBlocks(|ps|));
    Locate(before, Payload(s), l.data);
  }

  /** Decoding any block of an encoded list yields exactly its slice of the postings, and
      the skip record carries the true bounds and maximum frequency of that slice. */
  lemma BlockDecodes(ps: seq<Posting>, b: nat)
    requires Ascending(ps) && Words(ps) && b < NumBlocks(|ps|)
    ensures var l, s := EncodeList(ps), Slice(ps, b); var blk := l.blocks[b];
      && blk.offset <= |l.data|
      && blk == Summary(s, blk.offset)
      && var p := DecodePayload(l.data[blk.offset..], blk.firstDoc, blk.count);
         p.Parsed? && p.value == (Docs(s), Freqs(s))
  {
    hide Payload, DecodePayload, NumBlocks, Slice, Ascending, Words, EncodeList;
    BlockBytes(ps, b);
    var l, s := EncodeList(ps), Slice(ps, b);
    PayloadRoundTrip(s, l.data[l.blocks[b].offset + |Payload(s)|..]);
  }

  lemma ListBlock(ps: seq<Posting>, b: nat)
    requires b < NumBlocks(|ps|)
    ensures EncodeList(ps).data == DataUpTo(ps, NumBlocks(|ps|))
    ensures EncodeList(ps).blocks[b] == Summary(Slice(ps, b), |DataUpTo(ps, b)|)
  {
    hide DataUpTo, Slice, Summary;
  }

  lemma Locate(a: Bytes, b: Bytes, whole: Bytes)
    requires a + b <= whole
    ensures |a| + |b| <= |whole| && whole[|a|..] == b + whole[|a| + |b|..]
  {
    assert whole == a + b + whole[|a| + |b|..];
  }

  // ---- the encoder

  method EncodePostings(ps: seq<Posting>) returns (r: EncodeResult)
    requires Words(ps)
    ensures Ascending(ps) ==> r == Encoded(EncodeList(ps))
    ensures !Ascending(ps) ==> r == NotAscending
  {
    var i := 1;
    while i < |ps|
      invariant i >= 1 && forall j :: 1 <= j < i && j < |ps| ==> ps[j - 1].doc < ps[j].doc
    {
      if ps[i].doc <= ps[i - 1].doc {
        assert !(ps[i - 1].doc < ps[i].doc);
        return NotAscending;
      }
      i := i + 1;
    }
    NeighboursAscend(ps);
    var list := EncodeBlocks(ps);
    r := Encoded(list);
  }

  method EncodeBlocks(ps: seq<Posting>) returns (l: List)
    requires Ascending(ps) && Words(ps)
    ensures l == EncodeList(ps)
  {
    hide Payload, Summary, Ascending, Words, NumBlocks, Slice, DataUpTo, EncodeList;
    var data: Bytes, blocks: seq<Block>, start := [], [], 0;
    ghost var done := 0;
    SliceStep(ps, 0);
    while start < |ps|
      invariant start == done * BLOCK_SIZE && done <= NumBlocks(|ps|) && |blocks| == done
      invariant data == DataUpTo(ps, done)
      invariant forall b :: 0 <= b < done ==> blocks[b] == Summary(Slice(ps, b), |DataUpTo(ps, b)|)
      decreases NumBlocks(|ps|) - done
    {
      var end := Min(start + BLOCK_SIZE, |ps|);
      SliceStep(ps, done);
      var b, payload := EncodeBlock(ps[start..end], |data|);
      data, blocks := data + payload, blocks + [b];
      start, done := start + BLOCK_SIZE, done + 1;
    }
    l := List(data, blocks, |ps|);
    ListIs(ps, blocks);
  }

  lemma SliceStep(ps: seq<Posting>, b: nat)
    requires Ascending(ps) && Words(ps) && b <= NumBlocks(|ps|)
    ensures DataUpTo(ps, 0) == []
    ensures b * BLOCK_SIZE < |ps| ==>
      && b < NumBlocks(|ps|)
      && ps[b * BLOCK_SIZE..Min(b * BLOCK_SIZE + BLOCK_SIZE, |ps|)] == Slice(ps, b)
      && Ascending(Slice(ps, b)) && Words(Slice(ps, b))
      && DataUpTo(ps, b + 1) == DataUpTo(ps, b) + Payload(Slice(ps, b))
  {
    hide Payload, NumBlocks;
    if b * BLOCK_SIZE < |ps| {
      SliceAscends(ps, b);
    }
  }

  lemma ListIs(ps: seq<Posting>, blocks: seq<Block>)
    requires |blocks| == NumBlocks(|ps|)
    requires forall b :: 0 <= b < |blocks| ==> blocks[b] == Summary(Slice(ps, b), |DataUpTo(ps, b)|)
    ensures List(DataUpTo(ps, NumBlocks(|ps|)), blocks, |ps|) == EncodeList(ps)
  {
    hide DataUpTo, Summary, Slice, NumBlocks;
  }

  lemma {:induction false} NeighboursAscend(ps: seq<Posting>)
    requires forall j :: 1 <= j < |ps| ==> ps[j - 1].doc < ps[j].doc
    ensures Ascending(ps)
  {
    if |ps| > 1 {
      var front := ps[..|ps| - 1];
      NeighboursAscend(front);
      forall i, j | 0 <= i < j < |ps| ensures ps[i].doc < ps[j].doc {
        if j < |ps| - 1 {
          assert front[i].doc < front[j].doc;
        } else if i < |ps| - 2 {
          assert front[i].doc < front[|ps| - 2].doc;
        }
      }
    }
  }

  method EncodeBlock(ps: seq<Posting>, offset: nat) returns (b: Block, payload: Bytes)
    requires 0 < |ps| <= BLOCK_SIZE && Words(ps) && Ascending(ps)
    ensures b == Summary(ps, offset) && payload == Payload(ps)
  {
    hide GapBytes, PForDelta.Encode;
    var gaps, freqs, maxFreq := Gather(ps);
    payload := AppendGaps(gaps);
    payload := PForDelta.AppendPForDelta(payload, freqs);
    b := Block(ps[0].doc, ps[|ps| - 1].doc, maxFreq, offset, |ps|);
  }

  method Gather(ps: seq<Posting>) returns (gaps: seq<nat>, freqs: seq<nat>, maxFreq: nat)
    requires ps != [] && Words(ps) && Ascending(ps)
    ensures gaps == Gaps(Docs(ps)) && freqs == Freqs(ps) && maxFreq == MaxOf(freqs)
  {
    hide MaxOf;
    gaps, freqs, maxFreq := [], [], 0;
    var i := 0;
    while i < |ps|
      invariant 0 <= i <= |ps| && |freqs| == i && |gaps| == Max(0, i - 1)
      invariant forall j :: 0 <= j < i ==> freqs[j] == ps[j].freq && freqs[j] <= maxFreq
      invariant maxFreq in freqs || maxFreq == 0
      invariant forall j :: 0 <= j < |gaps| ==> gaps[j] == ps[j + 1].doc - ps[j].doc
    {
      freqs := freqs + [ps[i].freq];
      if ps[i].freq > maxFreq {
        maxFreq := ps[i].freq;
      }
      if i > 0 {
        gaps := gaps + [ps[i].doc - ps[i - 1].doc];
      }
      i := i + 1;
    }
    assert freqs == Freqs(ps);
    assert gaps == Gaps(Docs(ps));
    MaxIs(freqs, maxFreq);
  }

  lemma MaxIs(vs: seq<nat>, m: nat)
    requires forall i :: 0 <= i < |vs| ==> vs[i] <= m
    requires m in vs || m == 0
    ensures m == MaxOf(vs)
  {
    hide MaxOf;
    var k := MaxOf(vs);
    if m in vs {
      var i :| 0 <= i < |vs| && vs[i] == m;
    }
    if vs != [] {
      var j :| 0 <= j < |vs| && vs[j] == k;
    }
  }

  method AppendGaps(gaps: seq<nat>) returns (payload: Bytes)
    requires |gaps| < BLOCK_SIZE && forall i :: 0 <= i < |gaps| ==> gaps[i] < U32
    ensures payload == GapBytes(gaps)
  {
    hide Pack, GroupVarint.Encode, MinWidth, MaxOf;
    if |gaps| + 1 == BLOCK_SIZE {
      var w := MaxWidth(gaps);
      GapsWidth(gaps);
      payload := PackBits32([w % 256], gaps, w);
    } else {
      payload := GroupVarint.AppendGroupVarint([], gaps);
      assert [] + GroupVarint.Encode(gaps) == GroupVarint.Encode(gaps);
    }
  }

  method MaxWidth(vs: seq<nat>) returns (w: nat)
    ensures w == MinWidth(MaxOf(vs))
  {
    hide MaxOf, MinWidth;
    var m, i := 0, 0;
    while i < |vs|
      invariant 0 <= i <= |vs|
      invariant forall j :: 0 <= j < i ==> vs[j] <= m
      invariant m == 0 || m in vs[..i]
    {
      if vs[i] > m {
        m := vs[i];
      }
      i := i + 1;
    }
    MaxIs(vs, m);
    w := MinWidth(m);
  }

  /** `List.MaxFreq`: the block maxima fold to the maximum over all postings. */
  method MaxFreq(l: List, ghost ps: seq<Posting>) returns (m: nat)
    requires l == EncodeList(ps)
    ensures m == MaxOf(Freqs(ps))
  {
    hide DataUpTo, MaxOf, NumBlocks;
    m := 0;
    var b := 0;
    while b < |l.blocks|
      invariant 0 <= b <= |l.blocks| == NumBlocks(|ps|)
      invariant forall i :: 0 <= i < |ps| && i < b * BLOCK_SIZE ==> ps[i].freq <= m
      invariant m == 0 || m in Freqs(ps)
    {
      ghost var s := Slice(ps, b);
      assert l.blocks[b].maxFreq == MaxOf(Freqs(s));
      forall i | b * BLOCK_SIZE <= i < |ps| && i < (b + 1) * BLOCK_SIZE ensures ps[i].freq <= MaxOf(Freqs(s)) {
        assert Freqs(s)[i - b * BLOCK_SIZE] == ps[i].freq;
      }
      if l.blocks[b].maxFreq > m {
        m := l.blocks[b].maxFreq;
        ghost var j :| 0 <= j < |s| && Freqs(s)[j] == m;
        assert Freqs(ps)[b * BLOCK_SIZE + j] == m;
      }
      b := b + 1;
    }
    MaxIs(Freqs(ps), m);
  }
}
