/** Cursors over encoded posting lists (search/postings.go): a decode position and a
    separate shallow block pointer. A cursor refines an index into the plain list. */
module Cursors {
  import opened Digits
  import opened Varint
  import opened BitPack
  import opened Postings
  import GroupVarint
  import PForDelta

  /** The first index at or after `from` whose document is at least `target`. */
  function FirstGEQ(ps: seq<Posting>, from: nat, target: nat): (i: nat)
    requires from <= |ps|
    ensures from <= i <= |ps|
    ensures forall j :: from <= j < i ==> ps[j].doc < target
    ensures i < |ps| ==> ps[i].doc >= target
    decreases |ps| - from
  {
    if from == |ps| || ps[from].doc >= target then from else FirstGEQ(ps, from + 1, target)
  }

  /** Postings below the target may be stepped over. */
  lemma FirstGEQSkips(ps: seq<Posting>, from: nat, target: nat, to: nat)
    requires from <= to <= |ps|
    requires forall j :: from <= j < to ==> ps[j].doc < target
    ensures FirstGEQ(ps, from, target) == FirstGEQ(ps, to, target)
    decreases |ps| - from
  {
    if from < to {
      FirstGEQSkips(ps, from + 1, target, to);
    }
  }

  /** The number of postings in block `b` of a list of `n`. */
  function BlockLen(n: nat, b: nat): int {
    Min(BLOCK_SIZE, n - b * BLOCK_SIZE)
  }

  /** `l` encodes `ps`. */
  ghost predicate IsEncoding(l: List, ps: seq<Posting>) {
    l == EncodeList(ps) && Ascending(ps) && Words(ps)
  }

  lemma Opened(l: List, ps: seq<Posting>)
    ensures IsEncoding(l, ps) <==> l == EncodeList(ps) && Ascending(ps) && Words(ps)
  {
    hide EncodeList, Ascending, Words;
  }

  /** The record counts block `b`, ends at its last document and bounds its frequencies. */
  ghost predicate Records(r: Block, ps: seq<Posting>, b: nat) {
    && 0 < r.count == BlockLen(|ps|, b)
    && r.lastDoc == ps[b * BLOCK_SIZE + r.count - 1].doc
    && forall i :: b * BLOCK_SIZE <= i < b * BLOCK_SIZE + r.count ==> ps[i].freq <= r.maxFreq
  }

  /** What the skip record of one block says about the plain list. */
  lemma BlockFacts(l: List, ps: seq<Posting>, b: nat)
    requires IsEncoding(l, ps)
    ensures |ps| <= |l.blocks| * BLOCK_SIZE < |ps| + BLOCK_SIZE
    ensures b < |l.blocks| ==> Records(l.blocks[b], ps, b)
  {
    hide DataUpTo, MaxOf;
    Opened(l, ps);
    if b < |l.blocks| {
      var s := Slice(ps, b);
      assert l.blocks[b] == Summary(s, |DataUpTo(ps, b)|);
      forall i | b * BLOCK_SIZE <= i < b * BLOCK_SIZE + |s| ensures ps[i].freq <= MaxOf(Freqs(s)) {
        assert Freqs(s)[i - b * BLOCK_SIZE] == ps[i].freq;
      }
    }
  }

  lemma BlockBelow(l: List, ps: seq<Posting>, b: nat, from: nat, target: nat)
    requires IsEncoding(l, ps) && b < |l.blocks| && l.blocks[b].lastDoc < target
    requires from <= b * BLOCK_SIZE + l.blocks[b].count
    ensures b * BLOCK_SIZE + l.blocks[b].count <= |ps|
    ensures FirstGEQ(ps, from, target) == FirstGEQ(ps, b * BLOCK_SIZE + l.blocks[b].count, target)
  {
    hide EncodeList, FirstGEQ;
    Opened(l, ps);
    BlockFacts(l, ps, b);
    var end := b * BLOCK_SIZE + l.blocks[b].count;
    forall j | from <= j < end ensures ps[j].doc < target {
      assert j == end - 1 || ps[j].doc < ps[end - 1].doc;
    }
    FirstGEQSkips(ps, from, target, end);
  }

  lemma FirstGEQAtMost(ps: seq<Posting>, from: nat, target: nat, j: nat)
    requires from <= j < |ps| && ps[j].doc >= target
    ensures FirstGEQ(ps, from, target) <= j
    decreases |ps| - from
  {
    if ps[from].doc < target {
      FirstGEQAtMost(ps, from + 1, target, j);
    }
  }

  lemma Reached(l: List, ps: seq<Posting>, b: nat, from: nat, target: nat)
    requires IsEncoding(l, ps) && b < |l.blocks| && l.blocks[b].lastDoc >= target
    requires from < b * BLOCK_SIZE + BlockLen(|ps|, b)
    ensures from <= |ps| && l.blocks[b].count == BlockLen(|ps|, b)
    ensures FirstGEQ(ps, from, target) < b * BLOCK_SIZE + l.blocks[b].count <= |ps|
  {
    hide FirstGEQ;
    BlockFacts(l, ps, b);
    FirstGEQAtMost(ps, from, target, b * BLOCK_SIZE + l.blocks[b].count - 1);
  }

  /** A posting between a target and the last document of the block covering it lies in
      that block, so the block's maximum frequency bounds it. */
  lemma BlockCovers(l: List, ps: seq<Posting>, b: nat, floor: nat, i: nat)
    requires IsEncoding(l, ps) && b < |l.blocks| && i < |ps|
    requires forall c :: 0 <= c < b ==> l.blocks[c].lastDoc < floor
    requires floor <= ps[i].doc <= l.blocks[b].lastDoc
    ensures ps[i].freq <= l.blocks[b].maxFreq
  {
    hide EncodeList;
    Opened(l, ps);
    BlockFacts(l, ps, b);
    DocOrder(ps, b * BLOCK_SIZE + l.blocks[b].count - 1, i);
    if b > 0 {
      BlockFacts(l, ps, b - 1);
      assert ps[b * BLOCK_SIZE - 1].doc == l.blocks[b - 1].lastDoc < floor;
      DocOrder(ps, i, b * BLOCK_SIZE - 1);
    }
  }

  lemma DocOrder(ps: seq<Posting>, i: nat, j: nat)
    requires Ascending(ps) && i < |ps| && j < |ps|
    ensures i < j ==> ps[i].doc < ps[j].doc
  {
  }

  class Cursor {
    const l: List
    ghost const ps: seq<Posting>
    const docs: array<nat>
    const freqs: array<nat>
    var blockIdx: int
    var inBlock: nat
    var decoded: bool
    var shallowIdx: nat

    /** Every object a cursor writes; fixed when it is created. */
    ghost function Foot(): set<object> {
      {this, docs, freqs}
    }

    ghost predicate Fixed() {
      docs != freqs && docs.Length == BLOCK_SIZE && freqs.Length == BLOCK_SIZE && IsEncoding(l, ps)
    }

    /** The buffers hold block `b`. */
    ghost predicate Loaded(b: nat)
      reads docs, freqs
    {
      docs.Length == BLOCK_SIZE && freqs.Length == BLOCK_SIZE && 0 < BlockLen(|ps|, b)
      && forall i :: 0 <= i < BlockLen(|ps|, b) ==>
           docs[i] == ps[b * BLOCK_SIZE + i].doc && freqs[i] == ps[b * BLOCK_SIZE + i].freq
    }

    ghost predicate Valid()
      reads this, docs, freqs
    {
      && Fixed()
      && -1 <= blockIdx <= |l.blocks|
      && (blockIdx == -1 ==> !decoded)
      && (0 <= blockIdx < |l.blocks| ==> decoded && inBlock < BlockLen(|ps|, blockIdx) && Loaded(blockIdx))
      && (shallowIdx == 0 || shallowIdx < |l.blocks|)
    }

    /** -1 before the first posting, |ps| after the last. */
    ghost function Pos(): (p: int)
      requires Valid()
      reads this, docs, freqs
      ensures -1 <= p <= |ps|
    {
      if blockIdx < 0 then -1
      else if blockIdx >= |l.blocks| then |ps|
      else blockIdx * BLOCK_SIZE + inBlock
    }

    constructor (l: List, ghost ps: seq<Posting>)
      requires IsEncoding(l, ps)
      ensures Valid() && Pos() == -1 && shallowIdx == 0 && this.ps == ps && this.l == l
      ensures fresh(docs) && fresh(freqs)
    {
      hide IsEncoding;
      this.l, this.ps := l, ps;
      docs, freqs := new nat[BLOCK_SIZE], new nat[BLOCK_SIZE];
      blockIdx, inBlock, decoded, shallowIdx := -1, 0, false, 0;
    }

    predicate Done()
      reads this
    {
      blockIdx >= |l.blocks|
    }

    function Doc(): (d: nat)
      requires Valid() && 0 <= Pos() < |ps|
      reads this, docs, freqs
      ensures d == ps[Pos()].doc
    {
      docs[inBlock]
    }

    function Freq(): (f: nat)
      requires Valid() && 0 <= Pos() < |ps|
      reads this, docs, freqs
      ensures f == ps[Pos()].freq
    {
      freqs[inBlock]
    }

    /** One posting forward. Past the end the source indexes a block that is not there. */
    method Next() returns (more: bool)
      requires Valid() && Pos() < |ps|
      modifies Foot()
      ensures Valid() && Pos() == old(Pos()) + 1
      ensures more <==> Pos() < |ps|
      ensures shallowIdx == old(shallowIdx)
    {
      hide IsEncoding;
      BlockFacts(l, ps, Max(0, blockIdx));
      if blockIdx < 0 {
        blockIdx := 0;
        if |l.blocks| == 0 {
          return false;
        }
        DecodeBlock();
        inBlock := 0;
        return true;
      }
      inBlock := inBlock + 1;
      if inBlock >= l.blocks[blockIdx].count {
        blockIdx := blockIdx + 1;
        if Done() {
          return false;
        }
        DecodeBlock();
        inBlock := 0;
      }
      more := true;
    }

    /** Forward to the first posting, from the current one on, with document >= target. */
    method NextGEQ(target: nat) returns (doc: nat, ok: bool)
      requires Valid()
      modifies Foot()
      ensures Valid() && Pos() == FirstGEQ(ps, Max(old(Pos()), 0), target)
      ensures ok <==> Pos() < |ps|
      ensures ok ==> doc == ps[Pos()].doc
      ensures shallowIdx == old(shallowIdx)
    {
      hide IsEncoding, FirstGEQ;
      BlockFacts(l, ps, Max(0, blockIdx));
      ghost var want := FirstGEQ(ps, Max(Pos(), 0), target);
      if Done() {
        return 0, false;
      }
      if blockIdx < 0 {
        blockIdx := 0;
      }
      SkipBlocks(target, want);
      if Done() {
        return 0, false;
      }
      doc := Land(target, want);
      ok := true;
    }

    method Land(target: nat, ghost want: nat) returns (doc: nat)
      requires 0 <= blockIdx < |l.blocks| && l.blocks[blockIdx].lastDoc >= target
      requires Skipping(target, want)
      modifies docs, freqs, this`decoded, this`inBlock
      ensures want < |ps| && doc == ps[want].doc && decoded && blockIdx * BLOCK_SIZE + inBlock == want
      ensures inBlock < BlockLen(|ps|, blockIdx) && Loaded(blockIdx)
    {
      hide IsEncoding, FirstGEQ;
      BlockFacts(l, ps, blockIdx);
      if !decoded {
        DecodeBlock();
        inBlock := 0;
      }
      Reached(l, ps, blockIdx, blockIdx * BLOCK_SIZE + inBlock, target);
      doc := Scan(target, want);
    }

    /** Where the cursor stands while blocks are skipped: in a block, or before one. */
    ghost function At(): int
      reads this
    {
      if decoded then blockIdx * BLOCK_SIZE + inBlock
      else Min(|ps|, blockIdx * BLOCK_SIZE)
    }

    ghost predicate Skipping(target: nat, want: nat)
      reads this, docs, freqs
    {
      && Fixed() && 0 <= blockIdx <= |l.blocks|
      && (decoded ==> blockIdx < |l.blocks| && inBlock < BlockLen(|ps|, blockIdx) && Loaded(blockIdx))
      && 0 <= At() <= |ps| && FirstGEQ(ps, At(), target) == want
    }

    method SkipBlocks(target: nat, ghost want: nat)
      requires Skipping(target, want)
      modifies this`blockIdx, this`decoded
      ensures Skipping(target, want)
      ensures blockIdx < |l.blocks| ==> l.blocks[blockIdx].lastDoc >= target
      ensures blockIdx >= |l.blocks| ==> want == |ps|
    {
      hide IsEncoding, FirstGEQ;
      while blockIdx < |l.blocks| && l.blocks[blockIdx].lastDoc < target
        invariant Skipping(target, want)
      {
        BlockFacts(l, ps, blockIdx);
        BlockBelow(l, ps, blockIdx, At(), target);
        blockIdx := blockIdx + 1;
        decoded := false;
      }
      BlockFacts(l, ps, blockIdx);
    }

    /** The scan inside a block whose last document reaches the target. */
    method Scan(target: nat, ghost want: nat) returns (doc: nat)
      requires 0 <= blockIdx < |l.blocks| && Loaded(blockIdx) && l.blocks[blockIdx].count == BlockLen(|ps|, blockIdx)
      requires inBlock < BlockLen(|ps|, blockIdx) && blockIdx * BLOCK_SIZE + inBlock <= want < |ps|
      requires want == FirstGEQ(ps, blockIdx * BLOCK_SIZE + inBlock, target)
      requires want < blockIdx * BLOCK_SIZE + BlockLen(|ps|, blockIdx)
      modifies this`inBlock
      ensures blockIdx * BLOCK_SIZE + inBlock == want && doc == ps[want].doc
    {
      while inBlock < l.blocks[blockIdx].count
        invariant blockIdx * BLOCK_SIZE + inBlock <= want
        invariant FirstGEQ(ps, blockIdx * BLOCK_SIZE + inBlock, target) == want
      {
        if docs[inBlock] >= target {
          return docs[inBlock];
        }
        inBlock := inBlock + 1;
      }
      // The block's last document reaches the target, so the scan cannot run off its end.
      assert false;
    }

    /** Moves the shallow pointer, and nothing else, to the block that covers `target`. */
    method AdvanceShallow(target: nat)
      requires Valid()
      modifies this`shallowIdx
      ensures Valid() && old(shallowIdx) <= shallowIdx
      ensures forall b :: old(shallowIdx) <= b < shallowIdx && b < |l.blocks| ==> l.blocks[b].lastDoc < target
      ensures shallowIdx + 1 < |l.blocks| ==> l.blocks[shallowIdx].lastDoc >= target
    {
      hide IsEncoding;
      while shallowIdx < |l.blocks| - 1 && l.blocks[shallowIdx].lastDoc < target
        invariant shallowIdx == 0 || shallowIdx < |l.blocks|
        invariant old(shallowIdx) <= shallowIdx
        invariant forall b :: old(shallowIdx) <= b < shallowIdx && b < |l.blocks| ==> l.blocks[b].lastDoc < target
        decreases |l.blocks| - shallowIdx
      {
        shallowIdx := shallowIdx + 1;
      }
    }

    function BlockMaxFreq(): (m: nat)
      requires Valid() && ps != []
      reads this, docs, freqs
      ensures shallowIdx < |l.blocks| && m == l.blocks[shallowIdx].maxFreq
    {
      BlockFacts(l, ps, shallowIdx);
      l.blocks[shallowIdx].maxFreq
    }

    function BlockLastDoc(): (d: nat)
      requires Valid() && ps != []
      reads this, docs, freqs
      ensures shallowIdx < |l.blocks| && d == l.blocks[shallowIdx].lastDoc
    {
      BlockFacts(l, ps, shallowIdx);
      l.blocks[shallowIdx].lastDoc
    }

    method DecodeBlock()
      requires Fixed() && 0 <= blockIdx < |l.blocks|
      modifies docs, freqs, this`decoded
      ensures Loaded(blockIdx) && decoded
    {
      hide IsEncoding, Payload, Gaps, Docs;
      ghost var s, rest := BlockParts(l, ps, blockIdx);
      var b := l.blocks[blockIdx];
      var gaps, f := DecodeStreams(l.data[b.offset..], b.count, s, rest);
      docs[0] := b.firstDoc;
      var i := 1;
      while i < b.count
        invariant 1 <= i <= b.count
        invariant forall j :: 0 <= j < i ==> docs[j] == s[j].doc
      {
        GapAt(s, i);
        docs[i] := (docs[i - 1] + gaps[i - 1]) % U32;
        i := i + 1;
      }
      i := 0;
      while i < b.count
        invariant 0 <= i <= b.count
        invariant forall j :: 0 <= j < i ==> freqs[j] == s[j].freq
        invariant forall j :: 0 <= j < b.count ==> docs[j] == s[j].doc
      {
        freqs[i] := f[i];
        i := i + 1;
      }
      decoded := true;
    }
  }

  /** `s` is block `b` of the list, and its payload stands where the record says. */
  ghost predicate Stands(r: Block, data: Bytes, ps: seq<Posting>, b: nat, s: seq<Posting>, rest: Bytes) {
    && |s| == BlockLen(|ps|, b) == r.count && 0 < |s| <= BLOCK_SIZE
    && (forall i :: 0 <= i < |s| ==> s[i] == ps[b * BLOCK_SIZE + i])
    && Ascending(s) && Words(s) && r.firstDoc == s[0].doc
    && r.offset <= |data| && data[r.offset..] == Payload(s) + rest
  }

  lemma BlockParts(l: List, ps: seq<Posting>, b: nat) returns (s: seq<Posting>, rest: Bytes)
    requires IsEncoding(l, ps) && b < |l.blocks|
    ensures Stands(l.blocks[b], l.data, ps, b, s, rest)
  {
    hide EncodeList, Payload;
    Opened(l, ps);
    BlockBytes(ps, b);
    s := Slice(ps, b);
    rest := l.data[l.blocks[b].offset + |Payload(s)|..];
  }

  lemma GapAt(s: seq<Posting>, i: nat)
    requires Ascending(s) && Words(s) && 1 <= i < |s|
    ensures (s[i - 1].doc + Gaps(Docs(s))[i - 1]) % U32 == s[i].doc
  {
    var d := Docs(s);
    assert d[i - 1] < d[i - 1 + 1];
  }

  /** The gap stream and the frequency stream of a payload. */
  method DecodeStreams(src: Bytes, count: nat, ghost s: seq<Posting>, ghost rest: Bytes)
    returns (gaps: seq<nat>, freqs: seq<nat>)
    requires 0 < count == |s| <= BLOCK_SIZE && Ascending(s) && Words(s) && src == Payload(s) + rest
    ensures |gaps| == |s| - 1 && gaps == Gaps(Docs(s))
    ensures freqs == Freqs(s)
  {
    hide PForDelta.Encode, PForDelta.Decode, GapBytes, Gaps, Docs;
    ghost var tail := PForDelta.Encode(Freqs(s)) + rest;
    AppendAssoc(GapBytes(Gaps(Docs(s))), PForDelta.Encode(Freqs(s)), rest);
    var pos;
    gaps, pos := DecodeGapStream(src, count, Gaps(Docs(s)), tail);
    FreqsRoundTrip(Freqs(s), rest);
    PForDelta.EncodeHead(Freqs(s), rest);
    freqs := DecodeFreqs(src[pos..], count);
  }

  method DecodeFreqs(src: Bytes, count: nat) returns (freqs: seq<nat>)
    requires PForDelta.Decode(src, count).Parsed? && 1 <= src[0] <= 32
    ensures freqs == PForDelta.Decode(src, count).value
  {
    hide PForDelta.Decode;
    var ok, out, n := PForDelta.ReadPForDelta(src, count);
    freqs := out;
  }

  method DecodeGapStream(src: Bytes, count: nat, ghost gaps: seq<nat>, ghost tail: Bytes)
    returns (out: seq<nat>, pos: nat)
    requires 0 < count <= BLOCK_SIZE && |gaps| == count - 1 && src == GapBytes(gaps) + tail
    requires forall i :: 0 <= i < |gaps| ==> gaps[i] < U32
    ensures out == gaps && pos <= |src| && src[pos..] == tail
  {
    hide Pack, Unpack, GroupVarint.Encode, GroupVarint.Decode, MinWidth, MaxOf;
    if count == BLOCK_SIZE {
      ghost var w := MinWidth(MaxOf(gaps));
      GapsWidth(gaps);
      PackRoundTrip(gaps, w, tail);
      assert src[1..] == Pack(gaps, w) + tail;
      var n;
      out, n := UnpackBits32(src[1..], count - 1, src[0]);
      assert src[1..][n..] == src[1 + n..];
      pos := 1 + n;
    } else {
      var ok;
      GroupVarint.RoundTrip(gaps, tail);
      ok, out, pos := GroupVarint.ReadGroupVarint(src, count - 1);
    }
  }
}
