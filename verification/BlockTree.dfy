/** The on-disk term dictionary (search/blocktree.go): front-coded, compressed blocks under a
    sparse index, bytes and their reading. */
module BlockTree {
  import opened Digits
  import opened Varint
  import opened Keys
  import opened TermLists
  import opened InvertedFile

  const DEFAULT_BLOCK_SIZE: nat := 64
  const VERSION: Byte := 2

  /** The block compressor and its inverse; `dec` rejects what `enc` did not make. */
  datatype Codec = Codec(enc: Bytes -> Bytes, dec: Bytes -> Parsed<Bytes>)

  ghost predicate Inverse(z: Codec) {
    forall b :: z.dec(z.enc(b)) == Parsed(b, [])
  }

  // ---- front coding

  function CommonPrefix(a: Bytes, b: Bytes): (n: nat)
    ensures n <= |a| && n <= |b| && a[..n] == b[..n]
    ensures n < |a| && n < |b| ==> a[n] != b[n]
    decreases |a|
  {
    if a == [] || b == [] || a[0] != b[0] then 0 else
      var n := CommonPrefix(a[1..], b[1..]);
      assert a[..n + 1] == [a[0]] + a[1..][..n] && b[..n + 1] == [b[0]] + b[1..][..n];
      n + 1
  }

  function EntryBytes(e: Entry): Bytes {
    match e
    case Single(doc, freq) => EncodeMany([1]) + [1] + EncodeMany([doc, freq])
    case Listed(df, offset) => EncodeMany([df]) + [0] + EncodeMany([offset])
  }

  function DecodeEntry(src: Bytes): Parsed<Entry> {
    match DecodeMany(src, 1)
    case Short => Short
    case Parsed(df, src1) =>
      if src1 == [] then Short
      else if src1[0] == 1 then
        match DecodeMany(src1[1..], 2)
        case Short => Short
        case Parsed(vs, rest) => Parsed(Single(vs[0] % U32, vs[1] % U32), rest)
      else
        match DecodeMany(src1[1..], 1)
        case Short => Short
        case Parsed(vs, rest) => Parsed(Listed(df[0], vs[0]), rest)
  }

  ghost predicate GoodEntry(e: Entry) {
    match e
    case Single(doc, freq) => doc < U32 && freq < U32
    case Listed(df, offset) => df < U64 && offset < U64
  }

  lemma EntryRoundTrip(e: Entry, rest: Bytes)
    requires GoodEntry(e)
    ensures DecodeEntry(EntryBytes(e) + rest) == Parsed(e, rest)
  {
    hide EncodeMany, DecodeMany;
    match e
    case Single(doc, freq) =>
      var tail := [1] + (EncodeMany([doc, freq]) + rest);
      assert EntryBytes(e) + rest == EncodeMany([1]) + tail;
      ManyRoundTrip([1], tail);
      assert tail[1..] == EncodeMany([doc, freq]) + rest;
      ManyRoundTrip([doc, freq], rest);
    case Listed(df, offset) =>
      var tail := [0] + (EncodeMany([offset]) + rest);
      assert EntryBytes(e) + rest == EncodeMany([df]) + tail;
      ManyRoundTrip([df], tail);
      assert tail[1..] == EncodeMany([offset]) + rest;
      ManyRoundTrip([offset], rest);
  }

  /** One term after `prev`: the shared length, the rest of the term, its entry. */
  function TermBytes(prev: Term, t: DictTerm): Bytes {
    var cp := CommonPrefix(prev, t.term);
    EncodeMany([cp, |t.term| - cp]) + t.term[cp..] + EntryBytes(t.entry)
  }

  function DecodeTerm(src: Bytes, prev: Term): Parsed<DictTerm> {
    match DecodeMany(src, 2)
    case Short => Short
    case Parsed(h, src1) =>
      if |src1| < h[1] || h[0] > |prev| then Short else
        match DecodeEntry(src1[h[1]..])
        case Short => Short
        case Parsed(e, rest) => Parsed(DictTerm(prev[..h[0]] + src1[..h[1]], e), rest)
  }

  ghost predicate GoodTerm(t: DictTerm) {
    |t.term| < U64 && GoodEntry(t.entry)
  }

  lemma TermRoundTrip(prev: Term, t: DictTerm, rest: Bytes)
    requires GoodTerm(t)
    ensures DecodeTerm(TermBytes(prev, t) + rest, prev) == Parsed(t, rest)
  {
    hide EncodeMany, DecodeMany, DecodeEntry, EntryBytes;
    var cp := CommonPrefix(prev, t.term);
    var src1 := t.term[cp..] + (EntryBytes(t.entry) + rest);
    assert TermBytes(prev, t) + rest == EncodeMany([cp, |t.term| - cp]) + src1;
    ManyRoundTrip([cp, |t.term| - cp], src1);
    assert src1[..|t.term| - cp] == t.term[cp..] && src1[|t.term| - cp..] == EntryBytes(t.entry) + rest;
    EntryRoundTrip(t.entry, rest);
    assert t.term == prev[..cp] + t.term[cp..];
  }

  /** A block body. */
  function RawOf(ts: seq<DictTerm>, prev: Term): Bytes {
    if ts == [] then [] else TermBytes(prev, ts[0]) + RawOf(ts[1..], ts[0].term)
  }

  lemma RawNext(ts: seq<DictTerm>, prev: Term)
    requires ts != [] && GoodTerm(ts[0])
    ensures RawOf(ts, prev) != []
    ensures DecodeTerm(RawOf(ts, prev), prev) == Parsed(ts[0], RawOf(ts[1..], ts[0].term))
  {
    hide DecodeTerm;
    TermRoundTrip(prev, ts[0], RawOf(ts[1..], ts[0].term));
    assert TermBytes(prev, ts[0]) != [] by { assert EncodeMany([1, 1]) != []; }
  }

  // ---- blocks

  function Chunk(ts: seq<DictTerm>, size: nat): (cs: seq<seq<DictTerm>>)
    requires size > 0
    ensures forall i :: 0 <= i < |cs| ==> 0 < |cs[i]| <= size
    ensures forall i :: 0 <= i < |cs| - 1 ==> |cs[i]| == size
    decreases |ts|
  {
    if ts == [] then [] else if |ts| <= size then [ts] else [ts[..size]] + Chunk(ts[size..], size)
  }

  function Flatten(cs: seq<seq<DictTerm>>): seq<DictTerm> {
    if cs == [] then [] else cs[0] + Flatten(cs[1..])
  }

  lemma {:induction false} FlattenChunk(ts: seq<DictTerm>, size: nat)
    requires size > 0
    ensures Flatten(Chunk(ts, size)) == ts
    decreases |ts|
  {
    if |ts| > size {
      FlattenChunk(ts[size..], size);
      assert Chunk(ts, size)[1..] == Chunk(ts[size..], size);
      assert ts == ts[..size] + ts[size..];
    } else if ts != [] {
      assert [ts][1..] == [];
      assert ts + [] == ts;
    }
  }

  lemma {:induction false} ChunkCount(ts: seq<DictTerm>, size: nat)
    requires size > 0
    ensures |Chunk(ts, size)| == (|ts| + size - 1) / size
    decreases |ts|
  {
    if |ts| > size {
      ChunkCount(ts[size..], size);
      DivStep(|ts| - size + size - 1, size);
    } else {
      DivSmall(|ts|, size);
    }
  }

  lemma DivStep(a: nat, b: nat)
    requires b > 0
    ensures (a + b) / b == a / b + 1
  {
    var q, r := Quot(a, b), Rem(a, b);
    QuotRem(a, b);
    Distribute(b, q, 1, 0);
    DivModUnique(q + 1, r, b);
    assert a + b == r + b * (q + 1);
  }

  lemma DivSmall(n: nat, b: nat)
    requires n <= b && b > 0
    ensures (n + b - 1) / b == if n == 0 then 0 else 1
  {
    if n > 0 {
      DivStep(n - 1, b);
      assert (n - 1) / b == 0;
    }
  }

  /** A sparse-index record. */
  datatype Rec = Rec(first: Term, offset: nat, compLen: nat, rawLen: nat)

  function RecBytes(r: Rec): Bytes {
    EncodeMany([|r.first|]) + r.first + EncodeMany([r.offset, r.compLen, r.rawLen])
  }

  function IndexBytes(rs: seq<Rec>): Bytes {
    if rs == [] then [] else RecBytes(rs[0]) + IndexBytes(rs[1..])
  }

  function Comp(c: seq<DictTerm>, z: Codec): Bytes {
    z.enc(RawOf(c, []))
  }

  function BlockBytes(cs: seq<seq<DictTerm>>, z: Codec): Bytes {
    if cs == [] then [] else Comp(cs[0], z) + BlockBytes(cs[1..], z)
  }

  /** The records of blocks that start `at` bytes into the region. */
  function Recs(cs: seq<seq<DictTerm>>, at: nat, z: Codec): (rs: seq<Rec>)
    requires forall i :: 0 <= i < |cs| ==> cs[i] != []
    ensures |rs| == |cs|
  {
    if cs == [] then [] else
      var comp := Comp(cs[0], z);
      [Rec(cs[0][0].term, at, |comp|, |RawOf(cs[0], [])|)] + Recs(cs[1..], at + |comp|, z)
  }

  function TreeBytes(ts: seq<DictTerm>, size: nat, z: Codec): Bytes
    requires size > 0
  {
    var cs := Chunk(ts, size);
    var index := IndexBytes(Recs(cs, 0, z));
    [VERSION] + EncodeMany([size, |ts|, |cs|, |index|]) + index + BlockBytes(cs, z)
  }

  /** Block `i` stands in the region where its record says. */
  lemma {:induction false} BlockStands(cs: seq<seq<DictTerm>>, before: Bytes, i: nat, z: Codec)
    requires (forall i :: 0 <= i < |cs| ==> cs[i] != []) && i < |cs|
    ensures var r := Recs(cs, |before|, z)[i]; var data := before + BlockBytes(cs, z);
      && r.first == cs[i][0].term && r.offset + r.compLen <= |data|
      && data[r.offset..r.offset + r.compLen] == Comp(cs[i], z)
    decreases |cs|
  {
    hide Comp, RawOf;
    var comp := Comp(cs[0], z);
    var data := before + BlockBytes(cs, z);
    assert data == (before + comp) + BlockBytes(cs[1..], z);
    if i > 0 {
      BlockStands(cs[1..], before + comp, i - 1, z);
    } else {
      assert data[|before|..|before| + |comp|] == comp;
    }
  }

  // ---- building

  method CommonPrefixLen(a: Bytes, b: Bytes) returns (i: nat)
    ensures i == CommonPrefix(a, b)
  {
    var n := Min(|a|, |b|);
    i := 0;
    assert a[0..] == a && b[0..] == b;
    while i < n && a[i] == b[i]
      invariant 0 <= i <= n && CommonPrefix(a, b) == i + CommonPrefix(a[i..], b[i..])
    {
      assert a[i..][1..] == a[i + 1..] && b[i..][1..] == b[i + 1..];
      i := i + 1;
    }
  }

  method AppendEntry(dst: Bytes, e: Entry) returns (r: Bytes)
    ensures r == dst + EntryBytes(e)
  {
    hide EncodeMany;
    match e
    case Single(doc, freq) =>
      r := AppendMany(dst, [1]);
      r := AppendMany(r + [1], [doc, freq]);
    case Listed(df, offset) =>
      r := AppendMany(dst, [df]);
      r := AppendMany(r + [0], [offset]);
  }

  /** One block body, front-coded term by term. */
  method AppendTerms(ts: seq<DictTerm>) returns (raw: Bytes)
    ensures raw == RawOf(ts, [])
  {
    hide TermBytes;
    raw := [];
    var prev: Term, i := [], 0;
    assert ts[0..] == ts;
    while i < |ts|
      invariant 0 <= i <= |ts| && raw + RawOf(ts[i..], prev) == RawOf(ts, [])
    {
      assert ts[i..][1..] == ts[i + 1..];
      Assoc3(raw, TermBytes(prev, ts[i]), RawOf(ts[i + 1..], ts[i].term));
      raw := AppendTerm(raw, prev, ts[i]);
      prev := ts[i].term;
      i := i + 1;
    }
    assert ts[i..] == [];
  }

  method AppendTerm(dst: Bytes, prev: Term, t: DictTerm) returns (r: Bytes)
    ensures r == dst + TermBytes(prev, t)
  {
    hide EncodeMany, EntryBytes;
    var cp := CommonPrefixLen(prev, t.term);
    var suffix := t.term[cp..];
    r := AppendMany(dst, [cp, |suffix|]);
    r := AppendEntry(r + suffix, t.entry);
  }

  /** `BuildBlockTree`. */
  method BuildBlockTree(ts: seq<DictTerm>, blockSize: int, z: Codec) returns (out: Bytes)
    ensures out == TreeBytes(ts, if blockSize <= 0 then DEFAULT_BLOCK_SIZE else blockSize, z)
  {
    hide EncodeMany, RawOf, RecBytes, IndexBytes, BlockBytes, Recs, Chunk, Comp;
    var size: nat := if blockSize <= 0 then DEFAULT_BLOCK_SIZE else blockSize;
    ghost var cs := Chunk(ts, size);
    var blocks, recs := AppendBlocks(ts, size, z);
    var index: Bytes, i := [], 0;
    IndexNone();
    assert recs[0..] == recs;
    while i < |recs|
      invariant 0 <= i <= |recs| && index + IndexBytes(recs[i..]) == IndexBytes(recs)
    {
      IndexStep(index, recs, i);
      index := AppendRec(index, recs[i]);
      i := i + 1;
    }
    assert recs[i..] == [];
    assert index == IndexBytes(recs);
    ChunkCount(ts, size);
    out := AppendMany([VERSION], [size, |ts|, (|ts| + size - 1) / size, |index|]);
    out := out + index + blocks;
  }

  lemma IndexNone()
    ensures IndexBytes([]) == []
  {
  }

  lemma IndexStep(index: Bytes, recs: seq<Rec>, i: nat)
    requires i < |recs|
    ensures index + IndexBytes(recs[i..]) == (index + RecBytes(recs[i])) + IndexBytes(recs[i + 1..])
  {
    hide RecBytes;
    assert recs[i..][1..] == recs[i + 1..];
    Assoc3(index, RecBytes(recs[i]), IndexBytes(recs[i + 1..]));
  }

  method AppendRec(dst: Bytes, r: Rec) returns (out: Bytes)
    ensures out == dst + RecBytes(r)
  {
    hide EncodeMany;
    out := AppendMany(dst, [|r.first|]);
    out := AppendMany(out + r.first, [r.offset, r.compLen, r.rawLen]);
  }

  /** The compressed blocks and their records, a block at a time. */
  method AppendBlocks(ts: seq<DictTerm>, size: nat, z: Codec) returns (blocks: Bytes, recs: seq<Rec>)
    requires size > 0
    ensures blocks == BlockBytes(Chunk(ts, size), z) && recs == Recs(Chunk(ts, size), 0, z)
  {
    hide RawOf, Recs, BlockBytes, Chunk;
    blocks, recs := [], [];
    var start: nat := 0;
    assert ts[0..] == ts;
    NoBlocks(z);
    while start < |ts|
      invariant start <= |ts|
      invariant blocks + BlockBytes(Chunk(ts[start..], size), z) == BlockBytes(Chunk(ts, size), z)
      invariant recs + Recs(Chunk(ts[start..], size), |blocks|, z) == Recs(Chunk(ts, size), 0, z)
      decreases |ts| - start
    {
      var end: nat := Min(start + size, |ts|);
      var raw := AppendTerms(ts[start..end]);
      var comp := z.enc(raw);
      BlockStep(ts, start, end, size, blocks, recs, z);
      recs := recs + [Rec(ts[start].term, |blocks|, |comp|, |raw|)];
      blocks := blocks + comp;
      start := end;
    }
    assert ts[start..] == [];
    NoChunks(size, |blocks|, z);
    assert recs + [] == recs && blocks + [] == blocks;
  }

  lemma NoBlocks(z: Codec)
    ensures BlockBytes([], z) == []
  {
  }

  lemma NoChunks(size: nat, at: nat, z: Codec)
    requires size > 0
    ensures Chunk([], size) == [] && BlockBytes([], z) == [] && Recs([], at, z) == []
  {
  }

  lemma BlockStep(ts: seq<DictTerm>, start: nat, end: nat, size: nat, blocks: Bytes, recs: seq<Rec>, z: Codec)
    requires size > 0 && start < end == Min(start + size, |ts|)
    ensures var raw := RawOf(ts[start..end], []); var comp := z.enc(raw);
      && blocks + BlockBytes(Chunk(ts[start..], size), z) == (blocks + comp) + BlockBytes(Chunk(ts[end..], size), z)
      && recs + Recs(Chunk(ts[start..], size), |blocks|, z)
         == (recs + [Rec(ts[start].term, |blocks|, |comp|, |raw|)]) + Recs(Chunk(ts[end..], size), |blocks + comp|, z)
  {
    hide RawOf;
    ChunkStep(ts, start, end, size);
    hide Chunk;
    var c, more := ts[start..end], Chunk(ts[end..], size);
    assert ([c] + more)[1..] == more;
    Assoc3(blocks, Comp(c, z), BlockBytes(more, z));
  }

  lemma ChunkStep(ts: seq<DictTerm>, start: nat, end: nat, size: nat)
    requires size > 0 && start < end == Min(start + size, |ts|)
    ensures Chunk(ts[start..], size) == [ts[start..end]] + Chunk(ts[end..], size)
  {
    var rest := ts[start..];
    if |rest| > size {
      assert rest[..size] == ts[start..end] && rest[size..] == ts[end..];
    } else {
      assert rest == ts[start..end] && ts[end..] == [];
    }
  }

  // ---- opening

  function DecodeRec(src: Bytes): Parsed<Rec> {
    match DecodeMany(src, 1)
    case Short => Short
    case Parsed(n, src1) =>
      if |src1| < n[0] then Short else
        match DecodeMany(src1[n[0]..], 3)
        case Short => Short
        case Parsed(vs, rest) => Parsed(Rec(src1[..n[0]], vs[0], vs[1], vs[2]), rest)
  }

  ghost predicate GoodRec(r: Rec) {
    |r.first| < U64 && r.offset < U64 && r.compLen < U64 && r.rawLen < U64
  }

  lemma RecRoundTrip(r: Rec, rest: Bytes)
    requires GoodRec(r)
    ensures DecodeRec(RecBytes(r) + rest) == Parsed(r, rest)
  {
    hide EncodeMany, DecodeMany;
    var nums := [r.offset, r.compLen, r.rawLen];
    var src1 := r.first + (EncodeMany(nums) + rest);
    assert RecBytes(r) + rest == EncodeMany([|r.first|]) + src1;
    ManyRoundTrip([|r.first|], src1);
    assert src1[..|r.first|] == r.first && src1[|r.first|..] == EncodeMany(nums) + rest;
    ManyRoundTrip(nums, rest);
  }

  datatype Opened = Opened(numTerms: nat, blocks: seq<Rec>, data: Bytes) | Malformed

  /** `OpenBlockTree`: the header and the sparse index; no block is touched. */
  method OpenBlockTree(data: Bytes, ghost ts: seq<DictTerm>, ghost size: nat, ghost z: Codec) returns (d: Opened)
    requires size > 0
    ensures data == TreeBytes(ts, size, z) && size < U64 && |data| < U64 && |ts| < U64
              && (forall r :: r in Recs(Chunk(ts, size), 0, z) ==> GoodRec(r))
            ==> d == Opened(|ts|, Recs(Chunk(ts, size), 0, z), BlockBytes(Chunk(ts, size), z))
  {
    hide EncodeMany, DecodeMany, DecodeRec, RecBytes, RawOf, Recs, BlockBytes, Chunk;
    ghost var good := data == TreeBytes(ts, size, z) && size < U64 && |data| < U64 && |ts| < U64
      && forall r :: r in Recs(Chunk(ts, size), 0, z) ==> GoodRec(r);
    ghost var recs := Recs(Chunk(ts, size), 0, z);
    if good { HeaderParses(ts, size, z, data); }
    d := Malformed;
    if |data| < 1 || data[0] != VERSION {
      return;
    }
    match DecodeMany(data[1..], 4) {
      case Short =>
      case Parsed(h, rest) =>
        if h[3] > |rest| {
          return;
        }
        var src, blocks: seq<Rec> := rest[..h[3]], [];
        assert recs[0..] == recs;
        while |blocks| < h[2]
          invariant |blocks| <= h[2]
          invariant good ==> h[2] == |recs| && blocks == recs[..|blocks|] && src == IndexBytes(recs[|blocks|..])
        {
          if good { IndexParses(recs, |blocks|); }
          match DecodeRec(src) {
            case Short => return;
            case Parsed(r, src') => blocks, src := blocks + [r], src';
          }
        }
        d := Opened(h[1], blocks, rest[h[3]..]);
    }
  }

  lemma IndexParses(recs: seq<Rec>, i: nat)
    requires i < |recs| && forall r :: r in recs ==> GoodRec(r)
    ensures DecodeRec(IndexBytes(recs[i..])) == Parsed(recs[i], IndexBytes(recs[i + 1..]))
    ensures recs[..i + 1] == recs[..i] + [recs[i]]
  {
    hide DecodeRec, RecBytes;
    assert recs[i..][1..] == recs[i + 1..];
    assert recs[i] in recs;
    RecRoundTrip(recs[i], IndexBytes(recs[i + 1..]));
  }

  lemma HeaderParses(ts: seq<DictTerm>, size: nat, z: Codec, data: Bytes)
    requires size > 0 && data == TreeBytes(ts, size, z) && size < U64 && |data| < U64 && |ts| < U64
    ensures var cs := Chunk(ts, size); var index := IndexBytes(Recs(cs, 0, z));
      && |data| >= 1 && data[0] == VERSION
      && DecodeMany(data[1..], 4) == Parsed([size, |ts|, |cs|, |index|], index + BlockBytes(cs, z))
      && (index + BlockBytes(cs, z))[..|index|] == index && (index + BlockBytes(cs, z))[|index|..] == BlockBytes(cs, z)
  {
    hide EncodeMany, DecodeMany, RawOf, Recs, BlockBytes, IndexBytes, Chunk;
    var cs := Chunk(ts, size);
    var index := IndexBytes(Recs(cs, 0, z));
    var h := [size, |ts|, |cs|, |index|];
    assert data[1..] == EncodeMany(h) + (index + BlockBytes(cs, z));
    ChunkCount(ts, size);
    CountSmall(|ts|, size);
    ManyRoundTrip(h, index + BlockBytes(cs, z));
  }

  lemma CountSmall(n: nat, size: nat)
    requires size > 0
    ensures (n + size - 1) / size <= n
    decreases n
  {
    if n <= size {
      DivSmall(n, size);
    } else {
      CountSmall(n - size, size);
      DivStep(n - size + size - 1, size);
    }
  }
}
