/** The posting runs of a segment (search/index.go, search/streamencode.go,
    search/liststore.go): written whole or term by term, and read back one list at a time. */
module InvertedFile {
  import opened Digits
  import opened Varint
  import opened Keys
  import opened Postings
  import opened TermLists

  /** A dictionary entry: one posting inline, or the number of a list. */
  datatype Entry = Single(doc: nat, freq: nat) | Listed(docFreq: nat, offset: nat)
  datatype DictTerm = DictTerm(term: Term, entry: Entry)

  // ---- what a sorted list of groups becomes

  function ListsOf(gs: seq<Group>): seq<List> {
    if gs == [] then [] else
      var g := gs[|gs| - 1];
      ListsOf(gs[..|gs| - 1]) + if |g.ps| == 1 then [] else [EncodeList(g.ps)]
  }

  function EntriesOf(gs: seq<Group>): seq<DictTerm> {
    if gs == [] then [] else
      var front, g := gs[..|gs| - 1], gs[|gs| - 1];
      EntriesOf(front) + [DictTerm(g.term, if |g.ps| == 1 then Single(g.ps[0].doc, g.ps[0].freq)
                                           else Listed(|g.ps|, |ListsOf(front)|))]
  }

  /** What an entry leads to: a single posting stands in it, any other list at its place among the
      encoded ones. */
  lemma {:induction false} EntryReads(gs: seq<Group>, i: nat)
    requires i < |gs|
    ensures |EntriesOf(gs)| == |gs| && EntriesOf(gs)[i].term == gs[i].term
    ensures match EntriesOf(gs)[i].entry
      case Single(doc, freq) => gs[i].ps == [Posting(doc, freq)]
      case Listed(df, at) => df == |gs[i].ps| != 1 && at < |ListsOf(gs)| && ListsOf(gs)[at] == EncodeList(gs[i].ps)
    decreases |gs|
  {
    hide EncodeList;
    var n := |gs| - 1;
    if i < n {
      EntryReads(gs[..n], i);
    } else if n > 0 {
      EntryReads(gs[..n], 0);
    }
    if |gs[n].ps| == 1 {
      assert gs[n].ps == [gs[n].ps[0]];
    }
  }

  // ---- runs of varints

  function EncodeMany(vs: seq<nat>): Bytes {
    if vs == [] then [] else Encode(vs[0]) + EncodeMany(vs[1..])
  }

  function DecodeMany(src: Bytes, n: nat): (r: Parsed<seq<nat>>)
    ensures r.Parsed? ==> |r.value| == n
    decreases n
  {
    if n == 0 then Parsed([], src) else
      match Decode(src)
      case Short => Short
      case Parsed(v, src1) =>
        match DecodeMany(src1, n - 1)
        case Short => Short
        case Parsed(vs, rest) => Parsed([v] + vs, rest)
  }

  ghost predicate Wide(vs: seq<nat>) {
    forall i :: 0 <= i < |vs| ==> vs[i] < U64
  }

  lemma Assoc3(a: Bytes, b: Bytes, c: Bytes)
    ensures (a + b) + c == a + (b + c)
  {
  }

  lemma {:induction false} ManyRoundTrip(vs: seq<nat>, rest: Bytes)
    requires Wide(vs)
    ensures DecodeMany(EncodeMany(vs) + rest, |vs|) == Parsed(vs, rest)
    decreases |vs|
  {
    hide Encode, Decode;
    if vs == [] {
      assert EncodeMany(vs) + rest == rest;
    } else {
      Assoc3(Encode(vs[0]), EncodeMany(vs[1..]), rest);
      RoundTrip(vs[0], EncodeMany(vs[1..]) + rest);
      ManyRoundTrip(vs[1..], rest);
      assert vs == [vs[0]] + vs[1..];
    }
  }

  lemma {:induction false} ManyJoin(a: seq<nat>, b: seq<nat>)
    ensures EncodeMany(a + b) == EncodeMany(a) + EncodeMany(b)
    decreases |a|
  {
    hide Encode;
    if a == [] {
      assert a + b == b && EncodeMany(a) + EncodeMany(b) == EncodeMany(b);
    } else {
      ManyJoin(a[1..], b);
      assert (a + b)[1..] == a[1..] + b;
      Assoc3(Encode(a[0]), EncodeMany(a[1..]), EncodeMany(b));
    }
  }

  /** The five numbers of a skip record, block by block. */
  function Flat(bs: seq<Block>): (r: seq<nat>)
    ensures |r| == 5 * |bs|
    ensures forall i :: 0 <= i < |bs| ==> r[5 * i..5 * i + 5] == Five(bs[i])
  {
    if bs == [] then [] else
      var f := Flat(bs[..|bs| - 1]);
      f + Five(bs[|bs| - 1])
  }

  function Five(b: Block): seq<nat> {
    [b.firstDoc, b.lastDoc, b.maxFreq, b.offset, b.count]
  }

  function BlockAt(vs: seq<nat>, i: nat): Block
    requires 5 * i + 5 <= |vs|
  {
    Block(vs[5 * i] % U32, vs[5 * i + 1] % U32, vs[5 * i + 2] % U32, vs[5 * i + 3], vs[5 * i + 4])
  }

  // ---- the two runs

  function PayloadRecord(l: List): Bytes {
    Encode(|l.data|) + l.data
  }

  function SkipRecord(l: List): Bytes {
    EncodeMany([l.numDoc, |l.blocks|] + Flat(l.blocks))
  }

  function Bodies(lists: seq<List>, f: List -> Bytes): Bytes {
    if lists == [] then [] else Bodies(lists[..|lists| - 1], f) + f(lists[|lists| - 1])
  }

  function RunBytes(lists: seq<List>, f: List -> Bytes): Bytes {
    Encode(|lists|) + Bodies(lists, f)
  }

  /** Where record `i` starts. */
  function Start(lists: seq<List>, f: List -> Bytes, i: nat): nat
    requires i <= |lists|
  {
    |Encode(|lists|)| + |Bodies(lists[..i], f)|
  }

  lemma BodiesSnoc(lists: seq<List>, l: List, f: List -> Bytes)
    ensures Bodies(lists + [l], f) == Bodies(lists, f) + f(l)
  {
    assert (lists + [l])[..|lists|] == lists;
  }

  lemma {:induction false} BodiesFrom(lists: seq<List>, f: List -> Bytes, i: nat)
    requires i <= |lists|
    ensures |Bodies(lists[..i], f)| <= |Bodies(lists, f)|
    ensures Bodies(lists[..i], f) == Bodies(lists, f)[..|Bodies(lists[..i], f)|]
    decreases |lists| - i
  {
    if i < |lists| {
      BodiesFrom(lists, f, i + 1);
      assert lists[..i + 1] == lists[..i] + [lists[i]];
      BodiesSnoc(lists[..i], lists[i], f);
    } else {
      assert lists[..i] == lists;
    }
  }

  /** Record `i` stands in the run at its start, and record `i + 1` right after it. */
  lemma RecordAt(lists: seq<List>, f: List -> Bytes, i: nat) returns (rest: Bytes)
    requires i < |lists|
    ensures Start(lists, f, i) + |f(lists[i])| == Start(lists, f, i + 1) <= |RunBytes(lists, f)|
    ensures RunBytes(lists, f)[Start(lists, f, i)..] == f(lists[i]) + rest
    ensures rest == RunBytes(lists, f)[Start(lists, f, i + 1)..]
  {
    hide Encode, Bodies;
    BodiesFrom(lists, f, i + 1);
    assert lists[..i + 1] == lists[..i] + [lists[i]];
    BodiesSnoc(lists[..i], lists[i], f);
    rest := RunBytes(lists, f)[Start(lists, f, i + 1)..];
    Locate3(Encode(|lists|), Bodies(lists[..i], f), f(lists[i]), Bodies(lists, f));
  }

  lemma Locate3(head: Bytes, a: Bytes, b: Bytes, whole: Bytes)
    requires |a| + |b| <= |whole| && a + b == whole[..|a| + |b|]
    ensures (head + whole)[|head| + |a|..] == b + (head + whole)[|head| + |a| + |b|..]
  {
    assert whole == a + b + whole[|a| + |b|..];
  }

  lemma RunHead(lists: seq<List>, f: List -> Bytes)
    requires |lists| < U64
    ensures Decode(RunBytes(lists, f)) == Parsed(|lists|, RunBytes(lists, f)[Start(lists, f, 0)..])
    ensures Start(lists, f, 0) == |Encode(|lists|)| <= |RunBytes(lists, f)|
  {
    hide Encode, Decode;
    assert lists[..0] == [];
    RoundTrip(|lists|, Bodies(lists, f));
    assert RunBytes(lists, f)[|Encode(|lists|)|..] == Bodies(lists, f);
  }

  // ---- writing

  method AppendMany(dst: Bytes, vs: seq<nat>) returns (r: Bytes)
    ensures r == dst + EncodeMany(vs)
  {
    hide Encode;
    r := dst;
    var i := 0;
    assert vs[0..] == vs;
    while i < |vs|
      invariant 0 <= i <= |vs| && r + EncodeMany(vs[i..]) == dst + EncodeMany(vs)
    {
      assert vs[i..][1..] == vs[i + 1..];
      Assoc3(r, Encode(vs[i]), EncodeMany(vs[i + 1..]));
      r := AppendUvarint(r, vs[i]);
      i := i + 1;
    }
    assert vs[i..] == [];
  }

  function SkipNumbers(l: List, i: nat): seq<nat>
    requires i <= |l.blocks|
  {
    [l.numDoc, |l.blocks|] + Flat(l.blocks[..i])
  }

  lemma SkipStep(dst: Bytes, l: List, i: nat)
    requires i < |l.blocks|
    ensures (dst + EncodeMany(SkipNumbers(l, i))) + EncodeMany(Five(l.blocks[i]))
            == dst + EncodeMany(SkipNumbers(l, i + 1))
  {
    hide EncodeMany;
    assert l.blocks[..i + 1][..i] == l.blocks[..i];
    var vs := SkipNumbers(l, i);
    assert SkipNumbers(l, i + 1) == vs + Five(l.blocks[i]);
    ManyJoin(vs, Five(l.blocks[i]));
    Assoc3(dst, EncodeMany(vs), EncodeMany(Five(l.blocks[i])));
  }

  method AppendSkip(dst: Bytes, l: List) returns (r: Bytes)
    ensures r == dst + SkipRecord(l)
  {
    hide EncodeMany, SkipNumbers;
    r := AppendMany(dst, [l.numDoc, |l.blocks|]);
    SkipEnds(l);
    var i := 0;
    while i < |l.blocks|
      invariant 0 <= i <= |l.blocks| && r == dst + EncodeMany(SkipNumbers(l, i))
    {
      SkipStep(dst, l, i);
      var b := l.blocks[i];
      r := AppendMany(r, [b.firstDoc, b.lastDoc, b.maxFreq, b.offset, b.count]);
      i := i + 1;
    }
  }

  lemma SkipEnds(l: List)
    ensures SkipNumbers(l, 0) == [l.numDoc, |l.blocks|]
    ensures SkipNumbers(l, |l.blocks|) == [l.numDoc, |l.blocks|] + Flat(l.blocks)
  {
    assert l.blocks[..0] == [] && l.blocks[..|l.blocks|] == l.blocks;
  }

  /** The runs `EncodeInverted` writes for an index held whole. */
  method EncodeRuns(lists: seq<List>) returns (pp: Bytes, sk: Bytes)
    ensures pp == RunBytes(lists, PayloadRecord) && sk == RunBytes(lists, SkipRecord)
  {
    hide Encode, SkipRecord;
    pp := AppendUvarint([], |lists|);
    sk := AppendUvarint([], |lists|);
    ghost var head := Encode(|lists|);
    assert [] + head == head;
    var i := 0;
    assert lists[..0] == [];
    while i < |lists|
      invariant 0 <= i <= |lists|
      invariant pp == head + Bodies(lists[..i], PayloadRecord)
      invariant sk == head + Bodies(lists[..i], SkipRecord)
    {
      assert lists[..i + 1] == lists[..i] + [lists[i]];
      BodiesSnoc(lists[..i], lists[i], PayloadRecord);
      BodiesSnoc(lists[..i], lists[i], SkipRecord);
      pp := AppendUvarint(pp, |lists[i].data|);
      pp := pp + lists[i].data;
      sk := AppendSkip(sk, lists[i]);
      i := i + 1;
    }
    assert lists[..i] == lists;
  }

  /** `Build`: dictionary entries and lists, in term order. */
  method BuildIndex(gs: seq<Group>) returns (entries: seq<DictTerm>, lists: seq<List>)
    requires forall i :: 0 <= i < |gs| ==> Ascending(gs[i].ps) && Words(gs[i].ps) && gs[i].ps != []
    ensures entries == EntriesOf(gs) && lists == ListsOf(gs)
  {
    hide EncodeList;
    entries, lists := [], [];
    var i := 0;
    while i < |gs|
      invariant 0 <= i <= |gs| && entries == EntriesOf(gs[..i]) && lists == ListsOf(gs[..i])
    {
      assert gs[..i + 1][..i] == gs[..i];
      var ps := gs[i].ps;
      if |ps| == 1 {
        entries := entries + [DictTerm(gs[i].term, Single(ps[0].doc, ps[0].freq))];
      } else {
        var r := EncodePostings(ps);
        entries := entries + [DictTerm(gs[i].term, Listed(|ps|, |lists|))];
        lists := lists + [r.list];
      }
      i := i + 1;
    }
    assert gs[..i] == gs;
  }

  lemma FedSnoc(fed: seq<Group>, g: Group)
    requires g.ps != []
    ensures ListsOf(fed + [g]) == if |g.ps| == 1 then ListsOf(fed) else ListsOf(fed) + [EncodeList(g.ps)]
    ensures EntriesOf(fed + [g]) == EntriesOf(fed)
      + [DictTerm(g.term, if |g.ps| == 1 then Single(g.ps[0].doc, g.ps[0].freq) else Listed(|g.ps|, |ListsOf(fed)|))]
  {
    assert (fed + [g])[..|fed|] == fed;
  }

  /** The same runs from a stream of terms, holding only their encoded form. */
  class StreamEncoder {
    var terms: seq<DictTerm>
    var ppBody: Bytes
    var skBody: Bytes
    var nLists: nat
    ghost var fed: seq<Group>

    ghost predicate Valid()
      reads this
    {
      && terms == EntriesOf(fed) && nLists == |ListsOf(fed)|
      && ppBody == Bodies(ListsOf(fed), PayloadRecord) && skBody == Bodies(ListsOf(fed), SkipRecord)
    }

    constructor ()
      ensures Valid() && fed == []
    {
      terms, ppBody, skBody, nLists, fed := [], [], [], 0, [];
    }

    method Add(term: Term, ps: seq<Posting>) returns (ok: bool)
      requires Valid() && Words(ps) && ps != []
      modifies this
      ensures ok <==> Ascending(ps)
      ensures Valid() && fed == if ok then old(fed) + [Group(term, ps)] else old(fed)
    {
      hide EncodeList, SkipRecord, Encode, ListsOf, EntriesOf, Bodies;
      ghost var fed' := fed + [Group(term, ps)];
      FedSnoc(fed, Group(term, ps));
      if |ps| == 1 {
        terms := terms + [DictTerm(term, Single(ps[0].doc, ps[0].freq))];
        fed := fed';
        return true;
      }
      var r := EncodePostings(ps);
      if r.NotAscending? {
        return false;
      }
      ok := true;
      BodiesSnoc(ListsOf(fed), r.list, PayloadRecord);
      BodiesSnoc(ListsOf(fed), r.list, SkipRecord);
      terms := terms + [DictTerm(term, Listed(|ps|, nLists))];
      nLists := nLists + 1;
      ppBody := AppendUvarint(ppBody, |r.list.data|);
      ppBody := ppBody + r.list.data;
      skBody := AppendSkip(skBody, r.list);
      fed := fed';
    }

    /** Identical to what the in-memory path writes for the same groups. */
    method Finish() returns (entries: seq<DictTerm>, pp: Bytes, sk: Bytes)
      requires Valid()
      ensures entries == EntriesOf(fed)
      ensures pp == RunBytes(ListsOf(fed), PayloadRecord) && sk == RunBytes(ListsOf(fed), SkipRecord)
    {
      hide Encode;
      entries := terms;
      pp := AppendUvarint([], nLists);
      pp := pp + ppBody;
      sk := AppendUvarint([], nLists);
      sk := sk + skBody;
      assert [] + Encode(nLists) == Encode(nLists);
    }
  }

  // ---- reading

  ghost predicate GoodList(l: List) {
    && |l.data| < U64 && l.numDoc < U64 && |l.blocks| < U64
    && forall i :: 0 <= i < |l.blocks| ==> (
         l.blocks[i].firstDoc < U32 && l.blocks[i].lastDoc < U32 && l.blocks[i].maxFreq < U32
         && l.blocks[i].offset < U64 && l.blocks[i].count < U64)
  }

  lemma {:induction false} FlatWide(bs: seq<Block>)
    requires forall i :: 0 <= i < |bs| ==> (
      bs[i].firstDoc < U64 && bs[i].lastDoc < U64 && bs[i].maxFreq < U64 && bs[i].offset < U64 && bs[i].count < U64)
    ensures Wide(Flat(bs))
    decreases |bs|
  {
    if bs != [] {
      FlatWide(bs[..|bs| - 1]);
    }
  }

  function Rebuild(data: Bytes, numDoc: nat, vs: seq<nat>): List
    requires |vs| % 5 == 0
  {
    List(data, seq(|vs| / 5, i requires 0 <= i < |vs| / 5 => BlockAt(vs, i)), numDoc)
  }

  lemma RebuildFlat(l: List)
    requires GoodList(l)
    ensures Rebuild(l.data, l.numDoc, Flat(l.blocks)) == l
  {
    hide Flat;
    FlatIs(l.blocks);
    forall i | 0 <= i < |l.blocks| ensures BlockAt(Flat(l.blocks), i) == l.blocks[i] {
      BlockFrom(Flat(l.blocks), i, l.blocks[i]);
    }
  }

  lemma FlatIs(bs: seq<Block>)
    ensures |Flat(bs)| == 5 * |bs|
    ensures forall i :: 0 <= i < |bs| ==> Flat(bs)[5 * i..5 * i + 5] == Five(bs[i])
  {
  }

  lemma BlockFrom(vs: seq<nat>, i: nat, b: Block)
    requires 5 * i + 5 <= |vs| && vs[5 * i..5 * i + 5] == Five(b)
    requires b.firstDoc < U32 && b.lastDoc < U32 && b.maxFreq < U32
    ensures BlockAt(vs, i) == b
  {
    var five := vs[5 * i..5 * i + 5];
    assert five[0] == vs[5 * i] && five[1] == vs[5 * i + 1] && five[2] == vs[5 * i + 2] && five[3] == vs[5 * i + 3]
        && five[4] == vs[5 * i + 4];
  }

  /** The numbers of one skip record: its header, then five per block. */
  function DecodeSkip(src: Bytes): Parsed<(nat, seq<nat>)> {
    match DecodeMany(src, 2)
    case Short => Short
    case Parsed(h, src1) =>
      match DecodeMany(src1, 5 * h[1])
      case Short => Short
      case Parsed(vs, rest) => Parsed((h[0], vs), rest)
  }

  lemma SkipRoundTrip(l: List, rest: Bytes)
    requires GoodList(l)
    ensures DecodeSkip(SkipRecord(l) + rest) == Parsed((l.numDoc, Flat(l.blocks)), rest)
  {
    hide EncodeMany, DecodeMany;
    var h, vs := [l.numDoc, |l.blocks|], Flat(l.blocks);
    FlatWide(l.blocks);
    ManyJoin(h, vs);
    Assoc3(EncodeMany(h), EncodeMany(vs), rest);
    ManyRoundTrip(h, EncodeMany(vs) + rest);
    ManyRoundTrip(vs, rest);
  }

  lemma {:induction false} ManySuffix(src: Bytes, n: nat)
    ensures var p := DecodeMany(src, n);
      p.Parsed? ==> |p.rest| <= |src| && p.rest == src[|src| - |p.rest|..]
    decreases n
  {
    hide Decode;
    if n > 0 {
      DecodeSuffix(src);
      match Decode(src)
      case Short =>
      case Parsed(v, src1) => ManySuffix(src1, n - 1);
    }
  }

  lemma DecodeSuffix(src: Bytes)
    ensures var p := Decode(src);
      p.Parsed? ==> |p.rest| < |src| && p.rest == src[|src| - |p.rest|..]
  {
    Suffix(src, 0);
  }

  lemma SkipSuffix(src: Bytes)
    ensures var p := DecodeSkip(src);
      p.Parsed? ==> |p.rest| <= |src| && p.rest == src[|src| - |p.rest|..]
  {
    hide DecodeMany;
    ManySuffix(src, 2);
    match DecodeMany(src, 2)
    case Short =>
    case Parsed(h, src1) => ManySuffix(src1, 5 * h[1]);
  }

  ghost predicate GoodLists(lists: seq<List>) {
    |lists| < U64 && forall i :: 0 <= i < |lists| ==> GoodList(lists[i])
  }

  ghost predicate Payloads(pp: Bytes, lists: seq<List>) {
    GoodLists(lists) && pp == RunBytes(lists, PayloadRecord)
  }

  ghost predicate Skips(sk: Bytes, lists: seq<List>) {
    GoodLists(lists) && sk == RunBytes(lists, SkipRecord)
  }

  /** Offsets of the payload records, without copying a payload. */
  method ScanPayloads(pp: Bytes, ghost lists: seq<List>) returns (ok: bool, offs: seq<nat>)
    ensures Payloads(pp, lists) ==>
      ok && |offs| == |lists| && forall i :: 0 <= i < |offs| ==> offs[i] == Start(lists, PayloadRecord, i)
    ensures ok ==> Decode(pp).Parsed? && Decode(pp).value == |offs| && forall i :: 0 <= i < |offs| ==> offs[i] <= |pp|
  {
    hide Decode, Encode, RunBytes, Start, GoodList;
    ghost var good := Payloads(pp, lists);
    if good { RunHead(lists, PayloadRecord); }
    ok, offs := false, [];
    match Decode(pp) {
      case Short =>
      case Parsed(n, rest) =>
        DecodeSuffix(pp);
        var pos: nat := |pp| - |rest|;
        while |offs| < n
          invariant |offs| <= n && pos <= |pp|
          invariant forall i :: 0 <= i < |offs| ==> offs[i] <= |pp|
          invariant good ==> n == |lists| && pos == Start(lists, PayloadRecord, |offs|)
          invariant good ==> forall i :: 0 <= i < |offs| ==> offs[i] == Start(lists, PayloadRecord, i)
        {
          if good { PayloadAt(lists, |offs|, pp); }
          DecodeSuffix(pp[pos..]);
          match Decode(pp[pos..]) {
            case Short => return;
            case Parsed(len, rest') =>
              if len > |rest'| {
                return;
              }
              offs, pos := offs + [pos], |pp| - |rest'| + len;
          }
        }
        ok := true;
    }
  }

  /** The payload record `i`, as a reader standing on it sees it. */
  lemma PayloadAt(lists: seq<List>, i: nat, pp: Bytes)
    requires i < |lists| && GoodList(lists[i]) && pp == RunBytes(lists, PayloadRecord)
    ensures Start(lists, PayloadRecord, i) <= |pp|
    ensures var p := Decode(pp[Start(lists, PayloadRecord, i)..]);
      && p.Parsed? && p.value == |lists[i].data| && |p.rest| >= p.value && p.rest[..p.value] == lists[i].data
      && Start(lists, PayloadRecord, i + 1) == |pp| - |p.rest| + p.value
  {
    hide Decode, Encode, RunBytes, Start;
    var rest := RecordAt(lists, PayloadRecord, i);
    var l := lists[i];
    Assoc3(Encode(|l.data|), l.data, rest);
    RoundTrip(|l.data|, l.data + rest);
  }

  /** The skip record `i`, as a reader standing on it sees it. */
  lemma SkipAt(lists: seq<List>, i: nat, sk: Bytes)
    requires i < |lists| && GoodList(lists[i]) && sk == RunBytes(lists, SkipRecord)
    ensures Start(lists, SkipRecord, i) <= |sk|
    ensures var p := DecodeSkip(sk[Start(lists, SkipRecord, i)..]);
      && p.Parsed? && p.value == (lists[i].numDoc, Flat(lists[i].blocks))
      && Start(lists, SkipRecord, i + 1) == |sk| - |p.rest|
  {
    hide DecodeSkip, SkipRecord, RunBytes, Start;
    var rest := RecordAt(lists, SkipRecord, i);
    SkipRoundTrip(lists[i], rest);
  }

  method ScanSkips(sk: Bytes, n: nat, ghost lists: seq<List>) returns (ok: bool, offs: seq<nat>)
    ensures Skips(sk, lists) ==> (ok <==> n == |lists|)
    ensures Skips(sk, lists) && ok ==> |offs| == |lists|
    ensures Skips(sk, lists) && ok ==> forall i :: 0 <= i < |lists| ==> offs[i] == Start(lists, SkipRecord, i)
    ensures ok ==> |offs| == n && forall i :: 0 <= i < |offs| ==> offs[i] <= |sk|
  {
    hide Decode, Encode, RunBytes, Start, GoodList, DecodeSkip;
    ghost var good := Skips(sk, lists);
    if good { RunHead(lists, SkipRecord); }
    ok, offs := false, [];
    match Decode(sk) {
      case Short =>
      case Parsed(m, rest) =>
        if m != n {
          return;
        }
        DecodeSuffix(sk);
        var pos: nat := |sk| - |rest|;
        while |offs| < n
          invariant |offs| <= n && pos <= |sk|
          invariant forall i :: 0 <= i < |offs| ==> offs[i] <= |sk|
          invariant good ==> n == |lists| && pos == Start(lists, SkipRecord, |offs|)
          invariant good ==> forall i :: 0 <= i < |offs| ==> offs[i] == Start(lists, SkipRecord, i)
        {
          if good { SkipAt(lists, |offs|, sk); }
          SkipSuffix(sk[pos..]);
          match DecodeSkip(sk[pos..]) {
            case Short => return;
            case Parsed(_, rest') => offs, pos := offs + [pos], |sk| - |rest'|;
          }
        }
        ok := true;
    }
  }

  /** Lists decoded on demand out of the two raw runs. */
  class LazyLists {
    const postings: Bytes
    const skips: Bytes
    const pOff: seq<nat>
    const sOff: seq<nat>

    ghost predicate Valid() {
      |pOff| == |sOff| && forall i :: 0 <= i < |pOff| ==> pOff[i] <= |postings| && sOff[i] <= |skips|
    }

    constructor (pp: Bytes, sk: Bytes, pOff: seq<nat>, sOff: seq<nat>)
      ensures postings == pp && skips == sk && this.pOff == pOff && this.sOff == sOff
    {
      postings, skips, this.pOff, this.sOff := pp, sk, pOff, sOff;
    }

    /** The store is the eager one, after serialization. */
    ghost predicate Serves(lists: seq<List>) {
      && Payloads(postings, lists) && Skips(skips, lists) && |pOff| == |sOff| == |lists|
      && forall i :: 0 <= i < |lists| ==>
           pOff[i] == Start(lists, PayloadRecord, i) && sOff[i] == Start(lists, SkipRecord, i)
    }

    /** List `i`, or an empty list for a number out of range or malformed bytes. */
    method At(i: int, ghost lists: seq<List>) returns (l: List)
      requires Valid()
      ensures Serves(lists) ==> l == if 0 <= i < |lists| then lists[i] else List([], [], 0)
    {
      hide Decode, DecodeSkip, RunBytes, Start, Rebuild, GoodList;
      l := List([], [], 0);
      if i < 0 || i >= |pOff| {
        return;
      }
      if Serves(lists) {
        PayloadAt(lists, i, postings);
        SkipAt(lists, i, skips);
        RebuildFlat(lists[i]);
      }
      match Decode(postings[pOff[i]..]) {
        case Short =>
        case Parsed(n, rest) =>
          match DecodeSkip(skips[sOff[i]..]) {
            case Short =>
            case Parsed(p, _) =>
              if n <= |rest| && |p.1| % 5 == 0 {
                l := Rebuild(rest[..n], p.0, p.1);
              }
          }
      }
      FlatLength();
    }
  }

  lemma FlatLength()
    ensures forall bs :: |Flat(bs)| % 5 == 0
  {
  }

  /** `newLazyLists`. */
  method OpenLazy(pp: Bytes, sk: Bytes, ghost lists: seq<List>) returns (ok: bool, z: LazyLists)
    ensures ok ==> z.Valid()
    ensures Payloads(pp, lists) && Skips(sk, lists) ==> ok && z.Serves(lists)
  {
    hide RunBytes, Start, GoodList, Decode;
    var pOff, sOff;
    ok, pOff := ScanPayloads(pp, lists);
    if ok {
      ok, sOff := ScanSkips(sk, |pOff|, lists);
    }
    z := new LazyLists(pp, sk, pOff, if ok then sOff else []);
  }
}
