/** The external merge sort of the bounded-memory builder (search_streaming.go): batches
    spilled as sorted runs, and a k-way merge that must give back the whole index. */
module ExternalMerge {
  import opened Digits
  import opened Varint
  import opened Keys
  import opened Postings
  import opened TermLists
  import opened InvertedFile

  // ---- the bytes of a run

  function EncodePs(ps: seq<Posting>, prev: nat): Bytes
    decreases |ps|
  {
    if ps == [] then []
    else Encode((ps[0].doc - prev) % U64) + Encode(ps[0].freq) + EncodePs(ps[1..], ps[0].doc)
  }

  function EncodeGroup(g: Group): Bytes {
    Encode(|g.term|) + g.term + Encode(|g.ps|) + EncodePs(g.ps, 0)
  }

  function EncodeRun(gs: seq<Group>): Bytes {
    if gs == [] then [] else EncodeGroup(gs[0]) + EncodeRun(gs[1..])
  }

  function DecodePs(src: Bytes, n: nat, prev: nat): Parsed<seq<Posting>>
    decreases n
  {
    if n == 0 then Parsed([], src) else
      match Decode(src)
      case Short => Short
      case Parsed(d, src1) =>
        match Decode(src1)
        case Short => Short
        case Parsed(f, src2) =>
          match DecodePs(src2, n - 1, (prev + d) % U64)
          case Short => Short
          case Parsed(ps, rest) => Parsed([Posting((prev + d) % U64 % U32, f % U32)] + ps, rest)
  }

  /** `advance`: the next group, the clean end of a run, or a torn one. */
  datatype Advanced = End | Torn | Got(group: Group, rest: Bytes)

  function Advance(src: Bytes): Advanced {
    match Decode(src)
    case Short => End
    case Parsed(n, src1) =>
      if |src1| < n then Torn else
        match Decode(src1[n..])
        case Short => Torn
        case Parsed(m, src2) =>
          match DecodePs(src2, m, 0)
          case Short => Torn
          case Parsed(ps, rest) => Got(Group(src1[..n], ps), rest)
  }

  ghost predicate Small(g: Group) {
    |g.term| < U64 && |g.ps| < U64 && Ascending(g.ps) && Words(g.ps)
  }

  lemma AppendAssoc(a: Bytes, b: Bytes, c: Bytes)
    ensures (a + b) + c == a + (b + c)
  {
  }

  lemma DecodePsNext(d: nat, f: nat, tail: Bytes, n: nat, prev: nat)
    requires d < U64 && f < U32 && (prev + d) < U32
    ensures var src := Encode(d) + (Encode(f) + tail); var more := DecodePs(tail, n, prev + d);
      DecodePs(src, n + 1, prev)
      == if more.Short? then Short else Parsed([Posting(prev + d, f)] + more.value, more.rest)
  {
    hide Encode, Decode;
    RoundTrip(d, Encode(f) + tail);
    RoundTrip(f, tail);
  }

  lemma PsBytes(ps: seq<Posting>, prev: nat, rest: Bytes)
    requires ps != [] && prev <= ps[0].doc < U32
    ensures EncodePs(ps, prev) + rest
            == Encode(ps[0].doc - prev) + (Encode(ps[0].freq) + (EncodePs(ps[1..], ps[0].doc) + rest))
  {
    hide Encode;
    var more := EncodePs(ps[1..], ps[0].doc);
    AppendAssoc(Encode(ps[0].doc - prev), Encode(ps[0].freq), more);
    AppendAssoc(Encode(ps[0].doc - prev), Encode(ps[0].freq) + more, rest);
    AppendAssoc(Encode(ps[0].freq), more, rest);
  }

  lemma {:induction false} PsRoundTrip(ps: seq<Posting>, prev: nat, rest: Bytes)
    requires Ascending(ps) && Words(ps) && (ps != [] ==> prev <= ps[0].doc)
    ensures DecodePs(EncodePs(ps, prev) + rest, |ps|, prev) == Parsed(ps, rest)
    decreases |ps|
  {
    hide Encode, Decode, EncodePs, DecodePs, Ascending;
    if ps == [] {
      PsNone(prev, rest);
    } else {
      PsTail(ps);
      PsBytes(ps, prev, rest);
      PsRoundTrip(ps[1..], ps[0].doc, rest);
      DecodePsNext(ps[0].doc - prev, ps[0].freq, EncodePs(ps[1..], ps[0].doc) + rest, |ps| - 1, prev);
      assert ps == [ps[0]] + ps[1..];
    }
  }

  lemma PsNone(prev: nat, rest: Bytes)
    ensures EncodePs([], prev) + rest == rest && DecodePs(rest, 0, prev) == Parsed([], rest)
  {
  }

  lemma PsTail(ps: seq<Posting>)
    requires Ascending(ps) && ps != []
    ensures Ascending(ps[1..]) && (|ps| > 1 ==> ps[0].doc <= ps[1].doc)
  {
  }

  lemma GroupRoundTrip(g: Group, rest: Bytes)
    requires Small(g)
    ensures Advance(EncodeGroup(g) + rest) == Got(g, rest)
  {
    hide Encode, Decode, EncodePs, DecodePs;
    var body := EncodePs(g.ps, 0) + rest;
    var src1 := g.term + (Encode(|g.ps|) + body);
    assert EncodeGroup(g) + rest == Encode(|g.term|) + src1;
    RoundTrip(|g.term|, src1);
    assert src1[..|g.term|] == g.term && src1[|g.term|..] == Encode(|g.ps|) + body;
    RoundTrip(|g.ps|, body);
    PsRoundTrip(g.ps, 0, rest);
  }

  lemma RunEnd()
    ensures Advance([]) == End
  {
  }

  // ---- a reader over a run

  datatype Reader = Reader(idx: nat, group: Group, rest: Bytes)

  ghost predicate GoodRun(gs: seq<Group>) {
    Sorted(gs) && NonEmpty(gs) && forall i :: 0 <= i < |gs| ==> Small(gs[i])
  }

  /** The reader has `gs` still to give, the first of them decoded. */
  ghost predicate Reads(r: Reader, gs: seq<Group>) {
    gs != [] && GoodRun(gs) && r.group == gs[0] && r.rest == EncodeRun(gs[1..])
  }

  lemma AdvanceRun(gs: seq<Group>)
    requires GoodRun(gs)
    ensures gs == [] ==> Advance(EncodeRun(gs)) == End
    ensures gs != [] ==> Advance(EncodeRun(gs)) == Got(gs[0], EncodeRun(gs[1..]))
  {
    if gs == [] {
      RunEnd();
    } else {
      GroupRoundTrip(gs[0], EncodeRun(gs[1..]));
    }
  }

  lemma TailGood(gs: seq<Group>)
    requires GoodRun(gs) && gs != []
    ensures GoodRun(gs[1..])
  {
  }

  method OpenRun(data: Bytes, idx: nat, ghost gs: seq<Group>) returns (r: Reader, done: bool)
    requires GoodRun(gs) && data == EncodeRun(gs)
    ensures done <==> gs == []
    ensures !done ==> Reads(r, gs) && r.idx == idx
  {
    hide Advance, EncodeRun;
    AdvanceRun(gs);
    r, done := Reader(idx, Group([], []), []), true;
    match Advance(data)
    case Got(g, rest) => r, done := Reader(idx, g, rest), false;
    case _ =>
  }

  // ---- what the runs hold between them

  /** The list of `t`, its fragments taken in run order. */
  ghost function AllPs(left: seq<seq<Group>>, t: Term): seq<Posting> {
    if left == [] then [] else AllPs(left[..|left| - 1], t) + Lookup(left[|left| - 1], t)
  }

  ghost function Size(left: seq<seq<Group>>): nat {
    if left == [] then 0 else Size(left[..|left| - 1]) + |left[|left| - 1]|
  }

  ghost predicate Frontier(heap: seq<Reader>, left: seq<seq<Group>>) {
    |heap| == |left| && forall i :: 0 <= i < |heap| ==> Reads(heap[i], left[i])
  }

  /** The term the merge takes next: no reader stands on a smaller one. */
  method LeastTerm(heap: seq<Reader>) returns (term: Term, at: nat)
    requires heap != []
    ensures at < |heap| && heap[at].group.term == term
    ensures forall i :: 0 <= i < |heap| ==> !Less(heap[i].group.term, term)
  {
    at := 0;
    LessIrreflexive(heap[0].group.term);
    var i := 1;
    while i < |heap|
      invariant 1 <= i <= |heap| && at < i
      invariant forall j :: 0 <= j < i ==> !Less(heap[j].group.term, heap[at].group.term)
    {
      if Less(heap[i].group.term, heap[at].group.term) {
        forall j | 0 <= j <= i ensures !Less(heap[j].group.term, heap[i].group.term) {
          LessIrreflexive(heap[i].group.term);
          if Less(heap[j].group.term, heap[i].group.term) {
            LessTransitive(heap[j].group.term, heap[i].group.term, heap[at].group.term);
          }
        }
        at := i;
      }
      i := i + 1;
    }
    term := heap[at].group.term;
  }

  /** One run after the merge has taken `term` from it. */
  ghost function Taken(gs: seq<Group>, term: Term): seq<Group>
    requires gs != []
  {
    if gs[0].term == term then gs[1..] else gs
  }

  ghost function TakeAll(left: seq<seq<Group>>, term: Term): seq<seq<Group>>
    requires forall i :: 0 <= i < |left| ==> left[i] != []
    decreases |left|
  {
    if left == [] then [] else
      var n := |left| - 1;
      var gs := Taken(left[n], term);
      TakeAll(left[..n], term) + if gs == [] then [] else [gs]
  }

  lemma AllPsSnoc(left: seq<seq<Group>>, gs: seq<Group>, t: Term)
    ensures AllPs(left + [gs], t) == AllPs(left, t) + Lookup(gs, t)
    ensures Size(left + [gs]) == Size(left) + |gs|
  {
    assert (left + [gs])[..|left|] == left;
  }

  lemma TakenLookup(gs: seq<Group>, term: Term, t: Term)
    requires GoodRun(gs) && gs != [] && !Less(gs[0].term, term)
    ensures Lookup(Taken(gs, term), t) == if t == term then [] else Lookup(gs, t)
    ensures gs[0].term != term ==> Lookup(gs, term) == []
    ensures gs[0].term == term ==> Lookup(gs, term) == gs[0].ps
    ensures Taken(gs, term) != [] ==> Less(term, Taken(gs, term)[0].term)
  {
    LessTotal(gs[0].term, term);
    if gs[0].term == term {
      LookupTail(gs, t);
    } else {
      LookupBelow(gs, term);
    }
  }

  lemma TakeAllSnoc(left: seq<seq<Group>>, gs: seq<Group>, term: Term)
    requires gs != [] && forall i :: 0 <= i < |left| ==> left[i] != []
    ensures TakeAll(left + [gs], term)
            == if Taken(gs, term) == [] then TakeAll(left, term) else TakeAll(left, term) + [Taken(gs, term)]
  {
    var all := left + [gs];
    assert all[..|all| - 1] == left;
  }

  lemma TakenSize(gs: seq<Group>, term: Term)
    requires gs != []
    ensures |Taken(gs, term)| == if gs[0].term == term then |gs| - 1 else |gs|
  {
  }

  ghost predicate Least(left: seq<seq<Group>>, term: Term) {
    forall i :: 0 <= i < |left| ==> left[i] != [] && GoodRun(left[i]) && !Less(left[i][0].term, term)
  }

  /** Taking the least term removes it, whole, from what is left, and nothing else. */
  lemma {:induction false} TakeAllLookup(left: seq<seq<Group>>, term: Term, t: Term)
    requires Least(left, term)
    ensures AllPs(TakeAll(left, term), t) == if t == term then [] else AllPs(left, t)
    decreases |left|
  {
    hide GoodRun, Lookup, AllPs, TakeAll, Taken, Less;
    if left == [] {
      TakeNone(term);
      TakeNone(t);
    } else {
      var n := |left| - 1;
      var front, last := left[..n], left[n];
      assert left == front + [last];
      TakeAllLookup(front, term, t);
      TakenLookup(last, term, t);
      LookupNone(t);
      TakeAllSnoc(front, last, term);
      AllPsSnoc(front, last, t);
      AllPsSnoc(TakeAll(front, term), Taken(last, term), t);
    }
  }

  lemma {:induction false} TakeAllSize(left: seq<seq<Group>>, term: Term, at: nat)
    requires Least(left, term)
    ensures Size(TakeAll(left, term)) <= Size(left)
    ensures at < |left| && left[at][0].term == term ==> Size(TakeAll(left, term)) < Size(left)
    decreases |left|
  {
    hide GoodRun, TakeAll, Taken, Less, Size;
    if left == [] {
      TakeNone(term);
    } else {
      var n := |left| - 1;
      var front, last := left[..n], left[n];
      assert left == front + [last];
      TakeAllSize(front, term, at);
      TakenSize(last, term);
      TakeAllSnoc(front, last, term);
      AllPsSnoc(front, last, term);
      AllPsSnoc(TakeAll(front, term), Taken(last, term), term);
    }
  }

  lemma LookupNone(t: Term)
    ensures Lookup([], t) == []
  {
  }

  /** Pops every reader on `term`, in run order, and advances it. */
  method TakeTerm(heap: seq<Reader>, term: Term, ghost left: seq<seq<Group>>)
    returns (ps: seq<Posting>, heap': seq<Reader>, torn: bool)
    requires Frontier(heap, left) && Least(left, term)
    ensures !torn && ps == AllPs(left, term) && Frontier(heap', TakeAll(left, term))
  {
    hide Reads, Advance, Lookup, GoodRun, AllPs, TakeAll, Less;
    TakeNone(term);
    ps, heap', torn := [], [], false;
    ghost var left' := [];
    var i := 0;
    assert left[..0] == [];
    while i < |heap|
      invariant 0 <= i <= |heap| && ps == AllPs(left[..i], term)
      invariant forall j :: 0 <= j < |left| ==> left[j] != []
      invariant left' == TakeAll(left[..i], term) && Frontier(heap', left') && !torn
    {
      ReadsHead(heap[i], left[i]);
      ReadsFacts(heap[i], left[i], term);
      assert left[..i + 1] == left[..i] + [left[i]];
      AllPsSnoc(left[..i], left[i], term);
      TakeAllSnoc(left[..i], left[i], term);
      if heap[i].group.term == term {
        ps := ps + heap[i].group.ps;
        match Advance(heap[i].rest) {
          case Got(g, rest) =>
            heap' := heap' + [Reader(heap[i].idx, g, rest)];
            left' := left' + [left[i][1..]];
          case End =>
          case Torn => torn := true;
        }
      } else {
        heap', left' := heap' + [heap[i]], left' + [left[i]];
      }
      i := i + 1;
    }
    assert left[..i] == left;
  }

  lemma TakeNone(term: Term)
    ensures AllPs([], term) == [] && TakeAll([], term) == []
  {
  }

  lemma ReadsHead(r: Reader, gs: seq<Group>)
    requires Reads(r, gs)
    ensures gs != [] && gs[0] == r.group
  {
  }

  lemma ReadsFacts(r: Reader, gs: seq<Group>, term: Term)
    requires Reads(r, gs) && !Less(r.group.term, term)
    ensures gs != [] && gs[0] == r.group
    ensures Lookup(gs, term) == if r.group.term == term then r.group.ps else []
    ensures gs[1..] == [] ==> Advance(r.rest) == End
    ensures gs[1..] != [] ==> Advance(r.rest).Got? && forall idx ::
      Reads(Reader(idx, Advance(r.rest).group, Advance(r.rest).rest), gs[1..])
  {
    hide Advance, EncodeRun;
    TakenLookup(gs, term, term);
    TailGood(gs);
    AdvanceRun(gs[1..]);
  }

  /** What has been fed and what is left make up the index. */
  ghost predicate Merging(fed: seq<Group>, left: seq<seq<Group>>, docs: seq<DocTerms>) {
    && Sorted(fed) && NonEmpty(fed)
    && (forall i :: 0 <= i < |left| ==> left[i] != [])
    && (forall i, j :: 0 <= i < |fed| && 0 <= j < |left| ==> Less(fed[i].term, left[j][0].term))
    && forall t :: Lookup(fed, t) + AllPs(left, t) == PostingsFrom(docs, 0, t)
  }

  lemma {:induction false} LookupSnoc(fed: seq<Group>, g: Group, t: Term)
    requires Lookup(fed, g.term) == []  && NonEmpty(fed)
    ensures Lookup(fed + [g], t) == if t == g.term then g.ps else Lookup(fed, t)
    decreases |fed|
  {
    if fed != [] {
      assert fed[0].term != g.term;
      LookupSnoc(fed[1..], g, t);
      assert (fed + [g])[1..] == fed[1..] + [g];
    }
  }

  lemma FedBelow(fed: seq<Group>, t: Term)
    requires forall i :: 0 <= i < |fed| ==> Less(fed[i].term, t)
    ensures Lookup(fed, t) == []
  {
    LessIrreflexive(t);
    LookupMissing(fed, t);
  }

  /** Feeding the least term with all its fragments. */
  lemma MergeStep(fed: seq<Group>, left: seq<seq<Group>>, docs: seq<DocTerms>, term: Term, at: nat)
    requires Merging(fed, left, docs) && at < |left| && left[at][0].term == term
    requires Least(left, term)
    ensures var ps := AllPs(left, term);
      && ps == PostingsFrom(docs, 0, term) && ps != []
      && Merging(fed + [Group(term, ps)], TakeAll(left, term), docs)
      && Size(TakeAll(left, term)) < Size(left)
  {
    hide GoodRun, Lookup, PostingsFrom, AllPs, Less;
    var ps := AllPs(left, term);
    FedBelow(fed, term);
    LeftHas(left, term, at);
    assert Lookup(fed, term) + ps == PostingsFrom(docs, 0, term);
    var fed', left' := fed + [Group(term, ps)], TakeAll(left, term);
    forall t ensures Lookup(fed', t) + AllPs(left', t) == PostingsFrom(docs, 0, t) {
      LookupSnoc(fed, Group(term, ps), t);
      TakeAllLookup(left, term, t);
      assert Lookup(fed, t) + AllPs(left, t) == PostingsFrom(docs, 0, t);
    }
    forall j | 0 <= j < |left'| ensures left'[j] != [] && Less(term, left'[j][0].term) {
      TakeAllAbove(left, term, j);
    }
    forall i, j | 0 <= i < |fed'| && 0 <= j < |left'| ensures Less(fed'[i].term, left'[j][0].term) {
      if i < |fed| { LessTransitive(fed[i].term, term, left'[j][0].term); }
    }
    TakeAllSize(left, term, at);
  }

  lemma {:induction false} LeftHas(left: seq<seq<Group>>, term: Term, at: nat)
    requires at < |left| && left[at] != [] && GoodRun(left[at]) && left[at][0].term == term
    ensures AllPs(left, term) != []
    decreases |left|
  {
    var n := |left| - 1;
    if at < n {
      LeftHas(left[..n], term, at);
    } else {
      LookupAt(left[n], 0);
    }
  }

  lemma {:induction false} TakeAllAbove(left: seq<seq<Group>>, term: Term, j: nat)
    requires Least(left, term)
    requires j < |TakeAll(left, term)|
    ensures TakeAll(left, term)[j] != [] && Less(term, TakeAll(left, term)[j][0].term)
    decreases |left|
  {
    hide GoodRun;
    var n := |left| - 1;
    if j < |TakeAll(left[..n], term)| {
      TakeAllAbove(left[..n], term, j);
    } else {
      TakenLookup(left[n], term, term);
    }
  }

  // ---- the builder

  method EncodeSorted(gs: seq<Group>) returns (data: Bytes)
    requires NonEmpty(gs) && forall i :: 0 <= i < |gs| ==> Small(gs[i])
    ensures data == EncodeRun(gs)
  {
    hide EncodeGroup, EncodePs, Small;
    data := [];
    var i := 0;
    assert gs[0..] == gs;
    while i < |gs|
      invariant 0 <= i <= |gs| && data + EncodeRun(gs[i..]) == EncodeRun(gs)
    {
      assert gs[i..][1..] == gs[i + 1..];
      var g := EncodeOne(gs[i]);
      AppendAssoc(data, g, EncodeRun(gs[i + 1..]));
      data := data + g;
      i := i + 1;
    }
    assert gs[i..] == [];
  }

  /** One term group of a run: the term, then document deltas and frequencies. */
  method EncodeOne(g: Group) returns (data: Bytes)
    requires Small(g)
    ensures data == EncodeGroup(g)
  {
    hide Encode, EncodePs;
    data := AppendUvarint([], |g.term|);
    data := data + g.term;
    data := AppendUvarint(data, |g.ps|);
    assert [] + Encode(|g.term|) == Encode(|g.term|);
    data := AppendPs(data, g.ps);
  }

  method AppendPs(dst: Bytes, ps: seq<Posting>) returns (data: Bytes)
    requires Ascending(ps) && Words(ps)
    ensures data == dst + EncodePs(ps, 0)
  {
    hide Encode, EncodePs;
    data := dst;
    var prev, i: nat := 0, 0;
    assert ps[0..] == ps;
    while i < |ps|
      invariant 0 <= i <= |ps| && prev == (if i == 0 then 0 else ps[i - 1].doc)
      invariant data + EncodePs(ps[i..], prev) == dst + EncodePs(ps, 0)
    {
      AppendOne(data, ps, i, prev);
      data := AppendUvarint(data, ps[i].doc - prev);
      data := AppendUvarint(data, ps[i].freq);
      prev := ps[i].doc;
      i := i + 1;
    }
    assert ps[i..] == [];
    PsNone(prev, []);
  }

  lemma AppendOne(data: Bytes, ps: seq<Posting>, i: nat, prev: nat)
    requires i < |ps| && prev <= ps[i].doc < U32
    ensures data + EncodePs(ps[i..], prev)
            == ((data + Encode(ps[i].doc - prev)) + Encode(ps[i].freq)) + EncodePs(ps[i + 1..], ps[i].doc)
  {
    hide Encode, EncodePs;
    assert ps[i..][1..] == ps[i + 1..];
    PsBytes(ps[i..], prev, []);
    var more := EncodePs(ps[i + 1..], ps[i].doc);
    assert EncodePs(ps[i..], prev) + [] == EncodePs(ps[i..], prev) && more + [] == more;
    AppendAssoc(data, Encode(ps[i].doc - prev), Encode(ps[i].freq) + more);
    AppendAssoc(data + Encode(ps[i].doc - prev), Encode(ps[i].freq), more);
  }

  /** Each run's groups, and what they hold of the documents before the current batch. */
  ghost predicate Runs(runs: seq<Bytes>, spilled: seq<seq<Group>>, docs: seq<DocTerms>, cut: nat) {
    && |runs| == |spilled| && cut <= |docs|
    && (forall i :: 0 <= i < |runs| ==> GoodRun(spilled[i]) && runs[i] == EncodeRun(spilled[i]))
    && forall t :: AllPs(spilled, t) == PostingsFrom(docs[..cut], 0, t)
  }

  lemma RunsGrow(runs: seq<Bytes>, spilled: seq<seq<Group>>, docs: seq<DocTerms>, cut: nat, doc: DocTerms)
    requires Runs(runs, spilled, docs, cut)
    ensures Runs(runs, spilled, docs + [doc], cut)
  {
    assert (docs + [doc])[..cut] == docs[..cut];
  }

  lemma RunsSpill(runs: seq<Bytes>, spilled: seq<seq<Group>>, docs: seq<DocTerms>, cut: nat, gs: seq<Group>)
    requires Runs(runs, spilled, docs, cut) && GoodRun(gs)
    requires forall t :: Lookup(gs, t) == PostingsFrom(docs, cut, t)
    ensures Runs(runs + [EncodeRun(gs)], spilled + [gs], docs, |docs|)
  {
    hide PostingsFrom, GoodRun, EncodeRun, Lookup, AllPs;
    assert docs[..|docs|] == docs;
    forall t ensures AllPs(spilled + [gs], t) == PostingsFrom(docs, 0, t) {
      AllPsSnoc(spilled, gs, t);
      PostingsSplit(docs, cut, t);
      assert AllPs(spilled, t) == PostingsFrom(docs[..cut], 0, t);
    }
  }

  lemma GoodBatch(gs: seq<Group>, docs: seq<DocTerms>, cut: nat)
    requires Sorted(gs) && NonEmpty(gs) && Fits(docs)
    requires forall i :: 0 <= i < |gs| ==> |gs[i].term| < U64
    requires forall t :: Lookup(gs, t) == PostingsFrom(docs, cut, t)
    ensures GoodRun(gs)
  {
    forall i | 0 <= i < |gs| ensures Small(gs[i]) {
      LookupAt(gs, i);
      PostingsAscend(docs, cut, gs[i].term);
      PostingsFew(docs, cut, gs[i].term);
    }
  }

  lemma {:induction false} PostingsFew(docs: seq<DocTerms>, cut: nat, t: Term)
    ensures |PostingsFrom(docs, cut, t)| <= |docs|
    decreases |docs|
  {
    if |docs| > cut {
      PostingsFew(docs[..|docs| - 1], cut, t);
    }
  }

  /** Terms come from tokens of documents, far below 2^64 bytes long. */
  ghost predicate ShortTerms(docs: seq<DocTerms>) {
    forall d, t :: 0 <= d < |docs| && t in docs[d] ==> |t| < U64
  }

  lemma {:induction false} TermIsShort(docs: seq<DocTerms>, from: nat, t: Term)
    requires ShortTerms(docs) && PostingsFrom(docs, from, t) != []
    ensures |t| < U64
    decreases |docs|
  {
    var n := |docs| - 1;
    if PostingsFrom(docs[..n], from, t) != [] {
      TermIsShort(docs[..n], from, t);
    } else {
      assert t in docs[n];
    }
  }

  /** The postings the documents numbered `from` and up contribute. */
  ghost function PostingCount(docs: seq<DocTerms>, from: nat): nat {
    if |docs| <= from then 0 else PostingCount(docs[..|docs| - 1], from) + |Counted(docs[|docs| - 1], {})|
  }

  lemma MorePostings(docs: seq<DocTerms>, freqs: DocTerms, from: nat)
    requires from <= |docs|
    ensures PostingCount(docs + [freqs], from) == PostingCount(docs, from) + |Counted(freqs, {})|
    ensures PostingCount(docs, |docs|) == 0
  {
    hide Counted;
    assert (docs + [freqs])[..|docs|] == docs;
  }

  /** An empty batch holds no posting. */
  lemma {:induction false} EmptyBatch(docs: seq<DocTerms>, from: nat)
    requires from <= |docs| && Holds(map[], docs, from)
    ensures PostingCount(docs, from) == 0
  {
    if from < |docs| {
      var n := |docs| - 1;
      forall t: Term ensures PostingsFrom(docs[..n], from, t) == [] && t !in Counted(docs[n], {}) {
        assert PostingsFrom(docs, from, t) == [];
      }
      assert Counted(docs[n], {}) == {};
      EmptyBatch(docs[..n], from);
    }
  }

  /** `spill`: the batch as a sorted run. */
  method Spill(batch: map<Term, seq<Posting>>, ghost docs: seq<DocTerms>, ghost cut: nat)
    returns (data: Bytes, ghost gs: seq<Group>)
    requires Fits(docs) && ShortTerms(docs) && Holds(batch, docs, cut)
    ensures GoodRun(gs) && data == EncodeRun(gs) && forall t :: Lookup(gs, t) == PostingsFrom(docs, cut, t)
  {
    hide Fits, ShortTerms, Lookup, PostingsFrom, GoodRun, EncodeRun;
    var groups := SortGroups(batch);
    gs := groups;
    forall i | 0 <= i < |gs| ensures |gs[i].term| < U64 {
      LookupAt(gs, i);
      TermIsShort(docs, cut, gs[i].term);
    }
    GoodBatch(gs, docs, cut);
    GoodIs(gs);
    data := EncodeSorted(groups);
  }

  class StreamingBuilder {
    const budget: nat
    var numDocs: nat
    var batch: map<Term, seq<Posting>>
    var batchPosts: nat
    var runs: seq<Bytes>
    var fwd: seq<Stored>
    var written: seq<Stored>
    ghost var docs: seq<DocTerms>
    ghost var cut: nat
    ghost var spilled: seq<seq<Group>>
    ghost var rows: seq<Stored>

    /** The forward columns written and the rows still buffered are those of the documents added,
        one each, in order. */
    ghost predicate Valid()
      reads this
    {
      && written + fwd == rows && |rows| == |docs|
      && numDocs == |docs| && Fits(docs) && ShortTerms(docs)
      && Runs(runs, spilled, docs, cut) && Holds(batch, docs, cut)
    }

    /** The postings held in memory are counted, and at sixteen bytes each they stay within the budget
        but for the document being added. */
    ghost predicate Within()
      reads this
    {
      cut <= |docs| && batchPosts == PostingCount(docs, cut) && (batchPosts == 0 || batchPosts * 16 < budget)
    }

    constructor (budget: nat)
      ensures Valid() && Within() && docs == [] && rows == []
    {
      this.budget := budget;
      fwd, written, rows := [], [], [];
      numDocs, batch, batchPosts, runs, docs, cut, spilled := 0, map[], 0, [], [], 0, [];
    }

    method Add(freqs: DocTerms, row: Stored)
      requires Valid() && Fits(docs + [freqs]) && ShortTerms(docs + [freqs])
      modifies this
      ensures Valid() && docs == old(docs) + [freqs] && rows == old(rows) + [row]
      ensures old(Within()) ==> Within()
    {
      hide Holds, Runs, Fits, ShortTerms;
      CutIn(runs, spilled, docs, cut);
      var m, added := AddTerms(batch, numDocs, freqs, docs, cut);
      RunsGrow(runs, spilled, docs, cut, freqs);
      MorePostings(docs, freqs, cut);
      batch, numDocs, batchPosts := m, numDocs + 1, batchPosts + added;
      docs := docs + [freqs];
      fwd, rows := fwd + [row], rows + [row];
      if batchPosts * 16 >= budget {
        FlushBatch();
      }
    }

    /** `flushBatch`: the buffered rows go to the forward columns, and the current batch becomes a
        sorted run. */
    method FlushBatch()
      requires Valid()
      modifies this
      ensures Valid() && docs == old(docs) && batch == map[]
      ensures rows == old(rows) && written == rows && fwd == []
      ensures old(cut <= |docs| && batchPosts == PostingCount(docs, cut)) ==> Within() && batchPosts == 0
    {
      hide Runs, Fits, ShortTerms, Holds, Lookup, PostingsFrom, GoodRun, EncodeRun;
      written, fwd := written + fwd, [];
      assert written + fwd == rows;
      if batch == map[] {
        if cut <= |docs| {
          EmptyBatch(docs, cut);
        }
        return;
      }
      var data, gs := Spill(batch, docs, cut);
      RunsSpill(runs, spilled, docs, cut, gs);
      runs, spilled, cut := runs + [data], spilled + [gs], |docs|;
      batch, batchPosts := map[], 0;
      NoBatch(docs);
    }

    /** `Close`: the last batch, then every run merged into the encoder. */
    method Merge(enc: StreamEncoder)
      requires Valid() && enc.Valid() && enc.fed == []
      modifies this, enc
      ensures enc.Valid() && IsIndex(enc.fed, old(docs)) && written == old(rows)
    {
      hide Runs, Fits, ShortTerms, Holds, Lookup, PostingsFrom, Reads, AllPs, Size, TakeAll, Ascending, Words;
      FlushBatch();
      ghost var ds := docs;
      AllSpilled(runs, spilled, ds, cut, batch);
      ghost var left;
      var heap;
      heap, left := OpenAll(runs, spilled, ds);
      MergeStart(left, ds);
      while heap != []
        invariant written == old(rows)
        invariant Fits(ds) && enc.Valid() && Frontier(heap, left) && Merging(enc.fed, left, ds)
        decreases Size(left)
      {
        var term, at := LeastTerm(heap);
        FrontierLeast(heap, left, term);
        MergeStep(enc.fed, left, ds, term, at);
        PostingsAscend(ds, 0, term);
        var ps, heap', torn := TakeTerm(heap, term, left);
        var ok := enc.Add(term, ps);
        heap, left := heap', TakeAll(left, term);
      }
      MergeEnd(enc.fed, left, ds);
    }
  }

  // ---- the two builders agree

  /** The dictionary entries and the two runs of the index of a document sequence. */
  ghost predicate IsSegment(docs: seq<DocTerms>, entries: seq<DictTerm>, pp: Bytes, sk: Bytes) {
    exists gs :: IsIndex(gs, docs) && entries == EntriesOf(gs)
      && pp == RunBytes(ListsOf(gs), PayloadRecord) && sk == RunBytes(ListsOf(gs), SkipRecord)
  }

  /** One document sequence has one segment, byte for byte: streamed through any spill
      budget, or built in memory. */
  lemma OneSegment(docs: seq<DocTerms>, e: seq<DictTerm>, pp: Bytes, sk: Bytes, e': seq<DictTerm>, pp': Bytes,
                   sk': Bytes)
    requires IsSegment(docs, e, pp, sk) && IsSegment(docs, e', pp', sk')
    ensures e == e' && pp == pp' && sk == sk'
  {
    var gs :| IsIndex(gs, docs) && e == EntriesOf(gs)
      && pp == RunBytes(ListsOf(gs), PayloadRecord) && sk == RunBytes(ListsOf(gs), SkipRecord);
    var gs' :| IsIndex(gs', docs) && e' == EntriesOf(gs')
      && pp' == RunBytes(ListsOf(gs'), PayloadRecord) && sk' == RunBytes(ListsOf(gs'), SkipRecord);
    IndexUnique(gs, gs', docs);
  }

  method CloseStreamed(b: StreamingBuilder) returns (entries: seq<DictTerm>, pp: Bytes, sk: Bytes)
    requires b.Valid()
    modifies b
    ensures IsSegment(old(b.docs), entries, pp, sk) && b.written == old(b.rows)
  {
    hide IsIndex, EntriesOf, ListsOf, RunBytes;
    var enc := new StreamEncoder();
    b.Merge(enc);
    entries, pp, sk := enc.Finish();
  }

  method CloseInMemory(b: InvertedBuilder) returns (entries: seq<DictTerm>, pp: Bytes, sk: Bytes)
    requires b.Valid() && Fits(b.docs)
    ensures IsSegment(b.docs, entries, pp, sk)
  {
    var gs := b.Groups();
    forall i | 0 <= i < |gs| ensures Ascending(gs[i].ps) && Words(gs[i].ps) && gs[i].ps != [] {
      IndexLists(gs, b.docs, i);
    }
    hide IsIndex, EntriesOf, ListsOf, RunBytes;
    var lists;
    entries, lists := BuildIndex(gs);
    pp, sk := EncodeRuns(lists);
  }

  lemma GoodIs(gs: seq<Group>)
    requires GoodRun(gs)
    ensures NonEmpty(gs) && forall i :: 0 <= i < |gs| ==> Small(gs[i])
  {
  }

  lemma CutIn(runs: seq<Bytes>, spilled: seq<seq<Group>>, docs: seq<DocTerms>, cut: nat)
    requires Runs(runs, spilled, docs, cut)
    ensures cut <= |docs|
  {
  }

  lemma NoBatch(docs: seq<DocTerms>)
    ensures Holds(map[], docs, |docs|)
  {
  }

  /** With an empty batch the runs hold everything. */
  lemma AllSpilled(runs: seq<Bytes>, spilled: seq<seq<Group>>, docs: seq<DocTerms>, cut: nat,
                   batch: map<Term, seq<Posting>>)
    requires Runs(runs, spilled, docs, cut) && Holds(batch, docs, cut) && batch == map[]
    ensures Runs(runs, spilled, docs, |docs|)
  {
    assert docs[..|docs|] == docs;
    forall t ensures AllPs(spilled, t) == PostingsFrom(docs, 0, t) {
      PostingsSplit(docs, cut, t);
    }
  }

  lemma FrontierLeast(heap: seq<Reader>, left: seq<seq<Group>>, term: Term)
    requires Frontier(heap, left) && forall i :: 0 <= i < |heap| ==> !Less(heap[i].group.term, term)
    ensures Least(left, term)
    ensures forall i :: 0 <= i < |left| ==> left[i] != [] && left[i][0] == heap[i].group
  {
  }

  lemma MergeStart(left: seq<seq<Group>>, docs: seq<DocTerms>)
    requires forall i :: 0 <= i < |left| ==> left[i] != []
    requires forall t :: AllPs(left, t) == PostingsFrom(docs, 0, t)
    ensures Merging([], left, docs)
  {
  }

  lemma MergeEnd(fed: seq<Group>, left: seq<seq<Group>>, docs: seq<DocTerms>)
    requires Merging(fed, left, docs) && left == []
    ensures IsIndex(fed, docs)
  {
    forall t ensures Lookup(fed, t) == PostingsFrom(docs, 0, t) {
      assert Lookup(fed, t) + AllPs(left, t) == PostingsFrom(docs, 0, t);
    }
  }

  /** Opens a reader on every run that has anything in it. */
  method OpenAll(runs: seq<Bytes>, ghost spilled: seq<seq<Group>>, ghost docs: seq<DocTerms>)
    returns (heap: seq<Reader>, ghost left: seq<seq<Group>>)
    requires Runs(runs, spilled, docs, |docs|)
    ensures Frontier(heap, left)
    ensures forall i :: 0 <= i < |left| ==> left[i] != []
    ensures forall t :: AllPs(left, t) == PostingsFrom(docs, 0, t)
  {
    hide PostingsFrom, Lookup, Reads, AllPs, GoodRun;
    heap, left := [], [];
    var i := 0;
    assert spilled[..0] == [];
    while i < |runs|
      invariant 0 <= i <= |runs| && Frontier(heap, left)
      invariant forall j :: 0 <= j < |left| ==> left[j] != []
      invariant forall t :: AllPs(left, t) == AllPs(spilled[..i], t)
    {
      var r, done := OpenRun(runs[i], i, spilled[i]);
      assert spilled[..i + 1] == spilled[..i] + [spilled[i]];
      ghost var was := left;
      if !done {
        heap, left := heap + [r], left + [spilled[i]];
        ReadsHead(r, spilled[i]);
      }
      forall t ensures AllPs(left, t) == AllPs(spilled[..i + 1], t) {
        AllPsSnoc(spilled[..i], spilled[i], t);
        AllPsSnoc(was, spilled[i], t);
        LookupNone(t);
      }
      i := i + 1;
    }
    assert spilled[..i] == spilled;
    assert docs[..|docs|] == docs;
  }
}
