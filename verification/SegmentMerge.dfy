/** Merging segments (merge.go, search/index.go): documents rebuilt from posting lists, the
    live ones renumbered densely, and indexed again from scratch. */
module SegmentMerge {
  import opened Digits
  import opened Keys
  import opened Postings
  import opened TermLists

  /** A document without its zero frequencies, which no list records. */
  ghost function NonZero(doc: DocTerms): DocTerms {
    map t | t in doc && doc[t] != 0 :: doc[t]
  }

  lemma {:induction false} InPostings(docs: seq<DocTerms>, t: Term, p: Posting)
    ensures p in PostingsFrom(docs, 0, t) <==> p.doc < |docs| && t in docs[p.doc] && docs[p.doc][t] == p.freq != 0
    decreases |docs|
  {
    if docs != [] {
      InPostings(docs[..|docs| - 1], t, p);
    }
  }

  /** A segment: its index, its document count, which documents are live, its forward rows, and
      whether those hold snippets instead of bodies. */
  datatype Segment = Segment(gs: seq<Group>, numDocs: nat, live: nat -> bool, rows: seq<Stored>, snippet: bool)

  ghost predicate SegmentOf(s: Segment, docs: seq<DocTerms>) {
    IsIndex(s.gs, docs) && s.numDocs == |docs| == |s.rows|
  }

  /** The terms of document `d` read so far: those of the first `i` lists, and of the first
      `j` postings of the next. */
  ghost predicate Seen(gs: seq<Group>, i: nat, j: nat, d: nat, t: Term) {
    (exists a :: 0 <= a < i && a < |gs| && gs[a].term == t)
    || (i < |gs| && gs[i].term == t && exists b :: 0 <= b < j && b < |gs[i].ps| && gs[i].ps[b].doc == d)
  }

  ghost predicate Filled(perDoc: seq<DocTerms>, docs: seq<DocTerms>, live: nat -> bool, gs: seq<Group>, i: nat,
                         j: nat) {
    |perDoc| == |docs| &&
    forall d, t :: 0 <= d < |docs| ==>
      && (t in perDoc[d] <==> live(d) && t in docs[d] && docs[d][t] != 0 && Seen(gs, i, j, d, t))
      && (t in perDoc[d] ==> perDoc[d][t] == docs[d][t])
  }

  function Put(doc: DocTerms, t: Term, f: nat): DocTerms {
    doc[t := f]
  }

  /** `PerDocFreqs`: the inverse of indexing, on the live documents. */
  method PerDocFreqs(s: Segment, ghost docs: seq<DocTerms>) returns (perDoc: array<DocTerms>)
    requires SegmentOf(s, docs)
    ensures fresh(perDoc) && perDoc.Length == |docs|
    ensures forall d :: 0 <= d < |docs| ==> perDoc[d] == if s.live(d) then NonZero(docs[d]) else map[]
  {
    hide Seen, Lookup, PostingsFrom;
    perDoc := new DocTerms[s.numDocs](_ => map[]);
    var i := 0;
    FillNone(perDoc[..], docs, s.live, s.gs);
    while i < |s.gs|
      invariant 0 <= i <= |s.gs| && Filled(perDoc[..], docs, s.live, s.gs, i, 0)
    {
      var g := s.gs[i];
      var j := 0;
      while j < |g.ps|
        invariant 0 <= j <= |g.ps| && Filled(perDoc[..], docs, s.live, s.gs, i, j)
      {
        var p := g.ps[j];
        PostingHere(s.gs, docs, i, j);
        ghost var was := perDoc[..];
        if s.live(p.doc) {
          perDoc[p.doc] := Put(perDoc[p.doc], g.term, p.freq);
        }
        assert perDoc[..] == if s.live(p.doc) then was[p.doc := Put(was[p.doc], g.term, p.freq)] else was;
        FillPosting(was, perDoc[..], docs, s.live, s.gs, i, j);
        j := j + 1;
      }
      FillList(perDoc[..], docs, s.live, s.gs, i);
      i := i + 1;
    }
    forall d | 0 <= d < |docs| ensures perDoc[d] == if s.live(d) then NonZero(docs[d]) else map[] {
      FillAll(perDoc[..], docs, s.live, s.gs, d);
    }
  }

  lemma FillNone(perDoc: seq<DocTerms>, docs: seq<DocTerms>, live: nat -> bool, gs: seq<Group>)
    requires |perDoc| == |docs| && forall d :: 0 <= d < |docs| ==> perDoc[d] == map[]
    ensures Filled(perDoc, docs, live, gs, 0, 0)
  {
  }

  lemma PostingHere(gs: seq<Group>, docs: seq<DocTerms>, i: nat, j: nat)
    requires IsIndex(gs, docs) && i < |gs| && j < |gs[i].ps|
    ensures var p := gs[i].ps[j]; p.doc < |docs| && gs[i].term in docs[p.doc] && docs[p.doc][gs[i].term] == p.freq != 0
  {
    LookupAt(gs, i);
    InPostings(docs, gs[i].term, gs[i].ps[j]);
  }

  lemma SeenNext(gs: seq<Group>, i: nat, j: nat, d: nat, t: Term)
    requires i < |gs| && j < |gs[i].ps|
    ensures Seen(gs, i, j + 1, d, t) <==> Seen(gs, i, j, d, t) || (t == gs[i].term && d == gs[i].ps[j].doc)
  {
  }

  lemma FillPosting(was: seq<DocTerms>, now: seq<DocTerms>, docs: seq<DocTerms>, live: nat -> bool, gs: seq<Group>,
                    i: nat, j: nat)
    requires Filled(was, docs, live, gs, i, j) && i < |gs| && j < |gs[i].ps|
    requires var p := gs[i].ps[j];
      && p.doc < |docs| && gs[i].term in docs[p.doc] && docs[p.doc][gs[i].term] == p.freq != 0
      && now == if live(p.doc) then was[p.doc := Put(was[p.doc], gs[i].term, p.freq)] else was
    ensures Filled(now, docs, live, gs, i, j + 1)
  {
    hide Seen;
    forall d, t | 0 <= d < |docs|
      ensures t in now[d] <==> live(d) && t in docs[d] && docs[d][t] != 0 && Seen(gs, i, j + 1, d, t)
      ensures t in now[d] ==> now[d][t] == docs[d][t]
    {
      SeenNext(gs, i, j, d, t);
    }
  }

  /** After a whole list, every document holding its term has been filled in. */
  lemma FillList(perDoc: seq<DocTerms>, docs: seq<DocTerms>, live: nat -> bool, gs: seq<Group>, i: nat)
    requires i < |gs| && IsIndex(gs, docs) && Filled(perDoc, docs, live, gs, i, |gs[i].ps|)
    ensures Filled(perDoc, docs, live, gs, i + 1, 0)
  {
    hide Lookup, PostingsFrom;
    forall d: nat, t | d < |docs| && t in docs[d] && docs[d][t] != 0
      ensures Seen(gs, i, |gs[i].ps|, d, t) <==> Seen(gs, i + 1, 0, d, t)
    {
      if t == gs[i].term {
        LookupAt(gs, i);
        InPostings(docs, t, Posting(d, docs[d][t]));
        var b :| 0 <= b < |gs[i].ps| && gs[i].ps[b] == Posting(d, docs[d][t]);
        assert gs[i].ps[b].doc == d;
      }
    }
  }

  lemma FillAll(perDoc: seq<DocTerms>, docs: seq<DocTerms>, live: nat -> bool, gs: seq<Group>, d: nat)
    requires IsIndex(gs, docs) && Filled(perDoc, docs, live, gs, |gs|, 0) && d < |docs|
    ensures perDoc[d] == if live(d) then NonZero(docs[d]) else map[]
  {
    hide Lookup, PostingsFrom;
    forall t | t in docs[d] && docs[d][t] != 0 ensures Seen(gs, |gs|, 0, d, t) {
      InPostings(docs, t, Posting(d, docs[d][t]));
      if forall a :: 0 <= a < |gs| ==> gs[a].term != t {
        LookupMissing(gs, t);
      }
    }
  }

  // ---- the merge

  /** The live documents of one segment from number `d` on. */
  ghost function LiveFrom(docs: seq<DocTerms>, live: nat -> bool, d: nat): seq<DocTerms>
    requires d <= |docs|
    decreases |docs| - d
  {
    if d == |docs| then [] else (if live(d) then [docs[d]] else []) + LiveFrom(docs, live, d + 1)
  }

  /** All live documents of all inputs, in order: what a direct build would be given. */
  ghost function LiveDocs(segs: seq<Segment>, docs: seq<seq<DocTerms>>): seq<DocTerms>
    requires |segs| == |docs|
  {
    if segs == [] then [] else LiveFrom(docs[0], segs[0].live, 0) + LiveDocs(segs[1..], docs[1..])
  }

  /** The forward rows of the same documents. */
  ghost function LiveRowsFrom(rows: seq<Stored>, live: nat -> bool, d: nat): seq<Stored>
    requires d <= |rows|
    decreases |rows| - d
  {
    if d == |rows| then [] else (if live(d) then [rows[d]] else []) + LiveRowsFrom(rows, live, d + 1)
  }

  ghost function LiveRows(segs: seq<Segment>): seq<Stored> {
    if segs == [] then [] else LiveRowsFrom(segs[0].rows, segs[0].live, 0) + LiveRows(segs[1..])
  }

  // ---- where each merged document comes from

  /** Segment and number of a document. */
  datatype Place = Place(seg: nat, doc: nat)

  predicate Before(a: Place, b: Place) {
    a.seg < b.seg || (a.seg == b.seg && a.doc < b.doc)
  }

  ghost predicate IsLive(segs: seq<Segment>, docs: seq<seq<DocTerms>>, p: Place)
    requires |segs| == |docs|
  {
    p.seg < |segs| && p.doc < |docs[p.seg]| == |segs[p.seg].rows| && segs[p.seg].live(p.doc)
  }

  /** `doc` and `row` are what stands at the live place `p`. */
  ghost predicate Sits(segs: seq<Segment>, docs: seq<seq<DocTerms>>, p: Place, doc: DocTerms, row: Stored)
    requires |segs| == |docs|
  {
    IsLive(segs, docs, p) && doc == docs[p.seg][p.doc] && row == segs[p.seg].rows[p.doc]
  }

  ghost predicate AllSit(from: seq<Place>, segs: seq<Segment>, docs: seq<seq<DocTerms>>, out: seq<DocTerms>,
                         rows: seq<Stored>)
    requires |segs| == |docs|
  {
    |from| == |out| == |rows| && forall n :: 0 <= n < |from| ==> Sits(segs, docs, from[n], out[n], rows[n])
  }

  ghost predicate InOrder(from: seq<Place>) {
    forall m, n :: 0 <= m < n < |from| ==> Before(from[m], from[n])
  }

  /** The n-th document and the n-th row are those of the n-th live place, in the order of the inputs,
      and no live place is left out. */
  ghost predicate Renumbers(from: seq<Place>, segs: seq<Segment>, docs: seq<seq<DocTerms>>, out: seq<DocTerms>,
                            rows: seq<Stored>)
    requires |segs| == |docs|
  {
    AllSit(from, segs, docs, out, rows) && InOrder(from) && forall p :: IsLive(segs, docs, p) ==> p in from
  }

  /** The numbers of one segment's live documents from `d` on. */
  ghost function LiveNums(n: nat, live: nat -> bool, d: nat): seq<nat>
    requires d <= n
    decreases n - d
  {
    if d == n then [] else (if live(d) then [d] else []) + LiveNums(n, live, d + 1)
  }

  lemma {:induction false} NumsOf(docs: seq<DocTerms>, rows: seq<Stored>, live: nat -> bool, d: nat)
    requires d <= |docs| == |rows|
    ensures var nums := LiveNums(|docs|, live, d);
      && |nums| == |LiveFrom(docs, live, d)| == |LiveRowsFrom(rows, live, d)|
      && (forall n :: 0 <= n < |nums| ==> d <= nums[n] < |docs| && live(nums[n]))
      && (forall n :: 0 <= n < |nums| ==> LiveFrom(docs, live, d)[n] == docs[nums[n]])
      && (forall n :: 0 <= n < |nums| ==> LiveRowsFrom(rows, live, d)[n] == rows[nums[n]])
      && (forall m, n :: 0 <= m < n < |nums| ==> nums[m] < nums[n])
      && (forall e :: d <= e < |docs| && live(e) ==> e in nums)
    decreases |docs| - d
  {
    if d < |docs| { NumsOf(docs, rows, live, d + 1); }
  }

  ghost function PlacesIn(seg: nat, nums: seq<nat>): (r: seq<Place>)
    ensures |r| == |nums| && forall n :: 0 <= n < |nums| ==> r[n] == Place(seg, nums[n])
  {
    seq(|nums|, n requires 0 <= n < |nums| => Place(seg, nums[n]))
  }

  ghost function Later(ps: seq<Place>): (r: seq<Place>)
    ensures |r| == |ps| && forall n :: 0 <= n < |ps| ==> r[n] == Place(ps[n].seg + 1, ps[n].doc)
  {
    seq(|ps|, n requires 0 <= n < |ps| => Place(ps[n].seg + 1, ps[n].doc))
  }

  /** The live documents and rows of all inputs, place by place. */
  lemma {:induction false} Renumbering(segs: seq<Segment>, docs: seq<seq<DocTerms>>) returns (from: seq<Place>)
    requires |segs| == |docs| && forall i :: 0 <= i < |segs| ==> |docs[i]| == |segs[i].rows|
    ensures Renumbers(from, segs, docs, LiveDocs(segs, docs), LiveRows(segs))
    decreases |segs|
  {
    from := [];
    if segs != [] {
      var rest := Renumbering(segs[1..], docs[1..]);
      var nums := LiveNums(|docs[0]|, segs[0].live, 0);
      FirstPlaces(segs, docs, nums);
      RestPlaces(segs, docs, rest);
      hide LiveNums, LiveFrom, LiveRowsFrom, AllSit, InOrder, IsLive, Renumbers;
      from := PlacesIn(0, nums) + Later(rest);
      JoinPlaces(PlacesIn(0, nums), Later(rest), segs, docs, LiveFrom(docs[0], segs[0].live, 0),
        LiveDocs(segs[1..], docs[1..]), LiveRowsFrom(segs[0].rows, segs[0].live, 0), LiveRows(segs[1..]));
    }
  }

  lemma FirstPlaces(segs: seq<Segment>, docs: seq<seq<DocTerms>>, nums: seq<nat>)
    requires segs != [] && |segs| == |docs| && |docs[0]| == |segs[0].rows|
    requires nums == LiveNums(|docs[0]|, segs[0].live, 0)
    ensures var from := PlacesIn(0, nums);
      && AllSit(from, segs, docs, LiveFrom(docs[0], segs[0].live, 0), LiveRowsFrom(segs[0].rows, segs[0].live, 0))
      && InOrder(from) && (forall p :: IsLive(segs, docs, p) && p.seg == 0 ==> p in from)
  {
    NumsOf(docs[0], segs[0].rows, segs[0].live, 0);
    hide LiveNums, LiveFrom, LiveRowsFrom;
    var from := PlacesIn(0, nums);
    forall p | IsLive(segs, docs, p) && p.seg == 0 ensures p in from {
      var n :| 0 <= n < |nums| && nums[n] == p.doc;
      assert from[n] == p;
    }
  }

  lemma RestPlaces(segs: seq<Segment>, docs: seq<seq<DocTerms>>, rest: seq<Place>)
    requires segs != [] && |segs| == |docs|
    requires Renumbers(rest, segs[1..], docs[1..], LiveDocs(segs[1..], docs[1..]), LiveRows(segs[1..]))
    ensures AllSit(Later(rest), segs, docs, LiveDocs(segs[1..], docs[1..]), LiveRows(segs[1..]))
    ensures InOrder(Later(rest)) && (forall n :: 0 <= n < |rest| ==> Later(rest)[n].seg > 0)
    ensures forall p :: IsLive(segs, docs, p) && p.seg > 0 ==> p in Later(rest)
  {
    var out, rows := LiveDocs(segs[1..], docs[1..]), LiveRows(segs[1..]);
    hide LiveDocs, LiveRows;
    forall n | 0 <= n < |rest| ensures Sits(segs, docs, Later(rest)[n], out[n], rows[n]) {
      assert Sits(segs[1..], docs[1..], rest[n], out[n], rows[n]);
    }
    forall m, n | 0 <= m < n < |rest| ensures Before(Later(rest)[m], Later(rest)[n]) {
      assert Before(rest[m], rest[n]);
    }
    forall p | IsLive(segs, docs, p) && p.seg > 0 ensures p in Later(rest) {
      assert IsLive(segs[1..], docs[1..], Place(p.seg - 1, p.doc));
      var n :| 0 <= n < |rest| && rest[n] == Place(p.seg - 1, p.doc);
      assert Later(rest)[n] == p;
    }
  }

  lemma JoinPlaces(a: seq<Place>, b: seq<Place>, segs: seq<Segment>, docs: seq<seq<DocTerms>>,
                   out: seq<DocTerms>, out': seq<DocTerms>, rows: seq<Stored>, rows': seq<Stored>)
    requires |segs| == |docs| && AllSit(a, segs, docs, out, rows) && AllSit(b, segs, docs, out', rows')
    requires InOrder(a) && InOrder(b)
    requires (forall n :: 0 <= n < |a| ==> a[n].seg == 0) && (forall n :: 0 <= n < |b| ==> b[n].seg > 0)
    requires forall p :: IsLive(segs, docs, p) ==> p in a || p in b
    ensures Renumbers(a + b, segs, docs, out + out', rows + rows')
  {
    hide Sits, IsLive;
    forall n | 0 <= n < |a + b| ensures Sits(segs, docs, (a + b)[n], (out + out')[n], (rows + rows')[n]) {
      if n >= |a| { assert Sits(segs, docs, b[n - |a|], out'[n - |a|], rows'[n - |a|]); }
    }
    forall m, n | 0 <= m < n < |a + b| ensures Before((a + b)[m], (a + b)[n]) {
      if m >= |a| { assert Before(b[m - |a|], b[n - |a|]); }
    }
  }

  ghost function AllNonZero(docs: seq<DocTerms>): (r: seq<DocTerms>)
    ensures |r| == |docs| && forall i :: 0 <= i < |docs| ==> r[i] == NonZero(docs[i])
  {
    seq(|docs|, i requires 0 <= i < |docs| => NonZero(docs[i]))
  }

  lemma {:induction false} SamePostings(docs: seq<DocTerms>, from: nat, t: Term)
    ensures PostingsFrom(AllNonZero(docs), from, t) == PostingsFrom(docs, from, t)
    decreases |docs|
  {
    if |docs| > from {
      SamePostings(docs[..|docs| - 1], from, t);
      assert AllNonZero(docs)[..|docs| - 1] == AllNonZero(docs[..|docs| - 1]);
    }
  }

  /** Zero frequencies leave no trace in an index. */
  lemma SameIndex(gs: seq<Group>, docs: seq<DocTerms>)
    ensures IsIndex(gs, AllNonZero(docs)) <==> IsIndex(gs, docs)
  {
    hide PostingsFrom, Lookup;
    forall t ensures PostingsFrom(AllNonZero(docs), 0, t) == PostingsFrom(docs, 0, t) {
      SamePostings(docs, 0, t);
    }
  }

  lemma NonZeroJoin(a: seq<DocTerms>, b: seq<DocTerms>)
    ensures AllNonZero(a + b) == AllNonZero(a) + AllNonZero(b)
  {
  }

  /** Adds one segment's live documents to the builder, in order. */
  method AddSegment(inv: InvertedBuilder, s: Segment, ghost docs: seq<DocTerms>, ghost before: seq<DocTerms>)
    returns (rows: seq<Stored>)
    requires inv.Valid() && SegmentOf(s, docs) && inv.docs == AllNonZero(before)
    modifies inv
    ensures inv.Valid() && inv.docs == AllNonZero(before + LiveFrom(docs, s.live, 0))
    ensures rows == LiveRowsFrom(s.rows, s.live, 0)
  {
    hide SegmentOf, NonZero;
    NumDocsIs(s, docs);
    var perDoc := PerDocFreqs(s, docs);
    ghost var added := [];
    rows := [];
    var d := 0;
    assert before + added == before;
    while d < s.numDocs
      invariant 0 <= d <= s.numDocs && inv.Valid() && inv.docs == AllNonZero(before + added)
      invariant added + LiveFrom(docs, s.live, d) == LiveFrom(docs, s.live, 0)
      invariant rows + LiveRowsFrom(s.rows, s.live, d) == LiveRowsFrom(s.rows, s.live, 0)
      invariant forall i :: 0 <= i < |docs| ==> perDoc[i] == if s.live(i) then NonZero(docs[i]) else map[]
    {
      if s.live(d) {
        var id := inv.AddDocument(perDoc[d]);
        NonZeroJoin(before + added, [docs[d]]);
        assert before + (added + [docs[d]]) == (before + added) + [docs[d]];
        assert AllNonZero([docs[d]]) == [NonZero(docs[d])];
        Regroup(added, docs[d], LiveFrom(docs, s.live, d + 1));
        added := added + [docs[d]];
        Regroup(rows, s.rows[d], LiveRowsFrom(s.rows, s.live, d + 1));
        rows := rows + [s.rows[d]];
      }
      d := d + 1;
    }
  }

  lemma Regroup<T>(a: seq<T>, x: T, rest: seq<T>)
    ensures a + ([x] + rest) == (a + [x]) + rest
  {
  }

  lemma NumDocsIs(s: Segment, docs: seq<DocTerms>)
    requires SegmentOf(s, docs)
    ensures s.numDocs == |docs| == |s.rows|
  {
  }

  lemma NoneNonZero()
    ensures AllNonZero([]) == []
  {
  }

  datatype Merged = Merged(gs: seq<Group>, rows: seq<Stored>) | NoInput | Mixed

  /** `MergeSegments`: the index it builds is the index of the live documents themselves, and its
      forward rows are theirs; snippet and full segments do not mix. */
  method MergeSegments(segs: seq<Segment>, ghost docs: seq<seq<DocTerms>>) returns (m: Merged)
    requires |segs| == |docs| && forall i :: 0 <= i < |segs| ==> SegmentOf(segs[i], docs[i])
    ensures m.NoInput? <==> segs == []
    ensures m.Mixed? <==> exists i :: 0 <= i < |segs| && segs[i].snippet != segs[0].snippet
    ensures m.Merged? ==> IsIndex(m.gs, LiveDocs(segs, docs)) && m.rows == LiveRows(segs)
    ensures m.Merged? ==> exists from, out :: IsIndex(m.gs, out) && Renumbers(from, segs, docs, out, m.rows)
  {
    hide SegmentOf, IsIndex, LiveFrom, LiveRowsFrom, NonZero, AllNonZero, Renumbers;
    if |segs| == 0 {
      return NoInput;
    }
    NoneNonZero();
    var inv := new InvertedBuilder();
    ghost var done := [];
    var rows: seq<Stored> := [];
    var i := 0;
    assert segs[0..] == segs && docs[0..] == docs;
    while i < |segs|
      invariant 0 <= i <= |segs| && fresh(inv) && inv.Valid() && inv.docs == AllNonZero(done)
      invariant forall j :: 0 <= j < i ==> segs[j].snippet == segs[0].snippet
      invariant done + LiveDocs(segs[i..], docs[i..]) == LiveDocs(segs, docs)
      invariant rows + LiveRows(segs[i..]) == LiveRows(segs)
    {
      if segs[i].snippet != segs[0].snippet {
        return Mixed;
      }
      var more := AddSegment(inv, segs[i], docs[i], done);
      ghost var live := LiveFrom(docs[i], segs[i].live, 0);
      assert segs[i..][1..] == segs[i + 1..] && docs[i..][1..] == docs[i + 1..];
      AppendAssoc(done, live, LiveDocs(segs[i + 1..], docs[i + 1..]));
      AppendAssoc(rows, more, LiveRows(segs[i + 1..]));
      done, rows := done + live, rows + more;
      i := i + 1;
    }
    assert segs[i..] == [] && done + [] == done && rows + [] == rows;
    var gs := inv.Groups();
    SameIndex(gs, done);
    m := Merged(gs, rows);
    forall i | 0 <= i < |segs| ensures |docs[i]| == |segs[i].rows| {
      NumDocsIs(segs[i], docs[i]);
    }
    ghost var from := Renumbering(segs, docs);
  }
}
