/** What indexing a sequence of documents means: for every term, the ascending list of the
    documents holding it. Both index builders are proved against this. */
module TermLists {
  import opened Digits
  import opened Keys
  import opened Postings
  import opened TopK

  type Term = Bytes
  type DocTerms = map<Term, nat>

  /** One term with its complete posting list. */
  datatype Group = Group(term: Term, ps: seq<Posting>)

  /** The stored fields of one document: its row of the forward columns. */
  datatype Stored = Stored(docId: Bytes, url: Bytes, title: Bytes, middle: Bytes, norms: seq<nat>)

  lemma LessStrict()
    ensures StrictTotal(Less)
  {
    forall a: Bytes ensures !Less(a, a) { LessIrreflexive(a); }
    forall a: Bytes, b: Bytes, c: Bytes | Less(a, b) && Less(b, c) ensures Less(a, c) { LessTransitive(a, b, c); }
    forall a: Bytes, b: Bytes | a != b ensures Less(a, b) || Less(b, a) { LessTotal(a, b); }
  }

  /** What document number `d` adds to the list of `t`: nothing for a zero frequency. */
  function PostingOf(docs: seq<DocTerms>, d: nat, t: Term): seq<Posting>
    requires d < |docs|
  {
    if t in docs[d] && docs[d][t] != 0 then [Posting(d, docs[d][t])] else []
  }

  /** The postings of `t` in the documents numbered `from` and up. */
  function PostingsFrom(docs: seq<DocTerms>, from: nat, t: Term): seq<Posting>
    decreases |docs|
  {
    if |docs| <= from then []
    else PostingsFrom(docs[..|docs| - 1], from, t) + PostingOf(docs, |docs| - 1, t)
  }

  ghost predicate Fits(docs: seq<DocTerms>) {
    |docs| <= U32 && forall d, t :: 0 <= d < |docs| && t in docs[d] ==> docs[d][t] < U32
  }

  lemma {:induction false} PostingsAscend(docs: seq<DocTerms>, from: nat, t: Term)
    ensures var ps := PostingsFrom(docs, from, t);
      && Ascending(ps) && (Fits(docs) ==> Words(ps))
      && forall i :: 0 <= i < |ps| ==> from <= ps[i].doc < |docs|
    decreases |docs|
  {
    if |docs| > from {
      PostingsAscend(docs[..|docs| - 1], from, t);
    }
  }

  lemma {:induction false} PostingsSplit(docs: seq<DocTerms>, cut: nat, t: Term)
    requires cut <= |docs|
    ensures PostingsFrom(docs, 0, t) == PostingsFrom(docs[..cut], 0, t) + PostingsFrom(docs, cut, t)
    decreases |docs|
  {
    if cut == |docs| {
      assert docs[..cut] == docs;
    } else {
      var front := docs[..|docs| - 1];
      PostingsSplit(front, cut, t);
      assert front[..cut] == docs[..cut];
    }
  }

  lemma PostingsSnoc(docs: seq<DocTerms>, doc: DocTerms, from: nat, t: Term)
    requires from <= |docs|
    ensures PostingsFrom(docs + [doc], from, t)
            == PostingsFrom(docs, from, t) + if t in doc && doc[t] != 0 then [Posting(|docs|, doc[t])] else []
  {
    assert (docs + [doc])[..|docs|] == docs;
  }

  // ---- sorted lists of groups

  ghost predicate Sorted(gs: seq<Group>) {
    forall i, j :: 0 <= i < j < |gs| ==> Less(gs[i].term, gs[j].term)
  }

  ghost predicate NonEmpty(gs: seq<Group>) {
    forall i :: 0 <= i < |gs| ==> gs[i].ps != []
  }

  function Lookup(gs: seq<Group>, t: Term): seq<Posting>
    decreases |gs|
  {
    if gs == [] then [] else if gs[0].term == t then gs[0].ps else Lookup(gs[1..], t)
  }

  lemma {:induction false} LookupAt(gs: seq<Group>, i: nat)
    requires Sorted(gs) && i < |gs|
    ensures Lookup(gs, gs[i].term) == gs[i].ps
    decreases |gs|
  {
    if i > 0 {
      assert Less(gs[0].term, gs[i].term);
      LessIrreflexive(gs[0].term);
      LookupAt(gs[1..], i - 1);
    }
  }

  lemma {:induction false} LookupMissing(gs: seq<Group>, t: Term)
    requires forall i :: 0 <= i < |gs| ==> gs[i].term != t
    ensures Lookup(gs, t) == []
    decreases |gs|
  {
    if gs != [] {
      LookupMissing(gs[1..], t);
    }
  }

  /** Every term of a sorted list comes after anything before its first. */
  lemma LookupBelow(gs: seq<Group>, t: Term)
    requires Sorted(gs) && (gs != [] ==> Less(t, gs[0].term))
    ensures Lookup(gs, t) == []
  {
    forall i | 0 <= i < |gs| ensures gs[i].term != t {
      LessIrreflexive(t);
      if i > 0 { LessTransitive(t, gs[0].term, gs[i].term); }
    }
    LookupMissing(gs, t);
  }

  lemma LookupTail(gs: seq<Group>, t: Term)
    requires Sorted(gs) && gs != []
    ensures Sorted(gs[1..])
    ensures Lookup(gs[1..], t) == if t == gs[0].term then [] else Lookup(gs, t)
  {
    if t == gs[0].term {
      LookupBelow(gs[1..], t);
    }
  }

  lemma HeadsAgree(a: seq<Group>, b: seq<Group>)
    requires Sorted(a) && Sorted(b) && NonEmpty(a) && a != []
    requires forall t :: Lookup(a, t) == Lookup(b, t)
    ensures b != [] && !Less(a[0].term, b[0].term)
  {
    LookupAt(a, 0);
    if b != [] && Less(a[0].term, b[0].term) {
      LookupBelow(b, a[0].term);
    }
  }

  /** Sorted lists of nonempty groups are determined by what they hold for each term. */
  lemma {:induction false} GroupsUnique(a: seq<Group>, b: seq<Group>)
    requires Sorted(a) && Sorted(b) && NonEmpty(a) && NonEmpty(b)
    requires forall t :: Lookup(a, t) == Lookup(b, t)
    ensures a == b
    decreases |a|
  {
    hide Sorted, Lookup;
    if a != [] {
      HeadsAgree(a, b);
      HeadsAgree(b, a);
      LessTotal(a[0].term, b[0].term);
      LookupAt(a, 0);
      LookupAt(b, 0);
      forall t ensures Lookup(a[1..], t) == Lookup(b[1..], t) {
        LookupTail(a, t);
        LookupTail(b, t);
      }
      LookupTail(a, a[0].term);
      LookupTail(b, b[0].term);
      GroupsUnique(a[1..], b[1..]);
      assert a == [a[0]] + a[1..] && b == [b[0]] + b[1..];
    } else if b != [] {
      HeadsAgree(b, a);
    }
  }

  /** The index of a document sequence. */
  ghost predicate IsIndex(gs: seq<Group>, docs: seq<DocTerms>) {
    Sorted(gs) && NonEmpty(gs) && forall t :: Lookup(gs, t) == PostingsFrom(docs, 0, t)
  }

  lemma IndexUnique(a: seq<Group>, b: seq<Group>, docs: seq<DocTerms>)
    requires IsIndex(a, docs) && IsIndex(b, docs)
    ensures a == b
  {
    GroupsUnique(a, b);
  }

  lemma IndexLists(gs: seq<Group>, docs: seq<DocTerms>, i: nat)
    requires IsIndex(gs, docs) && Fits(docs) && i < |gs|
    ensures Ascending(gs[i].ps) && Words(gs[i].ps) && gs[i].ps != []
  {
    LookupAt(gs, i);
    PostingsAscend(docs, 0, gs[i].term);
  }

  // ---- a map of posting lists, as the builders keep it

  ghost predicate Holds(m: map<Term, seq<Posting>>, docs: seq<DocTerms>, from: nat) {
    forall t :: (if t in m then m[t] else []) == PostingsFrom(docs, from, t) && (t in m ==> m[t] != [])
  }

  /** The terms a document contributes, but for those in `left`. */
  ghost function Counted(freqs: DocTerms, left: set<Term>): set<Term> {
    set t | t in freqs && t !in left && freqs[t] != 0
  }

  lemma CountedNext(freqs: DocTerms, left: set<Term>, t: Term)
    requires t in left && t in freqs
    ensures |Counted(freqs, left - {t})| == |Counted(freqs, left)| + if freqs[t] != 0 then 1 else 0
  {
    var rest := left - {t};
    assert Counted(freqs, rest) == if freqs[t] != 0 then Counted(freqs, left) + {t} else Counted(freqs, left);
  }

  function Get(m: map<Term, seq<Posting>>, t: Term): seq<Posting> {
    if t in m then m[t] else []
  }

  /** The terms outside `left` have their posting of the new document. */
  ghost predicate AddedAt(m: map<Term, seq<Posting>>, left: set<Term>, freqs: DocTerms, docs: seq<DocTerms>, from: nat,
                          t: Term) {
    && (t in m ==> m[t] != [])
    && Get(m, t) == PostingsFrom(docs, from, t)
                    + if t in freqs && t !in left && freqs[t] != 0 then [Posting(|docs|, freqs[t])] else []
  }

  ghost predicate Adding(m: map<Term, seq<Posting>>, left: set<Term>, freqs: DocTerms, docs: seq<DocTerms>, from: nat) {
    forall t :: AddedAt(m, left, freqs, docs, from, t)
  }

  lemma AddingStart(m: map<Term, seq<Posting>>, freqs: DocTerms, docs: seq<DocTerms>, from: nat)
    requires Holds(m, docs, from)
    ensures Adding(m, freqs.Keys, freqs, docs, from)
  {
    hide PostingsFrom;
    forall t ensures AddedAt(m, freqs.Keys, freqs, docs, from, t) {
      assert PostingsFrom(docs, from, t) + [] == PostingsFrom(docs, from, t);
    }
  }

  lemma AddingStep(m: map<Term, seq<Posting>>, left: set<Term>, freqs: DocTerms, docs: seq<DocTerms>, from: nat,
                   t: Term)
    requires Adding(m, left, freqs, docs, from) && t in left && t in freqs
    ensures var m' := if freqs[t] != 0 then m[t := Get(m, t) + [Posting(|docs|, freqs[t])]] else m;
      Adding(m', left - {t}, freqs, docs, from)
  {
    hide PostingsFrom;
    var m' := if freqs[t] != 0 then m[t := Get(m, t) + [Posting(|docs|, freqs[t])]] else m;
    forall u ensures AddedAt(m', left - {t}, freqs, docs, from, u) {
      assert AddedAt(m, left, freqs, docs, from, u);
      assert PostingsFrom(docs, from, t) + [] == PostingsFrom(docs, from, t);
    }
  }

  lemma AddingEnd(m: map<Term, seq<Posting>>, freqs: DocTerms, docs: seq<DocTerms>, from: nat)
    requires Adding(m, {}, freqs, docs, from) && from <= |docs|
    ensures Holds(m, docs + [freqs], from)
  {
    hide PostingsFrom;
    forall t ensures Get(m, t) == PostingsFrom(docs + [freqs], from, t) && (t in m ==> m[t] != []) {
      assert AddedAt(m, {}, freqs, docs, from, t);
      PostingsSnoc(docs, freqs, from, t);
    }
  }

  /** Appends one document's postings, whatever order its terms come in. */
  method AddTerms(m: map<Term, seq<Posting>>, id: nat, freqs: DocTerms, ghost docs: seq<DocTerms>, ghost from: nat)
    returns (m': map<Term, seq<Posting>>, added: nat)
    requires Holds(m, docs, from) && id == |docs| && from <= |docs|
    ensures Holds(m', docs + [freqs], from)
    ensures added == |Counted(freqs, {})|
  {
    hide Adding, Holds, Counted;
    m', added := m, 0;
    var left := freqs.Keys;
    AddingStart(m, freqs, docs, from);
    NoneCounted(freqs);
    while left != {}
      invariant left <= freqs.Keys && added == |Counted(freqs, left)|
      invariant Adding(m', left, freqs, docs, from)
      decreases |left|
    {
      var t :| t in left;
      AddingStep(m', left, freqs, docs, from, t);
      CountedNext(freqs, left, t);
      if freqs[t] != 0 {
        m' := m'[t := Get(m', t) + [Posting(id, freqs[t])]];
        added := added + 1;
      }
      left := left - {t};
    }
    AddingEnd(m', freqs, docs, from);
  }

  lemma NoneCounted(freqs: DocTerms)
    ensures Counted(freqs, freqs.Keys) == {}
  {
  }

  /** The map's terms in ascending order, each with its list. */
  method SortGroups(m: map<Term, seq<Posting>>) returns (gs: seq<Group>)
    requires forall t :: t in m ==> m[t] != []
    ensures Sorted(gs) && NonEmpty(gs)
    ensures forall t :: Lookup(gs, t) == if t in m then m[t] else []
    ensures gs == [] <==> m == map[]
  {
    hide Less, StrictTotal;
    LessStrict();
    var keys: seq<Term>, left := [], m.Keys;
    while left != {}
      invariant left <= m.Keys && Ranked(Less, keys) && Elements(keys) == m.Keys - left
      decreases |left|
    {
      var t :| t in left;
      assert t !in keys by { assert t in keys <==> t in Elements(keys); }
      InsertRanked(Less, keys, t);
      keys, left := Insert(Less, keys, t), left - {t};
    }
    assert forall t :: t in keys <==> t in Elements(keys);
    assert forall i :: 0 <= i < |keys| ==> keys[i] in keys;
    gs := [];
    var i := 0;
    while i < |keys|
      invariant 0 <= i <= |keys| && |gs| == i
      invariant forall j :: 0 <= j < i ==> gs[j].term == keys[j] && gs[j].ps == m[keys[j]]
    {
      gs := gs + [Group(keys[i], m[keys[i]])];
      i := i + 1;
    }
    forall t ensures Lookup(gs, t) == if t in m then m[t] else [] {
      if t in m {
        assert t in keys;
        var j :| 0 <= j < |keys| && keys[j] == t;
        LookupAt(gs, j);
      } else {
        LookupMissing(gs, t);
      }
    }
  }

  /** The in-memory builder (search/index.go). */
  class InvertedBuilder {
    var numDocs: nat
    var terms: map<Term, seq<Posting>>
    ghost var docs: seq<DocTerms>

    ghost predicate Valid()
      reads this
    {
      numDocs == |docs| && Holds(terms, docs, 0)
    }

    constructor ()
      ensures Valid() && docs == []
    {
      numDocs, terms, docs := 0, map[], [];
    }

    method AddDocument(freqs: DocTerms) returns (id: nat)
      requires Valid()
      modifies this
      ensures Valid() && docs == old(docs) + [freqs] && id == |old(docs)|
    {
      hide Holds;
      id := numDocs;
      var m, added := AddTerms(terms, id, freqs, docs, 0);
      terms, numDocs := m, numDocs + 1;
      docs := docs + [freqs];
    }

    /** The terms of `Build`, in the order it seals them. */
    method Groups() returns (gs: seq<Group>)
      requires Valid()
      ensures IsIndex(gs, docs)
    {
      hide PostingsFrom, Lookup;
      gs := SortGroups(terms);
    }
  }
}
