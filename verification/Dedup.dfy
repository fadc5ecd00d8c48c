/** Ranking one copy per document id (cluster.go, aggregator.go): what a search that dedups
    while it prunes, and a merge of such searches, keep of the exhaustive ranking. */
module Dedup {
  import opened Digits
  import opened Keys
  import opened TopK

  type Id = Bytes

  datatype Entry = Entry(score: real, id: Id)

  /** Score descending, then document id ascending. */
  predicate Better(a: Entry, b: Entry) {
    a.score > b.score || (a.score == b.score && Less(a.id, b.id))
  }

  lemma BetterTotal()
    ensures StrictTotal(Better)
  {
    forall a: Entry ensures !Better(a, a) { LessIrreflexive(a.id); }
    forall a: Entry, b: Entry, c: Entry | Better(a, b) && Better(b, c) ensures Better(a, c) {
      if a.score == b.score == c.score { LessTransitive(a.id, b.id, c.id); }
    }
    forall a: Entry, b: Entry | a != b ensures Better(a, b) || Better(b, a) { LessTotal(a.id, b.id); }
  }

  /** The best copy of every id. */
  ghost function BestOf(u: set<Entry>): set<Entry> {
    set e | e in u && Tops(u, e)
  }

  ghost predicate Tops(u: set<Entry>, e: Entry) {
    forall f :: f in u && f.id == e.id ==> f.score <= e.score
  }

  /** Exhaustive ranking: the best copy per id, the first k by score and id. */
  ghost function Reference(u: set<Entry>, k: nat): (r: seq<Entry>)
    requires k > 0
    ensures IsTop(Better, r, BestOf(u), k)
  {
    HasList(u, k);
    var r :| IsTop(Better, r, BestOf(u), k);
    r
  }

  lemma HasList(u: set<Entry>, k: nat)
    requires k > 0
    ensures exists r :: IsTop(Better, r, BestOf(u), k)
  {
    BetterTotal();
    var r := ListTop(Better, BestOf(u), k);
  }

  /** The ids with a copy scoring at least `t`. */
  ghost function High(u: set<Entry>, t: real): set<Id> {
    set e | e in u && e.score >= t :: e.id
  }

  ghost function HighBest(u: set<Entry>, t: real): set<Entry> {
    set e | e in BestOf(u) && e.score >= t
  }

  /** At least k ids among `f` score no less than `t`. */
  ghost predicate Crowded(f: set<Entry>, k: nat, t: real) {
    |High(f, t)| >= k
  }

  ghost predicate Dominated(f: set<Entry>, x: Entry) {
    exists e :: e in f && e.id == x.id && e.score >= x.score
  }

  /** What a pruned search must collect of `u`: a copy no worse, or k ids no worse. */
  ghost predicate Covers(u: set<Entry>, f: set<Entry>, k: nat) {
    f <= u && forall x :: x in u ==> Dominated(f, x) || Crowded(f, k, x.score)
  }

  /** The promise of a deduplicating search: the scores of the exhaustive ranking, place by
      place, and its very entries wherever they score above the last one. */
  ghost predicate ScoreExact(out: seq<Entry>, u: set<Entry>, k: nat)
    requires k > 0
  {
    var ref := Reference(u, k);
    && Ranked(Better, out) && Elements(out) <= u && |out| == |ref| <= k
    && (forall i, j :: 0 <= i < j < |out| ==> out[i].id != out[j].id)
    && (forall j :: 0 <= j < |out| ==> out[j].score == ref[j].score)
    && (forall j :: 0 <= j < |out| ==> (|ref| < k || ref[j].score > ref[k - 1].score) ==> out[j] == ref[j])
  }

  // ---- copies and ids

  lemma {:induction false} BestCopy(u: set<Entry>, x: Entry) returns (b: Entry)
    requires x in u
    ensures b in BestOf(u) && b.id == x.id && b.score >= x.score
    decreases |set e | e in u && e.id == x.id && e.score > x.score|
  {
    var above := set e | e in u && e.id == x.id && e.score > x.score;
    if y :| y in above {
      var above' := set e | e in u && e.id == y.id && e.score > y.score;
      assert above' <= above - {y};
      SubsetSize(above', above - {y});
      b := BestCopy(u, y);
    } else {
      b := x;
      assert forall f :: f in u && f.id == x.id ==> f !in above;
    }
  }

  lemma HighMono(f: set<Entry>, f': set<Entry>, t: real, t': real)
    requires f <= f' && t >= t'
    ensures |High(f, t)| <= |High(f', t')|
  {
    SubsetSize(High(f, t), High(f', t'));
  }

  lemma {:induction false} IdCount(s: set<Entry>)
    requires forall a, b :: a in s && b in s && a.id == b.id ==> a == b
    ensures |set e | e in s :: e.id| == |s|
    decreases |s|
  {
    var ids := set e | e in s :: e.id;
    if s == {} {
      assert ids == {};
    } else {
      var x :| x in s;
      IdCount(s - {x});
      assert ids == (set e | e in s - {x} :: e.id) + {x.id};
    }
  }

  lemma HighCount(u: set<Entry>, t: real)
    ensures |High(u, t)| == |HighBest(u, t)|
  {
    var hb := HighBest(u, t);
    IdCount(hb);
    forall id ensures id in High(u, t) <==> id in set e | e in hb :: e.id {
      if id in High(u, t) {
        var x :| x in u && x.score >= t && x.id == id;
        var b := BestCopy(u, x);
        assert b in hb;
      }
    }
    assert High(u, t) == set e | e in hb :: e.id;
  }

  // ---- reading the score sequence off the counts

  lemma TopPosition(out: seq<Entry>, s: set<Entry>, k: nat, j: nat)
    requires IsTop(Better, out, s, k) && j < |out|
    ensures Beaters(Better, s, out[j]) == Elements(out[..j]) && |Beaters(Better, s, out[j])| == j
  {
    hide Better;
    BetterTotal();
    assert out[j] in Elements(out);
    forall y | y in Beaters(Better, s, out[j]) ensures y in Top(Better, s, k) {
      assert Beaters(Better, s, y) <= Beaters(Better, s, out[j]);
      SubsetSize(Beaters(Better, s, y), Beaters(Better, s, out[j]));
    }
    forall y ensures y in Beaters(Better, s, out[j]) <==> y in Beaters(Better, Elements(out), out[j]) {
      if y in Elements(out) { assert y in Top(Better, s, k); }
    }
    BeatersAt(Better, out, j);
    RankedSize(Better, out[..j]);
  }

  lemma RankedScore(out: seq<Entry>, i: nat, j: nat)
    requires Ranked(Better, out) && i <= j < |out|
    ensures out[i].score >= out[j].score
  {
    assert i == j || Better(out[i], out[j]);
  }

  /** Place j of a top-k list scores at least `t` exactly when more than j elements do. */
  lemma PlaceCount(out: seq<Entry>, s: set<Entry>, k: nat, j: nat, t: real)
    requires IsTop(Better, out, s, k) && j < k
    ensures (j < |out| && out[j].score >= t) <==> |set e | e in s && e.score >= t| > j
  {
    hide Better;
    var high := set e | e in s && e.score >= t;
    BetterTotal();
    RankedSize(Better, out);
    TopSize(Better, s, k);
    if j < |out| {
      TopPosition(out, s, k, j);
      if out[j].score >= t {
        forall e | e in Elements(out[..j + 1]) ensures e in high {
          var i :| 0 <= i < j + 1 && out[..j + 1][i] == e;
          RankedScore(out, i, j);
          assert out[i] in Elements(out);
        }
        RankedSize(Better, out[..j + 1]);
        SubsetSize(Elements(out[..j + 1]), high);
      } else {
        forall e | e in high ensures e in Beaters(Better, s, out[j]) { HigherBeats(e, out[j]); }
        SubsetSize(high, Beaters(Better, s, out[j]));
      }
    } else {
      SubsetSize(high, s);
    }
  }

  lemma HigherBeats(a: Entry, b: Entry)
    requires a.score > b.score
    ensures Better(a, b)
  {
  }

  /** Up to k, a covering collection has as many ids at or above every score as there are. */
  lemma CountsAgree(u: set<Entry>, f: set<Entry>, k: nat, t: real)
    requires Covers(u, f, k)
    ensures |High(f, t)| <= |High(u, t)|
    ensures |High(f, t)| < k ==> High(f, t) == High(u, t)
  {
    HighMono(f, u, t, t);
    if |High(f, t)| < k {
      forall id | id in High(u, t) ensures id in High(f, t) {
        var x :| x in u && x.score >= t && x.id == id;
        HighMono(f, f, x.score, t);
        assert Dominated(f, x);
      }
      assert High(u, t) <= High(f, t);
    }
  }

  lemma SameScores(u: set<Entry>, f: set<Entry>, k: nat, out: seq<Entry>, j: nat)
    requires k > 0 && Covers(u, f, k) && IsTop(Better, out, BestOf(f), k) && j < k
    ensures j < |out| <==> j < |Reference(u, k)|
    ensures j < |out| ==> out[j].score == Reference(u, k)[j].score
  {
    hide IsTop, Covers, High, BestOf, Reference;
    var ref := Reference(u, k);
    if j < |out| { SameAt(u, f, k, out, j, out[j].score); }
    if j < |ref| { SameAt(u, f, k, out, j, ref[j].score); }
  }

  lemma SameAt(u: set<Entry>, f: set<Entry>, k: nat, out: seq<Entry>, j: nat, t: real)
    requires k > 0 && Covers(u, f, k) && IsTop(Better, out, BestOf(f), k) && j < k
    ensures (j < |out| && out[j].score >= t) <==> (j < |Reference(u, k)| && Reference(u, k)[j].score >= t)
  {
    hide IsTop, Covers, High, BestOf, Reference;
    PlaceCount(out, BestOf(f), k, j, t);
    PlaceCount(Reference(u, k), BestOf(u), k, j, t);
    HighIs(u, t);
    HighIs(f, t);
    CountsAgree(u, f, k, t);
  }

  lemma HighIs(u: set<Entry>, t: real)
    ensures |set e | e in BestOf(u) && e.score >= t| == |High(u, t)|
  {
    HighCount(u, t);
  }

  // ---- the entries above the last score

  /** Where the ids at or above a score are all collected, so are their best copies. */
  lemma HighBestSame(u: set<Entry>, f: set<Entry>, t: real)
    requires f <= u && forall x :: x in u && x.score >= t ==> Dominated(f, x)
    ensures HighBest(f, t) == HighBest(u, t)
  {
    forall x | x in HighBest(u, t) ensures x in HighBest(f, t) {
      var e :| e in f && e.id == x.id && e.score >= x.score;
      assert e == x;
    }
    forall x | x in HighBest(f, t) ensures x in HighBest(u, t) {
      var b := BestCopy(u, x);
      var e :| e in f && e.id == b.id && e.score >= b.score;
      assert e.score <= x.score;
      assert Tops(u, x);
    }
  }

  lemma SamePlace(u: set<Entry>, f: set<Entry>, k: nat, out: seq<Entry>, ref: seq<Entry>, j: nat)
    requires IsTop(Better, out, BestOf(f), k) && IsTop(Better, ref, BestOf(u), k) && j < |ref| && j < k
    requires HighBest(f, ref[j].score) == HighBest(u, ref[j].score)
    ensures j < |out| && out[j] == ref[j]
  {
    hide BestOf, Better;
    BetterTotal();
    var x := ref[j];
    TopPosition(ref, BestOf(u), k, j);
    SameBeaters(u, x);
    SameBeaters(f, x);
    assert x in Elements(ref);
    assert x in HighBest(u, x.score);
    assert x in Top(Better, BestOf(f), k);
    assert x in Elements(out);
    var i :| 0 <= i < |out| && out[i] == x;
    TopPosition(out, BestOf(f), k, i);
  }

  lemma SameBeaters(u: set<Entry>, x: Entry)
    ensures Beaters(Better, BestOf(u), x) == Beaters(Better, HighBest(u, x.score), x)
  {
    hide Tops;
  }

  lemma NotCrowded(u: set<Entry>, f: set<Entry>, k: nat, t: real)
    requires Covers(u, f, k) && |High(u, t)| < k
    ensures HighBest(f, t) == HighBest(u, t)
  {
    forall x | x in u && x.score >= t ensures Dominated(f, x) {
      HighMono(f, u, x.score, t);
    }
    HighBestSame(u, f, t);
  }

  lemma AboveLast(u: set<Entry>, k: nat, j: nat)
    requires k > 0 && j < |Reference(u, k)|
    requires |Reference(u, k)| < k || Reference(u, k)[j].score > Reference(u, k)[k - 1].score
    ensures |High(u, Reference(u, k)[j].score)| < k
  {
    hide BestOf, IsTop, High;
    var ref := Reference(u, k);
    PlaceCount(ref, BestOf(u), k, k - 1, ref[j].score);
    HighIs(u, ref[j].score);
  }

  /** Main result: whatever was collected, if it covers the input the deduplicated top-k of
      it has the scores of the exhaustive ranking, and its entries above the last score. */
  lemma Collected(u: set<Entry>, f: set<Entry>, k: nat, out: seq<Entry>)
    requires k > 0 && Covers(u, f, k) && IsTop(Better, out, BestOf(f), k)
    ensures ScoreExact(out, u, k)
  {
    hide Covers, Reference, High, BestOf, IsTop;
    var ref := Reference(u, k);
    ListFacts(out, u, f, k);
    ListFacts(ref, u, u, k) by { CoversSelf(u, k); }
    if |out| < |ref| { SameScores(u, f, k, out, |out|); }
    if |ref| < |out| { SameScores(u, f, k, out, |ref|); }
    forall j | 0 <= j < |out|
      ensures out[j].score == ref[j].score
      ensures (|ref| < k || ref[j].score > ref[k - 1].score) ==> out[j] == ref[j]
    {
      SameScores(u, f, k, out, j);
      if |ref| < k || ref[j].score > ref[k - 1].score {
        AboveLast(u, k, j);
        NotCrowded(u, f, k, ref[j].score);
        SamePlace(u, f, k, out, ref, j);
      }
    }
  }

  lemma CoversSelf(u: set<Entry>, k: nat)
    ensures Covers(u, u, k)
  {
    forall x | x in u ensures Dominated(u, x) {
    }
  }

  lemma ListFacts(out: seq<Entry>, u: set<Entry>, f: set<Entry>, k: nat)
    requires k > 0 && Covers(u, f, k) && IsTop(Better, out, BestOf(f), k)
    ensures Ranked(Better, out) && Elements(out) <= u && |out| <= k
    ensures forall i, j :: 0 <= i < j < |out| ==> out[i].id != out[j].id
  {
    hide Better;
    BetterTotal();
    RankedSize(Better, out);
    TopSize(Better, BestOf(f), k);
    forall i | 0 <= i < |out| ensures out[i] in BestOf(f) {
      assert out[i] in Elements(out);
    }
    forall i, j | 0 <= i < j < |out| ensures out[i].id != out[j].id {
      OneCopy(f, out[i], out[j]);
    }
  }

  lemma OneCopy(f: set<Entry>, a: Entry, b: Entry)
    requires a in BestOf(f) && b in BestOf(f) && Better(a, b)
    ensures a.id != b.id
  {
    LessIrreflexive(a.id);
  }

  /** When nothing that reaches the k-th best score was lost, the answer is the reference
      itself, ties and all. */
  lemma NoTieLost(u: set<Entry>, f: set<Entry>, k: nat, out: seq<Entry>)
    requires k > 0 && Covers(u, f, k) && IsTop(Better, out, BestOf(f), k)
    requires |Reference(u, k)| == k ==>
      forall x :: x in u && x.score >= Reference(u, k)[k - 1].score ==> Dominated(f, x)
    ensures out == Reference(u, k)
  {
    hide BestOf, IsTop, Dominated;
    var ref := Reference(u, k);
    Collected(u, f, k, out);
    hide Covers, ScoreExact;
    ExactIs(out, u, k);
    if |ref| == k {
      forall j | 0 <= j < k ensures out[j] == ref[j] {
        RankedScore(ref, j, k - 1) by { TopRanked(ref, u, k); }
        HighBestSame(u, f, ref[j].score);
        SamePlace(u, f, k, out, ref, j);
      }
    }
  }

  lemma TopRanked(ref: seq<Entry>, u: set<Entry>, k: nat)
    requires IsTop(Better, ref, BestOf(u), k)
    ensures Ranked(Better, ref)
  {
  }

  lemma ExactIs(out: seq<Entry>, u: set<Entry>, k: nat)
    requires k > 0 && ScoreExact(out, u, k)
    ensures |out| == |Reference(u, k)| <= k
    ensures forall j :: 0 <= j < |out| && |out| < k ==> out[j] == Reference(u, k)[j]
  {
  }

  /** The exhaustive ranking, spelled out: each id once, at the best score any of its copies has; scores
      fall, and equal scores stand in byte order of id; and an id left out, when k are in, would stand
      after them all. */
  lemma ReferenceReads(u: set<Entry>, k: nat)
    requires k > 0
    ensures var ref := Reference(u, k);
      && |ref| <= k
      && (forall i :: 0 <= i < |ref| ==>
            ref[i] in u && forall x :: x in u && x.id == ref[i].id ==> x.score <= ref[i].score)
      && (forall i, j :: 0 <= i < j < |ref| ==>
            ref[i].id != ref[j].id && ref[i].score >= ref[j].score
            && (ref[i].score == ref[j].score ==> Less(ref[i].id, ref[j].id)))
      && (forall x :: x in u && (forall i :: 0 <= i < |ref| ==> ref[i].id != x.id) ==>
            |ref| == k && forall i :: 0 <= i < |ref| ==>
              ref[i].score >= x.score && (ref[i].score == x.score ==> Less(ref[i].id, x.id)))
  {
    hide Reference;
    var ref := Reference(u, k);
    BetterTotal();
    CoversSelf(u, k);
    ListFacts(ref, u, u, k);
    forall i | 0 <= i < |ref| ensures ref[i] in BestOf(u) {
      assert ref[i] in Elements(ref);
    }
    forall i, j | 0 <= i < j < |ref| ensures Better(ref[i], ref[j]) {
    }
    forall x | x in u && forall i :: 0 <= i < |ref| ==> ref[i].id != x.id
      ensures |ref| == k && forall i :: 0 <= i < |ref| ==>
        ref[i].score >= x.score && (ref[i].score == x.score ==> Less(ref[i].id, x.id))
    {
      var b := BestCopy(u, x);
      OutsideReference(ref, u, k, b);
      forall i | 0 <= i < |ref| ensures Better(ref[i], b) {
        assert ref[i] in Elements(ref);
        assert b !in Top(Better, BestOf(u), k);
        TopBeatsRest(Better, BestOf(u), k, ref[i], b);
      }
    }
  }

  // ---- merging answers

  /** Merging score-exact partial answers covers everything they were drawn from. */
  lemma MergeCovers(parts: seq<set<Entry>>, outs: seq<seq<Entry>>, k: nat, u: set<Entry>, f: set<Entry>)
    requires k > 0 && |parts| == |outs| && forall i :: 0 <= i < |parts| ==> ScoreExact(outs[i], parts[i], k)
    requires u == set i, x | 0 <= i < |parts| && x in parts[i] :: x
    requires f == set i, x | 0 <= i < |outs| && x in outs[i] :: x
    ensures Covers(u, f, k)
  {
    hide ScoreExact, Dominated, Crowded;
    forall x | x in f ensures x in u {
      var i :| 0 <= i < |outs| && x in outs[i];
      PartIn(outs[i], parts[i], k, x);
    }
    forall x | x in u ensures Dominated(f, x) || Crowded(f, k, x.score) {
      var i :| 0 <= i < |parts| && x in parts[i];
      PartCovers(outs[i], parts[i], k, x, f);
    }
  }

  lemma PartIn(out: seq<Entry>, u: set<Entry>, k: nat, x: Entry)
    requires k > 0 && ScoreExact(out, u, k) && x in out
    ensures x in u
  {
    hide Reference;
    assert x in Elements(out);
  }

  lemma PartCovers(out: seq<Entry>, u: set<Entry>, k: nat, x: Entry, f: set<Entry>)
    requires k > 0 && ScoreExact(out, u, k) && x in u && forall e :: e in out ==> e in f
    ensures Dominated(f, x) || Crowded(f, k, x.score)
  {
    var ref := Reference(u, k);
    var b := BestCopy(u, x);
    hide BestOf, Better, Reference;
    BetterTotal();
    if j :| 0 <= j < |ref| && ref[j] == b {
      if out[j] == b {
        assert out[j] in f;
      } else {
        FullCrowds(out, u, k, f, x.score);
      }
    } else {
      OutsideReference(ref, u, k, b);
      FullCrowds(out, u, k, f, x.score);
    }
  }

  lemma OutsideReference(ref: seq<Entry>, u: set<Entry>, k: nat, b: Entry)
    requires k > 0 && IsTop(Better, ref, BestOf(u), k) && b in BestOf(u) && b !in ref
    ensures |ref| == k && ref[k - 1].score >= b.score
  {
    hide BestOf;
    BetterTotal();
    RankedSize(Better, ref);
    TopSize(Better, BestOf(u), k);
    assert b in Elements(ref) <==> b in ref;
    assert b !in Top(Better, BestOf(u), k);
    BeatersMono(Better, Beaters(Better, BestOf(u), b), BestOf(u), b);
    SubsetSize(Beaters(Better, BestOf(u), b), BestOf(u));
    assert ref[k - 1] in Elements(ref);
    TopBeatsRest(Better, BestOf(u), k, ref[k - 1], b);
  }

  lemma FullCrowds(out: seq<Entry>, u: set<Entry>, k: nat, f: set<Entry>, t: real)
    requires k > 0 && ScoreExact(out, u, k) && |out| == k && out[k - 1].score >= t
    requires forall e :: e in out ==> e in f
    ensures Crowded(f, k, t)
  {
    hide Reference, Better;
    SeqIds(out);
    var ids := set e | e in out :: e.id;
    forall id | id in ids ensures id in High(f, t) {
      var i :| 0 <= i < |out| && out[i].id == id;
      RankedScore(out, i, k - 1);
      assert out[i] in f;
    }
    SubsetSize(ids, High(f, t));
  }

  lemma {:induction false} SeqIds(out: seq<Entry>)
    requires forall i, j :: 0 <= i < j < |out| ==> out[i].id != out[j].id
    ensures |set e | e in out :: e.id| == |out|
    decreases |out|
  {
    var ids := set e | e in out :: e.id;
    if out == [] {
      assert ids == {};
    } else {
      var front, last := out[..|out| - 1], out[|out| - 1];
      SeqIds(front);
      assert out == front + [last];
      forall id ensures id in ids <==> id in (set e | e in front :: e.id) || id == last.id {
        if id in ids {
          var e :| e in out && e.id == id;
        }
      }
      assert ids == (set e | e in front :: e.id) + {last.id};
      assert forall e :: e in front ==> e.id != last.id;
    }
  }
}
