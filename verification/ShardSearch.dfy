/** A shard's seeded search, as the broker sees it: the retrieval loop's answer tagged with
    the shard meets the contract the fan-out relies on. */
module ShardSearch {
  import opened TopK
  import opened Broker
  import Retrieval

  function Tag(shard: nat, h: Retrieval.Hit): CHit {
    CHit(shard, h.doc, h.score)
  }

  function TagAll(shard: nat, hits: seq<Retrieval.Hit>): (r: seq<CHit>)
    ensures |r| == |hits| && forall i :: 0 <= i < |hits| ==> r[i] == Tag(shard, hits[i])
  {
    seq(|hits|, i requires 0 <= i < |hits| => Tag(shard, hits[i]))
  }

  ghost function TagSet(shard: nat, s: set<Retrieval.Hit>): set<CHit> {
    set h | h in s :: Tag(shard, h)
  }

  lemma {:induction false} TagSize(shard: nat, s: set<Retrieval.Hit>)
    ensures |TagSet(shard, s)| == |s|
    decreases |s|
  {
    if s == {} {
      assert TagSet(shard, s) == {};
    } else {
      var h :| h in s;
      TagSize(shard, s - {h});
      assert TagSet(shard, s) == TagSet(shard, s - {h}) + {Tag(shard, h)};
    }
  }

  lemma TagTop(shard: nat, s: set<Retrieval.Hit>, k: nat, h: Retrieval.Hit)
    requires h in s
    ensures Tag(shard, h) in Top(Better, TagSet(shard, s), k) <==> h in Top(Retrieval.Better, s, k)
  {
    var b, b' := Beaters(Retrieval.Better, s, h), Beaters(Better, TagSet(shard, s), Tag(shard, h));
    assert b' == TagSet(shard, b);
    TagSize(shard, b);
  }

  lemma TagIn(shard: nat, hits: seq<Retrieval.Hit>, h: Retrieval.Hit)
    ensures Tag(shard, h) in TagAll(shard, hits) <==> h in hits
  {
    if h in hits {
      var j :| 0 <= j < |hits| && hits[j] == h;
      assert TagAll(shard, hits)[j] == Tag(shard, h);
    }
  }

  lemma TagRanked(shard: nat, hits: seq<Retrieval.Hit>)
    requires Ranked(Retrieval.Better, hits)
    ensures Ranked(Better, TagAll(shard, hits))
  {
  }

  /** Equal answers on both sides of the tag, for every seed. */
  lemma SeededIsAnswer(c: Config, i: nat, terms: seq<Retrieval.Term>, keep: nat -> bool, seed: real,
                       hits: seq<Retrieval.Hit>)
    requires i < |c.hits| && i < |c.shards| && c.hits[i] == TagSet(c.shards[i], Retrieval.Matches(terms, keep))
    requires Retrieval.SeededAnswer(hits, Retrieval.Matches(terms, keep), c.k, seed)
    ensures SearchAnswer(c, i, seed, TagAll(c.shards[i], hits))
  {
    hide Top, Retrieval.Matches, Ranked, TagAll;
    var shard, s := c.shards[i], Retrieval.Matches(terms, keep);
    var out := TagAll(shard, hits);
    TagRanked(shard, hits);
    forall x | x in out ensures x in c.hits[i] {
      var j :| 0 <= j < |out| && out[j] == x;
      assert hits[j] in Elements(hits);
    }
    forall x | x in c.hits[i] && x.score >= seed ensures x in out <==> x in Top(Better, c.hits[i], c.k) {
      var h :| h in s && Tag(shard, h) == x;
      TagTop(shard, s, c.k, h);
      TagIn(shard, hits, h);
    }
  }
}
