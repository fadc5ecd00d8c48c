/** The catalogue log (manifest/manifest.go): appended edits, replay of any cut of it, set
    swaps and compaction. */
module Manifest {
  import opened Digits
  import opened Varint
  import opened ManifestCodec

  const MAGIC: Bytes := [84, 77, 65, 78, 1]   // "TMAN" and the version byte
  const ADD: Byte := 1
  const REMOVE: Byte := 2
  const SET_TIER: Byte := 3

  type Live = map<Uuid, Member>

  /** The replayed state: the live members, and the counters behind the dead fraction. */
  datatype State = State(live: Live, added: nat, records: nat)

  const EMPTY := State(map[], 0, 0)

  datatype Edit = Add(m: Member) | Remove(id: Uuid) | SetTier(id: Uuid, tier: Byte)

  function RecordOf(e: Edit): Record {
    match e
    case Add(m) => Record(ADD, EncodeMember(m))
    case Remove(id) => Record(REMOVE, id)
    case SetTier(id, tier) => Record(SET_TIER, id + [tier])
  }

  ghost predicate GoodEdit(e: Edit) {
    (e.Add? ==> GoodMember(e.m)) && |RecordOf(e).body| < U64
  }

  // ---- one edit

  /** `apply`, on a record as read. */
  function ApplyRecord(s: State, r: Record): State {
    var t := s.(records := s.records + 1);
    if r.kind == ADD then
      match DecodeMember(r.body)
      case Short => t
      case Parsed(m, _) => t.(live := s.live[m.uuid := m], added := s.added + 1)
    else if r.kind == REMOVE && |r.body| >= 16 then t.(live := s.live - {Id(r.body)})
    else if r.kind == SET_TIER && |r.body| >= 17 && Id(r.body) in s.live then
      t.(live := s.live[Id(r.body) := s.live[Id(r.body)].(tier := r.body[16])])
    else t
  }

  function Id(body: Bytes): Uuid
    requires |body| >= 16
  {
    body[..16]
  }

  /** What an edit means. */
  function Apply(s: State, e: Edit): State {
    var t := s.(records := s.records + 1);
    match e
    case Add(m) => t.(live := s.live[m.uuid := m], added := s.added + 1)
    case Remove(id) => t.(live := s.live - {id})
    case SetTier(id, tier) => if id in s.live then t.(live := s.live[id := s.live[id].(tier := tier)]) else t
  }

  lemma ApplyAgrees(s: State, e: Edit)
    requires GoodEdit(e)
    ensures ApplyRecord(s, RecordOf(e)) == Apply(s, e)
  {
    hide EncodeMember, DecodeMember;
    match e
    case Add(m) => MemberRoundTrip(m);
    case Remove(id) => assert id[..16] == id;
    case SetTier(id, tier) =>
      assert (id + [tier])[..16] == id && (id + [tier])[16] == tier;
  }

  // ---- the log and its replay

  function Records(es: seq<Edit>, crc: Bytes -> nat): Bytes {
    if es == [] then [] else RecordBytes(RecordOf(es[0]), crc) + Records(es[1..], crc)
  }

  function Log(es: seq<Edit>, crc: Bytes -> nat): Bytes {
    MAGIC + Records(es, crc)
  }

  function ApplyAll(s: State, es: seq<Edit>): State
    decreases |es|
  {
    if es == [] then s else ApplyAll(Apply(s, es[0]), es[1..])
  }

  lemma ReadShrinks(src: Bytes, crc: Bytes -> nat)
    ensures ReadRecord(src, crc).Read? ==> |ReadRecord(src, crc).rest| < |src|
  {
    if src != [] {
      Suffix(src[1..], 0);
    }
  }

  function ReplayRecords(s: State, src: Bytes, crc: Bytes -> nat): State
    decreases |src|
  {
    match ReadRecord(src, crc)
    case Stop => s
    case Read(r, rest) =>
      ReadShrinks(src, crc);
      ReplayRecords(ApplyRecord(s, r), rest, crc)
  }

  datatype Replayed = Replayed(state: State) | BadHeader

  /** `replay`: nothing for a short header, an error for a wrong one, else the records. */
  function Replay(log: Bytes, crc: Bytes -> nat): Replayed {
    if |log| < |MAGIC| then Replayed(EMPTY)
    else if log[..|MAGIC|] != MAGIC then BadHeader
    else Replayed(ReplayRecords(EMPTY, log[|MAGIC|..], crc))
  }

  ghost predicate GoodEdits(es: seq<Edit>) {
    forall i :: 0 <= i < |es| ==> GoodEdit(es[i])
  }

  lemma {:induction false} RecordsJoin(a: seq<Edit>, b: seq<Edit>, crc: Bytes -> nat)
    ensures Records(a + b, crc) == Records(a, crc) + Records(b, crc)
    decreases |a|
  {
    hide RecordBytes;
    if a == [] {
      assert a + b == b;
    } else {
      RecordsJoin(a[1..], b, crc);
      assert (a + b)[1..] == a[1..] + b;
      Join3(RecordBytes(RecordOf(a[0]), crc), Records(a[1..], crc), Records(b, crc));
    }
  }

  lemma {:induction false} ApplyJoin(s: State, a: seq<Edit>, b: seq<Edit>)
    ensures ApplyAll(s, a + b) == ApplyAll(ApplyAll(s, a), b)
    decreases |a|
  {
    hide Apply;
    if a == [] {
      assert a + b == b;
    } else {
      ApplyJoin(Apply(s, a[0]), a[1..], b);
      assert (a + b)[1..] == a[1..] + b;
    }
  }

  // ---- what a history leaves of one member

  function About(e: Edit): Uuid {
    match e
    case Add(m) => m.uuid
    case Remove(id) => id
    case SetTier(id, _) => id
  }

  /** Edits about other members leave a member as it is. */
  lemma {:induction false} Untouched(s: State, es: seq<Edit>, id: Uuid)
    requires forall i :: 0 <= i < |es| ==> About(es[i]) != id
    ensures id in ApplyAll(s, es).live <==> id in s.live
    ensures id in s.live ==> ApplyAll(s, es).live[id] == s.live[id]
    decreases |es|
  {
    if es != [] { Untouched(Apply(s, es[0]), es[1..], id); }
  }

  /** The last edit about a member decides: added, it stands as added; removed, it is gone; moved to a
      tier, it stands on that tier, if it stood at all, and is otherwise as it was. */
  lemma LastWord(s: State, es: seq<Edit>, e: Edit, more: seq<Edit>)
    requires forall i :: 0 <= i < |more| ==> About(more[i]) != About(e)
    ensures var was, now := ApplyAll(s, es).live, ApplyAll(s, es + [e] + more).live;
      && (e.Add? ==> e.m.uuid in now && now[e.m.uuid] == e.m)
      && (e.Remove? ==> e.id !in now)
      && (e.SetTier? ==> (e.id in now <==> e.id in was) && (e.id in was ==> now[e.id] == was[e.id].(tier := e.tier)))
  {
    ApplySnoc(s, es, e);
    ApplyJoin(s, es + [e], more);
    hide ApplyAll;
    Untouched(ApplyAll(s, es + [e]), more, About(e));
  }

  /** Whether the first `k` edits are the whole ones in the first `cut` bytes of the records. */
  ghost predicate WholeEdits(es: seq<Edit>, cut: nat, k: nat, crc: Bytes -> nat) {
    && k <= |es| && |Records(es[..k], crc)| <= cut
    && (k < |es| ==> cut < |Records(es[..k + 1], crc)|)
  }

  /** Replaying the records cut anywhere applies the longest prefix of whole edits. */
  lemma {:induction false} CutReplay(s: State, es: seq<Edit>, cut: nat, crc: Bytes -> nat) returns (k: nat)
    requires IsCrc(crc) && GoodEdits(es) && cut <= |Records(es, crc)|
    ensures WholeEdits(es, cut, k, crc)
    ensures ReplayRecords(s, Records(es, crc)[..cut], crc) == ApplyAll(s, es[..k])
    decreases |es|
  {
    hide RecordBytes, ReadRecord, ApplyRecord, Apply, RecordOf;
    var src := Records(es, crc)[..cut];
    k := 0;
    if es == [] {
      EmptyRead(crc);
    } else {
      var first, more := RecordBytes(RecordOf(es[0]), crc), Records(es[1..], crc);
      RecordsOne(es[0], crc);
      if cut < |first| {
        assert src == first[..cut];
        assert GoodEdit(es[0]);
        CutRecord(RecordOf(es[0]), cut, crc);
        assert es[..1] == [es[0]];
      } else {
        var cut' := cut - |first|;
        var src' := more[..cut'];
        assert src == first + src';
        RecordRoundTrip(RecordOf(es[0]), src', crc);
        ApplyAgrees(s, es[0]);
        var j := CutReplay(Apply(s, es[0]), es[1..], cut', crc);
        k := j + 1;
        assert es[..k][1..] == es[1..][..j];
        WholeNext(es, j, crc);
        if k < |es| { WholeNext(es, j + 1, crc); }
      }
    }
  }

  lemma EmptyRead(crc: Bytes -> nat)
    ensures ReadRecord([], crc) == Stop
  {
  }

  lemma RecordsOne(e: Edit, crc: Bytes -> nat)
    ensures Records([e], crc) == RecordBytes(RecordOf(e), crc) && Records([], crc) == []
  {
    hide RecordBytes;
    assert [e][1..] == [];
    assert RecordBytes(RecordOf(e), crc) + [] == RecordBytes(RecordOf(e), crc);
  }

  lemma WholeNext(es: seq<Edit>, j: nat, crc: Bytes -> nat)
    requires j < |es|
    ensures Records(es[..j + 1], crc) == RecordBytes(RecordOf(es[0]), crc) + Records(es[1..][..j], crc)
  {
    hide RecordBytes;
    assert es[..j + 1][1..] == es[1..][..j];
  }

  /** Main result: a log cut at any byte replays to the state after the longest prefix of whole
      edits, and to the empty state when even the header is cut. */
  lemma TruncatedReplay(es: seq<Edit>, cut: nat, crc: Bytes -> nat) returns (k: nat)
    requires IsCrc(crc) && GoodEdits(es) && cut <= |Log(es, crc)|
    ensures k <= |es| && Replay(Log(es, crc)[..cut], crc) == Replayed(ApplyAll(EMPTY, es[..k]))
    ensures cut >= |MAGIC| ==> WholeEdits(es, cut - |MAGIC|, k, crc)
    ensures cut < |MAGIC| ==> k == 0
  {
    hide Records;
    k := 0;
    var log := Log(es, crc);
    if cut >= |MAGIC| {
      k := CutReplay(EMPTY, es, cut - |MAGIC|, crc);
      assert log[..cut][..|MAGIC|] == MAGIC;
      assert log[..cut][|MAGIC|..] == Records(es, crc)[..cut - |MAGIC|];
    }
  }

  /** In particular the whole log replays to the whole history. */
  lemma WholeReplay(es: seq<Edit>, crc: Bytes -> nat)
    requires IsCrc(crc) && GoodEdits(es)
    ensures Replay(Log(es, crc), crc) == Replayed(ApplyAll(EMPTY, es))
  {
    var log := Log(es, crc);
    assert log[..|log|] == log;
    var k := TruncatedReplay(es, |log|, crc);
    hide Records, ApplyAll, Replay;
    if k < |es| {
      RecordsPrefix(es, k + 1, crc);
    }
    assert es[..|es|] == es;
  }

  lemma RecordsPrefix(es: seq<Edit>, k: nat, crc: Bytes -> nat)
    requires k <= |es|
    ensures |Records(es[..k], crc)| <= |Records(es, crc)|
  {
    hide Records;
    RecordsJoin(es[..k], es[k..], crc);
    assert es == es[..k] + es[k..];
  }

  /** Replaying whole records, then whatever follows them. */
  lemma {:induction false} ReplayThen(s: State, es: seq<Edit>, tail: Bytes, crc: Bytes -> nat)
    requires IsCrc(crc) && GoodEdits(es)
    ensures ReplayRecords(s, Records(es, crc) + tail, crc) == ReplayRecords(ApplyAll(s, es), tail, crc)
    decreases |es|
  {
    hide RecordBytes, ReadRecord, ApplyRecord, Apply, RecordOf;
    if es == [] {
      assert Records(es, crc) + tail == tail;
    } else {
      var first, more := RecordBytes(RecordOf(es[0]), crc), Records(es[1..], crc) + tail;
      AppendAssoc(first, Records(es[1..], crc), tail);
      assert GoodEdit(es[0]);
      RecordRoundTrip(RecordOf(es[0]), more, crc);
      ApplyAgrees(s, es[0]);
      ReplayThen(Apply(s, es[0]), es[1..], tail, crc);
    }
  }

  // ---- appending after a torn record

  /** Every record read is counted, so reading any at all shows in the state. */
  lemma {:induction false} ReplayGrows(s: State, src: Bytes, crc: Bytes -> nat)
    ensures ReplayRecords(s, src, crc).records >= s.records
    ensures ReadRecord(src, crc).Read? ==> ReplayRecords(s, src, crc).records > s.records
    ensures ReadRecord(src, crc).Stop? ==> ReplayRecords(s, src, crc) == s
    decreases |src|
  {
    hide ReadRecord;
    if ReadRecord(src, crc).Read? {
      var got := ReadRecord(src, crc);
      ReadShrinks(src, crc);
      Counted(s, got.record);
      ReplayGrows(ApplyRecord(s, got.record), got.rest, crc);
    }
  }

  lemma Counted(s: State, r: Record)
    ensures ApplyRecord(s, r).records == s.records + 1
  {
  }

  lemma {:induction false} EditsCounted(s: State, es: seq<Edit>)
    ensures ApplyAll(s, es).records == s.records + |es|
    decreases |es|
  {
    if es != [] { EditsCounted(Apply(s, es[0]), es[1..]); }
  }

  lemma LogReplay(es: seq<Edit>, tail: Bytes, crc: Bytes -> nat)
    requires IsCrc(crc) && GoodEdits(es)
    ensures Replay(Log(es, crc) + tail, crc) == Replayed(ReplayRecords(ApplyAll(EMPTY, es), tail, crc))
  {
    hide ApplyAll, Records, ReplayRecords, GoodEdits;
    ReplayThen(EMPTY, es, tail, crc);
    var log := Log(es, crc) + tail;
    assert log == MAGIC + (Records(es, crc) + tail);
    assert log[..|MAGIC|] == MAGIC && log[|MAGIC|..] == Records(es, crc) + tail;
  }

  /** Bytes are appended to a log whatever it ends in. After a tail `left` they leave replay where
      it was exactly when no record is read from the tail and them together; and then, if any
      edit was appended, it is lost. */
  lemma TornAppend(es: seq<Edit>, left: Bytes, more: seq<Edit>, crc: Bytes -> nat)
    requires IsCrc(crc) && GoodEdits(es)
    ensures var log, src := Log(es, crc) + (left + Records(more, crc)), left + Records(more, crc);
      && (Replay(log, crc) == Replayed(ApplyAll(EMPTY, es)) <==> ReadRecord(src, crc).Stop?)
      && (ReadRecord(src, crc).Stop? ==> (Replay(log, crc) == Replayed(ApplyAll(EMPTY, es + more)) <==> more == []))
  {
    hide ApplyAll, Records, ReplayRecords, ReadRecord, GoodEdits, Replay, Log;
    var src := left + Records(more, crc);
    LogReplay(es, src, crc);
    ReplayGrows(ApplyAll(EMPTY, es), src, crc);
    EditsCounted(EMPTY, es);
    EditsCounted(EMPTY, es + more);
    assert more == [] ==> es + more == es;
  }

  /** With no torn tail every appended edit is replayed. */
  lemma CleanAppend(es: seq<Edit>, more: seq<Edit>, crc: Bytes -> nat)
    requires IsCrc(crc) && GoodEdits(es + more)
    ensures Replay(Log(es, crc) + Records(more, crc), crc) == Replayed(ApplyAll(EMPTY, es + more))
  {
    hide ApplyAll, Replay, Records, GoodEdits;
    RecordsJoin(es, more, crc);
    AppendAssoc(MAGIC, Records(es, crc), Records(more, crc));
    WholeReplay(es + more, crc);
  }

  /** So a record whose last byte was written does not lose what follows it either. */
  lemma WholeAppend(es: seq<Edit>, last: Edit, more: seq<Edit>, crc: Bytes -> nat)
    requires IsCrc(crc) && GoodEdits(es + [last] + more)
    ensures Replay(Log(es, crc) + (RecordBytes(RecordOf(last), crc) + Records(more, crc)), crc)
            == Replayed(ApplyAll(EMPTY, es + [last] + more))
  {
    hide ApplyAll, RecordBytes, RecordOf, Replay, Records, GoodEdits;
    var whole := RecordBytes(RecordOf(last), crc);
    RecordsOne(last, crc);
    RecordsJoin(es, [last], crc);
    AppendAssoc(MAGIC, Records(es, crc), whole);
    AppendAssoc(Log(es, crc), whole, Records(more, crc));
    CleanAppend(es + [last], more, crc);
  }

  /** A log whose last record was torn, appended to. */
  function AfterTear(es: seq<Edit>, torn: Edit, cut: nat, more: seq<Edit>, crc: Bytes -> nat): Bytes
    requires cut <= |RecordBytes(RecordOf(torn), crc)|
  {
    Log(es, crc) + (RecordBytes(RecordOf(torn), crc)[..cut] + Records(more, crc))
  }

  ghost predicate TornPastLength(torn: Edit, cut: nat, crc: Bytes -> nat) {
    1 + |Encode(|RecordOf(torn).body|)| <= cut < |RecordBytes(RecordOf(torn), crc)|
  }

  /** In particular past a tear inside the last record, where replay is left where it was exactly
      when the record spliced there is short or its checksum differs. */
  lemma LostAppend(es: seq<Edit>, torn: Edit, cut: nat, more: seq<Edit>, crc: Bytes -> nat)
    requires IsCrc(crc) && GoodEdits(es) && GoodEdit(torn) && TornPastLength(torn, cut, crc)
    ensures var log := AfterTear(es, torn, cut, more, crc);
      var rejected := Rejected(RecordOf(torn), cut, Records(more, crc), crc);
      && (Replay(log, crc) == Replayed(ApplyAll(EMPTY, es)) <==> rejected)
      && (rejected ==> (Replay(log, crc) == Replayed(ApplyAll(EMPTY, es + more)) <==> more == []))
  {
    hide RecordBytes, ApplyAll, Records, ReadRecord, RecordOf, Encode, Rejected, Replay, Log, GoodEdits;
    SplicedRecord(RecordOf(torn), cut, Records(more, crc), crc);
    TornAppend(es, RecordBytes(RecordOf(torn), crc)[..cut], more, crc);
  }

  /** A member of sixteen bytes of id `x`, and nothing else to tell. */
  function Plain(x: Byte): Member {
    Member([], seq(16, _ => x), 0, 0, [], 0, [], [], [], 0, [], 0, 0)
  }

  const ADDED := Add(Plain(1))
  const TORN := Add(Plain(2))
  const REMOVED := Remove(Plain(1).uuid)

  /** Such a loss: member 1 is added, adding member 2 is torn after its length, and member 1 is
      then removed. The removal is committed, and replay still shows member 1. */
  lemma LostRemove(crc: Bytes -> nat)
    requires IsCrc(crc)
    ensures TornPastLength(TORN, 2, crc)
    ensures Replay(AfterTear([ADDED], TORN, 2, [REMOVED], crc), crc) == Replayed(ApplyAll(EMPTY, [ADDED]))
    ensures Plain(1).uuid in ApplyAll(EMPTY, [ADDED]).live && Plain(1).uuid !in ApplyAll(EMPTY, [ADDED, REMOVED]).live
  {
    PlainApplied();
    TornSizes(crc);
    PlainSize(1);
    hide Log, Replay, RecordBytes, RecordOf, Encode, Records, ApplyAll, Rejected, GoodEdit, Plain, TornPastLength,
      AfterTear;
    LostAppend([ADDED], TORN, 2, [REMOVED], crc);
  }

  lemma TornSizes(crc: Bytes -> nat)
    ensures GoodEdit(TORN) && TornPastLength(TORN, 2, crc)
    ensures Rejected(RecordOf(TORN), 2, Records([REMOVED], crc), crc)
  {
    PlainSize(2);
    RecordsOne(REMOVED, crc);
    RecordSize(RecordOf(REMOVED), crc);
    RecordSize(RecordOf(TORN), crc);
    hide EncodeMember, Encode, RecordBytes, Records;
  }

  lemma RecordSize(r: Record, crc: Bytes -> nat)
    ensures |RecordBytes(r, crc)| == 1 + |Encode(|r.body|)| + |r.body| + 4
    ensures |r.body| < 128 ==> |Encode(|r.body|)| == 1
  {
    hide Le4;
    Le4Length(crc(Framed(r)));
  }

  lemma PlainSize(x: Byte)
    ensures GoodEdit(Add(Plain(x))) && 18 < |EncodeMember(Plain(x))| < 128
  {
  }

  lemma PlainApplied()
    ensures Plain(1).uuid in ApplyAll(EMPTY, [ADDED]).live
    ensures Plain(1).uuid !in ApplyAll(EMPTY, [ADDED, REMOVED]).live
  {
    var a, b := ADDED, REMOVED;
    assert [a] == [] + [a] && [a, b] == [a] + [b];
    ApplySnoc(EMPTY, [], a);
    ApplySnoc(EMPTY, [a], b);
  }

  lemma FirstKind(es: seq<Edit>, crc: Bytes -> nat)
    requires es != []
    ensures |Records(es, crc)| >= 6
    ensures Records(es, crc)[0] == if es[0].Add? then 1 else if es[0].Remove? then 2 else 3
  {
    hide EncodeMember, Encode;
    RecordSize(RecordOf(es[0]), crc);
  }

  /** A log torn inside its header is appended to all the same. It then no longer opens, unless
      the version byte alone was missing and the kind of an added member stands in for it. */
  lemma TornHeader(c: nat, more: seq<Edit>, crc: Bytes -> nat)
    requires 0 < c < |MAGIC| && more != []
    ensures Replay(MAGIC[..c] + Records(more, crc), crc).BadHeader? <==> c < 4 || !more[0].Add?
  {
    FirstKind(more, crc);
    hide Records, ReplayRecords;
    var log := MAGIC[..c] + Records(more, crc);
    assert log[..|MAGIC|][c] == Records(more, crc)[0];
    if c == 4 {
      assert log[..|MAGIC|] == MAGIC[..4] + [log[4]];
    }
  }

  // ---- swaps

  function SwapEdits(add: seq<Member>, remove: seq<Uuid>): seq<Edit> {
    seq(|add|, i requires 0 <= i < |add| => Add(add[i]))
      + seq(|remove|, i requires 0 <= i < |remove| => Remove(remove[i]))
  }

  ghost predicate Disjoint(add: seq<Member>, remove: seq<Uuid>) {
    forall i, j :: 0 <= i < |add| && 0 <= j < |remove| ==> add[i].uuid != remove[j]
  }

  lemma ApplySnoc(s: State, es: seq<Edit>, e: Edit)
    ensures ApplyAll(s, es + [e]) == Apply(ApplyAll(s, es), e)
  {
    hide Apply;
    ApplyJoin(s, es, [e]);
    assert [e][1..] == [];
  }

  /** What is live part way through a swap's edits. */
  lemma {:induction false} PartSwap(s: State, add: seq<Member>, remove: seq<Uuid>, k: nat, id: Uuid)
    requires k <= |add| + |remove|
    ensures id in ApplyAll(s, SwapEdits(add, remove)[..k]).live <==>
      (id in s.live || exists i :: 0 <= i < |add| && i < k && add[i].uuid == id)
      && !(exists j :: 0 <= j < |remove| && |add| + j < k && remove[j] == id)
    decreases k
  {
    var es := SwapEdits(add, remove);
    if k == 0 {
      assert es[..0] == [];
    } else {
      PartSwap(s, add, remove, k - 1, id);
      assert es[..k] == es[..k - 1] + [es[k - 1]];
      ApplySnoc(s, es[..k - 1], es[k - 1]);
      hide ApplyAll;
      if k - 1 < |add| {
        assert es[k - 1] == Add(add[k - 1]);
        assert (exists i :: 0 <= i < |add| && i < k && add[i].uuid == id) <==>
          (exists i :: 0 <= i < |add| && i < k - 1 && add[i].uuid == id) || add[k - 1].uuid == id;
      } else {
        var j := k - 1 - |add|;
        assert es[k - 1] == Remove(remove[j]);
        assert (exists i :: 0 <= i < |remove| && |add| + i < k && remove[i] == id) <==>
          (exists i :: 0 <= i < |remove| && |add| + i < k - 1 && remove[i] == id) || remove[j] == id;
      }
    }
  }

  /** A whole swap shows every output exactly when no output reuses an input's id. */
  lemma SwapLandsIff(s: State, add: seq<Member>, remove: seq<Uuid>)
    ensures (forall i :: 0 <= i < |add| ==> add[i].uuid in ApplyAll(s, SwapEdits(add, remove)).live) <==>
      Disjoint(add, remove)
  {
    var es := SwapEdits(add, remove);
    assert es[..|es|] == es;
    hide ApplyAll, SwapEdits;
    forall i | 0 <= i < |add|
      ensures add[i].uuid in ApplyAll(s, es).live <==> !(exists j :: 0 <= j < |remove| && remove[j] == add[i].uuid)
    {
      PartSwap(s, add, remove, |add| + |remove|, add[i].uuid);
      assert |add| + |remove| == |es| by { SwapSize(add, remove); }
    }
  }

  lemma SwapSize(add: seq<Member>, remove: seq<Uuid>)
    ensures |SwapEdits(add, remove)| == |add| + |remove|
  {
  }

  /** What is live after the first `k` edits of a swap. */
  ghost function After(s: State, add: seq<Member>, remove: seq<Uuid>, k: nat): set<Uuid>
    requires k <= |add| + |remove|
  {
    ApplyAll(s, SwapEdits(add, remove)[..k]).live.Keys
  }

  /** Every input is still there, or every output already is: between them no data is lost. */
  ghost predicate Keeps(seen: set<Uuid>, before: set<Uuid>, add: seq<Member>) {
    before <= seen || forall i :: 0 <= i < |add| ==> add[i].uuid in seen
  }

  lemma KeepsPart(s: State, add: seq<Member>, remove: seq<Uuid>, k: nat)
    requires k <= |add| + |remove| && (Disjoint(add, remove) || forall j :: 0 <= j < |remove| ==> remove[j] !in s.live)
    ensures Keeps(After(s, add, remove, k), s.live.Keys, add)
  {
    hide ApplyAll;
    if k <= |add| || !Disjoint(add, remove) {
      forall id | id in s.live ensures id in After(s, add, remove, k) {
        PartSwap(s, add, remove, k, id);
      }
    } else {
      forall i | 0 <= i < |add| ensures add[i].uuid in After(s, add, remove, k) {
        PartSwap(s, add, remove, k, add[i].uuid);
      }
    }
  }

  /** A shared id loses the output that carries it, and a live input with it. */
  lemma SharedIdLost(s: State, add: seq<Member>, remove: seq<Uuid>, i: nat, j: nat)
    requires i < |add| && j < |remove| && add[i].uuid == remove[j]
    ensures add[i].uuid !in After(s, add, remove, |add| + |remove|)
  {
    hide ApplyAll;
    PartSwap(s, add, remove, |add| + |remove|, remove[j]);
  }

  lemma KeepsFails(s: State, add: seq<Member>, remove: seq<Uuid>, j: nat)
    requires j < |remove| && remove[j] in s.live && !Disjoint(add, remove)
    ensures !Keeps(After(s, add, remove, |add| + |remove|), s.live.Keys, add)
  {
    hide ApplyAll, After;
    var i, l :| 0 <= i < |add| && 0 <= l < |remove| && add[i].uuid == remove[l];
    SharedIdLost(s, add, remove, i, l);
    PartSwap(s, add, remove, |add| + |remove|, remove[j]);
    assert remove[j] !in After(s, add, remove, |add| + |remove|) by {
      AfterIs(s, add, remove, |add| + |remove|, remove[j]);
    }
  }

  /** The ids a swap brings in that were not live. */
  ghost function Came(s: State, add: seq<Member>): set<Uuid> {
    set i | 0 <= i < |add| && add[i].uuid !in s.live :: add[i].uuid
  }

  /** The ids it takes out that were live, or were just brought in. */
  ghost function Went(s: State, add: seq<Member>, remove: seq<Uuid>): set<Uuid> {
    set j | 0 <= j < |remove| && (remove[j] in s.live || remove[j] in Came(s, add)) :: remove[j]
  }

  /** Part way through the additions, then through the removals. */
  lemma AfterIs(s: State, add: seq<Member>, remove: seq<Uuid>, k: nat, id: Uuid)
    requires k <= |add| + |remove|
    ensures id in After(s, add, remove, k) <==>
      (id in s.live || exists i :: 0 <= i < |add| && i < k && add[i].uuid == id)
      && !(exists j :: 0 <= j < |remove| && |add| + j < k && remove[j] == id)
  {
    hide ApplyAll;
    PartSwap(s, add, remove, k, id);
  }

  lemma AfterAll(s: State, add: seq<Member>, remove: seq<Uuid>, id: Uuid)
    ensures id in After(s, add, remove, |add| + |remove|) <==>
      (id in s.live || id in Came(s, add)) && id !in Went(s, add, remove)
  {
    hide After;
    AfterIs(s, add, remove, |add| + |remove|, id);
  }

  lemma OnlyOne<T>(s: set<T>, a: T, b: T)
    requires |s| <= 1 && a in s && b in s
    ensures a == b
  {
    assert |s - {a}| == |s| - 1;
    assert s - {a} == {};
  }

  lemma StepOther(s: State, add: seq<Member>, remove: seq<Uuid>, k: nat, id: Uuid)
    requires k <= |add| + |remove| && id !in Came(s, add) && id !in Went(s, add, remove)
    ensures id in After(s, add, remove, k) <==> id in s.live
  {
    hide After;
    AfterIs(s, add, remove, k, id);
  }

  lemma StepsOther(s: State, add: seq<Member>, remove: seq<Uuid>, k: nat, x: Uuid)
    requires k <= |add| + |remove| && |Came(s, add)| + |Went(s, add, remove)| <= 1
    requires Came(s, add) + Went(s, add, remove) <= {x}
    ensures forall id :: id != x ==> (id in After(s, add, remove, k) <==> id in s.live)
  {
    hide After, Came, Went;
    forall id | id != x ensures id in After(s, add, remove, k) <==> id in s.live {
      assert id !in Came(s, add) + Went(s, add, remove);
      StepOther(s, add, remove, k, id);
    }
  }

  lemma AtMost(s: State, add: seq<Member>, remove: seq<Uuid>, x: Uuid)
    requires |Came(s, add)| + |Went(s, add, remove)| <= 1
    requires x in Came(s, add) + Went(s, add, remove) || Came(s, add) + Went(s, add, remove) == {}
    ensures Came(s, add) + Went(s, add, remove) <= {x}
  {
    hide Came, Went;
    forall id | id in Came(s, add) + Went(s, add, remove) ensures id == x {
      if id in Came(s, add) && x in Came(s, add) { OnlyOne(Came(s, add), x, id); }
      if id in Went(s, add, remove) && x in Went(s, add, remove) { OnlyOne(Went(s, add, remove), x, id); }
      NotBoth(Came(s, add), Went(s, add, remove), id, x);
      NotBoth(Came(s, add), Went(s, add, remove), x, id);
    }
  }

  lemma NotBoth<T>(a: set<T>, b: set<T>, x: T, y: T)
    requires |a| + |b| <= 1
    ensures !(x in a && y in b)
  {
    if x in a {
      assert |a - {x}| == |a| - 1;
      assert b == {};
    }
  }

  /** One id at most comes or goes: each step shows it as it was or as it will be. */
  lemma OneChange(s: State, add: seq<Member>, remove: seq<Uuid>, k: nat)
    requires k <= |add| + |remove| && |Came(s, add)| + |Went(s, add, remove)| <= 1
    ensures After(s, add, remove, k) == s.live.Keys
      || After(s, add, remove, k) == After(s, add, remove, |add| + |remove|)
  {
    var n := |add| + |remove|;
    var now, all := After(s, add, remove, k), After(s, add, remove, n);
    var x: Uuid := seq(16, _ => 0);
    if y :| y in Came(s, add) + Went(s, add, remove) { x := y; }
    AtMost(s, add, remove, x);
    StepsOther(s, add, remove, k, x);
    StepsOther(s, add, remove, n, x);
    StepOne(s, add, remove, k, x);
    hide After, Came, Went;
    if (x in now) == (x in s.live) {
      assert now == s.live.Keys;
    } else {
      assert now == all;
    }
  }

  lemma StepOne(s: State, add: seq<Member>, remove: seq<Uuid>, k: nat, x: Uuid)
    requires k <= |add| + |remove| && |Came(s, add)| + |Went(s, add, remove)| <= 1
    ensures (x in After(s, add, remove, k)) == (x in s.live)
      || (x in After(s, add, remove, k)) == (x in After(s, add, remove, |add| + |remove|))
  {
    hide After;
    AfterIs(s, add, remove, k, x);
    AfterAll(s, add, remove, x);
    NotBoth(Came(s, add), Went(s, add, remove), x, x);
  }

  /** The first of some positions. */
  lemma {:induction false} FirstAt(n: nat, p: nat -> bool) returns (i: nat)
    requires exists j: nat :: j < n && p(j)
    ensures i < n && p(i) && forall j: nat :: j < i ==> !p(j)
  {
    i := 0;
    var found: nat :| found < n && p(found);
    while !p(i)
      invariant i <= found && forall j: nat :: j < i ==> !p(j)
      decreases found - i
    {
      i := i + 1;
    }
  }

  /** After the first new id a second one is still to come. */
  lemma TwoCome(s: State, add: seq<Member>, remove: seq<Uuid>) returns (k: nat)
    requires |Came(s, add)| > 1 && Went(s, add, remove) == {}
    ensures k <= |add| + |remove| && After(s, add, remove, k) != s.live.Keys
    ensures After(s, add, remove, k) != After(s, add, remove, |add| + |remove|)
  {
    hide After;
    var x :| x in Came(s, add);
    var isNew := (i: nat) => i < |add| && add[i].uuid !in s.live;
    var at: nat :| at < |add| && add[at].uuid == x;
    assert isNew(at);
    var i := FirstAt(|add|, isNew);
    var a := add[i].uuid;
    var rest := Came(s, add) - {a};
    assert |rest| >= |Came(s, add)| - 1;
    var b :| b in rest;
    k := i + 1;
    AfterIs(s, add, remove, k, a);
    AfterIs(s, add, remove, k, b);
    AfterAll(s, add, remove, b);
    forall m: nat | m < k ensures add[m].uuid != b {
      if m < i { assert !isNew(m); }
    }
    assert b !in After(s, add, remove, k) && b in After(s, add, remove, |add| + |remove|);
    assert a !in s.live && a in After(s, add, remove, k);
  }

  /** After the first id to go a second one is still there. */
  lemma TwoGo(s: State, add: seq<Member>, remove: seq<Uuid>) returns (k: nat)
    requires |Went(s, add, remove)| > 1 && Came(s, add) == {}
    ensures k <= |add| + |remove| && After(s, add, remove, k) != s.live.Keys
    ensures After(s, add, remove, k) != After(s, add, remove, |add| + |remove|)
  {
    hide After;
    var x :| x in Went(s, add, remove);
    var wasLive := (j: nat) => j < |remove| && remove[j] in s.live;
    var at: nat :| at < |remove| && remove[at] == x;
    assert wasLive(at);
    var j := FirstAt(|remove|, wasLive);
    var a := remove[j];
    var rest := Went(s, add, remove) - {a};
    assert |rest| >= |Went(s, add, remove)| - 1;
    var b :| b in rest;
    k := |add| + j + 1;
    AfterIs(s, add, remove, k, a);
    AfterIs(s, add, remove, k, b);
    AfterAll(s, add, remove, b);
    forall m: nat | m <= j ensures remove[m] != b {
      if m < j { assert !wasLive(m); }
    }
    assert b in After(s, add, remove, k) && b !in After(s, add, remove, |add| + |remove|);
    assert remove[j] == a && a !in After(s, add, remove, k);
  }

  /** Between the additions and the removals new and old stand together. */
  lemma ComeAndGo(s: State, add: seq<Member>, remove: seq<Uuid>)
    requires Came(s, add) != {} && Went(s, add, remove) != {}
    ensures After(s, add, remove, |add|) != s.live.Keys
    ensures After(s, add, remove, |add|) != After(s, add, remove, |add| + |remove|)
  {
    hide After;
    var a :| a in Came(s, add);
    var b :| b in Went(s, add, remove);
    AfterIs(s, add, remove, |add|, a);
    AfterIs(s, add, remove, |add|, b);
    AfterAll(s, add, remove, b);
  }

  /** A step that shows neither set, for every swap in which two ids or more come or go. */
  lemma TornShows(s: State, add: seq<Member>, remove: seq<Uuid>) returns (k: nat)
    requires |Came(s, add)| + |Went(s, add, remove)| > 1
    ensures k <= |add| + |remove| && After(s, add, remove, k) != s.live.Keys
    ensures After(s, add, remove, k) != After(s, add, remove, |add| + |remove|)
  {
    hide After, Came, Went;
    if Came(s, add) != {} && Went(s, add, remove) != {} {
      k := |add|;
      ComeAndGo(s, add, remove);
    } else if Came(s, add) == {} {
      k := TwoGo(s, add, remove);
    } else {
      k := TwoCome(s, add, remove);
    }
  }

  /** New outputs for live inputs, no id twice: every edit makes one id come or go. */
  lemma ProperChanges(s: State, add: seq<Member>, remove: seq<Uuid>)
    requires (forall i :: 0 <= i < |add| ==> add[i].uuid !in s.live)
    requires (forall j :: 0 <= j < |remove| ==> remove[j] in s.live)
    requires (forall i, j :: 0 <= i < j < |add| ==> add[i].uuid != add[j].uuid)
    requires (forall i, j :: 0 <= i < j < |remove| ==> remove[i] != remove[j])
    ensures |Came(s, add)| == |add| && |Went(s, add, remove)| == |remove|
  {
    var ids := seq(|add|, i requires 0 <= i < |add| => add[i].uuid);
    Distinct(ids);
    forall x ensures x in Came(s, add) <==> x in set x | x in ids {
      if x in Came(s, add) {
        var i: nat :| i < |add| && add[i].uuid == x;
        assert ids[i] == x;
      }
    }
    assert Came(s, add) == set x | x in ids;
    Distinct(remove);
    assert Went(s, add, remove) == set x | x in remove;
  }

  lemma {:induction false} Distinct<T>(xs: seq<T>)
    requires forall i, j :: 0 <= i < j < |xs| ==> xs[i] != xs[j]
    ensures |set x | x in xs| == |xs|
    decreases |xs|
  {
    if xs == [] {
      assert (set x | x in xs) == {};
    } else {
      var front, last := xs[..|xs| - 1], xs[|xs| - 1];
      Distinct(front);
      assert xs == front + [last];
      assert (set x | x in xs) == (set x | x in front) + {last};
    }
  }

  // ---- swaps cut at any byte

  /** The live set a reader finds in the history `es` and then the edits `sw`, cut. */
  ghost function Seen(es: seq<Edit>, sw: seq<Edit>, cut: nat, crc: Bytes -> nat): set<Uuid>
    requires cut <= |Log(es + sw, crc)|
  {
    match Replay(Log(es + sw, crc)[..cut], crc)
    case Replayed(s) => s.live.Keys
    case BadHeader => {}
  }

  /** The cut falls inside the bytes the swap appends, or at either end of them; the first edits
      of a log bring its header with them. */
  ghost predicate InSwap(es: seq<Edit>, sw: seq<Edit>, cut: nat, crc: Bytes -> nat) {
    (if es == [] then 0 else |Log(es, crc)|) <= cut <= |Log(es + sw, crc)|
  }

  lemma CutShows(es: seq<Edit>, sw: seq<Edit>, cut: nat, crc: Bytes -> nat) returns (k: nat)
    requires IsCrc(crc) && GoodEdits(es + sw) && InSwap(es, sw, cut, crc)
    ensures k <= |sw| && Seen(es, sw, cut, crc) == ApplyAll(ApplyAll(EMPTY, es), sw[..k]).live.Keys
  {
    var n := TruncatedReplay(es + sw, cut, crc);
    hide ApplyAll, Records, Replay, GoodEdit;
    if n < |es| {
      assert (es + sw)[..n + 1] == es[..n + 1];
      RecordsPrefix(es, n + 1, crc);
    }
    k := n - |es|;
    assert (es + sw)[..n] == es + sw[..k];
    ApplyJoin(EMPTY, es, sw[..k]);
  }

  lemma CutAfter(es: seq<Edit>, sw: seq<Edit>, k: nat, crc: Bytes -> nat) returns (cut: nat)
    requires IsCrc(crc) && GoodEdits(es + sw) && k <= |sw|
    ensures InSwap(es, sw, cut, crc)
    ensures Seen(es, sw, cut, crc) == ApplyAll(ApplyAll(EMPTY, es), sw[..k]).live.Keys
  {
    hide ApplyAll, Records, Replay, GoodEdit;
    var done := es + sw[..k];
    cut := |Log(done, crc)|;
    RecordsJoin(es, sw[..k], crc);
    RecordsJoin(done, sw[k..], crc);
    assert es + sw == done + sw[k..];
    assert Log(es + sw, crc)[..cut] == Log(done, crc);
    assert forall i :: 0 <= i < |done| ==> done[i] == (es + sw)[i];
    WholeReplay(done, crc);
    ApplyJoin(EMPTY, es, sw[..k]);
  }

  /** Main result on swaps: a log cut at any byte of a swap keeps all inputs or shows all
      outputs, exactly when no output takes an input's id or no input was live. */
  lemma TornSwap(es: seq<Edit>, add: seq<Member>, remove: seq<Uuid>, crc: Bytes -> nat)
    requires IsCrc(crc) && GoodEdits(es + SwapEdits(add, remove))
    ensures var sw, s := SwapEdits(add, remove), ApplyAll(EMPTY, es);
      (forall cut :: InSwap(es, sw, cut, crc) ==> Keeps(Seen(es, sw, cut, crc), s.live.Keys, add))
      <==> (Disjoint(add, remove) || forall j :: 0 <= j < |remove| ==> remove[j] !in s.live)
  {
    hide ApplyAll, Seen, Keeps, GoodEdits, Log;
    var sw, s := SwapEdits(add, remove), ApplyAll(EMPTY, es);
    var n := |add| + |remove|;
    if Disjoint(add, remove) || forall j :: 0 <= j < |remove| ==> remove[j] !in s.live {
      forall cut | InSwap(es, sw, cut, crc) ensures Keeps(Seen(es, sw, cut, crc), s.live.Keys, add) {
        var k := CutShows(es, sw, cut, crc);
        KeepsPart(s, add, remove, k);
      }
    } else {
      var j :| 0 <= j < |remove| && remove[j] in s.live;
      KeepsFails(s, add, remove, j);
      var cut := CutAfter(es, sw, n, crc);
    }
  }

  /** A swap is atomic, every cut of it showing the set before or the set after, exactly when no
      more than one id comes or goes. */
  lemma SwapAtomicIff(es: seq<Edit>, add: seq<Member>, remove: seq<Uuid>, crc: Bytes -> nat)
    requires IsCrc(crc) && GoodEdits(es + SwapEdits(add, remove))
    ensures var sw, s := SwapEdits(add, remove), ApplyAll(EMPTY, es);
      (forall cut :: InSwap(es, sw, cut, crc) ==>
        Seen(es, sw, cut, crc) == s.live.Keys || Seen(es, sw, cut, crc) == ApplyAll(s, sw).live.Keys)
      <==> |Came(s, add)| + |Went(s, add, remove)| <= 1
  {
    hide ApplyAll, Seen, GoodEdits, Came, Went, Log;
    var sw, s := SwapEdits(add, remove), ApplyAll(EMPTY, es);
    assert sw[..|sw|] == sw;
    if |Came(s, add)| + |Went(s, add, remove)| <= 1 {
      forall cut | InSwap(es, sw, cut, crc)
        ensures Seen(es, sw, cut, crc) == s.live.Keys || Seen(es, sw, cut, crc) == ApplyAll(s, sw).live.Keys
      {
        var k := CutShows(es, sw, cut, crc);
        OneChange(s, add, remove, k);
      }
    } else {
      var k := TornShows(s, add, remove);
      var cut := CutAfter(es, sw, k, crc);
    }
  }

  // ---- the catalogue as an object

  ghost predicate Keyed(live: Live) {
    forall id :: id in live ==> live[id].uuid == id && GoodEdit(Add(live[id]))
  }

  class Manifest {
    var log: Bytes
    var live: Live
    var added: nat
    var records: nat
    const crc: Bytes -> nat
    ghost var edits: seq<Edit>

    ghost function View(): State
      reads this
    {
      State(live, added, records)
    }

    /** The state in memory is what the edits made come to. */
    ghost predicate Valid()
      reads this
    {
      IsCrc(crc) && GoodEdits(edits) && Keyed(live) && View() == ApplyAll(EMPTY, edits)
    }

    /** The log holds those edits and no torn tail, so that replaying it, or any cut of it past
        them, gives the state back. */
    ghost predicate Durable()
      reads this
    {
      log == Log(edits, crc) || (log == [] && edits == [])
    }

    constructor (crc: Bytes -> nat)
      requires IsCrc(crc)
      ensures Valid() && Durable() && log == []
    {
      this.crc, log, live, added, records, edits := crc, [], map[], 0, 0, [];
    }

    /** `Open`: a log that ends in a tail from which no record is read. */
    constructor Open(log: Bytes, crc: Bytes -> nat, ghost es: seq<Edit>, ghost left: Bytes)
      requires IsCrc(crc) && GoodEdits(es) && log == Log(es, crc) + left && ReadRecord(left, crc).Stop?
      ensures Valid() && edits == es && this.log == log && (Durable() <==> left == [])
      ensures Replay(log, crc) == Replayed(View())
    {
      var got := Replay(log, crc);
      LogReplay(es, left, crc);
      ReplayGrows(ApplyAll(EMPTY, es), left, crc);
      EditsKeyed(es);
      this.crc, this.log, live, added, records, edits :=
        crc, log, got.state.live, got.state.added, got.state.records, es;
      new;
      hide ApplyAll, Replay, Keyed, GoodEdits;
      assert Log(es, crc) + [] == Log(es, crc);
    }

    method ApplyEdit(e: Edit)
      modifies this`live, this`added, this`records
      ensures View() == Apply(old(View()), e)
    {
      records := records + 1;
      match e
      case Add(m) =>
        live := live[m.uuid := m];
        added := added + 1;
      case Remove(id) => live := live - {id};
      case SetTier(id, tier) =>
        if id in live {
          live := live[id := live[id].(tier := tier)];
        }
    }

    /** `append`: one write of the batch, whatever the log ends in, then the same edits in memory.
        What replay makes of a torn tail before them is `TornAppend`. */
    method Append(es: seq<Edit>)
      requires Valid() && GoodEdits(es)
      modifies this
      ensures Valid() && edits == old(edits) + es && View() == ApplyAll(old(View()), es)
      ensures log == (if old(log) == [] then MAGIC else old(log)) + Records(es, crc)
      ensures old(Durable()) ==> Durable() && log == Log(edits, crc)
    {
      hide GoodEdit, ApplyAll, Records, Apply;
      if |log| == 0 {
        log := MAGIC;
      }
      var buf := EncodeEdits(es, crc);
      RecordsJoin(edits, es, crc);
      ghost var was, before, all := View(), edits, edits + es;
      NoRecords(crc);
      Join3(MAGIC, Records(edits, crc), buf);
      assert MAGIC + [] == MAGIC;
      log := log + buf;
      ghost var written := log;
      var i := 0;
      assert es[..0] == [];
      NoApply(was);
      while i < |es|
        invariant 0 <= i <= |es| && View() == ApplyAll(was, es[..i]) && Keyed(live)
        invariant log == written && edits == before
      {
        ApplySnoc(was, es[..i], es[i]);
        assert es[..i + 1] == es[..i] + [es[i]];
        KeyedStep(View(), es[i]);
        ApplyEdit(es[i]);
        i := i + 1;
      }
      assert es[..i] == es;
      ApplyJoin(EMPTY, edits, es);
      edits := all;
    }

    /** `Swap`. */
    method Swap(add: seq<Member>, remove: seq<Uuid>)
      requires Valid() && GoodEdits(SwapEdits(add, remove))
      modifies this
      ensures Valid() && View() == ApplyAll(old(View()), SwapEdits(add, remove)) && (old(Durable()) ==> Durable())
    {
      Append(SwapEdits(add, remove));
    }

    /** `Compact`: a fresh log of the live members alone. Replaying it gives them back, whatever
        the old log ended in. */
    method Compact()
      requires Valid()
      modifies this
      ensures Valid() && Durable() && live == old(live) && records == |live| && added == |live|
      ensures Replay(log, crc) == Replayed(State(live, |live|, |live|))
    {
      hide GoodEdit, Records;
      var es := ListLive(live);
      var buf := EncodeEdits(es, crc);
      log := MAGIC + buf;
      added, records := |live|, |live|;
      edits := es;
      WholeReplay(es, crc);
    }
  }

  lemma {:induction false} EditsKeyed(es: seq<Edit>)
    requires GoodEdits(es)
    ensures Keyed(ApplyAll(EMPTY, es).live)
  {
    hide GoodEdit, ApplyAll;
    if es == [] {
      NoApply(EMPTY);
    } else {
      var front, last := es[..|es| - 1], es[|es| - 1];
      EditsKeyed(front);
      ApplySnoc(EMPTY, front, last);
      assert es == front + [last];
      KeyedStep(ApplyAll(EMPTY, front), last);
    }
  }

  lemma NoRecords(crc: Bytes -> nat)
    ensures Records([], crc) == []
  {
  }

  lemma NoApply(s: State)
    ensures ApplyAll(s, []) == s
  {
  }

  /** A tier change leaves a member's size as it was. */
  lemma TierSize(m: Member, tier: Byte)
    ensures |EncodeMember(m.(tier := tier))| == |EncodeMember(m)|
    ensures GoodMember(m) ==> GoodMember(m.(tier := tier))
  {
    hide Many, Str, Le4, Encode, ZoneBytes;
  }

  lemma KeyedStep(s: State, e: Edit)
    requires Keyed(s.live) && GoodEdit(e)
    ensures Keyed(Apply(s, e).live)
  {
    hide EncodeMember, GoodMember;
    if e.SetTier? && e.id in s.live {
      TierSize(s.live[e.id], e.tier);
    }
  }

  method EncodeEdits(es: seq<Edit>, crc: Bytes -> nat) returns (buf: Bytes)
    ensures buf == Records(es, crc)
  {
    hide RecordBytes;
    buf := [];
    var i := 0;
    assert es[0..] == es;
    while i < |es|
      invariant 0 <= i <= |es| && buf + Records(es[i..], crc) == Records(es, crc)
    {
      assert es[i..][1..] == es[i + 1..];
      Join3(buf, RecordBytes(RecordOf(es[i]), crc), Records(es[i + 1..], crc));
      buf := buf + RecordBytes(RecordOf(es[i]), crc);
      i := i + 1;
    }
    assert es[i..] == [];
  }

  /** One ADD per live member, in some order. */
  method ListLive(live: Live) returns (es: seq<Edit>)
    requires Keyed(live)
    ensures GoodEdits(es) && ApplyAll(EMPTY, es) == State(live, |live|, |live|)
  {
    hide GoodEdit, ApplyAll;
    es := [];
    NoApply(EMPTY);
    var left := live.Keys;
    ghost var done: Live := map[];
    while left != {}
      invariant left <= live.Keys && GoodEdits(es)
      invariant done == map id | id in live && id !in left :: live[id]
      invariant |es| == |live| - |left| && ApplyAll(EMPTY, es) == State(done, |es|, |es|)
      decreases |left|
    {
      var id :| id in left;
      ApplySnoc(EMPTY, es, Add(live[id]));
      es := es + [Add(live[id])];
      left := left - {id};
      done := done[id := live[id]];
    }
  }
}
