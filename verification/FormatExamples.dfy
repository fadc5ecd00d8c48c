/** Byte strings worked out by hand, one for each format: what the layouts are, beyond that they read
    back. */
module FormatExamples {
  import opened Digits
  import Varint
  import BitPack
  import GroupVarint
  import PForDelta
  import Postings
  import IntCodec
  import ManifestCodec
  import TermLists
  import InvertedFile
  import BlockTree
  import ExternalMerge

  lemma Packed()
    ensures BitPack.Pack([1, 2, 3], 4) == [0x21, 0x03]
  {
    assert Pow(2, 4) == 16 by { assert Pow(2, 2) == 4; }
    assert FromDigits([1, 2, 3], 16) == 0x321 by {
      assert FromDigits([3], 16) == 3 && FromDigits([2, 3], 16) == 0x32;
    }
    Two(0x321, 0x21, 3);
  }

  lemma Two(n: nat, a: nat, b: nat)
    requires n == a + 256 * b && a < 256 && b < 256
    ensures ToDigits(n, 256, 2) == [a, b]
  {
    DivModUnique(b, a, 256);
    DivModUnique(0, b, 256);
  }

  lemma One(n: nat)
    requires n < 256
    ensures ToDigits(n, 256, 1) == [n]
  {
    DivModUnique(0, n, 256);
  }

  lemma GroupVarints()
    ensures GroupVarint.Encode([1, 300]) == [0x04, 1, 0x2C, 0x01]
  {
    var vs := [1, 300];
    One(1);
    Two(300, 0x2C, 1);
    assert vs[..2] == vs && vs[2..] == [] && vs[1..] == [300] && vs[1..][1..] == [];
    assert GroupVarint.Control([300]) == 1 && GroupVarint.Control(vs) == 4;
    assert GroupVarint.Bodies([300]) == [0x2C, 0x01];
    assert GroupVarint.Bodies(vs) == [1] + [0x2C, 0x01];
  }

  lemma PackedBits2(a: nat, b: nat, c: nat)
    requires a < 4 && b < 4 && c < 4
    ensures BitPack.Pack([a, b, c], 2) == [a + 4 * b + 16 * c]
  {
    assert Pow(2, 2) == 4;
    assert FromDigits([a, b, c], 4) == a + 4 * b + 16 * c by {
      assert [a, b, c][1..] == [b, c] && [b, c][1..] == [c];
      assert FromDigits([c], 4) == c && FromDigits([b, c], 4) == b + 4 * c;
    }
    One(a + 4 * b + 16 * c);
  }

  /** Two low bits. */
  lemma LowBits()
    ensures Pow(2, 2) == 4 && Rem(1, 4) == 1 && Rem(2, 4) == 2 && Rem(200, 4) == 0
  {
    DivModUnique(50, 0, 4);
    DivModUnique(0, 1, 4);
    DivModUnique(0, 2, 4);
  }

  lemma PatchedLow()
    ensures PForDelta.Low([1, 2, 200], 2) == [1, 2, 0]
  {
    LowBits();
    assert [1, 2, 200][1..] == [2, 200] && [2, 200][1..] == [200] && [200][1..] == [];
    assert PForDelta.Low([], 2) == [];
    PForDelta.LowHead([1, 2, 200], 2);
    PForDelta.LowHead([2, 200], 2);
    PForDelta.LowHead([200], 2);
    hide PForDelta.Low, Pow, Rem;
  }

  lemma PatchedHigh()
    ensures PForDelta.Patches([1, 2, 200], 2, 0) == [(2, 200)]
  {
    LowBits();
    hide Pow;
    assert [1, 2, 200][1..] == [2, 200] && [2, 200][1..] == [200] && [200][1..] == [];
    assert PForDelta.Patches([], 2, 3) == [];
    PForDelta.PatchesHead([1, 2, 200], 2, 0);
    PForDelta.PatchesHead([2, 200], 2, 1);
    PForDelta.PatchesHead([200], 2, 2);
    hide PForDelta.Patches;
  }

  /** One exception at position 2, its two-byte varint, and the low bits. */
  lemma Patched()
    ensures PForDelta.EncodeAt([1, 2, 200], 2) == [2, 1, 2, 0xC8, 1, 0x09]
  {
    PatchedLow();
    PatchedHigh();
    assert Varint.Encode(200) == [0xC8, 1];
    PackedBits2(1, 2, 0);
    hide PForDelta.Low, PForDelta.Patches, BitPack.Pack, Varint.Encode;
    assert [(2, 200)][1..] == [];
    assert PForDelta.EncodePatches([(2, 200)]) == [2, 0xC8, 1];
  }

  lemma Range()
    ensures IntCodec.MinOf([10, 12, 11], false) == 10 && IntCodec.MaxOf([10, 12, 11], false) == 12
  {
    var vs := [10, 12, 11];
    assert vs[1..] == [12, 11] && [12, 11][1..] == [11];
    assert IntCodec.MinOf([11], false) == 11 && IntCodec.MaxOf([11], false) == 11;
    assert IntCodec.MinOf(vs[1..], false) == 11 && IntCodec.MaxOf(vs[1..], false) == 12;
  }

  lemma Offsets()
    ensures IntCodec.Width([10, 12, 11], false) == 2 && IntCodec.Residuals([10, 12, 11], 10) == [0, 2, 1]
  {
    Range();
    assert Postings.MinWidth(2) == 2;
    hide IntCodec.MinOf, IntCodec.MaxOf, Postings.MinWidth;
  }

  lemma FrameOfReference()
    ensures IntCodec.EncodeFor([10, 12, 11], false) == [2, 10, 0x18]
  {
    Range();
    Offsets();
    PackedBits2(0, 2, 1);
    assert Varint.Encode(10) == [10];
    hide IntCodec.MinOf, IntCodec.MaxOf, BitPack.Pack, IntCodec.Width, IntCodec.Residuals, Varint.Encode;
    assert [10] + [0x18] == [10, 0x18] && [2] + [10, 0x18] == [2, 10, 0x18];
  }

  lemma Deltas()
    ensures IntCodec.EncodeDelta([5, 4]) == [5, 1, 1, 0]
  {
    IntCodec.ZigzagIs(-1);
    assert [5, 4][1..] == [4];
    assert IntCodec.Deltas([5, 4]) == [1];
    assert IntCodec.Residuals([1], 1) == [0];
    assert Pow(2, 1) == 2 && FromDigits([0], 2) == 0;
    One(0);
  }

  lemma RunGroups(vs: seq<nat>)
    requires vs == IntCodec.Copies(7, 8)
    ensures IntCodec.Groups(vs, 3) == [17, 7]
  {
    IntCodec.RunWhole(vs);
    hide IntCodec.RunLen;
    assert IntCodec.RunLen(vs) == 8 && vs[8..] == [];
    assert Pow(2, 3) == 8 by { assert Pow(2, 2) == 4; }
    assert FromDigits([7], 8) == 7;
    One(7);
    assert BitPack.Pack([7], 3) == [7];
    hide BitPack.Pack;
    assert IntCodec.Groups([], 3) == [];
  }

  lemma LiteralGroups(vs: seq<nat>)
    requires vs == [1, 2, 1]
    ensures IntCodec.Groups(vs, 2) == [6, 0x19]
  {
    assert vs[0..] == vs && vs[1..] == [2, 1] && vs[2..] == [1] && [2, 1][1..] == [1] && [1][1..] == [];
    assert IntCodec.RunLen(vs) == 1 && IntCodec.RunLen([2, 1]) == 1 && IntCodec.RunLen([1]) == 1;
    hide IntCodec.RunLen;
    assert IntCodec.LiteralLen([1]) == 1 && IntCodec.LiteralLen([2, 1]) == 2 && IntCodec.LiteralLen(vs) == 3;
    hide IntCodec.LiteralLen;
    PackedBits2(1, 2, 1);
    hide BitPack.Pack;
    assert vs[..3] == vs && vs[3..] == [] && IntCodec.Groups([], 2) == [];
  }

  lemma MaxIs(vs: seq<nat>, m: nat)
    requires vs != [] && m in vs && forall i :: 0 <= i < |vs| ==> vs[i] <= m
    ensures IntCodec.MaxOf(vs, false) == m
  {
    IntCodec.Extremes(vs, false);
    hide IntCodec.MaxOf, IntCodec.MinOf;
  }

  lemma RleIs(vs: seq<nat>, m: nat, w: nat)
    requires vs != [] && m in vs && (forall i :: 0 <= i < |vs| ==> vs[i] <= m) && Postings.MinWidth(m) == w < 256
    ensures IntCodec.EncodeRle(vs) == [w] + IntCodec.Groups(vs, w)
  {
    hide IntCodec.Groups, IntCodec.MaxOf, Postings.MinWidth;
    MaxIs(vs, m);
  }

  /** The widths of 7 and of 2. */
  lemma Widths()
    ensures Postings.MinWidth(7) == 3 && Postings.MinWidth(2) == 2
  {
  }

  /** A run of eight: its length and kind, then its value. */
  lemma Run()
    ensures IntCodec.EncodeRle(IntCodec.Copies(7, 8)) == [3, 17, 7]
  {
    hide IntCodec.Groups, IntCodec.EncodeRle, Postings.MinWidth;
    var vs := IntCodec.Copies(7, 8);
    RunGroups(vs);
    Widths();
    assert vs[0] == 7;
    hide IntCodec.Copies;
    RleIs(vs, 7, 3);
  }

  /** Three literals: how many, then their values. */
  lemma Literals()
    ensures IntCodec.EncodeRle([1, 2, 1]) == [2, 6, 0x19]
  {
    hide IntCodec.Groups, IntCodec.EncodeRle, Postings.MinWidth;
    var vs := [1, 2, 1];
    LiteralGroups(vs);
    Widths();
    assert vs[1] == 2;
    RleIs(vs, 2, 2);
  }

  lemma Record()
    ensures ManifestCodec.RecordBytes(ManifestCodec.Record(2, [9]), _ => 0x0403_0201) == [2, 1, 9, 1, 2, 3, 4]
  {
  }

  const ZONE := ManifestCodec.ZoneBound([99], 7, [8], [9])
  const MEMBER := ManifestCodec.Member([97], seq(16, _ => 1), 2, 3, [98], 4, [5], [6], [ZONE], 10, [[100]], 11, 12)

  lemma MemberParts()
    ensures ManifestCodec.HeadBytes(MEMBER) == [1, 97] + MEMBER.uuid + [2, 3]
    ensures ManifestCodec.ZoneBytes(ManifestCodec.SortZone(MEMBER)) == [1, 98, 4, 1, 5, 1, 6]
    ensures ManifestCodec.ZoneBytes(ZONE) == [1, 99, 7, 1, 8, 1, 9] && ManifestCodec.Str([100]) == [1, 100]
    ensures ManifestCodec.Le4(12) == [12, 0, 0, 0]
  {
  }

  lemma MemberLists()
    ensures ManifestCodec.Many(MEMBER.zones, ManifestCodec.ZoneBytes) == ManifestCodec.ZoneBytes(ZONE)
    ensures ManifestCodec.Many(MEMBER.crawls, ManifestCodec.Str) == ManifestCodec.Str([100])
  {
    hide ManifestCodec.ZoneBytes, ManifestCodec.Str;
    assert [ZONE][1..] == [] && [[100]][1..] == [];
  }

  /** A member's fields in order, each string and list behind its length. */
  lemma Member()
    ensures ManifestCodec.EncodeMember(MEMBER)
      == [1, 97] + MEMBER.uuid + [2, 3] + [1, 98, 4, 1, 5, 1, 6] + [1, 1, 99, 7, 1, 8, 1, 9] + [10] + [1, 1, 100]
        + [11, 12, 0, 0, 0]
  {
    MemberParts();
    MemberLists();
    assert Varint.Encode(1) == [1] && Varint.Encode(11) == [11];
    hide ManifestCodec.HeadBytes, ManifestCodec.ZoneBytes, ManifestCodec.Str, ManifestCodec.Many, ManifestCodec.Le4,
      ManifestCodec.SortZone, Varint.Encode;
  }

  lemma OneGap()
    ensures GroupVarint.Encode([2]) == [0, 2]
  {
    One(2);
    assert [2][..1] == [2] && [2][1..] == [];
    assert GroupVarint.Control([2]) == 0 && GroupVarint.Bodies([2]) == [2];
    hide GroupVarint.Control, GroupVarint.Bodies;
    assert GroupVarint.Encode([]) == [];
  }

  /** The gap behind its control byte, then the frequencies. */
  lemma BlockPayload()
    ensures Postings.Payload([Postings.Posting(3, 1), Postings.Posting(5, 2)]) == [0, 2] + PForDelta.Encode([1, 2])
  {
    var ps := [Postings.Posting(3, 1), Postings.Posting(5, 2)];
    OneGap();
    hide PForDelta.Encode, GroupVarint.Encode;
    assert Postings.Docs(ps) == [3, 5] && Postings.Freqs(ps) == [1, 2] && Postings.Gaps([3, 5]) == [2];
  }

  lemma OneBlock()
    ensures InvertedFile.Flat([Postings.Block(3, 9, 5, 0, 7)]) == [3, 9, 5, 0, 7]
  {
    var b := Postings.Block(3, 9, 5, 0, 7);
    assert [b][..0] == [];
    assert InvertedFile.Flat([]) == [];
  }

  /** A list of seven with one block: its length, the number of blocks, and the five numbers of the block. */
  lemma Skips()
    ensures InvertedFile.SkipRecord(Postings.List([], [Postings.Block(3, 9, 5, 0, 7)], 7)) == [7, 1, 3, 9, 5, 0, 7]
    ensures InvertedFile.PayloadRecord(Postings.List([8, 8], [], 0)) == [2, 8, 8]
  {
    OneBlock();
    hide InvertedFile.Flat;
    Small([7, 1, 3, 9, 5, 0, 7]);
    assert Varint.Encode(2) == [2];
    hide InvertedFile.EncodeMany, Varint.Encode;
    assert [7, 1] + [3, 9, 5, 0, 7] == [7, 1, 3, 9, 5, 0, 7];
  }

  lemma {:induction false} Small(vs: seq<nat>)
    requires forall i :: 0 <= i < |vs| ==> vs[i] < 128
    ensures InvertedFile.EncodeMany(vs) == vs
  {
    if vs != [] { Small(vs[1..]); }
  }

  /** A spilled group: the term behind its length, the number of postings, and for each the gap from the
      one before and its frequency. */
  lemma Spilled()
    ensures ExternalMerge.EncodeGroup(TermLists.Group([97, 98], [Postings.Posting(3, 1), Postings.Posting(5, 2)]))
      == [2, 97, 98, 2, 3, 1, 2, 2]
  {
    var ps := [Postings.Posting(3, 1), Postings.Posting(5, 2)];
    assert ps[1..] == [Postings.Posting(5, 2)] && ps[1..][1..] == [];
    assert ExternalMerge.EncodePs(ps[1..], 3) == [2, 2];
    assert ExternalMerge.EncodePs(ps, 0) == [3, 1, 2, 2];
  }

  /** After `ab`: one shared byte, one more, and that; then the entry, a single posting or a list. */
  lemma Terms()
    ensures BlockTree.TermBytes([97, 98], InvertedFile.DictTerm([97, 99], InvertedFile.Single(5, 2)))
      == [1, 1, 99, 1, 1, 5, 2]
    ensures BlockTree.EntryBytes(InvertedFile.Listed(4, 6)) == [4, 0, 6]
  {
    assert BlockTree.CommonPrefix([97, 98], [97, 99]) == 1;
    assert [97, 99][1..] == [99];
    Small([1, 1]);
    Small([1]);
    Small([5, 2]);
    Small([4]);
    Small([6]);
    hide InvertedFile.EncodeMany;
    assert BlockTree.EntryBytes(InvertedFile.Single(5, 2)) == [1, 1, 5, 2];
  }

  const TERM := InvertedFile.DictTerm([97], InvertedFile.Listed(4, 6))

  /** A codec that stores. */
  function Stored(): BlockTree.Codec {
    BlockTree.Codec(b => b, b => Varint.Parsed(b, []))
  }

  lemma TreeBlock()
    ensures BlockTree.RawOf([TERM], []) == [0, 1, 97, 4, 0, 6]
  {
    Terms();
    Small([0, 1]);
    hide InvertedFile.EncodeMany, BlockTree.EntryBytes;
    assert [97][0..] == [97] && [TERM][1..] == [] && BlockTree.CommonPrefix([], [97]) == 0;
    assert BlockTree.TermBytes([], TERM) == [0, 1, 97, 4, 0, 6];
    hide BlockTree.TermBytes;
    assert BlockTree.RawOf([], TERM.term) == [];
  }

  lemma TreeIndex()
    ensures BlockTree.IndexBytes([BlockTree.Rec([97], 0, 6, 6)]) == [1, 97, 0, 6, 6]
  {
    var r := BlockTree.Rec([97], 0, 6, 6);
    Small([1]);
    Small([0, 6, 6]);
    hide InvertedFile.EncodeMany;
    assert BlockTree.RecBytes(r) == [1, 97, 0, 6, 6];
    hide BlockTree.RecBytes;
    assert BlockTree.IndexBytes([]) == [] && [r][1..] == [];
  }

  lemma TreeParts()
    ensures BlockTree.Chunk([TERM], 64) == [[TERM]]
    ensures BlockTree.BlockBytes([[TERM]], Stored()) == [0, 1, 97, 4, 0, 6]
    ensures BlockTree.Recs([[TERM]], 0, Stored()) == [BlockTree.Rec([97], 0, 6, 6)]
  {
    TreeBlock();
    hide BlockTree.RawOf;
    assert BlockTree.Comp([TERM], Stored()) == [0, 1, 97, 4, 0, 6];
    hide BlockTree.Comp;
    assert [TERM][1..] == [] && [[TERM]][1..] == [];
    assert BlockTree.BlockBytes([], Stored()) == [] && BlockTree.Recs([], 6, Stored()) == [];
  }

  /** A tree of one term, stored without compression: version; block size, terms, blocks and the length
      of the index; the first term and where its block stands; the block. */
  lemma Tree()
    ensures BlockTree.TreeBytes([TERM], 64, Stored())
      == [2] + [64, 1, 1, 5] + [1, 97, 0, 6, 6] + [0, 1, 97, 4, 0, 6]
  {
    TreeParts();
    TreeIndex();
    Small([64, 1, 1, 5]);
    hide InvertedFile.EncodeMany, BlockTree.Chunk, BlockTree.BlockBytes, BlockTree.Recs, BlockTree.IndexBytes;
  }
}
