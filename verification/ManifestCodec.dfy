/** The bytes of a collection catalogue (manifest/manifest.go): member bodies and framed edit
    records, and what a reader makes of a record cut short. */
module ManifestCodec {
  import opened Digits
  import opened Varint

  // ---- primitive fields

  function Str(s: Bytes): Bytes {
    Encode(|s|) + s
  }

  function DecStr(src: Bytes): Parsed<Bytes> {
    match Decode(src)
    case Short => Short
    case Parsed(n, rest) => if |rest| < n then Short else Parsed(rest[..n], rest[n..])
  }

  function DecFixed(src: Bytes, n: nat): Parsed<Bytes> {
    if |src| < n then Short else Parsed(src[..n], src[n..])
  }

  function DecByte(src: Bytes): Parsed<Byte> {
    if src == [] then Short else Parsed(src[0], src[1..])
  }

  /** Four bytes, low first. */
  function Le4(x: nat): Bytes {
    var x1: nat := x / 256;
    var x2: nat := x1 / 256;
    [x % 256, x1 % 256, x2 % 256, x2 / 256 % 256]
  }

  function FromLe4(b: Bytes): nat
    requires |b| == 4
  {
    b[0] as int + 256 * (b[1] as int + 256 * (b[2] as int + 256 * (b[3] as int)))
  }

  lemma Le4RoundTrip(x: nat)
    requires x < U32
    ensures FromLe4(Le4(x)) == x
  {
    var x1: nat := x / 256;
    var x2: nat := x1 / 256;
    assert x == x % 256 + 256 * x1;
    assert x1 == x1 % 256 + 256 * x2;
    assert x2 == x2 % 256 + 256 * (x2 / 256);
    assert x2 / 256 < 256;
  }

  lemma Join3(a: Bytes, b: Bytes, c: Bytes)
    ensures (a + b) + c == a + (b + c)
  {
  }

  lemma StrRoundTrip(s: Bytes, rest: Bytes)
    requires |s| < U64
    ensures DecStr(Str(s) + rest) == Parsed(s, rest)
  {
    hide Encode, Decode;
    Join3(Encode(|s|), s, rest);
    RoundTrip(|s|, s + rest);
    assert (s + rest)[..|s|] == s && (s + rest)[|s|..] == rest;
  }

  lemma FixedRoundTrip(b: Bytes, rest: Bytes)
    ensures DecFixed(b + rest, |b|) == Parsed(b, rest)
  {
    assert (b + rest)[..|b|] == b && (b + rest)[|b|..] == rest;
  }

  lemma ByteRoundTrip(b: Byte, rest: Bytes)
    ensures DecByte([b] + rest) == Parsed(b, rest)
  {
    assert ([b] + rest)[1..] == rest;
  }

  // ---- members

  type Uuid = b: Bytes | |b| == 16 witness seq(16, _ => 0)

  datatype ZoneBound = ZoneBound(column: Bytes, ty: Byte, min: Bytes, max: Bytes)

  datatype Member = Member(filePath: Bytes, uuid: Uuid, rowCount: nat, byteSize: nat, sortColumn: Bytes, sortType: Byte,
                           sortMin: Bytes, sortMax: Bytes, zones: seq<ZoneBound>, tier: Byte, crawls: seq<Bytes>,
                           created: nat, footerCrc: nat)

  predicate GoodZone(z: ZoneBound) {
    |z.column| < U64 && |z.min| < U64 && |z.max| < U64
  }

  /** The fields fit their widths. */
  ghost predicate GoodMember(m: Member) {
    && |m.filePath| < U64 && m.rowCount < U64 && m.byteSize < U64 && |m.sortColumn| < U64
    && |m.sortMin| < U64 && |m.sortMax| < U64 && |m.zones| < U64 && |m.crawls| < U64
    && m.created < U64 && m.footerCrc < U32
    && (forall i :: 0 <= i < |m.zones| ==> GoodZone(m.zones[i]))
    && (forall i :: 0 <= i < |m.crawls| ==> |m.crawls[i]| < U64)
  }

  function ZoneBytes(z: ZoneBound): Bytes {
    Str(z.column) + ([z.ty] + (Str(z.min) + Str(z.max)))
  }

  function DecZone(src: Bytes): Parsed<ZoneBound> {
    match DecStr(src)
    case Short => Short
    case Parsed(column, s1) =>
      match DecByte(s1)
      case Short => Short
      case Parsed(ty, s2) =>
        match DecStr(s2)
        case Short => Short
        case Parsed(lo, s3) =>
          match DecStr(s3)
          case Short => Short
          case Parsed(hi, rest) => Parsed(ZoneBound(column, ty, lo, hi), rest)
  }

  lemma ZoneRoundTrip(z: ZoneBound, rest: Bytes)
    requires GoodZone(z)
    ensures DecZone(ZoneBytes(z) + rest) == Parsed(z, rest)
  {
    hide Str, DecStr, DecByte;
    var tail := Str(z.min) + Str(z.max);
    Join3(Str(z.column), [z.ty] + tail, rest);
    Join3([z.ty], tail, rest);
    Join3(Str(z.min), Str(z.max), rest);
    StrRoundTrip(z.column, [z.ty] + (tail + rest));
    ByteRoundTrip(z.ty, tail + rest);
    StrRoundTrip(z.min, Str(z.max) + rest);
    StrRoundTrip(z.max, rest);
  }

  /** A counted list of fields. */
  function Many<T>(xs: seq<T>, enc: T -> Bytes): Bytes {
    if xs == [] then [] else enc(xs[0]) + Many(xs[1..], enc)
  }

  function DecMany<T>(src: Bytes, n: nat, dec: Bytes -> Parsed<T>): Parsed<seq<T>>
    decreases n
  {
    if n == 0 then Parsed([], src) else
      match dec(src)
      case Short => Short
      case Parsed(x, s1) =>
        match DecMany(s1, n - 1, dec)
        case Short => Short
        case Parsed(xs, rest) => Parsed([x] + xs, rest)
  }

  lemma {:induction false} ManyRoundTrip<T>(xs: seq<T>, enc: T -> Bytes, dec: Bytes -> Parsed<T>, rest: Bytes)
    requires forall i, r :: 0 <= i < |xs| ==> dec(enc(xs[i]) + r) == Parsed(xs[i], r)
    ensures DecMany(Many(xs, enc) + rest, |xs|, dec) == Parsed(xs, rest)
    decreases |xs|
  {
    if xs == [] {
      assert Many(xs, enc) + rest == rest;
    } else {
      Join3(enc(xs[0]), Many(xs[1..], enc), rest);
      assert dec(enc(xs[0]) + (Many(xs[1..], enc) + rest)) == Parsed(xs[0], Many(xs[1..], enc) + rest);
      forall i, r | 0 <= i < |xs| - 1 ensures dec(enc(xs[1..][i]) + r) == Parsed(xs[1..][i], r) {
        assert xs[1..][i] == xs[i + 1];
      }
      ManyRoundTrip(xs[1..], enc, dec, rest);
      assert xs == [xs[0]] + xs[1..];
    }
  }

  function HeadBytes(m: Member): Bytes {
    Str(m.filePath) + (m.uuid + (Encode(m.rowCount) + Encode(m.byteSize)))
  }

  function DecHead(src: Bytes): Parsed<(Bytes, Uuid, nat, nat)> {
    match DecStr(src)
    case Short => Short
    case Parsed(path, s1) =>
      match DecFixed(s1, 16)
      case Short => Short
      case Parsed(id, s2) =>
        match Decode(s2)
        case Short => Short
        case Parsed(rows, s3) =>
          match Decode(s3)
          case Short => Short
          case Parsed(size, rest) => Parsed((path, id, rows, size), rest)
  }

  lemma HeadRoundTrip(m: Member, rest: Bytes)
    requires GoodMember(m)
    ensures DecHead(HeadBytes(m) + rest) == Parsed((m.filePath, m.uuid, m.rowCount, m.byteSize), rest)
  {
    hide Str, DecStr, DecFixed, Encode, Decode;
    var tail := Encode(m.rowCount) + Encode(m.byteSize);
    Join3(Str(m.filePath), m.uuid + tail, rest);
    Join3(m.uuid, tail, rest);
    Join3(Encode(m.rowCount), Encode(m.byteSize), rest);
    StrRoundTrip(m.filePath, m.uuid + (tail + rest));
    FixedRoundTrip(m.uuid, tail + rest);
    RoundTrip(m.rowCount, Encode(m.byteSize) + rest);
    RoundTrip(m.byteSize, rest);
  }

  function SortZone(m: Member): ZoneBound {
    ZoneBound(m.sortColumn, m.sortType, m.sortMin, m.sortMax)
  }

  function EncodeMember(m: Member): Bytes {
    HeadBytes(m) + (ZoneBytes(SortZone(m)) + (Encode(|m.zones|) + (Many(m.zones, ZoneBytes)
    + ([m.tier] + (Encode(|m.crawls|) + (Many(m.crawls, Str) + (Encode(m.created) + Le4(m.footerCrc))))))))
  }

  function DecodeMember(body: Bytes): Parsed<Member> {
    match DecHead(body)
    case Short => Short
    case Parsed(h, s1) =>
      match DecZone(s1)
      case Short => Short
      case Parsed(sort, s2) =>
        match Decode(s2)
        case Short => Short
        case Parsed(nz, s3) =>
          match DecMany(s3, nz, DecZone)
          case Short => Short
          case Parsed(zones, s4) => DecodeTail(h, sort, zones, s4)
  }

  function DecodeTail(h: (Bytes, Uuid, nat, nat), sort: ZoneBound, zones: seq<ZoneBound>, src: Bytes): Parsed<Member> {
    match DecByte(src)
    case Short => Short
    case Parsed(tier, s1) =>
      match Decode(s1)
      case Short => Short
      case Parsed(nc, s2) =>
        match DecMany(s2, nc, DecStr)
        case Short => Short
        case Parsed(crawls, s3) =>
          match Decode(s3)
          case Short => Short
          case Parsed(created, s4) =>
            match DecFixed(s4, 4)
            case Short => Short
            case Parsed(crc, rest) =>
              Parsed(Member(h.0, h.1, h.2, h.3, sort.column, sort.ty, sort.min, sort.max, zones, tier, crawls, created,
                            FromLe4(crc)), rest)
  }

  lemma TailRoundTrip(m: Member)
    requires GoodMember(m)
    ensures DecodeTail((m.filePath, m.uuid, m.rowCount, m.byteSize), SortZone(m), m.zones,
                       [m.tier] + (Encode(|m.crawls|) + (Many(m.crawls, Str) + (Encode(m.created) + Le4(m.footerCrc)))))
            == Parsed(m, [])
  {
    hide Str, DecStr, DecFixed, DecByte, Encode, Decode, Many, DecMany, Le4, FromLe4;
    var s3 := Encode(m.created) + Le4(m.footerCrc);
    var s2 := Many(m.crawls, Str) + s3;
    ByteRoundTrip(m.tier, Encode(|m.crawls|) + s2);
    RoundTrip(|m.crawls|, s2);
    forall i, r | 0 <= i < |m.crawls| ensures DecStr(Str(m.crawls[i]) + r) == Parsed(m.crawls[i], r) {
      StrRoundTrip(m.crawls[i], r);
    }
    ManyRoundTrip(m.crawls, Str, DecStr, s3);
    RoundTrip(m.created, Le4(m.footerCrc));
    Le4Length(m.footerCrc);
    FixedRoundTrip(Le4(m.footerCrc), []);
    assert Le4(m.footerCrc) + [] == Le4(m.footerCrc);
    Le4RoundTrip(m.footerCrc);
  }

  lemma Le4Length(x: nat)
    ensures |Le4(x)| == 4
  {
  }

  /** A member body decodes to the member. */
  lemma MemberRoundTrip(m: Member)
    requires GoodMember(m)
    ensures DecodeMember(EncodeMember(m)) == Parsed(m, [])
  {
    hide HeadBytes, DecHead, ZoneBytes, DecZone, Encode, Decode, Many, DecMany, DecodeTail, Str, Le4;
    var s4 := [m.tier] + (Encode(|m.crawls|) + (Many(m.crawls, Str) + (Encode(m.created) + Le4(m.footerCrc))));
    var s3 := Many(m.zones, ZoneBytes) + s4;
    var s2 := Encode(|m.zones|) + s3;
    HeadRoundTrip(m, ZoneBytes(SortZone(m)) + s2);
    ZoneRoundTrip(SortZone(m), s2);
    RoundTrip(|m.zones|, s3);
    forall i, r | 0 <= i < |m.zones| ensures DecZone(ZoneBytes(m.zones[i]) + r) == Parsed(m.zones[i], r) {
      ZoneRoundTrip(m.zones[i], r);
    }
    ManyRoundTrip(m.zones, ZoneBytes, DecZone, s4);
    TailRoundTrip(m);
  }

  // ---- records

  datatype Record = Record(kind: Byte, body: Bytes)

  function Framed(r: Record): Bytes {
    [r.kind] + (Encode(|r.body|) + r.body)
  }

  /** kind, length, body, and a checksum over the three. */
  function RecordBytes(r: Record, crc: Bytes -> nat): Bytes {
    Framed(r) + Le4(crc(Framed(r)))
  }

  datatype ReadResult = Stop | Read(record: Record, rest: Bytes)

  /** `readRecord`: stops at a clean end, a cut record, or a wrong checksum. */
  function ReadRecord(src: Bytes, crc: Bytes -> nat): ReadResult {
    if src == [] then Stop else
      match Decode(src[1..])
      case Short => Stop
      case Parsed(n, s1) =>
        if |s1| < n + 4 then Stop else
          var r := Record(src[0], s1[..n]);
          if FromLe4(s1[n..n + 4]) == crc(Framed(r)) then Read(r, s1[n + 4..]) else Stop
  }

  ghost predicate IsCrc(crc: Bytes -> nat) {
    forall b :: crc(b) < U32
  }

  lemma RecordRoundTrip(r: Record, rest: Bytes, crc: Bytes -> nat)
    requires IsCrc(crc) && |r.body| < U64
    ensures ReadRecord(RecordBytes(r, crc) + rest, crc) == Read(r, rest)
  {
    hide Encode, Decode, Le4, FromLe4;
    var sum := Le4(crc(Framed(r)));
    Le4Length(crc(Framed(r)));
    Le4RoundTrip(crc(Framed(r)));
    var s1 := r.body + (sum + rest);
    var src := RecordBytes(r, crc) + rest;
    assert src == [r.kind] + (Encode(|r.body|) + s1);
    assert src[1..] == Encode(|r.body|) + s1;
    RoundTrip(|r.body|, s1);
    assert s1[..|r.body|] == r.body && s1[|r.body|..|r.body| + 4] == sum && s1[|r.body| + 4..] == rest;
  }

  /** A record cut anywhere is not read, whatever its bytes: no reliance on the checksum. */
  lemma CutRecord(r: Record, cut: nat, crc: Bytes -> nat)
    requires |r.body| < U64 && cut < |RecordBytes(r, crc)|
    ensures ReadRecord(RecordBytes(r, crc)[..cut], crc) == Stop
  {
    hide Encode, Decode, Le4, FromLe4;
    Le4Length(crc(Framed(r)));
    var all := RecordBytes(r, crc);
    var src, len := all[..cut], Encode(|r.body|);
    if cut > 0 {
      var tail := r.body + Le4(crc(Framed(r)));
      assert all[1..] == len + tail;
      assert src[1..] == (len + tail)[..cut - 1];
      if cut - 1 < |len| {
        assert src[1..] == len[..cut - 1];
        CutVarint(|r.body|, cut - 1);
      } else {
        var s1 := tail[..cut - 1 - |len|];
        assert src[1..] == len + s1;
        RoundTrip(|r.body|, s1);
      }
    }
  }

  /** What stands after the length of a record cut there, and the bytes written after the cut. */
  function Spliced(r: Record, cut: nat, more: Bytes, crc: Bytes -> nat): Bytes
    requires 1 + |Encode(|r.body|)| <= cut <= |RecordBytes(r, crc)|
  {
    var head := 1 + |Encode(|r.body|)|;
    RecordBytes(r, crc)[head..cut] + more
  }

  /** Those bytes are too few for the record, or do not end in the checksum of what they make of it. */
  predicate Rejected(r: Record, cut: nat, more: Bytes, crc: Bytes -> nat)
    requires 1 + |Encode(|r.body|)| <= cut <= |RecordBytes(r, crc)|
  {
    var body, n := Spliced(r, cut, more, crc), |r.body|;
    |body| < n + 4 || FromLe4(body[n..n + 4]) != crc(Framed(Record(r.kind, body[..n])))
  }

  /** A record cut past its length takes the bytes after the cut for its own. */
  lemma SplicedRecord(r: Record, cut: nat, more: Bytes, crc: Bytes -> nat)
    requires |r.body| < U64 && 1 + |Encode(|r.body|)| <= cut <= |RecordBytes(r, crc)|
    ensures ReadRecord(RecordBytes(r, crc)[..cut] + more, crc).Stop? <==> Rejected(r, cut, more, crc)
  {
    hide Encode, Decode, Le4, FromLe4;
    Le4Length(crc(Framed(r)));
    var all, len := RecordBytes(r, crc), Encode(|r.body|);
    var tail := r.body + Le4(crc(Framed(r)));
    assert all == [r.kind] + (len + tail);
    var kept := tail[..cut - 1 - |len|];
    assert all[1 + |len|..cut] == kept;
    var src := all[..cut] + more;
    assert all[..cut] == [r.kind] + (len + kept);
    assert src[1..] == (len + kept) + more;
    AppendAssoc(len, kept, more);
    RoundTrip(|r.body|, kept + more);
  }

  lemma CutVarint(x: nat, cut: nat)
    requires cut < |Encode(x)|
    ensures Decode(Encode(x)[..cut]) == Short
  {
    TornFrom(x, 0, cut);
  }
}
