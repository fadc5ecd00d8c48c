/** Group varint (search/groupvarint.go and encoding/integer.go): one control byte of four
    2-bit lengths, then that many little-endian bytes for each of up to four values. */
module GroupVarint {
  import opened Digits
  import opened Varint

  function Size(v: nat): (n: nat)
    ensures 1 <= n <= 4
    ensures v < U32 ==> v < Pow(256, n)
    ensures n == 1 || v >= Pow(256, n - 1)
  {
    assert Pow(256, 1) == 256 && Pow(256, 2) == 65536;
    assert Pow(256, 3) == 16777216 && Pow(256, 4) == U32;
    if v < 256 then 1 else if v < 65536 then 2 else if v < 16777216 then 3 else 4
  }

  predicate Fits32(vs: seq<nat>) {
    forall i :: 0 <= i < |vs| ==> vs[i] < U32
  }

  function LittleEndian(v: nat, n: nat): (r: Bytes)
    ensures |r| == n
  {
    ToDigitsBelow(v, 256, n);
    ToDigits(v, 256, n)
  }

  /** The 2-bit fields, lowest first: a base-4 number. */
  function Control(vs: seq<nat>): nat {
    if vs == [] then 0 else Size(vs[0]) - 1 + 4 * Control(vs[1..])
  }

  lemma {:induction false} ControlBelow(vs: seq<nat>)
    ensures Control(vs) < Pow(4, |vs|)
  {
    if vs != [] {
      ControlBelow(vs[1..]);
    }
  }

  function ControlByte(vs: seq<nat>): Byte
    requires |vs| <= 4
  {
    ControlBelow(vs);
    PowMono(4, |vs|, 4);
    assert Pow(4, 4) == 4 * (4 * Pow(4, 2)) == 256;
    Control(vs)
  }

  function Bodies(vs: seq<nat>): Bytes {
    if vs == [] then [] else LittleEndian(vs[0], Size(vs[0])) + Bodies(vs[1..])
  }

  function Encode(vs: seq<nat>): Bytes {
    if vs == [] then [] else
      var n := Min(4, |vs|);
      [ControlByte(vs[..n])] + Bodies(vs[..n]) + Encode(vs[n..])
  }

  function DecodeBodies(src: Bytes, control: nat, n: nat): (r: Parsed<seq<nat>>)
    ensures r.Parsed? ==> |r.value| == n
    decreases n
  {
    if n == 0 then Parsed([], src) else
      var l := control % 4 + 1;
      if |src| < l then Short else
        match DecodeBodies(src[l..], control / 4, n - 1)
        case Short => Short
        case Parsed(vs, rest) => Parsed([FromDigits(src[..l], 256)] + vs, rest)
  }

  function Decode(src: Bytes, count: nat): (r: Parsed<seq<nat>>)
    ensures r.Parsed? ==> |r.value| == count
    decreases count
  {
    if count == 0 then Parsed([], src)
    else if src == [] then Short
    else
      var n := Min(4, count);
      match DecodeBodies(src[1..], src[0], n)
      case Short => Short
      case Parsed(vs, rest) =>
        match Decode(rest, count - n)
        case Short => Short
        case Parsed(more, end) => Parsed(vs + more, end)
  }

  lemma SizedRoundTrip(v: nat)
    requires v < U32
    ensures FromDigits(LittleEndian(v, Size(v)), 256) == v
  {
    FromTo(v, 256, Size(v));
  }

  /** Decoding undoes one value when it undoes the values after it. */
  lemma BodiesStep(vs: seq<nat>, rest: Bytes)
    requires vs != [] && vs[0] < U32
    requires DecodeBodies(Bodies(vs[1..]) + rest, Control(vs[1..]), |vs| - 1) == Parsed(vs[1..], rest)
    ensures DecodeBodies(Bodies(vs) + rest, Control(vs), |vs|) == Parsed(vs, rest)
  {
    hide Size, LittleEndian, Pow, FromDigits, ToDigits;
    var head := LittleEndian(vs[0], Size(vs[0]));
    var tail := Bodies(vs[1..]) + rest;
    assert Bodies(vs) + rest == head + tail by { AppendAssoc(head, Bodies(vs[1..]), rest); }
    SizedRoundTrip(vs[0]);
    DecodeOne(head, tail, Control(vs), Control(vs[1..]), |vs|);
    HeadTail(vs);
  }

  lemma DecodeOne(head: Bytes, tail: Bytes, c: nat, c': nat, n: nat)
    requires 1 <= |head| <= 4 && n > 0 && c == |head| - 1 + 4 * c'
    ensures DecodeBodies(head + tail, c, n)
            == match DecodeBodies(tail, c', n - 1)
               case Short => Short
               case Parsed(vs, rest) => Parsed([FromDigits(head, 256)] + vs, rest)
  {
    hide FromDigits;
    assert c % 4 + 1 == |head| && c / 4 == c';
    assert (head + tail)[..|head|] == head && (head + tail)[|head|..] == tail;
  }

  lemma {:induction false} BodiesRoundTrip(vs: seq<nat>, rest: Bytes)
    requires Fits32(vs)
    ensures DecodeBodies(Bodies(vs) + rest, Control(vs), |vs|) == Parsed(vs, rest)
  {
    if vs == [] {
      assert Bodies(vs) + rest == rest;
    } else {
      BodiesRoundTrip(vs[1..], rest);
      BodiesStep(vs, rest);
    }
  }

  lemma {:induction false} RoundTrip(vs: seq<nat>, rest: Bytes)
    requires Fits32(vs)
    ensures Decode(Encode(vs) + rest, |vs|) == Parsed(vs, rest)
  {
    if vs == [] {
      assert Encode(vs) + rest == rest;
    } else {
      hide Bodies, DecodeBodies, Control, ControlByte, Decode, Fits32;
      var n := Min(4, |vs|);
      var group, more := vs[..n], vs[n..];
      assert Fits32(group) && Fits32(more) by { Halves(vs, n); }
      RoundTrip(more, rest);
      BodiesRoundTrip(group, Encode(more) + rest);
      DecodeGroup(group, Encode(more) + rest, |vs|);
      Reassociate([ControlByte(group)], Bodies(group), Encode(more), rest);
      assert group + more == vs;
    }
  }

  lemma Halves(vs: seq<nat>, n: nat)
    requires n <= |vs| && Fits32(vs)
    ensures Fits32(vs[..n]) && Fits32(vs[n..])
  {
  }

  lemma Reassociate<T>(a: seq<T>, b: seq<T>, c: seq<T>, d: seq<T>)
    ensures a + b + c + d == a + (b + (c + d))
  {
  }

  lemma DecodeGroup(group: seq<nat>, tail: Bytes, count: nat)
    requires 0 < |group| == Min(4, count)
    requires DecodeBodies(Bodies(group) + tail, Control(group), |group|) == Parsed(group, tail)
    ensures Decode([ControlByte(group)] + (Bodies(group) + tail), count)
            == match Decode(tail, count - |group|)
               case Short => Short
               case Parsed(more, end) => Parsed(group + more, end)
  {
    hide Bodies, DecodeBodies, Control;
    var src := [ControlByte(group)] + (Bodies(group) + tail);
    assert src[1..] == Bodies(group) + tail;
  }

  // ---- the loops

  method AppendGroupVarint(dst: Bytes, vs: seq<nat>) returns (r: Bytes)
    ensures r == dst + Encode(vs)
  {
    r := dst;
    var i := 0;
    hide Bodies, ControlByte;
    assert vs[0..] == vs;
    while i < |vs|
      invariant 0 <= i <= |vs|
      invariant r + Encode(vs[i..]) == dst + Encode(vs)
    {
      var n := Min(4, |vs| - i);
      var group := vs[i..i + n];
      assert vs[i..][..n] == group && vs[i..][n..] == vs[i + n..];
      var ctrl := GatherControl(group);
      r := r + [ctrl];
      r := AppendBodies(r, group);
      i := i + n;
    }
    assert Encode([]) == [];
    assert vs[i..] == [];
  }

  method GatherControl(group: seq<nat>) returns (ctrl: Byte)
    requires |group| <= 4
    ensures ctrl == ControlByte(group)
  {
    var j: nat, c: nat, scale: nat := 0, 0, 1;
    while j < |group|
      invariant 0 <= j <= |group| && scale == Pow(4, j)
      invariant c == Control(group[..j])
    {
      assert group[..j + 1] == group[..j] + [group[j]];
      ControlSnoc(group[..j], group[j]);
      c := c + (Size(group[j]) - 1) * scale;
      scale, j := 4 * scale, j + 1;
    }
    assert group[..j] == group && c == ControlByte(group);
    ctrl := c;
  }

  lemma {:induction false} ControlSnoc(vs: seq<nat>, v: nat)
    ensures Control(vs + [v]) == Control(vs) + (Size(v) - 1) * Pow(4, |vs|)
  {
    if vs == [] {
      assert Control([v][1..]) == 0;
      assert vs + [v] == [v];
    } else {
      ControlSnoc(vs[1..], v);
      assert (vs + [v])[1..] == vs[1..] + [v];
      Assoc(4, Size(v) - 1, Pow(4, |vs| - 1));
      Assoc(Size(v) - 1, 4, Pow(4, |vs| - 1));
    }
  }

  lemma LittleEndianStep(v: nat, n: nat)
    requires n > 0
    ensures LittleEndian(v, n) == [v % 256] + LittleEndian(v / 256, n - 1)
  {
  }

  method AppendBodies(dst: Bytes, group: seq<nat>) returns (r: Bytes)
    ensures r == dst + Bodies(group)
  {
    hide LittleEndian, Size;
    r := dst;
    var j := 0;
    assert group[0..] == group;
    while j < |group|
      invariant 0 <= j <= |group|
      invariant r + Bodies(group[j..]) == dst + Bodies(group)
    {
      AppendAssoc(r, LittleEndian(group[j], Size(group[j])), Bodies(group[j + 1..]));
      assert group[j..][1..] == group[j + 1..];
      r := AppendLittleEndian(r, group[j], Size(group[j]));
      j := j + 1;
    }
    assert group[j..] == [];
  }

  method AppendLittleEndian(dst: Bytes, value: nat, l: nat) returns (r: Bytes)
    ensures r == dst + LittleEndian(value, l)
  {
    r := dst;
    var v, k := value, 0;
    while k < l
      invariant 0 <= k <= l
      invariant r + LittleEndian(v, l - k) == dst + LittleEndian(value, l)
    {
      LittleEndianStep(v, l - k);
      AppendAssoc(r, [v % 256], LittleEndian(v / 256, l - k - 1));
      r := r + [v % 256];
      v, k := v / 256, k + 1;
    }
  }

  method ReadGroupVarint(src: Bytes, count: nat) returns (ok: bool, out: seq<nat>, pos: nat)
    ensures ok <==> Decode(src, count).Parsed?
    ensures ok ==> pos <= |src| && Decode(src, count) == Parsed(out, src[pos..])
  {
    hide Decode, DecodeBodies;
    ok, out, pos := true, [], 0;
    assert src[0..] == src;
    FollowsStart(Decode(src, count));
    while |out| < count
      invariant |out| <= count && pos <= |src|
      invariant Follows(Decode(src, count), out, Decode(src[pos..], count - |out|))
    {
      var n := Min(4, count - |out|);
      DecodeStep(src[pos..], count - |out|);
      if pos >= |src| {
        return false, out, pos;
      }
      assert src[pos..][1..] == src[pos + 1..];
      var values, good;
      good, values, pos := ReadBodies(src, pos + 1, src[pos], n);
      if !good {
        return false, out, pos;
      }
      FollowsMore(Decode(src, count), out, values, Decode(src[pos..], count - |out| - n));
      out := out + values;
    }
    DecodeStep(src[pos..], 0);
    assert out + [] == out;
  }

  lemma FollowsMore(whole: Parsed<seq<nat>>, a: seq<nat>, b: seq<nat>, rest: Parsed<seq<nat>>)
    requires Follows(whole, a, if rest.Short? then Short else Parsed(b + rest.value, rest.rest))
    ensures Follows(whole, a + b, rest)
  {
    if rest.Parsed? {
      assert a + (b + rest.value) == (a + b) + rest.value;
    }
  }

  lemma DecodeStep(src: Bytes, count: nat)
    ensures count == 0 ==> Decode(src, count) == Parsed([], src)
    ensures count > 0 && src == [] ==> Decode(src, count) == Short
    ensures count > 0 && src != [] ==>
      var n, p := Min(4, count), DecodeBodies(src[1..], src[0], Min(4, count));
      Decode(src, count) == if p.Short? then Short else
        var q := Decode(p.rest, count - n);
        if q.Short? then Short else Parsed(p.value + q.value, q.rest)
  {
  }

  /** `whole` is what `first` followed by the parse `rest` amounts to. */
  lemma FollowsStart(whole: Parsed<seq<nat>>)
    ensures Follows(whole, [], whole)
  {
    if whole.Parsed? {
      assert [] + whole.value == whole.value;
    }
  }

  ghost predicate Follows(whole: Parsed<seq<nat>>, first: seq<nat>, rest: Parsed<seq<nat>>) {
    whole == if rest.Short? then Short else Parsed(first + rest.value, rest.rest)
  }

  method ReadBodies(src: Bytes, start: nat, ctrl: Byte, n: nat) returns (ok: bool, out: seq<nat>, pos: nat)
    requires start <= |src|
    ensures pos <= |src|
    ensures ok <==> DecodeBodies(src[start..], ctrl, n).Parsed?
    ensures ok ==> DecodeBodies(src[start..], ctrl, n) == Parsed(out, src[pos..])
  {
    hide DecodeBodies;
    ok, out, pos := true, [], start;
    var c: nat := ctrl;
    FollowsStart(DecodeBodies(src[start..], ctrl, n));
    while |out| < n
      invariant |out| <= n && pos <= |src|
      invariant Follows(DecodeBodies(src[start..], ctrl, n), out, DecodeBodies(src[pos..], c, n - |out|))
    {
      var l := c % 4 + 1;
      BodyStep(src, pos, c, n - |out|);
      if pos + l > |src| {
        return false, out, pos;
      }
      var v := ReadLittleEndian(src, pos, l);
      FollowsMore(DecodeBodies(src[start..], ctrl, n), out, [v], DecodeBodies(src[pos + l..], c / 4, n - |out| - 1));
      out := out + [v];
      pos, c := pos + l, c / 4;
    }
    BodyStep(src, pos, c, 0);
    assert out + [] == out;
  }

  lemma BodyStep(src: Bytes, pos: nat, c: nat, n: nat)
    requires pos <= |src|
    ensures n == 0 ==> DecodeBodies(src[pos..], c, n) == Parsed([], src[pos..])
    ensures n > 0 ==>
      var l := c % 4 + 1;
      if pos + l > |src| then DecodeBodies(src[pos..], c, n) == Short
      else
        var q := DecodeBodies(src[pos + l..], c / 4, n - 1);
        DecodeBodies(src[pos..], c, n)
          == if q.Short? then Short else Parsed([FromDigits(src[pos..pos + l], 256)] + q.value, q.rest)
  {
    hide FromDigits;
    var l := c % 4 + 1;
    if n > 0 && pos + l <= |src| {
      assert src[pos..][l..] == src[pos + l..] && src[pos..][..l] == src[pos..pos + l];
    }
  }

  method ReadLittleEndian(src: Bytes, pos: nat, l: nat) returns (v: nat)
    requires pos + l <= |src|
    ensures v == FromDigits(src[pos..pos + l], 256)
  {
    v := 0;
    var b, scale: nat := 0, 1;
    while b < l
      invariant 0 <= b <= l && scale == Pow(256, b)
      invariant v == FromDigits(src[pos..pos + b], 256)
    {
      FromSnoc(src[pos..pos + b], src[pos + b], 256);
      assert src[pos..pos + b + 1] == src[pos..pos + b] + [src[pos + b]];
      v := v + scale * src[pos + b];
      scale, b := 256 * scale, b + 1;
    }
  }
}
