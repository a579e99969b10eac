/** The byte-level reader and writer every binary format is built on. */
module Codec {
  import opened Base

  datatype ReaderError = InvalidSize | InvalidValue

  /** A value and the position after it, or the reason there is none. */
  datatype Parsed<+T> = Read(value: T, next: nat) | Fail(error: ReaderError)

  // ------------------------------------------------- big-endian integers

  function Pow256(k: nat): (p: nat)
    ensures p >= 1
  {
    if k == 0 then 1 else 256 * Pow256(k - 1)
  }

  /** The `k` low bytes of `n`, most significant first. */
  function ToBE(n: nat, k: nat): (b: seq<Byte>)
    ensures |b| == k
  {
    if k == 0 then [] else ToBE(n / 256, k - 1) + [n % 256]
  }

  function FromBE(b: seq<Byte>): nat {
    if b == [] then 0 else 256 * FromBE(b[..|b| - 1]) + b[|b| - 1]
  }

  lemma {:induction false} FromToBE(n: nat, k: nat)
    requires n < Pow256(k)
    ensures FromBE(ToBE(n, k)) == n
    decreases k
  {
    if k > 0 {
      FromToBE(n / 256, k - 1);
      assert ToBE(n, k)[..k - 1] == ToBE(n / 256, k - 1);
    }
  }

  lemma {:induction false} ToFromBE(b: seq<Byte>)
    ensures FromBE(b) < Pow256(|b|)
    ensures ToBE(FromBE(b), |b|) == b
    decreases |b|
  {
    if b != [] {
      var k := |b| - 1;
      ToFromBE(b[..k]);
      assert b == b[..k] + [b[k]];
    }
  }

  /** The first byte weighs most. */
  lemma {:induction false} FirstByteWeighsMost(b: Byte, rest: seq<Byte>)
    ensures FromBE([b] + rest) == b * Pow256(|rest|) + FromBE(rest)
    decreases |rest|
  {
    var s := [b] + rest;
    if rest == [] {
      assert s[..0] == [];
    } else {
      var n := |rest| - 1;
      FirstByteWeighsMost(b, rest[..n]);
      assert s[..|s| - 1] == [b] + rest[..n];
      Distribute(b, Pow256(n), FromBE(rest[..n]));
    }
  }

  lemma Distribute(b: nat, p: nat, r: nat)
    ensures 256 * (b * p + r) == b * (256 * p) + 256 * r
  {}

  lemma IntWidths()
    ensures Pow256(1) == 256 && Pow256(2) == 65536 && Pow256(4) == TWO_32 && Pow256(8) == TWO_64
    ensures Pow256(16) == TWO_64 * TWO_64
  {
    assert Pow256(3) == 16777216;
    assert Pow256(6) == 65536 * TWO_32 by { assert Pow256(5) == 256 * TWO_32; }
    assert Pow256(7) == 16777216 * TWO_32;
    assert Pow256(10) == 65536 * TWO_64 by { assert Pow256(9) == 256 * TWO_64; }
    assert Pow256(12) == TWO_32 * TWO_64 by { assert Pow256(11) == 16777216 * TWO_64; }
    assert Pow256(14) == 65536 * TWO_32 * TWO_64 by { assert Pow256(13) == 256 * TWO_32 * TWO_64; }
    assert Pow256(15) == 16777216 * TWO_32 * TWO_64;
  }

  /** `n as u8` */
  function AsU8(n: nat): (r: Byte)
    ensures r == n % 256
  {
    if n < 256 then n else n % 256
  }

  /** `n as u16` */
  function AsU16(n: nat): (r: nat)
    ensures r == n % 65536
  {
    if n < 65536 then n else n % 65536
  }

  // ------------------------------------------------------------- taking

  function TakeBytes(bs: seq<Byte>, at: nat, n: nat): (r: Parsed<seq<Byte>>)
    requires at <= |bs|
    ensures r.Read? ==> at <= r.next <= |bs|
  {
    if n > |bs| - at then Fail(InvalidSize) else Read(bs[at..at + n], at + n)
  }

  function TakeU8(bs: seq<Byte>, at: nat): (r: Parsed<Byte>)
    requires at <= |bs|
    ensures r.Read? ==> r.next == at + 1 <= |bs|
  {
    if at == |bs| then Fail(InvalidSize) else Read(bs[at], at + 1)
  }

  /** An unsigned integer of `width` bytes. */
  function TakeInt(bs: seq<Byte>, at: nat, width: nat): (r: Parsed<nat>)
    requires at <= |bs|
    ensures r.Read? ==> r.next == at + width <= |bs|
  {
    match TakeBytes(bs, at, width)
    case Fail(e) => Fail(e)
    case Read(b, next) => Read(FromBE(b), next)
  }

  function TakeBool(bs: seq<Byte>, at: nat): (r: Parsed<bool>)
    requires at <= |bs|
    ensures r.Read? ==> r.next == at + 1 <= |bs|
  {
    match TakeU8(bs, at)
    case Fail(e) => Fail(e)
    case Read(b, next) => if b > 1 then Fail(InvalidValue) else Read(b == 1, next)
  }

  /** A one-byte length and that many bytes. */
  function TakePrefixed(bs: seq<Byte>, at: nat): (r: Parsed<seq<Byte>>)
    requires at <= |bs|
    ensures r.Read? ==> at < r.next <= |bs| && |r.value| <= 255
  {
    match TakeU8(bs, at)
    case Fail(e) => Fail(e)
    case Read(n, next) => TakeBytes(bs, next, n)
  }

  function CheckText(r: Parsed<seq<Byte>>): Parsed<seq<Byte>> {
    if r.Read? && !Utf8(r.value) then Fail(InvalidValue) else r
  }

  function TakeString(bs: seq<Byte>, at: nat): (r: Parsed<seq<Byte>>)
    requires at <= |bs|
    ensures r.Read? ==> at < r.next <= |bs| && |r.value| <= 255
  {
    CheckText(TakePrefixed(bs, at))
  }

  predicate Continuation(b: Byte) {
    0x80 <= b <= 0xBF
  }

  /** Length of the UTF-8 character `s` starts with, by the table in section 4 of RFC 3629; 0 if there is none. */
  function CharLength(s: seq<Byte>): (n: nat)
    ensures n <= |s|
  {
    if |s| >= 1 && s[0] < 0x80 then 1
    else if |s| >= 2 && 0xC2 <= s[0] <= 0xDF && Continuation(s[1]) then 2
    else if |s| >= 3 && 0xE0 <= s[0] <= 0xEF && Continuation(s[1]) && Continuation(s[2])
            && (s[0] == 0xE0 ==> s[1] >= 0xA0) && (s[0] == 0xED ==> s[1] <= 0x9F) then 3
    else if |s| >= 4 && 0xF0 <= s[0] <= 0xF4 && Continuation(s[1]) && Continuation(s[2]) && Continuation(s[3])
            && (s[0] == 0xF0 ==> s[1] >= 0x90) && (s[0] == 0xF4 ==> s[1] <= 0x8F) then 4
    else 0
  }

  /** Well-formed UTF-8. */
  predicate Utf8(s: seq<Byte>) {
    s == [] || (CharLength(s) > 0 && Utf8(s[CharLength(s)..]))
  }

  /** `x` stands in `bs` at position `at`. */
  predicate At(bs: seq<Byte>, at: nat, x: seq<Byte>) {
    at + |x| <= |bs| && bs[at..at + |x|] == x
  }

  lemma AtSplit(bs: seq<Byte>, at: nat, x: seq<Byte>, y: seq<Byte>)
    ensures At(bs, at, x + y) <==> At(bs, at, x) && At(bs, at + |x|, y)
  {
    if at + |x| + |y| <= |bs| {
      var w := bs[at..at + |x| + |y|];
      assert w[..|x|] == bs[at..at + |x|] && w[|x|..] == bs[at + |x|..at + |x| + |y|];
      assert (x + y)[..|x|] == x && (x + y)[|x|..] == y;
      assert w == w[..|x|] + w[|x|..];
    }
  }

  lemma AtWhole(before: seq<Byte>, x: seq<Byte>, after: seq<Byte>)
    ensures At(before + x + after, |before|, x)
  {}

  lemma AtInt(bs: seq<Byte>, at: nat, n: nat, width: nat)
    requires n < Pow256(width) && At(bs, at, ToBE(n, width))
    ensures TakeInt(bs, at, width) == Read(n, at + width)
  {
    FromToBE(n, width);
  }

  lemma IntAt(bs: seq<Byte>, at: nat, width: nat)
    requires at <= |bs| && TakeInt(bs, at, width).Read?
    ensures TakeInt(bs, at, width).value < Pow256(width)
    ensures At(bs, at, ToBE(TakeInt(bs, at, width).value, width))
  {
    ToFromBE(bs[at..at + width]);
  }

  // -------------------------------------------------------- the two objects

  class Reader {
    const bytes: seq<Byte>
    var total: nat

    ghost predicate Valid()
      reads this
    {
      total <= |bytes|
    }

    constructor (bytes: seq<Byte>)
      ensures this.bytes == bytes && total == 0 && Valid()
    {
      this.bytes := bytes;
      total := 0;
    }

    method ReadBytes(n: nat) returns (r: Parsed<seq<Byte>>)
      requires Valid()
      modifies this
      ensures Valid() && r == TakeBytes(bytes, old(total), n)
      ensures total == if r.Read? then r.next else old(total)
    {
      if n > |bytes| - total {
        return Fail(InvalidSize);
      }
      var b := bytes[total..total + n];
      total := total + n;
      r := Read(b, total);
    }

    method ReadU8() returns (r: Parsed<Byte>)
      requires Valid()
      modifies this
      ensures Valid() && r == TakeU8(bytes, old(total))
      ensures total == if r.Read? then r.next else old(total)
    {
      if total == |bytes| {
        return Fail(InvalidSize);
      }
      var b := bytes[total];
      total := total + 1;
      r := Read(b, total);
    }

    method ReadInt(width: nat) returns (r: Parsed<nat>)
      requires Valid()
      modifies this
      ensures Valid() && r == TakeInt(bytes, old(total), width)
      ensures total == if r.Read? then r.next else old(total)
    {
      var b := ReadBytes(width);
      match b
      case Fail(e) => r := Fail(e);
      case Read(v, next) => r := Read(FromBE(v), next);
    }

    method ReadBool() returns (r: Parsed<bool>)
      requires Valid()
      modifies this
      ensures Valid() && r == TakeBool(bytes, old(total)) && total >= old(total)
      ensures r.Read? ==> total == r.next
    {
      var b := ReadU8();
      match b
      case Fail(e) => r := Fail(e);
      case Read(v, next) => r := if v > 1 then Fail(InvalidValue) else Read(v == 1, next);
    }

    method ReadString() returns (r: Parsed<seq<Byte>>)
      requires Valid()
      modifies this
      ensures Valid() && r == TakeString(bytes, old(total)) && total >= old(total)
      ensures r.Read? ==> total == r.next
    {
      var n := ReadU8();
      if n.Fail? {
        return Fail(n.error);
      }
      var s := ReadBytes(n.value);
      if s.Fail? {
        return Fail(s.error);
      }
      r := if Utf8(s.value) then s else Fail(InvalidValue);
    }
  }

  class Writer {
    var bytes: seq<Byte>

    constructor ()
      ensures bytes == []
    {
      bytes := [];
    }

    method WriteBytes(b: seq<Byte>)
      modifies this
      ensures bytes == old(bytes) + b
    {
      bytes := bytes + b;
    }

    method WriteInt(n: nat, width: nat)
      modifies this
      ensures bytes == old(bytes) + ToBE(n, width)
    {
      bytes := bytes + ToBE(n, width);
    }

    /** The length byte is the length modulo 256; at most 255 bytes follow. */
    method WriteString(s: seq<Byte>)
      modifies this
      ensures bytes == old(bytes) + StringBytes(s)
    {
      bytes := bytes + [AsU8(|s|)];
      bytes := bytes + (if |s| > 255 then s[..255] else s);
    }
  }

  function StringBytes(s: seq<Byte>): seq<Byte> {
    [AsU8(|s|)] + (if |s| > 255 then s[..255] else s)
  }

  lemma AtByte(bs: seq<Byte>, at: nat, b: Byte)
    requires At(bs, at, [b])
    ensures TakeU8(bs, at) == Read(b, at + 1)
  {
    assert bs[at] == bs[at..at + 1][0];
  }

  lemma AtPrefixed(bs: seq<Byte>, at: nat, s: seq<Byte>)
    requires |s| <= 255 && At(bs, at, [|s|] + s)
    ensures TakePrefixed(bs, at) == Read(s, at + 1 + |s|)
  {
    AtSplit(bs, at, [|s|], s);
    AtByte(bs, at, |s|);
  }

  lemma AtStringBytes(bs: seq<Byte>, at: nat, s: seq<Byte>)
    requires |s| <= 255 && At(bs, at, StringBytes(s))
    ensures TakePrefixed(bs, at) == Read(s, at + 1 + |s|)
  {
    AtPrefixed(bs, at, s);
  }

  lemma AtString(bs: seq<Byte>, at: nat, s: seq<Byte>, text: bool)
    requires |s| <= 255 && At(bs, at, StringBytes(s)) && text == Utf8(s)
    ensures TakeString(bs, at) == if text then Read(s, at + 1 + |s|) else Fail(InvalidValue)
  {
    AtStringBytes(bs, at, s);
  }
}
