/** UTF-8: what the byte-level check accepts is what characters are encoded as. */
module Unicode {
  import opened Base
  import opened Codec

  /** A code point; those from 0xD800 to 0xDFFF are no characters. */
  type CodePoint = n: int | 0 <= n < 0x11_0000

  predicate IsCharacter(c: CodePoint) {
    c < 0xD800 || c > 0xDFFF
  }

  /** The bytes of a character, by section 3 of RFC 3629. */
  function Bytes(c: CodePoint): (b: seq<Byte>)
    ensures 1 <= |b| <= 4
  {
    if c < 0x80 then [c]
    else if c < 0x800 then [0xC0 + c / 0x40, 0x80 + c % 0x40]
    else if c < 0x1_0000 then [0xE0 + c / 0x1000, 0x80 + c / 0x40 % 0x40, 0x80 + c % 0x40]
    else [0xF0 + c / 0x4_0000, 0x80 + c / 0x1000 % 0x40, 0x80 + c / 0x40 % 0x40, 0x80 + c % 0x40]
  }

  function Encode(cs: seq<CodePoint>): seq<Byte> {
    if cs == [] then [] else Bytes(cs[0]) + Encode(cs[1..])
  }

  predicate AllCharacters(cs: seq<CodePoint>) {
    forall i :: 0 <= i < |cs| ==> IsCharacter(cs[i])
  }

  /** The length found at the start of a character's bytes is theirs. */
  lemma LengthOfBytes(c: CodePoint, rest: seq<Byte>)
    requires IsCharacter(c)
    ensures CharLength(Bytes(c) + rest) == |Bytes(c)|
  {
    var s := Bytes(c) + rest;
    assert forall i :: 0 <= i < |Bytes(c)| ==> s[i] == Bytes(c)[i];
  }

  function Two(a: int, b: int): int {
    0x40 * (a - 0xC0) + (b - 0x80)
  }

  function Three(a: int, b: int, c: int): int {
    0x40 * (0x40 * (a - 0xE0) + (b - 0x80)) + (c - 0x80)
  }

  function Four(a: int, b: int, c: int, d: int): int {
    0x40 * (0x40 * (0x40 * (a - 0xF0) + (b - 0x80)) + (c - 0x80)) + (d - 0x80)
  }

  lemma TwoBytes(a: Byte, b: Byte)
    requires 0xC2 <= a <= 0xDF && Continuation(b)
    ensures 0x80 <= Two(a, b) < 0x800 && Bytes(Two(a, b)) == [a, b]
  {}

  lemma ThreeBytes(a: Byte, b: Byte, c: Byte)
    requires 0xE0 <= a <= 0xEF && Continuation(b) && Continuation(c)
    requires (a == 0xE0 ==> b >= 0xA0) && (a == 0xED ==> b <= 0x9F)
    ensures 0x800 <= Three(a, b, c) < 0x1_0000 && IsCharacter(Three(a, b, c)) && Bytes(Three(a, b, c)) == [a, b, c]
  {
    var n := Three(a, b, c);
    assert n / 0x40 == 0x40 * (a - 0xE0) + (b - 0x80) && n % 0x40 == c - 0x80;
    assert n / 0x1000 == a - 0xE0;
  }

  lemma FourBytes(a: Byte, b: Byte, c: Byte, d: Byte)
    requires 0xF0 <= a <= 0xF4 && Continuation(b) && Continuation(c) && Continuation(d)
    requires (a == 0xF0 ==> b >= 0x90) && (a == 0xF4 ==> b <= 0x8F)
    ensures 0x1_0000 <= Four(a, b, c, d) < 0x11_0000 && Bytes(Four(a, b, c, d)) == [a, b, c, d]
  {
    var n := Four(a, b, c, d);
    assert n / 0x40 == 0x40 * (0x40 * (a - 0xF0) + (b - 0x80)) + (c - 0x80) && n % 0x40 == d - 0x80;
    assert n / 0x1000 == 0x40 * (a - 0xF0) + (b - 0x80);
    assert n / 0x4_0000 == a - 0xF0;
  }

  /** There is a character at the start of the bytes whenever its length is found. */
  lemma FirstIsThere(s: seq<Byte>) returns (c: CodePoint)
    requires CharLength(s) > 0
    ensures IsCharacter(c) && s == Bytes(c) + s[CharLength(s)..]
  {
    var n := CharLength(s);
    assert s == s[..n] + s[n..];
    if n == 1 {
      c := s[0];
      assert s[..1] == [s[0]];
    } else if n == 2 {
      TwoBytes(s[0], s[1]);
      c := Two(s[0], s[1]);
      assert s[..2] == [s[0], s[1]];
    } else if n == 3 {
      ThreeBytes(s[0], s[1], s[2]);
      c := Three(s[0], s[1], s[2]);
      assert s[..3] == [s[0], s[1], s[2]];
    } else {
      FourBytes(s[0], s[1], s[2], s[3]);
      c := Four(s[0], s[1], s[2], s[3]);
      assert s[..4] == [s[0], s[1], s[2], s[3]];
    }
  }

  lemma {:induction false} EncodedIsUtf8(cs: seq<CodePoint>)
    requires AllCharacters(cs)
    ensures Utf8(Encode(cs))
    decreases |cs|
  {
    if cs != [] {
      EncodedIsUtf8(cs[1..]);
      LengthOfBytes(cs[0], Encode(cs[1..]));
      var s := Encode(cs);
      assert s[CharLength(s)..] == Encode(cs[1..]);
    }
  }

  lemma {:induction false} Utf8IsEncoded(s: seq<Byte>) returns (cs: seq<CodePoint>)
    requires Utf8(s)
    ensures AllCharacters(cs) && Encode(cs) == s
    decreases |s|
  {
    if s == [] {
      cs := [];
    } else {
      var rest := Utf8IsEncoded(s[CharLength(s)..]);
      var c := FirstIsThere(s);
      cs := [c] + rest;
      assert cs[1..] == rest;
    }
  }

  /** The check accepts exactly the encodings of character strings. */
  lemma Utf8Exactly(s: seq<Byte>)
    ensures Utf8(s) <==> exists cs: seq<CodePoint> :: AllCharacters(cs) && Encode(cs) == s
  {
    if Utf8(s) {
      var cs := Utf8IsEncoded(s);
    }
    if cs: seq<CodePoint> :| AllCharacters(cs) && Encode(cs) == s {
      EncodedIsUtf8(cs);
    }
  }
}
