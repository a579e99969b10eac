/** Printing and parsing of bech32 strings, with `:` as the separator. */
module Bech32Text {
  import opened Base
  import opened Bech32Checksum
  import Codec
  import Unicode

  /** An ASCII character, as its code. */
  type Ascii = n: int | 0 <= n < 128

  type Text = seq<Ascii>

  /** A Unicode character, as its code point. */
  type Scalar = Unicode.CodePoint

  type Str = seq<Scalar>

  /** Only ASCII characters: the string is a `Text`. */
  predicate Plain(s: Str) {
    forall i :: 0 <= i < |s| ==> s[i] < 128
  }

  /** The first byte of a character in UTF-8. */
  function LeadByte(c: Scalar): (b: Byte)
    ensures c < 128 ==> b == c
    ensures c >= 128 ==> b > 126
  {
    Unicode.Bytes(c)[0]
  }

  /** The length of a string in UTF-8. */
  function ByteLength(s: Str): (n: nat)
    ensures n >= |s|
  {
    if s == [] then 0 else ByteLength(s[..|s| - 1]) + |Unicode.Bytes(s[|s| - 1])|
  }

  lemma {:induction false} PlainLength(s: Str)
    requires Plain(s)
    ensures ByteLength(s) == |s|
    decreases |s|
  {
    if s != [] {
      PlainLength(s[..|s| - 1]);
    }
  }

  const SEPARATOR: Ascii := 58

  /** The character set "qpzry9x8gf2tvdw0s3jn54khce6mua7l", by position. */
  function Glyph(v: nat): Ascii {
    if v == 0 then 113 else if v == 1 then 112 else if v == 2 then 122 else if v == 3 then 114 else
    if v == 4 then 121 else if v == 5 then 57 else if v == 6 then 120 else if v == 7 then 56 else
    if v == 8 then 103 else if v == 9 then 102 else if v == 10 then 50 else if v == 11 then 116 else
    if v == 12 then 118 else if v == 13 then 100 else if v == 14 then 119 else if v == 15 then 48 else
    if v == 16 then 115 else if v == 17 then 51 else if v == 18 then 106 else if v == 19 then 110 else
    if v == 20 then 53 else if v == 21 then 52 else if v == 22 then 107 else if v == 23 then 104 else
    if v == 24 then 99 else if v == 25 then 101 else if v == 26 then 54 else if v == 27 then 109 else
    if v == 28 then 117 else if v == 29 then 97 else if v == 30 then 55 else 108
  }

  datatype Error =
    | HrpEmpty
    | HrpInvalidCharacter(code: int)
    | HrpMixCase
    | InvalidValue(value: int, max: int)
    | SeparatorNotFound
    | SeparatorInvalidPosition(position: nat)
    | InvalidChecksum
    | InvalidIndex(index: int)

  function LowerChar(c: Ascii): Ascii {
    if 65 <= c <= 90 then c + 32 else c
  }

  function UpperChar(c: Ascii): Ascii {
    if 97 <= c <= 122 then c - 32 else c
  }

  function Lower(s: Text): (r: Text)
    ensures |r| == |s| && forall i :: 0 <= i < |s| ==> r[i] == LowerChar(s[i])
  {
    seq(|s|, i requires 0 <= i < |s| => LowerChar(s[i]))
  }

  function Upper(s: Text): (r: Text)
    ensures |r| == |s| && forall i :: 0 <= i < |s| ==> r[i] == UpperChar(s[i])
  {
    seq(|s|, i requires 0 <= i < |s| => UpperChar(s[i]))
  }

  predicate MixedCase(s: Text) {
    Upper(s) != s && Lower(s) != s
  }

  /** The first byte outside 33 to 126. */
  function FirstUnprintable(s: Str): (r: Option<Byte>)
    ensures r.None? <==> forall i :: 0 <= i < |s| ==> 33 <= s[i] <= 126
  {
    if s == [] then None
    else if s[0] < 33 || s[0] > 126 then Some(LeadByte(s[0]))
    else
      assert s == [s[0]] + s[1..];
      FirstUnprintable(s[1..])
  }

  /** The prefixes that can be encoded. */
  predicate Encodable(hrp: Text) {
    hrp != [] && FirstUnprintable(hrp).None? && !MixedCase(hrp)
  }

  /** Position of a character in the character set. */
  function Find(c: int, k: nat): (r: Option<nat>)
    requires k <= 32
    ensures r.Some? ==> k <= r.value < 32 && Glyph(r.value) == c
    decreases 32 - k
  {
    if k == 32 then None
    else if Glyph(k) == c then Some(k)
    else Find(c, k + 1)
  }

  function Print(values: seq<Byte>): (r: Result<Text, Error>)
    ensures r.Ok? ==> |r.value| == |values|
  {
    if values == [] then Ok([])
    else if values[0] > 32 then Err(InvalidValue(values[0], 32))
    else if values[0] == 32 then Err(InvalidIndex(32))
    else match Print(values[1..])
      case Ok(s) => Ok([Glyph(values[0])] + s)
      case Err(e) => Err(e)
  }

  function Parse(s: Str): (r: Result<seq<Byte>, Error>)
    ensures r.Ok? ==> |r.value| == |s| && Symbols(r.value)
  {
    if s == [] then Ok([])
    else match Find(s[0], 0)
      case None => Err(HrpInvalidCharacter(Codec.AsU8(s[0])))
      case Some(v) =>
        match Parse(s[1..])
        case Ok(values) => Ok([v] + values)
        case Err(e) => Err(e)
  }

  function LastSeparator(s: Str): (r: Option<nat>)
    ensures r.Some? ==> r.value < |s| && s[r.value] == SEPARATOR
  {
    if s == [] then None
    else if s[|s| - 1] == SEPARATOR then Some(|s| - 1)
    else LastSeparator(s[..|s| - 1])
  }

  function Encode(hrp: Str, data: seq<Byte>): (r: Result<Text, Error>) {
    if hrp == [] then Err(HrpEmpty)
    else if FirstUnprintable(hrp).Some? then Err(HrpInvalidCharacter(FirstUnprintable(hrp).value))
    else if MixedCase(hrp) then Err(HrpMixCase)
    else
      var h := Lower(hrp);
      match Print(data + Checksum(h, data))
      case Ok(s) => Ok(h + [SEPARATOR] + s)
      case Err(e) => Err(e)
  }

  /** Prefix and symbols of a string, checksum symbols included and not yet verified. */
  function Split(bech: Text): (r: Result<(Text, seq<Byte>), Error>)
    ensures r.Ok? ==> |r.value.1| >= 6
  {
    if MixedCase(bech) then Err(HrpMixCase)
    else match LastSeparator(bech)
      case None => Err(SeparatorNotFound)
      case Some(pos) =>
        if pos < 1 || pos + 7 > |bech| then Err(SeparatorInvalidPosition(pos))
        else if FirstUnprintable(bech[..pos]).Some? then Err(HrpInvalidCharacter(FirstUnprintable(bech[..pos]).value))
        else match Parse(bech[pos + 1..])
          case Err(e) => Err(e)
          case Ok(word) => Ok((bech[..pos], word))
  }

  function Decode(bech: Text): (r: Result<(Text, seq<Byte>), Error>) {
    match Split(bech)
    case Err(e) => Err(e)
    case Ok((hrp, word)) =>
      if !Valid(hrp, word) then Err(InvalidChecksum)
      else Ok((hrp, word[..|word| - 6]))
  }

  /** A string with a character outside ASCII does not parse. */
  lemma {:induction false} OddCharacter(s: Str)
    requires !Plain(s)
    ensures Parse(s).Err?
    decreases |s|
  {
    if s[0] < 128 {
      assert s == [s[0]] + s[1..];
      OddCharacter(s[1..]);
    }
  }

  lemma PlainParts(s: Str, p: nat)
    requires p < |s| && s[p] < 128
    ensures Plain(s) <==> Plain(s[..p]) && Plain(s[p + 1..])
  {
    if Plain(s[..p]) && Plain(s[p + 1..]) {
      forall i | 0 <= i < |s| ensures s[i] < 128 {
        assert i < p ==> s[i] == s[..p][i];
        assert i > p ==> s[i] == s[p + 1..][i - p - 1];
      }
    }
  }

  lemma {:induction false} ByteLengthAppend(a: Str, b: Str)
    ensures ByteLength(a + b) == ByteLength(a) + ByteLength(b)
    decreases |b|
  {
    if b == [] {
      assert a + b == a;
    } else {
      var n := |b| - 1;
      ByteLengthAppend(a, b[..n]);
      assert (a + b)[..|a + b| - 1] == a + b[..n];
    }
  }

  /** The bytes of a string on both sides of an ASCII character. */
  lemma {:induction false} LengthAround(s: Str, p: nat)
    requires p < |s| && s[p] < 128
    ensures ByteLength(s) == ByteLength(s[..p]) + 1 + ByteLength(s[p + 1..])
  {
    assert s == s[..p] + ([s[p]] + s[p + 1..]);
    ByteLengthAppend(s[..p], [s[p]] + s[p + 1..]);
    ByteLengthAppend([s[p]], s[p + 1..]);
    PlainLength([s[p]]);
  }

  /** The case test: by ASCII letters, or whatever the Unicode tables say. */
  function MixedAny(mixed: Str -> bool, s: Str): bool {
    if Plain(s) then MixedCase(s) else mixed(s)
  }

  /** What follows the separator parses only if it is long enough and plain. */
  lemma ParsedTail(s: Str, p: nat)
    requires p < |s| && s[p] < 128
    ensures Parse(s[p + 1..]).Ok? ==> ByteLength(s) == ByteLength(s[..p]) + 1 + |Parse(s[p + 1..]).value|
  {
    LengthAround(s, p);
    if Parse(s[p + 1..]).Ok? {
      AllFound(s[p + 1..]);
      PlainLength(s[p + 1..]);
    }
  }

  /** Prefix and symbols of any string; positions count bytes. */
  function SplitAny(mixed: Str -> bool, s: Str): (r: Result<(Text, seq<Byte>), Error>)
    ensures r.Ok? ==> |r.value.1| >= 6
  {
    if MixedAny(mixed, s) then Err(HrpMixCase)
    else match LastSeparator(s)
      case None => Err(SeparatorNotFound)
      case Some(p) =>
        var pos := ByteLength(s[..p]);
        if pos < 1 || pos + 7 > ByteLength(s) then Err(SeparatorInvalidPosition(pos))
        else if FirstUnprintable(s[..p]).Some? then Err(HrpInvalidCharacter(FirstUnprintable(s[..p]).value))
        else
          ParsedTail(s, p);
          match Parse(s[p + 1..])
          case Err(e) => Err(e)
          case Ok(word) => Ok((s[..p], word))
  }

  function DecodeAny(mixed: Str -> bool, s: Str): Result<(Text, seq<Byte>), Error> {
    match SplitAny(mixed, s)
    case Err(e) => Err(e)
    case Ok((hrp, word)) =>
      if !Valid(hrp, word) then Err(InvalidChecksum)
      else Ok((hrp, word[..|word| - 6]))
  }

  lemma SplitOdd(mixed: Str -> bool, s: Str)
    requires !Plain(s)
    ensures SplitAny(mixed, s).Err?
  {
    var sep := LastSeparator(s);
    if sep.Some? {
      PlainParts(s, sep.value);
      AllFound(s[sep.value + 1..]);
    }
  }

  lemma SplitPlain(mixed: Str -> bool, s: Text)
    ensures SplitAny(mixed, s) == Split(s)
  {
    var sep := LastSeparator(s);
    if sep.Some? {
      PlainLengths(s, sep.value);
    }
  }

  /** Whatever the Unicode tables say, only plain strings are accepted, and they as specified. */
  lemma {:induction false} OnlyPlainIsAccepted(mixed: Str -> bool, s: Str)
    ensures if Plain(s) then DecodeAny(mixed, s) == Decode(s) else DecodeAny(mixed, s).Err?
  {
    if Plain(s) {
      SplitPlain(mixed, s);
    } else {
      SplitOdd(mixed, s);
    }
  }

  // ------------------------------------------------------------ the loops

  method CheckHrp(hrp: Str) returns (bad: Option<Byte>)
    ensures bad == FirstUnprintable(hrp)
  {
    for i := 0 to |hrp|
      invariant FirstUnprintable(hrp) == FirstUnprintable(hrp[i..])
    {
      if hrp[i] < 33 || hrp[i] > 126 {
        return Some(LeadByte(hrp[i]));
      }
      assert hrp[i..][1..] == hrp[i + 1..];
    }
    bad := None;
  }

  /** The program's `encode` computes the specification, errors included. */
  method RunEncode(hrp: Str, data: seq<Byte>) returns (r: Result<Text, Error>)
    ensures r == Encode(hrp, data)
  {
    if |hrp| == 0 {
      return Err(HrpEmpty);
    }
    var bad := CheckHrp(hrp);
    if bad.Some? {
      return Err(HrpInvalidCharacter(bad.value));
    }
    if Upper(hrp) != hrp && Lower(hrp) != hrp {
      return Err(HrpMixCase);
    }
    var h := Lower(hrp);
    var checksum := CreateChecksum(h, data);
    var combined := data + checksum;
    var printed := RunPrint(combined);
    match printed
    case Ok(s) => r := Ok(h + [SEPARATOR] + s);
    case Err(e) => r := Err(e);
  }

  method RunPrint(values: seq<Byte>) returns (r: Result<Text, Error>)
    ensures r == Print(values)
  {
    var result: Text := [];
    assert values[0..] == values && (Print(values).Ok? ==> [] + Print(values).value == Print(values).value);
    for i := 0 to |values|
      invariant |result| == i
      invariant Print(values) == match Print(values[i..]) case Ok(s) => Ok(result + s) case Err(e) => Err(e)
    {
      assert values[i..][1..] == values[i + 1..];
      if values[i] > 32 {
        return Err(InvalidValue(values[i], 32));
      }
      if values[i] == 32 {
        return Err(InvalidIndex(values[i]));
      }
      PrintExtends(result, Glyph(values[i]), Print(values[i + 1..]));
      result := result + [Glyph(values[i])];
    }
    assert result + [] == result;
    r := Ok(result);
  }

  lemma PrintExtends(result: Text, c: Ascii, rest: Result<Text, Error>)
    ensures rest.Ok? ==> result + ([c] + rest.value) == result + [c] + rest.value
  {}

  /** The first half of `decode`: case, separator, prefix and symbols. */
  method RunSplit(mixed: Str -> bool, bech: Str) returns (r: Result<(Text, seq<Byte>), Error>)
    ensures r == SplitAny(mixed, bech)
  {
    if MixedAny(mixed, bech) {
      return Err(HrpMixCase);
    }
    var sep := LastSeparator(bech);
    if sep.None? {
      return Err(SeparatorNotFound);
    }
    var hrp := bech[..sep.value];
    var pos := ByteLength(hrp);
    if pos < 1 || pos + 7 > ByteLength(bech) {
      return Err(SeparatorInvalidPosition(pos));
    }
    var bad := CheckHrp(hrp);
    if bad.Some? {
      return Err(HrpInvalidCharacter(bad.value));
    }
    PlainLength(hrp);
    LengthAround(bech, sep.value);
    var data := RunParse(bech, pos + 1, ByteLength(bech));
    r := match data case Err(e) => Err(e) case Ok(word) => Ok((hrp, word));
  }

  /** The program's `decode` computes the specification, errors included. */
  method RunDecode(mixed: Str -> bool, bech: Str) returns (r: Result<(Text, seq<Byte>), Error>)
    ensures r == DecodeAny(mixed, bech)
    ensures if Plain(bech) then r == Decode(bech) else r.Err?
  {
    OnlyPlainIsAccepted(mixed, bech);
    var split := RunSplit(mixed, bech);
    if split.Err? {
      return Err(split.error);
    }
    var (hrp, word) := split.value;
    var valid := VerifyChecksum(hrp, word);
    if !valid {
      return Err(InvalidChecksum);
    }
    var data := word;
    for i := 0 to 6
      invariant |data| == |word| - i && data == word[..|word| - i]
    {
      data := data[..|data| - 1];
    }
    r := Ok((hrp, data));
  }

  lemma PlainLengths(s: Str, p: nat)
    requires p <= |s|
    ensures Plain(s) ==> ByteLength(s) == |s| && ByteLength(s[..p]) == p
  {
    if Plain(s) {
      PlainLength(s);
      PlainLength(s[..p]);
    }
  }

  /** The loop over byte positions that fetches characters by number. */
  method RunParse(s: Str, from: nat, to: nat) returns (r: Result<seq<Byte>, Error>)
    requires from <= |s| && to == from + ByteLength(s[from..])
    ensures r == Parse(s[from..])
  {
    var data: seq<Byte> := [];
    ghost var rest := s[from..];
    for i := from to to
      invariant i <= |s| && |data| == i - from && Found(rest, data)
    {
      if i >= |s| {
        FoundAll(rest, data);
        AllFound(rest);
        PlainLengths(rest, 0);
        return Err(InvalidIndex(i));
      }
      assert s[i] == rest[i - from];
      var found := Find(s[i], 0);
      if found.None? {
        FoundThenOdd(rest, data);
        return Err(HrpInvalidCharacter(Codec.AsU8(s[i])));
      }
      data := data + [found.value];
    }
    FoundAll(rest, data);
    r := Ok(data);
  }

  /** The first characters have been looked up. */
  ghost predicate Found(s: Str, data: seq<Byte>) {
    |data| <= |s| && forall j :: 0 <= j < |data| ==> Find(s[j], 0) == Some(data[j])
  }

  lemma FoundRest(s: Str, data: seq<Byte>)
    requires Found(s, data) && data != []
    ensures Found(s[1..], data[1..]) && Find(s[0], 0) == Some(data[0]) && data == [data[0]] + data[1..]
  {
    assert Find(s[0], 0) == Some(data[0]);
    forall j | 0 <= j < |data| - 1 ensures Find(s[1..][j], 0) == Some(data[1..][j]) {
      assert data[1..][j] == data[j + 1];
    }
  }

  lemma {:induction false} FoundAll(s: Str, data: seq<Byte>)
    requires Found(s, data) && |data| == |s|
    ensures Parse(s) == Ok(data)
    decreases |s|
  {
    if s != [] {
      FoundRest(s, data);
      FoundAll(s[1..], data[1..]);
    }
  }

  lemma {:induction false} FoundThenOdd(s: Str, data: seq<Byte>)
    requires Found(s, data) && |data| < |s| && Find(s[|data|], 0).None?
    ensures Parse(s) == Err(HrpInvalidCharacter(Codec.AsU8(s[|data|])))
    decreases |s|
  {
    if data != [] {
      FoundRest(s, data);
      FoundThenOdd(s[1..], data[1..]);
    }
  }

  lemma AllFound(s: Str)
    ensures Parse(s).Ok? ==> Plain(s)
  {
    if !Plain(s) {
      OddCharacter(s);
    }
  }

  // -------------------------------------------------- character set facts

  function Rank(c: int): nat {
    if c == 113 then 0 else if c == 112 then 1 else if c == 122 then 2 else if c == 114 then 3
    else if c == 121 then 4 else if c == 57 then 5 else if c == 120 then 6 else if c == 56 then 7
    else if c == 103 then 8 else if c == 102 then 9 else if c == 50 then 10 else if c == 116 then 11
    else if c == 118 then 12 else if c == 100 then 13 else if c == 119 then 14 else if c == 48 then 15
    else if c == 115 then 16 else if c == 51 then 17 else if c == 106 then 18 else if c == 110 then 19
    else if c == 53 then 20 else if c == 52 then 21 else if c == 107 then 22 else if c == 104 then 23
    else if c == 99 then 24 else if c == 101 then 25 else if c == 54 then 26 else if c == 109 then 27
    else if c == 117 then 28 else if c == 97 then 29 else if c == 55 then 30 else 31
  }

  /** The characters are distinct, lowercase or digits, and none is the separator. */
  lemma CharsetFacts(v: nat)
    requires v < 32
    ensures Rank(Glyph(v)) == v
    ensures LowerChar(Glyph(v)) == Glyph(v) && Glyph(v) != SEPARATOR
  {}

  lemma {:induction false} FindAt(v: nat, k: nat)
    requires k <= v < 32
    ensures Find(Glyph(v), k) == Some(v)
    decreases v - k
  {
    CharsetFacts(v);
    CharsetFacts(k);
    if k < v { FindAt(v, k + 1); }
  }

  lemma {:induction false} PrintThenParse(values: seq<Byte>)
    requires Symbols(values)
    ensures Print(values).Ok? && Parse(Print(values).value) == Ok(values)
    ensures forall i :: 0 <= i < |values| ==> Print(values).value[i] == Glyph(values[i])
    decreases |values|
  {
    if values != [] {
      PrintThenParse(values[1..]);
      FindAt(values[0], 0);
      var s := Print(values).value;
      assert s[1..] == Print(values[1..]).value;
      assert values == [values[0]] + values[1..];
    }
  }

  lemma {:induction false} ParseThenPrint(s: Text)
    requires Parse(s).Ok?
    ensures Print(Parse(s).value) == Ok(s)
    decreases |s|
  {
    if s != [] {
      ParseThenPrint(s[1..]);
      assert Parse(s).value[1..] == Parse(s[1..]).value;
      assert s == [s[0]] + s[1..];
    }
  }

  lemma {:induction false} LastSeparatorAt(h: Text, s: Text)
    requires forall i :: 0 <= i < |s| ==> s[i] != SEPARATOR
    ensures LastSeparator(h + [SEPARATOR] + s) == Some(|h|)
    decreases |s|
  {
    var t := h + [SEPARATOR] + s;
    if s == [] {
      assert t[|t| - 1] == SEPARATOR;
    } else {
      assert t[|t| - 1] == s[|s| - 1];
      assert t[..|t| - 1] == h + [SEPARATOR] + s[..|s| - 1];
      LastSeparatorAt(h, s[..|s| - 1]);
    }
  }

  // ------------------------------------------------------------- theorems

  lemma LowerIdempotent(s: Text)
    ensures Lower(Lower(s)) == Lower(s)
    ensures FirstUnprintable(s).None? ==> FirstUnprintable(Lower(s)).None?
  {}

  lemma PrintedText(h: Text, word: seq<Byte>)
    requires Lower(h) == h && Symbols(word)
    ensures Print(word).Ok?
    ensures
      var t := h + [SEPARATOR] + Print(word).value;
      Lower(t) == t && LastSeparator(t) == Some(|h|) && t[..|h|] == h && t[|h| + 1..] == Print(word).value
  {
    PrintThenParse(word);
    var s := Print(word).value;
    var t := h + [SEPARATOR] + s;
    forall i | 0 <= i < |s|
      ensures LowerChar(s[i]) == s[i] && s[i] != SEPARATOR
    {
      CharsetFacts(word[i]);
    }
    LastSeparatorAt(h, s);
    forall i | 0 <= i < |t|
      ensures LowerChar(t[i]) == t[i]
    {
      assert i < |h| ==> t[i] == Lower(h)[i];
      assert i > |h| ==> t[i] == s[i - |h| - 1];
    }
  }

  lemma {:induction false} SplitPrinted(h: Text, word: seq<Byte>)
    requires Lower(h) == h && h != [] && FirstUnprintable(h).None?
    requires Symbols(word) && |word| >= 6
    ensures Print(word).Ok?
    ensures Split(h + [SEPARATOR] + Print(word).value) == Ok((h, word))
  {
    PrintThenParse(word);
    PrintedText(h, word);
  }

  lemma SplitParts(s: Text, h: Text, word: seq<Byte>)
    requires Split(s) == Ok((h, word))
    ensures h != [] && FirstUnprintable(h).None? && Symbols(word) && !MixedCase(s)
    ensures Print(word).Ok? && s == h + [SEPARATOR] + Print(word).value
  {
    var pos := LastSeparator(s).value;
    ParseThenPrint(s[pos + 1..]);
    CutAt(s, pos);
  }

  lemma CutAt(s: Text, pos: nat)
    requires pos < |s|
    ensures s == s[..pos] + [s[pos]] + s[pos + 1..]
  {}

  /** A printed word is decoded or refused according to its checksum alone. */
  lemma {:induction false} DecodePrinted(h: Text, word: seq<Byte>)
    requires Lower(h) == h && h != [] && FirstUnprintable(h).None?
    requires Symbols(word) && |word| >= 6
    ensures Print(word).Ok?
    ensures Decode(h + [SEPARATOR] + Print(word).value) ==
            if Valid(h, word) then Ok((h, word[..|word| - 6])) else Err(InvalidChecksum)
  {
    SplitPrinted(h, word);
  }

  /** An accepted word ends in the checksum of what precedes it. */
  lemma {:induction false} EndsInChecksum(h: Text, word: seq<Byte>)
    requires Symbols(word) && |word| >= 6
    ensures Valid(h, word) ==> word == word[..|word| - 6] + Checksum(h, word[..|word| - 6])
  {
    var data, c := word[..|word| - 6], word[|word| - 6..];
    assert word == data + c;
    ChecksumIsUnique(h, data, c);
  }

  lemma ChecksumShape(h: Text, data: seq<Byte>)
    requires Symbols(data)
    ensures |Checksum(h, data)| == 6 && Symbols(data + Checksum(h, data))
    ensures (data + Checksum(h, data))[..|data|] == data
  {}

  /** Decoding what was encoded returns the lowercased prefix and the data. */
  lemma {:induction false} EncodeThenDecode(hrp: Text, data: seq<Byte>)
    requires Encodable(hrp) && Symbols(data)
    ensures Encode(hrp, data).Ok?
    ensures Decode(Encode(hrp, data).value) == Ok((Lower(hrp), data))
  {
    var h := Lower(hrp);
    ChecksumShape(h, data);
    ChecksumIsAccepted(h, data);
    LowerIdempotent(hrp);
    DecodePrinted(h, data + Checksum(h, data));
  }

  lemma LowerPrefix(s: Text, n: nat)
    requires n <= |s| && Lower(s) == s
    ensures Lower(s[..n]) == s[..n]
  {
    assert forall i :: 0 <= i < n ==> Lower(s)[i] == LowerChar(s[i]);
  }

  /** An accepted string is reproduced by encoding its parts exactly when it has no uppercase letter. */
  lemma {:induction false} DecodeThenEncode(s: Text)
    ensures Decode(s).Ok? ==> (Encode(Decode(s).value.0, Decode(s).value.1) == Ok(s) <==> Lower(s) == s)
  {
    if Decode(s).Ok? {
      var (h, word) := Split(s).value;
      var data := word[..|word| - 6];
      SplitParts(s, h, word);
      assert s[..|h|] == h;
      if Lower(s) == s {
        LowerPrefix(s, |h|);
        EndsInChecksum(h, word);
      }
      if Encode(h, data) == Ok(s) {
        LowerIdempotent(h);
        ChecksumShape(Lower(h), data);
        PrintedText(Lower(h), data + Checksum(Lower(h), data));
      }
    }
  }

  const CHARSET: string := "qpzry9x8gf2tvdw0s3jn54khce6mua7l"

  /** The glyphs are the characters of the set, in its order. */
  lemma GlyphsAreTheCharset(v: nat)
    requires v < 32
    ensures Glyph(v) == CHARSET[v] as int
  {}

  /** Mixed case means a capital and a small letter, of the 26 of ASCII. */
  lemma {:induction false} MixedExactly(s: Text)
    ensures MixedCase(s) <==>
            (exists i :: 0 <= i < |s| && 'A' as int <= s[i] <= 'Z' as int)
            && (exists i :: 0 <= i < |s| && 'a' as int <= s[i] <= 'z' as int)
  {
    if exists i :: 0 <= i < |s| && 'A' as int <= s[i] <= 'Z' as int {
      var i :| 0 <= i < |s| && 'A' as int <= s[i] <= 'Z' as int;
      assert Lower(s)[i] != s[i];
    } else {
      assert Lower(s) == s;
    }
    if exists i :: 0 <= i < |s| && 'a' as int <= s[i] <= 'z' as int {
      var i :| 0 <= i < |s| && 'a' as int <= s[i] <= 'z' as int;
      assert Upper(s)[i] != s[i];
    } else {
      assert Upper(s) == s;
    }
  }

  /** Lowercasing turns each capital into the small letter at the same place in the alphabet and leaves the rest. */
  lemma LowerExactly(c: Ascii)
    ensures LowerChar(c) - c == if 'A' as int <= c <= 'Z' as int then 'a' as int - 'A' as int else 0
  {}

  /** Encoding succeeds exactly for encodable prefixes and data made of symbols. */
  lemma {:induction false} EncodesExactly(hrp: Str, data: seq<Byte>)
    ensures Encode(hrp, data).Ok? <==> hrp != [] && FirstUnprintable(hrp).None? && !MixedCase(hrp) && Symbols(data)
  {
    if hrp != [] && FirstUnprintable(hrp).None? && !MixedCase(hrp) {
      var h := Lower(hrp);
      if Symbols(data) {
        EncodeThenDecode(hrp, data);
      } else {
        PrintsSymbolsOnly(data + Checksum(h, data));
        assert forall i :: 0 <= i < |data| ==> (data + Checksum(h, data))[i] == data[i];
      }
    }
  }

  /** An encoded string begins with the lowercased prefix and the separator. */
  lemma {:induction false} EncodedBegins(hrp: Str, data: seq<Byte>)
    ensures Encode(hrp, data).Ok? ==>
              var s := Encode(hrp, data).value;
              |s| > |hrp| + 6 && s[|hrp|] == SEPARATOR && forall i :: 0 <= i < |hrp| ==> s[i] == LowerChar(hrp[i])
  {
    if Encode(hrp, data).Ok? {
      var h := Lower(hrp);
      BeginsWith(h, Print(data + Checksum(h, data)).value);
    }
  }

  lemma BeginsWith(h: Text, a: Text)
    ensures var s := h + [SEPARATOR] + a; s[|h|] == SEPARATOR && forall i :: 0 <= i < |h| ==> s[i] == h[i]
  {}

  lemma {:induction false} PrintsSymbolsOnly(values: seq<Byte>)
    ensures Print(values).Ok? ==> Symbols(values)
    decreases |values|
  {
    if values != [] {
      PrintsSymbolsOnly(values[1..]);
      assert values == [values[0]] + values[1..];
    }
  }

  /** A value that is no symbol is refused, the first one by name. */
  lemma {:induction false} FirstBadSymbol(values: seq<Byte>, i: nat)
    requires i < |values| && Symbols(values[..i]) && values[i] >= 32
    ensures Print(values) == Err(if values[i] == 32 then InvalidIndex(32) else InvalidValue(values[i], 32))
    decreases |values|
  {
    if i > 0 {
      assert values[..i][0] == values[0];
      assert values[1..][..i - 1] == values[..i][1..];
      FirstBadSymbol(values[1..], i - 1);
    }
  }

  /** What an accepted string looks like. */
  ghost predicate Shape(s: Text, h: Text, data: seq<Byte>) {
    && h != [] && FirstUnprintable(h).None? && Symbols(data) && !MixedCase(s)
    && Print(data + Checksum(h, data)).Ok? && s == h + [SEPARATOR] + Print(data + Checksum(h, data)).value
  }

  /**
   * A string is accepted with a prefix and data if and only if it is the printable prefix, the
   * separator, and the characters of the data and of its checksum, in one case.
   */
  lemma {:induction false} DecodesExactly(s: Text, h: Text, data: seq<Byte>)
    ensures Decode(s) == Ok((h, data)) <==> Shape(s, h, data)
  {
    if Decode(s) == Ok((h, data)) {
      var word := Split(s).value.1;
      SplitParts(s, h, word);
      EndsInChecksum(h, word);
    }
    if Shape(s, h, data) {
      var word := data + Checksum(h, data);
      ChecksumShape(h, data);
      ChecksumIsAccepted(h, data);
      SplitShape(s, h, word);
    }
  }

  lemma SplitShape(s: Text, h: Text, word: seq<Byte>)
    requires h != [] && FirstUnprintable(h).None? && Symbols(word) && |word| >= 6 && !MixedCase(s)
    requires Print(word).Ok? && s == h + [SEPARATOR] + Print(word).value
    ensures Split(s) == Ok((h, word))
  {
    PrintThenParse(word);
    var t := Print(word).value;
    forall i | 0 <= i < |t| ensures t[i] != SEPARATOR {
      CharsetFacts(word[i]);
    }
    LastSeparatorAt(h, t);
    assert s[..|h|] == h && s[|h| + 1..] == t;
  }
}
