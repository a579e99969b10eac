/** Human-readable addresses: the binary form, regrouped into five-bit symbols and printed with a checksum. */
module Address {
  import opened Base
  import opened Codec
  import DataFormat
  import DataLimits
  import DataCanonical
  import DataProgram
  import ConvertBits
  import Bech32Checksum
  import Bech32Text
  import Bech32Errors

  type Text = Bech32Text.Text

  const KEY_SIZE: nat := 32
  const EXTRA_DATA_LIMIT_SIZE: nat := 1024

  type Key = s: seq<Byte> | |s| == KEY_SIZE witness seq(KEY_SIZE, _ => 0)

  datatype AddressType = Normal | Data(element: DataFormat.DataElement)

  datatype Address = Address(mainnet: bool, kind: AddressType, key: Key)

  datatype Failure =
    | BadText(text: Bech32Text.Error)
    | InvalidPrefix(hrp: Text)
    | BadBits(bits: ConvertBits.Error)
    | BadBytes(bytes: ReaderError)

  /** `tos` on the main network, `tst` on the test network. */
  function Prefix(mainnet: bool): (h: Text)
    ensures |h| == 3
  {
    if mainnet then [116, 111, 115] else [116, 115, 116]
  }

  // --------------------------------------------------------- specification

  /** Integrated data as it is laid out in the bytes, in whatever order the maps are visited. */
  type Payload = Option<DataFormat.Layout>

  function KindOf(data: Payload): AddressType {
    match data
    case None => Normal
    case Some(o) => Data(DataFormat.Element(o))
  }

  function KindBytes(data: Payload): seq<Byte> {
    match data
    case None => [0]
    case Some(o) => [1] + DataFormat.Write(o)
  }

  function Compressed(key: Key, data: Payload): seq<Byte> {
    key + KindBytes(data)
  }

  function ReadKind(bs: seq<Byte>, at: nat): (r: Parsed<AddressType>)
    requires at <= |bs|
    ensures r.Read? ==> at <= r.next <= |bs|
  {
    match TakeU8(bs, at)
    case Fail(e) => Fail(e)
    case Read(tag, start) =>
      if tag == 0 then Read(Normal, start)
      else if tag > 1 then Fail(InvalidValue)
      else match DataFormat.ReadElement(bs, start)
        case Fail(e) => Fail(e)
        case Read(element, next) =>
          if next - start > EXTRA_DATA_LIMIT_SIZE then Fail(InvalidSize) else Read(Data(element), next)
  }

  /** Bytes after the address are ignored. */
  function Decompress(bs: seq<Byte>, mainnet: bool): Result<Address, Failure> {
    if |bs| < KEY_SIZE then Err(BadBytes(InvalidSize))
    else match ReadKind(bs, KEY_SIZE)
      case Fail(e) => Err(BadBytes(e))
      case Read(kind, _) => Ok(Address(mainnet, kind, bs[..KEY_SIZE]))
  }

  function AsText(bytes: seq<Byte>, mainnet: bool): Result<Text, Failure> {
    match ConvertBits.Convert(bytes, 8, 5, true)
    case Err(e) => Err(BadBits(e))
    case Ok(symbols) =>
      match Bech32Text.Encode(Prefix(mainnet), symbols)
      case Err(e) => Err(BadText(e))
      case Ok(s) => Ok(s)
  }

  function FromDecoded(decoded: Result<(Text, seq<Byte>), Bech32Text.Error>): Result<Address, Failure> {
    match decoded
    case Err(e) => Err(BadText(e))
    case Ok((hrp, symbols)) =>
      if hrp != Prefix(true) && hrp != Prefix(false) then Err(InvalidPrefix(hrp))
      else match ConvertBits.Convert(symbols, 5, 8, false)
        case Err(e) => Err(BadBits(e))
        case Ok(bytes) => Decompress(bytes, hrp == Prefix(true))
  }

  function FromText(s: Text): Result<Address, Failure> {
    FromDecoded(Bech32Text.Decode(s))
  }

  /** Parsing any string; `mixed` answers by the Unicode case tables. */
  function FromAny(mixed: Bech32Text.Str -> bool, s: Bech32Text.Str): Result<Address, Failure> {
    FromDecoded(Bech32Text.DecodeAny(mixed, s))
  }

  // -------------------------------------------------------------- theorems

  lemma PrefixFacts(mainnet: bool)
    ensures Bech32Text.Encodable(Prefix(mainnet)) && Bech32Text.Lower(Prefix(mainnet)) == Prefix(mainnet)
    ensures Prefix(true)[1] != Prefix(false)[1] && Prefix(true)[2] != Prefix(false)[2]
    ensures Prefix(mainnet) == Prefix(true) <==> mainnet
  {
    assert Prefix(true)[1] == 111 && Prefix(false)[1] == 115;
  }

  /** Printing always succeeds, and parsing the text is parsing the bytes that were printed. */
  lemma {:induction false} TextIsTransparent(bytes: seq<Byte>, mainnet: bool)
    ensures AsText(bytes, mainnet).Ok?
    ensures FromText(AsText(bytes, mainnet).value) == Decompress(bytes, mainnet)
  {
    PrefixFacts(mainnet);
    ConvertBits.BytesSurvive(bytes);
    var symbols := ConvertBits.Convert(bytes, 8, 5, true).value;
    Bech32Text.EncodeThenDecode(Prefix(mainnet), symbols);
  }

  /** Which addresses survive: the data is within the format's limits and takes at most 1024 bytes. */
  ghost predicate Integrable(kind: AddressType) {
    kind.Normal? || (DataLimits.Fits(kind.element) && DataFormat.Size(kind.element) <= EXTRA_DATA_LIMIT_SIZE)
  }

  ghost predicate WellFormed(data: Payload) {
    data.Some? ==> DataFormat.WellFormed(data.value)
  }

  lemma DataReadBack(before: seq<Byte>, o: DataFormat.Layout, after: seq<Byte>)
    requires DataFormat.WellFormed(o)
    ensures var r := ReadKind(before + KindBytes(Some(o)) + after, |before|);
            r.Read? && r.value == KindOf(Some(o)) <==> Integrable(KindOf(Some(o)))
  {
    var bs := before + KindBytes(Some(o)) + after;
    var w := DataFormat.Write(o);
    assert bs[|before|] == 1;
    Associate(before, [1], w);
    assert bs == before + [1] + w + after;
    DataLimits.ReadBackExactlyWhenFits(o, before + [1], after);
  }

  /**
   * For both networks, whatever the order in which maps are written and whatever bytes
   * follow, the address comes back from its text if and only if it is integrable.
   */
  lemma {:induction false} ReadBackExactlyWhenIntegrable(mainnet: bool, key: Key, data: Payload, after: seq<Byte>)
    requires WellFormed(data)
    ensures var s := AsText(Compressed(key, data) + after, mainnet);
            s.Ok? && (FromText(s.value) == Ok(Address(mainnet, KindOf(data), key)) <==> Integrable(KindOf(data)))
  {
    var bs := Compressed(key, data) + after;
    TextIsTransparent(bs, mainnet);
    assert bs[..KEY_SIZE] == key;
    match data
    case None => assert bs[KEY_SIZE] == 0;
    case Some(o) => DataReadBack(key, o, after);
  }

  /** The same for exactly the bytes of the address. */
  lemma {:induction false} AddressRoundTrip(mainnet: bool, key: Key, data: Payload)
    requires WellFormed(data)
    ensures var s := AsText(Compressed(key, data), mainnet);
            s.Ok? && (FromText(s.value) == Ok(Address(mainnet, KindOf(data), key)) <==> Integrable(KindOf(data)))
  {
    ReadBackExactlyWhenIntegrable(mainnet, key, data, []);
    assert Compressed(key, data) + [] == Compressed(key, data);
  }

  // ------------------------------------------------------------------ typos

  /** The network of an accepted text is told by its prefix. */
  lemma AcceptedNetwork(s: Text)
    ensures FromText(s).Ok? ==> Bech32Errors.AcceptedAs(s, Prefix(FromText(s).value.mainnet))
  {
    PrefixFacts(true);
    PrefixFacts(false);
  }

  lemma PrefixStands(s: Text, h: Text)
    requires |h| == 3
    ensures Bech32Errors.AcceptedAs(s, h) ==> |s| > 3 && s[3] == Bech32Text.SEPARATOR && s[..3] == h
  {
    if Bech32Errors.AcceptedAs(s, h) {
      var w, a := Bech32Errors.AcceptedWord(s, h);
      var t := h + [Bech32Text.SEPARATOR] + a;
      assert t[3] == Bech32Text.SEPARATOR && t[..3] == h;
    }
  }

  lemma AcceptedPrefix(s: Text)
    ensures FromText(s).Ok? ==>
              && |s| > 3 && s[3] == Bech32Text.SEPARATOR
              && s[..3] == Prefix(FromText(s).value.mainnet)
              && Bech32Errors.AcceptedAs(s, Prefix(FromText(s).value.mainnet))
  {
    AcceptedNetwork(s);
    PrefixStands(s, Prefix(true));
    PrefixStands(s, Prefix(false));
  }

  /** Two accepted address texts for the same network never differ within only six consecutive characters. */
  lemma {:induction false} NearAddressesCoincide(s: Text, t: Text, p: int)
    requires Bech32Errors.Near(s, t, p)
    ensures FromText(s).Ok? && FromText(t).Ok? && FromText(s).value.mainnet == FromText(t).value.mainnet ==> s == t
  {
    AcceptedPrefix(s);
    AcceptedPrefix(t);
    if FromText(s).Ok? {
      Bech32Errors.NearStringsCoincide(s, t, Prefix(FromText(s).value.mainnet), p);
    }
  }

  /** Texts for different networks differ in two characters of the prefix. */
  lemma OneCharacterOneNetwork(s: Text, i: nat, c: Bech32Text.Ascii)
    requires i < |s|
    ensures var t := s[i := c];
            FromText(s).Ok? && FromText(t).Ok? ==> FromText(s).value.mainnet == FromText(t).value.mainnet
  {
    var t := s[i := c];
    AcceptedPrefix(s);
    AcceptedPrefix(t);
    PrefixFacts(true);
    if FromText(s).Ok? && FromText(t).Ok? {
      assert s[1] == s[..3][1] && s[2] == s[..3][2] && t[1] == t[..3][1] && t[2] == t[..3][2];
    }
  }

  lemma {:induction false} AsciiTypoIsRejected(s: Text, i: nat, c: Bech32Text.Ascii)
    requires i < |s| && c != s[i]
    ensures FromText(s).Ok? ==> FromText(s[i := c]).Err?
  {
    var t := s[i := c];
    assert t[i] == c;
    OneCharacterOneNetwork(s, i, c);
    NearAddressesCoincide(s, t, i);
  }

  /** Every printed text begins with the network's name and the separator: "tos:" or "tst:". */
  lemma TextBegins(bytes: seq<Byte>, mainnet: bool)
    ensures
      var s := AsText(bytes, mainnet);
      s.Ok? && |s.value| > 4 && s.value[0] == 't' as int && s.value[3] == ':' as int
      && s.value[1] == (if mainnet then 'o' as int else 's' as int)
      && s.value[2] == (if mainnet then 's' as int else 't' as int)
  {
    PrefixFacts(mainnet);
    ConvertBits.BytesSurvive(bytes);
    var symbols, h := ConvertBits.Convert(bytes, 8, 5, true).value, Prefix(mainnet);
    Bech32Text.EncodesExactly(h, symbols);
    Bech32Text.EncodedBegins(h, symbols);
  }

  lemma SamePrintSameWord(v: seq<Byte>, w: seq<Byte>, a: Text)
    requires Bech32Checksum.Symbols(v) && Bech32Checksum.Symbols(w)
    requires Bech32Text.Print(v) == Ok(a) && Bech32Text.Print(w) == Ok(a)
    ensures v == w
  {
    Bech32Text.PrintThenParse(v);
    Bech32Text.PrintThenParse(w);
  }

  lemma LowerPrefixes()
    ensures Bech32Checksum.LowerLetters(Prefix(true)) && Bech32Checksum.LowerLetters(Prefix(false))
    ensures Prefix(true) != Prefix(false)
  {
    assert Prefix(true)[1] != Prefix(false)[1];
  }

  /** The same characters under the other network's prefix are refused: the checksum covers the prefix. */
  lemma OtherNetworkIsRejected(s: Text)
    ensures FromText(s).Ok? ==> |s| > 3 && FromText(Prefix(!FromText(s).value.mainnet) + s[3..]).Err?
  {
    AcceptedPrefix(s);
    if FromText(s).Ok? {
      var g, h := Prefix(FromText(s).value.mainnet), Prefix(!FromText(s).value.mainnet);
      var t := h + s[3..];
      if FromText(t).Ok? {
        AcceptedPrefix(t);
        assert t[..3] == h;
        LowerPrefixes();
        TwoPrefixes(s, t, g, h);
      }
    }
  }

  lemma SameTail(s: Text, t: Text, g: Text, h: Text, a: Text, b: Text)
    requires |g| == |h| == 3 && s == g + [Bech32Text.SEPARATOR] + a && t == h + [Bech32Text.SEPARATOR] + b
    requires t == h + s[3..]
    ensures a == b
  {
    assert s[4..] == a && t[4..] == b;
    assert t[4..] == s[3..][1..];
  }

  lemma TwoPrefixes(s: Text, t: Text, g: Text, h: Text)
    requires |g| == |h| == 3 && g != h && Bech32Checksum.LowerLetters(g) && Bech32Checksum.LowerLetters(h)
    requires |s| >= 3 && t == h + s[3..]
    ensures !(Bech32Errors.AcceptedAs(s, g) && Bech32Errors.AcceptedAs(t, h))
  {
    if Bech32Errors.AcceptedAs(s, g) && Bech32Errors.AcceptedAs(t, h) {
      var v, a := Bech32Errors.AcceptedWord(s, g);
      var w, b := Bech32Errors.AcceptedWord(t, h);
      SameTail(s, t, g, h, a, b);
      SamePrintSameWord(v, w, a);
      Bech32Checksum.PrefixIsCovered(g, h, v);
    }
  }

  /** Only ASCII strings are accepted. */
  lemma {:induction false} AcceptedIsPlain(mixed: Bech32Text.Str -> bool, s: Bech32Text.Str)
    ensures if Bech32Text.Plain(s) then FromAny(mixed, s) == FromText(s) else FromAny(mixed, s).Err?
  {
    Bech32Text.OnlyPlainIsAccepted(mixed, s);
  }

  /**
   * Replacing any one character of an accepted address, prefix and separator included, by any
   * other Unicode character is always noticed.
   */
  lemma {:induction false} TypoIsRejected(mixed: Bech32Text.Str -> bool, s: Bech32Text.Str, i: nat, c: Bech32Text.Scalar)
    requires i < |s| && c != s[i]
    ensures FromAny(mixed, s).Ok? ==> FromAny(mixed, s[i := c]).Err?
  {
    var t := s[i := c];
    assert t[i] == c;
    AcceptedIsPlain(mixed, s);
    AcceptedIsPlain(mixed, t);
    if Bech32Text.Plain(s) && c < 128 {
      AsciiTypoIsRejected(s, i, c);
    }
  }

  // ---------------------------------------------------- which texts are printed

  /** The bytes behind a text, if it decodes that far. */
  function BytesOf(s: Text): Option<seq<Byte>> {
    match Bech32Text.Decode(s)
    case Err(_) => None
    case Ok((_, symbols)) =>
      match ConvertBits.Convert(symbols, 5, 8, false)
      case Err(_) => None
      case Ok(bytes) => Some(bytes)
  }

  lemma {:induction false} AcceptedIsLower(s: Text, h: Text)
    requires Bech32Text.Lower(h) == h
    ensures Bech32Errors.AcceptedAs(s, h) ==> Bech32Text.Lower(s) == s
  {
    if Bech32Errors.AcceptedAs(s, h) {
      var w, a := Bech32Errors.AcceptedWord(s, h);
      Bech32Text.PrintedText(h, w);
    }
  }

  lemma AcceptedBytes(s: Text)
    ensures FromText(s).Ok? ==>
              && BytesOf(s).Some?
              && Decompress(BytesOf(s).value, FromText(s).value.mainnet) == FromText(s)
  {
    PrefixFacts(true);
    PrefixFacts(false);
  }

  /** Every accepted text is what is printed for the bytes behind it. */
  lemma {:induction false} AcceptedIsPrinted(s: Text)
    ensures FromText(s).Ok? ==>
              var mainnet := FromText(s).value.mainnet;
              BytesOf(s).Some? && AsText(BytesOf(s).value, mainnet) == Ok(s)
              && Decompress(BytesOf(s).value, mainnet) == FromText(s)
  {
    AcceptedNetwork(s);
    AcceptedBytes(s);
    if FromText(s).Ok? {
      var h := Prefix(FromText(s).value.mainnet);
      PrefixFacts(FromText(s).value.mainnet);
      AcceptedIsLower(s, h);
      Bech32Text.DecodeThenEncode(s);
      ConvertBits.NarrowThenWiden(Bech32Text.Decode(s).value.1, 5, 8, BytesOf(s).value);
    }
  }

  /** Different bytes are printed differently. */
  lemma {:induction false} AsTextInjective(x: seq<Byte>, y: seq<Byte>, mainnet: bool)
    ensures AsText(x, mainnet).Ok? && BytesOf(AsText(x, mainnet).value) == Some(x)
    ensures AsText(x, mainnet) == AsText(y, mainnet) ==> x == y
  {
    PrintedBytes(x, mainnet);
    PrintedBytes(y, mainnet);
  }

  lemma {:induction false} PrintedBytes(x: seq<Byte>, mainnet: bool)
    ensures AsText(x, mainnet).Ok? && BytesOf(AsText(x, mainnet).value) == Some(x)
  {
    PrefixFacts(mainnet);
    ConvertBits.BytesSurvive(x);
    Bech32Text.EncodeThenDecode(Prefix(mainnet), ConvertBits.Convert(x, 8, 5, true).value);
  }

  /** `as_string` may print `s` for `a`, in some order of the maps. */
  ghost predicate Prints(a: Address, s: Text) {
    exists d: Payload :: WellFormed(d) && KindOf(d) == a.kind && AsText(Compressed(a.key, d), a.mainnet) == Ok(s)
  }

  /** No byte follows the address, and no map level repeats a key. */
  ghost predicate Tight(bs: seq<Byte>) {
    |bs| > KEY_SIZE
    && if bs[KEY_SIZE] == 0 then |bs| == KEY_SIZE + 1
       else
         var r := DataFormat.ReadLayout(bs, KEY_SIZE + 1);
         r.Read? && r.next == |bs| && DataFormat.NoRepeats(r.value)
  }

  lemma TightData(bs: seq<Byte>, o: DataFormat.Layout)
    requires |bs| > KEY_SIZE && bs[KEY_SIZE] == 1
    requires DataFormat.ReadLayout(bs, KEY_SIZE + 1) == Read(o, |bs|) && DataFormat.NoRepeats(o)
    ensures DataFormat.WellFormed(o) && Compressed(bs[..KEY_SIZE], Some(o)) == bs
  {
    DataCanonical.LayoutStands(bs, KEY_SIZE + 1, o, |bs|);
    DataFormat.WellFormedParts(o);
    AroundTag(bs, DataFormat.Write(o));
  }

  lemma AroundTag(bs: seq<Byte>, w: seq<Byte>)
    requires |bs| > KEY_SIZE && bs[KEY_SIZE] == 1 && DataCanonical.Between(bs, KEY_SIZE + 1, w, |bs|)
    ensures bs == bs[..KEY_SIZE] + ([1] + w)
  {
    assert bs == bs[..KEY_SIZE] + ([bs[KEY_SIZE]] + bs[KEY_SIZE + 1..]);
  }

  /** Tight bytes are the compressed form of what they are read as. */
  lemma TightIsCompressed(bs: seq<Byte>, mainnet: bool) returns (d: Payload)
    requires Tight(bs) && Decompress(bs, mainnet).Ok?
    ensures WellFormed(d) && KindOf(d) == Decompress(bs, mainnet).value.kind
    ensures Compressed(Decompress(bs, mainnet).value.key, d) == bs
  {
    if bs[KEY_SIZE] == 0 {
      d := None;
      assert bs == bs[..KEY_SIZE] + [0];
    } else {
      var o := DataFormat.ReadLayout(bs, KEY_SIZE + 1).value;
      d := Some(o);
      TightData(bs, o);
    }
  }

  lemma WrittenDataIsTight(key: Key, o: DataFormat.Layout, mainnet: bool)
    requires DataFormat.WellFormed(o)
    ensures var bs := Compressed(key, Some(o));
            Decompress(bs, mainnet) == Ok(Address(mainnet, KindOf(Some(o)), key)) ==> Tight(bs)
  {
    var bs := Compressed(key, Some(o));
    var before := key + [1];
    Associate(key, [1], DataFormat.Write(o));
    assert bs == before + DataFormat.Write(o) + [];
    assert bs[KEY_SIZE] == 1;
    DataLimits.ReadBackExactlyWhenFits(o, before, []);
    if DataLimits.Fits(DataFormat.Element(o)) {
      DataLimits.FittingLayout(o);
      DataFormat.WellFormedParts(o);
      AtWhole(before, DataFormat.Write(o), []);
      DataFormat.LayoutRoundTrip(o, bs, |before|);
    }
  }

  /** Compressed forms that are read back are tight. */
  lemma CompressedIsTight(key: Key, d: Payload, mainnet: bool)
    requires WellFormed(d)
    ensures Decompress(Compressed(key, d), mainnet) == Ok(Address(mainnet, KindOf(d), key)) ==> Tight(Compressed(key, d))
  {
    match d
    case None => assert Compressed(key, None)[KEY_SIZE] == 0;
    case Some(o) => WrittenDataIsTight(key, o, mainnet);
  }

  /**
   * An accepted text is one that `as_string` prints for its address if and only if no byte
   * follows the address and no map level repeats a key.
   */
  lemma {:induction false} PrintedExactlyWhenTight(s: Text)
    ensures FromText(s).Ok? ==> BytesOf(s).Some? && (Prints(FromText(s).value, s) <==> Tight(BytesOf(s).value))
  {
    if FromText(s).Ok? {
      var a := FromText(s).value;
      AcceptedIsPrinted(s);
      var bs := BytesOf(s).value;
      if Tight(bs) {
        var d := TightIsCompressed(bs, a.mainnet);
        assert AsText(Compressed(a.key, d), a.mainnet) == Ok(s);
      }
      if Prints(a, s) {
        var d: Payload :| WellFormed(d) && KindOf(d) == a.kind && AsText(Compressed(a.key, d), a.mainnet) == Ok(s);
        AsTextInjective(Compressed(a.key, d), bs, a.mainnet);
        CompressedIsTight(a.key, d, a.mainnet);
      }
    }
  }

  /** Two byte strings that are printed as different texts, both of which are read as `a`. */
  ghost predicate TwoTexts(x: seq<Byte>, y: seq<Byte>, a: Address) {
    var s, t := AsText(x, a.mainnet), AsText(y, a.mainnet);
    s.Ok? && t.Ok? && s.value != t.value && FromText(s.value) == FromText(t.value) == Ok(a)
  }

  lemma {:induction false} SameReading(x: seq<Byte>, y: seq<Byte>, a: Address)
    requires x != y && Decompress(x, a.mainnet) == Ok(a) && Decompress(y, a.mainnet) == Ok(a)
    ensures TwoTexts(x, y, a)
  {
    TextIsTransparent(x, a.mainnet);
    TextIsTransparent(y, a.mainnet);
    AsTextInjective(x, y, a.mainnet);
  }

  /** What compressed bytes with anything behind them are read as; a repeated key is no obstacle. */
  lemma ReadableData(key: Key, o: DataFormat.Layout, mainnet: bool, after: seq<Byte>)
    requires DataFormat.Readable(o) && DataFormat.WithinLimits(o) && |DataFormat.Write(o)| <= EXTRA_DATA_LIMIT_SIZE
    ensures Decompress(Compressed(key, Some(o)) + after, mainnet) == Ok(Address(mainnet, Data(DataFormat.Element(o)), key))
  {
    var bs := Compressed(key, Some(o)) + after;
    var w := DataFormat.Write(o);
    Associate(key, [1], w);
    assert bs == (key + [1]) + w + after;
    AtWhole(key + [1], w, after);
    DataFormat.LayoutRoundTrip(o, bs, KEY_SIZE + 1);
    assert bs[..KEY_SIZE] == key && bs[KEY_SIZE] == 1;
  }

  lemma ReadableNormal(key: Key, mainnet: bool, after: seq<Byte>)
    ensures Decompress(Compressed(key, None) + after, mainnet) == Ok(Address(mainnet, Normal, key))
  {
    var bs := Compressed(key, None) + after;
    assert bs[..KEY_SIZE] == key && bs[KEY_SIZE] == 0;
  }

  function ZeroKey(): Key {
    seq(KEY_SIZE, _ => 0)
  }

  /** One zero byte more: two texts of the main-network address with the zero key. */
  lemma {:induction false} TrailingByteExample()
    ensures TwoTexts(Compressed(ZeroKey(), None), Compressed(ZeroKey(), None) + [0], Address(true, Normal, ZeroKey()))
  {
    var x := Compressed(ZeroKey(), None);
    ReadableNormal(ZeroKey(), true, []);
    ReadableNormal(ZeroKey(), true, [0]);
    assert x + [] == x;
    SameReading(x, x + [0], Address(true, Normal, ZeroKey()));
  }

  /** A map with one entry, and the same entry written twice. */
  function Entries(n: nat): DataFormat.Layout {
    DataFormat.Keyed(seq(n, _ => DataFormat.Bool(true)), seq(n, _ => DataFormat.One(DataFormat.Bool(true))))
  }

  lemma EntriesFacts()
    ensures DataFormat.Element(Entries(1)) == DataFormat.Element(Entries(2))
    ensures DataFormat.Readable(Entries(1)) && DataFormat.WithinLimits(Entries(1)) && |DataFormat.Write(Entries(1))| == 7
    ensures DataFormat.Readable(Entries(2)) && DataFormat.WithinLimits(Entries(2)) && |DataFormat.Write(Entries(2))| == 12
  {
    var v, o := DataFormat.Bool(true), DataFormat.One(DataFormat.Bool(true));
    assert Entries(1) == DataFormat.Keyed([v], [o]) && Entries(2) == DataFormat.Keyed([v, v], [o, o]);
    assert [v, v][1..] == [v] && [o, o][1..] == [o];
    assert [v][1..] == [] && [o][1..] == [];
  }

  /** One entry written twice: two texts of an address with integrated data. */
  lemma {:induction false} RepeatedKeyExample()
    ensures TwoTexts(Compressed(ZeroKey(), Some(Entries(1))), Compressed(ZeroKey(), Some(Entries(2))),
                     Address(true, Data(DataFormat.Element(Entries(1))), ZeroKey()))
  {
    var x, y := Compressed(ZeroKey(), Some(Entries(1))), Compressed(ZeroKey(), Some(Entries(2)));
    EntriesFacts();
    ReadableData(ZeroKey(), Entries(1), true, []);
    ReadableData(ZeroKey(), Entries(2), true, []);
    assert x + [] == x && y + [] == y;
    assert |x| != |y|;
    SameReading(x, y, Address(true, Data(DataFormat.Element(Entries(1))), ZeroKey()));
  }

  // ----------------------------------------------------------- the programs

  /** The key and the type, through the writer. */
  method Compress(a: Address) returns (buffer: seq<Byte>, ghost data: Payload)
    requires a.kind.Data? ==> DataProgram.TypedElement(a.kind.element)
    ensures WellFormed(data) && KindOf(data) == a.kind && buffer == Compressed(a.key, data)
  {
    var w := new Writer();
    w.WriteBytes(a.key);
    match a.kind {
      case Normal =>
        w.WriteBytes([0]);
        data := None;
      case Data(element) =>
        w.WriteBytes([1]);
        ghost var o := DataProgram.WriteElementTo(w, element);
        data := Some(o);
        Associate(a.key, [1], DataFormat.Write(o));
    }
    buffer := w.bytes;
    assert [] + a.key == a.key;
  }

  method RunAsText(bytes: seq<Byte>, mainnet: bool) returns (r: Result<Text, Failure>)
    ensures r == AsText(bytes, mainnet)
  {
    var bits := ConvertBits.Run(bytes, 8, 5, true);
    if bits.Err? {
      return Err(BadBits(bits.error));
    }
    var text := Bech32Text.RunEncode(Prefix(mainnet), bits.value);
    r := match text case Err(e) => Err(BadText(e)) case Ok(s) => Ok(s);
  }

  /** The text of an address: parsing it gives the address back exactly when it is integrable. */
  method AsString(a: Address) returns (r: Result<Text, Failure>)
    requires a.kind.Data? ==> DataProgram.TypedElement(a.kind.element)
    ensures r.Ok? && (FromText(r.value) == Ok(a) <==> Integrable(a.kind))
  {
    var buffer, data := Compress(a);
    r := RunAsText(buffer, a.mainnet);
    AddressRoundTrip(a.mainnet, a.key, data);
  }

  method ReadKindFrom(r: Reader) returns (p: Parsed<AddressType>)
    requires r.Valid()
    modifies r
    ensures p == ReadKind(r.bytes, old(r.total))
  {
    var tag := r.ReadU8();
    if tag.Fail? {
      return Fail(tag.error);
    }
    if tag.value == 0 {
      return Read(Normal, r.total);
    }
    if tag.value != 1 {
      return Fail(InvalidValue);
    }
    var start := r.total;
    var element := DataProgram.ReadElementFrom(r);
    if element.Fail? {
      return Fail(element.error);
    }
    if r.total - start > EXTRA_DATA_LIMIT_SIZE {
      return Fail(InvalidSize);
    }
    p := Read(Data(element.value), r.total);
  }

  method FromString(mixed: Bech32Text.Str -> bool, s: Bech32Text.Str) returns (r: Result<Address, Failure>)
    ensures r == FromAny(mixed, s)
    ensures if Bech32Text.Plain(s) then r == FromText(s) else r.Err?
  {
    AcceptedIsPlain(mixed, s);
    var decoded := Bech32Text.RunDecode(mixed, s);
    if decoded.Err? {
      return Err(BadText(decoded.error));
    }
    var (hrp, symbols) := decoded.value;
    if hrp != Prefix(true) && hrp != Prefix(false) {
      return Err(InvalidPrefix(hrp));
    }
    var bits := ConvertBits.Run(symbols, 5, 8, false);
    if bits.Err? {
      return Err(BadBits(bits.error));
    }
    var reader := new Reader(bits.value);
    var key := reader.ReadBytes(KEY_SIZE);
    if key.Fail? {
      return Err(BadBytes(key.error));
    }
    var kind := ReadKindFrom(reader);
    if kind.Fail? {
      return Err(BadBytes(kind.error));
    }
    var a := Address(hrp == Prefix(true), kind.value, key.value);
    if hrp != Prefix(a.mainnet) {
      return Err(InvalidPrefix(hrp));
    }
    r := Ok(a);
  }
}
