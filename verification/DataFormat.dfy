/**
 * The recursive binary format of structured data. Maps are written in whatever order the
 * hash map yields its entries, so the written form is an ordered copy of the element.
 */
module DataFormat {
  import opened Base
  import opened Codec

  datatype DataValue =
    | Bool(b: bool)
    | Text(s: seq<Byte>)
    | U8(n8: nat)
    | U16(n16: nat)
    | U32(n32: nat)
    | U64Value(n64: nat)
    | U128(n128: nat)
    | HashValue(h: seq<Byte>)
    | Blob(bytes: seq<Byte>)

  datatype DataElement =
    | Value(value: DataValue)
    | Array(items: seq<DataElement>)
    | Fields(fields: map<DataValue, DataElement>)

  /** An element as it lies in the bytes: map entries in some order. */
  datatype Layout =
    | One(value: DataValue)
    | Many(items: seq<Layout>)
    | Keyed(keys: seq<DataValue>, values: seq<Layout>)

  /** What the element types of the program guarantee by themselves. */
  predicate Typed(v: DataValue) {
    match v
    case Bool(_) => true
    case Text(s) => Utf8(s)
    case U8(n) => n < Pow256(1)
    case U16(n) => n < Pow256(2)
    case U32(n) => n < Pow256(4)
    case U64Value(n) => n < Pow256(8)
    case U128(n) => n < Pow256(16)
    case HashValue(h) => |h| == 32
    case Blob(_) => true
  }

  /** The sizes the reader accepts: 255-byte strings and 1024-byte blobs. */
  predicate Small(v: DataValue) {
    match v
    case Text(s) => |s| <= 255
    case Blob(b) => |b| <= 1024
    case _ => true
  }

  function Kind(v: DataValue): Byte {
    match v
    case Bool(_) => 0
    case Text(_) => 1
    case U8(_) => 2
    case U16(_) => 3
    case U32(_) => 4
    case U64Value(_) => 5
    case U128(_) => 6
    case HashValue(_) => 7
    case Blob(_) => 8
  }

  function Payload(v: DataValue): seq<Byte> {
    match v
    case Bool(b) => [if b then 1 else 0]
    case Text(s) => StringBytes(s)
    case U8(n) => ToBE(n, 1)
    case U16(n) => ToBE(n, 2)
    case U32(n) => ToBE(n, 4)
    case U64Value(n) => ToBE(n, 8)
    case U128(n) => ToBE(n, 16)
    case HashValue(h) => h
    case Blob(b) => ToBE(AsU16(|b|), 2) + b
  }

  function WriteValue(v: DataValue): (b: seq<Byte>)
    ensures |b| >= 1
  {
    [Kind(v)] + Payload(v)
  }

  function ReadBlob(bs: seq<Byte>, at: nat): (r: Parsed<seq<Byte>>)
    requires at <= |bs|
    ensures r.Read? ==> at <= r.next <= |bs|
  {
    match TakeInt(bs, at, 2)
    case Fail(e) => Fail(e)
    case Read(n, next) => if n > 1024 then Fail(InvalidSize) else TakeBytes(bs, next, n)
  }

  /** Bytes of the integer kinds 2 to 6. */
  function Width(kind: Byte): nat {
    if kind == 2 then 1 else if kind == 3 then 2 else if kind == 4 then 4 else if kind == 5 then 8 else 16
  }

  function Integer(kind: Byte, n: nat): DataValue {
    if kind == 2 then U8(n) else if kind == 3 then U16(n) else if kind == 4 then U32(n)
    else if kind == 5 then U64Value(n) else U128(n)
  }

  function ReadPayload(kind: Byte, bs: seq<Byte>, at: nat): (r: Parsed<DataValue>)
    requires at <= |bs|
    ensures r.Read? ==> at <= r.next <= |bs|
  {
    if kind == 0 then
      match TakeBool(bs, at)
      case Fail(e) => Fail(e)
      case Read(b, next) => Read(Bool(b), next)
    else if kind == 1 then
      match TakeString(bs, at)
      case Fail(e) => Fail(e)
      case Read(s, next) => Read(Text(s), next)
    else if kind <= 6 then
      match TakeInt(bs, at, Width(kind))
      case Fail(e) => Fail(e)
      case Read(n, next) => Read(Integer(kind, n), next)
    else if kind == 7 then
      match TakeBytes(bs, at, 32)
      case Fail(e) => Fail(e)
      case Read(h, next) => Read(HashValue(h), next)
    else if kind == 8 then
      match ReadBlob(bs, at)
      case Fail(e) => Fail(e)
      case Read(b, next) => Read(Blob(b), next)
    else Fail(InvalidValue)
  }

  function ReadValue(bs: seq<Byte>, at: nat): (r: Parsed<DataValue>)
    requires at <= |bs|
    ensures r.Read? ==> at < r.next <= |bs|
  {
    match TakeU8(bs, at)
    case Fail(e) => Fail(e)
    case Read(kind, next) => ReadPayload(kind, bs, next)
  }

  // ------------------------------------------------------------ elements

  function Write(o: Layout): (b: seq<Byte>)
    ensures |b| >= 1
    decreases o
  {
    match o
    case One(v) => [0] + WriteValue(v)
    case Many(items) => [1, AsU8(|items|)] + WriteItems(items)
    case Keyed(keys, values) => [2, AsU8(|values|)] + WriteEntries(keys, values)
  }

  function WriteItems(items: seq<Layout>): seq<Byte>
    decreases items
  {
    if items == [] then [] else Write(items[0]) + WriteItems(items[1..])
  }

  function WriteEntries(keys: seq<DataValue>, values: seq<Layout>): seq<Byte>
    decreases values
  {
    if keys == [] || values == [] then []
    else WriteValue(keys[0]) + (Write(values[0]) + WriteEntries(keys[1..], values[1..]))
  }

  /** The reader, keeping the order in which map entries were met. */
  function ReadLayout(bs: seq<Byte>, at: nat): (r: Parsed<Layout>)
    requires at <= |bs|
    ensures r.Read? ==> at < r.next <= |bs|
    decreases |bs| - at, 0, 0
  {
    match TakeU8(bs, at)
    case Fail(e) => Fail(e)
    case Read(tag, next) =>
      if tag == 0 then
        match ReadValue(bs, next)
        case Fail(e) => Fail(e)
        case Read(v, end) => Read(One(v), end)
      else if tag > 2 then Fail(InvalidValue)
      else
        match TakeU8(bs, next)
        case Fail(e) => Fail(e)
        case Read(n, start) =>
          if tag == 1 then
            match ReadItems(bs, start, n)
            case Fail(e) => Fail(e)
            case Read(items, end) => Read(Many(items), end)
          else
            match ReadEntries(bs, start, n)
            case Fail(e) => Fail(e)
            case Read((keys, values), end) => Read(Keyed(keys, values), end)
  }

  function ReadItems(bs: seq<Byte>, at: nat, n: nat): (r: Parsed<seq<Layout>>)
    requires at <= |bs|
    ensures r.Read? ==> at <= r.next <= |bs| && |r.value| == n
    decreases |bs| - at, 1, n
  {
    if n == 0 then Read([], at)
    else
      match ReadLayout(bs, at)
      case Fail(e) => Fail(e)
      case Read(item, next) =>
        match ReadItems(bs, next, n - 1)
        case Fail(e) => Fail(e)
        case Read(items, end) => Read([item] + items, end)
  }

  function ReadEntries(bs: seq<Byte>, at: nat, n: nat): (r: Parsed<(seq<DataValue>, seq<Layout>)>)
    requires at <= |bs|
    ensures r.Read? ==> at <= r.next <= |bs| && |r.value.0| == |r.value.1| == n
    decreases |bs| - at, 1, n
  {
    if n == 0 then Read(([], []), at)
    else
      match ReadValue(bs, at)
      case Fail(e) => Fail(e)
      case Read(key, next) =>
        match ReadLayout(bs, next)
        case Fail(e) => Fail(e)
        case Read(value, after) =>
          match ReadEntries(bs, after, n - 1)
          case Fail(e) => Fail(e)
          case Read((keys, values), end) => Read(([key] + keys, [value] + values), end)
  }

  /** The element a layout denotes: entries are inserted in order, a repeated key overwrites. */
  function Element(o: Layout): DataElement
    decreases o
  {
    match o
    case One(v) => Value(v)
    case Many(items) => Array(Elements(items))
    case Keyed(keys, values) => Fields(Insert(map[], keys, Elements(values)))
  }

  function Elements(items: seq<Layout>): (r: seq<DataElement>)
    ensures |r| == |items|
    decreases items
  {
    if items == [] then [] else [Element(items[0])] + Elements(items[1..])
  }

  function Insert(m: map<DataValue, DataElement>, keys: seq<DataValue>, values: seq<DataElement>): map<DataValue, DataElement>
    decreases |keys|
  {
    if keys == [] || values == [] then m else Insert(m[keys[0] := values[0]], keys[1..], values[1..])
  }

  /** Reading an element. */
  function ReadElement(bs: seq<Byte>, at: nat): (r: Parsed<DataElement>)
    requires at <= |bs|
    ensures r.Read? ==> at < r.next <= |bs|
  {
    match ReadLayout(bs, at)
    case Fail(e) => Fail(e)
    case Read(o, next) => Read(Element(o), next)
  }

  // ------------------------------------------------------------- validity

  /** Well-typed throughout, each map level with as many values as distinct keys. */
  ghost predicate WellFormed(o: Layout)
    decreases o
  {
    match o
    case One(v) => Typed(v)
    case Many(items) => AllWellFormed(items)
    case Keyed(keys, values) => |keys| == |values| && Distinct(keys) && AllTyped(keys) && AllWellFormed(values)
  }

  ghost predicate AllWellFormed(items: seq<Layout>)
    decreases items
  {
    items == [] || (WellFormed(items[0]) && AllWellFormed(items[1..]))
  }

  ghost predicate AllTyped(keys: seq<DataValue>) {
    keys == [] || (Typed(keys[0]) && AllTyped(keys[1..]))
  }

  ghost predicate Distinct(keys: seq<DataValue>) {
    keys == [] || (keys[0] !in keys[1..] && Distinct(keys[1..]))
  }

  /** Well-typed throughout, each map level with as many values as keys; keys may repeat. */
  ghost predicate Readable(o: Layout)
    decreases o
  {
    match o
    case One(v) => Typed(v)
    case Many(items) => AllReadable(items)
    case Keyed(keys, values) => |keys| == |values| && AllTyped(keys) && AllReadable(values)
  }

  ghost predicate AllReadable(items: seq<Layout>)
    decreases items
  {
    items == [] || (Readable(items[0]) && AllReadable(items[1..]))
  }

  /** No map level repeats a key. */
  ghost predicate NoRepeats(o: Layout)
    decreases o
  {
    match o
    case One(_) => true
    case Many(items) => NoneRepeats(items)
    case Keyed(keys, values) => Distinct(keys) && NoneRepeats(values)
  }

  ghost predicate NoneRepeats(items: seq<Layout>)
    decreases items
  {
    items == [] || (NoRepeats(items[0]) && NoneRepeats(items[1..]))
  }

  lemma {:induction false} WellFormedParts(o: Layout)
    ensures WellFormed(o) <==> Readable(o) && NoRepeats(o)
    decreases o, 0
  {
    match o
    case One(_) =>
    case Many(items) => WellFormedItems(items);
    case Keyed(_, values) => WellFormedItems(values);
  }

  lemma {:induction false} WellFormedItems(items: seq<Layout>)
    ensures AllWellFormed(items) <==> AllReadable(items) && NoneRepeats(items)
    decreases items, 1
  {
    if items != [] {
      WellFormedParts(items[0]);
      WellFormedItems(items[1..]);
    }
  }

  /** At most 255 items on every level, and small strings and blobs. */
  ghost predicate WithinLimits(o: Layout)
    decreases o
  {
    match o
    case One(v) => Small(v)
    case Many(items) => |items| <= 255 && AllWithinLimits(items)
    case Keyed(keys, values) => |keys| == |values| <= 255 && AllSmall(keys) && AllWithinLimits(values)
  }

  ghost predicate AllWithinLimits(items: seq<Layout>)
    decreases items
  {
    items == [] || (WithinLimits(items[0]) && AllWithinLimits(items[1..]))
  }

  ghost predicate AllSmall(keys: seq<DataValue>) {
    keys == [] || (Small(keys[0]) && AllSmall(keys[1..]))
  }

  // ------------------------------------------------------------ round trip

  lemma PayloadRoundTrip(v: DataValue, bs: seq<Byte>, at: nat)
    requires Typed(v) && Small(v) && At(bs, at, Payload(v))
    ensures ReadPayload(Kind(v), bs, at) == Read(v, at + |Payload(v)|)
  {
    match v
    case Bool(b) => AtByte(bs, at, if b then 1 else 0);
    case Text(s) => AtString(bs, at, s, true);
    case U8(n) => AtInt(bs, at, n, 1);
    case U16(n) => AtInt(bs, at, n, 2);
    case U32(n) => AtInt(bs, at, n, 4);
    case U64Value(n) => AtInt(bs, at, n, 8);
    case U128(n) => AtInt(bs, at, n, 16);
    case HashValue(h) =>
    case Blob(b) => BlobRoundTrip(b, bs, at);
  }

  lemma BlobRoundTrip(b: seq<Byte>, bs: seq<Byte>, at: nat)
    requires |b| <= 1024 && At(bs, at, ToBE(AsU16(|b|), 2) + b)
    ensures ReadBlob(bs, at) == Read(b, at + 2 + |b|)
  {
    CountedBytes(|b|, b, bs, at);
    BlobStep(b, bs, at);
  }

  lemma CountedBytes(n: nat, b: seq<Byte>, bs: seq<Byte>, at: nat)
    requires n < 65536 && At(bs, at, ToBE(n, 2) + b)
    ensures TakeInt(bs, at, 2) == Read(n, at + 2) && At(bs, at + 2, b)
  {
    AtSplit(bs, at, ToBE(n, 2), b);
    TwoBytes(n);
    AtInt(bs, at, n, 2);
  }

  lemma BlobStep(b: seq<Byte>, bs: seq<Byte>, at: nat)
    requires at <= |bs| && |b| <= 1024 && TakeInt(bs, at, 2) == Read(|b|, at + 2) && At(bs, at + 2, b)
    ensures ReadBlob(bs, at) == Read(b, at + 2 + |b|)
  {}

  lemma TwoBytes(n: nat)
    requires n < 65536
    ensures n < Pow256(2)
  {
    IntWidths();
  }

  lemma ValueRoundTrip(v: DataValue, bs: seq<Byte>, at: nat)
    requires Typed(v) && Small(v) && At(bs, at, WriteValue(v))
    ensures ReadValue(bs, at) == Read(v, at + |WriteValue(v)|)
  {
    AtSplit(bs, at, [Kind(v)], Payload(v));
    AtByte(bs, at, Kind(v));
    PayloadRoundTrip(v, bs, at + 1);
  }

  lemma TagAndCount(tag: Byte, n: Byte, rest: seq<Byte>, bs: seq<Byte>, at: nat)
    requires At(bs, at, [tag, n] + rest)
    ensures TakeU8(bs, at) == Read(tag, at + 1) && TakeU8(bs, at + 1) == Read(n, at + 2) && At(bs, at + 2, rest)
  {
    AtSplit(bs, at, [tag, n], rest);
    assert [tag, n] == [tag] + [n];
    AtSplit(bs, at, [tag], [n]);
    AtByte(bs, at, tag);
    AtByte(bs, at + 1, n);
  }

  lemma ItemsStep(bs: seq<Byte>, at: nat, n: nat, item: Layout, next: nat, items: seq<Layout>, end: nat)
    requires at <= |bs| && n > 0
    requires ReadLayout(bs, at) == Read(item, next) && ReadItems(bs, next, n - 1) == Read(items, end)
    ensures ReadItems(bs, at, n) == Read([item] + items, end)
  {}

  lemma EntriesStep(bs: seq<Byte>, at: nat, n: nat, key: DataValue, next: nat, value: Layout, after: nat,
                    keys: seq<DataValue>, values: seq<Layout>, end: nat)
    requires at <= |bs| && n > 0
    requires ReadValue(bs, at) == Read(key, next) && ReadLayout(bs, next) == Read(value, after)
    requires ReadEntries(bs, after, n - 1) == Read((keys, values), end)
    ensures ReadEntries(bs, at, n) == Read(([key] + keys, [value] + values), end)
  {}

  lemma ManyStep(bs: seq<Byte>, at: nat, n: Byte, items: seq<Layout>, end: nat)
    requires at + 2 <= |bs| && TakeU8(bs, at) == Read(1, at + 1) && TakeU8(bs, at + 1) == Read(n, at + 2)
    requires ReadItems(bs, at + 2, n) == Read(items, end)
    ensures ReadLayout(bs, at) == Read(Many(items), end)
  {}

  lemma KeyedStep(bs: seq<Byte>, at: nat, n: Byte, keys: seq<DataValue>, values: seq<Layout>, end: nat)
    requires at + 2 <= |bs| && TakeU8(bs, at) == Read(2, at + 1) && TakeU8(bs, at + 1) == Read(n, at + 2)
    requires ReadEntries(bs, at + 2, n) == Read((keys, values), end)
    ensures ReadLayout(bs, at) == Read(Keyed(keys, values), end)
  {}

  lemma OneRoundTrip(v: DataValue, bs: seq<Byte>, at: nat)
    requires Typed(v) && Small(v) && At(bs, at, [0] + WriteValue(v))
    ensures ReadLayout(bs, at) == Read(One(v), at + 1 + |WriteValue(v)|)
  {
    AtSplit(bs, at, [0], WriteValue(v));
    AtByte(bs, at, 0);
    ValueRoundTrip(v, bs, at + 1);
  }

  /** Whatever surrounds it, a written layout within the limits is read back exactly. */
  lemma {:induction false} LayoutRoundTrip(o: Layout, bs: seq<Byte>, at: nat)
    requires Readable(o) && WithinLimits(o) && At(bs, at, Write(o))
    ensures ReadLayout(bs, at) == Read(o, at + |Write(o)|)
    decreases o, 2
  {
    match o
    case One(v) => OneRoundTrip(v, bs, at);
    case Many(items) => ManyRoundTrip(items, |items|, bs, at);
    case Keyed(keys, values) => KeyedRoundTrip(keys, values, |values|, bs, at);
  }

  lemma {:induction false} ManyRoundTrip(items: seq<Layout>, n: Byte, bs: seq<Byte>, at: nat)
    requires AllReadable(items) && AllWithinLimits(items) && |items| == n
    requires At(bs, at, [1, n] + WriteItems(items))
    ensures ReadLayout(bs, at) == Read(Many(items), at + 2 + |WriteItems(items)|)
    decreases items, 2
  {
    TagAndCount(1, n, WriteItems(items), bs, at);
    ItemsRoundTrip(items, bs, at + 2);
    ManyStep(bs, at, n, items, at + 2 + |WriteItems(items)|);
  }

  lemma {:induction false} KeyedRoundTrip(keys: seq<DataValue>, values: seq<Layout>, n: Byte, bs: seq<Byte>, at: nat)
    requires |keys| == |values| == n
    requires AllTyped(keys) && AllSmall(keys) && AllReadable(values) && AllWithinLimits(values)
    requires At(bs, at, [2, n] + WriteEntries(keys, values))
    ensures ReadLayout(bs, at) == Read(Keyed(keys, values), at + 2 + |WriteEntries(keys, values)|)
    decreases values, 2
  {
    TagAndCount(2, n, WriteEntries(keys, values), bs, at);
    EntriesRoundTrip(keys, values, bs, at + 2);
    KeyedStep(bs, at, n, keys, values, at + 2 + |WriteEntries(keys, values)|);
  }

  lemma {:induction false} ItemParts(items: seq<Layout>, bs: seq<Byte>, at: nat) returns (a1: nat, end: nat)
    requires items != [] && At(bs, at, WriteItems(items))
    ensures a1 == at + |Write(items[0])| && At(bs, at, Write(items[0]))
    ensures end == a1 + |WriteItems(items[1..])| && At(bs, a1, WriteItems(items[1..]))
    ensures end == at + |WriteItems(items)|
  {
    AtSplit(bs, at, Write(items[0]), WriteItems(items[1..]));
    a1 := at + |Write(items[0])|;
    end := a1 + |WriteItems(items[1..])|;
  }

  lemma {:induction false} ItemsRoundTrip(items: seq<Layout>, bs: seq<Byte>, at: nat)
    requires AllReadable(items) && AllWithinLimits(items)
    requires At(bs, at, WriteItems(items))
    ensures ReadItems(bs, at, |items|) == Read(items, at + |WriteItems(items)|)
    decreases items, 1
  {
    if items != [] {
      var head, tail := items[0], items[1..];
      assert items == [head] + tail;
      var a1, end := ItemParts(items, bs, at);
      LayoutRoundTrip(head, bs, at);
      ItemsRoundTrip(tail, bs, a1);
      ItemsStep(bs, at, |items|, head, a1, tail, end);
    }
  }

  lemma {:induction false} EntriesRoundTrip(keys: seq<DataValue>, values: seq<Layout>, bs: seq<Byte>, at: nat)
    requires |keys| == |values|
    requires AllTyped(keys) && AllSmall(keys) && AllReadable(values) && AllWithinLimits(values)
    requires At(bs, at, WriteEntries(keys, values))
    ensures ReadEntries(bs, at, |values|) == Read((keys, values), at + |WriteEntries(keys, values)|)
    decreases values, 1
  {
    if values != [] {
      var a1, a2, end := EntryParts(keys, values, bs, at);
      ValueRoundTrip(keys[0], bs, at);
      LayoutRoundTrip(values[0], bs, a1);
      EntriesRoundTrip(keys[1..], values[1..], bs, a2);
      EntriesStep(bs, at, |values|, keys[0], a1, values[0], a2, keys[1..], values[1..], end);
      assert keys == [keys[0]] + keys[1..] && values == [values[0]] + values[1..];
    }
  }

  lemma {:induction false} EntryParts(keys: seq<DataValue>, values: seq<Layout>, bs: seq<Byte>, at: nat) returns (a1: nat, a2: nat, end: nat)
    requires |keys| == |values| > 0 && At(bs, at, WriteEntries(keys, values))
    ensures a1 == at + |WriteValue(keys[0])| && At(bs, at, WriteValue(keys[0]))
    ensures a2 == a1 + |Write(values[0])| && At(bs, a1, Write(values[0]))
    ensures end == a2 + |WriteEntries(keys[1..], values[1..])| && At(bs, a2, WriteEntries(keys[1..], values[1..]))
    ensures end == at + |WriteEntries(keys, values)|
  {
    var k, v, rest := WriteValue(keys[0]), Write(values[0]), WriteEntries(keys[1..], values[1..]);
    AtSplit(bs, at, k, v + rest);
    AtSplit(bs, at + |k|, v, rest);
    a1, a2, end := at + |k|, at + |k| + |v|, at + |k| + |v| + |rest|;
  }

  // --------------------------------------------- nothing else is ever read

  lemma ReadValueIsSmall(bs: seq<Byte>, at: nat)
    requires at <= |bs| && ReadValue(bs, at).Read?
    ensures Small(ReadValue(bs, at).value)
  {}

  /** Whatever is read is within the limits. */
  lemma {:induction false} ReadIsWithinLimits(bs: seq<Byte>, at: nat)
    requires at <= |bs| && ReadLayout(bs, at).Read?
    ensures WithinLimits(ReadLayout(bs, at).value)
    decreases |bs| - at, 0, 0
  {
    var tag := TakeU8(bs, at).value;
    if tag == 0 {
      ReadValueIsSmall(bs, at + 1);
    } else if tag == 1 {
      ReadItemsWithinLimits(bs, at + 2, TakeU8(bs, at + 1).value);
    } else {
      ReadEntriesWithinLimits(bs, at + 2, TakeU8(bs, at + 1).value);
    }
  }

  lemma {:induction false} ReadItemsWithinLimits(bs: seq<Byte>, at: nat, n: nat)
    requires at <= |bs| && ReadItems(bs, at, n).Read?
    ensures AllWithinLimits(ReadItems(bs, at, n).value)
    decreases |bs| - at, 1, n
  {
    if n > 0 {
      var Read(item, next) := ReadLayout(bs, at);
      var Read(rest, end) := ReadItems(bs, next, n - 1);
      ReadIsWithinLimits(bs, at);
      ReadItemsWithinLimits(bs, next, n - 1);
      ItemsStep(bs, at, n, item, next, rest, end);
      assert ([item] + rest)[1..] == rest;
    }
  }

  lemma {:induction false} ReadEntriesWithinLimits(bs: seq<Byte>, at: nat, n: nat)
    requires at <= |bs| && ReadEntries(bs, at, n).Read?
    ensures AllSmall(ReadEntries(bs, at, n).value.0) && AllWithinLimits(ReadEntries(bs, at, n).value.1)
    decreases |bs| - at, 1, n
  {
    if n > 0 {
      var Read(key, next) := ReadValue(bs, at);
      var Read(value, after) := ReadLayout(bs, next);
      var Read(rest, end) := ReadEntries(bs, after, n - 1);
      ReadValueIsSmall(bs, at);
      ReadIsWithinLimits(bs, next);
      ReadEntriesWithinLimits(bs, after, n - 1);
      EntriesStep(bs, at, n, key, next, value, after, rest.0, rest.1, end);
      assert ([key] + rest.0)[1..] == rest.0 && ([value] + rest.1)[1..] == rest.1;
    }
  }

  /** A written layout is read back exactly if and only if it is within the limits. */
  lemma {:induction false} RoundTripsExactlyWithinLimits(o: Layout, before: seq<Byte>, after: seq<Byte>)
    requires Readable(o)
    ensures
      var bs := before + Write(o) + after;
      ReadLayout(bs, |before|) == Read(o, |before| + |Write(o)|) <==> WithinLimits(o)
  {
    var bs := before + Write(o) + after;
    AtWhole(before, Write(o), after);
    if WithinLimits(o) {
      LayoutRoundTrip(o, bs, |before|);
    } else if ReadLayout(bs, |before|) == Read(o, |before| + |Write(o)|) {
      ReadIsWithinLimits(bs, |before|);
    }
  }

  /** The first byte of a value tells its kind, and what follows is its payload. */
  lemma ValueLayout(v: DataValue)
    requires Typed(v) && Small(v)
    ensures var b := WriteValue(v);
            && (v.Bool? ==> b == [0, if v.b then 1 else 0])
            && (v.Text? ==> b == [1, |v.s|] + v.s)
            && (v.U8? ==> b[0] == 2 && |b| == 2 && FromBE(b[1..]) == v.n8)
            && (v.U16? ==> b[0] == 3 && |b| == 3 && FromBE(b[1..]) == v.n16)
            && (v.U32? ==> b[0] == 4 && |b| == 5 && FromBE(b[1..]) == v.n32)
            && (v.U64Value? ==> b[0] == 5 && |b| == 9 && FromBE(b[1..]) == v.n64)
            && (v.U128? ==> b[0] == 6 && |b| == 17 && FromBE(b[1..]) == v.n128)
            && (v.HashValue? ==> b == [7] + v.h)
            && (v.Blob? ==> b[0] == 8 && |b| == 3 + |v.bytes| && b[3..] == v.bytes && FromBE(b[1..3]) == |v.bytes|)
  {
    var b := WriteValue(v);
    assert b[1..] == Payload(v);
    match v
    case U8(n) => FromToBE(n, 1);
    case U16(n) => FromToBE(n, 2);
    case U32(n) => FromToBE(n, 4);
    case U64Value(n) => FromToBE(n, 8);
    case U128(n) => FromToBE(n, 16);
    case Blob(x) => BlobLayout(x, b);
    case _ =>
  }

  lemma BlobLayout(x: seq<Byte>, b: seq<Byte>)
    requires |x| <= 1024 && b == [8] + (ToBE(AsU16(|x|), 2) + x)
    ensures |b| == 3 + |x| && b[3..] == x && FromBE(b[1..3]) == |x|
  {
    assert b[1..3] == ToBE(AsU16(|x|), 2);
    TwoBytes(|x|);
    FromToBE(|x|, 2);
  }

  /** The first byte of an element tells value, array or map; the second of the latter two counts the items. */
  lemma ElementLayout(o: Layout)
    requires WithinLimits(o)
    ensures var b := Write(o);
            && (o.One? ==> b[0] == 0 && b[1..] == WriteValue(o.value))
            && (o.Many? ==> |b| >= 2 && b[0] == 1 && b[1] == |o.items| && b[2..] == WriteItems(o.items))
            && (o.Keyed? ==> |b| >= 2 && b[0] == 2 && b[1] == |o.keys| && b[2..] == WriteEntries(o.keys, o.values))
  {}

  // ------------------------------------------------------------------ size

  function SizeOfValue(v: DataValue): nat {
    1 + match v
        case Bool(_) => 1
        case Text(s) => 1 + if |s| > 255 then 255 else |s|
        case U8(_) => 1
        case U16(_) => 2
        case U32(_) => 4
        case U64Value(_) => 8
        case U128(_) => 16
        case HashValue(_) => 32
        case Blob(b) => 2 + |b|
  }

  /** The sum of the values of a map, in whatever order they are visited. */
  ghost function SumOf(m: map<DataValue, nat>): nat
    decreases |m|
  {
    if m == map[] then 0
    else
      var k :| k in m;
      m[k] + SumOf(m - {k})
  }

  lemma {:induction false} SumWithout(m: map<DataValue, nat>, k: DataValue)
    requires k in m
    ensures SumOf(m) == m[k] + SumOf(m - {k})
    decreases |m|
  {
    var j :| j in m && SumOf(m) == m[j] + SumOf(m - {j});
    if j != k {
      SumWithout(m - {j}, k);
      SumWithout(m - {k}, j);
      assert m - {j} - {k} == m - {k} - {j};
    }
  }

  lemma SumInsert(m: map<DataValue, nat>, k: DataValue, n: nat)
    requires k !in m
    ensures SumOf(m[k := n]) == SumOf(m) + n
  {
    SumWithout(m[k := n], k);
    assert m[k := n] - {k} == m;
  }

  ghost function Size(e: DataElement): nat
    decreases e
  {
    1 + match e
        case Value(v) => SizeOfValue(v)
        case Array(items) => 1 + SizeOfItems(items)
        case Fields(m) => 1 + SumOf(map k | k in m :: SizeOfValue(k) + Size(m[k]))
  }

  ghost function SizeOfItems(items: seq<DataElement>): nat
    decreases items
  {
    if items == [] then 0 else Size(items[0]) + SizeOfItems(items[1..])
  }

  ghost function Sizes(m: map<DataValue, DataElement>): map<DataValue, nat> {
    map k | k in m :: SizeOfValue(k) + Size(m[k])
  }

  lemma {:induction false} SizesInsert(m: map<DataValue, DataElement>, k: DataValue, e: DataElement)
    ensures Sizes(m[k := e]) == Sizes(m)[k := SizeOfValue(k) + Size(e)]
  {
    var a, b := Sizes(m[k := e]), Sizes(m)[k := SizeOfValue(k) + Size(e)];
    assert a.Keys == b.Keys;
    forall j | j in a
      ensures a[j] == b[j]
    {
    }
  }

  lemma TotalInsert(m: map<DataValue, DataElement>, k: DataValue, e: DataElement)
    requires k !in m
    ensures SumOf(Sizes(m[k := e])) == SumOf(Sizes(m)) + SizeOfValue(k) + Size(e)
  {
    var z, z', n := Sizes(m), Sizes(m[k := e]), SizeOfValue(k) + Size(e);
    SizesInsert(m, k, e);
    assert z' == z[k := n] && k !in z;
    SumInsert(z, k, n);
  }

  lemma ValueSize(v: DataValue)
    requires Typed(v)
    ensures |WriteValue(v)| == SizeOfValue(v)
  {}

  /** `size()` is the number of bytes written, in every order of every map, beyond the limits too. */
  lemma {:induction false} SizeIsWritten(o: Layout)
    requires WellFormed(o)
    ensures Size(Element(o)) == |Write(o)|
    decreases o, 0
  {
    match o
    case One(v) => ValueSize(v);
    case Many(items) => ItemsSize(items);
    case Keyed(keys, values) =>
      EntriesSize(map[], keys, values);
      assert Sizes(map[]) == map[];
      var m := Insert(map[], keys, Elements(values));
      assert Element(o) == Fields(m);
      assert Size(Fields(m)) == 2 + SumOf(Sizes(m));
  }

  lemma {:induction false} ItemsSize(items: seq<Layout>)
    requires AllWellFormed(items)
    ensures SizeOfItems(Elements(items)) == |WriteItems(items)|
    decreases items, 1
  {
    if items != [] {
      SizeIsWritten(items[0]);
      ItemsSize(items[1..]);
      assert Elements(items)[1..] == Elements(items[1..]);
    }
  }

  lemma {:induction false} EntriesSize(m: map<DataValue, DataElement>, keys: seq<DataValue>, values: seq<Layout>)
    requires |keys| == |values| && AllTyped(keys) && Distinct(keys) && AllWellFormed(values)
    requires forall k :: k in keys ==> k !in m
    ensures SumOf(Sizes(Insert(m, keys, Elements(values)))) == SumOf(Sizes(m)) + |WriteEntries(keys, values)|
    decreases values, 1
  {
    if values != [] {
      var k, e, rest := keys[0], Element(values[0]), Elements(values[1..]);
      assert Elements(values) == [e] + rest && ([e] + rest)[1..] == rest;
      assert Insert(m, keys, Elements(values)) == Insert(m[k := e], keys[1..], rest);
      EntriesSize(m[k := e], keys[1..], values[1..]);
      EntrySize(m, k, values[0]);
      assert |WriteEntries(keys, values)| == |WriteValue(k)| + |Write(values[0])| + |WriteEntries(keys[1..], values[1..])|;
    }
  }

  lemma {:induction false} EntrySize(m: map<DataValue, DataElement>, k: DataValue, value: Layout)
    requires k !in m && Typed(k) && WellFormed(value)
    ensures SumOf(Sizes(m[k := Element(value)])) == SumOf(Sizes(m)) + |WriteValue(k)| + |Write(value)|
    decreases value, 1
  {
    ValueSize(k);
    SizeIsWritten(value);
    TotalInsert(m, k, Element(value));
  }

  /** Every well-formed element within the limits is read back from any of its written forms, consuming its size. */
  lemma ElementRoundTrip(o: Layout, before: seq<Byte>, after: seq<Byte>)
    requires WellFormed(o) && WithinLimits(o)
    ensures ReadElement(before + Write(o) + after, |before|) == Read(Element(o), |before| + Size(Element(o)))
  {
    WellFormedParts(o);
    AtWhole(before, Write(o), after);
    LayoutRoundTrip(o, before + Write(o) + after, |before|);
    SizeIsWritten(o);
  }
}
