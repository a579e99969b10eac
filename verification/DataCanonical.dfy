/** What the reader accepts is what the writer writes: the layout read is the one that stands in the bytes. */
module DataCanonical {
  import opened Base
  import opened Codec
  import opened DataFormat

  /** `x` is what stands in the bytes between two positions. */
  predicate Between(bs: seq<Byte>, at: nat, x: seq<Byte>, next: nat) {
    At(bs, at, x) && next == at + |x|
  }

  lemma Chain(bs: seq<Byte>, at: nat, x: seq<Byte>, middle: nat, y: seq<Byte>, next: nat)
    requires Between(bs, at, x, middle) && Between(bs, middle, y, next)
    ensures Between(bs, at, x + y, next)
  {
    AtSplit(bs, at, x, y);
  }

  lemma ByteStands(bs: seq<Byte>, at: nat)
    requires at < |bs|
    ensures Between(bs, at, [bs[at]], at + 1)
  {}

  lemma BoolStands(bs: seq<Byte>, at: nat, b: bool)
    requires at <= |bs| && TakeBool(bs, at) == Read(b, at + 1)
    ensures Between(bs, at, Payload(Bool(b)), at + 1)
  {
    ByteStands(bs, at);
  }

  lemma IntStands(bs: seq<Byte>, at: nat, width: nat, n: nat, next: nat)
    requires at <= |bs| && TakeInt(bs, at, width) == Read(n, next)
    ensures Between(bs, at, ToBE(n, width), next) && n < Pow256(width)
  {
    IntAt(bs, at, width);
  }

  lemma TextStands(bs: seq<Byte>, at: nat, s: seq<Byte>, next: nat)
    requires at <= |bs| && TakeString(bs, at) == Read(s, next)
    ensures Between(bs, at, StringBytes(s), next) && Utf8(s)
  {
    ByteStands(bs, at);
    Chain(bs, at, [bs[at]], at + 1, s, next);
  }

  lemma BlobStands(bs: seq<Byte>, at: nat, b: seq<Byte>, next: nat)
    requires at <= |bs| && ReadBlob(bs, at) == Read(b, next)
    ensures Between(bs, at, ToBE(AsU16(|b|), 2) + b, next)
  {
    IntStands(bs, at, 2, |b|, at + 2);
    Chain(bs, at, ToBE(|b|, 2), at + 2, b, next);
  }

  lemma PayloadStands(kind: Byte, bs: seq<Byte>, at: nat, v: DataValue, next: nat)
    requires at <= |bs| && ReadPayload(kind, bs, at) == Read(v, next)
    ensures kind == Kind(v) && Between(bs, at, Payload(v), next) && Typed(v)
  {
    match v
    case Bool(b) => BoolStands(bs, at, b);
    case Text(s) => TextStands(bs, at, s, next);
    case U8(n) => IntStands(bs, at, 1, n, next);
    case U16(n) => IntStands(bs, at, 2, n, next);
    case U32(n) => IntStands(bs, at, 4, n, next);
    case U64Value(n) => IntStands(bs, at, 8, n, next);
    case U128(n) => IntStands(bs, at, 16, n, next);
    case HashValue(_) =>
    case Blob(b) => BlobStands(bs, at, b, next);
  }

  lemma ValueStands(bs: seq<Byte>, at: nat, v: DataValue, next: nat)
    requires at <= |bs| && ReadValue(bs, at) == Read(v, next)
    ensures Between(bs, at, WriteValue(v), next) && Typed(v)
  {
    ByteStands(bs, at);
    PayloadStands(bs[at], bs, at + 1, v, next);
    Chain(bs, at, [Kind(v)], at + 1, Payload(v), next);
  }

  lemma TagAndCountStand(bs: seq<Byte>, at: nat, rest: seq<Byte>, next: nat)
    requires at + 2 <= |bs| && Between(bs, at + 2, rest, next)
    ensures Between(bs, at, [bs[at], bs[at + 1]] + rest, next)
  {
    assert bs[at..at + 2] == [bs[at], bs[at + 1]];
    Chain(bs, at, [bs[at], bs[at + 1]], at + 2, rest, next);
  }

  lemma OneOpen(bs: seq<Byte>, at: nat, v: DataValue, next: nat)
    requires at <= |bs| && ReadLayout(bs, at) == Read(One(v), next)
    ensures at < |bs| && bs[at] == 0 && ReadValue(bs, at + 1) == Read(v, next)
  {}

  lemma ManyOpen(bs: seq<Byte>, at: nat, items: seq<Layout>, next: nat)
    requires at <= |bs| && ReadLayout(bs, at) == Read(Many(items), next)
    ensures at + 2 <= |bs| && bs[at] == 1 && ReadItems(bs, at + 2, bs[at + 1]) == Read(items, next)
  {}

  lemma KeyedOpen(bs: seq<Byte>, at: nat, keys: seq<DataValue>, values: seq<Layout>, next: nat)
    requires at <= |bs| && ReadLayout(bs, at) == Read(Keyed(keys, values), next)
    ensures at + 2 <= |bs| && bs[at] == 2 && ReadEntries(bs, at + 2, bs[at + 1]) == Read((keys, values), next)
  {}

  /** The bytes of an accepted layout are exactly what is written for it. */
  lemma {:induction false} LayoutStands(bs: seq<Byte>, at: nat, o: Layout, next: nat)
    requires at <= |bs| && ReadLayout(bs, at) == Read(o, next)
    ensures Between(bs, at, Write(o), next) && Readable(o)
    decreases |bs| - at, 2, 0
  {
    match o
    case One(v) => OneStands(bs, at, v, next);
    case Many(items) => ManyStands(bs, at, items, next);
    case Keyed(keys, values) => KeyedStands(bs, at, keys, values, next);
  }

  lemma {:induction false} OneStands(bs: seq<Byte>, at: nat, v: DataValue, next: nat)
    requires at <= |bs| && ReadLayout(bs, at) == Read(One(v), next)
    ensures Between(bs, at, [0] + WriteValue(v), next) && Typed(v)
  {
    OneOpen(bs, at, v, next);
    ByteStands(bs, at);
    ValueStands(bs, at + 1, v, next);
    Chain(bs, at, [0], at + 1, WriteValue(v), next);
  }

  lemma {:induction false} ManyStands(bs: seq<Byte>, at: nat, items: seq<Layout>, next: nat)
    requires at <= |bs| && ReadLayout(bs, at) == Read(Many(items), next)
    ensures Between(bs, at, [1, AsU8(|items|)] + WriteItems(items), next) && AllReadable(items)
    decreases |bs| - at, 1, 0
  {
    ManyOpen(bs, at, items, next);
    ItemsStand(bs, at + 2, bs[at + 1], items, next);
    TagAndCountStand(bs, at, WriteItems(items), next);
  }

  lemma {:induction false} KeyedStands(bs: seq<Byte>, at: nat, keys: seq<DataValue>, values: seq<Layout>, next: nat)
    requires at <= |bs| && ReadLayout(bs, at) == Read(Keyed(keys, values), next)
    ensures Between(bs, at, [2, AsU8(|values|)] + WriteEntries(keys, values), next)
    ensures |keys| == |values| && AllTyped(keys) && AllReadable(values)
    decreases |bs| - at, 1, 0
  {
    KeyedOpen(bs, at, keys, values, next);
    EntriesStand(bs, at + 2, bs[at + 1], keys, values, next);
    TagAndCountStand(bs, at, WriteEntries(keys, values), next);
  }

  lemma {:induction false} ItemsStand(bs: seq<Byte>, at: nat, n: nat, items: seq<Layout>, next: nat)
    requires at <= |bs| && ReadItems(bs, at, n) == Read(items, next)
    ensures |items| == n && Between(bs, at, WriteItems(items), next) && AllReadable(items)
    decreases |bs| - at, 3, n
  {
    if n > 0 {
      var item, middle, rest := ItemsOpen(bs, at, n, items, next);
      LayoutStands(bs, at, item, middle);
      ItemsStand(bs, middle, n - 1, rest, next);
      ItemStands(bs, at, item, middle, rest, next);
    } else {
      NothingStands(bs, at);
    }
  }

  lemma ItemsOpen(bs: seq<Byte>, at: nat, n: nat, items: seq<Layout>, next: nat)
    returns (item: Layout, middle: nat, rest: seq<Layout>)
    requires at <= |bs| && n > 0 && ReadItems(bs, at, n) == Read(items, next)
    ensures ReadLayout(bs, at) == Read(item, middle) && at < middle <= |bs|
    ensures ReadItems(bs, middle, n - 1) == Read(rest, next) && items == [item] + rest
  {
    item, middle := ReadLayout(bs, at).value, ReadLayout(bs, at).next;
    rest := ReadItems(bs, middle, n - 1).value;
  }

  lemma ItemStands(bs: seq<Byte>, at: nat, item: Layout, middle: nat, rest: seq<Layout>, next: nat)
    requires Between(bs, at, Write(item), middle) && Between(bs, middle, WriteItems(rest), next)
    requires Readable(item) && AllReadable(rest)
    ensures Between(bs, at, WriteItems([item] + rest), next) && AllReadable([item] + rest)
  {
    assert ([item] + rest)[1..] == rest;
    Chain(bs, at, Write(item), middle, WriteItems(rest), next);
  }

  lemma {:induction false} EntriesStand(bs: seq<Byte>, at: nat, n: nat, keys: seq<DataValue>, values: seq<Layout>, next: nat)
    requires at <= |bs| && ReadEntries(bs, at, n) == Read((keys, values), next)
    ensures |keys| == |values| == n && Between(bs, at, WriteEntries(keys, values), next)
    ensures AllTyped(keys) && AllReadable(values)
    decreases |bs| - at, 3, n
  {
    if n > 0 {
      var key, a1, value, a2, ks, vs := EntriesOpen(bs, at, n, keys, values, next);
      ValueStands(bs, at, key, a1);
      LayoutStands(bs, a1, value, a2);
      EntriesStand(bs, a2, n - 1, ks, vs, next);
      EntryStands(bs, at, key, a1, value, a2, ks, vs, next);
      EntryReadable(key, value, ks, vs);
    } else {
      NothingStands(bs, at);
    }
  }

  lemma EntriesOpen(bs: seq<Byte>, at: nat, n: nat, keys: seq<DataValue>, values: seq<Layout>, next: nat)
    returns (key: DataValue, a1: nat, value: Layout, a2: nat, ks: seq<DataValue>, vs: seq<Layout>)
    requires at <= |bs| && n > 0 && ReadEntries(bs, at, n) == Read((keys, values), next)
    ensures ReadValue(bs, at) == Read(key, a1) && at < a1 <= |bs|
    ensures ReadLayout(bs, a1) == Read(value, a2) && a1 < a2 <= |bs|
    ensures ReadEntries(bs, a2, n - 1) == Read((ks, vs), next)
    ensures keys == [key] + ks && values == [value] + vs
  {
    key, a1 := ReadValue(bs, at).value, ReadValue(bs, at).next;
    value, a2 := ReadLayout(bs, a1).value, ReadLayout(bs, a1).next;
    ks, vs := ReadEntries(bs, a2, n - 1).value.0, ReadEntries(bs, a2, n - 1).value.1;
  }

  lemma NothingStands(bs: seq<Byte>, at: nat)
    requires at <= |bs|
    ensures Between(bs, at, WriteEntries([], []), at) && Between(bs, at, WriteItems([]), at)
  {}

  lemma EntryReadable(key: DataValue, value: Layout, keys: seq<DataValue>, values: seq<Layout>)
    requires Typed(key) && Readable(value) && AllTyped(keys) && AllReadable(values)
    ensures AllTyped([key] + keys) && AllReadable([value] + values)
  {
    assert ([key] + keys)[1..] == keys && ([value] + values)[1..] == values;
  }

  lemma EntryStands(bs: seq<Byte>, at: nat, key: DataValue, a1: nat, value: Layout, a2: nat,
                    keys: seq<DataValue>, values: seq<Layout>, next: nat)
    requires Between(bs, at, WriteValue(key), a1) && Between(bs, a1, Write(value), a2)
    requires Between(bs, a2, WriteEntries(keys, values), next)
    ensures Between(bs, at, WriteEntries([key] + keys, [value] + values), next)
  {
    assert ([key] + keys)[1..] == keys && ([value] + values)[1..] == values;
    Chain(bs, a1, Write(value), a2, WriteEntries(keys, values), next);
    Chain(bs, at, WriteValue(key), a1, Write(value) + WriteEntries(keys, values), next);
  }

  /**
   * The reader takes a layout from the bytes exactly when the bytes there are what is written
   * for it and it is within the limits; repeated keys do not matter to it.
   */
  lemma ReadsExactlyWhatIsWritten(bs: seq<Byte>, at: nat, o: Layout, next: nat)
    requires at <= |bs|
    ensures ReadLayout(bs, at) == Read(o, next) <==> Readable(o) && WithinLimits(o) && Between(bs, at, Write(o), next)
  {
    if ReadLayout(bs, at) == Read(o, next) {
      LayoutStands(bs, at, o, next);
      ReadIsWithinLimits(bs, at);
    }
    if Readable(o) && WithinLimits(o) && Between(bs, at, Write(o), next) {
      LayoutRoundTrip(o, bs, at);
    }
  }
}
