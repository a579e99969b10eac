/** The reading and writing loops of the data format, run against the specification. */
module DataProgram {
  import opened Base
  import opened Codec
  import opened DataFormat

  method ReadBlobFrom(r: Reader) returns (p: Parsed<seq<Byte>>)
    requires r.Valid()
    modifies r
    ensures r.Valid() && r.total >= old(r.total) && p == ReadBlob(r.bytes, old(r.total))
    ensures p.Read? ==> r.total == p.next
  {
    var count := r.ReadInt(2);
    if count.Fail? {
      return Fail(count.error);
    }
    if count.value > 1024 {
      return Fail(InvalidSize);
    }
    var start := r.total;
    var values: seq<Byte> := [];
    for i := 0 to count.value
      invariant r.Valid() && r.total == start + i
      invariant values == r.bytes[start..start + i]
    {
      var b := r.ReadU8();
      if b.Fail? {
        return Fail(b.error);
      }
      values := values + [b.value];
    }
    p := Read(values, r.total);
  }

  method ReadValueFrom(r: Reader) returns (p: Parsed<DataValue>)
    requires r.Valid()
    modifies r
    ensures r.Valid() && r.total >= old(r.total) && p == ReadValue(r.bytes, old(r.total))
    ensures p.Read? ==> r.total == p.next
  {
    var kind := r.ReadU8();
    if kind.Fail? {
      return Fail(kind.error);
    }
    if kind.value == 0 {
      var b := r.ReadBool();
      p := match b case Fail(e) => Fail(e) case Read(v, next) => Read(Bool(v), next);
    } else if kind.value == 1 {
      var s := r.ReadString();
      p := match s case Fail(e) => Fail(e) case Read(v, next) => Read(Text(v), next);
    } else if kind.value <= 6 {
      var n := r.ReadInt(Width(kind.value));
      p := match n case Fail(e) => Fail(e) case Read(v, next) => Read(Integer(kind.value, v), next);
    } else if kind.value == 7 {
      var h := r.ReadBytes(32);
      p := match h case Fail(e) => Fail(e) case Read(v, next) => Read(HashValue(v), next);
    } else if kind.value == 8 {
      var b := ReadBlobFrom(r);
      p := match b case Fail(e) => Fail(e) case Read(v, next) => Read(Blob(v), next);
    } else {
      p := Fail(InvalidValue);
    }
  }

  /** Reads one element; it ends on every input and never passes the last byte. */
  method ReadElementFrom(r: Reader) returns (p: Parsed<DataElement>)
    requires r.Valid()
    modifies r
    ensures r.Valid() && r.total >= old(r.total) && p == ReadElement(r.bytes, old(r.total))
    ensures p.Read? ==> r.total == p.next
    decreases |r.bytes| - r.total, 0
  {
    var tag := r.ReadU8();
    if tag.Fail? {
      return Fail(tag.error);
    }
    if tag.value == 0 {
      var v := ReadValueFrom(r);
      p := match v case Fail(e) => Fail(e) case Read(x, next) => Read(Value(x), next);
      return;
    }
    if tag.value > 2 {
      return Fail(InvalidValue);
    }
    var size := r.ReadU8();
    if size.Fail? {
      return Fail(size.error);
    }
    if tag.value == 1 {
      var items := ReadArrayFrom(r, size.value);
      p := match items case Fail(e) => Fail(e) case Read(x, next) => Read(Array(x), next);
    } else {
      var fields := ReadFieldsFrom(r, size.value);
      p := match fields case Fail(e) => Fail(e) case Read(x, next) => Read(Fields(x), next);
    }
  }

  /** What is still to be read, put behind what has been read. */
  ghost function Behind(done: seq<Layout>, rest: Parsed<seq<Layout>>): Parsed<seq<Layout>> {
    match rest
    case Fail(e) => Fail(e)
    case Read(items, end) => Read(done + items, end)
  }

  lemma BehindStep(done: seq<Layout>, bs: seq<Byte>, at: nat, n: nat)
    requires at <= |bs| && n > 0
    ensures ReadLayout(bs, at).Fail? ==> Behind(done, ReadItems(bs, at, n)) == Fail(ReadLayout(bs, at).error)
    ensures ReadLayout(bs, at).Read? ==>
              var Read(item, next) := ReadLayout(bs, at);
              Behind(done, ReadItems(bs, at, n)) == Behind(done + [item], ReadItems(bs, next, n - 1))
  {
    if ReadLayout(bs, at).Read? {
      var Read(item, next) := ReadLayout(bs, at);
      if ReadItems(bs, next, n - 1).Read? {
        var items := ReadItems(bs, next, n - 1).value;
        assert done + ([item] + items) == done + [item] + items;
      }
    }
  }

  lemma {:induction false} ElementsAppend(xs: seq<Layout>, x: Layout)
    ensures Elements(xs + [x]) == Elements(xs) + [Element(x)]
    decreases |xs|
  {
    if xs == [] {
      assert [] + [x] == [x] && [x][1..] == [];
      assert Elements([]) == [];
    } else {
      assert (xs + [x])[1..] == xs[1..] + [x];
      ElementsAppend(xs[1..], x);
    }
  }

  method ReadArrayFrom(r: Reader, size: nat) returns (p: Parsed<seq<DataElement>>)
    requires r.Valid()
    modifies r
    ensures r.Valid() && r.total >= old(r.total)
    ensures p == match ReadItems(r.bytes, old(r.total), size)
                 case Fail(e) => Fail(e)
                 case Read(items, end) => Read(Elements(items), end)
    ensures p.Read? ==> r.total == p.next
    decreases |r.bytes| - r.total, 1
  {
    var values: seq<DataElement> := [];
    ghost var done: seq<Layout> := [];
    ghost var start := r.total;
    ghost var all := ReadItems(r.bytes, start, size);
    assert Behind([], all) == all by {
      if all.Read? { assert [] + all.value == all.value; }
    }
    for i := 0 to size
      invariant r.Valid() && r.total >= start
      invariant values == Elements(done)
      invariant all == Behind(done, ReadItems(r.bytes, r.total, size - i))
    {
      BehindStep(done, r.bytes, r.total, size - i);
      ghost var item := ReadLayout(r.bytes, r.total);
      var e := ReadElementFrom(r);
      if e.Fail? {
        return Fail(e.error);
      }
      ElementsAppend(done, item.value);
      values := values + [e.value];
      done := done + [item.value];
    }
    assert done + [] == done;
    p := Read(values, r.total);
  }

  ghost function BehindEntries(keys: seq<DataValue>, values: seq<Layout>, rest: Parsed<(seq<DataValue>, seq<Layout>)>)
    : Parsed<(seq<DataValue>, seq<Layout>)>
  {
    match rest
    case Fail(e) => Fail(e)
    case Read((ks, vs), end) => Read((keys + ks, values + vs), end)
  }

  lemma BehindEntriesStep(keys: seq<DataValue>, values: seq<Layout>, bs: seq<Byte>, at: nat, n: nat)
    requires at <= |bs| && n > 0
    ensures ReadValue(bs, at).Fail? ==> BehindEntries(keys, values, ReadEntries(bs, at, n)) == Fail(ReadValue(bs, at).error)
    ensures ReadValue(bs, at).Read? ==>
              var Read(key, next) := ReadValue(bs, at);
              && (ReadLayout(bs, next).Fail? ==>
                    BehindEntries(keys, values, ReadEntries(bs, at, n)) == Fail(ReadLayout(bs, next).error))
              && (ReadLayout(bs, next).Read? ==>
                    var Read(value, after) := ReadLayout(bs, next);
                    BehindEntries(keys, values, ReadEntries(bs, at, n)) ==
                    BehindEntries(keys + [key], values + [value], ReadEntries(bs, after, n - 1)))
  {
    if ReadValue(bs, at).Read? {
      var Read(key, next) := ReadValue(bs, at);
      if ReadLayout(bs, next).Read? {
        var Read(value, after) := ReadLayout(bs, next);
        if ReadEntries(bs, after, n - 1).Read? {
          var (ks, vs) := ReadEntries(bs, after, n - 1).value;
          assert keys + ([key] + ks) == keys + [key] + ks;
          assert values + ([value] + vs) == values + [value] + vs;
        }
      }
    }
  }

  lemma {:induction false} InsertAppend(m: map<DataValue, DataElement>, keys: seq<DataValue>, values: seq<DataElement>,
                                        k: DataValue, e: DataElement)
    requires |keys| == |values|
    ensures Insert(m, keys + [k], values + [e]) == Insert(m, keys, values)[k := e]
    decreases |keys|
  {
    if keys == [] {
      assert (keys + [k])[1..] == [] && (values + [e])[1..] == [];
    } else {
      assert (keys + [k])[1..] == keys[1..] + [k] && (values + [e])[1..] == values[1..] + [e];
      InsertAppend(m[keys[0] := values[0]], keys[1..], values[1..], k, e);
    }
  }

  method ReadFieldsFrom(r: Reader, size: nat) returns (p: Parsed<map<DataValue, DataElement>>)
    requires r.Valid()
    modifies r
    ensures r.Valid() && r.total >= old(r.total)
    ensures p == match ReadEntries(r.bytes, old(r.total), size)
                 case Fail(e) => Fail(e)
                 case Read((keys, values), end) => Read(Insert(map[], keys, Elements(values)), end)
    ensures p.Read? ==> r.total == p.next
    decreases |r.bytes| - r.total, 1
  {
    var fields: map<DataValue, DataElement> := map[];
    ghost var keys: seq<DataValue>, values: seq<Layout> := [], [];
    ghost var start := r.total;
    ghost var all := ReadEntries(r.bytes, start, size);
    assert BehindEntries([], [], all) == all by {
      if all.Read? { assert [] + all.value.0 == all.value.0 && [] + all.value.1 == all.value.1; }
    }
    for i := 0 to size
      invariant r.Valid() && r.total >= start && |keys| == |values|
      invariant fields == Insert(map[], keys, Elements(values))
      invariant all == BehindEntries(keys, values, ReadEntries(r.bytes, r.total, size - i))
    {
      BehindEntriesStep(keys, values, r.bytes, r.total, size - i);
      var key := ReadValueFrom(r);
      if key.Fail? {
        return Fail(key.error);
      }
      ghost var item := ReadLayout(r.bytes, r.total);
      var e := ReadElementFrom(r);
      if e.Fail? {
        return Fail(e.error);
      }
      ElementsAppend(values, item.value);
      InsertAppend(map[], keys, Elements(values), key.value, e.value);
      fields := fields[key.value := e.value];
      keys, values := keys + [key.value], values + [item.value];
    }
    assert keys + [] == keys && values + [] == values;
    p := Read(fields, r.total);
  }

  // ------------------------------------------------------------- writing

  /** Well-typed throughout, as the program's types guarantee. */
  ghost predicate TypedElement(e: DataElement)
    decreases e
  {
    match e
    case Value(v) => Typed(v)
    case Array(items) => forall i :: 0 <= i < |items| ==> TypedElement(items[i])
    case Fields(m) => forall k :: k in m ==> Typed(k) && TypedElement(m[k])
  }

  method WriteValueTo(w: Writer, v: DataValue)
    modifies w
    ensures w.bytes == old(w.bytes) + WriteValue(v)
  {
    w.WriteBytes([Kind(v)]);
    WritePayloadTo(w, v);
    Associate(old(w.bytes), [Kind(v)], Payload(v));
  }

  method WritePayloadTo(w: Writer, v: DataValue)
    modifies w
    ensures w.bytes == old(w.bytes) + Payload(v)
  {
    match v
    case Bool(b) => w.WriteBytes([if b then 1 else 0]);
    case Text(s) => w.WriteString(s);
    case U8(n) => w.WriteInt(n, 1);
    case U16(n) => w.WriteInt(n, 2);
    case U32(n) => w.WriteInt(n, 4);
    case U64Value(n) => w.WriteInt(n, 8);
    case U128(n) => w.WriteInt(n, 16);
    case HashValue(h) => w.WriteBytes(h);
    case Blob(b) =>
      w.WriteInt(AsU16(|b|), 2);
      w.WriteBytes(b);
      Associate(old(w.bytes), ToBE(AsU16(|b|), 2), b);
  }

  lemma {:induction false} WriteItemsAppend(items: seq<Layout>, o: Layout)
    ensures WriteItems(items + [o]) == WriteItems(items) + Write(o)
    decreases |items|
  {
    if items == [] {
      assert [] + [o] == [o] && [o][1..] == [];
      assert WriteItems([o]) == Write(o) + [];
      assert [] + Write(o) == Write(o) + [];
    } else {
      assert (items + [o])[1..] == items[1..] + [o];
      WriteItemsAppend(items[1..], o);
      Associate(Write(items[0]), WriteItems(items[1..]), Write(o));
    }
  }

  lemma {:induction false} WellFormedAppend(items: seq<Layout>, o: Layout)
    requires AllWellFormed(items) && WellFormed(o)
    ensures AllWellFormed(items + [o])
    decreases |items|
  {
    if items == [] {
      assert [] + [o] == [o] && [o][1..] == [];
    } else {
      assert (items + [o])[1..] == items[1..] + [o];
      WellFormedAppend(items[1..], o);
    }
  }

  lemma {:induction false} WriteEntriesAppend(keys: seq<DataValue>, values: seq<Layout>, k: DataValue, o: Layout)
    requires |keys| == |values|
    ensures WriteEntries(keys + [k], values + [o]) == WriteEntries(keys, values) + (WriteValue(k) + Write(o))
    decreases |keys|
  {
    var x := WriteValue(k) + Write(o);
    if keys == [] {
      assert (keys + [k])[1..] == [] && (values + [o])[1..] == [];
      assert WriteEntries(keys + [k], values + [o]) == WriteValue(k) + (Write(o) + []);
      assert Write(o) + [] == Write(o) && [] + x == x;
    } else {
      var rest := WriteEntries(keys[1..], values[1..]);
      assert (keys + [k])[1..] == keys[1..] + [k] && (values + [o])[1..] == values[1..] + [o];
      WriteEntriesAppend(keys[1..], values[1..], k, o);
      Associate(Write(values[0]), rest, x);
      Associate(WriteValue(keys[0]), Write(values[0]) + rest, x);
    }
  }

  lemma {:induction false} KeysAppend(keys: seq<DataValue>, k: DataValue)
    requires AllTyped(keys) && Typed(k) && Distinct(keys) && k !in keys
    ensures AllTyped(keys + [k]) && Distinct(keys + [k])
    decreases |keys|
  {
    if keys == [] {
      assert [] + [k] == [k] && [k][1..] == [];
    } else {
      assert (keys + [k])[1..] == keys[1..] + [k];
      KeysAppend(keys[1..], k);
    }
  }

  /** Writes one element, visiting the entries of each map in an arbitrary order. */
  method WriteElementTo(w: Writer, e: DataElement) returns (ghost o: Layout)
    requires TypedElement(e)
    modifies w
    ensures WellFormed(o) && Element(o) == e
    ensures w.bytes == old(w.bytes) + Write(o)
    decreases e, 1
  {
    if e.Value? {
      w.WriteBytes([0]);
      WriteValueTo(w, e.value);
      Associate(old(w.bytes), [0], WriteValue(e.value));
      o := One(e.value);
    } else if e.Array? {
      w.WriteBytes([1, AsU8(|e.items|)]);
      ghost var layouts := WriteArrayTo(w, e);
      Associate(old(w.bytes), [1, AsU8(|layouts|)], WriteItems(layouts));
      o := Many(layouts);
    } else {
      w.WriteBytes([2, AsU8(|e.fields|)]);
      ghost var keys, values := WriteFieldsTo(w, e);
      Associate(old(w.bytes), [2, AsU8(|values|)], WriteEntries(keys, values));
      o := Keyed(keys, values);
    }
  }

  method WriteArrayTo(w: Writer, e: DataElement) returns (ghost layouts: seq<Layout>)
    requires TypedElement(e) && e.Array?
    modifies w
    ensures |layouts| == |e.items| && AllWellFormed(layouts) && Elements(layouts) == e.items
    ensures w.bytes == old(w.bytes) + WriteItems(layouts)
    decreases e, 0
  {
    layouts := [];
    for i := 0 to |e.items|
      invariant |layouts| == i && AllWellFormed(layouts) && Elements(layouts) == e.items[..i]
      invariant w.bytes == old(w.bytes) + WriteItems(layouts)
    {
      ghost var o := WriteElementTo(w, e.items[i]);
      Associate(old(w.bytes), WriteItems(layouts), Write(o));
      WriteItemsAppend(layouts, o);
      WellFormedAppend(layouts, o);
      ElementsAppend(layouts, o);
      layouts := layouts + [o];
    }
  }

  /** The entries written so far are exactly those not left to do, each key once. */
  ghost predicate Written(m: map<DataValue, DataElement>, todo: set<DataValue>, keys: seq<DataValue>, values: seq<Layout>) {
    && todo <= m.Keys && |keys| == |values| == |m.Keys| - |todo|
    && Distinct(keys) && AllTyped(keys) && AllWellFormed(values)
    && (forall k :: k in keys <==> k in m && k !in todo)
    && Insert(map[], keys, Elements(values)) == map k | k in m && k !in todo :: m[k]
  }

  lemma WrittenStep(m: map<DataValue, DataElement>, todo: set<DataValue>, keys: seq<DataValue>, values: seq<Layout>,
                    k: DataValue, o: Layout)
    requires Written(m, todo, keys, values) && k in todo && Typed(k) && WellFormed(o) && Element(o) == m[k]
    ensures Written(m, todo - {k}, keys + [k], values + [o])
  {
    KeysAppend(keys, k);
    ElementsAppend(values, o);
    WellFormedAppend(values, o);
    InsertAppend(map[], keys, Elements(values), k, m[k]);
    MapExtends(m, todo, k);
    assert forall j :: j in keys + [k] <==> j in keys || j == k;
  }

  lemma MapExtends(m: map<DataValue, DataElement>, todo: set<DataValue>, k: DataValue)
    requires todo <= m.Keys && k in todo
    ensures (map j | j in m && j !in todo :: m[j])[k := m[k]] == map j | j in m && j !in todo - {k} :: m[j]
  {}

  method WriteFieldsTo(w: Writer, e: DataElement) returns (ghost keys: seq<DataValue>, ghost values: seq<Layout>)
    requires TypedElement(e) && e.Fields?
    modifies w
    ensures |keys| == |values| == |e.fields| && Distinct(keys) && AllTyped(keys) && AllWellFormed(values)
    ensures Insert(map[], keys, Elements(values)) == e.fields
    ensures w.bytes == old(w.bytes) + WriteEntries(keys, values)
    decreases e, 0
  {
    var m := e.fields;
    keys, values := [], [];
    var todo := m.Keys;
    while todo != {}
      invariant Written(m, todo, keys, values)
      invariant w.bytes == old(w.bytes) + WriteEntries(keys, values)
      decreases todo
    {
      var k :| k in todo;
      ghost var o := WriteEntryTo(w, e, k);
      Associate(old(w.bytes), WriteEntries(keys, values), WriteValue(k) + Write(o));
      WriteEntriesAppend(keys, values, k, o);
      WrittenStep(m, todo, keys, values, k, o);
      keys, values := keys + [k], values + [o];
      todo := todo - {k};
    }
    assert (map k | k in m && k !in todo :: m[k]) == m;
  }

  method WriteEntryTo(w: Writer, e: DataElement, k: DataValue) returns (ghost o: Layout)
    requires TypedElement(e) && e.Fields? && k in e.fields
    modifies w
    ensures WellFormed(o) && Element(o) == e.fields[k]
    ensures w.bytes == old(w.bytes) + (WriteValue(k) + Write(o))
    decreases e.fields[k], 2
  {
    WriteValueTo(w, k);
    o := WriteElementTo(w, e.fields[k]);
    Associate(old(w.bytes), WriteValue(k), Write(o));
  }
}
