/** The limits of the data format, stated on elements: they do not depend on the order of any map. */
module DataLimits {
  import opened Base
  import opened Codec
  import opened DataFormat

  /** At most 255 items on every level, strings of at most 255 bytes, blobs of at most 1024. */
  ghost predicate Fits(e: DataElement)
    decreases e
  {
    match e
    case Value(v) => Small(v)
    case Array(items) => |items| <= 255 && forall i :: 0 <= i < |items| ==> Fits(items[i])
    case Fields(m) => |m| <= 255 && forall k :: k in m ==> Small(k) && Fits(m[k])
  }

  ghost predicate AllFit(items: seq<DataElement>) {
    forall i :: 0 <= i < |items| ==> Fits(items[i])
  }

  ghost predicate EntriesFit(m: map<DataValue, DataElement>) {
    forall k :: k in m ==> Small(k) && Fits(m[k])
  }

  lemma {:induction false} InsertFits(m: map<DataValue, DataElement>, keys: seq<DataValue>, values: seq<DataElement>)
    requires EntriesFit(m) && AllSmall(keys) && AllFit(values)
    ensures EntriesFit(Insert(m, keys, values)) && |Insert(m, keys, values)| <= |m| + |keys|
    decreases |keys|
  {
    if keys != [] && values != [] {
      var m' := m[keys[0] := values[0]];
      assert m'.Keys == m.Keys + {keys[0]};
      InsertFits(m', keys[1..], values[1..]);
    }
  }

  /** What a layout within the limits denotes is within them. */
  lemma {:induction false} LayoutFits(o: Layout)
    requires WithinLimits(o)
    ensures Fits(Element(o))
    decreases o, 0
  {
    match o
    case One(_) =>
    case Many(items) => LayoutsFit(items);
    case Keyed(keys, values) =>
      LayoutsFit(values);
      InsertFits(map[], keys, Elements(values));
  }

  lemma {:induction false} LayoutsFit(items: seq<Layout>)
    requires AllWithinLimits(items)
    ensures AllFit(Elements(items))
    decreases items, 1
  {
    if items != [] {
      LayoutFits(items[0]);
      LayoutsFit(items[1..]);
    }
  }

  /** `m` with the entries added holds the old entries and the new ones. */
  ghost predicate Extends(m: map<DataValue, DataElement>, keys: seq<DataValue>, values: seq<DataElement>,
                          r: map<DataValue, DataElement>)
    requires |keys| == |values|
  {
    |r| == |m| + |keys|
    && (forall k :: k in m ==> k in r && r[k] == m[k])
    && (forall i :: 0 <= i < |keys| ==> keys[i] in r && r[keys[i]] == values[i])
  }

  lemma {:induction false} InsertExtends(m: map<DataValue, DataElement>, keys: seq<DataValue>, values: seq<DataElement>)
    requires |keys| == |values| && Distinct(keys) && forall k :: k in keys ==> k !in m
    ensures Extends(m, keys, values, Insert(m, keys, values))
    decreases |keys|
  {
    if keys != [] {
      var m' := m[keys[0] := values[0]];
      assert m'.Keys == m.Keys + {keys[0]};
      InsertExtends(m', keys[1..], values[1..]);
      ExtendsStep(m, keys, values, Insert(m, keys, values));
    }
  }

  lemma ExtendsStep(m: map<DataValue, DataElement>, keys: seq<DataValue>, values: seq<DataElement>,
                    r: map<DataValue, DataElement>)
    requires |keys| == |values| > 0 && keys[0] !in m
    requires Extends(m[keys[0] := values[0]], keys[1..], values[1..], r)
    ensures Extends(m, keys, values, r)
  {
    var m' := m[keys[0] := values[0]];
    assert m'.Keys == m.Keys + {keys[0]};
    assert |m'| == |m| + 1;
    forall i | 0 <= i < |keys| ensures keys[i] in r && r[keys[i]] == values[i] {
      if i == 0 {
        assert keys[0] in m';
      } else {
        assert keys[i] == keys[1..][i - 1] && values[i] == values[1..][i - 1];
      }
    }
  }

  lemma {:induction false} LaterKeysOnly(m: map<DataValue, DataElement>, keys: seq<DataValue>, values: seq<DataElement>, k: DataValue)
    requires |keys| == |values| && k in m && k !in keys
    ensures k in Insert(m, keys, values) && Insert(m, keys, values)[k] == m[k]
    decreases |keys|
  {
    if keys != [] {
      LaterKeysOnly(m[keys[0] := values[0]], keys[1..], values[1..], k);
    }
  }

  /** Of entries with the same key the last one counts. */
  lemma {:induction false} LastEntryWins(m: map<DataValue, DataElement>, keys: seq<DataValue>, values: seq<DataElement>, i: nat)
    requires |keys| == |values| && i < |keys| && keys[i] !in keys[i + 1..]
    ensures keys[i] in Insert(m, keys, values) && Insert(m, keys, values)[keys[i]] == values[i]
    decreases |keys|
  {
    var m' := m[keys[0] := values[0]];
    if i == 0 {
      LaterKeysOnly(m', keys[1..], values[1..], keys[0]);
    } else {
      assert keys[1..][i..] == keys[i + 1..];
      LastEntryWins(m', keys[1..], values[1..], i - 1);
    }
  }

  lemma {:induction false} SmallKeys(keys: seq<DataValue>)
    requires forall i :: 0 <= i < |keys| ==> Small(keys[i])
    ensures AllSmall(keys)
    decreases |keys|
  {
    if keys != [] {
      SmallKeys(keys[1..]);
    }
  }

  /** Every layout of an element within the limits is within them. */
  lemma {:induction false} FittingLayout(o: Layout)
    requires WellFormed(o) && Fits(Element(o))
    ensures WithinLimits(o)
    decreases o, 0
  {
    match o
    case One(_) =>
    case Many(items) => FittingLayouts(items);
    case Keyed(keys, values) =>
      var es := Elements(values);
      InsertExtends(map[], keys, es);
      var r := Insert(map[], keys, es);
      assert Element(o) == Fields(r);
      assert forall i :: 0 <= i < |keys| ==> Small(keys[i]) && Fits(es[i]);
      SmallKeys(keys);
      FittingLayouts(values);
  }

  lemma {:induction false} FittingLayouts(items: seq<Layout>)
    requires AllWellFormed(items) && AllFit(Elements(items))
    ensures AllWithinLimits(items)
    decreases items, 1
  {
    if items != [] {
      var es := Elements(items);
      assert es[1..] == Elements(items[1..]) && es[0] == Element(items[0]);
      FittingLayout(items[0]);
      FittingLayouts(items[1..]);
    }
  }

  /**
   * An element written in any map order and followed by anything is read back if and only
   * if it is within the limits; it then takes exactly `Size` bytes.
   */
  lemma {:induction false} ReadBackExactlyWhenFits(o: Layout, before: seq<Byte>, after: seq<Byte>)
    requires WellFormed(o)
    ensures var r := ReadElement(before + Write(o) + after, |before|);
            (r.Read? && r.value == Element(o) <==> Fits(Element(o)))
            && (Fits(Element(o)) ==> r.next == |before| + Size(Element(o)))
  {
    var bs := before + Write(o) + after;
    if Fits(Element(o)) {
      FittingLayout(o);
      ElementRoundTrip(o, before, after);
    } else if ReadLayout(bs, |before|).Read? {
      ReadIsWithinLimits(bs, |before|);
      LayoutFits(ReadLayout(bs, |before|).value);
    }
  }
}
