/**
 * The keyed queue: a hash map for lookup and a deque for the order, both holding the same
 * shared key handle. It behaves as one map that remembers the order of insertion.
 */
module Queue {
  import opened Base
  import opened Extraction

  /** A shared handle to a key; handles made by different pushes have different identities. */
  datatype Arc<K> = Arc(id: nat, key: K)

  /** A map entry: the identity of the handle that is its key, and the value. */
  datatype Entry<V> = Entry(id: nat, value: V)

  // ------------------------------- the insertion-ordered map, as a list of pairs

  /** The list without the entries whose key is in `gone`. */
  function Without<K(==), V>(c: seq<(K, V)>, gone: set<K>): seq<(K, V)> {
    if c == [] then []
    else
      var front, last := Without(c[..|c| - 1], gone), c[|c| - 1];
      if last.0 in gone then front else front + [last]
  }

  function Lookup<K(==), V>(c: seq<(K, V)>, key: K): Option<V> {
    if c == [] then None
    else if c[|c| - 1].0 == key then Some(c[|c| - 1].1)
    else Lookup(c[..|c| - 1], key)
  }

  ghost predicate DistinctKeys<K, V>(c: seq<(K, V)>) {
    forall i, j :: 0 <= i < j < |c| ==> c[i].0 != c[j].0
  }

  lemma {:induction false} LookupAt<K, V>(c: seq<(K, V)>, i: nat)
    requires i < |c| && DistinctKeys(c)
    ensures Lookup(c, c[i].0) == Some(c[i].1)
    decreases |c|
  {
    if i < |c| - 1 {
      LookupAt(c[..|c| - 1], i);
    }
  }

  lemma {:induction false} LookupNone<K, V>(c: seq<(K, V)>, key: K)
    requires forall i :: 0 <= i < |c| ==> c[i].0 != key
    ensures Lookup(c, key) == None
    decreases |c|
  {
    if c != [] {
      LookupNone(c[..|c| - 1], key);
    }
  }

  lemma {:induction false} WithoutNone<K, V>(c: seq<(K, V)>, gone: set<K>)
    requires forall i :: 0 <= i < |c| ==> c[i].0 !in gone
    ensures Without(c, gone) == c
    decreases |c|
  {
    if c != [] {
      WithoutNone(c[..|c| - 1], gone);
      assert c == c[..|c| - 1] + [c[|c| - 1]];
    }
  }

  /** Leaving out one key closes the gap it leaves. */
  lemma {:induction false} WithoutOne<K, V>(c: seq<(K, V)>, i: nat)
    requires i < |c| && DistinctKeys(c)
    ensures Without(c, {c[i].0}) == c[..i] + c[i + 1..]
    decreases |c|
  {
    var n, k := |c| - 1, c[i].0;
    if i == n {
      WithoutNone(c[..n], {k});
      assert c[i + 1..] == [];
    } else {
      WithoutOne(c[..n], i);
      assert c[..n][..i] == c[..i];
      assert c[..n][i + 1..] + [c[n]] == c[i + 1..];
      assert c[n].0 != k;
    }
  }

  // ------------------------------------------------------ the two structures

  ghost predicate SameHandles<K, V>(order: seq<Arc<K>>, keys: map<K, Entry<V>>) {
    forall i :: 0 <= i < |order| ==> order[i].key in keys && keys[order[i].key].id == order[i].id
  }

  ghost predicate Covers<K, V>(order: seq<Arc<K>>, keys: map<K, Entry<V>>) {
    forall k :: k in keys ==> exists i :: 0 <= i < |order| && order[i].key == k
  }

  ghost predicate Distinct<K>(order: seq<Arc<K>>) {
    forall i, j :: 0 <= i < j < |order| ==> order[i].key != order[j].key && order[i].id != order[j].id
  }

  /** Every key once in the order, the same keys in both, and the same handle in both. */
  ghost predicate Linked<K, V>(order: seq<Arc<K>>, keys: map<K, Entry<V>>) {
    SameHandles(order, keys) && Covers(order, keys) && Distinct(order)
  }

  function Pairs<K(==), V>(order: seq<Arc<K>>, keys: map<K, Entry<V>>): (c: seq<(K, V)>)
    requires forall i :: 0 <= i < |order| ==> order[i].key in keys
    ensures |c| == |order|
  {
    seq(|order|, i requires 0 <= i < |order| => (order[i].key, keys[order[i].key].value))
  }

  ghost predicate IdsBelow<K>(order: seq<Arc<K>>, n: nat) {
    forall i :: 0 <= i < |order| ==> order[i].id < n
  }

  /** Is the handle still referred to by one of the structures? */
  predicate Held<K(==), V>(order: seq<Arc<K>>, keys: map<K, Entry<V>>, id: nat) {
    (exists k :: k in keys && keys[k].id == id) || exists i :: 0 <= i < |order| && order[i].id == id
  }

  function Rest<K, V>(m: map<K, V>, k: K): (r: map<K, V>)
    requires k in m
    ensures |r.Keys| < |m.Keys|
  {
    var r := m - {k};
    assert r.Keys == m.Keys - {k};
    r
  }

  /** Taking the same key out of both structures takes its entry out of the map they represent... */
  lemma CutRemoves<K, V>(order: seq<Arc<K>>, keys: map<K, Entry<V>>, i: nat)
    requires Linked(order, keys) && i < |order|
    ensures Linked(Cut(order, i), keys - {order[i].key})
    ensures Pairs(Cut(order, i), keys - {order[i].key}) == Without(Pairs(order, keys), {order[i].key})
  {
    var o, m, k := Cut(order, i), keys - {order[i].key}, order[i].key;
    CutLinked(order, keys, i);
    var c := Pairs(order, keys);
    WithoutOne(c, i);
    assert Pairs(o, m) == c[..i] + c[i + 1..];
  }

  lemma CutDistinct<K>(order: seq<Arc<K>>, i: nat)
    requires Distinct(order) && i < |order|
    ensures Distinct(Cut(order, i))
    ensures forall j :: 0 <= j < |order| - 1 ==> Cut(order, i)[j].key != order[i].key && Cut(order, i)[j].id != order[i].id
  {
    CutAt(order, i);
  }

  lemma CutCovers<K, V>(order: seq<Arc<K>>, keys: map<K, Entry<V>>, i: nat)
    requires Covers(order, keys) && i < |order|
    ensures Covers(Cut(order, i), keys - {order[i].key})
  {
    var o, m := Cut(order, i), keys - {order[i].key};
    CutAt(order, i);
    forall k | k in m ensures exists j :: 0 <= j < |o| && o[j].key == k {
      var j :| 0 <= j < |order| && order[j].key == k;
      assert o[if j < i then j else j - 1] == order[j];
    }
  }

  lemma CutLinked<K, V>(order: seq<Arc<K>>, keys: map<K, Entry<V>>, i: nat)
    requires Linked(order, keys) && i < |order|
    ensures Linked(Cut(order, i), keys - {order[i].key})
  {
    CutAt(order, i);
    CutDistinct(order, i);
    CutCovers(order, keys, i);
  }

  /** ... and no structure refers to its handle any more. */
  lemma CutReleases<K, V>(order: seq<Arc<K>>, keys: map<K, Entry<V>>, i: nat)
    requires Linked(order, keys) && i < |order|
    ensures !Held(Cut(order, i), keys - {order[i].key}, order[i].id)
  {
    var o, m := Cut(order, i), keys - {order[i].key};
    CutLinked(order, keys, i);
    CutDistinct(order, i);
    CutAt(order, i);
    forall k | k in m ensures m[k].id != order[i].id {
      var j :| 0 <= j < |o| && o[j].key == k;
    }
  }

  /** A handle is held exactly as long as its key waits in the queue. */
  lemma HeldWhileQueued<K, V>(order: seq<Arc<K>>, keys: map<K, Entry<V>>, id: nat)
    requires Linked(order, keys)
    ensures Held(order, keys, id) <==> exists i :: 0 <= i < |order| && order[i].id == id
  {
    if k :| k in keys && keys[k].id == id {
      var i :| 0 <= i < |order| && order[i].key == k;
      assert order[i].id == id;
    }
  }

  lemma PopFront<K, V>(order: seq<Arc<K>>, keys: map<K, Entry<V>>, rest: seq<Arc<K>>, m: map<K, Entry<V>>)
    requires Linked(order, keys) && order != [] && rest == order[1..] && m == keys - {order[0].key}
    ensures Linked(rest, m) && !Held(rest, m, order[0].id)
  {
    assert Cut(order, 0) == rest;
    CutLinked(order, keys, 0);
    CutReleases(order, keys, 0);
  }

  lemma PopPairs<K, V>(order: seq<Arc<K>>, keys: map<K, Entry<V>>, rest: seq<Arc<K>>, m: map<K, Entry<V>>)
    requires SameHandles(order, keys) && order != [] && rest == order[1..] && m == keys - {order[0].key} && SameHandles(rest, m)
    ensures Pairs(rest, m) == Pairs(order, keys)[1..]
  {}

  lemma PushLinked<K, V>(order: seq<Arc<K>>, keys: map<K, Entry<V>>, a: Arc<K>, v: V)
    requires Linked(order, keys) && a.key !in keys && forall i :: 0 <= i < |order| ==> order[i].id != a.id
    ensures Linked(order + [a], keys[a.key := Entry(a.id, v)])
    ensures Pairs(order + [a], keys[a.key := Entry(a.id, v)]) == Pairs(order, keys) + [(a.key, v)]
  {
    var o, m := order + [a], keys[a.key := Entry(a.id, v)];
    forall k | k in m ensures exists j :: 0 <= j < |o| && o[j].key == k {
      if k == a.key {
        assert o[|order|].key == k;
      } else {
        var j :| 0 <= j < |order| && order[j].key == k;
        assert o[j].key == k;
      }
    }
  }

  // -------------------------------------------------------------- the queue

  class Queue<K(==), V> {
    var keys: map<K, Entry<V>>
    var order: seq<Arc<K>>
    /** Identity of the next handle. */
    var nextId: nat

    ghost predicate Valid()
      reads this
    {
      Linked(order, keys) && IdsBelow(order, nextId)
    }

    /** The map this queue represents, oldest entry first. */
    ghost function Contents(): seq<(K, V)>
      reads this
      requires Valid()
    {
      Pairs(order, keys)
    }

    constructor ()
      ensures Valid() && Contents() == []
    {
      keys, order, nextId := map[], [], 0;
    }

    method Push(key: K, value: V) returns (added: bool)
      requires Valid()
      modifies this
      ensures Valid() && added == (Lookup(old(Contents()), key) == None)
      ensures Contents() == if added then old(Contents()) + [(key, value)] else old(Contents())
    {
      LookupIs(order, keys, key);
      if key in keys {
        return false;
      }
      var a := Arc(nextId, key);
      PushLinked(order, keys, a, value);
      keys := keys[key := Entry(a.id, value)];
      order := order + [a];
      nextId := nextId + 1;
      added := true;
    }

    /** The oldest entry; unwrapping its handle never panics. */
    method Pop() returns (r: Option<(K, V)>, panicked: bool)
      requires Valid()
      modifies this
      ensures Valid() && !panicked
      ensures old(Contents()) == [] ==> r == None && Contents() == []
      ensures old(Contents()) != [] ==> r == Some(old(Contents())[0]) && Contents() == old(Contents())[1..]
    {
      panicked := false;
      if order == [] {
        return None, false;
      }
      var a := order[0];
      PopFront(order, keys, order[1..], keys - {a.key});
      PopPairs(order, keys, order[1..], keys - {a.key});
      order := order[1..];
      var e := keys[a.key];
      keys := keys - {a.key};
      if Held(order, keys, a.id) {
        return None, true;
      }
      r := Some((a.key, e.value));
    }

    /** First handle with the key, taken out of the order. */
    method RemoveOrderInternal(key: K) returns (found: Option<Arc<K>>, ghost index: nat)
      modifies this`order
      ensures found.None? ==> order == old(order) && forall i :: 0 <= i < |order| ==> order[i].key != key
      ensures found.Some? ==> index < |old(order)| && found.value == old(order)[index] && found.value.key == key
                              && order == Cut(old(order), index)
    {
      for i := 0 to |order|
        invariant forall j :: 0 <= j < i ==> order[j].key != key
        invariant order == old(order)
      {
        if order[i].key == key {
          found, index := Some(order[i]), i;
          order := order[..i] + order[i + 1..];
          return;
        }
      }
      found, index := None, 0;
    }

    method RemoveEntry(key: K) returns (r: Option<(K, V)>, panicked: bool)
      requires Valid()
      modifies this
      ensures Valid() && !panicked && Contents() == Without(old(Contents()), {key})
      ensures r == match Lookup(old(Contents()), key) case None => None case Some(v) => Some((key, v))
    {
      panicked := false;
      LookupIs(order, keys, key);
      if key !in keys {
        NotThere(order, keys, key);
        return None, false;
      }
      ghost var before, was := order, keys;
      var e := keys[key];
      keys := keys - {key};
      var found, index := RemoveOrderInternal(key);
      if found.None? {
        return None, false;
      }
      CutRemoves(before, was, index);
      CutReleases(before, was, index);
      if Held(order, keys, found.value.id) {
        return None, true;
      }
      r := Some((found.value.key, e.value));
    }

    method Remove(key: K) returns (r: Option<V>)
      requires Valid()
      modifies this
      ensures Valid() && r == Lookup(old(Contents()), key) && Contents() == Without(old(Contents()), {key})
    {
      LookupIs(order, keys, key);
      if key !in keys {
        NotThere(order, keys, key);
        return None;
      }
      ghost var before, was := order, keys;
      var e := keys[key];
      keys := keys - {key};
      var found, index := RemoveOrderInternal(key);
      if found.None? {
        return None;
      }
      CutRemoves(before, was, index);
      r := Some(e.value);
    }

    method Get(key: K) returns (r: Option<V>)
      requires Valid()
      ensures r == Lookup(Contents(), key)
    {
      LookupIs(order, keys, key);
      r := if key in keys then Some(keys[key].value) else None;
    }

    method Peek() returns (r: Option<V>)
      requires Valid()
      ensures r == if Contents() == [] then None else Some(Contents()[0].1)
    {
      r := if order != [] && order[0].key in keys then Some(keys[order[0].key].value) else None;
    }

    method PeekKey() returns (r: Option<K>)
      requires Valid()
      ensures r == if Contents() == [] then None else Some(Contents()[0].0)
    {
      r := if order != [] then Some(order[0].key) else None;
    }

    /** One entry of the old map: taken out of the order, or put back into the map. */
    method Visit(f: (K, V) -> bool, k: K, tmp: map<K, Entry<V>>, ghost c: seq<(K, V)>, ghost out: seq<(K, V)>)
      returns (item: Option<(K, V)>, panicked: bool)
      requires Extracted(c, order, keys, tmp, out, f) && k in tmp && IdsBelow(order, nextId)
      modifies this`keys, this`order
      ensures !panicked && IdsBelow(order, nextId)
      ensures item == if f(k, tmp[k].value) then Some((k, tmp[k].value)) else None
      ensures Extracted(c, order, keys, Rest(tmp, k), if item.Some? then out + [item.value] else out, f)
    {
      var e, rest := tmp[k], tmp - {k};
      if f(k, e.value) {
        ghost var before := order;
        InOrder(order, keys, tmp, k);
        var found, index := RemoveOrderInternal(k);
        if found.None? {
          return None, false;
        }
        TakeStep(c, before, keys, tmp, out, f, index, k);
        TakeFrees(before, keys, tmp, index, k);
        CutIds(before, index, nextId);
        if Held(order, keys, e.id) || Held(order, rest, e.id) {
          return None, true;
        }
        return Some((k, e.value)), false;
      }
      KeepStep(c, order, keys, tmp, out, f, k);
      keys := keys[k := e];
      return None, false;
    }

    /**
     * Takes out the entries that satisfy `f`, in the order `run` in which the hash map happens to
     * yield them; the caller takes everything, or stops after `wanted` entries. No unwrapping
     * panics, nothing is taken twice, and the rest keeps its order; but entries not yet visited
     * when the caller stops are `lost` to the map while they stay in the order. Whether there are
     * any follows from the counts, except when exactly the matches are asked for.
     */
    method ExtractIf(f: (K, V) -> bool, wanted: Option<nat>, run: seq<(K, V)>)
      returns (out: seq<(K, V)>, panicked: bool, ghost lost: map<K, Entry<V>>)
      requires Valid() && Permutes(run, Contents())
      modifies this
      ensures !panicked && (wanted.Some? ==> |out| <= wanted.value)
      ensures Valid() <==> LeftOver(run, f, wanted) == []
      ensures Drained(old(Contents()), f, wanted) ==> Valid()
      ensures CutShort(old(Contents()), f, wanted) ==> !Valid()
      ensures Valid() ==> Contents() == Keep(old(Contents()), f)
      ensures Extracted(old(Contents()), order, keys, lost, out, f)
    {
      ghost var c := Contents();
      DecidedByCounts(run, c, f, wanted);
      var tmp := keys;
      keys := map[];
      StartExtract(order, tmp, f);
      StartListing(order, tmp, run);
      out, panicked, lost := Drain(f, wanted, run, tmp, c);
      EndExtract(c, order, keys, lost, out, f);
    }

    /** The iterator, driven by its caller. */
    method Drain(f: (K, V) -> bool, wanted: Option<nat>, run: seq<(K, V)>, all: map<K, Entry<V>>, ghost c: seq<(K, V)>)
      returns (out: seq<(K, V)>, panicked: bool, ghost lost: map<K, Entry<V>>)
      requires Extracted(c, order, keys, all, [], f) && IdsBelow(order, nextId) && Lists(run, all)
      modifies this`keys, this`order
      ensures !panicked && (wanted.Some? ==> |out| <= wanted.value)
      ensures lost == map[] <==> LeftOver(run, f, wanted) == []
      ensures Extracted(c, order, keys, lost, out, f) && IdsBelow(order, nextId)
    {
      var tmp := all;
      out, panicked := [], false;
      var i := 0;
      assert run[0..] == run;
      while i < |run| && (wanted.None? || |out| < wanted.value)
        invariant i <= |run| && Lists(run[i..], tmp)
        invariant Extracted(c, order, keys, tmp, out, f) && !panicked && IdsBelow(order, nextId)
        invariant wanted.Some? ==> |out| <= wanted.value
        invariant wanted.Some? ==> LeftOver(run, f, wanted) == Unvisited(run[i..], f, wanted.value - |out|)
      {
        var k := run[i].0;
        ListsStep(run[i..], tmp);
        assert run[i..][0] == run[i] && run[i..][1..] == run[i + 1..];
        var item;
        item, panicked := Visit(f, k, tmp, c, out);
        if panicked {
          return out, true, tmp;
        }
        tmp := Rest(tmp, k);
        if item.Some? {
          out := out + [item.value];
        }
        i := i + 1;
      }
      lost := tmp;
      ListsNothing(run[i..], tmp);
    }

    method Clear()
      requires Valid()
      modifies this
      ensures Valid() && Contents() == []
    {
      keys, order := map[], [];
    }
  }

  lemma LookupIs<K, V>(order: seq<Arc<K>>, keys: map<K, Entry<V>>, key: K)
    requires Linked(order, keys)
    ensures Lookup(Pairs(order, keys), key) == if key in keys then Some(keys[key].value) else None
  {
    var c := Pairs(order, keys);
    if key in keys {
      var i :| 0 <= i < |order| && order[i].key == key;
      LookupAt(c, i);
    } else {
      LookupNone(c, key);
    }
  }

  lemma NotThere<K, V>(order: seq<Arc<K>>, keys: map<K, Entry<V>>, key: K)
    requires Linked(order, keys) && key !in keys
    ensures Without(Pairs(order, keys), {key}) == Pairs(order, keys)
  {
    WithoutNone(Pairs(order, keys), {key});
  }

  // ------------------------------------------------------------ extraction

  /**
   * Part of the way through: `keys` holds what was visited and kept, `tmp` what was not
   * visited, and together with what was taken out they make up the original contents.
   */
  ghost predicate Extracted<K, V>(c: seq<(K, V)>, order: seq<Arc<K>>, keys: map<K, Entry<V>>, tmp: map<K, Entry<V>>,
                                  out: seq<(K, V)>, f: (K, V) -> bool)
  {
    keys.Keys !! tmp.Keys
    && Linked(order, keys + tmp)
    && Keep(Pairs(order, keys + tmp), f) == Keep(c, f)
    && multiset(out) + multiset(Pairs(order, keys + tmp)) == multiset(c)
    && (forall i :: 0 <= i < |out| ==> f(out[i].0, out[i].1))
    && (forall k :: k in keys ==> !f(k, keys[k].value))
  }

  lemma InOrder<K, V>(order: seq<Arc<K>>, keys: map<K, Entry<V>>, tmp: map<K, Entry<V>>, k: K)
    requires Linked(order, keys + tmp) && k in tmp
    ensures exists i :: 0 <= i < |order| && order[i].key == k
  {
    assert k in keys + tmp;
  }

  lemma CutIds<K>(order: seq<Arc<K>>, i: nat, n: nat)
    requires i < |order| && IdsBelow(order, n)
    ensures IdsBelow(Cut(order, i), n)
  {
    CutAt(order, i);
  }

  /** `todo` lists the entries of `tmp`, each once. */
  ghost predicate Lists<K, V>(todo: seq<(K, V)>, tmp: map<K, Entry<V>>) {
    DistinctKeys(todo)
    && (forall j :: 0 <= j < |todo| ==> todo[j].0 in tmp && tmp[todo[j].0].value == todo[j].1)
    && (forall k :: k in tmp ==> exists j :: 0 <= j < |todo| && todo[j].0 == k)
  }

  lemma ListsNothing<K, V>(todo: seq<(K, V)>, tmp: map<K, Entry<V>>)
    requires Lists(todo, tmp)
    ensures todo == [] <==> tmp == map[]
  {
    if todo != [] {
      assert todo[0].0 in tmp;
    }
  }

  lemma ListsStep<K, V>(todo: seq<(K, V)>, tmp: map<K, Entry<V>>)
    requires Lists(todo, tmp) && todo != []
    ensures todo[0].0 in tmp && tmp[todo[0].0].value == todo[0].1 && Lists(todo[1..], Rest(tmp, todo[0].0))
  {
    var rest, m := todo[1..], Rest(tmp, todo[0].0);
    forall j | 0 <= j < |rest| ensures rest[j].0 in m && m[rest[j].0].value == rest[j].1 {
      assert rest[j] == todo[j + 1];
    }
    forall k | k in m ensures exists j :: 0 <= j < |rest| && rest[j].0 == k {
      var j :| 0 <= j < |todo| && todo[j].0 == k;
      assert rest[j - 1].0 == k;
    }
  }

  /** In any order of the contents no key comes twice. */
  lemma PermutedDistinct<K, V>(run: seq<(K, V)>, c: seq<(K, V)>)
    requires Permutes(run, c) && DistinctKeys(c)
    ensures DistinctKeys(run)
  {
    forall a, b | 0 <= a < b < |run| ensures run[a].0 != run[b].0 {
      if run[a].0 == run[b].0 {
        TwiceInRun(run, c, a, b);
      }
    }
  }

  lemma OnlyOnce<K, V>(c: seq<(K, V)>, i: nat)
    requires DistinctKeys(c) && i < |c|
    ensures multiset(c)[c[i]] == 1
  {
    CutMultiset(c, i);
    CutAt(c, i);
    assert c[i] !in Cut(c, i);
  }

  lemma AtLeastTwice<T>(s: seq<T>, a: nat, b: nat)
    requires a < b < |s| && s[a] == s[b]
    ensures multiset(s)[s[a]] >= 2
  {
    CutMultiset(s, a);
    assert Cut(s, a)[b - 1] == s[b];
  }

  lemma TwiceInRun<K, V>(run: seq<(K, V)>, c: seq<(K, V)>, a: nat, b: nat)
    requires Permutes(run, c) && DistinctKeys(c) && a < b < |run|
    ensures run[a].0 != run[b].0
  {
    if run[a].0 == run[b].0 {
      assert run[a] in multiset(c) && run[b] in multiset(c);
      var i :| 0 <= i < |c| && c[i] == run[a];
      var j :| 0 <= j < |c| && c[j] == run[b];
      assert i == j;
      OnlyOnce(c, i);
      AtLeastTwice(run, a, b);
    }
  }

  lemma StartListing<K, V>(order: seq<Arc<K>>, keys: map<K, Entry<V>>, run: seq<(K, V)>)
    requires Linked(order, keys) && Permutes(run, Pairs(order, keys))
    ensures Lists(run, keys)
  {
    var c := Pairs(order, keys);
    PermutedDistinct(run, c);
    forall j | 0 <= j < |run| ensures run[j].0 in keys && keys[run[j].0].value == run[j].1 {
      assert run[j] in multiset(c);
      var i :| 0 <= i < |c| && c[i] == run[j];
    }
    forall k | k in keys ensures exists j :: 0 <= j < |run| && run[j].0 == k {
      var i :| 0 <= i < |order| && order[i].key == k;
      assert c[i] in multiset(run);
      var j :| 0 <= j < |run| && run[j] == c[i];
    }
  }

  lemma StartExtract<K, V>(order: seq<Arc<K>>, tmp: map<K, Entry<V>>, f: (K, V) -> bool)
    requires Linked(order, tmp)
    ensures Extracted(Pairs(order, tmp), order, map[], tmp, [], f)
  {
    assert map[] + tmp == tmp;
  }

  lemma KeepStep<K, V>(c: seq<(K, V)>, order: seq<Arc<K>>, keys: map<K, Entry<V>>, tmp: map<K, Entry<V>>,
                       out: seq<(K, V)>, f: (K, V) -> bool, k: K)
    requires Extracted(c, order, keys, tmp, out, f) && k in tmp && !f(k, tmp[k].value)
    ensures Extracted(c, order, keys[k := tmp[k]], tmp - {k}, out, f)
  {
    assert keys[k := tmp[k]] + (tmp - {k}) == keys + tmp;
  }

  lemma CutPairs<K, V>(order: seq<Arc<K>>, full: map<K, Entry<V>>, i: nat)
    requires Linked(order, full) && i < |order|
    ensures Linked(Cut(order, i), full - {order[i].key})
    ensures Pairs(Cut(order, i), full - {order[i].key}) == Cut(Pairs(order, full), i)
  {
    CutRemoves(order, full, i);
    WithoutOne(Pairs(order, full), i);
  }

  lemma TakeStep<K, V>(c: seq<(K, V)>, order: seq<Arc<K>>, keys: map<K, Entry<V>>, tmp: map<K, Entry<V>>,
                       out: seq<(K, V)>, f: (K, V) -> bool, i: nat, k: K)
    requires Extracted(c, order, keys, tmp, out, f) && k in tmp && f(k, tmp[k].value)
    requires i < |order| && order[i].key == k
    ensures Extracted(c, Cut(order, i), keys, tmp - {k}, out + [(k, tmp[k].value)], f)
  {
    assert (keys + tmp) - {k} == keys + (tmp - {k});
    CutPairs(order, keys + tmp, i);
    TakeEntry(c, Pairs(order, keys + tmp), out, f, i, (k, tmp[k].value));
  }

  lemma TakeEntry<K, V>(c: seq<(K, V)>, p: seq<(K, V)>, out: seq<(K, V)>, f: (K, V) -> bool, i: nat, e: (K, V))
    requires i < |p| && p[i] == e && f(e.0, e.1) && Keep(p, f) == Keep(c, f)
    requires multiset(out) + multiset(p) == multiset(c)
    ensures Keep(Cut(p, i), f) == Keep(c, f)
    ensures multiset(out + [e]) + multiset(Cut(p, i)) == multiset(c)
  {
    KeepCut(p, i, f);
    CutMultiset(p, i);
    assert multiset(out + [e]) == multiset(out) + multiset([e]);
  }

  lemma TakeFrees<K, V>(order: seq<Arc<K>>, keys: map<K, Entry<V>>, tmp: map<K, Entry<V>>, i: nat, k: K)
    requires keys.Keys !! tmp.Keys && Linked(order, keys + tmp) && k in tmp && i < |order| && order[i].key == k
    ensures !Held(Cut(order, i), keys, tmp[k].id) && !Held(Cut(order, i), tmp - {k}, tmp[k].id)
  {
    assert (keys + tmp) - {k} == keys + (tmp - {k});
    CutReleases(order, keys + tmp, i);
    assert forall x :: x in keys ==> (keys + (tmp - {k}))[x] == keys[x];
  }

  lemma EndExtract<K, V>(c: seq<(K, V)>, order: seq<Arc<K>>, keys: map<K, Entry<V>>, lost: map<K, Entry<V>>,
                         out: seq<(K, V)>, f: (K, V) -> bool)
    requires Extracted(c, order, keys, lost, out, f)
    ensures Linked(order, keys) <==> lost == map[]
    ensures lost == map[] ==> Pairs(order, keys) == Keep(c, f)
  {
    if lost == map[] {
      assert keys + lost == keys;
      KeepAll(Pairs(order, keys), f);
    } else {
      var k :| k in lost;
      var i :| 0 <= i < |order| && order[i].key == k;
      assert order[i].key !in keys;
    }
  }

  /** Two entries that both match, and a caller that takes one of them: the queue is no longer consistent. */
  method StopAfterOne() returns (q: Queue<nat, nat>, panicked: bool)
    ensures fresh(q) && !panicked && !q.Valid()
  {
    q := new Queue();
    var a := q.Push(1, 10);
    var b := q.Push(2, 20);
    var f := (k: nat, v: nat) => true;
    ghost var c: seq<(nat, nat)> := q.Contents();
    assert c == [(1, 10), (2, 20)];
    ghost var d: seq<(nat, nat)> := c[1..];
    assert d == [(2, 20)] && |d[1..]| == 0;
    assert Matches(d, f) == 1;
    var out;
    ghost var lost;
    out, panicked, lost := q.ExtractIf(f, Some(1), [(1, 10), (2, 20)]);
  }
}
