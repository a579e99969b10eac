/** The Merkle tree builder: a bottom-up loop, against a tree defined from the top down. */
module Merkle {
  import opened Base
  import opened BlockHeader

  type HashFunction = seq<Byte> -> Hash

  // ------------------------------------------------------ row by row

  /** The parent of nodes `2 * i` and `2 * i + 1`; a last single node is its own neighbour. */
  function Pair<T>(join: (T, T) -> T, s: seq<T>, i: nat): T
    requires 2 * i < |s|
  {
    join(s[2 * i], if 2 * i + 1 < |s| then s[2 * i + 1] else s[2 * i])
  }

  /** The row above `s`. */
  function Above<T>(join: (T, T) -> T, s: seq<T>): (r: seq<T>)
    ensures |r| == (|s| + 1) / 2
  {
    seq((|s| + 1) / 2, i requires 0 <= i < (|s| + 1) / 2 => Pair(join, s, i))
  }

  function Root<T>(join: (T, T) -> T, s: seq<T>): T
    requires s != []
    decreases |s|
  {
    if |s| == 1 then s[0] else Root(join, Above(join, s))
  }

  // ------------------------------------------------------ from the top down

  /** Number of rows above `n` leaves. */
  function Height(n: nat): nat {
    if n <= 1 then 0 else 1 + Height((n + 1) / 2)
  }

  /** Every position of a row of `Pow2(h)` leaves, half by half; a missing right half repeats the left one. */
  function Fill<T>(h: nat, s: seq<T>): (r: seq<T>)
    requires 1 <= |s| <= Pow2(h)
    ensures |r| == Pow2(h)
  {
    if h == 0 then s
    else
      var k := Pow2(h - 1);
      if |s| <= k then Fill(h - 1, s) + Fill(h - 1, s) else Fill(h - 1, s[..k]) + Fill(h - 1, s[k..])
  }

  /** The root over `s` seen from height `h`: both halves, or the left one twice. */
  function Node<T>(join: (T, T) -> T, h: nat, s: seq<T>): T
    requires 1 <= |s| <= Pow2(h)
    decreases h
  {
    if h == 0 then s[0]
    else
      var k := Pow2(h - 1);
      if |s| <= k then join(Node(join, h - 1, s), Node(join, h - 1, s))
      else join(Node(join, h - 1, s[..k]), Node(join, h - 1, s[k..]))
  }

  /** The root of a complete binary tree. */
  function Tree<T>(join: (T, T) -> T, h: nat, s: seq<T>): T
    requires |s| == Pow2(h)
  {
    if h == 0 then s[0]
    else var k := Pow2(h - 1); join(Tree(join, h - 1, s[..k]), Tree(join, h - 1, s[k..]))
  }

  lemma {:induction false} HeightHolds(n: nat)
    requires n >= 1
    ensures n <= Pow2(Height(n)) && (n > 1 ==> Pow2(Height(n) - 1) < n)
  {
    if n > 1 {
      HeightHolds((n + 1) / 2);
    }
  }

  lemma AboveAppend<T>(join: (T, T) -> T, a: seq<T>, b: seq<T>)
    requires |a| % 2 == 0
    ensures Above(join, a + b) == Above(join, a) + Above(join, b)
  {
    var k := |a| / 2;
    forall i | 0 <= i < |Above(join, a + b)|
      ensures Pair(join, a + b, i) == if i < k then Pair(join, a, i) else Pair(join, b, i - k)
    {}
  }

  function Half(h: nat): (k: nat)
    requires h >= 1
    ensures k == Pow2(h - 1) && Pow2(h) == 2 * k && k >= 1
  {
    Pow2(h - 1)
  }

  /** A tree over two rows joined. */
  lemma TreeOfHalves<T>(join: (T, T) -> T, h: nat, a: seq<T>, b: seq<T>)
    requires h >= 1 && |a| == |b| == Pow2(h - 1)
    ensures Tree(join, h, a + b) == join(Tree(join, h - 1, a), Tree(join, h - 1, b))
  {
    assert (a + b)[..|a|] == a && (a + b)[|a|..] == b;
  }

  /** Filling and hashing the complete tree is going down half by half. */
  lemma {:induction false} NodeIsTree<T>(join: (T, T) -> T, h: nat, s: seq<T>)
    requires 1 <= |s| <= Pow2(h)
    ensures Node(join, h, s) == Tree(join, h, Fill(h, s))
    decreases h
  {
    if h > 0 {
      var k := Half(h);
      if |s| <= k {
        NodeIsTree(join, h - 1, s);
        TreeOfHalves(join, h, Fill(h - 1, s), Fill(h - 1, s));
      } else {
        NodeIsTree(join, h - 1, s[..k]);
        NodeIsTree(join, h - 1, s[k..]);
        TreeOfHalves(join, h, Fill(h - 1, s[..k]), Fill(h - 1, s[k..]));
      }
    }
  }

  lemma NodeOfHalves<T>(join: (T, T) -> T, h: nat, a: seq<T>, b: seq<T>)
    requires h >= 1 && |a| == Half(h) && 1 <= |b| <= Half(h)
    ensures Node(join, h, a + b) == join(Node(join, h - 1, a), Node(join, h - 1, b))
  {
    assert (a + b)[..|a|] == a && (a + b)[|a|..] == b;
  }

  lemma NodeOfPair<T>(join: (T, T) -> T, s: seq<T>)
    requires 1 <= |s| <= 2
    ensures Node(join, 1, s) == Above(join, s)[0]
  {
    assert Pow2(0) == 1;
  }

  lemma NodeRepeats<T>(join: (T, T) -> T, h: nat, s: seq<T>)
    requires h >= 1 && 1 <= |s| <= Half(h)
    ensures Node(join, h, s) == join(Node(join, h - 1, s), Node(join, h - 1, s))
  {}

  /** Seen from one row up the same root is found. */
  lemma {:induction false} NodeOneUp<T>(join: (T, T) -> T, h: nat, s: seq<T>, up: seq<T>)
    requires h >= 1 && 1 <= |s| <= Pow2(h) && up == Above(join, s)
    ensures |up| <= Pow2(h - 1)
    ensures Node(join, h, s) == Node(join, h - 1, up)
    decreases h
  {
    var k := Half(h);
    if h == 1 {
      NodeOfPair(join, s);
    } else if |s| <= k {
      NodeOneUp(join, h - 1, s, up);
      NodeRepeats(join, h, s);
      NodeRepeats(join, h - 1, up);
    } else {
      assert s == s[..k] + s[k..];
      NodesOneUp(join, h, s[..k], s[k..], Above(join, s[..k]), Above(join, s[k..]));
      AboveAppend(join, s[..k], s[k..]);
    }
  }

  lemma {:induction false} NodesOneUp<T>(join: (T, T) -> T, h: nat, a: seq<T>, b: seq<T>, a': seq<T>, b': seq<T>)
    requires h >= 2 && |a| == Half(h) && 1 <= |b| <= Half(h) && a' == Above(join, a) && b' == Above(join, b)
    ensures |a'| == Half(h - 1) && 1 <= |b'| <= Half(h - 1)
    ensures |a' + b'| <= Pow2(h - 1) && Node(join, h, a + b) == Node(join, h - 1, a' + b')
    decreases h, 0
  {
    var j := Half(h - 1);
    NodeOneUp(join, h - 1, a, a');
    NodeOneUp(join, h - 1, b, b');
    JoinedOneUp(join, h, a, b, a', b');
  }

  lemma JoinedOneUp<T>(join: (T, T) -> T, h: nat, a: seq<T>, b: seq<T>, a': seq<T>, b': seq<T>)
    requires h >= 2 && |a| == Half(h) && 1 <= |b| <= Half(h) && |a'| == Half(h - 1) && 1 <= |b'| <= Half(h - 1)
    requires Node(join, h - 1, a) == Node(join, h - 2, a') && Node(join, h - 1, b) == Node(join, h - 2, b')
    ensures Node(join, h, a + b) == Node(join, h - 1, a' + b')
  {
    NodeOfHalves(join, h, a, b);
    NodeOfHalves(join, h - 1, a', b');
  }

  /** The root found row by row is the one found from the top down. */
  lemma {:induction false} RootIsNode<T>(join: (T, T) -> T, s: seq<T>)
    requires s != []
    ensures |s| <= Pow2(Height(|s|))
    ensures Root(join, s) == Node(join, Height(|s|), s)
    decreases |s|
  {
    HeightHolds(|s|);
    if |s| > 1 {
      RootIsNode(join, Above(join, s));
      NodeOneUp(join, Height(|s|), s, Above(join, s));
    }
  }

  /** The root found row by row is the root of the filled complete tree. */
  lemma {:induction false} RootIsTree<T>(join: (T, T) -> T, s: seq<T>)
    requires s != []
    ensures |s| <= Pow2(Height(|s|))
    ensures Root(join, s) == Tree(join, Height(|s|), Fill(Height(|s|), s))
  {
    RootIsNode(join, s);
    NodeIsTree(join, Height(|s|), s);
  }

  // ------------------------------------------------------------ collisions

  lemma SingleRow<T>(s: seq<T>, t: seq<T>)
    requires |s| == |t| == 1 && s[0] == t[0]
    ensures s == t
  {}

  /** Two different pairs with the same parent. */
  ghost predicate SameParent<T(!new)>(join: (T, T) -> T, p: (T, T), q: (T, T)) {
    p != q && join(p.0, p.1) == join(q.0, q.1)
  }

  /** Two complete rows under the same root are equal, or two different pairs have the same parent. */
  lemma {:induction false} TreesDiffer<T(!new)>(join: (T, T) -> T, h: nat, s: seq<T>, t: seq<T>)
    returns (p: (T, T), q: (T, T))
    requires |s| == |t| == Pow2(h) && Tree(join, h, s) == Tree(join, h, t)
    ensures s == t || SameParent(join, p, q)
    decreases h
  {
    p, q := (s[0], s[0]), (s[0], s[0]);
    if h == 0 {
      SingleRow(s, t);
    } else {
      var k := Half(h);
      p := (Tree(join, h - 1, s[..k]), Tree(join, h - 1, s[k..]));
      q := (Tree(join, h - 1, t[..k]), Tree(join, h - 1, t[k..]));
      if p == q {
        p, q := TreesDiffer(join, h - 1, s[..k], t[..k]);
        if s[..k] == t[..k] {
          p, q := TreesDiffer(join, h - 1, s[k..], t[k..]);
          assert s == s[..k] + s[k..] && t == t[..k] + t[k..];
        }
      }
    }
  }

  /** The complete row a list is filled up to. */
  function Filled<T>(s: seq<T>): seq<T>
    requires s != []
  {
    HeightHolds(|s|); Fill(Height(|s|), s)
  }

  /** Lists of the same height have the same root when they fill up to the same row. */
  lemma SameFillSameRoot<T>(join: (T, T) -> T, s: seq<T>, t: seq<T>)
    requires s != [] && t != [] && Height(|s|) == Height(|t|) && Filled(s) == Filled(t)
    ensures Root(join, s) == Root(join, t)
  {
    RootIsTree(join, s);
    RootIsTree(join, t);
  }

  /** And only then, unless two different pairs have the same parent. */
  lemma {:induction false} SameRootSameFill<T(!new)>(join: (T, T) -> T, s: seq<T>, t: seq<T>)
    returns (p: (T, T), q: (T, T))
    requires s != [] && t != [] && Height(|s|) == Height(|t|) && Root(join, s) == Root(join, t)
    ensures Filled(s) == Filled(t) || SameParent(join, p, q)
  {
    RootIsTree(join, s);
    RootIsTree(join, t);
    p, q := TreesDiffer(join, Height(|s|), Filled(s), Filled(t));
  }

  // -------------------------------------------- lists of different heights

  /** The row over `s` that has height `h`. */
  function RowAt<T>(join: (T, T) -> T, s: seq<T>, h: nat): seq<T>
    requires s != [] && h <= Height(|s|)
    decreases |s|
  {
    if h == Height(|s|) then s else RowAt(join, Above(join, s), h)
  }

  /** Every inner row, given as leaves, is shorter and has the same root. */
  lemma {:induction false} RowAtSameRoot<T>(join: (T, T) -> T, s: seq<T>, h: nat)
    requires s != [] && h <= Height(|s|)
    ensures var r := RowAt(join, s, h);
            r != [] && Height(|r|) == h && Root(join, r) == Root(join, s) && (h < Height(|s|) ==> |r| < |s|)
    decreases |s|
  {
    if h != Height(|s|) {
      RowAtSameRoot(join, Above(join, s), h);
    }
  }

  /** The lower of the two heights. */
  function Common<T>(s: seq<T>, t: seq<T>): (h: nat)
    ensures h <= Height(|s|) && h <= Height(|t|) && (h == Height(|s|) || h == Height(|t|))
  {
    if Height(|s|) < Height(|t|) then Height(|s|) else Height(|t|)
  }

  /** Both lists fill up to the same row at the lower of their heights. */
  ghost predicate SameFill<T(!new)>(join: (T, T) -> T, s: seq<T>, t: seq<T>)
    requires s != [] && t != []
  {
    var a, b := RowAt(join, s, Common(s, t)), RowAt(join, t, Common(s, t));
    a != [] && b != [] && Filled(a) == Filled(b)
  }

  /**
   * Any two lists, of whatever lengths, have the same root if they fill up to the same row at
   * the lower of their heights, and only if they do or two different pairs have the same parent.
   */
  lemma SameRootExactly<T(!new)>(join: (T, T) -> T, s: seq<T>, t: seq<T>)
    returns (p: (T, T), q: (T, T))
    requires s != [] && t != []
    ensures SameFill(join, s, t) ==> Root(join, s) == Root(join, t)
    ensures Root(join, s) == Root(join, t) ==> SameFill(join, s, t) || SameParent(join, p, q)
  {
    var h := Common(s, t);
    RowAtSameRoot(join, s, h);
    RowAtSameRoot(join, t, h);
    var a, b := RowAt(join, s, h), RowAt(join, t, h);
    p, q := (s[0], s[0]), (s[0], s[0]);
    if SameFill(join, s, t) {
      SameFillSameRoot(join, a, b);
    } else if Root(join, s) == Root(join, t) {
      p, q := SameRootSameFill(join, a, b);
    }
  }

  lemma {:induction false} FillStarts<T>(h: nat, s: seq<T>)
    requires 1 <= |s| <= Pow2(h)
    ensures Fill(h, s)[..|s|] == s
    decreases h
  {
    if h > 0 {
      var k := Half(h);
      if |s| <= k {
        FillStarts(h - 1, s);
        assert Fill(h, s)[..|s|] == Fill(h - 1, s)[..|s|];
      } else {
        FillStarts(h - 1, s[..k]);
        FillStarts(h - 1, s[k..]);
        var f, g := Fill(h - 1, s[..k]), Fill(h - 1, s[k..]);
        assert f == s[..k];
        assert (f + g)[..|s|] == f + g[..|s| - k];
      }
    }
  }

  /** Two lists of equal length with the same root are equal, or two different pairs have the same parent. */
  lemma EqualLengths<T(!new)>(join: (T, T) -> T, s: seq<T>, t: seq<T>)
    returns (p: (T, T), q: (T, T))
    requires s != [] && |s| == |t| && Root(join, s) == Root(join, t)
    ensures s == t || SameParent(join, p, q)
  {
    p, q := SameRootSameFill(join, s, t);
    HeightHolds(|s|);
    FillStarts(Height(|s|), s);
    FillStarts(Height(|s|), t);
  }

  /** Without equal lengths there is no such guarantee: repeating the last of an odd number of hashes keeps the root. */
  lemma RepeatedLastSameRoot<T>(join: (T, T) -> T, s: seq<T>)
    requires |s| % 2 == 1 && |s| > 1
    ensures Root(join, s) == Root(join, s + [s[|s| - 1]])
  {
    var t := s + [s[|s| - 1]];
    forall i | 0 <= i < |Above(join, s)|
      ensures Pair(join, s, i) == Pair(join, t, i)
    {}
    assert Above(join, s) == Above(join, t);
  }

  /** Three lists of three different lengths with one root, whatever the hash function. */
  lemma ThreeListsOneRoot<T>(join: (T, T) -> T, a: T, b: T, c: T)
    ensures Root(join, [a, b, c]) == Root(join, [a, b, c, c]) == Root(join, [join(a, b), join(c, c)])
  {
    RepeatedLastSameRoot(join, [a, b, c]);
    assert [a, b, c] + [c] == [a, b, c, c];
    assert Above(join, [a, b, c]) == [Pair(join, [a, b, c], 0), Pair(join, [a, b, c], 1)];
  }

  // ---------------------------------------------------------------- hashes

  /** The parent of two nodes: the hash of their 64 bytes. */
  function Parent(hash: HashFunction): (Hash, Hash) -> Hash {
    (a: Hash, b: Hash) => hash(Both(a, b))
  }

  function Both(a: seq<Byte>, b: seq<Byte>): seq<Byte> {
    a + b
  }

  lemma SmallRoots<T>(join: (T, T) -> T, a: T, b: T, c: T)
    ensures Root(join, [a, b]) == join(a, b) && Root(join, [a, b, c]) == join(join(a, b), join(c, c))
  {
    var d, e := join(a, b), join(c, c);
    assert Above(join, [a, b]) == [Pair(join, [a, b], 0)];
    assert Above(join, [a, b, c]) == [Pair(join, [a, b, c], 0), Pair(join, [a, b, c], 1)];
    assert Above(join, [d, e]) == [Pair(join, [d, e], 0)];
    assert Root(join, [d]) == d && Root(join, [join(d, e)]) == join(d, e);
    assert Root(join, [d, e]) == join(d, e);
  }

  /** Left before right, a missing right repeated: the roots of two and three leaves, spelled out in bytes. */
  lemma SmallTrees(hash: HashFunction, a: Hash, b: Hash, c: Hash, x: seq<Byte>, y: seq<Byte>, z: seq<Byte>)
    requires x == a && y == b && z == c
    ensures Root(Parent(hash), [a, b]) == hash(x + y)
    ensures var l: seq<Byte>, r: seq<Byte> := hash(x + y), hash(z + z); Root(Parent(hash), [a, b, c]) == hash(l + r)
  {
    SmallRoots(Parent(hash), a, b, c);
    assert Both(a, b) == x + y && Both(c, c) == z + z;
    var l: seq<Byte>, r: seq<Byte> := hash(x + y), hash(z + z);
    assert Both(hash(x + y), hash(z + z)) == l + r;
  }

  lemma BothInjective(a: Hash, b: Hash, c: Hash, d: Hash)
    requires Both(a, b) == Both(c, d)
    ensures a == c && b == d
  {
    var x, y := Both(a, b), Both(c, d);
    assert x[..32] == a && x[32..] == b && y[..32] == c && y[32..] == d;
  }

  /** Two different lists of equal length with the same root give two different inputs with the same hash. */
  lemma EqualLengthsCollide(hash: HashFunction, s: seq<Hash>, t: seq<Hash>)
    returns (x: seq<Byte>, y: seq<Byte>)
    requires s != [] && |s| == |t| && s != t && Root(Parent(hash), s) == Root(Parent(hash), t)
    ensures x != y && |x| == |y| == 64 && hash(x) == hash(y)
  {
    var p, q := EqualLengths(Parent(hash), s, t);
    x, y := Both(p.0, p.1), Both(q.0, q.1);
    if x == y {
      BothInjective(p.0, p.1, q.0, q.1);
    }
  }

  /** Any two lists with the same root fill up to the same row, or give two different inputs with the same hash. */
  lemma AnyListsCollide(hash: HashFunction, s: seq<Hash>, t: seq<Hash>)
    returns (x: seq<Byte>, y: seq<Byte>)
    requires s != [] && t != [] && Root(Parent(hash), s) == Root(Parent(hash), t)
    ensures SameFill(Parent(hash), s, t) || (x != y && |x| == |y| == 64 && hash(x) == hash(y))
  {
    var p, q := SameRootExactly(Parent(hash), s, t);
    x, y := Both(p.0, p.1), Both(q.0, q.1);
    if x == y {
      BothInjective(p.0, p.1, q.0, q.1);
    }
  }

  // ------------------------------------------------------------ the builder

  /** One pass over the row, two hashes at a time. */
  method BuildRow<T>(join: (T, T) -> T, hashes: seq<T>) returns (newHashes: seq<T>)
    ensures newHashes == Above(join, hashes)
  {
    newHashes := [];
    var i := 0;
    while i < |hashes|
      invariant i == 2 * |newHashes| <= |hashes| + 1
      invariant forall j :: 0 <= j < |newHashes| ==> newHashes[j] == Pair(join, hashes, j)
    {
      var left := hashes[i];
      var right := if i + 1 < |hashes| then hashes[i + 1] else hashes[i];
      newHashes := newHashes + [join(left, right)];
      i := i + 2;
    }
  }

  class MerkleBuilder {
    var hashes: seq<Hash>

    constructor ()
      ensures hashes == []
    {
      hashes := [];
    }

    method Add(h: Hash)
      modifies this
      ensures hashes == old(hashes) + [h]
    {
      hashes := hashes + [h];
    }

    /** The root, leaving the builder empty; without hashes the program panics. */
    method Build(hash: HashFunction) returns (r: Option<Hash>)
      modifies this
      ensures hashes == []
      ensures r == if old(hashes) == [] then None else Some(Root(Parent(hash), old(hashes)))
    {
      while |hashes| > 1
        invariant old(hashes) == [] <==> hashes == []
        invariant hashes != [] ==> Root(Parent(hash), hashes) == Root(Parent(hash), old(hashes))
        decreases |hashes|
      {
        hashes := BuildRow(Parent(hash), hashes);
      }
      if hashes == [] {
        return None;
      }
      r := Some(hashes[0]);
      hashes := hashes[1..];
    }

    /** Compares with the root; it empties the builder as well. */
    method Verify(hash: HashFunction, root: Hash) returns (r: Option<bool>)
      modifies this
      ensures hashes == []
      ensures r == if old(hashes) == [] then None else Some(Root(Parent(hash), old(hashes)) == root)
    {
      var built := Build(hash);
      r := match built case None => None case Some(h) => Some(h == root);
    }
  }
}
