/**
 * The checksum at work: a test vector of BIP 173, evaluated on bits.
 */
module Bech32Vector {
  import opened Base
  import opened BitOps
  import opened Bech32Checksum
  import opened Bech32Text

  const T: bool := true
  const F: bool := false

  /** A five-bit symbol, most significant bit first. */
  datatype Bits = Bits(a: bool, b: bool, c: bool, d: bool, e: bool)

  function One(p: bool): nat {
    if p then 1 else 0
  }

  function Digit(x: Bits): (n: Byte)
    ensures n < 32
  {
    16 * One(x.a) + 8 * One(x.b) + 4 * One(x.c) + 2 * One(x.d) + One(x.e)
  }

  function XorBits(x: Bits, y: Bits): Bits {
    Bits(x.a != y.a, x.b != y.b, x.c != y.c, x.d != y.d, x.e != y.e)
  }

  lemma XorOneBit(p: bool, q: bool)
    ensures Xor(One(p), One(q)) == One(p != q)
  {
    assert Xor(0, 0) == 0;
    XorAppend(0, One(p), 0, One(q));
  }

  /** One more bit at the end. */
  lemma XorNext(x: nat, y: nat, r: nat, p: bool, q: bool, x': nat, y': nat)
    requires Xor(x, y) == r && x' == 2 * x + One(p) && y' == 2 * y + One(q)
    ensures Xor(x', y') == 2 * r + One(p != q)
  {
    XorAppend(x, One(p), y, One(q));
  }

  lemma XorTwoMore(x: nat, y: nat, r: nat, d: bool, e: bool, d': bool, e': bool, u: nat, v: nat)
    requires Xor(x, y) == r && u == 4 * x + 2 * One(d) + One(e) && v == 4 * y + 2 * One(d') + One(e')
    ensures Xor(u, v) == 4 * r + 2 * One(d != d') + One(e != e')
  {
    var u1, v1 := 2 * x + One(d), 2 * y + One(d');
    XorNext(x, y, r, d, d', u1, v1);
    XorNext(u1, v1, 2 * r + One(d != d'), e, e', u, v);
  }

  lemma XorThreeBits(a: bool, b: bool, c: bool, a': bool, b': bool, c': bool, u: nat, v: nat)
    requires u == 4 * One(a) + 2 * One(b) + One(c) && v == 4 * One(a') + 2 * One(b') + One(c')
    ensures Xor(u, v) == 4 * One(a != a') + 2 * One(b != b') + One(c != c')
  {
    XorOneBit(a, a');
    XorTwoMore(One(a), One(a'), One(a != a'), b, c, b', c', u, v);
  }

  lemma XorFiveBits(x: Bits, y: Bits, p: nat, q: nat, u: nat, v: nat, r: nat)
    requires Xor(p, q) == r && u == 4 * p + 2 * One(x.d) + One(x.e) && v == 4 * q + 2 * One(y.d) + One(y.e)
    requires r == 4 * One(x.a != y.a) + 2 * One(x.b != y.b) + One(x.c != y.c)
    ensures Xor(u, v) == Digit(XorBits(x, y))
  {
    XorTwoMore(p, q, r, x.d, x.e, y.d, y.e, u, v);
  }

  lemma XorDigits(x: Bits, y: Bits, u: nat, v: nat)
    requires u == Digit(x) && v == Digit(y)
    ensures Xor(u, v) == Digit(XorBits(x, y))
  {
    var p, q := 4 * One(x.a) + 2 * One(x.b) + One(x.c), 4 * One(y.a) + 2 * One(y.b) + One(y.c);
    XorThreeBits(x.a, x.b, x.c, y.a, y.b, y.c, p, q);
    XorFiveBits(x, y, p, q, u, v, 4 * One(x.a != y.a) + 2 * One(x.b != y.b) + One(x.c != y.c));
  }

  lemma ShlFive(x: nat)
    ensures Shl(x, 5) == 32 * x
  {
    assert Shl(x, 1) == 2 * x;
    assert Shl(x, 3) == 8 * x;
  }

  /** XOR of numbers written in base 32, digit by digit. */
  lemma XorGroup(x: nat, u: nat, y: nat, v: nat)
    requires u < 32 && v < 32
    ensures Xor(32 * x + u, 32 * y + v) == 32 * Xor(x, y) + Xor(u, v)
  {
    Pow2Values();
    ShlFive(x);
    ShlFive(y);
    ShlFive(Xor(x, y));
    FillLow(x, u, 5);
    FillLow(y, v, 5);
    XorInterchange(Shl(x, 5), u, Shl(y, 5), v);
    XorShl(x, y, 5);
    XorFits(u, v, 5);
    FillLow(Xor(x, y), Xor(u, v), 5);
  }

  // ----------------------------------------------------- words of six symbols

  /** A 30-bit state. */
  datatype Word = Word(a: Bits, b: Bits, c: Bits, d: Bits, e: Bits, f: Bits)

  /** A number from its digits in base 32. */
  function Num(ds: seq<Bits>): nat {
    if ds == [] then 0 else 32 * Num(ds[..|ds| - 1]) + Digit(ds[|ds| - 1])
  }

  function List(w: Word): (ds: seq<Bits>)
    ensures |ds| == 6
  {
    [w.a, w.b, w.c, w.d, w.e, w.f]
  }

  function Value(w: Word): nat {
    Num(List(w))
  }

  function XorWord(w: Word, z: Word): Word {
    Word(XorBits(w.a, z.a), XorBits(w.b, z.b), XorBits(w.c, z.c), XorBits(w.d, z.d), XorBits(w.e, z.e), XorBits(w.f, z.f))
  }

  lemma {:induction false} XorNum(ds: seq<Bits>, es: seq<Bits>, xs: seq<Bits>)
    requires |ds| == |es| == |xs| && forall i :: 0 <= i < |ds| ==> xs[i] == XorBits(ds[i], es[i])
    ensures Xor(Num(ds), Num(es)) == Num(xs)
    decreases |ds|
  {
    if ds != [] {
      var n := |ds| - 1;
      XorNum(ds[..n], es[..n], xs[..n]);
      XorLastDigit(Num(ds[..n]), ds[n], Num(es[..n]), es[n], Num(xs[..n]), Num(ds), Num(es));
    }
  }

  lemma XorLastDigit(x: nat, d: Bits, y: nat, e: Bits, r: nat, x': nat, y': nat)
    requires Xor(x, y) == r && x' == 32 * x + Digit(d) && y' == 32 * y + Digit(e)
    ensures Xor(x', y') == 32 * r + Digit(XorBits(d, e))
  {
    XorGroup(x, Digit(d), y, Digit(e));
    XorDigits(d, e, Digit(d), Digit(e));
  }

  ghost predicate DigitXor(ds: seq<Bits>, es: seq<Bits>, xs: seq<Bits>) {
    |ds| == |es| == |xs| && forall i :: 0 <= i < |ds| ==> xs[i] == XorBits(ds[i], es[i])
  }

  lemma ListXor(w: Word, z: Word)
    ensures DigitXor(List(w), List(z), List(XorWord(w, z)))
  {}

  lemma XorLists(ds: seq<Bits>, es: seq<Bits>, xs: seq<Bits>)
    requires DigitXor(ds, es, xs)
    ensures Xor(Num(ds), Num(es)) == Num(xs)
  {
    XorNum(ds, es, xs);
  }

  lemma XorValues(w: Word, z: Word)
    ensures Xor(Value(w), Value(z)) == Value(XorWord(w, z))
  {
    ListXor(w, z);
    XorLists(List(w), List(z), List(XorWord(w, z)));
  }

  lemma ValueIs(w: Word)
    ensures Value(w) == 33_554_432 * Digit(w.a) + 1_048_576 * Digit(w.b) + 32_768 * Digit(w.c) + 1024 * Digit(w.d)
                        + 32 * Digit(w.e) + Digit(w.f)
  {
    var l := List(w);
    assert l[..5] == [w.a, w.b, w.c, w.d, w.e] && l[..5][..4] == [w.a, w.b, w.c, w.d];
    assert [w.a, w.b, w.c, w.d][..3] == [w.a, w.b, w.c] && [w.a, w.b, w.c][..2] == [w.a, w.b] && [w.a, w.b][..1] == [w.a];
    assert Num([w.a]) == Digit(w.a) by { assert [w.a][..0] == []; }
    assert Num([w.a, w.b]) == 32 * Num([w.a]) + Digit(w.b);
    assert Num([w.a, w.b, w.c]) == 32 * Num([w.a, w.b]) + Digit(w.c);
    assert Num([w.a, w.b, w.c, w.d]) == 32 * Num([w.a, w.b, w.c]) + Digit(w.d);
    assert Num(l[..5]) == 32 * Num([w.a, w.b, w.c, w.d]) + Digit(w.e);
  }

  // ------------------------------------------------------------- the step

  function GeneratorWord(i: nat): Word {
    if i == 0 then Word(Bits(T, T, T, F, T), Bits(T, F, T, T, F), Bits(T, F, T, F, F), Bits(T, F, T, F, T), Bits(T, T, T, F, T), Bits(T, F, F, T, F))
    else if i == 1 then Word(Bits(T, F, F, T, T), Bits(F, F, T, F, T), Bits(F, F, F, F, T), Bits(F, F, F, T, T), Bits(T, F, F, T, T), Bits(F, T, T, F, T))
    else if i == 2 then Word(Bits(F, T, T, T, T), Bits(F, T, F, T, F), Bits(F, F, F, T, F), Bits(F, F, T, T, F), Bits(F, T, T, T, T), Bits(T, T, F, T, F))
    else if i == 3 then Word(Bits(T, T, T, T, F), Bits(T, F, T, F, F), Bits(F, F, T, F, F), Bits(F, T, T, F, F), Bits(T, T, T, T, F), Bits(T, T, T, F, T))
    else Word(Bits(T, F, T, F, T), Bits(F, F, F, F, T), Bits(F, T, F, F, F), Bits(T, T, F, F, F), Bits(T, F, T, F, T), Bits(T, F, F, T, T))
  }

  lemma GeneratorValues(i: nat)
    requires i < 5
    ensures Value(GeneratorWord(i)) == GENERATOR[i]
  {
    ValueIs(GeneratorWord(i));
  }

  /** A generator folded in if its bit is set. */
  function Tap(w: Word, on: bool, i: nat): Word {
    if on then XorWord(w, GeneratorWord(i)) else w
  }

  /** One step, on bits. */
  function Next(w: Word, v: Bits): Word {
    var s := Word(w.b, w.c, w.d, w.e, w.f, v);
    Tap(Tap(Tap(Tap(Tap(s, w.a.e, 0), w.a.d, 1), w.a.c, 2), w.a.b, 3), w.a.a, 4)
  }

  /** One more generator, folded into a word that already holds the ones before it. */
  lemma TapNext(x: nat, w: Word, top: nat, i: nat)
    requires i < 5 && Value(w) == Xor(x, Taps(top, i))
    ensures Value(Tap(w, Bit(top, i), i)) == Xor(x, Taps(top, i + 1))
  {
    if Bit(top, i) {
      GeneratorValues(i);
      XorValues(w, GeneratorWord(i));
      XorAssociates(x, Taps(top, i), GENERATOR[i]);
    }
  }

  lemma BitAppend(a: nat, p: bool, c: nat)
    requires c == 2 * a + One(p)
    ensures Bit(c, 0) == p
    ensures forall i: nat :: Bit(c, i + 1) == Bit(a, i)
  {
    assert c / 2 == a;
    forall i: nat ensures Bit(c, i + 1) == Bit(a, i) {
      assert Shr(c, i + 1) == Shr(a, i);
    }
  }

  lemma BitsOfDigit(x: Bits, n: nat)
    requires n == Digit(x)
    ensures Bit(n, 0) == x.e && Bit(n, 1) == x.d && Bit(n, 2) == x.c && Bit(n, 3) == x.b && Bit(n, 4) == x.a
  {
    var n1 := One(x.a);
    var n2 := 2 * n1 + One(x.b);
    var n3 := 2 * n2 + One(x.c);
    var n4 := 2 * n3 + One(x.d);
    BitAppend(0, x.a, n1);
    BitAppend(n1, x.b, n2);
    BitAppend(n2, x.c, n3);
    BitAppend(n3, x.d, n4);
    BitAppend(n4, x.e, n);
    assert Bit(n, 4) == Bit(n4, 3) == Bit(n3, 2) == Bit(n2, 1) == Bit(n1, 0);
    assert Bit(n, 3) == Bit(n4, 2) == Bit(n3, 1) == Bit(n2, 0);
    assert Bit(n, 2) == Bit(n4, 1) == Bit(n3, 0);
    assert Bit(n, 1) == Bit(n4, 0);
  }

  lemma {:induction false} ShlAdds(x: nat, j: nat, k: nat)
    ensures Shl(x, j + k) == Shl(Shl(x, j), k)
    decreases k
  {
    if k > 0 {
      ShlAdds(x, j, k - 1);
    }
  }

  lemma Multiples(x: nat)
    ensures Shl(x, 25) == 33_554_432 * x
  {
    ShlAdds(x, 20, 5);
    ShlAdds(x, 15, 5);
    ShlAdds(x, 10, 5);
    ShlAdds(x, 5, 5);
    ShlFive(x);
    ShlFive(32 * x);
    ShlFive(1024 * x);
    ShlFive(32768 * x);
    ShlFive(1048576 * x);
  }

  lemma Pow25()
    ensures Pow2(25) == 33_554_432
  {
    assert Pow2(10) == 1024 by { assert Pow2(5) == 32 by { assert Pow2(3) == 8; } assert Pow2(8) == 256; }
    assert Pow2(15) == 32768 by { assert Pow2(13) == 8192; }
    assert Pow2(20) == 1048576 by { assert Pow2(18) == 262144; }
    assert Pow2(23) == 8388608;
  }

  lemma SameQuotient(a: nat, r: nat, b: nat, q: nat)
    requires 33_554_432 * a + r == 33_554_432 * b + q && r < 33_554_432 && q < 33_554_432
    ensures a == b && r == q
  {}

  lemma TopAndRest(a: nat, r: nat)
    requires r < 33_554_432
    ensures Shr(33_554_432 * a + r, 25) == a && Low(33_554_432 * a + r, 25) == r
  {
    var c := 33_554_432 * a + r;
    Splice(c, 25);
    Multiples(Shr(c, 25));
    LowFits(c, 25);
    Pow25();
    SameQuotient(a, r, Shr(c, 25), Low(c, 25));
  }

  lemma ShiftedWord(w: Word, v: Bits)
    ensures Shr(Value(w), 25) == Digit(w.a)
    ensures Xor(Shl(Low(Value(w), 25), 5), Digit(v)) == Value(Word(w.b, w.c, w.d, w.e, w.f, v))
  {
    var r := 1_048_576 * Digit(w.b) + 32_768 * Digit(w.c) + 1024 * Digit(w.d) + 32 * Digit(w.e) + Digit(w.f);
    ValueIs(w);
    ValueIs(Word(w.b, w.c, w.d, w.e, w.f, v));
    TopAndRest(Digit(w.a), r);
    ShlFive(r);
    Pow2Values();
    FillLow(r, Digit(v), 5);
  }

  lemma FiveTaps(w0: Word, top: nat)
    ensures
      var w5 := Tap(Tap(Tap(Tap(Tap(w0, Bit(top, 0), 0), Bit(top, 1), 1), Bit(top, 2), 2), Bit(top, 3), 3), Bit(top, 4), 4);
      Value(w5) == Xor(Value(w0), Taps(top, 5))
  {
    var x := Value(w0);
    XorZero(x);
    var w1 := Tap(w0, Bit(top, 0), 0);
    var w2 := Tap(w1, Bit(top, 1), 1);
    var w3 := Tap(w2, Bit(top, 2), 2);
    var w4 := Tap(w3, Bit(top, 3), 3);
    TapNext(x, w0, top, 0);
    TapNext(x, w1, top, 1);
    TapNext(x, w2, top, 2);
    TapNext(x, w3, top, 3);
    TapNext(x, w4, top, 4);
  }

  /** The step on bits is the step. */
  lemma NextIsStep(w: Word, v: Bits)
    ensures Step(Value(w), Digit(v)) == Value(Next(w, v))
  {
    ShiftedWord(w, v);
    BitsOfDigit(w.a, Digit(w.a));
    FiveTaps(Word(w.b, w.c, w.d, w.e, w.f, v), Digit(w.a));
  }

  // ------------------------------------------------------------- the vector

  function Start(): Word {
    Word(Bits(F, F, F, F, F), Bits(F, F, F, F, F), Bits(F, F, F, F, F), Bits(F, F, F, F, F), Bits(F, F, F, F, F), Bits(F, F, F, F, T))
  }

  function After1(): Word {
    Word(Bits(F, F, F, F, F), Bits(F, F, F, F, F), Bits(F, F, F, F, F), Bits(F, F, F, F, F), Bits(F, F, F, F, T), Bits(F, F, F, T, T))
  }

  function After2(): Word {
    Word(Bits(F, F, F, F, F), Bits(F, F, F, F, F), Bits(F, F, F, F, F), Bits(F, F, F, F, T), Bits(F, F, F, T, T), Bits(F, F, F, F, F))
  }

  function After3(): Word {
    Word(Bits(F, F, F, F, F), Bits(F, F, F, F, F), Bits(F, F, F, F, T), Bits(F, F, F, T, T), Bits(F, F, F, F, F), Bits(F, F, F, F, T))
  }

  function After4(): Word {
    Word(Bits(F, F, F, F, F), Bits(F, F, F, F, T), Bits(F, F, F, T, T), Bits(F, F, F, F, F), Bits(F, F, F, F, T), Bits(F, T, F, T, F))
  }

  function After5(): Word {
    Word(Bits(F, F, F, F, T), Bits(F, F, F, T, T), Bits(F, F, F, F, F), Bits(F, F, F, F, T), Bits(F, T, F, T, F), Bits(T, T, T, F, F))
  }

  function After6(): Word {
    Word(Bits(T, T, T, T, F), Bits(T, F, T, T, F), Bits(T, F, T, F, T), Bits(T, T, T, T, T), Bits(F, F, F, F, T), Bits(F, T, F, T, T))
  }

  function After7(): Word {
    Word(Bits(F, F, F, F, T), Bits(F, T, T, T, T), Bits(T, F, F, F, F), Bits(T, F, F, F, F), Bits(T, T, T, F, F), Bits(F, F, T, T, F))
  }

  function After8(): Word {
    Word(Bits(T, F, F, T, F), Bits(F, F, T, T, F), Bits(F, F, T, F, F), Bits(F, T, F, F, T), Bits(T, T, F, T, T), Bits(F, F, T, T, F))
  }

  lemma Step1()
    ensures Next(Start(), Bits(F, F, F, T, T)) == After1()
  {}

  lemma Step2()
    ensures Next(After1(), Bits(F, F, F, F, F)) == After2()
  {}

  lemma Step3()
    ensures Next(After2(), Bits(F, F, F, F, T)) == After3()
  {}

  lemma Step4()
    ensures Next(After3(), Bits(F, T, F, T, F)) == After4()
  {}

  lemma Step5()
    ensures Next(After4(), Bits(T, T, T, F, F)) == After5()
  {}

  lemma Step6()
    ensures Next(After5(), Bits(T, T, F, F, T)) == After6()
  {}

  lemma Step7()
    ensures Next(After6(), Bits(T, T, T, T, T)) == After7()
  {}

  lemma Step8()
    ensures Next(After7(), Bits(T, F, T, F, F)) == After8()
  {}

  lemma Step9()
    ensures Next(After8(), Bits(T, T, T, T, T)) == Start()
  {}

  lemma Once(w: Word, v: Bits, n: Byte, z: Word, rest: seq<Byte>)
    requires Next(w, v) == z && n == Digit(v)
    ensures Absorb(Value(w), [n] + rest) == Absorb(Value(z), rest)
  {
    NextIsStep(w, v);
    assert ([n] + rest)[1..] == rest;
  }

  function Vector(): (s: seq<Byte>)
    ensures |s| == 6 && Symbols(s)
  {
    [10, 28, 25, 31, 20, 31]
  }

  lemma VectorParts()
    ensures Vector() == [10] + ([28] + ([25] + ([31] + ([20] + ([31] + [])))))
    ensures Expand([97]) + Vector() == [3] + ([0] + ([1] + Vector()))
  {
    assert HighBits([97]) == [3] && LowBits([97]) == [1];
  }

  lemma StartValue()
    ensures Value(Start()) == 1
  {
    ValueIs(Start());
  }

  lemma LastThree()
    ensures Absorb(Value(After6()), [31] + ([20] + ([31] + []))) == 1
  {
    StartValue();
    Step7();
    Once(After6(), Bits(T, T, T, T, T), 31, After7(), [20] + ([31] + []));
    Step8();
    Once(After7(), Bits(T, F, T, F, F), 20, After8(), [31] + []);
    Step9();
    Once(After8(), Bits(T, T, T, T, T), 31, Start(), []);
    assert Absorb(Value(Start()), []) == 1;
  }

  lemma LastSix()
    ensures Absorb(Value(After3()), Vector()) == 1
  {
    VectorParts();
    LastThree();
    Step4();
    Once(After3(), Bits(F, T, F, T, F), 10, After4(), [28] + ([25] + ([31] + ([20] + ([31] + [])))));
    Step5();
    Once(After4(), Bits(T, T, T, F, F), 28, After5(), [25] + ([31] + ([20] + ([31] + []))));
    Step6();
    Once(After5(), Bits(T, T, F, F, T), 25, After6(), [31] + ([20] + ([31] + [])));
  }

  lemma FirstThree()
    ensures Absorb(Value(Start()), [3] + ([0] + ([1] + Vector()))) == Absorb(Value(After3()), Vector())
  {
    Step1();
    Step2();
    Step3();
    Once(Start(), Bits(F, F, F, T, T), 3, After1(), [0] + ([1] + Vector()));
    Once(After1(), Bits(F, F, F, F, F), 0, After2(), [1] + Vector());
    Once(After2(), Bits(F, F, F, F, T), 1, After3(), Vector());
  }

  lemma VectorIsAccepted()
    ensures Valid([97], Vector())
  {
    VectorParts();
    StartValue();
    FirstThree();
    LastSix();
  }

  lemma SixCharacters(t: Text, v: seq<Byte>)
    requires |t| == |v| == 6 && forall i :: 0 <= i < |v| ==> t[i] == Glyph(v[i])
    requires v[0] == 10 && v[1] == 28 && v[2] == 25 && v[3] == 31 && v[4] == 20 && v[5] == 31
    ensures t == [50, 117, 101, 108, 53, 108]
  {
    assert t[0] == 50 && t[1] == 117 && t[2] == 101;
    assert t[3] == 108 && t[4] == 53 && t[5] == 108;
  }

  lemma VectorPrinted()
    ensures Print(Vector()) == Ok([50, 117, 101, 108, 53, 108])
  {
    PrintThenParse(Vector());
    SixCharacters(Print(Vector()).value, Vector());
  }

  function Prefix(): Text {
    [97]
  }

  lemma PrefixFacts()
    ensures Encodable(Prefix()) && Lower(Prefix()) == Prefix() && FirstUnprintable(Prefix()).None?
  {}

  lemma VectorChecksum()
    ensures Checksum(Prefix(), []) == Vector() && [] + Checksum(Prefix(), []) == Vector()
  {
    VectorIsAccepted();
    assert [] + Vector() == Vector();
    ChecksumIsUnique(Prefix(), [], Vector());
  }

  /**
   * A test vector of BIP 173, with the separator of this program: the prefix "a" without data
   * is printed as "a:2uel5l", and that string is accepted.
   */
  lemma KnownString()
    ensures Encode([97], []) == Ok([97] + [58] + [50, 117, 101, 108, 53, 108])
    ensures Decode([97] + [58] + [50, 117, 101, 108, 53, 108]) == Ok(([97], []))
  {
    PrefixFacts();
    VectorChecksum();
    VectorPrinted();
    VectorIsAccepted();
    DecodePrinted(Prefix(), Vector());
  }
}
