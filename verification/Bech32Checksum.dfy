/** The BCH checksum over GF(32) that closes every bech32 string. */
module Bech32Checksum {
  import opened Base
  import opened BitOps

  const GENERATOR: seq<nat> := [0x3b6a57b2, 0x26508e6d, 0x1ea119fa, 0x3d4233dd, 0x2a1462b3]

  /** XOR of the first `k` generators whose bit is set in `top`. */
  function Taps(top: nat, k: nat): nat
    requires k <= 5
  {
    if k == 0 then 0
    else if Bit(top, k - 1) then Xor(Taps(top, k - 1), GENERATOR[k - 1])
    else Taps(top, k - 1)
  }

  /** What one input symbol does to the state. */
  function Step(chk: nat, value: nat): nat {
    Xor(Xor(Shl(Low(chk, 25), 5), value), Taps(Shr(chk, 25), 5))
  }

  /** The state after absorbing `values`, starting from `chk`. */
  function Absorb(chk: nat, values: seq<Byte>): nat
    decreases |values|
  {
    if values == [] then chk else Absorb(Step(chk, values[0]), values[1..])
  }

  function HighBits(hrp: seq<Byte>): (r: seq<Byte>)
    ensures |r| == |hrp|
  {
    seq(|hrp|, i requires 0 <= i < |hrp| => hrp[i] / 32)
  }

  function LowBits(hrp: seq<Byte>): (r: seq<Byte>)
    ensures |r| == |hrp|
  {
    seq(|hrp|, i requires 0 <= i < |hrp| => hrp[i] % 32)
  }

  function Expand(hrp: seq<Byte>): seq<Byte> {
    HighBits(hrp) + [0] + LowBits(hrp)
  }

  predicate Valid(hrp: seq<Byte>, word: seq<Byte>) {
    Absorb(1, Expand(hrp) + word) == 1
  }

  function Zeros(n: nat): (z: seq<Byte>)
    ensures |z| == n && Symbols(z)
  {
    seq(n, i => 0)
  }

  /** The `i`-th group of five bits of a 30-bit word, most significant first. */
  function Group(p: nat, i: nat): (s: Byte)
    requires i < 6
    ensures s < 32
  {
    LowFits(Shr(p, 5 * (5 - i)), 5);
    Pow2Values();
    Low(Shr(p, 5 * (5 - i)), 5)
  }

  function Groups(p: nat): (s: seq<Byte>)
    ensures |s| == 6 && Symbols(s)
  {
    [Group(p, 0), Group(p, 1), Group(p, 2), Group(p, 3), Group(p, 4), Group(p, 5)]
  }

  function Checksum(hrp: seq<Byte>, data: seq<Byte>): seq<Byte> {
    Groups(Xor(Absorb(1, Expand(hrp) + data + Zeros(6)), 1))
  }

  predicate Symbols(s: seq<Byte>) {
    forall i :: 0 <= i < |s| ==> s[i] < 32
  }

  // ---------------------------------------------------------------- loops

  lemma {:induction false} AbsorbConcat(chk: nat, xs: seq<Byte>, ys: seq<Byte>)
    ensures Absorb(chk, xs + ys) == Absorb(Absorb(chk, xs), ys)
    decreases |xs|
  {
    if xs == [] {
      assert xs + ys == ys;
    } else {
      assert (xs + ys)[1..] == xs[1..] + ys;
      AbsorbConcat(Step(chk, xs[0]), xs[1..], ys);
    }
  }

  lemma AbsorbLast(chk: nat, xs: seq<Byte>, v: Byte)
    ensures Absorb(chk, xs + [v]) == Step(Absorb(chk, xs), v)
  {
    AbsorbConcat(chk, xs, [v]);
    assert [v][1..] == [];
    assert Absorb(Step(Absorb(chk, xs), v), []) == Step(Absorb(chk, xs), v);
  }

  /** The inner loop over the generators folds in exactly the selected ones. */
  method FoldGenerators(start: nat, top: nat) returns (chk: nat)
    ensures chk == Xor(start, Taps(top, 5))
  {
    XorZero(start);
    chk := start;
    for i := 0 to |GENERATOR|
      invariant chk == Xor(start, Taps(top, i))
    {
      if Bit(top, i) {
        XorAssociates(start, Taps(top, i), GENERATOR[i]);
        chk := Xor(chk, GENERATOR[i]);
      }
    }
  }

  method Polymod(values: seq<Byte>) returns (chk: nat)
    ensures chk == Absorb(1, values)
    ensures chk < Pow2(30)
  {
    chk := 1;
    for i := 0 to |values|
      invariant chk == Absorb(1, values[..i])
    {
      AbsorbLast(1, values[..i], values[i]);
      assert values[..i + 1] == values[..i] + [values[i]];
      var top := Shr(chk, 25);
      chk := Xor(Shl(Low(chk, 25), 5), values[i]);
      chk := FoldGenerators(chk, top);
    }
    assert values[..|values|] == values;
    OneFits();
    AbsorbBounded(1, values);
  }

  method HrpExpand(hrp: seq<Byte>) returns (result: seq<Byte>)
    ensures result == Expand(hrp)
  {
    result := [];
    for i := 0 to |hrp|
      invariant result == HighBits(hrp)[..i]
    {
      result := result + [hrp[i] / 32];
    }
    result := result + [0];
    for i := 0 to |hrp|
      invariant result == HighBits(hrp) + [0] + LowBits(hrp)[..i]
    {
      result := result + [hrp[i] % 32];
    }
  }

  method VerifyChecksum(hrp: seq<Byte>, data: seq<Byte>) returns (ok: bool)
    ensures ok == Valid(hrp, data)
  {
    var expanded := HrpExpand(hrp);
    var chk := Polymod(expanded + data);
    ok := chk == 1;
  }

  method CreateChecksum(hrp: seq<Byte>, data: seq<Byte>) returns (result: seq<Byte>)
    ensures result == Checksum(hrp, data)
    ensures Valid(hrp, data + result)
  {
    var values := HrpExpand(hrp);
    var p := Polymod(values + data + Zeros(6));
    p := Xor(p, 1);
    result := [];
    for i := 0 to 6
      invariant result == Groups(p)[..i]
    {
      result := result + [Group(p, i)];
    }
    ChecksumIsAccepted(hrp, data);
  }

  // ---------------------------------------- the zero-input step is linear

  function Shift(c: nat): nat {
    Xor(Shl(Low(c, 25), 5), Taps(Shr(c, 25), 5))
  }

  lemma StepSplits(c: nat, v: nat)
    ensures Step(c, v) == Xor(Shift(c), v)
  {
    var s, t := Shl(Low(c, 25), 5), Taps(Shr(c, 25), 5);
    XorAssociates(s, v, t);
    XorCommutes(v, t);
    XorAssociates(s, t, v);
  }

  lemma XorBoth(x: nat, y: nat, g: nat)
    ensures Xor(Xor(x, g), Xor(y, g)) == Xor(x, y)
  {
    XorInterchange(x, g, y, g);
    XorSelf(g);
    XorZero(Xor(x, y));
  }

  lemma XorLeft(x: nat, y: nat, g: nat)
    ensures Xor(Xor(x, g), y) == Xor(Xor(x, y), g)
  {
    XorAssociates(x, y, g);
    XorAssociates(x, g, y);
    XorCommutes(g, y);
  }

  lemma {:induction false} TapsLinear(a: nat, b: nat, k: nat)
    requires k <= 5
    ensures Taps(Xor(a, b), k) == Xor(Taps(a, k), Taps(b, k))
  {
    if k > 0 {
      var x, y, g := Taps(a, k - 1), Taps(b, k - 1), GENERATOR[k - 1];
      TapsLinear(a, b, k - 1);
      XorBit(a, b, k - 1);
      if Bit(a, k - 1) && Bit(b, k - 1) {
        XorBoth(x, y, g);
      } else if Bit(a, k - 1) {
        XorLeft(x, y, g);
      } else {
        XorAssociates(x, y, g);
      }
    }
  }

  lemma ShiftLinear(a: nat, b: nat)
    ensures Shift(Xor(a, b)) == Xor(Shift(a), Shift(b))
  {
    XorLow(a, b, 25);
    XorShl(Low(a, 25), Low(b, 25), 5);
    XorShr(a, b, 25);
    TapsLinear(Shr(a, 25), Shr(b, 25), 5);
    XorInterchange(Shl(Low(a, 25), 5), Shl(Low(b, 25), 5), Taps(Shr(a, 25), 5), Taps(Shr(b, 25), 5));
  }

  lemma Pow30()
    ensures Pow2(25) == 0x2000000 && Pow2(30) == 0x40000000
  {
    Pow2Values();
    assert Pow2(10) == 1024 by { assert Pow2(9) == 512; }
    assert Pow2(12) == 4096 by { assert Pow2(11) == 2048; }
    assert Pow2(14) == 16384 by { assert Pow2(13) == 8192; }
    assert Pow2(16) == 65536 by { assert Pow2(15) == 32768; }
    assert Pow2(18) == 262144 by { assert Pow2(17) == 131072; }
    assert Pow2(20) == 1048576 by { assert Pow2(19) == 524288; }
    assert Pow2(22) == 4194304 by { assert Pow2(21) == 2097152; }
    assert Pow2(24) == 16777216 by { assert Pow2(23) == 8388608; }
    assert Pow2(26) == 67108864 by { assert Pow2(25) == 33554432; }
    assert Pow2(28) == 268435456 by { assert Pow2(27) == 134217728; }
    assert Pow2(29) == 536870912;
  }

  lemma {:induction false} TapsFit(top: nat, k: nat)
    requires k <= 5
    ensures Taps(top, k) < Pow2(30)
  {
    Pow30();
    if k > 0 {
      TapsFit(top, k - 1);
      XorFits(Taps(top, k - 1), GENERATOR[k - 1], 30);
    }
  }

  lemma ShiftFits(c: nat)
    ensures Shift(c) < Pow2(30)
  {
    var low, taps := Low(c, 25), Taps(Shr(c, 25), 5);
    LowFits(c, 25);
    TapsFit(Shr(c, 25), 5);
    SpliceFits(low, taps, 25, 5);
  }

  lemma SpliceFits(a: nat, t: nat, n: nat, k: nat)
    requires a < Pow2(n) && t < Pow2(n + k)
    ensures Xor(Shl(a, k), t) < Pow2(n + k)
  {
    ShlFits(a, n, k);
    XorFits(Shl(a, k), t, n + k);
  }

  lemma ShiftSmall(c: nat)
    requires c < Pow2(25)
    ensures Shift(c) == Shl(c, 5)
  {
    LowOnly(c, 25);
    TapsOfZero(5);
    XorZero(Shl(c, 5));
  }

  lemma LowOnly(c: nat, k: nat)
    requires c < Pow2(k)
    ensures Low(c, k) == c && Shr(c, k) == 0
  {
    LowFits(c, k);
    ShrFits(c, 0, k);
  }

  lemma {:induction false} TapsOfZero(k: nat)
    requires k <= 5
    ensures Taps(0, k) == 0
  {
    if k > 0 {
      TapsOfZero(k - 1);
      ShrOfZero(k - 1);
    }
  }

  lemma {:induction false} ShrOfZero(k: nat)
    ensures Shr(0, k) == 0
  {
    if k > 0 { ShrOfZero(k - 1); }
  }

  /** Bit `j` summed over the first `k` generators that `top` selects. */
  ghost predicate Parity(top: nat, k: nat, j: nat)
    requires k <= 5
  {
    k > 0 && Parity(top, k - 1, j) != (Bit(top, k - 1) && Bit(GENERATOR[k - 1], j))
  }

  lemma {:induction false} TapParity(top: nat, k: nat, j: nat)
    requires k <= 5
    ensures Bit(Taps(top, k), j) == Parity(top, k, j)
  {
    if k == 0 {
      ShrOfZero(j);
    } else {
      TapParity(top, k - 1, j);
      XorBit(Taps(top, k - 1), GENERATOR[k - 1], j);
    }
  }

  lemma ParityUnrolled(top: nat, j: nat)
    ensures
      var t0 := Bit(top, 0) && Bit(GENERATOR[0], j);
      var t1 := Bit(top, 1) && Bit(GENERATOR[1], j);
      var t2 := Bit(top, 2) && Bit(GENERATOR[2], j);
      var t3 := Bit(top, 3) && Bit(GENERATOR[3], j);
      var t4 := Bit(top, 4) && Bit(GENERATOR[4], j);
      Bit(Taps(top, 5), j) == (t0 != (t1 != (t2 != (t3 != t4))))
  {
    TapParity(top, 5, j);
    assert Parity(top, 1, j) == (Bit(top, 0) && Bit(GENERATOR[0], j));
    assert Parity(top, 3, j) == (Parity(top, 2, j) != (Bit(top, 2) && Bit(GENERATOR[2], j)));
  }

  function LowFive(g: nat): (bool, bool, bool, bool, bool) {
    (g % 2 == 1, g / 2 % 2 == 1, g / 4 % 2 == 1, g / 8 % 2 == 1, g / 16 % 2 == 1)
  }

  lemma LowFiveBits(g: nat)
    ensures LowFive(g) == (Bit(g, 0), Bit(g, 1), Bit(g, 2), Bit(g, 3), Bit(g, 4))
  {
    assert Shr(g, 1) == g / 2;
    assert Shr(g, 2) == g / 4 by { assert Shr(g, 2) == Shr(g / 2, 1); }
    assert Shr(g, 3) == g / 8 by { assert Shr(g, 3) == Shr(g / 2, 2); assert Shr(g / 2, 2) == Shr(g / 4, 1); }
    assert Shr(g, 4) == g / 16 by {
      assert Shr(g, 4) == Shr(g / 2, 3);
      assert Shr(g / 2, 3) == Shr(g / 4, 2);
      assert Shr(g / 4, 2) == Shr(g / 8, 1);
    }
  }

  lemma GeneratorBits()
    ensures LowFive(GENERATOR[0]) == (false, true, false, false, true)
    ensures LowFive(GENERATOR[1]) == (true, false, true, true, false)
    ensures LowFive(GENERATOR[2]) == (false, true, false, true, true)
    ensures LowFive(GENERATOR[3]) == (true, false, true, true, true)
    ensures LowFive(GENERATOR[4]) == (true, true, false, false, true)
  {}

  /** Parity of the selected generators in each of the low five bit positions. */
  lemma {:induction false} TapParities(top: nat)
    ensures Bit(Taps(top, 5), 0) == (Bit(top, 1) != (Bit(top, 3) != Bit(top, 4)))
    ensures Bit(Taps(top, 5), 1) == (Bit(top, 0) != (Bit(top, 2) != Bit(top, 4)))
    ensures Bit(Taps(top, 5), 2) == (Bit(top, 1) != Bit(top, 3))
    ensures Bit(Taps(top, 5), 3) == (Bit(top, 1) != (Bit(top, 2) != Bit(top, 3)))
  {
    GeneratorBits();
    LowFiveBits(GENERATOR[0]);
    LowFiveBits(GENERATOR[1]);
    LowFiveBits(GENERATOR[2]);
    LowFiveBits(GENERATOR[3]);
    LowFiveBits(GENERATOR[4]);
    ParityUnrolled(top, 0);
    ParityUnrolled(top, 1);
    ParityUnrolled(top, 2);
    ParityUnrolled(top, 3);
  }

  lemma LastParity(top: nat)
    ensures Bit(Taps(top, 5), 4) == (Bit(top, 0) != (Bit(top, 2) != (Bit(top, 3) != Bit(top, 4))))
  {
    GeneratorBits();
    LowFiveBits(GENERATOR[0]);
    LowFiveBits(GENERATOR[1]);
    LowFiveBits(GENERATOR[2]);
    LowFiveBits(GENERATOR[3]);
    LowFiveBits(GENERATOR[4]);
    ParityUnrolled(top, 4);
  }

  /** The low five bits of the generators are linearly independent. */
  lemma NoSelectionVanishes(top: nat)
    requires top < 32
    requires forall j: nat :: j < 5 ==> !Bit(Taps(top, 5), j)
    ensures top == 0
  {
    TapParities(top);
    LastParity(top);
    Independent(Bit(top, 0), Bit(top, 1), Bit(top, 2), Bit(top, 3), Bit(top, 4));
    LowFiveBits(top);
    NoBits(top);
  }

  lemma Independent(b0: bool, b1: bool, b2: bool, b3: bool, b4: bool)
    requires !(b1 != (b3 != b4)) && !(b0 != (b2 != b4)) && !(b1 != b3)
    requires !(b1 != (b2 != b3)) && !(b0 != (b2 != (b3 != b4)))
    ensures !b0 && !b1 && !b2 && !b3 && !b4
  {}

  lemma NoBits(top: nat)
    requires top < 32 && LowFive(top) == (false, false, false, false, false)
    ensures top == 0
  {}

  lemma ShiftKernel(a: nat)
    requires a < Pow2(30) && Shift(a) == 0
    ensures a == 0
  {
    var low, top := Low(a, 25), Shr(a, 25);
    XorCancels(Shl(low, 5), Taps(top, 5));
    forall j: nat | j < 5
      ensures !Bit(Taps(top, 5), j)
    {
      ShlBits(low, 5, j);
    }
    ShrFits(a, 5, 25);
    Pow2Values();
    NoSelectionVanishes(top);
    TapsOfZero(5);
    ShlZero(low, 5);
    ShlZero(0, 25);
    Splice(a, 25);
  }

  /** Two different 30-bit states never meet again under the same input. */
  lemma ShiftInjective(a: nat, b: nat)
    requires a < Pow2(30) && b < Pow2(30) && Shift(a) == Shift(b)
    ensures a == b
  {
    ShiftLinear(a, b);
    XorCancels(Shift(a), Shift(b));
    XorFits(a, b, 30);
    ShiftKernel(Xor(a, b));
    XorCancels(a, b);
  }

  lemma StepFits(c: nat, v: Byte)
    ensures Step(c, v) < Pow2(30)
  {
    StepSplits(c, v);
    ShiftFits(c);
    Pow30();
    XorFits(Shift(c), v, 30);
  }

  lemma {:induction false} AbsorbBounded(c: nat, xs: seq<Byte>)
    requires c < Pow2(30)
    ensures Absorb(c, xs) < Pow2(30)
    decreases |xs|
  {
    if xs != [] {
      StepFits(c, xs[0]);
      AbsorbBounded(Step(c, xs[0]), xs[1..]);
    }
  }

  lemma StepInjective(a: nat, b: nat, v: nat)
    requires a < Pow2(30) && b < Pow2(30) && Step(a, v) == Step(b, v)
    ensures a == b
  {
    StepSplits(a, v);
    StepSplits(b, v);
    XorCancels(Shift(a), v);
    XorCancels(Shift(b), v);
    ShiftInjective(a, b);
  }

  lemma {:induction false} AbsorbInjective(a: nat, b: nat, xs: seq<Byte>)
    requires a < Pow2(30) && b < Pow2(30) && Absorb(a, xs) == Absorb(b, xs)
    ensures a == b
    decreases |xs|
  {
    if xs != [] {
      StepFits(a, xs[0]);
      StepFits(b, xs[0]);
      AbsorbInjective(Step(a, xs[0]), Step(b, xs[0]), xs[1..]);
      StepInjective(a, b, xs[0]);
    }
  }

  // ------------------------------------------------ windows of six symbols

  /** The difference of two symbol strings, packed five bits each. */
  function Packed(xs: seq<Byte>, ys: seq<Byte>): nat
    requires |xs| == |ys|
    decreases |xs|
  {
    if xs == [] then 0
    else
      var n := |xs| - 1;
      Xor(Shl(Packed(xs[..n], ys[..n]), 5), Xor(xs[n], ys[n]))
  }

  lemma {:induction false} PackedFits(xs: seq<Byte>, ys: seq<Byte>)
    requires |xs| == |ys| && Symbols(xs) && Symbols(ys)
    ensures Packed(xs, ys) < Pow2(5 * |xs|)
    decreases |xs|
  {
    if xs != [] {
      var n := |xs| - 1;
      PackedFits(xs[..n], ys[..n]);
      DigitFits(xs[n], ys[n]);
      Pow2Monotone(5, 5 * n + 5);
      SpliceFits(Packed(xs[..n], ys[..n]), Xor(xs[n], ys[n]), 5 * n, 5);
    }
  }

  lemma DigitFits(x: nat, y: nat)
    requires x < 32 && y < 32
    ensures Xor(x, y) < Pow2(5)
  {
    Pow2Values();
    XorFits(x, y, 5);
  }

  lemma {:induction false} PackedZero(xs: seq<Byte>, ys: seq<Byte>)
    requires |xs| == |ys| && Symbols(xs) && Symbols(ys) && Packed(xs, ys) == 0
    ensures xs == ys
    decreases |xs|
  {
    if xs != [] {
      var n := |xs| - 1;
      var p := Packed(xs[..n], ys[..n]);
      DigitFits(xs[n], ys[n]);
      FillLow(p, Xor(xs[n], ys[n]), 5);
      ShlZero(p, 5);
      XorCancels(xs[n], ys[n]);
      PackedZero(xs[..n], ys[..n]);
      assert xs == xs[..n] + [xs[n]] && ys == ys[..n] + [ys[n]];
    }
  }

  lemma {:induction false} DriftStep(a: nat, b: nat, p: nat, x: nat, y: nat)
    requires Xor(a, b) == p < Pow2(25)
    ensures Xor(Step(a, x), Step(b, y)) == Xor(Shl(p, 5), Xor(x, y))
  {
    StepSplits(a, x);
    StepSplits(b, y);
    XorInterchange(Shift(a), x, Shift(b), y);
    ShiftLinear(a, b);
    ShiftSmall(p);
  }

  /** Over at most six symbols the states drift apart by exactly the packed difference. */
  lemma {:induction false} WindowDifference(s: nat, xs: seq<Byte>, ys: seq<Byte>)
    requires |xs| == |ys| <= 6 && Symbols(xs) && Symbols(ys)
    ensures Xor(Absorb(s, xs), Absorb(s, ys)) == Packed(xs, ys)
    decreases |xs|
  {
    if xs == [] {
      XorSelf(s);
    } else {
      var n := |xs| - 1;
      var x, y := xs[..n], ys[..n];
      WindowDifference(s, x, y);
      assert xs == x + [xs[n]] && ys == y + [ys[n]];
      AbsorbLast(s, x, xs[n]);
      AbsorbLast(s, y, ys[n]);
      PackedFits(x, y);
      Pow2Monotone(5 * n, 25);
      DriftStep(Absorb(s, x), Absorb(s, y), Packed(x, y), xs[n], ys[n]);
    }
  }

  lemma {:induction false} PackedStep(xs: seq<Byte>, zs: seq<Byte>, x: Byte)
    requires |xs| == |zs| && x < 32
    ensures Packed(xs + [x], zs + [0]) == Shl(Packed(xs, zs), 5) + x
  {
    var n := |xs|;
    assert (xs + [x])[..n] == xs && (zs + [0])[..n] == zs;
    XorZero(x);
    Pow2Values();
    FillLow(Packed(xs, zs), x, 5);
  }

  lemma {:induction false} ShrAdds(p: nat, j: nat, k: nat)
    ensures Shr(Shr(p, j), k) == Shr(p, j + k)
    decreases j
  {
    if j > 0 { ShrAdds(p / 2, j - 1, k); }
  }

  /** Packing the groups of a word gives the word back. */
  lemma PackedGroups(p: nat)
    requires p < Pow2(30)
    ensures Packed(Groups(p), Zeros(6)) == p
  {
    ShrFits(p, 0, 30);
    PackedPrefix(p, Groups(p), 6);
    assert Groups(p)[..6] == Groups(p);
  }

  lemma {:induction false} PackedPrefix(p: nat, gs: seq<Byte>, i: nat)
    requires i <= 6 && Shr(p, 30) == 0
    requires |gs| == 6 && forall j :: 0 <= j < 6 ==> gs[j] == Group(p, j)
    ensures Packed(gs[..i], Zeros(i)) == Shr(p, 5 * (6 - i))
  {
    if i > 0 {
      PackedPrefix(p, gs, i - 1);
      assert gs[..i] == gs[..i - 1] + [gs[i - 1]];
      assert Zeros(i) == Zeros(i - 1) + [0];
      PackedStep(gs[..i - 1], Zeros(i - 1), gs[i - 1]);
      NextGroup(p, i - 1);
    }
  }

  lemma NextGroup(p: nat, i: nat)
    requires i < 6
    ensures Shl(Shr(p, 5 * (6 - i)), 5) + Group(p, i) == Shr(p, 5 * (5 - i))
  {
    ShrAdds(p, 5 * (5 - i), 5);
    Splice(Shr(p, 5 * (5 - i)), 5);
  }

  // ------------------------------------------------------------- theorems

  lemma OneFits()
    ensures 1 < Pow2(30)
  {
    Pow30();
  }

  lemma {:induction false} GroupsComplete(s: nat, c: seq<Byte>, zs: seq<Byte>)
    requires |c| == |zs| == 6 && Symbols(c) && Symbols(zs)
    requires Packed(c, zs) == Xor(Absorb(s, zs), 1)
    ensures Absorb(s, c) == 1
  {
    var z := Absorb(s, zs);
    WindowDifference(s, c, zs);
    XorCancels(Absorb(s, c), z);
    XorCommutes(z, 1);
    XorCancels(1, z);
  }

  lemma CompletedWord(head: seq<Byte>)
    ensures Absorb(1, head + Groups(Xor(Absorb(1, head + Zeros(6)), 1))) == 1
  {
    var s := Absorb(1, head);
    var p := Xor(Absorb(s, Zeros(6)), 1);
    AbsorbConcat(1, head, Zeros(6));
    AbsorbConcat(1, head, Groups(p));
    OneFits();
    AbsorbBounded(1, head);
    AbsorbBounded(s, Zeros(6));
    XorFits(Absorb(s, Zeros(6)), 1, 30);
    PackedGroups(p);
    GroupsComplete(s, Groups(p), Zeros(6));
  }

  /** The computed checksum is accepted, for every prefix and every data bytes. */
  lemma {:induction false} ChecksumIsAccepted(hrp: seq<Byte>, data: seq<Byte>)
    ensures Valid(hrp, data + Checksum(hrp, data))
  {
    CompletedWord(Expand(hrp) + data);
    Associate(Expand(hrp), data, Checksum(hrp, data));
  }

  lemma WindowsDiffer(s: nat, xs: seq<Byte>, ys: seq<Byte>, after: seq<Byte>)
    requires s < Pow2(30)
    requires |xs| == |ys| <= 6 && Symbols(xs) && Symbols(ys) && xs != ys
    ensures Absorb(s, xs + after) != Absorb(s, ys + after)
  {
    AbsorbConcat(s, xs, after);
    AbsorbConcat(s, ys, after);
    WindowDifference(s, xs, ys);
    AbsorbBounded(s, xs);
    AbsorbBounded(s, ys);
    XorCancels(Absorb(s, xs), Absorb(s, ys));
    if Absorb(s, xs + after) == Absorb(s, ys + after) {
      AbsorbInjective(Absorb(s, xs), Absorb(s, ys), after);
      PackedZero(xs, ys);
    }
  }

  lemma BurstFrom(head: seq<Byte>, xs: seq<Byte>, ys: seq<Byte>, after: seq<Byte>)
    requires |xs| == |ys| <= 6 && Symbols(xs) && Symbols(ys) && xs != ys
    ensures Absorb(1, head + (xs + after)) != Absorb(1, head + (ys + after))
  {
    AbsorbConcat(1, head, xs + after);
    AbsorbConcat(1, head, ys + after);
    OneFits();
    AbsorbBounded(1, head);
    WindowsDiffer(Absorb(1, head), xs, ys, after);
  }

  lemma Window(e: seq<Byte>, before: seq<Byte>, xs: seq<Byte>, after: seq<Byte>)
    ensures e + (before + xs + after) == (e + before) + (xs + after)
  {}

  /**
   * Any change confined to six consecutive symbols of an accepted word is detected,
   * whatever the length of the word and wherever the window lies.
   */
  lemma {:induction false} BurstIsDetected(hrp: seq<Byte>, before: seq<Byte>, xs: seq<Byte>, ys: seq<Byte>, after: seq<Byte>)
    requires |xs| == |ys| <= 6 && Symbols(xs) && Symbols(ys) && xs != ys
    ensures Valid(hrp, before + xs + after) ==> !Valid(hrp, before + ys + after)
  {
    Window(Expand(hrp), before, xs, after);
    Window(Expand(hrp), before, ys, after);
    BurstFrom(Expand(hrp) + before, xs, ys, after);
  }

  /** Changing one symbol of an accepted word makes it unacceptable. */
  lemma {:induction false} SingleChangeIsDetected(hrp: seq<Byte>, word: seq<Byte>, i: nat, v: Byte)
    requires i < |word| && word[i] < 32 && v < 32 && v != word[i]
    ensures Valid(hrp, word) ==> !Valid(hrp, word[i := v])
  {
    assert word == word[..i] + [word[i]] + word[i + 1..];
    assert word[i := v] == word[..i] + [v] + word[i + 1..];
    assert [word[i]] != [v] by { assert [word[i]][0] != [v][0]; }
    BurstIsDetected(hrp, word[..i], [word[i]], [v], word[i + 1..]);
  }

  /** Exactly one choice of six symbols completes the data to an accepted word. */
  lemma {:induction false} ChecksumIsUnique(hrp: seq<Byte>, data: seq<Byte>, c: seq<Byte>)
    requires |c| == 6 && Symbols(c)
    ensures Valid(hrp, data + c) <==> c == Checksum(hrp, data)
  {
    ChecksumIsAccepted(hrp, data);
    if c != Checksum(hrp, data) {
      assert data + c + [] == data + c;
      assert data + Checksum(hrp, data) + [] == data + Checksum(hrp, data);
      BurstIsDetected(hrp, data, Checksum(hrp, data), c, []);
    }
  }

  // ------------------------------------------------- the prefix is covered

  /** `b` differs from `a` only in the places from `lo` to `hi`. */
  predicate Within(a: seq<Byte>, b: seq<Byte>, lo: nat, hi: nat) {
    |a| == |b| && lo <= hi <= |a| && a[..lo] == b[..lo] && a[hi..] == b[hi..]
  }

  lemma WithinParts(a: seq<Byte>, b: seq<Byte>, lo: nat, hi: nat)
    requires Within(a, b, lo, hi)
    ensures a == a[..lo] + a[lo..hi] + a[hi..] && b == a[..lo] + b[lo..hi] + a[hi..]
  {
    assert b == b[..lo] + b[lo..hi] + b[hi..];
  }

  /** Two symbol strings that differ within six places, in the same surroundings, are not both accepted. */
  lemma NotBoth(before: seq<Byte>, a: seq<Byte>, b: seq<Byte>, lo: nat, hi: nat, after: seq<Byte>)
    requires Within(a, b, lo, hi) && hi - lo <= 6 && Symbols(a) && Symbols(b) && a != b
    ensures Absorb(1, before + a + after) != Absorb(1, before + b + after)
  {
    WithinParts(a, b, lo, hi);
    BurstFrom(before + a[..lo], a[lo..hi], b[lo..hi], a[hi..] + after);
    Reassociate(before, a[..lo], a[lo..hi], a[hi..], after);
    Reassociate(before, a[..lo], b[lo..hi], a[hi..], after);
  }

  lemma Reassociate(e: seq<Byte>, before: seq<Byte>, xs: seq<Byte>, rest: seq<Byte>, after: seq<Byte>)
    ensures e + (before + xs + rest) + after == (e + before) + (xs + (rest + after))
  {
    Associate(before + xs, rest, after);
    Associate(e, before + xs + rest, after);
  }

  /** Prefixes with the same high bits whose low bits differ within six places do not accept the same word. */
  lemma LettersAreCovered(g: seq<Byte>, h: seq<Byte>, lo: nat, hi: nat, word: seq<Byte>)
    requires HighBits(g) == HighBits(h) && LowBits(g) != LowBits(h)
    requires Within(LowBits(g), LowBits(h), lo, hi) && hi - lo <= 6
    ensures Valid(g, word) ==> !Valid(h, word)
  {
    NotBoth(HighBits(g) + [0], LowBits(g), LowBits(h), lo, hi, word);
  }

  /** Prefixes with the same low bits whose high bits differ within six places do not accept the same word. */
  lemma CasesAreCovered(g: seq<Byte>, h: seq<Byte>, lo: nat, hi: nat, word: seq<Byte>)
    requires LowBits(g) == LowBits(h) && HighBits(g) != HighBits(h)
    requires Within(HighBits(g), HighBits(h), lo, hi) && hi - lo <= 6
    ensures Valid(g, word) ==> !Valid(h, word)
  {
    NotBoth([], HighBits(g), HighBits(h), lo, hi, [0] + LowBits(g) + word);
    HighFirst(g, word);
    HighFirst(h, word);
  }

  lemma HighFirst(g: seq<Byte>, word: seq<Byte>)
    ensures Expand(g) + word == [] + HighBits(g) + ([0] + LowBits(g) + word)
  {}

  predicate LowerLetters(h: seq<Byte>) {
    forall i :: 0 <= i < |h| ==> 97 <= h[i] <= 122
  }

  lemma SameHighBits(g: seq<Byte>, h: seq<Byte>)
    requires |g| == |h| && LowerLetters(g) && LowerLetters(h) && g != h
    ensures HighBits(g) == HighBits(h) && LowBits(g) != LowBits(h)
  {
    assert forall i :: 0 <= i < |g| ==> HighBits(g)[i] == 3 && HighBits(h)[i] == 3;
    var i :| 0 <= i < |g| && g[i] != h[i];
    assert LowBits(g)[i] == g[i] - 96 && LowBits(h)[i] == h[i] - 96;
  }

  /** No word is accepted under two different prefixes of the same length, at most six lowercase letters. */
  lemma PrefixIsCovered(g: seq<Byte>, h: seq<Byte>, word: seq<Byte>)
    requires |g| == |h| <= 6 && LowerLetters(g) && LowerLetters(h) && g != h
    ensures Valid(g, word) ==> !Valid(h, word)
  {
    SameHighBits(g, h);
    LettersAreCovered(g, h, 0, |g|, word);
  }
}
