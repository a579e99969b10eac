/**
 * Regrouping of bit strings. The program keeps its pending bits in a 16-bit
 * accumulator whose upper bits it silently shifts out; the specification cuts
 * an unbounded bit string into groups.
 */
module ConvertBits {
  import opened Base
  import opened BitOps

  datatype Error =
    | InvalidDataRange(value: nat, from: nat)
    | IllegalZeroPadding
    | NonZeroPadding

  /** The `n` low bits of `v`, most significant first. */
  function Bits(v: nat, n: nat): (b: seq<bool>)
    ensures |b| == n
  {
    if n == 0 then [] else Bits(v / 2, n - 1) + [v % 2 == 1]
  }

  /** The number a bit string denotes. */
  function Number(b: seq<bool>): nat {
    if b == [] then 0 else 2 * Number(b[..|b| - 1]) + (if b[|b| - 1] then 1 else 0)
  }

  function Unpack(data: seq<Byte>, w: nat): seq<bool> {
    if data == [] then [] else Bits(data[0], w) + Unpack(data[1..], w)
  }

  function Zeros(n: nat): (z: seq<bool>)
    ensures |z| == n && forall i :: 0 <= i < n ==> !z[i]
  {
    seq(n, i => false)
  }

  predicate AllZero(b: seq<bool>) {
    forall i :: 0 <= i < |b| ==> !b[i]
  }

  predicate Digits(data: seq<Byte>, w: nat) {
    forall i :: 0 <= i < |data| ==> data[i] < Pow2(w)
  }

  /** Cut a bit string into groups of `w`, leaving fewer than `w` bits over. */
  function Regroup(b: seq<bool>, w: nat): (r: (seq<Byte>, seq<bool>))
    requires 1 <= w <= 8
    ensures |r.1| < w
    decreases |b|
  {
    if |b| < w then ([], b)
    else
      GroupFits(b[..w]);
      var (groups, rest) := Regroup(b[w..], w);
      ([Number(b[..w])] + groups, rest)
  }

  predicate Widths(from: nat, to: nat) {
    1 <= from <= 8 && 1 <= to <= 8
  }

  /** What the conversion means: the bit string of the data, regrouped. */
  function Convert(data: seq<Byte>, from: nat, to: nat, pad: bool): (r: Result<seq<Byte>, Error>)
    requires Widths(from, to)
  {
    match FirstTooWide(data, from)
    case Some(v) => Err(InvalidDataRange(v, from))
    case None =>
      var (groups, rest) := Regroup(Unpack(data, from), to);
      if pad then
        if rest == [] then Ok(groups)
        else
          GroupFits(rest + Zeros(to - |rest|));
          Ok(groups + [Number(rest + Zeros(to - |rest|))])
      else if |rest| >= from then Err(IllegalZeroPadding)
      else if !AllZero(rest) then Err(NonZeroPadding)
      else Ok(groups)
  }

  function FirstTooWide(data: seq<Byte>, w: nat): (r: Option<nat>)
    ensures r.None? <==> Digits(data, w)
  {
    if data == [] then None
    else if data[0] >= Pow2(w) then Some(data[0])
    else
      assert Digits(data[1..], w) ==> Digits(data, w) by {
        assert forall i :: 0 < i < |data| ==> data[i] == data[1..][i - 1];
      }
      FirstTooWide(data[1..], w)
  }

  // ------------------------------------------------- bit strings as numbers

  lemma {:induction false} NumberFits(b: seq<bool>)
    ensures Number(b) < Pow2(|b|)
    ensures Bits(Number(b), |b|) == b
    decreases |b|
  {
    if b != [] {
      var n := |b| - 1;
      NumberFits(b[..n]);
      assert b == b[..n] + [b[n]];
    }
  }

  lemma GroupFits(b: seq<bool>)
    requires |b| <= 8
    ensures Number(b) < 256 && Number(b) < Pow2(|b|)
  {
    NumberFits(b);
    Pow2Monotone(|b|, 8);
    Pow2Values();
  }

  lemma {:induction false} NumberOfBits(v: nat, n: nat)
    ensures Number(Bits(v, n)) == Low(v, n)
    decreases n
  {
    if n > 0 {
      NumberOfBits(v / 2, n - 1);
      assert Bits(v, n)[..n - 1] == Bits(v / 2, n - 1);
    }
  }

  lemma {:induction false} BitsInjective(u: nat, v: nat, n: nat)
    requires u < Pow2(n) && v < Pow2(n) && Bits(u, n) == Bits(v, n)
    ensures u == v
  {
    NumberOfBits(u, n);
    NumberOfBits(v, n);
    LowFits(u, n);
    LowFits(v, n);
  }

  /** Appending a value below a shifted word appends its bits. */
  lemma {:induction false} BitsAppend(a: nat, v: nat, n: nat, k: nat)
    requires v < Pow2(k)
    ensures Bits(Shl(a, k) + v, n + k) == Bits(a, n) + Bits(v, k)
    decreases k
  {
    if k > 0 {
      BitsAppend(a, v / 2, n, k - 1);
      assert (Shl(a, k) + v) / 2 == Shl(a, k - 1) + v / 2;
    }
  }

  /** Truncating to `m` bits leaves the low `n <= m` bits alone. */
  lemma {:induction false} BitsOfLow(a: nat, n: nat, m: nat)
    requires n <= m
    ensures Bits(Low(a, m), n) == Bits(a, n)
    decreases n
  {
    if n > 0 { BitsOfLow(a / 2, n - 1, m - 1); }
  }

  lemma {:induction false} BitsSplit(a: nat, n: nat, k: nat)
    ensures Bits(a, n + k) == Bits(Shr(a, k), n) + Bits(a, k)
    decreases k
  {
    if k > 0 { BitsSplit(a / 2, n, k - 1); }
  }

  lemma {:induction false} ZeroBits(n: nat)
    ensures Bits(0, n) == Zeros(n)
  {
    if n > 0 { ZeroBits(n - 1); }
  }

  lemma {:induction false} NumberZero(b: seq<bool>)
    ensures Number(b) == 0 <==> AllZero(b)
    decreases |b|
  {
    if b != [] {
      var n := |b| - 1;
      NumberZero(b[..n]);
      assert b == b[..n] + [b[n]];
    }
  }

  // ----------------------------------------------------------- regrouping

  lemma {:induction false} UnpackAppend(xs: seq<Byte>, ys: seq<Byte>, w: nat)
    ensures Unpack(xs + ys, w) == Unpack(xs, w) + Unpack(ys, w)
    decreases |xs|
  {
    if xs == [] {
      assert xs + ys == ys;
    } else {
      assert (xs + ys)[1..] == xs[1..] + ys;
      UnpackAppend(xs[1..], ys, w);
    }
  }

  lemma UnpackOne(x: Byte, w: nat)
    ensures Unpack([x], w) == Bits(x, w)
  {
    assert [x][1..] == [];
    assert Unpack([], w) == [];
  }

  lemma UnpackCons(x: Byte, xs: seq<Byte>, w: nat)
    ensures Unpack([x] + xs, w) == Bits(x, w) + Unpack(xs, w)
  {
    assert ([x] + xs)[1..] == xs;
  }

  lemma {:induction false} RegroupDigits(b: seq<bool>, w: nat)
    requires 1 <= w <= 8
    ensures Digits(Regroup(b, w).0, w)
    decreases |b|
  {
    if |b| >= w {
      RegroupDigits(b[w..], w);
      NumberFits(b[..w]);
    }
  }

  lemma {:induction false} RegroupSound(b: seq<bool>, w: nat)
    requires 1 <= w <= 8
    ensures Unpack(Regroup(b, w).0, w) + Regroup(b, w).1 == b
    decreases |b|
  {
    if |b| < w {
      assert Unpack([], w) + b == b;
    } else {
      var x := b[..w];
      var (groups, rest) := Regroup(b[w..], w);
      RegroupSound(b[w..], w);
      NumberFits(x);
      GroupFits(x);
      UnpackCons(Number(x), groups, w);
      Associate(x, Unpack(groups, w), rest);
      assert x + b[w..] == b;
    }
  }

  lemma Heads(p: seq<bool>, p': seq<bool>, q: seq<bool>, q': seq<bool>)
    requires |p| == |q| && p + p' == q + q'
    ensures p == q && p' == q'
  {
    assert (p + p')[..|p|] == p && (q + q')[..|p|] == q;
    assert (p + p')[|p|..] == p' && (q + q')[|p|..] == q';
  }

  /** A bit string has at most one reading as `w`-bit digits and a short rest. */
  lemma {:induction false} ReadingUnique(a: seq<Byte>, x: seq<bool>, b: seq<Byte>, y: seq<bool>, w: nat)
    requires Digits(a, w) && Digits(b, w) && |x| < w && |y| < w
    requires Unpack(a, w) + x == Unpack(b, w) + y
    ensures a == b && x == y
    decreases |a|
  {
    if a == [] || b == [] {
      assert a == b == [];
      assert Unpack(a, w) + x == x && Unpack(b, w) + y == y;
    } else {
      var a', b' := a[1..], b[1..];
      Associate(Bits(a[0], w), Unpack(a', w), x);
      Associate(Bits(b[0], w), Unpack(b', w), y);
      Heads(Bits(a[0], w), Unpack(a', w) + x, Bits(b[0], w), Unpack(b', w) + y);
      BitsInjective(a[0], b[0], w);
      ReadingUnique(a', x, b', y, w);
      assert a == [a[0]] + a' && b == [b[0]] + b';
    }
  }

  lemma RegroupComplete(groups: seq<Byte>, rest: seq<bool>, w: nat)
    requires 1 <= w <= 8 && Digits(groups, w) && |rest| < w
    ensures Regroup(Unpack(groups, w) + rest, w) == (groups, rest)
  {
    var b := Unpack(groups, w) + rest;
    RegroupDigits(b, w);
    RegroupSound(b, w);
    ReadingUnique(Regroup(b, w).0, Regroup(b, w).1, groups, rest, w);
  }

  /** New bits can be regrouped together with the rest that was pending. */
  lemma {:induction false} RegroupAppend(b: seq<bool>, c: seq<bool>, w: nat)
    requires 1 <= w <= 8
    ensures
      var (g, r) := Regroup(b, w);
      var (g', r') := Regroup(r + c, w);
      Regroup(b + c, w) == (g + g', r')
    decreases |b|
  {
    var (g, r) := Regroup(b, w);
    var (g', r') := Regroup(r + c, w);
    if |b| < w {
      assert [] + g' == g';
    } else {
      RegroupAppend(b[w..], c, w);
      assert (b + c)[w..] == b[w..] + c;
      assert (b + c)[..w] == b[..w];
      var g1 := Regroup(b[w..], w).0;
      Associate([Number(b[..w])], g1, g');
    }
  }

  // ------------------------------------------------------------ the loops

  /** `acc << k` on a 16-bit word. */
  function Shl16(acc: nat, k: nat): nat {
    Low(Shl(acc, k), 16)
  }

  lemma PushDigit(acc: nat, bits: nat, value: nat, from: nat)
    requires value < Pow2(from) && bits + from <= 16
    ensures Or(Shl16(acc, from), value) == Low(Shl(acc, from), 16) + value
    ensures Bits(Or(Shl16(acc, from), value), bits + from) == Bits(acc, bits) + Bits(value, from)
  {
    LowOfShl(acc, from, 16);
    var high := Low(acc, 16 - from);
    FillLow(high, value, from);
    BitsAppend(high, value, bits, from);
    BitsOfLow(acc, bits, 16 - from);
  }

  lemma {:induction false} LowOfShl(a: nat, k: nat, m: nat)
    requires k <= m
    ensures Low(Shl(a, k), m) == Shl(Low(a, m - k), k)
    decreases k
  {
    if k > 0 {
      LowOfShl(a, k - 1, m - 1);
      assert Shl(a, k) / 2 == Shl(a, k - 1) && Shl(a, k) % 2 == 0;
    }
  }

  /** Taking the top group of the pending bits out of the accumulator. */
  lemma PopGroup(acc: nat, bits: nat, to: nat)
    requires 1 <= to <= 8 && to <= bits
    ensures
      var rest := bits - to;
      var (g, r) := Regroup(Bits(acc, rest), to);
      LowByte(Shr(acc, rest), to) == Low(Shr(acc, rest), to) &&
      Regroup(Bits(acc, bits), to) == ([LowByte(Shr(acc, rest), to)] + g, r)
  {
    var rest := bits - to;
    BitsSplit(acc, to, rest);
    NumberOfBits(Shr(acc, rest), to);
    assert Bits(acc, bits)[..to] == Bits(Shr(acc, rest), to);
    assert Bits(acc, bits)[to..] == Bits(acc, rest);
  }

  /** `(v & max_value) as u8` for a group of at most eight bits. */
  function LowByte(v: nat, to: nat): Byte
    requires to <= 8
  {
    LowFits(v, to);
    Pow2Values();
    Low(v, to)
  }

  /** The inner loop: drain whole groups from the accumulator. */
  method Drain(acc: nat, pending: nat, to: nat, emitted: seq<Byte>) returns (bits: nat, result: seq<Byte>)
    requires 1 <= to <= 8
    ensures bits < to
    ensures (result, Bits(acc, bits)) == (emitted + Regroup(Bits(acc, pending), to).0, Regroup(Bits(acc, pending), to).1)
  {
    bits, result := pending, emitted;
    while bits >= to
      invariant result + Regroup(Bits(acc, bits), to).0 == emitted + Regroup(Bits(acc, pending), to).0
      invariant Regroup(Bits(acc, bits), to).1 == Regroup(Bits(acc, pending), to).1
    {
      PopGroup(acc, bits, to);
      bits := bits - to;
      result := result + [LowByte(Shr(acc, bits), to)];
    }
    assert Regroup(Bits(acc, bits), to) == ([], Bits(acc, bits));
    assert result + [] == result;
  }

  lemma RestAsNumber(acc: nat, bits: nat, to: nat)
    requires bits < to <= 8
    ensures LowByte(Shl16(acc, to - bits), to) == Number(Bits(acc, bits) + Zeros(to - bits))
  {
    var k := to - bits;
    var s := Shl16(acc, k);
    NumberOfBits(s, to);
    BitsOfLow(Shl(acc, k), to, 16);
    ZeroBits(k);
    PowPositive(k);
    BitsAppend(acc, 0, bits, k);
  }

  lemma PowPositive(k: nat)
    ensures 0 < Pow2(k)
  {}

  /** One more digit, appended to the accumulator, is one more digit of the bit string. */
  lemma Advance(read: seq<Byte>, value: Byte, acc: nat, bits: nat, from: nat, to: nat, result: seq<Byte>)
    requires Widths(from, to) && value < Pow2(from) && bits < to
    requires Regroup(Unpack(read, from), to) == (result, Bits(acc, bits))
    ensures
      var (g, r) := Regroup(Bits(Or(Shl16(acc, from), value), bits + from), to);
      Regroup(Unpack(read + [value], from), to) == (result + g, r)
  {
    UnpackAppend(read, [value], from);
    UnpackOne(value, from);
    RegroupAppend(Unpack(read, from), Bits(value, from), to);
    PushDigit(acc, bits, value, from);
  }

  lemma RestIsZero(acc: nat, bits: nat, to: nat)
    requires bits < to <= 8
    ensures LowByte(Shl16(acc, to - bits), to) == 0 <==> AllZero(Bits(acc, bits))
  {
    var b, z := Bits(acc, bits), Zeros(to - bits);
    RestAsNumber(acc, bits, to);
    NumberZero(b + z);
    assert (b + z)[..bits] == b && (b + z)[bits..] == z;
  }

  /** The body of the outer loop: push a digit, then drain whole groups. */
  method Feed(ghost read: seq<Byte>, value: Byte, acc0: nat, bits0: nat, from: nat, to: nat, result0: seq<Byte>)
    returns (acc: nat, bits: nat, result: seq<Byte>)
    requires Widths(from, to) && value < Pow2(from) && bits0 < to
    requires Regroup(Unpack(read, from), to) == (result0, Bits(acc0, bits0))
    ensures bits < to
    ensures Regroup(Unpack(read + [value], from), to) == (result, Bits(acc, bits))
  {
    Advance(read, value, acc0, bits0, from, to, result0);
    acc := Or(Shl16(acc0, from), value);
    bits, result := Drain(acc, bits0 + from, to, result0);
  }

  /** The program agrees with the bit-string meaning: no pending bit is ever shifted out. */
  method Run(data: seq<Byte>, from: nat, to: nat, pad: bool) returns (r: Result<seq<Byte>, Error>)
    requires Widths(from, to)
    ensures r == Convert(data, from, to, pad)
  {
    var acc: nat, bits: nat, result: seq<Byte> := 0, 0, [];
    for i := 0 to |data|
      invariant bits < to
      invariant Digits(data[..i], from)
      invariant Regroup(Unpack(data[..i], from), to) == (result, Bits(acc, bits))
    {
      var value := data[i];
      WideOrNot(value, from);
      if Shr(value, from) != 0 {
        FirstAt(data, i, from);
        return Err(InvalidDataRange(value, from));
      }
      assert data[..i + 1] == data[..i] + [value];
      acc, bits, result := Feed(data[..i], value, acc, bits, from, to, result);
    }
    assert data[..|data|] == data;
    r := Finish(data, from, to, pad, acc, bits, result);
  }

  /** What happens to the bits that are left over. */
  method Finish(data: seq<Byte>, from: nat, to: nat, pad: bool, acc: nat, bits: nat, groups: seq<Byte>)
    returns (r: Result<seq<Byte>, Error>)
    requires Widths(from, to) && bits < to && Digits(data, from)
    requires Regroup(Unpack(data, from), to) == (groups, Bits(acc, bits))
    ensures r == Convert(data, from, to, pad)
  {
    RestAsNumber(acc, bits, to);
    RestIsZero(acc, bits, to);
    if pad {
      if bits > 0 {
        return Ok(groups + [LowByte(Shl16(acc, to - bits), to)]);
      }
    } else if bits >= from {
      return Err(IllegalZeroPadding);
    } else if LowByte(Shl16(acc, to - bits), to) != 0 {
      return Err(NonZeroPadding);
    }
    r := Ok(groups);
  }

  lemma {:induction false} WideOrNot(v: nat, k: nat)
    ensures Shr(v, k) == 0 <==> v < Pow2(k)
    decreases k
  {
    if k > 0 { WideOrNot(v / 2, k - 1); }
  }

  lemma {:induction false} FirstAt(data: seq<Byte>, i: nat, w: nat)
    requires i < |data| && Digits(data[..i], w) && data[i] >= Pow2(w)
    ensures FirstTooWide(data, w) == Some(data[i])
    decreases i
  {
    if i > 0 {
      assert data[0] == data[..i][0];
      assert data[1..][..i - 1] == data[..i][1..];
      FirstAt(data[1..], i - 1, w);
    }
  }

  // ------------------------------------------------------------- theorems

  lemma PaddedForm(data: seq<Byte>, from: nat, to: nat)
    returns (groups: seq<Byte>, k: nat)
    requires Widths(from, to) && Digits(data, from)
    ensures Convert(data, from, to, true) == Ok(groups)
    ensures Digits(groups, to) && k < to
    ensures Unpack(groups, to) == Unpack(data, from) + Zeros(k)
  {
    var b := Unpack(data, from);
    var (g, rest) := Regroup(b, to);
    RegroupDigits(b, to);
    RegroupSound(b, to);
    if rest == [] {
      groups, k := g, 0;
      assert Unpack(g, to) + [] == Unpack(g, to);
    } else {
      k := to - |rest|;
      GroupFits(rest + Zeros(k));
      CloseWith(b, g, rest, k, to);
      groups := g + [Number(rest + Zeros(k))];
    }
  }

  lemma CloseWith(b: seq<bool>, g: seq<Byte>, rest: seq<bool>, k: nat, w: nat)
    requires |rest| + k == w <= 8 && Number(rest + Zeros(k)) < 256
    requires Unpack(g, w) + rest == b
    ensures Unpack(g + [Number(rest + Zeros(k))], w) == b + Zeros(k)
  {
    var last := rest + Zeros(k);
    NumberFits(last);
    UnpackAppend(g, [Number(last)], w);
    UnpackOne(Number(last), w);
    Associate(Unpack(g, w), rest, Zeros(k));
  }

  /** Widening with padding and narrowing without it gives back every input. */
  lemma WidenThenNarrow(data: seq<Byte>, from: nat, to: nat)
    requires Widths(from, to) && to <= from && Digits(data, from)
    ensures Convert(data, from, to, true).Ok?
    ensures Digits(Convert(data, from, to, true).value, to)
    ensures Convert(Convert(data, from, to, true).value, to, from, false) == Ok(data)
  {
    var groups, k := PaddedForm(data, from, to);
    RegroupComplete(data, Zeros(k), from);
  }

  /** Every accepted narrow string is the padded form of its decoding. */
  lemma NarrowThenWiden(groups: seq<Byte>, from: nat, to: nat, data: seq<Byte>)
    requires Widths(from, to) && from <= to
    requires Convert(groups, from, to, false) == Ok(data)
    ensures Convert(data, to, from, true) == Ok(groups)
  {
    var rest := Regroup(Unpack(groups, from), to).1;
    RegroupDigits(Unpack(groups, from), to);
    RegroupSound(Unpack(groups, from), to);
    assert rest == Zeros(|rest|);
    var again, k := PaddedForm(data, to, from);
    SamePadding(Unpack(data, to), groups, |rest|, again, k, from);
  }

  lemma SamePadding(b: seq<bool>, xs: seq<Byte>, j: nat, ys: seq<Byte>, k: nat, w: nat)
    requires j < w && k < w && Digits(xs, w) && Digits(ys, w)
    requires Unpack(xs, w) == b + Zeros(j) && Unpack(ys, w) == b + Zeros(k)
    ensures xs == ys
  {
    if j <= k {
      LongerPadding(b, xs, j, ys, k, w);
    } else {
      LongerPadding(b, ys, k, xs, j, w);
    }
  }

  lemma LongerPadding(b: seq<bool>, xs: seq<Byte>, j: nat, ys: seq<Byte>, k: nat, w: nat)
    requires j <= k < w && Digits(xs, w) && Digits(ys, w)
    requires Unpack(xs, w) == b + Zeros(j) && Unpack(ys, w) == b + Zeros(k)
    ensures xs == ys
  {
    assert Zeros(k) == Zeros(j) + Zeros(k - j);
    Associate(b, Zeros(j), Zeros(k - j));
    assert Unpack(ys, w) + [] == Unpack(ys, w);
    ReadingUnique(xs, Zeros(k - j), ys, [], w);
  }

  /** Bytes to five-bit symbols and back, as addresses use it. */
  lemma BytesSurvive(data: seq<Byte>)
    ensures Convert(data, 8, 5, true).Ok?
    ensures forall i :: 0 <= i < |Convert(data, 8, 5, true).value| ==> Convert(data, 8, 5, true).value[i] < 32
    ensures Convert(Convert(data, 8, 5, true).value, 5, 8, false) == Ok(data)
  {
    Pow2Values();
    WidenThenNarrow(data, 8, 5);
  }
}
