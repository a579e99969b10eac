/** Proof-of-work targets: a hash, read as a 256-bit number, against a difficulty. */
module Difficulty {
  import opened Base
  import opened Codec
  import opened BlockHeader

  datatype DifficultyError = DifficultyCannotBeZero

  /** Largest `U256`. */
  function MaxU256(): nat {
    Pow256(32) - 1
  }

  type Difficulty = n: nat | n <= MaxU256()

  function HashWork(h: Hash): (n: Difficulty) {
    ToFromBE(h); FromBE(h)
  }

  function Target(d: Difficulty): Result<nat, DifficultyError> {
    if d == 0 then Err(DifficultyCannotBeZero) else Ok(MaxU256() / d)
  }

  function CheckDifficulty(h: Hash, d: Difficulty): Result<bool, DifficultyError> {
    match Target(d)
    case Err(e) => Err(e)
    case Ok(target) => Ok(HashWork(h) <= target)
  }

  lemma QuotientFits(n: nat, d: nat)
    requires d > 0
    ensures n / d <= n && d * (n / d) <= n < d * (n / d) + d
  {
    assert n == d * (n / d) + n % d;
    if n / d > n {
      Multiply(1, d, n / d);
    }
  }

  /** Division by zero makes the program panic. */
  function DifficultyFromHash(h: Hash): Option<Difficulty> {
    if HashWork(h) == 0 then None
    else QuotientFits(MaxU256(), HashWork(h)); Some(MaxU256() / HashWork(h))
  }

  lemma Multiply(a: nat, b: nat, c: nat)
    requires a <= b
    ensures a * c <= b * c
  {}

  lemma BelowQuotient(n: nat, a: nat, b: nat)
    requires b > 0
    ensures a <= n / b <==> a * b <= n
  {
    var q := n / b;
    QuotientFits(n, b);
    if a <= q {
      Multiply(a, q, b);
    } else {
      Multiply(q + 1, a, b);
      assert (q + 1) * b == b * q + b;
    }
  }

  lemma {:induction false} PowAdds(j: nat, k: nat)
    ensures Pow256(j + k) == Pow256(j) * Pow256(k)
    decreases k
  {
    if k > 0 {
      PowAdds(j, k - 1);
    }
  }

  /** The largest number of 256 bits. */
  lemma MaxIs256Bits()
    ensures MaxU256() + 1 == (TWO_64 * TWO_64) * (TWO_64 * TWO_64)
  {
    IntWidths();
    PowAdds(16, 16);
  }

  /** The product of hash and difficulty tells whether it is met: it must stay below 2 to the power of 256. */
  lemma MetExactlyByProduct(h: Hash, d: Difficulty)
    requires d > 0
    ensures CheckDifficulty(h, d) == Ok(HashWork(h) * d < (TWO_64 * TWO_64) * (TWO_64 * TWO_64))
  {
    MaxIs256Bits();
    BelowQuotient(MaxU256(), HashWork(h), d);
  }

  /** A difficulty is met exactly when it is at most the difficulty of the hash. */
  lemma MetExactlyUpToOwn(h: Hash, d: Difficulty)
    requires HashWork(h) > 0 && d > 0
    ensures CheckDifficulty(h, d) == Ok(d <= DifficultyFromHash(h).value)
  {
    var w := HashWork(h);
    BelowQuotient(MaxU256(), w, d);
    BelowQuotient(MaxU256(), d, w);
    assert w * d == d * w;
  }

  /** A hash meets its own difficulty and every smaller one, the zero hash meets all; zero is no difficulty. */
  lemma Acceptance(h: Hash, d: Difficulty, smaller: Difficulty)
    requires smaller <= d
    ensures CheckDifficulty(h, d) == Ok(true) && smaller > 0 ==> CheckDifficulty(h, smaller) == Ok(true)
    ensures d > 0 && HashWork(h) == 0 ==> CheckDifficulty(h, d) == Ok(true)
    ensures CheckDifficulty(h, d).Err? <==> d == 0
    ensures HashWork(h) > 0 ==>
              var own := DifficultyFromHash(h).value; own > 0 && CheckDifficulty(h, own) == Ok(true)
  {
    var w := HashWork(h);
    if d > 0 && w == 0 {
      QuotientFits(MaxU256(), d);
    }
    if w > 0 {
      var own := DifficultyFromHash(h).value;
      BelowQuotient(MaxU256(), 1, w);
      MetExactlyUpToOwn(h, own);
      if d > 0 && smaller > 0 {
        MetExactlyUpToOwn(h, d);
        MetExactlyUpToOwn(h, smaller);
      }
    }
  }
}
