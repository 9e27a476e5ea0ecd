/**
 The Park-Miller generator of the pseudo-random device ("Random Number Generators: Good Ones are Hard
 to Find", CACM, October 1988), computed in 32 bits by Schrage's method.
 */
module Pseudorand {

  const MULTIPLIER := 16807
  const MODULUS := 0x7fff_ffff
  const K1 := 127773
  const K2 := 2836
  const INVERSE := 1407677000

  predicate Seed(x: int) { 1 <= x <= MODULUS - 1 }

  predicate Int32(x: int) { -0x8000_0000 <= x <= 0x7fff_ffff }

  /** The generator's definition. */
  function Multiply(x: int): int { (MULTIPLIER * x) % MODULUS }

  lemma Constants()
    ensures MODULUS == K1 * MULTIPLIER + K2
    ensures (MULTIPLIER * INVERSE) % MODULUS == 1
  {
  }

  /** Schrage's identity: with hi = x / K1 and lo = x % K1, the product is MULTIPLIER*lo - K2*hi up to one modulus. */
  lemma Schrage(x: int)
    requires Seed(x)
    ensures var hi, lo := x / K1, x % K1; var tmp := MULTIPLIER * lo - K2 * hi;
            && Int32(MULTIPLIER * lo) && Int32(K2 * hi) && Int32(tmp) && -MODULUS < tmp < MODULUS
            && MULTIPLIER * x == tmp + hi * MODULUS
  {
    var hi, lo := x / K1, x % K1;
    assert x == hi * K1 + lo;
  }

  lemma ModUnique(a: int, q: int, r: int)
    requires a == q * MODULUS + r && 0 <= r < MODULUS
    ensures a % MODULUS == r
  {
  }

  lemma ModProduct(a: int, b: int)
    ensures (a * (b % MODULUS)) % MODULUS == (a * b) % MODULUS
  {
    var q, r := b / MODULUS, b % MODULUS;
    var q', r' := (a * r) / MODULUS, (a * r) % MODULUS;
    assert a * b == a * (q * MODULUS + r) == (a * q) * MODULUS + a * r;
    assert a * b == (a * q + q') * MODULUS + r';
    ModUnique(a * b, a * q + q', r');
  }

  /** Multiplying by 1407677000 undoes a step. */
  lemma InverseUndoes(x: int)
    requires Seed(x)
    ensures (INVERSE * Multiply(x)) % MODULUS == x
  {
    ModProduct(INVERSE, MULTIPLIER * x);
    assert INVERSE * (MULTIPLIER * x) == x * (MULTIPLIER * INVERSE);
    ModProduct(x, MULTIPLIER * INVERSE);
    Constants();
    assert (x * 1) % MODULUS == x;
  }

  /** No seed leads to zero, so seeds lead to seeds. */
  lemma StaysSeed(x: int)
    requires Seed(x)
    ensures Seed(Multiply(x))
  {
    InverseUndoes(x);
  }

  /** The step is one to one on seeds. */
  lemma OneToOne(x: int, y: int)
    requires Seed(x) && Seed(y) && Multiply(x) == Multiply(y)
    ensures x == y
  {
    InverseUndoes(x);
    InverseUndoes(y);
  }

  /** And onto: every seed is the successor of one. */
  lemma Onto(y: int) returns (x: int)
    requires Seed(y)
    ensures Seed(x) && Multiply(x) == y
  {
    x := (INVERSE * y) % MODULUS;
    ModProduct(MULTIPLIER, INVERSE * y);
    assert MULTIPLIER * (INVERSE * y) == y * (MULTIPLIER * INVERSE);
    ModProduct(y, MULTIPLIER * INVERSE);
    Constants();
    assert (y * 1) % MODULUS == y;
  }

  /** With one modulus added when it is not positive, the difference is the next seed. */
  lemma Corrected(x: int)
    requires Seed(x)
    ensures var tmp := MULTIPLIER * (x % K1) - K2 * (x / K1);
            var next := if tmp <= 0 then tmp + MODULUS else tmp; next == Multiply(x) && Seed(next)
  {
    var hi, lo := x / K1, x % K1;
    var tmp := MULTIPLIER * lo - K2 * hi;
    Schrage(x);
    StaysSeed(x);
    if tmp < 0 {
      ModUnique(MULTIPLIER * x, hi - 1, tmp + MODULUS);
    } else {
      ModUnique(MULTIPLIER * x, hi, tmp);
    }
  }

  class Generator {
    var seed: int

    ghost predicate Valid()
      reads this
    {
      Seed(seed)
    }

    /** pseudoattach_pseudorand */
    constructor ()
      ensures Valid() && seed == 305824
    {
      seed := 305824;
    }

    /** pseudorand_random: all intermediate values fit in an int32_t. */
    method Random() returns (r: int)
      requires Valid()
      modifies this
      ensures Valid() && seed == (16807 * old(seed)) % 0x7fff_ffff
      ensures r == seed - 1 && 0 <= r <= MODULUS - 2
    {
      var hi, lo := seed / K1, seed % K1;
      Schrage(seed);
      Corrected(seed);
      var tmp := MULTIPLIER * lo - K2 * hi;
      assert Int32(tmp);
      if tmp <= 0 {
        tmp := tmp + MODULUS;
      }
      seed := tmp;
      return seed - 1;
    }
  }
}
