/** Masking with the complement of a number one below a power of two. */
module Bits {
  import opened Arith

  /** x & ~m, bit by bit. */
  function AndNot(x: nat, m: nat): nat
    decreases x
  {
    if x == 0 then 0 else (if m % 2 == 1 then 0 else x % 2) + 2 * AndNot(x / 2, m / 2)
  }

  /** Masking takes away at most m. */
  lemma {:induction false} AndNotBounds(x: nat, m: nat)
    ensures x - m <= AndNot(x, m) <= x
    decreases x
  {
    if x > 0 { AndNotBounds(x / 2, m / 2); }
  }

  predicate PowerOfTwo(n: nat) { n == 1 || (n > 1 && n % 2 == 0 && PowerOfTwo(n / 2)) }

  /** The largest multiple of a that is at most x. */
  function RoundDown(x: nat, a: nat): (r: nat)
    requires a > 0
    ensures r % a == 0 && r <= x < r + a
  {
    ModShift(0, a, x / a);
    a * (x / a)
  }

  lemma {:induction false} AndNotZero(x: nat)
    ensures AndNot(x, 0) == x
    decreases x
  {
    if x > 0 { AndNotZero(x / 2); }
  }

  /** The only multiple of a in (x - a, x] is RoundDown(x, a). */
  lemma RoundDownIs(x: nat, a: nat, q: nat)
    requires a > 0 && a * q <= x < a * q + a
    ensures RoundDown(x, a) == a * q
  {
    ModIs(x, a, q, x - a * q);
  }

  lemma RoundDownHalves(x: nat, a: nat)
    requires a > 0
    ensures RoundDown(x, 2 * a) == 2 * RoundDown(x / 2, a)
  {
    var q := (x / 2) / a;
    assert a * q <= x / 2 < a * q + a by { assert x / 2 == a * q + (x / 2) % a; }
    assert 2 * a * q == 2 * (a * q);
    RoundDownIs(x, 2 * a, q);
  }

  /** For a power of two a, x & ~(a - 1) rounds x down to a multiple of a. */
  lemma {:induction false} MaskRounds(x: nat, a: nat)
    requires PowerOfTwo(a)
    ensures AndNot(x, a - 1) == RoundDown(x, a)
    decreases a
  {
    if a == 1 {
      AndNotZero(x);
      RoundDownIs(x, 1, x);
    } else {
      assert (a - 1) % 2 == 1 && (a - 1) / 2 == a / 2 - 1;
      MaskRounds(x / 2, a / 2);
      RoundDownHalves(x, a / 2);
      if x == 0 { RoundDownIs(0, a, 0); }
    }
  }

  /** For any other a it does not: a & ~(a - 1) is only the lowest one bit of a. */
  lemma {:induction false} MaskMisses(a: nat)
    requires a > 0 && !PowerOfTwo(a)
    ensures AndNot(a, a - 1) != a
    decreases a
  {
    if a % 2 == 1 {
      assert (a - 1) / 2 == a / 2;
      AndNotSelf(a / 2);
    } else {
      assert (a - 1) % 2 == 1 && (a - 1) / 2 == a / 2 - 1;
      MaskMisses(a / 2);
    }
  }

  lemma {:induction false} AndNotSelf(x: nat)
    ensures AndNot(x, x) == 0
    decreases x
  {
    if x > 0 { AndNotSelf(x / 2); }
  }

  /** The mask rounds every number down to a multiple of a exactly when a is a power of two. */
  lemma MaskRoundsExactly(a: nat)
    requires a > 0
    ensures (forall x: nat :: AndNot(x, a - 1) == RoundDown(x, a)) <==> PowerOfTwo(a)
  {
    if PowerOfTwo(a) {
      forall x: nat ensures AndNot(x, a - 1) == RoundDown(x, a) { MaskRounds(x, a); }
    } else {
      MaskMisses(a);
      RoundDownIs(a, a, 1);
    }
  }
}
