/** The few facts about division that modular indices and counters need. */
module Arith {
  lemma Distribute(a: int, x: int, y: int)
    ensures a * (x - y) == a * x - a * y
  {
  }

  lemma MulAtLeast(a: nat, d: nat)
    requires d >= 1
    ensures a * d >= a
  {
  }

  /** Quotient and remainder are determined by their defining equation. */
  lemma ModIs(x: int, m: int, q: int, r: int)
    requires m > 0 && x == m * q + r && 0 <= r < m
    ensures x % m == r && x / m == q
  {
    var q', r' := x / m, x % m;
    assert x == m * q' + r';
    Distribute(m, q, q');
    Distribute(m, q', q);
    if q > q' { MulAtLeast(m, q - q'); } else if q < q' { MulAtLeast(m, q' - q); }
  }

  lemma ModShift(x: int, m: int, k: int)
    requires m > 0
    ensures (x + m * k) % m == x % m
  {
    var q, r := x / m, x % m;
    assert m * (q + k) == m * q + m * k;
    ModIs(x + m * k, m, q + k, r);
  }

  lemma ModSmall(x: int, m: int)
    requires 0 <= x < m
    ensures x % m == x
  {
  }

  /** Reducing a summand does not change the sum's residue. */
  lemma ModAdd(x: int, y: int, m: int)
    requires m > 0
    ensures (x % m + y) % m == (x + y) % m
  {
    assert x == m * (x / m) + x % m;
    ModShift(x % m + y, m, x / m);
  }

  /** Positions of a ring that is not full differ from the next free position. */
  lemma RingDistinct(head: nat, k: nat, count: nat, cap: nat)
    requires k < count < cap
    ensures (head + k) % cap != (head + count) % cap
  {
    var q, r := (head + k) / cap, (head + k) % cap;
    var d := count - k;
    assert head + k == cap * q + r;
    if r + d < cap {
      ModIs(head + count, cap, q, r + d);
    } else {
      assert cap * (q + 1) == cap * q + cap;
      ModIs(head + count, cap, q + 1, r + d - cap);
    }
  }
}
