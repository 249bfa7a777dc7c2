/** Go's fixed-width integers: wrap-around, truncating division and shifts. */
module Int64 {
  const MAX := 0x7fff_ffff_ffff_ffff
  const MIN := -0x8000_0000_0000_0000
  const MODULUS := 0x1_0000_0000_0000_0000
  const MAX32 := 0x7fff_ffff
  const MIN32 := -0x8000_0000
  const MODULUS32 := 0x1_0000_0000

  predicate InRange(x: int) {
    MIN <= x <= MAX
  }

  type int64 = x: int | MIN <= x <= MAX witness 0

  /** The int64 with the same low 64 bits. */
  function Wrap(x: int): (r: int64)
    ensures InRange(x) ==> r == x
  {
    (x - MIN) % MODULUS + MIN
  }

  function Wrap32(x: int): (r: int)
    ensures MIN32 <= r <= MAX32
    ensures MIN32 <= x <= MAX32 ==> r == x
  {
    (x - MIN32) % MODULUS32 + MIN32
  }

  /** Go's `/`: the quotient rounded toward zero. */
  function Trunc(a: int, b: int): (q: int)
    requires b != 0
  {
    if a >= 0 then a / b else -((-a) / b)
  }

  lemma QuotientFits(n: nat, d: nat, k: nat)
    requires d > 0
    ensures k <= n / d <==> k * d <= n
  {
    var q := n / d;
    assert q * d <= n < (q + 1) * d;
    if k <= q {
      MulMonotone(k, q, d);
    } else {
      MulMonotone(q + 1, k, d);
    }
  }

  lemma MulMonotone(a: int, b: int, d: nat)
    requires a <= b
    ensures a * d <= b * d
  {
  }

  function Abs(x: int): nat {
    if x < 0 then -x else x
  }

  function Pow2(n: nat): (p: nat)
    ensures p > 0
  {
    if n == 0 then 1 else 2 * Pow2(n - 1)
  }

  /** `1 << n` in an int64, for a shift count that has been converted to uint. */
  function ShiftOne(n: nat): (r: int64) {
    if n < 64 then Wrap(Pow2(n)) else 0
  }

  lemma {:induction false} Pow2Grows(m: nat, n: nat)
    requires m <= n
    ensures Pow2(m) <= Pow2(n)
  {
    if m < n {
      Pow2Grows(m, n - 1);
    }
  }

  lemma WrapDouble(x: int)
    ensures Wrap(2 * Wrap(x)) == Wrap(2 * x)
  {
    var m := WrapShape(x);
    assert 2 * Wrap(x) == 2 * x - (2 * m) * MODULUS;
    WrapPeriod(2 * x, 2 * m);
  }

  lemma {:induction false} Pow2Add(m: nat, n: nat)
    ensures Pow2(m + n) == Pow2(m) * Pow2(n)
  {
    if m > 0 {
      Pow2Add(m - 1, n);
    }
  }

  lemma WrapPeriod(x: int, m: int)
    ensures Wrap(x - m * MODULUS) == Wrap(x)
  {
  }

  /** The difference of two int64 values that has left the range once. */
  lemma WrapOnce(x: int)
    ensures MIN - MODULUS <= x < MIN ==> Wrap(x) == x + MODULUS
    ensures MAX < x <= MAX + MODULUS ==> Wrap(x) == x - MODULUS
  {
  }

  /** The 32-bit integer with the same low 32 bits. */
  lemma Wrap32Exact(x: int)
    ensures -0x8000_0000 <= Wrap32(x) <= 0x7fff_ffff
    ensures (x - Wrap32(x)) % 0x1_0000_0000 == 0
  {
  }

  lemma WrapShape(x: int) returns (m: int)
    ensures x == Wrap(x) + m * MODULUS
  {
    m := (x - MIN) / MODULUS;
  }
}
