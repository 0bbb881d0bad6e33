/**
 * BigDecimal arithmetic at scale 2, as the services use it.
 *
 * Every amount is held as a whole number of hundredths (cents): 200.50 is 20050.
 * A percentage is also at scale 2 and held in hundredths of a percent: 40.10% is 4010.
 * Additions and subtractions are exact on these integers; the only rounding step is
 * `divide(divisor, 2, RoundingMode.HALF_UP)`, which DivHalfUp models.
 */
module Money {

  function Abs(x: int): nat { if x < 0 then -x else x }

  /** Multiplying by a natural keeps the order of two whole numbers. */
  lemma MulMonotone(x: int, y: int, k: nat)
    requires x <= y
    ensures x * k <= y * k
  {
  }

  /** A positive factor can be cancelled from both sides of an inequality. */
  lemma CancelPositive(a: int, b: int, t: int)
    requires t > 0 && a * t <= b * t
    ensures a <= b
  {
    if a > b {
      assert (b + 1) * t == b * t + t;
      MulMonotone(b + 1, a, t);
    }
  }

  /** Floor division of 2a + b by 2b: a / b rounded half-up, for naturals. */
  function HalfUpNat(a: nat, b: nat): (m: nat)
    requires b > 0
    ensures 2 * a - b < 2 * m * b <= 2 * a + b
  {
    var q, rem := (2 * a + b) / (2 * b), (2 * a + b) % (2 * b);
    assert 2 * a + b == q * (2 * b) + rem && 0 <= rem < 2 * b;
    assert q * (2 * b) == 2 * q * b;
    q
  }

  /** Two naturals that both round a / b half-up are the same natural. */
  lemma HalfUpUniqueNat(a: nat, b: nat, m: nat, m': nat)
    requires b > 0
    requires 2 * a - b < 2 * m * b <= 2 * a + b
    requires 2 * a - b < 2 * m' * b <= 2 * a + b
    ensures m == m'
  {
    if m < m' {
      MulMonotone(m + 1, m', 2 * b);
      assert false;
    } else if m' < m {
      MulMonotone(m' + 1, m, 2 * b);
      assert false;
    }
  }

  /**
   * n / d rounded to a whole number with RoundingMode.HALF_UP: to the nearest
   * whole number, and a tie away from zero. The two ensures clauses pin the
   * result down completely (see DivHalfUpUnique).
   */
  function DivHalfUp(n: int, d: int): (r: int)
    requires d != 0
    ensures 2 * Abs(n) - Abs(d) < 2 * Abs(r) * Abs(d) <= 2 * Abs(n) + Abs(d)
    ensures ((0 <= n && 0 < d) || (n <= 0 && d < 0)) ==> r >= 0
    ensures ((n <= 0 && 0 < d) || (0 <= n && d < 0)) ==> r <= 0
  {
    var m: int := HalfUpNat(Abs(n), Abs(d));
    if (n < 0) == (d < 0) then m else -m
  }

  /** Any whole number that rounds n / d half-up and has the quotient's sign is DivHalfUp(n, d). */
  lemma DivHalfUpUnique(n: int, d: int, r: int)
    requires d != 0
    requires 2 * Abs(n) - Abs(d) < 2 * Abs(r) * Abs(d) <= 2 * Abs(n) + Abs(d)
    requires ((0 <= n && 0 < d) || (n <= 0 && d < 0)) ==> r >= 0
    requires ((n <= 0 && 0 < d) || (0 <= n && d < 0)) ==> r <= 0
    ensures r == DivHalfUp(n, d)
  {
    var q := DivHalfUp(n, d);
    HalfUpUniqueNat(Abs(n), Abs(d), Abs(r), Abs(q));
    if Abs(r) != 0 {
      MulMonotone(1, Abs(r), 2 * Abs(d));
      assert n != 0;
    }
  }

  /** A quotient that is already whole is returned unchanged. */
  lemma DivHalfUpExact(k: int, d: int)
    requires d != 0
    ensures DivHalfUp(k * d, d) == k
  {
    assert Abs(k * d) == Abs(k) * Abs(d) by {
      if k < 0 && d < 0 {
        assert k * d == (-k) * (-d);
      } else if k < 0 {
        assert -(k * d) == (-k) * d;
      } else if d < 0 {
        assert -(k * d) == k * (-d);
      }
    }
    assert 2 * Abs(k) * Abs(d) == 2 * Abs(k * d);
    if k > 0 && d < 0 {
      assert k * d < 0 by { MulMonotone(d, -1, k); }
    }
    DivHalfUpUnique(k * d, d, k);
  }

  /** Rounding half-up with a positive divisor never decreases as the dividend grows. */
  lemma DivHalfUpMonotone(n1: int, n2: int, d: int)
    requires 0 <= n1 <= n2 && 0 < d
    ensures DivHalfUp(n1, d) <= DivHalfUp(n2, d)
  {
    var r1, r2 := DivHalfUp(n1, d), DivHalfUp(n2, d);
    if r1 > r2 {
      MulMonotone(r2 + 1, r1, 2 * d);
      assert false;
    }
  }

  /** `part * 100 / whole` at scale 2, HALF_UP, in hundredths of a percent. */
  function Percent(part: int, whole: int): (p: int)
    requires whole != 0
    ensures 2 * Abs(part * 10000) - Abs(whole) < 2 * Abs(p) * Abs(whole) <= 2 * Abs(part * 10000) + Abs(whole)
    ensures ((0 <= part && 0 < whole) || (part <= 0 && whole < 0)) ==> p >= 0
    ensures ((part <= 0 && 0 < whole) || (0 <= part && whole < 0)) ==> p <= 0
  {
    DivHalfUp(part * 10000, whole)
  }
}
