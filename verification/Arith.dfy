/** Powers of two, and division and modulo by a divisor the solver does not know. */
module Arith {

  function Pow2(k: nat): (p: nat)
    ensures p >= 1
  {
    if k == 0 then 1 else 2 * Pow2(k - 1)
  }

  lemma {:induction false} Pow2Mono(a: nat, b: nat)
    requires a <= b
    ensures Pow2(a) <= Pow2(b)
    ensures a < b ==> 2 * Pow2(a) <= Pow2(b)
  {
    if a < b {
      Pow2Mono(a, b - 1);
    }
  }

  lemma MulLe(a: nat, b: nat, d: nat)
    requires a <= b
    ensures a * d <= b * d
  {
    assert (b - a) * d >= 0;
    assert (b - a) * d == b * d - a * d;
  }

  /** Multiples of d that differ by less than d are equal. */
  lemma QuotientLe(a: nat, b: nat, d: nat, r: nat)
    requires r < d
    requires a * d <= b * d + r
    ensures a <= b
  {
    assert (a - b) * d <= r by {
      assert (a - b) * d == a * d - b * d;
    }
    assert a - b >= 1 ==> (a - b) * d >= d;
  }

  /** A quotient and a remainder in range are the quotient and the remainder. */
  lemma DivModUnique(x: nat, d: nat, q: nat, r: nat)
    requires r < d
    requires x == q * d + r
    ensures x / d == q && x % d == r
  {
    assert x == (x / d) * d + x % d;
    QuotientLe(q, x / d, d, x % d);
    QuotientLe(x / d, q, d, r);
  }

  lemma DivModDef(x: nat, d: nat)
    requires d > 0
    ensures x == (x / d) * d + x % d
    ensures x % d < d
  {
  }

  /** Halving a quotient is dividing by the doubled divisor. */
  lemma DivTwice(x: nat, d: nat)
    requires d > 0
    ensures (x / d) / 2 == x / (2 * d)
    ensures x % (2 * d) == ((x / d) % 2) * d + x % d
    ensures (x / (2 * d)) * (2 * d) == (x / d / 2 * 2) * d
  {
    DivModDef(x, d);
    var q := x / d;
    var h, b := q / 2, q % 2;
    assert q * d == (2 * h + b) * d == h * (2 * d) + b * d;
    assert b * d <= d by { MulLe(b, 1, d); }
    DivModUnique(x, 2 * d, h, b * d + x % d);
    assert h * (2 * d) == (h * 2) * d;
  }

  /** Modulo on a sum of two residues is at most one subtraction. */
  lemma WrapOnce(s: nat, n: nat)
    requires n > 0 && s < 2 * n
    ensures s % n == if s < n then s else s - n
  {
    if s < n {
      DivModUnique(s, n, 0, s);
    } else {
      DivModUnique(s, n, 1, s - n);
    }
  }

  lemma {:induction false} Pow2Product(a: nat, b: nat)
    ensures Pow2(a + b) == Pow2(a) * Pow2(b)
  {
    if a == 0 {
    } else {
      Pow2Product(a - 1, b);
      assert Pow2(a) * Pow2(b) == 2 * (Pow2(a - 1) * Pow2(b));
    }
  }
}
