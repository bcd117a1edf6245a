/** Bitwise and on the naturals, and the three uses the source makes of it: the power-of-two test,
    masking by capacity - 1, and testing a single flag bit. */
module Bits {
  import opened Arith

  function And(a: nat, b: nat): nat {
    if a == 0 || b == 0 then 0
    else 2 * And(a / 2, b / 2) + (a % 2) * (b % 2)
  }

  lemma {:induction false} AndSelf(a: nat)
    ensures And(a, a) == a
  {
    if a == 0 {
    } else {
      AndSelf(a / 2);
    }
  }

  /** n & (n - 1) is zero exactly for the powers of two. */
  lemma {:induction false} PowerOfTwoTest(n: nat, k: nat)
    requires Pow2(k) <= n < 2 * Pow2(k)
    ensures And(n, n - 1) == 0 <==> n == Pow2(k)
    decreases k
  {
    if k == 0 {
    } else if n % 2 == 0 {
      assert (n - 1) / 2 == n / 2 - 1;
      PowerOfTwoTest(n / 2, k - 1);
    } else {
      assert (n - 1) / 2 == n / 2;
      AndSelf(n / 2);
    }
  }

  lemma ModDouble(a: nat, d: nat)
    requires d > 0
    ensures a % (2 * d) == 2 * ((a / 2) % d) + a % 2
  {
    var h, bit := a / 2, a % 2;
    DivModDef(h, d);
    Halves(a, h, bit, h / d, h % d, d);
  }

  lemma Halves(a: nat, h: nat, bit: nat, q: nat, r: nat, d: nat)
    requires a == 2 * h + bit && bit < 2 && h == q * d + r && r < d
    ensures a % (2 * d) == 2 * r + bit
  {
    assert q * (2 * d) == 2 * (q * d);
    DivModUnique(a, 2 * d, q, 2 * r + bit);
  }

  /** Masking by a power of two less one is taking the remainder. */
  lemma {:induction false} MaskIsModulo(a: nat, k: nat)
    ensures And(a, Pow2(k) - 1) == a % Pow2(k)
    decreases k
  {
    if k > 0 && a > 0 {
      var d := Pow2(k - 1);
      MaskIsModulo(a / 2, k - 1);
      assert (Pow2(k) - 1) / 2 == d - 1;
      ModDouble(a, d);
    } else if a == 0 {
      DivModUnique(0, Pow2(k), 0, 0);
    }
  }

  /** A number below 2^k has bit k clear; adding 2^k sets it. */
  lemma {:induction false} BitOf(x: nat, k: nat)
    requires x < Pow2(k)
    ensures And(x, Pow2(k)) == 0 && And(x + Pow2(k), Pow2(k)) == Pow2(k)
    decreases k
  {
    if k > 0 {
      var h := Pow2(k - 1);
      BitOf(x / 2, k - 1);
      assert Pow2(k) / 2 == h && Pow2(k) % 2 == 0 && (x + Pow2(k)) / 2 == x / 2 + h;
    } else {
      assert And(1, 1) == 1;
    }
  }
}
