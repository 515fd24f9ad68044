/** Division with a variable divisor. */
module Arith {

  lemma MulMono(x: nat, y: nat, z: nat)
    requires x <= y
    ensures x * z <= y * z
  {
  }

  lemma Distribute(x: int, y: int, z: int)
    ensures (x + y) * z == x * z + y * z
  {
  }

  /** Quotient and remainder are what they are claimed to be. */
  lemma DivModUnique(n: nat, d: nat, q: nat, r: nat)
    requires 0 < d && n == q * d + r && r < d
    ensures n / d == q && n % d == r
  {
    var q', r' := n / d, n % d;
    assert n == q' * d + r';
    if q < q' {
      MulMono(q + 1, q', d);
      Distribute(q, 1, d);
      assert false;
    } else if q' < q {
      MulMono(q' + 1, q, d);
      Distribute(q', 1, d);
      assert false;
    }
  }

  lemma DivMod(n: nat, d: nat)
    requires 0 < d
    ensures n == n / d * d + n % d && n % d < d
  {
  }

  lemma MultipleMod(q: nat, d: nat)
    requires 0 < d
    ensures q * d % d == 0 && q * d / d == q
  {
    DivModUnique(q * d, d, q, 0);
  }

  /** A multiple of an even number is even. */
  lemma EvenMultiple(n: nat, d: nat)
    requires 0 < d && d % 2 == 0 && n % d == 0
    ensures n % 2 == 0
  {
    var q, h := n / d, d / 2;
    assert n == q * d && d == h * 2;
    assert q * (h * 2) == (q * h) * 2 by { MulAssoc(q, h, 2); }
    DivModUnique(n, 2, q * h, 0);
  }

  lemma MulAssoc(x: nat, y: nat, z: nat)
    ensures x * (y * z) == (x * y) * z
  {
  }

  lemma ModShift(y: nat, m: nat, d: nat)
    requires 0 < d
    ensures (y + m * d) % d == y % d
  {
    var q, r := y / d, y % d;
    assert y == q * d + r;
    Distribute(q, m, d);
    DivModUnique(y + m * d, d, q + m, r);
  }
}
