/** The few facts about products, quotients, remainders and powers that the other modules need. */
module Arith {

  lemma MulLess(a: int, b: int, m: nat)
    requires a < b
    ensures a * m + m <= b * m
  {
    assert b * m == a * m + (b - a) * m;
    assert (b - a) * m == m + (b - a - 1) * m;
  }

  lemma MulMono(a: int, b: int, m: nat)
    requires a <= b
    ensures a * m <= b * m
  {
    if a < b {
      MulLess(a, b, m);
    }
  }

  /** A quotient and a remainder are determined by their defining equation. */
  lemma DivUnique(x: int, m: nat, q: int, r: int)
    requires 0 <= r < m && x == q * m + r
    ensures x / m == q && x % m == r
  {
    var q', r' := x / m, x % m;
    assert x == q' * m + r';
    if q' < q {
      MulLess(q', q, m);
    } else if q < q' {
      MulLess(q, q', m);
    }
  }

  function Pow(x: nat, n: nat): (r: nat) {
    if n == 0 then 1 else x * Pow(x, n - 1)
  }

  lemma {:induction false} PowPositive(x: nat, n: nat)
    requires x > 0
    ensures Pow(x, n) > 0
  {
    if n > 0 {
      PowPositive(x, n - 1);
    }
  }

  lemma {:induction false} PowAdd(x: nat, m: nat, n: nat)
    ensures Pow(x, m + n) == Pow(x, m) * Pow(x, n)
  {
    if m > 0 {
      PowAdd(x, m - 1, n);
      PowStep(x, m);
      PowStep(x, m + n);
      assert m + n - 1 == m - 1 + n;
      Associate(x, Pow(x, m - 1), Pow(x, n));
    } else {
      assert Pow(x, 0) == 1;
    }
  }

  lemma PowStep(x: nat, n: nat)
    requires n > 0
    ensures Pow(x, n) == x * Pow(x, n - 1)
  {
  }

  lemma Associate(a: int, b: int, c: int)
    ensures a * (b * c) == a * b * c
  {
  }
}
