/** The key exchange: powers of five modulo 2^64 - 59, in 64-bit arithmetic. */
module DiffieHellman {

  import opened Options
  import opened Arith

  const WORD: nat := 0x1_0000_0000_0000_0000
  const P: nat := 0xffff_ffff_ffff_ffc5
  const G: nat := 5

  function U64(x: int): (r: nat)
    ensures r < 0x1_0000_0000_0000_0000
  {
    x % WORD
  }

  // ---------------------------------------------------------------------------------------------
  // Arithmetic modulo p
  // ---------------------------------------------------------------------------------------------

  lemma ModAdd(x: int, k: int, p: nat)
    requires p > 0
    ensures (x + k * p) % p == x % p
  {
    var q, r := x / p, x % p;
    assert x == q * p + r;
    assert x + k * p == (q + k) * p + r;
    DivUnique(x + k * p, p, q + k, r);
  }

  lemma ModMul(x: nat, y: nat, p: nat)
    requires p > 0
    ensures (x % p) * (y % p) % p == x * y % p
  {
    var a, b, c, d := x / p, x % p, y / p, y % p;
    assert x == a * p + b && y == c * p + d;
    Expand(a, b, c, d, p);
    ModAdd(b * d, a * c * p + a * d + b * c, p);
  }

  lemma Expand(a: int, b: int, c: int, d: int, p: int)
    ensures (a * p + b) * (c * p + d) == b * d + (a * c * p + a * d + b * c) * p
  {
    calc {
      (a * p + b) * (c * p + d);
      a * p * (c * p) + a * p * d + b * (c * p) + b * d;
      { assert a * p * (c * p) == a * c * p * p; assert a * p * d == a * d * p; assert b * (c * p) == b * c * p; }
      b * d + (a * c * p + a * d + b * c) * p;
    }
  }

  lemma ModMulLeft(x: nat, y: nat, p: nat)
    requires p > 0
    ensures (x % p) * y % p == x * y % p
  {
    ModMul(x % p, y, p);
    ModMul(x, y, p);
    assert x % p % p == x % p by {
      DivUnique(x % p, p, 0, x % p);
    }
  }

  lemma {:induction false} PowMod(x: nat, n: nat, p: nat)
    requires p > 0
    ensures Pow(x % p, n) % p == Pow(x, n) % p
  {
    if n > 0 {
      PowMod(x, n - 1, p);
      ModMul(x % p, Pow(x % p, n - 1), p);
      ModMul(x, Pow(x, n - 1), p);
      assert x % p % p == x % p by {
        DivUnique(x % p, p, 0, x % p);
      }
    }
  }

  lemma {:induction false} PowPow(x: nat, m: nat, n: nat)
    ensures Pow(Pow(x, m), n) == Pow(x, m * n)
  {
    if n > 0 {
      PowPow(x, m, n - 1);
      PowAdd(x, m, m * (n - 1));
      assert m * n == m + m * (n - 1);
    } else {
      assert m * n == 0;
    }
  }

  lemma Shuffle(x: int, y: int, a: int, b: int)
    ensures x * y * (a * b) == x * a * (y * b)
  {
    calc {
      x * y * (a * b);
      x * (y * (a * b));
      { assert y * (a * b) == a * (y * b); }
      x * (a * (y * b));
      x * a * (y * b);
    }
  }

  lemma {:induction false} PowProduct(x: nat, y: nat, n: nat)
    ensures Pow(x * y, n) == Pow(x, n) * Pow(y, n)
  {
    if n > 0 {
      PowProduct(x, y, n - 1);
      Shuffle(x, y, Pow(x, n - 1), Pow(y, n - 1));
    }
  }

  // ---------------------------------------------------------------------------------------------
  // The code
  // ---------------------------------------------------------------------------------------------

  /** One bit of the multiplier. */
  lemma MulStep(m: int, a: int, b: int, p: nat, c: int, d: int)
    requires p > 0
    ensures ((m + b % 2 * a - c * p) + (2 * a - d * p) * (b / 2)) % p == (m + a * b) % p
  {
    var h := b / 2;
    assert b == 2 * h + b % 2;
    assert (2 * a - d * p) * h == 2 * a * h - d * h * p;
    assert a * b == 2 * a * h + b % 2 * a by {
      assert a * (2 * h + b % 2) == 2 * a * h + a * (b % 2);
    }
    assert (m + b % 2 * a - c * p) + (2 * a - d * p) * h == (m + a * b) + (-c - d * h) * p;
    ModAdd(m + a * b, -c - d * h, p);
  }

  /** `mul_mod_p`. Nothing overflows 64 bits but the doubling, where the wrapped result is the right one. */
  method MulModP(a0: nat, b0: nat) returns (m: nat)
    requires a0 <= P && b0 < WORD
    ensures m == a0 * b0 % P
  {
    m := 0;
    var a, b := a0, b0;
    while b != 0
      invariant 0 <= m < P && 0 <= a <= P && 0 <= b < WORD
      invariant (m + a * b) % P == a0 * b0 % P
      decreases b
    {
      ghost var m0, a1, c, d := m, a, 0, 0;
      if b % 2 == 1 {
        var t := P - a;
        if m >= t {
          m := m - t;
          c := 1;
        } else {
          m := m + a;
        }
      }
      if a >= P - a {
        Doubling(a);
        a := U64(U64(a * 2) - P);
        d := 1;
      } else {
        a := a * 2;
      }
      MulStep(m0, a1, b, P, c, d);
      assert m == m0 + b % 2 * a1 - c * P && a == 2 * a1 - d * P;
      b := b / 2;
    }
    DivUnique(m, P, 0, m);
  }

  lemma Doubling(a: nat)
    requires P - a <= a <= P
    ensures U64(U64(a * 2) - P) == 2 * a - P <= P
  {
    if 2 * a >= WORD {
      DivUnique(a * 2, WORD, 1, 2 * a - WORD);
      DivUnique(2 * a - WORD - P, WORD, -1, 2 * a - P);
    } else {
      DivUnique(a * 2, WORD, 0, 2 * a);
      DivUnique(2 * a - P, WORD, 0, 2 * a - P);
    }
  }

  lemma SquareStep(a: nat, b: nat, t: nat, p: nat)
    requires p > 0 && b > 0 && t % p == Pow(a, b / 2) % p
    ensures b % 2 == 0 ==> t * t % p == Pow(a, b) % p
    ensures b % 2 == 1 ==> (t * t % p) * a % p == Pow(a, b) % p
  {
    hide Pow;
    Squared(a, b / 2, t, p);
    if b % 2 == 1 {
      OneMore(a, b / 2, t * t, p);
    }
  }

  lemma Squared(a: nat, h: nat, t: nat, p: nat)
    requires p > 0 && t % p == Pow(a, h) % p
    ensures t * t % p == Pow(a, 2 * h) % p
  {
    hide Pow;
    ModMul(t, t, p);
    ModMul(Pow(a, h), Pow(a, h), p);
    PowAdd(a, h, h);
  }

  lemma OneMore(a: nat, h: nat, s: nat, p: nat)
    requires p > 0 && s % p == Pow(a, 2 * h) % p
    ensures (s % p) * a % p == Pow(a, 2 * h + 1) % p
  {
    NextPow(a, 2 * h);
    ModMulLeft(Pow(a, 2 * h), a, p);
  }

  lemma NextPow(a: nat, n: nat)
    ensures Pow(a, n + 1) == Pow(a, n) * a
  {
  }

  /** `pow_mod_p`, which leaves its base alone when the exponent is one. */
  method PowModP(a: nat, b: nat) returns (r: nat)
    requires a <= P && 1 <= b < WORD
    ensures r <= P && r % P == Pow(a, b) % P && (r == P <==> a == P && b == 1)
    decreases b
  {
    if b == 1 {
      assert Pow(a, 1) == a;
      return a;
    }
    var t := PowModP(a, b / 2);
    SquareStep(a, b, t, P);
    t := MulModP(t, t);
    if b % 2 == 1 {
      t := MulModP(t, a);
    }
    r := t;
    DivUnique(r, P, 0, r);
  }

  /** `powmodp`: the power, except that the modulus itself to the first power is not reduced. */
  method PowerMod(a: nat, b: nat) returns (r: nat)
    requires a < WORD && 1 <= b < WORD
    ensures r == Pow(a, b) % P <==> !(a == P && b == 1)
    ensures a != P ==> r < P
  {
    PowMod(a, b, P);
    r := PowModP(if a > P then a % P else a, b);
    if r < P {
      DivUnique(r, P, 0, r);
    }
  }

  // ---------------------------------------------------------------------------------------------
  // The exchange
  // ---------------------------------------------------------------------------------------------

  /** Either side raises what it received to its own secret; both get the same. */
  lemma Agreement(x: nat, y: nat, p: nat)
    requires p > 0
    ensures Pow(Pow(5, x) % p, y) % p == Pow(Pow(5, y) % p, x) % p
  {
    PowMod(Pow(G, x), y, p);
    PowMod(Pow(G, y), x, p);
    PowPow(G, x, y);
    PowPow(G, y, x);
    assert x * y == y * x;
  }

  /** Five has an inverse modulo `P`. */
  const INVERSE: nat := 7378697629483820623

  lemma {:induction false} OnePow(n: nat)
    ensures Pow(1, n) == 1
  {
    if n > 0 {
      OnePow(n - 1);
    }
  }

  /** So no power of it is zero, and what is exchanged is accepted by the other side. */
  lemma ExchangeNonzero(x: nat)
    ensures 0 < Pow(5, x) % P < P
  {
    assert G * INVERSE == 2 * P + 1;
    assert (G * INVERSE) % P == 1 by {
      DivUnique(G * INVERSE, P, 2, 1);
    }
    PowMod(G * INVERSE, x, P);
    OnePow(x);
    PowProduct(G, INVERSE, x);
    ModMul(Pow(G, x), Pow(INVERSE, x), P);
    DivUnique(1, P, 0, 1);
    if Pow(G, x) % P == 0 {
      ZeroProduct(Pow(INVERSE, x) % P, P);
    }
  }

  lemma ZeroProduct(y: nat, p: nat)
    requires p > 0
    ensures 0 * y % p == 0
  {
    DivUnique(0, p, 0, 0);
  }

  /** `ldhexchange`: the public value of a secret; zero is refused. */
  method DhExchange(x: nat) returns (r: Option<nat>)
    requires x < 0x1_0000_0000_0000_0000
    ensures r == if x == 0 then None else Some(Pow(5, x) % 18446744073709551557)
  {
    if x == 0 {
      return None;
    }
    var v := PowerMod(G, x);
    r := Some(v);
  }

  /** `ldhsecret`: what a party makes of the value it received; zeros are refused. */
  method DhSecret(v: nat, x: nat) returns (r: Option<nat>)
    requires v < 0x1_0000_0000_0000_0000 && x < 0x1_0000_0000_0000_0000
    ensures r.None? <==> v == 0 || x == 0
    ensures r.Some? ==> (r.value == Pow(v, x) % 18446744073709551557 <==> !(v == 18446744073709551557 && x == 1))
  {
    if v == 0 || x == 0 {
      return None;
    }
    var s := PowerMod(v, x);
    r := Some(s);
  }

  /** Two parties with any non-zero secrets: neither call is refused, and they end with the same secret. */
  method Exchange(x: nat, y: nat) returns (atX: Option<nat>, atY: Option<nat>)
    requires 0 < x < 0x1_0000_0000_0000_0000 && 0 < y < 0x1_0000_0000_0000_0000
    ensures atX == atY == Some(Pow(5, x * y) % 18446744073709551557)
  {
    var fromX := DhExchange(x);
    var fromY := DhExchange(y);
    ExchangeNonzero(x);
    ExchangeNonzero(y);
    atX := DhSecret(fromY.value, x);
    atY := DhSecret(fromX.value, y);
    Agreement(x, y, P);
    PowMod(Pow(G, x), y, P);
    PowPow(G, x, y);
  }
}
