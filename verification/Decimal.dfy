/** Decimal digits of a quotient of two big numbers, correctly rounded. */
module Decimal {

  import opened Arith
  import opened Bignum

  // ---------------------------------------------------------------------------------------------
  // One digit
  // ---------------------------------------------------------------------------------------------

  function TopDigit(t: nat, s: nat): nat {
    t / (s + 1)
  }

  /** The leading words give the quotient, or one less: `t` tops the dividend and `s` the divisor, both of weight `w`. */
  lemma Estimate(bv: nat, sv: nat, t: nat, s: nat, w: nat, q: nat)
    requires t * w <= bv < (t + 1) * w && s * w <= sv < (s + 1) * w && w > 0
    requires 0x800_0000 <= s && t < BASE
    requires q == TopDigit(t, s)
    ensures q < BASE && q * sv <= bv < (q + 2) * sv
  {
    hide TopDigit;
    TopDigitIs(t, s);
    NotAbove(bv, sv, t, s, w, q);
    NotFarBelow(bv, sv, t, s, w, q);
  }

  lemma TopDigitIs(t: nat, s: nat)
    requires 0x800_0000 <= s && t < BASE
    ensures var q := TopDigit(t, s); q * (s + 1) <= t < (q + 1) * (s + 1) && q < s
  {
    var q := TopDigit(t, s);
    assert t == q * (s + 1) + t % (s + 1);
    assert (q + 1) * (s + 1) == q * (s + 1) + (s + 1);
    MulMono(0x800_0000, s, s + 1);
    LessFactor(q, s, s + 1);
  }

  lemma NotAbove(bv: nat, sv: nat, t: nat, s: nat, w: nat, q: nat)
    requires t * w <= bv && sv < (s + 1) * w && q * (s + 1) <= t
    ensures q * sv <= bv
  {
    MulMono(sv, (s + 1) * w, q);
    MulMono(q * (s + 1), t, w);
    Reassociate(q, s + 1, w);
  }

  lemma NotFarBelow(bv: nat, sv: nat, t: nat, s: nat, w: nat, q: nat)
    requires bv < (t + 1) * w && s * w <= sv && t < (q + 1) * (s + 1) && q < s
    ensures bv < (q + 2) * sv
  {
    Upper(t, q, s);
    MulMono(t + 1, (q + 2) * s, w);
    MulMono(s * w, sv, q + 2);
    Reassociate(q + 2, s, w);
  }

  lemma LessFactor(a: nat, b: nat, m: nat)
    requires a * m < b * m
    ensures a < b
  {
    if a >= b {
      MulMono(b, a, m);
    }
  }

  lemma Upper(t: nat, q: nat, s: nat)
    requires t < (q + 1) * (s + 1) && q + 1 <= s
    ensures t + 1 <= (q + 2) * s
  {
    assert (q + 1) * (s + 1) == (q + 1) * s + (q + 1);
    assert (q + 2) * s == (q + 1) * s + s;
  }

  lemma Reassociate(a: int, b: int, c: int)
    ensures a * b * c == a * (b * c)
    ensures (b * c) * a == a * b * c
  {
  }

  lemma SubArith(v: int, vb: int, vs: int, q: int, carry: int, borrow: int, w: int,
                 b: int, s: int, ys: int, lo: int, c: int, carry': int, borrow': int, base: int)
    requires v == vb - q * vs + (carry + borrow) * w
    requires ys == s * q + carry && ys == lo + carry' * base && c == b - lo - borrow + borrow' * base
    ensures v + c * w == (vb + b * w) - q * (vs + s * w) + (carry' + borrow') * (base * w)
  {
    assert c == b - s * q - carry - borrow + (carry' + borrow') * base;
    calc {
      v + c * w;
      vb - q * vs + (carry + borrow) * w + (b - s * q - carry - borrow + (carry' + borrow') * base) * w;
      vb - q * vs + b * w - s * q * w + (carry' + borrow') * base * w;
      { assert s * q * w == q * (s * w); }
      vb - q * vs + b * w - q * (s * w) + (carry' + borrow') * (base * w);
      (vb + b * w) - q * (vs + s * w) + (carry' + borrow') * (base * w);
    }
  }

  /** `q` times the words of `sx` below `i` have been taken off. */
  ghost predicate SubDone(x: seq<nat>, x0: seq<nat>, sx: seq<nat>, i: nat, q: nat, carry: nat, borrow: nat) {
    && i <= |x| == |x0| && i <= |sx| && x[i..] == x0[i..] && Words(x[..i]) && carry < BASE && borrow <= 1
    && Val(x[..i]) == Val(x0[..i]) - q * Val(sx[..i]) + (carry + borrow) * Weight(i)
  }

  lemma SubStep(x: seq<nat>, x0: seq<nat>, sx: seq<nat>, i: nat, q: nat, carry: nat, borrow: nat)
    requires SubDone(x, x0, sx, i, q, carry, borrow) && i < |x| && i < |sx| && x0[i] < BASE && sx[i] < BASE && q < BASE
    ensures var ys := sx[i] * q + carry;
            var y := (x[i] - ys % BASE - borrow) % WIDE;
            ys < BASE * BASE && SubDone(x[i := y % BASE], x0, sx, i + 1, q, ys / BASE, y / BASE % 2)
  {
    hide Val, Weight;
    var ys := sx[i] * q + carry;
    MulAddFits(sx[i], q, carry);
    assert x[i] == x[i..][0] == x0[i..][0] == x0[i];
    var d := x[i] - ys % BASE - borrow;
    WrapBorrow(d);
    var y := d % WIDE;
    var x' := x[i := y % BASE];
    ValNext(x', i);
    ValNext(x0, i);
    ValNext(sx, i);
    WeightNext(i);
    assert x'[..i] == x[..i];
    assert x'[i + 1..] == x0[i + 1..] by {
      assert x[i..][1..] == x[i + 1..] && x0[i..][1..] == x0[i + 1..];
    }
    SubArith(Val(x[..i]), Val(x0[..i]), Val(sx[..i]), q, carry, borrow, Weight(i),
             x[i], sx[i], ys, ys % BASE, y % BASE, ys / BASE, y / BASE % 2, BASE);
  }

  lemma SubStart(x: seq<nat>, sx: seq<nat>, q: nat)
    ensures SubDone(x, x, sx, 0, q, 0, 0)
  {
    assert x[..0] == [] && sx[..0] == [];
  }

  lemma SubEnd(x: seq<nat>, x0: seq<nat>, sx: seq<nat>, n: nat, q: nat, carry: nat, borrow: nat)
    requires SubDone(x, x0, sx, n, q, carry, borrow) && q * Val(sx[..n]) <= Val(x0[..n])
    ensures Words(x[..n]) && Val(x[..n]) == Val(x0[..n]) - q * Val(sx[..n])
  {
    hide Val, Weight;
    ValBound(x[..n]);
    if carry + borrow > 0 {
      MulMono(1, carry + borrow, Weight(n));
    }
  }

  /** Takes `q` times the divisor off the dividend, in 64-bit arithmetic that wraps around. */
  method SubMul(x: array<nat>, sx: array<nat>, n: nat, q: nat)
    requires x != sx && n <= x.Length && n <= sx.Length && q < BASE
    requires Words(x[..n]) && Words(sx[..n]) && q * Val(sx[..n]) <= Val(x[..n])
    modifies x
    ensures Words(x[..n]) && Val(x[..n]) == old(Val(x[..n])) - q * Val(sx[..n])
  {
    hide Val, Weight, SubDone;
    ghost var x0, s := x[..], sx[..];
    assert x0[..n] == x[..n] && s[..n] == sx[..n];
    var i, carry: nat, borrow: nat := 0, 0, 0;
    SubStart(x0, s, q);
    while i < n
      invariant 0 <= i <= n && SubDone(x[..], x0, s, i, q, carry, borrow) && sx[..] == s
    {
      assert x0[i] == x0[..n][i] && s[i] == s[..n][i];
      SubStep(x[..], x0, s, i, q, carry, borrow);
      var ys := sx[i] * q + carry;
      carry := ys / BASE;
      var y := (x[i] - ys % BASE - borrow) % WIDE;
      borrow := y / BASE % 2;
      x[i] := y % BASE;
      i := i + 1;
    }
    SubEnd(x[..], x0, s, n, q, carry, borrow);
    assert x[..][..n] == x[..n];
  }

  /** Shortens `b` by the zero words on top, when there are any. The word `n` was its top one. */
  method DropTop(b: Bigint, n: nat)
    requires b.Shape() && b.wds == n + 1
    modifies b`wds
    ensures b.Normal() && b.Value() == old(b.Value()) && b.wds <= n + 1
  {
    hide Val, Pow;
    if b.x[n] == 0 {
      var m, j := n, n - 1;
      while j > 0 && b.x[j] == 0
        invariant j == m - 1 && -1 <= j && 0 <= m <= n && (n > 0 ==> j >= 0)
        invariant forall t :: m <= t <= n ==> b.x[t] == 0
      {
        m, j := m - 1, j - 1;
      }
      ValTrim(b.x[..n + 1], m);
      assert b.x[..n + 1][..m] == b.x[..m];
      b.wds := m;
    }
  }

  ghost predicate Divisor(s: Bigint)
    reads s, s.x
  {
    s.Normal() && s.wds > 0 && 0x800_0000 <= s.x[s.wds - 1] < BASE - 1
  }

  /** `quorem`: the quotient; the dividend is left holding the remainder. */
  method QuoRem(b: Bigint, s: Bigint) returns (q: nat)
    requires b.Normal() && Divisor(s) && b != s && b.x != s.x && b.wds <= s.wds
    modifies b`wds, b.x
    ensures b.Normal() && s.Value() == old(s.Value()) && s.Value() > 0 && b.wds <= s.wds
    ensures q == old(b.Value()) / s.Value() && b.Value() == old(b.Value()) % s.Value()
  {
    hide Val, Pow, Words, Left;
    ghost var bv, sv := b.Value(), s.Value();
    WordsOf(b.x[..b.wds]);
    WordsOf(s.x[..s.wds]);
    var n := s.wds;
    if b.wds < n {
      DividendShort(b.x[..b.wds], s.x[..s.wds]);
      return 0;
    }
    n := n - 1;
    q := QuoTop(b, s, n);
    var c := Cmp(b, s);
    if c >= 0 {
      NotShorterEq(b, s);
      LeftNext(bv, sv, q);
      SubTop(b, s, n, 1);
      q := q + 1;
    }
    QuotientFound(bv, sv, q);
  }

  /** What is left of `bv` when `q` times `sv` is taken off. */
  ghost function Left(bv: int, sv: int, q: int): int {
    bv - q * sv
  }

  lemma LeftNext(bv: int, sv: int, q: int)
    ensures Left(Left(bv, sv, q), sv, 1) == Left(bv, sv, q + 1) == Left(bv, sv, q) - sv
  {
  }

  lemma QuotientFound(bv: nat, sv: nat, q: nat)
    requires 0 <= Left(bv, sv, q) < sv
    ensures q == bv / sv && Left(bv, sv, q) == bv % sv
  {
    DivUnique(bv, sv, q, Left(bv, sv, q));
  }

  /** Takes off the quotient estimated from the top words, which is at most one too small. */
  method QuoTop(b: Bigint, s: Bigint, n: nat) returns (q: nat)
    requires b.Normal() && Divisor(s) && b != s && b.x != s.x && b.wds == s.wds == n + 1
    modifies b`wds, b.x
    ensures b.Normal() && s.Value() == old(s.Value()) && s.Value() > 0 && b.wds <= n + 1
    ensures b.Value() == Left(old(b.Value()), s.Value(), q) && b.Value() < s.Value() + s.Value()
  {
    hide Val, Pow, Words, Left, TopDigit;
    WordsOf(b.x[..n + 1]);
    WordsOf(s.x[..n + 1]);
    q := TopDigit(b.x[n], s.x[n]);
    TopQuotient(b.x[..n + 1], s.x[..n + 1], b.x[n], s.x[n], q);
    if q != 0 {
      SubTop(b, s, n, q);
    }
  }

  /** One pass over the words, and what is left trimmed. */
  method SubTop(b: Bigint, s: Bigint, n: nat, q: nat)
    requires b.Normal() && s.Normal() && b != s && b.x != s.x && b.wds == s.wds == n + 1 && q < BASE
    requires 0 <= Left(b.Value(), s.Value(), q)
    modifies b`wds, b.x
    ensures b.Normal() && b.Value() == Left(old(b.Value()), s.Value(), q) && s.Value() == old(s.Value()) && b.wds <= n + 1
  {
    hide Val, Pow, Words;
    WordsOf(b.x[..n + 1]);
    WordsOf(s.x[..n + 1]);
    SubMul(b.x, s.x, n + 1, q);
    WordsAre(b.x[..n + 1]);
    assert forall i :: 0 <= i < n + 1 ==> b.x[i] == b.x[..n + 1][i];
    DropTop(b, n);
  }

  lemma NotShorterEq(b: Bigint, s: Bigint)
    requires b.Normal() && Divisor(s) && b.Value() >= s.Value() && b.wds <= s.wds
    ensures b.wds == s.wds
  {
    if b.wds < s.wds {
      DividendShort(b.x[..b.wds], s.x[..s.wds]);
    }
  }

  lemma DividendShort(u: seq<nat>, v: seq<nat>)
    requires |u| < |v| && Words(u) && Words(v) && v[|v| - 1] != 0
    ensures Val(u) < Val(v) && Val(v) > 0 && Val(u) / Val(v) == 0 && Val(u) % Val(v) == Val(u)
  {
    hide Val;
    TopPositive(v);
    ValShorter(u, v);
    DivUnique(Val(u), Val(v), 0, Val(u));
  }

  lemma TopPositive(v: seq<nat>)
    requires Words(v) && v != [] && v[|v| - 1] != 0
    ensures Val(v) > 0
  {
    if |v| == 1 {
      ValOne(v);
    } else {
      WordsPositive(v);
    }
  }

  lemma TopQuotient(u: seq<nat>, v: seq<nat>, t: nat, s: nat, q: nat)
    requires |u| == |v| > 0 && Words(u) && Words(v) && t == u[|u| - 1] && s == v[|v| - 1] && 0x800_0000 <= s
    requires q == TopDigit(t, s)
    ensures q < BASE && 0 <= Left(Val(u), Val(v), q) < Val(v) + Val(v)
    ensures Val(v) > 0 && (q == 0 ==> Left(Val(u), Val(v), q) == Val(u))
  {
    hide Val, Weight;
    ValTop(u);
    ValTop(v);
    WeightNext(|u| - 1);
    TopPositive(v);
    Estimate(Val(u), Val(v), t, s, Weight(|u| - 1), q);
    assert (q + 2) * Val(v) == q * Val(v) + Val(v) + Val(v);
  }

  // ---------------------------------------------------------------------------------------------
  // A given number of digits
  // ---------------------------------------------------------------------------------------------

  /** The number that digits spell, the first being the most significant. */
  ghost function Dec(ds: seq<nat>): nat {
    if ds == [] then 0 else 10 * Dec(ds[..|ds| - 1]) + ds[|ds| - 1]
  }

  ghost predicate Digits(ds: seq<nat>) {
    (forall i :: 0 <= i < |ds| ==> ds[i] <= 9) && (ds != [] ==> ds[0] != 0)
  }

  /** Digits without a zero at either end. */
  ghost predicate Numeral(ds: seq<nat>) {
    ds != [] && Digits(ds) && ds[|ds| - 1] != 0
  }

  /** The quotient with `n - 1` more decimal places, rounded to the nearest integer, ties to even. */
  ghost function Rounded(bv: nat, sv: nat, n: nat): nat
    requires sv > 0 && n > 0
  {
    var p := bv * Pow(10, n - 1);
    var q, r := p / sv, p % sv;
    if 2 * r > sv || (2 * r == sv && q % 2 == 1) then q + 1 else q
  }

  lemma DecNext(ds: seq<nat>, d: nat)
    ensures Dec(ds + [d]) == 10 * Dec(ds) + d
  {
    assert (ds + [d])[..|ds|] == ds;
  }

  lemma DecLast(ds: seq<nat>)
    requires ds != []
    ensures Dec(ds) == 10 * Dec(ds[..|ds| - 1]) + ds[|ds| - 1]
  {
  }

  lemma TenTimes(v: nat, e: nat)
    ensures 10 * (v * Pow(10, e)) == v * Pow(10, e + 1)
  {
    assert Pow(10, e + 1) == 10 * Pow(10, e);
  }

  /** Adding one to the last digit; nines turn to zeros, which are dropped, and a carry out of the first digit
      leaves a one in the next place up. */
  method RoundUp(ds: seq<nat>) returns (r: seq<nat>, up: nat)
    requires ds != [] && Digits(ds)
    ensures Numeral(r) && up <= 1 && |r| <= |ds|
    ensures Dec(r) * Pow(10, |ds| - |r| + up) == Dec(ds) + 1
  {
    hide Dec, Pow;
    var j := |ds|;
    PowZero();
    assert ds[..j] == ds;
    while true
      invariant 0 < j <= |ds| && (Dec(ds[..j]) + 1) * Pow(10, |ds| - j) == Dec(ds) + 1
      decreases j
    {
      j := j - 1;
      assert ds[..j + 1][..j] == ds[..j];
      DecLast(ds[..j + 1]);
      if ds[j] != 9 {
        break;
      }
      TenTimes(Dec(ds[..j]) + 1, |ds| - j - 1);
      TenMore(Dec(ds[..j]), Pow(10, |ds| - j - 1));
      if j == 0 {
        assert ds[..0] == [];
        DecNone();
        DecNext([], 1);
        assert [] + [1] == [1];
        return [1], 1;
      }
    }
    r, up := ds[..j] + [ds[j] + 1], 0;
    DecNext(ds[..j], ds[j] + 1);
  }

  lemma TenMore(v: nat, p: nat)
    ensures (10 * v + 9 + 1) * p == 10 * ((v + 1) * p)
  {
  }

  lemma PowZero()
    ensures Pow(10, 0) == 1
  {
  }

  lemma DecNone()
    ensures Dec([]) == 0
  {
  }

  method TrimZeros(ds: seq<nat>) returns (r: seq<nat>)
    requires ds != [] && Digits(ds)
    ensures Numeral(r) && |r| <= |ds| && Dec(r) * Pow(10, |ds| - |r|) == Dec(ds)
  {
    hide Dec, Pow;
    var j := |ds|;
    PowZero();
    assert ds[..j] == ds;
    while ds[j - 1] == 0
      invariant 0 < j <= |ds| && Dec(ds[..j]) * Pow(10, |ds| - j) == Dec(ds)
      decreases j
    {
      j := j - 1;
      assert ds[..j + 1][..j] == ds[..j];
      DecLast(ds[..j + 1]);
      TenTimes(Dec(ds[..j]), |ds| - j - 1);
      Reassociate(10, Dec(ds[..j]), Pow(10, |ds| - j - 1));
    }
    r := ds[..j];
  }

  /** The digits so far, and what is left of the dividend, times ten. */
  ghost predicate Generating(bv: nat, sv: nat, ds: seq<nat>, b: nat) {
    && Digits(ds) && 0 < b < 10 * sv && (ds == [] ==> b >= sv)
    && bv * Pow(10, |ds|) == 10 * Dec(ds) * sv + b
  }

  /** The digits so far, and the remainder. */
  ghost predicate Generated(bv: nat, sv: nat, ds: seq<nat>, r: nat) {
    && ds != [] && Digits(ds) && r < sv && (r == 0 ==> ds[|ds| - 1] != 0)
    && bv * Pow(10, |ds| - 1) == Dec(ds) * sv + r
  }

  lemma DigitRange(b: nat, sv: nat, q: nat, r: nat)
    requires 0 < b < 10 * sv && q == b / sv && r == b % sv
    ensures q <= 9 && r < sv && b == q * sv + r && (b >= sv || r == 0 ==> q > 0)
  {
    assert b == q * sv + r;
    if q >= 10 {
      MulMono(10, q, sv);
    }
  }

  lemma NextDigit(bv: nat, sv: nat, ds: seq<nat>, b: nat, q: nat, r: nat)
    requires Generating(bv, sv, ds, b) && q <= 9 && r < sv && b == q * sv + r && (b >= sv || r == 0 ==> q > 0)
    ensures Generated(bv, sv, ds + [q], r)
  {
    hide Dec, Pow;
    DecNext(ds, q);
    assert (10 * Dec(ds) + q) * sv == 10 * Dec(ds) * sv + q * sv;
  }

  lemma ShiftDigit(bv: nat, sv: nat, ds: seq<nat>, r: nat)
    requires Generated(bv, sv, ds, r) && r > 0
    ensures Generating(bv, sv, ds, r * 10 + 0)
  {
    hide Dec;
    assert Pow(10, |ds|) == 10 * Pow(10, |ds| - 1);
    TimesTen(bv, Pow(10, |ds| - 1), Dec(ds), sv, r);
  }

  lemma TimesTen(bv: nat, p: nat, d: nat, sv: nat, r: nat)
    requires bv * p == d * sv + r
    ensures bv * (10 * p) == 10 * d * sv + r * 10
  {
    assert bv * (10 * p) == 10 * (bv * p);
    assert 10 * d * sv == 10 * (d * sv);
  }

  /** An exact quotient needs no rounding. */
  lemma Exact(bv: nat, sv: nat, ds: seq<nat>, n: nat)
    requires Generated(bv, sv, ds, 0) && |ds| <= n && sv > 0
    ensures Numeral(ds) && Dec(ds) * Pow(10, n - |ds|) == Rounded(bv, sv, n)
  {
    hide Dec, Pow;
    var p, e := Pow(10, |ds| - 1), Pow(10, n - |ds|);
    PowAdd(10, |ds| - 1, n - |ds|);
    assert n - 1 == |ds| - 1 + (n - |ds|);
    assert bv * (p * e) == (Dec(ds) * e) * sv by {
      Reassociate(bv, p, e);
      Reassociate(Dec(ds), e, sv);
      Reassociate(Dec(ds), sv, e);
      assert e * sv == sv * e;
    }
    DivUnique(bv * Pow(10, n - 1), sv, Dec(ds) * e, 0);
  }

  lemma Inexact(bv: nat, sv: nat, ds: seq<nat>, r: nat)
    requires Generated(bv, sv, ds, r) && sv > 0
    ensures Rounded(bv, sv, |ds|) ==
            if 2 * r > sv || (2 * r == sv && ds[|ds| - 1] % 2 == 1) then Dec(ds) + 1 else Dec(ds)
  {
    hide Dec, Pow;
    DivUnique(bv * Pow(10, |ds| - 1), sv, Dec(ds), r);
    DecLast(ds);
  }

  /** A dividend less than ten times the divisor has no more words than it. */
  lemma FitsDivisor(b: Bigint, s: Bigint)
    requires b.Normal() && Divisor(s) && s.x[s.wds - 1] < 0x1000_0000 && b.Value() < 10 * s.Value()
    ensures b.wds <= s.wds
  {
    hide Val, Weight;
    if b.wds > s.wds {
      var u, v := b.x[..b.wds], s.x[..s.wds];
      var n := |v|;
      ValTop(u);
      ValTop(v);
      WeightMono(n, |u| - 1);
      WeightNext(n - 1);
      MulMono(1, u[|u| - 1], Weight(|u| - 1));
      MulMono(v[n - 1] + 1, 0x1000_0000, Weight(n - 1));
    }
  }

  lemma IsZero(b: Bigint)
    requires b.Normal()
    ensures b.x[0] == 0 && b.wds <= 1 <==> b.Value() == 0
    ensures b.Value() > 0 ==> b.wds > 0
  {
    if b.wds == 1 {
      ValOne(b.x[..1]);
    } else if b.wds > 1 {
      WordsPositive(b.x[..b.wds]);
    }
  }

  /** The digit loop: at most `ilim` digits, fewer if the division comes out even. */
  method GenerateDigits(b0: Bigint, s: Bigint, ilim: nat) returns (b: Bigint, ds: seq<nat>)
    requires b0.Normal() && Divisor(s) && s.x[s.wds - 1] < 0x1000_0000 && b0 != s && b0.x != s.x && ilim > 0
    requires s.Value() <= b0.Value() < 10 * s.Value()
    modifies b0, b0.x
    ensures b == b0 || (fresh(b) && fresh(b.x))
    ensures b.Normal() && s.Value() == old(s.Value()) && Divisor(s) && |ds| <= ilim
    ensures Generated(old(b0.Value()), s.Value(), ds, b.Value()) && (b.Value() > 0 ==> |ds| == ilim && b.wds > 0)
  {
    hide Val, Pow, Generating, Generated;
    ghost var bv, sv := b0.Value(), s.Value();
    b, ds := b0, [];
    FirstDigit(bv, sv);
    var i := 1;
    while true
      invariant b == b0 || (fresh(b) && fresh(b.x))
      invariant b != s && b.x != s.x && b.Normal()
      invariant s.Value() == sv && Divisor(s) && s.x[s.wds - 1] < 0x1000_0000
      invariant 1 <= i <= ilim && |ds| == i - 1 && Generating(bv, sv, ds, b.Value())
      decreases ilim - i
    {
      GeneratingFits(bv, sv, ds, b.Value());
      FitsDivisor(b, s);
      ghost var v := b.Value();
      var dig := QuoRem(b, s);
      DigitRange(v, sv, dig, b.Value());
      NextDigit(bv, sv, ds, v, dig, b.Value());
      ds := ds + [dig];
      IsZero(b);
      if b.x[0] == 0 && b.wds <= 1 {
        break;
      }
      if i >= ilim {
        break;
      }
      ShiftDigit(bv, sv, ds, b.Value());
      b := MultAdd(b, 10, 0);
      i := i + 1;
    }
  }

  lemma FirstDigit(bv: nat, sv: nat)
    requires sv <= bv < 10 * sv
    ensures Generating(bv, sv, [], bv)
  {
  }

  lemma GeneratingFits(bv: nat, sv: nat, ds: seq<nat>, b: nat)
    requires Generating(bv, sv, ds, b)
    ensures 0 < b < 10 * sv
  {
  }

  /** The digits of `b / S` to `ilim` places, correctly rounded, without trailing zeros. `up` is added to the
      decimal exponent. */
  method FixedDigits(b0: Bigint, s: Bigint, ilim: nat) returns (ds: seq<nat>, up: nat)
    requires b0.Normal() && Divisor(s) && s.x[s.wds - 1] < 0x1000_0000 && b0 != s && b0.x != s.x && ilim > 0
    requires s.Value() <= b0.Value() < 10 * s.Value()
    modifies b0, b0.x
    ensures s.Value() == old(s.Value()) > 0 && Numeral(ds) && |ds| <= ilim && up <= 1
    ensures Dec(ds) * Pow(10, ilim - |ds| + up) == Rounded(old(b0.Value()), s.Value(), ilim)
  {
    hide Val, Pow, Generated, Rounded, Dec;
    ghost var bv := b0.Value();
    var b, d := GenerateDigits(b0, s, ilim);
    IsZero(b);
    DigitsOf(bv, s.Value(), d, b.Value());
    if b.x[0] == 0 && b.wds <= 1 {
      Exact(bv, s.Value(), d, ilim);
      return d, 0;
    }
    Inexact(bv, s.Value(), d, b.Value());
    ghost var r := b.Value();
    b := LShift(b, 1);
    PowOne();
    var j := Cmp(b, s);
    if j > 0 || (j == 0 && d[|d| - 1] % 2 == 1) {
      ds, up := RoundUp(d);
    } else {
      ds := TrimZeros(d);
      up := 0;
    }
  }

  lemma PowOne()
    ensures Pow(2, 1) == 2
  {
  }

  lemma DigitsOf(bv: nat, sv: nat, ds: seq<nat>, r: nat)
    requires Generated(bv, sv, ds, r)
    ensures ds != [] && Digits(ds) && r < sv
  {
  }
}
