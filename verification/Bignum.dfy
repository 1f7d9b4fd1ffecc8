/** Multi-word natural numbers in base 2^32, least significant word first, as the decimal conversion uses them. */
module Bignum {

  import opened Arith

  const BASE: nat := 0x1_0000_0000

  // ---------------------------------------------------------------------------------------------
  // Values
  // ---------------------------------------------------------------------------------------------

  /** The weight of word `i`. */
  ghost function Weight(i: nat): nat {
    Pow(BASE, i)
  }

  ghost function Val(s: seq<nat>): nat {
    if s == [] then 0 else Val(s[..|s| - 1]) + s[|s| - 1] * Weight(|s| - 1)
  }

  ghost predicate Words(s: seq<nat>) {
    forall i :: 0 <= i < |s| ==> s[i] < BASE
  }

  lemma WeightNext(i: nat)
    ensures Weight(i + 1) == BASE * Weight(i) && Weight(i) > 0
  {
    PowPositive(BASE, i);
  }

  lemma ValNext(s: seq<nat>, i: nat)
    requires i < |s|
    ensures Val(s[..i + 1]) == Val(s[..i]) + s[i] * Weight(i)
  {
    assert s[..i + 1][..i] == s[..i];
  }

  lemma {:induction false} ValBound(s: seq<nat>)
    requires Words(s)
    ensures Val(s) < Weight(|s|)
  {
    if s != [] {
      var n := |s| - 1;
      ValBound(s[..n]);
      WeightNext(n);
      MulMono(s[n] + 1, BASE, Weight(n));
      assert (s[n] + 1) * Weight(n) == s[n] * Weight(n) + Weight(n);
    }
  }

  /** The top word gives the value to within one unit of its weight. */
  lemma ValTop(s: seq<nat>)
    requires Words(s) && s != []
    ensures s[|s| - 1] * Weight(|s| - 1) <= Val(s) < (s[|s| - 1] + 1) * Weight(|s| - 1)
  {
    var n := |s| - 1;
    ValBound(s[..n]);
    assert (s[n] + 1) * Weight(n) == s[n] * Weight(n) + Weight(n);
  }

  lemma {:induction false} ValZeros(s: seq<nat>)
    requires forall i :: 0 <= i < |s| ==> s[i] == 0
    ensures Val(s) == 0
  {
    if s != [] {
      ValZeros(s[..|s| - 1]);
    }
  }

  /** Zero words at the top do not count. */
  lemma {:induction false} ValTrim(s: seq<nat>, n: nat)
    requires n <= |s| && forall i :: n <= i < |s| ==> s[i] == 0
    ensures Val(s) == Val(s[..n])
  {
    if n < |s| {
      ValTrim(s[..|s| - 1], n);
      assert s[..|s| - 1][..n] == s[..n];
    } else {
      assert s[..n] == s;
    }
  }

  /** One step of a multiplication by a single word. */
  lemma CarryStep(v: int, carry: int, p: int, w: int, m: int, a: int, x: int, y: int, nx: int, carry': int, b: int)
    requires v + carry * p == w * m + a && y == x * m + carry && y == nx + carry' * b
    ensures (v + nx * p) + carry' * (b * p) == (w + x * p) * m + a
  {
    calc {
      (v + nx * p) + carry' * (b * p);
      v + (nx + carry' * b) * p;
      v + (x * m + carry) * p;
      v + carry * p + x * m * p;
      w * m + a + (x * p) * m;
      (w + x * p) * m + a;
    }
  }

  // ---------------------------------------------------------------------------------------------
  // Numbers
  // ---------------------------------------------------------------------------------------------

  class Bigint {
    /** The block holds 2^k words. */
    const k: nat
    const x: array<nat>
    var wds: nat
    var sign: bool

    ghost predicate Shape()
      reads this, x
    {
      x.Length == Pow(2, k) && wds <= x.Length && forall i :: 0 <= i < wds ==> x[i] < BASE
    }

    /** No zero word on top; zero itself takes one word or none. */
    ghost predicate Normal()
      reads this, x
    {
      && Shape() && x.Length > 0
      && (wds > 1 ==> x[wds - 1] != 0) && (wds == 0 ==> x[0] == 0)
    }

    ghost function Value(): nat
      requires wds <= x.Length
      reads this, x
    {
      Val(x[..wds])
    }

    /** `Balloc`. */
    constructor (k: nat)
      ensures this.k == k && fresh(x) && x.Length == Pow(2, k) && wds == 0 && !sign
    {
      this.k := k;
      x := new nat[Pow(2, k)];
      wds, sign := 0, false;
    }
  }

  /** `i2b`. */
  method FromWord(i: nat) returns (b: Bigint)
    requires i < BASE
    ensures fresh(b) && fresh(b.x) && b.Normal() && b.k == 1 && b.wds == 1 && !b.sign && b.Value() == i
  {
    b := new Bigint(1);
    b.x[0] := i;
    b.wds := 1;
    ValOne(b.x[..1]);
  }

  lemma ValOne(s: seq<nat>)
    requires |s| == 1
    ensures Val(s) == s[0]
  {
    assert s[..0] == [];
  }

  /** A carry loop has done the words below `i`: `s` against the original `s0`. */
  ghost predicate MulDone(s: seq<nat>, s0: seq<nat>, i: nat, m: nat, a: nat, carry: nat) {
    && i <= |s| == |s0| && s[i..] == s0[i..] && Words(s[..i]) && carry < BASE
    && Val(s[..i]) + carry * Weight(i) == Val(s0[..i]) * m + a
  }

  lemma MulStep(s: seq<nat>, s0: seq<nat>, i: nat, m: nat, a: nat, carry: nat)
    requires MulDone(s, s0, i, m, a, carry) && i < |s| && s0[i] < BASE && m < BASE
    ensures s[i] == s0[i] && s0[i] * m + carry < BASE * BASE
    ensures MulDone(s[i := (s0[i] * m + carry) % BASE], s0, i + 1, m, a, (s0[i] * m + carry) / BASE)
  {
    hide Val, Weight;
    var y := s0[i] * m + carry;
    assert s[i] == s[i..][0] == s0[i..][0];
    MulAddFits(s0[i], m, carry);
    var s' := s[i := y % BASE];
    ValNext(s0, i);
    ValNext(s', i);
    WeightNext(i);
    assert s'[..i] == s[..i];
    CarryStep(Val(s[..i]), carry, Weight(i), Val(s0[..i]), m, a, s0[i], y, y % BASE, y / BASE, BASE);
    assert s'[i + 1..] == s0[i + 1..] by {
      assert s[i..][1..] == s[i + 1..] && s0[i..][1..] == s0[i + 1..];
    }
  }

  /** The words of `x` below `n`, times `m`, plus `a`; what does not fit is returned. */
  method MulWords(x: array<nat>, n: nat, m: nat, a: nat) returns (carry: nat)
    requires n <= x.Length && Words(x[..n]) && m < BASE && a < BASE
    modifies x
    ensures MulDone(x[..], old(x[..]), n, m, a, carry)
  {
    hide Val, Weight, Pow, MulDone;
    ghost var s0 := x[..];
    var i := 0;
    carry := a;
    MulStart(s0, m, a);
    while i < n
      invariant 0 <= i <= n && MulDone(x[..], s0, i, m, a, carry)
    {
      assert s0[..n][i] == s0[i];
      MulStep(x[..], s0, i, m, a, carry);
      var y := x[i] * m + carry;
      x[i], carry := y % BASE, y / BASE;
      i := i + 1;
    }
  }

  lemma MulStart(s: seq<nat>, m: nat, a: nat)
    requires a < BASE
    ensures MulDone(s, s, 0, m, a, a)
  {
    assert s[..0] == [];
  }

  /** `multadd`: `b * m + a`, in place, or in a block twice the size when the last carry does not fit. */
  method MultAdd(b: Bigint, m: nat, a: nat) returns (r: Bigint)
    requires b.Normal() && b.wds > 0 && m < BASE && a < BASE
    modifies b, b.x
    ensures r == b || (fresh(r) && fresh(r.x))
    ensures r.Shape() && r.wds > 0 && r.sign == old(b.sign) && r.Value() == old(b.Value()) * m + a
    ensures m > 0 ==> r.Normal()
  {
    hide Val, Weight, MulDone, Pow;
    var wds := b.wds;
    ghost var x0 := b.x[..];
    assert b.x[..wds] == x0[..wds];
    var carry := MulWords(b.x, wds, m, a);
    MulResult(b.x[..], x0, wds, m, a, carry);
    assert b.x[..wds] == b.x[..][..wds];
    r := b;
    if carry != 0 {
      if wds >= b.x.Length {
        Doubled(b.k);
        r := new Bigint(b.k + 1);
        r.sign := b.sign;
        CopyWords(b.x, r.x, wds);
      }
      r.x[wds] := carry;
      r.wds := wds + 1;
      assert r.x[..wds + 1] == b.x[..wds] + [carry];
    }
  }

  lemma Doubled(k: nat)
    ensures Pow(2, k + 1) == 2 * Pow(2, k) && Pow(2, k) > 0
  {
    PowPositive(2, k);
  }

  lemma MulResult(s: seq<nat>, s0: seq<nat>, n: nat, m: nat, a: nat, carry: nat)
    requires MulDone(s, s0, n, m, a, carry) && 0 < n <= |s0| && Words(s0[..n])
    ensures carry < BASE && Words(s[..n]) && |s| == |s0|
    ensures Val(s[..n] + [carry]) == Val(s0[..n]) * m + a
    ensures carry == 0 ==> Val(s[..n]) == Val(s0[..n]) * m + a
    ensures carry == 0 && s0[n - 1] != 0 && m > 0 ==> s[n - 1] != 0
  {
    hide Val, Weight;
    ValNext(s[..n] + [carry], n);
    assert (s[..n] + [carry])[..n] == s[..n] && (s[..n] + [carry])[..n + 1] == s[..n] + [carry];
    if carry == 0 && s0[n - 1] != 0 && m > 0 {
      ValTop(s0[..n]);
      MulMono(1, s0[n - 1], Weight(n - 1));
      MulMono(1, m, Val(s0[..n]));
      TopNonzero(s[..n]);
    }
  }

  lemma TopNonzero(s: seq<nat>)
    requires Words(s) && s != [] && Val(s) >= Weight(|s| - 1)
    ensures s[|s| - 1] != 0
  {
    ValBound(s[..|s| - 1]);
  }

  method CopyWords(src: array<nat>, dst: array<nat>, n: nat)
    requires src != dst && n <= src.Length && n <= dst.Length
    modifies dst
    ensures dst[..n] == src[..n]
  {
    var i := 0;
    while i < n
      invariant 0 <= i <= n && dst[..i] == src[..i]
    {
      dst[i] := src[i];
      i := i + 1;
    }
  }

  lemma MulAddFits(x: nat, m: nat, carry: nat)
    requires x < BASE && m < BASE && carry < BASE
    ensures (x * m + carry) / BASE < BASE && x * m + carry < BASE * BASE
  {
    MulMono(x, BASE - 1, m);
    MulMono(m, BASE - 1, BASE - 1);
  }

  // ---------------------------------------------------------------------------------------------
  // Products
  // ---------------------------------------------------------------------------------------------

  lemma RowArith(v: int, carry: int, w: int, v0: int, y: int, vx: int, wj: int, wi: int, x: int, c: int, z: int, r: int, carry': int, b: int)
    requires v + carry * w == v0 + y * vx * wj && w == wj * wi && z == x * y + c + carry && z == r + carry' * b
    ensures (v + r * w) + carry' * (b * w) == (v0 + c * w) + y * (vx + x * wi) * wj
  {
    calc {
      (v + r * w) + carry' * (b * w);
      v + (r + carry' * b) * w;
      v + (x * y + c + carry) * w;
      v + carry * w + c * w + x * y * w;
      v0 + y * vx * wj + c * w + x * y * (wj * wi);
      { assert x * y * (wj * wi) == y * (x * wi) * wj; }
      v0 + c * w + y * vx * wj + y * (x * wi) * wj;
      (v0 + c * w) + y * (vx + x * wi) * wj;
    }
  }

  /** The words of `xs` below `i`, times `y`, have been added to `s0` at word `j`. */
  ghost predicate RowDone(s: seq<nat>, s0: seq<nat>, j: nat, xs: seq<nat>, i: nat, y: nat, carry: nat) {
    && |s| == |s0| && j + i <= |s| && i <= |xs| && s[j + i..] == s0[j + i..] && Words(s[..j + i]) && carry < BASE
    && Val(s[..j + i]) + carry * Weight(j + i) == Val(s0[..j + i]) + y * Val(xs[..i]) * Weight(j)
  }

  lemma RowFits(x: nat, y: nat, c: nat, carry: nat)
    requires x < BASE && y < BASE && c < BASE && carry < BASE
    ensures x * y + c + carry < BASE * BASE && (x * y + c + carry) / BASE < BASE
  {
    MulMono(x, BASE - 1, y);
    MulMono(y, BASE - 1, BASE - 1);
  }

  lemma RowStep(s: seq<nat>, s0: seq<nat>, j: nat, xs: seq<nat>, i: nat, y: nat, carry: nat)
    requires RowDone(s, s0, j, xs, i, y, carry) && i < |xs| && j + i < |s| && xs[i] < BASE && y < BASE && s0[j + i] < BASE
    ensures s[j + i] == s0[j + i] && xs[i] * y + s0[j + i] + carry < BASE * BASE
    ensures var z := xs[i] * y + s0[j + i] + carry;
            RowDone(s[j + i := z % BASE], s0, j, xs, i + 1, y, z / BASE)
  {
    hide Val;
    var z := xs[i] * y + s0[j + i] + carry;
    assert s[j + i] == s[j + i..][0] == s0[j + i..][0];
    RowFits(xs[i], y, s0[j + i], carry);
    var s' := s[j + i := z % BASE];
    ValNext(s0, j + i);
    ValNext(s', j + i);
    ValNext(xs, i);
    WeightNext(j + i);
    PowAdd(BASE, j, i);
    assert s'[..j + i] == s[..j + i];
    RowArith(Val(s[..j + i]), carry, Weight(j + i), Val(s0[..j + i]), y, Val(xs[..i]), Weight(j), Weight(i),
             xs[i], s0[j + i], z, z % BASE, z / BASE, BASE);
    assert s'[j + (i + 1)..] == s0[j + (i + 1)..] by {
      assert s[j + i..][1..] == s[j + i + 1..] && s0[j + i..][1..] == s0[j + i + 1..];
    }
  }

  lemma RowStart(s: seq<nat>, j: nat, xs: seq<nat>, y: nat)
    requires j <= |s| && Words(s[..j])
    ensures RowDone(s, s, j, xs, 0, y, 0)
  {
    assert xs[..0] == [];
  }

  lemma RowEnd(s: seq<nat>, s0: seq<nat>, j: nat, xs: seq<nat>, n: nat, y: nat, carry: nat)
    requires n == j + |xs| < |s| && RowDone(s, s0, j, xs, |xs|, y, carry)
    ensures var s' := s[n := carry];
            && Words(s'[..n + 1]) && s'[n + 1..] == s0[n + 1..]
            && Val(s'[..n + 1]) == Val(s0[..n]) + y * Val(xs) * Weight(j)
  {
    hide Val, Weight, Words;
    var s' := s[n := carry];
    assert xs[..|xs|] == xs;
    TopWord(s, s0, n, carry);
    ValNext(s', n);
  }

  lemma TopWord(s: seq<nat>, s0: seq<nat>, n: nat, carry: nat)
    requires n < |s| == |s0| && Words(s[..n]) && carry < BASE && s[n..] == s0[n..]
    ensures var s' := s[n := carry]; s'[..n] == s[..n] && Words(s'[..n + 1]) && s'[n + 1..] == s0[n + 1..]
  {
    var s' := s[n := carry];
    assert s'[..n + 1] == s[..n] + [carry];
    assert s[n..][1..] == s[n + 1..] && s0[n..][1..] == s0[n + 1..];
  }

  /** Adds `y` times the number in `x` into `c`, from word `j` on. */
  method AddRow(c: array<nat>, j: nat, x: array<nat>, wa: nat, y: nat)
    requires c != x && wa <= x.Length && j + wa < c.Length && c[j + wa] == 0 && y < BASE
    requires Words(x[..wa]) && Words(c[..j + wa])
    modifies c
    ensures Words(c[..j + wa + 1]) && c[j + wa + 1..] == old(c[j + wa + 1..])
    ensures Val(c[..j + wa + 1]) == old(Val(c[..j + wa])) + y * Val(x[..wa]) * Weight(j)
  {
    hide Val, Weight, Pow, RowDone;
    ghost var s0, xs := c[..], x[..wa];
    assert s0[..j + wa] == c[..j + wa] && s0[j + wa + 1..] == c[j + wa + 1..] && s0[..j + wa][..j] == s0[..j];
    RowStart(s0, j, xs, y);
    var i: nat, carry: nat := 0, 0;
    while i < wa
      invariant 0 <= i <= wa && RowDone(c[..], s0, j, xs, i, y, carry)
      invariant x[..wa] == xs
    {
      assert xs[i] == x[i] && s0[j + i] == s0[..j + wa][j + i];
      RowStep(c[..], s0, j, xs, i, y, carry);
      var z := x[i] * y + c[j + i] + carry;
      c[j + i], carry := z % BASE, z / BASE;
      i := i + 1;
    }
    RowEnd(c[..], s0, j, xs, j + wa, y, carry);
    c[j + wa] := carry;
    assert c[..][..j + wa + 1] == c[..j + wa + 1] && c[..][j + wa + 1..] == c[j + wa + 1..];
  }

  lemma RowSum(va: int, vb: int, y: int, w: int, v: int, v': int)
    requires v == va * vb && v' == v + y * va * w
    ensures v' == va * (vb + y * w)
  {
  }

  /** The rows below `j` have been added up. */
  ghost predicate RowsDone(c: seq<nat>, u: seq<nat>, v: seq<nat>, j: nat) {
    && j <= |v| && |u| + j <= |c| && Words(c[..|u| + j])
    && (forall t :: |u| + j <= t < |c| ==> c[t] == 0)
    && Val(c[..|u| + j]) == Val(u) * Val(v[..j])
  }

  lemma RowsSkip(c: seq<nat>, u: seq<nat>, v: seq<nat>, j: nat)
    requires RowsDone(c, u, v, j) && j < |v| && |u| + j < |c| && v[j] == 0
    ensures RowsDone(c, u, v, j + 1)
  {
    hide Val, Weight, Words;
    ValNext(c, |u| + j);
    ValNext(v, j);
    ZeroWord(c, |u| + j);
  }

  lemma ZeroWord(c: seq<nat>, n: nat)
    requires n < |c| && Words(c[..n]) && c[n] == 0
    ensures Words(c[..n + 1])
  {
    assert c[..n + 1] == c[..n] + [c[n]];
  }

  lemma RowsNext(c: seq<nat>, c': seq<nat>, u: seq<nat>, v: seq<nat>, j: nat)
    requires RowsDone(c, u, v, j) && j < |v| && |u| + j < |c| == |c'|
    requires Words(c'[..j + |u| + 1]) && c'[j + |u| + 1..] == c[j + |u| + 1..]
    requires Val(c'[..j + |u| + 1]) == Val(c[..j + |u|]) + v[j] * Val(u) * Weight(j)
    ensures RowsDone(c', u, v, j + 1)
  {
    hide Val, Weight;
    ValNext(v, j);
    RowSum(Val(u), Val(v[..j]), v[j], Weight(j), Val(c[..|u| + j]), Val(c'[..|u| + j + 1]));
    forall t | |u| + j + 1 <= t < |c'|
      ensures c'[t] == 0
    {
      assert c'[t] == c'[j + |u| + 1..][t - (j + |u| + 1)] == c[j + |u| + 1..][t - (j + |u| + 1)] == c[t];
    }
  }

  lemma RowsStart(c: seq<nat>, u: seq<nat>, v: seq<nat>)
    requires |u| <= |c| && forall t :: 0 <= t < |c| ==> c[t] == 0
    ensures RowsDone(c, u, v, 0)
  {
    ValZeros(c[..|u|]);
    assert v[..0] == [];
  }

  /** All the rows of the product. */
  method AddRows(c: array<nat>, wc: nat, xa: array<nat>, wa: nat, xb: array<nat>, wb: nat)
    requires c != xa && c != xb && wa <= xa.Length && wb <= xb.Length && wc == wa + wb <= c.Length
    requires Words(xa[..wa]) && Words(xb[..wb]) && forall t :: 0 <= t < wc ==> c[t] == 0
    modifies c
    ensures Words(c[..wc]) && Val(c[..wc]) == Val(xa[..wa]) * Val(xb[..wb])
    ensures c[wc..] == old(c[wc..])
  {
    hide Val, Weight, Pow, RowsDone;
    ghost var u, v := xa[..wa], xb[..wb];
    RowsStart(c[..wc], u, v);
    var j := 0;
    while j < wb
      invariant 0 <= j <= wb && RowsDone(c[..wc], u, v, j)
      invariant xa[..wa] == u && xb[..wb] == v && c[wc..] == old(c[wc..])
    {
      var y := xb[j];
      assert y == v[j];
      ghost var s := c[..wc];
      RowsAt(s, u, v, j);
      assert s[..wa + j] == c[..j + wa];
      if y != 0 {
        AddRow(c, j, xa, wa, y);
        assert c[..wc][j + wa + 1..] == s[j + wa + 1..];
        assert c[..wc][..j + wa + 1] == c[..j + wa + 1];
        RowsNext(s, c[..wc], u, v, j);
      } else {
        RowsSkip(s, u, v, j);
      }
      j := j + 1;
    }
    RowsAt(c[..wc], u, v, wb);
    assert v[..wb] == v && c[..wc][..wc] == c[..wc];
  }

  lemma RowsAt(c: seq<nat>, u: seq<nat>, v: seq<nat>, j: nat)
    requires RowsDone(c, u, v, j)
    ensures Words(c[..|u| + j]) && Val(c[..|u| + j]) == Val(u) * Val(v[..j]) && (|u| + j < |c| ==> c[|u| + j] == 0)
  {
  }

  /** Drops the zero words on top. */
  method Trim(x: array<nat>, n: nat) returns (m: nat)
    requires n <= x.Length
    ensures m <= n && (m > 0 ==> x[m - 1] != 0) && forall t :: m <= t < n ==> x[t] == 0
  {
    m := n;
    while m > 0 && x[m - 1] == 0
      invariant m <= n && forall t :: m <= t < n ==> x[t] == 0
    {
      m := m - 1;
    }
  }

  method ZeroWords(x: array<nat>, n: nat)
    requires n <= x.Length
    modifies x
    ensures forall t :: 0 <= t < n ==> x[t] == 0
  {
    var i := 0;
    while i < n
      invariant 0 <= i <= n && forall t :: 0 <= t < i ==> x[t] == 0
    {
      x[i] := 0;
      i := i + 1;
    }
  }

  /** `mult`: the exact product, in a block that holds it. */
  method Mult(a: Bigint, b: Bigint) returns (c: Bigint)
    requires a.Normal() && b.Normal()
    ensures fresh(c) && fresh(c.x) && c.Shape() && c.Value() == a.Value() * b.Value()
    ensures a.wds > 0 || b.wds > 0 ==> c.Normal()
  {
    hide Val, Words, Pow;
    if a.wds < b.wds {
      c := MultOrdered(b, a);
      assert b.Value() * a.Value() == a.Value() * b.Value();
    } else {
      c := MultOrdered(a, b);
    }
  }

  method MultOrdered(a: Bigint, b: Bigint) returns (c: Bigint)
    requires a.Normal() && b.Normal() && a.wds >= b.wds
    ensures fresh(c) && fresh(c.x) && c.Shape() && c.Value() == a.Value() * b.Value()
    ensures a.wds > 0 ==> c.Normal()
  {
    hide Val, Words, Pow;
    var k, wc := a.k, a.wds + b.wds;
    Doubled(k);
    if wc > a.x.Length {
      k := k + 1;
    }
    c := new Bigint(k);
    ZeroWords(c.x, wc);
    WordsOf(a.x[..a.wds]);
    WordsOf(b.x[..b.wds]);
    AddRows(c.x, wc, a.x, a.wds, b.x, b.wds);
    WordsAre(c.x[..wc]);
    var m := Trim(c.x, wc);
    ValTrim(c.x[..wc], m);
    assert c.x[..wc][..m] == c.x[..m];
    forall i | 0 <= i < m
      ensures c.x[i] < BASE
    {
      assert c.x[i] == c.x[..wc][i];
    }
    c.wds := m;
  }

  lemma WordsOf(s: seq<nat>)
    requires forall i :: 0 <= i < |s| ==> s[i] < BASE
    ensures Words(s)
  {
  }

  lemma WordsAre(s: seq<nat>)
    requires Words(s)
    ensures forall i :: 0 <= i < |s| ==> s[i] < BASE
  {
  }

  // ---------------------------------------------------------------------------------------------
  // Powers of five
  // ---------------------------------------------------------------------------------------------

  /** The chain of powers that `pow5mult` builds as it needs them. */
  class Powers {
    var chain: seq<Bigint>

    ghost predicate Valid()
      reads this, chain, set b | b in chain :: b.x
    {
      forall i :: 0 <= i < |chain| ==>
        chain[i].Normal() && chain[i].wds > 0 && chain[i].Value() == Link(i)
    }

    constructor ()
      ensures Valid() && chain == []
    {
      chain := [];
    }

    /** The power at position `i`, computed from the one before it when it is not there yet. */
    method Entry(i: nat) returns (p5: Bigint)
      requires Valid() && i <= |chain|
      modifies this
      ensures Valid() && i < |chain| && p5 == chain[i] && old(chain) <= chain
      ensures forall b :: b in chain && b !in old(chain) ==> fresh(b) && fresh(b.x)
    {
      hide Val, Pow, Words, Link;
      if i < |chain| {
        p5 := chain[i];
      } else {
        if i == 0 {
          p5 := FromWord(625);
        } else {
          p5 := Mult(chain[i - 1], chain[i - 1]);
        }
        LinkNext(i, p5.Value());
        SomeWord(p5);
        chain := chain + [p5];
      }
    }

    /** `pow5mult`: `b * 5^e`. */
    method Pow5Mult(b: Bigint, e: nat) returns (r: Bigint)
      requires Valid() && b.Normal() && b.wds > 0
      requires b !in chain && forall c :: c in chain ==> c.x != b.x
      modifies this, b, b.x
      ensures Valid() && old(chain) <= chain
      ensures r == b || (fresh(r) && fresh(r.x))
      ensures r.Normal() && r.Value() == old(b.Value()) * Pow(5, e)
    {
      hide Val, Words, Pow, Link;
      ghost var v0 := b.Value();
      r := b;
      if e % 4 != 0 {
        r := MultAdd(b, Small(e % 4), 0);
      }
      SplitPow(v0, e);
      r := MultPowers(r, e / 4);
    }

    /** One power of the chain for each bit of `n`. */
    method MultPowers(b: Bigint, m: nat) returns (r: Bigint)
      requires Valid() && b.Normal()
      modifies this
      ensures Valid() && old(chain) <= chain
      ensures r == b || (fresh(r) && fresh(r.x))
      ensures r.Normal() && r.Value() == old(b.Value()) * Pow(Link(0), m)
    {
      hide Val, Words, Pow, Link;
      r := b;
      var n, i := m, 0;
      while n > 0
        invariant Valid() && old(chain) <= chain && i <= |chain|
        invariant r.Normal() && (r == b || (fresh(r) && fresh(r.x)))
        invariant r.Value() * Pow(Link(i), n) == old(b.Value()) * Pow(Link(0), m)
        decreases n
      {
        HalfPow(r.Value(), i, n);
        var p5 := Entry(i);
        if n % 2 == 1 {
          r := Mult(r, p5);
        }
        n, i := n / 2, i + 1;
      }
      LastPow(r.Value(), i);
    }
  }

  function Small(i: nat): nat
    requires 1 <= i <= 3
  {
    if i == 1 then 5 else if i == 2 then 25 else 125
  }

  /** What the chain holds at position `i`. */
  ghost function Link(i: nat): nat {
    if i == 0 then 625 else Link(i - 1) * Link(i - 1)
  }

  /** Position `i` holds 5^(4 * 2^i). */
  lemma {:induction false} LinkPower(i: nat)
    ensures Link(i) == Pow(5, 4 * Pow(2, i))
  {
    if i == 0 {
      FiveToFour();
    } else {
      LinkPower(i - 1);
      PowAdd(5, 4 * Pow(2, i - 1), 4 * Pow(2, i - 1));
    }
  }

  lemma FiveToFour()
    ensures Pow(2, 0) == 1 && Pow(5, 0) == 1 && Pow(5, 1) == 5 && Pow(5, 2) == 25 && Pow(5, 3) == 125 && Pow(5, 4) == 625
  {
    assert Pow(5, 1) == 5 * Pow(5, 0);
    assert Pow(5, 2) == 5 * Pow(5, 1);
    assert Pow(5, 3) == 5 * Pow(5, 2);
    assert Pow(5, 4) == 5 * Pow(5, 3);
  }

  lemma LinkNext(i: nat, v: nat)
    requires if i == 0 then v == 625 else v == Link(i - 1) * Link(i - 1)
    ensures v == Link(i) && v > 0
  {
    LinkPower(i);
    PowPositive(5, 4 * Pow(2, i));
  }

  lemma SomeWord(b: Bigint)
    requires b.Normal() && b.Value() > 0
    ensures b.wds > 0
  {
  }

  lemma {:induction false} FourAtATime(n: nat)
    ensures Pow(625, n) == Pow(5, 4 * n)
  {
    if n > 0 {
      FourAtATime(n - 1);
      FiveToFour();
      PowAdd(5, 4, 4 * (n - 1));
    }
  }

  lemma SplitPow(v: nat, e: nat)
    ensures (if e % 4 == 0 then v else v * Small(e % 4)) * Pow(Link(0), e / 4) == v * Pow(5, e)
  {
    FourAtATime(e / 4);
    FiveToFour();
    PowAdd(5, e % 4, 4 * (e / 4));
    Regroup(v, Pow(5, e % 4), Pow(5, 4 * (e / 4)));
  }

  lemma Regroup(a: int, b: int, c: int)
    ensures a * b * c == a * (b * c)
  {
  }

  lemma {:induction false} PowSquare(x: nat, n: nat)
    ensures Pow(x * x, n) == Pow(x, 2 * n)
  {
    if n > 0 {
      PowSquare(x, n - 1);
      assert Pow(x, 2 * n) == x * Pow(x, 2 * n - 1);
      assert Pow(x, 2 * n - 1) == x * Pow(x, 2 * n - 2);
      Regroup(x, x, Pow(x, 2 * n - 2));
    }
  }

  /** One bit of the exponent. */
  lemma HalfPow(v: nat, i: nat, n: nat)
    requires n > 0
    ensures v * Pow(Link(i), n) == (if n % 2 == 1 then v * Link(i) else v) * Pow(Link(i + 1), n / 2)
  {
    PowSquare(Link(i), n / 2);
    if n % 2 == 1 {
      assert Pow(Link(i), n) == Link(i) * Pow(Link(i), 2 * (n / 2));
      Regroup(v, Link(i), Pow(Link(i), n - 1));
    }
  }

  lemma LastPow(v: nat, i: nat)
    ensures v * Pow(Link(i), 0) == v
  {
  }

  // ---------------------------------------------------------------------------------------------
  // Shifts
  // ---------------------------------------------------------------------------------------------

  /** A word shifted left by part of its width, with the bits that the word below has shifted out. */
  lemma ShiftWord(x: nat, m: nat, g: nat, z: nat)
    requires BASE == m * g && m > 0 && g > 0 && x < BASE && z < m
    ensures x * m % BASE + z == (x * m + z) % BASE && x / g == (x * m + z) / BASE && x / g < m
  {
    var q, r := x / g, x % g;
    ShiftParts(x, m, g, q, r);
    ShiftRoom(r, m, g, z);
    Remainders(x * m, q, r * m, z);
    ShiftedOut(x, m, g, q, r);
  }

  lemma ShiftRoom(r: nat, m: nat, g: nat, z: nat)
    requires BASE == m * g && r < g && z < m
    ensures r * m + z < BASE
  {
    MulLess(r, g, m);
  }

  lemma Remainders(y: nat, q: nat, w: nat, z: nat)
    requires y == q * BASE + w && w + z < BASE
    ensures y % BASE == w && (y + z) % BASE == w + z && (y + z) / BASE == q
  {
    DivUnique(y, BASE, q, w);
    DivUnique(y + z, BASE, q, w + z);
  }

  lemma ShiftParts(x: nat, m: nat, g: nat, q: nat, r: nat)
    requires g > 0 && q == x / g && r == x % g && BASE == m * g
    ensures x == q * g + r && x * m == q * BASE + r * m
  {
    ShiftProduct(q, g, r, m);
  }

  lemma ShiftProduct(q: nat, g: nat, r: nat, m: nat)
    ensures (q * g + r) * m == q * (m * g) + r * m
  {
    assert (q * g + r) * m == (q * g) * m + r * m;
    assert (q * g) * m == q * (m * g);
  }

  lemma ShiftedOut(x: nat, m: nat, g: nat, q: nat, r: nat)
    requires BASE == m * g && x < BASE && x == q * g + r
    ensures q < m
  {
    if q >= m {
      MulMono(m, q, g);
    }
  }

  ghost predicate ShiftDone(d: seq<nat>, src: seq<nat>, m: nat, z: nat) {
    |d| <= |src| && Words(d) && z < m && Val(d) + z * Weight(|d|) == Val(src[..|d|]) * m
  }

  lemma ShiftStep(d: seq<nat>, src: seq<nat>, m: nat, g: nat, z: nat)
    requires ShiftDone(d, src, m, z) && |d| < |src| && BASE == m * g && g > 0 && src[|d|] < BASE
    ensures ShiftDone(d + [src[|d|] * m % BASE + z], src, m, src[|d|] / g)
  {
    hide Val, Weight;
    var i, x := |d|, src[|d|];
    ShiftWord(x, m, g, z);
    var y := x * m + z;
    var d' := d + [y % BASE];
    ValNext(d', i);
    ValNext(src, i);
    WeightNext(i);
    assert d'[..i] == d && d'[..i + 1] == d';
    CarryStep(Val(d), z, Weight(i), Val(src[..i]), m, 0, x, y, y % BASE, y / BASE, BASE);
  }

  lemma ShiftStart(src: seq<nat>, m: nat)
    requires m > 0
    ensures ShiftDone([], src, m, 0)
  {
    assert src[..0] == [];
  }

  /** `src` shifted left by `kk` bits into `dst` from word `n` on; the bits shifted out are returned. */
  method ShiftWords(src: array<nat>, wds: nat, dst: array<nat>, n: nat, kk: nat) returns (z: nat)
    requires src != dst && wds <= src.Length && n + wds <= dst.Length && 0 < kk < 32 && Words(src[..wds])
    modifies dst
    ensures ShiftDone(dst[n..n + wds], src[..wds], Pow(2, kk), z) && dst[..n] == old(dst[..n])
  {
    hide Val, Weight, Pow, ShiftDone;
    ghost var s0 := src[..wds];
    var m, g := Pow(2, kk), Pow(2, 32 - kk);
    HalfWords(kk);
    var i := 0;
    z := 0;
    ShiftStart(s0, m);
    assert dst[n..n] == [];
    while i < wds
      invariant 0 <= i <= wds && ShiftDone(dst[n..n + i], s0, m, z) && dst[..n] == old(dst[..n])
    {
      assert s0[i] == src[i];
      ghost var before, y := dst[..], src[i] * m % BASE + z;
      assert before[n..n + i] == dst[n..n + i] && before[..n] == dst[..n];
      ShiftStep(before[n..n + i], s0, m, g, z);
      dst[n + i] := src[i] * m % BASE + z;
      assert dst[..] == before[n + i := y];
      SliceSet(before, n, i, y);
      assert dst[n..n + i + 1] == dst[..][n..n + i + 1] && dst[..n] == dst[..][..n];
      z := src[i] / g;
      i := i + 1;
    }
  }

  lemma SliceSet(s: seq<nat>, n: nat, i: nat, y: nat)
    requires n + i < |s|
    ensures var s' := s[n + i := y]; s'[n..n + i + 1] == s[n..n + i] + [y] && s'[..n] == s[..n]
  {
  }

  lemma HalfWords(kk: nat)
    requires kk <= 32
    ensures Pow(2, kk) * Pow(2, 32 - kk) == BASE && Pow(2, kk) > 0 && Pow(2, 32 - kk) > 0
  {
    PowAdd(2, kk, 32 - kk);
    WordBits();
    PowPositive(2, kk);
    PowPositive(2, 32 - kk);
  }

  lemma WordBits()
    ensures Pow(2, 32) == BASE
  {
    assert Pow(2, 4) == 16 by {
      assert Pow(2, 2) == 2 * Pow(2, 1);
    }
    PowAdd(2, 4, 4);
    PowAdd(2, 8, 8);
    PowAdd(2, 16, 16);
  }

  /** Whole words of shift. */
  lemma {:induction false} ValShift(n: nat, d: seq<nat>)
    ensures Val(seq(n, _ => 0) + d) == Val(d) * Weight(n)
  {
    hide Val, Weight;
    var zeros := seq(n, _ => 0);
    if d == [] {
      ValZeros(zeros);
      assert zeros + d == zeros;
      NoWords();
    } else {
      var i := |d| - 1;
      ValShift(n, d[..i]);
      ZerosThen(zeros, d, i);
      ValNext(zeros + d, n + i);
      ValNext(d, i);
      WeightAdd(n, i);
      Distribute(Val(d[..i]), d[i], Weight(n), Weight(i));
    }
  }

  lemma ZerosThen(zeros: seq<nat>, d: seq<nat>, i: nat)
    requires i + 1 == |d|
    ensures (zeros + d)[..|zeros| + i] == zeros + d[..i] && (zeros + d)[..|zeros| + i + 1] == zeros + d && d[..i + 1] == d
    ensures (zeros + d)[|zeros| + i] == d[i]
  {
  }

  lemma WeightAdd(n: nat, i: nat)
    ensures Weight(n + i) == Weight(n) * Weight(i)
  {
    PowAdd(BASE, n, i);
  }

  lemma Distribute(v: int, x: int, p: int, q: int)
    ensures v * p + x * (p * q) == (v + x * q) * p
  {
  }

  lemma {:induction false} BitsOfWords(n: nat)
    ensures Weight(n) == Pow(2, 32 * n)
  {
    if n > 0 {
      BitsOfWords(n - 1);
      WordBits();
      PowAdd(2, 32, 32 * (n - 1));
    }
  }

  /** A block of at least `n1` words, by doubling. */
  method Grow(k: nat, n1: nat) returns (k1: nat)
    ensures n1 <= Pow(2, k1)
  {
    hide Pow;
    k1 := k;
    Doubled(k);
    var i := Pow(2, k);
    while n1 > i
      invariant i == Pow(2, k1) && i > 0
      decreases n1 - i
    {
      Doubled(k1);
      i, k1 := 2 * i, k1 + 1;
    }
  }

  /** The words of `b`, shifted by `k` bits, into `dst` above its `k / 32` lowest words; returns how many there are. */
  method ShiftInto(b: Bigint, k: nat, dst: array<nat>) returns (len: nat)
    requires b.Normal() && b.wds > 0 && dst != b.x && k / 32 + b.wds < dst.Length
    modifies dst
    ensures 0 < len && k / 32 + len <= dst.Length && dst[..k / 32] == old(dst[..k / 32])
    ensures var d := dst[k / 32..k / 32 + len];
            && Words(d) && Val(d) * Weight(k / 32) == b.Value() * Pow(2, k)
            && (b.Value() > 0 ==> d[len - 1] != 0)
  {
    hide Val, Pow, Weight, ShiftDone, Words;
    var n, kk := k / 32, k % 32;
    len := b.wds;
    WordsOf(b.x[..b.wds]);
    if kk != 0 {
      var z := ShiftWords(b.x, b.wds, dst, n, kk);
      ghost var d, low := dst[n..n + b.wds], dst[..n];
      dst[n + b.wds] := z;
      assert dst[n..n + b.wds] == d && dst[n..n + b.wds + 1] == d + [z] && dst[..n] == low;
      ShiftEnd(d, b.x[..b.wds], k, z);
      if z != 0 {
        len := len + 1;
      }
    } else {
      CopyFrom(b.x, b.wds, dst, n);
      CopyEnd(b.x[..b.wds], k);
      if b.wds == 1 {
        ValOne(b.x[..1]);
      }
    }
  }

  /** `lshift`: `b * 2^k`, in a new block. */
  method LShift(b: Bigint, k: nat) returns (r: Bigint)
    requires b.Normal() && b.wds > 0
    ensures fresh(r) && fresh(r.x) && r.Shape() && r.wds > 0 && r.Value() == b.Value() * Pow(2, k)
    ensures b.Value() > 0 ==> r.Normal()
  {
    hide Val, Pow, Weight, Words;
    var n := k / 32;
    var k1 := Grow(b.k, n + b.wds + 1);
    r := new Bigint(k1);
    ZeroWords(r.x, n);
    ghost var zeros := seq(n, _ => 0);
    assert r.x[..n] == zeros;
    var len := ShiftInto(b, k, r.x);
    r.wds := n + len;
    ghost var d, whole := r.x[n..n + len], r.x[..];
    assert whole[..n] == r.x[..n] && whole[n..n + len] == d && whole[..n + len] == r.x[..r.wds];
    ZerosAndWords(whole, n, len);
    ValShift(n, d);
    forall i | 0 <= i < r.wds
      ensures r.x[i] < BASE
    {
      assert r.x[i] == whole[i];
    }
  }

  lemma ZerosAndWords(s: seq<nat>, n: nat, len: nat)
    requires n + len <= |s| && s[..n] == seq(n, _ => 0) && Words(s[n..n + len])
    ensures s[..n + len] == seq(n, _ => 0) + s[n..n + len] && forall i :: 0 <= i < n + len ==> s[i] < BASE
  {
    forall i | 0 <= i < n + len
      ensures s[i] < BASE
    {
      assert s[i] == if i < n then s[..n][i] else s[n..n + len][i - n];
    }
  }

  method CopyFrom(src: array<nat>, wds: nat, dst: array<nat>, n: nat)
    requires src != dst && wds <= src.Length && n + wds <= dst.Length
    modifies dst
    ensures dst[n..n + wds] == src[..wds] && dst[..n] == old(dst[..n])
  {
    var i := 0;
    while i < wds
      invariant 0 <= i <= wds && dst[n..n + i] == src[..i] && dst[..n] == old(dst[..n])
    {
      dst[n + i] := src[i];
      i := i + 1;
    }
  }

  lemma ShiftEnd(d: seq<nat>, src: seq<nat>, k: nat, z: nat)
    requires ShiftDone(d, src, Pow(2, k % 32), z) && |d| == |src| > 0 && Words(src)
    ensures var d' := if z == 0 then d else d + [z];
            && Words(d') && Val(d') * Weight(k / 32) == Val(src) * Pow(2, k)
            && (Val(src) > 0 && (|src| > 1 ==> src[|src| - 1] != 0) ==> d'[|d'| - 1] != 0)
  {
    hide Val, Weight, Pow;
    var n, m := k / 32, Pow(2, k % 32);
    var d' := if z == 0 then d else d + [z];
    HalfWords(k % 32);
    ValNext(d + [z], |d|);
    assert (d + [z])[..|d|] == d && (d + [z])[..|d| + 1] == d + [z] && src[..|d|] == src;
    assert Val(d') == Val(src) * m;
    BitsOfWords(n);
    PowAdd(2, k % 32, 32 * n);
    assert k == k % 32 + 32 * n;
    Regroup(Val(src), m, Weight(n));
    MulMono(1, m, BASE);
    if z == 0 && Val(src) > 0 && (|src| > 1 ==> src[|src| - 1] != 0) {
      TopAfterShift(d, src, m);
    }
  }

  lemma TopAfterShift(d: seq<nat>, src: seq<nat>, m: nat)
    requires Words(d) && Words(src) && |d| == |src| > 0 && Val(d) == Val(src) * m && m > 0 && Val(src) > 0
    requires |src| > 1 ==> src[|src| - 1] != 0
    ensures d[|d| - 1] != 0
  {
    hide Val, Weight;
    MulMono(1, m, Val(src));
    if |src| > 1 {
      ValTop(src);
      MulMono(1, src[|src| - 1], Weight(|src| - 1));
      TopNonzero(d);
    } else {
      ValOne(d);
      ValOne(src);
    }
  }

  lemma CopyEnd(d: seq<nat>, k: nat)
    requires k % 32 == 0
    ensures Val(d) * Weight(k / 32) == Val(d) * Pow(2, k)
  {
    BitsOfWords(k / 32);
  }

  // ---------------------------------------------------------------------------------------------
  // Comparison and difference
  // ---------------------------------------------------------------------------------------------

  /** The highest word that differs decides. */
  lemma {:induction false} ValLess(s: seq<nat>, t: seq<nat>, i: nat)
    requires |s| == |t| && Words(s) && Words(t) && i < |s| && s[i] < t[i] && s[i + 1..] == t[i + 1..]
    ensures Val(s) < Val(t)
  {
    var n := |s| - 1;
    if i < n {
      assert s[n] == s[i + 1..][n - i - 1] == t[i + 1..][n - i - 1] == t[n];
      assert s[..n][i + 1..] == s[i + 1..][..n - i - 1] && t[..n][i + 1..] == t[i + 1..][..n - i - 1];
      ValLess(s[..n], t[..n], i);
    } else {
      ValTop(s);
      ValTop(t);
      MulMono(s[n] + 1, t[n], Weight(n));
    }
  }

  /** Fewer words, smaller number. */
  lemma ValShorter(s: seq<nat>, t: seq<nat>)
    requires |s| < |t| && Words(s) && Words(t) && (|t| > 1 ==> t[|t| - 1] != 0) && Val(t) > 0
    ensures Val(s) < Val(t)
  {
    hide Val, Weight;
    if s == [] {
      assert Val(s) == 0 by {
        ValZeros(s);
      }
    } else {
      ValBound(s);
      ValTop(t);
      WeightMono(|s|, |t| - 1);
      MulMono(1, t[|t| - 1], Weight(|t| - 1));
    }
  }

  lemma {:induction false} WeightMono(i: nat, j: nat)
    requires i <= j
    ensures Weight(i) <= Weight(j)
  {
    if i < j {
      WeightMono(i, j - 1);
      WeightNext(j - 1);
    }
  }

  lemma WordsPositive(s: seq<nat>)
    requires Words(s) && |s| > 1 && s[|s| - 1] != 0
    ensures Val(s) > 0
  {
    hide Val;
    ValTop(s);
    WeightNext(|s| - 1);
    MulMono(1, s[|s| - 1], Weight(|s| - 1));
  }

  /** `cmp`: the sign of `a - b`. */
  method Cmp(a: Bigint, b: Bigint) returns (r: int)
    requires a.Normal() && b.Normal() && ((a.wds > 0 && b.wds > 0) || a.Value() + b.Value() > 0)
    ensures r < 0 <==> a.Value() < b.Value()
    ensures r == 0 <==> a.Value() == b.Value()
  {
    hide Val, Pow;
    ghost var s, t := a.x[..a.wds], b.x[..b.wds];
    if a.wds != b.wds {
      CmpLengths(s, t);
      return a.wds - b.wds;
    }
    var i := a.wds;
    NoWords();
    while true
      invariant 0 < i <= a.wds && s[i..] == t[i..]
      decreases i
    {
      i := i - 1;
      if a.x[i] != b.x[i] {
        if a.x[i] < b.x[i] {
          ValLess(s, t, i);
          return -1;
        }
        ValLess(t, s, i);
        return 1;
      }
      assert s[i..] == [s[i]] + s[i + 1..] && t[i..] == [t[i]] + t[i + 1..];
      if i == 0 {
        assert s == s[0..] && t == t[0..];
        break;
      }
    }
    r := 0;
  }

  lemma NoWords()
    ensures Val([]) == 0
  {
  }

  lemma CmpLengths(s: seq<nat>, t: seq<nat>)
    requires |s| != |t| && Words(s) && Words(t)
    requires (|s| > 1 ==> s[|s| - 1] != 0) && (|t| > 1 ==> t[|t| - 1] != 0)
    requires (|s| > 0 && |t| > 0) || Val(s) + Val(t) > 0
    ensures |s| < |t| <==> Val(s) < Val(t)
    ensures Val(s) != Val(t)
  {
    if |s| < |t| {
      Longer(s, t);
      ValShorter(s, t);
    } else {
      Longer(t, s);
      ValShorter(t, s);
    }
  }

  lemma Longer(s: seq<nat>, t: seq<nat>)
    requires |s| < |t| && Words(t) && (|t| > 1 ==> t[|t| - 1] != 0) && (|s| > 0 || Val(s) + Val(t) > 0)
    ensures Val(t) > 0
  {
    if |t| > 1 {
      WordsPositive(t);
    }
  }

  const WIDE: nat := 0x1_0000_0000_0000_0000

  /** A 64-bit difference of words wraps around exactly when it is negative, and the borrow shows in its upper half. */
  lemma WrapBorrow(d: int)
    requires d + BASE >= 0 && d < BASE
    ensures var y := d % WIDE;
            var borrow := y / BASE % 2;
            0 <= borrow <= 1 && y % BASE == d + borrow * BASE && 0 <= y % BASE < BASE
  {
    if d < 0 {
      DivUnique(d, WIDE, -1, d + WIDE);
      DivUnique(d + WIDE, BASE, BASE - 1, d + BASE);
    } else {
      DivUnique(d, WIDE, 0, d);
      DivUnique(d, BASE, 0, d);
    }
  }

  lemma BorrowArith(v: int, va: int, vb: int, borrow: int, w: int, a: int, b: int, c: int, borrow': int, base: int)
    requires v == va - vb + borrow * w && c == a - b - borrow + borrow' * base
    ensures v + c * w == (va + a * w) - (vb + b * w) + borrow' * (base * w)
  {
    calc {
      v + c * w;
      va - vb + borrow * w + (a - b - borrow + borrow' * base) * w;
      va - vb + borrow * w + a * w - b * w - borrow * w + borrow' * base * w;
      (va + a * w) - (vb + b * w) + borrow' * (base * w);
    }
  }

  /** The words below `i` of `s - t` are in `c`; `t` counts as zero beyond its end. */
  ghost predicate DiffDone(c: seq<nat>, s: seq<nat>, t: seq<nat>, borrow: nat) {
    && |c| <= |s| && Words(c) && borrow <= 1
    && Val(c) == Val(s[..|c|]) - Val(if |c| <= |t| then t[..|c|] else t) + borrow * Weight(|c|)
  }

  ghost function WordAt(t: seq<nat>, i: nat): nat {
    if i < |t| then t[i] else 0
  }

  lemma DiffStep(c: seq<nat>, s: seq<nat>, t: seq<nat>, borrow: nat)
    requires DiffDone(c, s, t, borrow) && |c| < |s| && s[|c|] < BASE && WordAt(t, |c|) < BASE
    ensures var y := (s[|c|] - WordAt(t, |c|) - borrow) % WIDE;
            DiffDone(c + [y % BASE], s, t, y / BASE % 2)
  {
    hide Val, Weight;
    var i := |c|;
    var d := s[i] - WordAt(t, i) - borrow;
    WrapBorrow(d);
    var y := d % WIDE;
    var c' := c + [y % BASE];
    ValNext(c', i);
    ValNext(s, i);
    WeightNext(i);
    assert c'[..i] == c && c'[..i + 1] == c';
    var vb := Val(if i <= |t| then t[..i] else t);
    assert Val(if i + 1 <= |t| then t[..i + 1] else t) == vb + WordAt(t, i) * Weight(i) by {
      if i < |t| {
        ValNext(t, i);
      } else if i == |t| {
        assert t[..i] == t;
      }
    }
    BorrowArith(Val(c), Val(s[..i]), vb, borrow, Weight(i), s[i], WordAt(t, i), y % BASE, y / BASE % 2, BASE);
  }

  lemma DiffEnd(c: seq<nat>, s: seq<nat>, t: seq<nat>, borrow: nat)
    requires DiffDone(c, s, t, borrow) && |c| == |s| >= |t| && Words(s) && Val(s) > Val(t)
    ensures Val(c) == Val(s) - Val(t)
  {
    hide Val, Weight;
    assert s[..|c|] == s && (|c| <= |t| ==> t[..|c|] == t);
    ValBound(c);
  }

  /** The two borrow loops of `diff`. */
  method SubWords(xa: array<nat>, wa: nat, xb: array<nat>, wb: nat, xc: array<nat>)
    requires xc != xa && xc != xb && wb <= wa <= xa.Length && wb <= xb.Length && wa <= xc.Length
    requires Words(xa[..wa]) && Words(xb[..wb]) && Val(xa[..wa]) > Val(xb[..wb])
    modifies xc
    ensures Words(xc[..wa]) && Val(xc[..wa]) == Val(xa[..wa]) - Val(xb[..wb])
  {
    hide Val, Weight, DiffDone;
    ghost var s, t := xa[..wa], xb[..wb];
    var i, borrow: nat := 0, 0;
    DiffStart(s, t);
    assert xc[..0] == [];
    while i < wb
      invariant 0 <= i <= wb && DiffDone(xc[..i], s, t, borrow) && xa[..wa] == s && xb[..wb] == t
    {
      assert xa[i] == s[i] && xb[i] == t[i];
      DiffStep(xc[..i], s, t, borrow);
      var y := (xa[i] - xb[i] - borrow) % WIDE;
      ghost var c := xc[..i];
      borrow := y / BASE % 2;
      xc[i] := y % BASE;
      assert xc[..i + 1] == c + [y % BASE];
      i := i + 1;
    }
    while i < wa
      invariant wb <= i <= wa && DiffDone(xc[..i], s, t, borrow) && xa[..wa] == s && xb[..wb] == t
    {
      assert xa[i] == s[i];
      DiffStep(xc[..i], s, t, borrow);
      var y := (xa[i] - borrow) % WIDE;
      ghost var c := xc[..i];
      borrow := y / BASE % 2;
      xc[i] := y % BASE;
      assert xc[..i + 1] == c + [y % BASE];
      i := i + 1;
    }
    DiffEnd(xc[..wa], s, t, borrow);
    DiffWords(xc[..wa], s, t, borrow);
  }

  lemma DiffStart(s: seq<nat>, t: seq<nat>)
    ensures DiffDone([], s, t, 0)
  {
    assert s[..0] == [] && t[..0] == [];
  }

  lemma DiffWords(c: seq<nat>, s: seq<nat>, t: seq<nat>, borrow: nat)
    requires DiffDone(c, s, t, borrow)
    ensures Words(c)
  {
  }

  /** `diff`: the absolute difference, with the sign of `a - b`. */
  method Diff(a: Bigint, b: Bigint) returns (c: Bigint)
    requires a.Normal() && b.Normal() && a.wds > 0 && b.wds > 0
    ensures fresh(c) && fresh(c.x) && c.Normal() && c.wds > 0
    ensures c.sign <==> a.Value() < b.Value()
    ensures c.Value() == if c.sign then b.Value() - a.Value() else a.Value() - b.Value()
  {
    hide Val, Pow;
    var i := Cmp(a, b);
    if i == 0 {
      c := FromWord(0);
    } else if i < 0 {
      c := DiffOrdered(b, a);
      c.sign := true;
    } else {
      c := DiffOrdered(a, b);
    }
  }

  method DiffOrdered(a: Bigint, b: Bigint) returns (c: Bigint)
    requires a.Normal() && b.Normal() && a.Value() > b.Value()
    ensures fresh(c) && fresh(c.x) && c.Normal() && c.wds > 0 && !c.sign && c.Value() == a.Value() - b.Value()
  {
    hide Val, Pow, Words;
    WordsOf(a.x[..a.wds]);
    WordsOf(b.x[..b.wds]);
    NotShorter(a, b);
    c := new Bigint(a.k);
    SubWords(a.x, a.wds, b.x, b.wds, c.x);
    var m := Trim(c.x, a.wds);
    ValTrim(c.x[..a.wds], m);
    assert c.x[..a.wds][..m] == c.x[..m];
    WordsAre(c.x[..a.wds]);
    forall i | 0 <= i < m
      ensures c.x[i] < BASE
    {
      assert c.x[i] == c.x[..a.wds][i];
    }
    c.wds := m;
    SomeWords(c.x[..m]);
  }

  lemma SomeWords(s: seq<nat>)
    requires Val(s) > 0
    ensures s != []
  {
  }

  lemma NotShorter(a: Bigint, b: Bigint)
    requires a.Normal() && b.Normal() && a.Value() > b.Value()
    ensures a.wds >= b.wds && a.wds > 0
  {
    if a.wds < b.wds {
      CmpLengths(a.x[..a.wds], b.x[..b.wds]);
    }
  }
}
