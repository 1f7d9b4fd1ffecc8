/** SHA-1 with its schedule kept in sixteen words and its registers renamed instead of moved, fed in chunks. */
module Sha1 {

  import opened Arith

  type Word = bv32
  type Byte = bv8

  // ---------------------------------------------------------------------------------------------
  // One block, as section 6.1.2 of FIPS 180-4 has it
  // ---------------------------------------------------------------------------------------------

  datatype Regs = Regs(a: Word, b: Word, c: Word, d: Word, e: Word)

  function Rol1(x: Word): Word {
    (x << 1) | (x >> 31)
  }

  function Rol5(x: Word): Word {
    (x << 5) | (x >> 27)
  }

  function Rol30(x: Word): Word {
    (x << 30) | (x >> 2)
  }

  /** Rotating by one moves all bits but the first up, and that one to the end; five is five times one, and thirty is
      undone by two. */
  lemma Rotations(x: Word)
    ensures Rol1(x) >> 1 == x & 0x7FFFFFFF && Rol1(x) & 1 == x >> 31
    ensures Rol5(x) == Rol1(Rol1(Rol1(Rol1(Rol1(x)))))
    ensures Rol1(Rol1(Rol30(x))) == x
  {
    hide Rol1, Rol5, Rol30;
    RotateOne(x);
    RotateFive(x);
    RotateThirty(x);
  }

  lemma RotateOne(x: Word)
    ensures Rol1(x) >> 1 == x & 0x7FFFFFFF && Rol1(x) & 1 == x >> 31
  {
  }

  lemma RotateFive(x: Word)
    ensures Rol5(x) == Rol1(Rol1(Rol1(Rol1(Rol1(x)))))
  {
  }

  lemma RotateThirty(x: Word)
    ensures Rol1(Rol1(Rol30(x))) == x
  {
  }

  function BigEndian(a: Byte, b: Byte, c: Byte, d: Byte): Word {
    ((a as Word) << 24) | ((b as Word) << 16) | ((c as Word) << 8) | (d as Word)
  }

  function Xor4(a: Word, b: Word, c: Word, d: Word): Word {
    a ^ b ^ c ^ d
  }

  /** Word `t` of the message schedule. */
  ghost function Schedule(m: seq<Byte>, t: nat): Word
    requires |m| == 64
  {
    if t < 16 then BigEndian(m[4 * t], m[4 * t + 1], m[4 * t + 2], m[4 * t + 3])
    else Rol1(Xor4(Schedule(m, t - 3), Schedule(m, t - 8), Schedule(m, t - 14), Schedule(m, t - 16)))
  }

  /** The functions and constants of the four groups of twenty rounds. */
  function Mix(t: nat, x: Word, y: Word, z: Word): Word {
    if t < 20 then (x & y) ^ (!x & z)
    else if t < 40 then x ^ y ^ z
    else if t < 60 then (x & y) ^ (x & z) ^ (y & z)
    else x ^ y ^ z
  }

  function K(t: nat): Word {
    if t < 20 then 0x5A827999 else if t < 40 then 0x6ED9EBA1 else if t < 60 then 0x8F1BBCDC else 0xCA62C1D6
  }

  /** The constants are the square roots of 2, 3, 5 and 10, as whole numbers of 2^-30. */
  lemma RootConstants(t: nat)
    ensures var k, n := K(t) as int, if t < 20 then 2 else if t < 40 then 3 else if t < 60 then 5 else 10;
            k * k <= n * 0x1000_0000_0000_0000 < (k + 1) * (k + 1)
  {
    var k := K(t) as int;
    assert k == if t < 20 then 0x5A827999 else if t < 40 then 0x6ED9EBA1 else if t < 60 then 0x8F1BBCDC else 0xCA62C1D6;
  }

  function Add5(a: Word, b: Word, c: Word, d: Word, e: Word): Word {
    a + b + c + d + e
  }

  ghost function Round(r: Regs, t: nat, w: Word): Regs {
    Regs(Add5(Rol5(r.a), Mix(t, r.b, r.c, r.d), r.e, K(t), w), r.a, Rol30(r.b), r.c, r.d)
  }

  ghost function Rounds(r: Regs, m: seq<Byte>, n: nat): Regs
    requires |m| == 64
  {
    if n == 0 then r else Round(Rounds(r, m, n - 1), n - 1, Schedule(m, n - 1))
  }

  function Add2(a: Word, b: Word): Word {
    a + b
  }

  function Plus(r: Regs, s: Regs): Regs {
    Regs(Add2(r.a, s.a), Add2(r.b, s.b), Add2(r.c, s.c), Add2(r.d, s.d), Add2(r.e, s.e))
  }

  /** The sum does not depend on the order, and with nothing added is what it was. */
  lemma PlusLaws(r: Regs, s: Regs)
    ensures Plus(r, s) == Plus(s, r) && Plus(r, Regs(0, 0, 0, 0, 0)) == r
    ensures Plus(r, Regs(1, 1, 1, 1, 1)) == Regs(r.a + 1, r.b + 1, r.c + 1, r.d + 1, r.e + 1)
  {
    hide Add2;
    AddLaws(r.a, s.a);
    AddLaws(r.b, s.b);
    AddLaws(r.c, s.c);
    AddLaws(r.d, s.d);
    AddLaws(r.e, s.e);
  }

  lemma AddLaws(a: Word, b: Word)
    ensures Add2(a, b) == Add2(b, a) && Add2(a, 0) == a && Add2(a, 1) == a + 1
  {
  }

  lemma AddFive(a: Word, b: Word)
    ensures Add5(a, b, 0, 0, 0) == b + a
  {
  }

  ghost function Compress(r: Regs, m: seq<Byte>): Regs
    requires |m| == 64
  {
    Plus(r, Rounds(r, m, 80))
  }

  // ---------------------------------------------------------------------------------------------
  // The code's own forms
  // ---------------------------------------------------------------------------------------------

  /** A little-endian load. */
  function Load(a: Byte, b: Byte, c: Byte, d: Byte): Word {
    ((d as Word) << 24) | ((c as Word) << 16) | ((b as Word) << 8) | (a as Word)
  }

  /** `blk0`: the bytes of a word, turned around by two rotations. */
  function Turn(l: Word): Word {
    (((l << 24) | (l >> 8)) & 0xFF00FF00) | (((l << 8) | (l >> 24)) & 0x00FF00FF)
  }

  lemma TurnLoad(a: Byte, b: Byte, c: Byte, d: Byte)
    ensures Turn(Load(a, b, c, d)) == BigEndian(a, b, c, d)
  {
  }

  /** The forms of the round functions in `R0` to `R4`. */
  function CodeMix(t: nat, w: Word, x: Word, y: Word): Word {
    if t < 20 then (w & (x ^ y)) ^ y
    else if t < 40 then w ^ x ^ y
    else if t < 60 then ((w | x) & y) | (w & x)
    else w ^ x ^ y
  }

  lemma Choose(w: Word, x: Word, y: Word)
    ensures (w & (x ^ y)) ^ y == (w & x) ^ (!w & y)
  {
  }

  lemma Majority(w: Word, x: Word, y: Word)
    ensures ((w | x) & y) | (w & x) == (w & x) ^ (w & y) ^ (x & y)
  {
  }

  lemma SameMix(t: nat, w: Word, x: Word, y: Word)
    ensures CodeMix(t, w, x, y) == Mix(t, w, x, y)
  {
    Choose(w, x, y);
    Majority(w, x, y);
  }

  /** The sixteen words before round `t`: those the rounds so far have made, the others as loaded. */
  ghost predicate Window(block: seq<Word>, m: seq<Byte>, t: nat)
    requires |m| == 64
  {
    && |block| == 16
    && forall j :: 0 <= j < 16 ==> block[j] == if j < t then Schedule(m, Latest(t, j)) else Loaded(m, j)
  }

  ghost function Loaded(m: seq<Byte>, j: nat): Word
    requires |m| == 64 && j < 16
  {
    Load(m[4 * j], m[4 * j + 1], m[4 * j + 2], m[4 * j + 3])
  }

  /** The last index before `t` that falls on word `j`. */
  ghost function Latest(t: nat, j: nat): (r: nat)
    requires j < 16 && j < t
    ensures r < t
  {
    j + (t - 1 - j) / 16 * 16
  }

  lemma LatestBack(t: nat, k: nat)
    requires 1 <= k <= 16 <= t
    ensures (t + 16 - k) % 16 < t && Latest(t, (t + 16 - k) % 16) == t - k
  {
  }

  lemma LatestNext(t: nat, j: nat)
    requires j < 16 && j < t + 1
    ensures Latest(t + 1, j) == if j == t % 16 then t else if j < t then Latest(t, j) else t
  {
  }

  /** What a round adds to its last register, summed as the macros do. */
  function CodeSum(z: Word, f: Word, blk: Word, k: Word, r: Word): Word {
    z + (f + blk + k + r)
  }

  lemma SameSum(z: Word, f: Word, blk: Word, k: Word, r: Word)
    ensures CodeSum(z, f, blk, k, r) == Add5(r, f, z, k, blk)
  {
  }

  /** `blk0` and `blk`: the next word of the schedule, made in place. */
  method Blk(block: array<Word>, ghost m: seq<Byte>, t: nat) returns (w: Word)
    requires block.Length == 16 && |m| == 64 && Window(block[..], m, t)
    modifies block
    ensures Window(block[..], m, t + 1) && w == Schedule(m, t)
  {
    hide Rol1, Turn, Load, BigEndian, Xor4, Schedule;
    ghost var b := block[..];
    if t < 16 {
      w := Turn(block[t]);
      assert block[t] == b[t];
      TurnLoad(m[4 * t], m[4 * t + 1], m[4 * t + 2], m[4 * t + 3]);
      ScheduleFirst(m, t);
      block[t] := w;
    } else {
      LatestBack(t, 3);
      LatestBack(t, 8);
      LatestBack(t, 14);
      LatestBack(t, 16);
      w := Rol1(Xor4(block[(t + 13) % 16], block[(t + 8) % 16], block[(t + 2) % 16], block[t % 16]));
      assert block[(t + 13) % 16] == b[(t + 13) % 16] && block[(t + 8) % 16] == b[(t + 8) % 16];
      assert block[(t + 2) % 16] == b[(t + 2) % 16] && block[t % 16] == b[t % 16];
      ScheduleNext(m, t);
      block[t % 16] := w;
    }
    WindowNext(b, block[..], m, t, w);
  }

  lemma ScheduleFirst(m: seq<Byte>, t: nat)
    requires |m| == 64 && t < 16
    ensures Schedule(m, t) == BigEndian(m[4 * t], m[4 * t + 1], m[4 * t + 2], m[4 * t + 3])
  {
  }

  lemma ScheduleNext(m: seq<Byte>, t: nat)
    requires |m| == 64 && t >= 16
    ensures Schedule(m, t) == Rol1(Xor4(Schedule(m, t - 3), Schedule(m, t - 8), Schedule(m, t - 14), Schedule(m, t - 16)))
  {
  }

  lemma WindowNext(b: seq<Word>, b': seq<Word>, m: seq<Byte>, t: nat, w: Word)
    requires |m| == 64 && Window(b, m, t) && b' == b[t % 16 := w] && w == Schedule(m, t)
    ensures Window(b', m, t + 1)
  {
    hide Schedule, Loaded, Latest;
    forall j | 0 <= j < 16
      ensures b'[j] == if j < t + 1 then Schedule(m, Latest(t + 1, j)) else Loaded(m, j)
    {
      if j < t + 1 {
        LatestNext(t, j);
      }
    }
  }

  /** One macro: `z` and `w` change, and the roles of the registers move on by one. */
  method R(v: Word, w: Word, x: Word, y: Word, z: Word, block: array<Word>, t: nat, ghost r: Regs, ghost m: seq<Byte>)
    returns (z': Word, w': Word)
    requires block.Length == 16 && |m| == 64 && Window(block[..], m, t) && Rounds(r, m, t) == Regs(v, w, x, y, z)
    modifies block
    ensures Window(block[..], m, t + 1) && Rounds(r, m, t + 1) == Regs(z', v, w', x, y)
  {
    hide Window, Schedule, Rol5, Rol30, CodeMix, Mix, K, CodeSum, Add5;
    var blk := Blk(block, m, t);
    z' := CodeSum(z, CodeMix(t, w, x, y), blk, K(t), Rol5(v));
    w' := Rol30(w);
    SameMix(t, w, x, y);
    SameSum(z, CodeMix(t, w, x, y), blk, K(t), Rol5(v));
  }

  /** `SHA1_Transform`. */
  method Transform(state: Regs, m: seq<Byte>) returns (r: Regs)
    requires |m| == 64
    ensures r == Compress(state, m)
  {
    hide Window, Rounds, Plus;
    var block := LoadBlock(m);
    var a, b, c, d, e := state.a, state.b, state.c, state.d, state.e;
    var t := 0;
    NoRounds(state, m);
    while t < 80
      invariant 0 <= t <= 80 && t % 5 == 0 && Window(block[..], m, t) && Rounds(state, m, t) == Regs(a, b, c, d, e)
    {
      e, b := R(a, b, c, d, e, block, t, state, m);
      d, a := R(e, a, b, c, d, block, t + 1, state, m);
      c, e := R(d, e, a, b, c, block, t + 2, state, m);
      b, d := R(c, d, e, a, b, block, t + 3, state, m);
      a, c := R(b, c, d, e, a, block, t + 4, state, m);
      t := t + 5;
    }
    r := Plus(state, Regs(a, b, c, d, e));
  }

  lemma NoRounds(r: Regs, m: seq<Byte>)
    requires |m| == 64
    ensures Rounds(r, m, 0) == r
  {
  }

  method LoadBlock(m: seq<Byte>) returns (block: array<Word>)
    requires |m| == 64
    ensures fresh(block) && block.Length == 16 && Window(block[..], m, 0)
  {
    hide Load, Schedule;
    block := new Word[16];
    for j := 0 to 16
      invariant forall i :: 0 <= i < j ==> block[i] == Loaded(m, i)
    {
      block[j] := Load(m[4 * j], m[4 * j + 1], m[4 * j + 2], m[4 * j + 3]);
    }
  }

  // ---------------------------------------------------------------------------------------------
  // Messages in chunks
  // ---------------------------------------------------------------------------------------------

  const INIT := Regs(0x67452301, 0xEFCDAB89, 0x98BADCFE, 0x10325476, 0xC3D2E1F0)

  /** The bytes of the first four words, the least significant first, count the hexadecimal digits up and down; those of
      the fifth pair them from both ends. */
  lemma InitialWords()
    ensures INIT.a == Load(0x01, 0x23, 0x45, 0x67) && INIT.b == Load(0x89, 0xAB, 0xCD, 0xEF)
    ensures INIT.c == Load(0xFE, 0xDC, 0xBA, 0x98) && INIT.d == Load(0x76, 0x54, 0x32, 0x10)
    ensures INIT.e == Load(0xF0, 0xE1, 0xD2, 0xC3)
  {
  }

  const HALF: nat := 0x1_0000_0000
  const CHUNK: nat := 0x2000_0000

  /** The state after the first `n` blocks of a message. */
  ghost function Chain(m: seq<Byte>, n: nat): Regs
    requires 64 * n <= |m|
  {
    if n == 0 then INIT else Compress(Chain(m, n - 1), m[64 * n - 64..64 * n])
  }

  lemma {:induction false} ChainSame(m: seq<Byte>, m': seq<Byte>, n: nat)
    requires 64 * n <= |m| && 64 * n <= |m'| && m[..64 * n] == m'[..64 * n]
    ensures Chain(m, n) == Chain(m', n)
  {
    hide Compress;
    if n > 0 {
      assert m[..64 * n][..64 * n - 64] == m[..64 * n - 64] && m'[..64 * n][..64 * n - 64] == m'[..64 * n - 64];
      ChainSame(m, m', n - 1);
      assert m[64 * n - 64..64 * n] == m[..64 * n][64 * n - 64..] && m'[64 * n - 64..64 * n] == m'[..64 * n][64 * n - 64..];
    }
  }

  lemma ChainNext(m: seq<Byte>, n: nat)
    requires 64 * n + 64 <= |m|
    ensures Chain(m, n + 1) == Compress(Chain(m, n), m[64 * n..64 * n + 64])
  {
    hide Compress;
    assert 64 * (n + 1) - 64 == 64 * n && 64 * (n + 1) == 64 * n + 64;
  }

  /** The low word of the bit count gives the place in the buffer. */
  lemma LowCount(n: nat, len: nat, c0: nat)
    requires c0 == 8 * n % HALF
    ensures c0 / 8 % 64 == n % 64 && (c0 + 8 * len) % HALF == 8 * (n + len) % HALF
  {
    var q := 8 * n / HALF;
    assert 8 * n == q * HALF + c0;
    assert c0 == 8 * (n - q * CHUNK);
    assert n == q * CHUNK + c0 / 8;
    var r := c0 / 8 % 64;
    assert n == (q * 0x80_0000 + c0 / 8 / 64) * 64 + r;
    DivUnique(n, 64, q * 0x80_0000 + c0 / 8 / 64, r);
    var s := (c0 + 8 * len) / HALF;
    assert 8 * (n + len) == (q + s) * HALF + (c0 + 8 * len) % HALF;
    DivUnique(8 * (n + len), HALF, q + s, (c0 + 8 * len) % HALF);
  }

  /** Whether adding a chunk carries out of the low word. */
  ghost predicate Carries(n: nat, len: nat) {
    8 * n % HALF + 8 * len % HALF >= HALF
  }

  /** The high word as the code computes it: the carry is looked for in the full width of the chunk's bit length. */
  function NewHigh(c0: nat, c1: nat, len: nat): nat {
    ((c1 + if (c0 + 8 * len) % HALF < 8 * len then 1 else 0) % HALF + len / CHUNK) % HALF
  }

  ghost function High(n: nat): nat {
    8 * n / HALF % HALF
  }

  lemma TrueHigh(n: nat, len: nat)
    ensures High(n + len) == (High(n) + len / CHUNK + if Carries(n, len) then 1 else 0) % HALF
  {
    var a, c := 8 * n / HALF, 8 * n % HALF;
    var b, d := len / CHUNK, 8 * len % HALF;
    assert 8 * n == a * HALF + c;
    assert 8 * len == b * HALF + d by {
      assert len == b * CHUNK + len % CHUNK;
      DivUnique(8 * len, HALF, b, 8 * (len % CHUNK));
    }
    var k := if Carries(n, len) then 1 else 0;
    assert 8 * (n + len) == (a + b + k) * HALF + (c + d - k * HALF);
    DivUnique(8 * (n + len), HALF, a + b + k, c + d - k * HALF);
    ModSum(a, b + k, HALF);
  }

  lemma ModSum(a: nat, b: nat, m: nat)
    requires m > 0
    ensures (a + b) % m == (a % m + b) % m
  {
    var q, r := a / m, a % m;
    assert a == q * m + r;
    var s := (r + b) / m;
    assert a + b == (q + s) * m + (r + b) % m;
    DivUnique(a + b, m, q + s, (r + b) % m);
  }

  /** The code keeps the 64-bit count exactly unless a chunk of 2^29 bytes or more does not carry. */
  lemma HighExact(n: nat, len: nat, c0: nat, c1: nat)
    requires c0 == 8 * n % HALF && c1 == High(n)
    ensures NewHigh(c0, c1, len) == High(n + len) <==> len < CHUNK || Carries(n, len)
  {
    hide NewHigh, High, Carries, Inc;
    TrueHigh(n, len);
    NewHighIs(c0, c1, len);
    if len < CHUNK {
      IncShort(n, len, c0);
    } else {
      IncLong(len, c0);
      if !Carries(n, len) {
        NotNext(c1 + len / CHUNK);
      }
    }
  }

  /** What the code takes for the carry. */
  ghost function Inc(c0: nat, len: nat): nat {
    if (c0 + 8 * len) % HALF < 8 * len then 1 else 0
  }

  lemma NewHighIs(c0: nat, c1: nat, len: nat)
    ensures NewHigh(c0, c1, len) == (c1 + len / CHUNK + Inc(c0, len)) % HALF
  {
    ModSum(c1 + Inc(c0, len), len / CHUNK, HALF);
  }

  lemma IncShort(n: nat, len: nat, c0: nat)
    requires len < CHUNK && c0 == 8 * n % HALF
    ensures Inc(c0, len) == if Carries(n, len) then 1 else 0
  {
    DivUnique(8 * len, HALF, 0, 8 * len);
    SmallCarry(c0, 8 * len);
  }

  lemma IncLong(len: nat, c0: nat)
    requires len >= CHUNK
    ensures Inc(c0, len) == 1
  {
  }

  lemma SmallCarry(c0: nat, d: nat)
    requires c0 < HALF && d < HALF
    ensures (c0 + d) % HALF < d <==> c0 + d >= HALF
  {
    if c0 + d >= HALF {
      DivUnique(c0 + d, HALF, 1, c0 + d - HALF);
    } else {
      DivUnique(c0 + d, HALF, 0, c0 + d);
    }
  }

  lemma NotNext(x: nat)
    ensures (x + 1) % HALF != x % HALF
  {
    var q, r := x / HALF, x % HALF;
    if r + 1 < HALF {
      DivUnique(x + 1, HALF, q, r + 1);
    } else {
      DivUnique(x + 1, HALF, q + 1, 0);
    }
  }

  lemma LongChunkMiscounted()
    ensures NewHigh(0, 0, CHUNK) == 2 && High(CHUNK) == 1
  {
  }

  // ---------------------------------------------------------------------------------------------
  // The padded message
  // ---------------------------------------------------------------------------------------------

  /** Four bytes of a number, the most significant first. */
  function Big(n: nat): (r: seq<Byte>)
    ensures |r| == 4
  {
    [Octet(n / 0x100_0000), Octet(n / 0x1_0000), Octet(n / 0x100), Octet(n)]
  }

  function Octet(n: nat): Byte {
    (n % 256) as Byte
  }

  /** The bytes by their weights. */
  lemma BigIs(a: nat, b: nat, c: nat, d: nat)
    requires a < 256 && b < 256 && c < 256 && d < 256
    ensures Big(a * 16777216 + b * 65536 + c * 256 + d) == [Octet(a), Octet(b), Octet(c), Octet(d)]
  {
    hide Octet;
    var n := a * 16777216 + b * 65536 + c * 256 + d;
    assert n / 0x100_0000 == a && n / 0x1_0000 == a * 256 + b && n / 0x100 == (a * 256 + b) * 256 + c;
    OnlyLow(a, b);
    OnlyLow(a * 256 + b, c);
    OnlyLow((a * 256 + b) * 256 + c, d);
  }

  lemma OnlyLow(x: nat, b: nat)
    ensures Octet(x * 256 + b) == Octet(b)
  {
    assert (x * 256 + b) % 256 == b % 256;
  }

  ghost function Zeros(n: nat): seq<Byte> {
    seq(n, _ => 0)
  }

  /** As few zeros as leave room for eight bytes at the end of a block. */
  ghost function PadZeros(n: nat): nat {
    if n % 64 <= 55 then 55 - n % 64 else 119 - n % 64
  }

  /** Section 5.1.1 of FIPS 180-4: a one bit, zeros, and the length in bits, to a multiple of 64 bytes. The upper word
      of the length is given. */
  ghost function PaddedWith(m: seq<Byte>, high: nat): seq<Byte>
    requires high < HALF
  {
    m + [0x80] + Zeros(PadZeros(|m|)) + (Big(high) + Big(8 * |m| % HALF))
  }

  lemma PaddedLength(m: seq<Byte>, high: nat)
    requires high < HALF
    ensures |PaddedWith(m, high)| % 64 == 0 && |PaddedWith(m, high)| == |m| + 1 + PadZeros(|m|) + 8
  {
    hide High;
    PadArith(|m|);
  }

  lemma PadArith(n: nat)
    ensures (n + 1 + PadZeros(n) + 8) % 64 == 0 && (n + 1 + PadZeros(n)) % 64 == 56
  {
    var q, r := n / 64, n % 64;
    assert n == q * 64 + r;
    var k := if r <= 55 then q else q + 1;
    assert n + 1 + PadZeros(n) == k * 64 + 56;
    DivUnique(n + 1 + PadZeros(n), 64, k, 56);
    DivUnique(n + 1 + PadZeros(n) + 8, 64, k + 1, 0);
  }

  function WordBytes(w: Word): (r: seq<Byte>)
    ensures |r| == 4
  {
    [((w >> 24) & 0xFF) as Byte, ((w >> 16) & 0xFF) as Byte, ((w >> 8) & 0xFF) as Byte, (w & 0xFF) as Byte]
  }

  function Digest(r: Regs): (d: seq<Byte>)
    ensures |d| == 20
  {
    WordBytes(r.a) + WordBytes(r.b) + WordBytes(r.c) + WordBytes(r.d) + WordBytes(r.e)
  }

  /** Read as big-endian words, the digest is the registers. */
  lemma DigestWords(r: Regs)
    ensures var d := Digest(r);
            && BigEndian(d[0], d[1], d[2], d[3]) == r.a && BigEndian(d[4], d[5], d[6], d[7]) == r.b
            && BigEndian(d[8], d[9], d[10], d[11]) == r.c && BigEndian(d[12], d[13], d[14], d[15]) == r.d
            && BigEndian(d[16], d[17], d[18], d[19]) == r.e
  {
    hide WordBytes, BigEndian;
    BytesOfWord(r.a);
    BytesOfWord(r.b);
    BytesOfWord(r.c);
    BytesOfWord(r.d);
    BytesOfWord(r.e);
  }

  lemma BytesOfWord(w: Word)
    ensures var b := WordBytes(w); BigEndian(b[0], b[1], b[2], b[3]) == w
  {
    WordOf(w);
  }

  lemma WordOf(w: Word)
    ensures BigEndian(((w >> 24) & 0xFF) as Byte, ((w >> 16) & 0xFF) as Byte, ((w >> 8) & 0xFF) as Byte, (w & 0xFF) as Byte) == w
  {
  }

  /** The hash of a message. */
  ghost function Sha(m: seq<Byte>): (d: seq<Byte>)
    ensures |d| == 20
  {
    ShaWith(m, High(|m|))
  }

  /** What the code computes when its upper count word is `high`. */
  ghost function ShaWith(m: seq<Byte>, high: nat): (d: seq<Byte>)
    requires high < HALF
    ensures |d| == 20
  {
    PaddedLength(m, high);
    Digest(Chain(PaddedWith(m, high), |PaddedWith(m, high)| / 64))
  }

  // ---------------------------------------------------------------------------------------------
  // The context
  // ---------------------------------------------------------------------------------------------

  class Context {
    var state: Regs
    var count0: nat
    var count1: nat
    const buffer: array<Byte>
    /** All that was fed. */
    ghost var msg: seq<Byte>

    ghost predicate Valid()
      reads this, buffer
    {
      && buffer.Length == 64 && state == Chain(msg, |msg| / 64)
      && buffer[..|msg| % 64] == msg[|msg| - |msg| % 64..]
      && count0 == 8 * |msg| % HALF && count1 < HALF
    }

    /** The high word of the count is right too. */
    ghost predicate Counted()
      reads this
    {
      count1 == High(|msg|)
    }

    /** `sat_SHA1_Init`. */
    constructor ()
      ensures Valid() && Counted() && msg == [] && count1 == 0 && fresh(buffer)
    {
      state, count0, count1, msg := INIT, 0, 0, [];
      buffer := new Byte[64];
    }

    method Copy(at: nat, data: seq<Byte>)
      requires at + |data| <= buffer.Length
      modifies buffer
      ensures buffer[..at] == old(buffer[..at]) && buffer[at..at + |data|] == data
    {
      for i := 0 to |data|
        invariant buffer[..at] == old(buffer[..at]) && buffer[at..at + i] == data[..i]
      {
        ghost var done := buffer[at..at + i];
        buffer[at + i] := data[i];
        assert buffer[at..at + i + 1] == done + [data[i]];
      }
      assert data[..|data|] == data;
    }

    /** `sat_SHA1_Update`. The high word stays right exactly when the chunk is short or carries. */
    method Update(data: seq<Byte>)
      requires Valid() && |data| < 0x2000_0000_0000_0000
      modifies this, buffer
      ensures Valid() && msg == old(msg) + data && count1 == NewHigh(old(count0), old(count1), |data|)
      ensures old(Counted()) ==> (Counted() <==> |data| < CHUNK || Carries(|old(msg)|, |data|))
    {
      hide Chain, High, Compress;
      var len := |data|;
      LowCount(|msg|, len, count0);
      if Counted() {
        HighExact(|msg|, len, count0, count1);
      }
      var j := count0 / 8 % 64;
      count1 := NewHigh(count0, count1, len);
      count0 := (count0 + 8 * len) % HALF;
      Absorb(j, data);
    }

    /** The blocks that a chunk completes, and what is left for the buffer. */
    method Absorb(j: nat, data: seq<Byte>)
      requires buffer.Length == 64 && state == Chain(msg, |msg| / 64) && j == |msg| % 64
      requires buffer[..j] == msg[|msg| - j..]
      modifies this`state, this`msg, buffer
      ensures msg == old(msg) + data && state == Chain(msg, |msg| / 64)
      ensures buffer[..|msg| % 64] == msg[|msg| - |msg| % 64..]
    {
      hide Chain, Compress;
      ghost var m0, all := msg, msg + data;
      ghost var q := |m0| / 64;
      assert |m0| == 64 * q + j && m0[..64 * q] == all[..64 * q];
      ChainSame(m0, all, q);
      assert m0[|m0| - j..] == m0[64 * q..];
      msg := all;
      if j + |data| > 63 {
        var i := 64 - j;
        JoinedTo(m0, data, 64 * q, i);
        FillBlock(j, data[..i], m0, all, q);
        i := WholeBlocks(i, data, m0, q + 1);
        q := (|m0| + i) / 64;
        Copy(0, data[i..]);
        QuotientIs(|all|, q, |data| - i);
        assert buffer[..|data| - i] == buffer[0..0 + |data[i..]|];
        JoinedFrom(m0, data, i);
      } else {
        Copy(j, data);
        QuotientIs(|all|, q, j + |data|);
        assert buffer[..j + |data|] == buffer[..j] + buffer[j..j + |data|];
        JoinedTo(m0, data, 64 * q, |data|);
      }
    }

    /** The buffer is filled up and goes in. */
    method FillBlock(j: nat, part: seq<Byte>, ghost m0: seq<Byte>, ghost all: seq<Byte>, ghost q: nat)
      requires buffer.Length == 64 && j + |part| == 64 && |all| >= 64 * q + 64 && |m0| == 64 * q + j
      requires state == Chain(all, q) && buffer[..j] == m0[64 * q..] && all[64 * q..64 * q + 64] == m0[64 * q..] + part
      modifies this`state, buffer
      ensures state == Chain(all, q + 1)
    {
      hide Chain, Compress;
      Copy(j, part);
      assert buffer[..] == buffer[..j] + buffer[j..j + |part|];
      ChainNext(all, q);
      state := Transform(state, buffer[..]);
    }

    /** Whole blocks go in straight from the data. */
    method WholeBlocks(i0: nat, data: seq<Byte>, ghost m0: seq<Byte>, ghost q0: nat) returns (i: nat)
      requires i0 <= |data| && |m0| + i0 == 64 * q0 && state == Chain(m0 + data, q0)
      modifies this`state
      ensures i <= |data| < i + 64 && (|m0| + i) % 64 == 0 && state == Chain(m0 + data, (|m0| + i) / 64)
    {
      hide Chain, Compress;
      i := i0;
      ghost var q := q0;
      while i + 63 < |data|
        invariant i <= |data| && |m0| + i == 64 * q && state == Chain(m0 + data, q)
      {
        assert data[i..i + 64] == (m0 + data)[64 * q..64 * q + 64];
        ChainNext(m0 + data, q);
        state := Transform(state, data[i..i + 64]);
        i, q := i + 64, q + 1;
      }
      QuotientIs(|m0| + i, q, 0);
    }

    /** `sat_SHA1_Final`: the padding is fed like any other bytes. */
    method Final() returns (digest: seq<Byte>)
      requires Valid()
      modifies this, buffer
      ensures digest == ShaWith(old(msg), old(count1))
      ensures old(Counted()) ==> digest == Sha(old(msg))
    {
      hide Chain, High, Digest, Big, WordBytes, Zeros, PadZeros;
      ghost var m, high := msg, count1;
      var finalcount := Big(count1) + Big(count0);
      Update([0x80]);
      PadOut(m);
      Update(finalcount);
      PaddedLength(m, high);
      assert msg == PaddedWith(m, high);
      digest := Digest(state);
    }

    /** Zeros, one at a time, until eight bytes of the block are left. */
    method PadOut(ghost m: seq<Byte>)
      requires Valid() && msg == m + [0x80]
      modifies this, buffer
      ensures Valid() && msg == m + [0x80] + Zeros(PadZeros(|m|))
    {
      hide Context.Valid, Context.Counted, Zeros, PadZeros, Carries;
      ghost var z := 0;
      ZerosMore(m, 0);
      ZerosLeft(|m|, 0);
      LowByte();
      while count0 / 8 % 64 * 8 != 448
        invariant Valid() && z <= PadZeros(|m|) && msg == m + [0x80] + Zeros(z) && |Zeros(z)| == z
        invariant count0 / 8 % 64 == 56 <==> z == PadZeros(|m|)
        decreases PadZeros(|m|) - z
      {
        Update([0]);
        ZerosMore(m, z);
        z := z + 1;
        ZerosMore(m, z);
        ZerosLeft(|m|, z);
        LowByte();
      }
    }

    lemma LowByte()
      requires Valid()
      ensures count0 / 8 % 64 == |msg| % 64
    {
      hide Chain;
      LowCount(|msg|, 0, count0);
    }
  }

  lemma ZerosMore(m: seq<Byte>, z: nat)
    ensures |Zeros(z)| == z && (m + [0x80] + Zeros(z)) + [0] == m + [0x80] + Zeros(z + 1)
    ensures z == 0 ==> m + [0x80] + Zeros(z) == m + [0x80]
  {
    assert Zeros(z) + [0] == Zeros(z + 1);
  }

  lemma JoinedTo(a: seq<Byte>, b: seq<Byte>, n: nat, i: nat)
    requires n <= |a| && i <= |b|
    ensures (a + b)[n..|a| + i] == a[n..] + b[..i] && (i == |b| ==> (a + b)[n..] == a[n..] + b)
  {
  }

  lemma JoinedFrom(a: seq<Byte>, b: seq<Byte>, i: nat)
    requires i <= |b|
    ensures (a + b)[|a| + i..] == b[i..]
  {
  }

  /** The upper count word that the code arrives at. */
  ghost function CountHigh(cs: seq<seq<Byte>>): (c: nat)
    ensures c < HALF
  {
    if cs == [] then 0 else
    NewHigh(8 * |Flat(cs[..|cs| - 1])| % HALF, CountHigh(cs[..|cs| - 1]), |cs[|cs| - 1]|)
  }

  /** How many chunks are long and do not carry. */
  ghost function Bad(cs: seq<seq<Byte>>): nat {
    if cs == [] then 0 else
    var init, len := cs[..|cs| - 1], |cs[|cs| - 1]|;
    Bad(init) + if len >= CHUNK && !Carries(|Flat(init)|, len) then 1 else 0
  }

  /** Each of them makes it one too large. */
  lemma {:induction false} CountsBad(cs: seq<seq<Byte>>)
    ensures CountHigh(cs) == (High(|Flat(cs)|) + Bad(cs)) % HALF && Bad(cs) * CHUNK <= |Flat(cs)|
  {
    hide NewHigh, High, Carries;
    if cs == [] {
      HighZero();
    } else {
      var n := |cs| - 1;
      CountsBad(cs[..n]);
      OneChunk(|Flat(cs[..n])|, |cs[n]|, Bad(cs[..n]));
    }
  }

  lemma OneChunk(n: nat, len: nat, bad: nat)
    ensures var c1 := (High(n) + bad) % HALF;
            NewHigh(8 * n % HALF, c1, len) == (High(n + len) + bad + if len >= CHUNK && !Carries(n, len) then 1 else 0) % HALF
  {
    hide NewHigh, High, Carries, Inc;
    var c0, c1, q, h := 8 * n % HALF, (High(n) + bad) % HALF, len / CHUNK, High(n);
    var inc, carry := Inc(c0, len), if Carries(n, len) then 1 else 0;
    NewHighIs(c0, c1, len);
    TrueHigh(n, len);
    if len < CHUNK {
      IncShort(n, len, c0);
    } else {
      IncLong(len, c0);
    }
    ModSum(h + bad, q + inc, HALF);
    ModSum(h + q + carry, bad + inc - carry, HALF);
  }

  /** So it is right if and only if there is no such chunk, up to a multiple of 2^32 of them; in a message below 2^61
      bytes there are not that many. */
  lemma CountsRight(cs: seq<seq<Byte>>)
    ensures CountHigh(cs) == High(|Flat(cs)|) <==> Bad(cs) % HALF == 0
    ensures |Flat(cs)| < 0x2000_0000_0000_0000 ==> (CountHigh(cs) == High(|Flat(cs)|) <==> Bad(cs) == 0)
  {
    hide CountHigh, Bad, Flat, High;
    CountsBad(cs);
    HighRange(|Flat(cs)|);
    SameWord(High(|Flat(cs)|), Bad(cs));
    if |Flat(cs)| < 0x2000_0000_0000_0000 {
      LessWord(Bad(cs));
    }
  }

  lemma HighRange(n: nat)
    ensures High(n) < HALF
  {
  }

  lemma SameWord(h: nat, b: nat)
    requires h < HALF
    ensures (h + b) % HALF == h <==> b % HALF == 0
  {
    var q, r := b / HALF, b % HALF;
    assert h + b == q * HALF + (h + r);
    if h + r < HALF {
      DivUnique(h + b, HALF, q, h + r);
    } else {
      DivUnique(h + b, HALF, q + 1, h + r - HALF);
    }
  }

  lemma LessWord(b: nat)
    requires b * CHUNK < 0x2000_0000_0000_0000
    ensures b % HALF == 0 <==> b == 0
  {
    DivUnique(b, HALF, 0, b);
  }

  lemma {:induction false} NoneBad(cs: seq<seq<Byte>>)
    requires forall i :: 0 <= i < |cs| ==> |cs[i]| < CHUNK || Carries(|Flat(cs[..i])|, |cs[i]|)
    ensures Bad(cs) == 0
  {
    hide Carries, Flat;
    if cs != [] {
      var init := cs[..|cs| - 1];
      forall i | 0 <= i < |init|
        ensures |init[i]| < CHUNK || Carries(|Flat(init[..i])|, |init[i]|)
      {
        assert init[..i] == cs[..i];
      }
      NoneBad(init);
    }
  }

  lemma HighZero()
    ensures High(0) == 0
  {
  }

  /** A message in any chunks that a `size_t` counts in bits. */
  method HashChunks(chunks: seq<seq<Byte>>) returns (digest: seq<Byte>)
    requires forall i :: 0 <= i < |chunks| ==> |chunks[i]| < 0x2000_0000_0000_0000
    ensures digest == ShaWith(Flat(chunks), CountHigh(chunks))
    ensures Bad(chunks) % HALF == 0 ==> digest == Sha(Flat(chunks))
  {
    hide ShaWith, NewHigh, Carries, High, Chain, Bad;
    var ctx := new Context();
    assert chunks[..0] == [];
    for i := 0 to |chunks|
      invariant ctx.Valid() && ctx.msg == Flat(chunks[..i]) && ctx.count1 == CountHigh(chunks[..i]) && fresh(ctx) && fresh(ctx.buffer)
    {
      assert chunks[..i + 1][..i] == chunks[..i];
      ctx.Update(chunks[i]);
    }
    assert chunks[..|chunks|] == chunks;
    digest := ctx.Final();
    CountsRight(chunks);
  }

  ghost function Flat(cs: seq<seq<Byte>>): seq<Byte> {
    if cs == [] then [] else Flat(cs[..|cs| - 1]) + cs[|cs| - 1]
  }

  lemma ZerosLeft(n: nat, z: nat)
    requires z <= PadZeros(n)
    ensures (n + 1 + z) % 64 == 56 <==> z == PadZeros(n)
  {
    var q, r := n / 64, n % 64;
    assert n == q * 64 + r;
    if r <= 55 {
      DivUnique(n + 1 + z, 64, q, r + 1 + z);
    } else if r + 1 + z < 64 {
      DivUnique(n + 1 + z, 64, q, r + 1 + z);
    } else {
      DivUnique(n + 1 + z, 64, q + 1, r + 1 + z - 64);
    }
  }

  // ---------------------------------------------------------------------------------------------
  // The keyed hash
  // ---------------------------------------------------------------------------------------------

  ghost function XorAll(s: seq<Byte>, x: Byte): seq<Byte> {
    seq(|s|, i requires 0 <= i < |s| => XorByte(s[i], x))
  }

  /** A key of 64 bytes: the key itself with zeros, or its hash with zeros if it is longer. */
  ghost function BlockKey(key: seq<Byte>): (k: seq<Byte>)
    ensures |k| == 64
  {
    if |key| > 64 then Sha(key) + Zeros(44) else key + Zeros(64 - |key|)
  }

  /** Section 2 of RFC 2104. */
  ghost function Hmac(key: seq<Byte>, text: seq<Byte>): seq<Byte> {
    Sha(XorAll(BlockKey(key), 0x5c) + Sha(XorAll(BlockKey(key), 0x36) + text))
  }

  function Byte0(w: Word): Byte {
    (w & 0xFF) as Byte
  }

  function Byte1(w: Word): Byte {
    ((w >> 8) & 0xFF) as Byte
  }

  function Byte2(w: Word): Byte {
    ((w >> 16) & 0xFF) as Byte
  }

  function Byte3(w: Word): Byte {
    ((w >> 24) & 0xFF) as Byte
  }

  /** A word stored back in little-endian order. */
  function Unload(w: Word): (r: seq<Byte>)
    ensures |r| == 4
  {
    [Byte0(w), Byte1(w), Byte2(w), Byte3(w)]
  }

  function XorWord(v: Word, w: Word): Word {
    v ^ w
  }

  function XorByte(a: Byte, b: Byte): Byte {
    a ^ b
  }

  lemma XorAt0(v: Word, w: Word)
    ensures Byte0(XorWord(v, w)) == XorByte(Byte0(v), Byte0(w))
  {
  }

  lemma XorAt1(v: Word, w: Word)
    ensures Byte1(XorWord(v, w)) == XorByte(Byte1(v), Byte1(w))
  {
  }

  lemma XorAt2(v: Word, w: Word)
    ensures Byte2(XorWord(v, w)) == XorByte(Byte2(v), Byte2(w))
  {
  }

  lemma XorAt3(v: Word, w: Word)
    ensures Byte3(XorWord(v, w)) == XorByte(Byte3(v), Byte3(w))
  {
  }

  lemma BytesOfLoad(a: Byte, b: Byte, c: Byte, d: Byte)
    ensures Byte0(Load(a, b, c, d)) == a && Byte1(Load(a, b, c, d)) == b
    ensures Byte2(Load(a, b, c, d)) == c && Byte3(Load(a, b, c, d)) == d
  {
  }

  lemma XorLoad(a: Byte, b: Byte, c: Byte, d: Byte, x: Byte)
    ensures Unload(XorWord(Load(a, b, c, d), Load(x, x, x, x))) == [XorByte(a, x), XorByte(b, x), XorByte(c, x), XorByte(d, x)]
  {
    hide Load, XorWord, XorByte, Byte0, Byte1, Byte2, Byte3;
    var v, w := Load(a, b, c, d), Load(x, x, x, x);
    BytesOfLoad(a, b, c, d);
    BytesOfLoad(x, x, x, x);
    XorAt0(v, w);
    XorAt1(v, w);
    XorAt2(v, w);
    XorAt3(v, w);
  }

  /** `xor_key`: word by word. */
  method XorKey(key: seq<Byte>, x: Byte) returns (r: seq<Byte>)
    requires |key| == 64
    ensures r == XorAll(key, x)
  {
    hide Load, Unload, XorWord, XorByte;
    r := [];
    var i := 0;
    while i < 64
      invariant 0 <= i <= 64 && i % 4 == 0 && |r| == i && forall j :: 0 <= j < i ==> r[j] == XorByte(key[j], x)
    {
      XorLoad(key[i], key[i + 1], key[i + 2], key[i + 3], x);
      r := r + Unload(XorWord(Load(key[i], key[i + 1], key[i + 2], key[i + 3]), Load(x, x, x, x)));
      i := i + 4;
    }
  }

  lemma XorTwice(k: seq<Byte>, x: Byte, y: Byte)
    ensures XorAll(XorAll(k, x), x ^ y) == XorAll(k, y)
  {
    hide XorByte;
    forall i | 0 <= i < |k|
      ensures XorByte(XorByte(k[i], x), x ^ y) == XorByte(k[i], y)
    {
      XorCancel(k[i], x, y);
    }
  }

  lemma XorCancel(a: Byte, x: Byte, y: Byte)
    ensures XorByte(XorByte(a, x), x ^ y) == XorByte(a, y)
  {
  }

  /** `lhmac_sha1`. The text is counted on from the block that the key fills. */
  method HmacSha1(key: seq<Byte>, text: seq<Byte>) returns (digest: seq<Byte>)
    requires |key| < 0x2000_0000_0000_0000 && |text| < 0x2000_0000_0000_0000
    ensures |digest| == 20
    ensures |key| < CHUNK && (|text| < CHUNK || Carries(64, |text|)) ==> digest == Hmac(key, text)
  {
    hide Sha, ShaWith, XorAll, Flat, CountHigh, Carries, Bad;
    var rkey;
    if |key| > 64 {
      var d := HashChunks([key]);
      FlatOne(key);
      if |key| < CHUNK {
        NoneBad([key]);
      }
      rkey := d + seq(44, _ => 0);
    } else {
      rkey := key + seq(64 - |key|, _ => 0);
    }
    assert |key| < CHUNK ==> rkey == BlockKey(key);
    var outer := XorKey(rkey, 0x5c);
    XorTwice(rkey, 0x5c, 0x36);
    XorLength(rkey, 0x5c);
    var inner := XorKey(outer, 0x5c ^ 0x36);
    XorLength(rkey, 0x36);
    var digest2 := HashChunks([inner, text]);
    FlatTwo(inner, text);
    if |text| < CHUNK || Carries(64, |text|) {
      NoneBad([inner, text]);
    }
    digest := HashChunks([outer, digest2]);
    FlatTwo(outer, digest2);
    NoneBad([outer, digest2]);
  }

  lemma XorLength(k: seq<Byte>, x: Byte)
    ensures |XorAll(k, x)| == |k|
  {
  }

  lemma FlatOne(a: seq<Byte>)
    ensures Flat([a]) == a
  {
    assert [a][..0] == [];
  }

  lemma FlatTwo(a: seq<Byte>, b: seq<Byte>)
    ensures Flat([a, b]) == a + b && |Flat([a, b][..1])| == |a|
  {
    assert [a, b][..1] == [a];
    FlatOne(a);
  }

  lemma QuotientIs(n: nat, q: nat, r: nat)
    requires n == 64 * q + r && r < 64
    ensures n / 64 == q && n % 64 == r
  {
  }
}
