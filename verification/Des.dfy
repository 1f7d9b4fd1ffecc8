/** The block cipher: a key schedule of sixteen pairs of words, used forwards to encode and backwards to decode.
    Nothing here depends on what is in the schedule or in the substitution boxes. */
module Des {

  import opened Arith
  import opened Options

  type Word = bv32
  type Byte = bv8

  /** Box `i` of the eight, applied to six bits. */
  type Boxes = (int, Word) -> Word

  // ---------------------------------------------------------------------------------------------
  // Bytes and words
  // ---------------------------------------------------------------------------------------------

  /** Big-endian. */
  function GetWord(a: Byte, b: Byte, c: Byte, d: Byte): Word {
    ((a as Word) << 24) | ((b as Word) << 16) | ((c as Word) << 8) | (d as Word)
  }

  function ByteOf(n: Word): Byte {
    (n & 0xFF) as Byte
  }

  function PutWord(n: Word): (r: seq<Byte>)
    ensures |r| == 4
  {
    [ByteOf(n >> 24), ByteOf(n >> 16), ByteOf(n >> 8), ByteOf(n)]
  }

  lemma PutGet(a: Byte, b: Byte, c: Byte, d: Byte)
    ensures PutWord(GetWord(a, b, c, d)) == [a, b, c, d]
  {
  }

  lemma GetPut(n: Word)
    ensures GetWord(ByteOf(n >> 24), ByteOf(n >> 16), ByteOf(n >> 8), ByteOf(n)) == n
  {
  }

  // ---------------------------------------------------------------------------------------------
  // The initial and final permutations
  // ---------------------------------------------------------------------------------------------

  datatype Pair = Pair(x: Word, y: Word)

  function Xor(a: Word, b: Word): Word {
    a ^ b
  }

  function Bits4(a: Word, b: Word): Word {
    ((a >> 4) ^ b) & 0x0F0F0F0F
  }

  function Up4(t: Word): Word {
    t << 4
  }

  function Swap4(p: Pair): Pair {
    var t := Bits4(p.x, p.y);
    Pair(Xor(p.x, Up4(t)), Xor(p.y, t))
  }

  function Bits16(a: Word, b: Word): Word {
    ((a >> 16) ^ b) & 0x0000FFFF
  }

  function Up16(t: Word): Word {
    t << 16
  }

  function Swap16(p: Pair): Pair {
    var t := Bits16(p.x, p.y);
    Pair(Xor(p.x, Up16(t)), Xor(p.y, t))
  }

  function Bits2(a: Word, b: Word): Word {
    ((a >> 2) ^ b) & 0x33333333
  }

  function Up2(t: Word): Word {
    t << 2
  }

  function Swap2(p: Pair): Pair {
    var t := Bits2(p.y, p.x);
    Pair(Xor(p.x, t), Xor(p.y, Up2(t)))
  }

  function Bits8(a: Word, b: Word): Word {
    ((a >> 8) ^ b) & 0x00FF00FF
  }

  function Up8(t: Word): Word {
    t << 8
  }

  function Swap8(p: Pair): Pair {
    var t := Bits8(p.y, p.x);
    Pair(Xor(p.x, t), Xor(p.y, Up8(t)))
  }

  function Bits1(a: Word, b: Word): Word {
    (a ^ b) & 0xAAAAAAAA
  }

  function Up1(t: Word): Word {
    t
  }

  function Swap1(p: Pair): Pair {
    var t := Bits1(p.x, p.y);
    Pair(Xor(p.x, Up1(t)), Xor(p.y, t))
  }

  function Left1(x: Word): Word {
    (x << 1) | (x >> 31)
  }

  function Right1(x: Word): Word {
    (x << 31) | (x >> 1)
  }

  function Initial(p: Pair): Pair {
    var a := Swap8(Swap2(Swap16(Swap4(p))));
    var b := Swap1(Pair(a.x, Left1(a.y)));
    Pair(Left1(b.x), b.y)
  }

  function Final(p: Pair): Pair {
    var b := Swap1(Pair(Right1(p.x), p.y));
    Swap4(Swap16(Swap2(Swap8(Pair(b.x, Right1(b.y))))))
  }

  lemma XorTwice(x: Word, t: Word)
    ensures Xor(Xor(x, t), t) == x
  {
  }

  lemma Bits4Same(a: Word, b: Word)
    ensures Bits4(Xor(a, Up4(Bits4(a, b))), Xor(b, Bits4(a, b))) == Bits4(a, b)
  {
  }

  lemma Swap4Twice(p: Pair)
    ensures Swap4(Swap4(p)) == p
  {
    hide Bits4, Up4, Xor;
    var t := Bits4(p.x, p.y);
    Bits4Same(p.x, p.y);
    XorTwice(p.x, Up4(t));
    XorTwice(p.y, t);
  }

  lemma Bits16Same(a: Word, b: Word)
    ensures Bits16(Xor(a, Up16(Bits16(a, b))), Xor(b, Bits16(a, b))) == Bits16(a, b)
  {
  }

  lemma Swap16Twice(p: Pair)
    ensures Swap16(Swap16(p)) == p
  {
    hide Bits16, Up16, Xor;
    var t := Bits16(p.x, p.y);
    Bits16Same(p.x, p.y);
    XorTwice(p.x, Up16(t));
    XorTwice(p.y, t);
  }

  lemma Bits2Same(a: Word, b: Word)
    ensures Bits2(Xor(a, Up2(Bits2(a, b))), Xor(b, Bits2(a, b))) == Bits2(a, b)
  {
  }

  lemma Swap2Twice(p: Pair)
    ensures Swap2(Swap2(p)) == p
  {
    hide Bits2, Up2, Xor;
    var t := Bits2(p.y, p.x);
    Bits2Same(p.y, p.x);
    XorTwice(p.y, Up2(t));
    XorTwice(p.x, t);
  }

  lemma Bits8Same(a: Word, b: Word)
    ensures Bits8(Xor(a, Up8(Bits8(a, b))), Xor(b, Bits8(a, b))) == Bits8(a, b)
  {
  }

  lemma Swap8Twice(p: Pair)
    ensures Swap8(Swap8(p)) == p
  {
    hide Bits8, Up8, Xor;
    var t := Bits8(p.y, p.x);
    Bits8Same(p.y, p.x);
    XorTwice(p.y, Up8(t));
    XorTwice(p.x, t);
  }

  lemma Bits1Same(a: Word, b: Word)
    ensures Bits1(Xor(a, Up1(Bits1(a, b))), Xor(b, Bits1(a, b))) == Bits1(a, b)
  {
  }

  lemma Swap1Twice(p: Pair)
    ensures Swap1(Swap1(p)) == p
  {
    hide Bits1, Up1, Xor;
    var t := Bits1(p.x, p.y);
    Bits1Same(p.x, p.y);
    XorTwice(p.x, Up1(t));
    XorTwice(p.y, t);
  }

  /** Each exchange of bits is its own inverse. */
  lemma SwapTwice(p: Pair)
    ensures Swap4(Swap4(p)) == p && Swap16(Swap16(p)) == p && Swap2(Swap2(p)) == p && Swap8(Swap8(p)) == p
    ensures Swap1(Swap1(p)) == p
  {
    hide Swap4, Swap16, Swap2, Swap8, Swap1;
    Swap4Twice(p);
    Swap16Twice(p);
    Swap2Twice(p);
    Swap8Twice(p);
    Swap1Twice(p);
  }

  lemma Rotations(x: Word)
    ensures Left1(Right1(x)) == x && Right1(Left1(x)) == x
  {
  }

  /** The two permutations undo each other. */
  lemma InitialFinal(p: Pair)
    ensures Initial(Final(p)) == p && Final(Initial(p)) == p
  {
    hide Swap4, Swap16, Swap2, Swap8, Swap1, Left1, Right1;
    Rotations(p.x);
    var b := Swap1(Pair(Right1(p.x), p.y));
    SwapTwice(Pair(Right1(p.x), p.y));
    Rotations(b.y);
    var c := Pair(b.x, Right1(b.y));
    SwapTwice(c);
    SwapTwice(Swap8(c));
    SwapTwice(Swap2(Swap8(c)));
    SwapTwice(Swap16(Swap2(Swap8(c))));

    SwapTwice(p);
    SwapTwice(Swap4(p));
    SwapTwice(Swap16(Swap4(p)));
    SwapTwice(Swap2(Swap16(Swap4(p))));
    var a := Swap8(Swap2(Swap16(Swap4(p))));
    Rotations(a.y);
    SwapTwice(Pair(a.x, Left1(a.y)));
    Rotations(Swap1(Pair(a.x, Left1(a.y))).x);
  }

  datatype Octet = Octet(b1: Byte, b2: Byte, b3: Byte, b4: Byte, b5: Byte, b6: Byte, b7: Byte, b8: Byte)

  function WordsOf(o: Octet): Pair {
    Pair(GetWord(o.b1, o.b2, o.b3, o.b4), GetWord(o.b5, o.b6, o.b7, o.b8))
  }

  /** Bit `k` of a byte, counted from one at the top. */
  function BitOfByte(b: Byte, k: nat): Byte
    requires 1 <= k <= 8
  {
    match k
    case 1 => (b >> 7) & 1
    case 2 => (b >> 6) & 1
    case 3 => (b >> 5) & 1
    case 4 => (b >> 4) & 1
    case 5 => (b >> 3) & 1
    case 6 => (b >> 2) & 1
    case 7 => (b >> 1) & 1
    case 8 => (b >> 0) & 1
  }

  /** Bit `k` of each of eight bytes, the last byte first. */
  function Column(o: Octet, k: nat): Byte
    requires 1 <= k <= 8
  {
    (BitOfByte(o.b8, k) << 7) | (BitOfByte(o.b7, k) << 6) | (BitOfByte(o.b6, k) << 5) | (BitOfByte(o.b5, k) << 4) |
    (BitOfByte(o.b4, k) << 3) | (BitOfByte(o.b3, k) << 2) | (BitOfByte(o.b2, k) << 1) | BitOfByte(o.b1, k)
  }

  // What each exchange does: bits of the first word change places with bits of the second.

  function First4(a: Word, b: Word): Word {
    (a & 0x0F0F0F0F) | ((b & 0x0F0F0F0F) << 4)
  }

  function Second4(a: Word, b: Word): Word {
    (b & 0xF0F0F0F0) | ((a >> 4) & 0x0F0F0F0F)
  }

  lemma First4Is(a: Word, b: Word)
    ensures Xor(a, Up4(Bits4(a, b))) == First4(a, b)
  {
  }

  lemma Second4Is(a: Word, b: Word)
    ensures Xor(b, Bits4(a, b)) == Second4(a, b)
  {
  }

  lemma Swap4Is(p: Pair)
    ensures Swap4(p) == Pair(First4(p.x, p.y), Second4(p.x, p.y))
  {
    hide Bits4, Up4, Xor, First4, Second4;
    First4Is(p.x, p.y);
    Second4Is(p.x, p.y);
  }

  function First16(a: Word, b: Word): Word {
    (a & 0x0000FFFF) | ((b & 0x0000FFFF) << 16)
  }

  function Second16(a: Word, b: Word): Word {
    (b & 0xFFFF0000) | ((a >> 16) & 0x0000FFFF)
  }

  lemma First16Is(a: Word, b: Word)
    ensures Xor(a, Up16(Bits16(a, b))) == First16(a, b)
  {
  }

  lemma Second16Is(a: Word, b: Word)
    ensures Xor(b, Bits16(a, b)) == Second16(a, b)
  {
  }

  lemma Swap16Is(p: Pair)
    ensures Swap16(p) == Pair(First16(p.x, p.y), Second16(p.x, p.y))
  {
    hide Bits16, Up16, Xor, First16, Second16;
    First16Is(p.x, p.y);
    Second16Is(p.x, p.y);
  }

  function First2(a: Word, b: Word): Word {
    (a & 0x33333333) | ((b & 0x33333333) << 2)
  }

  function Second2(a: Word, b: Word): Word {
    (b & 0xCCCCCCCC) | ((a >> 2) & 0x33333333)
  }

  lemma First2Is(a: Word, b: Word)
    ensures Xor(a, Up2(Bits2(a, b))) == First2(a, b)
  {
  }

  lemma Second2Is(a: Word, b: Word)
    ensures Xor(b, Bits2(a, b)) == Second2(a, b)
  {
  }

  lemma Swap2Is(p: Pair)
    ensures Swap2(p) == Pair(Second2(p.y, p.x), First2(p.y, p.x))
  {
    hide Bits2, Up2, Xor, First2, Second2;
    First2Is(p.y, p.x);
    Second2Is(p.y, p.x);
  }

  function First8(a: Word, b: Word): Word {
    (a & 0x00FF00FF) | ((b & 0x00FF00FF) << 8)
  }

  function Second8(a: Word, b: Word): Word {
    (b & 0xFF00FF00) | ((a >> 8) & 0x00FF00FF)
  }

  lemma First8Is(a: Word, b: Word)
    ensures Xor(a, Up8(Bits8(a, b))) == First8(a, b)
  {
  }

  lemma Second8Is(a: Word, b: Word)
    ensures Xor(b, Bits8(a, b)) == Second8(a, b)
  {
  }

  lemma Swap8Is(p: Pair)
    ensures Swap8(p) == Pair(Second8(p.y, p.x), First8(p.y, p.x))
  {
    hide Bits8, Up8, Xor, First8, Second8;
    First8Is(p.y, p.x);
    Second8Is(p.y, p.x);
  }

  function First1(a: Word, b: Word): Word {
    (a & 0x55555555) | (b & 0xAAAAAAAA)
  }

  function Second1(a: Word, b: Word): Word {
    (b & 0x55555555) | (a & 0xAAAAAAAA)
  }

  lemma First1Is(a: Word, b: Word)
    ensures Xor(a, Up1(Bits1(a, b))) == First1(a, b)
  {
  }

  lemma Second1Is(a: Word, b: Word)
    ensures Xor(b, Bits1(a, b)) == Second1(a, b)
  {
  }

  lemma Swap1Is(p: Pair)
    ensures Swap1(p) == Pair(First1(p.x, p.y), Second1(p.x, p.y))
  {
    hide Bits1, Up1, Xor, First1, Second1;
    First1Is(p.x, p.y);
    Second1Is(p.x, p.y);
  }

  function Wired(p: Pair): Pair {
    var a := Pair(First4(p.x, p.y), Second4(p.x, p.y));
    var b := Pair(First16(a.x, a.y), Second16(a.x, a.y));
    var c := Pair(Second2(b.y, b.x), First2(b.y, b.x));
    var d := Pair(Second8(c.y, c.x), First8(c.y, c.x));
    var y := Left1(d.y);
    Pair(Left1(First1(d.x, y)), Second1(d.x, y))
  }

  lemma InitialIs(p: Pair)
    ensures Initial(p) == Wired(p)
  {
    hide Swap4, Swap16, Swap2, Swap8, Swap1, Left1;
    hide First4, Second4, First16, Second16, First2, Second2, First8, Second8, First1, Second1;
    Swap4Is(p);
    Swap16Is(Swap4(p));
    Swap2Is(Swap16(Swap4(p)));
    Swap8Is(Swap2(Swap16(Swap4(p))));
    var d := Swap8(Swap2(Swap16(Swap4(p))));
    Swap1Is(Pair(d.x, Left1(d.y)));
  }

  lemma WiredEven(o: Octet)
    ensures var x := Right1(Wired(WordsOf(o)).x);
            && ByteOf(x >> 24) == Column(o, 2) && ByteOf(x >> 16) == Column(o, 4)
            && ByteOf(x >> 8) == Column(o, 6) && ByteOf(x) == Column(o, 8)
  {
  }

  lemma WiredOdd(o: Octet)
    ensures var y := Right1(Wired(WordsOf(o)).y);
            && ByteOf(y >> 24) == Column(o, 1) && ByteOf(y >> 16) == Column(o, 3)
            && ByteOf(y >> 8) == Column(o, 5) && ByteOf(y) == Column(o, 7)
  {
  }

  /** The table IP of FIPS 46-3: row by row the second, fourth, sixth and eighth bit of each byte, then the first, third,
      fifth and seventh, the last byte first. The code keeps both halves turned left by one bit. */
  lemma InitialTable(o: Octet)
    ensures var q := Initial(WordsOf(o));
            && PutWord(Right1(q.x)) == [Column(o, 2), Column(o, 4), Column(o, 6), Column(o, 8)]
            && PutWord(Right1(q.y)) == [Column(o, 1), Column(o, 3), Column(o, 5), Column(o, 7)]
  {
    hide Initial, Wired, Column, Right1, ByteOf, WordsOf;
    InitialIs(WordsOf(o));
    WiredEven(o);
    WiredOdd(o);
  }

  // ---------------------------------------------------------------------------------------------
  // The rounds
  // ---------------------------------------------------------------------------------------------

  function Right4(x: Word): Word {
    (x << 28) | (x >> 4)
  }

  /** The six low bits of the four bytes of a word, from the top. */
  function Field1(w: Word): Word {
    (w >> 24) & 0x3F
  }

  function Field2(w: Word): Word {
    (w >> 16) & 0x3F
  }

  function Field3(w: Word): Word {
    (w >> 8) & 0x3F
  }

  function Field4(w: Word): Word {
    w & 0x3F
  }

  function Mixed(a: Word, b: Word, c: Word, d: Word, e: Word, f: Word, g: Word, h: Word): Word {
    a ^ b ^ c ^ d ^ e ^ f ^ g ^ h
  }

  /** What a round adds to one half, from the other half and its two subkeys. */
  function RoundBits(sb: Boxes, k0: Word, k1: Word, x: Word): Word {
    var t, u := Xor(k0, x), Xor(k1, Right4(x));
    Mixed(sb(8, Field4(t)), sb(6, Field3(t)), sb(4, Field2(t)), sb(2, Field1(t)),
          sb(7, Field4(u)), sb(5, Field3(u)), sb(3, Field2(u)), sb(1, Field1(u)))
  }

  /** Bit `k` of a half, counted from one at the top. */
  function BitOf(r: Word, k: nat): Word
    requires 1 <= k <= 32
  {
    match k
    case 1 => (r >> 31) & 1
    case 2 => (r >> 30) & 1
    case 3 => (r >> 29) & 1
    case 4 => (r >> 28) & 1
    case 5 => (r >> 27) & 1
    case 6 => (r >> 26) & 1
    case 7 => (r >> 25) & 1
    case 8 => (r >> 24) & 1
    case 9 => (r >> 23) & 1
    case 10 => (r >> 22) & 1
    case 11 => (r >> 21) & 1
    case 12 => (r >> 20) & 1
    case 13 => (r >> 19) & 1
    case 14 => (r >> 18) & 1
    case 15 => (r >> 17) & 1
    case 16 => (r >> 16) & 1
    case 17 => (r >> 15) & 1
    case 18 => (r >> 14) & 1
    case 19 => (r >> 13) & 1
    case 20 => (r >> 12) & 1
    case 21 => (r >> 11) & 1
    case 22 => (r >> 10) & 1
    case 23 => (r >> 9) & 1
    case 24 => (r >> 8) & 1
    case 25 => (r >> 7) & 1
    case 26 => (r >> 6) & 1
    case 27 => (r >> 5) & 1
    case 28 => (r >> 4) & 1
    case 29 => (r >> 3) & 1
    case 30 => (r >> 2) & 1
    case 31 => (r >> 1) & 1
    case 32 => (r >> 0) & 1
  }

  /** Row `n` of the table E of FIPS 46-3: bits 4n-4 to 4n+1, counted cyclically. */
  function Expanded(r: Word, n: nat): Word
    requires 1 <= n <= 8
  {
    (BitOf(r, if n == 1 then 32 else 4 * n - 4) << 5) | (BitOf(r, 4 * n - 3) << 4) | (BitOf(r, 4 * n - 2) << 3) |
    (BitOf(r, 4 * n - 1) << 2) | (BitOf(r, 4 * n) << 1) | BitOf(r, if n == 8 then 1 else 4 * n + 1)
  }

  lemma EvenRows(r: Word)
    ensures var x := Left1(r);
            Field1(x) == Expanded(r, 2) && Field2(x) == Expanded(r, 4) && Field3(x) == Expanded(r, 6) && Field4(x) == Expanded(r, 8)
  {
  }

  lemma OddRows(r: Word)
    ensures var x := Right4(Left1(r));
            Field1(x) == Expanded(r, 1) && Field2(x) == Expanded(r, 3) && Field3(x) == Expanded(r, 5) && Field4(x) == Expanded(r, 7)
  {
  }

  lemma Field1Xor(k: Word, x: Word)
    ensures Field1(Xor(k, x)) == Xor(Field1(k), Field1(x))
  {
  }

  lemma Field2Xor(k: Word, x: Word)
    ensures Field2(Xor(k, x)) == Xor(Field2(k), Field2(x))
  {
  }

  lemma Field3Xor(k: Word, x: Word)
    ensures Field3(Xor(k, x)) == Xor(Field3(k), Field3(x))
  {
  }

  lemma Field4Xor(k: Word, x: Word)
    ensures Field4(Xor(k, x)) == Xor(Field4(k), Field4(x))
  {
  }

  lemma FieldsXor(k: Word, x: Word)
    ensures Field1(Xor(k, x)) == Xor(Field1(k), Field1(x)) && Field2(Xor(k, x)) == Xor(Field2(k), Field2(x))
    ensures Field3(Xor(k, x)) == Xor(Field3(k), Field3(x)) && Field4(Xor(k, x)) == Xor(Field4(k), Field4(x))
  {
    hide Field1, Field2, Field3, Field4, Xor;
    Field1Xor(k, x);
    Field2Xor(k, x);
    Field3Xor(k, x);
    Field4Xor(k, x);
  }

  lemma MixedIs(a: Word, b: Word, c: Word, d: Word, e: Word, f: Word, g: Word, h: Word)
    ensures Mixed(h, f, d, b, g, e, c, a) == a ^ b ^ c ^ d ^ e ^ f ^ g ^ h
  {
  }

  /** What a round adds, as the standard has it: each box is applied to its six bits of the expanded half and of the key,
      where the subkeys hold the fields of the odd boxes in the second word and those of the even ones in the first. */
  lemma RoundTable(sb: Boxes, k0: Word, k1: Word, r: Word)
    ensures RoundBits(sb, k0, k1, Left1(r)) ==
            Mixed(sb(8, Xor(Field4(k0), Expanded(r, 8))), sb(6, Xor(Field3(k0), Expanded(r, 6))),
                  sb(4, Xor(Field2(k0), Expanded(r, 4))), sb(2, Xor(Field1(k0), Expanded(r, 2))),
                  sb(7, Xor(Field4(k1), Expanded(r, 7))), sb(5, Xor(Field3(k1), Expanded(r, 5))),
                  sb(3, Xor(Field2(k1), Expanded(r, 3))), sb(1, Xor(Field1(k1), Expanded(r, 1))))
  {
    hide Expanded, Left1, Right4, Field1, Field2, Field3, Field4, Xor, Mixed;
    EvenRows(r);
    OddRows(r);
    FieldsXor(k0, Left1(r));
    FieldsXor(k1, Right4(Left1(r)));
  }

  /** The halves after all rounds of a schedule; each round changes the half that the round before left alone. */
  ghost function Feistel(sb: Boxes, sk: seq<Word>, p: Pair): Pair
    requires |sk| % 2 == 0
  {
    if sk == [] then p else
    var n := |sk| - 2;
    var q := Feistel(sb, sk[..n], p);
    Pair(q.y, Xor(q.x, RoundBits(sb, sk[n], sk[n + 1], q.y)))
  }

  /** The schedule with its pairs in the opposite order. */
  ghost function Backwards(sk: seq<Word>): (r: seq<Word>)
    requires |sk| % 2 == 0
    ensures |r| == |sk|
  {
    if sk == [] then [] else
    var n := |sk| - 2;
    [sk[n], sk[n + 1]] + Backwards(sk[..n])
  }

  ghost function Swapped(p: Pair): Pair {
    Pair(p.y, p.x)
  }

  /** The first round apart. */
  lemma {:induction false} FeistelFirst(sb: Boxes, k0: Word, k1: Word, sk: seq<Word>, p: Pair)
    requires |sk| % 2 == 0
    ensures Feistel(sb, [k0, k1] + sk, p) == Feistel(sb, sk, Pair(p.y, Xor(p.x, RoundBits(sb, k0, k1, p.y))))
  {
    hide RoundBits, Xor;
    var all := [k0, k1] + sk;
    var n := |all| - 2;
    if sk == [] {
      assert all == [k0, k1] && all[..0] == [];
      assert Feistel(sb, all[..0], p) == p;
    } else {
      FeistelFirst(sb, k0, k1, sk[..|sk| - 2], p);
      assert all[..n] == [k0, k1] + sk[..|sk| - 2];
    }
  }

  /** The rounds in the opposite order, on the halves exchanged, undo themselves. */
  lemma {:induction false} FeistelBack(sb: Boxes, sk: seq<Word>, p: Pair)
    requires |sk| % 2 == 0
    ensures Feistel(sb, Backwards(sk), Swapped(Feistel(sb, sk, p))) == Swapped(p)
  {
    hide RoundBits, Xor;
    if sk != [] {
      var n := |sk| - 2;
      var q := Feistel(sb, sk[..n], p);
      var bits := RoundBits(sb, sk[n], sk[n + 1], q.y);
      FeistelFirst(sb, sk[n], sk[n + 1], Backwards(sk[..n]), Pair(Xor(q.x, bits), q.y));
      XorTwice(q.x, bits);
      FeistelBack(sb, sk[..n], p);
    }
  }

  // ---------------------------------------------------------------------------------------------
  // Blocks
  // ---------------------------------------------------------------------------------------------

  ghost function ReadPair(b: seq<Byte>): Pair
    requires |b| == 8
  {
    Pair(GetWord(b[0], b[1], b[2], b[3]), GetWord(b[4], b[5], b[6], b[7]))
  }

  ghost function Block(sb: Boxes, sk: seq<Word>, b: seq<Byte>): (r: seq<Byte>)
    requires |sk| % 2 == 0 && |b| == 8
    ensures |r| == 8
  {
    var f := Final(Swapped(Feistel(sb, sk, Initial(ReadPair(b)))));
    PutWord(f.x) + PutWord(f.y)
  }

  lemma ReadBack(p: Pair)
    ensures ReadPair(PutWord(p.x) + PutWord(p.y)) == p
  {
    GetPut(p.x);
    GetPut(p.y);
  }

  lemma WriteBack(b: seq<Byte>)
    requires |b| == 8
    ensures PutWord(ReadPair(b).x) + PutWord(ReadPair(b).y) == b
  {
    hide PutWord, GetWord;
    PutGet(b[0], b[1], b[2], b[3]);
    PutGet(b[4], b[5], b[6], b[7]);
  }

  /** A block ciphered with a schedule is recovered with the schedule backwards. */
  lemma BlockBack(sb: Boxes, sk: seq<Word>, b: seq<Byte>)
    requires |sk| % 2 == 0 && |b| == 8
    ensures Block(sb, Backwards(sk), Block(sb, sk, b)) == b
  {
    hide Feistel, Initial, Final, ReadPair, PutWord;
    var p := Initial(ReadPair(b));
    var q := Feistel(sb, sk, p);
    var f := Final(Swapped(q));
    ReadBack(f);
    InitialFinal(Swapped(q));
    FeistelBack(sb, sk, p);
    InitialFinal(ReadPair(b));
    WriteBack(b);
  }

  /** `des_crypt`. */
  method Crypt(sb: Boxes, sk: seq<Word>, input: seq<Byte>) returns (output: seq<Byte>)
    requires |sk| == 32 && |input| == 8
    ensures output == Block(sb, sk, input)
  {
    hide Feistel, Initial, Final, RoundBits, PutWord, GetWord, Xor;
    var p := Initial(Pair(GetWord(input[0], input[1], input[2], input[3]), GetWord(input[4], input[5], input[6], input[7])));
    var x, y, i := p.x, p.y, 0;
    NoRounds(sb, p);
    assert sk[..0] == [];
    while i < 32
      invariant 0 <= i <= 32 && i % 4 == 0 && Feistel(sb, sk[..i], p) == Pair(x, y)
    {
      TwoRounds(sb, sk, i, p, x, y);
      x := Xor(x, RoundBits(sb, sk[i], sk[i + 1], y));
      y := Xor(y, RoundBits(sb, sk[i + 2], sk[i + 3], x));
      i := i + 4;
    }
    assert sk[..32] == sk;
    var f := Final(Pair(y, x));
    output := PutWord(f.x) + PutWord(f.y);
  }

  lemma NoRounds(sb: Boxes, p: Pair)
    ensures Feistel(sb, [], p) == p
  {
  }

  lemma TwoRounds(sb: Boxes, sk: seq<Word>, i: nat, p: Pair, x: Word, y: Word)
    requires i % 2 == 0 && i + 4 <= |sk| && Feistel(sb, sk[..i], p) == Pair(x, y)
    ensures var x' := Xor(x, RoundBits(sb, sk[i], sk[i + 1], y));
            var y' := Xor(y, RoundBits(sb, sk[i + 2], sk[i + 3], x'));
            Feistel(sb, sk[..i + 4], p) == Pair(x', y')
  {
    hide RoundBits, Xor, Feistel;
    FeistelNext(sb, sk, i, p);
    FeistelNext(sb, sk, i + 2, p);
  }

  lemma FeistelNext(sb: Boxes, sk: seq<Word>, i: nat, p: Pair)
    requires i % 2 == 0 && i + 2 <= |sk|
    ensures var q := Feistel(sb, sk[..i], p);
            Feistel(sb, sk[..i + 2], p) == Pair(q.y, Xor(q.x, RoundBits(sb, sk[i], sk[i + 1], q.y)))
  {
    hide RoundBits, Xor;
    assert sk[..i + 2][..i] == sk[..i];
  }

  // ---------------------------------------------------------------------------------------------
  // Complements
  // ---------------------------------------------------------------------------------------------

  function Not(w: Word): Word {
    w ^ 0xFFFFFFFF
  }

  function NotPair(p: Pair): Pair {
    Pair(Not(p.x), Not(p.y))
  }

  /** A subkey with the bits of its four fields complemented. */
  function NotKey(k: Word): Word {
    k ^ 0x3F3F3F3F
  }

  ghost function NotKeys(sk: seq<Word>): (r: seq<Word>)
    ensures |r| == |sk|
  {
    seq(|sk|, i requires 0 <= i < |sk| => NotKey(sk[i]))
  }

  function NotByte(b: Byte): Byte {
    b ^ 0xFF
  }

  ghost function NotBytes(b: seq<Byte>): (r: seq<Byte>)
    ensures |r| == |b|
  {
    seq(|b|, i requires 0 <= i < |b| => NotByte(b[i]))
  }

  lemma NotXor(a: Word, b: Word)
    ensures Xor(Not(a), b) == Not(Xor(a, b))
  {
  }

  lemma NotBits4(a: Word, b: Word)
    ensures Bits4(Not(a), Not(b)) == Bits4(a, b)
  {
  }

  lemma NotBits16(a: Word, b: Word)
    ensures Bits16(Not(a), Not(b)) == Bits16(a, b)
  {
  }

  lemma NotBits2(a: Word, b: Word)
    ensures Bits2(Not(a), Not(b)) == Bits2(a, b)
  {
  }

  lemma NotBits8(a: Word, b: Word)
    ensures Bits8(Not(a), Not(b)) == Bits8(a, b)
  {
  }

  lemma NotBits1(a: Word, b: Word)
    ensures Bits1(Not(a), Not(b)) == Bits1(a, b)
  {
  }

  lemma NotSwap4(p: Pair)
    ensures Swap4(NotPair(p)) == NotPair(Swap4(p))
  {
    hide Bits4, Up4, Xor, Not;
    var t := Bits4(p.x, p.y);
    NotBits4(p.x, p.y);
    NotXor(p.x, Up4(t));
    NotXor(p.y, t);
  }

  lemma NotSwap16(p: Pair)
    ensures Swap16(NotPair(p)) == NotPair(Swap16(p))
  {
    hide Bits16, Up16, Xor, Not;
    var t := Bits16(p.x, p.y);
    NotBits16(p.x, p.y);
    NotXor(p.x, Up16(t));
    NotXor(p.y, t);
  }

  lemma NotSwap2(p: Pair)
    ensures Swap2(NotPair(p)) == NotPair(Swap2(p))
  {
    hide Bits2, Up2, Xor, Not;
    var t := Bits2(p.y, p.x);
    NotBits2(p.y, p.x);
    NotXor(p.y, Up2(t));
    NotXor(p.x, t);
  }

  lemma NotSwap8(p: Pair)
    ensures Swap8(NotPair(p)) == NotPair(Swap8(p))
  {
    hide Bits8, Up8, Xor, Not;
    var t := Bits8(p.y, p.x);
    NotBits8(p.y, p.x);
    NotXor(p.y, Up8(t));
    NotXor(p.x, t);
  }

  lemma NotSwap1(p: Pair)
    ensures Swap1(NotPair(p)) == NotPair(Swap1(p))
  {
    hide Bits1, Up1, Xor, Not;
    var t := Bits1(p.x, p.y);
    NotBits1(p.x, p.y);
    NotXor(p.x, Up1(t));
    NotXor(p.y, t);
  }

  lemma NotTurned(x: Word)
    ensures Left1(Not(x)) == Not(Left1(x)) && Right1(Not(x)) == Not(Right1(x))
  {
  }

  lemma NotInitial(p: Pair)
    ensures Initial(NotPair(p)) == NotPair(Initial(p))
  {
    hide Swap4, Swap16, Swap2, Swap8, Swap1, Left1, Not;
    NotSwap4(p);
    NotSwap16(Swap4(p));
    NotSwap2(Swap16(Swap4(p)));
    NotSwap8(Swap2(Swap16(Swap4(p))));
    var a := Swap8(Swap2(Swap16(Swap4(p))));
    NotTurned(a.y);
    NotSwap1(Pair(a.x, Left1(a.y)));
    NotTurned(Swap1(Pair(a.x, Left1(a.y))).x);
  }

  lemma NotFinal(p: Pair)
    ensures Final(NotPair(p)) == NotPair(Final(p))
  {
    hide Initial, Final;
    InitialFinal(p);
    InitialFinal(NotPair(p));
    NotInitial(Final(p));
    InitialFinal(NotPair(Final(p)));
  }

  lemma NotFields(k: Word, x: Word)
    ensures var t, t' := Xor(k, x), Xor(NotKey(k), Not(x));
            Field1(t') == Field1(t) && Field2(t') == Field2(t) && Field3(t') == Field3(t) && Field4(t') == Field4(t)
  {
  }

  lemma TurnedFour(x: Word)
    ensures Right4(x) == Right1(Right1(Right1(Right1(x))))
  {
  }

  lemma NotRight4(x: Word)
    ensures Right4(Not(x)) == Not(Right4(x))
  {
    hide Right4, Right1, Not;
    TurnedFour(x);
    TurnedFour(Not(x));
    NotTurned(x);
    NotTurned(Right1(x));
    NotTurned(Right1(Right1(x)));
    NotTurned(Right1(Right1(Right1(x))));
  }

  /** A key and a half that are both complemented select the same entries of the boxes. */
  lemma NotRound(sb: Boxes, k0: Word, k1: Word, x: Word)
    ensures RoundBits(sb, NotKey(k0), NotKey(k1), Not(x)) == RoundBits(sb, k0, k1, x)
  {
    hide Xor, Not, NotKey, Field1, Field2, Field3, Field4, Right4, Mixed;
    NotFields(k0, x);
    NotRight4(x);
    NotFields(k1, Right4(x));
  }

  lemma {:induction false} NotFeistel(sb: Boxes, sk: seq<Word>, p: Pair)
    requires |sk| % 2 == 0
    ensures Feistel(sb, NotKeys(sk), NotPair(p)) == NotPair(Feistel(sb, sk, p))
  {
    hide RoundBits, Xor, Not, NotKey;
    if sk != [] {
      var n := |sk| - 2;
      var q := Feistel(sb, sk[..n], p);
      NotFeistel(sb, sk[..n], p);
      assert NotKeys(sk)[..n] == NotKeys(sk[..n]);
      NotRound(sb, sk[n], sk[n + 1], q.y);
      NotXor(q.x, RoundBits(sb, sk[n], sk[n + 1], q.y));
    }
  }

  lemma XorGet(a: Byte, b: Byte, c: Byte, d: Byte)
    ensures GetWord(a ^ 0xFF, b ^ 0xFF, c ^ 0xFF, d ^ 0xFF) == Not(GetWord(a, b, c, d))
  {
  }

  lemma NotGet(a: Byte, b: Byte, c: Byte, d: Byte)
    ensures GetWord(NotByte(a), NotByte(b), NotByte(c), NotByte(d)) == Not(GetWord(a, b, c, d))
  {
    hide GetWord, Not;
    XorGet(a, b, c, d);
  }

  lemma NotRead(b: seq<Byte>)
    requires |b| == 8
    ensures ReadPair(NotBytes(b)) == NotPair(ReadPair(b))
  {
    hide GetWord, Not, NotByte;
    NotGet(b[0], b[1], b[2], b[3]);
    NotGet(b[4], b[5], b[6], b[7]);
  }

  lemma NotFour(a: Byte, b: Byte, c: Byte, d: Byte)
    ensures NotBytes([a, b, c, d]) == [NotByte(a), NotByte(b), NotByte(c), NotByte(d)]
  {
    hide NotByte;
  }

  /** By what it reads as. */
  lemma NotPut(n: Word)
    ensures PutWord(Not(n)) == NotBytes(PutWord(n))
  {
    hide GetWord, Not, NotByte, PutWord, NotBytes;
    var a, b, c, d := ByteOf(n >> 24), ByteOf(n >> 16), ByteOf(n >> 8), ByteOf(n);
    GetPut(n);
    NotGet(a, b, c, d);
    PutGet(NotByte(a), NotByte(b), NotByte(c), NotByte(d));
    PutGet(a, b, c, d);
    NotFour(a, b, c, d);
  }

  /** The complementation property of DES, whatever the boxes: with every bit of the key and of the block complemented,
      the output is complemented. */
  lemma Complementation(sb: Boxes, sk: seq<Word>, b: seq<Byte>)
    requires |sk| % 2 == 0 && |b| == 8
    ensures Block(sb, NotKeys(sk), NotBytes(b)) == NotBytes(Block(sb, sk, b))
  {
    hide Feistel, Initial, Final, ReadPair, PutWord, Not, NotKeys;
    NotRead(b);
    NotInitial(ReadPair(b));
    var p := Initial(ReadPair(b));
    NotFeistel(sb, sk, p);
    var q := Swapped(Feistel(sb, sk, p));
    NotFinal(q);
    var f := Final(q);
    NotPut(f.x);
    NotPut(f.y);
    assert NotBytes(PutWord(f.x) + PutWord(f.y)) == NotBytes(PutWord(f.x)) + NotBytes(PutWord(f.y));
  }

  // ---------------------------------------------------------------------------------------------
  // Messages
  // ---------------------------------------------------------------------------------------------

  ghost function Zeros(n: nat): seq<Byte> {
    seq(n, _ => 0)
  }

  /** A byte 0x80, then zeros up to a multiple of eight; at least one byte is added. */
  ghost function Pad(text: seq<Byte>): (r: seq<Byte>)
    ensures |r| == (|text| / 8 + 1) * 8
  {
    text + [0x80] + Zeros(7 - |text| % 8)
  }

  ghost function Blocks(sb: Boxes, sk: seq<Word>, s: seq<Byte>, n: nat): (r: seq<Byte>)
    requires |sk| % 2 == 0 && 8 * n <= |s|
    ensures |r| == 8 * n
  {
    if n == 0 then [] else Blocks(sb, sk, s, n - 1) + Block(sb, sk, s[8 * n - 8..8 * n])
  }

  lemma {:induction false} BlocksBack(sb: Boxes, sk: seq<Word>, s: seq<Byte>, n: nat)
    requires |sk| % 2 == 0 && 8 * n <= |s|
    ensures Blocks(sb, Backwards(sk), Blocks(sb, sk, s, n), n) == s[..8 * n]
  {
    hide Block;
    if n > 0 {
      var c, c' := Blocks(sb, sk, s, n - 1), Blocks(sb, sk, s, n);
      BlocksBack(sb, sk, s, n - 1);
      BlocksSame(sb, Backwards(sk), c, c', n - 1);
      BlockBack(sb, sk, s[8 * n - 8..8 * n]);
      assert c'[8 * n - 8..8 * n] == Block(sb, sk, s[8 * n - 8..8 * n]);
      assert s[..8 * n] == s[..8 * n - 8] + s[8 * n - 8..8 * n];
    }
  }

  /** Blocks depend on no bytes beyond them. */
  lemma {:induction false} BlocksSame(sb: Boxes, sk: seq<Word>, s: seq<Byte>, t: seq<Byte>, n: nat)
    requires |sk| % 2 == 0 && 8 * n <= |s| && 8 * n <= |t| && s[..8 * n] == t[..8 * n]
    ensures Blocks(sb, sk, s, n) == Blocks(sb, sk, t, n)
  {
    hide Block;
    if n > 0 {
      assert s[..8 * n][..8 * n - 8] == s[..8 * n - 8] && t[..8 * n][..8 * n - 8] == t[..8 * n - 8];
      BlocksSame(sb, sk, s, t, n - 1);
      assert s[8 * n - 8..8 * n] == s[..8 * n][8 * n - 8..] && t[8 * n - 8..8 * n] == t[..8 * n][8 * n - 8..];
    }
  }

  /** The text before the padding, found among the last `n` bytes. */
  ghost function Strip(s: seq<Byte>, n: nat): Option<seq<Byte>>
    requires n <= |s|
  {
    if n == 0 then None
    else if s[|s| - 1] == 0 then Strip(s[..|s| - 1], n - 1)
    else if s[|s| - 1] == 0x80 then Some(s[..|s| - 1])
    else None
  }

  lemma {:induction false} StripPad(text: seq<Byte>, z: nat, n: nat)
    requires z < n <= |text| + 1 + z
    ensures Strip(text + [0x80] + Zeros(z), n) == Some(text)
  {
    var s := text + [0x80] + Zeros(z);
    if z > 0 {
      assert s[..|s| - 1] == text + [0x80] + Zeros(z - 1);
      StripPad(text, z - 1, n - 1);
    } else {
      assert s == text + [0x80] && s[..|s| - 1] == text;
    }
  }

  ghost function Encoded(sb: Boxes, sk: seq<Word>, text: seq<Byte>): seq<Byte>
    requires |sk| % 2 == 0
  {
    Blocks(sb, sk, Pad(text), |text| / 8 + 1)
  }

  /** What decoding comes to: a text, an error, or a search for the padding that runs off the front of the buffer. */
  datatype Decoding = Text(text: seq<Byte>) | Error | OutOfBuffer

  ghost function Plain(sb: Boxes, sk: seq<Word>, code: seq<Byte>): (r: seq<Byte>)
    requires |sk| % 2 == 0 && |code| % 8 == 0
    ensures |r| == |code|
  {
    Blocks(sb, Backwards(sk), code, |code| / 8)
  }

  ghost function Decoded(sb: Boxes, sk: seq<Word>, code: seq<Byte>): Decoding
    requires |sk| % 2 == 0
  {
    if |code| % 8 != 0 || code == [] then Error
    else if |code| == 8 && Plain(sb, sk, code) == Zeros(8) then OutOfBuffer
    else match Strip(Plain(sb, sk, code), 8)
      case Some(text) => Text(text)
      case None => Error
  }

  /** For every key there is a block on which the search runs off the buffer: the encryption of eight zeros. */
  lemma ZerosLeave(sb: Boxes, sk: seq<Word>)
    requires |sk| % 2 == 0
    ensures Decoded(sb, sk, Block(sb, sk, Zeros(8))).OutOfBuffer?
  {
    hide Block, Backwards;
    var code := Block(sb, sk, Zeros(8));
    BackwardsLength(sk);
    BlockBack(sb, sk, Zeros(8));
    assert code[0..8] == code;
    OneBlock(sb, Backwards(sk), code);
  }

  lemma OneBlock(sb: Boxes, sk: seq<Word>, code: seq<Byte>)
    requires |sk| % 2 == 0 && |code| == 8
    ensures Blocks(sb, sk, code, 1) == Block(sb, sk, code)
  {
    hide Block;
    assert code[0..8] == code && Blocks(sb, sk, code, 0) == [];
  }

  /** And it is the only one. */
  lemma OnlyZerosLeave(sb: Boxes, sk: seq<Word>, code: seq<Byte>)
    requires |sk| % 2 == 0
    ensures Decoded(sb, sk, code).OutOfBuffer? <==> code == Block(sb, sk, Zeros(8))
  {
    hide Block, Backwards;
    if |code| == 8 {
      DecryptsToZeros(sb, sk, code);
      BackwardsTwice(sk);
      BlockBack(sb, Backwards(sk), code);
      BlockBack(sb, sk, Zeros(8));
    }
  }

  lemma DecryptsToZeros(sb: Boxes, sk: seq<Word>, code: seq<Byte>)
    requires |sk| % 2 == 0 && |code| == 8
    ensures Decoded(sb, sk, code).OutOfBuffer? <==> Block(sb, Backwards(sk), code) == Zeros(8)
  {
    hide Block, Backwards;
    BackwardsLength(sk);
    OneBlock(sb, Backwards(sk), code);
  }

  lemma {:induction false} BackwardsTwice(sk: seq<Word>)
    requires |sk| % 2 == 0
    ensures Backwards(Backwards(sk)) == sk
  {
    if sk != [] {
      var n := |sk| - 2;
      BackwardsTwice(sk[..n]);
      BackwardsJoin(sk[n], sk[n + 1], Backwards(sk[..n]));
      assert sk == sk[..n] + [sk[n], sk[n + 1]];
    }
  }

  lemma {:induction false} BackwardsJoin(a: Word, b: Word, t: seq<Word>)
    requires |t| % 2 == 0
    ensures Backwards([a, b] + t) == Backwards(t) + [a, b]
  {
    var s := [a, b] + t;
    if t == [] {
      assert s == [a, b] && s[..0] == [];
    } else {
      var n := |t| - 2;
      BackwardsJoin(a, b, t[..n]);
      assert s[..|s| - 2] == [a, b] + t[..n];
    }
  }

  /** Decoding recovers every text. */
  lemma DecodeEncode(sb: Boxes, sk: seq<Word>, text: seq<Byte>)
    requires |sk| % 2 == 0
    ensures Decoded(sb, sk, Encoded(sb, sk, text)) == Text(text)
  {
    hide Blocks, Strip;
    var n := |text| / 8 + 1;
    BlocksLength(sb, sk, Pad(text), n);
    BlocksBack(sb, sk, Pad(text), n);
    assert Pad(text)[..8 * n] == Pad(text);
    StripPad(text, 7 - |text| % 8, 8);
    if |text| < 8 {
      assert Pad(text)[|text|] == 0x80 && Zeros(8)[|text|] == 0;
    }
  }

  lemma BlocksLength(sb: Boxes, sk: seq<Word>, s: seq<Byte>, n: nat)
    requires |sk| % 2 == 0 && 8 * n <= |s|
    ensures |Blocks(sb, sk, s, n)| == 8 * n
  {
  }

  /** The last block: what is left of the text, and the padding. */
  method Tail(text: seq<Byte>, i: nat) returns (tail: seq<Byte>)
    requires i <= |text| < i + 8
    ensures tail == text[i..] + [0x80] + Zeros(7 - (|text| - i))
  {
    var bytes := |text| - i;
    tail := [];
    for j := 0 to 8
      invariant |tail| == j && forall k :: 0 <= k < j ==>
                  tail[k] == if k < bytes then text[i + k] else if k == bytes then 0x80 else 0
    {
      tail := tail + [if j < bytes then text[i + j] else if j == bytes then 0x80 else 0];
    }
  }

  /** `ldesencode`. */
  method Encode(sb: Boxes, sk: seq<Word>, text: seq<Byte>) returns (code: seq<Byte>)
    requires |sk| == 32
    ensures code == Encoded(sb, sk, text)
  {
    hide Block, Blocks, Zeros, Pad;
    code := [];
    var i := 0;
    ghost var padded, n := Pad(text), 0;
    PadIs(text);
    NoBlocks(sb, sk, padded);
    while i < |text| - 7
      invariant i == 8 * n <= |text| && code == Blocks(sb, sk, padded, n)
    {
      BlocksNext(sb, sk, padded, n);
      assert padded[i..i + 8] == text[i..i + 8];
      var c := Crypt(sb, sk, text[i..i + 8]);
      code := code + c;
      i := i + 8;
      n := n + 1;
    }
    var tail := Tail(text, i);
    LastBlock(text, n, tail);
    BlocksNext(sb, sk, padded, n);
    var c := Crypt(sb, sk, tail);
    code := code + c;
  }

  lemma PadIs(text: seq<Byte>)
    ensures |Pad(text)| == (|text| / 8 + 1) * 8 && text <= Pad(text)
  {
  }

  lemma NoBlocks(sb: Boxes, sk: seq<Word>, s: seq<Byte>)
    requires |sk| % 2 == 0
    ensures Blocks(sb, sk, s, 0) == []
  {
  }

  lemma BlocksNext(sb: Boxes, sk: seq<Word>, s: seq<Byte>, n: nat)
    requires |sk| % 2 == 0 && 8 * n + 8 <= |s|
    ensures Blocks(sb, sk, s, n + 1) == Blocks(sb, sk, s, n) + Block(sb, sk, s[8 * n..8 * n + 8])
  {
    hide Block;
  }

  /** The tail is the last block of the padded text. */
  lemma LastBlock(text: seq<Byte>, n: nat, tail: seq<Byte>)
    requires 8 * n <= |text| < 8 * n + 8 && tail == text[8 * n..] + [0x80] + Zeros(7 - (|text| - 8 * n))
    ensures |text| / 8 == n && |Pad(text)| == 8 * n + 8 && Pad(text)[8 * n..8 * n + 8] == tail
  {
    hide Zeros;
    DivUnique(|text|, 8, n, |text| - 8 * n);
    ZerosLength(7 - |text| % 8);
    assert Pad(text) == text[..8 * n] + tail;
  }

  lemma ZerosLength(n: nat)
    ensures |Zeros(n)| == n
  {
  }

  /** The schedule for decoding, as `ldesdecode` turns it around. */
  method TurnAround(esk: seq<Word>) returns (sk: seq<Word>)
    requires |esk| == 32
    ensures sk == Backwards(esk)
  {
    sk := [];
    var i := 0;
    assert esk[..32] == esk;
    while i < 32
      invariant 0 <= i <= 32 && i % 2 == 0 && Backwards(esk) == sk + Backwards(esk[..32 - i]) && |sk| == i
    {
      assert esk[..32 - i][..30 - i] == esk[..30 - i];
      sk := sk + [esk[30 - i], esk[31 - i]];
      i := i + 2;
    }
    assert esk[..0] == [];
  }

  const SIZE_T: nat := 0x1_0000_0000_0000_0000

  /** A signed index, compared with a `size_t`. */
  function Unsigned(i: int): nat
    requires -(SIZE_T as int) <= i
  {
    if i >= 0 then i else i + SIZE_T
  }

  /** `ldesdecode`. The index goes below zero only when nothing stops it at the front of the buffer. */
  method Decode(sb: Boxes, esk: seq<Word>, code: seq<Byte>) returns (r: Decoding)
    requires |esk| == 32
    ensures r == Decoded(sb, esk, code)
    ensures r.OutOfBuffer? <==> |code| == 8 && Block(sb, Backwards(esk), code) == Zeros(8)
  {
    hide Block, Backwards, Blocks, Strip;
    var sk := TurnAround(esk);
    if |code| % 8 != 0 || code == [] {
      return Error;
    }
    var buffer := DecodeBlocks(sb, sk, code);
    r := Unpad(buffer);
    if |code| == 8 {
      DecryptsToZeros(sb, esk, code);
    }
  }

  method DecodeBlocks(sb: Boxes, sk: seq<Word>, code: seq<Byte>) returns (buffer: seq<Byte>)
    requires |sk| == 32 && |code| % 8 == 0
    ensures buffer == Blocks(sb, sk, code, |code| / 8)
  {
    hide Block, Blocks;
    buffer := [];
    var i := 0;
    ghost var n := 0;
    NoBlocks(sb, sk, code);
    while i < |code|
      invariant i == 8 * n <= |code| && buffer == Blocks(sb, sk, code, n)
    {
      BlocksNext(sb, sk, code, n);
      var c := Crypt(sb, sk, code[i..i + 8]);
      buffer := buffer + c;
      i := i + 8;
      n := n + 1;
    }
  }

  /** The loop over the padding, whose bound is an unsigned comparison. */
  method Unpad(buffer: seq<Byte>) returns (r: Decoding)
    requires |buffer| % 8 == 0 && buffer != []
    ensures r.OutOfBuffer? <==> buffer == Zeros(8)
    ensures !r.OutOfBuffer? ==> r == match Strip(buffer, 8) case Some(text) => Text(text) case None => Error
  {
    hide Zeros;
    var size := |buffer|;
    var padding, j := 1, size - 1;
    assert buffer == buffer[..j + 1];
    ZerosNone();
    while Unsigned(j) >= size - 8
      invariant size - 9 <= j < size && padding == size - j && buffer[j + 1..] == Zeros(size - 1 - j)
      invariant Strip(buffer[..j + 1], j + 9 - size) == Strip(buffer, 8)
      decreases j + 2
    {
      if j < 0 {
        assert buffer[0..] == buffer;
        return OutOfBuffer;
      }
      assert buffer[..j + 1][..j] == buffer[..j];
      if buffer[j] == 0 {
        padding := padding + 1;
        ZerosMore(buffer, j);
      } else if buffer[j] == 0x80 {
        break;
      } else {
        NotZeros(buffer, j);
        return Error;
      }
      j := j - 1;
    }
    if padding > 8 {
      LongerThan(buffer);
      return Error;
    }
    NotZeros(buffer, j);
    r := Text(buffer[..size - padding]);
  }

  lemma ZerosNone()
    ensures Zeros(0) == []
  {
  }

  lemma ZerosMore(s: seq<Byte>, j: nat)
    requires j < |s| && s[j] == 0 && s[j + 1..] == Zeros(|s| - 1 - j)
    ensures s[j..] == Zeros(|s| - j)
  {
    assert s[j..] == [s[j]] + s[j + 1..];
  }

  lemma NotZeros(s: seq<Byte>, j: nat)
    requires j < |s| && s[j] != 0
    ensures s != Zeros(8)
  {
  }

  lemma LongerThan(s: seq<Byte>)
    ensures s == Zeros(8) ==> |s| == 8
  {
  }

  lemma BackwardsLength(sk: seq<Word>)
    requires |sk| % 2 == 0
    ensures |Backwards(sk)| == |sk|
  {
  }
}
