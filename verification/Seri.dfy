/** Serialization of values: type bytes, integers in the fewest bytes their class allows, strings with short or
    long lengths, and tables as an array part followed by pairs. */
module Seri {

  import opened Arith
  import opened Options

  type Byte = x: int | 0 <= x < 256

  /** A table is its array part and its other keys, each followed by its value, in the order they are traversed.
      Reals and pointers are eight bytes that nobody looks into. */
  datatype Value =
    | Nil
    | Bool(b: bool)
    | Int(i: int)
    | Real(bits: seq<Byte>)
    | Pointer(bits: seq<Byte>)
    | Str(s: seq<Byte>)
    | Table(arr: seq<Value>, hash: seq<Value>)

  const TYPE_NIL := 0
  const TYPE_BOOLEAN := 1
  const TYPE_NUMBER := 2
  const TYPE_USERDATA := 3
  const TYPE_SHORT_STRING := 4
  const TYPE_LONG_STRING := 5
  const TYPE_TABLE := 6
  const ZERO := 0
  const BYTE := 1
  const WORD := 2
  const DWORD := 4
  const QWORD := 6
  const REAL := 8
  const MAX_COOKIE := 32
  const MAX_DEPTH := 32

  /** What the language can hold. */
  ghost predicate WellFormed(v: Value) {
    match v
    case Int(i) => -0x8000_0000_0000_0000 <= i < 0x8000_0000_0000_0000
    case Real(b) => |b| == 8
    case Pointer(b) => |b| == 8
    case Str(s) => |s| < 0x8000_0000
    case Table(a, h) =>
      && |a| < 0x8000_0000 && (forall i :: 0 <= i < |a| ==> WellFormed(a[i]))
      && |h| % 2 == 0 && (forall i :: 0 <= i < |h| ==> WellFormed(h[i]) && (i % 2 == 0 ==> !h[i].Nil?))
    case _ => true
  }

  // ---------------------------------------------------------------------------------------------
  // Numbers as bytes
  // ---------------------------------------------------------------------------------------------

  /** `k` bytes of `n`, the least significant first. */
  function Bytes(n: nat, k: nat): (r: seq<Byte>)
    ensures |r| == k
  {
    if k == 0 then [] else [n % 256] + Bytes(n / 256, k - 1)
  }

  function Number(s: seq<Byte>): nat {
    if s == [] then 0 else s[0] + 256 * Number(s[1..])
  }

  lemma {:induction false} NumberBytes(n: nat, k: nat)
    requires n < Pow(256, k)
    ensures Number(Bytes(n, k)) == n
  {
    if k > 0 {
      NumberBytes(n / 256, k - 1);
      assert Bytes(n, k)[1..] == Bytes(n / 256, k - 1);
    }
  }

  lemma Powers()
    ensures Pow(256, 1) == 0x100 && Pow(256, 2) == 0x1_0000 && Pow(256, 4) == 0x1_0000_0000
    ensures Pow(256, 8) == 0x1_0000_0000_0000_0000
  {
    assert Pow(256, 1) == 256 * Pow(256, 0);
    PowAdd(256, 1, 1);
    PowAdd(256, 2, 2);
    PowAdd(256, 4, 4);
  }

  /** The two's complement of a word, read back as a signed number. */
  function Signed(n: nat, limit: nat): int {
    if n < limit / 2 then n else n - limit
  }

  function Wrap(i: int, limit: nat): (n: nat)
    requires limit > 0
    ensures n < limit
  {
    i % limit
  }

  lemma SignedWrap(i: int, limit: nat)
    requires limit > 0 && limit % 2 == 0 && -(limit as int) <= 2 * i < limit
    ensures Signed(Wrap(i, limit), limit) == i
  {
    if i >= 0 {
      DivUnique(i, limit, 0, i);
    } else {
      DivUnique(i, limit, -1, i + limit);
    }
  }

  // ---------------------------------------------------------------------------------------------
  // The format
  // ---------------------------------------------------------------------------------------------

  function Combine(t: nat, cookie: nat): Byte
    requires t < 8 && cookie < 32
  {
    t + cookie * 8
  }

  function PackedInt(i: int): seq<Byte> {
    if i == 0 then [Combine(TYPE_NUMBER, ZERO)]
    else if i < -0x8000_0000 || i >= 0x8000_0000 then [Combine(TYPE_NUMBER, QWORD)] + Bytes(Wrap(i, 0x1_0000_0000_0000_0000), 8)
    else if i < 0 then [Combine(TYPE_NUMBER, DWORD)] + Bytes(Wrap(i, 0x1_0000_0000), 4)
    else if i < 0x100 then [Combine(TYPE_NUMBER, BYTE)] + Bytes(i, 1)
    else if i < 0x1_0000 then [Combine(TYPE_NUMBER, WORD)] + Bytes(i, 2)
    else [Combine(TYPE_NUMBER, DWORD)] + Bytes(Wrap(i, 0x1_0000_0000), 4)
  }

  function PackedStr(s: seq<Byte>): seq<Byte> {
    if |s| < MAX_COOKIE then [Combine(TYPE_SHORT_STRING, |s|)] + s
    else if |s| < 0x1_0000 then [Combine(TYPE_LONG_STRING, 2)] + Bytes(|s|, 2) + s
    else [Combine(TYPE_LONG_STRING, 4)] + Bytes(Wrap(|s|, 0x1_0000_0000), 4) + s
  }

  function PackedHead(n: nat): seq<Byte> {
    if n >= MAX_COOKIE - 1 then [Combine(TYPE_TABLE, MAX_COOKIE - 1)] + PackedInt(n) else [Combine(TYPE_TABLE, n)]
  }

  ghost function Packed(v: Value): (r: seq<Byte>)
    decreases v
  {
    match v
    case Nil => [Combine(TYPE_NIL, 0)]
    case Bool(b) => [Combine(TYPE_BOOLEAN, if b then 1 else 0)]
    case Int(i) => PackedInt(i)
    case Real(bits) => [Combine(TYPE_NUMBER, REAL)] + bits
    case Pointer(bits) => [Combine(TYPE_USERDATA, 0)] + bits
    case Str(s) => PackedStr(s)
    case Table(a, h) => PackedHead(|a|) + (PackedAll(a) + (PackedAll(h) + [Combine(TYPE_NIL, 0)]))
  }

  ghost function PackedAll(vs: seq<Value>): seq<Byte>
    decreases vs
  {
    if vs == [] then [] else Packed(vs[0]) + PackedAll(vs[1..])
  }

  // ---------------------------------------------------------------------------------------------
  // Reading it
  // ---------------------------------------------------------------------------------------------

  /** A stream that is refused; `wild` if the cursor has left the buffer instead. */
  datatype Parsed<T> = Bad(wild: bool) | Good(value: T, rest: seq<Byte>)

  function Take(s: seq<Byte>, n: nat): (r: Parsed<seq<Byte>>)
    ensures r.Good? ==> r.value + r.rest == s && |r.value| == n
  {
    if |s| < n then Bad(false) else Good(s[..n], s[n..])
  }

  /** `get_integer`. */
  function GetInteger(s: seq<Byte>, cookie: nat): (r: Parsed<int>)
    ensures r.Good? ==> |r.rest| <= |s|
  {
    if cookie == ZERO then Good(0, s) else
    if cookie != BYTE && cookie != WORD && cookie != DWORD && cookie != QWORD then Bad(false) else
    var k := if cookie == BYTE then 1 else if cookie == WORD then 2 else if cookie == DWORD then 4 else 8;
    var t := Take(s, k);
    if t.Bad? then Bad(t.wild)
    else if cookie == DWORD then Good(Signed(Number(t.value), 0x1_0000_0000), t.rest)
    else if cookie == QWORD then Good(Signed(Number(t.value), 0x1_0000_0000_0000_0000), t.rest)
    else Good(Number(t.value), t.rest)
  }

  /** The length of an array part, as a 32-bit integer. */
  function GetCount(s: seq<Byte>, cookie: nat): (r: Parsed<int>)
    ensures r.Good? ==> |r.rest| <= |s|
  {
    if cookie != MAX_COOKIE - 1 then Good(cookie, s) else
    if s == [] || s[0] % 8 != TYPE_NUMBER || s[0] / 8 == REAL then Bad(false) else
    var n := GetInteger(s[1..], s[0] / 8);
    if n.Bad? then Bad(n.wild) else Good(Signed(Wrap(n.value, 0x1_0000_0000), 0x1_0000_0000), n.rest)
  }

  /** `get_buffer`: a negative length passes the test for what is left, and moves the cursor out of the buffer. */
  function GetString(s: seq<Byte>, n: int): (r: Parsed<Value>)
    ensures r.Good? ==> |r.rest| <= |s|
  {
    if n < 0 then Bad(true) else
    var t := Take(s, n);
    if t.Bad? then Bad(t.wild) else Good(Str(t.value), t.rest)
  }

  /** The length is unsigned in the stream, and a signed 32-bit integer where it is used. */
  function GetLongString(s: seq<Byte>, k: nat): (r: Parsed<Value>)
    ensures r.Good? ==> |r.rest| <= |s|
  {
    var t := Take(s, k);
    if t.Bad? then Bad(t.wild) else GetString(t.rest, Signed(Number(t.value), 0x1_0000_0000))
  }

  /** `unpack_one`, and `push_value` for what follows the type byte. */
  ghost function Parse(s: seq<Byte>): (r: Parsed<Value>)
    ensures r.Good? ==> |r.rest| < |s|
    decreases |s|, 0
  {
    if s == [] then Bad(false) else
    var t, cookie := s[0] % 8, s[0] / 8;
    if t == TYPE_NIL then Good(Nil, s[1..])
    else if t == TYPE_BOOLEAN then Good(Bool(cookie != 0), s[1..])
    else if t == TYPE_NUMBER then
      if cookie == REAL then
        var b := Take(s[1..], 8);
        if b.Bad? then Bad(b.wild) else Good(Real(b.value), b.rest)
      else
        var n := GetInteger(s[1..], cookie);
        if n.Bad? then Bad(n.wild) else Good(Int(n.value), n.rest)
    else if t == TYPE_USERDATA then
      var b := Take(s[1..], 8);
      if b.Bad? then Bad(b.wild) else Good(Pointer(b.value), b.rest)
    else if t == TYPE_SHORT_STRING then GetString(s[1..], cookie)
    else if t == TYPE_LONG_STRING then
      if cookie == 2 then GetLongString(s[1..], 2) else if cookie == 4 then GetLongString(s[1..], 4) else Bad(false)
    else if t == TYPE_TABLE then
      var n := GetCount(s[1..], cookie);
      if n.Bad? then Bad(n.wild) else
      var a := ParseMany(n.rest, Times(n.value));
      if a.Bad? then Bad(a.wild) else
      var h := ParsePairs(a.rest);
      if h.Bad? then Bad(h.wild) else Good(Table(a.value, h.value), h.rest)
    else Bad(false)
  }

  /** How often a loop from 1 to `n` runs; a negative count is no array part. */
  function Times(n: int): nat {
    if n < 0 then 0 else n
  }

  ghost function ParseMany(s: seq<Byte>, n: nat): (r: Parsed<seq<Value>>)
    ensures r.Good? ==> |r.rest| <= |s|
    decreases |s|, 1, n
  {
    if n == 0 then Good([], s) else
    var v := Parse(s);
    if v.Bad? then Bad(v.wild) else
    var vs := ParseMany(v.rest, n - 1);
    if vs.Bad? then Bad(vs.wild) else Good([v.value] + vs.value, vs.rest)
  }

  /** Keys and values up to a nil key. */
  ghost function ParsePairs(s: seq<Byte>): (r: Parsed<seq<Value>>)
    ensures r.Good? ==> |r.rest| <= |s|
    decreases |s|, 1, 0
  {
    var k := Parse(s);
    if k.Bad? then Bad(k.wild)
    else if k.value.Nil? then Good([], k.rest) else
    var v := Parse(k.rest);
    if v.Bad? then Bad(v.wild) else
    var ps := ParsePairs(v.rest);
    if ps.Bad? then Bad(ps.wild) else Good([k.value, v.value] + ps.value, ps.rest)
  }

  /** All the values of a buffer. */
  ghost function ParseAll(s: seq<Byte>): (r: Parsed<seq<Value>>)
    ensures r.Good? ==> r.rest == []
    decreases |s|
  {
    if s == [] then Good([], []) else
    var v := Parse(s);
    if v.Bad? then Bad(v.wild) else
    var vs := ParseAll(v.rest);
    if vs.Bad? then Bad(vs.wild) else Good([v.value] + vs.value, vs.rest)
  }

  /** A long string leaves the buffer if and only if its length has four bytes and the top bit set. */
  lemma LongLeaves(s: seq<Byte>, k: nat)
    requires k == 2 || k == 4
    ensures GetLongString(s, k) == Bad(true) <==> k == 4 && |s| >= 4 && s[3] >= 128
  {
    if |s| >= k {
      if k == 4 {
        NumberFour(s[..4]);
      } else {
        NumberTwo(s[..2]);
      }
    }
  }

  lemma NumberTwo(b: seq<Byte>)
    requires |b| == 2
    ensures Number(b) == b[0] as int + 256 * (b[1] as int)
  {
    assert b[1..][0] == b[1] && b[1..][1..] == [] && Number(b[1..]) == b[1] as int + 256 * Number([]);
  }

  lemma NumberFour(b: seq<Byte>)
    requires |b| == 4
    ensures Number(b) == b[0] as int + 256 * (b[1] as int + 256 * (b[2] as int + 256 * (b[3] as int)))
  {
    var c := b[1..];
    assert c[0] == b[1] && Number(b) == b[0] as int + 256 * Number(c);
    assert c[1..][0] == b[2] && c[1..][1] == b[3] && Number(c) == b[1] as int + 256 * Number(c[1..]);
    NumberTwo(c[1..]);
  }

  /** The shortest stream that does. */
  lemma LeavesBuffer()
    ensures Parse([Combine(TYPE_LONG_STRING, 4), 0, 0, 0, 128]) == Bad(true)
  {
    hide Parse, GetLongString;
    var s: seq<Byte> := [Combine(TYPE_LONG_STRING, 4), 0, 0, 0, 128];
    ParseString(s);
    LongLeaves(s[1..], 4);
  }

  // ---------------------------------------------------------------------------------------------
  // The format in numbers
  // ---------------------------------------------------------------------------------------------

  /** Byte `k` has the weight 256^k; of a negative number, in two's complement. */
  ghost predicate LittleEndian(s: seq<Byte>, i: int) {
    forall k :: 0 <= k < |s| ==> Digit(s[k], i, k)
  }

  ghost predicate Digit(b: Byte, i: int, k: nat) {
    PowPositive(256, k);
    b == (i / Pow(256, k)) % 256
  }

  lemma DivDiv(n: int, a: nat, b: nat)
    requires a > 0 && b > 0
    ensures a * b > 0 && n / a / b == n / (a * b)
  {
    var q, r := n / a, n % a;
    var p, t := q / b, q % b;
    assert n == q * a + r && q == p * b + t;
    MulLess(t, b, a);
    assert (p * b + t) * a == p * (a * b) + t * a;
    DivUnique(n, a * b, p, t * a + r);
  }

  lemma {:induction false} BytesDigits(n: nat, k: nat)
    ensures LittleEndian(Bytes(n, k), n)
  {
    hide Digit;
    if k > 0 {
      BytesDigits(n / 256, k - 1);
      var s := Bytes(n, k);
      forall j | 0 <= j < k
        ensures Digit(s[j], n, j)
      {
        if j == 0 {
          FirstDigit(n);
        } else {
          assert s[j] == Bytes(n / 256, k - 1)[j - 1];
          NextDigit(s[j], n, j);
        }
      }
    }
  }

  lemma FirstDigit(n: int)
    ensures Digit(n % 256, n, 0)
  {
    assert Pow(256, 0) == 1;
  }

  lemma NextDigit(b: Byte, n: int, j: nat)
    requires j > 0
    ensures Digit(b, n / 256, j - 1) <==> Digit(b, n, j)
  {
    PowPositive(256, j - 1);
    DivDiv(n, 256, Pow(256, j - 1));
    PowStep(256, j);
  }

  lemma {:induction false} NumberDigits(s: seq<Byte>)
    ensures LittleEndian(s, Number(s))
  {
    hide Digit;
    if s != [] {
      var n := Number(s);
      DivUnique(n, 256, Number(s[1..]), s[0]);
      NumberDigits(s[1..]);
      forall j | 0 <= j < |s|
        ensures Digit(s[j], n, j)
      {
        if j == 0 {
          FirstDigit(n);
        } else {
          assert s[j] == s[1..][j - 1];
          NextDigit(s[j], n, j);
        }
      }
    }
  }

  /** Numbers that differ by a multiple of 256^m have the same last `m` bytes. */
  lemma SameDigits(s: seq<Byte>, i: int, j: int, q: int)
    requires LittleEndian(s, i) && j == i + q * Pow(256, |s|)
    ensures LittleEndian(s, j)
  {
    hide Digit;
    forall k | 0 <= k < |s|
      ensures Digit(s[k], j, k)
    {
      assert Digit(s[k], i, k);
      SameDigit(s[k], i, j, k, |s|, q);
    }
  }

  lemma SameDigit(b: Byte, i: int, j: int, k: nat, m: nat, q: int)
    requires Digit(b, i, k) && k < m && j == i + q * Pow(256, m)
    ensures Digit(b, j, k)
  {
    hide Pow;
    PowPositive(256, k);
    var p, c := Pow(256, k), Pow(256, m - k - 1);
    PowAdd(256, k, m - k);
    PowStep(256, m - k);
    var u, r := i / p, i % p;
    assert i == u * p + r;
    assert q * (p * (256 * c)) == (q * (256 * c)) * p;
    assert (u + q * (256 * c)) * p == u * p + (q * (256 * c)) * p;
    DivUnique(j, p, u + q * (256 * c), r);
    var d := u / 256;
    assert q * (256 * c) == (q * c) * 256;
    DivUnique(u + q * (256 * c), 256, d + q * c, u % 256);
  }

  lemma WrapDigits(i: int, m: nat)
    requires m > 0
    ensures Pow(256, m) > 0 && LittleEndian(Bytes(Wrap(i, Pow(256, m)), m), i)
  {
    hide Pow, LittleEndian;
    PowPositive(256, m);
    var limit := Pow(256, m);
    var n := Wrap(i, limit);
    BytesLength(n, m);
    BytesDigits(n, m);
    assert i == n + (i / limit) * limit;
    SameDigits(Bytes(n, m), n, i, i / limit);
  }

  /** Every integer in numbers: one byte for zero; else 2 + 8 * c, where c is the number of bytes that follow, or 6 for
      eight of them. */
  lemma IntFormat(i: int)
    ensures var r := Packed(Int(i));
            if i == 0 then r == [2]
            else if 0 < i < 256 then r == [10, i]
            else if 256 <= i < 65536 then |r| == 3 && r[0] == 18 && LittleEndian(r[1..], i)
            else if -2147483648 <= i < 2147483648 then |r| == 5 && r[0] == 34 && LittleEndian(r[1..], i)
            else |r| == 9 && r[0] == 50 && LittleEndian(r[1..], i)
  {
    hide Bytes, Wrap, Pow, LittleEndian;
    Powers();
    if 0 < i < 256 {
      OneByte(i);
    } else if 256 <= i < 65536 {
      FieldDigits(PackedInt(i), Bytes(i, 2));
      BytesDigits(i, 2);
    } else if -2147483648 <= i < 2147483648 && i != 0 {
      WrapDigits(i, 4);
      FieldDigits(PackedInt(i), Bytes(Wrap(i, 0x1_0000_0000), 4));
    } else if i != 0 {
      WrapDigits(i, 8);
      FieldDigits(PackedInt(i), Bytes(Wrap(i, 0x1_0000_0000_0000_0000), 8));
    }
  }

  lemma OneByte(i: nat)
    requires i < 256
    ensures Bytes(i, 1) == [i]
  {
    assert Bytes(i, 1) == [i % 256] + Bytes(i / 256, 0);
  }

  lemma FieldDigits(r: seq<Byte>, field: seq<Byte>)
    requires r != [] && r == [r[0]] + field
    ensures |r| == 1 + |field| && r[1..] == field
  {
  }

  /** Every string: a short one after 4 + 8 times its length, a longer one after 21 or 37 and its length in two or four
      bytes. */
  lemma StrFormat(x: seq<Byte>)
    ensures var r := Packed(Str(x));
            if |x| < 32 then r == [4 + 8 * |x|] + x
            else if |x| < 65536 then r == [21, |x| % 256, |x| / 256] + x
            else |r| == 5 + |x| && r[0] == 37 && LittleEndian(r[1..5], |x|) && r[5..] == x
  {
    hide Wrap, Pow, LittleEndian;
    Powers();
    if 32 <= |x| < 65536 {
      TwoBytes(|x|);
      assert [21] + Bytes(|x|, 2) + x == [21, |x| % 256, |x| / 256] + x;
    } else if |x| >= 65536 {
      WrapDigits(|x|, 4);
      FourBytes(Packed(Str(x)), Bytes(Wrap(|x|, 0x1_0000_0000), 4), x);
    }
  }

  lemma TwoBytes(n: nat)
    requires n < 65536
    ensures Bytes(n, 2) == [n % 256, n / 256]
  {
    OneByte(n / 256);
    assert Bytes(n, 2) == [n % 256] + Bytes(n / 256, 1);
  }

  lemma FourBytes(r: seq<Byte>, field: seq<Byte>, x: seq<Byte>)
    requires r != [] && |field| == 4 && r == [r[0]] + field + x
    ensures |r| == 5 + |x| && r[1..5] == field && r[5..] == x
  {
  }

  /** Everything that is neither, nor a table. */
  lemma PlainFormat(v: Value)
    ensures match v
            case Nil => Packed(v) == [0]
            case Bool(b) => Packed(v) == [if b then 9 else 1]
            case Real(bits) => Packed(v) == [66] + bits
            case Pointer(bits) => Packed(v) == [3] + bits
            case _ => true
  {
    hide PackedAll;
  }

  /** The first byte of a table tells how long its array part is, or 254 that an integer does. A zero ends the pairs. */
  ghost function TableHead(n: nat): seq<Byte> {
    if n < 31 then [6 + 8 * n] else [254] + Packed(Int(n))
  }

  lemma TableFormat(a: seq<Value>, h: seq<Value>)
    ensures Packed(Table(a, h)) == TableHead(|a|) + (PackedAll(a) + (PackedAll(h) + [0]))
  {
    hide PackedAll, PackedInt;
  }

  /** Reading an integer after its first byte: which of them there are, how many bytes follow, and what they mean. */
  lemma IntReads(s: seq<Byte>, c: nat)
    ensures var r := GetInteger(s, c);
            var w := if c == 0 then 0 else if c == 1 then 1 else if c == 2 then 2 else if c == 4 then 4 else 8;
            && (r.Good? <==> (c == 0 || c == 1 || c == 2 || c == 4 || c == 6) && |s| >= w)
            && (r.Bad? ==> !r.wild)
            && (r.Good? ==>
                  && r.rest == s[w..] && LittleEndian(s[..w], r.value)
                  && (c == 0 ==> r.value == 0) && (c == 1 ==> 0 <= r.value < 256) && (c == 2 ==> 0 <= r.value < 65536)
                  && (c == 4 ==> -2147483648 <= r.value < 2147483648)
                  && (c == 6 ==> -9223372036854775808 <= r.value < 9223372036854775808))
  {
    hide Number, Pow, LittleEndian;
    Powers();
    var w := if c == 0 then 0 else if c == 1 then 1 else if c == 2 then 2 else if c == 4 then 4 else 8;
    if |s| >= w {
      NumberDigits(s[..w]);
      NumberBelow(s[..w]);
      NoDigits(s[..0]);
      if c == 4 || c == 6 {
        var n, limit := Number(s[..w]), Pow(256, w);
        SameDigits(s[..w], n, Signed(n, limit), if n < limit / 2 then 0 else -1);
      }
      assert s[0..] == s;
    }
  }

  lemma NoDigits(s: seq<Byte>)
    requires s == []
    ensures LittleEndian(s, 0)
  {
  }

  lemma {:induction false} NumberBelow(s: seq<Byte>)
    ensures Number(s) < Pow(256, |s|)
  {
    if s != [] {
      NumberBelow(s[1..]);
      PowStep(256, |s|);
    }
  }

  // ---------------------------------------------------------------------------------------------
  // The round trip
  // ---------------------------------------------------------------------------------------------

  lemma TakeBack(x: seq<Byte>, t: seq<Byte>)
    ensures Take(x + t, |x|) == Good(x, t)
  {
  }

  lemma IntBack(i: int, t: seq<Byte>)
    requires -0x8000_0000_0000_0000 <= i < 0x8000_0000_0000_0000
    ensures var s := PackedInt(i) + t;
            s[0] % 8 == TYPE_NUMBER && s[0] / 8 != REAL && GetInteger(s[1..], s[0] / 8) == Good(i, t)
  {
    hide Pow, Bytes, Number, Take, Wrap, Signed;
    Powers();
    var s := PackedInt(i) + t;
    if i == 0 {
      assert s[1..] == t;
    } else if i < -0x8000_0000 || i >= 0x8000_0000 {
      FieldBack(s, Wrap(i, 0x1_0000_0000_0000_0000), 8, t);
      WrapRange(i, 0x1_0000_0000_0000_0000);
      SignedWrap(i, 0x1_0000_0000_0000_0000);
    } else if 0 < i < 0x100 {
      FieldBack(s, i, 1, t);
    } else if 0 < i < 0x1_0000 {
      FieldBack(s, i, 2, t);
    } else {
      FieldBack(s, Wrap(i, 0x1_0000_0000), 4, t);
      WrapRange(i, 0x1_0000_0000);
      SignedWrap(i, 0x1_0000_0000);
    }
  }

  lemma WrapRange(i: int, limit: nat)
    requires limit > 0
    ensures Wrap(i, limit) < limit
  {
  }

  /** A field of `k` bytes after one byte of header. */
  lemma FieldBack(s: seq<Byte>, n: nat, k: nat, t: seq<Byte>)
    requires s != [] && s == [s[0]] + Bytes(n, k) + t
    ensures Take(s[1..], k).Good? && Take(s[1..], k).rest == t
    ensures n < Pow(256, k) ==> Number(Take(s[1..], k).value) == n
  {
    BytesLength(n, k);
    assert s[1..] == Bytes(n, k) + t;
    TakeBack(Bytes(n, k), t);
    if n < Pow(256, k) {
      NumberBytes(n, k);
    }
  }

  lemma BytesLength(n: nat, k: nat)
    ensures |Bytes(n, k)| == k
  {
  }

  lemma CombineParts(t: nat, cookie: nat)
    requires t < 8 && cookie < 32
    ensures Combine(t, cookie) % 8 == t && Combine(t, cookie) / 8 == cookie
  {
  }

  lemma ShortBack(x: seq<Byte>, t: seq<Byte>)
    requires |x| < MAX_COOKIE
    ensures Parse([Combine(TYPE_SHORT_STRING, |x|)] + x + t) == Good(Str(x), t)
  {
    hide Parse, Take, Combine;
    var s := [Combine(TYPE_SHORT_STRING, |x|)] + x + t;
    CombineParts(TYPE_SHORT_STRING, |x|);
    ParseString(s);
    assert s[1..] == x + t;
    TakeBack(x, t);
  }

  lemma LongBack(x: seq<Byte>, k: nat, t: seq<Byte>)
    requires (k == 2 || k == 4) && |x| < Pow(256, k) && |x| < 0x8000_0000
    ensures Parse([Combine(TYPE_LONG_STRING, k)] + Bytes(|x|, k) + x + t) == Good(Str(x), t)
  {
    hide Parse, Take, Combine, Bytes, Number, Pow;
    var s := [Combine(TYPE_LONG_STRING, k)] + Bytes(|x|, k) + x + t;
    CombineParts(TYPE_LONG_STRING, k);
    ParseString(s);
    assert s == [s[0]] + Bytes(|x|, k) + (x + t);
    FieldBack(s, |x|, k, x + t);
    TakeBack(x, t);
  }

  lemma StrBack(x: seq<Byte>, t: seq<Byte>)
    requires |x| < 0x8000_0000
    ensures Parse(PackedStr(x) + t) == Good(Str(x), t)
  {
    hide Pow, Bytes, Parse, Combine, Wrap;
    Powers();
    if |x| < MAX_COOKIE {
      ShortBack(x, t);
    } else if |x| < 0x1_0000 {
      LongBack(x, 2, t);
    } else {
      WrapSmall(|x|, 0x1_0000_0000);
      LongBack(x, 4, t);
    }
  }

  lemma ParseString(s: seq<Byte>)
    requires s != []
    ensures s[0] % 8 == TYPE_SHORT_STRING ==> Parse(s) == GetString(s[1..], s[0] / 8)
    ensures s[0] % 8 == TYPE_LONG_STRING && s[0] / 8 == 2 ==> Parse(s) == GetLongString(s[1..], 2)
    ensures s[0] % 8 == TYPE_LONG_STRING && s[0] / 8 == 4 ==> Parse(s) == GetLongString(s[1..], 4)
  {
    hide GetString, GetLongString;
  }

  lemma {:induction false} ParseTable(s: seq<Byte>, n: nat, s1: seq<Byte>, a: seq<Value>, s2: seq<Byte>, h: seq<Value>, s3: seq<Byte>)
    requires s != [] && s[0] % 8 == TYPE_TABLE && GetCount(s[1..], s[0] / 8) == Good(n, s1)
    requires ParseMany(s1, n) == Good(a, s2) && ParsePairs(s2) == Good(h, s3)
    ensures Parse(s) == Good(Table(a, h), s3)
  {
    hide GetCount, ParseMany, ParsePairs;
  }

  lemma WrapSmall(i: nat, limit: nat)
    requires i < limit
    ensures Wrap(i, limit) == i
  {
    DivUnique(i, limit, 0, i);
  }

  lemma CountBack(n: nat, t: seq<Byte>)
    requires n < 0x8000_0000
    ensures var s := PackedHead(n) + t; s[0] % 8 == TYPE_TABLE && GetCount(s[1..], s[0] / 8) == Good(n, t)
  {
    hide PackedInt, GetInteger, Signed, Wrap;
    var s := PackedHead(n) + t;
    if n >= MAX_COOKIE - 1 {
      assert s[1..] == PackedInt(n) + t;
      IntBack(n, t);
      IntLength(n);
      assert s[1..][0] == (PackedInt(n) + t)[0];
      SignedWrap(n, 0x1_0000_0000);
    } else {
      assert s[1..] == t;
    }
  }

  lemma IntLength(i: int)
    ensures |PackedInt(i)| > 0
  {
  }

  lemma ScalarBack(v: Value, t: seq<Byte>)
    requires WellFormed(v) && !v.Table?
    ensures Parse(Packed(v) + t) == Good(v, t)
  {
    hide PackedInt, PackedStr, GetInteger, Take;
    var s := Packed(v) + t;
    match v {
      case Nil => assert s[1..] == t;
      case Bool(_) => assert s[1..] == t;
      case Int(i) =>
        IntLength(i);
        IntBack(i, t);
      case Real(b) =>
        assert s[1..] == b + t;
        TakeBack(b, t);
      case Pointer(b) =>
        assert s[1..] == b + t;
        TakeBack(b, t);
      case Str(x) => StrBack(x, t);
    }
  }

  /** Every value is read back as it was, and reading stops where it ends. */
  lemma {:induction false} PackBack(v: Value, t: seq<Byte>)
    requires WellFormed(v)
    ensures Parse(Packed(v) + t) == Good(v, t)
    decreases v
  {
    if v.Table? {
      TableBack(v, t);
    } else {
      ScalarBack(v, t);
    }
  }

  lemma {:induction false} TableBack(v: Value, t: seq<Byte>)
    requires WellFormed(v) && v.Table?
    ensures Parse(Packed(v) + t) == Good(v, t)
    decreases v, 0
  {
    hide PackedHead, GetCount, Parse, PackedAll, ParseMany, ParsePairs;
    var a, h := PackedAll(v.arr), PackedAll(v.hash);
    var end: seq<Byte> := [Combine(TYPE_NIL, 0)];
    var s, s1, s2 := Packed(v) + t, a + (h + (end + t)), h + (end + t);
    HeadLength(|v.arr|);
    CountBack(|v.arr|, s1);
    assert s == PackedHead(|v.arr|) + s1;
    ManyBack(v.arr, s2);
    PairsBack(v.hash, t);
    ParseTable(s, |v.arr|, s1, v.arr, s2, v.hash, t);
  }

  lemma HeadLength(n: nat)
    ensures |PackedHead(n)| > 0
  {
  }

  lemma {:induction false} ManyBack(vs: seq<Value>, t: seq<Byte>)
    requires forall i :: 0 <= i < |vs| ==> WellFormed(vs[i])
    ensures ParseMany(PackedAll(vs) + t, |vs|) == Good(vs, t)
    decreases vs
  {
    hide Parse, Packed;
    if vs != [] {
      var x, rest := Packed(vs[0]), PackedAll(vs[1..]);
      assert PackedAll(vs) + t == x + (rest + t);
      PackBack(vs[0], rest + t);
      ManyBack(vs[1..], t);
      assert [vs[0]] + vs[1..] == vs;
    } else {
      assert PackedAll(vs) + t == t;
    }
  }

  lemma {:induction false} PairsBack(h: seq<Value>, t: seq<Byte>)
    requires |h| % 2 == 0 && forall i :: 0 <= i < |h| ==> WellFormed(h[i]) && (i % 2 == 0 ==> !h[i].Nil?)
    ensures ParsePairs(PackedAll(h) + ([Combine(TYPE_NIL, 0)] + t)) == Good(h, t)
    decreases h
  {
    hide Parse, Packed, ParsePairs;
    var tail: seq<Byte> := [Combine(TYPE_NIL, 0)] + t;
    if h != [] {
      var k, v, rest := Packed(h[0]), Packed(h[1]), PackedAll(h[2..]);
      assert PackedAll(h) + tail == k + (v + (rest + tail)) by {
        assert h[1..][1..] == h[2..];
        assert PackedAll(h) == k + PackedAll(h[1..]);
        assert PackedAll(h[1..]) == v + rest;
      }
      PackBack(h[0], v + (rest + tail));
      PackBack(h[1], rest + tail);
      PairsBack(h[2..], t);
      MorePairs(PackedAll(h) + tail, h[0], v + (rest + tail), h[1], rest + tail, h[2..], t);
      assert [h[0], h[1]] + h[2..] == h;
    } else {
      assert PackedAll(h) + tail == tail && tail[1..] == t;
      NoMorePairs(tail);
    }
  }

  lemma {:induction false} MorePairs(s: seq<Byte>, k: Value, s1: seq<Byte>, v: Value, s2: seq<Byte>, ps: seq<Value>, t: seq<Byte>)
    requires Parse(s) == Good(k, s1) && !k.Nil? && Parse(s1) == Good(v, s2) && ParsePairs(s2) == Good(ps, t)
    ensures ParsePairs(s) == Good([k, v] + ps, t)
  {
    hide Parse;
  }

  lemma {:induction false} NoMorePairs(s: seq<Byte>)
    requires s != [] && s[0] == Combine(TYPE_NIL, 0)
    ensures ParsePairs(s) == Good([], s[1..])
  {
    hide Parse;
    NilBack(s);
  }

  lemma {:induction false} NilBack(s: seq<Byte>)
    requires s != [] && s[0] == Combine(TYPE_NIL, 0)
    ensures Parse(s) == Good(Nil, s[1..])
  {
    hide ParsePairs;
    assert s[0] % 8 == TYPE_NIL;
  }

  /** So is every list of values. */
  lemma {:induction false} AllBack(vs: seq<Value>)
    requires forall i :: 0 <= i < |vs| ==> WellFormed(vs[i])
    ensures ParseAll(PackedAll(vs)) == Good(vs, [])
    decreases vs
  {
    hide Parse, Packed;
    if vs != [] {
      var rest := PackedAll(vs[1..]);
      PackBack(vs[0], rest);
      AllBack(vs[1..]);
      NotEmpty(vs[0], rest);
      assert [vs[0]] + vs[1..] == vs;
    }
  }

  lemma NotEmpty(v: Value, t: seq<Byte>)
    requires Parse(Packed(v) + t).Good?
    ensures Packed(v) + t != []
  {
  }

  // ---------------------------------------------------------------------------------------------
  // Writing, into a chain of blocks
  // ---------------------------------------------------------------------------------------------

  const BLOCK_SIZE := 128

  ghost function Flat(bs: seq<seq<Byte>>): seq<Byte> {
    if bs == [] then [] else Flat(bs[..|bs| - 1]) + bs[|bs| - 1]
  }

  /** A length kept in a 32-bit integer that wraps around. */
  function Int32(n: int): int {
    Signed(Wrap(n, 0x1_0000_0000), 0x1_0000_0000)
  }

  /** What a buffer of that length takes of `s`; a negative length is not allocated. */
  ghost function Taken(s: seq<Byte>): (r: Option<seq<Byte>>) {
    IntRange(|s|);
    if Int32(|s|) < 0 then None else Some(s[..Int32(|s|)])
  }

  lemma IntRange(n: nat)
    ensures Int32(n) <= n && (Int32(n) == n <==> n < 0x8000_0000)
  {
    if n < 0x1_0000_0000 {
      DivUnique(n, 0x1_0000_0000, 0, n);
    }
  }

  lemma IntNext(n: nat, k: nat)
    ensures Int32(Int32(n) + k) == Int32(n + k)
  {
    var q, r := n / 0x1_0000_0000, n % 0x1_0000_0000;
    var x := Int32(n) + k;
    var p, y := (n + k) / 0x1_0000_0000, (n + k) % 0x1_0000_0000;
    assert n == q * 0x1_0000_0000 + r && n + k == p * 0x1_0000_0000 + y;
    DivUnique(x, 0x1_0000_0000, if r < 0x8000_0000 then p - q else p - q - 1, y);
  }

  lemma TakenWhole(s: seq<Byte>)
    ensures Taken(s) == Some(s) <==> |s| < 0x8000_0000
  {
    hide Int32;
    IntRange(|s|);
    assert s[..|s|] == s;
  }

  lemma TakenPart(s: seq<Byte>)
    ensures Taken(s).Some? ==> Taken(s).value <= s
  {
    hide Int32;
    IntRange(|s|);
  }

  lemma {:induction false} FlatPart(bs: seq<seq<Byte>>, i: nat)
    requires i <= |bs| && forall j :: 0 <= j < |bs| ==> |bs[j]| == BLOCK_SIZE
    ensures |Flat(bs)| == BLOCK_SIZE * |bs| && Flat(bs[..i]) == Flat(bs)[..BLOCK_SIZE * i]
    ensures i < |bs| ==> bs[i] == Flat(bs)[BLOCK_SIZE * i..BLOCK_SIZE * i + BLOCK_SIZE]
    decreases |bs|
  {
    if i == |bs| {
      assert bs[..i] == bs;
      if bs != [] {
        FlatPart(bs[..|bs| - 1], |bs| - 1);
      }
      assert Flat(bs)[..BLOCK_SIZE * i] == Flat(bs);
    } else {
      var n := |bs| - 1;
      FlatPart(bs[..n], i);
      assert bs[..n][..i] == bs[..i];
      if i < n {
        assert bs[..n][i] == bs[i];
      }
    }
  }

  class WriteBlock {
    var blocks: seq<seq<Byte>>
    var len: int
    /** How much of the last block is in use. */
    var ptr: nat

    ghost predicate Valid()
      reads this
    {
      && blocks != [] && (forall i :: 0 <= i < |blocks| ==> |blocks[i]| == 128) && ptr <= 128
      && len == Int32(Total())
    }

    ghost function Total(): nat
      requires blocks != []
      reads this
    {
      BLOCK_SIZE * (|blocks| - 1) + ptr
    }

    /** All that was pushed. */
    ghost function Contents(): seq<Byte>
      requires Valid()
      reads this
    {
      Flat(blocks[..|blocks| - 1]) + blocks[|blocks| - 1][..ptr]
    }

    constructor ()
      ensures Valid() && Contents() == []
    {
      blocks := [seq(BLOCK_SIZE, _ => 0)];
      len, ptr := 0, 0;
      new;
      IntRange(0);
    }

    /** Another block at the end of the chain, when the last one is full. */
    method Alloc()
      requires Valid() && ptr == BLOCK_SIZE
      modifies this`blocks, this`ptr
      ensures Valid() && ptr == 0 && len == old(len) && Contents() == old(Contents())
    {
      var b: seq<Byte> := seq(BLOCK_SIZE, _ => 0);
      ghost var n := |blocks| - 1;
      assert blocks[n][..BLOCK_SIZE] == blocks[n];
      blocks, ptr := blocks + [b], 0;
      assert blocks[..n + 1][..n] == old(blocks)[..n] && blocks[..n + 1] == old(blocks);
    }

    /** Bytes that fit in what is left of the last block. */
    method Copy(buf: seq<Byte>)
      requires Valid() && ptr + |buf| <= BLOCK_SIZE
      modifies this`blocks, this`ptr, this`len
      ensures Valid() && ptr == old(ptr) + |buf| && Contents() == old(Contents()) + buf
    {
      var n := |blocks| - 1;
      var b := blocks[n];
      blocks := blocks[n := b[..ptr] + buf + b[ptr + |buf|..]];
      IntNext(Total(), |buf|);
      ptr, len := ptr + |buf|, Int32(len + |buf|);
      assert blocks[..n] == old(blocks)[..n] && blocks[n][..ptr] == b[..old(ptr)] + buf;
    }

    /** `wb_push`. */
    method Push(buf: seq<Byte>)
      requires Valid()
      modifies this
      ensures Valid() && Contents() == old(Contents()) + buf
    {
      var rest := buf;
      if ptr == BLOCK_SIZE {
        Alloc();
      }
      while ptr > BLOCK_SIZE - |rest|
        invariant Valid() && ptr < BLOCK_SIZE && Contents() + rest == old(Contents()) + buf
        decreases |rest|
      {
        var copy := BLOCK_SIZE - ptr;
        ghost var c := Contents();
        assert rest == rest[..copy] + rest[copy..];
        Copy(rest[..copy]);
        assert c + rest == (c + rest[..copy]) + rest[copy..];
        rest := rest[copy..];
        Alloc();
      }
      Copy(rest);
    }

    /** `seri`: the chain, block by block, as one buffer. */
    method Serialize() returns (r: Option<seq<Byte>>)
      requires Valid()
      ensures r == Taken(Contents())
    {
      hide Int32;
      ghost var all := Flat(blocks);
      Whole();
      IntRange(Total());
      if len < 0 {
        return None;
      }
      var buffer: seq<Byte> := [];
      var left, i := len, 0;
      while left > 0
        invariant 0 <= left && 0 <= i <= |blocks| && left + BLOCK_SIZE * i == len && buffer == all[..BLOCK_SIZE * i]
      {
        FlatPart(blocks, i);
        if left >= BLOCK_SIZE {
          buffer := buffer + blocks[i];
          assert all[..BLOCK_SIZE * i + BLOCK_SIZE] == all[..BLOCK_SIZE * i] + all[BLOCK_SIZE * i..BLOCK_SIZE * i + BLOCK_SIZE];
          left := left - BLOCK_SIZE;
          i := i + 1;
        } else {
          buffer := buffer + blocks[i][..left];
          assert buffer == all[..len];
          break;
        }
      }
      assert Contents()[..len] == all[..len];
      r := Some(buffer);
    }

    /** All that was pushed is the beginning of the chain. */
    lemma Whole()
      requires Valid()
      ensures |Flat(blocks)| == BLOCK_SIZE * |blocks| && |Contents()| == Total() && Contents() == Flat(blocks)[..Total()]
    {
      hide Int32;
      var n := |blocks| - 1;
      FlatPart(blocks, n);
    }

    /** A type byte and what belongs to it. */
    method PutField(tag: Byte, field: seq<Byte>)
      requires Valid()
      modifies this
      ensures Valid() && Contents() == old(Contents()) + ([tag] + field)
    {
      hide Contents;
      Push([tag]);
      Push(field);
      assert old(Contents()) + [tag] + field == old(Contents()) + ([tag] + field);
    }

    /** `wb_integer`. */
    method PutInteger(i: int)
      requires Valid()
      modifies this
      ensures Valid() && Contents() == old(Contents()) + PackedInt(i)
    {
      hide Bytes, Contents, Combine, Wrap;
      if i == 0 {
        Push([Combine(TYPE_NUMBER, ZERO)]);
      } else if i < -0x8000_0000 || i >= 0x8000_0000 {
        PutField(Combine(TYPE_NUMBER, QWORD), Bytes(Wrap(i, 0x1_0000_0000_0000_0000), 8));
      } else if i < 0 {
        PutField(Combine(TYPE_NUMBER, DWORD), Bytes(Wrap(i, 0x1_0000_0000), 4));
      } else if i < 0x100 {
        PutField(Combine(TYPE_NUMBER, BYTE), Bytes(i, 1));
      } else if i < 0x1_0000 {
        PutField(Combine(TYPE_NUMBER, WORD), Bytes(i, 2));
      } else {
        PutField(Combine(TYPE_NUMBER, DWORD), Bytes(Wrap(i, 0x1_0000_0000), 4));
      }
    }

    /** `wb_string`. */
    method PutString(s: seq<Byte>)
      requires Valid()
      modifies this
      ensures Valid() && Contents() == old(Contents()) + PackedStr(s)
    {
      hide Bytes, Contents, Combine, Wrap;
      ghost var c := Contents();
      if |s| < MAX_COOKIE {
        Push([Combine(TYPE_SHORT_STRING, |s|)]);
        assert c + [Combine(TYPE_SHORT_STRING, |s|)] + s == c + ([Combine(TYPE_SHORT_STRING, |s|)] + s);
        if |s| > 0 {
          Push(s);
        }
      } else {
        ghost var head;
        if |s| < 0x1_0000 {
          head := [Combine(TYPE_LONG_STRING, 2)] + Bytes(|s|, 2);
          PutField(Combine(TYPE_LONG_STRING, 2), Bytes(|s|, 2));
        } else {
          head := [Combine(TYPE_LONG_STRING, 4)] + Bytes(Wrap(|s|, 0x1_0000_0000), 4);
          PutField(Combine(TYPE_LONG_STRING, 4), Bytes(Wrap(|s|, 0x1_0000_0000), 4));
        }
        assert c + head + s == c + (head + s);
        Push(s);
      }
    }

    /** `pack_one`: fails when tables are nested too deeply. */
    method PackOne(v: Value, depth: nat) returns (ok: bool)
      requires Valid() && WellFormed(v)
      modifies this
      ensures ok <==> Packable(v, depth)
      ensures Valid() && (ok ==> Contents() == old(Contents()) + Packed(v))
      decreases v
    {
      hide PackedInt, PackedStr, Contents, Combine;
      if depth > MAX_DEPTH {
        return false;
      }
      ok := true;
      match v {
        case Nil => Push([Combine(TYPE_NIL, 0)]);
        case Bool(b) => Push([Combine(TYPE_BOOLEAN, if b then 1 else 0)]);
        case Int(i) => PutInteger(i);
        case Real(bits) =>
          PutField(Combine(TYPE_NUMBER, REAL), bits);
        case Pointer(bits) =>
          PutField(Combine(TYPE_USERDATA, 0), bits);
        case Str(s) => PutString(s);
        case Table(_, _) => ok := PackTable(v, depth + 1);
      }
    }

    method PutHead(n: nat)
      requires Valid()
      modifies this
      ensures Valid() && Contents() == old(Contents()) + PackedHead(n)
    {
      hide Contents, Combine, PackedInt;
      if n >= MAX_COOKIE - 1 {
        Push([Combine(TYPE_TABLE, MAX_COOKIE - 1)]);
        PutInteger(n);
        ghost var c, tag := old(Contents()), [Combine(TYPE_TABLE, MAX_COOKIE - 1)];
        assert c + tag + PackedInt(n) == c + (tag + PackedInt(n));
      } else {
        Push([Combine(TYPE_TABLE, n)]);
      }
    }

    /** `wb_table_array` and `wb_table_hash`. */
    method PackTable(v: Value, depth: nat) returns (ok: bool)
      requires Valid() && WellFormed(v) && v.Table?
      modifies this
      ensures ok <==> AllPackable(v.arr, depth) && AllPackable(v.hash, depth)
      ensures Valid() && (ok ==> Contents() == old(Contents()) + Packed(v))
      decreases v, 0
    {
      hide PackedInt, PackedHead, PackedAll, Contents, Packed, Packable, Combine;
      var n := |v.arr|;
      ghost var c := Contents();
      PutHead(n);
      ok := PackAll(v.arr, depth);
      if !ok {
        return;
      }
      ok := PackAll(v.hash, depth);
      if !ok {
        return;
      }
      Push([Combine(TYPE_NIL, 0)]);
      PackedTable(v);
      ghost var a, h, e := PackedAll(v.arr), PackedAll(v.hash), [Combine(TYPE_NIL, 0)];
      assert c + PackedHead(n) + a + h + e == c + (PackedHead(n) + (a + (h + e)));
    }

    method PackAll(vs: seq<Value>, depth: nat) returns (ok: bool)
      requires Valid() && forall i :: 0 <= i < |vs| ==> WellFormed(vs[i])
      modifies this
      ensures ok <==> AllPackable(vs, depth)
      ensures Valid() && (ok ==> Contents() == old(Contents()) + PackedAll(vs))
      decreases vs
    {
      hide Contents, Packed, Packable;
      var i := 0;
      assert vs[0..] == vs;
      while i < |vs|
        invariant 0 <= i <= |vs| && Valid() && AllPackable(vs[..i], depth)
        invariant Contents() + PackedAll(vs[i..]) == old(Contents()) + PackedAll(vs)
      {
        ghost var c := Contents();
        ok := PackOne(vs[i], depth);
        if !ok {
          return;
        }
        assert vs[i..][1..] == vs[i + 1..];
        assert c + PackedAll(vs[i..]) == (c + Packed(vs[i])) + PackedAll(vs[i + 1..]);
        i := i + 1;
      }
      assert vs[..i] == vs;
      ok := true;
    }
  }

  lemma PackedTable(v: Value)
    requires v.Table?
    ensures Packed(v) == PackedHead(|v.arr|) + (PackedAll(v.arr) + (PackedAll(v.hash) + [Combine(TYPE_NIL, 0)]))
  {
  }

  /** Nowhere nested deeper than allowed; an empty table may be one deeper than anything else. */
  ghost predicate Packable(v: Value, depth: nat)
    decreases v
  {
    depth <= 32 && (v.Table? ==> AllPackable(v.arr, depth + 1) && AllPackable(v.hash, depth + 1))
  }

  ghost predicate AllPackable(vs: seq<Value>, depth: nat)
    decreases vs
  {
    forall i :: 0 <= i < |vs| ==> Packable(vs[i], depth)
  }

  // ---------------------------------------------------------------------------------------------
  // Reading, with a cursor
  // ---------------------------------------------------------------------------------------------

  /** What a reading method returns, and where it leaves the cursor, against what is there. */
  ghost predicate Matches<T>(r: Option<T>, wild: bool, rest: seq<Byte>, p: Parsed<T>) {
    if p.Bad? then r.None? && wild == p.wild else r == Some(p.value) && !wild && rest == p.rest
  }

  class ReadBlock {
    const buffer: seq<Byte>
    var len: nat
    var ptr: nat
    /** Raised when a negative length would move the cursor out of the buffer. */
    var wild: bool

    ghost predicate Valid()
      reads this
    {
      ptr + len == |buffer|
    }

    ghost function Rest(): seq<Byte>
      requires Valid()
      reads this
    {
      buffer[ptr..]
    }

    constructor (b: seq<Byte>)
      ensures Valid() && buffer == b && Rest() == b && !wild
    {
      buffer, len, ptr, wild := b, |b|, 0, false;
    }

    /** `rb_read`. */
    method Read(sz: nat) returns (r: Option<seq<Byte>>)
      requires Valid() && !wild
      modifies this
      ensures Valid() && |Rest()| <= old(|Rest()|) && Matches(r, wild, Rest(), Take(old(Rest()), sz))
    {
      if len < sz {
        return None;
      }
      r := Some(buffer[ptr..ptr + sz]);
      assert buffer[ptr..][..sz] == buffer[ptr..ptr + sz] && buffer[ptr..][sz..] == buffer[ptr + sz..];
      ptr, len := ptr + sz, len - sz;
    }

    method Integer(cookie: nat) returns (r: Option<int>)
      requires Valid() && !wild
      modifies this
      ensures Valid() && |Rest()| <= old(|Rest()|) && Matches(r, wild, Rest(), GetInteger(old(Rest()), cookie))
    {
      hide Number, Signed, Take;
      if cookie == ZERO {
        return Some(0);
      } else if cookie == BYTE || cookie == WORD {
        var b := Read(if cookie == BYTE then 1 else 2);
        return if b.None? then None else Some(Number(b.value));
      } else if cookie == DWORD {
        var b := Read(4);
        return if b.None? then None else Some(Signed(Number(b.value), 0x1_0000_0000));
      } else if cookie == QWORD {
        var b := Read(8);
        return if b.None? then None else Some(Signed(Number(b.value), 0x1_0000_0000_0000_0000));
      }
      return None;
    }

    method String(n: int) returns (r: Option<Value>)
      requires Valid() && !wild
      modifies this
      ensures Valid() && |Rest()| <= old(|Rest()|) && Matches(r, wild, Rest(), GetString(old(Rest()), n))
    {
      hide Take;
      if n < 0 {
        wild := true;
        return None;
      }
      var b := Read(n);
      r := if b.None? then None else Some(Str(b.value));
    }

    method LongString(k: nat) returns (r: Option<Value>)
      requires Valid() && !wild
      modifies this
      ensures Valid() && |Rest()| <= old(|Rest()|) && Matches(r, wild, Rest(), GetLongString(old(Rest()), k))
    {
      hide Take, Number, GetString, Signed;
      var b := Read(k);
      if b.None? {
        return None;
      }
      r := String(Signed(Number(b.value), 0x1_0000_0000));
    }

    /** The length of an array part. */
    method Count(cookie: nat) returns (r: Option<int>)
      requires Valid() && !wild
      modifies this
      ensures Valid() && |Rest()| <= old(|Rest()|) && Matches(r, wild, Rest(), GetCount(old(Rest()), cookie))
    {
      hide Take, Number, GetInteger, Signed, Wrap;
      if cookie != MAX_COOKIE - 1 {
        return Some(cookie);
      }
      ghost var s := Rest();
      TakeOne(s);
      var b := Read(1);
      if b.None? {
        return None;
      }
      var t := b.value[0];
      if t % 8 != TYPE_NUMBER || t / 8 == REAL {
        return None;
      }
      var n := Integer(t / 8);
      if n.None? {
        return None;
      }
      r := Some(Signed(Wrap(n.value, 0x1_0000_0000), 0x1_0000_0000));
    }

    /** `unpack_one`. */
    method UnpackOne() returns (r: Option<Value>)
      requires Valid() && !wild
      modifies this
      ensures Valid() && |Rest()| <= old(|Rest()|) && Matches(r, wild, Rest(), Parse(old(Rest())))
      decreases len, 0
    {
      hide Take, Parse;
      ghost var s := Rest();
      TakeOne(s);
      ParseNothing(s);
      var b := Read(1);
      if b.None? {
        return None;
      }
      r := PushValue(s, b.value[0] % 8, b.value[0] / 8);
    }

    /** `push_value`. */
    method PushValue(ghost s: seq<Byte>, t: nat, cookie: nat) returns (r: Option<Value>)
      requires Valid() && !wild && s != [] && s[1..] == Rest() && t == s[0] % 8 && cookie == s[0] / 8
      modifies this
      ensures Valid() && |Rest()| < |s| && Matches(r, wild, Rest(), Parse(s))
      decreases len, 3
    {
      hide Take, GetInteger, GetString, GetLongString, GetCount, ParseMany, ParsePairs;
      if t == TYPE_NIL {
        return Some(Nil);
      } else if t == TYPE_BOOLEAN {
        return Some(Bool(cookie != 0));
      } else if t == TYPE_NUMBER {
        if cookie == REAL {
          var b := Read(8);
          return if b.None? then None else Some(Real(b.value));
        }
        var n := Integer(cookie);
        return if n.None? then None else Some(Int(n.value));
      } else if t == TYPE_USERDATA {
        var b := Read(8);
        return if b.None? then None else Some(Pointer(b.value));
      } else if t == TYPE_SHORT_STRING {
        r := String(cookie);
      } else if t == TYPE_LONG_STRING {
        if cookie == 2 {
          r := LongString(2);
        } else if cookie == 4 {
          r := LongString(4);
        } else {
          return None;
        }
      } else if t == TYPE_TABLE {
        r := UnpackTable(s, cookie);
      } else {
        return None;
      }
    }

    /** `unpack_table`. */
    method UnpackTable(ghost s: seq<Byte>, cookie: nat) returns (r: Option<Value>)
      requires Valid() && !wild && s != [] && s[1..] == Rest() && s[0] % 8 == TYPE_TABLE && cookie == s[0] / 8
      modifies this
      ensures Valid() && |Rest()| < |s| && Matches(r, wild, Rest(), Parse(s))
      decreases len, 2
    {
      hide GetCount, ParseMany, ParsePairs, Parse;
      ParseTableIs(s);
      var n := Count(cookie);
      if n.None? {
        return None;
      }
      var a := UnpackMany(Times(n.value));
      if a.None? {
        return None;
      }
      var h := UnpackPairs();
      if h.None? {
        return None;
      }
      r := Some(Table(a.value, h.value));
    }

    method UnpackMany(n: nat) returns (r: Option<seq<Value>>)
      requires Valid() && !wild
      modifies this
      ensures Valid() && |Rest()| <= old(|Rest()|) && Matches(r, wild, Rest(), ParseMany(old(Rest()), n))
      decreases len, 1
    {
      hide ParseMany, Parse, Join;
      var vs: seq<Value> := [];
      ghost var s := Rest();
      JoinNone(ParseMany(s, n));
      for i := 0 to n
        invariant Valid() && !wild && |Rest()| <= |s| && ParseMany(s, n) == Join(vs, ParseMany(Rest(), n - i))
      {
        ManyNext(vs, Rest(), n - i);
        var v := UnpackOne();
        if v.None? {
          return None;
        }
        vs := vs + [v.value];
      }
      ManyDone(vs, Rest());
      r := Some(vs);
    }

    method UnpackPairs() returns (r: Option<seq<Value>>)
      requires Valid() && !wild
      modifies this
      ensures Valid() && |Rest()| <= old(|Rest()|) && Matches(r, wild, Rest(), ParsePairs(old(Rest())))
      decreases len, 1
    {
      hide ParsePairs, Parse, Join;
      var vs: seq<Value> := [];
      ghost var s := Rest();
      JoinNone(ParsePairs(s));
      while true
        invariant Valid() && !wild && |Rest()| <= |s| && ParsePairs(s) == Join(vs, ParsePairs(Rest()))
        decreases len
      {
        PairsNext(vs, Rest());
        ParseShorter(Rest());
        var k := UnpackOne();
        if k.None? {
          return None;
        }
        if k.value.Nil? {
          return Some(vs);
        }
        var v := UnpackOne();
        if v.None? {
          return None;
        }
        vs := vs + [k.value, v.value];
      }
    }

    /** `luaseri_unpack`. */
    method UnpackAll() returns (r: Option<seq<Value>>)
      requires Valid() && !wild
      modifies this
      ensures match ParseAll(old(Rest()))
              case Good(vs, _) => r == Some(vs)
              case Bad(w) => r == None && wild == w
    {
      hide Parse, ParseAll;
      var vs: seq<Value> := [];
      ghost var s := Rest();
      AllStart(s);
      while len > 0
        invariant Valid() && !wild && ParseAll(s) == Join(vs, ParseAll(Rest()))
        decreases len
      {
        AllNext(vs, Rest());
        ParseShorter(Rest());
        var v := UnpackOne();
        if v.None? {
          return None;
        }
        vs := vs + [v.value];
      }
      AllDone(vs, Rest());
      r := Some(vs);
    }
  }

  /** `luaseri_pack`, into a flat buffer. */
  method PackValues(vs: seq<Value>) returns (r: Option<seq<Byte>>)
    requires forall i :: 0 <= i < |vs| ==> WellFormed(vs[i])
    ensures r == if AllPackable(vs, 0) then Taken(PackedAll(vs)) else None
    ensures r == Some(PackedAll(vs)) <==> AllPackable(vs, 0) && |PackedAll(vs)| < 0x8000_0000
  {
    hide PackedAll, AllPackable, Taken;
    var wb := new WriteBlock();
    var ok := wb.PackAll(vs, 0);
    if !ok {
      return None;
    }
    assert [] + PackedAll(vs) == PackedAll(vs);
    r := wb.Serialize();
    TakenWhole(PackedAll(vs));
  }

  /** What is packed and sent is unpacked as the same values, if and only if the packing is not too deep and its length
      is an `int`. */
  method RoundTrip(vs: seq<Value>) returns (r: Option<seq<Value>>)
    requires forall i :: 0 <= i < |vs| ==> WellFormed(vs[i])
    ensures r == Some(vs) <==> AllPackable(vs, 0) && |PackedAll(vs)| < 0x8000_0000
  {
    hide PackedAll, AllPackable, Taken;
    var buffer := PackValues(vs);
    if buffer.None? {
      return None;
    }
    var rb := new ReadBlock(buffer.value);
    AllBack(vs);
    TakenPart(PackedAll(vs));
    if buffer.value != PackedAll(vs) {
      CutShort(vs, buffer.value);
    }
    r := rb.UnpackAll();
  }

  /** The beginning of a packing is never read as the whole. */
  lemma CutShort(vs: seq<Value>, p: seq<Byte>)
    requires (forall i :: 0 <= i < |vs| ==> WellFormed(vs[i])) && p < PackedAll(vs)
    ensures ParseAll(p) != Good(vs, [])
  {
    hide PackedAll, ParseAll, Join;
    var t := PackedAll(vs)[|p|..];
    AllBack(vs);
    assert p + t == PackedAll(vs);
    SomeValue(t);
    LongerList(vs, ParseAll(t));
    if ParseAll(p) == Good(vs, []) {
      AllMore(p, t);
    }
  }

  lemma LongerList(vs: seq<Value>, p: Parsed<seq<Value>>)
    requires p.Good? ==> |p.value| > 0
    ensures Join(vs, p) != Good(vs, [])
  {
    if p.Good? {
      assert |vs + p.value| > |vs|;
    }
  }

  lemma {:induction false} SomeValue(t: seq<Byte>)
    requires t != []
    ensures ParseAll(t).Good? ==> |ParseAll(t).value| > 0
  {
    hide Parse;
  }

  /** Reading on after a list that was read whole. */
  lemma {:induction false} AllMore(p: seq<Byte>, t: seq<Byte>)
    requires ParseAll(p).Good?
    ensures ParseAll(p + t) == Join(ParseAll(p).value, ParseAll(t))
    decreases |p|
  {
    hide Parse, ParseAll;
    if p == [] {
      assert p + t == t;
      AllOfNone();
      JoinNone(ParseAll(t));
    } else {
      var v := Parse(p);
      AllOfSome(p);
      AllOfSome(p + t);
      ParseMore(p, t);
      ParseShorter(p);
      AllMore(v.rest, t);
      JoinOne(v.value, ParseAll(v.rest).value, ParseAll(t));
    }
  }

  lemma AllOfNone()
    ensures ParseAll([]) == Good([], [])
  {
  }

  lemma {:induction false} AllOfSome(s: seq<Byte>)
    requires s != []
    ensures var v := Parse(s);
            ParseAll(s) == if v.Bad? then Bad(v.wild) else Join([v.value], ParseAll(v.rest))
  {
    hide Parse;
  }

  lemma JoinOne(v: Value, vs: seq<Value>, p: Parsed<seq<Value>>)
    ensures Join([v], Join(vs, p)) == Join([v] + vs, p)
  {
    if p.Good? {
      assert [v] + (vs + p.value) == ([v] + vs) + p.value;
    }
  }

  /** What follows a value does not change how it is read. */
  lemma {:induction false} ParseMore(s: seq<Byte>, t: seq<Byte>)
    requires Parse(s).Good?
    ensures Parse(s + t) == Good(Parse(s).value, Parse(s).rest + t)
    decreases |s|, 1
  {
    hide Take, GetInteger, GetString, GetLongString, GetCount, ParseMany, ParsePairs;
    assert (s + t)[0] == s[0] && (s + t)[1..] == s[1..] + t;
    var k, cookie := s[0] % 8, s[0] / 8;
    if k == TYPE_TABLE {
      TableMore(s, t);
    } else {
      ScalarMore(s[1..], t, cookie);
    }
  }

  lemma ScalarMore(s: seq<Byte>, t: seq<Byte>, cookie: nat)
    ensures Take(s, 8).Good? ==> Take(s + t, 8) == Good(Take(s, 8).value, Take(s, 8).rest + t)
    ensures GetInteger(s, cookie).Good? ==> GetInteger(s + t, cookie) == Good(GetInteger(s, cookie).value, GetInteger(s, cookie).rest + t)
    ensures GetString(s, cookie).Good? ==> GetString(s + t, cookie) == Good(GetString(s, cookie).value, GetString(s, cookie).rest + t)
    ensures forall k: nat :: GetLongString(s, k).Good? ==>
              GetLongString(s + t, k) == Good(GetLongString(s, k).value, GetLongString(s, k).rest + t)
  {
    hide Number, Signed, GetInteger, GetString, GetLongString;
    TakeMore(s, 8, t);
    IntegerMore(s, cookie, t);
    StringMore(s, cookie, t);
    forall k: nat | GetLongString(s, k).Good?
      ensures GetLongString(s + t, k) == Good(GetLongString(s, k).value, GetLongString(s, k).rest + t)
    {
      LongMore(s, k, t);
    }
  }

  lemma TakeMore(s: seq<Byte>, n: nat, t: seq<Byte>)
    ensures Take(s, n).Good? ==> Take(s + t, n) == Good(Take(s, n).value, Take(s, n).rest + t)
  {
    if n <= |s| {
      assert (s + t)[..n] == s[..n] && (s + t)[n..] == s[n..] + t;
    }
  }

  lemma IntegerMore(s: seq<Byte>, cookie: nat, t: seq<Byte>)
    ensures GetInteger(s, cookie).Good? ==> GetInteger(s + t, cookie) == Good(GetInteger(s, cookie).value, GetInteger(s, cookie).rest + t)
  {
    hide Take, Number, Signed;
    TakeMore(s, 1, t);
    TakeMore(s, 2, t);
    TakeMore(s, 4, t);
    TakeMore(s, 8, t);
  }

  lemma StringMore(s: seq<Byte>, n: int, t: seq<Byte>)
    ensures GetString(s, n).Good? ==> GetString(s + t, n) == Good(GetString(s, n).value, GetString(s, n).rest + t)
  {
    hide Take;
    if n >= 0 {
      TakeMore(s, n, t);
    }
  }

  lemma LongMore(s: seq<Byte>, k: nat, t: seq<Byte>)
    requires GetLongString(s, k).Good?
    ensures GetLongString(s + t, k) == Good(GetLongString(s, k).value, GetLongString(s, k).rest + t)
  {
    hide Take, Number, Signed, GetString;
    TakeMore(s, k, t);
    StringMore(Take(s, k).rest, Signed(Number(Take(s, k).value), 0x1_0000_0000), t);
  }

  lemma CountMore(s: seq<Byte>, cookie: nat, t: seq<Byte>)
    requires GetCount(s, cookie).Good?
    ensures GetCount(s + t, cookie) == Good(GetCount(s, cookie).value, GetCount(s, cookie).rest + t)
  {
    hide GetInteger, Signed, Wrap;
    if cookie == MAX_COOKIE - 1 {
      assert (s + t)[0] == s[0] && (s + t)[1..] == s[1..] + t;
      IntegerMore(s[1..], s[0] / 8, t);
    }
  }

  lemma {:induction false} TableMore(s: seq<Byte>, t: seq<Byte>)
    requires s != [] && s[0] % 8 == TYPE_TABLE && Parse(s).Good?
    ensures Parse(s + t) == Good(Parse(s).value, Parse(s).rest + t)
    decreases |s|, 0
  {
    hide GetCount, ParseMany, ParsePairs, Parse;
    assert (s + t)[0] == s[0] && (s + t)[1..] == s[1..] + t;
    ParseTableIs(s);
    ParseTableIs(s + t);
    CountMore(s[1..], s[0] / 8, t);
    CountShorter(s[1..], s[0] / 8);
    var n := GetCount(s[1..], s[0] / 8);
    ManyMore(n.rest, Times(n.value), t);
    var a := ParseMany(n.rest, Times(n.value));
    ManyShorter(n.rest, Times(n.value));
    PairsMore(a.rest, t);
  }

  lemma CountShorter(s: seq<Byte>, cookie: nat)
    ensures GetCount(s, cookie).Good? ==> |GetCount(s, cookie).rest| <= |s|
  {
  }

  lemma {:induction false} ManyShorter(s: seq<Byte>, n: nat)
    ensures ParseMany(s, n).Good? ==> |ParseMany(s, n).rest| <= |s|
  {
  }

  lemma {:induction false} ManyMore(s: seq<Byte>, n: nat, t: seq<Byte>)
    requires ParseMany(s, n).Good?
    ensures ParseMany(s + t, n) == Good(ParseMany(s, n).value, ParseMany(s, n).rest + t)
    decreases |s|, 2, n
  {
    hide Parse;
    if n > 0 {
      var v := Parse(s);
      ParseMore(s, t);
      ParseShorter(s);
      ManyMore(v.rest, n - 1, t);
    }
  }

  lemma {:induction false} PairsMore(s: seq<Byte>, t: seq<Byte>)
    requires ParsePairs(s).Good?
    ensures ParsePairs(s + t) == Good(ParsePairs(s).value, ParsePairs(s).rest + t)
    decreases |s|, 2, 0
  {
    hide Parse;
    var k := Parse(s);
    ParseMore(s, t);
    ParseShorter(s);
    if !k.value.Nil? {
      var v := Parse(k.rest);
      ParseMore(k.rest, t);
      ParseShorter(k.rest);
      PairsMore(v.rest, t);
    }
  }

  lemma TakeOne(s: seq<Byte>)
    ensures Take(s, 1) == if s == [] then Bad(false) else Good([s[0]], s[1..])
  {
    if s != [] {
      assert s[..1] == [s[0]];
    }
  }

  lemma {:induction false} ParseNothing(s: seq<Byte>)
    ensures s == [] ==> Parse(s) == Bad(false)
  {
  }

  lemma {:induction false} ParseShorter(s: seq<Byte>)
    ensures Parse(s).Good? ==> |Parse(s).rest| < |s|
  {
  }

  lemma {:induction false} ParseTableIs(s: seq<Byte>)
    requires s != [] && s[0] % 8 == TYPE_TABLE
    ensures var n := GetCount(s[1..], s[0] / 8);
            if n.Bad? then Parse(s) == Bad(n.wild)
            else var a := ParseMany(n.rest, Times(n.value));
                 if a.Bad? then Parse(s) == Bad(a.wild)
                 else var h := ParsePairs(a.rest);
                      Parse(s) == if h.Bad? then Bad(h.wild) else Good(Table(a.value, h.value), h.rest)
  {
    hide GetCount, ParseMany, ParsePairs;
  }

  lemma JoinNone(p: Parsed<seq<Value>>)
    ensures Join([], p) == p
  {
    if p.Good? {
      assert [] + p.value == p.value;
    }
  }

  lemma {:induction false} ManyNext(vs: seq<Value>, s: seq<Byte>, n: nat)
    requires n > 0
    ensures var v := Parse(s);
            Join(vs, ParseMany(s, n)) == if v.Bad? then Bad(v.wild) else Join(vs + [v.value], ParseMany(v.rest, n - 1))
  {
    hide Parse;
    var v := Parse(s);
    if v.Good? {
      var p := ParseMany(v.rest, n - 1);
      if p.Good? {
        assert vs + ([v.value] + p.value) == (vs + [v.value]) + p.value;
      }
    }
  }

  lemma {:induction false} ManyDone(vs: seq<Value>, s: seq<Byte>)
    ensures Join(vs, ParseMany(s, 0)) == Good(vs, s)
  {
    assert vs + [] == vs;
  }

  lemma {:induction false} PairsNext(vs: seq<Value>, s: seq<Byte>)
    ensures var k := Parse(s);
            if k.Bad? then Join(vs, ParsePairs(s)) == Bad(k.wild)
            else if k.value.Nil? then Join(vs, ParsePairs(s)) == Good(vs, k.rest)
            else var v := Parse(k.rest);
                 Join(vs, ParsePairs(s)) == if v.Bad? then Bad(v.wild) else Join(vs + [k.value, v.value], ParsePairs(v.rest))
  {
    hide Parse;
    assert vs + [] == vs;
    var k := Parse(s);
    if k.Good? && !k.value.Nil? {
      var v := Parse(k.rest);
      if v.Good? {
        var p := ParsePairs(v.rest);
        if p.Good? {
          assert vs + ([k.value, v.value] + p.value) == (vs + [k.value, v.value]) + p.value;
        }
      }
    }
  }

  lemma {:induction false} AllStart(s: seq<Byte>)
    ensures Join([], ParseAll(s)) == ParseAll(s)
  {
    hide ParseAll;
    JoinNone(ParseAll(s));
  }

  lemma {:induction false} AllNext(vs: seq<Value>, s: seq<Byte>)
    requires s != []
    ensures var v := Parse(s);
            Join(vs, ParseAll(s)) == if v.Bad? then Bad(v.wild) else Join(vs + [v.value], ParseAll(v.rest))
  {
    hide Parse;
    var v := Parse(s);
    if v.Good? {
      var p := ParseAll(v.rest);
      if p.Good? {
        assert vs + ([v.value] + p.value) == (vs + [v.value]) + p.value;
      }
    }
  }

  lemma {:induction false} AllDone(vs: seq<Value>, s: seq<Byte>)
    requires s == []
    ensures Join(vs, ParseAll(s)) == Good(vs, [])
  {
    assert vs + [] == vs;
  }

  /** The rest of a list, after the values already read. */
  ghost function Join(vs: seq<Value>, p: Parsed<seq<Value>>): Parsed<seq<Value>> {
    if p.Bad? then Bad(p.wild) else Good(vs + p.value, p.rest)
  }
}
