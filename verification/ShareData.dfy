/** The frozen form of a table: an array part, and a hash part with exactly one slot for each key outside it.
    Colliding keys are chained through slots that are nobody's main position. */
module ShareData {

  import opened Arith
  import opened Options

  /** Keys are 32-bit integers and strings. */
  datatype Key = Int(i: int) | Str(s: string)

  datatype Node<V> = Free | Used(key: Key, keyhash: nat, next: int, nocolliding: bool, val: V)

  ghost predicate ValidKey(k: Key) {
    k.Int? ==> -0x8000_0000 <= k.i < 0x8000_0000
  }

  /** The hash of a string, from the last character backwards in steps that grow with the length. */
  function CalcHash(s: string): bv32 {
    HashFrom(s, |s|, |s| / 32 + 1, (|s| % 0x1_0000_0000) as bv32)
  }

  function HashFrom(s: string, l: nat, step: nat, h: bv32): bv32
    requires l <= |s| && step > 0
    decreases l
  {
    if l < step then h
    else HashFrom(s, l - step, step, HashStep(h, s[l - 1]))
  }

  function HashStep(h: bv32, c: char): bv32 {
    h ^ ((h << 5) + (h >> 2) + (c as int % 256) as bv32)
  }

  /** `calchash`. */
  method ComputeHash(s: string) returns (h: bv32)
    ensures h == CalcHash(s)
  {
    h := (|s| % 0x1_0000_0000) as bv32;
    var step := |s| / 0x20 + 1;
    var l := |s|;
    while l >= step
      invariant 0 <= l <= |s| && HashFrom(s, l, step, h) == CalcHash(s)
      decreases l
    {
      h := h ^ ((h << 5) + (h >> 2) + (s[l - 1] as int % 0x100) as bv32);
      l := l - step;
    }
  }

  /** Whether character `i` of `n` is reached from the last one in steps. */
  ghost predicate Sampled(n: nat, step: nat, i: nat)
    requires step > 0
  {
    (n - 1 - i) % step == 0
  }

  /** Of a long string only some characters count, fewer than 32. */
  lemma SampledOnly(s: string, t: string)
    requires |s| == |t| && forall i :: 0 <= i < |s| && Sampled(|s|, |s| / 32 + 1, i) ==> s[i] == t[i]
    ensures CalcHash(s) == CalcHash(t) && |s| / (|s| / 32 + 1) < 32
  {
    hide Sampled, HashFrom;
    assert 0 * (|s| / 32 + 1) == 0;
    SampledFrom(s, t, |s|, |s| / 32 + 1, (|s| % 0x1_0000_0000) as bv32, 0);
    FewSteps(|s|, |s| / 32 + 1);
  }

  lemma FewSteps(n: nat, step: nat)
    requires step == n / 32 + 1
    ensures n / step < 32
  {
    var d := n / step;
    assert n == d * step + n % step;
    if d >= 32 {
      MulMono(32, d, step);
    }
  }

  lemma {:induction false} SampledFrom(s: string, t: string, l: nat, step: nat, h: bv32, k: nat)
    requires |s| == |t| && l <= |s| && step > 0 && |s| - l == k * step
    requires forall i :: 0 <= i < |s| && Sampled(|s|, step, i) ==> s[i] == t[i]
    ensures HashFrom(s, l, step, h) == HashFrom(t, l, step, h)
    decreases l
  {
    hide Sampled, HashStep;
    if l >= step {
      InStep(|s|, l, step, k);
      SampledFrom(s, t, l - step, step, HashStep(h, s[l - 1]), k + 1);
    }
  }

  lemma InStep(n: nat, l: nat, step: nat, k: nat)
    requires 0 < l <= n && step > 0 && n - l == k * step
    ensures Sampled(n, step, l - 1) && n - (l - step) == (k + 1) * step
  {
    DivUnique(n - l, step, k, 0);
  }

  function KeyHash(k: Key): (r: nat)
    ensures r < 4294967296
    ensures k.Int? && ValidKey(k) ==> r == if k.i < 0 then k.i + 4294967296 else k.i
  {
    match k
    case Int(i) => i % 0x1_0000_0000
    case Str(s) => CalcHash(s) as nat
  }

  function Main(k: Key, size: nat): (m: nat)
    requires size > 0
    ensures m < size
  {
    KeyHash(k) % size
  }

  // ---------------------------------------------------------------------------------------------
  // The layout of the hash part
  // ---------------------------------------------------------------------------------------------

  ghost predicate Distinct<T>(s: seq<T>) {
    forall i, j :: 0 <= i < j < |s| ==> s[i] != s[j]
  }

  /** Slot `c[j]` is in use and linked to the one after it in `c`. */
  ghost predicate Link<V>(h: seq<Node<V>>, c: seq<nat>, j: nat)
    requires j < |c|
  {
    c[j] < |h| && h[c[j]].Used? && h[c[j]].next == if j + 1 < |c| then c[j + 1] else -1
  }

  /** The chain of main slot `i`: it begins there, holds exactly slots of keys with that main slot, and is linked
      by `next` to its end. */
  ghost predicate ChainOk<V>(h: seq<Node<V>>, i: nat, c: seq<nat>) {
    && (c != [] ==> c[0] == i) && Distinct(c)
    && (forall j :: 0 <= j < |c| ==> Link(h, c, j) && Main(h[c[j]].key, |h|) == i)
  }

  ghost predicate SlotOk<V>(h: seq<Node<V>>, chains: seq<seq<nat>>, s: nat)
    requires s < |h| == |chains|
  {
    h[s].Used? ==>
      && s in chains[Main(h[s].key, |h|)] && h[s].keyhash == KeyHash(h[s].key)
      && (h[s].nocolliding ==> chains[Main(h[s].key, |h|)] == [s])
  }

  ghost predicate Layout<V>(h: seq<Node<V>>, chains: seq<seq<nat>>) {
    && |chains| == |h|
    && (forall i :: 0 <= i < |h| ==> ChainOk(h, i, chains[i]))
    && (forall s :: 0 <= s < |h| ==> SlotOk(h, chains, s))
    && (forall s, t :: 0 <= s < t < |h| && h[s].Used? && h[t].Used? ==> h[s].key != h[t].key)
  }

  ghost predicate Holds<V>(h: seq<Node<V>>, k: Key) {
    exists s :: 0 <= s < |h| && h[s].Used? && h[s].key == k
  }

  /** A key goes to its main slot, which is free. */
  ghost function PutMain<V>(h: seq<Node<V>>, k: Key, v: V): seq<Node<V>>
    requires |h| > 0
  {
    h[Main(k, |h|) := Used(k, KeyHash(k), -1, true, v)]
  }

  lemma PutMainOk<V>(h: seq<Node<V>>, chains: seq<seq<nat>>, k: Key, v: V)
    requires Layout(h, chains) && |h| > 0 && h[Main(k, |h|)].Free?
    ensures Layout(PutMain(h, k, v), chains[Main(k, |h|) := [Main(k, |h|)]]) && !Holds(h, k)
  {
    hide KeyHash;
    var m := Main(k, |h|);
    var h', chains' := PutMain(h, k, v), chains[m := [m]];
    assert chains[m] == [] by {
      assert ChainOk(h, m, chains[m]);
    }
    forall i | 0 <= i < |h|
      ensures ChainOk(h', i, chains'[i])
    {
      assert ChainOk(h, i, chains[i]);
    }
    forall s | 0 <= s < |h|
      ensures SlotOk(h', chains', s)
      ensures h[s].Used? ==> h[s].key != k
    {
      assert SlotOk(h, chains, s);
    }
  }

  /** A key whose main slot is taken goes to a free slot `s`, second in the chain. */
  ghost function PutChained<V>(h: seq<Node<V>>, s: nat, k: Key, v: V): seq<Node<V>>
    requires s < |h| && h[Main(k, |h|)].Used?
  {
    var m := Main(k, |h|);
    h[s := Used(k, KeyHash(k), h[m].next, false, v)][m := h[m].(next := s, nocolliding := false)]
  }

  ghost function Insert(c: seq<nat>, s: nat): seq<nat>
    requires c != []
  {
    [c[0], s] + c[1..]
  }

  lemma PutChainedOk<V>(h: seq<Node<V>>, chains: seq<seq<nat>>, s: nat, k: Key, v: V)
    requires Layout(h, chains) && s < |h| && h[s].Free? && !Holds(h, k)
    requires h[Main(k, |h|)].Used? && chains[Main(k, |h|)] != []
    ensures var m := Main(k, |h|);
            Layout(PutChained(h, s, k, v), chains[m := Insert(chains[m], s)])
  {
    hide KeyHash, Holds;
    var m := Main(k, |h|);
    var h', chains' := PutChained(h, s, k, v), chains[m := Insert(chains[m], s)];
    forall i | 0 <= i < |h|
      ensures ChainOk(h', i, chains'[i])
    {
      assert ChainOk(h, i, chains[i]);
      assert ChainOk(h, m, chains[m]);
      if i == m {
        InsertOk(h, m, chains[m], s, k, v);
      } else {
        OtherChain(h, m, i, chains[i], s, k, v);
      }
    }
    forall t | 0 <= t < |h|
      ensures SlotOk(h', chains', t)
    {
      assert SlotOk(h, chains, t);
      InsertMembers(chains[m], s);
    }
    forall t, u | 0 <= t < u < |h| && h'[t].Used? && h'[u].Used?
      ensures h'[t].key != h'[u].key
    {
      assert t != s && h[t].Used? ==> h[t].key != k by {
        NotHeld(h, k, t);
      }
      assert u != s && h[u].Used? ==> h[u].key != k by {
        NotHeld(h, k, u);
      }
    }
  }

  lemma NotHeld<V>(h: seq<Node<V>>, k: Key, s: nat)
    requires !Holds(h, k) && s < |h|
    ensures h[s].Used? ==> h[s].key != k
  {
  }

  lemma InsertMembers(c: seq<nat>, s: nat)
    requires c != []
    ensures forall t :: t in Insert(c, s) <==> t in c || t == s
  {
    assert c == [c[0]] + c[1..];
  }

  lemma InsertOk<V>(h: seq<Node<V>>, m: nat, c: seq<nat>, s: nat, k: Key, v: V)
    requires s < |h| && m == Main(k, |h|) && h[s].Free? && h[m].Used? && c != [] && ChainOk(h, m, c)
    ensures ChainOk(PutChained(h, s, k, v), m, Insert(c, s))
  {
    hide KeyHash, Main;
    var c', h' := Insert(c, s), PutChained(h, s, k, v);
    assert Link(h, c, 0);
    forall j | 0 <= j < |c'|
      ensures Link(h', c', j) && Main(h'[c'[j]].key, |h'|) == m
      ensures h[c'[j]].Free? <==> j == 1
    {
      assert c'[j] == if j == 0 then c[0] else if j == 1 then s else c[j - 1];
      assert |c'| > 2 ==> c'[2] == c[1];
      if j >= 2 {
        assert Link(h, c, j - 1) && c[j - 1] != c[0];
        assert j + 1 < |c'| ==> c'[j + 1] == c[j];
      }
    }
    forall a, b | 0 <= a < b < |c'|
      ensures c'[a] != c'[b]
    {
      assert h[c'[a]].Free? <==> a == 1;
      assert h[c'[b]].Free? <==> b == 1;
    }
  }

  lemma OtherChain<V>(h: seq<Node<V>>, m: nat, i: nat, c: seq<nat>, s: nat, k: Key, v: V)
    requires s < |h| && m == Main(k, |h|) && h[s].Free? && h[m].Used? && i != m && ChainOk(h, i, c) && Main(h[m].key, |h|) == m
    ensures ChainOk(PutChained(h, s, k, v), i, c)
  {
  }

  // ---------------------------------------------------------------------------------------------
  // Counting slots and keys
  // ---------------------------------------------------------------------------------------------

  ghost function Elems<T>(s: seq<T>): set<T> {
    set x | x in s
  }

  lemma {:induction false} ElemsSize<T>(s: seq<T>)
    requires Distinct(s)
    ensures |Elems(s)| == |s|
  {
    if s != [] {
      var n := |s| - 1;
      ElemsSize(s[..n]);
      assert Elems(s) == Elems(s[..n]) + {s[n]};
    }
  }

  lemma {:induction false} SameSize<T>(a: set<T>, b: set<T>)
    requires a <= b && |a| >= |b|
    ensures a == b
    decreases a
  {
    if a != {} {
      var x :| x in a;
      SameSize(a - {x}, b - {x});
    }
  }

  /** Entries outside the array part, as the table is traversed. */
  function InArray(k: Key, n: nat): bool {
    k.Int? && 0 < k.i <= n
  }

  ghost function HashKeys<V>(es: seq<(Key, V)>, n: nat): seq<Key> {
    if es == [] then [] else
    var r := HashKeys(es[..|es| - 1], n);
    if InArray(es[|es| - 1].0, n) then r else r + [es[|es| - 1].0]
  }

  ghost predicate OneEach<V>(es: seq<(Key, V)>) {
    forall i, j :: 0 <= i < j < |es| ==> es[i].0 != es[j].0
  }

  lemma {:induction false} HashKeysOk<V>(es: seq<(Key, V)>, n: nat)
    requires OneEach(es)
    ensures Distinct(HashKeys(es, n))
    ensures forall k :: k in HashKeys(es, n) <==> !InArray(k, n) && exists i :: 0 <= i < |es| && es[i].0 == k
  {
    if es != [] {
      var m := |es| - 1;
      HashKeysOk(es[..m], n);
      forall k
        ensures k in HashKeys(es, n) <==> !InArray(k, n) && exists i :: 0 <= i < |es| && es[i].0 == k
      {
        if k in HashKeys(es[..m], n) {
          var i :| 0 <= i < m && es[..m][i].0 == k;
          assert es[i].0 == k;
        }
        if !InArray(k, n) && exists i :: 0 <= i < |es| && es[i].0 == k {
          var i :| 0 <= i < |es| && es[i].0 == k;
          if i < m {
            assert es[..m][i].0 == k;
          }
        }
      }
    }
  }

  /** The keys in the hash part are hash keys of the table. */
  ghost predicate From<V>(h: seq<Node<V>>, es: seq<(Key, V)>, n: nat) {
    forall s :: 0 <= s < |h| && h[s].Used? ==> !InArray(h[s].key, n) && (h[s].key, h[s].val) in es
  }

  ghost function SlotKeys<V>(h: seq<Node<V>>): seq<Key>
    requires forall s :: 0 <= s < |h| ==> h[s].Used?
  {
    seq(|h|, s requires 0 <= s < |h| => h[s].key)
  }

  /** While some key has no slot, some slot has no key. */
  lemma FreeSlot<V>(h: seq<Node<V>>, chains: seq<seq<nat>>, es: seq<(Key, V)>, n: nat, k: Key)
    requires Layout(h, chains) && OneEach(es) && From(h, es, n) && |h| == |HashKeys(es, n)|
    requires k in HashKeys(es, n) && !Holds(h, k)
    ensures exists s :: 0 <= s < |h| && h[s].Free?
  {
    if forall s :: 0 <= s < |h| ==> h[s].Used? {
      AllPlaced(h, chains, es, n, k);
    }
  }

  lemma AllPlaced<V>(h: seq<Node<V>>, chains: seq<seq<nat>>, es: seq<(Key, V)>, n: nat, k: Key)
    requires Layout(h, chains) && OneEach(es) && From(h, es, n) && |h| == |HashKeys(es, n)|
    requires k in HashKeys(es, n) && forall s :: 0 <= s < |h| ==> h[s].Used?
    ensures Holds(h, k)
  {
    HashKeysOk(es, n);
    var ks := SlotKeys(h);
    ElemsSize(ks);
    ElemsSize(HashKeys(es, n));
    forall x | x in Elems(ks)
      ensures x in Elems(HashKeys(es, n))
    {
      var s :| 0 <= s < |h| && ks[s] == x;
      InTable(es, (h[s].key, h[s].val));
    }
    SameSize(Elems(ks), Elems(HashKeys(es, n)));
    assert k in Elems(ks);
    var s :| 0 <= s < |h| && ks[s] == k;
    assert h[s].key == k;
  }

  lemma InTable<V>(es: seq<(Key, V)>, e: (Key, V))
    requires e in es
    ensures exists i :: 0 <= i < |es| && es[i].0 == e.0
  {
    var i :| 0 <= i < |es| && es[i] == e;
    assert es[i].0 == e.0;
  }

  /** Once every key has a slot, every slot has a key. */
  lemma NoFreeSlot<V>(h: seq<Node<V>>, es: seq<(Key, V)>, n: nat)
    requires OneEach(es) && |h| == |HashKeys(es, n)| && forall k :: k in HashKeys(es, n) ==> Holds(h, k)
    ensures forall s :: 0 <= s < |h| ==> h[s].Used?
  {
    HashKeysOk(es, n);
    var ks := HashKeys(es, n);
    var used := set s | 0 <= s < |h| && h[s].Used?;
    var ids := set s | 0 <= s < |h| && h[s].Used? :: h[s].key;
    ElemsSize(ks);
    assert Elems(ks) <= ids by {
      forall k | k in Elems(ks)
        ensures k in ids
      {
        assert Holds(h, k);
      }
    }
    ImageSize(h, used, ids);
    SubsetSize(Elems(ks), ids);
    SameSize(used, Range(|h|));
    forall s | 0 <= s < |h|
      ensures h[s].Used?
    {
      assert s in Range(|h|);
    }
  }

  lemma {:induction false} SubsetSize<T>(a: set<T>, b: set<T>)
    requires a <= b
    ensures |a| <= |b|
    decreases a
  {
    if a != {} {
      var x :| x in a;
      SubsetSize(a - {x}, b - {x});
    }
  }

  ghost function Range(n: nat): (r: set<int>)
    ensures |r| == n && forall s :: s in r <==> 0 <= s < n
  {
    if n == 0 then {} else Range(n - 1) + {n - 1}
  }

  /** A set of slots names no more keys than it has members. */
  lemma {:induction false} ImageSize<V>(h: seq<Node<V>>, used: set<int>, ids: set<Key>)
    requires forall s :: s in used ==> 0 <= s < |h| && h[s].Used?
    requires forall k :: k in ids ==> exists s :: s in used && h[s].key == k
    ensures |ids| <= |used|
    decreases used
  {
    if s: int :| s in used {
      var k := h[s].key;
      forall x | x in ids - {k}
        ensures exists t :: t in used - {s} && h[t].key == x
      {
        var t: int :| t in used && h[t].key == x;
        assert t in used - {s};
      }
      ImageSize(h, used - {s}, ids - {k});
    } else {
      assert ids == {};
    }
  }

  // ---------------------------------------------------------------------------------------------
  // The two passes
  // ---------------------------------------------------------------------------------------------

  /** The array part holds the entries before `p` that belong there, and nothing that is not in the table. */
  ghost predicate ArrayDone<V>(a: seq<Option<V>>, es: seq<(Key, V)>, p: nat) {
    && p <= |es|
    && (forall j :: 0 <= j < p && InArray(es[j].0, |a|) ==> a[es[j].0.i - 1] == Some(es[j].1))
    && (forall i :: 0 <= i < |a| && a[i].Some? ==> (Int(i + 1), a[i].value) in es)
  }

  lemma ArrayStep<V>(a: seq<Option<V>>, es: seq<(Key, V)>, p: nat)
    requires ArrayDone(a, es, p) && p < |es| && OneEach(es)
    ensures !InArray(es[p].0, |a|) ==> ArrayDone(a, es, p + 1)
    ensures InArray(es[p].0, |a|) ==> ArrayDone(a[es[p].0.i - 1 := Some(es[p].1)], es, p + 1)
  {
    if InArray(es[p].0, |a|) {
      var a' := a[es[p].0.i - 1 := Some(es[p].1)];
      forall j | 0 <= j < p + 1 && InArray(es[j].0, |a'|)
        ensures a'[es[j].0.i - 1] == Some(es[j].1)
      {
        assert j < p ==> es[j].0 != es[p].0;
      }
      assert es[p] == (Int(es[p].0.i), es[p].1);
    }
  }

  /** After the first pass over the entries before `p`: every taken slot is the main slot of its key. */
  ghost predicate First<V>(h: seq<Node<V>>, chains: seq<seq<nat>>, es: seq<(Key, V)>, n: nat, p: nat) {
    && p <= |es| && |h| == |HashKeys(es, n)| && Layout(h, chains) && From(h, es, n)
    && (forall s :: 0 <= s < |h| && h[s].Used? ==> Main(h[s].key, |h|) == s)
    && (forall j :: 0 <= j < p && !InArray(es[j].0, n) ==> |h| > 0 && h[Main(es[j].0, |h|)].Used?)
  }

  /** After the second pass over the entries before `p`: they have their slots, and the others at most their main one. */
  ghost predicate Second<V>(h: seq<Node<V>>, chains: seq<seq<nat>>, es: seq<(Key, V)>, n: nat, p: nat) {
    && p <= |es| && |h| == |HashKeys(es, n)| && Layout(h, chains) && From(h, es, n)
    && (forall j :: 0 <= j < |es| && !InArray(es[j].0, n) ==> |h| > 0 && chains[Main(es[j].0, |h|)] != [])
    && (forall j :: 0 <= j < p && !InArray(es[j].0, n) ==> Holds(h, es[j].0))
    && (forall s :: 0 <= s < |h| && h[s].Used? ==> s == Main(h[s].key, |h|) || exists j :: 0 <= j < p && es[j].0 == h[s].key)
  }

  lemma SomeHash<V>(es: seq<(Key, V)>, n: nat, p: nat)
    requires OneEach(es) && p < |es| && !InArray(es[p].0, n)
    ensures es[p].0 in HashKeys(es, n) && |HashKeys(es, n)| > 0
  {
    HashKeysOk(es, n);
  }

  lemma FirstStep<V>(h: seq<Node<V>>, chains: seq<seq<nat>>, es: seq<(Key, V)>, n: nat, p: nat)
    requires First(h, chains, es, n, p) && OneEach(es) && p < |es|
    ensures InArray(es[p].0, n) ==> First(h, chains, es, n, p + 1)
    ensures !InArray(es[p].0, n) ==>
              && |h| > 0
              && var m := Main(es[p].0, |h|);
              && (h[m].Used? ==> First(h, chains, es, n, p + 1))
              && (h[m].Free? ==> First(PutMain(h, es[p].0, es[p].1), chains[m := [m]], es, n, p + 1))
  {
    hide KeyHash, Layout;
    if !InArray(es[p].0, n) {
      SomeHash(es, n, p);
      var m := Main(es[p].0, |h|);
      if h[m].Free? {
        PutMainOk(h, chains, es[p].0, es[p].1);
        assert (es[p].0, es[p].1) == es[p];
      }
    }
  }

  lemma FirstToSecond<V>(h: seq<Node<V>>, chains: seq<seq<nat>>, es: seq<(Key, V)>, n: nat)
    requires First(h, chains, es, n, |es|)
    ensures Second(h, chains, es, n, 0)
  {
    forall j | 0 <= j < |es| && !InArray(es[j].0, n)
      ensures |h| > 0 && chains[Main(es[j].0, |h|)] != []
    {
      assert SlotOk(h, chains, Main(es[j].0, |h|));
    }
  }

  lemma SecondSkip<V>(h: seq<Node<V>>, chains: seq<seq<nat>>, es: seq<(Key, V)>, n: nat, p: nat)
    requires Second(h, chains, es, n, p) && p < |es|
    requires InArray(es[p].0, n) || Holds(h, es[p].0)
    ensures Second(h, chains, es, n, p + 1)
  {
    hide KeyHash, Layout, Main;
  }

  /** The test the second pass makes, and a free slot for a key that fails it. */
  lemma SecondTest<V>(h: seq<Node<V>>, chains: seq<seq<nat>>, es: seq<(Key, V)>, n: nat, p: nat)
    requires Second(h, chains, es, n, p) && OneEach(es) && p < |es| && !InArray(es[p].0, n)
    ensures |h| > 0 && h[Main(es[p].0, |h|)].Used?
    ensures h[Main(es[p].0, |h|)].key == es[p].0 <==> Holds(h, es[p].0)
    ensures !Holds(h, es[p].0) ==> exists s :: 0 <= s < |h| && h[s].Free?
  {
    hide KeyHash;
    var k := es[p].0;
    var m := Main(k, |h|);
    assert ChainOk(h, m, chains[m]) && Link(h, chains[m], 0);
    SomeHash(es, n, p);
    if Holds(h, k) {
      var s :| 0 <= s < |h| && h[s].Used? && h[s].key == k;
      assert s == m;
    } else {
      FreeSlot(h, chains, es, n, k);
    }
  }

  lemma SecondStep<V>(h: seq<Node<V>>, chains: seq<seq<nat>>, es: seq<(Key, V)>, n: nat, p: nat, s: nat)
    requires Second(h, chains, es, n, p) && p < |es| && !InArray(es[p].0, n) && !Holds(h, es[p].0)
    requires s < |h| && h[s].Free? && h[Main(es[p].0, |h|)].Used?
    ensures var m := Main(es[p].0, |h|);
            && chains[m] != []
            && Second(PutChained(h, s, es[p].0, es[p].1), chains[m := Insert(chains[m], s)], es, n, p + 1)
  {
    hide KeyHash, Layout;
    var k := es[p].0;
    var m := Main(k, |h|);
    LayoutSize(h, chains);
    PutChainedOk(h, chains, s, k, es[p].1);
    var h', chains' := PutChained(h, s, k, es[p].1), chains[m := Insert(chains[m], s)];
    assert (k, es[p].1) == es[p];
    forall j | 0 <= j < p + 1 && !InArray(es[j].0, n)
      ensures Holds(h', es[j].0)
    {
      if j < p {
        StillHolds(h, s, k, es[p].1, es[j].0);
      } else {
        assert h'[s].key == k;
      }
    }
  }

  lemma LayoutSize<V>(h: seq<Node<V>>, chains: seq<seq<nat>>)
    requires Layout(h, chains)
    ensures |chains| == |h|
  {
  }

  lemma StillHolds<V>(h: seq<Node<V>>, s: nat, k: Key, v: V, x: Key)
    requires s < |h| && h[s].Free? && h[Main(k, |h|)].Used? && Holds(h, x)
    ensures Holds(PutChained(h, s, k, v), x)
  {
    var t :| 0 <= t < |h| && h[t].Used? && h[t].key == x;
    assert PutChained(h, s, k, v)[t].key == x;
  }

  // ---------------------------------------------------------------------------------------------
  // The frozen table
  // ---------------------------------------------------------------------------------------------

  function Get<V>(es: seq<(Key, V)>, k: Key): (r: Option<V>)
    ensures r.Some? ==> (k, r.value) in es
    ensures r.None? ==> forall i :: 0 <= i < |es| ==> es[i].0 != k
  {
    if es == [] then None
    else if es[|es| - 1].0 == k then assert es[|es| - 1] == (k, es[|es| - 1].1); Some(es[|es| - 1].1)
    else Get(es[..|es| - 1], k)
  }

  class Frozen<V> {
    const sizearray: nat
    const arr: array<Option<V>>
    const hash: array<Node<V>>
    /** The table it was made from, in the order of its traversal. */
    ghost const es: seq<(Key, V)>
    ghost var chains: seq<seq<nat>>

    ghost predicate Shape()
      reads this
    {
      arr.Length == sizearray && hash.Length == |HashKeys(es, sizearray)| && OneEach(es)
    }

    ghost predicate Valid()
      reads this, arr, hash
    {
      Shape() && ArrayDone(arr[..], es, |es|) && Second(hash[..], chains, es, sizearray, |es|)
    }

    /** `convtable`, for one table; `n` is its border. */
    constructor (entries: seq<(Key, V)>, n: nat)
      requires OneEach(entries) && forall i :: 0 <= i < |entries| ==> ValidKey(entries[i].0)
      ensures Valid() && es == entries && sizearray == n
    {
      sizearray, es := n, entries;
      arr := new Option<V>[n](_ => None);
      var size := CountSize(entries, n);
      hash := new Node<V>[size](_ => Free);
      chains := seq(size, _ => []);
      new;
      if size > 0 {
        FillNoColliding(entries);
        FillColliding(entries);
      } else {
        FillArray(entries);
      }
    }

    method FillNoColliding(entries: seq<(Key, V)>)
      requires Shape() && entries == es && First(hash[..], chains, es, sizearray, 0) && ArrayDone(arr[..], es, 0)
      modifies this`chains, arr, hash
      ensures First(hash[..], chains, es, sizearray, |es|) && ArrayDone(arr[..], es, |es|)
    {
      hide First, ArrayDone, KeyHash, HashKeys;
      for p := 0 to |entries|
        invariant First(hash[..], chains, es, sizearray, p) && ArrayDone(arr[..], es, p)
      {
        var (k, v) := entries[p];
        ArrayStep(arr[..], es, p);
        FirstStep(hash[..], chains, es, sizearray, p);
        if InArray(k, sizearray) {
          arr[k.i - 1] := Some(v);
        } else {
          var m := Main(k, hash.Length);
          if hash[m].Free? {
            FirstSize(hash[..], chains, es, sizearray, p);
            hash[m] := Used(k, KeyHash(k), -1, true, v);
            chains := chains[m := [m]];
          }
        }
      }
    }

    method FillColliding(entries: seq<(Key, V)>)
      requires Shape() && entries == es && First(hash[..], chains, es, sizearray, |es|)
      modifies this`chains, hash
      ensures Second(hash[..], chains, es, sizearray, |es|)
    {
      hide First, Second, KeyHash, Holds, HashKeys;
      FirstToSecond(hash[..], chains, es, sizearray);
      for p := 0 to |entries|
        invariant Second(hash[..], chains, es, sizearray, p)
      {
        var (k, v) := entries[p];
        if !InArray(k, sizearray) {
          SecondTest(hash[..], chains, es, sizearray, p);
          var m := Main(k, hash.Length);
          if hash[m].key != k {
            var s := FindFree();
            SecondStep(hash[..], chains, es, sizearray, p, s);
            SecondSize(hash[..], chains, es, sizearray, p);
            chains := chains[m := Insert(chains[m], s)];
            hash[s] := Used(k, KeyHash(k), hash[m].next, false, v);
            hash[m] := hash[m].(next := s, nocolliding := false);
          } else {
            SecondSkip(hash[..], chains, es, sizearray, p);
          }
        } else {
          SecondSkip(hash[..], chains, es, sizearray, p);
        }
      }
    }

    /** The first free slot; there is one. */
    method FindFree() returns (s: nat)
      requires exists t :: 0 <= t < hash.Length && hash[..][t].Free?
      ensures s < hash.Length && hash[s].Free?
    {
      s := 0;
      ghost var t :| 0 <= t < hash.Length && hash[..][t].Free?;
      while s < hash.Length
        invariant s <= t && forall i :: 0 <= i < s ==> hash[i].Used?
      {
        if hash[s].Free? {
          return;
        }
        s := s + 1;
      }
    }

    /** Without a hash part the array is read off key by key. */
    method FillArray(entries: seq<(Key, V)>)
      requires Shape() && entries == es && hash.Length == 0 && chains == []
      modifies arr
      ensures ArrayDone(arr[..], es, |es|) && Second(hash[..], chains, es, sizearray, |es|)
    {
      for i := 1 to sizearray + 1
        invariant forall j :: 0 <= j < i - 1 ==> arr[j] == Get(es, Int(j + 1))
      {
        arr[i - 1] := Get(entries, Int(i));
      }
      ArrayOnly(arr[..], es);
    }

    /** `lookup_key`: the slot of a key, or -1. */
    method Lookup(k: Key) returns (r: int)
      requires Valid()
      ensures -1 <= r < hash.Length
      ensures r >= 0 ==> hash[r].Used? && hash[r].key == k
      ensures r < 0 ==> !Holds(hash[..], k)
    {
      hide Second, KeyHash, Holds, HashKeys, ArrayDone;
      ghost var h := hash[..];
      Full(h, chains, es, sizearray);
      if hash.Length == 0 {
        NoneHeld(h, k);
        return -1;
      }
      var kh := KeyHash(k);
      var n: nat := Main(k, hash.Length);
      assert hash[n] == h[n];
      ghost var c := chains[Main(h[n].key, |h|)];
      if kh != hash[n].keyhash && hash[n].nocolliding {
        Alone(h, chains, k);
        return -1;
      }
      ghost var j: nat := WalkStart(h, chains, k);
      while true
        invariant n < hash.Length && Walk(h, chains, k, c, j, n)
        decreases |c| - j
      {
        WalkAt(h, chains, k, c, j, n);
        if kh == hash[n].keyhash && hash[n].key == k {
          return n;
        }
        if hash[n].next < 0 {
          return -1;
        }
        n, j := hash[n].next, j + 1;
      }
    }

    /** `lindexconf`: exactly the value the table has for the key. */
    method Index(k: Key) returns (r: Option<V>)
      requires Valid() && ValidKey(k)
      ensures r == Get(es, k)
    {
      hide Second, KeyHash, HashKeys, Get;
      if InArray(k, sizearray) {
        ArrayHas(arr[..], es, k);
        return arr[k.i - 1];
      }
      var n := Lookup(k);
      if n >= 0 {
        SlotHas(hash[..], chains, es, sizearray, n);
        return Some(hash[n].val);
      }
      NotInTable(hash[..], chains, es, sizearray, k);
      return None;
    }

    ghost function Traversal(): seq<Key>
      requires Valid()
      reads this, arr, hash
    {
      ArrayKeys(arr[..], 0) + KeysFrom(hash[..], 0)
    }

    /** The first key with a value in the array part, from index `i` on. */
    method ScanArray(i: nat) returns (r: Option<Key>)
      requires i <= arr.Length
      ensures r == FirstOf(ArrayKeys(arr[..], i))
    {
      var j := i;
      while j < arr.Length
        invariant i <= j <= arr.Length && ArrayKeys(arr[..], i) == ArrayKeys(arr[..], j)
      {
        if arr[j].Some? {
          return Some(Int(j + 1));
        }
        j := j + 1;
      }
      return None;
    }

    method FirstHash() returns (r: Option<Key>)
      requires Valid()
      ensures r == FirstOf(KeysFrom(hash[..], 0))
    {
      hide Second, ArrayDone, HashKeys;
      Full(hash[..], chains, es, sizearray);
      if hash.Length > 0 {
        assert hash[..][0].Used?;
        return Some(hash[0].key);
      }
      return None;
    }

    /** `lnextkey`: the key after `k` in the traversal, or the first one. */
    method NextKey(k: Option<Key>) returns (r: Option<Key>)
      requires Valid()
      ensures k.None? ==> r == FirstOf(Traversal())
      ensures k.Some? ==> Follows(Traversal(), k.value, r)
    {
      hide Second, ArrayDone, HashKeys, KeyHash, ArrayKeys, KeysFrom, Next, FirstOf, Holds;
      ghost var a, h, t := arr[..], hash[..], Traversal();
      ghost var x, y := ArrayKeys(a, 0), KeysFrom(h, 0);
      HashOutside(h, chains, es, sizearray);
      if k.None? {
        r := ScanArray(0);
        FirstOfConcat(x, y);
        if r.None? {
          r := FirstHash();
        }
        return;
      }
      r := NextAfter(k.value);
      forall p | 0 <= p < |t| && t[p] == k.value
        ensures r == FirstOf(t[p + 1..])
      {
        NextAt(a, h, p);
      }
    }

    method NextAfter(k: Key) returns (r: Option<Key>)
      requires Valid()
      ensures forall rest :: Next(arr[..], hash[..], k, rest) ==> r == FirstOf(rest)
    {
      hide Second, ArrayDone, HashKeys, KeyHash, ArrayKeys, KeysFrom, FirstOf, Holds;
      ghost var a, h := arr[..], hash[..];
      HashOutside(h, chains, es, sizearray);
      if InArray(k, sizearray) {
        r := ScanArray(k.i);
        FirstOfConcat(ArrayKeys(a, k.i), KeysFrom(h, 0));
        if r.None? {
          r := FirstHash();
        }
        return;
      }
      var n := Lookup(k);
      if n >= 0 {
        forall rest | Next(a, h, k, rest)
          ensures rest == KeysFrom(h, n + 1)
        {
          NextFrom(a, h, chains, k, n, rest);
        }
        n := n + 1;
        FirstFrom(h, n);
        if n < hash.Length {
          assert h[n].Used?;
          r := Some(hash[n].key);
        } else {
          r := None;
        }
      } else {
        NoNext(a, h, k);
        r := None;
      }
    }

    /** Going from key to key visits every key of the table exactly once. */
    method VisitAll() returns (ks: seq<Key>)
      requires Valid()
      ensures Distinct(ks) && forall k :: k in ks <==> Get(es, k).Some?
    {
      hide Second, ArrayDone, HashKeys, Get, ArrayKeys, KeysFrom, Distinct;
      ks := [];
      ghost var t := Traversal();
      var k := NextKey(None);
      while k.Some?
        invariant |ks| <= |t| && ks == t[..|ks|] && k == FirstOf(t[|ks|..])
        decreases |t| - |ks|
      {
        assert t[..|ks| + 1] == ks + [t[|ks|]];
        ks := ks + [k.value];
        assert k.value == t[|ks| - 1];
        ghost var last := k.value;
        k := NextKey(k);
        FollowsAt(t, |ks| - 1, last, k);
      }
      assert ks == t;
      TraversalExact(arr[..], hash[..], chains, es);
    }
  }

  ghost function FirstOf<T>(s: seq<T>): Option<T> {
    if s == [] then None else Some(s[0])
  }

  ghost function ArrayKeys<V>(a: seq<Option<V>>, i: nat): seq<Key>
    requires i <= |a|
    decreases |a| - i
  {
    if i == |a| then [] else
    if a[i].Some? then [Int(i + 1)] + ArrayKeys(a, i + 1) else ArrayKeys(a, i + 1)
  }

  ghost function KeysFrom<V>(h: seq<Node<V>>, s: nat): seq<Key>
    requires s <= |h|
  {
    seq(|h| - s, i requires 0 <= i < |h| - s => if h[s + i].Used? then h[s + i].key else Int(0))
  }

  lemma FirstFrom<V>(h: seq<Node<V>>, s: nat)
    requires s <= |h| && forall t :: 0 <= t < |h| ==> h[t].Used?
    ensures FirstOf(KeysFrom(h, s)) == if s < |h| then Some(h[s].key) else None
  {
  }

  lemma {:induction false} ArrayKeysAt<V>(a: seq<Option<V>>, i: nat, p: nat)
    requires i <= |a| && p < |ArrayKeys(a, i)|
    ensures var k := ArrayKeys(a, i)[p];
            k.Int? && i < k.i <= |a| && a[k.i - 1].Some? && ArrayKeys(a, k.i) == ArrayKeys(a, i)[p + 1..]
    decreases |a| - i
  {
    if a[i].Some? {
      assert ArrayKeys(a, i)[1..] == ArrayKeys(a, i + 1);
      if p > 0 {
        ArrayKeysAt(a, i + 1, p - 1);
        assert ArrayKeys(a, i)[1..][p..] == ArrayKeys(a, i)[p + 1..];
      }
    } else {
      ArrayKeysAt(a, i + 1, p);
    }
  }

  lemma {:induction false} ArrayKeysHave<V>(a: seq<Option<V>>, i: nat, j: nat)
    requires i <= j < |a| && a[j].Some?
    ensures Int(j + 1) in ArrayKeys(a, i)
    decreases |a| - i
  {
    if i < j {
      ArrayKeysHave(a, i + 1, j);
    }
  }

  /** What follows a key in the traversal. */
  ghost predicate Next<V>(a: seq<Option<V>>, h: seq<Node<V>>, k: Key, rest: seq<Key>) {
    if InArray(k, |a|) then rest == ArrayKeys(a, k.i) + KeysFrom(h, 0)
    else exists s :: 0 <= s < |h| && h[s].Used? && h[s].key == k && rest == KeysFrom(h, s + 1)
  }

  lemma NextAt<V>(a: seq<Option<V>>, h: seq<Node<V>>, p: nat)
    requires forall s :: 0 <= s < |h| ==> h[s].Used? && !InArray(h[s].key, |a|)
    requires p < |ArrayKeys(a, 0) + KeysFrom(h, 0)|
    ensures var t := ArrayKeys(a, 0) + KeysFrom(h, 0); Next(a, h, t[p], t[p + 1..])
  {
    var x, y := ArrayKeys(a, 0), KeysFrom(h, 0);
    var t := x + y;
    if p < |x| {
      ArrayKeysAt(a, 0, p);
      assert t[p + 1..] == x[p + 1..] + y;
    } else {
      var s := p - |x|;
      assert t[p] == y[s] == h[s].key;
      assert t[p + 1..] == KeysFrom(h, s + 1);
    }
  }

  lemma HashOutside<V>(h: seq<Node<V>>, chains: seq<seq<nat>>, es: seq<(Key, V)>, n: nat)
    requires Second(h, chains, es, n, |es|) && OneEach(es)
    ensures Layout(h, chains) && forall s :: 0 <= s < |h| ==> h[s].Used? && !InArray(h[s].key, n)
  {
    hide HashKeys, Layout;
    Full(h, chains, es, n);
  }

  /** The slot of a key is the only one that can have it. */
  lemma NextFrom<V>(a: seq<Option<V>>, h: seq<Node<V>>, chains: seq<seq<nat>>, k: Key, n: nat, rest: seq<Key>)
    requires Layout(h, chains) && n < |h| && h[n].Used? && h[n].key == k && !InArray(k, |a|) && Next(a, h, k, rest)
    ensures rest == KeysFrom(h, n + 1)
  {
    hide KeysFrom;
  }

  lemma FirstOfConcat<T>(u: seq<T>, v: seq<T>)
    ensures FirstOf(u + v) == if FirstOf(u).Some? then FirstOf(u) else FirstOf(v)
  {
  }

  /** `r` is what comes after `k` in `t`, or nothing if `k` comes last. */
  ghost predicate Follows<T>(t: seq<T>, k: T, r: Option<T>) {
    forall p :: 0 <= p < |t| && t[p] == k ==> r == FirstOf(t[p + 1..])
  }

  lemma FollowsAt<T>(t: seq<T>, p: nat, k: T, r: Option<T>)
    requires p < |t| && t[p] == k && Follows(t, k, r)
    ensures r == FirstOf(t[p + 1..])
  {
  }

  lemma NoNext<V>(a: seq<Option<V>>, h: seq<Node<V>>, k: Key)
    requires !InArray(k, |a|) && !Holds(h, k)
    ensures forall rest :: !Next(a, h, k, rest)
  {
    hide KeysFrom;
  }

  lemma NotVisited<V>(a: seq<Option<V>>, h: seq<Node<V>>, chains: seq<seq<nat>>, es: seq<(Key, V)>, k: Key)
    requires !InArray(k, |a|) && !Holds(h, k) && forall s :: 0 <= s < |h| ==> h[s].Used?
    ensures k !in ArrayKeys(a, 0) + KeysFrom(h, 0)
  {
    var x, y := ArrayKeys(a, 0), KeysFrom(h, 0);
    forall p | 0 <= p < |x|
      ensures x[p] != k
    {
      ArrayKeysAt(a, 0, p);
    }
    forall p | 0 <= p < |y|
      ensures y[p] != k
    {
      assert y[p] == h[p].key;
    }
  }

  /** The traversal is the set of keys of the table, each once. */
  lemma TraversalExact<V>(a: seq<Option<V>>, h: seq<Node<V>>, chains: seq<seq<nat>>, es: seq<(Key, V)>)
    requires ArrayDone(a, es, |es|) && Second(h, chains, es, |a|, |es|) && OneEach(es)
    ensures var t := ArrayKeys(a, 0) + KeysFrom(h, 0);
            Distinct(t) && forall k :: k in t <==> Get(es, k).Some?
  {
    hide KeyHash, HashKeys, Get, Second, ArrayDone, ArrayKeys, KeysFrom;
    HashOutside(h, chains, es, |a|);
    ArrayOnce(a);
    SlotsOnce(h, chains);
    var x, y := ArrayKeys(a, 0), KeysFrom(h, 0);
    var t := x + y;
    forall p, q | 0 <= p < q < |t|
      ensures t[p] != t[q]
    {
      if p < |x| <= q {
        assert y[q - |x|] == h[q - |x|].key;
      }
    }
    forall k
      ensures k in t <==> Get(es, k).Some?
    {
      Visited(a, h, chains, es, k);
    }
  }

  lemma ArrayOnce<V>(a: seq<Option<V>>)
    ensures Distinct(ArrayKeys(a, 0)) && forall p :: 0 <= p < |ArrayKeys(a, 0)| ==> InArray(ArrayKeys(a, 0)[p], |a|)
  {
    var x := ArrayKeys(a, 0);
    forall p | 0 <= p < |x|
      ensures InArray(x[p], |a|)
    {
      ArrayKeysAt(a, 0, p);
    }
    forall p, q | 0 <= p < q < |x|
      ensures x[p] != x[q]
    {
      ArrayKeysAt(a, 0, p);
      assert x[q] == x[p + 1..][q - p - 1];
      ArrayKeysAt(a, x[p].i, q - p - 1);
    }
  }

  lemma SlotsOnce<V>(h: seq<Node<V>>, chains: seq<seq<nat>>)
    requires Layout(h, chains) && forall s :: 0 <= s < |h| ==> h[s].Used?
    ensures Distinct(KeysFrom(h, 0)) && |KeysFrom(h, 0)| == |h| && forall s :: 0 <= s < |h| ==> KeysFrom(h, 0)[s] == h[s].key
  {
  }

  lemma ArrayVisited<V>(a: seq<Option<V>>, k: Key)
    requires InArray(k, |a|)
    ensures k in ArrayKeys(a, 0) <==> a[k.i - 1].Some?
  {
    hide ArrayKeys;
    var x := ArrayKeys(a, 0);
    if a[k.i - 1].Some? {
      ArrayKeysHave(a, 0, k.i - 1);
    }
    if k in x {
      var p :| 0 <= p < |x| && x[p] == k;
      ArrayKeysAt(a, 0, p);
    }
  }

  lemma Visited<V>(a: seq<Option<V>>, h: seq<Node<V>>, chains: seq<seq<nat>>, es: seq<(Key, V)>, k: Key)
    requires ArrayDone(a, es, |es|) && Second(h, chains, es, |a|, |es|) && OneEach(es)
    requires Layout(h, chains) && forall s :: 0 <= s < |h| ==> h[s].Used?
    ensures k in ArrayKeys(a, 0) + KeysFrom(h, 0) <==> Get(es, k).Some?
  {
    hide KeyHash, HashKeys, Get, Layout, ChainOk, SlotOk;
    var x, y := ArrayKeys(a, 0), KeysFrom(h, 0);
    if InArray(k, |a|) {
      ArrayHas(a, es, k);
      ArrayVisited(a, k);
      assert k !in y;
    } else if Holds(h, k) {
      var s :| 0 <= s < |h| && h[s].key == k;
      SlotHas(h, chains, es, |a|, s);
      assert y[s] == k;
    } else {
      NotInTable(h, chains, es, |a|, k);
      NotVisited(a, h, chains, es, k);
    }
  }

  /** In a finished table every slot is in use. */
  lemma Full<V>(h: seq<Node<V>>, chains: seq<seq<nat>>, es: seq<(Key, V)>, n: nat)
    requires Second(h, chains, es, n, |es|) && OneEach(es)
    ensures Layout(h, chains) && forall s :: 0 <= s < |h| ==> h[s].Used?
  {
    HashKeysOk(es, n);
    forall k | k in HashKeys(es, n)
      ensures Holds(h, k)
    {
      var i :| 0 <= i < |es| && es[i].0 == k;
    }
    NoFreeSlot(h, es, n);
  }

  lemma NoneHeld<V>(h: seq<Node<V>>, k: Key)
    requires h == []
    ensures !Holds(h, k)
  {
  }

  /** A slot that no other key collides with answers for its main position alone. */
  lemma Alone<V>(h: seq<Node<V>>, chains: seq<seq<nat>>, k: Key)
    requires Layout(h, chains) && |h| > 0
    requires var m := Main(k, |h|); h[m].Used? && h[m].nocolliding && h[m].keyhash != KeyHash(k)
    ensures !Holds(h, k)
  {
    hide KeyHash;
    var m := Main(k, |h|);
    assert SlotOk(h, chains, m);
    var m0 := Main(h[m].key, |h|);
    assert ChainOk(h, m0, chains[m0]);
    forall s | 0 <= s < |h| && h[s].Used?
      ensures h[s].key != k
    {
      assert SlotOk(h, chains, s);
      assert ChainOk(h, Main(h[s].key, |h|), chains[Main(h[s].key, |h|)]);
    }
  }

  /** The walk is at position `j` of chain `c`, and a slot with the key could only be further on. */
  ghost predicate Walk<V>(h: seq<Node<V>>, chains: seq<seq<nat>>, k: Key, c: seq<nat>, j: nat, n: nat) {
    && j < |c| && n == c[j] && n < |h| && h[n].Used? && h[n].keyhash == KeyHash(h[n].key) && Link(h, c, j)
    && (forall t :: j <= t < |c| ==> Link(h, c, t) && SlotKeyed(h, c[t]))
    && (forall s :: 0 <= s < |h| && h[s].Used? && h[s].key == k ==> exists t :: j <= t < |c| && c[t] == s)
  }

  ghost predicate SlotKeyed<V>(h: seq<Node<V>>, s: nat) {
    s < |h| && h[s].Used? && h[s].keyhash == KeyHash(h[s].key)
  }

  lemma WalkStart<V>(h: seq<Node<V>>, chains: seq<seq<nat>>, k: Key) returns (j: nat)
    requires Layout(h, chains) && |h| > 0 && h[Main(k, |h|)].Used?
    ensures Walk(h, chains, k, chains[Main(h[Main(k, |h|)].key, |h|)], j, Main(k, |h|))
  {
    hide KeyHash;
    var m := Main(k, |h|);
    var m0 := Main(h[m].key, |h|);
    var c := chains[m0];
    assert SlotOk(h, chains, m) && ChainOk(h, m0, c);
    j :| 0 <= j < |c| && c[j] == m;
    forall t | 0 <= t < |c|
      ensures Link(h, c, t) && SlotKeyed(h, c[t])
    {
      assert Link(h, c, t);
      assert SlotOk(h, chains, c[t]);
    }
    assert ChainOk(h, m, chains[m]);
    if m0 == m {
      assert c[0] == m && j == 0;
    }
    forall s | 0 <= s < |h| && h[s].Used? && h[s].key == k
      ensures exists t :: j <= t < |c| && c[t] == s
    {
      assert SlotOk(h, chains, s) && s in chains[m];
      assert chains[m][0] == m && Link(h, chains[m], 0);
      assert m0 == m;
    }
  }

  lemma WalkAt<V>(h: seq<Node<V>>, chains: seq<seq<nat>>, k: Key, c: seq<nat>, j: nat, n: nat)
    requires Walk(h, chains, k, c, j, n)
    ensures h[n].Used? && h[n].keyhash == KeyHash(h[n].key) && j < |c|
    ensures h[n].key != k && h[n].next >= 0 ==> h[n].next < |h| && Walk(h, chains, k, c, j + 1, h[n].next)
    ensures h[n].key != k && h[n].next < 0 ==> !Holds(h, k)
  {
    hide KeyHash;
    if h[n].key != k {
      forall s | 0 <= s < |h| && h[s].Used? && h[s].key == k
        ensures exists t :: j + 1 <= t < |c| && c[t] == s
      {
        var t :| j <= t < |c| && c[t] == s;
        assert t != j;
      }
      if j + 1 < |c| {
        assert Link(h, c, j + 1) && SlotKeyed(h, c[j + 1]);
      }
    }
  }

  lemma ArrayHas<V>(a: seq<Option<V>>, es: seq<(Key, V)>, k: Key)
    requires ArrayDone(a, es, |es|) && OneEach(es) && InArray(k, |a|)
    ensures a[k.i - 1] == Get(es, k)
  {
    assert k == Int(k.i - 1 + 1);
    if a[k.i - 1].Some? {
      InTable(es, (k, a[k.i - 1].value));
    }
    var r := Get(es, k);
    if r.Some? {
      var i :| 0 <= i < |es| && es[i] == (k, r.value);
      assert es[i].0 == k;
    }
  }

  lemma SlotHas<V>(h: seq<Node<V>>, chains: seq<seq<nat>>, es: seq<(Key, V)>, n: nat, s: nat)
    requires Second(h, chains, es, n, |es|) && OneEach(es) && s < |h| && h[s].Used?
    ensures Get(es, h[s].key) == Some(h[s].val)
  {
    var i :| 0 <= i < |es| && es[i] == (h[s].key, h[s].val);
    GetUnique(es, i);
  }

  lemma NotInTable<V>(h: seq<Node<V>>, chains: seq<seq<nat>>, es: seq<(Key, V)>, n: nat, k: Key)
    requires Second(h, chains, es, n, |es|) && OneEach(es) && !InArray(k, n) && !Holds(h, k)
    ensures Get(es, k) == None
  {
    GetIn(es, k);
  }

  lemma GetIn<V>(es: seq<(Key, V)>, k: Key)
    ensures Get(es, k).Some? ==> exists i :: 0 <= i < |es| && es[i].0 == k
  {
    if Get(es, k).Some? {
      InTable(es, (k, Get(es, k).value));
    }
  }

  lemma ArrayOnly<V>(a: seq<Option<V>>, es: seq<(Key, V)>)
    requires OneEach(es) && HashKeys(es, |a|) == [] && forall j :: 0 <= j < |a| ==> a[j] == Get(es, Int(j + 1))
    ensures ArrayDone(a, es, |es|) && Second([], [], es, |a|, |es|)
  {
    HashKeysOk(es, |a|);
    forall j | 0 <= j < |es|
      ensures InArray(es[j].0, |a|)
    {
      assert es[j].0 !in HashKeys(es, |a|);
    }
    forall j | 0 <= j < |es| && InArray(es[j].0, |a|)
      ensures a[es[j].0.i - 1] == Some(es[j].1)
    {
      GetUnique(es, j);
    }
  }

  lemma GetUnique<V>(es: seq<(Key, V)>, j: nat)
    requires OneEach(es) && j < |es|
    ensures Get(es, es[j].0) == Some(es[j].1)
  {
    var r := Get(es, es[j].0);
    assert r.Some?;
    var i :| 0 <= i < |es| && es[i] == (es[j].0, r.value);
    assert es[i].0 == es[j].0;
  }

  lemma FirstSize<V>(h: seq<Node<V>>, chains: seq<seq<nat>>, es: seq<(Key, V)>, n: nat, p: nat)
    requires First(h, chains, es, n, p)
    ensures |chains| == |h|
  {
  }

  lemma SecondSize<V>(h: seq<Node<V>>, chains: seq<seq<nat>>, es: seq<(Key, V)>, n: nat, p: nat)
    requires Second(h, chains, es, n, p)
    ensures |chains| == |h|
  {
  }

  /** `countsize`. */
  method CountSize<V>(es: seq<(Key, V)>, n: nat) returns (size: nat)
    ensures size == |HashKeys(es, n)|
  {
    size := 0;
    for p := 0 to |es|
      invariant size == |HashKeys(es[..p], n)|
    {
      assert es[..p + 1][..p] == es[..p];
      if !InArray(es[p].0, n) {
        size := size + 1;
      }
    }
    assert es[..|es|] == es;
  }
}
