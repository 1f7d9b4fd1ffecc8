/** The table of service handles and the sorted table of their names. */
module Handles {

  import opened Arith
  import opened Options

  /** Handles are 24 bits below the number of the node. */
  const RANGE: nat := 0x100_0000

  // ---------------------------------------------------------------------------------------------
  // Slots
  // ---------------------------------------------------------------------------------------------

  function Slot(h: nat, n: nat): (m: nat)
    requires n > 0
    ensures m < n
  {
    h % n
  }

  /** A handle in use is in the slot its low bits name. */
  ghost predicate Placed(slot: seq<Option<nat>>) {
    forall i :: 0 <= i < |slot| && slot[i].Some? ==> slot[i].value < RANGE && Slot(slot[i].value, |slot|) == i
  }

  ghost function Live(slot: seq<Option<nat>>): set<nat> {
    set i | 0 <= i < |slot| && slot[i].Some? :: slot[i].value
  }

  lemma LiveAt(slot: seq<Option<nat>>, h: nat)
    requires |slot| > 0 && Placed(slot)
    ensures h in Live(slot) <==> slot[Slot(h, |slot|)] == Some(h)
  {
    if h in Live(slot) {
      var i :| 0 <= i < |slot| && slot[i].Some? && slot[i].value == h;
      assert i == Slot(h, |slot|);
    }
  }

  /** A handle in a free slot is in use by nobody. */
  lemma LivePut(slot: seq<Option<nat>>, h: nat)
    requires |slot| > 0 && Placed(slot) && slot[Slot(h, |slot|)].None? && h < RANGE
    ensures Placed(slot[Slot(h, |slot|) := Some(h)]) && Live(slot[Slot(h, |slot|) := Some(h)]) == Live(slot) + {h} && h !in Live(slot)
  {
    var m := Slot(h, |slot|);
    var slot' := slot[m := Some(h)];
    LiveAt(slot, h);
    forall x
      ensures x in Live(slot') <==> x in Live(slot) + {h}
    {
      LiveAt(slot, x);
      LiveAt(slot', x);
    }
  }

  lemma LiveRemove(slot: seq<Option<nat>>, h: nat)
    requires |slot| > 0 && Placed(slot) && slot[Slot(h, |slot|)] == Some(h)
    ensures Placed(slot[Slot(h, |slot|) := None]) && Live(slot[Slot(h, |slot|) := None]) == Live(slot) - {h} && h in Live(slot)
  {
    var m := Slot(h, |slot|);
    var slot' := slot[m := None];
    LiveAt(slot, h);
    forall x
      ensures x in Live(slot') <==> x in Live(slot) - {h}
    {
      LiveAt(slot, x);
      LiveAt(slot', x);
    }
  }

  /** Slot counts are powers of two up to the number of handles, so they divide it. */
  lemma PowerDivides(k: nat)
    requires k <= 24
    ensures Pow(2, k) > 0 && RANGE % Pow(2, k) == 0 && Pow(2, k) <= RANGE && (k < 24 ==> Pow(2, k) < RANGE)
  {
    hide Pow;
    PowAdd(2, k, 24 - k);
    TwentyFour();
    PowPositive(2, k);
    PowPositive(2, 24 - k);
    DivUnique(RANGE, Pow(2, k), Pow(2, 24 - k), 0);
    MulMono(1, Pow(2, 24 - k), Pow(2, k));
    if k < 24 {
      AtLeastTwo(24 - k);
      MulMono(2, Pow(2, 24 - k), Pow(2, k));
    }
  }

  lemma AtLeastTwo(k: nat)
    requires k > 0
    ensures Pow(2, k) >= 2
  {
    PowPositive(2, k - 1);
  }

  lemma TwentyFour()
    ensures Pow(2, 24) == RANGE
  {
    assert Pow(2, 3) == 8 by {
      assert Pow(2, 2) == 2 * Pow(2, 1);
    }
    PowAdd(2, 3, 3);
    PowAdd(2, 6, 6);
    PowAdd(2, 12, 12);
  }

  /** Reducing a handle to 24 bits leaves its slot alone. */
  lemma SlotOf(x: nat, n: nat)
    requires n > 0 && RANGE % n == 0
    ensures Slot(x % RANGE, n) == Slot(x, n)
  {
    var k := RANGE / n;
    assert RANGE == k * n;
    var q, r := x / RANGE, x % RANGE;
    assert x == q * RANGE + r;
    var a, b := r / n, r % n;
    assert r == a * n + b;
    assert x == (q * k + a) * n + b by {
      assert q * (k * n) == q * k * n;
      assert (q * k + a) * n == q * k * n + a * n;
    }
    DivUnique(x, n, q * k + a, b);
  }

  /** Consecutive numbers cover all slots. */
  lemma Covers(start: nat, n: nat, m: nat) returns (i: nat)
    requires m < n
    ensures i < n && Slot(start + i, n) == m
  {
    var s := start % n;
    i := if m >= s then m - s else m + n - s;
    var q := start / n;
    assert start == q * n + s;
    if m >= s {
      DivUnique(start + i, n, q, m);
    } else {
      assert (q + 1) * n == q * n + n;
      DivUnique(start + i, n, q + 1, m);
    }
  }

  /** The slots after a doubling: the handles so far, each where its longer remainder says. */
  ghost predicate Rehashed(slot: seq<Option<nat>>, new_slot: seq<Option<nat>>, i: nat) {
    && |new_slot| == 2 * |slot| && i <= |slot| && Placed(new_slot)
    && (forall x :: x in Live(new_slot) <==> exists j :: 0 <= j < i && slot[j] == Some(x))
  }

  lemma DoubleRemainder(h: nat, n: nat)
    requires n > 0
    ensures Slot(Slot(h, 2 * n), n) == Slot(h, n)
  {
    var q, r := h / (2 * n), h % (2 * n);
    assert h == q * (2 * n) + r;
    if r < n {
      DivUnique(r, n, 0, r);
      assert h == (2 * q) * n + r;
      DivUnique(h, n, 2 * q, r);
    } else {
      DivUnique(r, n, 1, r - n);
      assert h == (2 * q + 1) * n + (r - n);
      DivUnique(h, n, 2 * q + 1, r - n);
    }
  }

  /** Two handles that shared no slot share none after doubling. */
  lemma RehashStep(slot: seq<Option<nat>>, new_slot: seq<Option<nat>>, i: nat)
    requires |slot| > 0 && Placed(slot) && Rehashed(slot, new_slot, i) && i < |slot| && slot[i].Some?
    ensures var h := slot[i].value;
            new_slot[Slot(h, |new_slot|)].None? && Rehashed(slot, new_slot[Slot(h, |new_slot|) := Some(h)], i + 1)
  {
    hide Slot;
    var h := slot[i].value;
    var m := Slot(h, |new_slot|);
    SlotRange(h, |new_slot|);
    DoubleRemainder(h, |slot|);
    if new_slot[m].Some? {
      var x := new_slot[m].value;
      LiveAt(new_slot, x);
      var j :| 0 <= j < i && slot[j] == Some(x);
      DoubleRemainder(x, |slot|);
    }
    LivePut(new_slot, h);
  }

  lemma SlotRange(h: nat, n: nat)
    requires n > 0
    ensures Slot(h, n) < n
  {
  }

  class HandleStorage {
    const harbor: nat
    /** The next handle to try, counted without wrap-around; the code keeps it to 24 bits. */
    ghost var issued: nat
    var handleIndex: nat
    var slot: array<Option<nat>>
    ghost var k: nat
    /** For every handle given out since the start, where the counter stood, and the handle. */
    ghost var marks: seq<nat>
    ghost var given: seq<nat>

    ghost predicate Valid()
      reads this, slot
    {
      && k <= 24 && slot.Length == Pow(2, k) && Placed(slot[..])
      && handleIndex <= RANGE && handleIndex % RANGE == issued % RANGE
      && Logged(harbor, marks, given, issued)
    }

    constructor (harbor: nat)
      ensures Valid() && this.harbor == harbor && issued == 1 && Live(slot[..]) == {} && fresh(slot) && given == []
    {
      this.harbor, issued, handleIndex, k := harbor, 1, 1, 2;
      marks, given := [], [];
      slot := new Option<nat>[4](_ => None);
      new;
      assert Pow(2, 2) == 2 * Pow(2, 1);
    }

    /** One scan over as many handles as there are slots. */
    method Scan() returns (r: Option<nat>)
      requires Valid()
      modifies this`handleIndex, this`issued, this`marks, this`given, slot
      ensures Valid() && (r.None? <==> forall i :: 0 <= i < slot.Length ==> old(slot[i]).Some?)
      ensures r.None? ==> slot[..] == old(slot[..]) && issued == old(issued) && marks == old(marks) && given == old(given)
      ensures r.Some? ==> marks == old(marks) + [issued - 1] && given == old(given) + [harbor * RANGE + r.value]
      ensures r.Some? ==>
                && old(issued) <= issued - 1 && r.value == (issued - 1) % RANGE
                && r.value !in old(Live(slot[..])) && Live(slot[..]) == old(Live(slot[..])) + {r.value}
    {
      hide Pow, Slot, Live, Placed, Logged;
      PowerDivides(k);
      var n := slot.Length;
      var i := 0;
      while i < n
        invariant 0 <= i <= n && slot[..] == old(slot[..]) && handleIndex == old(handleIndex) && issued == old(issued)
        invariant marks == old(marks) && given == old(given)
        invariant forall j :: 0 <= j < i ==> Taken(slot[..], handleIndex, j)
      {
        var handle := (i + handleIndex) % RANGE;
        var hash := Slot(handle, n);
        SlotOf(handleIndex + i, n);
        SlotRange(handle, n);
        if slot[hash].None? {
          LivePut(slot[..], handle);
          slot[hash] := Some(handle);
          handleIndex := handle + 1;
          SameCount(old(handleIndex), issued, i);
          LoggedNext(harbor, marks, given, issued, i);
          marks, given := marks + [issued + i], given + [harbor * RANGE + handle];
          issued := issued + i + 1;
          return Some(handle);
        }
        i := i + 1;
      }
      AllTaken(slot[..], handleIndex);
      r := None;
    }

    /** Twice as many slots. No two handles collide. */
    method Double()
      requires Valid() && k < 24 && forall i :: 0 <= i < slot.Length ==> slot[i].Some?
      modifies this`slot, this`k
      ensures Valid() && fresh(slot) && slot.Length == 2 * old(slot.Length) && Live(slot[..]) == old(Live(slot[..]))
      ensures exists m :: 0 <= m < slot.Length && slot[m].None?
    {
      hide Pow, Slot, Live, Placed, Rehashed, Logged;
      PowerDivides(k);
      PowNext(k);
      var n := slot.Length;
      var new_slot := new Option<nat>[2 * n](_ => None);
      ghost var s := slot[..];
      var i := 0;
      RehashStart(s, new_slot[..]);
      while i < n
        invariant 0 <= i <= n && slot == old(slot) && k == old(k) && slot[..] == s && Rehashed(s, new_slot[..], i)
      {
        assert s[i] == slot[i];
        RehashStep(s, new_slot[..], i);
        var h := slot[i].value;
        var hash := Slot(h, 2 * n);
        SlotRange(h, 2 * n);
        assert new_slot[hash].None?;
        new_slot[hash] := slot[i];
        i := i + 1;
      }
      SameLive(s, new_slot[..]);
      var m := HalfFree(s, new_slot[..]);
      slot := new_slot;
      k := k + 1;
      assert slot[m].None?;
    }

    /** `skynet_handle_register`: a handle not in use, after one doubling at most; fails only when all handles are. */
    method Register() returns (r: Option<nat>)
      requires Valid()
      modifies this, slot
      ensures Valid() && (slot == old(slot) || fresh(slot)) && slot.Length <= 2 * old(slot.Length)
      ensures r.None? <==> old(slot.Length) == RANGE && forall i :: 0 <= i < old(slot.Length) ==> old(slot[i]).Some?
      ensures r.None? ==> Live(slot[..]) == old(Live(slot[..])) && issued == old(issued) && given == old(given) && marks == old(marks)
      ensures r.Some? ==> given == old(given) + [r.value] && marks == old(marks) + [issued - 1]
      ensures r.Some? ==>
                var low := (issued - 1) % RANGE;
                && old(issued) <= issued - 1 && r.value == harbor * RANGE + low
                && low !in old(Live(slot[..])) && Live(slot[..]) == old(Live(slot[..])) + {low}
    {
      hide Pow, Placed, Live, Logged;
      PowerDivides(k);
      var h := Scan();
      if h.None? {
        TwentyFour();
        if slot.Length == RANGE {
          return None;
        }
        BelowRange(k);
        Double();
        h := Scan();
      }
      r := Some(harbor * RANGE + h.value);
    }

    /** `skynet_handle_grab`, and the test that retiring makes: the handle is in use on this node. */
    method Grab(handle: nat) returns (found: bool)
      requires Valid()
      ensures found <==> handle / RANGE == harbor && handle % RANGE in Live(slot[..])
    {
      hide Pow;
      PowerDivides(k);
      SlotOf(handle, slot.Length);
      var hash := Slot(handle, slot.Length);
      LiveAt(slot[..], handle % RANGE);
      found := slot[hash].Some? && harbor * RANGE + slot[hash].value == handle;
      if slot[hash].Some? {
        WholeHandle(harbor, slot[hash].value, handle);
      }
    }

    /** `skynet_handle_retire`, for the slots. */
    method Retire(handle: nat) returns (ret: bool)
      requires Valid()
      modifies slot
      ensures Valid()
      ensures ret <==> handle / RANGE == harbor && handle % RANGE in old(Live(slot[..]))
      ensures Live(slot[..]) == if ret then old(Live(slot[..])) - {handle % RANGE} else old(Live(slot[..]))
    {
      hide Pow;
      ret := Grab(handle);
      if ret {
        PowerDivides(k);
        SlotOf(handle, slot.Length);
        LiveAt(slot[..], handle % RANGE);
        LiveRemove(slot[..], handle % RANGE);
        slot[Slot(handle, slot.Length)] := None;
      }
    }

    /** Registrations and retirements, in any order. */
    method Run(ops: seq<Op>) returns (out: seq<nat>)
      requires Valid()
      modifies this, slot
      ensures Valid() && old(issued) <= issued && old(given) <= given && out == given[|old(given)|..]
      ensures issued <= old(issued) + RANGE ==> forall i, j :: 0 <= i < j < |out| ==> out[i] != out[j]
    {
      hide Pow, Placed, Live, Logged, Slot;
      out := [];
      ghost var g := |given|;
      LoggedSame(harbor, marks, given, issued);
      assert given[g..] == [];
      for n := 0 to |ops|
        invariant Valid() && (slot == old(slot) || fresh(slot)) && old(issued) <= issued
        invariant old(given) <= given && old(marks) <= marks && out == given[g..] && |marks| == |given| && |old(marks)| == g
        invariant forall i :: g <= i < |marks| ==> old(issued) <= marks[i]
      {
        LoggedSame(harbor, marks, given, issued);
        match ops[n] {
          case Register =>
            var r := Register();
            if r.Some? {
              out := out + [r.value];
            }
          case Retire(h) =>
            var ret := Retire(h);
        }
        LoggedSame(harbor, marks, given, issued);
      }
      if issued <= old(issued) + RANGE {
        forall i, j | 0 <= i < j < |out|
          ensures out[i] != out[j]
        {
          LoggedAt(harbor, marks, given, issued, g + i, g + j);
          NoReissue(g + i, g + j);
        }
      }
    }

    /** Two handles given out are the same if and only if the counter went round between them, once or more often. */
    lemma Reissued(i: nat, j: nat)
      requires Valid() && i < j < |given| && |marks| == |given|
      ensures marks[i] < marks[j] && (given[i] == given[j] <==> (marks[j] - marks[i]) % RANGE == 0)
    {
      hide Pow, Placed;
      LoggedAt(harbor, marks, given, issued, i, j);
      SameRemainder(marks[i], marks[j]);
    }

    /** So no handle is given out again before the counter has gone round. */
    lemma NoReissue(i: nat, j: nat)
      requires Valid() && i < j < |given| && |marks| == |given| && marks[j] < marks[i] + RANGE
      ensures given[i] != given[j]
    {
      hide Pow, Placed;
      Reissued(i, j);
    }
  }

  datatype Op = Register | Retire(handle: nat)

  /** The counter only goes up, and a handle is the node's number above the counter's low bits. */
  ghost predicate Logged(harbor: nat, marks: seq<nat>, given: seq<nat>, issued: nat) {
    && |marks| == |given|
    && (forall i :: 0 <= i < |marks| ==> marks[i] < issued && given[i] == harbor * RANGE + marks[i] % RANGE)
    && (forall i, j :: 0 <= i < j < |marks| ==> marks[i] < marks[j])
  }

  lemma LoggedNext(harbor: nat, marks: seq<nat>, given: seq<nat>, issued: nat, i: nat)
    requires Logged(harbor, marks, given, issued)
    ensures Logged(harbor, marks + [issued + i], given + [harbor * RANGE + (issued + i) % RANGE], issued + i + 1)
  {
  }

  lemma LoggedSame(harbor: nat, marks: seq<nat>, given: seq<nat>, issued: nat)
    requires Logged(harbor, marks, given, issued)
    ensures |marks| == |given|
  {
  }

  lemma LoggedAt(harbor: nat, marks: seq<nat>, given: seq<nat>, issued: nat, i: nat, j: nat)
    requires Logged(harbor, marks, given, issued) && i < j < |marks| && |marks| == |given|
    ensures marks[i] < marks[j] < issued
    ensures given[i] == harbor * RANGE + marks[i] % RANGE && given[j] == harbor * RANGE + marks[j] % RANGE
  {
  }

  lemma SameRemainder(u: nat, v: nat)
    requires u <= v
    ensures u % RANGE == v % RANGE <==> (v - u) % RANGE == 0
  {
  }

  lemma WholeHandle(harbor: nat, low: nat, handle: nat)
    requires low < RANGE
    ensures harbor * RANGE + low == handle <==> handle / RANGE == harbor && handle % RANGE == low
  {
    if harbor * RANGE + low == handle {
      DivUnique(handle, RANGE, harbor, low);
    }
  }

  lemma SameCount(index: nat, issued: nat, i: nat)
    requires index % RANGE == issued % RANGE
    ensures ((i + index) % RANGE + 1) % RANGE == (issued + i + 1) % RANGE && (i + index) % RANGE == (issued + i) % RANGE
  {
    SameShift(index, issued, i, RANGE);
    var h := (i + index) % RANGE;
    DivUnique(h, RANGE, 0, h);
    SameShift(h, issued + i, 1, RANGE);
  }

  lemma SameShift(a: nat, b: nat, c: nat, m: nat)
    requires m > 0 && a % m == b % m
    ensures (c + a) % m == (b + c) % m
  {
    var p, q, s := a / m, b / m, (c + a) / m;
    var r := (c + a) % m;
    assert a == p * m + a % m && b == q * m + b % m && c + a == s * m + r;
    assert b + c == (s + q - p) * m + r;
    DivUnique(b + c, m, s + q - p, r);
  }

  lemma PowNext(k: nat)
    ensures Pow(2, k + 1) == 2 * Pow(2, k)
  {
  }

  lemma BelowRange(k: nat)
    requires k <= 24 && Pow(2, k) != RANGE
    ensures k < 24
  {
    TwentyFour();
  }

  lemma SameLive(slot: seq<Option<nat>>, new_slot: seq<Option<nat>>)
    requires Rehashed(slot, new_slot, |slot|)
    ensures Live(new_slot) == Live(slot) && Placed(new_slot)
  {
  }

  /** The handle of slot 0 leaves one of the two slots free that its slot was split into. */
  lemma HalfFree(slot: seq<Option<nat>>, new_slot: seq<Option<nat>>) returns (m: nat)
    requires Rehashed(slot, new_slot, |slot|) && |slot| > 0 && Placed(slot) && slot[0].Some?
    ensures m < |new_slot| && new_slot[m].None?
  {
    var n, h := |slot|, slot[0].value;
    DoubleRemainder(h, n);
    m := if Slot(h, 2 * n) == 0 then n else 0;
    if new_slot[m].Some? {
      var x := new_slot[m].value;
      LiveAt(new_slot, x);
      var j :| 0 <= j < n && slot[j] == Some(x);
      DoubleRemainder(x, n);
    }
  }

  ghost predicate Taken(slot: seq<Option<nat>>, start: nat, j: nat) {
    |slot| > 0 && slot[Slot(start + j, |slot|)].Some?
  }

  lemma AllTaken(slot: seq<Option<nat>>, start: nat)
    requires forall j :: 0 <= j < |slot| ==> Taken(slot, start, j)
    ensures forall i :: 0 <= i < |slot| ==> slot[i].Some?
  {
    forall i | 0 <= i < |slot|
      ensures slot[i].Some?
    {
      var j := Covers(start, |slot|, i);
      assert Taken(slot, start, j);
    }
  }

  lemma RehashStart(slot: seq<Option<nat>>, new_slot: seq<Option<nat>>)
    requires |new_slot| == 2 * |slot| && forall m :: 0 <= m < |new_slot| ==> new_slot[m].None?
    ensures Rehashed(slot, new_slot, 0)
  {
  }

  // ---------------------------------------------------------------------------------------------
  // Names
  // ---------------------------------------------------------------------------------------------

  datatype Name = Name(name: string, handle: nat)

  /** `strcmp`: negative, zero or positive. */
  function Compare(a: string, b: string): int {
    if a == [] then if b == [] then 0 else -1
    else if b == [] then 1
    else if a[0] != b[0] then if a[0] < b[0] then -1 else 1
    else Compare(a[1..], b[1..])
  }

  /** The order is that of the first character that differs, and a beginning comes before what it begins. */
  lemma {:induction false} CompareFirst(p: string, a: string, b: string)
    requires b != [] && (a == [] || a[0] < b[0])
    ensures Compare(p + a, p + b) < 0 < Compare(p + b, p + a)
  {
    if p == [] {
      assert p + a == a && p + b == b;
    } else {
      CompareFirst(p[1..], a, b);
      assert (p + a)[1..] == p[1..] + a && (p + b)[1..] == p[1..] + b;
    }
  }

  lemma {:induction false} CompareEqual(a: string, b: string)
    ensures Compare(a, b) == 0 <==> a == b
  {
    if a != [] && b != [] {
      CompareEqual(a[1..], b[1..]);
      assert a == [a[0]] + a[1..] && b == [b[0]] + b[1..];
    }
  }

  lemma {:induction false} CompareLess(a: string, b: string, c: string)
    ensures Compare(a, b) < 0 && Compare(b, c) < 0 ==> Compare(a, c) < 0
    ensures Compare(a, b) < 0 <==> Compare(b, a) > 0
  {
    if a != [] && b != [] {
      CompareLess(a[1..], b[1..], if c == [] then [] else c[1..]);
    }
  }

  ghost predicate Sorted(ns: seq<Name>) {
    forall i, j :: 0 <= i < j < |ns| ==> Compare(ns[i].name, ns[j].name) < 0
  }

  /** The handle a name stands for, or 0. */
  ghost function Find(ns: seq<Name>, name: string): nat {
    if ns == [] then 0 else if ns[0].name == name then ns[0].handle else Find(ns[1..], name)
  }

  lemma {:induction false} FindAt(ns: seq<Name>, i: nat)
    requires Sorted(ns) && i < |ns|
    ensures Find(ns, ns[i].name) == ns[i].handle
  {
    if i > 0 {
      FindAt(ns[1..], i - 1);
      CompareEqual(ns[0].name, ns[i].name);
      assert Compare(ns[0].name, ns[i].name) < 0;
    }
  }

  lemma {:induction false} FindNone(ns: seq<Name>, name: string)
    requires forall i :: 0 <= i < |ns| ==> ns[i].name != name
    ensures Find(ns, name) == 0
  {
    if ns != [] {
      FindNone(ns[1..], name);
    }
  }

  ghost predicate Split(ns: seq<Name>, name: string, at: nat) {
    && at <= |ns|
    && (forall i :: 0 <= i < at ==> Compare(ns[i].name, name) < 0)
    && (forall i :: at <= i < |ns| ==> Compare(ns[i].name, name) > 0)
  }

  lemma SplitMissing(ns: seq<Name>, name: string, at: nat)
    requires Split(ns, name, at)
    ensures forall i :: 0 <= i < |ns| ==> ns[i].name != name
  {
    forall i | 0 <= i < |ns|
      ensures ns[i].name != name
    {
      CompareEqual(ns[i].name, name);
    }
  }

  ghost function InsertAt(ns: seq<Name>, at: nat, n: Name): seq<Name>
    requires at <= |ns|
  {
    ns[..at] + [n] + ns[at..]
  }

  lemma InsertSorted(ns: seq<Name>, at: nat, n: Name)
    requires Sorted(ns) && Split(ns, n.name, at)
    ensures Sorted(InsertAt(ns, at, n))
  {
    hide Compare;
    var r := InsertAt(ns, at, n);
    forall i, j | 0 <= i < j < |r|
      ensures Compare(r[i].name, r[j].name) < 0
    {
      CompareLess(n.name, ns[if j > at then j - 1 else 0].name, n.name);
      assert r[i] == if i < at then ns[i] else if i == at then n else ns[i - 1];
      assert r[j] == if j < at then ns[j] else if j == at then n else ns[j - 1];
    }
  }

  /** The names left when a handle is gone. */
  ghost function Without(ns: seq<Name>, handle: nat): seq<Name> {
    if ns == [] then [] else
    var r := Without(ns[..|ns| - 1], handle);
    if ns[|ns| - 1].handle == handle then r else r + [ns[|ns| - 1]]
  }

  lemma {:induction false} WithoutHas(ns: seq<Name>, handle: nat)
    ensures |Without(ns, handle)| <= |ns|
    ensures forall n :: n in Without(ns, handle) <==> n in ns && n.handle != handle
  {
    if ns != [] {
      var m := |ns| - 1;
      WithoutHas(ns[..m], handle);
      assert ns == ns[..m] + [ns[m]];
    }
  }

  lemma {:induction false} WithoutSorted(ns: seq<Name>, handle: nat)
    requires Sorted(ns)
    ensures Sorted(Without(ns, handle))
  {
    hide Compare;
    if ns != [] {
      var m := |ns| - 1;
      WithoutSorted(ns[..m], handle);
      WithoutHas(ns[..m], handle);
      SortedLast(ns, Without(ns[..m], handle));
    }
  }

  lemma SortedLast(ns: seq<Name>, r: seq<Name>)
    requires ns != [] && Sorted(ns) && Sorted(r) && forall n :: n in r ==> n in ns[..|ns| - 1]
    ensures Sorted(r + [ns[|ns| - 1]])
  {
    hide Compare;
    var m := |ns| - 1;
    forall i | 0 <= i < |r|
      ensures Compare(r[i].name, ns[m].name) < 0
    {
      assert r[i] in r;
      var j :| 0 <= j < m && ns[..m][j] == r[i];
      assert ns[j] == r[i];
    }
  }

  /** A retired handle has no name, and every other name stands for what it stood for. */
  lemma FindWithout(ns: seq<Name>, handle: nat, x: string)
    requires Sorted(ns) && handle != 0
    ensures Find(Without(ns, handle), x) == if Find(ns, x) == handle then 0 else Find(ns, x)
  {
    hide Compare, Find, Without, Sorted;
    var r := Without(ns, handle);
    WithoutHas(ns, handle);
    WithoutSorted(ns, handle);
    if i :| 0 <= i < |ns| && ns[i].name == x {
      FindAt(ns, i);
      if ns[i].handle != handle {
        assert ns[i] in r;
        var j :| 0 <= j < |r| && r[j] == ns[i];
        FindAt(r, j);
      } else {
        forall j | 0 <= j < |r|
          ensures r[j].name != x
        {
          assert r[j] in r;
          OneName(ns, i, r[j]);
        }
        FindNone(r, x);
      }
    } else {
      FindNone(ns, x);
      forall j | 0 <= j < |r|
        ensures r[j].name != x
      {
        assert r[j] in r && r[j] in ns;
      }
      FindNone(r, x);
    }
  }

  lemma OneName(ns: seq<Name>, i: nat, n: Name)
    requires Sorted(ns) && i < |ns| && n in ns
    ensures n.name == ns[i].name ==> n == ns[i]
  {
    var j :| 0 <= j < |ns| && ns[j] == n;
    if i != j {
      OtherName(ns, i, j);
    }
  }

  lemma OtherName(ns: seq<Name>, i: nat, j: nat)
    requires Sorted(ns) && i < |ns| && j < |ns| && i != j
    ensures ns[i].name != ns[j].name
  {
    hide Compare;
    CompareEqual(ns[i].name, ns[j].name);
    CompareEqual(ns[j].name, ns[i].name);
  }

  lemma WithoutNone(ns: seq<Name>, handle: nat)
    ensures Without(ns[..0], handle) == []
  {
  }

  lemma WithoutNext(ns: seq<Name>, i: nat, handle: nat)
    requires i < |ns|
    ensures Without(ns[..i + 1], handle) ==
            if ns[i].handle == handle then Without(ns[..i], handle) else Without(ns[..i], handle) + [ns[i]]
  {
    assert ns[..i + 1][..i] == ns[..i];
  }

  /** One name moves up by one place. */
  lemma ShiftOne(t: seq<Name>, ns: seq<Name>, i: nat)
    requires 0 < i <= |ns| < |t| && t[..i] == ns[..i] && t[i + 1..|ns| + 1] == ns[i..]
    ensures var t' := t[i := t[i - 1]]; t'[..i - 1] == ns[..i - 1] && t'[i..|ns| + 1] == ns[i - 1..]
  {
    var t' := t[i := t[i - 1]];
    assert t[i - 1] == t[..i][i - 1] == ns[i - 1];
    assert t'[..i - 1] == t[..i][..i - 1];
    assert t'[i..|ns| + 1] == [ns[i - 1]] + t[i + 1..|ns| + 1];
  }

  const MAX_SLOT_SIZE: nat := 0x4000_0000

  /** What naming a handle comes to; `Full` is the assertion that bounds the table. */
  datatype Naming = Named | Refused | Full

  class NameTable {
    var table: array<Name>
    var count: nat

    ghost predicate Valid()
      reads this, table
    {
      0 < table.Length <= MAX_SLOT_SIZE && count <= table.Length && Sorted(table[..count])
    }

    ghost function Names(): seq<Name>
      requires count <= table.Length
      reads this, table
    {
      table[..count]
    }

    constructor ()
      ensures Valid() && Names() == [] && fresh(table) && table.Length == 2
    {
      table, count := new Name[2](_ => Name("", 0)), 0;
    }

    /** The binary search that finding and inserting share. */
    method Search(name: string) returns (found: bool, at: nat)
      requires Valid()
      ensures found ==> at < count && table[at].name == name
      ensures !found ==> Split(Names(), name, at)
    {
      hide Compare;
      ghost var ns := Names();
      var begin, end := 0, count - 1;
      while begin <= end
        invariant 0 <= begin <= end + 1 <= count
        invariant forall i :: 0 <= i < begin ==> Compare(ns[i].name, name) < 0
        invariant forall i :: end < i < count ==> Compare(ns[i].name, name) > 0
      {
        var mid := (begin + end) / 2;
        assert table[mid] == ns[mid];
        var c := Compare(table[mid].name, name);
        if c == 0 {
          CompareEqual(table[mid].name, name);
          return true, mid;
        }
        forall i | 0 <= i < count
          ensures i <= mid && c < 0 ==> Compare(ns[i].name, name) < 0
          ensures i >= mid && c > 0 ==> Compare(ns[i].name, name) > 0
        {
          CompareLess(ns[i].name, ns[mid].name, name);
          CompareLess(name, ns[mid].name, ns[i].name);
          CompareLess(ns[mid].name, name, name);
          CompareLess(ns[i].name, name, name);
          CompareLess(name, ns[mid].name, name);
          CompareLess(name, ns[i].name, name);
        }
        if c < 0 {
          begin := mid + 1;
        } else {
          end := mid - 1;
        }
      }
      return false, begin;
    }

    /** `skynet_handle_findname`: the handle of a name, 0 if there is none. */
    method FindName(name: string) returns (handle: nat)
      requires Valid()
      ensures handle == Find(Names(), name)
    {
      hide Compare;
      var found, at := Search(name);
      if found {
        FindAt(Names(), at);
        return table[at].handle;
      }
      SplitMissing(Names(), name, at);
      FindNone(Names(), name);
      return 0;
    }

    /** `_insert_name_before`: by shifting, or by copying to a table twice the size. */
    method InsertBefore(n: Name, before: nat) returns (fits: bool)
      requires count <= table.Length && 0 < table.Length && before <= count
      modifies this, table
      ensures fits <==> old(count) < old(table.Length) || 2 * old(table.Length) <= 0x4000_0000
      ensures !fits ==> count == old(count) && table == old(table) && table[..] == old(table[..])
      ensures fits ==> count == old(count) + 1 <= table.Length && (table == old(table) || fresh(table))
      ensures fits ==> Names() == InsertAt(old(Names()), before, n)
      ensures table.Length == if fits && old(count) == old(table.Length) then 2 * old(table.Length) else old(table.Length)
    {
      fits := true;
      if count >= table.Length {
        if table.Length * 2 > MAX_SLOT_SIZE {
          return false;
        }
        table := Spread(before);
      } else {
        Shift(before);
      }
      table[before] := n;
      count := count + 1;
      assert table[..count] == table[..before] + [table[before]] + table[before + 1..count];
    }

    /** A copy in a table twice the size, with a gap at `before`. */
    method Spread(before: nat) returns (t: array<Name>)
      requires count == table.Length > 0 && before <= count
      ensures fresh(t) && t.Length == 2 * table.Length
      ensures t[..before] == Names()[..before] && t[before + 1..count + 1] == Names()[before..]
    {
      t := new Name[2 * table.Length](_ => Name("", 0));
      for i := 0 to before
        invariant t[..i] == table[..i]
      {
        t[i] := table[i];
      }
      for i := before to count
        invariant t[..before] == table[..before] && t[before + 1..i + 1] == table[before..i]
      {
        ghost var done := t[before + 1..i + 1];
        t[i + 1] := table[i];
        assert t[before + 1..i + 2] == done + [table[i]];
      }
    }

    /** A gap at `before`, in place. */
    method Shift(before: nat)
      requires count < table.Length && before <= count
      modifies table
      ensures table[..before] == old(Names()[..before]) && table[before + 1..count + 1] == old(Names()[before..])
    {
      ghost var ns := Names();
      var i := count;
      while i > before
        invariant before <= i <= count && table[..i] == ns[..i] && table[i + 1..count + 1] == ns[i..]
      {
        ghost var t := table[..];
        assert t[..i] == table[..i] && t[i + 1..count + 1] == table[i + 1..count + 1];
        ShiftOne(t, ns, i);
        table[i] := table[i - 1];
        assert table[..] == t[i := t[i - 1]];
        assert table[..i - 1] == table[..][..i - 1] && table[i..count + 1] == table[..][i..count + 1];
        i := i - 1;
      }
    }

    /** `skynet_handle_namehandle`: a name once given is not given again. */
    method NameHandle(handle: nat, name: string) returns (r: Naming)
      requires Valid()
      modifies this, table
      ensures Valid() && (table == old(table) || fresh(table))
      ensures r.Refused? <==> exists n :: n in old(Names()) && n.name == name
      ensures r.Full? ==> old(count) == old(table.Length) > 0x2000_0000
      ensures r.Named? ==> old(count) < old(table.Length) || old(table.Length) <= 0x2000_0000
      ensures r.Named? ==> forall x :: Find(Names(), x) == if x == name then handle else old(Find(Names(), x))
      ensures !r.Named? ==> Names() == old(Names())
    {
      hide Compare, Find, Sorted;
      ghost var ns := Names();
      var found, at := Search(name);
      if found {
        assert ns[at] in ns;
        return Refused;
      }
      SplitMissing(ns, name, at);
      InsertSorted(ns, at, Name(name, handle));
      var fits := InsertBefore(Name(name, handle), at);
      if !fits {
        return Full;
      }
      forall x
        ensures Find(Names(), x) == if x == name then handle else Find(ns, x)
      {
        FindInserted(ns, at, Name(name, handle), x);
      }
      r := Named;
    }

    /** The part of `skynet_handle_retire` that drops the names of a handle, in place. */
    method DropNames(handle: nat)
      requires Valid()
      modifies this, table
      ensures Valid() && table == old(table) && Names() == Without(old(Names()), handle)
      ensures handle != 0 ==>
                forall x :: Find(Names(), x) == if old(Find(Names(), x)) == handle then 0 else old(Find(Names(), x))
    {
      hide Compare, Sorted, Without, Find;
      ghost var ns := Names();
      WithoutSorted(ns, handle);
      var i, j, n := 0, 0, count;
      WithoutNone(ns, handle);
      while i < n
        invariant 0 <= j <= i <= n == count && table == old(table) && count == old(count)
        invariant table[..j] == Without(ns[..i], handle) && table[i..n] == ns[i..]
      {
        WithoutNext(ns, i, handle);
        assert table[i] == table[i..n][0] == ns[i];
        ghost var up, low := table[i + 1..n], table[..j];
        assert up == table[i..n][1..] == ns[i + 1..];
        if table[i].handle != handle {
          if i != j {
            table[j] := table[i];
          }
          j := j + 1;
          assert table[..j] == low + [ns[i]];
        }
        assert table[i + 1..n] == up;
        i := i + 1;
      }
      assert ns[..n] == ns;
      count := j;
      if handle != 0 {
        forall x
          ensures Find(Names(), x) == if Find(ns, x) == handle then 0 else Find(ns, x)
        {
          FindWithout(ns, handle, x);
        }
      }
    }
  }

  /** An inserted name is found, and the others as before. */
  lemma {:induction false} FindInserted(ns: seq<Name>, at: nat, n: Name, x: string)
    requires at <= |ns| && forall i :: 0 <= i < |ns| ==> ns[i].name != n.name
    ensures Find(InsertAt(ns, at, n), x) == if x == n.name then n.handle else Find(ns, x)
    decreases at
  {
    var r := InsertAt(ns, at, n);
    if at == 0 {
      assert r == [n] + ns && r[1..] == ns;
    } else {
      assert r[0] == ns[0] && r[1..] == InsertAt(ns[1..], at - 1, n);
      FindInserted(ns[1..], at - 1, n, x);
    }
  }
}
