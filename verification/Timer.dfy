/** The hierarchical timer wheel: 256 near slots and four levels of 64 slots, over a 32-bit clock.

    Words are natural numbers below 2^32. With m a power of two, `x | (m-1)` is written `OrLow(x, m)`,
    `x & (m-1)` is `x % m`, and a right shift is a division by a power of two.

    The reference is a plain list of (deadline, event) pairs over an unbounded clock. */
module Timer {
  import opened Arith

  const WORD := 0x1_0000_0000
  const HALF := 0x8000_0000
  const TIME_NEAR := 0x100
  const TIME_LEVEL := 0x40

  datatype Event = Event(handle: nat, session: int)

  /** A node of the wheel: only the low 32 bits of its deadline are stored. */
  datatype Node = Node(expire: nat, event: Event)

  /** What the reference keeps about a timer: the tick, counted from start-up, on which it is due. */
  datatype Entry = Entry(deadline: nat, event: Event)

  /** A timer asked for by another thread while the wheel's lock is free. */
  datatype Request = Request(delay: nat, event: Event)

  /** One locked operation of a run: an addition, or a tick with the requests made while it dispatches. */
  datatype Op = Add(event: Event, delay: nat) | Tick(window: seq<Request>)

  datatype Slot = Near(idx: nat) | Level(lvl: nat, idx: nat)

  predicate InRange(s: Slot) {
    match s
    case Near(i) => i < TIME_NEAR
    case Level(l, i) => l < 4 && i < TIME_LEVEL
  }

  function OrLow(x: nat, m: nat): nat
    requires 0 < m
  {
    x / m * m + (m - 1)
  }

  /** All low bits set, the others as they were. */
  lemma OrLowIs(x: nat, m: nat)
    requires 0 < m
    ensures OrLow(x, m) / m == x / m && OrLow(x, m) % m == m - 1
  {
    DivUnique(OrLow(x, m), m, x / m, m - 1);
  }

  /** The block size covered by one slot of level `i`; level `i` as a whole covers `Width(i + 1)`. */
  function Width(i: nat): (w: nat)
    requires i <= 4
    ensures 0 < w
  {
    if i == 0 then 0x100
    else if i == 1 then 0x4000
    else if i == 2 then 0x10_0000
    else if i == 3 then 0x400_0000
    else WORD
  }

  /** The slot `AddNode` picks, as a function of the node's word and the clock's word. */
  function SlotOf(expire: nat, time: nat): Slot {
    if OrLow(expire, TIME_NEAR) == OrLow(time, TIME_NEAR) then Near(expire % TIME_NEAR)
    else LevelFrom(expire, time, 0)
  }

  /** The lowest level from `i` up whose block holds both words. */
  function LevelFrom(expire: nat, time: nat, i: nat): Slot
    requires i <= 3
    decreases 3 - i
  {
    if i == 3 || OrLow(expire, Width(i + 1)) == OrLow(time, Width(i + 1)) then
      Level(i, expire / Width(i) % TIME_LEVEL)
    else
      LevelFrom(expire, time, i + 1)
  }

  /** `Level(3, 0)` at the wrap of the clock; otherwise the one list that a carry out of the low bits
      of the new clock word brings down; `None` when nothing cascades. */
  datatype Cascade = None | From(slot: Slot)

  function CascadeOf(ct: nat): Cascade {
    if ct == 0 then From(Level(3, 0))
    else if ct % TIME_NEAR != 0 then None
    else CarryFrom(ct, 0)
  }

  function CarryFrom(ct: nat, i: nat): Cascade
    requires i <= 3
    decreases 3 - i
  {
    var idx := ct / Width(i) % TIME_LEVEL;
    if i == 3 || idx != 0 then From(Level(i, idx)) else CarryFrom(ct, i + 1)
  }

  // ---------------------------------------------------------------------------------------------
  // The reference: a list in order of insertion
  // ---------------------------------------------------------------------------------------------

  /** The events of `log` that are due exactly at tick `k`, in order of insertion. */
  ghost function DueAt(log: seq<Entry>, k: nat): seq<Event> {
    if log == [] then []
    else
      var e, rest := log[|log| - 1], DueAt(log[..|log| - 1], k);
      if e.deadline == k then rest + [e.event] else rest
  }

  /** Every entry still to fire after tick `since` lies less than 2^31 ticks ahead of `now`. */
  ghost predicate Bounded(log: seq<Entry>, since: nat, now: nat) {
    forall i :: 0 <= i < |log| && since < log[i].deadline ==> now <= log[i].deadline < now + HALF
  }

  ghost predicate Sits(e: Entry, since: nat, now: nat, s: Slot) {
    since < e.deadline && SlotOf(e.deadline % WORD, now % WORD) == s
  }

  /** The nodes for the entries of `log` that are due after `since` and belong in slot `s` at tick `now`. */
  ghost function Select(log: seq<Entry>, since: nat, now: nat, s: Slot): seq<Node> {
    if log == [] then []
    else
      var e, rest := log[|log| - 1], Select(log[..|log| - 1], since, now, s);
      if Sits(e, since, now, s) then rest + [Node(e.deadline % WORD, e.event)] else rest
  }

  /** The nodes of `list` that `AddNode` would put into slot `s`. */
  ghost function Moved(list: seq<Node>, time: nat, s: Slot): seq<Node> {
    if list == [] then []
    else
      var n, rest := list[|list| - 1], Moved(list[..|list| - 1], time, s);
      if SlotOf(n.expire, time) == s then rest + [n] else rest
  }

  ghost function Entries(rs: seq<Request>, now: nat): seq<Entry> {
    if rs == [] then []
    else Entries(rs[..|rs| - 1], now) + [Entry(now + rs[|rs| - 1].delay, rs[|rs| - 1].event)]
  }

  predicate InTime(delay: nat) {
    1 <= delay < 0x8000_0000
  }

  predicate Allowed(op: Op) {
    match op
    case Add(_, delay) => InTime(delay)
    case Tick(window) => forall i :: 0 <= i < |window| ==> InTime(window[i].delay)
  }

  /** What a run asks for, on the unbounded clock: each addition is due `delay` ticks after the tick at
      which it was made. Requests made while a tick dispatches count from that tick. */
  ghost function Asked(log: seq<Entry>, now: nat, ops: seq<Op>): (seq<Entry>, nat)
  {
    if ops == [] then (log, now)
    else
      var (log', now') := Asked(log, now, ops[..|ops| - 1]);
      match ops[|ops| - 1]
      case Add(event, delay) => (log' + [Entry(now' + delay, event)], now')
      case Tick(window) =>
        (log' + (if DueAt(log', now' + 1) == [] then [] else Entries(window, now' + 1)), now' + 1)
  }

  lemma {:induction false} EntriesLater(rs: seq<Request>, now: nat)
    requires forall i :: 0 <= i < |rs| ==> InTime(rs[i].delay)
    ensures forall i :: 0 <= i < |Entries(rs, now)| ==> now < Entries(rs, now)[i].deadline
  {
    if rs != [] {
      EntriesLater(rs[..|rs| - 1], now);
    }
  }

  /** The i-th timer ever added is dispatched at its own deadline, at the position given by the earlier
      timers with the same deadline. */
  lemma {:induction false} DuePosition(log: seq<Entry>, i: nat)
    requires i < |log|
    ensures |DueAt(log[..i], log[i].deadline)| < |DueAt(log, log[i].deadline)|
    ensures DueAt(log, log[i].deadline)[|DueAt(log[..i], log[i].deadline)|] == log[i].event
  {
    var init := log[..|log| - 1];
    if i < |log| - 1 {
      assert init[..i] == log[..i];
      DuePosition(init, i);
    }
  }

  /** No two timers share a position of one tick's output, and equal deadlines keep insertion order. */
  lemma {:induction false} DueOrder(log: seq<Entry>, i: nat, j: nat)
    requires i < j < |log| && log[i].deadline == log[j].deadline
    ensures |DueAt(log[..i], log[i].deadline)| < |DueAt(log[..j], log[j].deadline)|
  {
    assert log[..j][..i] == log[..i];
    DuePosition(log[..j], i);
  }

  /** Nothing is dispatched twice or invented: what fires by tick `k` is as many events as there are
      timers due by then. */
  ghost function FiredBy(log: seq<Entry>, k: nat): nat {
    |DueAt(log, k)| + if k == 0 then 0 else FiredBy(log, k - 1)
  }

  ghost function CountBy(log: seq<Entry>, k: nat): nat {
    if log == [] then 0
    else CountBy(log[..|log| - 1], k) + if log[|log| - 1].deadline <= k then 1 else 0
  }

  lemma {:induction false} Conserved(log: seq<Entry>, k: nat)
    ensures FiredBy(log, k) == CountBy(log, k)
    decreases |log|, k
  {
    if log == [] {
      if k > 0 { Conserved(log, k - 1); }
    } else {
      Conserved(log[..|log| - 1], k);
      FiredBySnoc(log, k);
    }
  }

  lemma {:induction false} FiredBySnoc(log: seq<Entry>, k: nat)
    requires log != []
    ensures FiredBy(log, k) == FiredBy(log[..|log| - 1], k) + if log[|log| - 1].deadline <= k then 1 else 0
  {
    if k > 0 { FiredBySnoc(log, k - 1); }
  }

  // ---------------------------------------------------------------------------------------------
  // Arithmetic of the wheel
  // ---------------------------------------------------------------------------------------------

  /** The near slot of tick `now`. */
  ghost function Current(now: nat): (s: Slot)
    ensures InRange(s)
  {
    Near(now % WORD % TIME_NEAR)
  }

  /** A timer is in the current near slot exactly when it is due now. */
  lemma CurrentSlot(d: nat, now: nat)
    requires now <= d < now + HALF
    ensures SlotOf(d % WORD, now % WORD) == Current(now) <==> d == now
  {
    var x, t := d % WORD, now % WORD;
    if SlotOf(x, t) == Near(t % TIME_NEAR) {
      assert x == x / 0x100 * 0x100 + x % 0x100;
      assert t == t / 0x100 * 0x100 + t % 0x100;
      assert x == t;
    }
  }

  /** The words of `now` and of the next tick. */
  lemma NextWord(now: nat)
    ensures (now + 1) % WORD == if now % WORD == WORD - 1 then 0 else now % WORD + 1
  {
  }

  /** The distance of a pending word ahead of the clock word: no wrap, or a wrap past zero. */
  lemma Ahead(d: nat, now: nat)
    requires now < d < now + HALF
    ensures now % WORD < d % WORD < now % WORD + HALF || d % WORD + WORD - now % WORD < HALF
  {
    var q := now / WORD;
    assert now == q * WORD + now % WORD;
    if d / WORD == q {
    } else {
      assert d / WORD == q + 1;
    }
  }

  /** A clock word in mixed radix: one digit for each level of the wheel and one for the near slots. */
  datatype Digits = Digits(d3: nat, d2: nat, d1: nat, d0: nat, low: nat)

  ghost predicate IsDigits(g: Digits) {
    g.d3 < 64 && g.d2 < 64 && g.d1 < 64 && g.d0 < 64 && g.low < 256
  }

  ghost function Word(g: Digits): nat {
    (((g.d3 * 64 + g.d2) * 64 + g.d1) * 64 + g.d0) * 256 + g.low
  }

  lemma ToDigits(x: nat) returns (g: Digits)
    requires x < WORD
    ensures IsDigits(g) && Word(g) == x
  {
    var q0 := x / 256;
    var q1 := q0 / 64;
    var q2 := q1 / 64;
    g := Digits(q2 / 64, q2 % 64, q1 % 64, q0 % 64, x % 256);
  }

  /** Division by the width of a level drops the digits below it. */
  lemma Quotients(g: Digits)
    requires IsDigits(g)
    ensures Word(g) % Width(0) == g.low
    ensures Word(g) / Width(0) == ((g.d3 * 64 + g.d2) * 64 + g.d1) * 64 + g.d0
    ensures Word(g) / Width(1) == (g.d3 * 64 + g.d2) * 64 + g.d1
    ensures Word(g) / Width(2) == g.d3 * 64 + g.d2
    ensures Word(g) / Width(3) == g.d3
  {
    var r1 := g.d0 * 256 + g.low;
    var r2 := g.d1 * 0x4000 + r1;
    var r3 := g.d2 * 0x10_0000 + r2;
    DivUnique(Word(g), Width(0), ((g.d3 * 64 + g.d2) * 64 + g.d1) * 64 + g.d0, g.low);
    DivUnique(Word(g), Width(1), (g.d3 * 64 + g.d2) * 64 + g.d1, r1);
    DivUnique(Word(g), Width(2), g.d3 * 64 + g.d2, r2);
    DivUnique(Word(g), Width(3), g.d3, r3);
  }

  lemma SameBlock(x: nat, y: nat, m: nat)
    requires 0 < m
    ensures OrLow(x, m) == OrLow(y, m) <==> x / m == y / m
  {
    var a, b := x / m, y / m;
    if a < b { MulLess(a, b, m); } else if b < a { MulLess(b, a, m); }
  }

  ghost function SlotByDigits(x: Digits, t: Digits): Slot {
    if x.d3 != t.d3 then Level(3, x.d3)
    else if x.d2 != t.d2 then Level(2, x.d2)
    else if x.d1 != t.d1 then Level(1, x.d1)
    else if x.d0 != t.d0 then Level(0, x.d0)
    else Near(x.low)
  }

  ghost function CascadeByDigits(c: Digits): Cascade {
    if c.low != 0 then None
    else if c.d0 != 0 then From(Level(0, c.d0))
    else if c.d1 != 0 then From(Level(1, c.d1))
    else if c.d2 != 0 then From(Level(2, c.d2))
    else From(Level(3, c.d3))
  }

  /** The slot by whole quotients: the lowest level whose block holds both words. */
  lemma SlotQuotients(x: nat, t: nat)
    ensures SlotOf(x, t) ==
            if x / Width(0) == t / Width(0) then Near(x % Width(0))
            else if x / Width(1) == t / Width(1) then Level(0, x / Width(0) % TIME_LEVEL)
            else if x / Width(2) == t / Width(2) then Level(1, x / Width(1) % TIME_LEVEL)
            else if x / Width(3) == t / Width(3) then Level(2, x / Width(2) % TIME_LEVEL)
            else Level(3, x / Width(3) % TIME_LEVEL)
  {
    SameBlock(x, t, Width(0));
    SameBlock(x, t, Width(1));
    SameBlock(x, t, Width(2));
    SameBlock(x, t, Width(3));
  }

  lemma LowDigits(g: Digits)
    requires IsDigits(g)
    ensures Word(g) / Width(0) % TIME_LEVEL == g.d0
    ensures Word(g) / Width(1) % TIME_LEVEL == g.d1
    ensures Word(g) / Width(2) % TIME_LEVEL == g.d2
    ensures Word(g) / Width(3) % TIME_LEVEL == g.d3
  {
    Quotients(g);
    DivUnique(Word(g) / Width(0), 64, (g.d3 * 64 + g.d2) * 64 + g.d1, g.d0);
    DivUnique(Word(g) / Width(1), 64, g.d3 * 64 + g.d2, g.d1);
    DivUnique(Word(g) / Width(2), 64, g.d3, g.d2);
    DivUnique(g.d3, 64, 0, g.d3);
  }

  lemma SamePrefix(x: Digits, t: Digits)
    requires IsDigits(x) && IsDigits(t)
    ensures Word(x) / Width(3) == Word(t) / Width(3) <==> x.d3 == t.d3
    ensures Word(x) / Width(2) == Word(t) / Width(2) <==> x.d3 == t.d3 && x.d2 == t.d2
    ensures Word(x) / Width(1) == Word(t) / Width(1) <==> x.d3 == t.d3 && x.d2 == t.d2 && x.d1 == t.d1
    ensures Word(x) / Width(0) == Word(t) / Width(0) <==>
            x.d3 == t.d3 && x.d2 == t.d2 && x.d1 == t.d1 && x.d0 == t.d0
  {
    Quotients(x);
    Quotients(t);
  }

  /** A node's slot is named by the highest digit in which it differs from the clock. */
  lemma SlotDigits(x: Digits, t: Digits)
    requires IsDigits(x) && IsDigits(t)
    ensures SlotOf(Word(x), Word(t)) == SlotByDigits(x, t)
  {
    SlotQuotients(Word(x), Word(t));
    SamePrefix(x, t);
    LowDigits(x);
    Quotients(x);
  }

  lemma CascadeDigits(c: Digits)
    requires IsDigits(c)
    ensures CascadeOf(Word(c)) == CascadeByDigits(c)
  {
    Quotients(c);
    LowDigits(c);
  }

  ghost function Succ(t: Digits): Digits {
    if t.low < 255 then t.(low := t.low + 1)
    else if t.d0 < 63 then t.(low := 0, d0 := t.d0 + 1)
    else if t.d1 < 63 then t.(low := 0, d0 := 0, d1 := t.d1 + 1)
    else if t.d2 < 63 then t.(low := 0, d0 := 0, d1 := 0, d2 := t.d2 + 1)
    else if t.d3 < 63 then Digits(t.d3 + 1, 0, 0, 0, 0)
    else Digits(0, 0, 0, 0, 0)
  }

  lemma SuccWord(t: Digits)
    requires IsDigits(t)
    ensures IsDigits(Succ(t))
    ensures Word(Succ(t)) == if Word(t) == WORD - 1 then 0 else Word(t) + 1
  {
  }

  ghost predicate PendingWord(x: nat, t: nat) {
    t < x < t + HALF || x + WORD - t < HALF
  }

  ghost predicate Later(x: Digits, t: Digits) {
    || x.d3 != t.d3
    || t.d2 < x.d2
    || (t.d2 == x.d2 && t.d1 < x.d1)
    || (t.d2 == x.d2 && t.d1 == x.d1 && t.d0 < x.d0)
    || (t.d2 == x.d2 && t.d1 == x.d1 && t.d0 == x.d0 && t.low < x.low)
  }

  lemma PendingDigits(x: Digits, t: Digits)
    requires IsDigits(x) && IsDigits(t) && PendingWord(Word(x), Word(t))
    ensures Later(x, t)
  {
    if x.d3 == t.d3 {
      var x2, t2 := x.d3 * 64 + x.d2, t.d3 * 64 + t.d2;
      var x1, t1 := x2 * 64 + x.d1, t2 * 64 + t.d1;
      var x0, t0 := x1 * 64 + x.d0, t1 * 64 + t.d0;
      assert Word(x) == x0 * 256 + x.low && Word(t) == t0 * 256 + t.low;
    }
  }

  /** In digits: one tick moves a pending timer exactly when it is in the list that cascades, and
      then into a list that held no pending timer. */
  lemma TickDigits(x: Digits, y: Digits, t: Digits)
    requires IsDigits(x) && IsDigits(y) && IsDigits(t) && Later(x, t) && Later(y, t)
    ensures SlotByDigits(x, Succ(t)) != SlotByDigits(x, t) <==> CascadeByDigits(Succ(t)) == From(SlotByDigits(x, t))
    ensures CascadeByDigits(Succ(t)) == From(SlotByDigits(x, t)) ==> SlotByDigits(y, t) != SlotByDigits(x, Succ(t))
  {
  }

  /** The slot, the next slot and the cascade of a pending word, in digits. */
  lemma WordsToDigits(x: nat, t: nat, ct: nat) returns (gx: Digits, gt: Digits)
    requires x < WORD && t < WORD && PendingWord(x, t)
    requires ct == if t == WORD - 1 then 0 else t + 1
    ensures IsDigits(gx) && IsDigits(gt) && Later(gx, gt) && Word(gx) == x && Word(gt) == t
    ensures SlotOf(x, t) == SlotByDigits(gx, gt)
    ensures SlotOf(x, ct) == SlotByDigits(gx, Succ(gt))
    ensures CascadeOf(ct) == CascadeByDigits(Succ(gt))
  {
    hide SlotOf, CascadeOf, SlotByDigits, CascadeByDigits, Later;
    gx := ToDigits(x);
    gt := ToDigits(t);
    PendingDigits(gx, gt);
    SuccWord(gt);
    SlotDigits(gx, gt);
    SlotDigits(gx, Succ(gt));
    CascadeDigits(Succ(gt));
  }

  lemma SameDigits(a: Digits, b: Digits)
    requires IsDigits(a) && IsDigits(b) && Word(a) == Word(b)
    ensures a == b
  {
    Quotients(a);
    Quotients(b);
    SamePrefix(a, b);
  }

  /** One tick moves a pending timer exactly when it is in the list that cascades. */
  lemma TickWords(x: nat, t: nat, ct: nat)
    requires x < WORD && t < WORD && PendingWord(x, t)
    requires ct == if t == WORD - 1 then 0 else t + 1
    ensures SlotOf(x, ct) != SlotOf(x, t) <==> CascadeOf(ct) == From(SlotOf(x, t))
  {
    var gx, gt := WordsToDigits(x, t, ct);
    TickDigits(gx, gx, gt);
  }

  /** A cascade lands only in lists that held no pending timer. */
  lemma TargetsEmpty(x: nat, y: nat, t: nat, ct: nat)
    requires x < WORD && y < WORD && t < WORD && PendingWord(x, t) && PendingWord(y, t)
    requires ct == if t == WORD - 1 then 0 else t + 1
    requires CascadeOf(ct) == From(SlotOf(x, t))
    ensures SlotOf(y, t) != SlotOf(x, ct)
  {
    var gx, gt := WordsToDigits(x, t, ct);
    var gy, gt' := WordsToDigits(y, t, ct);
    SameDigits(gt, gt');
    TickDigits(gx, gy, gt);
  }

  /** The two facts above for deadlines on the unbounded clock. */
  lemma TickDeadline(d: nat, now: nat)
    requires now < d < now + HALF
    ensures SlotOf(d % WORD, (now + 1) % WORD) != SlotOf(d % WORD, now % WORD) <==>
            CascadeOf((now + 1) % WORD) == From(SlotOf(d % WORD, now % WORD))
  {
    Ahead(d, now);
    NextWord(now);
    TickWords(d % WORD, now % WORD, (now + 1) % WORD);
  }

  lemma TargetDeadline(d: nat, e: nat, now: nat)
    requires now < d < now + HALF && now < e < now + HALF
    requires CascadeOf((now + 1) % WORD) == From(SlotOf(d % WORD, now % WORD))
    ensures SlotOf(e % WORD, now % WORD) != SlotOf(d % WORD, (now + 1) % WORD)
  {
    Ahead(d, now);
    Ahead(e, now);
    NextWord(now);
    TargetsEmpty(d % WORD, e % WORD, now % WORD, (now + 1) % WORD);
  }

  // ---------------------------------------------------------------------------------------------
  // The lists of the wheel as subsequences of the log
  // ---------------------------------------------------------------------------------------------

  lemma {:induction false} SelectEmpty(log: seq<Entry>, since: nat, now: nat, s: Slot)
    requires forall i :: 0 <= i < |log| ==> !Sits(log[i], since, now, s)
    ensures Select(log, since, now, s) == []
  {
    if log != [] {
      SelectEmpty(log[..|log| - 1], since, now, s);
    }
  }

  lemma {:induction false} SelectSame(log: seq<Entry>, since: nat, now: nat, since': nat, now': nat, s: Slot)
    requires forall i :: 0 <= i < |log| ==> (Sits(log[i], since, now, s) <==> Sits(log[i], since', now', s))
    ensures Select(log, since, now, s) == Select(log, since', now', s)
  {
    if log != [] {
      SelectSame(log[..|log| - 1], since, now, since', now', s);
    }
  }

  /** Re-adding the nodes of slot `src` at the next tick picks those whose new slot is `s`. */
  lemma {:induction false} SelectMoved(log: seq<Entry>, now: nat, src: Slot, s: Slot)
    requires forall i :: 0 <= i < |log| && Sits(log[i], now, now + 1, s) ==> Sits(log[i], now, now, src)
    ensures Moved(Select(log, now, now, src), (now + 1) % WORD, s) == Select(log, now, now + 1, s)
  {
    if log != [] {
      var init, e := log[..|log| - 1], log[|log| - 1];
      SelectMoved(init, now, src, s);
      var rest := Select(init, now, now, src);
      if Sits(e, now, now, src) {
        var n := Node(e.deadline % WORD, e.event);
        assert Select(log, now, now, src) == rest + [n];
        assert (rest + [n])[..|rest|] == rest;
      }
    }
  }

  lemma {:induction false} MovedEmpty(log: seq<Entry>, now: nat, src: Slot, s: Slot)
    requires forall i :: 0 <= i < |log| && Sits(log[i], now, now, src) ==> !Sits(log[i], now, now + 1, s)
    ensures Moved(Select(log, now, now, src), (now + 1) % WORD, s) == []
  {
    if log != [] {
      var init, e := log[..|log| - 1], log[|log| - 1];
      MovedEmpty(init, now, src, s);
      var rest := Select(init, now, now, src);
      if Sits(e, now, now, src) {
        var n := Node(e.deadline % WORD, e.event);
        assert Select(log, now, now, src) == rest + [n];
        assert (rest + [n])[..|rest|] == rest;
      }
    }
  }

  /** What one tick does to the contents of slot `s`: it stays, or is brought down by the cascade. */
  ghost function Shifted(log: seq<Entry>, now: nat, s: Slot): seq<Node> {
    var src := CascadeOf((now + 1) % WORD);
    (if src == From(s) then [] else Select(log, now, now, s)) +
    (if src.None? then [] else Moved(Select(log, now, now, src.slot), (now + 1) % WORD, s))
  }

  lemma SelectShifted(log: seq<Entry>, now: nat, s: Slot)
    requires Bounded(log, now, now)
    ensures Select(log, now, now + 1, s) == Shifted(log, now, s)
  {
    var src := CascadeOf((now + 1) % WORD);
    forall i | 0 <= i < |log| && now < log[i].deadline
      ensures Sits(log[i], now, now + 1, s) && src != From(SlotOf(log[i].deadline % WORD, now % WORD)) ==>
              Sits(log[i], now, now, s)
      ensures Sits(log[i], now, now, s) && src != From(s) ==> Sits(log[i], now, now + 1, s)
      ensures Sits(log[i], now, now, s) && src == From(s) ==> !Sits(log[i], now, now + 1, s)
    {
      TickDeadline(log[i].deadline, now);
    }
    if i :| 0 <= i < |log| && Sits(log[i], now, now + 1, s) && src == From(SlotOf(log[i].deadline % WORD, now % WORD)) {
      forall j | 0 <= j < |log|
        ensures !Sits(log[j], now, now, s)
      {
        if now < log[j].deadline {
          TargetDeadline(log[i].deadline, log[j].deadline, now);
        }
      }
      SelectEmpty(log, now, now, s);
      SelectMoved(log, now, src.slot, s);
    } else {
      if src.From? {
        MovedEmpty(log, now, src.slot, s);
      }
      if src == From(s) {
        SelectEmpty(log, now, now + 1, s);
      } else {
        SelectSame(log, now, now + 1, now, now, s);
      }
    }
  }

  /** The current near slot holds exactly the timers that are due, in order of insertion. */
  lemma {:induction false} DueNow(log: seq<Entry>, now: nat)
    requires 0 < now && Bounded(log, now - 1, now)
    ensures Events(Select(log, now - 1, now, Current(now))) == DueAt(log, now)
  {
    if log != [] {
      var init, e := log[..|log| - 1], log[|log| - 1];
      DueNow(init, now);
      if now - 1 < e.deadline {
        CurrentSlot(e.deadline, now);
      }
      var rest, n := Select(init, now - 1, now, Current(now)), Node(e.deadline % WORD, e.event);
      assert (rest + [n])[..|rest|] == rest;
    }
  }

  /** Once the due timers are taken, every other list is as it was. */
  lemma AfterDue(log: seq<Entry>, now: nat, s: Slot)
    requires 0 < now && Bounded(log, now - 1, now)
    ensures Select(log, now, now, s) ==
            if s == Current(now) then [] else Select(log, now - 1, now, s)
  {
    forall i | 0 <= i < |log| && now - 1 < log[i].deadline
      ensures SlotOf(log[i].deadline % WORD, now % WORD) == Current(now) <==> log[i].deadline == now
    {
      CurrentSlot(log[i].deadline, now);
    }
    if s == Current(now) {
      SelectEmpty(log, now, now, s);
    } else {
      SelectSame(log, now, now, now - 1, now, s);
    }
  }

  function Events(list: seq<Node>): (r: seq<Event>)
    ensures |r| == |list|
  {
    if list == [] then [] else Events(list[..|list| - 1]) + [list[|list| - 1].event]
  }

  lemma {:induction false} DueAtAppend(log: seq<Entry>, more: seq<Entry>, k: nat)
    requires forall i :: 0 <= i < |more| ==> more[i].deadline != k
    ensures DueAt(log + more, k) == DueAt(log, k)
  {
    if more == [] {
      assert log + more == log;
    } else {
      assert (log + more)[..|log + more| - 1] == log + more[..|more| - 1];
      DueAtAppend(log, more[..|more| - 1], k);
    }
  }

  // ---------------------------------------------------------------------------------------------
  // Appending to the lists
  // ---------------------------------------------------------------------------------------------

  type Lists = imap<Slot, seq<Node>>

  ghost predicate IsWheel(c: Lists) {
    forall s :: InRange(s) <==> s in c
  }

  ghost function Linked(c: Lists, s: Slot, node: Node): Lists {
    if s in c then c[s := c[s] + [node]] else c
  }

  /** `AddNode` for each node of `list` in turn. */
  ghost function Relinked(c: Lists, list: seq<Node>, time: nat): Lists {
    if list == [] then c
    else
      var n := list[|list| - 1];
      Linked(Relinked(c, list[..|list| - 1], time), SlotOf(n.expire, time), n)
  }

  lemma RelinkedSnoc(c: Lists, list: seq<Node>, k: nat, time: nat)
    requires k < |list|
    ensures Relinked(c, list[..k + 1], time) ==
            Linked(Relinked(c, list[..k], time), SlotOf(list[k].expire, time), list[k])
  {
    assert list[..k + 1][..k] == list[..k];
  }

  lemma {:induction false} RelinkedAt(c: Lists, list: seq<Node>, time: nat, s: Slot)
    requires s in c
    ensures s in Relinked(c, list, time) && Relinked(c, list, time)[s] == c[s] + Moved(list, time, s)
  {
    if list != [] {
      RelinkedAt(c, list[..|list| - 1], time, s);
    }
  }

  /** The whole wheel, computed from the log. */
  ghost function Index(log: seq<Entry>, since: nat, now: nat): Lists {
    if log == [] then imap s | InRange(s) :: []
    else
      var e, rest := log[|log| - 1], Index(log[..|log| - 1], since, now);
      if since < e.deadline then
        Linked(rest, SlotOf(e.deadline % WORD, now % WORD), Node(e.deadline % WORD, e.event))
      else rest
  }

  /** Each list of the index is the subsequence of the log whose slot it is. */
  lemma {:induction false} IndexAt(log: seq<Entry>, since: nat, now: nat)
    ensures forall s :: s in Index(log, since, now) <==> InRange(s)
    ensures forall s :: InRange(s) ==> Index(log, since, now)[s] == Select(log, since, now, s)
  {
    if log != [] {
      IndexAt(log[..|log| - 1], since, now);
    }
  }

  lemma IndexSnoc(log: seq<Entry>, e: Entry, now: nat)
    requires now < e.deadline
    ensures Index(log + [e], now, now) ==
            Linked(Index(log, now, now), SlotOf(e.deadline % WORD, now % WORD), Node(e.deadline % WORD, e.event))
  {
    assert (log + [e])[..|log|] == log;
  }

  /** `IndexSnoc` for a word computed, as the code does, from the clock's word. */
  lemma IndexAdd(log: seq<Entry>, event: Event, delay: nat, now: nat)
    requires InTime(delay) && Bounded(log, now, now)
    ensures Bounded(log + [Entry(now + delay, event)], now, now)
    ensures Index(log + [Entry(now + delay, event)], now, now) ==
            var x := (delay + now % WORD) % WORD;
            Linked(Index(log, now, now), SlotOf(x, now % WORD), Node(x, event))
  {
    AddWord(delay, now);
    IndexSnoc(log, Entry(now + delay, event), now);
  }

  /** What `TimerShift` does to the lists for the new clock word `ct`. */
  ghost function ShiftedLists(c: Lists, ct: nat): Lists {
    match CascadeOf(ct)
    case None => c
    case From(src) => if src in c then Relinked(c[src := []], c[src], ct) else c
  }

  lemma CarryInRange(ct: nat, i: nat)
    requires i <= 3
    ensures CarryFrom(ct, i).From? && InRange(CarryFrom(ct, i).slot) && CarryFrom(ct, i).slot.Level?
    decreases 3 - i
  {
  }

  lemma CascadeInRange(ct: nat)
    ensures CascadeOf(ct).From? ==> InRange(CascadeOf(ct).slot) && CascadeOf(ct).slot.Level?
  {
    CarryInRange(ct, 0);
  }

  lemma {:induction false} RelinkedKeys(c: Lists, list: seq<Node>, time: nat)
    ensures Relinked(c, list, time).Keys == c.Keys
  {
    if list != [] {
      RelinkedKeys(c, list[..|list| - 1], time);
    }
  }

  /** The cascade keeps every list equal to the pending timers whose slot it is. */
  lemma IndexShift(log: seq<Entry>, now: nat)
    requires Bounded(log, now, now)
    ensures Index(log, now, now + 1) == ShiftedLists(Index(log, now, now), (now + 1) % WORD)
  {
    var ct := (now + 1) % WORD;
    var c := Index(log, now, now);
    IndexAt(log, now, now);
    IndexAt(log, now, now + 1);
    CascadeInRange(ct);
    if CascadeOf(ct).From? {
      var src := CascadeOf(ct).slot;
      RelinkedKeys(c[src := []], c[src], ct);
      forall s | InRange(s)
        ensures Select(log, now, now + 1, s) == Relinked(c[src := []], c[src], ct)[s]
      {
        RelinkedAt(c[src := []], c[src], ct, s);
        SelectShifted(log, now, s);
      }
      assert Index(log, now, now + 1) == Relinked(c[src := []], c[src], ct);
    } else {
      forall s | InRange(s)
        ensures Select(log, now, now + 1, s) == Select(log, now, now, s)
      {
        SelectShifted(log, now, s);
      }
      assert Index(log, now, now + 1) == c;
    }
  }

  lemma IndexAfterDue(log: seq<Entry>, now: nat)
    requires 0 < now && Bounded(log, now - 1, now)
    ensures Index(log, now, now) == Index(log, now - 1, now)[Current(now) := []]
  {
    IndexAt(log, now, now);
    IndexAt(log, now - 1, now);
    forall s | InRange(s)
      ensures Select(log, now, now, s) == if s == Current(now) then [] else Select(log, now - 1, now, s)
    {
      AfterDue(log, now, s);
    }
  }

  /** With nothing due left in the wheel, the current near slot is empty. */
  lemma CurrentEmpty(log: seq<Entry>, now: nat)
    requires Bounded(log, now, now)
    ensures Current(now) in Index(log, now, now)
    ensures Index(log, now, now)[Current(now)] == []
  {
    IndexAt(log, now, now);
    forall i | 0 <= i < |log|
      ensures !Sits(log[i], now, now, Current(now))
    {
      if now < log[i].deadline {
        CurrentSlot(log[i].deadline, now);
      }
    }
    SelectEmpty(log, now, now, Current(now));
  }

  /** Taking the current near slot takes exactly what is due and leaves the rest of the wheel right. */
  lemma TakeDue(log: seq<Entry>, since: nat, now: nat)
    requires since <= now <= since + 1 && Bounded(log, since, now)
    ensures Current(now) in Index(log, since, now)
    ensures Events(Index(log, since, now)[Current(now)]) == if since < now then DueAt(log, now) else []
    ensures Index(log, since, now)[Current(now) := []] == Index(log, now, now)
    ensures Bounded(log, now, now)
  {
    hide SlotOf, Select, Index, Current;
    IndexAt(log, since, now);
    if since == now {
      CurrentEmpty(log, now);
      assert Index(log, now, now)[Current(now) := []] == Index(log, now, now);
    } else {
      DueNow(log, now);
      IndexAfterDue(log, now);
    }
  }

  // ---------------------------------------------------------------------------------------------
  // The wheel
  // ---------------------------------------------------------------------------------------------

  /** `log` lists every timer ever added, in order; it only grows. `now` is the unbounded clock.
      Timers due at or before tick `swept` have been dispatched. */
  class Wheel {
    var near: array<seq<Node>>
    var t: array2<seq<Node>>
    var time: nat
    ghost var now: nat
    ghost var swept: nat
    ghost var log: seq<Entry>

    ghost predicate Shape()
      reads this`near, this`t
    {
      near.Length == TIME_NEAR && t.Length0 == 4 && t.Length1 == TIME_LEVEL
    }

    ghost function At(s: Slot): seq<Node>
      requires Shape() && InRange(s)
      reads this`near, this`t, near, t
    {
      match s
      case Near(i) => near[i]
      case Level(l, i) => t[l, i]
    }

    ghost function Contents(): (c: Lists)
      requires Shape()
      ensures IsWheel(c) && forall i :: 0 <= i < TIME_NEAR ==> c[Near(i)] == near[i]
      reads this`near, this`t, near, t
    {
      imap s | InRange(s) :: At(s)
    }

    /** Every list is exactly the pending timers whose slot it is, in order of insertion. */
    ghost predicate Indexed()
      reads this, near, t
    {
      && Shape()
      && time == now % WORD
      && swept <= now <= swept + 1
      && Bounded(log, swept, now)
      && Contents() == Index(log, swept, now)
    }

    /** What holds whenever the lock is free: nothing due is left in the wheel. */
    ghost predicate Valid()
      reads this, near, t
    {
      Indexed() && swept == now
    }

    constructor ()
      ensures Valid() && fresh(near) && fresh(t)
      ensures now == 0 && log == []
    {
      near := new seq<Node>[TIME_NEAR](_ => []);
      t := new seq<Node>[4, TIME_LEVEL]((_, _) => []);
      time, now, swept, log := 0, 0, 0, [];
      new;
      hide SlotOf;
      assert forall s :: InRange(s) ==> At(s) == [];
    }

    /** Appends to the tail of one list. */
    method Link(s: Slot, node: Node)
      requires Shape() && InRange(s)
      modifies near, t
      ensures Contents() == Linked(old(Contents()), s, node)
    {
      match s
      case Near(i) => near[i] := near[i] + [node];
      case Level(l, i) => t[l, i] := t[l, i] + [node];
    }

    method AddNode(node: Node)
      requires Shape() && node.expire < WORD
      modifies near, t
      ensures Contents() == Linked(old(Contents()), SlotOf(node.expire, time), node)
    {
      var x := node.expire;
      if OrLow(x, TIME_NEAR) == OrLow(time, TIME_NEAR) {
        Link(Near(x % TIME_NEAR), node);
      } else {
        var i := 0;
        var mask := TIME_NEAR * TIME_LEVEL;
        while i < 3
          invariant 0 <= i <= 3 && mask == Width(i + 1)
          invariant SlotOf(x, time) == LevelFrom(x, time, i)
          invariant Contents() == old(Contents())
        {
          if OrLow(x, mask) == OrLow(time, mask) {
            break;
          }
          mask := mask * TIME_LEVEL;
          i := i + 1;
        }
        Link(Level(i, x / Width(i) % TIME_LEVEL), node);
      }
    }

    method TimerAdd(event: Event, delay: nat)
      requires Valid() && InTime(delay)
      modifies this`log, near, t
      ensures Valid()
      ensures log == old(log) + [Entry(now + delay, event)]
    {
      hide SlotOf, Index, Linked, Bounded, Contents;
      IndexAdd(log, event, delay, now);
      log := log + [Entry(now + delay, event)];
      AddNode(Node((delay + time) % WORD, event));
    }

    method MoveList(lvl: nat, idx: nat)
      requires Shape() && InRange(Level(lvl, idx))
      requires forall n :: n in Contents()[Level(lvl, idx)] ==> n.expire < WORD
      modifies near, t
      ensures Contents() == Relinked(old(Contents())[Level(lvl, idx) := []], old(Contents())[Level(lvl, idx)], time)
    {
      hide SlotOf;
      assert Contents()[Level(lvl, idx)] == t[lvl, idx];
      var list := t[lvl, idx];
      t[lvl, idx] := [];
      ghost var cut := Contents();
      assert cut == old(Contents())[Level(lvl, idx) := []];
      for k := 0 to |list|
        invariant Contents() == Relinked(cut, list[..k], time)
      {
        RelinkedSnoc(cut, list, k, time);
        AddNode(list[k]);
      }
      assert list[..|list|] == list;
    }

    method TimerShift()
      requires Valid()
      modifies this`time, this`now, near, t
      ensures Indexed() && now == old(now) + 1
    {
      hide SlotOf, CascadeOf, Index, Contents, ShiftedLists;
      NextWord(now);
      IndexShift(log, now);
      ExpiresAreWords(log, now);
      time := if time == WORD - 1 then 0 else time + 1;
      now := now + 1;
      BringDown();
    }

    /** The branches of `TimerShift` after the clock is incremented. The carry loop stops by level 3,
        since `MoveList` accepts no other level, so no shift overflows. */
    method BringDown()
      requires Shape() && time < WORD
      requires forall s, n :: s in Contents() && n in Contents()[s] ==> n.expire < WORD
      modifies near, t
      ensures Contents() == ShiftedLists(old(Contents()), time)
    {
      hide SlotOf, Contents, Relinked, Width, CarryFrom;
      CarryStart(time);
      if time == 0 {
        MoveList(3, 0);
      } else {
        var mask := TIME_NEAR;
        var tm := time / TIME_NEAR;
        var i := 0;
        while time % mask == 0
          invariant 0 <= i <= 3 && mask == Width(i) && tm == time / Width(i)
          invariant i >= 1 ==> time % TIME_NEAR == 0 && time % Width(i) == 0
          invariant time % TIME_NEAR == 0 ==> CascadeOf(time) == CarryFrom(time, i)
          invariant Contents() == old(Contents())
          decreases 3 - i
        {
          var idx := tm % TIME_LEVEL;
          if idx != 0 {
            CarryHit(time, i);
            MoveList(i, idx);
            break;
          }
          CarryStep(time, i);
          mask := mask * TIME_LEVEL;
          tm := tm / TIME_LEVEL;
          i := i + 1;
        }
      }
    }

    /** The lock is released while a list is dispatched, and other threads then make the requests of
        `window`. The loop still runs at most once, and fires exactly what is due. */
    method TimerExecute(window: seq<Request>) returns (fired: seq<Event>)
      requires Indexed()
      requires forall i :: 0 <= i < |window| ==> InTime(window[i].delay)
      modifies this`log, this`swept, near, t
      ensures Valid()
      ensures fired == if old(swept) < now then DueAt(old(log), now) else []
      ensures log == old(log) + (if fired == [] then [] else Entries(window, now))
    {
      hide SlotOf, Select, Index, Bounded, DueAt, Events, Entries, Contents;
      var idx := time % TIME_NEAR;
      fired := [];
      ghost var rounds := 0;
      ghost var due := if swept < now then DueAt(log, now) else [];
      TakeDue(log, swept, now);
      assert near[idx] == Contents()[Near(idx)];
      swept := now;
      while near[idx] != []
        invariant Shape() && time == now % WORD && swept == now && idx == time % TIME_NEAR
        invariant rounds == 0 ==> log == old(log) && fired == [] && Events(near[idx]) == due
        invariant rounds == 0 ==> Bounded(log, now, now) && Contents()[Near(idx) := []] == Index(log, now, now)
        invariant rounds > 0 ==> Valid() && near[idx] == [] && fired == due && fired != []
        invariant rounds > 0 ==> log == old(log) + Entries(window, now)
        decreases |near[idx]|
      {
        var current := LinkClear(idx);
        fired := fired + Events(current);
        Dispatched(window);
        rounds := rounds + 1;
      }
    }

    method LinkClear(idx: nat) returns (list: seq<Node>)
      requires Shape() && idx < TIME_NEAR
      modifies near
      ensures list == old(near[idx])
      ensures Contents() == old(Contents())[Near(idx) := []]
    {
      list := near[idx];
      near[idx] := [];
    }

    /** One tick: the first dispatch finds nothing, and the second fires exactly what is due. */
    method TimerUpdate(window: seq<Request>) returns (early: seq<Event>, fired: seq<Event>)
      requires Valid()
      requires forall i :: 0 <= i < |window| ==> InTime(window[i].delay)
      modifies this`time, this`now, this`log, this`swept, near, t
      ensures Valid() && now == old(now) + 1
      ensures early == [] && fired == DueAt(old(log), now)
      ensures log == old(log) + (if fired == [] then [] else Entries(window, now))
    {
      hide Indexed, DueAt, Entries;
      early := TimerExecute([]);
      assert log == old(log);
      TimerShift();
      fired := TimerExecute(window);
    }

    /** A delay of zero or less sends the reply at once and adds no timer. */
    method Timeout(handle: nat, time: int, session: int, delivered: bool) returns (r: int)
      requires Valid() && time < 0x8000_0000
      modifies this`log, near, t
      ensures Valid()
      ensures time <= 0 ==> log == old(log) && r == if delivered then session else -1
      ensures time > 0 ==> log == old(log) + [Entry(now + time, Event(handle, session))] && r == session
    {
      if time <= 0 {
        return if delivered then session else -1;
      }
      TimerAdd(Event(handle, session), time);
      r := session;
    }

    /** Any interleaving of additions and ticks: the k-th tick fires the timers of the whole run that
        are due then, in order of insertion. */
    method Run(ops: seq<Op>) returns (out: seq<seq<Event>>)
      requires Valid()
      requires forall i :: 0 <= i < |ops| ==> Allowed(ops[i])
      modifies this`time, this`now, this`log, this`swept, near, t
      ensures Valid() && now == old(now) + |out| && (log, now) == Asked(old(log), old(now), ops)
      ensures old(log) <= log && forall i :: |old(log)| <= i < |log| ==> old(now) < log[i].deadline
      ensures forall k :: 0 <= k < |out| ==> out[k] == DueAt(log, old(now) + k + 1)
    {
      hide Valid, DueAt, Entries;
      out := [];
      for n := 0 to |ops|
        invariant Valid() && now == old(now) + |out| && (log, now) == Asked(old(log), old(now), ops[..n])
        invariant old(log) <= log && forall i :: |old(log)| <= i < |log| ==> old(now) < log[i].deadline
        invariant forall k :: 0 <= k < |out| ==> out[k] == DueAt(log, old(now) + k + 1)
      {
        ghost var log0 := log;
        ghost var more;
        assert ops[..n + 1][..n] == ops[..n];
        match ops[n] {
          case Add(event, delay) =>
            TimerAdd(event, delay);
            more := [Entry(now + delay, event)];
          case Tick(window) =>
            var early, fired := TimerUpdate(window);
            out := out + [fired];
            more := if fired == [] then [] else Entries(window, now);
            EntriesLater(window, now);
        }
        assert log == log0 + more;
        forall k | 0 <= k < |out|
          ensures out[k] == DueAt(log, old(now) + k + 1)
        {
          DueAtAppend(log0, more, old(now) + k + 1);
        }
      }
      assert ops[..|ops|] == ops;
    }

    /** The requests that other threads make while a list is being dispatched. */
    method Dispatched(window: seq<Request>)
      requires Valid()
      requires forall i :: 0 <= i < |window| ==> InTime(window[i].delay)
      modifies this`log, near, t
      ensures Valid() && log == old(log) + Entries(window, now)
      ensures near[time % TIME_NEAR] == []
    {
      hide SlotOf, Index, Bounded, Contents;
      assert log == log + Entries(window[..0], now);
      for k := 0 to |window|
        invariant Valid() && log == old(log) + Entries(window[..k], now)
      {
        assert window[..k + 1][..k] == window[..k];
        TimerAdd(window[k].event, window[k].delay);
      }
      assert window[..|window|] == window;
      CurrentEmpty(log, now);
      assert near[time % TIME_NEAR] == Contents()[Current(now)];
    }
  }

  lemma CarryStart(ct: nat)
    ensures TIME_NEAR == Width(0)
    ensures ct != 0 && ct % TIME_NEAR == 0 ==> CascadeOf(ct) == CarryFrom(ct, 0)
    ensures ct != 0 && ct % TIME_NEAR != 0 ==> CascadeOf(ct) == None
  {
  }

  lemma CarryHit(ct: nat, i: nat)
    requires i <= 3 && ct / Width(i) % TIME_LEVEL != 0
    ensures CarryFrom(ct, i) == From(Level(i, ct / Width(i) % TIME_LEVEL))
    ensures InRange(Level(i, ct / Width(i) % TIME_LEVEL))
  {
  }

  lemma CarryStep(ct: nat, i: nat)
    requires 0 < ct < WORD && i <= 3 && ct % Width(i) == 0 && ct / Width(i) % TIME_LEVEL == 0
    ensures i < 3
    ensures ct % Width(i + 1) == 0 && ct / Width(i) / TIME_LEVEL == ct / Width(i + 1)
    ensures Width(i) * TIME_LEVEL == Width(i + 1)
    ensures CarryFrom(ct, i) == CarryFrom(ct, i + 1)
  {
    var q := ct / Width(i);
    assert ct == q * Width(i);
    var p := q / TIME_LEVEL;
    assert q == p * 64;
    if i < 3 {
      assert ct == p * Width(i + 1);
      DivUnique(ct, Width(i + 1), p, 0);
    }
  }

  lemma AddWord(delay: nat, now: nat)
    ensures (delay + now % WORD) % WORD == (now + delay) % WORD
  {
    assert now == now / WORD * WORD + now % WORD;
  }

  lemma {:induction false} SelectWords(log: seq<Entry>, now: nat, s: Slot)
    ensures forall n :: n in Select(log, now, now, s) ==> n.expire < WORD
  {
    if log != [] {
      SelectWords(log[..|log| - 1], now, s);
    }
  }

  lemma ExpiresAreWords(log: seq<Entry>, now: nat)
    ensures forall s, n :: s in Index(log, now, now) && n in Index(log, now, now)[s] ==> n.expire < WORD
  {
    IndexAt(log, now, now);
    forall s, n | InRange(s) && n in Index(log, now, now)[s]
      ensures n.expire < WORD
    {
      SelectWords(log, now, s);
    }
  }
}
