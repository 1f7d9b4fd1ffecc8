/** Shared read-mostly messages: a spinning reader-writer lock built from single atomic operations, and under it a
    reference-counted current copy. Any number of threads take any steps in any order, one atomic operation each. */
module Stm {

  import opened Options

  type Id = nat

  /** What a writer does once it is alone: put in a new copy, or take the last one away. */
  datatype Job = Update(c: Id) | Release

  datatype Pc =
    | Idle
    // rwlock_rlock
    | RSpin | RAdd | RCheck | RBack
    // stm_copy, inside the read lock
    | RLoad | RInc(c: Id) | RUnlock(got: Option<Id>)
    // lread, after it
    | Compare(got: Option<Id>)
    // stm_releasecopy
    | Drop(c: Id)
    // rwlock_wlock
    | WSet(job: Job) | WDrain(job: Job)
    // stm_update and stm_release, inside the write lock
    | WSwap(job: Job) | WClear | WUnlock(prev: Option<Id>)

  /** A thread, the copy its reader has kept, and the one its last read handed on: none if it answered that there was
      nothing new. */
  datatype Thread = Thread(pc: Pc, last: Option<Id>, news: Option<Id>)

  /** What the threads share. `refs` holds the copies in memory with their counts; `freed` is the log of frees. */
  datatype Shared = Shared(write: bool, read: int, copy: Option<Id>, refs: map<Id, int>, freed: seq<Id>, next: Id)

  datatype State = State(m: Shared, threads: seq<Thread>)

  // ---------------------------------------------------------------------------------------------
  // Counting threads
  // ---------------------------------------------------------------------------------------------

  datatype Weight = Reads | Writes | ReadsIn | WritesIn | Clears | Holds(c: Id)

  ghost function One(b: bool): nat {
    if b then 1 else 0
  }

  /** Whether the lock's reader count counts the thread; whether the write flag is its own; whether it is inside;
      whether it has given up the object's copy and not yet cleared the pointer to it. */
  ghost function Weigh(t: Thread, w: Weight): nat {
    match w
    case Reads => One(t.pc.RCheck? || t.pc.RBack? || t.pc.RLoad? || t.pc.RInc? || t.pc.RUnlock?)
    case Writes => One(t.pc.WDrain? || t.pc.WSwap? || t.pc.WClear? || t.pc.WUnlock?)
    case ReadsIn => One(t.pc.RLoad? || t.pc.RInc? || t.pc.RUnlock?)
    case WritesIn => One(t.pc.WSwap? || t.pc.WClear? || t.pc.WUnlock?)
    case Clears => One(t.pc.WClear?)
    case Holds(c) =>
      One(t.last == Some(c)) +
      match t.pc
      case RUnlock(g) => One(g == Some(c))
      case Compare(g) => One(g == Some(c))
      case Drop(d) => One(d == c)
      case WSet(j) => One(j == Update(c))
      case WDrain(j) => One(j == Update(c))
      case WSwap(j) => One(j == Update(c))
      case WUnlock(o) => One(o == Some(c))
      case _ => 0
  }

  ghost function Sum(ts: seq<Thread>, w: Weight): nat {
    if ts == [] then 0 else Sum(ts[..|ts| - 1], w) + Weigh(ts[|ts| - 1], w)
  }

  lemma {:induction false} SumUpdate(ts: seq<Thread>, i: nat, t: Thread, w: Weight)
    requires i < |ts|
    ensures Sum(ts[i := t], w) == Sum(ts, w) - Weigh(ts[i], w) + Weigh(t, w)
  {
    hide Weigh;
    var n := |ts| - 1;
    if i < n {
      SumUpdate(ts[..n], i, t, w);
      assert ts[i := t][..n] == ts[..n][i := t];
    } else {
      assert ts[i := t][..n] == ts[..n];
    }
  }

  lemma {:induction false} SumAtLeast(ts: seq<Thread>, i: nat, w: Weight)
    requires i < |ts|
    ensures Sum(ts, w) >= Weigh(ts[i], w)
  {
    hide Weigh;
    var n := |ts| - 1;
    if i < n {
      SumAtLeast(ts[..n], i, w);
    }
  }

  lemma {:induction false} InsideCounted(ts: seq<Thread>)
    ensures Sum(ts, ReadsIn) <= Sum(ts, Reads) && Sum(ts, Clears) <= Sum(ts, WritesIn) <= Sum(ts, Writes)
  {
    if ts != [] {
      InsideCounted(ts[..|ts| - 1]);
    }
  }

  lemma {:induction false} NewThreads(ts: seq<Thread>, w: Weight)
    requires forall i :: 0 <= i < |ts| ==> ts[i] == Thread(Idle, None, None)
    ensures Sum(ts, w) == 0
  {
    if ts != [] {
      NewThreads(ts[..|ts| - 1], w);
    }
  }

  // ---------------------------------------------------------------------------------------------
  // Steps
  // ---------------------------------------------------------------------------------------------

  /** What an idle thread turns to. */
  datatype Choice = ToRead | ToUpdate | ToRelease | ToForget

  datatype Moved = Moved(m: Shared, t: Thread)

  /** One atomic operation of a thread. A thread that must wait stays where it is. */
  function Move(m: Shared, t: Thread, choice: Choice): Moved {
    match t.pc
    case Idle => Start(m, t, choice)
    case RSpin => Moved(m, if m.write then t else t.(pc := RAdd))
    case RAdd => Moved(m.(read := m.read + 1), t.(pc := RCheck))
    case RCheck => Moved(m, t.(pc := if m.write then RBack else RLoad))
    case RBack => Moved(m.(read := m.read - 1), t.(pc := RSpin))
    case RLoad => Moved(m, t.(pc := if m.copy.None? then RUnlock(None) else RInc(m.copy.value)))
    case RInc(c) => Moved(m.(refs := if c in m.refs then m.refs[c := m.refs[c] + 1] else m.refs), t.(pc := RUnlock(Some(c))))
    case RUnlock(g) => Moved(m.(read := m.read - 1), t.(pc := Compare(g)))
    case Compare(g) =>
      if g == t.last then Moved(m, t.(pc := Dropping(g), news := None)) else Moved(m, Thread(Dropping(t.last), g, g))
    case Drop(c) => Moved(Decrement(m, c), t.(pc := Idle))
    case WSet(j) => Moved(m.(write := true), t.(pc := if m.write then WSet(j) else WDrain(j)))
    case WDrain(j) => Moved(m, if m.read != 0 then t else t.(pc := WSwap(j)))
    case WSwap(j) =>
      if j.Update? then Moved(m.(copy := Some(j.c)), t.(pc := WUnlock(m.copy)))
      else Moved(if m.copy.None? then m else Decrement(m, m.copy.value), t.(pc := WClear))
    case WClear => Moved(m.(copy := None), t.(pc := WUnlock(None)))
    case WUnlock(p) => Moved(m.(write := false), t.(pc := Dropping(p)))
  }

  function Dropping(c: Option<Id>): Pc {
    if c.None? then Idle else Drop(c.value)
  }

  function Start(m: Shared, t: Thread, choice: Choice): Moved {
    match choice
    case ToRead => Moved(m, t.(pc := RSpin))
    case ToUpdate => Moved(m.(refs := m.refs[m.next := 1], next := m.next + 1), t.(pc := WSet(Update(m.next))))
    case ToRelease => Moved(m, t.(pc := WSet(Release)))
    case ToForget => Moved(m, t.(pc := Dropping(t.last), last := None))
  }

  /** The last reference gone, the copy and its message are freed. */
  function Decrement(m: Shared, c: Id): Shared {
    if c !in m.refs then m
    else if m.refs[c] == 1 then m.(refs := m.refs - {c}, freed := m.freed + [c])
    else m.(refs := m.refs[c := m.refs[c] - 1])
  }

  function Step(s: State, i: nat, choice: Choice): State
    requires i < |s.threads|
  {
    var r := Move(s.m, s.threads[i], choice);
    State(r.m, s.threads[i := r.t])
  }

  // ---------------------------------------------------------------------------------------------
  // The invariant
  // ---------------------------------------------------------------------------------------------

  ghost predicate LockOk(s: State) {
    && s.m.read == Sum(s.threads, Reads) && Sum(s.threads, Writes) == One(s.m.write)
    && (Sum(s.threads, WritesIn) > 0 ==> Sum(s.threads, ReadsIn) == 0)
  }

  /** A copy's count is the number of its holders: threads, and the object unless a release is about to clear its
      pointer. A copy is in memory while it has any, and is freed once, when it has none. */
  ghost predicate Counted(m: Shared, c: Id, holders: int, clears: int) {
    && (if c in m.refs then m.refs[c] else 0) == One(m.copy == Some(c) && clears == 0) + holders
    && (c in m.refs ==> m.refs[c] > 0)
    && One(c in m.refs) + multiset(m.freed)[c] == One(c < m.next)
  }

  ghost predicate CopyOk(s: State, c: Id) {
    Counted(s.m, c, Sum(s.threads, Holds(c)), Sum(s.threads, Clears))
  }

  /** A reader about to count itself in on a copy still finds that copy current. */
  ghost predicate LoadedOk(s: State) {
    forall i :: 0 <= i < |s.threads| && s.threads[i].pc.RInc? ==> s.m.copy == Some(s.threads[i].pc.c)
  }

  ghost predicate Inv(s: State) {
    LockOk(s) && LoadedOk(s) && forall c :: CopyOk(s, c)
  }

  /** A new object, with its first copy, and threads that have done nothing. */
  ghost predicate Init(s: State) {
    && s.m == Shared(false, 0, Some(0), map[0 := 1], [], 1)
    && forall i :: 0 <= i < |s.threads| ==> s.threads[i] == Thread(Idle, None, None)
  }

  lemma InitInv(s: State)
    requires Init(s)
    ensures Inv(s)
  {
    NewThreads(s.threads, Reads);
    NewThreads(s.threads, Writes);
    NewThreads(s.threads, WritesIn);
    NewThreads(s.threads, Clears);
    forall c
      ensures CopyOk(s, c)
    {
      NewThreads(s.threads, Holds(c));
    }
  }

  /** The reader count follows the threads it counts, and the write flag its owner. A writer goes in only when no
      reader is counted, a reader only when no writer has the flag. */
  lemma LockMove(m: Shared, t: Thread, choice: Choice)
    requires Weigh(t, Writes) <= One(m.write)
    ensures var r := Move(m, t, choice);
            && r.m.read - m.read == Weigh(r.t, Reads) - Weigh(t, Reads)
            && One(r.m.write) - One(m.write) == Weigh(r.t, Writes) - Weigh(t, Writes)
            && (Weigh(r.t, WritesIn) > Weigh(t, WritesIn) ==> m.read == 0)
            && (Weigh(r.t, ReadsIn) > Weigh(t, ReadsIn) ==> !m.write)
            && (Weigh(r.t, WritesIn) > 0 ==> Weigh(r.t, ReadsIn) == 0)
  {
    hide Decrement;
    DecrementLock(m, if t.pc.Drop? then t.pc.c else 0);
    DecrementLock(m, if m.copy.Some? then m.copy.value else 0);
  }

  lemma DecrementLock(m: Shared, c: Id)
    ensures var m' := Decrement(m, c); m'.read == m.read && m'.write == m.write && m'.copy == m.copy
  {
  }

  lemma LockStep(s: State, i: nat, choice: Choice)
    requires LockOk(s) && i < |s.threads|
    ensures LockOk(Step(s, i, choice))
  {
    hide Sum, Move, Weigh;
    var t, r := s.threads[i], Move(s.m, s.threads[i], choice);
    InsideCounted(s.threads);
    Change(s.threads, i, r.t, Reads);
    Change(s.threads, i, r.t, Writes);
    Change(s.threads, i, r.t, ReadsIn);
    Change(s.threads, i, r.t, WritesIn);
    LockMove(s.m, t, choice);
  }

  lemma Change(ts: seq<Thread>, i: nat, t: Thread, w: Weight)
    requires i < |ts|
    ensures Sum(ts[i := t], w) == Sum(ts, w) - Weigh(ts[i], w) + Weigh(t, w) && Sum(ts, w) >= Weigh(ts[i], w)
  {
    hide Sum, Weigh;
    SumUpdate(ts, i, t, w);
    SumAtLeast(ts, i, w);
  }

  /** A reader about to count itself in, or a thread about to give up its reference, has a copy in memory. */
  lemma HeldInMemory(s: State, i: nat, c: Id)
    requires Inv(s) && i < |s.threads|
    requires s.threads[i].pc == RInc(c) || Weigh(s.threads[i], Holds(c)) > 0
    ensures c in s.m.refs && s.m.refs[c] > 0 && c !in s.m.freed
  {
    hide Sum, Weigh;
    assert CopyOk(s, c);
    SumAtLeast(s.threads, i, Holds(c));
    InsideCounted(s.threads);
    if s.threads[i].pc == RInc(c) {
      SumAtLeast(s.threads, i, ReadsIn);
      ReaderInside(s.threads[i]);
    }
  }

  lemma ReaderInside(t: Thread)
    ensures t.pc.RInc? ==> Weigh(t, ReadsIn) == 1
  {
  }

  /** References change hands, are added and are given up, always together with the count. */
  lemma CountMove(m: Shared, t: Thread, choice: Choice, c: Id, holders: int, clears: nat)
    requires Counted(m, c, holders, clears) && Weigh(t, Clears) <= clears && m.next !in m.refs && multiset(m.freed)[m.next] == 0
    requires t.pc.RInc? || t.pc.Drop? ==> t.pc.c in m.refs && m.refs[t.pc.c] > 0
    requires Weigh(t, WritesIn) > 0 ==> clears == Weigh(t, Clears) && (t.pc.WSwap? && m.copy.Some? ==> m.copy.value in m.refs)
    ensures var r := Move(m, t, choice);
            Counted(r.m, c, holders - Weigh(t, Holds(c)) + Weigh(r.t, Holds(c)), clears - Weigh(t, Clears) + Weigh(r.t, Clears))
  {
    hide Counted, Move;
    match t.pc {
      case Idle => CountStart(m, t, choice, c, holders, clears);
      case RInc(_) => CountInc(m, t, choice, c, holders, clears);
      case Drop(_) => CountDrop(m, t, choice, c, holders, clears);
      case Compare(_) => CountCompare(m, t, choice, c, holders, clears);
      case WSet(_) => CountWriter(m, t, choice, c, holders, clears);
      case WDrain(_) => CountWriter(m, t, choice, c, holders, clears);
      case WSwap(j) =>
        if j.Update? {
          CountUpdate(m, t, choice, c, holders, clears);
        } else {
          CountRelease(m, t, choice, c, holders, clears);
        }
      case WClear => CountClear(m, t, choice, c, holders, clears);
      case WUnlock(_) => CountWriter(m, t, choice, c, holders, clears);
      case _ => CountReader(m, t, choice, c, holders, clears);
    }
  }

  lemma CountReader(m: Shared, t: Thread, choice: Choice, c: Id, holders: int, clears: nat)
    requires Counted(m, c, holders, clears) && Weigh(t, Clears) <= clears && (t.pc.RSpin? || t.pc.RAdd? || t.pc.RCheck? || t.pc.RBack? || t.pc.RLoad? || t.pc.RUnlock?)
    ensures var r := Move(m, t, choice);
            Counted(r.m, c, holders - Weigh(t, Holds(c)) + Weigh(r.t, Holds(c)), clears - Weigh(t, Clears) + Weigh(r.t, Clears))
  {
  }

  lemma CountCompare(m: Shared, t: Thread, choice: Choice, c: Id, holders: int, clears: nat)
    requires Counted(m, c, holders, clears) && Weigh(t, Clears) <= clears && t.pc.Compare?
    ensures var r := Move(m, t, choice);
            Counted(r.m, c, holders - Weigh(t, Holds(c)) + Weigh(r.t, Holds(c)), clears - Weigh(t, Clears) + Weigh(r.t, Clears))
  {
  }

  lemma CountWriter(m: Shared, t: Thread, choice: Choice, c: Id, holders: int, clears: nat)
    requires Counted(m, c, holders, clears) && (t.pc.WSet? || t.pc.WDrain? || t.pc.WUnlock?)
    ensures var r := Move(m, t, choice);
            Counted(r.m, c, holders - Weigh(t, Holds(c)) + Weigh(r.t, Holds(c)), clears - Weigh(t, Clears) + Weigh(r.t, Clears))
  {
  }

  lemma CountUpdate(m: Shared, t: Thread, choice: Choice, c: Id, holders: int, clears: nat)
    requires Counted(m, c, holders, clears) && t.pc.WSwap? && t.pc.job.Update? && clears == 0
    ensures var r := Move(m, t, choice);
            Counted(r.m, c, holders - Weigh(t, Holds(c)) + Weigh(r.t, Holds(c)), clears - Weigh(t, Clears) + Weigh(r.t, Clears))
  {
  }

  /** The object's reference is given up first, and the pointer left as it is. */
  lemma CountRelease(m: Shared, t: Thread, choice: Choice, c: Id, holders: int, clears: nat)
    requires Counted(m, c, holders, clears) && t.pc.WSwap? && t.pc.job.Release? && clears == 0
    requires m.copy.Some? ==> m.copy.value in m.refs
    ensures var r := Move(m, t, choice);
            Counted(r.m, c, holders - Weigh(t, Holds(c)) + Weigh(r.t, Holds(c)), clears - Weigh(t, Clears) + Weigh(r.t, Clears))
  {
    if m.copy.Some? {
      assert multiset(m.freed + [m.copy.value]) == multiset(m.freed) + multiset{m.copy.value};
    }
  }

  lemma CountClear(m: Shared, t: Thread, choice: Choice, c: Id, holders: int, clears: nat)
    requires Counted(m, c, holders, clears) && t.pc.WClear? && clears == 1
    ensures var r := Move(m, t, choice);
            Counted(r.m, c, holders - Weigh(t, Holds(c)) + Weigh(r.t, Holds(c)), clears - Weigh(t, Clears) + Weigh(r.t, Clears))
  {
  }

  lemma CountStart(m: Shared, t: Thread, choice: Choice, c: Id, holders: int, clears: nat)
    requires Counted(m, c, holders, clears) && Weigh(t, Clears) <= clears && m.next !in m.refs && multiset(m.freed)[m.next] == 0 && t.pc.Idle?
    ensures var r := Move(m, t, choice);
            Counted(r.m, c, holders - Weigh(t, Holds(c)) + Weigh(r.t, Holds(c)), clears - Weigh(t, Clears) + Weigh(r.t, Clears))
  {
  }

  lemma CountInc(m: Shared, t: Thread, choice: Choice, c: Id, holders: int, clears: nat)
    requires Counted(m, c, holders, clears) && Weigh(t, Clears) <= clears && t.pc.RInc? && t.pc.c in m.refs
    ensures var r := Move(m, t, choice);
            Counted(r.m, c, holders - Weigh(t, Holds(c)) + Weigh(r.t, Holds(c)), clears - Weigh(t, Clears) + Weigh(r.t, Clears))
  {
  }

  lemma CountDrop(m: Shared, t: Thread, choice: Choice, c: Id, holders: int, clears: nat)
    requires Counted(m, c, holders, clears) && Weigh(t, Clears) <= clears && t.pc.Drop? && t.pc.c in m.refs && m.refs[t.pc.c] > 0
    ensures var r := Move(m, t, choice);
            Counted(r.m, c, holders - Weigh(t, Holds(c)) + Weigh(r.t, Holds(c)), clears - Weigh(t, Clears) + Weigh(r.t, Clears))
  {
    assert multiset(m.freed + [t.pc.c]) == multiset(m.freed) + multiset{t.pc.c};
  }

  lemma CopyStep(s: State, i: nat, choice: Choice, c: Id)
    requires Inv(s) && i < |s.threads|
    ensures CopyOk(Step(s, i, choice), c)
  {
    hide Sum, LockOk, Move, Weigh;
    var t, r := s.threads[i], Move(s.m, s.threads[i], choice);
    assert CopyOk(s, c) && CopyOk(s, s.m.next);
    Change(s.threads, i, r.t, Holds(c));
    Change(s.threads, i, r.t, Clears);
    if t.pc.RInc? || t.pc.Drop? {
      DropHolds(t);
      HeldInMemory(s, i, t.pc.c);
    }
    if Weigh(t, WritesIn) > 0 {
      OnlyClears(s, i);
    }
    CountMove(s.m, t, choice, c, Sum(s.threads, Holds(c)), Sum(s.threads, Clears));
  }

  /** A writer inside is the only one that may be about to clear the pointer; before that the pointer is good. */
  lemma OnlyClears(s: State, i: nat)
    requires Inv(s) && i < |s.threads| && Weigh(s.threads[i], WritesIn) > 0
    ensures Sum(s.threads, Clears) == Weigh(s.threads[i], Clears)
    ensures s.threads[i].pc.WSwap? && s.m.copy.Some? ==> s.m.copy.value in s.m.refs
  {
    hide Sum, Weigh;
    var t := s.threads[i];
    SumAtLeast(s.threads, i, Clears);
    SumAtLeast(s.threads, i, WritesIn);
    InsideCounted(s.threads);
    SwapClears(t);
    Change(s.threads, i, Thread(Idle, None, None), Clears);
    Change(s.threads, i, Thread(Idle, None, None), WritesIn);
    InsideCounted(s.threads[i := Thread(Idle, None, None)]);
    if t.pc.WSwap? && s.m.copy.Some? {
      assert CopyOk(s, s.m.copy.value);
    }
  }

  lemma SwapClears(t: Thread)
    ensures t.pc.WSwap? ==> Weigh(t, Clears) == 0
    ensures Weigh(t, WritesIn) <= 1 && Weigh(Thread(Idle, None, None), WritesIn) == 0 && Weigh(Thread(Idle, None, None), Clears) == 0
  {
  }

  lemma DropHolds(t: Thread)
    ensures t.pc.Drop? ==> Weigh(t, Holds(t.pc.c)) > 0
  {
  }

  /** While a writer is inside, no reader is, nor another writer. */
  lemma WriterAlone(s: State, i: nat)
    requires LockOk(s) && i < |s.threads| && Weigh(s.threads[i], WritesIn) > 0
    ensures forall j :: 0 <= j < |s.threads| ==> Weigh(s.threads[j], ReadsIn) == 0
    ensures forall j :: 0 <= j < |s.threads| && j != i ==> Weigh(s.threads[j], WritesIn) == 0
  {
    hide Sum, Weigh;
    SumAtLeast(s.threads, i, WritesIn);
    InsideCounted(s.threads);
    forall j | 0 <= j < |s.threads|
      ensures Weigh(s.threads[j], ReadsIn) == 0
      ensures j != i ==> Weigh(s.threads[j], WritesIn) == 0
    {
      SumAtLeast(s.threads, j, ReadsIn);
      if j != i {
        SumAtLeastTwo(s.threads, i, j, WritesIn);
      }
    }
  }

  lemma {:induction false} SumAtLeastTwo(ts: seq<Thread>, i: nat, j: nat, w: Weight)
    requires i < |ts| && j < |ts| && i != j
    ensures Sum(ts, w) >= Weigh(ts[i], w) + Weigh(ts[j], w)
  {
    hide Weigh;
    var n := |ts| - 1;
    if i < n && j < n {
      SumAtLeastTwo(ts[..n], i, j, w);
    } else {
      SumAtLeast(ts[..n], if i < n then i else j, w);
    }
  }

  lemma LoadedMove(m: Shared, t: Thread, choice: Choice)
    ensures var r := Move(m, t, choice);
            && (r.t.pc.RInc? ==> r.m.copy == Some(r.t.pc.c))
            && (!t.pc.WSwap? && !t.pc.WClear? ==> r.m.copy == m.copy)
            && (t.pc.WSwap? || t.pc.WClear? ==> Weigh(t, WritesIn) > 0)
  {
    hide Decrement;
    DecrementLock(m, if t.pc.Drop? then t.pc.c else 0);
    DecrementLock(m, if m.copy.Some? then m.copy.value else 0);
  }

  lemma LoadedStep(s: State, i: nat, choice: Choice)
    requires LockOk(s) && LoadedOk(s) && i < |s.threads|
    ensures LoadedOk(Step(s, i, choice))
  {
    hide Sum, LockOk, Move;
    var s' := Step(s, i, choice);
    LoadedMove(s.m, s.threads[i], choice);
    if s.threads[i].pc.WSwap? || s.threads[i].pc.WClear? {
      WriterAlone(s, i);
    }
    forall j | 0 <= j < |s'.threads| && s'.threads[j].pc.RInc?
      ensures s'.m.copy == Some(s'.threads[j].pc.c)
    {
      if j != i {
        assert s'.threads[j] == s.threads[j] && Weigh(s.threads[j], ReadsIn) == 1;
      }
    }
  }

  lemma StepInv(s: State, i: nat, choice: Choice)
    requires Inv(s) && i < |s.threads|
    ensures Inv(Step(s, i, choice))
  {
    hide LockOk, CopyOk, LoadedOk;
    LockStep(s, i, choice);
    LoadedStep(s, i, choice);
    forall c
      ensures CopyOk(Step(s, i, choice), c)
    {
      CopyStep(s, i, choice, c);
    }
  }

  // ---------------------------------------------------------------------------------------------
  // Whole runs
  // ---------------------------------------------------------------------------------------------

  /** Some thread of those there are takes each step. */
  ghost function Run(s: State, steps: seq<(nat, Choice)>): (r: State)
    ensures |r.threads| == |s.threads|
  {
    if steps == [] then s else
    var s' := Run(s, steps[..|steps| - 1]);
    var (i, choice) := steps[|steps| - 1];
    if i < |s'.threads| then Step(s', i, choice) else s'
  }

  lemma {:induction false} RunInv(s: State, steps: seq<(nat, Choice)>)
    requires Init(s)
    ensures Inv(Run(s, steps))
  {
    hide Inv, Step;
    if steps == [] {
      InitInv(s);
    } else {
      RunInv(s, steps[..|steps| - 1]);
      var s' := Run(s, steps[..|steps| - 1]);
      var (i, choice) := steps[|steps| - 1];
      if i < |s'.threads| {
        StepInv(s', i, choice);
      }
    }
  }

  // ---------------------------------------------------------------------------------------------
  // What readers see
  // ---------------------------------------------------------------------------------------------

  /** The state after `n` of the steps. */
  ghost function After(s: State, steps: seq<(nat, Choice)>, n: nat): (r: State)
    requires n <= |steps|
    ensures |r.threads| == |s.threads|
  {
    Run(s, steps[..n])
  }

  lemma AfterNext(s: State, steps: seq<(nat, Choice)>, n: nat)
    requires n < |steps|
    ensures var r, i := After(s, steps, n), steps[n].0;
            After(s, steps, n + 1) == if i < |r.threads| then Step(r, i, steps[n].1) else r
  {
    assert steps[..n + 1][..n] == steps[..n];
  }

  /** A step of another thread. */
  lemma OtherThread(s: State, steps: seq<(nat, Choice)>, n: nat, i: nat)
    requires n < |steps| && i < |s.threads| && steps[n].0 != i
    ensures After(s, steps, n + 1).threads[i] == After(s, steps, n).threads[i]
  {
    hide Move, After;
    AfterNext(s, steps, n);
  }

  lemma OwnStep(s: State, steps: seq<(nat, Choice)>, n: nat, i: nat)
    requires n < |steps| && i < |s.threads| && steps[n].0 == i
    ensures var r := After(s, steps, n);
            After(s, steps, n + 1).threads[i] == Move(r.m, r.threads[i], steps[n].1).t
  {
    hide Move, After;
    AfterNext(s, steps, n);
  }

  /** What has been made the object's current copy, in order: the first one, then one for each swap of an update and
      none for each release. */
  ghost function History(s: State, steps: seq<(nat, Choice)>, n: nat): (h: seq<Option<Id>>)
    requires n <= |steps|
    ensures h != []
  {
    if n == 0 then [Some(0)] else
    var r, i := After(s, steps, n - 1), steps[n - 1].0;
    History(s, steps, n - 1) + if i < |r.threads| then Puts(r.threads[i].pc) else []
  }

  ghost function Puts(pc: Pc): seq<Option<Id>> {
    match pc
    case WSwap(Update(c)) => [Some(c)]
    case WClear => [None]
    case _ => []
  }

  lemma {:induction false} HistoryGrows(s: State, steps: seq<(nat, Choice)>, m: nat, n: nat)
    requires m <= n <= |steps|
    ensures History(s, steps, m) <= History(s, steps, n)
  {
    hide Puts, After;
    if m < n {
      HistoryGrows(s, steps, m, n - 1);
    }
  }

  /** Whether `x` has been made current after the first `m` steps and by the first `n`. */
  ghost predicate MadeCurrent(s: State, steps: seq<(nat, Choice)>, m: nat, n: nat, x: Option<Id>)
    requires m <= |steps| && n <= |steps|
  {
    exists p :: |History(s, steps, m)| <= p < |History(s, steps, n)| && History(s, steps, n)[p] == x
  }

  lemma StillMade(s: State, steps: seq<(nat, Choice)>, k: nat, m: nat, n: nat, x: Option<Id>)
    requires k <= m && n < |steps| && m <= |steps| && MadeCurrent(s, steps, m, n, x)
    ensures MadeCurrent(s, steps, k, n + 1, x)
  {
    hide History;
    HistoryGrows(s, steps, k, m);
    HistoryGrows(s, steps, n, n + 1);
    var p :| |History(s, steps, m)| <= p < |History(s, steps, n)| && History(s, steps, n)[p] == x;
    assert History(s, steps, n + 1)[p] == x;
  }

  /** In every run the object holds what was last made current. */
  lemma {:induction false} Current(s: State, steps: seq<(nat, Choice)>, n: nat)
    requires Init(s) && n <= |steps|
    ensures var h := History(s, steps, n); After(s, steps, n).m.copy == h[|h| - 1]
  {
    hide After, Move, Puts;
    if n == 0 {
      AtFirst(s, steps);
    } else {
      Current(s, steps, n - 1);
      AfterNext(s, steps, n - 1);
      var r, i := After(s, steps, n - 1), steps[n - 1].0;
      if i < |r.threads| {
        PutMove(r.m, r.threads[i], steps[n - 1].1);
      }
    }
  }

  lemma AtFirst(s: State, steps: seq<(nat, Choice)>)
    ensures After(s, steps, 0) == s
  {
  }

  lemma PutMove(m: Shared, t: Thread, choice: Choice)
    ensures |Puts(t.pc)| <= 1 && Move(m, t, choice).m.copy == if Puts(t.pc) == [] then m.copy else Puts(t.pc)[0]
  {
    hide Decrement;
    DecrementLock(m, if t.pc.Drop? then t.pc.c else 0);
    DecrementLock(m, if m.copy.Some? then m.copy.value else 0);
  }

  /** A writer that has not yet made its change. */
  predicate Ahead(pc: Pc, job: Job) {
    pc == WSet(job) || pc == WDrain(job) || pc == WSwap(job) || (job.Release? && pc.WClear?)
  }

  ghost function Result(job: Job): Option<Id> {
    if job.Update? then Some(job.c) else None
  }

  /** In every run: an update or a release either is still ahead, or has become current since it began. */
  lemma {:induction false} JobDone(s: State, steps: seq<(nat, Choice)>, j: nat, n: nat, i: nat, job: Job)
    requires j <= n <= |steps| && i < |s.threads|
    requires Ahead(After(s, steps, j).threads[i].pc, job)
    ensures Ahead(After(s, steps, n).threads[i].pc, job) || MadeCurrent(s, steps, j, n, Result(job))
    decreases n
  {
    hide After, Move, Ahead, MadeCurrent, Result;
    if j < n {
      JobDone(s, steps, j, n - 1, i, job);
      if !Ahead(After(s, steps, n - 1).threads[i].pc, job) {
        StillMade(s, steps, j, j, n - 1, Result(job));
      } else if steps[n - 1].0 != i {
        OtherThread(s, steps, n - 1, i);
      } else {
        OwnStep(s, steps, n - 1, i);
        JobStep(s, steps, j, n - 1, i, job);
      }
    }
  }

  lemma JobStep(s: State, steps: seq<(nat, Choice)>, j: nat, n: nat, i: nat, job: Job)
    requires j <= n < |steps| && i < |s.threads| && steps[n].0 == i && Ahead(After(s, steps, n).threads[i].pc, job)
    ensures var r := After(s, steps, n);
            Ahead(Move(r.m, r.threads[i], steps[n].1).t.pc, job) || MadeCurrent(s, steps, j, n + 1, Result(job))
  {
    hide After, Move, Ahead, Puts, Result;
    var r := After(s, steps, n);
    AheadMove(r.m, r.threads[i], steps[n].1, job);
    HistoryGrows(s, steps, j, n);
    var h, h' := History(s, steps, n), History(s, steps, n + 1);
    if !Ahead(Move(r.m, r.threads[i], steps[n].1).t.pc, job) {
      assert h' == h + [Result(job)];
      assert h'[|h|] == Result(job);
    }
  }

  lemma AheadMove(m: Shared, t: Thread, choice: Choice, job: Job)
    requires Ahead(t.pc, job)
    ensures Ahead(Move(m, t, choice).t.pc, job) || Puts(t.pc) == [Result(job)]
  {
  }

  /** So does every update that a thread begins, with the copy it has made, and every release. */
  lemma JobBegun(s: State, steps: seq<(nat, Choice)>, j: nat, n: nat, i: nat, job: Job)
    requires j < n <= |steps| && i < |s.threads| && After(s, steps, j).threads[i].pc.Idle?
    requires if job.Update? then steps[j] == (i, ToUpdate) && job.c == After(s, steps, j).m.next else steps[j] == (i, ToRelease)
    ensures Ahead(After(s, steps, n).threads[i].pc, job) || MadeCurrent(s, steps, j, n, Result(job))
  {
    hide After, History, Result;
    OwnStep(s, steps, j, i);
    JobDone(s, steps, j + 1, n, i, job);
    HistoryGrows(s, steps, j, j + 1);
  }

  /** The copy that a reader has loaded in the read under way. */
  ghost function Loaded(pc: Pc): Option<Option<Id>> {
    match pc
    case RInc(c) => Some(Some(c))
    case RUnlock(g) => Some(g)
    case Compare(g) => Some(g)
    case _ => None
  }

  /** In every run: a read gets what was current at some moment since it began. */
  lemma {:induction false} ReadCurrent(s: State, steps: seq<(nat, Choice)>, j: nat, n: nat, i: nat) returns (p: nat)
    requires Init(s) && j <= n <= |steps| && i < |s.threads|
    requires Loaded(After(s, steps, j).threads[i].pc).None? && Loaded(After(s, steps, n).threads[i].pc).Some?
    ensures |History(s, steps, j)| - 1 <= p < |History(s, steps, n)|
    ensures History(s, steps, n)[p] == Loaded(After(s, steps, n).threads[i].pc).value
    decreases n
  {
    hide After, Move, Loaded;
    HistoryGrows(s, steps, j, n - 1);
    HistoryGrows(s, steps, n - 1, n);
    if steps[n - 1].0 != i {
      OtherThread(s, steps, n - 1, i);
      p := ReadCurrent(s, steps, j, n - 1, i);
    } else {
      OwnStep(s, steps, n - 1, i);
      var r := After(s, steps, n - 1);
      LoadMove(r.m, r.threads[i], steps[n - 1].1);
      if Loaded(r.threads[i].pc).Some? {
        p := ReadCurrent(s, steps, j, n - 1, i);
      } else {
        Current(s, steps, n - 1);
        p := |History(s, steps, n - 1)| - 1;
      }
    }
  }

  lemma LoadMove(m: Shared, t: Thread, choice: Choice)
    ensures var got := Loaded(Move(m, t, choice).t.pc);
            got.Some? ==> got == if Loaded(t.pc).Some? then Loaded(t.pc) else Some(m.copy)
  {
  }

  /** So a read begun after an update was swapped in gets that update or a later change. */
  lemma ReadAfterUpdate(s: State, steps: seq<(nat, Choice)>, j: nat, k: nat, n: nat, u: nat, i: nat, c: Id)
    returns (q: nat, p: nat)
    requires Init(s) && j <= k <= n <= |steps| && i < |s.threads| && u < |s.threads|
    requires Ahead(After(s, steps, j).threads[u].pc, Update(c)) && !Ahead(After(s, steps, k).threads[u].pc, Update(c))
    requires Loaded(After(s, steps, k).threads[i].pc).None? && Loaded(After(s, steps, n).threads[i].pc).Some?
    ensures q <= p < |History(s, steps, n)| && History(s, steps, n)[q] == Some(c)
    ensures History(s, steps, n)[p] == Loaded(After(s, steps, n).threads[i].pc).value
  {
    hide After, Ahead, Loaded, History;
    JobDone(s, steps, j, k, u, Update(c));
    HistoryGrows(s, steps, k, n);
    q :| q < |History(s, steps, k)| && History(s, steps, k)[q] == Some(c);
    p := ReadCurrent(s, steps, k, n, i);
  }

  predicate Reading(pc: Pc) {
    pc.RSpin? || pc.RAdd? || pc.RCheck? || pc.RBack? || pc.RLoad? || pc.RInc? || pc.RUnlock? || pc.Compare?
  }

  /** A read that a thread begins goes on until it answers. */
  lemma {:induction false} ReadGoesOn(s: State, steps: seq<(nat, Choice)>, j: nat, n: nat, i: nat)
    requires j < n <= |steps| && i < |s.threads| && steps[j] == (i, ToRead) && After(s, steps, j).threads[i].pc.Idle?
    requires forall k :: j < k < n && steps[k].0 == i ==> !After(s, steps, k).threads[i].pc.Compare?
    ensures Reading(After(s, steps, n).threads[i].pc)
    decreases n
  {
    hide After;
    if n == j + 1 {
      OwnStep(s, steps, j, i);
    } else {
      ReadGoesOn(s, steps, j, n - 1, i);
      if steps[n - 1].0 != i {
        OtherThread(s, steps, n - 1, i);
      } else {
        OwnStep(s, steps, n - 1, i);
      }
    }
  }

  /** In every run: the read begun by step `j` and answered by step `n` leaves the reader with a copy that was current
      at some moment between the two. The answer is that there is nothing new if and only if that is the copy it had, or
      there is none. */
  lemma ReadReturns(s: State, steps: seq<(nat, Choice)>, j: nat, n: nat, i: nat) returns (p: nat)
    requires Init(s) && j < n < |steps| && i < |s.threads| && steps[n].0 == i
    requires After(s, steps, j).threads[i].pc.Idle? && After(s, steps, n).threads[i].pc.Compare?
    ensures |History(s, steps, j)| - 1 <= p < |History(s, steps, n)|
    ensures var got, t, t' := History(s, steps, n)[p], After(s, steps, n).threads[i], After(s, steps, n + 1).threads[i];
            t'.last == got && (t'.news.None? <==> got == t.last || got.None?) && (t'.news.Some? ==> t'.news == got)
  {
    hide After, History;
    p := ReadCurrent(s, steps, j, n, i);
    OwnStep(s, steps, n, i);
  }

  /** What `n` moves of one thread come to when no other moves. */
  ghost function Alone(m: Shared, t: Thread, choice: Choice, n: nat): Moved {
    if n == 0 then Moved(m, t) else
    var r := Alone(m, t, choice, n - 1);
    Move(r.m, r.t, choice)
  }

  /** No reader waits for anything but a writer: with none, a read that is not disturbed ends after eight moves, or seven
      when there is no copy, and gets the current copy. */
  lemma ReadAlone(m: Shared, t: Thread)
    requires !m.write && t.pc.Idle?
    ensures var r := Alone(m, t, ToRead, if m.copy.Some? then 8 else 7);
            !Reading(r.t.pc) && r.t.last == m.copy && r.m.copy == m.copy && r.m.read == m.read && !r.m.write
  {
    var refs := if m.copy.Some? && m.copy.value in m.refs then m.refs[m.copy.value := m.refs[m.copy.value] + 1] else m.refs;
    var inside := m.(read := m.read + 1);
    assert Alone(m, t, ToRead, 0) == Moved(m, t);
    assert Alone(m, t, ToRead, 1) == Moved(m, t.(pc := RSpin));
    assert Alone(m, t, ToRead, 2) == Moved(m, t.(pc := RAdd));
    assert Alone(m, t, ToRead, 3) == Moved(inside, t.(pc := RCheck));
    assert Alone(m, t, ToRead, 4) == Moved(inside, t.(pc := RLoad));
    if m.copy.Some? {
      assert Alone(m, t, ToRead, 5) == Moved(inside, t.(pc := RInc(m.copy.value)));
      assert Alone(m, t, ToRead, 6) == Moved(inside.(refs := refs), t.(pc := RUnlock(m.copy)));
      assert Alone(m, t, ToRead, 7) == Moved(m.(refs := refs), t.(pc := Compare(m.copy)));
    } else {
      assert Alone(m, t, ToRead, 5) == Moved(inside, t.(pc := RUnlock(None)));
      assert Alone(m, t, ToRead, 6) == Moved(m, t.(pc := Compare(None)));
    }
  }

  /** With nobody inside, an update that is not disturbed is current after five moves, and has left the lock. */
  lemma UpdateAlone(m: Shared, t: Thread)
    requires !m.write && m.read == 0 && t.pc.Idle?
    ensures var r := Alone(m, t, ToUpdate, 5);
            r.t.pc == Dropping(m.copy) && r.m.copy == Some(m.next) && r.m.read == 0 && !r.m.write
  {
    var job, made := Update(m.next), m.(refs := m.refs[m.next := 1], next := m.next + 1);
    assert Alone(m, t, ToUpdate, 0) == Moved(m, t);
    assert Alone(m, t, ToUpdate, 1) == Moved(made, t.(pc := WSet(job)));
    assert Alone(m, t, ToUpdate, 2) == Moved(made.(write := true), t.(pc := WDrain(job)));
    assert Alone(m, t, ToUpdate, 3) == Moved(made.(write := true), t.(pc := WSwap(job)));
    assert Alone(m, t, ToUpdate, 4) == Moved(made.(write := true, copy := Some(m.next)), t.(pc := WUnlock(m.copy)));
  }

  predicate WriterIn(pc: Pc) {
    pc.WSwap? || pc.WClear? || pc.WUnlock?
  }

  predicate ReaderIn(pc: Pc) {
    pc.RLoad? || pc.RInc? || pc.RUnlock?
  }

  /** In every run: a writer is inside the lock alone. */
  lemma MutualExclusion(s: State, steps: seq<(nat, Choice)>, i: nat, j: nat)
    requires Init(s)
    ensures var ts := Run(s, steps).threads;
            i < |ts| && j < |ts| && i != j && WriterIn(ts[i].pc) ==> !WriterIn(ts[j].pc) && !ReaderIn(ts[j].pc)
  {
    hide Run;
    RunInv(s, steps);
    var r := Run(s, steps);
    if i < |r.threads| && j < |r.threads| && i != j && WriterIn(r.threads[i].pc) {
      WriterAlone(r, i);
      assert Weigh(r.threads[j], WritesIn) == 0 && Weigh(r.threads[j], ReadsIn) == 0;
    }
  }

  /** In every run: a copy is freed at most once, and only when no thread has it. The object points to a freed copy only
      inside a release, between its two writes, and then no reader is inside to follow the pointer. */
  lemma FreedOnce(s: State, steps: seq<(nat, Choice)>, c: Id)
    requires Init(s)
    ensures var r := Run(s, steps);
            && multiset(r.m.freed)[c] <= 1
            && (c in r.m.freed ==>
                  && c !in r.m.refs
                  && (forall i :: 0 <= i < |r.threads| ==> Weigh(r.threads[i], Holds(c)) == 0 && r.threads[i].pc != RInc(c))
                  && (r.m.copy == Some(c) ==>
                        && (exists i :: 0 <= i < |r.threads| && r.threads[i].pc.WClear?)
                        && (forall i :: 0 <= i < |r.threads| ==> !ReaderIn(r.threads[i].pc))))
  {
    hide Run, Weigh, Sum;
    RunInv(s, steps);
    var r := Run(s, steps);
    assert CopyOk(r, c);
    if c in r.m.freed {
      assert multiset(r.m.freed)[c] > 0;
      forall i | 0 <= i < |r.threads|
        ensures Weigh(r.threads[i], Holds(c)) == 0 && r.threads[i].pc != RInc(c)
      {
        SumAtLeast(r.threads, i, Holds(c));
        if r.threads[i].pc == RInc(c) {
          HeldInMemory(r, i, c);
        }
      }
      if r.m.copy == Some(c) {
        Dangling(r);
      }
    }
  }

  lemma Dangling(s: State)
    requires LockOk(s) && Sum(s.threads, Clears) > 0
    ensures exists i :: 0 <= i < |s.threads| && s.threads[i].pc.WClear?
    ensures forall i :: 0 <= i < |s.threads| ==> !ReaderIn(s.threads[i].pc)
  {
    hide Sum;
    var i := Clearing(s.threads);
    WriterAlone(s, i);
    forall j | 0 <= j < |s.threads|
      ensures !ReaderIn(s.threads[j].pc)
    {
      assert Weigh(s.threads[j], ReadsIn) == 0;
    }
  }

  lemma {:induction false} Clearing(ts: seq<Thread>) returns (i: nat)
    requires Sum(ts, Clears) > 0
    ensures i < |ts| && ts[i].pc.WClear?
  {
    var n := |ts| - 1;
    if ts[n].pc.WClear? {
      i := n;
    } else {
      i := Clearing(ts[..n]);
    }
  }
}
