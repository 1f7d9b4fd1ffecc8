/** One service's message queue, a ring that doubles when it fills, and the global run queue, a list linked
    through the queues themselves. Both are proved against sequences; the scheduler's steps are stated over
    those. */
module MessageQueue {
  import opened Options
  import opened Ring

  const DEFAULT_QUEUE_SIZE := 64
  const MQ_OVERLOAD := 1024

  /** The first doubling of an overload threshold that a length does not exceed. */
  function Raised(threshold: nat, length: nat): nat
    requires 0 < threshold
    decreases length - threshold
  {
    if length <= threshold then threshold else Raised(threshold * 2, length)
  }

  class Queue<T(0)> {
    const handle: nat
    var cap: nat
    var head: nat
    var tail: nat
    var release: bool
    var inGlobal: bool
    var overload: nat
    var threshold: nat
    var ring: array<T>
    var next: Queue?<T>

    ghost predicate Valid()
      reads this`cap, this`head, this`tail, this`threshold, this`ring
    {
      cap == ring.Length && head < cap && tail < cap && 0 < threshold
    }

    ghost function Contents(): seq<T>
      requires Valid()
      reads this`cap, this`head, this`tail, this`threshold, this`ring, ring
    {
      Live(ring[..], head, tail)
    }

    /** A new queue is flagged as if it were in the run queue, so that no sender puts it there. */
    constructor (h: nat)
      ensures Valid() && fresh(ring) && Contents() == []
      ensures handle == h && inGlobal && !release && next == null
      ensures cap == 64 && threshold == 1024 && overload == 0
    {
      handle := h;
      cap, head, tail := DEFAULT_QUEUE_SIZE, 0, 0;
      release, inGlobal, overload, threshold := false, true, 0, MQ_OVERLOAD;
      ring := new T[DEFAULT_QUEUE_SIZE];
      next := null;
    }

    method Length() returns (n: nat)
      requires Valid()
      ensures n == |Contents()|
    {
      n := if head <= tail then tail - head else tail + cap - head;
    }

    /** Takes the oldest message. An empty queue gives up its place in the run queue. */
    method Pop() returns (m: Option<T>)
      requires Valid()
      modifies this`head, this`overload, this`threshold, this`inGlobal
      ensures Valid()
      ensures old(Contents()) == [] ==>
                m == None && Contents() == [] && !inGlobal && threshold == 1024 && overload == old(overload)
      ensures old(Contents()) != [] ==>
                && m == Some(old(Contents())[0]) && Contents() == old(Contents())[1..] && inGlobal == old(inGlobal)
                && |Contents()| <= threshold == Raised(old(threshold), |Contents()|)
                && (if |Contents()| <= old(threshold) then overload == old(overload)
                    else threshold < 2 * |Contents()| && overload == |Contents()|)
    {
      hide Live;
      LiveLength(ring[..], head, tail);
      if head != tail {
        LiveFirst(ring[..], head, tail);
        m := Some(ring[head]);
        head := head + 1;
        if head >= cap {
          head := 0;
        }
        LiveLength(ring[..], head, tail);
        var length := tail - head;
        if length < 0 {
          length := length + cap;
        }
        while length > threshold
          invariant 0 < threshold && Raised(threshold, length) == Raised(old(threshold), length)
          invariant if length <= old(threshold) then threshold == old(threshold) && overload == old(overload)
                    else threshold == old(threshold) || (threshold < 2 * length && overload == length)
          modifies this`overload, this`threshold
          decreases length - threshold
        {
          overload := length;
          threshold := threshold * 2;
        }
      } else {
        m := None;
        threshold := MQ_OVERLOAD;
        inGlobal := false;
      }
    }

    /** Called when the ring has just become full. */
    method Expand()
      requires Valid() && head == tail
      modifies this`head, this`tail, this`cap, this`ring
      ensures Valid() && fresh(ring)
      ensures Contents() == old(ring[head..]) + old(ring[..head]) && cap == 2 * old(cap)
    {
      var bigger := new T[cap * 2];
      var i := 0;
      while i < cap
        invariant 0 <= i <= cap
        invariant forall k :: 0 <= k < i ==> bigger[k] == (ring[head..] + ring[..head])[k]
        modifies bigger
      {
        bigger[i] := ring[(head + i) % cap];
        WrapIndex(head, i, cap);
        i := i + 1;
      }
      ghost var full := ring[head..] + ring[..head];
      head, tail := 0, cap;
      cap := cap * 2;
      ring := bigger;
      assert ring[..][0..tail] == full;
    }

    method Put(m: T)
      requires Valid()
      modifies this`head, this`tail, this`cap, this`ring, ring
      ensures Valid() && (ring == old(ring) || fresh(ring))
      ensures Contents() == old(Contents()) + [m]
      ensures cap == if |old(Contents())| + 1 == old(cap) then 2 * old(cap) else old(cap)
    {
      ghost var before := Contents();
      LiveLength(ring[..], head, tail);
      ring[tail] := m;
      ghost var at := tail;
      tail := tail + 1;
      if tail >= cap {
        tail := 0;
      }
      if head == tail {
        FullRing(old(ring[..]), ring[..], head, at, m);
        Expand();
      } else {
        PutRing(old(ring[..]), ring[..], head, at, m);
      }
    }
  }

  // ---------------------------------------------------------------------------------------------

  /** The run queue. `list` is its contents from head to tail; a queue in the list other than the last has
      its successor in `next`. */
  class RunQueue<T(0)> {
    var head: Queue?<T>
    var tail: Queue?<T>
    ghost var list: seq<Queue<T>>

    ghost function Nodes(): set<Queue<T>>
      reads this`list
    {
      set q | q in list
    }

    ghost predicate Valid()
      reads this, Nodes()`next
    {
      && (forall q :: q in list ==> q in Nodes())
      && (forall i, j :: 0 <= i < j < |list| ==> list[i] != list[j])
      && (list == [] ==> head == null && tail == null)
      && (list != [] ==> head == list[0] && tail == list[|list| - 1] && list[|list| - 1].next == null)
      && (forall i :: 0 <= i < |list| - 1 ==> list[i].next == list[i + 1])
    }

    constructor ()
      ensures Valid() && list == []
    {
      head, tail, list := null, null, [];
    }

    /** `q.next == null` is the assertion of the code. */
    method Push(q: Queue<T>)
      requires Valid() && q !in list && q.next == null
      modifies this, Nodes()`next
      ensures Valid() && list == old(list) + [q]
    {
      if tail != null {
        tail.next := q;
        tail := q;
      } else {
        head, tail := q, q;
      }
      list := list + [q];
    }

    /** What is taken out is linked to nothing, so it can be pushed again. */
    method Pop() returns (q: Queue?<T>)
      requires Valid()
      modifies this, Nodes()`next
      ensures Valid()
      ensures old(list) == [] ==> q == null && list == []
      ensures old(list) != [] ==> q == old(list)[0] && list == old(list)[1..] && q.next == null && q !in list
    {
      q := head;
      if q != null {
        assert |list| > 1 ==> list[0].next == list[1];
        head := q.next;
        if head == null {
          assert q == tail;
          tail := null;
        }
        q.next := null;
        list := list[1..];
      }
    }
  }

  // ---------------------------------------------------------------------------------------------

  /** A queue that is not in the run queue is linked to nothing. */
  ghost predicate Unlisted<T(0)>(g: RunQueue<T>, q: Queue<T>)
    reads g`list, q`next
  {
    q !in g.list && q.next == null
  }

  /** `skynet_mq_push`. */
  method Push<T(0)>(g: RunQueue<T>, q: Queue<T>, m: T)
    requires g.Valid() && q.Valid() && (!q.inGlobal ==> Unlisted(g, q))
    modifies g, g.Nodes()`next, q, q.ring
    ensures g.Valid() && q.Valid() && q.Contents() == old(q.Contents()) + [m]
    ensures q.inGlobal && q.release == old(q.release)
    ensures g.list == if old(q.inGlobal) then old(g.list) else old(g.list) + [q]
  {
    q.Put(m);
    if !q.inGlobal {
      q.inGlobal := true;
      g.Push(q);
    }
  }

  /** `skynet_mq_mark_release`. The flag `in_global` stays as it was. */
  method MarkRelease<T(0)>(g: RunQueue<T>, q: Queue<T>)
    requires g.Valid() && q.Valid() && !q.release && (!q.inGlobal ==> Unlisted(g, q))
    modifies g, g.Nodes()`next, q`release, q`next
    ensures g.Valid() && q.Valid() && q.Contents() == old(q.Contents()) && q.release
    ensures g.list == if q.inGlobal then old(g.list) else old(g.list) + [q]
  {
    q.release := true;
    if !q.inGlobal {
      g.Push(q);
    }
  }

  /** `_drop_queue`: every message goes to the drop function, in order. */
  method DropQueue<T(0)>(q: Queue<T>) returns (dropped: seq<T>)
    requires q.Valid()
    modifies q`head, q`overload, q`threshold, q`inGlobal
    ensures q.Valid() && dropped == old(q.Contents()) && q.Contents() == [] && !q.inGlobal
  {
    hide Live, Raised;
    dropped := [];
    ghost var all := q.Contents();
    var m := q.Pop();
    assert m.Some? ==> all == dropped + ([m.value] + q.Contents());
    while m.Some?
      invariant q.Valid()
      invariant m.Some? ==> all == dropped + ([m.value] + q.Contents())
      invariant m.None? ==> dropped == all && q.Contents() == [] && !q.inGlobal
      decreases m.Some?, |q.Contents()|
    {
      ghost var done, left := dropped + [m.value], q.Contents();
      assert all == done + left;
      dropped := dropped + [m.value];
      m := q.Pop();
      assert m.Some? ==> left == [m.value] + q.Contents();
      assert m.None? ==> done + left == done;
    }
  }

  /** `skynet_mq_release`: a queue whose context is gone is emptied; any other goes back to the run queue. */
  method Release<T(0)>(g: RunQueue<T>, q: Queue<T>) returns (dropped: seq<T>)
    requires g.Valid() && q.Valid() && Unlisted(g, q)
    modifies g, g.Nodes()`next, q
    ensures g.Valid() && q.Valid() && q.release == old(q.release)
    ensures q.release ==> dropped == old(q.Contents()) && q.Contents() == [] && Unlisted(g, q) && g.list == old(g.list)
    ensures !q.release ==> dropped == [] && q.Contents() == old(q.Contents()) && g.list == old(g.list) + [q]
  {
    if q.release {
      dropped := DropQueue(q);
    } else {
      dropped := [];
      g.Push(q);
    }
  }
}
