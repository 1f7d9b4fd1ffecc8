/** A ring of messages, as the queues of services and of packets keep them. */
module Ring {
  import opened Arith

  /** The live part of a ring: `head == tail` means empty. */
  ghost function Live<T>(ring: seq<T>, head: nat, tail: nat): seq<T>
    requires head < |ring| && tail < |ring|
  {
    if head <= tail then ring[head..tail] else ring[head..] + ring[..tail]
  }

  lemma WrapIndex(head: nat, i: nat, cap: nat)
    requires head < cap && i < cap
    ensures (head + i) % cap == if head + i < cap then head + i else head + i - cap
  {
    if head + i < cap {
      DivUnique(head + i, cap, 0, head + i);
    } else {
      DivUnique(head + i, cap, 1, head + i - cap);
    }
  }

  /** Writing at `tail` and stepping it, when that does not fill the ring. */
  lemma PutRing<T>(before: seq<T>, after: seq<T>, head: nat, tail: nat, m: T)
    requires |before| > 0 && tail < |before| && head < |before| && after == before[tail := m]
    requires var t := if tail + 1 == |before| then 0 else tail + 1; t != head
    ensures var t := if tail + 1 == |before| then 0 else tail + 1;
            Live(after, head, t) == Live(before, head, tail) + [m]
  {
    var t := if tail + 1 == |before| then 0 else tail + 1;
    if head <= tail {
      assert after[head..tail] == before[head..tail];
      if t == 0 {
        assert after[head..] == before[head..tail] + [m];
      } else {
        assert after[head..t] == before[head..tail] + [m];
      }
    } else {
      assert after[head..] == before[head..];
      assert after[..t] == before[..tail] + [m];
    }
  }

  /** Writing at `tail` and stepping it, when that fills the ring. */
  lemma FullRing<T>(before: seq<T>, after: seq<T>, head: nat, tail: nat, m: T)
    requires |before| > 0 && tail < |before| && head < |before| && after == before[tail := m]
    requires var t := if tail + 1 == |before| then 0 else tail + 1; t == head
    ensures after[head..] + after[..head] == Live(before, head, tail) + [m]
  {
    if head == 0 {
      assert after[head..] == before[head..tail] + [m];
      assert after[..head] == [];
    } else {
      assert after[head..] == before[head..];
      assert after[..head] == before[..tail] + [m];
    }
  }

  /** How many there are; one more fills the ring exactly if `tail` catches up with `head`. */
  lemma LiveLength<T>(ring: seq<T>, head: nat, tail: nat)
    requires head < |ring| && tail < |ring|
    ensures |Live(ring, head, tail)| == if head <= tail then tail - head else tail + |ring| - head
    ensures var t := if tail + 1 == |ring| then 0 else tail + 1; t == head <==> |Live(ring, head, tail)| + 1 == |ring|
  {
  }

  /** Taking the first. */
  lemma LiveFirst<T>(ring: seq<T>, head: nat, tail: nat)
    requires head < |ring| && tail < |ring| && head != tail
    ensures Live(ring, head, tail) != [] && Live(ring, head, tail)[0] == ring[head]
    ensures Live(ring, if head + 1 == |ring| then 0 else head + 1, tail) == Live(ring, head, tail)[1..]
  {
    if head > tail && head + 1 == |ring| {
      assert ring[head..] == [ring[head]];
    }
  }
}
