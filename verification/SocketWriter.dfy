/** The two-priority write buffer of a TCP socket. What the operating system answers to each write is drawn from a
    script that may hold anything. */
module SocketWriter {

  newtype Byte = x: int | 0 <= x < 256

  datatype Priority = High | Low

  datatype Packet = Packet(data: seq<Byte>, priority: Priority)

  /** A packet in a list: `ptr` bytes of it are on the wire and `sz` are still to go. */
  datatype Buffer = Buffer(packet: Packet, ptr: nat, sz: nat)

  datatype Kind = Invalid | PListen | Listen | Connecting | Connected | HalfClose | PAccept | Bind

  /** Outcomes of a write: some bytes taken, interrupted, would block, any other error. */
  datatype Outcome = Wrote(n: nat) | Interrupted | Again | Failed

  // ---------------------------------------------------------------------------------------------
  // Bytes, packets and their order
  // ---------------------------------------------------------------------------------------------

  /** Whole packets, one after the other. */
  ghost function Flat(ps: seq<Packet>): seq<Byte> {
    if ps == [] then [] else Flat(ps[..|ps| - 1]) + ps[|ps| - 1].data
  }

  ghost function Packets(bs: seq<Buffer>): seq<Packet> {
    seq(|bs|, i requires 0 <= i < |bs| => bs[i].packet)
  }

  ghost function Of(ps: seq<Packet>, p: Priority): seq<Packet> {
    if ps == [] then [] else
    var r := Of(ps[..|ps| - 1], p);
    if ps[|ps| - 1].priority == p then r + [ps[|ps| - 1]] else r
  }

  ghost function Unsent(bs: seq<Buffer>): nat {
    if bs == [] then 0 else bs[0].sz + Unsent(bs[1..])
  }

  /** Only the first buffer may have been written in part. */
  ghost predicate Whole(bs: seq<Buffer>) {
    && (forall i :: 0 <= i < |bs| ==> bs[i].ptr + bs[i].sz == |bs[i].packet.data|)
    && (forall i :: 1 <= i < |bs| ==> bs[i].ptr == 0)
  }

  /** The bytes of the packet in progress that are on the wire. */
  ghost function Begun(pend: seq<Buffer>): seq<Byte>
    requires Whole(pend)
  {
    if pend == [] then [] else pend[0].packet.data[..pend[0].ptr]
  }

  ghost predicate Fifo(accepted: seq<Packet>, sent: seq<Packet>, pend: seq<Buffer>) {
    forall p :: Of(accepted, p) == Of(sent, p) + Of(Packets(pend), p)
  }

  /** The wire carries whole packets and the beginning of the next one, and each priority keeps its order. */
  ghost predicate Ordered(wire: seq<Byte>, accepted: seq<Packet>, sent: seq<Packet>, pend: seq<Buffer>) {
    Whole(pend) && wire == Flat(sent) + Begun(pend) && Fifo(accepted, sent, pend)
  }

  lemma FlatNext(ps: seq<Packet>, p: Packet)
    ensures Flat(ps + [p]) == Flat(ps) + p.data
  {
    assert (ps + [p])[..|ps|] == ps;
  }

  lemma {:induction false} OfConcat(ps: seq<Packet>, qs: seq<Packet>, p: Priority)
    ensures Of(ps + qs, p) == Of(ps, p) + Of(qs, p)
  {
    if qs == [] {
      assert ps + qs == ps;
    } else {
      var n := |qs| - 1;
      OfConcat(ps, qs[..n], p);
      assert (ps + qs)[..|ps| + n] == ps + qs[..n];
    }
  }

  lemma {:induction false} UnsentConcat(bs: seq<Buffer>, cs: seq<Buffer>)
    ensures Unsent(bs + cs) == Unsent(bs) + Unsent(cs)
  {
    if bs == [] {
      assert bs + cs == cs;
    } else {
      UnsentConcat(bs[1..], cs);
      assert (bs + cs)[1..] == bs[1..] + cs;
    }
  }

  lemma UnsentOne(b: Buffer)
    ensures Unsent([b]) == b.sz
  {
    assert [b][1..] == [];
  }

  /** The first packet is finished. */
  lemma FinishFirst(wire: seq<Byte>, accepted: seq<Packet>, sent: seq<Packet>, pend: seq<Buffer>)
    requires Ordered(wire, accepted, sent, pend) && pend != []
    ensures Ordered(wire + pend[0].packet.data[pend[0].ptr..], accepted, sent + [pend[0].packet], pend[1..])
  {
    hide Of, Flat;
    var b := pend[0];
    FlatNext(sent, b.packet);
    assert wire + b.packet.data[b.ptr..] == Flat(sent) + b.packet.data;
    assert Begun(pend[1..]) == [];
    forall p
      ensures Of(accepted, p) == Of(sent + [b.packet], p) + Of(Packets(pend[1..]), p)
    {
      FinishFifo(accepted, sent, pend, p);
    }
  }

  lemma FinishFifo(accepted: seq<Packet>, sent: seq<Packet>, pend: seq<Buffer>, p: Priority)
    requires Fifo(accepted, sent, pend) && pend != []
    ensures Of(accepted, p) == Of(sent + [pend[0].packet], p) + Of(Packets(pend[1..]), p)
  {
    hide Of;
    assert Packets(pend) == [pend[0].packet] + Packets(pend[1..]);
    OfConcat([pend[0].packet], Packets(pend[1..]), p);
    OfConcat(sent, [pend[0].packet], p);
  }

  /** Part of the first packet is written. */
  lemma AdvanceFirst(wire: seq<Byte>, accepted: seq<Packet>, sent: seq<Packet>, pend: seq<Buffer>, n: nat)
    requires Ordered(wire, accepted, sent, pend) && pend != [] && n <= pend[0].sz
    ensures var b := pend[0];
            Ordered(wire + b.packet.data[b.ptr..b.ptr + n], accepted, sent,
                    [Buffer(b.packet, b.ptr + n, b.sz - n)] + pend[1..])
  {
    hide Of, Flat, Packets, Begun;
    var b := pend[0];
    var pend' := [Buffer(b.packet, b.ptr + n, b.sz - n)] + pend[1..];
    AdvanceWhole(pend, n);
    BegunGrows(pend, pend', n);
    JoinBytes(Flat(sent), Begun(pend), b.packet.data[b.ptr..b.ptr + n]);
    SamePackets(pend, pend');
  }

  lemma AdvanceWhole(pend: seq<Buffer>, n: nat)
    requires Whole(pend) && pend != [] && n <= pend[0].sz
    ensures Whole([Buffer(pend[0].packet, pend[0].ptr + n, pend[0].sz - n)] + pend[1..])
  {
  }

  lemma BegunGrows(pend: seq<Buffer>, pend': seq<Buffer>, n: nat)
    requires Whole(pend) && Whole(pend') && pend != [] && pend' != [] && n <= pend[0].sz
    requires pend'[0] == Buffer(pend[0].packet, pend[0].ptr + n, pend[0].sz - n)
    ensures Begun(pend') == Begun(pend) + pend[0].packet.data[pend[0].ptr..pend[0].ptr + n]
  {
    var d, i := pend[0].packet.data, pend[0].ptr;
    assert d[..i + n] == d[..i] + d[i..i + n];
  }

  lemma JoinBytes(a: seq<Byte>, b: seq<Byte>, c: seq<Byte>)
    ensures (a + b) + c == a + (b + c)
  {
  }

  lemma SamePackets(pend: seq<Buffer>, pend': seq<Buffer>)
    requires |pend| == |pend'| && forall i :: 0 <= i < |pend| ==> pend[i].packet == pend'[i].packet
    ensures Packets(pend) == Packets(pend')
  {
  }

  /** A packet joins the high list, in front of none of its own priority. */
  lemma AppendedHigh(wire: seq<Byte>, accepted: seq<Packet>, sent: seq<Packet>, high: seq<Buffer>, low: seq<Buffer>, b: Buffer)
    requires Ordered(wire, accepted, sent, high + low) && b.ptr == 0 && b.sz == |b.packet.data| && b.packet.priority.High?
    requires forall i :: 0 <= i < |low| ==> low[i].packet.priority.Low? && low[i].ptr == 0
    ensures Ordered(wire, accepted + [b.packet], sent, (high + [b]) + low)
  {
    var pend, pend' := high + low, (high + [b]) + low;
    forall i | 0 <= i < |pend'|
      ensures pend'[i].ptr + pend'[i].sz == |pend'[i].packet.data| && (i >= 1 ==> pend'[i].ptr == 0)
    {
      assert pend'[i] == if i < |high| then pend[i] else if i == |high| then b else pend[i - 1];
    }
    assert Begun(pend') == Begun(pend);
    forall p
      ensures Of(accepted + [b.packet], p) == Of(sent, p) + Of(Packets(pend'), p)
    {
      InsertedHigh(accepted, sent, high, low, b, p);
    }
  }

  lemma InsertedHigh(accepted: seq<Packet>, sent: seq<Packet>, high: seq<Buffer>, low: seq<Buffer>, b: Buffer, p: Priority)
    requires Fifo(accepted, sent, high + low) && b.packet.priority.High?
    requires forall i :: 0 <= i < |low| ==> low[i].packet.priority.Low?
    ensures Of(accepted + [b.packet], p) == Of(sent, p) + Of(Packets((high + [b]) + low), p)
  {
    hide Of;
    assert Packets((high + [b]) + low) == (Packets(high) + [b.packet]) + Packets(low);
    assert Packets(high + low) == Packets(high) + Packets(low);
    OfConcat(accepted, [b.packet], p);
    OfConcat(Packets(high), Packets(low), p);
    OfConcat(Packets(high) + [b.packet], Packets(low), p);
    OfConcat(Packets(high), [b.packet], p);
    if p.High? {
      OfOther(Packets(low), p);
    } else {
      OfOther([b.packet], p);
    }
  }

  lemma {:induction false} OfOther(ps: seq<Packet>, p: Priority)
    requires forall i :: 0 <= i < |ps| ==> ps[i].priority != p
    ensures Of(ps, p) == []
  {
    if ps != [] {
      OfOther(ps[..|ps| - 1], p);
    }
  }

  lemma AppendedLast(wire: seq<Byte>, accepted: seq<Packet>, sent: seq<Packet>, pend: seq<Buffer>, b: Buffer)
    requires Ordered(wire, accepted, sent, pend) && b.ptr == 0 && b.sz == |b.packet.data|
    ensures Ordered(wire, accepted + [b.packet], sent, pend + [b])
  {
    hide Of, Flat, Packets;
    assert Begun(pend + [b]) == Begun(pend);
    forall p
      ensures Of(accepted + [b.packet], p) == Of(sent, p) + Of(Packets(pend + [b]), p)
    {
      AppendedFifo(accepted, sent, pend, b, p);
    }
  }

  lemma AppendedFifo(accepted: seq<Packet>, sent: seq<Packet>, pend: seq<Buffer>, b: Buffer, p: Priority)
    requires Fifo(accepted, sent, pend)
    ensures Of(accepted + [b.packet], p) == Of(sent, p) + Of(Packets(pend + [b]), p)
  {
    hide Of;
    assert Packets(pend + [b]) == Packets(pend) + [b.packet];
    OfConcat(accepted, [b.packet], p);
    OfConcat(Packets(pend), [b.packet], p);
  }

  /** The answers take all of each buffer in turn, perhaps after interruptions. */
  ghost predicate Willing(script: seq<Outcome>, pend: seq<Buffer>)
    decreases |script|
  {
    pend == [] || (script != [] &&
      if script[0].Interrupted? then Willing(script[1..], pend)
      else script[0].Wrote? && script[0].n >= pend[0].sz && Willing(script[1..], pend[1..]))
  }

  /** Packets as they are put in a list. */
  ghost function Unbegun(ps: seq<Packet>): seq<Buffer> {
    seq(|ps|, i requires 0 <= i < |ps| => Buffer(ps[i], 0, |ps[i].data|))
  }

  lemma UnbegunNext(ps: seq<Packet>, n: nat, p: Priority)
    requires n < |ps|
    ensures Unbegun(Of(ps[..n + 1], p)) ==
            Unbegun(Of(ps[..n], p)) + if ps[n].priority == p then [Buffer(ps[n], 0, |ps[n].data|)] else []
  {
    assert ps[..n + 1][..n] == ps[..n];
  }

  lemma PacketsOfAll(high: seq<Buffer>, hs: seq<Packet>, low: seq<Buffer>, ls: seq<Packet>)
    ensures Packets((high + Unbegun(hs)) + (low + Unbegun(ls))) == (Packets(high) + hs) + (Packets(low) + ls)
  {
  }

  lemma {:induction false} FlatConcat(ps: seq<Packet>, qs: seq<Packet>)
    ensures Flat(ps + qs) == Flat(ps) + Flat(qs)
  {
    hide Flat;
    if qs == [] {
      FlatNone();
      assert ps + qs == ps;
    } else {
      var n := |qs| - 1;
      FlatConcat(ps, qs[..n]);
      FlatLast(ps + qs);
      FlatLast(qs);
      assert (ps + qs)[..|ps| + n] == ps + qs[..n];
      JoinBytes(Flat(ps), Flat(qs[..n]), qs[n].data);
    }
  }

  lemma FlatNone()
    ensures Flat([]) == []
  {
  }

  lemma FlatLast(ps: seq<Packet>)
    requires ps != []
    ensures Flat(ps) == Flat(ps[..|ps| - 1]) + ps[|ps| - 1].data
  {
  }

  /** The beginning of what is offered of a buffer. */
  lemma Offered(b: Buffer, n: nat)
    requires b.ptr + b.sz == |b.packet.data| && n <= b.sz
    ensures var d := b.packet.data;
            var taken := d[b.ptr..b.ptr + b.sz][..n];
            taken == d[b.ptr..b.ptr + n] && (n == b.sz ==> taken == d[b.ptr..])
  {
  }

  lemma LineNext(sent: seq<Packet>, pend: seq<Buffer>)
    requires pend != []
    ensures (sent + [pend[0].packet]) + Packets(pend[1..]) == sent + Packets(pend)
  {
    assert Packets(pend) == [pend[0].packet] + Packets(pend[1..]);
  }

  // ---------------------------------------------------------------------------------------------
  // The socket
  // ---------------------------------------------------------------------------------------------

  class Socket {
    /** Whether it was made by `bind_socket`. */
    const bound: bool
    var high: seq<Buffer>
    var low: seq<Buffer>
    var wbSize: int
    var kind: Kind
    /** Whether the write event is on. */
    var polled: bool
    /** The answers still to come; when there are none, writes would block. */
    var script: seq<Outcome>
    ghost var wire: seq<Byte>
    ghost var accepted: seq<Packet>
    ghost var sent: seq<Packet>
    /** What a close found unsent. */
    ghost var lost: seq<Buffer>

    ghost function Pending(): seq<Buffer>
      reads this`high, this`low, this`kind, this`lost
    {
      if kind.Invalid? then lost else high + low
    }

    /** All packets that have been taken, in the order in which they are on the wire or will be. */
    ghost function Line(): seq<Packet>
      reads this`high, this`low, this`kind, this`lost, this`sent
    {
      sent + Packets(Pending())
    }

    /** The lists and the counts fit what had been written by the time the wire was `w`. */
    ghost predicate FlowingFrom(w: seq<Byte>)
      reads this
    {
      && Ordered(w, accepted, sent, Pending())
      && (kind.Invalid? ==> high == [] && low == [])
      && (!kind.Invalid? ==> lost == [] && wbSize == Unsent(high) + Unsent(low))
      && (forall i :: 0 <= i < |low| ==> low[i].packet.priority.Low?)
      && (kind.Bind? ==> bound) && (bound ==> !polled && (kind.Bind? || kind.HalfClose? || kind.Invalid?))
    }

    ghost predicate Flowing()
      reads this
    {
      FlowingFrom(wire)
    }

    /** No low packet is begun, and unsent bytes of a connection are waited for, also once it is half closed. For a
        bound socket nothing ever turns the write event on. */
    ghost predicate Steady()
      reads this
    {
      && Flowing() && !Incomplete(low)
      && (kind.PAccept? || kind.PListen? || kind.Listen? ==> high == [] && low == [])
      && ((kind.Connected? || kind.Connecting?) && (high != [] || low != []) ==> polled)
      && (kind.HalfClose? ==> polled == !bound)
    }

    /** Between operations a pending connection is waited for as well. */
    ghost predicate Valid()
      reads this
    {
      Steady() && (kind.Connecting? ==> polled)
    }

    constructor (k: Kind)
      requires !k.Invalid? && !k.HalfClose?
      ensures Valid() && kind == k && high == [] && low == [] && wire == [] && accepted == [] && sent == []
      ensures bound == k.Bind? && script == []
    {
      hide Ordered, Unsent;
      bound := k.Bind?;
      high, low, wbSize, kind, polled := [], [], 0, k, k.Connecting?;
      script := [];
      wire, accepted, sent, lost := [], [], [], [];
      new;
      NothingPending();
    }

    /** `write`, the only thing that changes the wire: some of the bytes offered are taken, from the front. */
    method Write(data: seq<Byte>) returns (r: Outcome)
      modifies this`script, this`wire
      ensures r.Wrote? ==> r.n <= |data|
      ensures wire == if r.Wrote? then old(wire) + data[..r.n] else old(wire)
      ensures script == if old(script) == [] then [] else old(script)[1..]
      ensures old(script) == [] ==> r.Again?
      ensures old(script) != [] ==> r == if old(script)[0].Wrote? && old(script)[0].n > |data| then Wrote(|data|) else old(script)[0]
      ensures (forall x :: x in script ==> x in old(script)) && (r.Failed? ==> Failed in old(script))
    {
      if script == [] {
        return Again;
      }
      r := script[0];
      script := script[1..];
      if r.Wrote? && r.n > |data| {
        r := Wrote(|data|);
      }
      if r.Wrote? {
        wire := wire + data[..r.n];
      }
    }

    method ForceClose()
      requires Flowing()
      modifies this`high, this`low, this`kind, this`lost
      ensures Valid() && kind.Invalid? && Pending() == old(Pending()) && Line() == old(Line())
    {
      if !kind.Invalid? {
        lost := high + low;
        high, low, kind := [], [], Invalid;
      }
    }

    /** Writes until the answer is something other than an interruption. */
    method WriteRetry(data: seq<Byte>) returns (r: Outcome)
      modifies this`script, this`wire
      ensures !r.Interrupted? && (r.Wrote? ==> r.n <= |data|)
      ensures wire == if r.Wrote? then old(wire) + data[..r.n] else old(wire)
      ensures |script| <= |old(script)| && (old(script) != [] ==> |script| < |old(script)|) && (old(script) == [] ==> r.Again?)
      ensures (forall x :: x in script ==> x in old(script)) && (r.Failed? ==> Failed in old(script))
      ensures forall pend: seq<Buffer> :: pend != [] && pend[0].sz == |data| && Willing(old(script), pend) ==>
                r == Wrote(|data|) && Willing(script, pend[1..])
    {
      r := Write(data);
      while r.Interrupted?
        invariant forall pend: seq<Buffer> :: pend != [] && pend[0].sz == |data| && Willing(old(script), pend) ==>
                    if r.Interrupted? then Willing(script, pend) else r == Wrote(|data|) && Willing(script, pend[1..])
        invariant (r.Wrote? ==> r.n <= |data|) && wire == if r.Wrote? then old(wire) + data[..r.n] else old(wire)
        invariant (old(script) == [] ==> r.Again?) && |script| <= |old(script)| && (old(script) != [] ==> |script| < |old(script)|)
        invariant (forall x :: x in script ==> x in old(script)) && (r.Failed? ==> Failed in old(script))
        decreases |script|, r.Interrupted?
      {
        r := Write(data);
      }
    }

    /** Part of the first buffer of a list has been written. */
    method Advance(useHigh: bool, n: nat, ghost w: seq<Byte>)
      requires FlowingFrom(w) && !kind.Invalid?
      requires if useHigh then high != [] && n <= high[0].sz else high == [] && low != [] && n <= low[0].sz
      requires var b := if useHigh then high[0] else low[0];
               b.ptr + n <= |b.packet.data| && wire == w + b.packet.data[b.ptr..b.ptr + n]
      modifies this`high, this`low, this`wbSize
      ensures Flowing() && wbSize == old(wbSize) - n && Line() == old(Line())
      ensures var b := if useHigh then old(high)[0] else old(low)[0];
              var b' := Buffer(b.packet, b.ptr + n, b.sz - n);
              (if useHigh then high == [b'] + old(high)[1..] && low == old(low) else high == [] && low == [b'] + old(low)[1..])
    {
      hide Ordered, Unsent;
      wbSize := wbSize - n;
      var list := if useHigh then high else low;
      var b := list[0];
      var b' := Buffer(b.packet, b.ptr + n, b.sz - n);
      UnsentStep(list, n);
      AdvanceList(w, accepted, sent, high, low, list, n);
      SamePackets(high + low, if useHigh then [b'] + high[1..] + low else high + ([b'] + low[1..]));
      if useHigh {
        high := [b'] + high[1..];
      } else {
        low := [b'] + low[1..];
      }
    }

    /** All that was left of the first buffer of a list has been written. */
    method Finish(useHigh: bool, ghost w: seq<Byte>)
      requires FlowingFrom(w) && !kind.Invalid?
      requires if useHigh then high != [] else high == [] && low != []
      requires var b := if useHigh then high[0] else low[0];
               b.ptr <= |b.packet.data| && wire == w + b.packet.data[b.ptr..]
      modifies this`high, this`low, this`wbSize, this`sent
      ensures Flowing() && sent == old(sent) + [if useHigh then old(high)[0].packet else old(low)[0].packet]
      ensures Line() == old(Line())
      ensures if useHigh then low == old(low) && high == old(high)[1..] else high == [] && low == old(low)[1..] && !Incomplete(low)
    {
      hide Ordered, Unsent;
      ghost var pend := high + low;
      var list := if useHigh then high else low;
      var b := list[0];
      wbSize := wbSize - b.sz;
      UnsentStep(list, b.sz);
      FinishFirst(w, accepted, sent, pend);
      PendingFirst(w, accepted, sent, pend);
      LineNext(sent, pend);
      sent := sent + [b.packet];
      if useHigh {
        assert pend[1..] == high[1..] + low;
        high := high[1..];
      } else {
        assert pend == low;
        low := low[1..];
        assert pend[1..] == high + low;
      }
    }

    /** The wire has taken `n` bytes of what was offered of the first buffer. */
    method Took(useHigh: bool, n: nat, ghost w: seq<Byte>) returns (more: bool)
      requires FlowingFrom(w) && !kind.Invalid? && !Incomplete(low) && (if useHigh then high != [] else high == [] && low != [])
      requires var b := if useHigh then high[0] else low[0];
               n <= b.sz && b.ptr + b.sz == |b.packet.data| && wire == w + b.packet.data[b.ptr..b.ptr + b.sz][..n]
      modifies this`high, this`low, this`wbSize, this`sent
      ensures Flowing() && old(sent) <= sent && Line() == old(Line()) && (more <==> n == (if useHigh then old(high)[0] else old(low)[0]).sz)
      ensures more ==> !Incomplete(low) && (if useHigh then high == old(high)[1..] else low == old(low)[1..]) && |sent| == |old(sent)| + 1
      ensures if useHigh then low == old(low) && |sent| + |high| == |old(sent)| + |old(high)| else high == []
    {
      hide Ordered, Packets, Unsent;
      var tmp := if useHigh then high[0] else low[0];
      Offered(tmp, n);
      if n != tmp.sz {
        Advance(useHigh, n, w);
        return false;
      }
      Finish(useHigh, w);
      more := true;
    }

    /** One turn of the loop below: the first buffer is written as far as the wire takes it. */
    method SendFirst(useHigh: bool) returns (more: bool, closed: bool)
      requires Flowing() && !kind.Invalid? && !Incomplete(low) && (if useHigh then high != [] else high == [] && low != [])
      modifies this`high, this`low, this`wbSize, this`kind, this`script, this`wire, this`sent, this`lost
      ensures Flowing() && old(wire) <= wire && old(sent) <= sent && Line() == old(Line()) && !(more && closed)
      ensures if closed then Valid() && kind.Invalid? && Failed in old(script) else kind == old(kind)
      ensures forall x :: x in script ==> x in old(script)
      ensures more ==> !Incomplete(low) && (if useHigh then high == old(high)[1..] else low == old(low)[1..]) && |sent| == |old(sent)| + 1
      ensures !closed ==> if useHigh then low == old(low) && |sent| + |high| == |old(sent)| + |old(high)| else high == []
      ensures |script| <= |old(script)| && (old(script) != [] ==> |script| < |old(script)|)
      ensures old(script) == [] ==> !more && !closed && high == old(high) && low == old(low) && sent == old(sent)
      ensures Willing(old(script), old(high) + old(low)) ==> more && Willing(script, high + low)
    {
      hide Ordered, Willing, Packets, Unsent;
      var tmp := if useHigh then high[0] else low[0];
      ghost var w, pend := wire, high + low;
      assert pend[0] == tmp && pend[1..] == if useHigh then high[1..] + low else high + low[1..];
      PendingFirst(w, accepted, sent, pend);
      var r := WriteRetry(tmp.packet.data[tmp.ptr..tmp.ptr + tmp.sz]);
      if r.Again? {
        return false, false;
      } else if r.Failed? {
        ForceClose();
        return false, true;
      }
      more := Took(useHigh, r.n, w);
      closed := false;
    }

    /** `send_list_tcp`, over the high list or, when that is empty, the low one. */
    method SendList(useHigh: bool) returns (closed: bool)
      requires Flowing() && !kind.Invalid? && !Incomplete(low) && (useHigh || high == [])
      modifies this`high, this`low, this`wbSize, this`kind, this`script, this`wire, this`sent, this`lost
      ensures Flowing() && old(wire) <= wire && old(sent) <= sent && Line() == old(Line())
      ensures Willing(old(script), old(high) + old(low)) ==>
                !closed && (if useHigh then high else low) == [] && Willing(script, high + low)
      ensures if closed then Valid() && kind.Invalid? && Failed in old(script) else kind == old(kind)
      ensures forall x :: x in script ==> x in old(script)
      ensures !closed ==> if useHigh then low == old(low) && |sent| + |high| == |old(sent)| + |old(high)| else high == []
      ensures (if useHigh then old(high) else old(low)) != [] && old(script) != [] ==> |script| < |old(script)|
      ensures |script| <= |old(script)| && (closed ==> |script| < |old(script)|)
      ensures old(script) == [] ==> high == old(high) && low == old(low) && sent == old(sent)
    {
      hide Ordered, Willing, Packets;
      while (if useHigh then high else low) != []
        invariant Flowing() && kind == old(kind) && !Incomplete(low) && old(wire) <= wire && old(sent) <= sent
        invariant forall x :: x in script ==> x in old(script)
        invariant if useHigh then low == old(low) && |sent| + |high| == |old(sent)| + |old(high)| else high == []
        invariant Line() == old(Line()) && (Willing(old(script), old(high) + old(low)) ==> Willing(script, high + low))
        invariant |script| <= |old(script)|
        invariant (high == old(high) && low == old(low) && sent == old(sent)) || (old(script) != [] && |script| < |old(script)|)
        decreases |high| + |low|
      {
        var more;
        more, closed := SendFirst(useHigh);
        if !more {
          return;
        }
      }
      closed := false;
    }

    /** `raise_uncomplete`: a low packet begun becomes the head of the empty high list. */
    method RaiseIncomplete()
      requires Flowing() && !kind.Invalid? && Incomplete(low) && high == []
      modifies this`high, this`low
      ensures Flowing() && !Incomplete(low) && high == [old(low)[0]] && low == old(low)[1..] && Line() == old(Line())
    {
      hide Ordered;
      PendingFirst(wire, accepted, sent, high + low);
      UnsentOne(low[0]);
      assert high + low == low && low == [low[0]] + low[1..];
      high, low := [low[0]], low[1..];
    }

    /** `send_buffer`: high packets as far as possible, then low ones. A half-closed socket closes once all is sent. */
    method SendBuffer() returns (closed: bool)
      requires Valid() && !kind.Invalid?
      modifies this
      ensures Steady() && accepted == old(accepted) && old(wire) <= wire && old(sent) <= sent && Line() == old(Line())
      ensures Willing(old(script), old(high) + old(low)) ==> Pending() == [] && (closed ==> old(kind).HalfClose?)
      ensures !kind.Connecting? || high != [] || low != [] ==> Valid()
      ensures if closed then kind.Invalid? else kind == old(kind)
      ensures closed ==> Failed in old(script) || (old(kind).HalfClose? && lost == [])
      ensures !closed && |sent| < |old(sent)| + |old(high)| ==> low == old(low)
      ensures (old(high) != [] || old(low) != []) && old(script) != [] ==> |script| < |old(script)|
      ensures !closed ==> polled == (old(polled) && (high != [] || old(low) != []))
      ensures old(kind).HalfClose? && old(low) == [] && |sent| == |old(sent)| + |old(high)| ==> closed
      ensures old(script) == [] && (old(high) != [] || old(low) != []) ==>
                !closed && high == old(high) && low == old(low) && sent == old(sent)
    {
      hide Ordered, Packets, Willing;
      assert !Incomplete(low);
      closed := SendList(true);
      if closed {
        return;
      }
      if high == [] {
        if low != [] {
          closed := SendList(false);
          if closed {
            return;
          }
          if Incomplete(low) {
            RaiseIncomplete();
          }
        } else {
          polled := false;
          if kind.HalfClose? {
            ForceClose();
            closed := true;
          }
        }
      }
    }

    /** `send_socket`: straight to the wire when nothing is waiting, whatever the priority; what the wire does not
        take goes to the high list. */
    method Send(data: seq<Byte>, priority: Priority)
      requires Valid()
      modifies this
      ensures Valid() && old(wire) <= wire && old(sent) <= sent
      ensures if old(kind).Connecting? || old(kind).Connected? || old(kind).Bind? then accepted == old(accepted) + [Packet(data, priority)]
              else accepted == old(accepted) && Pending() == old(Pending()) && wire == old(wire) && sent == old(sent) && kind == old(kind)
      ensures kind != old(kind) ==> kind.Invalid? && Failed in old(script)
      ensures old(kind).Connecting? || old(kind).Bind? || (old(kind).Connected? && (old(high) != [] || old(low) != [])) ==>
                var b := Buffer(Packet(data, priority), 0, |data|);
                kind == old(kind) && wire == old(wire) && sent == old(sent) && script == old(script) &&
                if priority.Low? then high == old(high) && low == old(low) + [b] else high == old(high) + [b] && low == old(low)
    {
      hide Ordered;
      if Refuses(kind) {
        return;
      }
      var p := Packet(data, priority);
      if high == [] && low == [] && kind.Connected? {
        SendDirect(p);
      } else {
        Append(Buffer(p, 0, |data|));
      }
    }

    method SendDirect(p: Packet)
      requires Valid() && high == [] && low == [] && kind.Connected?
      modifies this
      ensures Valid() && old(wire) <= wire && accepted == old(accepted) + [p] && low == []
      ensures if kind.Invalid? then Failed in old(script) && wire == old(wire) && sent == old(sent) && lost == [Buffer(p, 0, |p.data|)]
              else if high == [] then kind == old(kind) && sent == old(sent) + [p]
              else kind == old(kind) && polled && sent == old(sent) && |high| == 1 && high[0].packet == p && high[0].sz > 0
    {
      hide Ordered, Unsent;
      ghost var w := wire;
      var r := Write(p.data);
      if r.Failed? {
        Direct(wire, accepted, sent, high, low, p, 0);
        accepted := accepted + [p];
        kind, lost := Invalid, [Buffer(p, 0, |p.data|)];
      } else {
        TakeDirect(p, if r.Wrote? then r.n else 0, w);
      }
    }

    /** The wire has taken `n` bytes of a packet. */
    method TakeDirect(p: Packet, n: nat, ghost w: seq<Byte>)
      requires FlowingFrom(w) && high == [] && low == [] && kind.Connected? && n <= |p.data| && wire == w + p.data[..n]
      modifies this`high, this`wbSize, this`polled, this`accepted, this`sent
      ensures Valid() && accepted == old(accepted) + [p]
      ensures if n == |p.data| then high == [] && sent == old(sent) + [p]
              else polled && sent == old(sent) && high == [Buffer(p, n, |p.data| - n)]
    {
      hide Ordered, Unsent;
      Direct(w, accepted, sent, high, low, p, n);
      accepted := accepted + [p];
      if n == |p.data| {
        assert p.data[..n] == p.data;
        sent := sent + [p];
      } else {
        high := [Buffer(p, n, |p.data| - n)];
        wbSize := wbSize + (|p.data| - n);
        polled := true;
      }
    }

    method Append(b: Buffer)
      requires Valid() && !Refuses(kind) && b.ptr == 0 && b.sz == |b.packet.data| && (kind.Connected? ==> high != [] || low != [])
      modifies this`high, this`low, this`wbSize, this`accepted
      ensures Valid() && accepted == old(accepted) + [b.packet]
      ensures if b.packet.priority.Low? then high == old(high) && low == old(low) + [b] else high == old(high) + [b] && low == old(low)
    {
      hide Ordered;
      UnsentOne(b);
      if b.packet.priority.Low? {
        AppendedLast(wire, accepted, sent, high + low, b);
        assert high + low + [b] == high + (low + [b]);
        UnsentConcat(low, [b]);
        low := low + [b];
      } else {
        LowFresh(wire, accepted, sent, high, low);
        AppendedHigh(wire, accepted, sent, high, low, b);
        UnsentConcat(high, [b]);
        high := high + [b];
      }
      accepted := accepted + [b.packet];
      wbSize := wbSize + b.sz;
    }

    /** `close_socket`: what is waiting is sent first if it can be; an orderly close loses nothing but to an error. */
    method Close(shutdown: bool)
      requires Valid()
      modifies this
      ensures Valid() && accepted == old(accepted) && old(wire) <= wire && old(sent) <= sent && Line() == old(Line())
      ensures kind.Invalid? || (!shutdown && kind.HalfClose? && (high != [] || low != []))
      ensures !old(kind).Invalid? && kind.Invalid? && !shutdown && Failed !in old(script) ==> lost == []
      ensures !old(kind).Invalid? && Willing(old(script), old(high) + old(low)) ==> kind.Invalid? && Pending() == []
      ensures kind.HalfClose? ==> polled == !bound
      ensures old(script) == [] && !shutdown && (old(high) != [] || old(low) != []) ==>
                old(kind).Invalid? || (kind.HalfClose? && sent == old(sent))
    {
      hide Ordered;
      if kind.Invalid? {
        return;
      }
      if high != [] || low != [] {
        var closed := SendBuffer();
        if closed {
          return;
        }
      }
      if shutdown || (high == [] && low == []) {
        ForceClose();
        return;
      }
      kind := HalfClose;
    }

    /** `report_connect`, when the connection is made. */
    method Connect()
      requires Valid() && kind.Connecting?
      modifies this`kind, this`polled
      ensures Valid() && kind.Connected? && polled == (high != [] || low != [])
    {
      hide Ordered;
      kind := Connected;
      if high == [] && low == [] {
        polled := false;
      }
    }

    /** `start_socket`, for a socket that was accepted. */
    method Start()
      requires Valid() && kind.PAccept?
      modifies this`kind
      ensures Valid() && kind.Connected?
    {
      hide Ordered;
      kind := Connected;
    }
  }

  /** What is sent to a socket that is still connecting waits, in order, the high packets before the low ones. */
  method SendEarly(s: Socket, ps: seq<Packet>)
    requires s.Valid() && s.kind.Connecting?
    modifies s
    ensures s.Valid() && s.kind.Connecting? && s.accepted == old(s.accepted) + ps
    ensures s.wire == old(s.wire) && s.sent == old(s.sent) && s.script == old(s.script)
    ensures s.high == old(s.high) + Unbegun(Of(ps, High)) && s.low == old(s.low) + Unbegun(Of(ps, Low))
  {
    hide Ordered, Of, Unbegun;
    NoneUnbegun(ps);
    for i := 0 to |ps|
      invariant s.Valid() && s.kind.Connecting? && s.accepted == old(s.accepted) + ps[..i]
      invariant s.wire == old(s.wire) && s.sent == old(s.sent) && s.script == old(s.script)
      invariant s.high == old(s.high) + Unbegun(Of(ps[..i], High)) && s.low == old(s.low) + Unbegun(Of(ps[..i], Low))
    {
      UnbegunNext(ps, i, High);
      UnbegunNext(ps, i, Low);
      s.Send(ps[i].data, ps[i].priority);
      assert ps[..i + 1] == ps[..i] + [ps[i]] && Packet(ps[i].data, ps[i].priority) == ps[i];
    }
    assert ps[..|ps|] == ps;
  }

  lemma NoneUnbegun(ps: seq<Packet>)
    ensures forall p :: Unbegun(Of(ps[..0], p)) == []
  {
  }

  /** Once connected it is written: all of it, in that order, if the wire takes it. */
  method SendOnConnect(s: Socket, ps: seq<Packet>) returns (closed: bool)
    requires s.Valid() && s.kind.Connecting?
    modifies s
    ensures s.Steady() && s.accepted == old(s.accepted) + ps
    ensures s.Line() == old(s.sent) + ((Packets(old(s.high)) + Of(ps, High)) + (Packets(old(s.low)) + Of(ps, Low)))
    ensures Willing(old(s.script), (old(s.high) + Unbegun(Of(ps, High))) + (old(s.low) + Unbegun(Of(ps, Low)))) ==>
              && !closed && s.kind.Connected? && s.Pending() == []
              && (old(s.high) == [] && old(s.low) == [] ==> s.wire == old(s.wire) + (Flat(Of(ps, High)) + Flat(Of(ps, Low))))
  {
    hide Ordered, Of, Unbegun, Packets, Willing, Flat;
    ghost var high, low, wire, sent := s.high, s.low, s.wire, s.sent;
    if high == [] && low == [] {
      SentInOrder(s, High);
    }
    SendEarly(s, ps);
    PacketsOfAll(high, Of(ps, High), low, Of(ps, Low));
    s.Connect();
    closed := s.SendBuffer();
    if s.Pending() == [] && high == [] && low == [] {
      SentInOrder(s, High);
      AllSent(s.sent, sent, high, low, Of(ps, High), Of(ps, Low));
    }
  }

  lemma AllSent(sent': seq<Packet>, sent: seq<Packet>, high: seq<Buffer>, low: seq<Buffer>, hs: seq<Packet>, ls: seq<Packet>)
    requires high == [] && low == [] && sent' + Packets([]) == sent + ((Packets(high) + hs) + (Packets(low) + ls))
    ensures Flat(sent') == Flat(sent) + (Flat(hs) + Flat(ls))
  {
    assert Packets([]) == [] && Packets(high) + hs == hs && Packets(low) + ls == ls;
    assert sent' == sent' + Packets([]);
    FlatConcat(sent, hs + ls);
    FlatConcat(hs, ls);
  }

  lemma NothingPending()
    ensures Ordered([], [], [], []) && Unsent([]) == 0
  {
    assert Packets([]) == [];
  }

  /** A bound socket takes a packet, never waits to write it, and when closed stays half closed. */
  method StuckHalfClosed(data: seq<Byte>) returns (s: Socket)
    ensures fresh(s) && s.Valid() && s.kind.HalfClose? && s.accepted == [Packet(data, High)] && s.sent == [] && !s.polled
  {
    hide Ordered;
    s := new Socket(Bind);
    s.Send(data, High);
    assert s.high == [Buffer(Packet(data, High), 0, |data|)];
    s.Close(false);
  }

  /** `list_uncomplete`. */
  predicate Incomplete(list: seq<Buffer>) {
    list != [] && list[0].ptr != 0
  }

  lemma AdvanceList(wire: seq<Byte>, accepted: seq<Packet>, sent: seq<Packet>, high: seq<Buffer>, low: seq<Buffer>,
                    list: seq<Buffer>, n: nat)
    requires Ordered(wire, accepted, sent, high + low) && high + low != []
    requires list == (if high != [] then high else low) && n <= list[0].sz
    ensures list[0].ptr + list[0].sz == |list[0].packet.data|
    ensures var b := list[0];
            var list' := [Buffer(b.packet, b.ptr + n, b.sz - n)] + list[1..];
            Ordered(wire + b.packet.data[b.ptr..b.ptr + n], accepted, sent, if high != [] then list' + low else high + list')
  {
    hide Ordered;
    var pend, b := high + low, list[0];
    PendingFirst(wire, accepted, sent, pend);
    AdvanceFirst(wire, accepted, sent, pend, n);
    var b' := Buffer(b.packet, b.ptr + n, b.sz - n);
    assert [b'] + pend[1..] == if high != [] then ([b'] + list[1..]) + low else high + ([b'] + list[1..]);
  }

  lemma PendingFirst(wire: seq<Byte>, accepted: seq<Packet>, sent: seq<Packet>, pend: seq<Buffer>)
    requires Ordered(wire, accepted, sent, pend) && pend != []
    ensures pend[0].ptr + pend[0].sz == |pend[0].packet.data|
    ensures forall i :: 1 <= i < |pend| ==> pend[i].ptr == 0
  {
  }

  lemma UnsentStep(list: seq<Buffer>, n: nat)
    requires list != [] && n <= list[0].sz
    ensures var b' := Buffer(list[0].packet, list[0].ptr + n, list[0].sz - n);
            Unsent(list) - n == Unsent([b'] + list[1..])
    ensures n == list[0].sz ==> Unsent(list) - n == Unsent(list[1..])
  {
    var b' := Buffer(list[0].packet, list[0].ptr + n, list[0].sz - n);
    assert ([b'] + list[1..])[1..] == list[1..];
  }

  /** A packet written at once, as far as `n` bytes. */
  lemma Direct(wire: seq<Byte>, accepted: seq<Packet>, sent: seq<Packet>, high: seq<Buffer>, low: seq<Buffer>, p: Packet, n: nat)
    requires high == [] && low == [] && Ordered(wire, accepted, sent, high + low) && n <= |p.data|
    ensures Ordered(wire, accepted + [p], sent, [Buffer(p, 0, |p.data|)])
    ensures n == |p.data| ==> Ordered(wire + p.data, accepted + [p], sent + [p], high + low)
    ensures var b := Buffer(p, n, |p.data| - n);
            Ordered(wire + p.data[..n], accepted + [p], sent, [b] + low) && Unsent(high) == 0 && Unsent([b]) == |p.data| - n
  {
    hide Ordered;
    var b, one := Buffer(p, n, |p.data| - n), [Buffer(p, 0, |p.data|)];
    assert high + low == [] && (high + low) + one == one && one[1..] == [] && [b] + one[1..] == [b] && [b] + low == [b];
    AppendedLast(wire, accepted, sent, high + low, one[0]);
    FinishFirst(wire, accepted + [p], sent, one);
    AdvanceFirst(wire, accepted + [p], sent, one, n);
    assert p.data[0..] == p.data && p.data[0..0 + n] == p.data[..n];
    UnsentOne(b);
  }

  /** The kinds of socket that take no packets. */
  predicate Refuses(k: Kind) {
    k.Invalid? || k.HalfClose? || k.PAccept? || k.PListen? || k.Listen?
  }

  lemma LowFresh(wire: seq<Byte>, accepted: seq<Packet>, sent: seq<Packet>, high: seq<Buffer>, low: seq<Buffer>)
    requires Ordered(wire, accepted, sent, high + low) && !Incomplete(low)
    ensures forall i :: 0 <= i < |low| ==> low[i].ptr == 0
  {
    forall i | 0 <= i < |low|
      ensures low[i].ptr == 0
    {
      assert low[i] == (high + low)[|high| + i];
    }
  }

  /** For each priority, what has been sent is the beginning of what was accepted. */
  lemma SentInOrder(s: Socket, p: Priority)
    requires s.Steady()
    ensures Of(s.sent, p) <= Of(s.accepted, p)
    ensures Flat(s.sent) <= s.wire
    ensures s.Pending() == [] ==> Of(s.sent, p) == Of(s.accepted, p) && s.wire == Flat(s.sent)
  {
  }
}
