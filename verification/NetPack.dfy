/** Packets with a two-byte length, cut out of the byte streams of many sockets as they arrive in chunks. */
module NetPack {

  import opened Arith
  import opened Options
  import opened Ring

  type Byte = x: int | 0 <= x < 256

  datatype Pack = Pack(id: nat, data: seq<Byte>)

  // ---------------------------------------------------------------------------------------------
  // The stream, read at once
  // ---------------------------------------------------------------------------------------------

  function ReadSize(a: Byte, b: Byte): nat {
    a * 256 + b
  }

  /** The whole packets at the beginning of a stream. */
  ghost function Packs(s: seq<Byte>): seq<seq<Byte>> {
    if |s| < 2 || |s| < 2 + ReadSize(s[0], s[1]) then []
    else [s[2..2 + ReadSize(s[0], s[1])]] + Packs(s[2 + ReadSize(s[0], s[1])..])
  }

  /** What follows them. */
  ghost function Rest(s: seq<Byte>): seq<Byte> {
    if |s| < 2 || |s| < 2 + ReadSize(s[0], s[1]) then s else Rest(s[2 + ReadSize(s[0], s[1])..])
  }

  /** Reading in two goes is reading at once. */
  lemma {:induction false} ReadOn(s: seq<Byte>, t: seq<Byte>)
    ensures Packs(s + t) == Packs(s) + Packs(Rest(s) + t) && Rest(s + t) == Rest(Rest(s) + t)
    decreases |s|
  {
    if |s| >= 2 && |s| >= 2 + ReadSize(s[0], s[1]) {
      var n := ReadSize(s[0], s[1]);
      assert (s + t)[2..2 + n] == s[2..2 + n] && (s + t)[2 + n..] == s[2 + n..] + t;
      ReadOn(s[2 + n..], t);
    }
  }

  lemma {:induction false} OnePack(s: seq<Byte>, n: nat)
    requires |s| >= 2 + n && n == ReadSize(s[0], s[1])
    ensures Packs(s) == [s[2..2 + n]] + Packs(s[2 + n..]) && Rest(s) == Rest(s[2 + n..])
  {
  }

  /** `lpack`: the length in two bytes, the higher first, and the data. */
  method PackData(d: seq<Byte>) returns (r: Option<seq<Byte>>)
    ensures r == if |d| < 65536 then Some([|d| / 256, |d| % 256] + d) else None
  {
    var len := |d|;
    if len >= 0x1_0000 {
      return None;
    }
    r := Some([len / 0x100 % 0x100, len % 0x100] + d);
  }

  ghost function Frame(d: seq<Byte>): seq<Byte>
    requires |d| < 65536
  {
    [|d| / 256, |d| % 256] + d
  }

  /** What is sent when each body is packed. */
  ghost function Framed(ds: seq<seq<Byte>>): seq<Byte>
    requires forall i :: 0 <= i < |ds| ==> |ds[i]| < 65536
  {
    if ds == [] then [] else Frame(ds[0]) + Framed(ds[1..])
  }

  /** The packets read from a stream are the bodies packed into it. */
  lemma {:induction false} FramedBack(ds: seq<seq<Byte>>, t: seq<Byte>)
    requires forall i :: 0 <= i < |ds| ==> |ds[i]| < 65536
    ensures Packs(Framed(ds) + t) == ds + Packs(t) && Rest(Framed(ds) + t) == Rest(t)
    decreases ds
  {
    hide Packs, Rest, Frame;
    if ds == [] {
      assert Framed(ds) + t == t && [] + Packs(t) == Packs(t);
    } else {
      FramedBack(ds[1..], t);
      OneFramed(ds[0], Framed(ds[1..]) + t);
      JoinBytes(Frame(ds[0]), Framed(ds[1..]), t);
      assert [ds[0]] + (ds[1..] + Packs(t)) == ds + Packs(t);
    }
  }

  lemma JoinBytes(a: seq<Byte>, b: seq<Byte>, c: seq<Byte>)
    ensures (a + b) + c == a + (b + c)
  {
  }

  lemma OneFramed(d: seq<Byte>, more: seq<Byte>)
    requires |d| < 65536
    ensures Packs(Frame(d) + more) == [d] + Packs(more) && Rest(Frame(d) + more) == Rest(more)
  {
    hide Packs, Rest;
    var s := Frame(d) + more;
    assert s[2..2 + |d|] == d && s[2 + |d|..] == more;
    OnePack(s, |d|);
  }

  // ---------------------------------------------------------------------------------------------
  // Packets in progress
  // ---------------------------------------------------------------------------------------------

  /** A packet of which `read` bytes have come, or only the first byte of its header if `read` is -1. */
  datatype Uncomplete = Uncomplete(id: nat, read: int, header: Byte, size: nat, data: seq<Byte>)

  const HASHSIZE := 4096
  const QUEUESIZE := 1024

  function HashFd(fd: nat): (h: nat)
    ensures h < HASHSIZE
  {
    (fd / 0x100_0000 + fd / 0x1000 + fd) % 0x1_0000_0000 % HASHSIZE
  }

  /** The hash is the sum of the digits in base 4096. */
  lemma HashDigits(a: nat, b: nat, c: nat)
    requires b < 4096 && c < 4096
    ensures HashFd(a * 16777216 + b * 4096 + c) == (a + b + c) % 4096
  {
    var fd := a * 16777216 + b * 4096 + c;
    DivUnique(fd, 0x100_0000, a, b * 4096 + c);
    DivUnique(fd, 0x1000, a * 4096 + b, c);
    SameDigit(a + b + c, a + (a * 4096 + b) + fd, a * 4097 + b);
  }

  lemma SameDigit(x: nat, y: nat, k: nat)
    requires y == x + k * 4096
    ensures y % 0x1_0000_0000 % 4096 == x % 4096
  {
    var q, w := y / 0x1_0000_0000, y % 0x1_0000_0000;
    var d, r := w / 4096, w % 4096;
    assert x == (q * 0x10_0000 + d - k) * 4096 + r;
    DivUnique(x, 4096, q * 0x10_0000 + d - k, r);
  }

  ghost predicate Partial(u: Uncomplete) {
    u.read == -1 || (u.read == |u.data| < u.size < 0x1_0000)
  }

  /** The bytes it stands for. */
  ghost function Bytes(u: Uncomplete): seq<Byte>
    requires Partial(u)
  {
    if u.read < 0 then [u.header] else [u.size / 256, u.size % 256] + u.data
  }

  ghost predicate ChainOk(c: seq<Uncomplete>, h: nat) {
    && (forall i :: 0 <= i < |c| ==> Partial(c[i]) && HashFd(c[i].id) == h)
    && (forall i, j :: 0 <= i < j < |c| ==> c[i].id != c[j].id)
  }

  ghost function Find(c: seq<Uncomplete>, fd: nat): Option<Uncomplete> {
    if c == [] then None else if c[0].id == fd then Some(c[0]) else Find(c[1..], fd)
  }

  lemma {:induction false} FindIs(c: seq<Uncomplete>, fd: nat, i: nat)
    requires i < |c| && c[i].id == fd && forall j :: 0 <= j < i ==> c[j].id != fd
    ensures Find(c, fd) == Some(c[i])
  {
    if i > 0 {
      FindIs(c[1..], fd, i - 1);
    }
  }

  lemma {:induction false} FindNone(c: seq<Uncomplete>, fd: nat)
    requires forall j :: 0 <= j < |c| ==> c[j].id != fd
    ensures Find(c, fd) == None
  {
    if c != [] {
      FindNone(c[1..], fd);
    }
  }

  /** Taking a link out changes nothing for other sockets. */
  lemma {:induction false} FindWithout(c: seq<Uncomplete>, i: nat, fd: nat)
    requires i < |c| && c[i].id != fd
    ensures Find(c[..i] + c[i + 1..], fd) == Find(c, fd)
  {
    var c' := c[..i] + c[i + 1..];
    if i == 0 {
      assert c' == c[1..];
    } else {
      assert c[1..][..i - 1] + c[1..][i..] == c'[1..];
      FindWithout(c[1..], i - 1, fd);
    }
  }

  lemma {:induction false} FindPartial(c: seq<Uncomplete>, fd: nat, h: nat)
    requires ChainOk(c, h)
    ensures Find(c, fd).Some? ==> Partial(Find(c, fd).value) && Find(c, fd).value.id == fd
  {
    if c != [] {
      assert ChainOk(c[1..], h);
      FindPartial(c[1..], fd, h);
    }
  }

  ghost function Held(c: seq<Uncomplete>, fd: nat, h: nat): seq<Byte>
    requires ChainOk(c, h)
  {
    FindPartial(c, fd, h);
    if Find(c, fd).None? then [] else Bytes(Find(c, fd).value)
  }

  /** The packets of one socket, in order. */
  ghost function Of(ps: seq<Pack>, fd: nat): seq<seq<Byte>> {
    if ps == [] then [] else
    var r := Of(ps[..|ps| - 1], fd);
    if ps[|ps| - 1].id == fd then r + [ps[|ps| - 1].data] else r
  }

  ghost function Tagged(fd: nat, ds: seq<seq<Byte>>): seq<Pack> {
    seq(|ds|, i requires 0 <= i < |ds| => Pack(fd, ds[i]))
  }

  lemma {:induction false} OfTagged(ps: seq<Pack>, fd: nat, ds: seq<seq<Byte>>, f: nat)
    ensures Of(ps + Tagged(fd, ds), f) == if f == fd then Of(ps, f) + ds else Of(ps, f)
  {
    if ds == [] {
      assert ps + Tagged(fd, ds) == ps;
    } else {
      var n := |ds| - 1;
      OfTagged(ps, fd, ds[..n], f);
      assert (ps + Tagged(fd, ds))[..|ps| + n] == ps + Tagged(fd, ds[..n]);
    }
  }

  /** What `fd` has sent, whole, is what has come out for it and what is held. */
  ghost predicate InStep(fed: seq<Byte>, out: seq<Pack>, held: seq<Byte>, fd: nat) {
    Packs(fed) == Of(out, fd) && Rest(fed) == held
  }

  lemma StepOn(fed: seq<Byte>, out: seq<Pack>, held: seq<Byte>, fd: nat, c: seq<Byte>)
    requires InStep(fed, out, held, fd)
    ensures InStep(fed + c, out + Tagged(fd, Packs(held + c)), Rest(held + c), fd)
  {
    ReadOn(fed, c);
    OfTagged(out, fd, Packs(held + c), fd);
  }

  // ---------------------------------------------------------------------------------------------
  // The filter
  // ---------------------------------------------------------------------------------------------

  datatype Answer = Nothing | Data(pack: Pack) | More

  class Filter {
    const hash: array<seq<Uncomplete>>
    /** The packets queued, in a ring that grows by a fixed amount. */
    var ring: array<Pack>
    var head: nat
    var tail: nat
    ghost var queue: seq<Pack>
    /** All that came, socket by socket, and all that went out, returned or queued. */
    ghost var fed: map<nat, seq<Byte>>
    ghost var out: seq<Pack>

    ghost predicate Linked()
      reads hash
    {
      hash.Length == HASHSIZE && forall h :: 0 <= h < HASHSIZE ==> ChainOk(hash[h], h)
    }

    ghost predicate Ringed()
      reads this`ring, this`head, this`tail, this`queue, ring
    {
      head < ring.Length && tail < ring.Length && queue == Live(ring[..], head, tail)
    }

    ghost function HeldFor(fd: nat): seq<Byte>
      requires Linked()
      reads hash
    {
      Held(hash[HashFd(fd)], fd, HashFd(fd))
    }

    ghost function Fed(fd: nat): seq<Byte>
      reads this`fed
    {
      if fd in fed then fed[fd] else []
    }

    ghost predicate Valid()
      reads this, hash, ring
    {
      Linked() && Ringed() && forall fd :: InStep(Fed(fd), out, HeldFor(fd), fd)
    }

    constructor ()
      ensures Valid() && out == [] && queue == [] && fed == map[] && ring.Length == 1024
    {
      hash := new seq<Uncomplete>[HASHSIZE](_ => []);
      ring := new Pack[QUEUESIZE](_ => Pack(0, []));
      head, tail, queue, fed, out := 0, 0, [], map[], [];
    }

    /** `find_uncomplete`: takes the packet in progress out of its chain. */
    method Take(fd: nat) returns (r: Option<Uncomplete>)
      requires Linked()
      modifies hash
      ensures Linked() && Find(hash[HashFd(fd)], fd) == None && r == old(Find(hash[HashFd(fd)], fd))
      ensures r.Some? ==> Partial(r.value) && r.value.id == fd && Bytes(r.value) == old(HeldFor(fd))
      ensures r.None? ==> old(HeldFor(fd)) == []
      ensures forall f :: f != fd ==> HeldFor(f) == old(HeldFor(f))
    {
      hide HashFd, Bytes, Partial;
      var h := HashFd(fd);
      HashRange(fd);
      var c := hash[h];
      var i := 0;
      while i < |c|
        invariant 0 <= i <= |c| && hash[h] == c && forall j :: 0 <= j < i ==> c[j].id != fd
      {
        if c[i].id == fd {
          r := Some(c[i]);
          FindIs(c, fd, i);
          FindPartial(c, fd, h);
          hash[h] := c[..i] + c[i + 1..];
          FindNone(hash[h], fd);
          forall f | f != fd
            ensures Find(hash[HashFd(f)], f) == old(Find(hash[HashFd(f)], f))
          {
            HashRange(f);
            FindWithout(c, i, f);
          }
          return;
        }
        i := i + 1;
      }
      FindNone(c, fd);
      r := None;
    }

    /** `save_uncomplete`: a packet in progress goes to the front of its chain. */
    method Save(u: Uncomplete)
      requires Linked() && Partial(u) && Find(hash[HashFd(u.id)], u.id) == None
      modifies hash
      ensures Linked() && HeldFor(u.id) == Bytes(u)
      ensures forall f :: f != u.id ==> HeldFor(f) == old(HeldFor(f))
    {
      hide HashFd, Bytes, Partial;
      var h := HashFd(u.id);
      HashRange(u.id);
      var c := hash[h];
      NotThere(c, u.id);
      hash[h] := [u] + c;
      assert hash[h][1..] == c;
      forall f
        ensures Find(hash[HashFd(f)], f) == if f == u.id then Some(u) else old(Find(hash[HashFd(f)], f))
      {
        HashRange(f);
      }
    }

    /** `push_data`: the ring grows exactly when it has become full. */
    method PushData(fd: nat, data: seq<Byte>)
      requires Ringed()
      modifies this`queue, this`out, this`ring, this`head, this`tail, ring
      ensures Ringed() && (ring == old(ring) || fresh(ring))
      ensures queue == old(queue) + [Pack(fd, data)] && out == old(out) + [Pack(fd, data)]
      ensures ring.Length == old(ring.Length) + if |old(queue)| + 1 == old(ring.Length) then QUEUESIZE else 0
    {
      hide Live;
      ghost var at := tail;
      LiveLength(ring[..], head, tail);
      ring[tail] := Pack(fd, data);
      tail := tail + 1;
      if tail >= ring.Length {
        tail := tail - ring.Length;
      }
      if head == tail {
        FullRing(old(ring[..]), ring[..], head, at, Pack(fd, data));
        ExpandQueue();
      } else {
        PutRing(old(ring[..]), ring[..], head, at, Pack(fd, data));
      }
      queue, out := queue + [Pack(fd, data)], out + [Pack(fd, data)];
    }

    /** `expand_queue`, of a full ring. */
    method ExpandQueue()
      requires head == tail < ring.Length
      modifies this`ring, this`head, this`tail
      ensures fresh(ring) && ring.Length == old(ring.Length) + 1024 && head < ring.Length && tail < ring.Length
      ensures Live(ring[..], head, tail) == old(ring[head..]) + old(ring[..head])
    {
      var cap := ring.Length;
      ghost var full := ring[head..] + ring[..head];
      var bigger := new Pack[cap + QUEUESIZE](_ => Pack(0, []));
      var i := 0;
      while i < cap
        invariant 0 <= i <= cap && forall k :: 0 <= k < i ==> bigger[k] == full[k]
        modifies bigger
      {
        WrapIndex(head, i, cap);
        bigger[i] := ring[(head + i) % cap];
        i := i + 1;
      }
      ring, head, tail := bigger, 0, cap;
      assert ring[..][0..tail] == full;
    }

    /** `push_more`: all whole packets are queued and what is left over is kept. */
    method PushMore(fd: nat, buffer: seq<Byte>)
      requires Linked() && Ringed() && buffer != [] && Find(hash[HashFd(fd)], fd) == None
      modifies this`queue, this`out, this`ring, this`head, this`tail, ring, hash
      ensures Ringed() && (ring == old(ring) || fresh(ring))
      ensures Linked() && HeldFor(fd) == Rest(buffer)
      ensures out == old(out) + Tagged(fd, Packs(buffer)) && queue == old(queue) + Tagged(fd, Packs(buffer))
      ensures forall f :: f != fd ==> HeldFor(f) == old(HeldFor(f))
      decreases |buffer|
    {
      hide Live, HashFd, Packs, Rest, Bytes, Tagged, Find, Held;
      if |buffer| == 1 {
        var u := Uncomplete(fd, -1, buffer[0], 0, []);
        HeaderOnly(buffer, u);
        Save(u);
        return;
      }
      var size := ReadSize(buffer[0], buffer[1]);
      var body := buffer[2..];
      if |body| < size {
        var u := Uncomplete(fd, |body|, 0, size, body);
        TooShort(buffer, size, u);
        Save(u);
        return;
      }
      OnePack(buffer, size);
      assert buffer[2..2 + size] == body[..size] && buffer[2 + size..] == body[size..];
      TaggedMore(out, fd, body[..size], Packs(body[size..]));
      TaggedMore(queue, fd, body[..size], Packs(body[size..]));
      PushData(fd, body[..size]);
      if |body| > size {
        PushMore(fd, body[size..]);
      } else {
        NothingLeft(body[size..]);
        TaggedNone(out, fd);
        TaggedNone(queue, fd);
        FindNoneHeld(hash[HashFd(fd)], fd, HashFd(fd));
      }
    }

    /** A whole packet with more behind it. */
    method PushRest(fd: nat, data: seq<Byte>, buffer: seq<Byte>)
      requires Linked() && Ringed() && buffer != [] && Find(hash[HashFd(fd)], fd) == None
      modifies this`queue, this`out, this`ring, this`head, this`tail, ring, hash
      ensures Ringed() && (ring == old(ring) || fresh(ring))
      ensures Linked() && HeldFor(fd) == Rest(buffer) && forall f :: f != fd ==> HeldFor(f) == old(HeldFor(f))
      ensures out == old(out) + Tagged(fd, [data] + Packs(buffer))
      ensures |queue| > |old(queue)| && old(queue) <= queue && queue[|old(queue)|..] == Tagged(fd, [data] + Packs(buffer))
    {
      hide Live, HashFd, Packs, Rest, Tagged;
      TaggedMore(out, fd, data, Packs(buffer));
      TaggedMore(queue, fd, data, Packs(buffer));
      PushData(fd, data);
      PushMore(fd, buffer);
    }

    /** `filter_data_`: one chunk of bytes from one socket. */
    method FilterData(fd: nat, buffer: seq<Byte>) returns (r: Answer)
      requires Valid() && buffer != []
      modifies this, ring, hash
      ensures Valid() && (ring == old(ring) || fresh(ring)) && fed == old(fed)[fd := old(Fed(fd)) + buffer]
      ensures match r
              case Nothing => out == old(out) && queue == old(queue)
              case Data(p) => out == old(out) + [p] && queue == old(queue)
              case More => |queue| > |old(queue)| && old(queue) <= queue && out == old(out) + queue[|old(queue)|..]
    {
      hide Live, HashFd, Packs, Rest, Bytes, InStep, Partial;
      ghost var held := HeldFor(fd);
      forall f
        ensures InStep(old(Fed(f)), old(out), old(HeldFor(f)), f)
      {
      }
      var u := Take(fd);
      ghost var q0 := queue;
      ghost var ds := Packs(held + buffer);
      if u.Some? {
        r := Continue(u.value, buffer);
      } else {
        assert held + buffer == buffer;
        r := Begin(fd, buffer);
      }
      fed := fed[fd := old(Fed(fd)) + buffer];
      StepOn(old(Fed(fd)), old(out), held, fd, buffer);
      forall f
        ensures InStep(Fed(f), out, HeldFor(f), f)
      {
        if f != fd {
          OtherSocket(old(Fed(f)), old(out), old(HeldFor(f)), f, fd, ds);
        }
      }
    }

    /** A chunk for a socket with a packet in progress. */
    method Continue(u0: Uncomplete, buffer0: seq<Byte>) returns (r: Answer)
      requires Linked() && Ringed() && buffer0 != [] && Partial(u0) && Find(hash[HashFd(u0.id)], u0.id) == None
      modifies this`queue, this`out, this`ring, this`head, this`tail, ring, hash
      ensures Ringed() && (ring == old(ring) || fresh(ring))
      ensures Linked() && HeldFor(u0.id) == Rest(Bytes(u0) + buffer0)
      ensures out == old(out) + Tagged(u0.id, Packs(Bytes(u0) + buffer0))
      ensures forall f :: f != u0.id ==> HeldFor(f) == old(HeldFor(f))
      ensures match r
              case Nothing => out == old(out) && queue == old(queue)
              case Data(p) => out == old(out) + [p] && queue == old(queue)
              case More => |queue| > |old(queue)| && old(queue) <= queue && out == old(out) + queue[|old(queue)|..]
    {
      hide Live, HashFd, Packs, Rest, Bytes, ReadSize, Partial, Tagged, Find, Held;
      var u, buffer, fd := u0, buffer0, u0.id;
      AllBytes(u0, buffer0);
      if u.read < 0 {
        u := u.(size := ReadSize(u.header, buffer[0]), data := [], read := 0);
        buffer := buffer[1..];
      }
      ghost var all := Bytes(u0) + buffer0;
      var need := u.size - u.read;
      if |buffer| < need {
        var u' := u.(data := u.data + buffer, read := u.read + |buffer|);
        assert all[2..] == u'.data && |all| == 2 + |u'.data|;
        TooShort(all, u.size, u');
        Save(u');
        return Nothing;
      }
      assert all[2..] == u.data + buffer;
      BodyParts(all, u.size, u.data, buffer);
      var data := u.data + buffer[..need];
      buffer := buffer[need..];
      OnePack(all, u.size);
      if buffer == [] {
        NothingLeft(buffer);
        TaggedAlone(fd, data, Packs(buffer));
        FindNoneHeld(hash[HashFd(fd)], fd, HashFd(fd));
        out := out + [Pack(fd, data)];
        return Data(Pack(fd, data));
      }
      PushRest(fd, data, buffer);
      r := More;
    }

    /** A chunk for a socket with nothing in progress. */
    method Begin(fd: nat, buffer: seq<Byte>) returns (r: Answer)
      requires Linked() && Ringed() && buffer != [] && Find(hash[HashFd(fd)], fd) == None
      modifies this`queue, this`out, this`ring, this`head, this`tail, ring, hash
      ensures Ringed() && (ring == old(ring) || fresh(ring))
      ensures Linked() && HeldFor(fd) == Rest(buffer) && out == old(out) + Tagged(fd, Packs(buffer))
      ensures forall f :: f != fd ==> HeldFor(f) == old(HeldFor(f))
      ensures match r
              case Nothing => out == old(out) && queue == old(queue)
              case Data(p) => out == old(out) + [p] && queue == old(queue)
              case More => |queue| > |old(queue)| && old(queue) <= queue && out == old(out) + queue[|old(queue)|..]
    {
      hide Live, HashFd, Packs, Rest, Bytes, Tagged, Find, Held;
      if |buffer| == 1 {
        var u := Uncomplete(fd, -1, buffer[0], 0, []);
        HeaderOnly(buffer, u);
        Save(u);
        return Nothing;
      }
      var size := ReadSize(buffer[0], buffer[1]);
      var body := buffer[2..];
      if |body| < size {
        var u := Uncomplete(fd, |body|, 0, size, body);
        TooShort(buffer, size, u);
        Save(u);
        return Nothing;
      }
      OnePack(buffer, size);
      assert buffer[2..2 + size] == body[..size] && buffer[2 + size..] == body[size..];
      if |body| == size {
        NothingLeft(body[size..]);
        TaggedAlone(fd, body[..size], Packs(body[size..]));
        FindNoneHeld(hash[HashFd(fd)], fd, HashFd(fd));
        out := out + [Pack(fd, body[..size])];
        return Data(Pack(fd, body[..size]));
      }
      PushRest(fd, body[..size], body[size..]);
      r := More;
    }

    /** `lpop`. */
    method Pop() returns (r: Option<Pack>)
      requires Valid()
      modifies this`queue, this`head
      ensures Valid() && out == old(out)
      ensures if old(queue) == [] then r == None && queue == [] else r == Some(old(queue)[0]) && queue == old(queue)[1..]
    {
      hide InStep, HashFd, Live;
      LiveLength(ring[..], head, tail);
      if head == tail {
        return None;
      }
      LiveFirst(ring[..], head, tail);
      r := Some(ring[head]);
      queue := queue[1..];
      head := head + 1;
      if head >= ring.Length {
        head := 0;
      }
    }
  }

  /** The bytes of a packet in progress and those that follow, as a header, and a body that goes on in the new bytes. */
  lemma AllBytes(u: Uncomplete, buffer: seq<Byte>)
    requires Partial(u) && buffer != []
    ensures var n := if u.read < 0 then ReadSize(u.header, buffer[0]) else u.size;
            var all := Bytes(u) + buffer;
            && |all| >= 2 && n == ReadSize(all[0], all[1])
            && all[2..] == if u.read < 0 then buffer[1..] else u.data + buffer
    ensures u.read >= 0 ==> u.read == |u.data| < u.size
  {
    var all := Bytes(u) + buffer;
    if u.read >= 0 {
      assert all[0] == u.size / 256 && all[1] == u.size % 256;
    }
  }

  /** The body of a packet, and what follows it. */
  lemma BodyParts(all: seq<Byte>, size: nat, begun: seq<Byte>, more: seq<Byte>)
    requires |all| >= 2 && all[2..] == begun + more && |begun| <= size <= |begun| + |more|
    ensures 2 + size <= |all| && all[2..2 + size] == begun + more[..size - |begun|] && all[2 + size..] == more[size - |begun|..]
  {
    var body := all[2..];
    assert all[2..2 + size] == body[..size] && all[2 + size..] == body[size..];
  }

  /** Only the first byte of a header. */
  lemma {:induction false} HeaderOnly(s: seq<Byte>, u: Uncomplete)
    requires |s| == 1 && u.read == -1 && u.header == s[0]
    ensures Partial(u) && Packs(s) == [] && Rest(s) == s == Bytes(u) && Tagged(u.id, Packs(s)) == []
  {
  }

  /** A header and less than its packet. */
  lemma {:induction false} TooShort(s: seq<Byte>, size: nat, u: Uncomplete)
    requires 2 <= |s| < 2 + size && size == ReadSize(s[0], s[1]) && u.read == |s| - 2 && u.size == size && u.data == s[2..]
    ensures Partial(u) && Packs(s) == [] && Rest(s) == s == Bytes(u) && Tagged(u.id, Packs(s)) == []
  {
    assert s == [s[0], s[1]] + s[2..];
  }

  lemma {:induction false} NothingLeft(s: seq<Byte>)
    requires s == []
    ensures Packs(s) == [] && Rest(s) == []
  {
  }

  lemma TaggedFirst(fd: nat, d: seq<Byte>, ds: seq<seq<Byte>>)
    ensures Tagged(fd, [d] + ds) == [Pack(fd, d)] + Tagged(fd, ds)
  {
  }

  lemma TaggedMore(ps: seq<Pack>, fd: nat, d: seq<Byte>, ds: seq<seq<Byte>>)
    ensures (ps + [Pack(fd, d)]) + Tagged(fd, ds) == ps + Tagged(fd, [d] + ds) && |Tagged(fd, [d] + ds)| > 0
  {
    TaggedFirst(fd, d, ds);
  }

  lemma TaggedAlone(fd: nat, d: seq<Byte>, ds: seq<seq<Byte>>)
    requires ds == []
    ensures Tagged(fd, [d] + ds) == [Pack(fd, d)]
  {
  }

  lemma TaggedNone(ps: seq<Pack>, fd: nat)
    ensures ps + Tagged(fd, []) == ps
  {
  }

  lemma FindNoneHeld(c: seq<Uncomplete>, fd: nat, h: nat)
    requires ChainOk(c, h) && Find(c, fd) == None
    ensures Held(c, fd, h) == []
  {
  }

  lemma {:induction false} NotThere(c: seq<Uncomplete>, fd: nat)
    requires Find(c, fd) == None
    ensures forall i :: 0 <= i < |c| ==> c[i].id != fd
  {
    if c != [] {
      NotThere(c[1..], fd);
      forall i | 0 <= i < |c|
        ensures c[i].id != fd
      {
        assert i > 0 ==> c[i] == c[1..][i - 1];
      }
    }
  }

  lemma OtherSocket(fed: seq<Byte>, out: seq<Pack>, held: seq<Byte>, f: nat, fd: nat, ds: seq<seq<Byte>>)
    requires InStep(fed, out, held, f) && f != fd
    ensures InStep(fed, out + Tagged(fd, ds), held, f)
  {
    OfTagged(out, fd, ds, f);
  }

  lemma HashRange(fd: nat)
    ensures HashFd(fd) < HASHSIZE
  {
  }
}
