/** The gate's view of a connection: a list of received messages read as one stream of frames. A frame is a
    big-endian length of two or four bytes, and that many bytes. */
module Gate {

  type Byte = x: int | 0 <= x < 256

  const LIMIT := 0x100_0000

  // ---------------------------------------------------------------------------------------------
  // The stream, read at once
  // ---------------------------------------------------------------------------------------------

  function Unsigned(h: seq<Byte>): nat
    requires |h| == 2 || |h| == 4
  {
    var a, b: int := h[0] as int, h[1];
    if |h| == 2 then a * 256 + b else ((a * 256 + b) * 256 + h[2]) * 256 + h[3]
  }

  /** A frame length, as the code computes it in a 32-bit signed integer. */
  function Length(h: seq<Byte>): int
    requires |h| == 2 || |h| == 4
  {
    var n := Unsigned(h);
    if n < 0x8000_0000 then n else n - 0x1_0000_0000
  }

  /** Bytes by their weights, the first the heaviest; four bytes with the top bit set are a negative length. */
  lemma LengthWeights(h: seq<Byte>)
    requires |h| == 2 || |h| == 4
    ensures |h| == 2 ==> Length(h) == h[0] as int * 256 + h[1]
    ensures |h| == 4 ==>
              Length(h) == h[0] as int * 16777216 + h[1] as int * 65536 + h[2] as int * 256 + h[3] - if h[0] < 128 then 0 else 4294967296
  {
  }

  /** Where reading stops: a length still to come (`header` is 0), a frame still to come, or a frame too long. */
  datatype Status = Waiting(header: int) | Closed

  datatype Reading = Reading(frames: seq<seq<Byte>>, rest: seq<Byte>, status: Status)

  /** Reads on when `n` is the length awaited, or 0. Without a receiver a frame is not consumed, only its length. */
  ghost function Read(size: nat, receiver: bool, n: int, s: seq<Byte>): Reading
    requires size == 2 || size == 4
    decreases |s|, if n == 0 then 0 else 1
  {
    if n == 0 then
      if |s| < size then Reading([], s, Waiting(0)) else Read(size, receiver, Length(s[..size]), s[size..])
    else if n < 0 || |s| < n then Reading([], s, Waiting(n))
    else if n >= LIMIT then Reading([], [], Closed)
    else if receiver then Before(s[..n], Read(size, receiver, 0, s[n..]))
    else Read(size, receiver, 0, s)
  }

  ghost function Before(frame: seq<Byte>, r: Reading): Reading {
    r.(frames := [frame] + r.frames)
  }

  /** One reading, then another that goes on from it. */
  ghost function Then(a: Reading, b: Reading): Reading {
    Reading(a.frames + b.frames, b.rest, b.status)
  }

  /** The cases of `Read`, one at a time. */
  lemma ReadLength(size: nat, receiver: bool, s: seq<Byte>)
    requires (size == 2 || size == 4) && |s| >= size
    ensures Read(size, receiver, 0, s) == Read(size, receiver, Length(s[..size]), s[size..])
  {
  }

  lemma ReadFrame(size: nat, receiver: bool, n: int, s: seq<Byte>)
    requires (size == 2 || size == 4) && 0 < n <= |s| && n < 16777216
    ensures Read(size, receiver, n, s) ==
            if receiver then Before(s[..n], Read(size, receiver, 0, s[n..])) else Read(size, receiver, 0, s)
  {
  }

  lemma ReadStops(size: nat, receiver: bool, n: int, s: seq<Byte>)
    requires size == 2 || size == 4
    requires if n == 0 then |s| < size else n < 0 || |s| < n
    ensures Read(size, receiver, n, s) == Reading([], s, Waiting(n))
  {
  }

  lemma ReadTooLong(size: nat, receiver: bool, n: int, s: seq<Byte>)
    requires (size == 2 || size == 4) && 16777216 <= n <= |s|
    ensures Read(size, receiver, n, s) == Reading([], [], Closed)
  {
  }

  lemma ThenStops(s: seq<Byte>, n: int, b: Reading)
    ensures Then(Reading([], s, Waiting(n)), b) == b
  {
    assert [] + b.frames == b.frames;
  }

  lemma ThenBefore(frame: seq<Byte>, a: Reading, b: Reading)
    ensures Then(Before(frame, a), b) == Before(frame, Then(a, b))
  {
    assert ([frame] + a.frames) + b.frames == [frame] + (a.frames + b.frames);
  }

  /** Reading in two goes is reading at once. */
  lemma {:induction false} ReadOn(size: nat, receiver: bool, n: int, s: seq<Byte>, t: seq<Byte>)
    requires (size == 2 || size == 4) && Read(size, receiver, n, s).status.Waiting?
    ensures var a := Read(size, receiver, n, s);
            Read(size, receiver, n, s + t) == Then(a, Read(size, receiver, a.status.header, a.rest + t))
    decreases |s|, if n == 0 then 0 else 1
  {
    hide Length, Read, Then, Before;
    var a := Read(size, receiver, n, s);
    if n == 0 && |s| >= size {
      assert (s + t)[..size] == s[..size] && (s + t)[size..] == s[size..] + t;
      ReadLength(size, receiver, s);
      ReadLength(size, receiver, s + t);
      ReadOn(size, receiver, Length(s[..size]), s[size..], t);
    } else if n <= 0 || |s| < n {
      ReadStops(size, receiver, n, s);
      ThenStops(s, n, Read(size, receiver, n, s + t));
    } else if n >= LIMIT {
      ReadTooLong(size, receiver, n, s);
    } else {
      ReadFrame(size, receiver, n, s);
      ReadFrame(size, receiver, n, s + t);
      if receiver {
        assert (s + t)[..n] == s[..n] && (s + t)[n..] == s[n..] + t;
        BeforeStatus(s[..n], Read(size, receiver, 0, s[n..]));
        ReadOn(size, receiver, 0, s[n..], t);
        var c := Read(size, receiver, 0, s[n..]);
        ThenBefore(s[..n], c, Read(size, receiver, c.status.header, c.rest + t));
      } else {
        ReadOn(size, receiver, 0, s, t);
      }
    }
  }

  lemma ThenIs(a: Reading, b: Reading)
    ensures Then(a, b) == Reading(a.frames + b.frames, b.rest, b.status)
  {
  }

  lemma ThenMore(done: seq<seq<Byte>>, frame: seq<Byte>, b: Reading)
    ensures Then(Reading(done, [], Closed), Before(frame, b)) == Then(Reading(done + [frame], [], Closed), b)
  {
    assert done + ([frame] + b.frames) == (done + [frame]) + b.frames;
  }

  lemma BeforeStatus(frame: seq<Byte>, r: Reading)
    ensures Before(frame, r).status == r.status && Before(frame, r).rest == r.rest
  {
  }

  // ---------------------------------------------------------------------------------------------
  // The frames of a stream, by their unsigned lengths
  // ---------------------------------------------------------------------------------------------

  ghost function Plain(size: nat, s: seq<Byte>): seq<seq<Byte>>
    requires size == 2 || size == 4
  {
    if |s| < size || |s| < size + Unsigned(s[..size]) then []
    else [s[size..size + Unsigned(s[..size])]] + Plain(size, s[size + Unsigned(s[..size])..])
  }

  /** Every frame that has come whole is below the limit. */
  ghost predicate Fits(size: nat, s: seq<Byte>)
    requires size == 2 || size == 4
  {
    |s| >= size && |s| >= size + Unsigned(s[..size]) ==>
      Unsigned(s[..size]) < LIMIT && Fits(size, s[size + Unsigned(s[..size])..])
  }

  ghost function NonEmpty(fs: seq<seq<Byte>>): seq<seq<Byte>> {
    if fs == [] then [] else if fs[0] == [] then NonEmpty(fs[1..]) else [fs[0]] + NonEmpty(fs[1..])
  }

  /** With a receiver, a stream is read as its non-empty frames if and only if no frame in it is too long. */
  lemma {:induction false} ReadsPlain(size: nat, s: seq<Byte>)
    requires size == 2 || size == 4
    ensures Read(size, true, 0, s).frames == NonEmpty(Plain(size, s)) <==> Fits(size, s)
    ensures Fits(size, s) ==> Read(size, true, 0, s).status.Waiting?
    decreases |s|
  {
    hide Read, Unsigned, Length;
    if |s| < size {
      ReadStops(size, true, 0, s);
    } else {
      var n := Unsigned(s[..size]);
      LengthIs(s[..size]);
      ReadLength(size, true, s);
      if |s| < size + n {
        ReadStops(size, true, Length(s[..size]), s[size..]);
      } else {
        ReadsPlain(size, s[size + n..]);
        ReadsWhole(size, s, n);
      }
    }
  }

  lemma LengthIs(h: seq<Byte>)
    requires |h| == 2 || |h| == 4
    ensures Length(h) == if Unsigned(h) < 0x8000_0000 then Unsigned(h) else Unsigned(h) - 0x1_0000_0000
    ensures Length(h) < 0 <==> Unsigned(h) >= 0x8000_0000
  {
  }

  /** The first frame has come whole. */
  lemma ReadsWhole(size: nat, s: seq<Byte>, n: nat)
    requires (size == 2 || size == 4) && |s| >= size + n && n == Unsigned(s[..size])
    ensures if n >= LIMIT then Read(size, true, 0, s).frames == [] && NonEmpty(Plain(size, s)) != []
            else var r := Read(size, true, 0, s[size + n..]);
              && Read(size, true, 0, s).status == r.status
              && (Read(size, true, 0, s).frames == NonEmpty(Plain(size, s)) <==> r.frames == NonEmpty(Plain(size, s[size + n..])))
  {
    hide Read, Unsigned, Length;
    var frame, next := s[size..size + n], s[size + n..];
    LengthIs(s[..size]);
    ReadLength(size, true, s);
    assert s[size..][..n] == frame && s[size..][n..] == next;
    assert Plain(size, s) == [frame] + Plain(size, next);
    assert ([frame] + Plain(size, next))[1..] == Plain(size, next);
    if n == 0 {
      assert s[size..] == next;
    } else if n < LIMIT {
      ReadFrame(size, true, n, s[size..]);
      SameTail(frame, Read(size, true, 0, next).frames, NonEmpty(Plain(size, next)));
    } else if n < 0x8000_0000 {
      ReadTooLong(size, true, n, s[size..]);
    } else {
      ReadStops(size, true, Length(s[..size]), s[size..]);
    }
  }

  lemma SameTail(f: seq<Byte>, a: seq<seq<Byte>>, b: seq<seq<Byte>>)
    ensures [f] + a == [f] + b <==> a == b
  {
    assert ([f] + a)[1..] == a && ([f] + b)[1..] == b;
  }

  /** Without one, nothing is ever forwarded. */
  lemma {:induction false} ReadsNothing(size: nat, n: int, s: seq<Byte>)
    requires size == 2 || size == 4
    ensures Read(size, false, n, s).frames == []
    decreases |s|, if n == 0 then 0 else 1
  {
    hide Length;
    if n == 0 {
      if |s| >= size {
        ReadsNothing(size, Length(s[..size]), s[size..]);
      }
    } else if n >= 0 && |s| >= n && n < LIMIT {
      ReadsNothing(size, 0, s);
    }
  }

  /** So the frames agree if and only if there is none to forward. */
  lemma ReadsUnheard(size: nat, s: seq<Byte>)
    requires size == 2 || size == 4
    ensures Read(size, false, 0, s).frames == NonEmpty(Plain(size, s)) <==> NonEmpty(Plain(size, s)) == []
  {
    ReadsNothing(size, 0, s);
  }

  /** The lengths in numbers, the most significant byte first: a frame of either kind is read as its body. */
  lemma FrameBack(size: nat, d: seq<Byte>, t: seq<Byte>)
    requires size == 2 || size == 4
    requires 0 < |d| < if size == 2 then 65536 else 16777216
    ensures var n := |d|;
            var h: seq<Byte> := if size == 2 then [n / 256, n % 256] else [0, n / 65536, n / 256 % 256, n % 256];
            Read(size, true, 0, (h + d) + t) == Before(d, Read(size, true, 0, t))
  {
    hide Read, Before;
    var n := |d|;
    var h: seq<Byte> := if size == 2 then [n / 256, n % 256] else [0, n / 65536, n / 256 % 256, n % 256];
    var s := (h + d) + t;
    assert s[..size] == h && s[size..] == d + t;
    ReadLength(size, true, s);
    ReadFrame(size, true, n, d + t);
    assert (d + t)[..n] == d && (d + t)[n..] == t;
  }

  /** And the stream gets out of step: the body of a frame is taken for the length of the next. */
  lemma OutOfStep()
    ensures var s: seq<Byte> := [0, 1, 0, 5];
            Read(2, true, 0, s) == Reading([[0]], [5], Waiting(0)) && Read(2, false, 0, s) == Reading([], [], Waiting(5))
  {
    var s: seq<Byte> := [0, 1, 0, 5];
    assert s[..2] == [0, 1] && s[2..] == [0, 5];
    var t: seq<Byte> := [0, 5];
    assert t[..1] == [0] && t[1..] == [5];
    assert t[..2] == [0, 5] && t[2..] == [];
    assert Read(2, true, 0, t[1..]) == Reading([], [5], Waiting(0));
    assert Read(2, true, 1, t) == Reading([[0]], [5], Waiting(0));
    assert Read(2, false, 5, []) == Reading([], [], Waiting(5));
    assert Read(2, false, 0, t) == Reading([], [], Waiting(5));
    assert Read(2, false, 1, t) == Reading([], [], Waiting(5));
  }

  // ---------------------------------------------------------------------------------------------
  // The buffer
  // ---------------------------------------------------------------------------------------------

  ghost function Flat(ms: seq<seq<Byte>>): seq<Byte> {
    if ms == [] then [] else ms[0] + Flat(ms[1..])
  }

  lemma {:induction false} FlatNext(ms: seq<seq<Byte>>, m: seq<Byte>)
    ensures Flat(ms + [m]) == Flat(ms) + m
  {
    if ms == [] {
      assert [m][1..] == [] && ms + [m] == [m];
    } else {
      FlatNext(ms[1..], m);
      assert (ms + [m])[1..] == ms[1..] + [m];
    }
  }

  class Connection {
    const headerSize: nat
    /** The messages received and not yet used up, the first from `offset` on. */
    var list: seq<seq<Byte>>
    var offset: nat
    var size: int
    var header: int
    var open: bool
    /** The frames passed on. */
    var sent: seq<seq<Byte>>
    ghost var fed: seq<Byte>

    ghost predicate Valid()
      reads this
    {
      && (headerSize == 2 || headerSize == 4)
      && (if list == [] then offset == 0 else offset <= |list[0]|)
      && size == |Flat(list)| - offset
    }

    ghost function Bytes(): seq<Byte>
      requires Valid()
      reads this
    {
      FlatFrom(list, offset);
      Flat(list)[offset..]
    }

    /** All that came has been read as one stream, with a receiver throughout. */
    ghost predicate Framed()
      reads this
    {
      Valid() && Read(headerSize, true, 0, fed) == Reading(sent, Bytes(), if open then Waiting(header) else Closed)
    }

    constructor (n: nat)
      requires n == 2 || n == 4
      ensures Framed() && headerSize == n && open && sent == [] && fed == []
    {
      headerSize, list, offset, size, header, open, sent, fed := n, [], 0, 0, 0, true, [], [];
    }

    /** `databuffer_push`. */
    method Push(data: seq<Byte>)
      requires Valid()
      modifies this`list, this`size
      ensures Valid() && Bytes() == old(Bytes()) + data
    {
      FlatNext(list, data);
      FlatFrom(list, offset);
      list := list + [data];
      size := size + |data|;
    }

    /** `databuffer_read`: the next `n` bytes, across as many messages as they take. */
    method ReadBytes(n: nat) returns (buffer: seq<Byte>)
      requires Valid() && 0 < n <= size
      modifies this`list, this`offset, this`size
      ensures Valid() && buffer == old(Bytes()[..n]) && Bytes() == old(Bytes()[n..])
    {
      hide Flat;
      FlatFrom(list, offset);
      size := size - n;
      buffer, list, offset := TakeBytes(list, offset, n);
      FlatFrom(list, offset);
    }

    /** `databuffer_readheader`: the length of the frame at hand if it is all there, otherwise a negative number. */
    method ReadHeader() returns (n: int)
      requires Valid()
      modifies this`list, this`offset, this`size, this`header
      ensures Valid()
      ensures if old(header) == 0 && old(size) < headerSize then n == -1 && Bytes() == old(Bytes()) && header == 0
              else && (if old(header) == 0 then header == Length(old(Bytes()[..headerSize])) && Bytes() == old(Bytes()[headerSize..])
                       else header == old(header) && Bytes() == old(Bytes()))
                   && (if size < header then n == -1 else n == header)
    {
      if header == 0 {
        if size < headerSize {
          return -1;
        }
        var plen := ReadBytes(headerSize);
        header := Length(plen);
      }
      if size < header {
        return -1;
      }
      n := header;
    }

    /** `databuffer_clear`, and the connection is given up. */
    method Clear()
      requires Valid()
      modifies this`list, this`offset, this`size, this`header, this`open
      ensures Valid() && Bytes() == [] && header == 0 && !open
    {
      list, offset, size, header, open := [], 0, 0, 0, false;
    }

    /** `dispatch_message`: a chunk arrives, and every whole frame is forwarded, if there is anyone to take it. */
    method Dispatch(receiver: bool, data: seq<Byte>)
      requires Valid() && open
      modifies this
      ensures Valid() && fed == old(fed) + data
      ensures var r := Read(headerSize, receiver, old(header), old(Bytes()) + data);
              && sent == old(sent) + r.frames && Bytes() == r.rest
              && open == r.status.Waiting? && (open ==> header == r.status.header)
      ensures old(Framed()) && receiver ==> Framed()
    {
      hide Read, Length, Flat, Then;
      ghost var r := Read(headerSize, receiver, header, Bytes() + data);
      if Framed() && receiver {
        ReadOn(headerSize, true, 0, fed, data);
        ThenIs(Reading(sent, Bytes(), Waiting(header)), r);
      }
      fed := fed + data;
      Push(data);
      Frames(receiver, r);
    }

    /** The loop over the frames in the buffer. */
    method Frames(receiver: bool, ghost r: Reading)
      requires Valid() && open && r == Read(headerSize, receiver, header, Bytes())
      modifies this`list, this`offset, this`size, this`header, this`open, this`sent
      ensures Valid() && sent == old(sent) + r.frames && Bytes() == r.rest
      ensures open == r.status.Waiting? && (open ==> header == r.status.header)
    {
      hide Read, Length, Flat, Then, Before;
      ghost var done: seq<seq<Byte>> := [];
      ThenIs(Reading(done, [], Closed), r);
      assert [] + r.frames == r.frames && old(sent) + done == old(sent);
      while true
        invariant Valid() && open && sent == old(sent) + done
        invariant r == Then(Reading(done, [], Closed), Read(headerSize, receiver, header, Bytes()))
        decreases size, if header == 0 then 0 else 1
      {
        ghost var b, h := Bytes(), header;
        SizeIs();
        ThenIs(Reading(done, [], Closed), Read(headerSize, receiver, h, b));
        var n := ReadHeader();
        SizeIs();
        if h == 0 && |b| >= headerSize {
          ReadLength(headerSize, receiver, b);
        }
        if n < 0 {
          ReadStops(headerSize, receiver, header, Bytes());
          assert done + [] == done;
          break;
        } else if n > 0 {
          if n >= LIMIT {
            ReadTooLong(headerSize, receiver, n, Bytes());
            assert done + [] == done;
            Clear();
            break;
          } else {
            ReadFrame(headerSize, receiver, n, Bytes());
            if receiver {
              var frame := ReadBytes(n);
              ThenMore(done, frame, Read(headerSize, receiver, 0, Bytes()));
              sent := sent + [frame];
              done := done + [frame];
            }
            header := 0;
          }
        }
      }
    }

    lemma SizeIs()
      requires Valid()
      ensures size == |Bytes()|
    {
      FlatFrom(list, offset);
    }
  }

  /** The loop over the messages: those used up are returned to the pool. */
  method TakeBytes(list0: seq<seq<Byte>>, offset0: nat, n: nat) returns (buffer: seq<Byte>, list: seq<seq<Byte>>, offset: nat)
    requires (if list0 == [] then offset0 == 0 else offset0 <= |list0[0]|) && offset0 + n <= |Flat(list0)| && 0 < n
    ensures if list == [] then offset == 0 else offset <= |list[0]|
    ensures offset <= |Flat(list)| && buffer == Flat(list0)[offset0..][..n] && Flat(list)[offset..] == Flat(list0)[offset0..][n..]
  {
    hide Flat;
    ghost var all := Flat(list0)[offset0..];
    list, offset, buffer := list0, offset0, [];
    var sz := n;
    FlatNone();
    assert [] + all == all;
    while true
      invariant 0 < sz <= n && list != [] && offset <= |list[0]| && |buffer| == n - sz
      invariant offset <= |Flat(list)| && buffer + Flat(list)[offset..] == all && sz <= |Flat(list)| - offset
      decreases |list|
    {
      var current := list[0];
      var bsz := |current| - offset;
      FlatFirst(list, offset);
      if bsz > sz {
        TakeWithin(list, offset, sz, buffer, all);
        return buffer + current[offset..offset + sz], list, offset + sz;
      }
      TakeFirst(list, offset, buffer, all);
      buffer, list, offset := buffer + current[offset..], list[1..], 0;
      if bsz == sz {
        return;
      }
      FlatNone();
      sz := sz - bsz;
    }
  }

  lemma FlatNone()
    ensures Flat([]) == []
  {
  }

  lemma FlatFirst(ms: seq<seq<Byte>>, offset: nat)
    requires ms != [] && offset <= |ms[0]|
    ensures offset <= |Flat(ms)| && Flat(ms)[offset..] == ms[0][offset..] + Flat(ms[1..])
    ensures |Flat(ms)| == |ms[0]| + |Flat(ms[1..])|
  {
  }

  /** The bytes taken end inside the first message. */
  lemma TakeWithin(ms: seq<seq<Byte>>, offset: nat, sz: nat, done: seq<Byte>, all: seq<Byte>)
    requires ms != [] && offset + sz <= |ms[0]| && offset <= |Flat(ms)| && done + Flat(ms)[offset..] == all
    ensures offset + sz <= |Flat(ms)| && all[..|done| + sz] == done + ms[0][offset..offset + sz]
    ensures all[|done| + sz..] == Flat(ms)[offset + sz..]
  {
    hide Flat;
    FlatFirst(ms, offset);
    FlatFirst(ms, offset + sz);
    var part, tail := ms[0][offset..offset + sz], Flat(ms)[offset + sz..];
    assert ms[0][offset..] == part + ms[0][offset + sz..];
    assert all == (done + part) + tail;
  }

  /** They take all of it. */
  lemma TakeFirst(ms: seq<seq<Byte>>, offset: nat, done: seq<Byte>, all: seq<Byte>)
    requires ms != [] && offset <= |ms[0]| && offset <= |Flat(ms)| && done + Flat(ms)[offset..] == all
    ensures Flat(ms[1..])[0..] == Flat(ms[1..]) && (done + ms[0][offset..]) + Flat(ms[1..]) == all
    ensures var n := |done| + |ms[0]| - offset;
            n <= |all| && all[..n] == done + ms[0][offset..] && all[n..] == Flat(ms[1..])
  {
    hide Flat;
    FlatFirst(ms, offset);
    assert all == (done + ms[0][offset..]) + Flat(ms[1..]);
  }

  /** The offset is within the first message, so within the stream. */
  lemma FlatFrom(ms: seq<seq<Byte>>, offset: nat)
    requires if ms == [] then offset == 0 else offset <= |ms[0]|
    ensures offset <= |Flat(ms)|
  {
  }
}
