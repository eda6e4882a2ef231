/** The framing of messages on the TCP link: a two-byte size, then the message
    (src/client/mesycontrol/tcp_client.py, src/server/tcp_connection.cc). */
module Framing {

  type Byte = x: int | 0 <= x < 256
  type Bytes = seq<Byte>

  // A size as a 16-bit number in network byte order.
  function SizeBytes(n: nat): (b: Bytes)
    ensures |b| == 2
  {
    [n % 0x1_0000 / 256, n % 256]
  }

  function SizeOf(b: Bytes): nat
    requires |b| >= 2
  {
    b[0] as int * 256 + b[1] as int
  }

  function Frame(payload: Bytes): Bytes {
    SizeBytes(|payload|) + payload
  }

  function Frames(payloads: seq<Bytes>): Bytes {
    if payloads == [] then [] else Frame(payloads[0]) + Frames(payloads[1..])
  }

  // A payload that its size bytes describe, and that is there at all.
  predicate Framable(payload: Bytes) {
    1 <= |payload| < 0x1_0000
  }

  // The client's reader: the size of the message being read (0 before its size
  // arrived), the bytes waiting in the socket and the messages handed out. It is
  // broken once a message could not be parsed and the client disconnects.
  datatype Reader = Reader(size: nat, pending: Bytes, delivered: seq<Bytes>, broken: bool)

  predicate Waiting(r: Reader) {
    r.broken || |r.pending| < if r.size == 0 then 2 else r.size
  }

  function ReadSize(r: Reader): (s: Reader)
    ensures |s.pending| <= |r.pending|
    ensures r.size == 0 && |r.pending| >= 2 ==> |s.pending| < |r.pending|
  {
    if r.size == 0 && |r.pending| >= 2 then
      r.(size := SizeOf(r.pending), pending := r.pending[2..])
    else
      r
  }

  function ReadBody(r: Reader, parses: Bytes -> bool): (s: Reader)
    ensures |s.pending| <= |r.pending|
    ensures 0 < r.size <= |r.pending| ==> |s.pending| < |r.pending|
  {
    if 0 < r.size <= |r.pending| then
      var payload, rest := r.pending[..r.size], r.pending[r.size..];
      if parses(payload) then Reader(0, rest, r.delivered + [payload], r.broken)
      else r.(pending := rest, broken := true)
    else
      r
  }

  // One pass of the loop in _socket_readyRead.
  function Once(r: Reader, parses: Bytes -> bool): (s: Reader)
    requires !Waiting(r)
    ensures |s.pending| < |r.pending|
  {
    ReadBody(ReadSize(r), parses)
  }

  function Drain(r: Reader, parses: Bytes -> bool): Reader
    decreases |r.pending|
  {
    if Waiting(r) then r else Drain(Once(r, parses), parses)
  }

  function More(r: Reader, bytes: Bytes): Reader {
    r.(pending := r.pending + bytes)
  }

  // The bytes arrive in pieces, and each time the reader drains the socket.
  function Receive(r: Reader, chunks: seq<Bytes>, parses: Bytes -> bool): Reader
    decreases |chunks|
  {
    if chunks == [] then r else Receive(Drain(More(r, chunks[0]), parses), chunks[1..], parses)
  }

  function Join(chunks: seq<Bytes>): Bytes {
    if chunks == [] then [] else chunks[0] + Join(chunks[1..])
  }

  const FRESH := Reader(0, [], [], false)

  // _socket_readyRead, with 'available' for the socket's buffer.
  class MessageReader {
    const parses: Bytes -> bool
    var readSize: nat
    var available: Bytes
    var delivered: seq<Bytes>
    var disconnecting: bool

    ghost function View(): Reader
      reads this
    {
      Reader(readSize, available, delivered, disconnecting)
    }

    constructor (parses: Bytes -> bool)
      ensures this.parses == parses && View() == FRESH
    {
      this.parses := parses;
      readSize, available, delivered, disconnecting := 0, [], [], false;
    }

    // _socket_disconnected resets the size that was read; the next connection
    // begins with an empty buffer.
    method Reconnect()
      modifies this
      ensures View() == Reader(0, [], old(delivered), false)
    {
      readSize, available, disconnecting := 0, [], false;
    }

    method Arrive(chunk: Bytes)
      modifies this
      ensures View() == Drain(More(old(View()), chunk), parses)
    {
      available := available + chunk;
      ReadyRead();
    }

    method ReadyRead()
      modifies this
      ensures View() == Drain(old(View()), parses)
    {
      while !disconnecting
        invariant Drain(View(), parses) == Drain(old(View()), parses)
        decreases |available|, !disconnecting
      {
        if readSize == 0 && |available| < 2 {
          return;
        }
        if readSize > 0 && |available| < readSize {
          return;
        }
        if readSize == 0 && |available| >= 2 {
          readSize, available := SizeOf(available), available[2..];
        }
        if readSize > 0 && |available| >= readSize {
          var payload := available[..readSize];
          available := available[readSize..];
          if !parses(payload) {
            disconnecting := true;
            return;
          }
          readSize := 0;
          delivered := delivered + [payload];
        }
      }
    }
  }

  lemma OnceMore(r: Reader, more: Bytes, parses: Bytes -> bool)
    requires !Waiting(r)
    requires var s := ReadSize(r); s.size > 0 ==> s.size <= |s.pending|
    ensures !Waiting(More(r, more)) && Once(More(r, more), parses) == More(Once(r, parses), more)
  {
    var s := ReadSize(r);
    if r.size == 0 {
      assert (r.pending + more)[2..] == r.pending[2..] + more;
    }
    assert ReadSize(More(r, more)) == More(s, more);
    if s.size > 0 {
      assert (s.pending + more)[..s.size] == s.pending[..s.size];
      assert (s.pending + more)[s.size..] == s.pending[s.size..] + more;
    }
  }

  // Draining early makes no difference.
  lemma {:induction false} DrainMore(r: Reader, more: Bytes, parses: Bytes -> bool)
    ensures Drain(More(r, more), parses) == Drain(More(Drain(r, parses), more), parses)
    decreases |r.pending|
  {
    if Waiting(r) {
    } else {
      var s := ReadSize(r);
      if s.size > 0 && s.size > |s.pending| {
        // The size is read, its message is not there yet.
        assert r.size == 0 && Once(r, parses) == s && Drain(r, parses) == s;
        SizeThenBody(r, more, parses);
      } else {
        OnceMore(r, more, parses);
        DrainMore(Once(r, parses), more, parses);
      }
    }
  }

  lemma SizeThenBody(r: Reader, more: Bytes, parses: Bytes -> bool)
    requires r.size == 0 && !Waiting(r) && ReadSize(r).size > |ReadSize(r).pending|
    ensures Drain(More(r, more), parses) == Drain(More(ReadSize(r), more), parses)
  {
    var s := ReadSize(r);
    assert (r.pending + more)[2..] == r.pending[2..] + more;
    assert ReadSize(More(r, more)) == More(s, more);
    if |s.pending + more| >= s.size {
      assert Once(More(r, more), parses) == Once(More(s, more), parses);
    }
  }

  // However the bytes are cut into pieces, the reader ends up the same.
  lemma {:induction false} Fragmentation(r: Reader, chunks: seq<Bytes>, parses: Bytes -> bool)
    requires Waiting(r)
    ensures Receive(r, chunks, parses) == Drain(More(r, Join(chunks)), parses)
    decreases |chunks|
  {
    if chunks == [] {
      assert More(r, []) == r;
    } else {
      var s := Drain(More(r, chunks[0]), parses);
      DrainWaits(More(r, chunks[0]), parses);
      Fragmentation(s, chunks[1..], parses);
      DrainMore(More(r, chunks[0]), Join(chunks[1..]), parses);
      assert r.pending + chunks[0] + Join(chunks[1..]) == r.pending + (chunks[0] + Join(chunks[1..]));
    }
  }

  lemma DrainWaits(r: Reader, parses: Bytes -> bool)
    ensures Waiting(Drain(r, parses))
    ensures r.delivered <= Drain(r, parses).delivered
    ensures r.broken ==> Drain(r, parses).broken
    decreases |r.pending|
  {
    if Waiting(r) {
    } else {
      DrainWaits(Once(r, parses), parses);
    }
  }

  lemma SizeBytesRead(n: nat)
    requires n < 0x1_0000
    ensures SizeOf(SizeBytes(n)) == n
  {
  }

  // The first byte counts for more than the second: sizes compare as their bytes
  // do, from left to right; and every two bytes are those of the size they give.
  lemma NetworkByteOrder(m: nat, n: nat, b: Bytes)
    requires m < 0x1_0000 && n < 0x1_0000 && |b| == 2
    ensures var x, y := SizeBytes(m), SizeBytes(n);
            m < n <==> x[0] < y[0] || (x[0] == y[0] && x[1] < y[1])
    ensures SizeOf(b) < 0x1_0000 && SizeBytes(SizeOf(b)) == b
  {
    SizeBytesRead(m);
    SizeBytesRead(n);
    BytesOfSize(b);
    hide SizeBytes;
  }

  lemma BytesOfSize(b: Bytes)
    requires |b| == 2
    ensures SizeOf(b) < 0x1_0000 && SizeBytes(SizeOf(b)) == b
  {
    var h, l := b[0] as int, b[1] as int;
    assert (256 * h + l) / 256 == h && (256 * h + l) % 256 == l;
  }

  lemma OneFrame(r: Reader, payload: Bytes, rest: Bytes, parses: Bytes -> bool)
    requires r.size == 0 && !r.broken && r.pending == Frame(payload) + rest
    requires Framable(payload) && parses(payload)
    ensures Drain(r, parses) == Drain(Reader(0, rest, r.delivered + [payload], false), parses)
  {
    SizeBytesRead(|payload|);
    assert r.pending[2..] == payload + rest;
    assert (payload + rest)[..|payload|] == payload && (payload + rest)[|payload|..] == rest;
  }

  lemma {:induction false} FramesArrive(r: Reader, payloads: seq<Bytes>, parses: Bytes -> bool)
    requires r.size == 0 && !r.broken && r.pending == Frames(payloads)
    requires forall p <- payloads :: Framable(p) && parses(p)
    ensures Drain(r, parses) == Reader(0, [], r.delivered + payloads, false)
    decreases |payloads|
  {
    hide Frame;
    if payloads == [] {
    } else {
      OneFrame(r, payloads[0], Frames(payloads[1..]), parses);
      hide Drain, Frames;
      FramesArrive(Reader(0, Frames(payloads[1..]), r.delivered + [payloads[0]], false), payloads[1..], parses);
      assert payloads == [payloads[0]] + payloads[1..];
    }
  }

  lemma MoreAndMore(r: Reader, a: Bytes, b: Bytes)
    ensures More(More(r, a), b) == More(r, a + b)
    ensures More(r, a).delivered == r.delivered && More(r, a).broken == r.broken
  {
    assert r.pending + a + b == r.pending + (a + b);
  }

  lemma FreshWaits(stream: Bytes)
    ensures Waiting(FRESH) && More(FRESH, stream) == Reader(0, stream, [], false)
  {
  }

  // What the whole stream gives, a first part of it gives a first part of.
  lemma PartOfStream(payloads: seq<Bytes>, arrived: Bytes, missing: Bytes, parses: Bytes -> bool)
    requires forall p <- payloads :: Framable(p) && parses(p)
    requires Frames(payloads) == arrived + missing
    ensures var now := Drain(More(FRESH, arrived), parses);
            now.delivered <= payloads && !now.broken && (arrived == Frames(payloads) ==> now.delivered == payloads)
  {
    hide Drain, More, Frames, Waiting, Framable;
    var now := Drain(More(FRESH, arrived), parses);
    DrainMore(More(FRESH, arrived), missing, parses);
    MoreAndMore(FRESH, arrived, missing);
    MoreAndMore(now, missing, []);
    DrainWaits(More(now, missing), parses);
    FreshWaits(Frames(payloads));
    FramesArrive(More(FRESH, Frames(payloads)), payloads, parses);
    assert [] + payloads == payloads;
  }

  // Any part of the stream that arrived, cut in any way, gives a first part of
  // the messages; the whole stream gives them all.
  lemma Delivery(payloads: seq<Bytes>, chunks: seq<Bytes>, parses: Bytes -> bool)
    requires forall p <- payloads :: Framable(p) && parses(p)
    requires Join(chunks) <= Frames(payloads)
    ensures Receive(FRESH, chunks, parses).delivered <= payloads
    ensures Join(chunks) == Frames(payloads) ==> Receive(FRESH, chunks, parses).delivered == payloads
    ensures !Receive(FRESH, chunks, parses).broken
  {
    hide Receive, Drain, More, Frames, Join, Waiting, Framable;
    FreshWaits([]);
    Fragmentation(FRESH, chunks, parses);
    PartOfStream(payloads, Join(chunks), Frames(payloads)[|Join(chunks)|..], parses);
  }

  // A connection that was lost at any point of its stream, or given up for a
  // message that could not be parsed, leaves nothing behind: all the messages of
  // the next one arrive.
  lemma NextConnection(delivered: seq<Bytes>, payloads: seq<Bytes>, chunks: seq<Bytes>, parses: Bytes -> bool)
    requires forall p <- payloads :: Framable(p) && parses(p)
    requires Join(chunks) == Frames(payloads)
    ensures Receive(Reader(0, [], delivered, false), chunks, parses) == Reader(0, [], delivered + payloads, false)
  {
    hide Receive, Drain, Frames, Join, Framable;
    var r := Reader(0, [], delivered, false);
    Fragmentation(r, chunks, parses);
    assert More(r, Join(chunks)) == Reader(0, Frames(payloads), delivered, false);
    FramesArrive(More(r, Join(chunks)), payloads, parses);
  }

  // A message of another size is never handed out,
  lemma DeliveredAreFramable(r: Reader, parses: Bytes -> bool)
    requires r.size < 0x1_0000 && forall p <- r.delivered :: Framable(p) && parses(p)
    ensures forall p <- Drain(r, parses).delivered :: Framable(p) && parses(p)
    decreases |r.pending|
  {
    if Waiting(r) {
    } else {
      DeliveredAreFramable(Once(r, parses), parses);
    }
  }

  // so the messages arrive exactly if each fits its frame and can be parsed.
  lemma DeliveryExactly(payloads: seq<Bytes>, parses: Bytes -> bool)
    ensures Drain(More(FRESH, Frames(payloads)), parses).delivered == payloads <==>
            forall p <- payloads :: Framable(p) && parses(p)
  {
    DeliveredAreFramable(More(FRESH, Frames(payloads)), parses);
    if forall p <- payloads :: Framable(p) && parses(p) {
      FramesArrive(More(FRESH, Frames(payloads)), payloads, parses);
    }
  }
}
