/** One client connection of the server (src/server/tcp_connection.cc). Messages
    are objects that the queue shares with whoever sends them, and they are
    turned into bytes only when their turn to be written comes. */
module TcpConnection {
  import opened Framing

  // 'bytes' is what SerializeToString gives.
  class Message {
    var bytes: Bytes

    constructor (bytes: Bytes)
      ensures this.bytes == bytes
    {
      this.bytes := bytes;
    }
  }

  // What the connection waits for from its peer.
  datatype Reading = SizeNext | BodyNext(size: nat) | NotReading

  class TCPConnection {
    const invalidMessage: Bytes
    const invalidType: Bytes
    var writeQueue: seq<Message>
    var writeInProgress: bool
    var stopping: bool
    var open: bool
    var reading: Reading
    var dispatched: seq<Bytes>

    // Every message taken by SendMessage, every message whose write was
    // started, as it was then, and all bytes given to the socket.
    ghost var accepted: seq<Message>
    ghost var started: seq<Bytes>
    ghost var wire: Bytes
    // A write failed, or was tried on a closed socket.
    ghost var failed: bool

    ghost predicate Valid()
      reads this
    {
      && |writeQueue| <= |accepted| && writeQueue == accepted[|accepted| - |writeQueue|..]
      && wire == Frames(started)
      && (writeInProgress ==> writeQueue != [])
      && (!failed ==> |started| == |accepted| - |writeQueue| + if writeInProgress then 1 else 0)
      // No wakeup is lost: what waits is being written, or will never be.
      && (!failed && writeQueue != [] ==> writeInProgress)
    }

    // What was written is what the messages say.
    ghost predicate Faithful()
      reads this, accepted
    {
      |started| <= |accepted| && forall i | 0 <= i < |started| :: started[i] == accepted[i].bytes
    }

    constructor (invalidMessage: Bytes, invalidType: Bytes)
      ensures Valid() && Faithful() && open && !stopping && !failed && !writeInProgress && reading == SizeNext
      ensures accepted == [] && started == [] && dispatched == [] && writeQueue == []
      ensures this.invalidMessage == invalidMessage && this.invalidType == invalidType
    {
      this.invalidMessage, this.invalidType := invalidMessage, invalidType;
      writeQueue, writeInProgress, stopping, open := [], false, false, true;
      reading, dispatched := SizeNext, [];
      accepted, started, wire, failed := [], [], [], false;
    }

    // stop(graceful)
    method Stop(graceful: bool)
      requires Valid()
      modifies `stopping, `open
      ensures Valid()
      ensures stopping <==> old(stopping) || (old(open) && graceful && writeQueue != [])
      ensures open <==> old(open) && graceful && writeQueue != []
    {
      if open && graceful && (writeQueue != [] || writeInProgress) {
        stopping := true;
      } else if open {
        open := false;
      }
    }

    // send_message
    method SendMessage(msg: Message)
      requires Valid()
      modifies `writeQueue, `writeInProgress, `accepted, `started, `wire, `failed
      ensures Valid()
      ensures stopping ==> accepted == old(accepted) && writeQueue == old(writeQueue)
      ensures !stopping ==> accepted == old(accepted) + [msg] && writeQueue == old(writeQueue) + [msg]
      ensures stopping || old(writeInProgress) ==>
                started == old(started) && failed == old(failed) && writeInProgress == old(writeInProgress)
      ensures !stopping && !old(writeInProgress) && !old(failed) && open ==>
                started == old(started) + [msg.bytes] && writeInProgress && !failed
      ensures old(failed) ==> failed
      ensures old(Faithful()) && !failed ==> Faithful()
    {
      hide Frames;
      if stopping {
        return;
      }
      writeQueue := writeQueue + [msg];
      accepted := accepted + [msg];
      if !writeInProgress {
        StartWrite();
      }
    }

    // start_write_message for a non-empty queue without a write in progress.
    method StartWrite()
      requires writeQueue != [] && !writeInProgress
      requires |writeQueue| <= |accepted| && writeQueue == accepted[|accepted| - |writeQueue|..]
      requires wire == Frames(started) && (!failed ==> |started| == |accepted| - |writeQueue|)
      modifies `writeInProgress, `started, `wire, `failed
      ensures Valid() && writeInProgress
      ensures failed <==> old(failed) || !open
      ensures !failed ==> started == old(started) + [writeQueue[0].bytes]
    {
      writeInProgress := true;
      if open {
        FramesSnoc(started, writeQueue[0].bytes);
        started := started + [writeQueue[0].bytes];
        wire := wire + Frame(writeQueue[0].bytes);
      } else {
        failed := true;
      }
    }

    // handle_write_message; a failure makes the manager stop the connection.
    method HandleWriteMessage(error: bool)
      requires Valid() && writeInProgress
      modifies `writeQueue, `writeInProgress, `started, `wire, `failed, `stopping, `open
      ensures Valid()
      ensures !error ==> writeQueue == old(writeQueue)[1..] && writeInProgress == (writeQueue != [])
      ensures !error && !old(failed) && writeQueue != [] && open ==>
                !failed && started == old(started) + [writeQueue[0].bytes]
      ensures writeQueue == [] ==> started == old(started) && failed == old(failed)
      ensures error ==> failed && started == old(started) && writeQueue == old(writeQueue)
      ensures old(Faithful()) && !failed ==> Faithful()
      // A graceful stop closes the connection once everything is written.
      ensures !error ==> stopping == old(stopping) && (open <==> old(open) && !(stopping && writeQueue == []))
    {
      hide Frames;
      writeInProgress := false;
      if error {
        failed := true;
        Stop(true);
        return;
      }
      writeQueue := writeQueue[1..];
      if writeQueue != [] {
        StartWrite();
      } else if stopping {
        Stop(false);
      }
    }

    // handle_read_message_size
    method HandleReadMessageSize(size: Bytes)
      requires Valid() && |size| == 2 && reading == SizeNext
      modifies this
      ensures Valid() && dispatched == old(dispatched)
      ensures reading == if old(stopping) || SizeOf(size) == 0 then NotReading else BodyNext(SizeOf(size))
      ensures reading != NotReading ==> stopping == old(stopping) && open == old(open) && accepted == old(accepted)
      ensures !old(stopping) && SizeOf(size) == 0 ==>
                |accepted| == |old(accepted)| + 1 && accepted[|accepted| - 1].bytes == invalidMessage
                && (stopping <==> open) && (old(open) ==> stopping)
    {
      reading := NotReading;
      if stopping {
        return;
      }
      if SizeOf(size) == 0 {
        var msg := new Message(invalidMessage);
        SendMessage(msg);
        Stop(true);
        return;
      }
      reading := BodyNext(SizeOf(size));
    }

    // handle_read_message; dispatch_request throws on what 'accepts' refuses.
    method HandleReadMessage(body: Bytes, accepts: bool)
      requires Valid() && reading == BodyNext(|body|)
      modifies this
      ensures Valid()
      ensures dispatched == old(dispatched) + if accepts then [body] else []
      ensures reading == if !accepts || stopping then NotReading else SizeNext
      ensures accepts ==> stopping == old(stopping) && open == old(open)
      ensures !accepts && !old(stopping) ==>
                |accepted| == |old(accepted)| + 1 && accepted[|accepted| - 1].bytes == invalidType
                && (stopping <==> open) && (old(open) ==> stopping)
    {
      if !accepts {
        reading := NotReading;
        var msg := new Message(invalidType);
        SendMessage(msg);
        Stop(true);
        return;
      }
      dispatched := dispatched + [body];
      reading := if stopping then NotReading else SizeNext;
    }

    // async_read completes each read with exactly the bytes it asked for; so
    // the framed requests are dispatched one by one.
    method ReadRequests(stream: Bytes, ghost payloads: seq<Bytes>)
      requires Valid() && reading == SizeNext && !stopping
      requires stream == Frames(payloads) && forall p <- payloads :: Framable(p)
      modifies this
      ensures Valid() && reading == SizeNext && !stopping
      ensures dispatched == old(dispatched) + payloads
    {
      hide Frames, Frame, SizeBytes;
      var rest := stream;
      ghost var done := 0;
      assert payloads[0..] == payloads;
      while |rest| >= 2
        invariant Valid() && reading == SizeNext && !stopping
        invariant done <= |payloads| && rest == Frames(payloads[done..])
        invariant dispatched == old(dispatched) + payloads[..done]
        decreases |rest|
      {
        FirstFrame(rest, payloads[done..]);
        ghost var next := payloads[done];
        assert payloads[done..][1..] == payloads[done + 1..];
        HandleReadMessageSize(rest[..2]);
        var size := SizeOf(rest[..2]);
        rest := rest[2..];
        HandleReadMessage(rest[..size], true);
        rest := rest[size..];
        done := done + 1;
      }
      if done < |payloads| {
        FirstFrame(rest, payloads[done..]);
      }
      assert payloads[..done] == payloads;
    }

    // All pending writes succeed.
    method FinishWrites()
      requires Valid() && open && !stopping && !failed
      modifies `writeQueue, `writeInProgress, `started, `wire, `failed, `stopping, `open
      ensures Valid() && open && !stopping && !failed
      ensures writeQueue == [] && !writeInProgress
      ensures old(writeQueue) == [] ==> started == old(started)
      ensures old(writeQueue) != [] ==> started == old(started) + Payloads(old(writeQueue)[1..])
    {
      hide Faithful, Frames, Payloads;
      ghost var before := writeQueue;
      assert before != [] ==> before[1..1] == [];
      PayloadsNone();
      ghost var done := 0;
      while writeInProgress
        invariant Valid() && open && !stopping && !failed
        invariant 0 <= done <= |before| && writeQueue == before[done..]
        invariant before == [] ==> started == old(started)
        invariant before != [] && done < |before| ==> started == old(started) + Payloads(before[1..done + 1])
        invariant before != [] && done == |before| ==> started == old(started) + Payloads(before[1..])
        decreases |writeQueue|
      {
        HandleWriteMessage(false);
        done := done + 1;
        if done < |before| {
          assert before[1..done + 1] == before[1..done] + [before[done]];
          PayloadsSnoc(before[1..done], before[done]);
        } else {
          assert before[1..done] == before[1..];
        }
      }
    }
  }

  // The bytes of some messages.
  ghost function Payloads(messages: seq<Message>): (r: seq<Bytes>)
    reads messages
    ensures |r| == |messages| && forall i | 0 <= i < |messages| :: r[i] == messages[i].bytes
  {
    if messages == [] then [] else [messages[0].bytes] + Payloads(messages[1..])
  }

  lemma PayloadsNone()
    ensures Payloads([]) == []
  {
  }

  lemma PayloadsSnoc(messages: seq<Message>, m: Message)
    ensures Payloads(messages + [m]) == Payloads(messages) + [m.bytes]
  {
  }

  lemma FramesSnoc(payloads: seq<Bytes>, p: Bytes)
    ensures Frames(payloads + [p]) == Frames(payloads) + Frame(p)
  {
    if payloads == [] {
      assert [p][1..] == [];
    } else {
      FramesSnoc(payloads[1..], p);
      assert (payloads + [p])[1..] == payloads[1..] + [p];
    }
  }

  lemma FirstFrame(stream: Bytes, payloads: seq<Bytes>)
    requires stream == Frames(payloads) && forall p <- payloads :: Framable(p)
    ensures |stream| >= 2 <==> payloads != []
    ensures payloads != [] ==>
              var n := |payloads[0]|;
              && SizeOf(stream[..2]) == n && n != 0 && n <= |stream[2..]|
              && stream[2..][..n] == payloads[0] && stream[2..][n..] == Frames(payloads[1..])
  {
    if payloads != [] {
      assert payloads[0] in payloads;
      SizeBytesRead(|payloads[0]|);
      assert stream[..2] == SizeBytes(|payloads[0]|);
      assert stream[2..] == payloads[0] + Frames(payloads[1..]);
    }
  }

  lemma FramesOfPrefix(payloads: seq<Bytes>, n: nat)
    requires n <= |payloads|
    ensures Frames(payloads[..n]) <= Frames(payloads)
    decreases n
  {
    if n > 0 {
      FramesOfPrefix(payloads[1..], n - 1);
      assert payloads[..n][1..] == payloads[1..][..n - 1];
    } else {
      assert payloads[..n] == [];
    }
  }

  // From queue to reader: as long as nobody changes a queued message, the peer
  // gets a first part of the messages, and with the last byte all of them.
  lemma EndToEnd(c: TCPConnection, chunks: seq<Bytes>, parses: Bytes -> bool)
    requires c.Valid() && c.Faithful()
    requires forall m <- c.accepted :: Framable(m.bytes) && parses(m.bytes)
    requires Join(chunks) <= c.wire
    ensures Receive(FRESH, chunks, parses).delivered <= Payloads(c.accepted)
    ensures !c.failed && c.writeQueue == [] && Join(chunks) == c.wire ==>
              Receive(FRESH, chunks, parses).delivered == Payloads(c.accepted)
  {
    hide Receive, Frames, Join;
    var payloads := Payloads(c.accepted);
    assert c.started == payloads[..|c.started|];
    FramesOfPrefix(payloads, |c.started|);
    assert payloads[..|payloads|] == payloads;
    forall p | p in payloads ensures Framable(p) && parses(p) {
      var i :| 0 <= i < |payloads| && payloads[i] == p;
      assert c.accepted[i] in c.accepted;
    }
    Delivery(payloads, chunks, parses);
  }

  // The answer to a SET is queued for the client that asked, and then the same
  // object is made the notification for the others
  // (src/server/tcp_connection_manager.cc:298-309). The client gets the answer
  // if and only if nothing was being written to it at that moment; otherwise
  // it gets the notification in its place.
  method RetypedReply(c: TCPConnection, answer: Bytes, notification: Bytes) returns (got: Bytes)
    requires c.Valid() && c.open && !c.stopping && !c.failed
    modifies c
    ensures got == if old(c.writeInProgress) then notification else answer
    ensures c.started != [] && c.started[|c.started| - 1] == got
    ensures got == answer <==> answer == notification || !old(c.writeInProgress)
  {
    var msg := new Message(answer);
    c.SendMessage(msg);
    ghost var queue := c.writeQueue;
    msg.bytes := notification;
    got := if |c.writeQueue| == 1 then answer else notification;
    c.FinishWrites();
    if |queue| > 1 {
      assert queue[1..] == queue[1..|queue| - 1] + [msg];
    }
  }
}
