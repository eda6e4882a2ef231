/** The request queue of the client (src/client/mesycontrol/tcp_client.py). */
module ClientQueue {
  import opened Messages
  import opened Futures

  // A request and the future handed out for it.
  datatype Entry = Entry(request: nat, future: Future)

  // What handlers and done-callbacks do with the client while a response is
  // being handled. A write may fail.
  datatype Action = Enqueue(request: nat, written: bool) | CancelRequest(index: nat)

  const DISCONNECTED := 0
  const SOCKET_ERROR := 1

  // What became of a request: it is in the queue, left it cancelled, or was
  // the k-th to be sent.
  datatype Fate = Queued | Skipped | SentAs(k: nat)

  // The history since the last reset: the fate of every request queued, the
  // requests sent and the responses, in order, and the request whose response
  // is being handled.
  datatype Log = Log(fates: seq<Fate>, popped: nat, sent: seq<nat>, answered: seq<nat>, completing: Option<nat>)

  // First come, first served, and one at a time: what left the queue is the
  // first part of what came, the requests are sent in that order, and all but
  // the last one sent have their response.
  ghost predicate InOrder(log: Log) {
    && log.popped <= |log.fates|
    && (forall i | 0 <= i < |log.fates| :: log.fates[i] == Queued <==> i >= log.popped)
    && (forall i | 0 <= i < |log.fates| && log.fates[i].SentAs? ::
          log.fates[i].k < |log.sent| && log.sent[log.fates[i].k] == i)
    && (forall k | 0 <= k < |log.sent| :: log.sent[k] < log.popped && log.fates[log.sent[k]] == SentAs(k))
    && (forall j, k | 0 <= j < k < |log.sent| :: log.sent[j] < log.sent[k])
    && |log.answered| <= |log.sent| <= |log.answered| + 1
    && (log.completing.Some? ==>
          && log.completing.value < log.popped && log.fates[log.completing.value].SentAs?
          && log.fates[log.completing.value].k < |log.answered|)
  }

  ghost function Queue(log: Log): Log {
    log.(fates := log.fates + [Queued])
  }

  ghost function Pop(log: Log, running: bool): Log
    requires log.popped < |log.fates|
  {
    if running then
      log.(fates := log.fates[log.popped := SentAs(|log.sent|)], popped := log.popped + 1,
           sent := log.sent + [log.popped])
    else
      log.(fates := log.fates[log.popped := Skipped], popped := log.popped + 1)
  }

  ghost function Answer(log: Log, response: nat): Log
    requires |log.answered| < |log.sent|
  {
    log.(answered := log.answered + [response], completing := Some(log.sent[|log.answered|]))
  }

  lemma QueueInOrder(log: Log)
    requires InOrder(log)
    ensures InOrder(Queue(log))
  {
  }

  lemma PopInOrder(log: Log, running: bool)
    requires InOrder(log) && log.popped < |log.fates| && |log.sent| == |log.answered|
    ensures InOrder(Pop(log, running))
  {
  }

  lemma AnswerInOrder(log: Log, response: nat)
    requires InOrder(log) && |log.answered| < |log.sent|
    ensures InOrder(Answer(log, response))
  {
  }

  // What happened stays so, and only the futures that were queued may change.
  ghost predicate Grew(before: Log, after: Log) {
    && |before.fates| <= |after.fates| && before.popped <= after.popped
    && before.sent <= after.sent && before.answered <= after.answered
    && forall i | 0 <= i < |before.fates| && before.fates[i] != Queued :: after.fates[i] == before.fates[i]
  }

  lemma PopKeeps(a: Log, running: bool)
    requires InOrder(a) && a.popped < |a.fates|
    ensures Grew(a, Pop(a, running))
    ensures Pop(a, running).answered == a.answered && Pop(a, running).completing == a.completing
  {
  }

  lemma GrewNone(a: Log)
    ensures Grew(a, a)
  {
  }

  lemma GrewAnswer(a: Log, response: nat)
    requires |a.answered| < |a.sent|
    ensures Grew(a, Answer(a, response))
  {
  }

  lemma GrewComplete(a: Log, b: Log)
    requires Grew(a, b)
    ensures Grew(a, b.(completing := None))
  {
  }

  lemma GrewTransitive(a: Log, b: Log, c: Log)
    requires Grew(a, b) && Grew(b, c)
    ensures Grew(a, c)
  {
  }

  // The only facts about the log that the futures depend on.
  lemma InOrderBounds(log: Log)
    requires InOrder(log)
    ensures log.popped <= |log.fates| && |log.answered| <= |log.sent| <= |log.answered| + 1
    ensures forall i | 0 <= i < |log.fates| :: log.fates[i] == Queued <==> i >= log.popped
    ensures forall k | 0 <= k < |log.sent| :: log.sent[k] < log.popped && log.fates[log.sent[k]] == SentAs(k)
    ensures forall i | 0 <= i < |log.fates| && log.fates[i].SentAs? ::
              log.fates[i].k < |log.sent| && log.sent[log.fates[i].k] == i
  {
  }

  // The state of a future goes with its request's fate: a queued one is
  // untouched or cancelled; one that was sent is not cancelled, and it is done
  // once its response has been handled.
  ghost predicate Agrees(f: Future, i: nat, log: Log)
    requires i < |log.fates|
    reads f
  {
    && f.Valid()
    && match log.fates[i]
       case Queued => !f.running && (f.done ==> f.cancelled)
       case Skipped => f.cancelled
       case SentAs(k) =>
         && !f.cancelled && (f.done <==> !f.running)
         && (k < |log.answered| ==> (f.done <==> log.completing != Some(i)))
  }

  // A future is done once and for all.
  twostate predicate StaysDone(f: Future)
    reads f
  {
    old(f.done) ==> f.done && f.result == old(f.result) && f.exception == old(f.exception)
  }

  // It fails with this error, unless it was done already.
  twostate predicate Fails(f: Future, error: int)
    reads f
  {
    if old(f.done) then f.done && f.result == old(f.result) && f.exception == old(f.exception)
    else f.done && f.exception == Some(error) && !f.cancelled
  }

  twostate predicate Untouched(f: Future)
    reads f
  {
    && f.done == old(f.done) && f.cancelled == old(f.cancelled)
    && f.result == old(f.result) && f.exception == old(f.exception)
  }

  class MCTCPClient {
    var connected: bool
    var queue: seq<Entry>
    var current: Option<Entry>

    // Every request queued since the last reset, as its callers hold on to it,
    // and what became of them.
    var enqueued: seq<Entry>
    ghost var log: Log

    ghost function Handed(): set<Future>
      reads this
    {
      set i | 0 <= i < |enqueued| :: enqueued[i].future
    }

    ghost predicate Consistent()
      reads this
    {
      && (forall i, j | 0 <= i < j < |enqueued| :: enqueued[i].future != enqueued[j].future)
      && |log.fates| == |enqueued| && InOrder(log)
      && log.popped <= |enqueued| && queue == enqueued[log.popped..]
      && |log.sent| <= |log.answered| + 1
      && (forall k <- log.sent :: k < |enqueued|)
      && current == if |log.sent| <= |log.answered| then None else Some(enqueued[log.sent[|log.answered|]])
    }

    ghost predicate Valid()
      reads this, Handed()
    {
      Consistent() && forall i | 0 <= i < |enqueued| :: Agrees(enqueued[i].future, i, log)
    }

    // Connected with something to send means that a request is under way.
    ghost predicate Awake()
      reads this
    {
      connected && queue != [] ==> current.Some?
    }

    constructor ()
      ensures Valid() && Awake() && !connected && enqueued == [] && log.completing == None
    {
      connected, queue, current := false, [], None;
      enqueued, log := [], Log([], 0, [], [], None);
    }

    // One pass of the loop in _start_write_request.
    method PopRequest() returns (running: bool)
      requires Valid() && queue != [] && current == None
      modifies this, queue[0].future`running
      ensures Valid() && connected == old(connected) && enqueued == old(enqueued)
      ensures queue == old(queue)[1..] && log == Pop(old(log), running)
      ensures current == if running then Some(old(queue)[0]) else None
      ensures running <==> !old(queue[0].future.cancelled)
      ensures running ==> !current.value.future.done
    {
      hide InOrder;
      InOrderBounds(log);
      ghost var i, before := log.popped, log;
      var entry := queue[0];
      assert entry == enqueued[i] && Agrees(entry.future, i, log);
      assert log.fates[i] == Queued;
      queue := queue[1..];
      var r := entry.future.SetRunningOrNotifyCancel();
      running := r.Some? && r.value;
      if running {
        current := Some(entry);
      }
      PopInOrder(log, running);
      log := Pop(log, running);
      assert log.fates[i] == if running then SentAs(|before.sent|) else Skipped;
      assert Agrees(entry.future, i, log);
      forall j | 0 <= j < |enqueued| && j != i ensures Agrees(enqueued[j].future, j, log) {
        assert old(Agrees(enqueued[j].future, j, log));
        hide Agrees;
        AgreesStays(enqueued[j].future, j, before, log);
      }
      assert Consistent();
    }

    // _start_write_request(), for a queue that is not empty. Where nothing
    // could be sent the request counts as under way until the next reset.
    method StartWriteRequest(written: bool)
      requires Valid() && queue != []
      modifies this, Handed()
      ensures Valid() && Awake() && connected == old(connected) && enqueued == old(enqueued)
      ensures Grew(old(log), log) && log.answered == old(log.answered) && log.completing == old(log.completing)
      ensures !connected || old(current).Some? ==> queue == old(queue) && current == old(current)
      ensures connected && old(current).None? && current.Some? ==>
                if written then !current.value.future.done
                else current.value.future.exception == Some(SOCKET_ERROR)
      ensures forall f <- old(Handed()) :: StaysDone(f) && f.cancelled == old(f.cancelled)
    {
      if !connected || current.Some? {
        return;
      }
      hide Agrees, InOrder, Grew, Consistent;
      var running := PopRequests();
      if running && !written {
        FailWrite();
      }
    }

    // Requests leave the queue up to one that was not cancelled.
    method PopRequests() returns (running: bool)
      requires Valid() && current == None
      modifies this, Handed()
      ensures Valid() && connected == old(connected) && enqueued == old(enqueued)
      ensures Grew(old(log), log) && log.answered == old(log.answered) && log.completing == old(log.completing)
      ensures running <==> current.Some?
      ensures running ==> !current.value.future.done
      ensures !running ==> queue == []
      ensures forall f <- old(Handed()) :: StaysDone(f) && f.cancelled == old(f.cancelled)
    {
      hide Agrees, InOrder, Grew, Pop;
      GrewNone(log);
      running := false;
      while queue != [] && !running
        invariant Valid() && connected == old(connected) && enqueued == old(enqueued)
        invariant Grew(old(log), log) && log.answered == old(log.answered) && log.completing == old(log.completing)
        invariant running <==> current.Some?
        invariant forall f <- old(Handed()) :: StaysDone(f) && f.cancelled == old(f.cancelled)
        invariant running ==> !current.value.future.done
        modifies this, Handed()
        decreases |queue|, !running
      {
        ghost var before := log;
        running := PopRequest();
        PopKeeps(before, running);
        GrewTransitive(old(log), before, log);
      }
    }

    method FailWrite()
      requires Valid() && current.Some? && !current.value.future.done
      modifies current.value.future
      ensures Valid() && current.value.future.exception == Some(SOCKET_ERROR)
      ensures current.value.future.cancelled == old(current.value.future.cancelled)
    {
      hide InOrder;
      InOrderBounds(log);
      ghost var i := log.sent[|log.answered|];
      var future := current.value.future;
      assert future == enqueued[i].future && Agrees(future, i, log);
      var _ := future.SetException(SOCKET_ERROR);
      assert Agrees(future, i, log);
      forall j | 0 <= j < |enqueued| && j != i ensures Agrees(enqueued[j].future, j, log) {
        assert old(Agrees(enqueued[j].future, j, log));
      }
    }

    // queue_request(); None stands for the exception on a request without bytes.
    method QueueRequest(request: nat, empty: bool, written: bool) returns (f: Option<Future>)
      requires Valid()
      modifies this, Handed()
      ensures Valid() && connected == old(connected) && (old(Awake()) ==> Awake())
      ensures forall f <- old(Handed()) :: StaysDone(f) && f.cancelled == old(f.cancelled)
      ensures f.None? <==> connected && empty
      ensures f.Some? ==> fresh(f.value)
      ensures !connected ==> f.Some? && f.value.done && f.value.exception == Some(DISCONNECTED)
      ensures !connected || empty ==> enqueued == old(enqueued)
      ensures connected && !empty ==> enqueued == old(enqueued) + [Entry(request, f.value)]
      ensures Grew(old(log), log) && log.answered == old(log.answered) && log.completing == old(log.completing)
    {
      hide Agrees, InOrder, Grew, Queue;
      GrewNone(log);
      var future := new Future();
      if !connected {
        var _ := future.SetException(DISCONNECTED);
        return Some(future);
      }
      if empty {
        return None;
      }
      var wasEmpty := queue == [];
      Append(Entry(request, future));
      if wasEmpty {
        ghost var before := log;
        StartWriteRequest(written);
        GrewTransitive(old(log), before, log);
      }
      f := Some(future);
    }

    method Append(entry: Entry)
      requires Valid() && entry.future !in Handed() && entry.future.Valid() && !entry.future.done &&
               !entry.future.running
      modifies this
      ensures Valid() && enqueued == old(enqueued) + [entry] && queue == old(queue) + [entry]
      ensures Grew(old(log), log) && log.answered == old(log.answered) && log.completing == old(log.completing)
      ensures connected == old(connected) && current == old(current)
    {
      hide InOrder;
      InOrderBounds(log);
      QueueInOrder(log);
      queue := queue + [entry];
      enqueued := enqueued + [entry];
      ghost var before := log;
      log := Queue(log);
      QueueBounds(before);
      forall j | 0 <= j < |enqueued| - 1 ensures Agrees(enqueued[j].future, j, log) {
        assert old(Agrees(enqueued[j].future, j, log));
        hide Agrees;
        AgreesStays(enqueued[j].future, j, before, log);
      }
      assert Agrees(entry.future, |enqueued| - 1, log);
    }

    // A caller cancels the future of a request.
    method CancelRequest(i: nat) returns (ok: bool)
      requires Valid() && i < |enqueued|
      modifies enqueued[i].future
      ensures Valid()
      ensures ok <==> !old(enqueued[i].future.done) && !old(enqueued[i].future.running)
      ensures ok ==> log.fates[i] == Queued && enqueued[i].future.cancelled
      ensures !ok ==> enqueued[i].future.cancelled == old(enqueued[i].future.cancelled)
      ensures StaysDone(enqueued[i].future)
    {
      hide InOrder;
      InOrderBounds(log);
      var future := enqueued[i].future;
      assert Agrees(future, i, log);
      ok := future.Cancel();
      assert Agrees(future, i, log);
      forall j | 0 <= j < |enqueued| && j != i ensures Agrees(enqueued[j].future, j, log) {
        assert old(Agrees(enqueued[j].future, j, log));
      }
    }

    // What handlers and callbacks do, one after the other. A done-callback of a
    // cancelled future adds to the actions that follow.
    method RunActions(actions: seq<Action>)
      requires Valid()
      modifies this, Handed()
      ensures Valid() && connected == old(connected) && (old(Awake()) ==> Awake())
      ensures old(enqueued) <= enqueued
      ensures forall i | |old(enqueued)| <= i < |enqueued| :: fresh(enqueued[i].future)
      ensures forall f <- old(Handed()) :: StaysDone(f)
      ensures Grew(old(log), log) && log.answered == old(log.answered) && log.completing == old(log.completing)
    {
      hide InOrder, Agrees, Grew;
      GrewNone(log);
      for k := 0 to |actions|
        invariant Valid() && connected == old(connected) && (old(Awake()) ==> Awake())
        invariant old(enqueued) <= enqueued
        invariant forall i | |old(enqueued)| <= i < |enqueued| :: fresh(enqueued[i].future)
        invariant forall f <- old(Handed()) :: StaysDone(f)
        invariant Grew(old(log), log) && log.answered == old(log.answered) && log.completing == old(log.completing)
      {
        RunAction(actions[k], old(log));
      }
    }

    method RunAction(action: Action, ghost start: Log)
      requires Valid() && Grew(start, log)
      modifies this, Handed()
      ensures Valid() && connected == old(connected) && (old(Awake()) ==> Awake())
      ensures enqueued == old(enqueued) || (|enqueued| == |old(enqueued)| + 1 && old(enqueued) <= enqueued
                                            && fresh(enqueued[|old(enqueued)|].future))
      ensures forall f <- old(Handed()) :: StaysDone(f)
      ensures Grew(start, log) && log.answered == old(log.answered) && log.completing == old(log.completing)
    {
      hide InOrder, Agrees, Grew;
      match action
      case Enqueue(request, written) =>
        ghost var before := log;
        var _ := QueueRequest(request, false, written);
        GrewTransitive(start, before, log);
      case CancelRequest(i) =>
        if i < |enqueued| {
          var _ := CancelRequest(i);
        }
    }

    // A response arrives: 'handling' is what the handlers of the signals do
    // before the request's future is done, 'after' what its callbacks do then.
    // Only a response to a request that was written is expected.
    method HandleResponse(response: nat, error: bool, handling: seq<Action>, after: seq<Action>, written: bool)
      requires Valid() && log.completing == None && current.Some? && !current.value.future.done
      modifies this, Handed()
      ensures Valid() && Awake() && connected == old(connected) && log.completing == None
      // The k-th response completes the k-th request sent, and no other.
      ensures log.answered == old(log.answered) + [response] && Grew(old(log), log)
      ensures forall f <- old(Handed()) :: StaysDone(f)
      ensures old(enqueued) <= enqueued
      ensures old(current.value.future).done
      ensures old(current.value.future).result == if error then None else Some(response)
      ensures old(current.value.future).exception == if error then Some(response) else None
    {
      hide InOrder, Agrees, Grew;
      var future := current.value.future;
      ghost var i := TakeResponse(response);
      RunActions(handling);
      GrewAnswer(old(log), response);
      GrewTransitive(old(log), Answer(old(log), response), log);
      GrewComplete(old(log), log);
      Complete(future, i, response, error);
      ghost var completed := log;
      RunActions(after);
      GrewTransitive(old(log), completed, log);
      if queue != [] {
        ghost var acted := log;
        StartWriteRequest(written);
        GrewTransitive(old(log), acted, log);
      }
    }

    // set_result or set_exception on the request whose response was taken.
    method Complete(future: Future, ghost i: nat, response: nat, error: bool)
      requires Valid() && log.completing == Some(i) && i < |enqueued| && enqueued[i].future == future
      modifies future, `log
      ensures Valid() && log == old(log).(completing := None)
      ensures future.done && future.result == (if error then None else Some(response))
      ensures future.exception == if error then Some(response) else None
    {
      hide InOrder;
      CompletingBounds(log);
      ghost var before := log;
      assert Agrees(future, i, log);
      var ok;
      if error {
        ok := future.SetException(response);
      } else {
        ok := future.SetResult(Some(response));
      }
      assert ok;
      log := log.(completing := None);
      assert Agrees(future, i, log);
      forall j | 0 <= j < |enqueued| && j != i ensures Agrees(enqueued[j].future, j, log) {
        assert old(Agrees(enqueued[j].future, j, log));
      }
    }

    // The request leaves 'current' before its handlers run.
    method TakeResponse(response: nat) returns (ghost i: nat)
      requires Valid() && log.completing == None && current.Some? && !current.value.future.done
      modifies this
      ensures Valid() && connected == old(connected) && enqueued == old(enqueued) && queue == old(queue) &&
              current == None
      ensures log == Answer(old(log), response) && log.completing == Some(i)
      ensures i < |enqueued| && enqueued[i] == old(current.value)
    {
      hide InOrder;
      InOrderBounds(log);
      i := log.sent[|log.answered|];
      ghost var before := log;
      current := None;
      AnswerInOrder(log, response);
      AnswerBounds(log, response);
      log := Answer(log, response);
      assert Agrees(enqueued[i].future, i, before);
      assert Agrees(enqueued[i].future, i, log);
      forall j | 0 <= j < |enqueued| && j != i ensures Agrees(enqueued[j].future, j, log) {
        assert old(Agrees(enqueued[j].future, j, log));
        AgreesAnswered(enqueued[j].future, j, before, response);
      }
    }

    // The socket connects.
    method Connected()
      requires Valid()
      modifies `connected
      ensures Valid() && connected
      ensures Awake() <==> queue == [] || current.Some?
    {
      connected := true;
    }

    // The socket disconnects, or fails. False stands for the FutureIsDone that a
    // cancelled future still in the queue raises; the requests behind it then
    // stay in the queue.
    method Disconnected(error: int) returns (ok: bool, ghost aborted: nat)
      requires Valid() && log.completing == None
      modifies this, Handed()
      ensures Valid() && Awake() && !connected && current == None && enqueued == queue
      ensures ok <==> forall i | 0 <= i < |old(queue)| :: !old(queue[i].future.done)
      // All fail up to a cancelled one in the queue; the others stay as they are.
      ensures aborted <= |old(queue)| && queue == old(queue)[aborted..] && (ok ==> queue == [])
      ensures !ok ==> aborted > 0 && old(queue[aborted - 1].future.done)
      ensures forall i | 0 <= i < aborted - 1 :: !old(queue[i].future.done)
      ensures forall i | 0 <= i < |old(enqueued)| - |old(queue)| :: Fails(old(enqueued)[i].future, error)
      ensures forall i | 0 <= i < aborted :: Fails(old(queue)[i].future, error)
      ensures forall i | aborted <= i < |old(queue)| :: Untouched(old(queue)[i].future)
    {
      hide Agrees, InOrder, Waits, Consistent;
      ok, aborted := ResetState(error);
      connected := false;
      NewEpoch();
    }

    // _reset_state(error)
    method ResetState(error: int) returns (ok: bool, ghost aborted: nat)
      requires Valid() && log.completing == None
      modifies this, Handed()
      ensures connected == old(connected) && current == None && QueueWaits()
      ensures ok <==> forall i | 0 <= i < |old(queue)| :: !old(queue[i].future.done)
      // All fail up to a cancelled one in the queue; the others stay as they are.
      ensures aborted <= |old(queue)| && queue == old(queue)[aborted..] && (ok ==> queue == [])
      ensures !ok ==> aborted > 0 && old(queue[aborted - 1].future.done)
      ensures forall i | 0 <= i < aborted - 1 :: !old(queue[i].future.done)
      ensures forall i | 0 <= i < |old(enqueued)| - |old(queue)| :: Fails(old(enqueued)[i].future, error)
      ensures forall i | 0 <= i < aborted :: Fails(old(queue)[i].future, error)
      ensures forall i | aborted <= i < |old(queue)| :: Untouched(old(queue)[i].future)
    {
      hide Agrees, InOrder, QueueWaits, Valid;
      ghost var entries, sent := enqueued, |enqueued| - |queue|;
      SentApart();
      AbortCurrent(error);
      label Aborted:
      ok, aborted := AbortQueue(error);
      assert forall i | 0 <= i < sent :: unchanged@Aborted(entries[i].future);
    }

    // What left the queue does not share its futures.
    lemma SentApart()
      requires Valid()
      ensures |queue| <= |enqueued|
      ensures forall i, j | 0 <= i < |enqueued| - |queue| && 0 <= j < |queue| ::
                enqueued[i].future != queue[j].future
    {
      hide Agrees, InOrder;
    }

    method NewEpoch()
      requires QueueWaits() && current == None
      modifies `enqueued, `log
      ensures Valid() && enqueued == queue && log.completing == None
    {
      enqueued := queue;
      log := Log(seq(|queue|, _ => Queued), 0, [], [], None);
    }

    ghost predicate QueueWaits()
      reads this, set i | 0 <= i < |queue| :: queue[i].future
    {
      && (forall i, j | 0 <= i < j < |queue| :: queue[i].future != queue[j].future)
      && (forall i | 0 <= i < |queue| :: Waits(queue[i].future))
    }

    // The request under way fails, if that is still open.
    method AbortCurrent(error: int)
      requires Valid() && log.completing == None
      modifies this, Handed()
      ensures connected == old(connected) && current == None && queue == old(queue) && enqueued == old(enqueued)
      ensures QueueWaits()
      ensures |queue| <= |enqueued| && queue == enqueued[|enqueued| - |queue|..]
      ensures forall i | 0 <= i < |enqueued| - |queue| :: Fails(enqueued[i].future, error)
      ensures forall i | 0 <= i < |queue| :: unchanged(queue[i].future)
    {
      hide InOrder;
      InOrderBounds(log);
      if current.Some? {
        if !current.value.future.done {
          var _ := current.value.future.SetException(error);
        }
        current := None;
      }
      forall i | 0 <= i < |enqueued| - |queue| ensures Fails(enqueued[i].future, error) {
        assert log.fates[i] != Queued && old(Agrees(enqueued[i].future, i, log));
      }
    }

    // All that waits fails, up to a cancelled request.
    method AbortQueue(error: int) returns (ok: bool, ghost aborted: nat)
      requires QueueWaits()
      modifies `queue, set i | 0 <= i < |queue| :: queue[i].future
      ensures QueueWaits() && (ok ==> queue == [])
      ensures aborted <= |old(queue)| && queue == old(queue)[aborted..]
      ensures ok <==> forall i | 0 <= i < |old(queue)| :: !old(queue[i].future.done)
      ensures !ok ==> aborted > 0 && old(queue[aborted - 1].future.done)
      ensures forall i | 0 <= i < aborted - 1 :: !old(queue[i].future.done)
      ensures forall i | 0 <= i < aborted :: Fails(old(queue)[i].future, error)
      ensures forall i | aborted <= i < |old(queue)| :: unchanged(old(queue)[i].future)
    {
      hide QueueWaits;
      ghost var first := queue;
      aborted := 0;
      QueueApart();
      ok := true;
      while queue != [] && ok
        invariant QueueWaits() && aborted <= |first| && queue == first[aborted..]
        invariant forall i | 0 <= i < aborted :: Fails(first[i].future, error)
        invariant forall i | aborted <= i < |first| :: unchanged(first[i].future)
        invariant forall i | 0 <= i < aborted - 1 :: !old(queue[i].future.done)
        invariant ok && aborted > 0 ==> !old(queue[aborted - 1].future.done)
        invariant !ok ==> aborted > 0 && old(queue[aborted - 1].future.done)
        decreases |queue|
      {
        ok := AbortFirst(error);
        aborted := aborted + 1;
      }
    }

    lemma QueueApart()
      requires QueueWaits()
      ensures forall i, j | 0 <= i < j < |queue| :: queue[i].future != queue[j].future
    {
    }

    method AbortFirst(error: int) returns (ok: bool)
      requires QueueWaits() && queue != []
      modifies `queue, queue[0].future
      ensures QueueWaits() && queue == old(queue)[1..]
      ensures ok <==> !old(queue[0].future.done)
      ensures Fails(old(queue)[0].future, error)
    {
      ok := queue[0].future.SetException(error);
      queue := queue[1..];
    }
  }

  ghost predicate Waits(f: Future)
    reads f
  {
    f.Valid() && !f.running && (f.done ==> f.cancelled)
  }

  lemma CompletingBounds(log: Log)
    requires InOrder(log) && log.completing.Some?
    ensures log.completing.value < |log.fates| && log.fates[log.completing.value].SentAs?
    ensures log.fates[log.completing.value].k < |log.answered|
    ensures InOrder(log.(completing := None))
  {
  }

  lemma AnswerBounds(log: Log, response: nat)
    requires InOrder(log) && |log.answered| < |log.sent|
    ensures Answer(log, response).fates == log.fates && Answer(log, response).sent == log.sent
    ensures Answer(log, response).popped == log.popped && |log.sent| == |log.answered| + 1
    ensures Answer(log, response).completing == Some(log.sent[|log.answered|])
    ensures log.sent[|log.answered|] < |log.fates| && log.fates[log.sent[|log.answered|]] == SentAs(|log.answered|)
    ensures forall j | 0 <= j < |log.fates| && log.fates[j] == SentAs(|log.answered|) :: j == log.sent[|log.answered|]
  {
  }

  // The other futures' requests are no nearer to their responses.
  lemma AgreesAnswered(f: Future, j: nat, log: Log, response: nat)
    requires InOrder(log) && |log.answered| < |log.sent| && log.completing == None
    requires j < |log.fates| && j != log.sent[|log.answered|] && Agrees(f, j, log)
    ensures Agrees(f, j, Answer(log, response))
  {
    AnswerBounds(log, response);
  }

  lemma QueueBounds(log: Log)
    requires InOrder(log)
    ensures Queue(log).popped == log.popped && Queue(log).sent == log.sent && Queue(log).answered == log.answered
    ensures Queue(log).completing == log.completing && |Queue(log).fates| == |log.fates| + 1
    ensures forall i | 0 <= i < |log.fates| :: Queue(log).fates[i] == log.fates[i]
    ensures Queue(log).fates[|log.fates|] == Queued
    ensures Grew(log, Queue(log))
  {
  }

  lemma AgreesStays(f: Future, i: nat, before: Log, after: Log)
    requires i < |before.fates| && i < |after.fates| && after.fates[i] == before.fates[i]
    requires |after.answered| == |before.answered| && after.completing == before.completing
    requires Agrees(f, i, before)
    ensures Agrees(f, i, after)
  {
  }

  // How many of the first n requests were sent.
  ghost function CountSent(log: Log, n: nat): nat
    requires n <= |log.fates|
  {
    if n == 0 then 0 else CountSent(log, n - 1) + if log.fates[n - 1].SentAs? then 1 else 0
  }

  lemma {:induction false} SentSoFar(log: Log, n: nat)
    requires InOrder(log) && n <= |log.fates|
    ensures CountSent(log, n) <= |log.sent|
    ensures forall k | 0 <= k < |log.sent| :: log.sent[k] < n <==> k < CountSent(log, n)
  {
    if n == 0 {
    } else {
      SentSoFar(log, n - 1);
      SentAt(log, n - 1);
      hide InOrder;
      if log.fates[n - 1].SentAs? {
        var k := log.fates[n - 1].k;
        assert k >= CountSent(log, n - 1);
        assert k > 0 ==> log.sent[k - 1] < n - 1;
      }
    }
  }

  // Where request n is among those sent.
  lemma SentAt(log: Log, n: nat)
    requires InOrder(log) && n < |log.fates|
    ensures log.fates[n].SentAs? ==>
              var k := log.fates[n].k;
              && k < |log.sent| && log.sent[k] == n
              && (forall j | 0 <= j < k :: log.sent[j] < n) && (forall j | k < j < |log.sent| :: n < log.sent[j])
    ensures !log.fates[n].SentAs? ==> n !in log.sent
  {
    if !log.fates[n].SentAs? {
      forall k | 0 <= k < |log.sent| ensures log.sent[k] != n {
        assert log.fates[log.sent[k]] == SentAs(k);
      }
    }
  }

  // The k-th request sent, and so the one that the k-th response completes, is
  // the k-th of those that left the queue without having been cancelled.
  lemma KthResponse(log: Log, k: nat)
    requires InOrder(log) && k < |log.sent|
    ensures CountSent(log, log.sent[k]) == k
  {
    SentSoFar(log, log.sent[k]);
    var c := CountSent(log, log.sent[k]);
    assert c < |log.sent| ==> log.sent[c] >= log.sent[k];
  }
}
