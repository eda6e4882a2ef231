/** What is queued for the MRC, and who may have it queued. */
module ServerRequests {
  import opened Messages
  import opened ServerModel
  import opened ServerFifo

  // The requests that change something in a device.
  predicate Writes(request: Request) {
    request.ReqSet? || request.ReqRc? || request.ReqReset? || request.ReqCopy?
  }

  // What a client's request puts into the queue. The READ after a SET is for the
  // 8-bit address that the SET denotes.
  function QueuedFor(c: Client, request: Request, isWriter: bool): seq<Entry> {
    match request
    case ReqRead(_, _) => [Entry(request, ForClient(c))]
    case ReqScanbus(_) => [Entry(request, ForClient(c))]
    case ReqReadMulti(_, _) => [Entry(request, ForClient(c))]
    case ReqSet(item, _, mirror) =>
      if !isWriter then []
      else
        [Entry(request, SetDone(c)),
         Entry(ReqRead(Item(item.bus % 256, item.dev % 256, item.par % 256), mirror), ReadAfterSet(c))]
    case _ => if isWriter && Writes(request) then [Entry(request, ForClient(c))] else []
  }

  // What a callback adds to the queue, apart from the poller's reads.
  function Queued(s: Server, e: Event): seq<Entry> {
    match e
    case ClientRequests(c, request) => QueuedFor(c, request, s.manager.writer == Some(c))
    case ScanTimerFires => [Entry(ReqScanbus(0), ScanRead), Entry(ReqScanbus(1), ScanRead)]
    case _ => []
  }

  // The poller's next read: of the item at the iterator, if the queue is empty.
  function NextRead(c: Cycle, idle: bool): seq<Entry> {
    if idle && c.pos < |c.order| then
      var x := c.order[c.pos];
      [Entry(ReqRead(Item(x.bus % 256, x.dev % 256, x.par % 256), false), PollRead)]
    else
      []
  }

  lemma DispatchQueues(s: Server, c: Client, request: Request)
    ensures Dispatch(s, c, request).queue.enqueued
              == s.queue.enqueued + QueuedFor(c, request, s.manager.writer == Some(c))
  {
    hide QueueRequest, DispatchLocal, Send;
    LocalRequestFrame(s.(manager := CountRequest(s.manager, c)), c, request);
  }

  // An error leaves the poller's cycle alone.
  lemma ReadQueued(s: Server, request: Request)
    requires s.queue.entries == []
    ensures QueueRequest(s, request, PollRead).poller.cycle == s.poller.cycle
  {
    var t := Append(s, request, PollRead);
    assert t.queue.entries == [Entry(request, PollRead)];
    if t.link.status != Running && t.link.status != Initializing && !t.queue.inProgress && t.link.current.None? {
      var u := AnswerFront(t, request, RespError(DownError(t.link.status)));
      assert u.queue.entries == [] && TrySend(u) == u;
    }
  }

  lemma PollNextQueues(s: Server)
    ensures PollNext(s).poller.cycle == s.poller.cycle
    ensures PollNext(s).queue.enqueued
              == s.queue.enqueued + NextRead(s.poller.cycle, !s.poller.stopped && s.queue.entries == [])
  {
    hide QueueRequest;
    var c := s.poller.cycle;
    if !s.poller.stopped && !c.AtEnd() && s.queue.entries == [] {
      ReadQueued(s, ReqRead(Truncate(c.order[c.pos]), false));
    }
  }

  // The poll timer: one read at most, of the item at the iterator of the cycle
  // that goes on or is begun.
  lemma PollTimerQueues(s: Server)
    requires Consistent(s) && Enabled(s, PollTimerFires)
    ensures var t := Step(s, PollTimerFires);
            && t.queue.enqueued
                 == s.queue.enqueued + NextRead(t.poller.cycle, !s.poller.stopped && s.queue.entries == [])
            && (!s.poller.cycle.AtEnd() || s.poller.stopped ==> t.poller.cycle == s.poller.cycle)
  {
    hide PollNext, NewCycle;
    var s0 := s.(poller := s.poller.(timer := false));
    PollNextQueues(s0);
    PollNextQueues(s0.(poller := NewCycle(s0.poller, |s0.queue.answered|)));
    NewCycleRuns(s0.poller, |s0.queue.answered|);
  }

  lemma NewCycleRuns(p: Poller, now: nat)
    ensures NewCycle(p, now).stopped == p.stopped
  {
  }

  // Every callback: what it queues, and nothing else.
  lemma StepQueues(s: Server, e: Event)
    requires PipelineInv(s) && Enabled(s, e) && !e.PollTimerFires?
    ensures Step(s, e).queue.enqueued == s.queue.enqueued + Queued(s, e)
  {
    hide Connect, Disconnect, Dispatch, Handle, TrySend, AnswerFront, StartLink, SetStatus, QueueRequest;
    hide OneInFlight, InOrder, WillWake;
    match e {
      case ClientRequests(c, request) => DispatchQueues(s, c, request);
      case LinkStarted => StartLinkFrame(s);
      case ReconnectTimerFires => StartLinkFrame(s.(link := s.link.(reconnectPending := false)));
      case _ =>
    }
  }

  // ----- Who may write -----

  function ClientOf(handler: Handler): Option<Client> {
    match handler
    case ForClient(c) => Some(c)
    case SetDone(c) => Some(c)
    case ReadAfterSet(c) => Some(c)
    case _ => None
  }

  // The write commands among some entries, and the clients they came from.
  function Commands(entries: seq<Entry>): seq<(Option<Client>, Request)> {
    if entries == [] then []
    else
      var last := entries[|entries| - 1];
      Commands(entries[..|entries| - 1])
        + if Writes(last.request) then [(ClientOf(last.handler), last.request)] else []
  }

  lemma {:induction false} CommandsJoin(a: seq<Entry>, b: seq<Entry>)
    ensures Commands(a + b) == Commands(a) + Commands(b)
    decreases |b|
  {
    if b == [] {
      assert a + b == a;
    } else {
      var n := |b| - 1;
      assert (a + b)[..|a + b| - 1] == a + b[..n];
      CommandsJoin(a, b[..n]);
    }
  }

  lemma NoCommands()
    ensures Commands([]) == []
  {
  }

  lemma CommandsOfOne(e: Entry)
    ensures Commands([e]) == if Writes(e.request) then [(ClientOf(e.handler), e.request)] else []
  {
    assert [e][..0] == [];
  }

  lemma CommandsOfTwo(a: Entry, b: Entry)
    requires !Writes(b.request)
    ensures Commands([a, b]) == Commands([a])
  {
    assert [a, b][..1] == [a];
  }

  // A write command that a client makes while it is the writer.
  function Permitted(s: Server, e: Event): seq<(Option<Client>, Request)> {
    if Enabled(s, e) && e.ClientRequests? && Writes(e.request) && s.manager.writer == Some(e.client) then
      [(Some(e.client), e.request)]
    else
      []
  }

  lemma CommandsQueued(s: Server, e: Event)
    requires PipelineInv(s) && Enabled(s, e) && !e.PollTimerFires?
    ensures Commands(Queued(s, e)) == Permitted(s, e)
  {
    hide PipelineInv, Commands;
    NoCommands();
    if e.ClientRequests? {
      var c, request := e.client, e.request;
      CommandsOfOne(Entry(request, ForClient(c)));
      CommandsOfOne(Entry(request, SetDone(c)));
      if request.ReqSet? {
        CommandsOfTwo(Entry(request, SetDone(c)),
                      Entry(ReqRead(Truncate(request.item), request.mirror), ReadAfterSet(c)));
      }
    } else {
      CommandsOfOne(Entry(ReqScanbus(0), ScanRead));
      CommandsOfTwo(Entry(ReqScanbus(0), ScanRead), Entry(ReqScanbus(1), ScanRead));
    }
  }

  lemma CommandsPolled(c: Cycle, idle: bool)
    ensures Commands(NextRead(c, idle)) == []
  {
  }

  // A SET, RC, RESET or COPY gets into the queue exactly if a client requests it
  // that is the writer at that moment.
  lemma OnlyTheWriterWrites(s: Server, e: Event)
    requires PipelineInv(s)
    ensures Commands(Step(s, e).queue.enqueued) == Commands(s.queue.enqueued) + Permitted(s, e)
  {
    hide Step, Commands, Queued, NextRead, PipelineInv;
    if !Enabled(s, e) {
      Disabled(s, e);
    } else if e.PollTimerFires? {
      PollTimerQueues(s);
      var more := NextRead(Step(s, e).poller.cycle, !s.poller.stopped && s.queue.entries == []);
      CommandsJoin(s.queue.enqueued, more);
      CommandsPolled(Step(s, e).poller.cycle, !s.poller.stopped && s.queue.entries == []);
    } else {
      StepQueues(s, e);
      CommandsJoin(s.queue.enqueued, Queued(s, e));
      CommandsQueued(s, e);
    }
  }

  // A client that is not the writer is told so, and nothing else happens.
  lemma OthersAreRefused(s: Server, c: Client, request: Request, d: Client)
    requires PipelineInv(s) && Enabled(s, ClientRequests(c, request))
    requires Writes(request) && s.manager.writer != Some(c)
    ensures var t := Step(s, ClientRequests(c, request));
            && t.queue == s.queue && t.link == s.link && t.poller == s.poller && t.scanner == s.scanner
            && t.manager.connections == s.manager.connections && t.manager.writer == s.manager.writer
            && Outbox(t.manager, d) == Outbox(s.manager, d) + if d == c then [RespError(PermissionDenied)] else []
  {
    hide PipelineInv;
  }

  // The write commands of a run's clients, each made while its client was the writer.
  ghost function AllPermitted(s: Server, events: seq<Event>): seq<(Option<Client>, Request)>
    requires PipelineInv(s)
    decreases |events|
  {
    if events == [] then []
    else
      StepKeeps(s, events[0]);
      Permitted(s, events[0]) + AllPermitted(Step(s, events[0]), events[1..])
  }

  lemma {:induction false} RunWrites(s: Server, events: seq<Event>)
    requires PipelineInv(s)
    ensures Commands(Run(s, events).queue.enqueued) == Commands(s.queue.enqueued) + AllPermitted(s, events)
    decreases |events|
  {
    hide Step, Commands, Permitted, OneInFlight, InOrder, WillWake;
    if events == [] {
    } else {
      StepKeeps(s, events[0]);
      OnlyTheWriterWrites(s, events[0]);
      RunWrites(Step(s, events[0]), events[1..]);
    }
  }

  // In every run the write commands ever queued are exactly those, in order.
  lemma WritesArePermitted(enumerate: (nat, set<Item>) -> seq<Item>, events: seq<Event>)
    ensures PipelineInv(Initial(enumerate))
    ensures Commands(Run(Initial(enumerate), events).queue.enqueued) == AllPermitted(Initial(enumerate), events)
  {
    InitialInv(enumerate);
    RunWrites(Initial(enumerate), events);
    hide Run, AllPermitted;
  }
}
