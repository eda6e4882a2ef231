/** The bus scans that the server makes on its own. */
module ServerScans {
  import opened Messages
  import opened ServerModel
  import opened ServerFifo
  import opened ServerRequests

  // ----- Both buses in turn -----

  function Scans(entries: seq<Entry>): seq<Request> {
    if entries == [] then []
    else
      var last := entries[|entries| - 1];
      Scans(entries[..|entries| - 1]) + if last.handler.ScanRead? then [last.request] else []
  }

  ghost predicate InTurn(scans: seq<Request>) {
    |scans| % 2 == 0 && forall i | 0 <= i < |scans| :: scans[i] == ReqScanbus(i % 2)
  }

  lemma {:induction false} ScansJoin(a: seq<Entry>, b: seq<Entry>)
    ensures Scans(a + b) == Scans(a) + Scans(b)
    decreases |b|
  {
    if b == [] {
      assert a + b == a;
    } else {
      var n := |b| - 1;
      assert (a + b)[..|a + b| - 1] == a + b[..n];
      ScansJoin(a, b[..n]);
    }
  }

  lemma NoScans(entries: seq<Entry>)
    requires forall e <- entries :: !e.handler.ScanRead?
    ensures Scans(entries) == []
  {
  }

  lemma BothScans()
    ensures Scans([Entry(ReqScanbus(0), ScanRead), Entry(ReqScanbus(1), ScanRead)]) == [ReqScanbus(0), ReqScanbus(1)]
  {
    var a, b := Entry(ReqScanbus(0), ScanRead), Entry(ReqScanbus(1), ScanRead);
    assert [a, b][..1] == [a] && [a][..0] == [];
  }

  lemma StepScansInTurn(s: Server, e: Event)
    requires PipelineInv(s) && InTurn(Scans(s.queue.enqueued))
    ensures InTurn(Scans(Step(s, e).queue.enqueued))
  {
    hide Step, PipelineInv, Scans;
    if !Enabled(s, e) {
      Disabled(s, e);
    } else if e.PollTimerFires? {
      PollTimerQueues(s);
      var more := NextRead(Step(s, e).poller.cycle, !s.poller.stopped && s.queue.entries == []);
      ScansJoin(s.queue.enqueued, more);
      NoScans(more);
    } else {
      StepQueues(s, e);
      ScansJoin(s.queue.enqueued, Queued(s, e));
      if e.ScanTimerFires? {
        BothScans();
      } else {
        NoScans(Queued(s, e));
      }
    }
  }

  lemma {:induction false} RunScansInTurn(s: Server, events: seq<Event>)
    requires PipelineInv(s) && InTurn(Scans(s.queue.enqueued))
    ensures InTurn(Scans(Run(s, events).queue.enqueued))
    decreases |events|
  {
    hide Step, OneInFlight, InOrder, WillWake, Scans, InTurn;
    if events == [] {
    } else {
      StepKeeps(s, events[0]);
      StepScansInTurn(s, events[0]);
      RunScansInTurn(Step(s, events[0]), events[1..]);
    }
  }

  // In every run the server's own scans are of bus 0 and bus 1 in turn.
  lemma BusesInTurn(enumerate: (nat, set<Item>) -> seq<Item>, events: seq<Event>)
    ensures PipelineInv(Initial(enumerate))
    ensures var scans := Scans(Run(Initial(enumerate), events).queue.enqueued);
            |scans| % 2 == 0 && forall i | 0 <= i < |scans| :: scans[i] == ReqScanbus(i % 2)
  {
    hide Run;
    InitialInv(enumerate);
    RunScansInTurn(Initial(enumerate), events);
  }

  // ----- Scanning while stopped -----

  predicate ScanQueued(entries: seq<Entry>) {
    exists e <- entries :: e.handler.ScanRead?
  }

  // A scan is on its way, or the timer for the next one is running.
  predicate Scanning(s: Server) {
    s.scanner.timer || ScanQueued(s.queue.entries)
  }

  // The same as before.
  ghost predicate ScansOn(s: Server, t: Server) {
    t.scanner.stopped == s.scanner.stopped && (Scanning(t) <==> Scanning(s))
  }

  lemma HandledScanner(s: Server, handler: Handler, response: Message)
    ensures Handle(s, handler, response).scanner
              == if handler.ScanRead? then s.scanner.(timer := true) else s.scanner
  {
    hide Send, SendTo, NoteParameter, TakeReading, AllItems, SetAnswer;
  }

  lemma AnswerFrontScans(s: Server, response: Message)
    requires s.queue.entries != []
    ensures ScansOn(s, AnswerFront(s, s.queue.entries[0].request, response))
  {
    hide Handle;
    var entries := s.queue.entries;
    HandledScanner(s, entries[0].handler, response);
    assert entries == [entries[0]] + entries[1..];
  }

  lemma {:induction false} TrySendScans(s: Server)
    ensures ScansOn(s, TrySend(s))
    decreases |s.queue.entries|
  {
    hide AnswerFront;
    if s.queue.entries == [] || s.queue.inProgress || s.link.current.Some? {
    } else if s.link.status == Running || s.link.status == Initializing {
    } else {
      var response := RespError(DownError(s.link.status));
      AnswerFrontScans(s, response);
      TrySendScans(AnswerFront(s, s.queue.entries[0].request, response));
    }
  }

  lemma QueueScans(s: Server, request: Request, handler: Handler)
    ensures var t := QueueRequest(s, request, handler);
            t.scanner.stopped == s.scanner.stopped && (Scanning(t) <==> Scanning(s) || handler.ScanRead?)
  {
    hide TrySend;
    var e := Entry(request, handler);
    TrySendScans(Append(s, request, handler));
    assert forall f :: f in s.queue.entries + [e] <==> f in s.queue.entries || f == e;
  }

  lemma CommandScans(s: Server, c: Client, request: Request)
    requires request.IsMrcCommand()
    ensures ScansOn(s, Dispatch(s, c, request))
  {
    hide QueueRequest, Send;
    var s1 := s.(manager := CountRequest(s.manager, c));
    if request.ReqSet? {
      QueueScans(s1, request, SetDone(c));
      QueueScans(QueueRequest(s1, request, SetDone(c)), ReqRead(Truncate(request.item), request.mirror),
                 ReadAfterSet(c));
    } else {
      QueueScans(s1, request, ForClient(c));
    }
  }

  lemma PollNextScans(s: Server)
    ensures ScansOn(s, PollNext(s))
  {
    hide QueueRequest;
    if !s.poller.cycle.AtEnd() {
      QueueScans(s, ReqRead(Truncate(s.poller.cycle.order[s.poller.cycle.pos]), false), PollRead);
    }
  }

  lemma TimersScan(s: Server)
    ensures ScansOn(s, PollTimeout(s))
    ensures ScanTimeout(s).scanner.stopped == s.scanner.stopped && Scanning(ScanTimeout(s))
  {
    hide QueueRequest, PollNext, NewCycle;
    var s0 := s.(poller := s.poller.(timer := false));
    PollNextScans(s0);
    PollNextScans(s0.(poller := NewCycle(s0.poller, |s0.queue.answered|)));
    var s2 := s.(scanner := s.scanner.(timer := false));
    QueueScans(s2, ReqScanbus(0), ScanRead);
    QueueScans(QueueRequest(s2, ReqScanbus(0), ScanRead), ReqScanbus(1), ScanRead);
  }

  // Starting makes it scan; stopping takes the timer away, but not what is queued.
  ghost predicate ScansAfter(s: Server, t: Server) {
    Scanning(t) <==>
      if s.scanner.stopped == t.scanner.stopped then Scanning(s)
      else s.scanner.stopped || ScanQueued(s.queue.entries)
  }

  lemma StatusScans(s: Server, status: Status)
    ensures ScansAfter(s, SetStatus(s, status)) && ScansAfter(s, TakeDown(s, status))
    ensures SetStatus(s, status).queue == s.queue && TakeDown(s, status).queue == s.queue
    ensures status != Running ==> SetStatus(s, status).scanner.stopped && TakeDown(s, status).scanner.stopped
  {
    hide SendTo, ScanQueued;
  }

  lemma StartLinkScans(s: Server)
    ensures ScansAfter(s, StartLink(s))
  {
    hide SetStatus, TakeDown, ScanQueued;
    if IsDown(s.link.status) {
      StatusScans(s, Connecting);
    }
  }

  lemma FailScans(s: Server, timedOut: bool)
    requires s.link.current.Some?
    ensures ScansAfter(s, FailCommand(s, timedOut))
  {
    hide TakeDown, ScanQueued;
    StatusScans(s.(link := PostResponse(s.link, RespError(if timedOut then ComTimeout else ComError))), Stopped);
  }

  lemma PollingScans(s: Server)
    ensures StartPolling(s).scanner == StartScanner(s.scanner) && StopPolling(s).scanner == StopScanner(s.scanner)
  {
    hide StartPoller, StopPoller;
  }

  // Only the scanner and the queue matter.
  lemma ScannerStarts(s: Server, t: Server)
    requires t.queue.entries == s.queue.entries
    requires t.scanner in {s.scanner, StartScanner(s.scanner), StopScanner(s.scanner)}
    ensures ScansAfter(s, t)
  {
    hide ScanQueued;
  }

  lemma ConnectScans(s: Server, c: Client)
    ensures ScansAfter(s, Connect(s, c))
  {
    hide Send, SetWriter, StartPolling, StartScanner, StopScanner, ScansAfter;
    var m0 := s.manager.(connections := s.manager.connections + {c});
    var m2 := Send(Send(m0, c, NotifyMrcStatus(s.link.status)), c, NotifySilenced(s.link.silenced));
    PollingScans(s.(manager := SetWriter(m2, Some(c))));
    ScannerStarts(s, Connect(s, c));
  }

  lemma DisconnectScans(s: Server, c: Client)
    ensures ScansAfter(s, Disconnect(s, c))
  {
    hide SetWriter, TheOnly, StopPoller, StartScanner, StopScanner, ScansAfter;
    ScannerStarts(s, Disconnect(s, c));
  }

  lemma StopAllScans(s: Server)
    ensures ScansAfter(s, StopAll(s))
  {
    hide SetWriter, StopPoller, StartScanner, StopScanner, ScansAfter;
    ScannerStarts(s, StopAll(s));
  }

  lemma LocalScans(s: Server, c: Client, request: Request)
    requires !request.IsMrcCommand()
    ensures ScansAfter(s, DispatchLocal(s, c, request))
  {
    hide Send, SendTo, SetWriter, Disconnect, StopAll, ExpandRanges, ScanQueued;
    match request {
      case ReqQuit => StopAllScans(SendBool(s, c, true));
      case NotARequest => DisconnectScans(SendError(s, c, InvalidType), c);
      case _ =>
    }
  }

  lemma DispatchScans(s: Server, c: Client, request: Request)
    ensures ScansAfter(s, Dispatch(s, c, request))
  {
    hide DispatchCommand, DispatchLocal, ScanQueued;
    if request.IsMrcCommand() {
      CommandScans(s, c, request);
    } else {
      LocalScans(s.(manager := CountRequest(s.manager, c)), c, request);
    }
  }

  lemma DeliveryScans(s: Server)
    requires Consistent(s) && s.link.posted != []
    ensures var p := s.link.posted[0];
            ScansOn(s, HandleResponse(s.(link := s.link.(posted := s.link.posted[1..])), p.request, p.response))
  {
    hide TrySend, Handle, ScanQueued;
    var p := s.link.posted[0];
    var s1 := s.(link := s.link.(posted := s.link.posted[1..]));
    HandledScanner(s1, s1.queue.entries[0].handler, p.response);
    AnsweredScans(s1, p.request, p.response);
    TrySendScans(AnswerFront(s1, p.request, p.response));
  }

  lemma AnsweredScans(s: Server, request: Request, response: Message)
    requires s.queue.entries != []
    ensures ScansOn(s, AnswerFront(s, request, response))
  {
    hide Handle;
    var entries := s.queue.entries;
    HandledScanner(s, entries[0].handler, response);
    assert entries == [entries[0]] + entries[1..];
  }

  // Whether the server scans after a callback.
  lemma StepScans(s: Server, e: Event)
    requires PipelineInv(s) && Enabled(s, e)
    ensures ScansAfter(s, Step(s, e))
  {
    hide Connect, Disconnect, Dispatch, FailCommand, TakeReply, HandleResponse, TrySend, PollTimeout, ScanTimeout;
    hide StartLink, SetStatus, TakeDown, ScanQueued, InOrder, WillWake;
    match e {
      case ClientConnects(c) => ConnectScans(s, c);
      case ClientDisconnects(c) => DisconnectScans(s, c);
      case ClientRequests(c, request) => DispatchScans(s, c, request);
      case WriteCompletes =>
      case ReplyArrives(_) =>
      case WriteFails(timedOut) => FailScans(s, timedOut);
      case ReadFails(timedOut) => FailScans(s, timedOut);
      case ResponseDelivered => DeliveryScans(s);
      case RetryTimerFires => TrySendScans(s.(queue := s.queue.(retriesPending := s.queue.retriesPending - 1)));
      case PollTimerFires => TimersScan(s);
      case ScanTimerFires => TimersScan(s);
      case LinkStarted => StartLinkScans(s);
      case ReconnectTimerFires => StartLinkScans(s.(link := s.link.(reconnectPending := false)));
      case LinkOpens(opens) =>
        StatusScans(s, Initializing);
        StatusScans(s, ConnectFailed);
      case InitCompletes => StatusScans(s, Running);
      case InitFails => StatusScans(s, InitFailed);
    }
  }

  // The scan poller was stopped and scans all the same.
  predicate ScansStopped(s: Server) {
    s.scanner.stopped && Scanning(s)
  }

  // It comes to that exactly if it is stopped while one of its scans is queued,
  // and then it stays so until it is started: the response sets the timer, and
  // the timer queues the next scans, without asking whether it was stopped.
  lemma ScansStoppedExactly(s: Server, e: Event)
    requires PipelineInv(s) && Enabled(s, e)
    ensures ScansStopped(Step(s, e)) <==>
              && Step(s, e).scanner.stopped
              && if s.scanner.stopped then ScansStopped(s) else ScanQueued(s.queue.entries)
  {
    hide Step, ScanQueued, Scanning, PipelineInv;
    StepScans(s, e);
  }

  // The only client leaves while the link is initialising and scans are queued.
  function LonelyRun(c: Client): seq<Event> {
    [LinkStarted, LinkOpens(true), ClientConnects(c), ScanTimerFires, ClientDisconnects(c)]
  }

  ghost predicate Alone(s: Server, c: Client) {
    && PipelineInv(s) && !s.halted && s.link.status == Initializing && s.link.current.None?
    && s.manager.connections == {c} && c in s.manager.outbox && !s.scanner.stopped
  }

  ghost predicate Untouched(s: Server, status: Status) {
    && PipelineInv(s) && !s.halted && s.link.status == status && s.link.current.None?
    && s.manager.connections == {} && s.manager.outbox == map[] && s.manager.dispatched == map[]
    && s.scanner.stopped && s.queue.entries == []
  }

  lemma LinkStarts(enumerate: (nat, set<Item>) -> seq<Item>)
    ensures PipelineInv(Initial(enumerate)) && Untouched(Step(Initial(enumerate), LinkStarted), Connecting)
  {
    hide OneInFlight, InOrder, WillWake;
    InitialInv(enumerate);
    StepKeeps(Initial(enumerate), LinkStarted);
  }

  lemma LinkIsOpen(s: Server)
    requires Untouched(s, Connecting)
    ensures Untouched(Step(s, LinkOpens(true)), Initializing)
  {
    hide OneInFlight, InOrder, WillWake;
    StepKeeps(s, LinkOpens(true));
  }

  lemma ClientComesEarly(s: Server, c: Client)
    requires Untouched(s, Initializing)
    ensures var t := Step(s, ClientConnects(c));
            Alone(t, c) && t.scanner.timer && t.queue.entries == []
  {
    hide OneInFlight, InOrder, WillWake, Send, SetWriter, AllItems;
    StepKeeps(s, ClientConnects(c));
    ConnectReaches(s, c);
    assert {} + {c} == {c};
  }

  lemma ConnectReaches(s: Server, c: Client)
    ensures c in Connect(s, c).manager.outbox
  {
  }

  lemma ScansAreQueued(s: Server, c: Client)
    requires Alone(s, c) && s.scanner.timer && s.queue.entries == []
    ensures Alone(Step(s, ScanTimerFires), c) && ScanQueued(Step(s, ScanTimerFires).queue.entries)
  {
    hide OneInFlight, InOrder, WillWake;
    StepKeeps(s, ScanTimerFires);
    assert Step(s, ScanTimerFires).queue.entries
        == [Entry(ReqScanbus(0), ScanRead), Entry(ReqScanbus(1), ScanRead)];
  }

  lemma ClientLeaves(s: Server, c: Client)
    requires Alone(s, c) && ScanQueued(s.queue.entries)
    ensures var t := Step(s, ClientDisconnects(c));
            PipelineInv(t) && t.manager.connections == {} && ScansStopped(t)
  {
    hide OneInFlight, InOrder, WillWake, SetWriter, TheOnly;
    StepKeeps(s, ClientDisconnects(c));
    assert {c} - {c} == {};
  }

  // So the server can come to scan for nobody.
  lemma ScansForNobody(enumerate: (nat, set<Item>) -> seq<Item>, c: Client)
    ensures PipelineInv(Initial(enumerate))
    ensures var t := Run(Initial(enumerate), LonelyRun(c));
            t.manager.connections == {} && ScansStopped(t)
  {
    hide Step, Run, PipelineInv, ScanQueued, ScansStopped;
    var events, s0 := LonelyRun(c), Initial(enumerate);
    LinkStarts(enumerate);
    assert events[0..] == events;
    RunOn(s0, events, 0);
    var s1 := Step(s0, events[0]);
    RunOn(s1, events, 1);
    LinkIsOpen(s1);
    var s2 := Step(s1, events[1]);
    RunOn(s2, events, 2);
    ClientComesEarly(s2, c);
    var s3 := Step(s2, events[2]);
    RunOn(s3, events, 3);
    ScansAreQueued(s3, c);
    var s4 := Step(s3, events[3]);
    RunOn(s4, events, 4);
    ClientLeaves(s4, c);
  }

  lemma {:induction false} RunScans(s: Server, events: seq<Event>)
    requires PipelineInv(s) && (s.scanner.stopped || Scanning(s))
    ensures var t := Run(s, events);
            t.scanner.stopped || Scanning(t)
    decreases |events|
  {
    hide Step, OneInFlight, InOrder, WillWake, Scanning;
    if events == [] {
    } else {
      StepKeeps(s, events[0]);
      if Enabled(s, events[0]) {
        StepScans(s, events[0]);
      } else {
        Disabled(s, events[0]);
      }
      RunScans(Step(s, events[0]), events[1..]);
    }
  }

  // A scan poller that was not stopped never falls asleep.
  lemma ScansWhileStarted(enumerate: (nat, set<Item>) -> seq<Item>, events: seq<Event>)
    ensures PipelineInv(Initial(enumerate))
    ensures var s := Run(Initial(enumerate), events);
            !s.scanner.stopped ==> s.scanner.timer || exists e <- s.queue.entries :: e.handler.ScanRead?
  {
    hide Run;
    InitialInv(enumerate);
    RunScans(Initial(enumerate), events);
  }
}
