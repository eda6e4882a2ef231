/** The request pipeline: one command at a time, answered in order, none lost. */
module ServerFifo {
  import opened Messages
  import opened ServerModel
  import ReplyParser

  // The queue's in-progress flag is set exactly while the link either works on
  // the front of the queue or has posted a response to it, and never both.
  ghost predicate OneInFlight(l: Link, q: Queue) {
    && |l.posted| + (if l.current.Some? then 1 else 0) == (if q.inProgress then 1 else 0)
    && (l.current.Some? <==> l.phase != Idle)
    && (l.current.Some? ==> l.status == Running && q.entries != [] && l.current.value == q.entries[0].request)
    && (l.posted != [] ==>
          && q.entries != []
          && l.posted[0].request == q.entries[0].request
          && ReplyParser.Answers(l.posted[0].request, l.posted[0].response))
  }

  // What was ever enqueued is what was answered followed by what is still
  // queued, and every handler got its own request and a response to it.
  ghost predicate InOrder(q: Queue) {
    && |q.enqueued| == |q.answered| + |q.entries|
    && q.enqueued[|q.answered|..] == q.entries
    && (forall i | 0 <= i < |q.answered| ::
          && q.answered[i].entry == q.enqueued[i]
          && q.answered[i].request == q.answered[i].entry.request
          && ReplyParser.Answers(q.answered[i].request, q.answered[i].response))
    && (forall e <- q.enqueued :: e.request.IsMrcCommand())
  }

  // A queue that waits has something to wake it up.
  ghost predicate WillWake(q: Queue) {
    q.entries != [] && !q.inProgress ==> q.retriesPending > 0
  }

  ghost predicate PipelineInv(s: Server)
    ensures PipelineInv(s) ==> Consistent(s)
  {
    OneInFlight(s.link, s.queue) && InOrder(s.queue) && WillWake(s.queue)
  }

  lemma AnswerFrontKeeps(s: Server, response: Message)
    requires InOrder(s.queue) && s.queue.entries != []
    requires ReplyParser.Answers(s.queue.entries[0].request, response)
    ensures InOrder(AnswerFront(s, s.queue.entries[0].request, response).queue)
  {
    hide Handle;
    var q, r := s.queue, AnswerFront(s, s.queue.entries[0].request, response).queue;
    assert q.enqueued[|q.answered|] == q.entries[0];
    assert r.enqueued[|r.answered|..] == q.enqueued[|q.answered|..][1..];
  }

  lemma {:induction false} TrySendKeeps(s: Server)
    requires OneInFlight(s.link, s.queue) && InOrder(s.queue)
    ensures PipelineInv(TrySend(s))
    decreases |s.queue.entries|
  {
    if s.queue.entries == [] || s.queue.inProgress || s.link.current.Some? {
    } else if s.link.status == Running || s.link.status == Initializing {
    } else {
      var response := RespError(DownError(s.link.status));
      AnswerFrontKeeps(s, response);
      TrySendKeeps(AnswerFront(s, s.queue.entries[0].request, response));
    }
  }

  lemma AppendKeeps(s: Server, request: Request, handler: Handler)
    requires OneInFlight(s.link, s.queue) && InOrder(s.queue) && request.IsMrcCommand()
    ensures var t := Append(s, request, handler);
            OneInFlight(t.link, t.queue) && InOrder(t.queue)
  {
    hide ReplyParser.Answers;
    var t := Append(s, request, handler);
    assert t.queue.enqueued[|t.queue.answered|..] == t.queue.entries;
  }

  lemma QueueRequestKeeps(s: Server, request: Request, handler: Handler)
    requires OneInFlight(s.link, s.queue) && InOrder(s.queue) && request.IsMrcCommand()
    ensures PipelineInv(QueueRequest(s, request, handler))
  {
    hide TrySend, OneInFlight, InOrder, WillWake;
    AppendKeeps(s, request, handler);
    TrySendKeeps(Append(s, request, handler));
  }

  // The link changing its status while it has no command leaves the pipeline alone.
  lemma StatusKeeps(s: Server, status: Status)
    requires PipelineInv(s) && s.link.current.None?
    ensures PipelineInv(SetStatus(s, status)) && PipelineInv(TakeDown(s, status))
  {
    hide SetStatus;
  }

  lemma StartLinkKeeps(s: Server)
    requires PipelineInv(s)
    ensures PipelineInv(StartLink(s))
  {
    hide SetStatus, TakeDown;
    if IsDown(s.link.status) {
      StatusKeeps(s, Connecting);
    }
  }

  lemma CommandEndKeeps(s: Server, lines: seq<ReplyParser.Line>, timedOut: bool)
    requires PipelineInv(s) && s.link.current.Some?
    ensures PipelineInv(s.(link := TakeReply(s.link, lines))) && PipelineInv(FailCommand(s, timedOut))
  {
    hide TakeDown;
    ReplyParser.RespondAnswers(s.link.current.value, lines);
    StatusKeeps(s.(link := PostResponse(s.link, RespError(if timedOut then ComTimeout else ComError))), Stopped);
  }

  lemma DeliveryKeeps(s: Server)
    requires PipelineInv(s) && s.link.posted != []
    ensures var p := s.link.posted[0];
            var s1 := s.(link := s.link.(posted := s.link.posted[1..]));
            PipelineInv(HandleResponse(s1, p.request, p.response))
  {
    hide TrySend, AnswerFront, Handle;
    var p := s.link.posted[0];
    var s1 := s.(link := s.link.(posted := s.link.posted[1..]));
    AnswerFrontKeeps(s1, p.response);
    TrySendKeeps(AnswerFront(s1, p.request, p.response));
  }

  lemma LocalRequestFrame(s: Server, c: Client, request: Request)
    ensures var t := DispatchLocal(s, c, request);
            && t.link == s.link.(silenced := t.link.silenced) && t.queue == s.queue
            && t.manager.skipRead == s.manager.skipRead && t.manager.dispatched == s.manager.dispatched
  {
    hide Send, SetWriter, Disconnect, StopAll, SetSilenced, ExpandRanges;
  }

  lemma DispatchKeeps(s: Server, c: Client, request: Request)
    requires PipelineInv(s)
    ensures PipelineInv(Dispatch(s, c, request))
  {
    hide DispatchCommand, DispatchLocal;
    var s1 := s.(manager := CountRequest(s.manager, c));
    if request.IsMrcCommand() {
      CommandKeeps(s1, c, request);
    } else {
      LocalRequestFrame(s1, c, request);
    }
  }

  lemma CommandKeeps(s: Server, c: Client, request: Request)
    requires PipelineInv(s) && request.IsMrcCommand()
    ensures PipelineInv(DispatchCommand(s, c, request))
  {
    hide QueueRequest;
    if request.IsMrcWriteCommand() && s.manager.writer != Some(c) {
    } else if request.ReqSet? {
      QueueRequestKeeps(s, request, SetDone(c));
      var s1 := QueueRequest(s, request, SetDone(c));
      QueueRequestKeeps(s1, ReqRead(Truncate(request.item), request.mirror), ReadAfterSet(c));
    } else {
      QueueRequestKeeps(s, request, ForClient(c));
    }
  }

  lemma PollNextKeeps(s: Server)
    requires PipelineInv(s)
    ensures PipelineInv(PollNext(s))
  {
    hide QueueRequest;
    if !s.poller.stopped && !s.poller.cycle.AtEnd() {
      QueueRequestKeeps(s, ReqRead(Truncate(s.poller.cycle.order[s.poller.cycle.pos]), false), PollRead);
    }
  }

  lemma TimeoutsKeep(s: Server)
    requires PipelineInv(s)
    ensures PipelineInv(PollTimeout(s)) && PipelineInv(ScanTimeout(s))
  {
    hide QueueRequest, PollNext;
    var s0 := s.(poller := s.poller.(timer := false));
    PollNextKeeps(s0);
    PollNextKeeps(s0.(poller := NewCycle(s0.poller, |s0.queue.answered|)));
    var s2 := s.(scanner := s.scanner.(timer := false));
    QueueRequestKeeps(s2, ReqScanbus(0), ScanRead);
    QueueRequestKeeps(QueueRequest(s2, ReqScanbus(0), ScanRead), ReqScanbus(1), ScanRead);
  }

  lemma StepKeeps(s: Server, e: Event)
    requires PipelineInv(s)
    ensures PipelineInv(Step(s, e))
  {
    hide Connect, Disconnect, Dispatch, FailCommand, TakeReply, HandleResponse, TrySend, PollTimeout, ScanTimeout;
    hide StartLink, SetStatus, TakeDown;
    if Enabled(s, e) {
      match e {
        case ClientConnects(c) =>
        case ClientDisconnects(c) =>
        case ClientRequests(c, request) => DispatchKeeps(s, c, request);
        case WriteCompletes =>
        case WriteFails(timedOut) => CommandEndKeeps(s, [], timedOut);
        case ReplyArrives(lines) => CommandEndKeeps(s, lines, false);
        case ReadFails(timedOut) => CommandEndKeeps(s, [], timedOut);
        case ResponseDelivered => DeliveryKeeps(s);
        case RetryTimerFires =>
          TrySendKeeps(s.(queue := s.queue.(retriesPending := s.queue.retriesPending - 1)));
        case PollTimerFires => TimeoutsKeep(s);
        case ScanTimerFires => TimeoutsKeep(s);
        case LinkStarted => StartLinkKeeps(s);
        case ReconnectTimerFires =>
          StartLinkKeeps(s.(link := s.link.(reconnectPending := false)));
        case LinkOpens(opens) =>
          StatusKeeps(s, Initializing);
          StatusKeeps(s, ConnectFailed);
        case InitCompletes => StatusKeeps(s, Running);
        case InitFails => StatusKeeps(s, InitFailed);
      }
    }
  }

  lemma Disabled(s: Server, e: Event)
    requires Consistent(s) && !Enabled(s, e)
    ensures Step(s, e) == s
  {
  }

  // Any sequence of callbacks; those that cannot run are passed over. That a
  // run is defined at all rests on the invariant: no response ever meets an
  // empty queue.
  ghost function Run(s: Server, events: seq<Event>): Server
    requires PipelineInv(s)
    decreases |events|
  {
    if events == [] then s
    else
      StepKeeps(s, events[0]);
      Run(Step(s, events[0]), events[1..])
  }

  // One more callback of a run.
  lemma RunOn(s: Server, events: seq<Event>, k: nat)
    requires PipelineInv(s) && k < |events|
    ensures PipelineInv(Step(s, events[k]))
    ensures Run(s, events[k..]) == Run(Step(s, events[k]), events[k + 1..])
    ensures k + 1 == |events| ==> Run(s, events[k..]) == Step(s, events[k])
  {
    hide Step, OneInFlight, InOrder, WillWake;
    StepKeeps(s, events[k]);
    assert events[k..][1..] == events[k + 1..];
  }

  lemma {:induction false} RunKeeps(s: Server, events: seq<Event>)
    requires PipelineInv(s)
    ensures PipelineInv(Run(s, events))
    decreases |events|
  {
    hide Step, OneInFlight, InOrder, WillWake;
    if events == [] {
    } else {
      StepKeeps(s, events[0]);
      RunKeeps(Step(s, events[0]), events[1..]);
    }
  }

  lemma InitialInv(enumerate: (nat, set<Item>) -> seq<Item>)
    ensures PipelineInv(Initial(enumerate))
  {
  }

  function Entries(answers: seq<Answer>): (entries: seq<Entry>)
    ensures |entries| == |answers|
    ensures forall i | 0 <= i < |answers| :: entries[i] == answers[i].entry
  {
    if answers == [] then [] else [answers[0].entry] + Entries(answers[1..])
  }

  // In every run, requests are answered in the order they were enqueued, each
  // by one call of its own handler with its own request and a response to it.
  lemma {:induction false} AnsweredInOrder(enumerate: (nat, set<Item>) -> seq<Item>, events: seq<Event>)
    ensures PipelineInv(Initial(enumerate))
    ensures var q := Run(Initial(enumerate), events).queue;
            && q.enqueued == Entries(q.answered) + q.entries
            && (forall a <- q.answered :: a.request == a.entry.request && ReplyParser.Answers(a.request, a.response))
  {
    InitialInv(enumerate);
    RunKeeps(Initial(enumerate), events);
    var q := Run(Initial(enumerate), events).queue;
    assert q.enqueued == q.enqueued[..|q.answered|] + q.enqueued[|q.answered|..];
    assert q.enqueued[..|q.answered|] == Entries(q.answered);
  }

  // Histories only grow: nothing that was answered is answered again.
  ghost predicate Extends(q: Queue, r: Queue) {
    q.enqueued <= r.enqueued && q.answered <= r.answered
  }

  lemma StepExtends(s: Server, e: Event)
    requires PipelineInv(s)
    ensures Extends(s.queue, Step(s, e).queue)
  {
    hide Connect, Disconnect, DispatchLocal, Handle, QueueRequest, TrySend, StartLink, SetStatus, AnswerFront;
    hide OneInFlight, InOrder, WillWake;
    if e.ClientRequests? {
      LocalRequestFrame(s.(manager := CountRequest(s.manager, e.client)), e.client, e.request);
    }
    if e.LinkStarted? || e.ReconnectTimerFires? {
      StartLinkFrame(s);
      StartLinkFrame(s.(link := s.link.(reconnectPending := false)));
    }
  }

  lemma StartLinkFrame(s: Server)
    ensures StartLink(s).queue == s.queue
  {
    hide SetStatus;
  }

  lemma {:induction false} RunExtends(s: Server, events: seq<Event>)
    requires PipelineInv(s)
    ensures Extends(s.queue, Run(s, events).queue)
    decreases |events|
  {
    hide Step;
    if events == [] {
    } else {
      StepKeeps(s, events[0]);
      StepExtends(s, events[0]);
      RunExtends(Step(s, events[0]), events[1..]);
    }
  }

  // If the reply ends before the parser is satisfied, nothing is ever answered
  // again: no callback that is left can get the pipeline going.
  lemma {:induction false} StarvedForever(s: Server, events: seq<Event>)
    requires PipelineInv(s) && s.link.phase == Starved
    ensures var t := Run(s, events);
            t.link.phase == Starved && t.queue.answered == s.queue.answered
    decreases |events|
  {
    hide Step;
    if events == [] {
    } else {
      StepKeeps(s, events[0]);
      StarvedStep(s, events[0]);
      StarvedForever(Step(s, events[0]), events[1..]);
    }
  }

  lemma StarvedStep(s: Server, e: Event)
    requires PipelineInv(s) && s.link.phase == Starved
    ensures Step(s, e).link.phase == Starved && Step(s, e).queue.answered == s.queue.answered
  {
    hide Connect, Disconnect, DispatchLocal, Handle, AnswerFront, SetStatus, NewCycle, ReplyParser.Respond;
    if e.ClientRequests? {
      LocalRequestFrame(s.(manager := CountRequest(s.manager, e.client)), e.client, e.request);
    }
  }

  lemma {:induction false} TrySendStarvesNot(s: Server)
    requires s.link.phase != Starved
    ensures TrySend(s).link.phase != Starved
    decreases |s.queue.entries|
  {
    hide Handle;
    if s.queue.entries == [] || s.queue.inProgress || s.link.current.Some? {
    } else if s.link.status == Running || s.link.status == Initializing {
    } else {
      TrySendStarvesNot(AnswerFront(s, s.queue.entries[0].request, RespError(DownError(s.link.status))));
    }
  }

  lemma QueueStarvesNot(s: Server, request: Request, handler: Handler)
    requires s.link.phase != Starved
    ensures QueueRequest(s, request, handler).link.phase != Starved
  {
    TrySendStarvesNot(Append(s, request, handler));
  }

  // The callbacks that queue requests.
  lemma RequestsStarveNot(s: Server, c: Client, request: Request)
    requires s.link.phase != Starved
    ensures Dispatch(s, c, request).link.phase != Starved
    ensures PollTimeout(s).link.phase != Starved && ScanTimeout(s).link.phase != Starved
  {
    hide QueueRequest, DispatchLocal, NewCycle;
    var s1 := s.(manager := CountRequest(s.manager, c));
    LocalRequestFrame(s1, c, request);
    QueueStarvesNot(s1, request, SetDone(c));
    QueueStarvesNot(s1, request, ForClient(c));
    if request.ReqSet? {
      QueueStarvesNot(QueueRequest(s1, request, SetDone(c)),
        ReqRead(Truncate(request.item), request.mirror), ReadAfterSet(c));
    }
    var s2 := s.(scanner := s.scanner.(timer := false));
    QueueStarvesNot(s2, ReqScanbus(0), ScanRead);
    QueueStarvesNot(QueueRequest(s2, ReqScanbus(0), ScanRead), ReqScanbus(1), ScanRead);
    PollStarvesNot(s.(poller := s.poller.(timer := false)));
    PollStarvesNot(s.(poller := NewCycle(s.poller.(timer := false), |s.queue.answered|)));
  }

  lemma PollStarvesNot(s: Server)
    requires s.link.phase != Starved
    ensures PollNext(s).link.phase != Starved
  {
    hide QueueRequest;
    if !s.poller.stopped && !s.poller.cycle.AtEnd() {
      QueueStarvesNot(s, ReqRead(Truncate(s.poller.cycle.order[s.poller.cycle.pos]), false), PollRead);
    }
  }

  lemma LinkStarvesNot(s: Server, opens: bool, timedOut: bool)
    requires s.link.phase != Starved
    ensures StartLink(s).link.phase != Starved && TakeDown(s, InitFailed).link.phase != Starved
    ensures OpenLink(s, opens).link.phase != Starved
    ensures s.link.current.Some? ==> FailCommand(s, timedOut).link.phase != Starved
  {
    hide SetStatus;
  }

  lemma ReplyStarves(l: Link, lines: seq<ReplyParser.Line>)
    requires l.current.Some?
    ensures TakeReply(l, lines).phase == Starved <==> ReplyParser.Starves(l.current.value, lines)
  {
    hide ReplyParser.Respond, ReplyParser.Starves;
    ReplyParser.NoResponseExactly(l.current.value, lines);
  }

  lemma DeliveryStarvesNot(s: Server)
    requires Consistent(s) && s.link.phase != Starved && s.link.posted != []
    ensures var p := s.link.posted[0];
            var s1 := s.(link := s.link.(posted := s.link.posted[1..]));
            HandleResponse(s1, p.request, p.response).link.phase != Starved
  {
    hide TrySend, Handle;
    var p := s.link.posted[0];
    var s1 := s.(link := s.link.(posted := s.link.posted[1..]));
    TrySendStarvesNot(AnswerFront(s1, p.request, p.response));
  }

  lemma BusyStep(s: Server, e: Event)
    requires Consistent(s) && Enabled(s, e) && s.link.phase != Starved
    ensures Step(s, e).link.phase == Starved <==>
            e.ReplyArrives? && ReplyParser.Starves(s.link.current.value, e.lines)
  {
    hide Connect, Disconnect, Dispatch, TrySend, HandleResponse, PollTimeout, ScanTimeout, SetStatus, TakeReply;
    hide StartLink, TakeDown, FailCommand, ReplyParser.Starves;
    match e {
      case ClientRequests(c, request) => RequestsStarveNot(s, c, request);
      case PollTimerFires => RequestsStarveNot(s, 0, NotARequest);
      case ScanTimerFires => RequestsStarveNot(s, 0, NotARequest);
      case ResponseDelivered => DeliveryStarvesNot(s);
      case RetryTimerFires =>
        TrySendStarvesNot(s.(queue := s.queue.(retriesPending := s.queue.retriesPending - 1)));
      case ReplyArrives(lines) => ReplyStarves(s.link, lines);
      case WriteFails(timedOut) => LinkStarvesNot(s, false, timedOut);
      case ReadFails(timedOut) => LinkStarvesNot(s, false, timedOut);
      case LinkStarted => LinkStarvesNot(s, false, false);
      case ReconnectTimerFires =>
        LinkStarvesNot(s.(link := s.link.(reconnectPending := false)), false, false);
      case LinkOpens(opens) => LinkStarvesNot(s, opens, false);
      case InitFails => LinkStarvesNot(s, false, false);
      case _ =>
    }
  }

  // And exactly the replies that leave the parser unsatisfied lead there.
  lemma StarvesExactly(s: Server, e: Event)
    requires PipelineInv(s)
    ensures Step(s, e).link.phase == Starved <==>
            || s.link.phase == Starved
            || (Enabled(s, e) && e.ReplyArrives? && ReplyParser.Starves(s.link.current.value, e.lines))
  {
    hide OneInFlight, InOrder, WillWake, ReplyParser.Starves;
    if s.link.phase == Starved {
      hide Step;
      StarvedStep(s, e);
    } else if Enabled(s, e) {
      hide Step;
      BusyStep(s, e);
    }
  }

  // Some callback of the run is one that 'p' describes, in the state it finds.
  ghost predicate Sometime(s: Server, events: seq<Event>, p: (Server, Event) -> bool)
    requires PipelineInv(s)
    decreases |events|
  {
    && events != []
    && (StepKeeps(s, events[0]);
        p(s, events[0]) || Sometime(Step(s, events[0]), events[1..], p))
  }

  predicate StarvingReply(s: Server, e: Event) {
    && Enabled(s, e) && e.ReplyArrives? && s.link.current.Some?
    && ReplyParser.Starves(s.link.current.value, e.lines)
  }

  // So a run ends up stuck if and only if one of these replies arrives in it.
  lemma {:induction false} StuckExactly(s: Server, events: seq<Event>)
    requires PipelineInv(s)
    ensures Run(s, events).link.phase == Starved <==> s.link.phase == Starved || Sometime(s, events, StarvingReply)
    decreases |events|
  {
    hide Step, StarvingReply, OneInFlight, InOrder, WillWake;
    if events == [] {
    } else {
      StepKeeps(s, events[0]);
      StarvesExactly(s, events[0]);
      StuckHere(s, events[0]);
      StuckExactly(Step(s, events[0]), events[1..]);
    }
  }

  lemma StuckHere(s: Server, e: Event)
    requires PipelineInv(s)
    ensures StarvingReply(s, e) <==>
            Enabled(s, e) && e.ReplyArrives? && ReplyParser.Starves(s.link.current.value, e.lines)
  {
    hide ReplyParser.Starves, ReplyParser.Answers, InOrder, WillWake;
  }

  // Between steps a command in progress on a link means that this is the front
  // of the queue, and a free queue hands its front to a running link, which
  // always takes it.
  lemma WriteNeverRefused(s: Server)
    requires OneInFlight(s.link, s.queue) && s.queue.entries != [] && !s.queue.inProgress && s.link.status == Running
    ensures s.link.current.None? && s.link.posted == []
    ensures var t := TrySend(s);
            && t.queue.inProgress && OneInFlight(t.link, t.queue)
            && (s.link.silenced ==> t.link.posted == [Posted(s.queue.entries[0].request, RespError(Silenced))])
            && (!s.link.silenced ==> t.link.current == Some(s.queue.entries[0].request) && t.link.phase == Writing)
  {
  }

  // On a link that is neither running nor initializing, a free queue is
  // emptied on the spot: everything in it is answered with an error.
  lemma {:induction false} DownLinkDrains(s: Server)
    requires OneInFlight(s.link, s.queue) && InOrder(s.queue) && !s.queue.inProgress
    requires s.link.status != Running && s.link.status != Initializing
    ensures var t := TrySend(s);
            && t.queue.entries == [] && !t.queue.inProgress
            && t.queue.enqueued == s.queue.enqueued
            && |t.queue.answered| == |s.queue.enqueued|
            && s.queue.answered <= t.queue.answered
            && (forall i | |s.queue.answered| <= i < |t.queue.answered| ::
                  t.queue.answered[i].response == RespError(DownError(s.link.status)))
    decreases |s.queue.entries|
  {
    if s.queue.entries == [] {
    } else {
      var response := RespError(DownError(s.link.status));
      AnswerFrontKeeps(s, response);
      DownLinkDrains(AnswerFront(s, s.queue.entries[0].request, response));
    }
  }
}
