/** When the poller advances an end iterator. */
module ServerPollEnds {
  import opened Messages
  import opened ServerModel
  import opened ServerFifo
  import opened ServerPolling
  import opened ServerReplies
  import ReplyParser

  // ----- Exactly when -----

  // A value read for the poller is delivered to it while it runs, and either it
  // has not begun a cycle since it was started, or there is nothing to poll.
  predicate HitsTheEnd(s: Server, e: Event) {
    && Enabled(s, e) && e.ResponseDelivered?
    && s.queue.entries != [] && s.queue.entries[0].handler.PollRead?
    && s.link.posted[0].response.RespRead?
    && !s.poller.stopped
    && (!s.poller.begun || s.poller.cycle.items == {})
  }

  lemma PollResponseEnds(s: Server, response: Message)
    ensures PollResponse(s, response).poller.undefinedBehaviour <==>
            || s.poller.undefinedBehaviour
            || (response.RespRead? && !s.poller.stopped && s.poller.cycle.AtEnd())
  {
    hide SendTo, NewCycle, TakeReading;
    if !s.poller.stopped && response.RespRead? {
      var p := s.poller.(cycle := TakeReading(s.poller.cycle, response.item, response.val));
      NewCycleEnds(Publish(p, |s.queue.answered| + 1), |s.queue.answered| + 1);
    }
  }

  lemma NewCycleEnds(p: Poller, now: nat)
    ensures NewCycle(p, now).undefinedBehaviour == p.undefinedBehaviour
  {
  }

  // Handling a response does so exactly if the poller is given a value at the end.
  lemma HandleEnds(s: Server, handler: Handler, response: Message)
    ensures Handle(s, handler, response).poller.undefinedBehaviour <==>
            || s.poller.undefinedBehaviour
            || (handler.PollRead? && response.RespRead? && !s.poller.stopped && s.poller.cycle.AtEnd())
  {
    hide PollResponse, Send, SendTo, NoteParameter, SetAnswer;
    PollResponseEnds(s, response);
  }

  lemma {:induction false} TrySendEnds(s: Server)
    ensures TrySend(s).poller.undefinedBehaviour == s.poller.undefinedBehaviour
    decreases |s.queue.entries|
  {
    hide Handle;
    if s.queue.entries == [] || s.queue.inProgress || s.link.current.Some? {
    } else if s.link.status == Running || s.link.status == Initializing {
    } else {
      HandleEnds(s, s.queue.entries[0].handler, RespError(DownError(s.link.status)));
      TrySendEnds(AnswerFront(s, s.queue.entries[0].request, RespError(DownError(s.link.status))));
    }
  }

  lemma QueueEnds(s: Server, request: Request, handler: Handler)
    ensures QueueRequest(s, request, handler).poller.undefinedBehaviour == s.poller.undefinedBehaviour
  {
    hide TrySend;
    TrySendEnds(Append(s, request, handler));
  }

  lemma DisconnectEnds(s: Server, c: Client)
    ensures Disconnect(s, c).poller.undefinedBehaviour == s.poller.undefinedBehaviour
    ensures StopAll(s).poller.undefinedBehaviour == s.poller.undefinedBehaviour
  {
    hide SetWriter, TheOnly;
  }

  lemma SetSilencedEnds(s: Server, silenced: bool)
    ensures SetSilenced(s, silenced).poller.undefinedBehaviour == s.poller.undefinedBehaviour
  {
    hide SendTo;
  }

  lemma LocalEnds(s: Server, c: Client, request: Request)
    ensures DispatchLocal(s, c, request).poller.undefinedBehaviour == s.poller.undefinedBehaviour
  {
    hide Disconnect, StopAll, SetSilenced, Send, SetWriter, ExpandRanges;
    match request {
      case ReqSetSilenced(silenced) => SetSilencedEnds(s, silenced);
      case ReqQuit => DisconnectEnds(SendBool(s, c, true), c);
      case _ => DisconnectEnds(SendError(s, c, InvalidType), c);
    }
  }

  lemma DispatchEnds(s: Server, c: Client, request: Request)
    ensures Dispatch(s, c, request).poller.undefinedBehaviour == s.poller.undefinedBehaviour
  {
    hide QueueRequest, DispatchLocal, Send;
    var s1 := s.(manager := CountRequest(s.manager, c));
    LocalEnds(s1, c, request);
    QueueEnds(s1, request, SetDone(c));
    QueueEnds(s1, request, ForClient(c));
    if request.ReqSet? {
      QueueEnds(QueueRequest(s1, request, SetDone(c)),
        ReqRead(Truncate(request.item), request.mirror), ReadAfterSet(c));
    }
  }

  lemma PollNextEnds(s: Server)
    ensures PollNext(s).poller.undefinedBehaviour == s.poller.undefinedBehaviour
  {
    hide QueueRequest;
    if !s.poller.stopped && !s.poller.cycle.AtEnd() {
      QueueEnds(s, ReqRead(Truncate(s.poller.cycle.order[s.poller.cycle.pos]), false), PollRead);
    }
  }

  lemma TimeoutsEnd(s: Server)
    ensures PollTimeout(s).poller.undefinedBehaviour == s.poller.undefinedBehaviour
    ensures ScanTimeout(s).poller.undefinedBehaviour == s.poller.undefinedBehaviour
  {
    hide QueueRequest, PollNext, AllItems;
    var s0 := s.(poller := s.poller.(timer := false));
    PollNextEnds(s0);
    PollNextEnds(s0.(poller := NewCycle(s0.poller, |s0.queue.answered|)));
    var s2 := s.(scanner := s.scanner.(timer := false));
    QueueEnds(s2, ReqScanbus(0), ScanRead);
    QueueEnds(QueueRequest(s2, ReqScanbus(0), ScanRead), ReqScanbus(1), ScanRead);
  }

  lemma StartLinkEnds(s: Server)
    ensures StartLink(s).poller.undefinedBehaviour == s.poller.undefinedBehaviour
  {
    hide SendTo;
  }

  lemma DeliveryEnds(s: Server)
    requires PipelineInv(s) && PollingInv(s) && s.link.posted != [] && !s.halted
    ensures Step(s, ResponseDelivered).poller.undefinedBehaviour <==>
            s.poller.undefinedBehaviour || HitsTheEnd(s, ResponseDelivered)
  {
    hide Handle, TrySend, InOrder, WillWake, OneRead, GoodCycle, ValidEnumeration, AllFaithful, ReplyParser.Answers;
    var p := s.link.posted[0];
    var s1 := s.(link := s.link.(posted := s.link.posted[1..]));
    HandleEnds(s1, s.queue.entries[0].handler, p.response);
    TrySendEnds(AnswerFront(s1, p.request, p.response));
  }

  lemma StepEnds(s: Server, e: Event)
    requires PipelineInv(s) && PollingInv(s)
    ensures Step(s, e).poller.undefinedBehaviour <==> s.poller.undefinedBehaviour || HitsTheEnd(s, e)
  {
    hide Dispatch, TakeReply, HandleResponse, TrySend, PollTimeout, ScanTimeout, StartLink, PollInv;
    hide SendTo, Send, SetWriter, TheOnly, PostResponse, OneInFlight, InOrder, WillWake;
    if e.ResponseDelivered? {
      if Enabled(s, e) {
        DeliveryEnds(s);
      }
    } else {
      match e {
        case ClientRequests(c, request) => DispatchEnds(s, c, request);
        case RetryTimerFires =>
          if s.queue.retriesPending > 0 {
            TrySendEnds(s.(queue := s.queue.(retriesPending := s.queue.retriesPending - 1)));
          }
        case PollTimerFires => TimeoutsEnd(s);
        case ScanTimerFires => TimeoutsEnd(s);
        case LinkStarted => StartLinkEnds(s);
        case ReconnectTimerFires => StartLinkEnds(s.(link := s.link.(reconnectPending := false)));
        case _ =>
      }
    }
  }

  lemma {:induction false} RunEnds(s: Server, events: seq<Event>)
    requires PipelineInv(s) && PollingInv(s) && PairsInv(s) && Fair(s, 0)
    ensures Run(s, events).poller.undefinedBehaviour <==>
            s.poller.undefinedBehaviour || Sometime(s, events, HitsTheEnd)
    decreases |events|
  {
    hide Step, HitsTheEnd, PollInv, OneInFlight, InOrder, WillWake, PairsInv, Fair;
    if events == [] {
    } else {
      StepKeeps(s, events[0]);
      StepPolls(s, events[0]);
      StepSettles(s, events[0], 0);
      StepEnds(s, events[0]);
      RunEnds(Step(s, events[0]), events[1..]);
    }
  }

  // A run of the server advances an end iterator if and only if one of its
  // callbacks is such a delivery.
  lemma EndIteratorExactly(enumerate: (nat, set<Item>) -> seq<Item>, events: seq<Event>)
    requires ValidEnumeration(enumerate)
    ensures PipelineInv(Initial(enumerate))
    ensures Run(Initial(enumerate), events).poller.undefinedBehaviour <==>
            Sometime(Initial(enumerate), events, HitsTheEnd)
  {
    hide Step, Run, Sometime, HitsTheEnd, PipelineInv, PollingInv, PairsInv, Fair, ValidEnumeration;
    InitialPolls(enumerate);
    RunEnds(Initial(enumerate), events);
  }

  // It takes an epoch that begins with a poll read outstanding.
  lemma CleanEpochsAreDefined(enumerate: (nat, set<Item>) -> seq<Item>, events: seq<Event>)
    requires ValidEnumeration(enumerate)
    ensures PipelineInv(Initial(enumerate))
    ensures var p := Run(Initial(enumerate), events).poller;
            p.alwaysClean ==> !p.undefinedBehaviour
    ensures Run(Initial(enumerate), events).poller.alwaysClean ==>
              !Sometime(Initial(enumerate), events, HitsTheEnd)
  {
    hide Run, Sometime;
    RunFromStart(enumerate, events);
    EndIteratorExactly(enumerate, events);
  }

  // ----- Runs with a read outstanding while the poller starts -----

  // One client polls one parameter, and silences and unsilences the server
  // while the MRC is answering the first read.
  function Restart(c: Client, item: Item): seq<Event> {
    [LinkStarted, LinkOpens(true), InitCompletes, ClientConnects(c),
     ClientRequests(c, ReqSetPollItems([PollRange(item, 1)])), PollTimerFires, WriteCompletes,
     ClientRequests(c, ReqSetSilenced(true)), ClientRequests(c, ReqSetSilenced(false))]
  }

  // The answer arrives before the poller begins a cycle,
  function RestartRun(c: Client, item: Item, val: int): seq<Event> {
    Restart(c, item) + [ReplyArrives([ValueOf(item, val)]), ResponseDelivered]
  }

  // or when it has begun one, for another parameter.
  function StaleRun(c: Client, item: Item, other: Item, val: int): seq<Event> {
    Restart(c, item)
    + [ClientRequests(c, ReqSetPollItems([PollRange(other, 1)])), PollTimerFires,
       ReplyArrives([ValueOf(item, val)]), ResponseDelivered]
  }

  function ValueOf(item: Item, val: int): ReplyParser.Line {
    ReplyParser.Line(false, false, false, Some(ReplyParser.ValueLine(item, val)), None, None, false)
  }

  // Nobody has used the server yet.
  ghost predicate Unused(s: Server, status: Status) {
    && PipelineInv(s) && !s.halted && ValidEnumeration(s.poller.enumerate)
    && s.link == Link(status, false, None, Idle, [], false)
    && s.queue.entries == [] && !s.queue.inProgress
    && s.manager.connections == {} && s.manager.outbox == map[] && s.manager.dispatched == map[]
    && s.manager.writer == None
    && s.poller.subscriptions == map[] && s.poller.stopped && s.poller.cycle.AtEnd()
  }

  // A client alone with the server, the link free and the poller just started.
  ghost predicate JustStarted(s: Server, c: Client, subscriptions: map<Client, seq<Item>>) {
    && PipelineInv(s) && !s.halted && ValidEnumeration(s.poller.enumerate)
    && s.link == Link(Running, false, None, Idle, [], false)
    && s.queue.entries == [] && !s.queue.inProgress
    && s.manager.connections == {c} && s.manager.writer == Some(c)
    && s.poller.subscriptions == subscriptions && !s.poller.stopped && s.poller.timer && s.poller.cycle.AtEnd()
  }

  // The poller's first read is on the link.
  ghost predicate FirstRead(s: Server, c: Client, item: Item, phase: Phase, silenced: bool) {
    && PipelineInv(s) && !s.halted && ValidEnumeration(s.poller.enumerate)
    && s.link == Link(Running, silenced, Some(ReqRead(item, false)), phase, [], false)
    && |s.queue.entries| == 1 && s.queue.entries[0].handler == PollRead
    && s.manager.connections == {c} && s.manager.writer == Some(c)
    && s.poller.stopped == silenced && s.poller.subscriptions.Keys == {c}
  }

  // It still is, and the poller was stopped and started since.
  ghost predicate Restarted(s: Server, c: Client, item: Item) {
    FirstRead(s, c, item, Reading, false) && s.poller.timer && s.poller.cycle.AtEnd()
  }

  lemma LinkComesUp(enumerate: (nat, set<Item>) -> seq<Item>)
    requires ValidEnumeration(enumerate)
    ensures Unused(Step(Initial(enumerate), LinkStarted), Connecting)
  {
    hide OneInFlight, InOrder, WillWake, ValidEnumeration;
    InitialInv(enumerate);
    StepKeeps(Initial(enumerate), LinkStarted);
  }

  lemma LinkIsOpen(s: Server)
    requires Unused(s, Connecting)
    ensures Unused(Step(s, LinkOpens(true)), Initializing)
  {
    hide OneInFlight, InOrder, WillWake, ValidEnumeration;
    StepKeeps(s, LinkOpens(true));
  }

  lemma LinkIsUp(s: Server)
    requires Unused(s, Initializing)
    ensures Unused(Step(s, InitCompletes), Running)
  {
    hide OneInFlight, InOrder, WillWake, ValidEnumeration;
    StepKeeps(s, InitCompletes);
  }

  lemma ClientComes(s: Server, c: Client)
    requires Unused(s, Running)
    ensures JustStarted(Step(s, ClientConnects(c)), c, map[])
  {
    hide OneInFlight, InOrder, WillWake, ValidEnumeration, Send, SendTo;
    assert {} + {c} == {c};
    StepKeeps(s, ClientConnects(c));
  }

  lemma ClientSubscribes(s: Server, c: Client, item: Item)
    requires JustStarted(s, c, map[]) && InByteRange(item)
    ensures JustStarted(Step(s, ClientRequests(c, ReqSetPollItems([PollRange(item, 1)]))), c, map[c := [item]])
  {
    hide OneInFlight, InOrder, WillWake, ValidEnumeration, ExpandRanges, Send;
    OneRange(item);
    StepKeeps(s, ClientRequests(c, ReqSetPollItems([PollRange(item, 1)])));
  }

  lemma OneRange(item: Item)
    requires InByteRange(item)
    ensures ExpandRanges([PollRange(item, 1)]) == [item]
  {
    assert [PollRange(item, 1)][..0] == [];
    assert RangeItems(item, item.par + 1, item.par + 1) == [];
  }

  lemma OneItem(enumerate: (nat, set<Item>) -> seq<Item>, n: nat, item: Item)
    requires ValidEnumeration(enumerate)
    ensures enumerate(n, {item}) == [item]
  {
    var order := enumerate(n, {item});
    assert Enumerates(order, {item});
    assert item in order;
    assert |order| > 1 ==> order[0] != order[1];
    forall i | 0 <= i < |order| ensures order[i] == item {
      assert order[i] in order;
    }
  }

  lemma OneSubscription(c: Client, item: Item)
    ensures AllItems(map[c := [item]]) == {item}
  {
    assert map[c := [item]][c][0] == item;
  }

  lemma FirstReadGoesOut(s: Server, c: Client, item: Item)
    requires JustStarted(s, c, map[c := [item]]) && InByteRange(item)
    ensures FirstRead(Step(s, PollTimerFires), c, item, Writing, false)
  {
    hide OneInFlight, InOrder, WillWake, ValidEnumeration, AllItems;
    OneSubscription(c, item);
    OneItem(s.poller.enumerate, s.poller.cycles, item);
    StepKeeps(s, PollTimerFires);
  }

  lemma FirstReadIsWritten(s: Server, c: Client, item: Item)
    requires FirstRead(s, c, item, Writing, false)
    ensures FirstRead(Step(s, WriteCompletes), c, item, Reading, false)
  {
    hide OneInFlight, InOrder, WillWake, ValidEnumeration;
    StepKeeps(s, WriteCompletes);
  }

  lemma ServerIsSilenced(s: Server, c: Client, item: Item)
    requires FirstRead(s, c, item, Reading, false)
    ensures var t := Step(s, ClientRequests(c, ReqSetSilenced(true)));
            FirstRead(t, c, item, Reading, true) && t.poller.cycle.AtEnd()
  {
    hide OneInFlight, InOrder, WillWake, ValidEnumeration, Send, SendTo;
    StepKeeps(s, ClientRequests(c, ReqSetSilenced(true)));
  }

  lemma ServerIsUnsilenced(s: Server, c: Client, item: Item)
    requires FirstRead(s, c, item, Reading, true) && s.poller.cycle.AtEnd()
    ensures Restarted(Step(s, ClientRequests(c, ReqSetSilenced(false))), c, item)
  {
    hide OneInFlight, InOrder, WillWake, ValidEnumeration, Send, SendTo;
    StepKeeps(s, ClientRequests(c, ReqSetSilenced(false)));
  }

  lemma ReplyIsPosted(s: Server, c: Client, item: Item, val: int)
    requires FirstRead(s, c, item, Reading, false) && InByteRange(item)
    ensures var t := Step(s, ReplyArrives([ValueOf(item, val)]));
            && PipelineInv(t) && !t.halted && t.poller == s.poller && t.queue == s.queue
            && t.link.posted == [Posted(ReqRead(item, false), RespRead(item, val, false))]
            && t.link.status == Running
  {
    hide OneInFlight, InOrder, WillWake, ValidEnumeration;
    StepKeeps(s, ReplyArrives([ValueOf(item, val)]));
    ReplyParser.ReadReply(item, false, [ValueOf(item, val)]);
    hide ReplyParser.Respond;
  }

  lemma LateReplyHitsTheEnd(s: Server, c: Client, item: Item, val: int)
    requires Restarted(s, c, item) && InByteRange(item)
    ensures var t := Step(s, ReplyArrives([ValueOf(item, val)]));
            PipelineInv(t) && Step(t, ResponseDelivered).poller.undefinedBehaviour
  {
    ReplyIsPosted(s, c, item, val);
    var t := Step(s, ReplyArrives([ValueOf(item, val)]));
    var response := RespRead(item, val, false);
    var u := t.(link := t.link.(posted := t.link.posted[1..]));
    HandleEnds(u, PollRead, response);
    TrySendEnds(AnswerFront(u, ReqRead(item, false), response));
    hide OneInFlight, InOrder, WillWake, ValidEnumeration, Handle, TrySend, TakeReply;
  }

  lemma ClientChangesItsMind(s: Server, c: Client, item: Item, other: Item)
    requires Restarted(s, c, item) && InByteRange(other)
    ensures var t := Step(s, ClientRequests(c, ReqSetPollItems([PollRange(other, 1)])));
            Restarted(t, c, item) && t.poller.subscriptions == map[c := [other]]
  {
    hide OneInFlight, InOrder, WillWake, ValidEnumeration, ExpandRanges, Send;
    OneRange(other);
    StepKeeps(s, ClientRequests(c, ReqSetPollItems([PollRange(other, 1)])));
  }

  lemma CycleWaits(s: Server, c: Client, item: Item, other: Item)
    requires Restarted(s, c, item) && s.poller.subscriptions == map[c := [other]]
    ensures var t := Step(s, PollTimerFires);
            && FirstRead(t, c, item, Reading, false)
            && t.poller.cycle == Cycle({other}, [other], 0, map[], |s.queue.answered|)
            && t.poller.published == s.poller.published
  {
    hide OneInFlight, InOrder, WillWake, ValidEnumeration, AllItems;
    OneSubscription(c, other);
    OneItem(s.poller.enumerate, s.poller.cycles, other);
    StepKeeps(s, PollTimerFires);
  }

  lemma StaleReplyIsPublished(s: Server, c: Client, item: Item, other: Item, val: int)
    requires FirstRead(s, c, item, Reading, false) && InByteRange(item)
    requires s.poller.cycle.items == {other} && s.poller.cycle.order == [other]
    requires s.poller.cycle.pos == 0 && s.poller.cycle.result == map[]
    ensures var t := Step(s, ReplyArrives([ValueOf(item, val)]));
            && PipelineInv(t)
            && var published := Step(t, ResponseDelivered).poller.published;
               && published != [] && published[|published| - 1].items == {other}
               && published[|published| - 1].result == map[item := val]
  {
    ReplyIsPosted(s, c, item, val);
    var t := Step(s, ReplyArrives([ValueOf(item, val)]));
    var u := t.(link := t.link.(posted := t.link.posted[1..]));
    var response := RespRead(item, val, false);
    StaleReading(u, response);
    AnswerFrontPoller(u, response);
    hide OneInFlight, InOrder, WillWake, ValidEnumeration, AnswerFront, Handle, PollResponse, TakeReply;
    HandledPoller(u, PollRead, response);
    Emptied(u, ReqRead(item, false), response);
  }

  lemma Emptied(s: Server, request: Request, response: Message)
    requires |s.queue.entries| == 1
    ensures HandleResponse(s, request, response) == AnswerFront(s, request, response)
  {
    hide Handle;
  }

  lemma StaleReading(s: Server, response: Message)
    requires response.RespRead? && !s.poller.stopped && |s.poller.cycle.order| == 1
    requires s.poller.cycle.pos == 0 && s.poller.cycle.result == map[]
    ensures var published := PollResponse(s, response).poller.published;
            && published != [] && published[|published| - 1].items == s.poller.cycle.items
            && published[|published| - 1].result == map[response.item := response.val]
  {
    hide AllItems, SendTo;
  }

  lemma RestartIs(c: Client, item: Item, events: seq<Event>)
    requires 9 <= |events| && events[..9] == Restart(c, item)
    ensures events[0] == LinkStarted && events[1] == LinkOpens(true) && events[2] == InitCompletes
    ensures events[3] == ClientConnects(c) && events[4] == ClientRequests(c, ReqSetPollItems([PollRange(item, 1)]))
    ensures events[5] == PollTimerFires && events[6] == WriteCompletes
    ensures events[7] == ClientRequests(c, ReqSetSilenced(true))
    ensures events[8] == ClientRequests(c, ReqSetSilenced(false)) && events[0..] == events
  {
    assert forall k | 0 <= k < 9 :: events[k] == events[..9][k];
  }

  lemma RunsUpToClient(enumerate: (nat, set<Item>) -> seq<Item>, c: Client, item: Item, events: seq<Event>)
    returns (s5: Server)
    requires ValidEnumeration(enumerate) && InByteRange(item)
    requires 9 <= |events| && events[..9] == Restart(c, item)
    ensures PipelineInv(Initial(enumerate)) && JustStarted(s5, c, map[c := [item]])
    ensures Run(Initial(enumerate), events) == Run(s5, events[5..])
  {
    hide Step, Run, PipelineInv, ValidEnumeration, InByteRange, Restart;
    InitialInv(enumerate);
    RestartIs(c, item, events);
    var s0 := Initial(enumerate);
    RunOn(s0, events, 0);
    LinkComesUp(enumerate);
    var s1 := Step(s0, events[0]);
    RunOn(s1, events, 1);
    LinkIsOpen(s1);
    var s2 := Step(s1, events[1]);
    RunOn(s2, events, 2);
    LinkIsUp(s2);
    var s3 := Step(s2, events[2]);
    RunOn(s3, events, 3);
    ClientComes(s3, c);
    var s4 := Step(s3, events[3]);
    RunOn(s4, events, 4);
    ClientSubscribes(s4, c, item);
    s5 := Step(s4, events[4]);
  }

  lemma RunsUpToRestart(enumerate: (nat, set<Item>) -> seq<Item>, c: Client, item: Item, events: seq<Event>)
    returns (s9: Server)
    requires ValidEnumeration(enumerate) && InByteRange(item)
    requires 9 <= |events| && events[..9] == Restart(c, item)
    ensures PipelineInv(Initial(enumerate)) && Restarted(s9, c, item)
    ensures Run(Initial(enumerate), events) == Run(s9, events[9..])
  {
    hide Step, Run, PipelineInv, ValidEnumeration, InByteRange, Restart;
    RestartIs(c, item, events);
    var s5 := RunsUpToClient(enumerate, c, item, events);
    RunOn(s5, events, 5);
    FirstReadGoesOut(s5, c, item);
    var s6 := Step(s5, events[5]);
    RunOn(s6, events, 6);
    FirstReadIsWritten(s6, c, item);
    var s7 := Step(s6, events[6]);
    RunOn(s7, events, 7);
    ServerIsSilenced(s7, c, item);
    var s8 := Step(s7, events[7]);
    RunOn(s8, events, 8);
    ServerIsUnsilenced(s8, c, item);
    s9 := Step(s8, events[8]);
  }

  // So the program does advance an end iterator, for any parameter and value,
  lemma RestartHazard(enumerate: (nat, set<Item>) -> seq<Item>, c: Client, item: Item, val: int)
    requires ValidEnumeration(enumerate) && InByteRange(item)
    ensures PipelineInv(Initial(enumerate))
    ensures Run(Initial(enumerate), RestartRun(c, item, val)).poller.undefinedBehaviour
  {
    hide Step, Run, PipelineInv, ValidEnumeration, InByteRange;
    var events := RestartRun(c, item, val);
    var s9 := RunsUpToRestart(enumerate, c, item, events);
    RunOn(s9, events, 9);
    LateReplyHitsTheEnd(s9, c, item, val);
    RunOn(Step(s9, events[9]), events, 10);
  }

  // and it does deliver the value of a parameter that is not in the poll set in
  // the place of one that is.
  lemma StaleValueIsDelivered(enumerate: (nat, set<Item>) -> seq<Item>, c: Client, item: Item, other: Item, val: int)
    requires ValidEnumeration(enumerate) && InByteRange(item) && InByteRange(other)
    ensures PipelineInv(Initial(enumerate))
    ensures exists pub <- Run(Initial(enumerate), StaleRun(c, item, other, val)).poller.published ::
              pub.items == {other} && pub.result == map[item := val]
  {
    hide Step, Run, PipelineInv, ValidEnumeration, InByteRange;
    var events := StaleRun(c, item, other, val);
    var s9 := RunsUpToRestart(enumerate, c, item, events);
    RunOn(s9, events, 9);
    ClientChangesItsMind(s9, c, item, other);
    var s10 := Step(s9, events[9]);
    RunOn(s10, events, 10);
    CycleWaits(s10, c, item, other);
    var s11 := Step(s10, events[10]);
    RunOn(s11, events, 11);
    StaleReplyIsPublished(s11, c, item, other, val);
    var s12 := Step(s11, events[11]);
    RunOn(s12, events, 12);
  }
}
