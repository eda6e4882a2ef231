/** What the clients subscribe to, and what a poll cycle so covers. */
module ServerSubscriptions {
  import opened Messages
  import opened ServerModel
  import opened ServerFifo
  import opened ServerReplies
  import opened ServerDelivery
  import opened ServerControl
  import ServerAccess

  // ----- Ranges -----

  // The end of a range is a 32-bit number.
  predicate Covers(r: PollRange, x: Item) {
    && x.bus == r.first.bus && x.dev == r.first.dev
    && r.first.par <= x.par < (r.first.par + r.count) % 0x1_0000_0000
  }

  lemma {:induction false} RangeContents(first: Item, par: nat, limit: nat)
    ensures |RangeItems(first, par, limit)| == if par < limit then limit - par else 0
    ensures forall i | 0 <= i < |RangeItems(first, par, limit)| ::
              RangeItems(first, par, limit)[i] == Item(first.bus, first.dev, par + i)
    decreases limit - par
  {
    if par >= limit {
    } else {
      RangeContents(first, par + 1, limit);
      var rest := RangeItems(first, par + 1, limit);
      assert RangeItems(first, par, limit) == [Item(first.bus, first.dev, par)] + rest;
    }
  }

  // A range stands for 'count' parameters one after the other.
  lemma OneRangeExpands(r: PollRange)
    requires r.first.par + r.count < 0x1_0000_0000
    ensures |ExpandRanges([r])| == r.count
    ensures forall i | 0 <= i < r.count :: ExpandRanges([r])[i] == Item(r.first.bus, r.first.dev, r.first.par + i)
  {
    assert [r][..0] == [];
    RangeContents(r.first, r.first.par, r.first.par + r.count);
  }

  // In all, a list of ranges stands for the parameters that one of them covers.
  lemma {:induction false} RangesExpand(ranges: seq<PollRange>, x: Item)
    ensures x in ExpandRanges(ranges) <==> exists r <- ranges :: Covers(r, x)
  {
    if ranges == [] {
    } else {
      hide Covers;
      var front, last := ranges[..|ranges| - 1], ranges[|ranges| - 1];
      RangesExpand(front, x);
      OneRangeCovers(last, x);
      assert ranges == front + [last];
    }
  }

  lemma OneRangeCovers(r: PollRange, x: Item)
    ensures x in RangeItems(r.first, r.first.par, (r.first.par + r.count) % 0x1_0000_0000) <==> Covers(r, x)
  {
    var limit := (r.first.par + r.count) % 0x1_0000_0000;
    RangeContents(r.first, r.first.par, limit);
    if Covers(r, x) {
      assert RangeItems(r.first, r.first.par, limit)[x.par - r.first.par] == x;
    }
  }

  lemma LastRange(ranges: seq<PollRange>)
    requires ranges != []
    ensures var last := ranges[|ranges| - 1];
            ExpandRanges(ranges)
              == ExpandRanges(ranges[..|ranges| - 1])
                 + RangeItems(last.first, last.first.par, (last.first.par + last.count) % 0x1_0000_0000)
  {
    hide RangeItems;
  }

  lemma {:induction false} RangesJoin(a: seq<PollRange>, b: seq<PollRange>)
    ensures ExpandRanges(a + b) == ExpandRanges(a) + ExpandRanges(b)
    decreases |b|
  {
    hide RangeItems;
    if b == [] {
      assert a + b == a;
    } else {
      var n := |b| - 1;
      assert (a + b)[..|a + b| - 1] == a + b[..n];
      LastRange(a + b);
      LastRange(b);
      hide ExpandRanges;
      RangesJoin(a, b[..n]);
    }
  }

  // ----- Subscriptions -----

  ghost predicate Subscribed(s: Server, c: Client, x: Item) {
    c in s.poller.subscriptions && x in s.poller.subscriptions[c]
  }

  // Whether c is subscribed to x after a callback.
  ghost predicate SubscribedAfter(s: Server, e: Event, c: Client, x: Item) {
    match e
    case ClientRequests(d, ReqSetPollItems(ranges)) =>
      if d == c then exists r <- ranges :: Covers(r, x) else Subscribed(s, c, x)
    case ClientRequests(d, NotARequest) => d != c && Subscribed(s, c, x)
    case ClientRequests(d, ReqQuit) => s.manager.writer != Some(d) && Subscribed(s, c, x)
    case ClientDisconnects(d) => d != c && Subscribed(s, c, x)
    case _ => Subscribed(s, c, x)
  }

  // Only clients that are there are subscribed.
  ghost predicate SubscriptionsInv(s: Server) {
    s.poller.subscriptions.Keys <= s.manager.connections
  }

  lemma StartStopKeeps(p: Poller, outstanding: nat)
    ensures StartPoller(p, outstanding).subscriptions == p.subscriptions
    ensures StartPoller(p, outstanding).cycles == p.cycles
    ensures StopPoller(p).subscriptions == p.subscriptions && StopPoller(p).cycles == p.cycles
  {
  }

  lemma PollingKeeps(s: Server)
    ensures var t := StartPolling(s);
            && t.poller.subscriptions == s.poller.subscriptions && t.poller.cycles == s.poller.cycles
            && t.manager == s.manager
    ensures var t := StopPolling(s);
            && t.poller.subscriptions == s.poller.subscriptions && t.poller.cycles == s.poller.cycles
            && t.manager == s.manager
  {
    hide StartPoller, StopPoller;
    StartStopKeeps(s.poller, PollReads(s.queue.entries));
  }

  lemma StatusSubscribes(s: Server, status: Status)
    ensures var t := SetStatus(s, status);
            && t.poller.subscriptions == s.poller.subscriptions && t.poller.cycles == s.poller.cycles
            && t.manager.connections == s.manager.connections
    ensures var t := TakeDown(s, status);
            && t.poller.subscriptions == s.poller.subscriptions && t.poller.cycles == s.poller.cycles
            && t.manager.connections == s.manager.connections
  {
    hide SendTo, StartPolling, StopPolling;
    PollingKeeps(SendToAll(s.(link := s.link.(status := status)), NotifyMrcStatus(status)));
    PollingKeeps(SendToAll(s.(link := s.link.(reconnectPending := false, status := status)), NotifyMrcStatus(status)));
  }

  lemma StartLinkSubscribes(s: Server)
    ensures var t := StartLink(s);
            && t.poller.subscriptions == s.poller.subscriptions && t.poller.cycles == s.poller.cycles
            && t.manager.connections == s.manager.connections
  {
    hide SetStatus, TakeDown;
    if IsDown(s.link.status) {
      StatusSubscribes(s, Connecting);
    }
  }

  lemma FailSubscribes(s: Server, timedOut: bool)
    requires s.link.current.Some?
    ensures var t := FailCommand(s, timedOut);
            && t.poller.subscriptions == s.poller.subscriptions && t.poller.cycles == s.poller.cycles
            && t.manager.connections == s.manager.connections
  {
    hide TakeDown;
    StatusSubscribes(s.(link := PostResponse(s.link, RespError(if timedOut then ComTimeout else ComError))), Stopped);
  }

  lemma ConnectSubscribes(s: Server, c: Client)
    ensures var t := Connect(s, c);
            && t.poller.subscriptions == s.poller.subscriptions && t.poller.cycles == s.poller.cycles
            && t.manager.connections == s.manager.connections + {c}
  {
    hide Send, SetWriter, StartPolling;
    var m0 := s.manager.(connections := s.manager.connections + {c});
    var m2 := Send(Send(m0, c, NotifyMrcStatus(s.link.status)), c, NotifySilenced(s.link.silenced));
    PollingKeeps(s.(manager := SetWriter(m2, Some(c))));
  }

  lemma DisconnectSubscribes(s: Server, c: Client)
    ensures var t := Disconnect(s, c);
            && t.poller.subscriptions == s.poller.subscriptions - {c} && t.poller.cycles == s.poller.cycles
            && t.manager.connections == s.manager.connections - {c}
  {
    hide SetWriter, TheOnly, StopPoller;
    StartStopKeeps(s.poller.(subscriptions := s.poller.subscriptions - {c}), 0);
  }

  lemma StopAllSubscribes(s: Server)
    ensures var t := StopAll(s);
            && t.poller.subscriptions == s.poller.subscriptions - s.manager.connections
            && t.poller.cycles == s.poller.cycles && t.manager.connections == {}
  {
    hide SetWriter, StopPoller;
    StartStopKeeps(s.poller.(subscriptions := s.poller.subscriptions - s.manager.connections), 0);
  }

  lemma SetSilencedSubscribes(s: Server, silenced: bool)
    ensures var t := SetSilenced(s, silenced);
            && t.poller.subscriptions == s.poller.subscriptions && t.poller.cycles == s.poller.cycles
            && t.manager.connections == s.manager.connections
  {
    hide SendTo, StartPolling, StopPolling;
    PollingKeeps(SendToAll(s.(link := s.link.(silenced := silenced)), NotifySilenced(silenced)));
  }

  lemma LocalSubscribes(s: Server, c: Client, request: Request)
    requires !request.IsMrcCommand()
    ensures var t := DispatchLocal(s, c, request);
            && t.poller.cycles == s.poller.cycles
            && match request
            case ReqSetPollItems(ranges) =>
              && t.poller.subscriptions == s.poller.subscriptions[c := ExpandRanges(ranges)]
              && t.manager.connections == s.manager.connections
            case NotARequest =>
              && t.poller.subscriptions == s.poller.subscriptions - {c}
              && t.manager.connections == s.manager.connections - {c}
            case ReqQuit =>
              if s.manager.writer == Some(c) then
                && t.poller.subscriptions == s.poller.subscriptions - s.manager.connections
                && t.manager.connections == {}
              else
                t.poller == s.poller && t.manager.connections == s.manager.connections
            case _ =>
              && t.poller.subscriptions == s.poller.subscriptions
              && t.manager.connections == s.manager.connections
  {
    hide Send, SendTo, SetWriter, Disconnect, StopAll, SetSilenced, ExpandRanges;
    match request {
      case ReqQuit => StopAllSubscribes(SendBool(s, c, true));
      case NotARequest => DisconnectSubscribes(SendError(s, c, InvalidType), c);
      case ReqSetSilenced(silenced) => SetSilencedSubscribes(s, silenced);
      case _ =>
    }
  }

  lemma DispatchSubscribes(s: Server, d: Client, request: Request, c: Client, x: Item)
    requires PipelineInv(s) && PairsInv(s) && SubscriptionsInv(s) && d in s.manager.connections
    ensures var t := Dispatch(s, d, request);
            SubscriptionsInv(t) && (Subscribed(t, c, x) <==> SubscribedAfter(s, ClientRequests(d, request), c, x))
  {
    hide PipelineInv, PairsInv, DispatchLocal, ExpandRanges, Send, QueueRequest, Covers;
    if !request.IsMrcCommand() {
      LocalSubscribes(s.(manager := CountRequest(s.manager, d)), d, request);
      if request.ReqSetPollItems? {
        RangesExpand(request.ranges, x);
      }
    } else if request.IsMrcWriteCommand() && s.manager.writer != Some(d) {
    } else {
      hide Dispatch;
      CommandDelivers(s, d, request, 0);
    }
  }

  // Every callback: a client is subscribed to what it last asked for, until it
  // leaves.
  lemma StepSubscribes(s: Server, e: Event, c: Client, x: Item)
    requires PipelineInv(s) && PairsInv(s) && SubscriptionsInv(s) && Enabled(s, e)
    ensures SubscriptionsInv(Step(s, e))
    ensures Subscribed(Step(s, e), c, x) <==> SubscribedAfter(s, e, c, x)
  {
    hide Connect, Disconnect, Dispatch, FailCommand, TakeReply, HandleResponse, TrySend, PollTimeout, ScanTimeout;
    hide StartLink, SetStatus, TakeDown, PairsInv, InOrder, WillWake, OneInFlight;
    match e {
      case ClientConnects(d) => ConnectSubscribes(s, d);
      case ClientDisconnects(d) => DisconnectSubscribes(s, d);
      case ClientRequests(d, request) => DispatchSubscribes(s, d, request, c, x);
      case WriteCompletes =>
      case ReplyArrives(_) =>
      case WriteFails(timedOut) => FailSubscribes(s, timedOut);
      case ReadFails(timedOut) => FailSubscribes(s, timedOut);
      case ResponseDelivered => AnsweringKeeps(s, e, 0);
      case RetryTimerFires => AnsweringKeeps(s, e, 0);
      case PollTimerFires => AnsweringKeeps(s, e, 0);
      case ScanTimerFires => AnsweringKeeps(s, e, 0);
      case LinkStarted => StartLinkSubscribes(s);
      case ReconnectTimerFires => StartLinkSubscribes(s.(link := s.link.(reconnectPending := false)));
      case LinkOpens(opens) =>
        StatusSubscribes(s, Initializing);
        StatusSubscribes(s, ConnectFailed);
      case InitCompletes => StatusSubscribes(s, Running);
      case InitFails => StatusSubscribes(s, InitFailed);
    }
  }

  lemma {:induction false} RunSubscribes(s: Server, events: seq<Event>)
    requires PipelineInv(s) && PairsInv(s) && Fair(s, 0) && SubscriptionsInv(s)
    ensures SubscriptionsInv(Run(s, events))
    decreases |events|
  {
    hide Step, OneInFlight, InOrder, WillWake, PairsInv, Fair, SubscriptionsInv;
    if events == [] {
    } else {
      StepKeeps(s, events[0]);
      StepSettles(s, events[0], 0);
      if Enabled(s, events[0]) {
        StepSubscribes(s, events[0], 0, ORIGIN);
      } else {
        Disabled(s, events[0]);
      }
      RunSubscribes(Step(s, events[0]), events[1..]);
    }
  }

  // In every run nobody but the connected clients is subscribed.
  lemma OnlyClientsSubscribe(enumerate: (nat, set<Item>) -> seq<Item>, events: seq<Event>, c: Client)
    ensures PipelineInv(Initial(enumerate))
    ensures var s := Run(Initial(enumerate), events);
            c in s.poller.subscriptions ==> c in s.manager.connections
  {
    hide Run, OneInFlight, InOrder, WillWake, PairsInv, Fair;
    InitialReplies(enumerate);
    assert Fair(Initial(enumerate), 0);
    RunSubscribes(Initial(enumerate), events);
  }

  // ----- Cycles -----

  lemma DispatchKeepsCycle(s: Server, c: Client, request: Request)
    requires PipelineInv(s) && PairsInv(s)
    ensures var t := Dispatch(s, c, request);
            t.poller.cycles != s.poller.cycles ==>
              && t.poller.subscriptions == s.poller.subscriptions
              && t.poller.cycle.items == AllItems(s.poller.subscriptions)
  {
    hide PipelineInv, PairsInv, DispatchLocal, Send, QueueRequest, AllItems;
    if !request.IsMrcCommand() {
      LocalSubscribes(s.(manager := CountRequest(s.manager, c)), c, request);
    } else if request.IsMrcWriteCommand() && s.manager.writer != Some(c) {
    } else {
      hide Dispatch;
      CommandDelivers(s, c, request, 0);
    }
  }

  // A cycle that begins covers exactly what anyone is subscribed to.
  lemma CyclesCoverSubscriptions(s: Server, e: Event, x: Item)
    requires PipelineInv(s) && PairsInv(s) && Enabled(s, e)
    requires Step(s, e).poller.cycles != s.poller.cycles
    ensures var t := Step(s, e);
            x in t.poller.cycle.items <==> exists c :: c in t.poller.subscriptions && x in t.poller.subscriptions[c]
  {
    hide Connect, Disconnect, Dispatch, FailCommand, TakeReply, HandleResponse, TrySend, PollTimeout, ScanTimeout;
    hide StartLink, SetStatus, TakeDown, PairsInv, InOrder, WillWake, OneInFlight, AllItems;
    match e {
      case ClientConnects(d) => ConnectSubscribes(s, d);
      case ClientDisconnects(d) => DisconnectSubscribes(s, d);
      case ClientRequests(d, request) => DispatchKeepsCycle(s, d, request);
      case WriteCompletes =>
      case ReplyArrives(_) =>
      case WriteFails(timedOut) => FailSubscribes(s, timedOut);
      case ReadFails(timedOut) => FailSubscribes(s, timedOut);
      case ResponseDelivered => AnsweringKeeps(s, e, 0);
      case RetryTimerFires => AnsweringKeeps(s, e, 0);
      case PollTimerFires => AnsweringKeeps(s, e, 0);
      case ScanTimerFires => AnsweringKeeps(s, e, 0);
      case LinkStarted => StartLinkSubscribes(s);
      case ReconnectTimerFires =>
        StartLinkSubscribes(s.(link := s.link.(reconnectPending := false)));
      case LinkOpens(opens) =>
        StatusSubscribes(s, Initializing);
        StatusSubscribes(s, ConnectFailed);
      case InitCompletes => StatusSubscribes(s, Running);
      case InitFails => StatusSubscribes(s, InitFailed);
    }
    InAllItems(Step(s, e).poller.subscriptions, x);
  }

  lemma InAllItems(subscriptions: map<Client, seq<Item>>, x: Item)
    ensures x in AllItems(subscriptions) <==> exists c :: c in subscriptions && x in subscriptions[c]
  {
  }
}
