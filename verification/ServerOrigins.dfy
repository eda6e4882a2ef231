/** Where the answers of the queue come from: the MRC's replies, or the state of
    the link. */
module ServerOrigins {
  import opened Messages
  import opened ServerModel
  import opened ServerFifo
  import ReplyParser

  // All responses the queue was ever given, each with the request that the link
  // or the queue named: those it has handed out, and the one still posted.
  function Replies(s: Server): seq<(Request, Message)> {
    seq(|s.queue.answered|, i requires 0 <= i < |s.queue.answered| =>
      (s.queue.answered[i].request, s.queue.answered[i].response))
    + seq(|s.link.posted|, i requires 0 <= i < |s.link.posted| => (s.link.posted[i].request, s.link.posted[i].response))
  }

  // The error that a link that takes no command gives.
  function Refusal(status: Status): ErrorKind {
    match status
    case Running => Silenced
    case Connecting => LinkConnecting
    case ConnectFailed => ConnectError
    case InitFailed => ComError
    case _ => Unknown
  }

  // It gives one unless it is being initialised, when requests wait, or takes them.
  predicate Refusing(l: Link) {
    l.status != Initializing && (l.status == Running ==> l.silenced)
  }

  // What became of the command that was on the link.
  function LinkReplies(s: Server, e: Event): seq<(Request, Message)>
    requires Consistent(s) && Enabled(s, e)
  {
    match e
    case ReplyArrives(lines) =>
      var request := s.link.current.value;
      var response := ReplyParser.Respond(request, lines);
      if response.Some? then [(request, response.value)] else []
    case WriteFails(timedOut) => [(s.link.current.value, RespError(if timedOut then ComTimeout else ComError))]
    case ReadFails(timedOut) => [(s.link.current.value, RespError(if timedOut then ComTimeout else ComError))]
    case _ => []
  }

  // Nothing was replied but what a link without a command says of its state.
  ghost predicate OnlyRefusals(s: Server, t: Server) {
    && Replies(s) <= Replies(t)
    && (Replies(s) != Replies(t) ==> Refusing(s.link))
    && forall i | |Replies(s)| <= i < |Replies(t)| :: Replies(t)[i].1 == RespError(Refusal(s.link.status))
  }

  ghost predicate Refuses(s: Server, t: Server) {
    t.link.status == s.link.status && t.link.silenced == s.link.silenced && OnlyRefusals(s, t)
  }

  lemma SameReplies(s: Server, t: Server)
    requires t.queue.answered == s.queue.answered && t.link.posted == s.link.posted
    ensures Replies(t) == Replies(s) && OnlyRefusals(s, t)
  {
  }

  lemma RefusesBoth(s: Server, t: Server, u: Server)
    requires Refuses(s, t) && Refuses(t, u)
    ensures Refuses(s, u)
  {
    hide Replies;
    forall i | |Replies(s)| <= i < |Replies(u)|
      ensures Replies(u)[i].1 == RespError(Refusal(s.link.status))
    {
      if i < |Replies(t)| {
        assert Replies(u)[i] == Replies(t)[i];
      }
    }
  }

  lemma OneReply(s: Server, t: Server, request: Request, response: Message)
    requires s.link.posted == []
    requires (t.queue.answered == s.queue.answered && t.link.posted == [Posted(request, response)])
             || (t.link.posted == [] &&
                 exists e :: t.queue.answered == s.queue.answered + [Answer(e, request, response)])
    ensures Replies(t) == Replies(s) + [(request, response)]
  {
  }

  lemma AnswerFrontRefuses(s: Server)
    requires s.link.posted == [] && s.queue.entries != []
    requires s.link.status != Running && s.link.status != Initializing
    ensures Refuses(s, AnswerFront(s, s.queue.entries[0].request, RespError(DownError(s.link.status))))
  {
    hide Handle, Replies;
    var request, response := s.queue.entries[0].request, RespError(DownError(s.link.status));
    OneReply(s, AnswerFront(s, request, response), request, response);
  }

  lemma WriteRefuses(s: Server)
    requires s.link.posted == [] && s.queue.entries != [] && s.link.status == Running
    ensures var request := s.queue.entries[0].request;
            Refuses(s, s.(link := WriteCommand(s.link, request), queue := s.queue.(inProgress := true)))
  {
    var request := s.queue.entries[0].request;
    var t := s.(link := WriteCommand(s.link, request), queue := s.queue.(inProgress := true));
    if s.link.silenced {
      hide Replies;
      OneReply(s, t, request, RespError(Silenced));
    } else {
      SameReplies(s, t);
    }
  }

  lemma {:induction false} TrySendRefuses(s: Server)
    requires OneInFlight(s.link, s.queue)
    ensures Refuses(s, TrySend(s))
    decreases |s.queue.entries|
  {
    hide AnswerFront, Refuses, WriteCommand, ReplyParser.Answers, Replies;
    if s.queue.entries == [] || s.queue.inProgress || s.link.current.Some? {
      NothingReplied(s, s);
    } else if s.link.status == Running {
      WriteRefuses(s);
    } else if s.link.status == Initializing {
      NothingReplied(s, TrySend(s));
    } else {
      var t := AnswerFront(s, s.queue.entries[0].request, RespError(DownError(s.link.status)));
      AnswerFrontRefuses(s);
      TrySendRefuses(t);
      RefusesBoth(s, t, TrySend(t));
    }
  }

  lemma NothingReplied(s: Server, t: Server)
    requires t.queue.answered == s.queue.answered && t.link.posted == s.link.posted
    requires t.link.status == s.link.status && t.link.silenced == s.link.silenced
    ensures Refuses(s, t)
  {
    SameReplies(s, t);
  }

  lemma QueueRefuses(s: Server, request: Request, handler: Handler)
    requires OneInFlight(s.link, s.queue) && InOrder(s.queue) && request.IsMrcCommand()
    ensures Refuses(s, QueueRequest(s, request, handler))
    ensures OneInFlight(QueueRequest(s, request, handler).link, QueueRequest(s, request, handler).queue)
    ensures InOrder(QueueRequest(s, request, handler).queue)
  {
    hide TrySend, Refuses, OneInFlight, InOrder, WillWake;
    AppendKeeps(s, request, handler);
    QueueRequestKeeps(s, request, handler);
    TrySendRefuses(Append(s, request, handler));
    NothingReplied(s, Append(s, request, handler));
    RefusesBoth(s, Append(s, request, handler), QueueRequest(s, request, handler));
  }

  lemma CommandRefuses(s: Server, c: Client, request: Request)
    requires PipelineInv(s) && request.IsMrcCommand()
    ensures Refuses(s, Dispatch(s, c, request))
  {
    hide QueueRequest, Refuses, OneInFlight, InOrder, WillWake;
    var s1 := s.(manager := CountRequest(s.manager, c));
    NothingReplied(s, s1);
    if request.IsMrcWriteCommand() && s.manager.writer != Some(c) {
      NothingReplied(s, Dispatch(s, c, request));
    } else if request.ReqSet? {
      var read := ReqRead(Truncate(request.item), request.mirror);
      var s2 := QueueRequest(s1, request, SetDone(c));
      QueueRefuses(s1, request, SetDone(c));
      QueueRefuses(s2, read, ReadAfterSet(c));
      RefusesBoth(s, s1, s2);
      RefusesBoth(s, s2, QueueRequest(s2, read, ReadAfterSet(c)));
    } else {
      QueueRefuses(s1, request, ForClient(c));
      RefusesBoth(s, s1, QueueRequest(s1, request, ForClient(c)));
    }
  }

  lemma PollNextRefuses(s: Server)
    requires PipelineInv(s)
    ensures Refuses(s, PollNext(s))
  {
    hide QueueRequest, Refuses, OneInFlight, InOrder, WillWake;
    NothingReplied(s, s);
    NothingReplied(s, s.(poller := Postpone(s.poller)));
    if !s.poller.cycle.AtEnd() {
      QueueRefuses(s, ReqRead(Truncate(s.poller.cycle.order[s.poller.cycle.pos]), false), PollRead);
    }
  }

  lemma TimeoutsRefuse(s: Server)
    requires PipelineInv(s)
    ensures Refuses(s, PollTimeout(s)) && Refuses(s, ScanTimeout(s))
  {
    hide QueueRequest, PollNext, Refuses, OneInFlight, InOrder, WillWake, NewCycle;
    var s0 := s.(poller := s.poller.(timer := false));
    var s1 := s0.(poller := NewCycle(s0.poller, |s0.queue.answered|));
    NothingReplied(s, s0);
    NothingReplied(s, s1);
    PollNextRefuses(s0);
    PollNextRefuses(s1);
    RefusesBoth(s, s0, PollNext(s0));
    RefusesBoth(s, s1, PollNext(s1));
    var s2 := s.(scanner := s.scanner.(timer := false));
    var s3 := QueueRequest(s2, ReqScanbus(0), ScanRead);
    NothingReplied(s, s2);
    QueueRefuses(s2, ReqScanbus(0), ScanRead);
    QueueRefuses(s3, ReqScanbus(1), ScanRead);
    RefusesBoth(s, s2, s3);
    RefusesBoth(s, s3, QueueRequest(s3, ReqScanbus(1), ScanRead));
  }

  // Delivering a posted response is no new reply.
  lemma DeliveryRefuses(s: Server)
    requires PipelineInv(s) && s.link.posted != []
    ensures var p := s.link.posted[0];
            Refuses(s, HandleResponse(s.(link := s.link.(posted := s.link.posted[1..])), p.request, p.response))
  {
    hide TrySend, Handle, Refuses, InOrder, WillWake, ReplyParser.Answers;
    var p := s.link.posted[0];
    var s1 := s.(link := s.link.(posted := s.link.posted[1..]));
    var t := AnswerFront(s1, p.request, p.response);
    assert s.link.posted == [p];
    PostedDelivered(s, t, p);
    TrySendRefuses(t);
    RefusesBoth(s, t, TrySend(t));
  }

  lemma PostedDelivered(s: Server, t: Server, p: Posted)
    requires s.link.posted == [p] && t.link == s.link.(posted := [])
    requires exists e :: t.queue.answered == s.queue.answered + [Answer(e, p.request, p.response)]
    ensures Refuses(s, t)
  {
    assert Replies(t) == Replies(s);
  }

  lemma FailReplies(s: Server, timedOut: bool)
    requires s.link.current.Some?
    ensures Replies(FailCommand(s, timedOut))
              == Replies(s) + [(s.link.current.value, RespError(if timedOut then ComTimeout else ComError))]
  {
    hide SetStatus;
  }

  lemma TakeReplyReplies(s: Server, lines: seq<ReplyParser.Line>)
    requires Consistent(s) && Enabled(s, ReplyArrives(lines))
    ensures Replies(Step(s, ReplyArrives(lines))) == Replies(s) + LinkReplies(s, ReplyArrives(lines))
  {
    hide ReplyParser.Respond;
  }

  lemma NotReplied(s: Server, status: Status)
    ensures OnlyRefusals(s, StartLink(s))
    ensures OnlyRefusals(s, SetStatus(s, status)) && OnlyRefusals(s, TakeDown(s, status))
  {
    hide SetStatus, Replies, OnlyRefusals;
    SameReplies(s, StartLink(s));
    SameReplies(s, SetStatus(s, status));
    SameReplies(s, TakeDown(s, status));
  }

  // In every callback: the command on the link gets what the MRC's reply says, or
  // what became of it, and all other replies are refusals.
  lemma StepReplies(s: Server, e: Event)
    requires PipelineInv(s) && Enabled(s, e)
    ensures e.ReplyArrives? || e.WriteFails? || e.ReadFails? ==>
              Replies(Step(s, e)) == Replies(s) + LinkReplies(s, e)
    ensures !(e.ReplyArrives? || e.WriteFails? || e.ReadFails?) ==> OnlyRefusals(s, Step(s, e))
  {
    hide Connect, Disconnect, Dispatch, FailCommand, TakeReply, HandleResponse, TrySend, PollTimeout, ScanTimeout;
    hide StartLink, SetStatus, TakeDown, OneInFlight, InOrder, WillWake, Replies, DispatchLocal, OnlyRefusals;
    match e {
      case ClientRequests(c, request) =>
        if request.IsMrcCommand() {
          CommandRefuses(s, c, request);
        } else {
          LocalReplies(s, c, request);
        }
      case ResponseDelivered => DeliveryRefuses(s);
      case PollTimerFires => TimeoutsRefuse(s);
      case ScanTimerFires => TimeoutsRefuse(s);
      case RetryTimerFires => RetryRefuses(s);
      case ClientConnects(c) => SameReplies(s, Step(s, e));
      case ClientDisconnects(c) => SameReplies(s, Step(s, e));
      case WriteCompletes => SameReplies(s, Step(s, e));
      case ReplyArrives(lines) => TakeReplyReplies(s, lines);
      case WriteFails(timedOut) => FailReplies(s, timedOut);
      case ReadFails(timedOut) => FailReplies(s, timedOut);
      case LinkStarted => NotReplied(s, Running);
      case ReconnectTimerFires =>
        var s1 := s.(link := s.link.(reconnectPending := false));
        SameReplies(s, s1);
        SameRefusals(s, s1, Step(s, e));
        NotReplied(s.(link := s.link.(reconnectPending := false)), Running);
      case LinkOpens(opens) =>
        NotReplied(s, Initializing);
        NotReplied(s, ConnectFailed);
      case InitCompletes => NotReplied(s, Running);
      case InitFails => NotReplied(s, InitFailed);
    }
  }

  lemma SameRefusals(s: Server, s1: Server, t: Server)
    requires Replies(s1) == Replies(s) && s1.link.status == s.link.status && s1.link.silenced == s.link.silenced
    ensures OnlyRefusals(s1, t) ==> OnlyRefusals(s, t)
  {
    hide Replies;
    if OnlyRefusals(s1, t) {
      forall i | |Replies(s)| <= i < |Replies(t)|
        ensures Replies(t)[i].1 == RespError(Refusal(s.link.status))
      {
      }
    }
  }

  lemma LocalReplies(s: Server, c: Client, request: Request)
    requires !request.IsMrcCommand()
    ensures OnlyRefusals(s, Dispatch(s, c, request))
  {
    hide DispatchLocal, Replies;
    LocalRequestFrame(s.(manager := CountRequest(s.manager, c)), c, request);
    SameReplies(s, Dispatch(s, c, request));
  }

  lemma RetryRefuses(s: Server)
    requires PipelineInv(s) && s.queue.retriesPending > 0
    ensures Refuses(s, TrySend(s.(queue := s.queue.(retriesPending := s.queue.retriesPending - 1))))
  {
    hide TrySend, Refuses;
    var s1 := s.(queue := s.queue.(retriesPending := s.queue.retriesPending - 1));
    NothingReplied(s, s1);
    TrySendRefuses(s1);
    RefusesBoth(s, s1, TrySend(s1));
  }

  // The MRC's reply to this request arrives, and this is what it says.
  ghost predicate Said(s: Server, e: Event, request: Request, response: Message) {
    && Enabled(s, e) && e.ReplyArrives? && s.link.current == Some(request)
    && ReplyParser.Respond(request, e.lines) == Some(response)
  }

  lemma NewReplyWasSaid(s: Server, e: Event, i: nat)
    requires PipelineInv(s) && |Replies(s)| <= i < |Replies(Step(s, e))|
    requires !Replies(Step(s, e))[i].1.RespError?
    ensures Said(s, e, Replies(Step(s, e))[i].0, Replies(Step(s, e))[i].1)
  {
    hide Step, Replies, OneInFlight, InOrder, WillWake, ReplyParser.Respond;
    if Enabled(s, e) {
      StepReplies(s, e);
    } else {
      Disabled(s, e);
    }
  }

  lemma RepliesGrow(s: Server, e: Event)
    requires PipelineInv(s)
    ensures Replies(s) <= Replies(Step(s, e))
  {
    hide Step, Replies, OneInFlight, InOrder, WillWake, LinkReplies;
    if Enabled(s, e) {
      StepReplies(s, e);
    } else {
      Disabled(s, e);
    }
  }

  lemma {:induction false} RunReplies(s: Server, events: seq<Event>, i: nat)
    requires PipelineInv(s) && |Replies(s)| <= i < |Replies(Run(s, events))|
    requires !Replies(Run(s, events))[i].1.RespError?
    ensures var r := Replies(Run(s, events))[i];
            Sometime(s, events, (t, e) => Said(t, e, r.0, r.1))
    decreases |events|
  {
    hide Step, Replies, OneInFlight, InOrder, WillWake, Said;
    if events == [] {
    } else {
      var t := Step(s, events[0]);
      StepKeeps(s, events[0]);
      RunRepliesGrow(t, events[1..]);
      if i < |Replies(t)| {
        NewReplyWasSaid(s, events[0], i);
        assert Replies(Run(s, events))[i] == Replies(t)[i];
      } else {
        RunReplies(t, events[1..], i);
      }
    }
  }

  lemma {:induction false} RunRepliesGrow(s: Server, events: seq<Event>)
    requires PipelineInv(s)
    ensures Replies(s) <= Replies(Run(s, events))
    decreases |events|
  {
    hide Step, Replies, OneInFlight, InOrder, WillWake;
    if events == [] {
    } else {
      StepKeeps(s, events[0]);
      RepliesGrow(s, events[0]);
      RunRepliesGrow(Step(s, events[0]), events[1..]);
    }
  }

  // In every run, whatever the queue was answered that is no error is what the
  // MRC said: a reply that arrived while this request was on the link.
  lemma AnswersWereSaid(enumerate: (nat, set<Item>) -> seq<Item>, events: seq<Event>, i: nat)
    ensures PipelineInv(Initial(enumerate))
    ensures var answered := Run(Initial(enumerate), events).queue.answered;
            i < |answered| && !answered[i].response.RespError? ==>
              Sometime(Initial(enumerate), events,
                       (t, e) => Said(t, e, answered[i].request, answered[i].response))
  {
    InitialInv(enumerate);
    var s := Run(Initial(enumerate), events);
    if i < |s.queue.answered| && !s.queue.answered[i].response.RespError? {
      assert Replies(s)[i] == (s.queue.answered[i].request, s.queue.answered[i].response);
      RunReplies(Initial(enumerate), events, i);
    }
    hide Run, Sometime;
  }

  // For a READ: the value on the first line of the reply, which is for the
  // parameter that was asked for.
  lemma ReadsWereSaid(s: Server, e: Event, request: Request, response: Message)
    requires request.ReqRead?
    ensures Said(s, e, request, response) && !response.RespError? <==>
              && Enabled(s, e) && e.ReplyArrives? && s.link.current == Some(request)
              && e.lines != []
              && var line := e.lines[0];
                 && !line.noResponse && !line.busAddress && !line.error && line.values.Some?
                 && var (item, val) := (line.values.value.item, line.values.value.val);
                    && Item(item.bus % 256, item.dev % 256, item.par % 256) == request.item
                    && response == RespRead(request.item, val, request.mirror)
  {
    hide ReplyParser.Respond;
    if e.ReplyArrives? {
      if e.lines == [] {
        ReplyParser.NoResponseExactly(request, e.lines);
      } else {
        ReplyParser.ReadReply(request.item, request.mirror, e.lines);
      }
    }
  }
}
