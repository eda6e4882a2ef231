/** What a client is told about its SETs. */
module ServerSets {
  import opened Messages
  import opened ServerModel
  import opened ServerFifo
  import opened ServerReplies
  import ReplyParser

  // The answers the history of the queue calls for: one for every READ after a
  // SET of the client that did not fail.
  function Due(answered: seq<Answer>, c: Client): seq<Message> {
    if |answered| < 2 then []
    else
      var set', read := answered[|answered| - 2], answered[|answered| - 1];
      Due(answered[..|answered| - 1], c)
        + if read.entry.handler == ReadAfterSet(c) && !set'.response.RespError? then [SetAnswer(read.response)] else []
  }

  // SETs are only ever queued as such.
  ghost predicate SetsAreSets(entries: seq<Entry>) {
    forall e <- entries :: e.request.ReqSet? ==> e.handler.SetDone?
  }

  // The client got exactly these answers.
  ghost predicate Answered(s: Server, c: Client) {
    SetAnswersTo(s.manager, c) == Due(s.queue.answered, c)
  }

  ghost predicate SetsInv(s: Server) {
    PairsInv(s) && SetsAreSets(s.queue.enqueued)
  }

  lemma DueOfAppend(answered: seq<Answer>, a: Answer, c: Client)
    ensures Due(answered + [a], c) == Due(answered, c)
              + if && answered != [] && a.entry.handler == ReadAfterSet(c)
                   && !answered[|answered| - 1].response.RespError?
                then [SetAnswer(a.response)] else []
  {
    assert (answered + [a])[..|answered|] == answered;
  }

  // The flag is up for a READ exactly if its SET failed, and nobody else gets
  // the answer to a SET.
  lemma FrontIsDue(s: Server, response: Message, dangling: bool)
    requires PairInv(s.queue, s.manager.skipRead, dangling) && SetsAreSets(s.queue.enqueued)
    requires s.queue.entries != [] && ReplyParser.Answers(s.queue.entries[0].request, response)
    ensures s.queue.entries[0].handler.ReadAfterSet? ==>
              && s.queue.answered != []
              && s.manager.skipRead == s.queue.answered[|s.queue.answered| - 1].response.RespError?
    ensures s.queue.entries[0].handler.ForClient? ==> !response.RespSet? && response.IsResponse()
  {
    if s.queue.entries[0].handler.ReadAfterSet? {
      FlagTells(s.queue, s.manager.skipRead, dangling);
    }
    FrontAfter(s.queue);
    assert s.queue.entries[0] in s.queue.enqueued;
  }

  lemma AnswerFrontAnswers(s: Server, response: Message, dangling: bool, c: Client)
    requires PairInv(s.queue, s.manager.skipRead, dangling) && SetsAreSets(s.queue.enqueued)
    requires s.queue.entries != [] && ReplyParser.Answers(s.queue.entries[0].request, response)
    requires Answered(s, c)
    ensures Answered(AnswerFront(s, s.queue.entries[0].request, response), c)
  {
    hide AnswerFront, Handle, SetAnswersTo, Due, PairInv, SetsAreSets, ReplyParser.Answers, SetAnswer;
    var front := s.queue.entries[0];
    FrontIsDue(s, response, dangling);
    HandleCounts(s, front.handler, response, c);
    DueOfAppend(s.queue.answered, Answer(front, front.request, response), c);
    AnswerFrontManager(s, response);
  }

  lemma {:induction false} TrySendAnswers(s: Server, dangling: bool, c: Client)
    requires PairInv(s.queue, s.manager.skipRead, dangling) && OneInFlight(s.link, s.queue)
    requires SetsAreSets(s.queue.enqueued) && Answered(s, c)
    ensures Answered(TrySend(s), c)
    decreases |s.queue.entries|
  {
    hide AnswerFront, PairInv, SetAnswersTo, Due;
    if s.queue.entries == [] || s.queue.inProgress || s.link.current.Some? {
    } else if s.link.status == Running || s.link.status == Initializing {
    } else {
      var response := RespError(DownError(s.link.status));
      AnswerFrontKeepsPairs(s, response, dangling);
      AnswerFrontAnswers(s, response, dangling, c);
      TrySendAnswers(AnswerFront(s, s.queue.entries[0].request, response), dangling, c);
    }
  }

  // 'dangling' says whether the READ of the last SET is still to come.
  lemma QueueAnswers(s: Server, request: Request, handler: Handler, dangling: bool, c: Client)
    requires OneInFlight(s.link, s.queue) && PairInv(s.queue, s.manager.skipRead, dangling)
    requires SetsAreSets(s.queue.enqueued) && Answered(s, c)
    requires request.IsMrcCommand() && (handler.SetDone? <==> request.ReqSet?)
    requires if dangling then
               s.queue.enqueued != [] && IsPair(s.queue.enqueued[|s.queue.enqueued| - 1], Entry(request, handler))
             else
               !handler.ReadAfterSet?
    ensures var t := QueueRequest(s, request, handler);
            && Answered(t, c) && SetsAreSets(t.queue.enqueued)
            && PairInv(t.queue, t.manager.skipRead, handler.SetDone?) && OneInFlight(t.link, t.queue)
  {
    hide TrySend, OneInFlight, InOrder, WillWake, SetAnswersTo, Due, Paired;
    var t := Append(s, request, handler);
    PairedAppend(s.queue.enqueued, Entry(request, handler), dangling);
    AppendKeepsOrder(s, request, handler, c);
    TrySendSettles(t, handler.SetDone?, c);
    TrySendAnswers(t, handler.SetDone?, c);
    QueueRequestKeeps(s, request, handler);
  }

  lemma NotifiedAnswers(s: Server, t: Server, c: Client)
    requires SetsInv(s) && Answered(s, c) && OnlyNotified(s, t, c)
    ensures SetsInv(t) && Answered(t, c)
  {
    hide SetAnswersTo, Due;
  }

  lemma DispatchAnswers(s: Server, d: Client, request: Request, c: Client)
    requires PipelineInv(s) && SetsInv(s) && Answered(s, c)
    ensures SetsInv(Dispatch(s, d, request)) && Answered(Dispatch(s, d, request), c)
  {
    hide QueueRequest, DispatchLocal, Send, OneInFlight, PairInv, SetAnswers, Due, SetsAreSets;
    var s1 := s.(manager := CountRequest(s.manager, d));
    ReceivedDependsOnOutbox(s.manager, s1.manager, c);
    if !request.IsMrcCommand() {
      LocalRequestSettles(s1, d, request, c);
      LocalRequestFrame(s1, d, request);
    } else if request.IsMrcWriteCommand() && s.manager.writer != Some(d) {
      SendCounts(s1.manager, d, RespError(PermissionDenied), c);
    } else if request.ReqSet? {
      QueueAnswers(s1, request, SetDone(d), false, c);
      QueueAnswers(QueueRequest(s1, request, SetDone(d)), ReqRead(Truncate(request.item), request.mirror),
                   ReadAfterSet(d), true, c);
    } else {
      QueueAnswers(s1, request, ForClient(d), false, c);
    }
  }

  lemma PollNextAnswers(s: Server, c: Client)
    requires PipelineInv(s) && SetsInv(s) && Answered(s, c)
    ensures SetsInv(PollNext(s)) && Answered(PollNext(s), c)
  {
    hide QueueRequest, SetAnswersTo, OneInFlight, PairInv, Due, SetsAreSets;
    if !s.poller.cycle.AtEnd() {
      QueueAnswers(s, ReqRead(Truncate(s.poller.cycle.order[s.poller.cycle.pos]), false), PollRead, false, c);
    }
  }

  lemma TimeoutsAnswer(s: Server, c: Client)
    requires PipelineInv(s) && SetsInv(s) && Answered(s, c)
    ensures SetsInv(PollTimeout(s)) && Answered(PollTimeout(s), c)
    ensures SetsInv(ScanTimeout(s)) && Answered(ScanTimeout(s), c)
  {
    hide QueueRequest, PollNext, SetAnswersTo, OneInFlight, PairInv, Due, SetsAreSets;
    var s0 := s.(poller := s.poller.(timer := false));
    PollNextAnswers(s0, c);
    PollNextAnswers(s0.(poller := NewCycle(s0.poller, |s0.queue.answered|)), c);
    var s2 := s.(scanner := s.scanner.(timer := false));
    QueueAnswers(s2, ReqScanbus(0), ScanRead, false, c);
    QueueAnswers(QueueRequest(s2, ReqScanbus(0), ScanRead), ReqScanbus(1), ScanRead, false, c);
  }

  lemma DeliveryAnswers(s: Server, c: Client)
    requires PipelineInv(s) && SetsInv(s) && Answered(s, c) && s.link.posted != []
    ensures var p := s.link.posted[0];
            var t := HandleResponse(s.(link := s.link.(posted := s.link.posted[1..])), p.request, p.response);
            SetsInv(t) && Answered(t, c)
  {
    hide TrySend, AnswerFront, SetAnswersTo, Due, PairInv, SetsAreSets, ReplyParser.Answers;
    var p := s.link.posted[0];
    var s1 := s.(link := s.link.(posted := s.link.posted[1..]));
    AnswerFrontKeepsPairs(s1, p.response, false);
    AnswerFrontAnswers(s1, p.response, false, c);
    var t1 := AnswerFront(s1, p.request, p.response);
    TrySendSettles(t1, false, c);
    TrySendAnswers(t1, false, c);
  }

  lemma StepAnswers(s: Server, e: Event, c: Client)
    requires PipelineInv(s) && SetsInv(s) && Answered(s, c)
    ensures SetsInv(Step(s, e)) && Answered(Step(s, e), c)
  {
    hide Connect, Disconnect, Dispatch, FailCommand, TakeReply, HandleResponse, TrySend, PollTimeout, ScanTimeout;
    hide StartLink, SetStatus, TakeDown, SetAnswersTo, Due, SetsAreSets, PairInv;
    if Enabled(s, e) {
      match e {
        case ClientRequests(d, request) => DispatchAnswers(s, d, request, c);
        case ResponseDelivered => DeliveryAnswers(s, c);
        case PollTimerFires => TimeoutsAnswer(s, c);
        case ScanTimerFires => TimeoutsAnswer(s, c);
        case RetryTimerFires =>
          var s1 := s.(queue := s.queue.(retriesPending := s.queue.retriesPending - 1));
          NotifiedAnswers(s, s1, c);
          RetryAnswers(s1, c);
        case ClientConnects(d) => ConnectNotifies(s, d, c); NotifiedAnswers(s, Step(s, e), c);
        case ClientDisconnects(d) => DisconnectNotifies(s, d, c); NotifiedAnswers(s, Step(s, e), c);
        case WriteCompletes => NotifiedAnswers(s, Step(s, e), c);
        case ReplyArrives(lines) => NotifiedAnswers(s, Step(s, e), c);
        case WriteFails(timedOut) => FailNotifies(s, timedOut, c); NotifiedAnswers(s, Step(s, e), c);
        case ReadFails(timedOut) => FailNotifies(s, timedOut, c); NotifiedAnswers(s, Step(s, e), c);
        case LinkStarted => StartLinkNotifies(s, c); NotifiedAnswers(s, Step(s, e), c);
        case ReconnectTimerFires =>
          StartLinkNotifies(s.(link := s.link.(reconnectPending := false)), c);
          NotifiedAnswers(s, Step(s, e), c);
        case LinkOpens(opens) =>
          StatusNotifies(s, Initializing, c);
          StatusNotifies(s, ConnectFailed, c);
          NotifiedAnswers(s, Step(s, e), c);
        case InitCompletes => StatusNotifies(s, Running, c); NotifiedAnswers(s, Step(s, e), c);
        case InitFails => StatusNotifies(s, InitFailed, c); NotifiedAnswers(s, Step(s, e), c);
      }
    }
  }

  lemma RetryAnswers(s: Server, c: Client)
    requires OneInFlight(s.link, s.queue) && PairInv(s.queue, s.manager.skipRead, false)
    requires SetsAreSets(s.queue.enqueued) && Answered(s, c)
    ensures SetsInv(TrySend(s)) && Answered(TrySend(s), c)
  {
    hide TrySend, SetAnswersTo, Due, SetsAreSets, PairInv;
    TrySendSettles(s, false, c);
    TrySendAnswers(s, false, c);
  }

  lemma {:induction false} RunAnswers(s: Server, events: seq<Event>, c: Client)
    requires PipelineInv(s) && SetsInv(s) && Answered(s, c)
    ensures SetsInv(Run(s, events)) && Answered(Run(s, events), c)
    decreases |events|
  {
    hide Step, OneInFlight, InOrder, WillWake, SetsInv, Answered;
    if events == [] {
    } else {
      StepKeeps(s, events[0]);
      StepAnswers(s, events[0], c);
      RunAnswers(Step(s, events[0]), events[1..], c);
    }
  }

  lemma InitialAnswers(enumerate: (nat, set<Item>) -> seq<Item>)
    ensures PipelineInv(Initial(enumerate)) && SetsInv(Initial(enumerate))
    ensures forall c: Client :: Answered(Initial(enumerate), c)
  {
    InitialReplies(enumerate);
  }

  // In every run a client gets one answer for each of its SETs that did not
  // fail, in order, made from the response to the READ after it.
  lemma SetsAreAnswered(enumerate: (nat, set<Item>) -> seq<Item>, events: seq<Event>, c: Client)
    ensures PipelineInv(Initial(enumerate))
    ensures var s := Run(Initial(enumerate), events);
            SetAnswers(Outbox(s.manager, c)) == Due(s.queue.answered, c)
  {
    hide Step, OneInFlight, InOrder, WillWake;
    InitialAnswers(enumerate);
    RunAnswers(Initial(enumerate), events, c);
  }

  // And in every run, what such an answer says: it names the parameter that was
  // set if and only if the READ did not fail, or the parameter is the origin; its
  // mirror flag is the request's if and only if the SET was not mirrored; the
  // requested value is the flag of the READ.
  lemma WhatAnAnswerSays(enumerate: (nat, set<Item>) -> seq<Item>, events: seq<Event>, i: nat)
    ensures PipelineInv(Initial(enumerate))
    ensures var answered := Run(Initial(enumerate), events).queue.answered;
            0 < i < |answered| && answered[i].entry.handler.ReadAfterSet? && !answered[i - 1].response.RespError? ==>
              var request, response := answered[i - 1].request, answered[i].response;
              var answer := SetAnswer(response);
              && request.ReqSet? && answered[i - 1].entry.handler == SetDone(answered[i].entry.handler.client)
              && (answer.item == request.item <==> response.RespRead? || request.item == ORIGIN)
              && (answer.mirror == request.mirror <==> !request.mirror)
              && answer.requested == AsInt(response.RespRead? && request.mirror)
  {
    hide Step, OneInFlight, WillWake, Answered, SetsAreSets;
    InitialAnswers(enumerate);
    RunAnswers(Initial(enumerate), events, 0);
    RunKeeps(Initial(enumerate), events);
    var q := Run(Initial(enumerate), events).queue;
    if 0 < i < |q.answered| && q.answered[i].entry.handler.ReadAfterSet? {
      assert q.enqueued[i] == q.answered[i].entry && q.enqueued[i - 1] == q.answered[i - 1].entry;
      assert IsPair(q.enqueued[i - 1], q.enqueued[i]);
    }
  }
}
