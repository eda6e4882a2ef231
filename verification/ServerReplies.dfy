/** Every request of every client is answered with exactly one response. */
module ServerReplies {
  import opened Messages
  import opened ServerModel
  import opened ServerFifo
  import ReplyParser

  // ----- The SET/READ pairs and the flag that silences the READ -----

  // 'read' is the READ that follows the SET 'set'.
  predicate IsPair(set': Entry, read: Entry) {
    && set'.handler.SetDone? && set'.request.ReqSet?
    && read == Entry(
         ReqRead(Truncate(set'.request.item), set'.request.mirror), ReadAfterSet(set'.handler.client))
  }

  // Every SET is directly followed by its READ and every READ taken after a
  // SET directly follows it; while a SET is being dispatched the last entry may
  // still be without its READ.
  ghost predicate Paired(entries: seq<Entry>, dangling: bool) {
    && (forall i {:trigger entries[i].handler.SetDone?} | 0 <= i < |entries| && entries[i].handler.SetDone? ::
          if i + 1 < |entries| then IsPair(entries[i], entries[i + 1]) else dangling && entries[i].request.ReqSet?)
    && (forall i {:trigger entries[i].handler.ReadAfterSet?} | 0 <= i < |entries| && entries[i].handler.ReadAfterSet? ::
          0 < i && entries[i - 1].handler.SetDone?)
  }

  // The last thing that happened to the queue was a SET that failed.
  predicate SetJustFailed(q: Queue) {
    q.answered != [] &&
    var a := q.answered[|q.answered| - 1];
    a.entry.handler.SetDone? && a.response.RespError?
  }

  ghost predicate PairInv(q: Queue, skipRead: bool, dangling: bool) {
    InOrder(q) && Paired(q.enqueued, dangling) && skipRead == SetJustFailed(q)
  }

  // The history tells what is at the front of the queue.
  lemma FrontAfter(q: Queue)
    requires InOrder(q)
    ensures q.entries != [] ==> q.enqueued[|q.answered|] == q.entries[0]
    ensures q.entries == [] ==> |q.answered| == |q.enqueued|
    ensures q.answered != [] ==> q.enqueued[|q.answered| - 1] == q.answered[|q.answered| - 1].entry
  {
    assert q.entries != [] ==> q.enqueued[|q.answered|..][0] == q.enqueued[|q.answered|];
  }

  lemma AnswerFrontKeepsPairs(s: Server, response: Message, dangling: bool)
    requires PairInv(s.queue, s.manager.skipRead, dangling) && s.queue.entries != []
    requires ReplyParser.Answers(s.queue.entries[0].request, response)
    ensures var t := AnswerFront(s, s.queue.entries[0].request, response);
            PairInv(t.queue, t.manager.skipRead, dangling)
  {
    hide AnswerFront, Handle, ReplyParser.Answers;
    AnswerFrontKeeps(s, response);
    FrontAfter(s.queue);
    AnswerFrontFlag(s, response);
  }

  // The flag is up for the READ after a SET exactly if the SET failed.
  lemma FlagTells(q: Queue, skipRead: bool, dangling: bool)
    requires PairInv(q, skipRead, dangling) && q.entries != [] && q.entries[0].handler.ReadAfterSet?
    ensures q.answered != [] && skipRead == q.answered[|q.answered| - 1].response.RespError?
  {
    hide ReplyParser.Answers;
    FrontAfter(q);
    assert q.enqueued[|q.answered|] == q.entries[0];
  }

  lemma AnswerFrontFlag(s: Server, response: Message)
    requires s.queue.entries != []
    ensures AnswerFront(s, s.queue.entries[0].request, response).manager.skipRead ==
            (match s.queue.entries[0].handler
             case SetDone(_) => response.RespError? || s.manager.skipRead
             case ReadAfterSet(_) => false
             case _ => s.manager.skipRead)
  {
  }

  // ----- What the queue owes a client -----

  function Debt(entries: seq<Entry>, c: Client): nat {
    if entries == [] then 0
    else
      (if entries[0].handler in {ForClient(c), ReadAfterSet(c)} then 1 else 0) + Debt(entries[1..], c)
  }

  lemma {:induction false} DebtOfAppend(entries: seq<Entry>, e: Entry, c: Client)
    ensures Debt(entries + [e], c) == Debt(entries, c) + Debt([e], c)
  {
    if entries == [] {
      assert entries + [e] == [e];
    } else {
      assert (entries + [e])[1..] == entries[1..] + [e];
      DebtOfAppend(entries[1..], e, c);
    }
  }

  // A READ whose SET failed is not owed to anyone.
  function Forgiven(q: Queue, skipRead: bool, c: Client): nat {
    if skipRead && q.entries != [] && q.entries[0].handler == ReadAfterSet(c) then 1 else 0
  }

  function Responses(outbox: seq<Message>): nat {
    if outbox == [] then 0
    else Responses(outbox[..|outbox| - 1]) + (if outbox[|outbox| - 1].IsResponse() then 1 else 0)
  }

  // The answers to SETs among the messages of a client.
  function SetAnswers(outbox: seq<Message>): seq<Message> {
    if outbox == [] then []
    else SetAnswers(outbox[..|outbox| - 1]) + (if outbox[|outbox| - 1].RespSet? then [outbox[|outbox| - 1]] else [])
  }

  function SetAnswersTo(m: Manager, c: Client): seq<Message> {
    SetAnswers(Outbox(m, c))
  }

  function Received(m: Manager, c: Client): nat {
    Responses(Outbox(m, c))
  }

  // The responses client c was sent and those it will still get.
  function Settled(m: Manager, q: Queue, c: Client): int {
    Received(m, c) + Debt(q.entries, c) - Forgiven(q, m.skipRead, c)
  }

  lemma ResponsesOfAppend(outbox: seq<Message>, m: Message)
    ensures Responses(outbox + [m]) == Responses(outbox) + (if m.IsResponse() then 1 else 0)
    ensures SetAnswers(outbox + [m]) == SetAnswers(outbox) + (if m.RespSet? then [m] else [])
  {
    assert (outbox + [m])[..|outbox|] == outbox;
  }

  lemma SendCounts(m: Manager, to: Client, msg: Message, c: Client)
    ensures Received(Send(m, to, msg), c)
              == Received(m, c) + (if c == to && msg.IsResponse() then 1 else 0)
    ensures SetAnswersTo(Send(m, to, msg), c) == SetAnswersTo(m, c) + (if c == to && msg.RespSet? then [msg] else [])
  {
    ResponsesOfAppend(Outbox(m, c), msg);
  }

  lemma SendToCounts(m: Manager, to: set<Client>, msg: Message, c: Client)
    requires !msg.IsResponse()
    ensures Received(SendTo(m, to, msg), c) == Received(m, c)
    ensures SetAnswersTo(SendTo(m, to, msg), c) == SetAnswersTo(m, c)
  {
    ResponsesOfAppend(Outbox(m, c), msg);
    assert Outbox(SendTo(m, to, msg), c) == if c in to then Outbox(m, c) + [msg] else Outbox(m, c);
  }

  lemma ReceivedDependsOnOutbox(m: Manager, n: Manager, c: Client)
    requires n.outbox == m.outbox
    ensures Received(n, c) == Received(m, c) && SetAnswersTo(n, c) == SetAnswersTo(m, c)
  {
  }

  lemma SetWriterCounts(m: Manager, w: Option<Client>, c: Client)
    ensures Received(SetWriter(m, w), c) == Received(m, c)
    ensures SetAnswersTo(SetWriter(m, w), c) == SetAnswersTo(m, c)
  {
    hide Send, SendTo, Received, SetAnswersTo;
    if m.writer != w {
      var lost, gained := NotifyWriteAccess(false, false), NotifyWriteAccess(true, false);
      if m.writer.Some? { SendCounts(m, m.writer.value, lost, c); }
      var m1 := if m.writer.Some? then Send(m, m.writer.value, lost) else m;
      var m2 := m1.(writer := w);
      ReceivedDependsOnOutbox(m1, m2, c);
      if w.Some? { SendCounts(m2, w.value, gained, c); }
      var m3 := if w.Some? then Send(m2, w.value, gained) else m2;
      SendToCounts(m3, m3.connections - Only(w), NotifyWriteAccess(false, w.None?), c);
    }
  }

  lemma ReadAfterSetCounts(s: Server, d: Client, response: Message, c: Client)
    ensures var t := ReadAfterSetResponse(s, d, response);
            && Received(t.manager, c) == Received(s.manager, c) + (if c == d && !s.manager.skipRead then 1 else 0)
            && SetAnswersTo(t.manager, c) == SetAnswersTo(s.manager, c)
                 + (if c == d && !s.manager.skipRead then [SetAnswer(response)] else [])
  {
    hide Send, SendTo, Received, SetAnswersTo, NoteParameter;
    if s.manager.skipRead {
      ReceivedDependsOnOutbox(s.manager, s.manager.(skipRead := false), c);
    } else {
      SendCounts(s.manager, d, SetAnswer(response), c);
      var m1 := Send(s.manager, d, SetAnswer(response));
      SendToCounts(m1, m1.connections - {d}, SetAnswer(response).AsNotification(), c);
    }
  }

  lemma PollResponseCounts(s: Server, response: Message, c: Client)
    ensures Received(PollResponse(s, response).manager, c) == Received(s.manager, c)
    ensures SetAnswersTo(PollResponse(s, response).manager, c) == SetAnswersTo(s.manager, c)
  {
    hide SendTo, Received, SetAnswersTo, NewCycle, TakeReading;
    if response.RespRead? {
      var d := TakeReading(s.poller.cycle, response.item, response.val);
      SendToCounts(s.manager, s.manager.connections, NotifyPolledItems(d.result), c);
    }
  }

  lemma HandleCounts(s: Server, handler: Handler, response: Message, c: Client)
    requires handler.ForClient? ==> response.IsResponse()
    ensures Received(Handle(s, handler, response).manager, c) == Received(s.manager, c) +
            (match handler
             case ForClient(d) => if c == d then 1 else 0
             case SetDone(d) => if c == d && response.RespError? then 1 else 0
             case ReadAfterSet(d) => if c == d && !s.manager.skipRead then 1 else 0
             case _ => 0)
    ensures SetAnswersTo(Handle(s, handler, response).manager, c) == SetAnswersTo(s.manager, c) +
            (match handler
             case ForClient(d) => if c == d && response.RespSet? then [response] else []
             case ReadAfterSet(d) => if c == d && !s.manager.skipRead then [SetAnswer(response)] else []
             case _ => [])
  {
    hide Send, SendTo, Received, SetAnswersTo, ReadAfterSetResponse, PollResponse, SetAnswer;
    match handler {
      case ForClient(d) => SendCounts(s.manager, d, response, c);
      case SetDone(d) =>
        SendCounts(s.manager, d, response, c);
        var m1 := Send(s.manager, d, response);
        ReceivedDependsOnOutbox(m1, m1.(skipRead := true), c);
      case ReadAfterSet(d) => ReadAfterSetCounts(s, d, response, c);
      case PollRead => PollResponseCounts(s, response, c);
      case ScanRead =>
        if response.RespScanbus? {
          SendToCounts(s.manager, s.manager.connections, NotifyScanbus(response.bus, response.entries), c);
        }
    }
  }

  // A failing SET pays its client at once; the debt of its READ is forgiven,
  // or will be if that READ is only just being enqueued.
  predicate FailedWithoutRead(q: Queue, c: Client) {
    && q.entries == [] && q.answered != []
    && q.answered[|q.answered| - 1].entry.handler == SetDone(c)
    && q.answered[|q.answered| - 1].response.RespError?
  }

  function Balance(m: Manager, q: Queue, c: Client): int {
    Settled(m, q, c) - (if FailedWithoutRead(q, c) then 1 else 0)
  }

  // Between steps no SET is without its READ.
  lemma NothingDangles(m: Manager, q: Queue, c: Client)
    requires InOrder(q) && Paired(q.enqueued, false)
    ensures Balance(m, q, c) == Settled(m, q, c)
  {
    hide Settled;
    FrontAfter(q);
    LastIsNoSet(q.enqueued);
  }

  lemma LastIsNoSet(entries: seq<Entry>)
    requires Paired(entries, false)
    ensures entries != [] ==> !entries[|entries| - 1].handler.SetDone?
  {
  }

  // What leaves the books when the front of the queue is answered.
  lemma FrontBooks(q: Queue, skipRead: bool, response: Message, after: bool, dangling: bool, c: Client)
    requires PairInv(q, skipRead, dangling) && q.entries != []
    requires after == match q.entries[0].handler
                      case SetDone(_) => response.RespError? || skipRead
                      case ReadAfterSet(_) => false
                      case _ => skipRead
    ensures var r := Pop(q, Answer(q.entries[0], q.entries[0].request, response));
            Debt(r.entries, c) - Forgiven(r, after, c) - (if FailedWithoutRead(r, c) then 1 else 0)
              == Debt(q.entries, c) - Forgiven(q, skipRead, c) - (if FailedWithoutRead(q, c) then 1 else 0)
                   - (match q.entries[0].handler
                      case ForClient(d) => if c == d then 1 else 0
                      case SetDone(d) => if c == d && response.RespError? then 1 else 0
                      case ReadAfterSet(d) => if c == d && !skipRead then 1 else 0
                      case _ => 0)
  {
    hide ReplyParser.Answers;
    FrontAfter(q);
    var n := |q.answered|;
    assert n + 1 < |q.enqueued| ==> q.enqueued[n..][1] == q.enqueued[n + 1];
  }

  lemma AnswersAreResponses(request: Request, response: Message)
    requires ReplyParser.Answers(request, response)
    ensures response.IsResponse()
  {
  }

  lemma AnswerFrontManager(s: Server, response: Message)
    requires s.queue.entries != []
    ensures var front := s.queue.entries[0];
            AnswerFront(s, front.request, response).manager == Handle(s, front.handler, response).manager
  {
    hide Handle;
  }

  lemma AnswerFrontSettles(s: Server, response: Message, dangling: bool, c: Client)
    requires PairInv(s.queue, s.manager.skipRead, dangling) && s.queue.entries != []
    requires ReplyParser.Answers(s.queue.entries[0].request, response)
    ensures var t := AnswerFront(s, s.queue.entries[0].request, response);
            Balance(t.manager, t.queue, c) == Balance(s.manager, s.queue, c)
  {
    hide AnswerFront, Handle, Received, SetAnswersTo, SetAnswer, ReplyParser.Answers, PairInv;
    hide Pop, Debt, Forgiven, FailedWithoutRead;
    var front := s.queue.entries[0];
    var t := AnswerFront(s, front.request, response);
    AnswersAreResponses(front.request, response);
    HandleCounts(s, front.handler, response, c);
    AnswerFrontManager(s, response);
    AnswerFrontFlag(s, response);
    FrontBooks(s.queue, s.manager.skipRead, response, t.manager.skipRead, dangling, c);
  }

  lemma SameBooks(m: Manager, q: Queue, r: Queue, dangling: bool, c: Client)
    requires r.entries == q.entries && r.answered == q.answered && r.enqueued == q.enqueued
    ensures Balance(m, r, c) == Balance(m, q, c)
    ensures PairInv(q, m.skipRead, dangling) ==> PairInv(r, m.skipRead, dangling)
  {
    hide Paired, Received, Debt;
  }

  lemma {:induction false} TrySendSettles(s: Server, dangling: bool, c: Client)
    requires PairInv(s.queue, s.manager.skipRead, dangling) && OneInFlight(s.link, s.queue)
    ensures var t := TrySend(s);
            PairInv(t.queue, t.manager.skipRead, dangling)
            && Balance(t.manager, t.queue, c) == Balance(s.manager, s.queue, c)
    decreases |s.queue.entries|
  {
    hide AnswerFront, Handle, PairInv, Balance;
    if s.queue.entries == [] || s.queue.inProgress || s.link.current.Some? {
    } else if s.link.status == Running || s.link.status == Initializing {
      SameBooks(s.manager, s.queue, TrySend(s).queue, dangling, c);
    } else {
      var response := RespError(DownError(s.link.status));
      AnswerFrontKeepsPairs(s, response, dangling);
      AnswerFrontSettles(s, response, dangling, c);
      TrySendSettles(AnswerFront(s, s.queue.entries[0].request, response), dangling, c);
    }
  }

  lemma AppendKeepsOrder(s: Server, request: Request, handler: Handler, c: Client)
    requires InOrder(s.queue) && OneInFlight(s.link, s.queue) && request.IsMrcCommand()
    ensures var t := Append(s, request, handler);
            && InOrder(t.queue) && OneInFlight(t.link, t.queue)
            && Debt(t.queue.entries, c)
                 == Debt(s.queue.entries, c) + (if handler in {ForClient(c), ReadAfterSet(c)} then 1 else 0)
  {
    hide OneInFlight, InOrder;
    AppendKeeps(s, request, handler);
    DebtOfAppend(s.queue.entries, Entry(request, handler), c);
  }

  // A request that is no SET.
  lemma QueueSettles(s: Server, request: Request, handler: Handler, c: Client)
    requires PipelineInv(s) && PairInv(s.queue, s.manager.skipRead, false) && request.IsMrcCommand()
    requires !handler.SetDone? && !handler.ReadAfterSet?
    ensures var t := QueueRequest(s, request, handler);
            && PairInv(t.queue, t.manager.skipRead, false)
            && Settled(t.manager, t.queue, c)
                 == Settled(s.manager, s.queue, c) + (if handler == ForClient(c) then 1 else 0)
  {
    hide TrySend, Debt, Received, WillWake, InOrder;
    var t := Append(s, request, handler);
    AppendKeepsOrder(s, request, handler, c);
    NothingDangles(t.manager, t.queue, c);
    TrySendSettles(t, false, c);
    NothingDangles(TrySend(t).manager, TrySend(t).queue, c);
    AppendedFront(s, t, c);
  }

  // What is forgiven depends on the front only, and the flag is never set for
  // an entry that is still to come.
  lemma AppendedFront(s: Server, t: Server, c: Client)
    requires PairInv(s.queue, s.manager.skipRead, false)
    requires t.manager == s.manager && t.queue.answered == s.queue.answered
    requires s.queue.entries <= t.queue.entries
    ensures Forgiven(t.queue, t.manager.skipRead, c) == Forgiven(s.queue, s.manager.skipRead, c)
  {
    FrontAfter(s.queue);
    LastIsNoSet(s.queue.enqueued);
  }

  lemma PairedAppend(entries: seq<Entry>, e: Entry, dangling: bool)
    requires Paired(entries, dangling)
    requires if dangling then entries != [] && IsPair(entries[|entries| - 1], e) else !e.handler.ReadAfterSet?
    requires e.handler.SetDone? ==> e.request.ReqSet?
    ensures Paired(entries + [e], e.handler.SetDone?)
  {
  }

  // The first half of a SET: the entry without its READ.
  lemma SetEntrySettles(s: Server, request: Request, d: Client, c: Client)
    requires PipelineInv(s) && PairInv(s.queue, s.manager.skipRead, false) && request.ReqSet?
    ensures var t := QueueRequest(s, request, SetDone(d));
            && PairInv(t.queue, t.manager.skipRead, true)
            && Balance(t.manager, t.queue, c) == Settled(s.manager, s.queue, c)
  {
    hide TrySend, Debt, Received;
    var t := Append(s, request, SetDone(d));
    AppendKeepsOrder(s, request, SetDone(d), c);
    AppendedFront(s, t, c);
    PairedAppend(s.queue.enqueued, Entry(request, SetDone(d)), false);
    TrySendSettles(t, true, c);
  }

  // What adding the READ means for the books.
  lemma ReadEntryBooks(s: Server, t: Server, set': Entry, read: Entry, c: Client)
    requires PairInv(s.queue, s.manager.skipRead, true) && PairInv(t.queue, t.manager.skipRead, false)
    requires s.queue.enqueued != [] && s.queue.enqueued[|s.queue.enqueued| - 1] == set' && IsPair(set', read)
    requires t == Append(s, read.request, read.handler)
    requires Debt(t.queue.entries, c) == Debt(s.queue.entries, c) + (if c == read.handler.client then 1 else 0)
    ensures Balance(t.manager, t.queue, c)
                 == Balance(s.manager, s.queue, c) + (if c == read.handler.client then 1 else 0)
  {
    hide Received, Debt, PairInv, Forgiven, FailedWithoutRead;
    ReadIsForgiven(s.queue, t.queue, s.manager.skipRead, read, c);
  }

  // A READ whose SET has failed already was taken account of with it.
  lemma ReadIsForgiven(q: Queue, r: Queue, skipRead: bool, read: Entry, c: Client)
    requires PairInv(q, skipRead, true) && PairInv(r, skipRead, false)
    requires q.enqueued != [] && IsPair(q.enqueued[|q.enqueued| - 1], read)
    requires r == q.(entries := q.entries + [read], enqueued := q.enqueued + [read])
    ensures Forgiven(r, skipRead, c) + (if FailedWithoutRead(r, c) then 1 else 0)
         == Forgiven(q, skipRead, c) + (if FailedWithoutRead(q, c) then 1 else 0)
  {
    hide Paired, ReplyParser.Answers;
    FrontAfter(q);
    assert skipRead == SetJustFailed(q);
    hide PairInv, InOrder;
    if q.entries != [] {
      assert r.entries[0] == q.entries[0];
    } else {
      assert r.entries == [read];
    }
  }

  // The second half: the READ pays off the pair, unless its SET has failed already.
  lemma ReadEntrySettles(s: Server, set': Entry, c: Client)
    requires PipelineInv(s) && PairInv(s.queue, s.manager.skipRead, true)
    requires s.queue.enqueued != [] && s.queue.enqueued[|s.queue.enqueued| - 1] == set'
    requires set'.handler.SetDone? && set'.request.ReqSet?
    ensures var d := set'.handler.client;
            var t := QueueRequest(s, ReqRead(Truncate(set'.request.item), set'.request.mirror), ReadAfterSet(d));
            && PairInv(t.queue, t.manager.skipRead, false)
            && Settled(t.manager, t.queue, c) == Balance(s.manager, s.queue, c) + (if c == d then 1 else 0)
  {
    hide TrySend, Debt, Received, Paired, InOrder, Settled, Balance, OneInFlight, WillWake;
    var d := set'.handler.client;
    var read := Entry(ReqRead(Truncate(set'.request.item), set'.request.mirror), ReadAfterSet(d));
    var t := Append(s, read.request, read.handler);
    AppendKeepsOrder(s, read.request, read.handler, c);
    PairedAppend(s.queue.enqueued, read, true);
    ReadEntryBooks(s, t, set', read, c);
    TrySendSettles(t, false, c);
    NothingDangles(TrySend(t).manager, TrySend(t).queue, c);
  }

  // A SET and its READ, enqueued back to back, add one obligation, whether the
  // link takes them, keeps them waiting or refuses both.
  lemma SetSettles(s: Server, request: Request, d: Client, c: Client)
    requires PipelineInv(s) && PairInv(s.queue, s.manager.skipRead, false) && request.ReqSet?
    ensures var s1 := QueueRequest(s, request, SetDone(d));
            var t := QueueRequest(s1, ReqRead(Truncate(request.item), request.mirror), ReadAfterSet(d));
            && PairInv(t.queue, t.manager.skipRead, false)
            && Settled(t.manager, t.queue, c) == Settled(s.manager, s.queue, c) + (if c == d then 1 else 0)
  {
    hide QueueRequest, PairInv, Settled, OneInFlight, InOrder;
    SetEntrySettles(s, request, d, c);
    QueueRequestKeeps(s, request, SetDone(d));
    ReadEntrySettles(QueueRequest(s, request, SetDone(d)), Entry(request, SetDone(d)), c);
  }

  // ----- Steps and runs -----

  // c's account: what it was sent and is owed against what it asked for.
  ghost predicate Fair(s: Server, c: Client) {
    Settled(s.manager, s.queue, c) == Requests(s.manager, c)
  }

  ghost predicate PairsInv(s: Server) {
    PairInv(s.queue, s.manager.skipRead, false)
  }

  ghost predicate ReplyInv(s: Server) {
    PairsInv(s) && forall c: Client :: Fair(s, c)
  }

  // Nothing but the outbox changes, and nothing but notifications is put in it.
  ghost predicate OnlyNotified(s: Server, t: Server, c: Client) {
    && t.queue.enqueued == s.queue.enqueued && t.queue.entries == s.queue.entries
    && t.queue.answered == s.queue.answered
    && t.manager.skipRead == s.manager.skipRead && t.manager.dispatched == s.manager.dispatched
    && Received(t.manager, c) == Received(s.manager, c)
    && SetAnswersTo(t.manager, c) == SetAnswersTo(s.manager, c)
  }

  lemma StatusNotifies(s: Server, status: Status, c: Client)
    ensures OnlyNotified(s, SetStatus(s, status), c) && OnlyNotified(s, TakeDown(s, status), c)
  {
    hide Received, SetAnswersTo;
    SendToCounts(s.manager, s.manager.connections, NotifyMrcStatus(status), c);
  }

  lemma StartLinkNotifies(s: Server, c: Client)
    ensures OnlyNotified(s, StartLink(s), c)
  {
    hide SetStatus, TakeDown, Received, SetAnswersTo;
    if IsDown(s.link.status) {
      StatusNotifies(s, Connecting, c);
    }
  }

  lemma FailNotifies(s: Server, timedOut: bool, c: Client)
    requires s.link.current.Some?
    ensures OnlyNotified(s, FailCommand(s, timedOut), c)
  {
    hide TakeDown, Received, SetAnswersTo;
    StatusNotifies(s.(link := PostResponse(s.link, RespError(if timedOut then ComTimeout else ComError))), Stopped, c);
  }

  lemma ConnectNotifies(s: Server, d: Client, c: Client)
    ensures OnlyNotified(s, Connect(s, d), c)
  {
    hide Received, SetAnswersTo, Send, SetWriter;
    var m0 := s.manager.(connections := s.manager.connections + {d});
    var m1 := Send(m0, d, NotifyMrcStatus(s.link.status));
    var m2 := Send(m1, d, NotifySilenced(s.link.silenced));
    ReceivedDependsOnOutbox(s.manager, m0, c);
    SendCounts(m0, d, NotifyMrcStatus(s.link.status), c);
    SendCounts(m1, d, NotifySilenced(s.link.silenced), c);
    SetWriterCounts(m2, Some(d), c);
    SendCounts(m2, d, NotifyWriteAccess(false, m2.writer.None?), c);
  }

  lemma DisconnectNotifies(s: Server, d: Client, c: Client)
    ensures OnlyNotified(s, Disconnect(s, d), c)
  {
    hide SetWriter, TheOnly, Responses, SetAnswers;
    if |s.manager.connections| == 1 {
      SetWriterCounts(s.manager, Some(TheOnly(s.manager.connections)), c);
    }
    SetWriterCounts(s.manager, None, c);
  }

  lemma SetSilencedNotifies(s: Server, silenced: bool, c: Client)
    ensures OnlyNotified(s, SetSilenced(s, silenced), c)
  {
    hide Received, SetAnswersTo;
    SendToCounts(s.manager, s.manager.connections, NotifySilenced(silenced), c);
  }

  lemma StopAllNotifies(s: Server, c: Client)
    ensures OnlyNotified(s, StopAll(s), c)
  {
    hide SetWriter, Responses, SetAnswers;
    SetWriterCounts(s.manager.(connections := {}), None, c);
  }

  // A request that the server answers itself gets its response in the same
  // step, and no other client gets one.
  lemma LocalRequestSettles(s: Server, d: Client, request: Request, c: Client)
    requires !request.IsMrcCommand()
    ensures var t := DispatchLocal(s, d, request);
            && t.manager.skipRead == s.manager.skipRead && t.manager.dispatched == s.manager.dispatched
            && Received(t.manager, c) == Received(s.manager, c) + (if c == d then 1 else 0)
            && SetAnswersTo(t.manager, c) == SetAnswersTo(s.manager, c)
  {
    hide Send, SetWriter, Disconnect, StopAll, SetSilenced, Received, SetAnswersTo, ExpandRanges;
    SendCounts(s.manager, d, RespError(PermissionDenied), c);
    SendCounts(s.manager, d, RespBool(true), c);
    SendCounts(s.manager, d, RespBool(false), c);
    match request {
      case ReqAcquireWriteAccess(force) =>
        SetWriterCounts(s.manager, Some(d), c);
        SendCounts(SetWriter(s.manager, Some(d)), d, RespBool(true), c);
      case ReqReleaseWriteAccess =>
        SetWriterCounts(s.manager, None, c);
        SendCounts(SetWriter(s.manager, None), d, RespBool(true), c);
      case ReqSetSilenced(silenced) =>
        SetSilencedNotifies(s, silenced, c);
        SendCounts(SetSilenced(s, silenced).manager, d, RespBool(true), c);
      case ReqMrcStatus => SendCounts(s.manager, d, RespMrcStatus(s.link.status), c);
      case ReqQuit => StopAllNotifies(SendBool(s, d, true), c);
      case NotARequest =>
        SendCounts(s.manager, d, RespError(InvalidType), c);
        DisconnectNotifies(SendError(s, d, InvalidType), d, c);
      case _ =>
    }
  }

  lemma DispatchSettles(s: Server, d: Client, request: Request, c: Client)
    requires PipelineInv(s) && PairsInv(s) && Fair(s, c)
    ensures PairsInv(Dispatch(s, d, request)) && Fair(Dispatch(s, d, request), c)
  {
    hide QueueRequest, DispatchLocal, Send, Responses, OneInFlight, PairInv, Debt;
    var s1 := s.(manager := CountRequest(s.manager, d));
    assert Received(s1.manager, c) == Received(s.manager, c);
    if !request.IsMrcCommand() {
      LocalRequestSettles(s1, d, request, c);
      LocalRequestFrame(s1, d, request);
    } else if request.IsMrcWriteCommand() && s.manager.writer != Some(d) {
      SendCounts(s1.manager, d, RespError(PermissionDenied), c);
    } else if request.ReqSet? {
      SetSettles(s1, request, d, c);
    } else {
      QueueSettles(s1, request, ForClient(d), c);
    }
  }

  lemma PollNextSettles(s: Server, c: Client)
    requires PipelineInv(s) && PairsInv(s) && Fair(s, c)
    ensures PairsInv(PollNext(s)) && Fair(PollNext(s), c)
  {
    hide QueueRequest, Received, OneInFlight, PairInv, Debt;
    if !s.poller.cycle.AtEnd() {
      QueueSettles(s, ReqRead(Truncate(s.poller.cycle.order[s.poller.cycle.pos]), false), PollRead, c);
    }
  }

  lemma TimeoutsSettle(s: Server, c: Client)
    requires PipelineInv(s) && PairsInv(s) && Fair(s, c)
    ensures PairsInv(PollTimeout(s)) && Fair(PollTimeout(s), c)
    ensures PairsInv(ScanTimeout(s)) && Fair(ScanTimeout(s), c)
  {
    hide QueueRequest, PollNext, Received, OneInFlight, PairInv, Debt;
    var s0 := s.(poller := s.poller.(timer := false));
    PollNextSettles(s0, c);
    PollNextSettles(s0.(poller := NewCycle(s0.poller, |s0.queue.answered|)), c);
    var s2 := s.(scanner := s.scanner.(timer := false));
    QueueRequestKeeps(s2, ReqScanbus(0), ScanRead);
    QueueSettles(s2, ReqScanbus(0), ScanRead, c);
    QueueSettles(QueueRequest(s2, ReqScanbus(0), ScanRead), ReqScanbus(1), ScanRead, c);
  }

  lemma TrySendFair(s: Server, c: Client)
    requires OneInFlight(s.link, s.queue) && PairsInv(s) && Fair(s, c)
    ensures PairsInv(TrySend(s)) && Fair(TrySend(s), c)
  {
    hide TrySend, Settled;
    NothingDangles(s.manager, s.queue, c);
    TrySendSettles(s, false, c);
    NothingDangles(TrySend(s).manager, TrySend(s).queue, c);
  }

  lemma DeliverySettles(s: Server, c: Client)
    requires PipelineInv(s) && PairsInv(s) && Fair(s, c) && s.link.posted != []
    ensures var p := s.link.posted[0];
            var t := HandleResponse(s.(link := s.link.(posted := s.link.posted[1..])), p.request, p.response);
            PairsInv(t) && Fair(t, c)
  {
    hide TrySend, AnswerFront, Handle, Settled, Paired, ReplyParser.Answers;
    var p := s.link.posted[0];
    var s1 := s.(link := s.link.(posted := s.link.posted[1..]));
    var t1 := AnswerFront(s1, p.request, p.response);
    NothingDangles(s.manager, s.queue, c);
    AnswerFrontKeepsPairs(s1, p.response, false);
    AnswerFrontSettles(s1, p.response, false, c);
    NothingDangles(t1.manager, t1.queue, c);
    TrySendFair(t1, c);
  }

  lemma NotifiedKeeps(s: Server, t: Server, c: Client)
    requires PairsInv(s) && Fair(s, c) && OnlyNotified(s, t, c)
    ensures PairsInv(t) && Fair(t, c)
  {
    hide Received, Debt;
  }

  lemma StepSettles(s: Server, e: Event, c: Client)
    requires PipelineInv(s) && PairsInv(s) && Fair(s, c)
    ensures PairsInv(Step(s, e)) && Fair(Step(s, e), c)
  {
    hide Connect, Disconnect, Dispatch, FailCommand, TakeReply, HandleResponse, TrySend, PollTimeout, ScanTimeout;
    hide StartLink, SetStatus, TakeDown, PairsInv, Fair, Received;
    if Enabled(s, e) {
      match e {
        case ClientRequests(d, request) => DispatchSettles(s, d, request, c);
        case ResponseDelivered => DeliverySettles(s, c);
        case PollTimerFires => TimeoutsSettle(s, c);
        case ScanTimerFires => TimeoutsSettle(s, c);
        case RetryTimerFires =>
          var s1 := s.(queue := s.queue.(retriesPending := s.queue.retriesPending - 1));
          NotifiedKeeps(s, s1, c);
          TrySendFair(s1, c);
        case ClientConnects(d) => ConnectNotifies(s, d, c); NotifiedKeeps(s, Step(s, e), c);
        case ClientDisconnects(d) => DisconnectNotifies(s, d, c); NotifiedKeeps(s, Step(s, e), c);
        case WriteCompletes => NotifiedKeeps(s, Step(s, e), c);
        case ReplyArrives(lines) => NotifiedKeeps(s, Step(s, e), c);
        case WriteFails(timedOut) => FailNotifies(s, timedOut, c); NotifiedKeeps(s, Step(s, e), c);
        case ReadFails(timedOut) => FailNotifies(s, timedOut, c); NotifiedKeeps(s, Step(s, e), c);
        case LinkStarted => StartLinkNotifies(s, c); NotifiedKeeps(s, Step(s, e), c);
        case ReconnectTimerFires =>
          StartLinkNotifies(s.(link := s.link.(reconnectPending := false)), c);
          NotifiedKeeps(s, Step(s, e), c);
        case LinkOpens(opens) =>
          StatusNotifies(s, Initializing, c);
          StatusNotifies(s, ConnectFailed, c);
          NotifiedKeeps(s, Step(s, e), c);
        case InitCompletes => StatusNotifies(s, Running, c); NotifiedKeeps(s, Step(s, e), c);
        case InitFails => StatusNotifies(s, InitFailed, c); NotifiedKeeps(s, Step(s, e), c);
      }
    }
  }

  lemma {:induction false} RunSettles(s: Server, events: seq<Event>)
    requires PipelineInv(s) && ReplyInv(s)
    ensures ReplyInv(Run(s, events))
    decreases |events|
  {
    hide Step, PairsInv, Fair, OneInFlight, InOrder, WillWake;
    if events == [] {
    } else {
      var t := Step(s, events[0]);
      forall c: Client ensures Fair(t, c) {
        StepSettles(s, events[0], c);
      }
      StepSettles(s, events[0], 0);
      StepKeeps(s, events[0]);
      RunSettles(t, events[1..]);
    }
  }

  lemma InitialReplies(enumerate: (nat, set<Item>) -> seq<Item>)
    ensures PipelineInv(Initial(enumerate)) && ReplyInv(Initial(enumerate))
  {
  }

  // 'dispatched' counts exactly the requests the clients made.
  lemma RequestsAreCounted(s: Server, e: Event, c: Client)
    requires PipelineInv(s)
    ensures Requests(Step(s, e).manager, c) ==
            Requests(s.manager, c) + (if Enabled(s, e) && e.ClientRequests? && e.client == c then 1 else 0)
  {
    hide QueueRequest, TrySend, AnswerFront, Handle, NewCycle, TakeReply, StartLink, SetStatus, SetWriter, Send, SendTo;
    hide DispatchLocal, StartPoller, StopPoller, OneInFlight, InOrder, WillWake;
    if e.ClientRequests? {
      LocalRequestFrame(s.(manager := CountRequest(s.manager, e.client)), e.client, e.request);
    }
    if e.LinkStarted? || e.ReconnectTimerFires? {
      StartLinkNotifies(s, c);
      StartLinkNotifies(s.(link := s.link.(reconnectPending := false)), c);
    }
  }

  // Between steps the flag tells what is at the front.
  lemma PairedFront(q: Queue, skipRead: bool)
    requires PairInv(q, skipRead, false)
    ensures skipRead <==>
            && q.entries != [] && q.answered != []
            && var failed := q.answered[|q.answered| - 1];
               failed.response.RespError? && IsPair(failed.entry, q.entries[0])
  {
    FrontAfter(q);
  }

  // In every run and for every client: the responses it was sent and the
  // obligations to it that are still queued make up exactly its requests.
  lemma OneResponsePerRequest(enumerate: (nat, set<Item>) -> seq<Item>, events: seq<Event>, c: Client)
    ensures PipelineInv(Initial(enumerate))
    ensures var s := Run(Initial(enumerate), events);
            Responses(Outbox(s.manager, c)) + Debt(s.queue.entries, c) - Forgiven(s.queue, s.manager.skipRead, c)
              == Requests(s.manager, c)
  {
    InitialReplies(enumerate);
    RunSettles(Initial(enumerate), events);
    assert Fair(Run(Initial(enumerate), events), c);
  }

  // In every run, between steps: the flag that suppresses a READ's response is
  // set exactly if the front of the queue is the READ of the SET that failed
  // last, so that no other request's response is ever suppressed by it.
  lemma FlagGuardsItsOwnRead(enumerate: (nat, set<Item>) -> seq<Item>, events: seq<Event>)
    ensures PipelineInv(Initial(enumerate))
    ensures var s := Run(Initial(enumerate), events);
            s.manager.skipRead <==>
            && s.queue.entries != [] && s.queue.answered != []
            && var failed := s.queue.answered[|s.queue.answered| - 1];
               failed.response.RespError? && IsPair(failed.entry, s.queue.entries[0])
  {
    hide Step, OneInFlight, InOrder, WillWake, Fair, Paired;
    InitialReplies(enumerate);
    RunSettles(Initial(enumerate), events);
    PairedFront(Run(Initial(enumerate), events).queue, Run(Initial(enumerate), events).manager.skipRead);
  }
}
