/** What every client is sent. The notifications of write access are the subject
    of ServerAccess, those of the link's status and of silence of ServerControl. */
module ServerDelivery {
  import opened Messages
  import opened ServerModel
  import opened ServerFifo
  import opened ServerReplies
  import ReplyParser

  predicate IsMail(m: Message) {
    !m.NotifyMrcStatus? && !m.NotifySilenced? && !m.NotifyWriteAccess? && !m.NotifyPolledItems?
  }

  // Responses, and notifications of SETs and scans, in order.
  function Mail(outbox: seq<Message>): seq<Message> {
    if outbox == [] then []
    else
      var last := outbox[|outbox| - 1];
      Mail(outbox[..|outbox| - 1]) + if IsMail(last) then [last] else []
  }

  // The results of poll cycles, in order.
  function Cycles(outbox: seq<Message>): seq<map<Item, int>> {
    if outbox == [] then []
    else
      var last := outbox[|outbox| - 1];
      Cycles(outbox[..|outbox| - 1]) + if last.NotifyPolledItems? then [last.values] else []
  }

  // What a client was last told of the link's status and of silence.
  datatype News = News(status: Option<Status>, silenced: Option<bool>)

  function Learn(n: News, msg: Message): News {
    match msg
    case NotifyMrcStatus(status) => n.(status := Some(status))
    case NotifySilenced(silenced) => n.(silenced := Some(silenced))
    case _ => n
  }

  function LastNews(outbox: seq<Message>): News {
    if outbox == [] then News(None, None) else Learn(LastNews(outbox[..|outbox| - 1]), outbox[|outbox| - 1])
  }

  function NewsTo(m: Manager, c: Client): News {
    LastNews(Outbox(m, c))
  }

  function MailTo(m: Manager, c: Client): seq<Message> {
    Mail(Outbox(m, c))
  }

  function CyclesTo(m: Manager, c: Client): seq<map<Item, int>> {
    Cycles(Outbox(m, c))
  }

  // ----- What the history of the queue calls for -----

  // The READ after a SET tells the client that asked, and the others. If it
  // failed they are told a zero.
  function NewsOfSet(response: Message, own: bool, connected: bool): seq<Message> {
    var read := response.RespRead?;
    var item := if read then response.item else Item(0, 0, 0);
    var val := if read then response.val else 0;
    var flag := if read && response.mirror then 1 else 0;
    if own then [RespSet(item, val, flag, false)]
    else if connected then [NotifySet(item, val, flag, false)]
    else []
  }

  // What the i-th answer brings to client c.
  function Delivered(answered: seq<Answer>, i: nat, c: Client, connected: bool): seq<Message>
    requires i < |answered|
  {
    var response := answered[i].response;
    match answered[i].entry.handler
    case ForClient(d) => if d == c then [response] else []
    case SetDone(d) => if d == c && response.RespError? then [response] else []
    case ReadAfterSet(d) =>
      if i > 0 && answered[i - 1].response.RespError? then [] else NewsOfSet(response, d == c, connected)
    case ScanRead =>
      if connected && response.RespScanbus? then [NotifyScanbus(response.bus, response.entries)] else []
    case PollRead => []
  }

  // What the answers from the n-th on bring.
  function Due(answered: seq<Answer>, n: nat, c: Client, connected: bool): seq<Message> {
    if |answered| <= n then []
    else
      var last := |answered| - 1;
      Due(answered[..last], n, c, connected) + Delivered(answered, last, c, connected)
  }

  function Results(published: seq<Publication>): seq<map<Item, int>> {
    seq(|published|, i requires 0 <= i < |published| => published[i].result)
  }

  // What answering requests does not touch.
  ghost predicate SameSetting(s: Server, t: Server) {
    && t.manager.connections == s.manager.connections && t.manager.writer == s.manager.writer
    && t.link.status == s.link.status && t.link.silenced == s.link.silenced
    && t.link.reconnectPending == s.link.reconnectPending && t.halted == s.halted
    && t.poller.stopped == s.poller.stopped && t.scanner.stopped == s.scanner.stopped
    && t.poller.subscriptions == s.poller.subscriptions && CycleGoesOn(s.poller, t.poller)
  }

  // The poll set stays, or is that of a new cycle: all that is subscribed.
  ghost predicate CycleGoesOn(p: Poller, q: Poller) {
    || (q.cycles == p.cycles && q.cycle.items == p.cycle.items)
    || (q.cycles > p.cycles && q.cycle.items == AllItems(p.subscriptions))
  }

  // Some answers were given, and c got what they bring.
  ghost predicate Delivers(s: Server, t: Server, c: Client) {
    var connected := c in s.manager.connections;
    && SameSetting(s, t) && NewsTo(t.manager, c) == NewsTo(s.manager, c)
    && s.queue.answered <= t.queue.answered && s.poller.published <= t.poller.published
    && MailTo(t.manager, c) == MailTo(s.manager, c) + Due(t.queue.answered, |s.queue.answered|, c, connected)
    && CyclesTo(t.manager, c)
         == CyclesTo(s.manager, c) + if connected then Results(t.poller.published[|s.poller.published|..]) else []
  }

  lemma DueNothing(answered: seq<Answer>, c: Client, connected: bool)
    ensures Due(answered, |answered|, c, connected) == []
  {
  }

  lemma DueOne(answered: seq<Answer>, a: Answer, c: Client, connected: bool)
    ensures Due(answered + [a], |answered|, c, connected) == Delivered(answered + [a], |answered|, c, connected)
  {
    assert (answered + [a])[..|answered|] == answered;
    DueNothing(answered, c, connected);
    assert [] + Delivered(answered + [a], |answered|, c, connected)
        == Delivered(answered + [a], |answered|, c, connected);
  }

  lemma DueLast(answered: seq<Answer>, n: nat, c: Client, connected: bool)
    requires n < |answered|
    ensures var last := |answered| - 1;
            Due(answered, n, c, connected)
              == Due(answered[..last], n, c, connected) + Delivered(answered, last, c, connected)
  {
  }

  lemma {:induction false} DueSplit(answered: seq<Answer>, m: nat, n: nat, c: Client, connected: bool)
    requires m <= n <= |answered|
    ensures Due(answered, m, c, connected) == Due(answered[..n], m, c, connected) + Due(answered, n, c, connected)
    decreases |answered|
  {
    hide Delivered, Due;
    if n == |answered| {
      assert answered[..n] == answered;
      DueNothing(answered, c, connected);
    } else {
      var last := |answered| - 1;
      DueLast(answered, m, c, connected);
      DueLast(answered, n, c, connected);
      DueSplit(answered[..last], m, n, c, connected);
      assert answered[..last][..n] == answered[..n];
    }
  }

  lemma DeliversNothing(s: Server, t: Server, c: Client)
    requires SameSetting(s, t) && NewsTo(t.manager, c) == NewsTo(s.manager, c)
    requires t.queue.answered == s.queue.answered && t.poller.published == s.poller.published
    requires MailTo(t.manager, c) == MailTo(s.manager, c) && CyclesTo(t.manager, c) == CyclesTo(s.manager, c)
    ensures Delivers(s, t, c)
  {
    DueNothing(s.queue.answered, c, c in s.manager.connections);
  }

  lemma SettingBoth(s: Server, t: Server, u: Server)
    requires SameSetting(s, t) && SameSetting(t, u)
    ensures SameSetting(s, u) && t.manager.connections == s.manager.connections
  {
    hide AllItems;
  }

  lemma DeliversBoth(s: Server, t: Server, u: Server, c: Client)
    requires Delivers(s, t, c) && Delivers(t, u, c)
    ensures Delivers(s, u, c)
  {
    hide Due, MailTo, CyclesTo, NewsTo, Results, SameSetting;
    var connected := c in s.manager.connections;
    SettingBoth(s, t, u);
    DueSplit(u.queue.answered, |s.queue.answered|, |t.queue.answered|, c, connected);
    assert u.queue.answered[..|t.queue.answered|] == t.queue.answered;
    ResultsSplit(u.poller.published, |s.poller.published|, |t.poller.published|);
    assert u.poller.published[..|t.poller.published|] == t.poller.published;
  }

  lemma ResultsSplit(published: seq<Publication>, m: nat, n: nat)
    requires m <= n <= |published|
    ensures Results(published[m..]) == Results(published[..n][m..]) + Results(published[n..])
  {
  }

  // ----- Sending -----

  lemma MailOfAppend(outbox: seq<Message>, msg: Message)
    ensures Mail(outbox + [msg]) == Mail(outbox) + if IsMail(msg) then [msg] else []
    ensures Cycles(outbox + [msg]) == Cycles(outbox) + if msg.NotifyPolledItems? then [msg.values] else []
    ensures LastNews(outbox + [msg]) == Learn(LastNews(outbox), msg)
  {
    assert (outbox + [msg])[..|outbox|] == outbox;
  }

  lemma SendMails(m: Manager, to: Client, msg: Message, c: Client)
    ensures MailTo(Send(m, to, msg), c) == MailTo(m, c) + if c == to && IsMail(msg) then [msg] else []
    ensures CyclesTo(Send(m, to, msg), c)
              == CyclesTo(m, c) + if c == to && msg.NotifyPolledItems? then [msg.values] else []
    ensures NewsTo(Send(m, to, msg), c) == if c == to then Learn(NewsTo(m, c), msg) else NewsTo(m, c)
  {
    MailOfAppend(Outbox(m, c), msg);
  }

  lemma SendToMails(m: Manager, to: set<Client>, msg: Message, c: Client)
    ensures MailTo(SendTo(m, to, msg), c) == MailTo(m, c) + if c in to && IsMail(msg) then [msg] else []
    ensures CyclesTo(SendTo(m, to, msg), c)
              == CyclesTo(m, c) + if c in to && msg.NotifyPolledItems? then [msg.values] else []
    ensures NewsTo(SendTo(m, to, msg), c) == if c in to then Learn(NewsTo(m, c), msg) else NewsTo(m, c)
  {
    MailOfAppend(Outbox(m, c), msg);
    assert Outbox(SendTo(m, to, msg), c) == if c in to then Outbox(m, c) + [msg] else Outbox(m, c);
  }

  lemma SameMail(m: Manager, n: Manager, c: Client)
    requires n.outbox == m.outbox
    ensures MailTo(n, c) == MailTo(m, c) && CyclesTo(n, c) == CyclesTo(m, c) && NewsTo(n, c) == NewsTo(m, c)
  {
  }

  lemma SetWriterMails(m: Manager, w: Option<Client>, c: Client)
    ensures MailTo(SetWriter(m, w), c) == MailTo(m, c) && CyclesTo(SetWriter(m, w), c) == CyclesTo(m, c)
    ensures NewsTo(SetWriter(m, w), c) == NewsTo(m, c)
  {
    hide Send, SendTo, MailTo, CyclesTo, NewsTo;
    if m.writer != w {
      var lost, gained := NotifyWriteAccess(false, false), NotifyWriteAccess(true, false);
      if m.writer.Some? { SendMails(m, m.writer.value, lost, c); }
      var m1 := if m.writer.Some? then Send(m, m.writer.value, lost) else m;
      var m2 := m1.(writer := w);
      SameMail(m1, m2, c);
      if w.Some? { SendMails(m2, w.value, gained, c); }
      var m3 := if w.Some? then Send(m2, w.value, gained) else m2;
      SendToMails(m3, m3.connections - Only(w), NotifyWriteAccess(false, w.None?), c);
    }
  }

  // ----- Answers -----

  lemma ReadAfterSetMails(s: Server, d: Client, response: Message, c: Client)
    requires !s.manager.skipRead
    ensures var t := ReadAfterSetResponse(s, d, response);
            && MailTo(t.manager, c)
                 == MailTo(s.manager, c) + NewsOfSet(response, c == d, c in s.manager.connections)
            && CyclesTo(t.manager, c) == CyclesTo(s.manager, c) && NewsTo(t.manager, c) == NewsTo(s.manager, c)
  {
    hide Send, SendTo, MailTo, CyclesTo, NewsTo, NoteParameter;
    SendMails(s.manager, d, SetAnswer(response), c);
    var m1 := Send(s.manager, d, SetAnswer(response));
    SendToMails(m1, m1.connections - {d}, SetAnswer(response).AsNotification(), c);
  }

  lemma PollResponseSends(s: Server, response: Message)
    ensures var t, n := PollResponse(s, response), |s.poller.published|;
            || (t.manager == s.manager && t.poller.published == s.poller.published)
            || (&& |t.poller.published| == n + 1 && t.poller.published[..n] == s.poller.published
                && t.manager == SendTo(s.manager, s.manager.connections,
                                       NotifyPolledItems(t.poller.published[n].result)))
  {
    hide SendTo, NewCycle, TakeReading, Postpone, Publish;
    PostponeKeeps(s.poller);
    if !s.poller.stopped && response.RespRead? && !s.poller.cycle.AtEnd() {
      var now := |s.queue.answered| + 1;
      var p := s.poller.(cycle := TakeReading(s.poller.cycle, response.item, response.val));
      PostponeKeeps(p);
      PostponeKeeps(NewCycle(Publish(p, now), now));
      KeepsPublished(Publish(p, now), now);
      Published(p, now);
    }
  }

  lemma PostponeKeeps(p: Poller)
    ensures Postpone(p) == p.(timer := Postpone(p).timer)
  {
  }

  lemma Published(p: Poller, now: nat)
    ensures var published, n := Publish(p, now).published, |p.published|;
            && |published| == n + 1 && published[..n] == p.published && published[n].result == p.cycle.result
            && Publish(p, now) == p.(published := published)
  {
  }

  lemma PollResponseMails(s: Server, response: Message, c: Client)
    ensures var t := PollResponse(s, response);
            && NewsTo(t.manager, c) == NewsTo(s.manager, c)
            && MailTo(t.manager, c) == MailTo(s.manager, c) && s.poller.published <= t.poller.published
            && CyclesTo(t.manager, c) == CyclesTo(s.manager, c)
                 + if c in s.manager.connections then Results(t.poller.published[|s.poller.published|..]) else []
  {
    hide SendTo, MailTo, CyclesTo, NewsTo, PollResponse;
    var t, n := PollResponse(s, response), |s.poller.published|;
    PollResponseSends(s, response);
    if t.poller.published == s.poller.published {
      NothingPublished(s.poller.published);
    } else {
      SendToMails(s.manager, s.manager.connections, NotifyPolledItems(t.poller.published[n].result), c);
      assert Results(t.poller.published[n..]) == [t.poller.published[n].result];
    }
  }

  lemma KeepsPublished(p: Poller, now: nat)
    ensures var q := NewCycle(p, now);
            && q.published == p.published && q.stopped == p.stopped && q.subscriptions == p.subscriptions
            && CycleGoesOn(p, q)
  {
  }

  // What a handler sends, by the flag that it finds.
  function HandlerSends(handler: Handler, response: Message, skip: bool, c: Client, connected: bool): seq<Message> {
    match handler
    case ForClient(d) => if d == c then [response] else []
    case SetDone(d) => if d == c && response.RespError? then [response] else []
    case ReadAfterSet(d) => if skip then [] else NewsOfSet(response, d == c, connected)
    case ScanRead =>
      if connected && response.RespScanbus? then [NotifyScanbus(response.bus, response.entries)] else []
    case PollRead => []
  }

  lemma HandleMails(s: Server, handler: Handler, response: Message, c: Client)
    requires response.IsResponse()
    ensures var t, connected := Handle(s, handler, response), c in s.manager.connections;
            && NewsTo(t.manager, c) == NewsTo(s.manager, c)
            && MailTo(t.manager, c)
                 == MailTo(s.manager, c) + HandlerSends(handler, response, s.manager.skipRead, c, connected)
            && s.poller.published <= t.poller.published
            && CyclesTo(t.manager, c) == CyclesTo(s.manager, c)
                 + if connected then Results(t.poller.published[|s.poller.published|..]) else []
  {
    hide Send, SendTo, MailTo, CyclesTo, NewsTo, ReadAfterSetResponse, PollResponse, NewsOfSet, Results;
    NothingPublished(s.poller.published);
    match handler {
      case ForClient(d) => SendMails(s.manager, d, response, c);
      case SetDone(d) =>
        SendMails(s.manager, d, response, c);
        var m1 := Send(s.manager, d, response);
        SameMail(m1, m1.(skipRead := true), c);
      case ReadAfterSet(d) =>
        ReadAfterSetPublishes(s, d, response);
        if s.manager.skipRead {
          ReadSkipped(s, d, response);
          SameMail(s.manager, s.manager.(skipRead := false), c);
        } else {
          ReadAfterSetMails(s, d, response, c);
        }
      case PollRead => PollResponseMails(s, response, c);
      case ScanRead =>
        if response.RespScanbus? {
          SendToMails(s.manager, s.manager.connections, NotifyScanbus(response.bus, response.entries), c);
        }
    }
  }

  lemma NothingPublished(published: seq<Publication>)
    ensures Results(published[|published|..]) == []
  {
  }

  lemma ReadAfterSetPublishes(s: Server, d: Client, response: Message)
    ensures ReadAfterSetResponse(s, d, response).poller.published == s.poller.published
  {
  }

  lemma ReadSkipped(s: Server, d: Client, response: Message)
    requires s.manager.skipRead
    ensures ReadAfterSetResponse(s, d, response).manager == s.manager.(skipRead := false)
  {
  }

  lemma HandleKeepsSetting(s: Server, handler: Handler, response: Message)
    ensures SameSetting(s, Handle(s, handler, response))
  {
    hide Send, SendTo, SameSetting, PollResponse, ReadAfterSetResponse;
    match handler {
      case ForClient(c) => SameManager(s, Send(s.manager, c, response));
      case SetDone(c) =>
        SameManager(s, s.manager);
        SameManager(s, Send(s.manager, c, response).(skipRead := true));
      case ReadAfterSet(c) => ReadAfterSetKeepsSetting(s, c, response);
      case PollRead => PollResponseKeepsSetting(s, response);
      case ScanRead => ScanKeepsSetting(s, response);
    }
  }

  lemma SameManager(s: Server, m: Manager)
    requires m.connections == s.manager.connections && m.writer == s.manager.writer
    ensures SameSetting(s, s.(manager := m)) && SameSetting(s, s)
  {
  }

  lemma NotedIsSame(s: Server, m: Manager, item: Item, val: int)
    requires m.connections == s.manager.connections && m.writer == s.manager.writer
    ensures SameSetting(s, s.(manager := m, poller := s.poller.(cycle := NoteParameter(s.poller.cycle, item, val))))
  {
    NoteKeepsItems(s.poller.cycle, item, val);
    hide NoteParameter;
  }

  lemma ReadAfterSetKeepsSetting(s: Server, c: Client, response: Message)
    ensures SameSetting(s, ReadAfterSetResponse(s, c, response))
  {
    hide Send, SendTo, NoteParameter, SetAnswer, SameSetting, ReadItem, ReadVal, ReadMirror;
    if s.manager.skipRead {
      SameManager(s, s.manager.(skipRead := false));
    } else {
      var m1 := Send(s.manager, c, SetAnswer(response));
      var m2 := SendTo(m1, m1.connections - {c}, SetAnswer(response).AsNotification());
      SameManager(s, m2);
      NotedIsSame(s, m2, ReadItem(response), ReadVal(response));
    }
  }

  lemma ScanKeepsSetting(s: Server, response: Message)
    ensures SameSetting(s, Handle(s, ScanRead, response))
  {
    hide SendTo;
  }

  lemma NoteKeepsItems(c: Cycle, item: Item, val: int)
    ensures NoteParameter(c, item, val).items == c.items && TakeReading(c, item, val).items == c.items
  {
  }

  lemma PolledIsSame(s: Server, m: Manager, p: Poller)
    requires m.connections == s.manager.connections && m.writer == s.manager.writer
    requires p.stopped == s.poller.stopped && p.subscriptions == s.poller.subscriptions && CycleGoesOn(s.poller, p)
    ensures SameSetting(s, s.(manager := m, poller := p))
  {
    hide CycleGoesOn;
  }

  // The cycle that the last reading completes is followed by a new one.
  lemma CompletedKeepsSetting(s: Server, c: Cycle, now: nat)
    requires c.items == s.poller.cycle.items
    ensures SameSetting(s, SendToAll(s, NotifyPolledItems(c.result)).(
                             poller := Postpone(NewCycle(Publish(s.poller.(cycle := c), now), now))))
  {
    hide SendTo, NewCycle, AllItems, Postpone, Publish, SameSetting;
    var p := s.poller.(cycle := c);
    PostponeKeeps(NewCycle(Publish(p, now), now));
    Published(p, now);
    KeepsPublished(Publish(p, now), now);
    PolledIsSame(s, SendTo(s.manager, s.manager.connections, NotifyPolledItems(c.result)),
                 Postpone(NewCycle(Publish(p, now), now)));
  }

  lemma PollResponseKeepsSetting(s: Server, response: Message)
    ensures SameSetting(s, PollResponse(s, response))
  {
    hide SendToAll, NewCycle, TakeReading, Postpone, Publish, SameSetting;
    PostponeKeeps(s.poller);
    SameManager(s, s.manager);
    PolledIsSame(s, s.manager, Postpone(s.poller));
    PolledIsSame(s, s.manager, s.poller.(undefinedBehaviour := true));
    if response.RespRead? {
      var c := TakeReading(s.poller.cycle, response.item, response.val);
      NoteKeepsItems(s.poller.cycle, response.item, response.val);
      PostponeKeeps(s.poller.(cycle := c));
      PolledIsSame(s, s.manager, Postpone(s.poller.(cycle := c)));
      CompletedKeepsSetting(s, c, |s.queue.answered| + 1);
    }
  }

  lemma AnswerFrontKeepsSetting(s: Server, response: Message)
    requires s.queue.entries != []
    ensures var front := s.queue.entries[0];
            SameSetting(s, Handle(s, front.handler, response)) ==>
              SameSetting(s, AnswerFront(s, front.request, response))
  {
    hide Handle;
  }

  // Answering the front brings everyone what the history calls for.
  lemma AnswerFrontDelivers(s: Server, response: Message, dangling: bool, c: Client)
    requires PairInv(s.queue, s.manager.skipRead, dangling) && s.queue.entries != []
    requires ReplyParser.Answers(s.queue.entries[0].request, response)
    ensures Delivers(s, AnswerFront(s, s.queue.entries[0].request, response), c)
  {
    hide Handle, PairInv, MailTo, CyclesTo, NewsTo, Due, NewsOfSet, SameSetting, ReplyParser.Answers, Results;
    var front, answered := s.queue.entries[0], s.queue.answered;
    AnswersAreResponses(front.request, response);
    HandleMails(s, front.handler, response, c);
    if front.handler.ReadAfterSet? {
      FlagTells(s.queue, s.manager.skipRead, dangling);
    }
    HandleKeepsSetting(s, front.handler, response);
    AnswerFrontKeepsSetting(s, response);
    DueOne(answered, Answer(front, front.request, response), c, c in s.manager.connections);
  }

  lemma {:induction false} TrySendDelivers(s: Server, dangling: bool, c: Client)
    requires PairInv(s.queue, s.manager.skipRead, dangling) && OneInFlight(s.link, s.queue)
    ensures Delivers(s, TrySend(s), c)
    decreases |s.queue.entries|
  {
    hide AnswerFront, PairInv, MailTo, CyclesTo, NewsTo, Due, Delivers;
    if s.queue.entries == [] || s.queue.inProgress || s.link.current.Some? {
      DeliversNothing(s, s, c);
    } else if s.link.status == Running || s.link.status == Initializing {
      DeliversNothing(s, TrySend(s), c);
    } else {
      var response := RespError(DownError(s.link.status));
      var t := AnswerFront(s, s.queue.entries[0].request, response);
      AnswerFrontKeepsPairs(s, response, dangling);
      AnswerFrontDelivers(s, response, dangling, c);
      TrySendDelivers(t, dangling, c);
      DeliversBoth(s, t, TrySend(t), c);
    }
  }

  // 'dangling' says whether the READ of the last SET is still to come.
  lemma QueueDelivers(s: Server, request: Request, handler: Handler, dangling: bool, c: Client)
    requires OneInFlight(s.link, s.queue) && PairInv(s.queue, s.manager.skipRead, dangling)
    requires request.IsMrcCommand() && (handler.SetDone? ==> request.ReqSet?)
    requires if dangling then
               s.queue.enqueued != [] && IsPair(s.queue.enqueued[|s.queue.enqueued| - 1], Entry(request, handler))
             else
               !handler.ReadAfterSet?
    ensures var t := QueueRequest(s, request, handler);
            && Delivers(s, t, c)
            && PairInv(t.queue, t.manager.skipRead, handler.SetDone?) && OneInFlight(t.link, t.queue)
  {
    hide TrySend, OneInFlight, InOrder, WillWake, Paired, Delivers, MailTo, CyclesTo, NewsTo;
    var t := Append(s, request, handler);
    PairedAppend(s.queue.enqueued, Entry(request, handler), dangling);
    AppendKeepsOrder(s, request, handler, c);
    TrySendSettles(t, handler.SetDone?, c);
    TrySendDelivers(t, handler.SetDone?, c);
    QueueRequestKeeps(s, request, handler);
    SameMail(s.manager, t.manager, c);
    DeliversNothing(s, t, c);
    DeliversBoth(s, t, TrySend(t), c);
  }

  // ----- Callbacks -----

  // The answer to a request that the server answers itself, and the refusal of
  // a write command.
  function LocalReply(s: Server, c: Client, request: Request): seq<Message> {
    var isWriter := s.manager.writer == Some(c);
    match request
    case ReqHasWriteAccess => [RespBool(isWriter)]
    case ReqAcquireWriteAccess(force) => [RespBool(force || s.manager.writer == None)]
    case ReqReleaseWriteAccess => [RespBool(isWriter)]
    case ReqIsSilenced => [RespBool(s.link.silenced)]
    case ReqSetSilenced(_) => [RespBool(isWriter)]
    case ReqMrcStatus => [RespMrcStatus(s.link.status)]
    case ReqSetPollItems(_) => [RespBool(true)]
    case ReqQuit => [if isWriter then RespBool(true) else RespError(PermissionDenied)]
    case NotARequest => [RespError(InvalidType)]
    case ReqScanbus(_) => []
    case ReqRead(_, _) => []
    case ReqReadMulti(_, _) => []
    case _ => if isWriter then [] else [RespError(PermissionDenied)]
  }

  function LocalMail(s: Server, e: Event, c: Client): seq<Message> {
    if Enabled(s, e) && e.ClientRequests? && e.client == c then LocalReply(s, c, e.request) else []
  }

  // Nothing of what this is about.
  ghost predicate NoMail(s: Server, t: Server, c: Client) {
    && t.queue.answered == s.queue.answered && t.poller.published == s.poller.published
    && MailTo(t.manager, c) == MailTo(s.manager, c) && CyclesTo(t.manager, c) == CyclesTo(s.manager, c)
  }

  lemma StatusMails(s: Server, status: Status, c: Client)
    ensures NoMail(s, SetStatus(s, status), c) && NoMail(s, TakeDown(s, status), c)
  {
    hide MailTo, CyclesTo, NewsTo;
    SendToMails(s.manager, s.manager.connections, NotifyMrcStatus(status), c);
  }

  lemma StartLinkMails(s: Server, c: Client)
    ensures NoMail(s, StartLink(s), c)
  {
    hide SetStatus, TakeDown, MailTo, CyclesTo, NewsTo;
    if IsDown(s.link.status) {
      StatusMails(s, Connecting, c);
    }
  }

  lemma FailMails(s: Server, timedOut: bool, c: Client)
    requires s.link.current.Some?
    ensures NoMail(s, FailCommand(s, timedOut), c)
  {
    hide TakeDown, MailTo, CyclesTo, NewsTo;
    StatusMails(s.(link := PostResponse(s.link, RespError(if timedOut then ComTimeout else ComError))), Stopped, c);
  }

  lemma ConnectMails(s: Server, d: Client, c: Client)
    ensures NoMail(s, Connect(s, d), c)
  {
    hide MailTo, CyclesTo, NewsTo, Send, SetWriter;
    var m0 := s.manager.(connections := s.manager.connections + {d});
    var m1 := Send(m0, d, NotifyMrcStatus(s.link.status));
    var m2 := Send(m1, d, NotifySilenced(s.link.silenced));
    SameMail(s.manager, m0, c);
    SendMails(m0, d, NotifyMrcStatus(s.link.status), c);
    SendMails(m1, d, NotifySilenced(s.link.silenced), c);
    SetWriterMails(m2, Some(d), c);
    SendMails(m2, d, NotifyWriteAccess(false, m2.writer.None?), c);
  }

  lemma DisconnectMails(s: Server, d: Client, c: Client)
    ensures NoMail(s, Disconnect(s, d), c)
  {
    hide SetWriter, TheOnly, Mail, Cycles;
    if |s.manager.connections| == 1 {
      SetWriterMails(s.manager, Some(TheOnly(s.manager.connections)), c);
    }
    SetWriterMails(s.manager, None, c);
  }

  lemma SetSilencedMails(s: Server, silenced: bool, c: Client)
    ensures NoMail(s, SetSilenced(s, silenced), c)
  {
    hide MailTo, CyclesTo, NewsTo;
    SendToMails(s.manager, s.manager.connections, NotifySilenced(silenced), c);
  }

  lemma StopAllMails(s: Server, c: Client)
    ensures NoMail(s, StopAll(s), c)
  {
    hide SetWriter, Mail, Cycles;
    SetWriterMails(s.manager.(connections := {}), None, c);
  }

  // A request that the server answers itself.
  ghost predicate RepliesLocally(s: Server, d: Client, request: Request, c: Client) {
    var t := DispatchLocal(s, d, request);
    && t.queue == s.queue && t.poller.published == s.poller.published
    && MailTo(t.manager, c) == MailTo(s.manager, c) + (if c == d then LocalReply(s, d, request) else [])
    && CyclesTo(t.manager, c) == CyclesTo(s.manager, c)
  }

  lemma AccessMails(s: Server, d: Client, force: bool, c: Client)
    ensures RepliesLocally(s, d, ReqAcquireWriteAccess(force), c) && RepliesLocally(s, d, ReqReleaseWriteAccess, c)
  {
    hide Send, SetWriter, MailTo, CyclesTo, NewsTo;
    forall b: bool, m | m in {s.manager, SetWriter(s.manager, Some(d)), SetWriter(s.manager, None)}
      ensures MailTo(Send(m, d, RespBool(b)), c) == MailTo(m, c) + (if c == d then [RespBool(b)] else [])
      ensures CyclesTo(Send(m, d, RespBool(b)), c) == CyclesTo(m, c)
    {
      SendMails(m, d, RespBool(b), c);
    }
    SetWriterMails(s.manager, Some(d), c);
    SetWriterMails(s.manager, None, c);
  }

  lemma SilenceMails(s: Server, d: Client, silenced: bool, c: Client)
    ensures RepliesLocally(s, d, ReqSetSilenced(silenced), c)
  {
    hide Send, SetSilenced, MailTo, CyclesTo, NewsTo;
    SetSilencedMails(s, silenced, c);
    SendMails(s.manager, d, RespBool(false), c);
    SendMails(SetSilenced(s, silenced).manager, d, RespBool(true), c);
  }

  lemma EndMails(s: Server, d: Client, c: Client)
    ensures RepliesLocally(s, d, ReqQuit, c) && RepliesLocally(s, d, NotARequest, c)
  {
    hide Send, Disconnect, StopAll, MailTo, CyclesTo, NewsTo;
    SendMails(s.manager, d, RespError(PermissionDenied), c);
    SendMails(s.manager, d, RespBool(true), c);
    StopAllMails(SendBool(s, d, true), c);
    SendMails(s.manager, d, RespError(InvalidType), c);
    DisconnectMails(SendError(s, d, InvalidType), d, c);
  }

  lemma QueryMails(s: Server, d: Client, request: Request, c: Client)
    requires request.ReqHasWriteAccess? || request.ReqIsSilenced? || request.ReqMrcStatus? || request.ReqSetPollItems?
    ensures RepliesLocally(s, d, request, c)
  {
    hide Send, ExpandRanges, Disconnect, StopAll, SetSilenced, SetWriter, MailTo, CyclesTo, NewsTo;
    SendMails(s.manager, d, RespBool(true), c);
    SendMails(s.manager, d, RespBool(false), c);
    SendMails(s.manager, d, RespMrcStatus(s.link.status), c);
  }

  lemma LocalRequestMails(s: Server, d: Client, request: Request, c: Client)
    requires !request.IsMrcCommand()
    ensures RepliesLocally(s, d, request, c)
  {
    hide RepliesLocally;
    match request {
      case ReqAcquireWriteAccess(force) => AccessMails(s, d, force, c);
      case ReqReleaseWriteAccess => AccessMails(s, d, false, c);
      case ReqSetSilenced(silenced) => SilenceMails(s, d, silenced, c);
      case ReqQuit => EndMails(s, d, c);
      case NotARequest => EndMails(s, d, c);
      case _ => QueryMails(s, d, request, c);
    }
  }

  // What a callback brings to c: the reply to its request, if the server gives
  // it itself, what the answers bring that the callback gives, and the results
  // of the poll cycles it completes.
  ghost predicate StepBrings(s: Server, e: Event, c: Client)
    requires Consistent(s)
  {
    var t, connected := Step(s, e), c in s.manager.connections;
    && s.queue.answered <= t.queue.answered && s.poller.published <= t.poller.published
    && MailTo(t.manager, c)
         == MailTo(s.manager, c) + LocalMail(s, e, c) + Due(t.queue.answered, |s.queue.answered|, c, connected)
    && CyclesTo(t.manager, c)
         == CyclesTo(s.manager, c) + if connected then Results(t.poller.published[|s.poller.published|..]) else []
  }

  lemma NoLocalMail(s: Server, e: Event, c: Client)
    requires !e.ClientRequests? || !Enabled(s, e)
    ensures LocalMail(s, e, c) == []
  {
  }

  lemma BringsNothing(s: Server, e: Event, c: Client)
    requires Consistent(s) && NoMail(s, Step(s, e), c) && LocalMail(s, e, c) == []
    ensures StepBrings(s, e, c)
  {
    hide Step, MailTo, CyclesTo, NewsTo, LocalMail;
    DueNothing(s.queue.answered, c, c in s.manager.connections);
  }

  lemma BringsAnswers(s: Server, e: Event, c: Client)
    requires Consistent(s) && Delivers(s, Step(s, e), c) && LocalMail(s, e, c) == []
    ensures StepBrings(s, e, c)
  {
    hide Step, MailTo, CyclesTo, NewsTo, LocalMail, Due, Results;
  }

  lemma LocalDispatch(s: Server, d: Client, request: Request, c: Client)
    requires Consistent(s) && Enabled(s, ClientRequests(d, request)) && !request.IsMrcCommand()
    ensures StepBrings(s, ClientRequests(d, request), c)
  {
    hide DispatchLocal, MailTo, CyclesTo, NewsTo, LocalReply, Results;
    var s1 := s.(manager := CountRequest(s.manager, d));
    SameMail(s.manager, s1.manager, c);
    LocalRequestMails(s1, d, request, c);
    SameLocalReply(s, s1, d, request);
    DueNothing(s.queue.answered, c, c in s.manager.connections);
    NothingPublished(s.poller.published);
  }

  lemma SameLocalReply(s: Server, s1: Server, d: Client, request: Request)
    requires s1 == s.(manager := CountRequest(s.manager, d))
    ensures LocalReply(s1, d, request) == LocalReply(s, d, request)
  {
  }

  // A command that is queued, and one that is refused.
  lemma CommandDelivers(s: Server, d: Client, request: Request, c: Client)
    requires PipelineInv(s) && PairsInv(s) && request.IsMrcCommand()
    requires !request.IsMrcWriteCommand() || s.manager.writer == Some(d)
    ensures Delivers(s, Dispatch(s, d, request), c)
  {
    hide QueueRequest, OneInFlight, InOrder, WillWake, PairInv, Delivers, MailTo, CyclesTo, NewsTo;
    var s1 := s.(manager := CountRequest(s.manager, d));
    SameMail(s.manager, s1.manager, c);
    DeliversNothing(s, s1, c);
    if request.ReqSet? {
      var read := ReqRead(Truncate(request.item), request.mirror);
      var s2 := QueueRequest(s1, request, SetDone(d));
      QueueDelivers(s1, request, SetDone(d), false, c);
      QueueDelivers(s2, read, ReadAfterSet(d), true, c);
      DeliversBoth(s, s1, s2, c);
      DeliversBoth(s, s2, QueueRequest(s2, read, ReadAfterSet(d)), c);
    } else {
      QueueDelivers(s1, request, ForClient(d), false, c);
      DeliversBoth(s, s1, QueueRequest(s1, request, ForClient(d)), c);
    }
  }

  lemma RefusalMails(s: Server, d: Client, request: Request, c: Client)
    requires Consistent(s) && Enabled(s, ClientRequests(d, request))
    requires request.IsMrcWriteCommand() && s.manager.writer != Some(d)
    ensures StepBrings(s, ClientRequests(d, request), c)
  {
    hide MailTo, CyclesTo, NewsTo, Results, Send;
    var s1 := s.(manager := CountRequest(s.manager, d));
    SameMail(s.manager, s1.manager, c);
    SendMails(s1.manager, d, RespError(PermissionDenied), c);
    DueNothing(s.queue.answered, c, c in s.manager.connections);
    NothingPublished(s.poller.published);
  }

  lemma DispatchBrings(s: Server, d: Client, request: Request, c: Client)
    requires PipelineInv(s) && PairsInv(s) && Enabled(s, ClientRequests(d, request))
    ensures StepBrings(s, ClientRequests(d, request), c)
  {
    hide PipelineInv, PairsInv, Dispatch, StepBrings, Delivers;
    if !request.IsMrcCommand() {
      LocalDispatch(s, d, request, c);
    } else if request.IsMrcWriteCommand() && s.manager.writer != Some(d) {
      RefusalMails(s, d, request, c);
    } else {
      CommandDelivers(s, d, request, c);
      BringsAnswers(s, ClientRequests(d, request), c);
    }
  }

  lemma PollNextDelivers(s: Server, c: Client)
    requires OneInFlight(s.link, s.queue) && PairsInv(s)
    ensures Delivers(s, PollNext(s), c)
  {
    hide QueueRequest, MailTo, CyclesTo, NewsTo, OneInFlight, PairInv, Delivers;
    DeliversNothing(s, s, c);
    DeliversNothing(s, s.(poller := Postpone(s.poller)), c);
    if !s.poller.cycle.AtEnd() {
      QueueDelivers(s, ReqRead(Truncate(s.poller.cycle.order[s.poller.cycle.pos]), false), PollRead, false, c);
    }
  }

  lemma PollTimeoutDelivers(s: Server, c: Client)
    requires OneInFlight(s.link, s.queue) && PairsInv(s)
    ensures Delivers(s, PollTimeout(s), c)
  {
    hide PollNext, MailTo, CyclesTo, NewsTo, OneInFlight, PairInv, Delivers, NewCycle;
    var s0 := s.(poller := s.poller.(timer := false));
    var s1 := s0.(poller := NewCycle(s0.poller, |s0.queue.answered|));
    KeepsPublished(s0.poller, |s0.queue.answered|);
    DeliversNothing(s, s0, c);
    DeliversNothing(s, s1, c);
    PollNextDelivers(s0, c);
    PollNextDelivers(s1, c);
    DeliversBoth(s, s0, PollNext(s0), c);
    DeliversBoth(s, s1, PollNext(s1), c);
  }

  lemma ScanTimeoutDelivers(s: Server, c: Client)
    requires OneInFlight(s.link, s.queue) && PairsInv(s)
    ensures Delivers(s, ScanTimeout(s), c)
  {
    hide QueueRequest, MailTo, CyclesTo, NewsTo, OneInFlight, PairInv, Delivers;
    var s2 := s.(scanner := s.scanner.(timer := false));
    var s3 := QueueRequest(s2, ReqScanbus(0), ScanRead);
    DeliversNothing(s, s2, c);
    QueueDelivers(s2, ReqScanbus(0), ScanRead, false, c);
    QueueDelivers(s3, ReqScanbus(1), ScanRead, false, c);
    DeliversBoth(s, s2, s3, c);
    DeliversBoth(s, s3, QueueRequest(s3, ReqScanbus(1), ScanRead), c);
  }

  lemma ResponseDelivers(s: Server, c: Client)
    requires PipelineInv(s) && PairsInv(s) && s.link.posted != []
    ensures var p := s.link.posted[0];
            Delivers(s, HandleResponse(s.(link := s.link.(posted := s.link.posted[1..])), p.request, p.response), c)
  {
    hide TrySend, AnswerFront, MailTo, CyclesTo, NewsTo, PairInv, Delivers, ReplyParser.Answers;
    var p := s.link.posted[0];
    var s1 := s.(link := s.link.(posted := s.link.posted[1..]));
    var t := AnswerFront(s1, p.request, p.response);
    DeliversNothing(s, s1, c);
    AnswerFrontKeepsPairs(s1, p.response, false);
    AnswerFrontDelivers(s1, p.response, false, c);
    TrySendDelivers(t, false, c);
    DeliversBoth(s, s1, t, c);
    DeliversBoth(s, t, TrySend(t), c);
  }

  lemma RetryDelivers(s: Server, c: Client)
    requires PipelineInv(s) && PairsInv(s) && s.queue.retriesPending > 0
    ensures Delivers(s, TrySend(s.(queue := s.queue.(retriesPending := s.queue.retriesPending - 1))), c)
  {
    hide TrySend, MailTo, CyclesTo, NewsTo, Delivers;
    var s1 := s.(queue := s.queue.(retriesPending := s.queue.retriesPending - 1));
    DeliversNothing(s, s1, c);
    TrySendDelivers(s1, false, c);
    DeliversBoth(s, s1, TrySend(s1), c);
  }

  // Every callback brings every client what its request and the history of the
  // queue call for, and nothing else.
  lemma StepDelivers(s: Server, e: Event, c: Client)
    requires PipelineInv(s) && PairsInv(s)
    ensures StepBrings(s, e, c)
  {
    hide Connect, Disconnect, Dispatch, FailCommand, TakeReply, HandleResponse, TrySend, PollTimeout, ScanTimeout;
    hide StartLink, SetStatus, TakeDown, MailTo, CyclesTo, NewsTo, PairInv, Delivers, StepBrings, LocalReply;
    hide LocalMail, Due, Results, InOrder, WillWake;
    if !Enabled(s, e) {
      NoLocalMail(s, e, c);
      BringsNothing(s, e, c);
    } else {
      if !e.ClientRequests? {
        NoLocalMail(s, e, c);
      }
      match e {
        case ClientRequests(d, request) => DispatchBrings(s, d, request, c);
        case ResponseDelivered => ResponseDelivers(s, c); BringsAnswers(s, e, c);
        case PollTimerFires => PollTimeoutDelivers(s, c); BringsAnswers(s, e, c);
        case ScanTimerFires => ScanTimeoutDelivers(s, c); BringsAnswers(s, e, c);
        case RetryTimerFires => RetryDelivers(s, c); BringsAnswers(s, e, c);
        case ClientConnects(d) => ConnectMails(s, d, c); BringsNothing(s, e, c);
        case ClientDisconnects(d) => DisconnectMails(s, d, c); BringsNothing(s, e, c);
        case WriteCompletes => BringsNothing(s, e, c);
        case ReplyArrives(_) => BringsNothing(s, e, c);
        case WriteFails(timedOut) => FailMails(s, timedOut, c); BringsNothing(s, e, c);
        case ReadFails(timedOut) => FailMails(s, timedOut, c); BringsNothing(s, e, c);
        case LinkStarted => StartLinkMails(s, c); BringsNothing(s, e, c);
        case ReconnectTimerFires =>
          StartLinkMails(s.(link := s.link.(reconnectPending := false)), c);
          BringsNothing(s, e, c);
        case LinkOpens(opens) =>
          StatusMails(s, Initializing, c);
          StatusMails(s, ConnectFailed, c);
          BringsNothing(s, e, c);
        case InitCompletes => StatusMails(s, Running, c); BringsNothing(s, e, c);
        case InitFails => StatusMails(s, InitFailed, c); BringsNothing(s, e, c);
      }
    }
  }

  // ----- Runs -----

  // What a run has to bring to c.
  ghost function Owed(s: Server, events: seq<Event>, c: Client): seq<Message>
    requires PipelineInv(s)
    decreases |events|
  {
    if events == [] then []
    else
      StepKeeps(s, events[0]);
      var t := Step(s, events[0]);
      LocalMail(s, events[0], c)
        + Due(t.queue.answered, |s.queue.answered|, c, c in s.manager.connections)
        + Owed(t, events[1..], c)
  }

  lemma {:induction false} RunDelivers(s: Server, events: seq<Event>, c: Client)
    requires PipelineInv(s) && PairsInv(s) && Fair(s, c)
    ensures MailTo(Run(s, events).manager, c) == MailTo(s.manager, c) + Owed(s, events, c)
    decreases |events|
  {
    hide Step, OneInFlight, InOrder, WillWake, PairsInv, Fair, LocalMail, Due, MailTo, CyclesTo, NewsTo, Results;
    if events == [] {
    } else {
      StepKeeps(s, events[0]);
      StepSettles(s, events[0], c);
      StepDelivers(s, events[0], c);
      RunDelivers(Step(s, events[0]), events[1..], c);
    }
  }

  // In every run every client got, in order, its responses to what the server
  // answers itself and what the answers of the queue call for: the response to
  // each of its requests, the errors of its SETs and the answers to the others,
  // and while it was connected the news of the others' SETs and of the scans.
  lemma EverythingIsDelivered(enumerate: (nat, set<Item>) -> seq<Item>, events: seq<Event>, c: Client)
    ensures PipelineInv(Initial(enumerate))
    ensures Mail(Outbox(Run(Initial(enumerate), events).manager, c)) == Owed(Initial(enumerate), events, c)
  {
    InitialReplies(enumerate);
    RunDelivers(Initial(enumerate), events, c);
    hide Run, Owed;
    assert MailTo(Initial(enumerate).manager, c) == [];
  }

  // ----- Values -----

  predicate IsValue(m: Message) {
    m.RespRead? || m.RespScanbus?
  }

  function Values(messages: seq<Message>): seq<Message> {
    if messages == [] then []
    else
      var last := messages[|messages| - 1];
      Values(messages[..|messages| - 1]) + if IsValue(last) then [last] else []
  }

  // The values among the answers to c's own requests.
  function ValuesFor(answered: seq<Answer>, c: Client): seq<Message> {
    if answered == [] then []
    else
      var last := answered[|answered| - 1];
      ValuesFor(answered[..|answered| - 1], c)
        + if last.entry.handler == ForClient(c) && IsValue(last.response) then [last.response] else []
  }

  lemma {:induction false} ValuesJoin(a: seq<Message>, b: seq<Message>)
    ensures Values(a + b) == Values(a) + Values(b)
    decreases |b|
  {
    if b == [] {
      assert a + b == a;
    } else {
      var n := |b| - 1;
      assert (a + b)[..|a + b| - 1] == a + b[..n];
      ValuesJoin(a, b[..n]);
    }
  }

  lemma ValuesOfOne(m: Message)
    ensures Values([m]) == if IsValue(m) then [m] else []
    ensures Values([]) == []
  {
    assert [m][..0] == [];
  }

  lemma {:induction false} ValuesInMail(outbox: seq<Message>)
    ensures Values(Mail(outbox)) == Values(outbox)
  {
    if outbox == [] {
    } else {
      var last := outbox[|outbox| - 1];
      ValuesInMail(outbox[..|outbox| - 1]);
      ValuesJoin(Mail(outbox[..|outbox| - 1]), if IsMail(last) then [last] else []);
      ValuesOfOne(last);
    }
  }

  lemma ValuesDelivered(answered: seq<Answer>, i: nat, c: Client, connected: bool)
    requires i < |answered|
    ensures var a := answered[i];
            Values(Delivered(answered, i, c, connected))
              == if a.entry.handler == ForClient(c) && IsValue(a.response) then [a.response] else []
  {
    hide Values;
    var r := answered[i].response;
    ValuesOfOne(r);
    forall m: Message ensures Values([m]) == (if IsValue(m) then [m] else []) {
      ValuesOfOne(m);
    }
  }

  lemma ValuesForLast(answered: seq<Answer>, c: Client)
    requires answered != []
    ensures var last := answered[|answered| - 1];
            ValuesFor(answered, c) == ValuesFor(answered[..|answered| - 1], c)
              + if last.entry.handler == ForClient(c) && IsValue(last.response) then [last.response] else []
  {
  }

  lemma {:induction false} ValuesDue(answered: seq<Answer>, n: nat, c: Client, connected: bool)
    requires n <= |answered|
    ensures ValuesFor(answered, c) == ValuesFor(answered[..n], c) + Values(Due(answered, n, c, connected))
    decreases |answered|
  {
    hide Delivered, Due, Values, ValuesFor;
    if n == |answered| {
      assert answered[..n] == answered;
      DueNothing(answered, c, connected);
      ValuesOfOne(RespBool(true));
    } else {
      var last := |answered| - 1;
      DueLast(answered, n, c, connected);
      ValuesForLast(answered, c);
      ValuesDue(answered[..last], n, c, connected);
      assert answered[..last][..n] == answered[..n];
      ValuesJoin(Due(answered[..last], n, c, connected), Delivered(answered, last, c, connected));
      ValuesDelivered(answered, last, c, connected);
    }
  }

  lemma NoLocalValues(s: Server, e: Event, c: Client)
    ensures Values(LocalMail(s, e, c)) == []
  {
    hide Values;
    ValuesOfOne(RespBool(true));
    forall m: Message ensures Values([m]) == (if IsValue(m) then [m] else []) {
      ValuesOfOne(m);
    }
  }

  ghost predicate ValuesSent(s: Server, c: Client) {
    Values(Outbox(s.manager, c)) == ValuesFor(s.queue.answered, c)
  }

  lemma StepSendsValues(s: Server, e: Event, c: Client)
    requires PipelineInv(s) && PairsInv(s) && ValuesSent(s, c)
    ensures ValuesSent(Step(s, e), c)
  {
    hide Step, OneInFlight, InOrder, WillWake, PairsInv, LocalMail, Mail, Cycles, Results, Values, Due;
    StepDelivers(s, e, c);
    var t, n, connected := Step(s, e), |s.queue.answered|, c in s.manager.connections;
    var before, local, due := MailTo(s.manager, c), LocalMail(s, e, c), Due(t.queue.answered, n, c, connected);
    ValuesInMail(Outbox(s.manager, c));
    ValuesInMail(Outbox(t.manager, c));
    ValuesJoin(before + local, due);
    ValuesJoin(before, local);
    NoLocalValues(s, e, c);
    ValuesDue(t.queue.answered, n, c, connected);
    assert t.queue.answered[..n] == s.queue.answered;
  }

  lemma {:induction false} RunSendsValues(s: Server, events: seq<Event>, c: Client)
    requires PipelineInv(s) && PairsInv(s) && Fair(s, c) && ValuesSent(s, c)
    ensures ValuesSent(Run(s, events), c)
    decreases |events|
  {
    hide Step, OneInFlight, InOrder, WillWake, PairsInv, Fair, ValuesSent;
    if events == [] {
    } else {
      StepKeeps(s, events[0]);
      StepSettles(s, events[0], c);
      StepSendsValues(s, events[0], c);
      RunSendsValues(Step(s, events[0]), events[1..], c);
    }
  }

  // In every run the values and listings that a client was sent as responses
  // are, in order, the answers to its own READs and scans.
  lemma ValuesAreTheClients(enumerate: (nat, set<Item>) -> seq<Item>, events: seq<Event>, c: Client)
    ensures PipelineInv(Initial(enumerate))
    ensures var s := Run(Initial(enumerate), events);
            Values(Outbox(s.manager, c)) == ValuesFor(s.queue.answered, c)
  {
    InitialReplies(enumerate);
    RunSendsValues(Initial(enumerate), events, c);
    hide Run;
  }
}
