/** Who may write, and what the clients were last told about it. */
module ServerAccess {
  import opened Messages
  import opened ServerModel
  import opened ServerFifo

  // The last write access notification among the messages of a client:
  // whether it has access, and whether it could acquire it.
  function LastTold(outbox: seq<Message>): Option<(bool, bool)> {
    if outbox == [] then None
    else
      var last := outbox[|outbox| - 1];
      if last.NotifyWriteAccess? then Some((last.hasAccess, last.canAcquire))
      else LastTold(outbox[..|outbox| - 1])
  }

  function Told(m: Manager, c: Client): Option<(bool, bool)> {
    LastTold(Outbox(m, c))
  }

  // A connected client knows whether it is the writer and whether there is one.
  ghost predicate Informed(m: Manager, c: Client) {
    c in m.connections ==> Told(m, c) == Some((m.writer == Some(c), m.writer.None?))
  }

  // While anyone is connected the writer is a connected client. The last client
  // to leave stays recorded until the next one arrives.
  ghost predicate WriterConnected(m: Manager) {
    && m.connections <= m.outbox.Keys
    && (m.writer.Some? ==> m.writer.value in m.outbox)
    && (m.connections != {} && m.writer.Some? ==> m.writer.value in m.connections)
  }

  ghost predicate AccessInv(m: Manager) {
    WriterConnected(m) && forall c: Client :: Informed(m, c)
  }

  lemma ToldOfAppend(outbox: seq<Message>, msg: Message)
    ensures LastTold(outbox + [msg]) ==
            if msg.NotifyWriteAccess? then Some((msg.hasAccess, msg.canAcquire)) else LastTold(outbox)
  {
    assert (outbox + [msg])[..|outbox|] == outbox;
  }

  lemma SendTold(m: Manager, to: Client, msg: Message, c: Client)
    ensures var n := Send(m, to, msg);
            && n.outbox.Keys == m.outbox.Keys + {to}
            && Told(n, c) ==
               if c == to && msg.NotifyWriteAccess? then Some((msg.hasAccess, msg.canAcquire)) else Told(m, c)
  {
    ToldOfAppend(Outbox(m, c), msg);
  }

  lemma SendToTold(m: Manager, to: set<Client>, msg: Message, c: Client)
    ensures var n := SendTo(m, to, msg);
            && n.outbox.Keys == m.outbox.Keys + to
            && Told(n, c) ==
               if c in to && msg.NotifyWriteAccess? then Some((msg.hasAccess, msg.canAcquire)) else Told(m, c)
  {
    ToldOfAppend(Outbox(m, c), msg);
    assert Outbox(SendTo(m, to, msg), c) == if c in to then Outbox(m, c) + [msg] else Outbox(m, c);
  }

  // Everything but a change of the writer.
  ghost predicate Unaffected(m: Manager, n: Manager, c: Client) {
    && n.connections == m.connections && n.writer == m.writer
    && Told(n, c) == Told(m, c)
    && m.outbox.Keys <= n.outbox.Keys
  }

  lemma UnaffectedKeeps(m: Manager, n: Manager, c: Client)
    requires WriterConnected(m) && Informed(m, c) && Unaffected(m, n, c)
    ensures WriterConnected(n) && Informed(n, c)
  {
  }

  // Changing the writer tells everyone who is connected.
  lemma SetWriterInforms(m: Manager, w: Option<Client>, c: Client)
    requires m.writer.Some? ==> m.writer.value in m.outbox
    ensures var n := SetWriter(m, w);
            && m.outbox.Keys <= n.outbox.Keys
            && (m.connections <= m.outbox.Keys ==> n.connections <= n.outbox.Keys)
            && (w.Some? ==> w.value in n.outbox)
    ensures m.writer != w || Informed(m, c) ==> Informed(SetWriter(m, w), c)
  {
    hide Send, SendTo, Told;
    if m.writer != w {
      var lost, gained := NotifyWriteAccess(false, false), NotifyWriteAccess(true, false);
      var m1 := if m.writer.Some? then Send(m, m.writer.value, lost) else m;
      var m2 := m1.(writer := w);
      var m3 := if w.Some? then Send(m2, w.value, gained) else m2;
      if m.writer.Some? { SendTold(m, m.writer.value, lost, c); }
      TellsByOutbox(m1, m2, c);
      if w.Some? { SendTold(m2, w.value, gained, c); }
      SendToTold(m3, m3.connections - Only(w), NotifyWriteAccess(false, w.None?), c);
    }
  }

  lemma TellsByOutbox(m: Manager, n: Manager, c: Client)
    requires m.outbox == n.outbox
    ensures Told(m, c) == Told(n, c)
  {
  }

  // ----- Steps that do not concern the writer -----

  lemma HandleUnaffected(s: Server, handler: Handler, response: Message, c: Client)
    requires !response.NotifyWriteAccess?
    ensures Unaffected(s.manager, Handle(s, handler, response).manager, c)
  {
    hide Send, SendTo, Told;
    match handler {
      case ForClient(d) => SendTold(s.manager, d, response, c);
      case SetDone(d) =>
        SendTold(s.manager, d, response, c);
        TellsByOutbox(Send(s.manager, d, response), Send(s.manager, d, response).(skipRead := true), c);
      case ReadAfterSet(d) =>
        var m1 := Send(s.manager, d, SetAnswer(response));
        SendTold(s.manager, d, SetAnswer(response), c);
        SendToTold(m1, m1.connections - {d}, SetAnswer(response).AsNotification(), c);
        TellsByOutbox(s.manager, s.manager.(skipRead := false), c);
      case PollRead =>
        var p :=
          if response.RespRead? then TakeReading(s.poller.cycle, response.item, response.val) else s.poller.cycle;
        SendToTold(s.manager, s.manager.connections, NotifyPolledItems(p.result), c);
      case ScanRead =>
        if response.RespScanbus? {
          SendToTold(s.manager, s.manager.connections, NotifyScanbus(response.bus, response.entries), c);
        }
    }
  }

  lemma {:induction false} TrySendUnaffected(s: Server, c: Client)
    ensures Unaffected(s.manager, TrySend(s).manager, c)
    decreases |s.queue.entries|
  {
    hide Handle, Told;
    if s.queue.entries == [] || s.queue.inProgress || s.link.current.Some? {
    } else if s.link.status == Running || s.link.status == Initializing {
    } else {
      var response := RespError(DownError(s.link.status));
      HandleUnaffected(s, s.queue.entries[0].handler, response, c);
      TrySendUnaffected(AnswerFront(s, s.queue.entries[0].request, response), c);
    }
  }

  lemma DeliveryUnaffected(s: Server, c: Client)
    requires PipelineInv(s) && s.link.posted != []
    ensures var p := s.link.posted[0];
            var t := HandleResponse(s.(link := s.link.(posted := s.link.posted[1..])), p.request, p.response);
            Unaffected(s.manager, t.manager, c)
  {
    hide Handle, Told, TrySend, InOrder, WillWake;
    var p := s.link.posted[0];
    var s1 := s.(link := s.link.(posted := s.link.posted[1..]));
    HandleUnaffected(s1, s1.queue.entries[0].handler, p.response, c);
    TrySendUnaffected(AnswerFront(s1, p.request, p.response), c);
  }

  lemma TimeoutsUnaffected(s: Server, c: Client)
    ensures Unaffected(s.manager, PollTimeout(s).manager, c)
    ensures Unaffected(s.manager, ScanTimeout(s).manager, c)
  {
    hide TrySend, Told;
    var s0 := s.(poller := s.poller.(timer := false));
    forall t | t == s0 || t == s0.(poller := NewCycle(s0.poller, |s0.queue.answered|))
      ensures Unaffected(s.manager, PollNext(t).manager, c) {
      if !t.poller.cycle.AtEnd() {
        TrySendUnaffected(Append(t, ReqRead(Truncate(t.poller.cycle.order[t.poller.cycle.pos]), false), PollRead), c);
      }
    }
    var s2 := s.(scanner := s.scanner.(timer := false));
    TrySendUnaffected(Append(s2, ReqScanbus(0), ScanRead), c);
    TrySendUnaffected(Append(QueueRequest(s2, ReqScanbus(0), ScanRead), ReqScanbus(1), ScanRead), c);
  }

  lemma StatusUnaffected(s: Server, status: Status, c: Client)
    ensures Unaffected(s.manager, SetStatus(s, status).manager, c)
    ensures Unaffected(s.manager, TakeDown(s, status).manager, c)
  {
    hide Told;
    SendToTold(s.manager, s.manager.connections, NotifyMrcStatus(status), c);
  }

  lemma StartLinkUnaffected(s: Server, c: Client)
    ensures Unaffected(s.manager, StartLink(s).manager, c)
  {
    hide Told, SetStatus, TakeDown;
    if IsDown(s.link.status) {
      StatusUnaffected(s, Connecting, c);
    }
  }

  // ----- Clients -----

  lemma ConnectInforms(s: Server, d: Client, c: Client)
    requires WriterConnected(s.manager) && Informed(s.manager, c)
    requires d !in s.manager.outbox
    ensures WriterConnected(Connect(s, d).manager) && Informed(Connect(s, d).manager, c)
  {
    hide Told, Send, SetWriter;
    var m0 := s.manager.(connections := s.manager.connections + {d});
    var m1 := Send(m0, d, NotifyMrcStatus(s.link.status));
    var m2 := Send(m1, d, NotifySilenced(s.link.silenced));
    TellsByOutbox(s.manager, m0, c);
    SendTold(m0, d, NotifyMrcStatus(s.link.status), c);
    SendTold(m1, d, NotifySilenced(s.link.silenced), c);
    SetWriterInforms(m2, Some(d), c);
    SendTold(m2, d, NotifyWriteAccess(false, m2.writer.None?), c);
    if |m2.connections| == 1 {
      SingleElement(m2.connections);
      assert d in m2.connections;
      assert m2.connections == {d};
    } else {
      assert s.manager.connections == {} ==> m2.connections == {d};
    }
  }

  // A writer who leaves while others stay leaves no writer behind, even if only
  // one client remains.
  lemma DisconnectInforms(s: Server, d: Client, c: Client)
    requires WriterConnected(s.manager) && Informed(s.manager, c)
    ensures WriterConnected(Disconnect(s, d).manager) && Informed(Disconnect(s, d).manager, c)
    ensures s.manager.writer == Some(d) && s.manager.connections - {d} != {} ==>
              Disconnect(s, d).manager.writer == None
  {
    hide Told, Send, SendTo;
    var m := s.manager;
    SetWriterInforms(m, None, c);
    if |m.connections| == 1 {
      SingleElement(m.connections);
      assert m.connections == {TheOnly(m.connections)};
    }
    var m1 := if m.writer != Some(d) || |m.connections| == 1 then m else SetWriter(m, None);
    TellsByOutbox(m1, m1.(connections := m1.connections - {d}), c);
  }

  lemma StopAllInforms(s: Server, c: Client)
    requires WriterConnected(s.manager)
    ensures WriterConnected(StopAll(s).manager) && Informed(StopAll(s).manager, c)
  {
    hide Told, SetWriter;
    SetWriterInforms(s.manager.(connections := {}), None, c);
  }

  lemma SendInforms(m: Manager, d: Client, msg: Message, c: Client)
    requires WriterConnected(m) && Informed(m, c) && !msg.NotifyWriteAccess?
    ensures WriterConnected(Send(m, d, msg)) && Informed(Send(m, d, msg), c)
  {
    hide Told;
    SendTold(m, d, msg, c);
  }

  lemma LocalRequestInforms(s: Server, d: Client, request: Request, c: Client)
    requires WriterConnected(s.manager) && Informed(s.manager, c)
    requires d in s.manager.connections && !request.IsMrcCommand()
    ensures var t := DispatchLocal(s, d, request);
            WriterConnected(t.manager) && Informed(t.manager, c)
  {
    hide Told, Send, SendTo, SetWriter, Disconnect, StopAll, ExpandRanges, Informed;
    SendInforms(s.manager, d, RespError(PermissionDenied), c);
    SendInforms(s.manager, d, RespError(InvalidType), c);
    SendInforms(s.manager, d, RespBool(true), c);
    SendInforms(s.manager, d, RespBool(false), c);
    SendInforms(s.manager, d, RespMrcStatus(s.link.status), c);
    SendInforms(s.manager, d, RespBool(s.link.silenced), c);
    SendInforms(s.manager, d, RespBool(s.manager.writer == Some(d)), c);
    match request {
      case ReqAcquireWriteAccess(force) =>
        WriterChanges(s.manager, Some(d), c);
        SendInforms(SetWriter(s.manager, Some(d)), d, RespBool(true), c);
      case ReqReleaseWriteAccess =>
        WriterChanges(s.manager, None, c);
        SendInforms(SetWriter(s.manager, None), d, RespBool(true), c);
      case ReqSetSilenced(silenced) =>
        BroadcastInforms(s.manager, NotifySilenced(silenced), c);
        SendInforms(SendTo(s.manager, s.manager.connections, NotifySilenced(silenced)), d, RespBool(true), c);
      case ReqQuit => StopAllInforms(SendBool(s, d, true), c);
      case NotARequest => DisconnectInforms(SendError(s, d, InvalidType), d, c);
      case _ =>
    }
  }

  lemma WriterChanges(m: Manager, w: Option<Client>, c: Client)
    requires WriterConnected(m) && Informed(m, c) && (w.Some? ==> w.value in m.connections)
    ensures WriterConnected(SetWriter(m, w)) && Informed(SetWriter(m, w), c)
  {
    hide Told, Send, SendTo;
    SetWriterInforms(m, w, c);
  }

  lemma BroadcastInforms(m: Manager, msg: Message, c: Client)
    requires WriterConnected(m) && Informed(m, c) && !msg.NotifyWriteAccess?
    ensures WriterConnected(SendTo(m, m.connections, msg)) && Informed(SendTo(m, m.connections, msg), c)
  {
    hide Told;
    SendToTold(m, m.connections, msg, c);
  }

  lemma DispatchInforms(s: Server, d: Client, request: Request, c: Client)
    requires WriterConnected(s.manager) && Informed(s.manager, c)
    requires d in s.manager.connections
    ensures WriterConnected(Dispatch(s, d, request).manager) && Informed(Dispatch(s, d, request).manager, c)
  {
    hide Told, Send, TrySend, DispatchLocal;
    var s1 := s.(manager := CountRequest(s.manager, d));
    TellsByOutbox(s.manager, s1.manager, c);
    if !request.IsMrcCommand() {
      LocalRequestInforms(s1, d, request, c);
    } else if request.IsMrcWriteCommand() && s.manager.writer != Some(d) {
      SendInforms(s1.manager, d, RespError(PermissionDenied), c);
    } else if request.ReqSet? {
      var t := Append(s1, request, SetDone(d));
      var u := Append(TrySend(t), ReqRead(Truncate(request.item), request.mirror), ReadAfterSet(d));
      TrySendUnaffected(t, c);
      TrySendUnaffected(u, c);
    } else {
      TrySendUnaffected(Append(s1, request, ForClient(d)), c);
    }
  }

  // ----- Steps and runs -----

  lemma StepInforms(s: Server, e: Event, c: Client)
    requires PipelineInv(s) && WriterConnected(s.manager) && Informed(s.manager, c)
    ensures WriterConnected(Step(s, e).manager) && Informed(Step(s, e).manager, c)
  {
    hide Connect, Disconnect, Dispatch, TakeReply, HandleResponse, TrySend, PollTimeout, ScanTimeout;
    hide StartLink, SetStatus, TakeDown, Told, PipelineInv, Informed, WriterConnected;
    if Enabled(s, e) {
      match e {
        case ClientConnects(d) => ConnectInforms(s, d, c);
        case ClientDisconnects(d) => DisconnectInforms(s, d, c);
        case ClientRequests(d, request) => DispatchInforms(s, d, request, c);
        case WriteCompletes =>
        case ReplyArrives(_) =>
        case WriteFails(timedOut) => FailureInforms(s, timedOut, c);
        case ReadFails(timedOut) => FailureInforms(s, timedOut, c);
        case ResponseDelivered =>
          DeliveryUnaffected(s, c);
          UnaffectedKeeps(s.manager, Step(s, e).manager, c);
        case RetryTimerFires =>
          TrySendUnaffected(s.(queue := s.queue.(retriesPending := s.queue.retriesPending - 1)), c);
          UnaffectedKeeps(s.manager, Step(s, e).manager, c);
        case PollTimerFires =>
          TimeoutsUnaffected(s, c);
          UnaffectedKeeps(s.manager, Step(s, e).manager, c);
        case ScanTimerFires =>
          TimeoutsUnaffected(s, c);
          UnaffectedKeeps(s.manager, Step(s, e).manager, c);
        case LinkStarted =>
          StartLinkUnaffected(s, c);
          UnaffectedKeeps(s.manager, Step(s, e).manager, c);
        case ReconnectTimerFires =>
          StartLinkUnaffected(s.(link := s.link.(reconnectPending := false)), c);
          UnaffectedKeeps(s.manager, Step(s, e).manager, c);
        case LinkOpens(_) =>
          StatusUnaffected(s, Initializing, c);
          StatusUnaffected(s, ConnectFailed, c);
          UnaffectedKeeps(s.manager, Step(s, e).manager, c);
        case InitCompletes =>
          StatusUnaffected(s, Running, c);
          UnaffectedKeeps(s.manager, Step(s, e).manager, c);
        case InitFails =>
          StatusUnaffected(s, InitFailed, c);
          UnaffectedKeeps(s.manager, Step(s, e).manager, c);
      }
    }
  }

  lemma FailureInforms(s: Server, timedOut: bool, c: Client)
    requires WriterConnected(s.manager) && Informed(s.manager, c) && s.link.current.Some?
    ensures var t := FailCommand(s, timedOut);
            WriterConnected(t.manager) && Informed(t.manager, c)
  {
    hide TakeDown, Told;
    var l := PostResponse(s.link, RespError(if timedOut then ComTimeout else ComError));
    StatusUnaffected(s.(link := l), Stopped, c);
  }

  lemma StepKeepsAccess(s: Server, e: Event)
    requires PipelineInv(s) && AccessInv(s.manager)
    ensures AccessInv(Step(s, e).manager)
  {
    hide Step, PipelineInv, Informed, WriterConnected;
    var t := Step(s, e);
    forall c: Client ensures Informed(t.manager, c) {
      StepInforms(s, e, c);
    }
    StepInforms(s, e, 0);
  }

  lemma {:induction false} RunInforms(s: Server, events: seq<Event>)
    requires PipelineInv(s) && AccessInv(s.manager)
    ensures AccessInv(Run(s, events).manager)
    decreases |events|
  {
    hide Step, PipelineInv, AccessInv;
    if events == [] {
    } else {
      StepKeepsAccess(s, events[0]);
      StepKeeps(s, events[0]);
      RunInforms(Step(s, events[0]), events[1..]);
    }
  }

  // In every run, the last write access notification sent to a connected client
  // says whether it is the writer and whether there is none, and while anyone is
  // connected the writer is none or one of them.
  lemma ClientsKnowTheWriter(enumerate: (nat, set<Item>) -> seq<Item>, events: seq<Event>, c: Client)
    ensures PipelineInv(Initial(enumerate))
    ensures var m := Run(Initial(enumerate), events).manager;
            && (c in m.connections ==> Told(m, c) == Some((m.writer == Some(c), m.writer == None)))
            && (m.connections != {} && m.writer.Some? ==> m.writer.value in m.connections)
  {
    hide Step, Told;
    InitialInv(enumerate);
    RunInforms(Initial(enumerate), events);
    assert Informed(Run(Initial(enumerate), events).manager, c);
  }
}
