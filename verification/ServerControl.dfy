/** Who is connected and who may write, the state of the link, whether there is
    polling, and what the clients know of it. */
module ServerControl {
  import opened Messages
  import opened ServerModel
  import opened ServerFifo
  import opened ServerReplies
  import opened ServerDelivery
  import ReplyParser
  import ServerAccess

  // ----- The control state as a machine of its own -----

  datatype Control = Control(
    connections: set<Client>,
    writer: Option<Client>,
    halted: bool,
    status: Status,
    silenced: bool,
    reconnecting: bool,
    polling: bool
  )

  function ControlOf(s: Server): Control {
    Control(s.manager.connections, s.manager.writer, s.halted, s.link.status, s.link.silenced,
            s.link.reconnectPending, !s.poller.stopped)
  }

  // A writer who leaves leaves none, unless nobody else was there.
  function Left(k: Control, c: Client): Control {
    var rest := k.connections - {c};
    k.(connections := rest, polling := k.polling && rest != {},
       writer := if k.writer == Some(c) && k.connections != {c} then None else k.writer)
  }

  function WentDown(k: Control, status: Status): Control {
    k.(status := status, polling := false, reconnecting := true)
  }

  // Only a link that is down can be started.
  function Started(k: Control): Control {
    if k.status !in {Stopped, ConnectFailed, InitFailed} then k
    else k.(status := Connecting, silenced := false, polling := false)
  }

  function Asked(k: Control, c: Client, request: Request): Control {
    var isWriter := k.writer == Some(c);
    match request
    case ReqAcquireWriteAccess(force) => if force || k.writer == None then k.(writer := Some(c)) else k
    case ReqReleaseWriteAccess => if isWriter then k.(writer := None) else k
    case ReqSetSilenced(silenced) => if isWriter then k.(silenced := silenced, polling := !silenced) else k
    case ReqQuit => if isWriter then k.(connections := {}, writer := None, halted := true, polling := false) else k
    case NotARequest => Left(k, c)
    case _ => k
  }

  function Next(k: Control, e: Event): Control {
    match e
    case ClientConnects(c) =>
      if k.connections == {} then k.(connections := {c}, writer := Some(c), polling := true)
      else k.(connections := k.connections + {c})
    case ClientDisconnects(c) => Left(k, c)
    case ClientRequests(c, request) => Asked(k, c, request)
    case WriteFails(_) => WentDown(k, Stopped)
    case ReadFails(_) => WentDown(k, Stopped)
    case LinkStarted => Started(k)
    case ReconnectTimerFires => Started(k.(reconnecting := false))
    case LinkOpens(opens) =>
      if opens then k.(status := Initializing, polling := false) else WentDown(k, ConnectFailed)
    case InitCompletes => k.(status := Running, polling := k.connections != {})
    case InitFails => WentDown(k, InitFailed)
    case _ => k
  }

  // What the machine never does.
  ghost predicate Sane(k: Control) {
    && (k.polling ==> k.connections != {})
    && (k.status == Running && k.connections != {} && !k.silenced ==> k.polling)
    && (k.status in {ConnectFailed, InitFailed} ==> k.reconnecting)
    && (k.connections != {} && k.writer.Some? ==> k.writer.value in k.connections)
    && (k.halted ==> k.connections == {} && k.writer == None)
  }

  ghost predicate ControlInv(s: Server) {
    Sane(ControlOf(s)) && s.scanner.stopped == s.poller.stopped && ServerAccess.WriterConnected(s.manager)
  }

  lemma NextIsSane(k: Control, e: Event)
    requires Sane(k) && !k.halted && (e.ClientRequests? ==> e.client in k.connections)
    ensures Sane(Next(k, e))
  {
    hide Asked, Left, Started, WentDown;
    match e {
      case ClientConnects(c) => ConnectedIsSane(k, c);
      case ClientDisconnects(c) => LeftIsSane(k, c);
      case ClientRequests(c, request) => AskedIsSane(k, c, request);
      case WriteFails(_) => DownIsSane(k, Stopped);
      case ReadFails(_) => DownIsSane(k, Stopped);
      case LinkStarted => StartedIsSane(k);
      case ReconnectTimerFires => StartedIsSane(k);
      case LinkOpens(_) => DownIsSane(k, ConnectFailed);
      case InitFails => DownIsSane(k, InitFailed);
      case _ =>
    }
  }

  lemma ConnectedIsSane(k: Control, c: Client)
    requires Sane(k) && !k.halted
    ensures Sane(Next(k, ClientConnects(c)))
  {
  }

  lemma LeftIsSane(k: Control, c: Client)
    requires Sane(k) && !k.halted
    ensures Sane(Left(k, c))
  {
  }

  lemma AskedIsSane(k: Control, c: Client, request: Request)
    requires Sane(k) && !k.halted && c in k.connections
    ensures Sane(Asked(k, c, request))
  {
    hide Left;
    LeftIsSane(k, c);
  }

  lemma DownIsSane(k: Control, status: Status)
    requires Sane(k.(reconnecting := true)) && IsDown(status)
    ensures Sane(WentDown(k, status))
  {
  }

  lemma StartedIsSane(k: Control)
    requires Sane(k)
    ensures Sane(Started(k)) && Sane(Started(k.(reconnecting := false)))
  {
  }

  // ----- The server follows it -----

  ghost predicate Follows(s: Server, t: Server, e: Event) {
    ControlOf(t) == Next(ControlOf(s), e) && t.scanner.stopped == t.poller.stopped
  }

  lemma StatusFollows(s: Server, status: Status)
    requires s.scanner.stopped == s.poller.stopped
    ensures var t := SetStatus(s, status);
            && ControlOf(t)
                 == ControlOf(s).(status := status, polling := status == Running && s.manager.connections != {})
            && t.scanner.stopped == t.poller.stopped
    ensures status != Running ==>
              var t := TakeDown(s, status);
              ControlOf(t) == WentDown(ControlOf(s), status) && t.scanner.stopped == t.poller.stopped
  {
    hide SendTo;
  }

  lemma StartLinkFollows(s: Server)
    requires s.scanner.stopped == s.poller.stopped
    ensures var t := StartLink(s);
            ControlOf(t) == Started(ControlOf(s)) && t.scanner.stopped == t.poller.stopped
  {
    hide SetStatus, TakeDown;
    if IsDown(s.link.status) {
      StatusFollows(s, Connecting);
    }
  }

  lemma FailFollows(s: Server, timedOut: bool)
    requires s.scanner.stopped == s.poller.stopped && s.link.current.Some?
    ensures var t := FailCommand(s, timedOut);
            ControlOf(t) == WentDown(ControlOf(s), Stopped) && t.scanner.stopped == t.poller.stopped
  {
    hide TakeDown;
    StatusFollows(s.(link := PostResponse(s.link, RespError(if timedOut then ComTimeout else ComError))), Stopped);
  }

  lemma ConnectFollows(s: Server, c: Client)
    requires ControlInv(s) && c !in s.manager.outbox
    ensures Follows(s, Connect(s, c), ClientConnects(c))
  {
    hide Send, SetWriter;
    var all := s.manager.connections + {c};
    if s.manager.connections == {} {
      assert all == {c};
    } else {
      var d :| d in s.manager.connections;
      assert {c, d} <= all && c != d;
      if |all| == 1 {
        SingleElement(all);
      }
    }
  }

  lemma DisconnectFollows(s: Server, c: Client)
    requires ControlInv(s)
    ensures ControlOf(Disconnect(s, c)) == Left(ControlOf(s), c)
    ensures Disconnect(s, c).scanner.stopped == Disconnect(s, c).poller.stopped
  {
    hide SetWriter;
    var m := s.manager;
    if |m.connections| == 1 {
      SingleElement(m.connections);
      assert m.connections == {TheOnly(m.connections)};
    } else {
      assert m.connections != {c};
    }
  }

  lemma LocalFollows(s: Server, c: Client, request: Request)
    requires ControlInv(s) && c in s.manager.connections && !request.IsMrcCommand()
    ensures ControlOf(DispatchLocal(s, c, request)) == Asked(ControlOf(s), c, request)
    ensures DispatchLocal(s, c, request).scanner.stopped == DispatchLocal(s, c, request).poller.stopped
  {
    hide DispatchLocal, Asked, ControlOf, Sane, ServerAccess.WriterConnected;
    match request {
      case NotARequest => RejectedFollows(s, c);
      case ReqQuit => QuitFollows(s, c);
      case ReqSetSilenced(silenced) => SilenceFollows(s, c, silenced);
      case ReqAcquireWriteAccess(force) => AccessFollows(s, c, force);
      case ReqReleaseWriteAccess => AccessFollows(s, c, false);
      case _ => OthersFollow(s, c, request);
    }
  }

  lemma RejectedFollows(s: Server, c: Client)
    requires ControlInv(s)
    ensures ControlOf(DispatchLocal(s, c, NotARequest)) == Asked(ControlOf(s), c, NotARequest)
    ensures DispatchLocal(s, c, NotARequest).scanner.stopped == DispatchLocal(s, c, NotARequest).poller.stopped
  {
    hide Send, Disconnect, Left, Sane, ServerAccess.WriterConnected;
    SentIsSame(s, c, RespError(InvalidType));
    DisconnectFollows(SendError(s, c, InvalidType), c);
  }

  lemma QuitFollows(s: Server, c: Client)
    requires s.scanner.stopped == s.poller.stopped
    ensures ControlOf(DispatchLocal(s, c, ReqQuit)) == Asked(ControlOf(s), c, ReqQuit)
    ensures DispatchLocal(s, c, ReqQuit).scanner.stopped == DispatchLocal(s, c, ReqQuit).poller.stopped
  {
    hide Send, StopAll;
    StopAllFollows(SendBool(s, c, true));
  }

  lemma SilenceFollows(s: Server, c: Client, silenced: bool)
    requires s.scanner.stopped == s.poller.stopped
    ensures var request := ReqSetSilenced(silenced);
            && ControlOf(DispatchLocal(s, c, request)) == Asked(ControlOf(s), c, request)
            && DispatchLocal(s, c, request).scanner.stopped == DispatchLocal(s, c, request).poller.stopped
  {
    hide Send, SetSilenced;
    SetSilencedFollows(s, silenced);
  }

  lemma AccessFollows(s: Server, c: Client, force: bool)
    requires s.scanner.stopped == s.poller.stopped
    ensures var request := ReqAcquireWriteAccess(force);
            && ControlOf(DispatchLocal(s, c, request)) == Asked(ControlOf(s), c, request)
            && DispatchLocal(s, c, request).scanner.stopped == DispatchLocal(s, c, request).poller.stopped
    ensures var request := ReqReleaseWriteAccess;
            && ControlOf(DispatchLocal(s, c, request)) == Asked(ControlOf(s), c, request)
            && DispatchLocal(s, c, request).scanner.stopped == DispatchLocal(s, c, request).poller.stopped
  {
    hide Send, SetWriter;
  }

  lemma OthersFollow(s: Server, c: Client, request: Request)
    requires s.scanner.stopped == s.poller.stopped
    requires request.ReqHasWriteAccess? || request.ReqIsSilenced? || request.ReqMrcStatus? || request.ReqSetPollItems?
    ensures ControlOf(DispatchLocal(s, c, request)) == Asked(ControlOf(s), c, request)
    ensures DispatchLocal(s, c, request).scanner.stopped == DispatchLocal(s, c, request).poller.stopped
  {
    hide Send, ExpandRanges, SetWriter, SetSilenced, StopAll, Disconnect;
  }

  lemma StopAllFollows(s: Server)
    requires s.scanner.stopped == s.poller.stopped
    ensures ControlOf(StopAll(s)) == ControlOf(s).(connections := {}, writer := None, polling := false)
    ensures StopAll(s).scanner.stopped == StopAll(s).poller.stopped
  {
    hide SetWriter;
  }

  lemma SetSilencedFollows(s: Server, silenced: bool)
    requires s.scanner.stopped == s.poller.stopped
    ensures ControlOf(SetSilenced(s, silenced)) == ControlOf(s).(silenced := silenced, polling := !silenced)
    ensures SetSilenced(s, silenced).scanner.stopped == SetSilenced(s, silenced).poller.stopped
  {
    hide SendTo;
  }

  lemma SentIsSame(s: Server, c: Client, msg: Message)
    requires ControlInv(s)
    ensures ControlInv(s.(manager := Send(s.manager, c, msg)))
  {
  }

  lemma DispatchFollows(s: Server, c: Client, request: Request)
    requires PipelineInv(s) && PairsInv(s) && ControlInv(s) && c in s.manager.connections
    ensures Follows(s, Dispatch(s, c, request), ClientRequests(c, request))
  {
    hide QueueRequest, DispatchLocal, Send, PipelineInv, PairsInv;
    if request.IsMrcCommand() {
      if request.IsMrcWriteCommand() && s.manager.writer != Some(c) {
      } else {
        hide Dispatch;
        CommandDelivers(s, c, request, 0);
      }
    } else {
      LocalFollows(s.(manager := CountRequest(s.manager, c)), c, request);
    }
  }

  // The callbacks that only answer requests, or queue the server's own.
  predicate Answers(e: Event) {
    e.ResponseDelivered? || e.RetryTimerFires? || e.PollTimerFires? || e.ScanTimerFires?
  }

  lemma AnsweringKeeps(s: Server, e: Event, c: Client)
    requires PipelineInv(s) && PairsInv(s) && Enabled(s, e) && Answers(e)
    ensures SameSetting(s, Step(s, e)) && NewsTo(Step(s, e).manager, c) == NewsTo(s.manager, c)
  {
    hide PollTimeout, ScanTimeout, HandleResponse, TrySend, PairsInv, InOrder, WillWake, OneInFlight;
    hide MailTo, CyclesTo, NewsTo, Due, Results, SameSetting;
    match e {
      case ResponseDelivered => ResponseDelivers(s, c);
      case RetryTimerFires => RetryDelivers(s, c);
      case PollTimerFires => PollTimeoutDelivers(s, c);
      case ScanTimerFires => ScanTimeoutDelivers(s, c);
    }
  }

  // Opening, initialising and failing of the link, and its restarts.
  predicate ConcernsLink(e: Event) {
    || e.WriteFails? || e.ReadFails? || e.LinkStarted? || e.ReconnectTimerFires? || e.LinkOpens?
    || e.InitCompletes? || e.InitFails?
  }

  lemma LinkStepFollows(s: Server, e: Event)
    requires Consistent(s) && ControlInv(s) && Enabled(s, e) && ConcernsLink(e)
    ensures Follows(s, Step(s, e), e)
  {
    hide FailCommand, StartLink, OpenLink, SetStatus, TakeDown, ServerAccess.WriterConnected, Sane, Started, WentDown;
    hide ControlOf;
    match e {
      case WriteFails(timedOut) => FailFollows(s, timedOut);
      case ReadFails(timedOut) => FailFollows(s, timedOut);
      case LinkStarted => StartLinkFollows(s);
      case ReconnectTimerFires =>
        StartLinkFollows(s.(link := s.link.(reconnectPending := false)));
        TimerGone(s);
      case LinkOpens(opens) => OpenLinkFollows(s, opens);
      case InitCompletes => InitFollows(s);
      case InitFails => StatusFollows(s, InitFailed);
    }
  }

  lemma TimerGone(s: Server)
    ensures ControlOf(s.(link := s.link.(reconnectPending := false))) == ControlOf(s).(reconnecting := false)
  {
  }

  lemma OpenLinkFollows(s: Server, opens: bool)
    requires s.scanner.stopped == s.poller.stopped
    ensures Follows(s, OpenLink(s, opens), LinkOpens(opens))
  {
    hide SetStatus, TakeDown, ControlOf;
    StatusFollows(s, Initializing);
    StatusFollows(s, ConnectFailed);
  }

  lemma InitFollows(s: Server)
    requires s.scanner.stopped == s.poller.stopped
    ensures Follows(s, SetStatus(s, Running), InitCompletes)
  {
    StatusFollows(s, Running);
    hide SetStatus;
  }

  // Every callback changes the control state as the small machine does.
  lemma StepFollows(s: Server, e: Event)
    requires PipelineInv(s) && PairsInv(s) && ControlInv(s) && Enabled(s, e)
    ensures Follows(s, Step(s, e), e)
  {
    hide Connect, Disconnect, Dispatch, TakeReply, HandleResponse, TrySend, PollTimeout, ScanTimeout;
    hide PairsInv, InOrder, WillWake, OneInFlight, ServerAccess.WriterConnected, Sane, Left, Asked, NewsTo;
    if ConcernsLink(e) {
      hide Step;
      LinkStepFollows(s, e);
    } else if Answers(e) {
      hide Step;
      AnsweringKeeps(s, e, 0);
      KeptFollows(s, Step(s, e), e);
    } else {
      match e {
        case ClientConnects(c) => ConnectFollows(s, c);
        case ClientDisconnects(c) => DisconnectFollows(s, c);
        case ClientRequests(c, request) => DispatchFollows(s, c, request);
        case WriteCompletes =>
        case ReplyArrives(lines) => ReplyFollows(s, lines);
      }
    }
  }

  lemma KeptFollows(s: Server, t: Server, e: Event)
    requires ControlInv(s) && SameSetting(s, t) && Answers(e)
    ensures Follows(s, t, e)
  {
    hide CycleGoesOn;
  }

  lemma ReplyFollows(s: Server, lines: seq<ReplyParser.Line>)
    requires Consistent(s) && Enabled(s, ReplyArrives(lines))
    ensures ControlOf(Step(s, ReplyArrives(lines))) == ControlOf(s)
  {
    hide ReplyParser.Respond;
  }

  ghost predicate ServerInv(s: Server) {
    PairsInv(s) && ControlInv(s)
  }

  lemma StepKeepsControl(s: Server, e: Event)
    requires PipelineInv(s) && ServerInv(s) && Fair(s, 0) && ServerAccess.AccessInv(s.manager)
    ensures ServerInv(Step(s, e)) && Fair(Step(s, e), 0) && ServerAccess.AccessInv(Step(s, e).manager)
  {
    hide Step, PipelineInv, PairsInv, Fair, ServerAccess.Informed, ServerAccess.WriterConnected, Sane, Next;
    StepSettles(s, e, 0);
    ServerAccess.StepKeepsAccess(s, e);
    if Enabled(s, e) {
      StepFollows(s, e);
      NextIsSane(ControlOf(s), e);
    } else {
      Disabled(s, e);
    }
  }

  lemma {:induction false} RunKeepsControl(s: Server, events: seq<Event>)
    requires PipelineInv(s) && ServerInv(s) && Fair(s, 0) && ServerAccess.AccessInv(s.manager)
    ensures ServerInv(Run(s, events))
    decreases |events|
  {
    hide Step, OneInFlight, InOrder, WillWake, ServerInv, Fair, ServerAccess.AccessInv;
    if events == [] {
    } else {
      StepKeeps(s, events[0]);
      StepKeepsControl(s, events[0]);
      RunKeepsControl(Step(s, events[0]), events[1..]);
    }
  }

  lemma InitialControl(enumerate: (nat, set<Item>) -> seq<Item>)
    ensures PipelineInv(Initial(enumerate)) && ServerInv(Initial(enumerate)) && Fair(Initial(enumerate), 0)
    ensures ServerAccess.AccessInv(Initial(enumerate).manager)
  {
    hide OneInFlight, InOrder, WillWake, Paired, SetJustFailed, Settled, Requests, Sane;
    hide ServerAccess.Told, ServerAccess.WriterConnected;
    InitialReplies(enumerate);
    InitialControlInv(enumerate);
  }

  lemma InitialControlInv(enumerate: (nat, set<Item>) -> seq<Item>)
    ensures ControlInv(Initial(enumerate))
  {
  }

  // In every run: both pollers run or neither does, and only while someone is
  // connected; they do run while someone is connected to a link that is running
  // and not silenced; a link that could not be opened or initialised will be
  // tried again; the writer is a connected client, while there are any.
  lemma RunIsSane(enumerate: (nat, set<Item>) -> seq<Item>, events: seq<Event>)
    ensures PipelineInv(Initial(enumerate))
    ensures var s := Run(Initial(enumerate), events);
            && s.scanner.stopped == s.poller.stopped
            && (!s.poller.stopped ==> s.manager.connections != {})
            && (s.link.status == Running && s.manager.connections != {} && !s.link.silenced ==> !s.poller.stopped)
            && (s.link.status in {ConnectFailed, InitFailed} ==> s.link.reconnectPending)
            && (s.manager.connections != {} && s.manager.writer.Some? ==>
                  s.manager.writer.value in s.manager.connections)
            && (s.halted ==> s.manager.connections == {} && s.manager.writer == None)
  {
    hide Run, OneInFlight, InOrder, WillWake, PairsInv, Fair, ServerAccess.AccessInv, ServerAccess.WriterConnected;
    InitialControl(enumerate);
    RunKeepsControl(Initial(enumerate), events);
  }

  // ----- What the clients know -----

  lemma StatusTells(s: Server, status: Status, c: Client)
    ensures var n := NewsTo(s.manager, c);
            var m := if c in s.manager.connections then n.(status := Some(status)) else n;
            NewsTo(SetStatus(s, status).manager, c) == m && NewsTo(TakeDown(s, status).manager, c) == m
  {
    hide NewsTo, SendTo, StartPoller, StopPoller;
    SendToMails(s.manager, s.manager.connections, NotifyMrcStatus(status), c);
  }

  lemma StatusKeepsConnections(s: Server, status: Status)
    ensures SetStatus(s, status).manager.connections == s.manager.connections
    ensures TakeDown(s, status).manager.connections == s.manager.connections
  {
    hide SetStatus;
  }

  lemma StartLinkTells(s: Server, c: Client)
    ensures var n := NewsTo(s.manager, c);
            NewsTo(StartLink(s).manager, c) ==
            if c in s.manager.connections && s.link.status in {Stopped, ConnectFailed, InitFailed} then
              n.(status := Some(Connecting))
            else
              n
  {
    hide SetStatus, TakeDown, NewsTo;
    if IsDown(s.link.status) {
      StatusTells(s, Connecting, c);
      StatusKeepsConnections(s, Connecting);
    }
  }

  lemma ConnectTells(s: Server, d: Client, c: Client)
    ensures NewsTo(Connect(s, d).manager, c) ==
            if c == d then News(Some(s.link.status), Some(s.link.silenced)) else NewsTo(s.manager, c)
  {
    hide NewsTo, Send, SetWriter;
    var m0 := s.manager.(connections := s.manager.connections + {d});
    var m1 := Send(m0, d, NotifyMrcStatus(s.link.status));
    var m2 := Send(m1, d, NotifySilenced(s.link.silenced));
    SameMail(s.manager, m0, c);
    SendMails(m0, d, NotifyMrcStatus(s.link.status), c);
    SendMails(m1, d, NotifySilenced(s.link.silenced), c);
    SetWriterMails(m2, Some(d), c);
    SendMails(m2, d, NotifyWriteAccess(false, m2.writer.None?), c);
  }

  lemma DisconnectTells(s: Server, d: Client, c: Client)
    ensures NewsTo(Disconnect(s, d).manager, c) == NewsTo(s.manager, c)
    ensures NewsTo(StopAll(s).manager, c) == NewsTo(s.manager, c)
  {
    hide SetWriter, TheOnly, LastNews;
    if |s.manager.connections| == 1 {
      SetWriterMails(s.manager, Some(TheOnly(s.manager.connections)), c);
    }
    SetWriterMails(s.manager, None, c);
    SetWriterMails(s.manager.(connections := {}), None, c);
  }

  lemma SetSilencedTells(s: Server, silenced: bool, c: Client)
    ensures NewsTo(SetSilenced(s, silenced).manager, c) ==
            if c in s.manager.connections then NewsTo(s.manager, c).(silenced := Some(silenced))
            else NewsTo(s.manager, c)
  {
    hide NewsTo, SendTo;
    SendToMails(s.manager, s.manager.connections, NotifySilenced(silenced), c);
  }

  lemma LocalTells(s: Server, d: Client, request: Request, c: Client)
    requires !request.IsMrcCommand()
    ensures NewsTo(DispatchLocal(s, d, request).manager, c) ==
            if request.ReqSetSilenced? && s.manager.writer == Some(d) && c in s.manager.connections then
              NewsTo(s.manager, c).(silenced := Some(request.silenced))
            else
              NewsTo(s.manager, c)
  {
    hide Send, SetWriter, Disconnect, StopAll, SetSilenced, NewsTo, ExpandRanges;
    SendMails(s.manager, d, RespError(PermissionDenied), c);
    SendMails(s.manager, d, RespBool(true), c);
    SendMails(s.manager, d, RespBool(false), c);
    match request {
      case ReqAcquireWriteAccess(force) =>
        SetWriterMails(s.manager, Some(d), c);
        SendMails(SetWriter(s.manager, Some(d)), d, RespBool(true), c);
      case ReqReleaseWriteAccess =>
        SetWriterMails(s.manager, None, c);
        SendMails(SetWriter(s.manager, None), d, RespBool(true), c);
      case ReqSetSilenced(silenced) =>
        SetSilencedTells(s, silenced, c);
        SendMails(SetSilenced(s, silenced).manager, d, RespBool(true), c);
      case ReqMrcStatus => SendMails(s.manager, d, RespMrcStatus(s.link.status), c);
      case ReqQuit => DisconnectTells(SendBool(s, d, true), d, c);
      case NotARequest =>
        SendMails(s.manager, d, RespError(InvalidType), c);
        DisconnectTells(SendError(s, d, InvalidType), d, c);
      case _ =>
    }
  }

  lemma DispatchTells(s: Server, d: Client, request: Request, c: Client)
    requires PipelineInv(s) && PairsInv(s)
    ensures NewsTo(Dispatch(s, d, request).manager, c) ==
            if request.ReqSetSilenced? && s.manager.writer == Some(d) && c in s.manager.connections then
              NewsTo(s.manager, c).(silenced := Some(request.silenced))
            else
              NewsTo(s.manager, c)
  {
    hide QueueRequest, DispatchLocal, Send, PipelineInv, PairsInv, NewsTo;
    var s1 := s.(manager := CountRequest(s.manager, d));
    SameMail(s.manager, s1.manager, c);
    if !request.IsMrcCommand() {
      LocalTells(s1, d, request, c);
    } else if request.IsMrcWriteCommand() && s.manager.writer != Some(d) {
      SendMails(s1.manager, d, RespError(PermissionDenied), c);
    } else {
      hide Dispatch;
      CommandDelivers(s, d, request, c);
    }
  }

  // The status of the link after a callback.
  function StatusAfter(status: Status, e: Event): Status {
    match e
    case WriteFails(_) => Stopped
    case ReadFails(_) => Stopped
    case LinkOpens(opens) => if opens then Initializing else ConnectFailed
    case InitCompletes => Running
    case InitFails => InitFailed
    case LinkStarted => StatusStarted(status)
    case ReconnectTimerFires => StatusStarted(status)
    case _ => status
  }

  function StatusStarted(status: Status): Status {
    if status in {Stopped, ConnectFailed, InitFailed} then Connecting else status
  }

  // The client that connects is told everything; the others are told of a change
  // of the status, and of silence when a writer asks for it.
  function NewsAfter(n: News, k: Control, e: Event, c: Client): News {
    match e
    case ClientConnects(d) => if c == d then News(Some(k.status), Some(k.silenced)) else n
    case ClientRequests(d, ReqSetSilenced(silenced)) =>
      if k.writer == Some(d) && c in k.connections then n.(silenced := Some(silenced)) else n
    case _ =>
      var status := StatusAfter(k.status, e);
      if c in k.connections && status != k.status then n.(status := Some(status)) else n
  }

  lemma StepTells(s: Server, e: Event, c: Client)
    requires PipelineInv(s) && PairsInv(s) && Enabled(s, e)
    requires c in s.manager.connections ==> NewsTo(s.manager, c).status == Some(s.link.status)
    ensures NewsTo(Step(s, e).manager, c) == NewsAfter(NewsTo(s.manager, c), ControlOf(s), e, c)
  {
    hide Connect, Disconnect, Dispatch, FailCommand, TakeReply, HandleResponse, TrySend, PollTimeout, ScanTimeout;
    hide StartLink, SetStatus, TakeDown, PairsInv, InOrder, WillWake, OneInFlight, NewsTo;
    match e {
      case ClientConnects(d) => ConnectTells(s, d, c);
      case ClientDisconnects(d) => DisconnectTells(s, d, c);
      case ClientRequests(d, request) => DispatchTells(s, d, request, c);
      case WriteCompletes =>
      case ReplyArrives(lines) =>
      case WriteFails(timedOut) => FailTells(s, timedOut, c);
      case ReadFails(timedOut) => FailTells(s, timedOut, c);
      case ResponseDelivered => AnsweringKeeps(s, e, c);
      case RetryTimerFires => AnsweringKeeps(s, e, c);
      case PollTimerFires => AnsweringKeeps(s, e, c);
      case ScanTimerFires => AnsweringKeeps(s, e, c);
      case LinkStarted => StartLinkTells(s, c);
      case ReconnectTimerFires => StartLinkTells(s.(link := s.link.(reconnectPending := false)), c);
      case LinkOpens(opens) =>
        StatusTells(s, Initializing, c);
        StatusTells(s, ConnectFailed, c);
      case InitCompletes => StatusTells(s, Running, c);
      case InitFails => StatusTells(s, InitFailed, c);
    }
  }

  lemma FailTells(s: Server, timedOut: bool, c: Client)
    requires s.link.current.Some?
    ensures var n := NewsTo(s.manager, c);
            NewsTo(FailCommand(s, timedOut).manager, c) ==
            if c in s.manager.connections then n.(status := Some(Stopped)) else n
  {
    hide TakeDown, NewsTo;
    StatusTells(s.(link := PostResponse(s.link, RespError(if timedOut then ComTimeout else ComError))), Stopped, c);
  }

  // A connected client knows the status of the link, and that it is silenced if
  // it is.
  ghost predicate Knows(s: Server, c: Client) {
    c in s.manager.connections ==>
      var n := NewsTo(s.manager, c);
      n.status == Some(s.link.status) && n.silenced.Some? && (s.link.silenced ==> n.silenced == Some(true))
  }

  // It was told that the server is silenced, and it is no longer.
  ghost predicate Misled(s: Server, c: Client) {
    c in s.manager.connections && NewsTo(s.manager, c).silenced != Some(s.link.silenced)
  }

  // A client is misled exactly by a restart of the link while it is silenced, and
  // until a writer asks for silence or its end.
  lemma MisledExactly(s: Server, e: Event, c: Client)
    requires PipelineInv(s) && ServerInv(s) && Knows(s, c) && Enabled(s, e)
    ensures Knows(Step(s, e), c)
    ensures var restarts := e.LinkStarted? || e.ReconnectTimerFires?;
            var asked := e.ClientRequests? && e.request.ReqSetSilenced? && s.manager.writer == Some(e.client);
            Misled(Step(s, e), c) <==>
              && c in s.manager.connections && c in Step(s, e).manager.connections && !asked
              && (Misled(s, c)
                  || (restarts && s.link.silenced && s.link.status in {Stopped, ConnectFailed, InitFailed}))
  {
    hide Step, PipelineInv, PairsInv, NewsTo, NewsAfter, Next, Sane, ServerAccess.WriterConnected;
    StepFollows(s, e);
    StepTells(s, e, c);
    if e.ClientConnects? {
      NotYetConnected(s, e.client);
    }
    NewsStays(NewsTo(s.manager, c), ControlOf(s), e, c);
  }

  // The same in terms of the control state.
  lemma NewsStays(n: News, k: Control, e: Event, c: Client)
    requires e.ClientConnects? ==> e.client !in k.connections
    requires c in k.connections ==>
               n.status == Some(k.status) && n.silenced.Some? && (k.silenced ==> n.silenced == Some(true))
    ensures var l, m := Next(k, e), NewsAfter(n, k, e, c);
            c in l.connections ==>
              && m.status == Some(l.status) && m.silenced.Some? && (l.silenced ==> m.silenced == Some(true))
              && (m.silenced != Some(l.silenced) <==>
                    && c in k.connections
                    && !(e.ClientRequests? && e.request.ReqSetSilenced? && k.writer == Some(e.client))
                    && (n.silenced != Some(k.silenced)
                        || ((e.LinkStarted? || e.ReconnectTimerFires?)
                            && k.silenced && k.status in {Stopped, ConnectFailed, InitFailed})))
  {
    hide Left, Asked;
    match e {
      case ClientDisconnects(d) => LeftKeepsLink(k, d);
      case ClientRequests(d, request) => AskedKeepsLink(k, d, request);
      case _ =>
    }
  }

  lemma LeftKeepsLink(k: Control, c: Client)
    ensures Left(k, c).status == k.status && Left(k, c).silenced == k.silenced
    ensures Left(k, c).connections == k.connections - {c}
  {
  }

  lemma AskedKeepsLink(k: Control, c: Client, request: Request)
    ensures var l := Asked(k, c, request);
            && l.status == k.status && l.connections <= k.connections
            && l.silenced == if request.ReqSetSilenced? && k.writer == Some(c) then request.silenced else k.silenced
  {
  }

  lemma NotYetConnected(s: Server, c: Client)
    requires ServerAccess.WriterConnected(s.manager) && c !in s.manager.outbox
    ensures c !in s.manager.connections
  {
  }

  lemma {:induction false} RunKnows(s: Server, events: seq<Event>, c: Client)
    requires PipelineInv(s) && ServerInv(s) && Fair(s, 0) && ServerAccess.AccessInv(s.manager) && Knows(s, c)
    ensures Knows(Run(s, events), c)
    decreases |events|
  {
    hide Step, OneInFlight, InOrder, WillWake, ServerInv, Fair, ServerAccess.AccessInv, Knows;
    if events == [] {
    } else {
      StepKeeps(s, events[0]);
      StepKeepsControl(s, events[0]);
      if Enabled(s, events[0]) {
        MisledExactly(s, events[0], c);
      } else {
        Disabled(s, events[0]);
      }
      RunKnows(Step(s, events[0]), events[1..], c);
    }
  }

  // In every run every connected client was last told the status the link has,
  // and if the link is silenced it was last told so.
  lemma ClientsKnowTheLink(enumerate: (nat, set<Item>) -> seq<Item>, events: seq<Event>, c: Client)
    ensures PipelineInv(Initial(enumerate))
    ensures var s := Run(Initial(enumerate), events);
            c in s.manager.connections ==>
              && LastNews(Outbox(s.manager, c)).status == Some(s.link.status)
              && (s.link.silenced ==> LastNews(Outbox(s.manager, c)).silenced == Some(true))
  {
    hide Run, OneInFlight, InOrder, WillWake, ServerInv, Fair, ServerAccess.AccessInv, LastNews;
    InitialControl(enumerate);
    RunKnows(Initial(enumerate), events, c);
  }
}
