/** The server as a state machine over values: the link to the MRC, the request
    queue in front of it, the connection manager and the two pollers. One step
    is one callback of the event loop. The classes in Server.dfy are proved to
    make exactly these steps. */
module ServerModel {
  import opened Messages
  import ReplyParser

  // ----- State -----

  // What the link is doing with its current command. A starved link has run
  // out of reply lines before the parser had enough of them.
  datatype Phase = Idle | Writing | Reading | Starved

  // A response handed to the event loop, to be delivered in a later step.
  datatype Posted = Posted(request: Request, response: Message)

  datatype Link = Link(
    status: Status,
    silenced: bool,
    current: Option<Request>,
    phase: Phase,
    posted: seq<Posted>,
    reconnectPending: bool
  )

  // The callbacks bound to a queued request.
  datatype Handler =
    | ForClient(client: Client)
    | SetDone(client: Client)
    | ReadAfterSet(client: Client)
    | PollRead
    | ScanRead

  datatype Entry = Entry(request: Request, handler: Handler)

  // A call of an entry's handler.
  datatype Answer = Answer(entry: Entry, request: Request, response: Message)

  // 'enqueued' and 'answered' record the whole history.
  datatype Queue = Queue(
    entries: seq<Entry>,
    inProgress: bool,
    retriesPending: nat,
    enqueued: seq<Entry>,
    answered: seq<Answer>
  )

  // 'outbox' holds every message ever given to a connection, 'dispatched' the
  // number of requests each client ever made.
  datatype Manager = Manager(
    connections: set<Client>,
    writer: Option<Client>,
    skipRead: bool,
    outbox: map<Client, seq<Message>>,
    dispatched: map<Client, nat>
  )

  // What a poll cycle delivered. The other fields are history: how many answers
  // the queue had handed out when the cycle began and when it was complete, and
  // whether the epoch began with no poll read outstanding.
  datatype Publication = Publication(
    items: set<Item>,
    order: seq<Item>,
    result: map<Item, int>,
    since: nat,
    upto: nat,
    clean: bool
  )

  // A poll cycle: the poll set, the order in which it is visited, the position
  // of the iterator, and what has been read. The last field is history: how many
  // answers the queue had handed out when the cycle began.
  datatype Cycle = Cycle(
    items: set<Item>,
    order: seq<Item>,
    pos: nat,
    result: map<Item, int>,
    since: nat
  ) {
    predicate AtEnd() {
      pos >= |order|
    }
  }

  // The order of the n-th cycle is what 'enumerate' gives for its poll set. The
  // fields from 'begun' on are history: whether a cycle was begun since the
  // last start, whether this epoch began with no poll read outstanding, whether
  // all epochs did, whether an end iterator was ever advanced, and the deliveries.
  datatype Poller = Poller(
    enumerate: (nat, set<Item>) -> seq<Item>,
    subscriptions: map<Client, seq<Item>>,
    cycle: Cycle,
    cycles: nat,
    stopped: bool,
    timer: bool,
    begun: bool,
    clean: bool,
    alwaysClean: bool,
    undefinedBehaviour: bool,
    published: seq<Publication>
  )

  datatype Scanner = Scanner(stopped: bool, timer: bool)

  datatype Server = Server(
    link: Link,
    queue: Queue,
    manager: Manager,
    poller: Poller,
    scanner: Scanner,
    halted: bool
  )

  function Initial(enumerate: (nat, set<Item>) -> seq<Item>): Server {
    Server(
      Link(Stopped, false, None, Idle, [], false),
      Queue([], false, 0, [], []),
      Manager({}, None, false, map[], map[]),
      Poller(enumerate, map[], Cycle({}, [], 0, map[], 0), 0, true, false, false, true, true, false, []),
      Scanner(true, false),
      false)
  }

  // ----- Messages to the clients -----

  function Outbox(m: Manager, c: Client): seq<Message> {
    if c in m.outbox then m.outbox[c] else []
  }

  function Send(m: Manager, c: Client, msg: Message): (n: Manager)
    ensures n == m.(outbox := n.outbox)
  {
    m.(outbox := m.outbox[c := Outbox(m, c) + [msg]])
  }

  function SendTo(m: Manager, clients: set<Client>, msg: Message): (n: Manager)
    ensures n == m.(outbox := n.outbox)
  {
    m.(outbox := map c | c in m.outbox.Keys + clients ::
                   Outbox(m, c) + (if c in clients then [msg] else []))
  }

  function SendToAll(s: Server, msg: Message): (t: Server)
    ensures t.link == s.link && t.queue == s.queue && t.halted == s.halted
  {
    s.(manager := SendTo(s.manager, s.manager.connections, msg))
  }

  function Only(c: Option<Client>): set<Client> {
    if c.Some? then {c.value} else {}
  }

  function SetWriter(m: Manager, w: Option<Client>): (n: Manager)
    ensures n == m.(outbox := n.outbox, writer := w)
  {
    if m.writer == w then m
    else
      var m1 := if m.writer.Some? then Send(m, m.writer.value, NotifyWriteAccess(false, false)) else m;
      var m2 := m1.(writer := w);
      var m3 := if w.Some? then Send(m2, w.value, NotifyWriteAccess(true, false)) else m2;
      SendTo(m3, m3.connections - Only(w), NotifyWriteAccess(false, w.None?))
  }

  // ----- Pollers -----

  function PollReads(entries: seq<Entry>): nat {
    if entries == [] then 0
    else (if entries[0].handler.PollRead? then 1 else 0) + PollReads(entries[1..])
  }

  function AllItems(subscriptions: map<Client, seq<Item>>): set<Item> {
    set c, i | c in subscriptions && 0 <= i < |subscriptions[c]| :: subscriptions[c][i]
  }

  // A protocol range, expanded. The loop bound is a 32-bit sum.
  function RangeItems(first: Item, par: nat, limit: nat): seq<Item>
    decreases limit - par
  {
    if par >= limit then [] else [Item(first.bus, first.dev, par)] + RangeItems(first, par + 1, limit)
  }

  function ExpandRanges(ranges: seq<PollRange>): seq<Item> {
    if ranges == [] then []
    else
      var last := ranges[|ranges| - 1];
      ExpandRanges(ranges[..|ranges| - 1])
        + RangeItems(last.first, last.first.par, (last.first.par + last.count) % 0x1_0000_0000)
  }

  function StartPoller(p: Poller, outstanding: nat): Poller {
    if !p.stopped then p
    else
      p.(stopped := false, timer := true, begun := false, clean := outstanding == 0,
         alwaysClean := p.alwaysClean && outstanding == 0)
  }

  function StopPoller(p: Poller): Poller {
    if p.stopped then p else p.(stopped := true, cycle := p.cycle.(pos := |p.cycle.order|), timer := false)
  }

  function StartScanner(p: Scanner): Scanner {
    if !p.stopped then p else Scanner(false, true)
  }

  function StopScanner(p: Scanner): Scanner {
    if p.stopped then p else Scanner(true, false)
  }

  function StartPolling(s: Server): (t: Server)
    ensures t.link == s.link && t.queue == s.queue && t.halted == s.halted
  {
    s.(poller := StartPoller(s.poller, PollReads(s.queue.entries)), scanner := StartScanner(s.scanner))
  }

  function StopPolling(s: Server): (t: Server)
    ensures t.link == s.link && t.queue == s.queue && t.halted == s.halted
  {
    s.(poller := StopPoller(s.poller), scanner := StopScanner(s.scanner))
  }

  // The reading taken after a SET reaches the poller. Only an item already in
  // the result is updated.
  function NoteParameter(c: Cycle, item: Item, val: int): Cycle {
    c.(result := if item in c.result then c.result[item := val] else c.result)
  }

  function TakeReading(c: Cycle, item: Item, val: int): Cycle {
    c.(result := if item in c.result then c.result else c.result[item := val], pos := c.pos + 1)
  }

  // A new cycle, up to its first read.
  function NewCycle(p: Poller, now: nat): Poller {
    var items := AllItems(p.subscriptions);
    p.(cycle := Cycle(items, p.enumerate(p.cycles, items), 0, map[], now), cycles := p.cycles + 1, begun := true)
  }

  // While a response is being handled the queue is not empty, so that the next
  // read has to wait for the timer.
  function Postpone(p: Poller): Poller {
    if p.stopped then p else p.(timer := true)
  }

  function Publish(p: Poller, now: nat): Poller {
    var c := p.cycle;
    p.(published := p.published + [Publication(c.items, c.order, c.result, c.since, now, p.clean)])
  }

  function PollResponse(s: Server, response: Message): Server {
    if s.poller.stopped then s
    else if !response.RespRead? then s.(poller := Postpone(s.poller))
    else if s.poller.cycle.AtEnd() then s.(poller := s.poller.(undefinedBehaviour := true))
    else
      var p := s.poller.(cycle := TakeReading(s.poller.cycle, response.item, response.val));
      var now := |s.queue.answered| + 1;
      if !p.cycle.AtEnd() then s.(poller := Postpone(p))
      else SendToAll(s, NotifyPolledItems(p.cycle.result)).(poller := Postpone(NewCycle(Publish(p, now), now)))
  }

  // ----- Responses -----

  // The response_read fields of a message; zeros unless it is a read response.
  function ReadItem(m: Message): Item { if m.RespRead? then m.item else ORIGIN }
  function ReadVal(m: Message): int { if m.RespRead? then m.val else 0 }
  function ReadMirror(m: Message): bool { if m.RespRead? then m.mirror else false }

  // The answer to a SET, made from the response to the READ that follows it.
  function SetAnswer(response: Message): (m: Message)
    ensures m.RespSet? && m.item == ReadItem(response) && !m.mirror
  {
    MakeSetResponse(ReadItem(response), ReadVal(response), AsInt(ReadMirror(response)))
  }

  function ReadAfterSetResponse(s: Server, c: Client, response: Message): Server {
    if s.manager.skipRead then s.(manager := s.manager.(skipRead := false))
    else
      var item, val, mirror := ReadItem(response), ReadVal(response), ReadMirror(response);
      var m1 := Send(s.manager, c, SetAnswer(response));
      var m2 := SendTo(m1, m1.connections - {c}, SetAnswer(response).AsNotification());
      s.(manager := m2,
         poller := if mirror then s.poller
                   else s.poller.(cycle := NoteParameter(s.poller.cycle, item, val)))
  }

  function Handle(s: Server, handler: Handler, response: Message): (t: Server)
    ensures t.link == s.link && t.queue == s.queue && t.halted == s.halted
    ensures t.manager.connections == s.manager.connections && t.manager.writer == s.manager.writer
    ensures t.manager.dispatched == s.manager.dispatched
  {
    match handler
    case ForClient(c) => s.(manager := Send(s.manager, c, response))
    case SetDone(c) =>
      if response.RespError? then s.(manager := Send(s.manager, c, response).(skipRead := true)) else s
    case ReadAfterSet(c) => ReadAfterSetResponse(s, c, response)
    case PollRead => PollResponse(s, response)
    case ScanRead =>
      var s1 := if response.RespScanbus? then SendToAll(s, NotifyScanbus(response.bus, response.entries)) else s;
      s1.(scanner := s1.scanner.(timer := true))
  }

  function Pop(q: Queue, answer: Answer): Queue
    requires q.entries != []
  {
    q.(entries := q.entries[1..], inProgress := false, answered := q.answered + [answer])
  }

  // The handler of the front entry runs, then the entry is removed.
  function AnswerFront(s: Server, request: Request, response: Message): (t: Server)
    requires s.queue.entries != []
    ensures t.queue == Pop(s.queue, Answer(s.queue.entries[0], request, response))
    ensures t.link == s.link && t.halted == s.halted
    ensures t.manager.connections == s.manager.connections && t.manager.writer == s.manager.writer
    ensures t.manager.dispatched == s.manager.dispatched
  {
    var front := s.queue.entries[0];
    var t := Handle(s, front.handler, response);
    t.(queue := Pop(t.queue, Answer(front, request, response)))
  }

  function DownError(status: Status): ErrorKind {
    match status
    case ConnectFailed => ConnectError
    case InitFailed => ComError
    case Connecting => LinkConnecting
    case _ => Unknown
  }

  // Hands a command to a link that is running and has no command of its own.
  function WriteCommand(l: Link, request: Request): Link {
    if l.silenced then l.(posted := l.posted + [Posted(request, RespError(Silenced))])
    else l.(current := Some(request), phase := Writing)
  }

  // A link that is down answers everything that is queued at once.
  function TrySend(s: Server): (t: Server)
    ensures t.queue.enqueued == s.queue.enqueued && s.queue.answered <= t.queue.answered
    ensures t.halted == s.halted
    ensures t.manager.connections == s.manager.connections && t.manager.writer == s.manager.writer
    ensures t.manager.dispatched == s.manager.dispatched
    decreases |s.queue.entries|
  {
    if s.queue.entries == [] || s.queue.inProgress || s.link.current.Some? then s
    else if s.link.status == Running then
      s.(link := WriteCommand(s.link, s.queue.entries[0].request), queue := s.queue.(inProgress := true))
    else if s.link.status == Initializing then
      s.(queue := s.queue.(retriesPending := s.queue.retriesPending + 1))
    else
      TrySend(AnswerFront(s, s.queue.entries[0].request, RespError(DownError(s.link.status))))
  }

  function Append(s: Server, request: Request, handler: Handler): Server {
    var e := Entry(request, handler);
    s.(queue := s.queue.(entries := s.queue.entries + [e], enqueued := s.queue.enqueued + [e]))
  }

  function QueueRequest(s: Server, request: Request, handler: Handler): (t: Server)
    ensures t.queue.enqueued == s.queue.enqueued + [Entry(request, handler)]
    ensures s.queue.answered <= t.queue.answered
    ensures t.halted == s.halted
    ensures t.manager.connections == s.manager.connections && t.manager.writer == s.manager.writer
    ensures t.manager.dispatched == s.manager.dispatched
  {
    TrySend(Append(s, request, handler))
  }

  function HandleResponse(s: Server, request: Request, response: Message): Server
    requires s.queue.entries != []
  {
    TrySend(AnswerFront(s, request, response))
  }

  // ----- The link -----

  function SetStatus(s: Server, status: Status): (t: Server)
    ensures t.link == s.link.(status := status) && t.queue == s.queue && t.halted == s.halted
    ensures t.manager == s.manager.(outbox := t.manager.outbox)
  {
    var s1 := SendToAll(s.(link := s.link.(status := status)), NotifyMrcStatus(status));
    if status == Running && s1.manager.connections != {} then StartPolling(s1) else StopPolling(s1)
  }

  // stop() followed by reconnect_if_enabled(); reconnecting is enabled.
  function TakeDown(s: Server, status: Status): Server {
    var s1 := SetStatus(s.(link := s.link.(reconnectPending := false)), status);
    s1.(link := s1.link.(reconnectPending := true))
  }

  predicate IsDown(status: Status) {
    status == Stopped || status == ConnectFailed || status == InitFailed
  }

  // start(), which begins to open the device.
  function StartLink(s: Server): Server {
    if !IsDown(s.link.status) then s
    else
      var s1 := SetStatus(s, Connecting);
      s1.(link := s1.link.(current := None, phase := Idle, silenced := false))
  }

  // handle_start(): it could be opened, or not.
  function OpenLink(s: Server, opens: bool): Server {
    if opens then SetStatus(s, Initializing) else TakeDown(s, ConnectFailed)
  }

  // The current command is answered later, and the link is free again.
  function PostResponse(l: Link, response: Message): Link
    requires l.current.Some?
  {
    l.(posted := l.posted + [Posted(l.current.value, response)], current := None, phase := Idle)
  }

  // A read or write failed.
  function FailCommand(s: Server, timedOut: bool): Server
    requires s.link.current.Some?
  {
    TakeDown(
      s.(link := PostResponse(s.link, RespError(if timedOut then ComTimeout else ComError))),
      Stopped)
  }

  function TakeReply(l: Link, lines: seq<ReplyParser.Line>): Link
    requires l.current.Some?
  {
    var response := ReplyParser.Respond(l.current.value, lines);
    if response.Some? then PostResponse(l, response.value) else l.(phase := Starved)
  }

  // ----- Clients -----

  function Connect(s: Server, c: Client): (t: Server)
    ensures t.link == s.link && t.queue == s.queue && t.halted == s.halted
    ensures t.manager.skipRead == s.manager.skipRead && t.manager.dispatched == s.manager.dispatched
  {
    var m0 := s.manager.(connections := s.manager.connections + {c});
    var m1 := Send(m0, c, NotifyMrcStatus(s.link.status));
    var m2 := Send(m1, c, NotifySilenced(s.link.silenced));
    if |m2.connections| == 1 then StartPolling(s.(manager := SetWriter(m2, Some(c))))
    else s.(manager := Send(m2, c, NotifyWriteAccess(false, m2.writer.None?)))
  }

  // The last connection is tested for before c is taken out of the set.
  function Disconnect(s: Server, c: Client): (t: Server)
    ensures t.link == s.link && t.queue == s.queue && t.halted == s.halted
    ensures t.manager.skipRead == s.manager.skipRead && t.manager.dispatched == s.manager.dispatched
  {
    var m1 :=
      if s.manager.writer != Some(c) then s.manager
      else if |s.manager.connections| == 1 then SetWriter(s.manager, Some(TheOnly(s.manager.connections)))
      else SetWriter(s.manager, None);
    var s1 := s.(
      manager := m1.(connections := m1.connections - {c}),
      poller := s.poller.(subscriptions := s.poller.subscriptions - {c}));
    if s1.manager.connections == {} then StopPolling(s1) else s1
  }

  // *begin() of a set with one element.
  function TheOnly(clients: set<Client>): Client
    requires |clients| == 1
  {
    SingleElement(clients);
    var c :| c in clients;
    c
  }

  lemma SingleElement(clients: set<Client>)
    requires |clients| == 1
    ensures exists c :: c in clients
    ensures forall c, d | c in clients && d in clients :: c == d
  {
    var c :| c in clients;
    assert |clients - {c}| == 0;
  }

  function StopAll(s: Server): (t: Server)
    ensures t.link == s.link && t.queue == s.queue && t.halted == s.halted
    ensures t.manager.skipRead == s.manager.skipRead && t.manager.dispatched == s.manager.dispatched
  {
    var subscriptions := s.poller.subscriptions - s.manager.connections;
    StopPolling(s.(
      manager := SetWriter(s.manager.(connections := {}), None),
      poller := s.poller.(subscriptions := subscriptions)))
  }

  function SendBool(s: Server, c: Client, b: bool): Server {
    s.(manager := Send(s.manager, c, RespBool(b)))
  }

  function SendError(s: Server, c: Client, kind: ErrorKind): Server {
    s.(manager := Send(s.manager, c, RespError(kind)))
  }

  function DispatchCommand(s: Server, c: Client, request: Request): Server {
    if request.IsMrcWriteCommand() && s.manager.writer != Some(c) then SendError(s, c, PermissionDenied)
    else if request.ReqSet? then
      var s1 := QueueRequest(s, request, SetDone(c));
      QueueRequest(s1, ReqRead(Truncate(request.item), request.mirror), ReadAfterSet(c))
    else QueueRequest(s, request, ForClient(c))
  }

  function SetSilenced(s: Server, silenced: bool): (t: Server)
    ensures t.link == s.link.(silenced := silenced) && t.queue == s.queue && t.halted == s.halted
    ensures t.manager == s.manager.(outbox := t.manager.outbox)
  {
    var s1 := SendToAll(s.(link := s.link.(silenced := silenced)), NotifySilenced(silenced));
    if silenced then StopPolling(s1) else StartPolling(s1)
  }

  function DispatchLocal(s: Server, c: Client, request: Request): Server {
    var isWriter := s.manager.writer == Some(c);
    match request
    case ReqHasWriteAccess => SendBool(s, c, isWriter)
    case ReqAcquireWriteAccess(force) =>
      var canAcquire := s.manager.writer.None? || force;
      SendBool(if canAcquire then s.(manager := SetWriter(s.manager, Some(c))) else s, c, canAcquire)
    case ReqReleaseWriteAccess =>
      SendBool(if isWriter then s.(manager := SetWriter(s.manager, None)) else s, c, isWriter)
    case ReqIsSilenced => SendBool(s, c, s.link.silenced)
    case ReqSetSilenced(silenced) =>
      SendBool(if isWriter then SetSilenced(s, silenced) else s, c, isWriter)
    case ReqMrcStatus => s.(manager := Send(s.manager, c, RespMrcStatus(s.link.status)))
    case ReqSetPollItems(ranges) =>
      var subscriptions := s.poller.subscriptions[c := ExpandRanges(ranges)];
      SendBool(s.(poller := s.poller.(subscriptions := subscriptions)), c, true)
    case ReqQuit =>
      if isWriter then StopAll(SendBool(s, c, true)).(halted := true) else SendError(s, c, PermissionDenied)
    case _ => Disconnect(SendError(s, c, InvalidType), c)
  }

  function Requests(m: Manager, c: Client): nat {
    if c in m.dispatched then m.dispatched[c] else 0
  }

  function CountRequest(m: Manager, c: Client): Manager {
    m.(dispatched := m.dispatched[c := Requests(m, c) + 1])
  }

  function Dispatch(s: Server, c: Client, request: Request): Server {
    var s1 := s.(manager := CountRequest(s.manager, c));
    if request.IsMrcCommand() then DispatchCommand(s1, c, request) else DispatchLocal(s1, c, request)
  }

  // ----- Timers -----

  function PollNext(s: Server): Server {
    var c := s.poller.cycle;
    if s.poller.stopped then s
    else if !c.AtEnd() && s.queue.entries == [] then
      QueueRequest(s, ReqRead(Truncate(c.order[c.pos]), false), PollRead)
    else s.(poller := Postpone(s.poller))
  }

  function PollTimeout(s: Server): Server {
    var s1 := s.(poller := s.poller.(timer := false));
    if !s1.poller.cycle.AtEnd() then PollNext(s1)
    else if s1.poller.stopped then s1
    else PollNext(s1.(poller := NewCycle(s1.poller, |s1.queue.answered|)))
  }

  function ScanTimeout(s: Server): Server {
    QueueRequest(
      QueueRequest(s.(scanner := s.scanner.(timer := false)), ReqScanbus(0), ScanRead),
      ReqScanbus(1), ScanRead)
  }

  // ----- Steps -----

  datatype Event =
    | ClientConnects(client: Client)
    | ClientDisconnects(client: Client)
    | ClientRequests(client: Client, request: Request)
    | WriteCompletes
    | WriteFails(timedOut: bool)
    | ReplyArrives(lines: seq<ReplyParser.Line>)
    | ReadFails(timedOut: bool)
    | ResponseDelivered
    | RetryTimerFires
    | PollTimerFires
    | ScanTimerFires
    | LinkStarted
    | ReconnectTimerFires
    | LinkOpens(opens: bool)
    | InitCompletes
    | InitFails

  // Which callbacks can run. A connection object is connected once, and
  // requests arrive on connections that have not been stopped.
  predicate Enabled(s: Server, e: Event) {
    && !s.halted
    && match e
       case ClientConnects(c) => c !in s.manager.outbox && c !in s.manager.dispatched
       case ClientDisconnects(c) => c in s.manager.outbox
       case ClientRequests(c, _) => c in s.manager.connections
       case WriteCompletes => s.link.phase == Writing
       case WriteFails(_) => s.link.phase == Writing
       case ReplyArrives(_) => s.link.phase == Reading
       case ReadFails(_) => s.link.phase == Reading
       case ResponseDelivered => s.link.posted != []
       case RetryTimerFires => s.queue.retriesPending > 0
       case PollTimerFires => s.poller.timer
       case ScanTimerFires => s.scanner.timer
       case LinkStarted => true
       case ReconnectTimerFires => s.link.reconnectPending
       case LinkOpens(_) => s.link.status == Connecting
       case InitCompletes => s.link.status == Initializing
       case InitFails => s.link.status == Initializing
  }

  // The link has a command exactly while it is writing, reading or starved,
  // and only the front of the queue can be waiting for a posted response.
  predicate Consistent(s: Server) {
    (s.link.current.Some? <==> s.link.phase != Idle) && (s.link.posted != [] ==> s.queue.entries != [])
  }

  function Step(s: Server, e: Event): Server
    requires Consistent(s)
  {
    if !Enabled(s, e) then s
    else match e
      case ClientConnects(c) => Connect(s, c)
      case ClientDisconnects(c) => Disconnect(s, c)
      case ClientRequests(c, request) => Dispatch(s, c, request)
      case WriteCompletes => s.(link := s.link.(phase := Reading))
      case WriteFails(timedOut) => FailCommand(s, timedOut)
      case ReplyArrives(lines) => s.(link := TakeReply(s.link, lines))
      case ReadFails(timedOut) => FailCommand(s, timedOut)
      case ResponseDelivered =>
        var p := s.link.posted[0];
        HandleResponse(s.(link := s.link.(posted := s.link.posted[1..])), p.request, p.response)
      case RetryTimerFires =>
        TrySend(s.(queue := s.queue.(retriesPending := s.queue.retriesPending - 1)))
      case PollTimerFires => PollTimeout(s)
      case ScanTimerFires => ScanTimeout(s)
      case LinkStarted => StartLink(s)
      case ReconnectTimerFires => StartLink(s.(link := s.link.(reconnectPending := false)))
      case LinkOpens(opens) => OpenLink(s, opens)
      case InitCompletes => SetStatus(s, Running)
      case InitFails => TakeDown(s, InitFailed)
  }
}
