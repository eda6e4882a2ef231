/** The server's objects. Each method is proved to make the corresponding move
    of the state machine in ServerModel.dfy, whose properties are proved in the
    Server*.dfy files. The callbacks that the original binds to the connection
    manager are handed the manager they are bound to. */
module Server {
  import opened Messages
  import ReplyParser
  import M = ServerModel

  type Handler = M.Handler
  type Entry = M.Entry

  class MRC1Connection {
    const parser: ReplyParser.MRC1ReplyParser
    var status: Status
    var silenced: bool
    var currentCommand: Option<Request>
    var phase: M.Phase
    var posted: seq<M.Posted>
    var reconnectPending: bool

    constructor ()
      ensures View() == M.Link(Stopped, false, None, M.Idle, [], false) && ParserReady() && fresh(parser)
    {
      parser := new ReplyParser.MRC1ReplyParser();
      status := Stopped;
      silenced := false;
      currentCommand := None;
      phase := M.Idle;
      posted := [];
      reconnectPending := false;
    }

    ghost function View(): M.Link
      reads this
    {
      M.Link(status, silenced, currentCommand, phase, posted, reconnectPending)
    }

    // Until its reply arrives, the parser is set up for the current command.
    ghost predicate ParserReady()
      reads this, parser
    {
      && (currentCommand.Some? <==> phase != M.Idle)
      && (phase == M.Writing || phase == M.Reading ==>
            parser.request == currentCommand.value && parser.View() == ReplyParser.FRESH)
    }

    method SetStatus(m: TCPConnectionManager, newStatus: Status)
      requires m.queue.connection == this
      modifies m.Objects()
      ensures old(ParserReady()) ==> ParserReady()
      ensures m.View() == M.SetStatus(old(m.View()), newStatus)
    {
      status := newStatus;
      m.HandleMrc1StatusChange(newStatus);
    }

    // stop() followed by reconnect_if_enabled().
    method TakeDown(m: TCPConnectionManager, newStatus: Status)
      requires m.queue.connection == this
      modifies m.Objects()
      ensures old(ParserReady()) ==> ParserReady()
      ensures m.View() == M.TakeDown(old(m.View()), newStatus)
    {
      reconnectPending := false;
      SetStatus(m, newStatus);
      reconnectPending := true;
    }

    method Start(m: TCPConnectionManager)
      requires m.queue.connection == this
      modifies m.Objects()
      ensures old(ParserReady()) ==> ParserReady()
      ensures m.View() == M.StartLink(old(m.View()))
    {
      hide M.SetStatus;
      if status != Stopped && status != ConnectFailed && status != InitFailed {
        return;
      }
      SetStatus(m, Connecting);
      FreeCommand(m);
    }

    method HandleStart(m: TCPConnectionManager, opens: bool)
      requires m.queue.connection == this
      modifies m.Objects()
      ensures old(ParserReady()) ==> ParserReady()
      ensures m.View() == M.OpenLink(old(m.View()), opens)
    {
      hide M.SetStatus, M.TakeDown;
      if opens {
        SetStatus(m, Initializing);
      } else {
        TakeDown(m, ConnectFailed);
      }
    }

    // What start() resets.
    method FreeCommand(m: TCPConnectionManager)
      requires m.queue.connection == this
      modifies this
      ensures old(ParserReady()) ==> ParserReady()
      ensures var s := old(m.View());
              m.View() == s.(link := s.link.(current := None, phase := M.Idle, silenced := false))
    {
      currentCommand := None;
      phase := M.Idle;
      silenced := false;
    }

    method HandleReconnectTimer(m: TCPConnectionManager)
      requires m.queue.connection == this && reconnectPending
      modifies m.Objects()
      ensures old(ParserReady()) ==> ParserReady()
      ensures var s := old(m.View());
              m.View() == M.StartLink(s.(link := s.link.(reconnectPending := false)))
    {
      reconnectPending := false;
      Start(m);
    }

    method HandleInit(m: TCPConnectionManager, ok: bool)
      requires m.queue.connection == this
      modifies m.Objects()
      ensures old(ParserReady()) ==> ParserReady()
      ensures m.View() == if ok then M.SetStatus(old(m.View()), Running) else M.TakeDown(old(m.View()), InitFailed)
    {
      if ok {
        SetStatus(m, Running);
      } else {
        TakeDown(m, InitFailed);
      }
    }

    // The command is accepted exactly if the link is running and free.
    method WriteCommand(command: Request) returns (accepted: bool)
      requires ParserReady()
      modifies this, parser
      ensures ParserReady()
      ensures accepted == old(status == Running && currentCommand.None?)
      ensures View() == if accepted then M.WriteCommand(old(View()), command) else old(View())
    {
      if status != Running {
        return false;
      }
      if currentCommand.Some? {
        return false;
      }
      if silenced {
        posted := posted + [M.Posted(command, RespError(Silenced))];
        return true;
      }
      currentCommand := Some(command);
      phase := M.Writing;
      parser.SetCurrentRequest(command);
      return true;
    }

    method FailCommand(m: TCPConnectionManager, timedOut: bool)
      requires m.queue.connection == this && currentCommand.Some?
      modifies m.Objects()
      ensures old(ParserReady()) ==> ParserReady()
      ensures m.View() == M.FailCommand(old(m.View()), timedOut)
    {
      var response := RespError(if timedOut then ComTimeout else ComError);
      posted := posted + [M.Posted(currentCommand.value, response)];
      currentCommand := None;
      phase := M.Idle;
      TakeDown(m, Stopped);
    }

    method HandleWriteCommand()
      requires phase == M.Writing && ParserReady()
      modifies this
      ensures ParserReady() && View() == old(View()).(phase := M.Reading)
    {
      phase := M.Reading;
    }

    // Lines are parsed until one of them completes the response.
    method HandleCommandResponseRead(lines: seq<ReplyParser.Line>)
      requires phase == M.Reading && ParserReady()
      modifies this, parser
      ensures ParserReady() && View() == M.TakeReply(old(View()), lines)
    {
      phase := M.Starved;
      ghost var r := ReplyParser.FeedAll(parser.request, ReplyParser.FRESH, lines);
      ghost var request := parser.request;
      for i := 0 to |lines|
        invariant parser.request == request && phase == M.Starved
        invariant View() == old(View()).(phase := M.Starved)
        invariant var q := ReplyParser.FeedAll(request, parser.View(), lines[i..]);
                  q.0 == r.0 && (q.1.Some? <==> r.1.Some?)
      {
        var done := parser.ParseLine(lines[i]);
        assert lines[i..][0] == lines[i] && lines[i..][1..] == lines[i + 1..];
        if done {
          ReplyParser.RespondAnswers(request, lines);
          ReplyParser.FeedAllIsSound(request, ReplyParser.FRESH, lines);
          posted := posted + [M.Posted(currentCommand.value, parser.response.value)];
          currentCommand := None;
          phase := M.Idle;
          return;
        }
      }
    }
  }

  class MRC1RequestQueue {
    const connection: MRC1Connection
    var entries: seq<Entry>
    var commandInProgress: bool
    var retriesPending: nat
    ghost var enqueued: seq<Entry>
    ghost var answered: seq<M.Answer>

    constructor (connection: MRC1Connection)
      ensures this.connection == connection && View() == M.Queue([], false, 0, [], [])
    {
      this.connection := connection;
      entries, commandInProgress, retriesPending := [], false, 0;
      enqueued, answered := [], [];
    }

    ghost function View(): M.Queue
      reads this
    {
      M.Queue(entries, commandInProgress, retriesPending, enqueued, answered)
    }

    method QueueRequest(m: TCPConnectionManager, request: Request, handler: Handler)
      requires m.queue == this && m.queue.connection.ParserReady()
      modifies m.Objects()
      ensures m.queue.connection.ParserReady() && m.View() == M.QueueRequest(old(m.View()), request, handler)
      decreases |entries| + 1, 7
    {
      var e := M.Entry(request, handler);
      entries := entries + [e];
      enqueued := enqueued + [e];
      assert m.View() == M.Append(old(m.View()), request, handler);
      TrySendMrc1Request(m);
    }

    method TrySendMrc1Request(m: TCPConnectionManager)
      requires m.queue == this && m.queue.connection.ParserReady()
      modifies m.Objects()
      ensures m.queue.connection.ParserReady() && m.View() == M.TrySend(old(m.View()))
      decreases |entries|, 6
    {
      if entries == [] {
        return;
      }
      if commandInProgress {
        return;
      }
      if connection.currentCommand.Some? {
        return;
      }
      if connection.status != Running {
        if connection.status == Initializing {
          retriesPending := retriesPending + 1;
          return;
        }
        HandleMrc1Response(m, entries[0].request, RespError(M.DownError(connection.status)));
      } else {
        var accepted := connection.WriteCommand(entries[0].request);
        assert accepted;
        commandInProgress := true;
      }
    }

    method HandleRetryTimer(m: TCPConnectionManager)
      requires m.queue == this && m.queue.connection.ParserReady() && retriesPending > 0
      modifies m.Objects()
      ensures m.queue.connection.ParserReady()
      ensures var s := old(m.View());
              m.View() == M.TrySend(s.(queue := s.queue.(retriesPending := s.queue.retriesPending - 1)))
    {
      retriesPending := retriesPending - 1;
      TrySendMrc1Request(m);
    }

    // The event loop calls the handler of the first posted response.
    method HandlePostedResponse(m: TCPConnectionManager)
      requires m.queue == this && m.queue.connection.ParserReady() && entries != [] && connection.posted != []
      modifies m.Objects()
      ensures m.queue.connection.ParserReady()
      ensures var s := old(m.View());
              m.View() == M.HandleResponse(s.(link := s.link.(posted := s.link.posted[1..])),
                                           s.link.posted[0].request, s.link.posted[0].response)
    {
      hide M.HandleResponse;
      var p := connection.posted[0];
      connection.posted := connection.posted[1..];
      HandleMrc1Response(m, p.request, p.response);
    }

    // The front entry stays in the queue while its handler runs.
    method HandleMrc1Response(m: TCPConnectionManager, request: Request, response: Message)
      requires m.queue == this && m.queue.connection.ParserReady() && entries != []
      modifies m.Objects()
      ensures m.queue.connection.ParserReady() && m.View() == M.HandleResponse(old(m.View()), request, response)
      decreases |entries|, 5
    {
      var front := entries[0];
      m.Invoke(front.handler, response);
      answered := answered + [M.Answer(front, request, response)];
      entries := entries[1..];
      commandInProgress := false;
      assert m.View() == M.AnswerFront(old(m.View()), request, response);
      TrySendMrc1Request(m);
    }
  }

  // The history fields of a poller and its cycle.
  datatype PollHistory = PollHistory(
    since: nat,
    begun: bool,
    clean: bool,
    alwaysClean: bool,
    undefinedBehaviour: bool,
    published: seq<M.Publication>
  )

  class Poller {
    const enumerate: (nat, set<Item>) -> seq<Item>
    var subscriptions: map<Client, seq<Item>>
    var items: set<Item>
    var order: seq<Item>
    var pos: nat
    var result: map<Item, int>
    var cycles: nat
    var stopped: bool
    var timer: bool
    ghost var past: PollHistory

    constructor (enumerate: (nat, set<Item>) -> seq<Item>)
      ensures View() == M.Initial(enumerate).poller
    {
      this.enumerate := enumerate;
      subscriptions := map[];
      items, order, pos, result, cycles := {}, [], 0, map[], 0;
      stopped, timer := true, false;
      past := PollHistory(0, false, true, true, false, []);
    }

    ghost function View(): M.Poller
      reads this
    {
      M.Poller(enumerate, subscriptions, M.Cycle(items, order, pos, result, past.since), cycles,
               stopped, timer, past.begun, past.clean, past.alwaysClean, past.undefinedBehaviour, past.published)
    }

    method SetPollItems(c: Client, newItems: seq<Item>)
      modifies this
      ensures View() == old(View()).(subscriptions := old(View()).subscriptions[c := newItems])
    {
      subscriptions := subscriptions[c := newItems];
    }

    method RemovePoller(c: Client)
      modifies this
      ensures View() == old(View()).(subscriptions := old(View()).subscriptions - {c})
    {
      subscriptions := subscriptions - {c};
    }

    method Start(ghost outstanding: nat)
      modifies this
      ensures View() == M.StartPoller(old(View()), outstanding)
    {
      if !stopped {
        return;
      }
      stopped := false;
      timer := true;
      past := past.(begun := false, clean := outstanding == 0, alwaysClean := past.alwaysClean && outstanding == 0);
    }

    method Stop()
      modifies this
      ensures View() == M.StopPoller(old(View()))
    {
      if stopped {
        return;
      }
      stopped := true;
      pos := |order|;
      timer := false;
    }

    method NotifyParameterChanged(item: Item, val: int)
      modifies this
      ensures View() == old(View()).(cycle := M.NoteParameter(old(View()).cycle, item, val))
    {
      if item in result {
        result := result[item := val];
      }
    }

    // All subscribed items, each once.
    method CollectItems() returns (all: set<Item>)
      ensures all == M.AllItems(subscriptions)
    {
      all := {};
      var todo := subscriptions.Keys;
      while todo != {}
        invariant todo <= subscriptions.Keys
        invariant all == M.AllItems(map c | c in subscriptions && c !in todo :: subscriptions[c])
        decreases |todo|
      {
        var c :| c in todo;
        ghost var before := map d | d in subscriptions && d !in todo :: subscriptions[d];
        MoreItems(before, c, subscriptions[c]);
        ghost var start := all;
        for i := 0 to |subscriptions[c]|
          invariant all == start + (set j | 0 <= j < i :: subscriptions[c][j])
        {
          all := all + {subscriptions[c][i]};
        }
        todo := todo - {c};
        assert before[c := subscriptions[c]] == map d | d in subscriptions && d !in todo :: subscriptions[d];
      }
      assert (map c | c in subscriptions && c !in todo :: subscriptions[c]) == subscriptions;
    }

    static lemma MoreItems(before: map<Client, seq<Item>>, c: Client, more: seq<Item>)
      requires c !in before
      ensures M.AllItems(before[c := more]) == M.AllItems(before) + set j | 0 <= j < |more| :: more[j]
    {
      var after := before[c := more];
      forall x | x in M.AllItems(before) ensures x in M.AllItems(after) {
        var d, i :| d in before && 0 <= i < |before[d]| && before[d][i] == x;
        assert after[d][i] == x;
      }
      forall j | 0 <= j < |more| ensures more[j] in M.AllItems(after) {
        assert after[c][j] == more[j];
      }
    }

    method BeginCycle(ghost now: nat)
      modifies this
      ensures View() == M.NewCycle(old(View()), now)
    {
      hide M.AllItems;
      result := map[];
      items := CollectItems();
      order := enumerate(cycles, items);
      cycles := cycles + 1;
      pos := 0;
      past := past.(since := now, begun := true);
    }

    method StartCycle(m: TCPConnectionManager, ghost now: nat)
      requires m.poller == this && m.queue.connection.ParserReady()
      modifies m.Objects()
      ensures m.queue.connection.ParserReady()
      ensures var s := old(m.View());
              m.View() == if s.poller.stopped then s else M.PollNext(s.(poller := M.NewCycle(s.poller, now)))
      decreases if |m.queue.entries| == 0 then 2 else |m.queue.entries|, 1
    {
      if stopped {
        return;
      }
      BeginCycle(now);
      PollNext(m);
    }

    method PollNext(m: TCPConnectionManager)
      requires m.poller == this && m.queue.connection.ParserReady()
      modifies m.Objects()
      ensures m.queue.connection.ParserReady() && m.View() == M.PollNext(old(m.View()))
      decreases if |m.queue.entries| == 0 then 2 else |m.queue.entries|, 0
    {
      if stopped {
        return;
      }
      if pos < |order| && |m.queue.entries| == 0 {
        m.queue.QueueRequest(m, ReqRead(Truncate(order[pos]), false), M.PollRead);
      } else {
        timer := true;
      }
    }

    method HandleResponse(m: TCPConnectionManager, response: Message)
      requires m.poller == this && m.queue.connection.ParserReady() && m.queue.entries != []
      modifies m.Objects()
      ensures m.queue.connection.ParserReady() && m.View() == M.PollResponse(old(m.View()), response)
      decreases |m.queue.entries|, 3
    {
      if stopped {
        return;
      }
      hide M.SendTo, M.NewCycle, M.TakeReading, M.Publish;
      if response.RespRead? {
        if pos >= |order| {
          past := past.(undefinedBehaviour := true); // an end iterator would be advanced
          return;
        }
        AddResult(response.item, response.val);
        if pos == |order| {
          NotifyCycleComplete(m);
        } else {
          PollNext(m);
        }
      } else {
        PollNext(m);
      }
    }

    // An element that is already in the result is not replaced.
    method AddResult(item: Item, val: int)
      modifies this
      ensures View() == old(View()).(cycle := M.TakeReading(old(View()).cycle, item, val))
    {
      result := if item in result then result else result[item := val];
      pos := pos + 1;
    }

    method NotifyCycleComplete(m: TCPConnectionManager)
      requires m.poller == this && m.queue.connection.ParserReady() && m.queue.entries != [] && !stopped
      modifies m.Objects()
      ensures m.queue.connection.ParserReady()
      ensures var s := old(m.View());
              m.View() == M.SendToAll(s, NotifyPolledItems(s.poller.cycle.result)).(
                            poller := M.Postpone(M.NewCycle(M.Publish(s.poller, |s.queue.answered| + 1),
                                                            |s.queue.answered| + 1)))
      decreases |m.queue.entries|, 2
    {
      hide M.NewCycle, M.SendTo;
      ghost var now := |m.queue.answered| + 1;
      ghost var delivery := M.Publication(items, order, result, past.since, now, past.clean);
      past := past.(published := past.published + [delivery]);
      assert View() == M.Publish(old(View()), now);
      m.SendToAll(NotifyPolledItems(result));
      StartCycle(m, now);
    }

    method HandleTimeout(m: TCPConnectionManager)
      requires m.poller == this && m.queue.connection.ParserReady()
      modifies m.Objects()
      ensures m.queue.connection.ParserReady() && m.View() == M.PollTimeout(old(m.View()))
    {
      timer := false;
      if pos < |order| {
        PollNext(m);
      } else {
        StartCycle(m, |m.queue.answered|);
      }
    }
  }

  class ScanbusPoller {
    var stopped: bool
    var timer: bool

    constructor ()
      ensures View() == M.Scanner(true, false)
    {
      stopped, timer := true, false;
    }

    ghost function View(): M.Scanner
      reads this
    {
      M.Scanner(stopped, timer)
    }

    method Start()
      modifies this
      ensures View() == M.StartScanner(old(View()))
    {
      if stopped {
        stopped, timer := false, true;
      }
    }

    method Stop()
      modifies this
      ensures View() == M.StopScanner(old(View()))
    {
      if !stopped {
        stopped, timer := true, false;
      }
    }

    method HandleResponse(m: TCPConnectionManager, response: Message)
      requires m.scanbusPoller == this
      modifies this, m
      ensures m.View() == M.Handle(old(m.View()), M.ScanRead, response)
    {
      if response.RespScanbus? {
        m.SendToAll(NotifyScanbus(response.bus, response.entries));
      }
      timer := true;
    }

    method HandleTimeout(m: TCPConnectionManager)
      requires m.scanbusPoller == this && m.queue.connection.ParserReady()
      modifies m.Objects()
      ensures m.queue.connection.ParserReady() && m.View() == M.ScanTimeout(old(m.View()))
    {
      timer := false;
      m.queue.QueueRequest(m, ReqScanbus(0), M.ScanRead);
      m.queue.QueueRequest(m, ReqScanbus(1), M.ScanRead);
    }
  }

  class TCPConnectionManager {
    const queue: MRC1RequestQueue
    const poller: Poller
    const scanbusPoller: ScanbusPoller
    var connections: set<Client>
    var writeConnection: Option<Client>
    var skipReadAfterSetResponse: bool
    var outbox: map<Client, seq<Message>>
    var halted: bool
    ghost var dispatched: map<Client, nat>

    constructor (queue: MRC1RequestQueue, enumerate: (nat, set<Item>) -> seq<Item>)
      requires queue.connection.View() == M.Initial(enumerate).link && queue.View() == M.Initial(enumerate).queue
      ensures this.queue == queue
      ensures View() == M.Initial(enumerate)
    {
      this.queue := queue;
      poller := new Poller(enumerate);
      scanbusPoller := new ScanbusPoller();
      connections, writeConnection, skipReadAfterSetResponse := {}, None, false;
      outbox, halted, dispatched := map[], false, map[];
    }

    ghost function Objects(): set<object> {
      {this, queue.connection, queue.connection.parser, queue, poller, scanbusPoller}
    }

    ghost function ManagerView(): M.Manager
      reads this
    {
      M.Manager(connections, writeConnection, skipReadAfterSetResponse, outbox, dispatched)
    }

    ghost function View(): M.Server
      reads this, queue, queue.connection, poller, scanbusPoller
    {
      M.Server(queue.connection.View(), queue.View(), ManagerView(), poller.View(), scanbusPoller.View(), halted)
    }

    // ----- Sending -----

    method SendMessage(c: Client, msg: Message)
      modifies this`outbox
      ensures ManagerView() == M.Send(old(ManagerView()), c, msg)
    {
      outbox := outbox[c := (if c in outbox then outbox[c] else []) + [msg]];
    }

    method SendToEach(clients: set<Client>, msg: Message)
      modifies this`outbox
      ensures ManagerView() == M.SendTo(old(ManagerView()), clients, msg)
    {
      hide M.SendTo, M.Send;
      var todo := clients;
      SendToNobody(ManagerView(), msg);
      assert clients - todo == {};
      while todo != {}
        invariant todo <= clients
        invariant ManagerView() == M.SendTo(old(ManagerView()), clients - todo, msg)
        decreases |todo|
      {
        var c :| c in todo;
        SendToOneMore(old(ManagerView()), clients - todo, c, msg);
        assert clients - todo + {c} == clients - (todo - {c});
        SendMessage(c, msg);
        todo := todo - {c};
      }
      assert clients - todo == clients;
    }

    static lemma SendToNobody(m: M.Manager, msg: Message)
      ensures M.SendTo(m, {}, msg) == m
    {
      var n := M.SendTo(m, {}, msg);
      assert forall c <- m.outbox :: n.outbox[c] == m.outbox[c] + [] == m.outbox[c];
      assert n.outbox == m.outbox;
    }

    static lemma SendToOneMore(m: M.Manager, clients: set<Client>, c: Client, msg: Message)
      requires c !in clients
      ensures M.SendTo(m, clients + {c}, msg) == M.Send(M.SendTo(m, clients, msg), c, msg)
    {
      var one, all := M.SendTo(m, clients, msg), M.SendTo(m, clients + {c}, msg);
      assert M.Outbox(one, c) == M.Outbox(m, c);
      assert all.outbox.Keys == M.Send(one, c, msg).outbox.Keys;
      assert forall d <- all.outbox :: all.outbox[d] == M.Send(one, c, msg).outbox[d];
      assert all.outbox == M.Send(one, c, msg).outbox;
    }

    method SendToAll(msg: Message)
      modifies this`outbox
      ensures ManagerView() == M.SendTo(old(ManagerView()), connections, msg)
    {
      SendToEach(connections, msg);
    }

    method SendToAllExcept(c: Option<Client>, msg: Message)
      modifies this`outbox
      ensures ManagerView() == M.SendTo(old(ManagerView()), connections - M.Only(c), msg)
    {
      SendToEach(if c.Some? then connections - {c.value} else connections, msg);
      assert c.None? ==> connections - M.Only(c) == connections;
    }

    method SetWriteConnection(w: Option<Client>)
      modifies this`outbox, this`writeConnection
      ensures ManagerView() == M.SetWriter(old(ManagerView()), w)
    {
      if writeConnection == w {
        return;
      }
      if writeConnection.Some? {
        SendMessage(writeConnection.value, NotifyWriteAccess(false, false));
      }
      writeConnection := w;
      if writeConnection.Some? {
        SendMessage(writeConnection.value, NotifyWriteAccess(true, false));
      }
      SendToAllExcept(writeConnection, NotifyWriteAccess(false, writeConnection.None?));
    }

    // ----- Clients -----

    method StartPollers()
      modifies poller, scanbusPoller
      ensures View() == M.StartPolling(old(View()))
    {
      poller.Start(M.PollReads(queue.entries));
      scanbusPoller.Start();
    }

    method StopPollers()
      modifies poller, scanbusPoller
      ensures View() == M.StopPolling(old(View()))
    {
      poller.Stop();
      scanbusPoller.Stop();
    }

    method Start(c: Client)
      modifies this, poller, scanbusPoller
      ensures View() == M.Connect(old(View()), c)
    {
      hide M.SetWriter, M.Send, M.StartPolling;
      connections := connections + {c};
      SendMessage(c, NotifyMrcStatus(queue.connection.status));
      SendMessage(c, NotifySilenced(queue.connection.silenced));
      if |connections| == 1 {
        SetWriteConnection(Some(c));
        StartPollers();
      } else {
        SendMessage(c, NotifyWriteAccess(false, writeConnection.None?));
      }
    }

    method Stop(c: Client)
      modifies this, poller, scanbusPoller
      ensures View() == M.Disconnect(old(View()), c)
    {
      if writeConnection == Some(c) {
        if |connections| == 1 {
          M.SingleElement(connections);
          var first :| first in connections;
          assert first == M.TheOnly(connections);
          SetWriteConnection(Some(first));
        } else {
          SetWriteConnection(None);
        }
      }
      connections := connections - {c};
      poller.RemovePoller(c);
      if connections == {} {
        StopPollers();
      }
    }

    method StopAll()
      modifies this, poller, scanbusPoller
      ensures View() == M.StopAll(old(View()))
    {
      hide M.SetWriter, M.StopPolling;
      RemovePollers(connections);
      connections := {};
      SetWriteConnection(None);
      StopPollers();
    }

    method RemovePollers(clients: set<Client>)
      modifies poller
      ensures poller.View() == old(poller.View()).(subscriptions := old(poller.View()).subscriptions - clients)
    {
      var todo := clients;
      while todo != {}
        invariant todo <= clients
        invariant poller.View() == old(poller.View()).(
                                     subscriptions := old(poller.View()).subscriptions - (clients - todo))
        decreases |todo|
      {
        var c :| c in todo;
        poller.RemovePoller(c);
        todo := todo - {c};
        assert poller.subscriptions == old(poller.View()).subscriptions - (clients - todo);
      }
      assert clients - todo == clients;
    }

    // ----- Requests -----

    method DispatchRequest(c: Client, request: Request)
      requires queue.connection.ParserReady()
      modifies Objects()
      ensures queue.connection.ParserReady() && View() == M.Dispatch(old(View()), c, request)
    {
      hide M.DispatchCommand, M.DispatchLocal;
      dispatched := M.CountRequest(ManagerView(), c).dispatched;
      if request.IsMrcCommand() {
        DispatchCommand(c, request);
      } else {
        DispatchLocal(c, request);
      }
    }

    // A SET and its READ are enqueued back to back.
    method DispatchCommand(c: Client, request: Request)
      requires queue.connection.ParserReady()
      modifies Objects()
      ensures queue.connection.ParserReady() && View() == M.DispatchCommand(old(View()), c, request)
    {
      if request.IsMrcWriteCommand() && writeConnection != Some(c) {
        SendMessage(c, RespError(PermissionDenied));
      } else if request.ReqSet? {
        queue.QueueRequest(this, request, M.SetDone(c));
        queue.QueueRequest(this, ReqRead(Truncate(request.item), request.mirror), M.ReadAfterSet(c));
      } else {
        queue.QueueRequest(this, request, M.ForClient(c));
      }
    }

    method ExpandPollRanges(ranges: seq<PollRange>) returns (items: seq<Item>)
      ensures items == M.ExpandRanges(ranges)
    {
      items := [];
      for i := 0 to |ranges|
        invariant items == M.ExpandRanges(ranges[..i])
      {
        var first := ranges[i].first;
        var par, limit := first.par, (first.par + ranges[i].count) % 0x1_0000_0000;
        ghost var before := items;
        while par < limit
          invariant items + M.RangeItems(first, par, limit) == before + M.RangeItems(first, first.par, limit)
        {
          items := items + [Item(first.bus, first.dev, par)];
          par := par + 1;
        }
        assert ranges[..i + 1][..i] == ranges[..i];
      }
      assert ranges[..|ranges|] == ranges;
    }

    // The requests the server answers itself.
    method DispatchLocal(c: Client, request: Request)
      requires queue.connection.ParserReady() && !request.IsMrcCommand()
      modifies this, queue.connection, poller, scanbusPoller
      ensures queue.connection.ParserReady() && View() == M.DispatchLocal(old(View()), c, request)
    {
      match request {
        case ReqHasWriteAccess => SendMessage(c, RespBool(writeConnection == Some(c)));
        case ReqAcquireWriteAccess(force) => AcquireWriteAccess(c, force);
        case ReqReleaseWriteAccess => ReleaseWriteAccess(c);
        case ReqIsSilenced => SendMessage(c, RespBool(queue.connection.silenced));
        case ReqSetSilenced(silenced) => RequestSilence(c, silenced);
        case ReqMrcStatus => SendMessage(c, RespMrcStatus(queue.connection.status));
        case ReqSetPollItems(ranges) => SetPollItems(c, ranges);
        case ReqQuit => Quit(c);
        case NotARequest => RejectRequest(c);
      }
    }

    method AcquireWriteAccess(c: Client, force: bool)
      requires queue.connection.ParserReady()
      modifies this, queue.connection, poller, scanbusPoller
      ensures queue.connection.ParserReady() && View() == M.DispatchLocal(old(View()), c, ReqAcquireWriteAccess(force))
    {
      hide M.SetWriter, M.Send;
      var canAcquire := writeConnection.None? || force;
      if canAcquire {
        SetWriteConnection(Some(c));
      }
      SendMessage(c, RespBool(canAcquire));
    }

    method ReleaseWriteAccess(c: Client)
      requires queue.connection.ParserReady()
      modifies this, queue.connection, poller, scanbusPoller
      ensures queue.connection.ParserReady() && View() == M.DispatchLocal(old(View()), c, ReqReleaseWriteAccess)
    {
      hide M.SetWriter, M.Send;
      var mayRelease := writeConnection == Some(c);
      if mayRelease {
        SetWriteConnection(None);
      }
      SendMessage(c, RespBool(mayRelease));
    }

    method RequestSilence(c: Client, silenced: bool)
      requires queue.connection.ParserReady()
      modifies this, queue.connection, poller, scanbusPoller
      ensures queue.connection.ParserReady() && View() == M.DispatchLocal(old(View()), c, ReqSetSilenced(silenced))
    {
      hide M.SetSilenced, M.Send;
      var maySet := writeConnection == Some(c);
      if maySet {
        SetSilenced(silenced);
      }
      SendMessage(c, RespBool(maySet));
    }

    method SetPollItems(c: Client, ranges: seq<PollRange>)
      requires queue.connection.ParserReady()
      modifies this, queue.connection, poller, scanbusPoller
      ensures queue.connection.ParserReady() && View() == M.DispatchLocal(old(View()), c, ReqSetPollItems(ranges))
    {
      hide M.ExpandRanges, M.Send;
      var items := ExpandPollRanges(ranges);
      poller.SetPollItems(c, items);
      SendMessage(c, RespBool(true));
    }

    method Quit(c: Client)
      requires queue.connection.ParserReady()
      modifies this, queue.connection, poller, scanbusPoller
      ensures queue.connection.ParserReady() && View() == M.DispatchLocal(old(View()), c, ReqQuit)
    {
      hide M.StopAll, M.Send;
      if writeConnection == Some(c) {
        SendMessage(c, RespBool(true));
        StopAll();
        halted := true;
      } else {
        SendMessage(c, RespError(PermissionDenied));
      }
    }

    method RejectRequest(c: Client)
      requires queue.connection.ParserReady()
      modifies this, queue.connection, poller, scanbusPoller
      ensures queue.connection.ParserReady() && View() == M.DispatchLocal(old(View()), c, NotARequest)
    {
      hide M.Disconnect, M.Send;
      SendMessage(c, RespError(InvalidType));
      Stop(c);
    }

    method SetSilenced(silenced: bool)
      requires queue.connection.ParserReady()
      modifies this, queue.connection, poller, scanbusPoller
      ensures queue.connection.ParserReady() && View() == M.SetSilenced(old(View()), silenced)
    {
      queue.connection.silenced := silenced;
      SendToAll(NotifySilenced(silenced));
      if silenced {
        StopPollers();
      } else {
        StartPollers();
      }
    }

    // ----- Responses -----

    // Calls the function an entry was queued with.
    method Invoke(handler: Handler, response: Message)
      requires queue.connection.ParserReady() && queue.entries != []
      modifies Objects()
      ensures queue.connection.ParserReady() && View() == M.Handle(old(View()), handler, response)
      decreases |queue.entries|, 4
    {
      match handler {
        case ForClient(c) => SendMessage(c, response);
        case SetDone(c) => HandleSetResponse(c, response);
        case ReadAfterSet(c) => HandleReadAfterSet(c, response);
        case PollRead => poller.HandleResponse(this, response);
        case ScanRead => scanbusPoller.HandleResponse(this, response);
      }
    }

    method HandleSetResponse(c: Client, response: Message)
      modifies this
      ensures View() == M.Handle(old(View()), M.SetDone(c), response)
    {
      if response.RespError? {
        SendMessage(c, response);
        skipReadAfterSetResponse := true;
      }
    }

    method HandleReadAfterSet(c: Client, response: Message)
      modifies this, poller
      ensures View() == M.Handle(old(View()), M.ReadAfterSet(c), response)
    {
      if skipReadAfterSetResponse {
        skipReadAfterSetResponse := false;
        return;
      }
      var item, val, mirror := ORIGIN, 0, false;
      if response.RespRead? {
        item, val, mirror := response.item, response.val, response.mirror;
      }
      var msg := MakeSetResponse(item, val, AsInt(mirror));
      SendMessage(c, msg);
      SendToAllExcept(Some(c), msg.AsNotification());
      if !mirror {
        poller.NotifyParameterChanged(item, val);
      }
    }

    method HandleMrc1StatusChange(status: Status)
      modifies this, poller, scanbusPoller
      ensures var s := M.SendToAll(old(View()), NotifyMrcStatus(status));
              View() == if status == Running && s.manager.connections != {} then M.StartPolling(s) else M.StopPolling(s)
    {
      SendToAll(NotifyMrcStatus(status));
      if status == Running && connections != {} {
        StartPollers();
      } else {
        StopPollers();
      }
    }
  }

  // One callback of the event loop: the objects together make exactly the steps
  // of the state machine.
  method RunCallback(m: TCPConnectionManager, e: M.Event)
    requires M.Enabled(m.View(), e) && M.Consistent(m.View()) && m.queue.connection.ParserReady()
    modifies m.Objects()
    ensures m.queue.connection.ParserReady()
    ensures m.View() == M.Step(old(m.View()), e)
  {
    hide M.Connect, M.Disconnect, M.Dispatch, M.FailCommand, M.TakeReply, M.HandleResponse, M.TrySend;
    hide M.PollTimeout, M.ScanTimeout, M.StartLink, M.OpenLink, M.SetStatus, M.TakeDown;
    var link := m.queue.connection;
    match e {
      case ClientConnects(c) => m.Start(c);
      case ClientDisconnects(c) => m.Stop(c);
      case ClientRequests(c, request) => m.DispatchRequest(c, request);
      case WriteCompletes => link.HandleWriteCommand();
      case WriteFails(timedOut) => link.FailCommand(m, timedOut);
      case ReplyArrives(lines) => link.HandleCommandResponseRead(lines);
      case ReadFails(timedOut) => link.FailCommand(m, timedOut);
      case ResponseDelivered =>
        m.queue.HandlePostedResponse(m);
      case RetryTimerFires => m.queue.HandleRetryTimer(m);
      case PollTimerFires => m.poller.HandleTimeout(m);
      case ScanTimerFires => m.scanbusPoller.HandleTimeout(m);
      case LinkStarted => link.Start(m);
      case ReconnectTimerFires =>
        link.HandleReconnectTimer(m);
      case LinkOpens(opens) => link.HandleStart(m, opens);
      case InitCompletes => link.HandleInit(m, true);
      case InitFails => link.HandleInit(m, false);
    }
  }
}
