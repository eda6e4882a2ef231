/** What a poll cycle delivers. */
module ServerPolling {
  import opened Messages
  import opened ServerModel
  import opened ServerFifo
  import opened ServerReplies
  import ReplyParser

  // 'order' visits every item of the set once.
  ghost predicate Enumerates(order: seq<Item>, items: set<Item>) {
    && (forall x <- order :: x in items)
    && (forall x <- items :: x in order)
    && (forall i, j | 0 <= i < j < |order| :: order[i] != order[j])
  }

  ghost predicate ValidEnumeration(enumerate: (nat, set<Item>) -> seq<Item>) {
    forall n: nat, items: set<Item> :: Enumerates(enumerate(n, items), items)
  }

  // The parameters actually read for the first n items,
  function Visited(order: seq<Item>, n: nat): set<Item>
    requires n <= |order|
  {
    set i | 0 <= i < n :: Truncate(order[i])
  }

  // and for those among them but the first.
  function Later(order: seq<Item>, n: nat): set<Item>
    requires n <= |order|
  {
    set i | 1 <= i < n :: Truncate(order[i])
  }

  // No two items of the set denote the same parameter.
  ghost predicate Distinct(items: set<Item>) {
    forall x, y | x in items && y in items && Truncate(x) == Truncate(y) :: x == y
  }

  // What the last of these answers tells of a parameter: the response to a poll
  // read, or to the READ after a SET that did not fail and was not mirrored. An
  // error response to the latter tells of a zero for parameter (0, 0, 0).
  function Told(answered: seq<Answer>): Option<(Item, int)>
    requires answered != []
  {
    var n := |answered| - 1;
    var a := answered[n];
    if a.entry.handler.PollRead? then
      if a.response.RespRead? then Some((a.response.item, a.response.val)) else None
    else if a.entry.handler.ReadAfterSet? && !ReadMirror(a.response)
            && !(n > 0 && answered[n - 1].response.RespError?) then
      Some((ReadItem(a.response), ReadVal(a.response)))
    else
      None
  }

  // The last value told of a parameter by the answers from 'since' on.
  function LastTold(answered: seq<Answer>, since: nat, k: Item): Option<int> {
    if |answered| <= since then None
    else
      var told := Told(answered);
      if told.Some? && told.value.0 == k then Some(told.value.1)
      else LastTold(answered[..|answered| - 1], since, k)
  }

  // The parameter of the first poll read answered with a value from 'since' on.
  function FirstPolled(answered: seq<Answer>, since: nat): Option<Item> {
    if |answered| <= since then None
    else
      var earlier, a := FirstPolled(answered[..|answered| - 1], since), answered[|answered| - 1];
      if earlier.Some? then earlier
      else if a.entry.handler.PollRead? && a.response.RespRead? then Some(a.response.item)
      else None
  }

  // Every value is the last one told.
  ghost predicate UpToDate(result: map<Item, int>, answered: seq<Answer>, since: nat) {
    forall k <- result :: LastTold(answered, since, k) == Some(result[k])
  }

  // What the first n readings of a cycle recorded. The first of them may have
  // been queued before the poller was last started, for any parameter.
  ghost predicate Recorded(items: set<Item>, order: seq<Item>, n: nat, result: map<Item, int>, clean: bool,
                           answered: seq<Answer>, since: nat)
    requires 0 < n <= |order|
  {
    && FirstPolled(answered, since).Some?
    && var first := FirstPolled(answered, since).value;
       && result.Keys == {first} + Later(order, n)
       && (clean ==> first == Truncate(order[0]))
       && (Distinct(items) && first !in Later(order, n) ==> UpToDate(result, answered, since))
  }

  // While a cycle is under way.
  ghost predicate CycleInv(c: Cycle, clean: bool, answered: seq<Answer>)
    requires c.pos <= |c.order|
  {
    && c.since <= |answered|
    && if c.pos == 0 then c.result == map[] && FirstPolled(answered, c.since).None?
       else Recorded(c.items, c.order, c.pos, c.result, clean, answered, c.since)
  }

  // There is never more than one poll read in the queue, and it is the front.
  ghost predicate AtMostOne(entries: seq<Entry>) {
    PollReads(entries) <= 1 && (PollReads(entries) == 1 ==> entries != [] && entries[0].handler.PollRead?)
  }

  // A running poller has its timer pending, or one read in the queue for the
  // item it stands at. It has both only if that read was there when it was
  // started, and then it has not taken a reading since.
  ghost predicate OneRead(p: Poller, entries: seq<Entry>) {
    var c := p.cycle;
    if PollReads(entries) == 0 then p.timer
    else if p.timer then !p.clean && (c.AtEnd() || c.pos == 0)
    else !c.AtEnd() && entries != [] && entries[0].request == ReqRead(Truncate(c.order[c.pos]), false)
  }

  ghost predicate Faithful(pub: Publication, answered: seq<Answer>) {
    && 0 < pub.upto <= |answered| && answered[pub.upto - 1].entry.handler.PollRead?
    && Enumerates(pub.order, pub.items) && pub.order != []
    && Recorded(pub.items, pub.order, |pub.order|, pub.result, pub.clean, answered[..pub.upto], pub.since)
  }

  ghost predicate AllFaithful(published: seq<Publication>, answered: seq<Answer>) {
    forall pub <- published :: Faithful(pub, answered)
  }

  // The cycle of a poller; nothing is asked of the result once the end is reached.
  ghost predicate GoodCycle(c: Cycle, running: bool, clean: bool, answered: seq<Answer>) {
    && Enumerates(c.order, c.items)
    && c.pos <= |c.order|
    && (running && !c.AtEnd() ==> CycleInv(c, clean, answered))
  }

  ghost predicate Regular(p: Poller, answered: seq<Answer>) {
    && ValidEnumeration(p.enumerate)
    && GoodCycle(p.cycle, !p.stopped, p.clean, answered)
    && (p.stopped ==> p.cycle.AtEnd())
    && (!p.stopped ==> (p.cycle.AtEnd() <==> !p.begun || p.cycle.items == {}))
    && AllFaithful(p.published, answered)
    && (p.alwaysClean ==> p.clean && !p.undefinedBehaviour)
  }

  ghost predicate PollInv(p: Poller, q: Queue) {
    Regular(p, q.answered) && AtMostOne(q.entries) && (!p.stopped ==> OneRead(p, q.entries))
  }

  lemma {:induction false} PollReadsOfAppend(entries: seq<Entry>, e: Entry)
    ensures PollReads(entries + [e]) == PollReads(entries) + (if e.handler.PollRead? then 1 else 0)
  {
    if entries == [] {
    } else {
      assert (entries + [e])[1..] == entries[1..] + [e];
      PollReadsOfAppend(entries[1..], e);
    }
  }

  // ----- One answer -----

  lemma ToldNext(answered: seq<Answer>, a: Answer, since: nat, k: Item)
    requires since <= |answered|
    ensures var told := Told(answered + [a]);
            LastTold(answered + [a], since, k) ==
            if told.Some? && told.value.0 == k then Some(told.value.1) else LastTold(answered, since, k)
  {
    assert (answered + [a])[..|answered|] == answered;
  }

  lemma FirstPolledNext(answered: seq<Answer>, a: Answer, since: nat)
    requires since <= |answered|
    ensures FirstPolled(answered + [a], since) ==
            if FirstPolled(answered, since).Some? then FirstPolled(answered, since)
            else if a.entry.handler.PollRead? && a.response.RespRead? then Some(a.response.item)
            else None
  {
    assert (answered + [a])[..|answered|] == answered;
  }

  // What was delivered stays what it was.
  lemma FaithfulStays(published: seq<Publication>, answered: seq<Answer>, a: Answer)
    requires AllFaithful(published, answered)
    ensures AllFaithful(published, answered + [a])
  {
    hide Recorded, Enumerates;
    forall pub | pub in published ensures Faithful(pub, answered + [a]) {
      assert Faithful(pub, answered);
      assert (answered + [a])[..pub.upto] == answered[..pub.upto];
    }
  }

  lemma NothingTold(c: Cycle, clean: bool, answered: seq<Answer>, a: Answer)
    requires c.pos <= |c.order| && CycleInv(c, clean, answered) && Told(answered + [a]).None?
    ensures CycleInv(c, clean, answered + [a])
  {
    FirstPolledNext(answered, a, c.since);
    assert !(a.entry.handler.PollRead? && a.response.RespRead?);
    hide Later, Distinct, Told, LastTold, FirstPolled;
    forall k | k in c.result ensures LastTold(answered + [a], c.since, k) == LastTold(answered, c.since, k) {
      ToldNext(answered, a, c.since, k);
    }
  }

  lemma NoteParameterKeeps(c: Cycle, clean: bool, answered: seq<Answer>, a: Answer, item: Item, val: int)
    requires c.pos <= |c.order| && CycleInv(c, clean, answered)
    requires Told(answered + [a]) == Some((item, val)) && !a.entry.handler.PollRead?
    ensures CycleInv(NoteParameter(c, item, val), clean, answered + [a])
  {
    hide Later, Distinct, Told, LastTold, FirstPolled;
    FirstPolledNext(answered, a, c.since);
    forall k | k in c.result
      ensures LastTold(answered + [a], c.since, k) == if k == item then Some(val) else LastTold(answered, c.since, k)
    {
      ToldNext(answered, a, c.since, k);
    }
  }

  // Within a cycle every parameter is read for the first time.
  lemma FreshReading(c: Cycle)
    requires Enumerates(c.order, c.items) && c.pos < |c.order| && Distinct(c.items)
    ensures Truncate(c.order[c.pos]) !in Visited(c.order, c.pos)
    ensures Truncate(c.order[c.pos]) !in Later(c.order, c.pos)
  {
    forall i | 0 <= i < c.pos ensures Truncate(c.order[i]) != Truncate(c.order[c.pos]) {
      assert c.order[i] in c.items && c.order[c.pos] in c.items;
    }
  }

  // The first reading of a cycle, of whatever parameter.
  lemma FirstReadingKeeps(c: Cycle, clean: bool, answered: seq<Answer>, a: Answer)
    requires c.pos == 0 < |c.order| && CycleInv(c, clean, answered)
    requires a.entry.handler.PollRead? && a.response.RespRead?
    requires clean ==> a.response.item == Truncate(c.order[0])
    ensures CycleInv(TakeReading(c, a.response.item, a.response.val), clean, answered + [a])
  {
    hide Distinct, LastTold, FirstPolled;
    FirstPolledNext(answered, a, c.since);
    ToldNext(answered, a, c.since, a.response.item);
    assert Later(c.order, 1) == {};
  }

  // An answer that tells a value keeps what was told of the others.
  lemma StaysUpToDate(result: map<Item, int>, answered: seq<Answer>, a: Answer, since: nat, item: Item, val: int)
    requires since <= |answered| && UpToDate(result, answered, since)
    requires Told(answered + [a]) == Some((item, val))
    ensures UpToDate(result[item := val], answered + [a], since)
  {
    forall k | k in result[item := val]
      ensures LastTold(answered + [a], since, k) == Some(result[item := val][k])
    {
      ToldNext(answered, a, since, k);
    }
  }

  // A later one, of the parameter of the item at the iterator.
  lemma LaterReadingKeeps(c: Cycle, clean: bool, answered: seq<Answer>, a: Answer)
    requires Enumerates(c.order, c.items) && 0 < c.pos < |c.order| && CycleInv(c, clean, answered)
    requires a.entry.handler.PollRead? && a.response.RespRead? && a.response.item == Truncate(c.order[c.pos])
    ensures CycleInv(TakeReading(c, a.response.item, a.response.val), clean, answered + [a])
  {
    var item, d := a.response.item, TakeReading(c, a.response.item, a.response.val);
    FirstPolledNext(answered, a, c.since);
    assert Later(c.order, d.pos) == Later(c.order, c.pos) + {item};
    assert Told(answered + [a]) == Some((item, a.response.val));
    if Distinct(c.items) {
      FreshReading(c);
    }
    hide Enumerates, Distinct, Truncate, Told, FirstPolled, Later, UpToDate;
    if UpToDate(c.result, answered, c.since) {
      StaysUpToDate(c.result, answered, a, c.since, item, a.response.val);
    }
  }

  // What a complete cycle delivers.
  lemma PublishKeeps(p: Poller, answered: seq<Answer>)
    requires Enumerates(p.cycle.order, p.cycle.items) && 0 < p.cycle.pos == |p.cycle.order|
    requires CycleInv(p.cycle, p.clean, answered) && AllFaithful(p.published, answered)
    requires answered != [] && answered[|answered| - 1].entry.handler.PollRead?
    ensures AllFaithful(Publish(p, |answered|).published, answered)
  {
    hide Enumerates, Recorded;
    var c := p.cycle;
    assert answered[..|answered|] == answered;
    assert Faithful(Publication(c.items, c.order, c.result, c.since, |answered|, p.clean), answered);
    hide Faithful;
  }

  lemma NewCycleIsGood(p: Poller, answered: seq<Answer>)
    requires ValidEnumeration(p.enumerate)
    ensures GoodCycle(NewCycle(p, |answered|).cycle, true, p.clean, answered)
    ensures var q := NewCycle(p, |answered|);
            q.begun && (q.cycle.AtEnd() <==> q.cycle.items == {}) && q.published == p.published
  {
    var items := AllItems(p.subscriptions);
    var order := p.enumerate(p.cycles, items);
    assert Enumerates(order, items);
    assert order != [] ==> order[0] in items;
    hide AllItems, ValidEnumeration, Enumerates, Recorded;
  }

  lemma OneReadAnswered(entries: seq<Entry>)
    requires AtMostOne(entries) && entries != []
    ensures PollReads(entries[1..]) == 0 && (entries[0].handler.PollRead? <==> PollReads(entries) == 1)
  {
  }

  // The reading of the one read that is in the queue.
  lemma ReadingKeeps(p: Poller, q: Queue, a: Answer)
    requires PollInv(p, q) && q.entries != [] && a.entry == q.entries[0] && a.entry.handler.PollRead?
    requires !p.stopped && !p.cycle.AtEnd()
    requires ReplyParser.Answers(q.entries[0].request, a.response) && a.response.RespRead?
    ensures CycleInv(TakeReading(p.cycle, a.response.item, a.response.val), p.clean, q.answered + [a])
  {
    hide CycleInv, Enumerates, ValidEnumeration, AllFaithful, TakeReading, Truncate;
    OneReadAnswered(q.entries);
    if p.cycle.pos == 0 {
      FirstReadingKeeps(p.cycle, p.clean, q.answered, a);
    } else {
      LaterReadingKeeps(p.cycle, p.clean, q.answered, a);
    }
  }

  // The response to the one read that is outstanding.
  lemma PollResponseKeeps(s: Server, response: Message)
    requires PollInv(s.poller, s.queue) && s.queue.entries != []
    requires s.queue.entries[0].handler.PollRead?
    requires ReplyParser.Answers(s.queue.entries[0].request, response)
    ensures PollInv(PollResponse(s, response).poller,
                    Pop(s.queue, Answer(s.queue.entries[0], s.queue.entries[0].request, response)))
  {
    hide AllItems, CycleInv, Enumerates, ValidEnumeration, SendTo, Truncate, AllFaithful, Told, ReplyParser.Answers;
    var p, c, answered := s.poller, s.poller.cycle, s.queue.answered;
    var a := Answer(s.queue.entries[0], s.queue.entries[0].request, response);
    FaithfulStays(p.published, answered, a);
    OneReadAnswered(s.queue.entries);
    if !p.stopped && !c.AtEnd() {
      if !response.RespRead? {
        ErrorTellsNothing(answered, a);
        NothingTold(c, p.clean, answered, a);
      } else {
        var q := p.(cycle := TakeReading(c, response.item, response.val));
        ReadingKeeps(p, s.queue, a);
        if q.cycle.AtEnd() {
          PublishKeeps(q, answered + [a]);
          NewCycleIsGood(Publish(q, |answered| + 1), answered + [a]);
        }
      }
    }
  }

  lemma ErrorTellsNothing(answered: seq<Answer>, a: Answer)
    requires a.entry.handler.PollRead? && !a.response.RespRead?
    ensures Told(answered + [a]).None?
  {
  }

  // What the answer to any other front tells.
  lemma ToldByFront(s: Server, response: Message, dangling: bool)
    requires PairInv(s.queue, s.manager.skipRead, dangling) && s.queue.entries != []
    requires !s.queue.entries[0].handler.PollRead?
    ensures var front := s.queue.entries[0];
            Told(s.queue.answered + [Answer(front, front.request, response)]) ==
            if front.handler.ReadAfterSet? && !s.manager.skipRead && !ReadMirror(response)
            then Some((ReadItem(response), ReadVal(response))) else None
  {
    if s.queue.entries[0].handler.ReadAfterSet? {
      FlagTells(s.queue, s.manager.skipRead, dangling);
    }
    hide PairInv;
  }

  lemma NoteKeeps(p: Poller, answered: seq<Answer>, a: Answer)
    requires Regular(p, answered) && !a.entry.handler.PollRead?
    ensures Told(answered + [a]).None? ==> Regular(p, answered + [a])
    ensures Told(answered + [a]).Some? ==>
              var told := Told(answered + [a]).value;
              Regular(p.(cycle := NoteParameter(p.cycle, told.0, told.1)), answered + [a])
  {
    hide Enumerates, ValidEnumeration, AllFaithful, CycleInv, Told;
    FaithfulStays(p.published, answered, a);
    if !p.stopped && !p.cycle.AtEnd() {
      var told := Told(answered + [a]);
      if told.None? {
        NothingTold(p.cycle, p.clean, answered, a);
      } else {
        NoteParameterKeeps(p.cycle, p.clean, answered, a, told.value.0, told.value.1);
      }
    }
  }

  lemma OneReadStays(p: Poller, next: Poller, entries: seq<Entry>)
    requires AtMostOne(entries) && entries != [] && !entries[0].handler.PollRead?
    requires next.timer == p.timer
    ensures AtMostOne(entries[1..]) && (OneRead(p, entries) ==> OneRead(next, entries[1..]))
  {
  }

  lemma HandledPoller(s: Server, handler: Handler, response: Message)
    ensures Handle(s, handler, response).poller ==
            if handler.PollRead? then PollResponse(s, response).poller
            else if handler.ReadAfterSet? && !s.manager.skipRead && !ReadMirror(response) then
              s.poller.(cycle := NoteParameter(s.poller.cycle, ReadItem(response), ReadVal(response)))
            else s.poller
  {
    hide PollResponse, NoteParameter, Send, SendTo, SetAnswer;
  }

  lemma AnswerFrontPoller(s: Server, response: Message)
    requires s.queue.entries != []
    ensures var front := s.queue.entries[0];
            AnswerFront(s, front.request, response).poller == Handle(s, front.handler, response).poller
  {
    hide Handle;
  }

  // A front that is no poll read.
  lemma OtherFrontPolls(s: Server, response: Message, dangling: bool)
    requires PollInv(s.poller, s.queue) && s.queue.entries != [] && !s.queue.entries[0].handler.PollRead?
    requires PairInv(s.queue, s.manager.skipRead, dangling)
    ensures var front := s.queue.entries[0];
            PollInv(Handle(s, front.handler, response).poller, Pop(s.queue, Answer(front, front.request, response)))
  {
    hide Regular, OneRead, AtMostOne, PollResponse, NoteParameter, Handle, PairInv, Told;
    hide ReadItem, ReadVal, ReadMirror;
    var front := s.queue.entries[0];
    HandledPoller(s, front.handler, response);
    ToldByFront(s, response, dangling);
    NoteKeeps(s.poller, s.queue.answered, Answer(front, front.request, response));
    NoteMovesNothing(s.poller.cycle, ReadItem(response), ReadVal(response));
    OneReadStays(s.poller, Handle(s, front.handler, response).poller, s.queue.entries);
  }

  lemma AnswerFrontPolls(s: Server, response: Message, dangling: bool)
    requires PollInv(s.poller, s.queue) && s.queue.entries != []
    requires PairInv(s.queue, s.manager.skipRead, dangling)
    requires ReplyParser.Answers(s.queue.entries[0].request, response)
    ensures var t := AnswerFront(s, s.queue.entries[0].request, response);
            PollInv(t.poller, t.queue)
  {
    hide PollInv, PollResponse, AnswerFront, Handle, Pop, PairInv, ReplyParser.Answers;
    AnswerFrontPoller(s, response);
    if s.queue.entries[0].handler.PollRead? {
      HandledPoller(s, s.queue.entries[0].handler, response);
      PollResponseKeeps(s, response);
    } else {
      OtherFrontPolls(s, response, dangling);
    }
  }

  lemma NoteMovesNothing(c: Cycle, item: Item, val: int)
    ensures var d := NoteParameter(c, item, val);
            d.order == c.order && d.pos == c.pos && d.items == c.items
  {
  }

  lemma {:induction false} TrySendPolls(s: Server, dangling: bool)
    requires PollInv(s.poller, s.queue) && OneInFlight(s.link, s.queue)
    requires PairInv(s.queue, s.manager.skipRead, dangling)
    ensures PollInv(TrySend(s).poller, TrySend(s).queue)
    decreases |s.queue.entries|
  {
    hide Handle, PollInv, PairInv, AnswerFront;
    if s.queue.entries == [] || s.queue.inProgress || s.link.current.Some? {
      Unsent(s);
    } else if s.link.status == Running || s.link.status == Initializing {
      Unsent(s);
    } else {
      var response := RespError(DownError(s.link.status));
      AnswerFrontPolls(s, response, dangling);
      AnswerFrontKeepsPairs(s, response, dangling);
      TrySendPolls(AnswerFront(s, s.queue.entries[0].request, response), dangling);
    }
  }

  // The poller only looks at the entries and the answers of the queue.
  lemma Unsent(s: Server)
    requires PollInv(s.poller, s.queue)
    requires s.queue.entries == [] || s.queue.inProgress || s.link.current.Some?
             || s.link.status == Running || s.link.status == Initializing
    ensures PollInv(TrySend(s).poller, TrySend(s).queue)
  {
    hide Regular, OneRead, AtMostOne;
  }

  // 'dangling' says whether the READ of the last SET is still to come.
  lemma QueuePolls(s: Server, request: Request, handler: Handler, dangling: bool)
    requires PollInv(s.poller, s.queue) && OneInFlight(s.link, s.queue) && request.IsMrcCommand()
    requires PairInv(s.queue, s.manager.skipRead, dangling)
    requires !handler.PollRead? && (handler.SetDone? ==> request.ReqSet?)
    requires if dangling then
               s.queue.enqueued != [] && IsPair(s.queue.enqueued[|s.queue.enqueued| - 1], Entry(request, handler))
             else
               !handler.ReadAfterSet?
    ensures var t := QueueRequest(s, request, handler);
            && PollInv(t.poller, t.queue) && OneInFlight(t.link, t.queue)
            && PairInv(t.queue, t.manager.skipRead, handler.SetDone?)
  {
    hide TrySend, Regular, OneInFlight, InOrder, WillWake, Paired;
    var t := Append(s, request, handler);
    AppendKeeps(s, request, handler);
    PairedAppend(s.queue.enqueued, Entry(request, handler), dangling);
    PollReadsOfAppend(s.queue.entries, Entry(request, handler));
    TrySendSettles(t, handler.SetDone?, 0);
    QueueRequestKeeps(s, request, handler);
    TrySendPolls(t, handler.SetDone?);
  }

  // The timer has fired: the next read is queued, or the timer set again.
  lemma PollNextPolls(s: Server)
    requires PipelineInv(s) && PairsInv(s) && Regular(s.poller, s.queue.answered) && !s.poller.timer
    requires AtMostOne(s.queue.entries)
    requires !s.poller.stopped && PollReads(s.queue.entries) > 0 ==>
               !s.poller.clean && (s.poller.cycle.AtEnd() || s.poller.cycle.pos == 0)
    ensures PollInv(PollNext(s).poller, PollNext(s).queue)
  {
    hide TrySend, OneInFlight, InOrder, WillWake, GoodCycle, ValidEnumeration, AllFaithful, Paired;
    var c := s.poller.cycle;
    if !s.poller.stopped && !c.AtEnd() && s.queue.entries == [] {
      var request := ReqRead(Truncate(c.order[c.pos]), false);
      AppendKeeps(s, request, PollRead);
      PairedAppend(s.queue.enqueued, Entry(request, PollRead), false);
      PollReadsOfAppend([], Entry(request, PollRead));
      assert Append(s, request, PollRead).queue.entries == [Entry(request, PollRead)];
      TrySendPolls(Append(s, request, PollRead), false);
    }
  }

  // ----- Steps and runs -----

  ghost predicate PollingInv(s: Server) {
    PollInv(s.poller, s.queue)
  }

  lemma StartStopPolls(s: Server)
    requires PollingInv(s)
    ensures PollingInv(StartPolling(s)) && PollingInv(StopPolling(s))
  {
    hide Enumerates, AllFaithful, ValidEnumeration, CycleInv;
  }

  // The poller and the queue as they were, apart from starting, stopping and
  // subscribing.
  lemma SubscribingPolls(s: Server, subscriptions: map<Client, seq<Item>>)
    requires PollingInv(s)
    ensures PollingInv(s.(poller := s.poller.(subscriptions := subscriptions)))
  {
    hide Enumerates, AllFaithful, ValidEnumeration;
  }

  lemma StatusPolls(s: Server, status: Status)
    requires PollingInv(s)
    ensures PollingInv(SetStatus(s, status)) && PollingInv(TakeDown(s, status))
  {
    hide PollInv, StartPoller, StopPoller, SendTo;
    var t := SendToAll(s.(link := s.link.(status := status)), NotifyMrcStatus(status));
    StartStopPolls(t);
    var u := s.(link := s.link.(reconnectPending := false));
    StartStopPolls(SendToAll(u.(link := u.link.(status := status)), NotifyMrcStatus(status)));
  }

  lemma StartLinkPolls(s: Server)
    requires PollingInv(s)
    ensures PollingInv(StartLink(s))
  {
    hide PollInv, SetStatus, TakeDown;
    if IsDown(s.link.status) {
      StatusPolls(s, Connecting);
    }
  }

  lemma ClientsPoll(s: Server, c: Client)
    requires PollingInv(s)
    ensures PollingInv(Connect(s, c)) && PollingInv(Disconnect(s, c)) && PollingInv(StopAll(s))
  {
    hide PollInv, StartPoller, StopPoller, SendTo, Send, SetWriter, TheOnly;
    var m0 := s.manager.(connections := s.manager.connections + {c});
    var m2 := Send(Send(m0, c, NotifyMrcStatus(s.link.status)), c, NotifySilenced(s.link.silenced));
    StartStopPolls(s.(manager := SetWriter(m2, Some(c))));
    SubscribingPolls(s, s.poller.subscriptions - {c});
    SubscribingPolls(s, s.poller.subscriptions - s.manager.connections);
    StartStopPolls(s.(poller := s.poller.(subscriptions := s.poller.subscriptions - {c})));
    StartStopPolls(s.(poller := s.poller.(subscriptions := s.poller.subscriptions - s.manager.connections)));
  }

  lemma LocalRequestPolls(s: Server, c: Client, request: Request)
    requires PollingInv(s) && !request.IsMrcCommand()
    ensures PollingInv(DispatchLocal(s, c, request))
  {
    hide PollInv, Disconnect, StopAll, SetWriter, Send, SendTo, StartPoller, StopPoller, ExpandRanges;
    match request {
      case ReqSetSilenced(silenced) =>
        StartStopPolls(SendToAll(s.(link := s.link.(silenced := silenced)), NotifySilenced(silenced)));
      case ReqSetPollItems(ranges) =>
        SubscribingPolls(s, s.poller.subscriptions[c := ExpandRanges(ranges)]);
      case ReqQuit => ClientsPoll(SendBool(s, c, true), c);
      case NotARequest => ClientsPoll(SendError(s, c, InvalidType), c);
      case _ =>
    }
  }

  lemma DispatchPolls(s: Server, c: Client, request: Request)
    requires PipelineInv(s) && PollingInv(s) && PairsInv(s)
    ensures PollingInv(Dispatch(s, c, request))
  {
    hide PollInv, QueueRequest, DispatchLocal, OneInFlight, InOrder, WillWake, Send, PairInv;
    var s1 := s.(manager := CountRequest(s.manager, c));
    if !request.IsMrcCommand() {
      LocalRequestPolls(s1, c, request);
    } else if request.IsMrcWriteCommand() && s.manager.writer != Some(c) {
    } else if request.ReqSet? {
      QueuePolls(s1, request, SetDone(c), false);
      QueuePolls(QueueRequest(s1, request, SetDone(c)),
        ReqRead(Truncate(request.item), request.mirror), ReadAfterSet(c), true);
    } else {
      QueuePolls(s1, request, ForClient(c), false);
    }
  }

  lemma TimeoutsPoll(s: Server)
    requires PipelineInv(s) && PollingInv(s) && PairsInv(s)
    ensures s.poller.timer ==> PollingInv(PollTimeout(s))
    ensures PollingInv(ScanTimeout(s))
  {
    hide QueueRequest, PollNext, OneInFlight, InOrder, WillWake, GoodCycle, ValidEnumeration, AllFaithful, PairInv;
    if s.poller.timer {
      var s0 := s.(poller := s.poller.(timer := false));
      if !s.poller.cycle.AtEnd() {
        PollNextPolls(s0);
      } else if !s.poller.stopped {
        NewCycleIsGood(s0.poller, s.queue.answered);
        assert Regular(NewCycle(s0.poller, |s.queue.answered|), s.queue.answered);
        PollNextPolls(s0.(poller := NewCycle(s0.poller, |s.queue.answered|)));
      }
    }
    var s2 := s.(scanner := s.scanner.(timer := false));
    QueuePolls(s2, ReqScanbus(0), ScanRead, false);
    QueuePolls(QueueRequest(s2, ReqScanbus(0), ScanRead), ReqScanbus(1), ScanRead, false);
  }

  lemma DeliveryPolls(s: Server)
    requires PipelineInv(s) && PollingInv(s) && PairsInv(s) && s.link.posted != []
    ensures var p := s.link.posted[0];
            PollingInv(HandleResponse(s.(link := s.link.(posted := s.link.posted[1..])), p.request, p.response))
  {
    hide TrySend, AnswerFront, Handle, PollInv, InOrder, PairInv;
    var p := s.link.posted[0];
    var s1 := s.(link := s.link.(posted := s.link.posted[1..]));
    AnswerFrontPolls(s1, p.response, false);
    AnswerFrontKeepsPairs(s1, p.response, false);
    TrySendPolls(AnswerFront(s1, p.request, p.response), false);
  }

  lemma StepPolls(s: Server, e: Event)
    requires PipelineInv(s) && PollingInv(s) && PairsInv(s)
    ensures PollingInv(Step(s, e))
  {
    hide Connect, Disconnect, Dispatch, TakeReply, HandleResponse, TrySend, PollTimeout, ScanTimeout;
    hide StartLink, SetStatus, TakeDown, PollInv, PostResponse, OneInFlight, InOrder, WillWake, PairInv;
    if Enabled(s, e) {
      match e {
        case ClientConnects(d) => ClientsPoll(s, d);
        case ClientDisconnects(d) => ClientsPoll(s, d);
        case ClientRequests(d, request) => DispatchPolls(s, d, request);
        case WriteCompletes =>
        case ReplyArrives(_) =>
        case WriteFails(timedOut) =>
          StatusPolls(s.(link := PostResponse(s.link, RespError(if timedOut then ComTimeout else ComError))), Stopped);
        case ReadFails(timedOut) =>
          StatusPolls(s.(link := PostResponse(s.link, RespError(if timedOut then ComTimeout else ComError))), Stopped);
        case ResponseDelivered => DeliveryPolls(s);
        case RetryTimerFires => RetryPolls(s);
        case PollTimerFires => TimeoutsPoll(s);
        case ScanTimerFires => TimeoutsPoll(s);
        case LinkStarted => StartLinkPolls(s);
        case ReconnectTimerFires =>
          StartLinkPolls(s.(link := s.link.(reconnectPending := false)));
        case LinkOpens(opens) =>
          StatusPolls(s, Initializing);
          StatusPolls(s, ConnectFailed);
        case InitCompletes => StatusPolls(s, Running);
        case InitFails => StatusPolls(s, InitFailed);
      }
    }
  }

  lemma RetryPolls(s: Server)
    requires PipelineInv(s) && PollingInv(s) && PairsInv(s) && s.queue.retriesPending > 0
    ensures PollingInv(TrySend(s.(queue := s.queue.(retriesPending := s.queue.retriesPending - 1))))
  {
    hide TrySend, Regular, OneRead, AtMostOne, Paired;
    TrySendPolls(s.(queue := s.queue.(retriesPending := s.queue.retriesPending - 1)), false);
  }

  lemma {:induction false} RunPolls(s: Server, events: seq<Event>)
    requires PipelineInv(s) && PollingInv(s) && PairsInv(s) && Fair(s, 0)
    ensures PollingInv(Run(s, events))
    decreases |events|
  {
    hide Step, PollInv, OneInFlight, InOrder, WillWake, PairsInv, Fair;
    if events == [] {
    } else {
      StepKeeps(s, events[0]);
      StepPolls(s, events[0]);
      StepSettles(s, events[0], 0);
      RunPolls(Step(s, events[0]), events[1..]);
    }
  }

  lemma InitialPollingInv(enumerate: (nat, set<Item>) -> seq<Item>)
    requires ValidEnumeration(enumerate)
    ensures PollingInv(Initial(enumerate))
  {
    hide ValidEnumeration, CycleInv, Faithful;
  }

  lemma InitialPolls(enumerate: (nat, set<Item>) -> seq<Item>)
    requires ValidEnumeration(enumerate)
    ensures PipelineInv(Initial(enumerate)) && PollingInv(Initial(enumerate))
    ensures PairsInv(Initial(enumerate)) && Fair(Initial(enumerate), 0)
  {
    hide ValidEnumeration, PollInv, OneInFlight, InOrder, WillWake, Paired, SetJustFailed, Settled, Requests;
    InitialPollingInv(enumerate);
    InitialReplies(enumerate);
  }

  lemma RunFromStart(enumerate: (nat, set<Item>) -> seq<Item>, events: seq<Event>)
    requires ValidEnumeration(enumerate)
    ensures PipelineInv(Initial(enumerate)) && PollingInv(Run(Initial(enumerate), events))
  {
    hide *;
    InitialPolls(enumerate);
    RunPolls(Initial(enumerate), events);
  }

  // In every run, every result that is delivered, 'first' being the parameter of
  // the first reading of its cycle. It has this parameter and those of all items
  // of the poll set but the first. In an epoch that began with no poll read
  // outstanding 'first' is the parameter of the first item. If no two items are
  // truncated to the same parameter, the keys are those of the poll set exactly
  // if it is; and unless it is the parameter of another item, every value is the
  // last one that any answer, up to the poll read that completed the cycle, told
  // of the parameter: to a poll read of this cycle, or to the READ after a SET,
  // however SETs and subscriptions interleaved with the cycle.
  lemma PollResultsAreNewest(enumerate: (nat, set<Item>) -> seq<Item>, events: seq<Event>, pub: Publication)
    requires ValidEnumeration(enumerate)
    ensures PipelineInv(Initial(enumerate))
    ensures var s := Run(Initial(enumerate), events);
            var answered := s.queue.answered;
            pub in s.poller.published ==>
              && 0 < pub.upto <= |answered| && answered[pub.upto - 1].entry.handler.PollRead?
              && Enumerates(pub.order, pub.items) && pub.order != []
              && FirstPolled(answered[..pub.upto], pub.since).Some?
              && var first, keys := FirstPolled(answered[..pub.upto], pub.since).value, Keys(pub.items);
                 && pub.result.Keys == {first} + Later(pub.order, |pub.order|)
                 && (pub.clean ==> first == Truncate(pub.order[0]))
                 && (first == Truncate(pub.order[0]) ==> pub.result.Keys == keys)
                 && (Distinct(pub.items) ==> (pub.result.Keys == keys <==> first == Truncate(pub.order[0])))
                 && (Distinct(pub.items) && (first == Truncate(pub.order[0]) || first !in keys) ==>
                       forall k <- pub.result ::
                         LastTold(answered[..pub.upto], pub.since, k) == Some(pub.result[k]))
  {
    hide Run, Distinct, LastTold, FirstPolled, Enumerates, Later, Keys, Truncate;
    RunFromStart(enumerate, events);
    var s := Run(Initial(enumerate), events);
    if pub in s.poller.published {
      assert Faithful(pub, s.queue.answered);
      KeysOfReadings(pub.order, pub.items, FirstPolled(s.queue.answered[..pub.upto], pub.since).value);
    }
  }

  // The parameters of a poll set.
  function Keys(items: set<Item>): set<Item> {
    set x | x in items :: Truncate(x)
  }

  lemma KeysOfReadings(order: seq<Item>, items: set<Item>, first: Item)
    requires Enumerates(order, items) && order != []
    ensures Later(order, |order|) <= Keys(items)
    ensures first == Truncate(order[0]) ==> {first} + Later(order, |order|) == Keys(items)
    ensures Distinct(items) ==> Truncate(order[0]) !in Later(order, |order|)
    ensures Distinct(items) ==> ({first} + Later(order, |order|) == Keys(items) <==> first == Truncate(order[0]))
  {
    var later, keys := Later(order, |order|), Keys(items);
    assert order[0] in order && Truncate(order[0]) in keys;
    forall i | 0 <= i < |order| ensures order[i] in items {
      assert order[i] in order;
    }
    forall k | k in keys ensures k == Truncate(order[0]) || k in later {
      var x :| x in items && Truncate(x) == k;
      assert x in order;
    }
    if Distinct(items) {
      forall i | 1 <= i < |order| ensures Truncate(order[i]) != Truncate(order[0]) {
        assert order[0] in items && order[i] in items;
      }
    }
  }

  // The delivered keys are the subscribed items themselves exactly if all of
  // these are in the range of the MRC's addresses.
  lemma KeysAreTheItems(items: set<Item>)
    ensures (set x | x in items :: Truncate(x)) == items <==> forall x <- items :: InByteRange(x)
  {
    hide Truncate, InByteRange;
    var keys := set x | x in items :: Truncate(x);
    forall x: Item ensures InByteRange(Truncate(x)) && (InByteRange(x) ==> Truncate(x) == x) {
      ByteRange(x);
    }
    if keys == items {
      forall x | x in items ensures InByteRange(x) {
        assert x in keys;
      }
    }
    if forall x <- items :: InByteRange(x) {
      assert forall x <- items :: Truncate(x) in keys;
    }
  }

  lemma ByteRange(x: Item)
    ensures InByteRange(Truncate(x)) && (InByteRange(x) ==> Truncate(x) == x)
  {
  }

  // ----- Items that denote the same parameter -----

  // The rest of a cycle, in which the reading for the i-th item gives vals[i].
  function ReadAll(c: Cycle, vals: seq<int>): (d: Cycle)
    requires c.pos <= |c.order| == |vals|
    ensures d.order == c.order && d.items == c.items && d.pos == |d.order|
    decreases |c.order| - c.pos
  {
    if c.AtEnd() then c else ReadAll(TakeReading(c, Truncate(c.order[c.pos]), vals[c.pos]), vals)
  }

  // The parameter of the i-th item is not visited again.
  ghost predicate LastVisit(order: seq<Item>, i: nat)
    requires i < |order|
  {
    forall j | i < j < |order| :: Truncate(order[j]) != Truncate(order[i])
  }

  ghost predicate Holds(result: map<Item, int>, item: Item, val: int) {
    Truncate(item) in result && result[Truncate(item)] == val
  }

  // Every parameter has the value it was last read with.
  ghost predicate Current(result: map<Item, int>, order: seq<Item>, vals: seq<int>)
    requires |vals| == |order|
  {
    forall i | 0 <= i < |order| && LastVisit(order, i) :: Holds(result, order[i], vals[i])
  }

  lemma DistinctReading(c: Cycle, vals: seq<int>)
    requires Enumerates(c.order, c.items) && Distinct(c.items) && c.pos < |c.order| == |vals|
    requires c.result.Keys == Visited(c.order, c.pos)
    requires forall i | 0 <= i < c.pos :: Holds(c.result, c.order[i], vals[i])
    ensures var d := TakeReading(c, Truncate(c.order[c.pos]), vals[c.pos]);
            && d.result.Keys == Visited(d.order, d.pos)
            && forall i | 0 <= i < d.pos :: Holds(d.result, d.order[i], vals[i])
  {
    FreshReading(c);
    hide Enumerates, Distinct, Truncate;
    assert Visited(c.order, c.pos + 1) == Visited(c.order, c.pos) + {Truncate(c.order[c.pos])};
    hide Visited;
    var d := TakeReading(c, Truncate(c.order[c.pos]), vals[c.pos]);
    forall i | 0 <= i < d.pos ensures Holds(d.result, d.order[i], vals[i]) {
      assert i < c.pos ==> Holds(c.result, c.order[i], vals[i]);
    }
  }

  lemma {:induction false} DistinctDelivers(c: Cycle, vals: seq<int>)
    requires Enumerates(c.order, c.items) && Distinct(c.items) && c.pos <= |c.order| == |vals|
    requires c.result.Keys == Visited(c.order, c.pos)
    requires forall i | 0 <= i < c.pos :: Holds(c.result, c.order[i], vals[i])
    ensures forall i | 0 <= i < |c.order| :: Holds(ReadAll(c, vals).result, c.order[i], vals[i])
    decreases |c.order| - c.pos
  {
    hide Enumerates, Distinct, Visited, Holds, Truncate;
    if c.AtEnd() {
    } else {
      DistinctReading(c, vals);
      DistinctDelivers(TakeReading(c, Truncate(c.order[c.pos]), vals[c.pos]), vals);
    }
  }

  // If the i-th reading gives the number i, what is recorded for a parameter is
  // no later than any of its visits.
  ghost predicate NotLater(result: map<Item, int>, item: Item, i: nat) {
    Truncate(item) in result && result[Truncate(item)] <= i
  }

  lemma {:induction false} FirstReadingStays(c: Cycle, vals: seq<int>)
    requires c.pos <= |c.order| == |vals| && forall i | 0 <= i < |vals| :: vals[i] == i
    requires forall i | 0 <= i < c.pos :: NotLater(c.result, c.order[i], i)
    requires forall k <- c.result :: c.result[k] < c.pos
    ensures forall i | 0 <= i < |c.order| :: NotLater(ReadAll(c, vals).result, c.order[i], i)
    decreases |c.order| - c.pos
  {
    if c.AtEnd() {
    } else {
      var d := TakeReading(c, Truncate(c.order[c.pos]), vals[c.pos]);
      forall i | 0 <= i < d.pos ensures NotLater(d.result, d.order[i], i) {
        assert i < c.pos ==> NotLater(c.result, c.order[i], i);
      }
      FirstReadingStays(d, vals);
    }
  }

  lemma {:induction false} LastVisitExists(order: seq<Item>, i: nat) returns (l: nat)
    requires i < |order|
    ensures i <= l < |order| && LastVisit(order, l) && Truncate(order[l]) == Truncate(order[i])
    decreases |order| - i
  {
    if LastVisit(order, i) {
      l := i;
    } else {
      var j :| i < j < |order| && Truncate(order[j]) == Truncate(order[i]);
      l := LastVisitExists(order, j);
    }
  }

  lemma CollisionShows(c: Cycle, i: nat, j: nat)
    requires c.pos == 0 && c.result == map[]
    requires i < j < |c.order| && Truncate(c.order[i]) == Truncate(c.order[j])
    ensures exists vals: seq<int> | |vals| == |c.order| :: !Current(ReadAll(c, vals).result, c.order, vals)
  {
    hide ReadAll, Truncate, LastVisit;
    var vals := seq(|c.order|, k => k);
    FirstReadingStays(c, vals);
    var l := LastVisitExists(c.order, j);
    var result := ReadAll(c, vals).result;
    assert NotLater(result, c.order[i], i);
    assert !Holds(result, c.order[l], vals[l]);
    assert !Current(result, c.order, vals);
  }

  // A cycle delivers the last value read for every parameter, whatever the MRC
  // answers, if and only if no two of its items denote the same parameter: the
  // second reading of one is dropped.
  lemma CollidingItems(c: Cycle)
    requires Enumerates(c.order, c.items) && c.pos == 0 && c.result == map[]
    ensures Distinct(c.items) <==>
            forall vals: seq<int> | |vals| == |c.order| :: Current(ReadAll(c, vals).result, c.order, vals)
  {
    hide ReadAll, Truncate, LastVisit, Holds;
    if Distinct(c.items) {
      forall vals: seq<int> | |vals| == |c.order| ensures Current(ReadAll(c, vals).result, c.order, vals) {
        assert Visited(c.order, 0) == {};
        DistinctDelivers(c, vals);
      }
    } else {
      var x, y :| x in c.items && y in c.items && Truncate(x) == Truncate(y) && x != y;
      assert x in c.order && y in c.order;
      var i, j :| 0 <= i < |c.order| && 0 <= j < |c.order| && c.order[i] == x && c.order[j] == y;
      if i < j {
        CollisionShows(c, i, j);
      } else {
        CollisionShows(c, j, i);
      }
    }
  }

  lemma NewCycleDelivers(p: Poller, now: nat)
    ensures NewCycle(p, now).published == p.published
  {
  }

  lemma CompletedCycle(s: Server, response: Message)
    requires PollResponse(s, response).poller.published != s.poller.published
    ensures response.RespRead?
    ensures var t, d := PollResponse(s, response), TakeReading(s.poller.cycle, response.item, response.val);
            && t.manager == SendTo(s.manager, s.manager.connections, NotifyPolledItems(d.result))
            && t.poller.published == s.poller.published
                 + [Publication(d.items, d.order, d.result, d.since, |s.queue.answered| + 1, s.poller.clean)]
  {
    hide SendTo, NewCycle, TakeReading;
    if !s.poller.stopped && response.RespRead? {
      var p := s.poller.(cycle := TakeReading(s.poller.cycle, response.item, response.val));
      NewCycleDelivers(Publish(p, |s.queue.answered| + 1), |s.queue.answered| + 1);
    }
  }

  // A completed cycle goes to every connected client.
  lemma CompletedCycleIsSent(s: Server, response: Message, c: Client)
    requires PollResponse(s, response).poller.published != s.poller.published
    requires c in s.manager.connections
    ensures var t, n := PollResponse(s, response), |s.poller.published|;
            && |t.poller.published| == n + 1 && t.poller.published[..n] == s.poller.published
            && Outbox(t.manager, c) == Outbox(s.manager, c) + [NotifyPolledItems(t.poller.published[n].result)]
  {
    hide PollResponse, TakeReading, SendTo, Outbox;
    CompletedCycle(s, response);
    var d := TakeReading(s.poller.cycle, response.item, response.val);
    SendToReaches(s.manager, s.manager.connections, NotifyPolledItems(d.result), c);
  }

  lemma SendToReaches(m: Manager, to: set<Client>, msg: Message, c: Client)
    ensures Outbox(SendTo(m, to, msg), c) == Outbox(m, c) + (if c in to then [msg] else [])
  {
  }
}
