/** The parser that turns the text lines sent by the MRC into one response
    (src/server/mrc1_reply_parser.cc). */
module ReplyParser {
  import opened Messages

  // A reading of a bus listing: the device number, and the identifier code and
  // remote control state if a device is present.
  datatype BodyLine = BodyLine(dev: nat, device: Option<(nat, bool)>)
  datatype ValueLine = ValueLine(item: Item, val: int)

  // A line of text, reduced to what each of the regular expressions of the
  // parser makes of it. A line may match several of them.
  datatype Line = Line(
    noResponse: bool,             // ^ERR.*NO RESP.*
    busAddress: bool,             // ^ERR.*ADDR.*
    error: bool,                  // ^ERR.*
    values: Option<ValueLine>,    // a READ or SET reply
    header: Option<nat>,          // ID-SCAN BUS n:
    body: Option<BodyLine>,       // n: - or n: idc, ON
    exactNoResponse: bool         // ERR:NO RESP
  )

  const SIZE_T_LIMIT: nat := 0x1_0000_0000_0000_0000

  // size_t subtraction.
  function Wrap(n: int): nat {
    n % SIZE_T_LIMIT
  }

  // The state of the parser: the response so far, the lines still to be
  // dropped, and whether an address conflict was just reported.
  datatype Parse = Parse(response: Option<Message>, toConsume: nat, conflict: bool)

  const FRESH := Parse(None, 0, false)

  function ErrorOf(line: Line): Option<Message> {
    if line.noResponse then Some(RespError(NoResponse))
    else if line.busAddress then Some(RespError(AddressConflict))
    else if line.error then Some(RespError(Unknown))
    else None
  }

  // The entry a body line contributes, given a pending address conflict.
  function EntryOf(body: BodyLine, conflict: bool): ScanEntry {
    match body.device
    case Some(d) => ScanEntry(d.0, d.1, conflict)
    case None => ScanEntry(0, false, conflict)
  }

  // One line: the new state, and whether the response is complete.
  function After(request: Request, p: Parse, line: Line): (Parse, bool) {
    if p.toConsume != 0 then
      (p.(toConsume := p.toConsume - 1), p.toConsume == 1)
    else match request
      case ReqRead(item, mirror) => AfterValue(p, line, item, v => RespRead(item, v, mirror))
      case ReqSet(item, _, mirror) => AfterValue(p, line, item, v => MakeSetResponse(item, v, AsInt(mirror)))
      case ReqRc(_, _, _) => AfterOther(p, line)
      case ReqReset(_, _) => AfterOther(p, line)
      case ReqCopy(_, _) => AfterOther(p, line)
      case ReqScanbus(_) => AfterScanbus(p, line)
      case _ => (p.(response := Some(RespError(Unknown))), true)
  }

  function AfterValue(p: Parse, line: Line, item: Item, reply: int -> Message): (Parse, bool) {
    if ErrorOf(line).Some? then (p.(response := ErrorOf(line), toConsume := 1), false)
    else if line.values.None? || item != Truncate(line.values.value.item) then
      (p.(response := Some(RespError(ParseError))), true)
    else (p.(response := Some(reply(line.values.value.val))), true)
  }

  function AfterOther(p: Parse, line: Line): (Parse, bool) {
    if ErrorOf(line).Some? then (p.(response := ErrorOf(line), toConsume := 1), false)
    else (p.(response := Some(RespBool(true))), true)
  }

  function AfterScanbus(p: Parse, line: Line): (Parse, bool) {
    if line.header.Some? then
      (p.(response := Some(RespScanbus(line.header.value % 256, []))), false)
    else if line.busAddress then
      (p.(conflict := true), false)
    else if line.body.Some? then
      var b := line.body.value;
      match p.response {
        case Some(RespScanbus(bus, entries)) =>
          (p.(response := Some(RespScanbus(bus, entries + [EntryOf(b, p.conflict)])), conflict := false), b.dev >= 15)
        case _ =>
          (p.(response := Some(RespError(ParseError)), toConsume := Wrap(15 - b.dev)), b.dev >= 15)
      }
    else if line.exactNoResponse then (p.(response := Some(RespError(NoResponse))), true)
    else (p.(response := Some(RespError(ParseError))), true)
  }

  // Feeds lines until one completes the response: the final state, and the
  // number of lines used up if the response is complete.
  function FeedAll(request: Request, p: Parse, lines: seq<Line>): (r: (Parse, Option<nat>))
    ensures r.1.Some? ==> 0 < r.1.value <= |lines|
    decreases |lines|
  {
    if lines == [] then (p, None)
    else
      var (q, done) := After(request, p, lines[0]);
      if done then (q, Some(1))
      else
        var (r, used) := FeedAll(request, q, lines[1..]);
        (r, if used.None? then None else Some(used.value + 1))
  }

  // The response to a request whose reply consists of 'lines'; None if the
  // parser still wants more.
  function Respond(request: Request, lines: seq<Line>): Option<Message> {
    var (p, used) := FeedAll(request, FRESH, lines);
    if used.None? then None else p.response
  }

  // The responses a client may get for an MRC command: an error, or a reply to
  // what was asked for. A reply to a SET never carries the mirror flag, but has
  // it as the requested value. A scan is answered with the bus that the MRC's
  // header names, whichever was asked for.
  predicate Answers(request: Request, response: Message) {
    || response.RespError?
    || match request
       case ReqRead(item, mirror) =>
         response.RespRead? && response.item == item && response.mirror == mirror && InByteRange(item)
       case ReqSet(item, _, mirror) =>
         && response.RespSet? && response.item == item && InByteRange(item)
         && !response.mirror && response.requested == AsInt(mirror)
       case ReqScanbus(_) => response.RespScanbus?
       case ReqRc(_, _, _) => response.RespBool?
       case ReqReset(_, _) => response.RespBool?
       case ReqCopy(_, _) => response.RespBool?
       case _ => false
  }

  // What holds of the response while lines are being fed.
  ghost predicate Sound(request: Request, p: Parse) {
    p.response.Some? ==> Answers(request, p.response.value)
  }

  lemma AfterIsSound(request: Request, p: Parse, line: Line)
    requires Sound(request, p)
    requires p.toConsume != 0 ==> p.response.Some?
    ensures var (q, done) := After(request, p, line);
            Sound(request, q) && (done || q.toConsume != 0 ==> q.response.Some?)
  {
  }

  lemma {:induction false} FeedAllIsSound(request: Request, p: Parse, lines: seq<Line>)
    requires Sound(request, p) && (p.toConsume != 0 ==> p.response.Some?)
    ensures var (q, used) := FeedAll(request, p, lines);
            Sound(request, q) && (used.Some? ==> q.response.Some?)
    decreases |lines|
  {
    if lines == [] {
    } else {
      AfterIsSound(request, p, lines[0]);
      var (q, done) := After(request, p, lines[0]);
      FeedAllIsSound(request, q, lines[1..]);
    }
  }

  // Whatever the MRC sends, a completed parse answers the request that was
  // asked: a value is only ever reported for the parameter it belongs to.
  lemma RespondAnswers(request: Request, lines: seq<Line>)
    ensures Respond(request, lines).Some? ==> Answers(request, Respond(request, lines).value)
  {
    FeedAllIsSound(request, FRESH, lines);
  }

  // A parameter is read with one line; an error takes a second line with it,
  // and until that line arrives there is no response.
  lemma ReadReply(item: Item, mirror: bool, lines: seq<Line>)
    requires lines != []
    ensures var r := Respond(ReqRead(item, mirror), lines);
            if lines[0].noResponse || lines[0].busAddress || lines[0].error then
              if |lines| == 1 then r == None
              else
                r == Some(RespError(
                  if lines[0].noResponse then NoResponse
                  else if lines[0].busAddress then AddressConflict
                  else Unknown))
            else if lines[0].values.Some? && Truncate(lines[0].values.value.item) == item then
              r == Some(RespRead(item, lines[0].values.value.val, mirror))
            else
              r == Some(RespError(ParseError))
  {
    var p := After(ReqRead(item, mirror), FRESH, lines[0]).0;
    if ErrorOf(lines[0]).Some? && |lines| > 1 {
      FeedDropped(ReqRead(item, mirror), p, lines[1..]);
    }
  }

  // A SET likewise, but for the flag.
  lemma SetReply(item: Item, val: int, mirror: bool, lines: seq<Line>)
    requires lines != []
    ensures var r := Respond(ReqSet(item, val, mirror), lines);
            if ErrorOf(lines[0]).Some? then
              r == if |lines| == 1 then None else ErrorOf(lines[0])
            else if lines[0].values.Some? && Truncate(lines[0].values.value.item) == item then
              r == Some(RespSet(item, lines[0].values.value.val, AsInt(mirror), false))
            else
              r == Some(RespError(ParseError))
  {
    var p := After(ReqSet(item, val, mirror), FRESH, lines[0]).0;
    if ErrorOf(lines[0]).Some? && |lines| > 1 {
      FeedDropped(ReqSet(item, val, mirror), p, lines[1..]);
    }
  }

  // The other commands take any line that is no error for success.
  lemma OtherReply(request: Request, lines: seq<Line>)
    requires request.ReqRc? || request.ReqReset? || request.ReqCopy?
    requires lines != []
    ensures var r := Respond(request, lines);
            if ErrorOf(lines[0]).Some? then
              r == if |lines| == 1 then None else ErrorOf(lines[0])
            else
              r == Some(RespBool(true))
  {
    var p := After(request, FRESH, lines[0]).0;
    if ErrorOf(lines[0]).Some? && |lines| > 1 {
      FeedDropped(request, p, lines[1..]);
    }
  }

  // ----- When there is no response -----

  // A line that ends a listing: the body of the last address, or anything that
  // belongs to no listing.
  predicate Final(line: Line) {
    line.header.None? && !line.busAddress && (line.body.None? || line.body.value.dev >= 15)
  }

  // The reply to a scan ends too early: there is nothing but conflict lines; or
  // after these comes a header and no final line after it; or a body without a
  // header, and fewer lines than there are addresses left.
  predicate ScanStarves(lines: seq<Line>) {
    if lines == [] then true
    else if lines[0].header.Some? then forall l <- lines[1..] :: !Final(l)
    else if lines[0].busAddress then ScanStarves(lines[1..])
    else !Final(lines[0]) && |lines[1..]| < 15 - lines[0].body.value.dev
  }

  lemma {:induction false} ListingStarves(scanned: nat, p: Parse, lines: seq<Line>)
    requires p.toConsume == 0 && p.response.Some? && p.response.value.RespScanbus?
    ensures FeedAll(ReqScanbus(scanned), p, lines).1 == None <==> forall l <- lines :: !Final(l)
    decreases |lines|
  {
    if lines == [] {
    } else {
      var (q, done) := After(ReqScanbus(scanned), p, lines[0]);
      assert done <==> Final(lines[0]);
      assert lines == [lines[0]] + lines[1..];
      if !done {
        ListingStarves(scanned, q, lines[1..]);
      }
    }
  }

  lemma {:induction false} ScanStarvesExactly(scanned: nat, p: Parse, lines: seq<Line>)
    requires p.toConsume == 0 && p.response.None?
    ensures FeedAll(ReqScanbus(scanned), p, lines).1 == None <==> ScanStarves(lines)
    decreases |lines|
  {
    if lines == [] {
    } else {
      var (q, done) := After(ReqScanbus(scanned), p, lines[0]);
      if lines[0].header.Some? {
        ListingStarves(scanned, q, lines[1..]);
      } else if lines[0].busAddress {
        ScanStarvesExactly(scanned, q, lines[1..]);
      } else if !Final(lines[0]) {
        FeedDropped(ReqScanbus(scanned), q, lines[1..]);
      }
    }
  }

  // Exactly which replies leave a command without a response: no line at all,
  // a lone error line, or a listing that ends too early.
  predicate Starves(request: Request, lines: seq<Line>) {
    if request.ReqScanbus? then ScanStarves(lines)
    else if request.IsMrcCommand() && !request.ReqReadMulti? then
      lines == [] || (|lines| == 1 && ErrorOf(lines[0]).Some?)
    else lines == []
  }

  lemma NoResponseExactly(request: Request, lines: seq<Line>)
    ensures Respond(request, lines) == None <==> Starves(request, lines)
  {
    FeedAllIsSound(request, FRESH, lines);
    if lines == [] {
    } else {
      match request {
        case ReqScanbus(bus) => ScanStarvesExactly(bus, FRESH, lines);
        case ReqRead(item, mirror) => ReadReply(item, mirror, lines);
        case ReqSet(item, val, mirror) => SetReply(item, val, mirror, lines);
        case ReqRc(_, _, _) => OtherReply(request, lines);
        case ReqReset(_, _) => OtherReply(request, lines);
        case ReqCopy(_, _) => OtherReply(request, lines);
        case _ =>
      }
    }
  }

  // ----- A bus scan -----

  ghost predicate IsHeader(line: Line, bus: nat) {
    line.header == Some(bus)
  }

  ghost predicate IsConflict(line: Line) {
    line.header.None? && line.busAddress
  }

  ghost predicate IsBody(line: Line, body: BodyLine) {
    line.header.None? && !line.busAddress && line.body == Some(body)
  }

  // One address of a bus listing: the body line, preceded by zero or more
  // conflict lines. 'conflicted' says whether there is one.
  datatype Slot = Slot(conflicts: seq<Line>, line: Line)

  ghost predicate IsSlot(slot: Slot, dev: nat) {
    && (forall l <- slot.conflicts :: IsConflict(l))
    && (exists d :: IsBody(slot.line, BodyLine(dev, d)))
  }

  function LinesOf(slots: seq<Slot>): seq<Line> {
    if slots == [] then [] else slots[0].conflicts + [slots[0].line] + LinesOf(slots[1..])
  }

  // The entry a slot stands for: what the line says of the device, if there is
  // one, and whether there was a conflict line before it.
  ghost predicate Lists(e: ScanEntry, slot: Slot)
    requires slot.line.body.Some?
  {
    && (e.conflict <==> slot.conflicts != [])
    && match slot.line.body.value.device
       case Some((idc, on)) => e.idc == idc && e.rc == on
       case None => e.idc == 0 && !e.rc
  }

  ghost function Meaning(slot: Slot): (e: ScanEntry)
    requires slot.line.body.Some?
    ensures Lists(e, slot)
  {
    EntryOf(slot.line.body.value, slot.conflicts != [])
  }

  ghost predicate AreSlots(slots: seq<Slot>, first: nat) {
    forall i | 0 <= i < |slots| :: IsSlot(slots[i], first + i)
  }

  ghost function Meanings(slots: seq<Slot>, first: nat): (entries: seq<ScanEntry>)
    requires AreSlots(slots, first)
    ensures |entries| == |slots|
    ensures forall i | 0 <= i < |slots| :: IsSlot(slots[i], first + i) && Lists(entries[i], slots[i])
  {
    seq(|slots|, i requires 0 <= i < |slots| && IsSlot(slots[i], first + i) => Meaning(slots[i]))
  }

  lemma {:induction false} FeedConflicts(request: Request, p: Parse, conflicts: seq<Line>, rest: seq<Line>)
    requires request.ReqScanbus? && p.toConsume == 0
    requires forall l <- conflicts :: IsConflict(l)
    ensures var start := if conflicts == [] then p else p.(conflict := true);
            var (q, used) := FeedAll(request, start, rest);
            FeedAll(request, p, conflicts + rest)
              == (q, if used.None? then None else Some(used.value + |conflicts|))
    decreases |conflicts|
  {
    if conflicts == [] {
      assert conflicts + rest == rest;
    } else {
      var lines := conflicts + rest;
      assert IsConflict(lines[0]) && lines[1..] == conflicts[1..] + rest;
      FeedConflicts(request, p.(conflict := true), conflicts[1..], rest);
    }
  }

  // One address of a listing: done with the last one, otherwise one entry more.
  lemma FeedSlot(request: Request, p: Parse, bus: nat, soFar: seq<ScanEntry>, slot: Slot, dev: nat, rest: seq<Line>)
    requires request.ReqScanbus? && p == Parse(Some(RespScanbus(bus, soFar)), 0, false)
    requires IsSlot(slot, dev)
    ensures var next := p.(response := Some(RespScanbus(bus, soFar + [Meaning(slot)])));
            var (q, used) := if dev >= 15 then (next, Some(0)) else FeedAll(request, next, rest);
            FeedAll(request, p, slot.conflicts + ([slot.line] + rest))
              == (q, if used.None? then None else Some(used.value + 1 + |slot.conflicts|))
  {
    var tail := [slot.line] + rest;
    assert tail[0] == slot.line && tail[1..] == rest;
    var start := if slot.conflicts == [] then p else p.(conflict := true);
    var next := p.(response := Some(RespScanbus(bus, soFar + [Meaning(slot)])));
    assert After(request, start, slot.line) == (next, dev >= 15);
    FeedConflicts(request, p, slot.conflicts, tail);
    hide After, Meaning;
  }

  lemma MeaningsSplit(slots: seq<Slot>, first: nat)
    requires slots != [] && AreSlots(slots, first)
    ensures IsSlot(slots[0], first) && AreSlots(slots[1..], first + 1) && slots[0].line.body.Some?
    ensures Meanings(slots, first) == [Meaning(slots[0])] + Meanings(slots[1..], first + 1)
  {
    hide IsConflict;
    assert IsSlot(slots[0], first + 0);
    forall i | 0 <= i < |slots[1..]| ensures IsSlot(slots[1..][i], first + 1 + i) {
      assert IsSlot(slots[i + 1], first + (i + 1));
    }
  }

  // The body of a listing, from address 'first' to address 15, with 'soFar'
  // entries already collected.
  lemma {:induction false} FeedSlots(request: Request, p: Parse, bus: nat, soFar: seq<ScanEntry>, slots: seq<Slot>,
                                     first: nat, rest: seq<Line>)
    requires request.ReqScanbus?
    requires p == Parse(Some(RespScanbus(bus, soFar)), 0, false)
    requires 0 < |slots| && first + |slots| == 16 && AreSlots(slots, first)
    ensures FeedAll(request, p, LinesOf(slots) + rest)
              == (p.(response := Some(RespScanbus(bus, soFar + Meanings(slots, first)))), Some(|LinesOf(slots)|))
    decreases |slots|
  {
    hide FeedAll, Meanings, Meaning, AreSlots, IsSlot, After, LinesOf;
    var slot := slots[0];
    MeaningsSplit(slots, first);
    LinesSplit(slots, rest);
    FeedSlot(request, p, bus, soFar, slot, first, LinesOf(slots[1..]) + rest);
    assert (soFar + [Meaning(slot)]) + Meanings(slots[1..], first + 1)
        == soFar + ([Meaning(slot)] + Meanings(slots[1..], first + 1));
    if |slots| == 1 {
      NoMeanings(slots[1..], first + 1);
      assert (soFar + [Meaning(slot)]) + [] == soFar + [Meaning(slot)];
    } else {
      var next := p.(response := Some(RespScanbus(bus, soFar + [Meaning(slot)])));
      FeedSlots(request, next, bus, soFar + [Meaning(slot)], slots[1..], first + 1, rest);
    }
  }

  lemma LinesSplit(slots: seq<Slot>, rest: seq<Line>)
    requires slots != []
    ensures LinesOf(slots) + rest == slots[0].conflicts + ([slots[0].line] + (LinesOf(slots[1..]) + rest))
    ensures |LinesOf(slots)| == |slots[0].conflicts| + 1 + |LinesOf(slots[1..])|
    ensures |slots| == 1 ==> LinesOf(slots[1..]) == []
  {
  }

  lemma NoMeanings(slots: seq<Slot>, first: nat)
    requires slots == [] && AreSlots(slots, first)
    ensures Meanings(slots, first) == []
  {
  }

  // A complete listing of a bus: parsing ends with the last body line and no
  // earlier, whatever follows it, and the entries are the listed ones in order
  // with each conflict attributed to the address it precedes.
  lemma ScanbusListing(scanned: nat, bus: nat, header: Line, slots: seq<Slot>, rest: seq<Line>)
    requires IsHeader(header, bus)
    requires |slots| == 16 && AreSlots(slots, 0)
    ensures FeedAll(ReqScanbus(scanned), FRESH, [header] + LinesOf(slots) + rest).1 == Some(1 + |LinesOf(slots)|)
    ensures var r := Respond(ReqScanbus(scanned), [header] + LinesOf(slots) + rest);
            && r.Some? && r.value.RespScanbus? && r.value.bus == bus % 256
            && |r.value.entries| == 16
            && forall i | 0 <= i < 16 ::
                 var e := r.value.entries[i];
                 && (e.conflict <==> slots[i].conflicts != [])
                 && match slots[i].line.body
                    case Some(BodyLine(_, Some((idc, on)))) => e.idc == idc && e.rc == on
                    case _ => e.idc == 0 && !e.rc
  {
    var request := ReqScanbus(scanned);
    var lines := [header] + LinesOf(slots) + rest;
    assert lines[0] == header && lines[1..] == LinesOf(slots) + rest;
    var p := Parse(Some(RespScanbus(bus % 256, [])), 0, false);
    assert After(request, FRESH, header) == (p, false);
    FeedSlots(request, p, bus % 256, [], slots, 0, rest);
    assert [] + Meanings(slots, 0) == Meanings(slots, 0);
    forall i | 0 <= i < 16 ensures Lists(Meanings(slots, 0)[i], slots[i]) {
      assert IsSlot(slots[i], 0 + i);
    }
  }

  // Wherever it appears in a listing, a header begins the listing anew, and a line
  // that belongs to no listing ends it with an error.
  lemma OddLine(scanned: nat, p: Parse, line: Line, rest: seq<Line>)
    requires p.toConsume == 0
    ensures var (q, used) := FeedAll(ReqScanbus(scanned), p, [line] + rest);
            if line.header.Some? then
              var (r, more) :=
                FeedAll(ReqScanbus(scanned), p.(response := Some(RespScanbus(line.header.value % 256, []))), rest);
              q == r && used == if more.None? then None else Some(more.value + 1)
            else if !line.busAddress && line.body.None? then
              used == Some(1) && q.response == Some(RespError(if line.exactNoResponse then NoResponse else ParseError))
            else
              true
  {
    assert ([line] + rest)[0] == line && ([line] + rest)[1..] == rest;
  }

  lemma DropOne(request: Request, p: Parse, line: Line)
    requires p.toConsume != 0
    ensures After(request, p, line) == (p.(toConsume := p.toConsume - 1), p.toConsume == 1)
  {
  }

  lemma FeedOne(request: Request, p: Parse, lines: seq<Line>)
    requires lines != []
    ensures var (q, done) := After(request, p, lines[0]);
            FeedAll(request, p, lines) ==
            if done then (q, Some(1))
            else
              var (r, used) := FeedAll(request, q, lines[1..]);
              (r, if used.None? then None else Some(used.value + 1))
  {
    hide After;
  }

  lemma {:induction false} FeedDropped(request: Request, p: Parse, lines: seq<Line>)
    requires p.toConsume != 0
    ensures p.toConsume <= |lines| ==> FeedAll(request, p, lines) == (p.(toConsume := 0), Some(p.toConsume))
    ensures |lines| < p.toConsume ==> FeedAll(request, p, lines) == (p.(toConsume := p.toConsume - |lines|), None)
    decreases |lines|
  {
    hide After;
    if lines == [] {
    } else {
      DropOne(request, p, lines[0]);
      FeedOne(request, p, lines);
      hide FeedAll;
      if p.toConsume != 1 {
        FeedDropped(request, p.(toConsume := p.toConsume - 1), lines[1..]);
      }
    }
  }

  // A body line that no header precedes is answered with a parse error after
  // exactly the lines of the remaining addresses, whatever they say.
  lemma HeaderlessBody(scanned: nat, body: BodyLine, line: Line, rest: seq<Line>)
    requires IsBody(line, body) && body.dev <= 15
    ensures var (p, used) := FeedAll(ReqScanbus(scanned), FRESH, [line] + rest);
            && (used.Some? <==> 15 - body.dev <= |rest|)
            && (used.Some? ==> used.value == 16 - body.dev)
            && p.response == Some(RespError(ParseError))
  {
    var lines := [line] + rest;
    assert lines[0] == line && lines[1..] == rest;
    var p := Parse(Some(RespError(ParseError)), 15 - body.dev, false);
    BodyWithoutHeader(scanned, body, line);
    hide After, IsBody;
    FeedOne(ReqScanbus(scanned), FRESH, lines);
    hide FeedAll;
    if body.dev < 15 {
      FeedDropped(ReqScanbus(scanned), p, rest);
    }
  }

  lemma BodyWithoutHeader(scanned: nat, body: BodyLine, line: Line)
    requires IsBody(line, body) && body.dev <= 15
    ensures After(ReqScanbus(scanned), FRESH, line)
         == (Parse(Some(RespError(ParseError)), 15 - body.dev, false), body.dev >= 15)
  {
  }

  // The parser object. Every request starts it afresh.
  class MRC1ReplyParser {
    var request: Request
    var response: Option<Message>
    var errorLinesToConsume: nat
    var scanbusAddressConflict: bool

    ghost function View(): Parse
      reads this
    {
      Parse(response, errorLinesToConsume, scanbusAddressConflict)
    }

    constructor ()
      ensures View() == FRESH
    {
      request := NotARequest;
      response := None;
      errorLinesToConsume := 0;
      scanbusAddressConflict := false;
    }

    // No trace of earlier requests is left.
    method SetCurrentRequest(r: Request)
      modifies this
      ensures request == r && View() == FRESH
    {
      request := r;
      response := None;
      errorLinesToConsume := 0;
      scanbusAddressConflict := false;
    }

    method ParseLine(line: Line) returns (done: bool)
      modifies this
      ensures request == old(request)
      ensures (View(), done) == After(request, old(View()), line)
    {
      if errorLinesToConsume != 0 {
        errorLinesToConsume := errorLinesToConsume - 1;
        return errorLinesToConsume == 0;
      }
      match request {
        case ReqSet(_, _, _) => done := ParseReadOrSet(line);
        case ReqRead(_, _) => done := ParseReadOrSet(line);
        case ReqRc(_, _, _) => done := ParseOther(line);
        case ReqReset(_, _) => done := ParseOther(line);
        case ReqCopy(_, _) => done := ParseOther(line);
        case ReqScanbus(_) => done := ParseScanbus(line);
        case _ =>
          response := Some(RespError(Unknown));
          done := true;
      }
    }

    method ParseReadOrSet(line: Line) returns (done: bool)
      requires request.ReqRead? || request.ReqSet?
      requires errorLinesToConsume == 0
      modifies this
      ensures request == old(request)
      ensures (View(), done) == After(request, old(View()), line)
    {
      var e := ErrorOf(line);
      if e.Some? {
        response := e;
        errorLinesToConsume := 1;
        return false;
      }
      if line.values.None? {
        response := Some(RespError(ParseError));
        return true;
      }
      var item := Truncate(line.values.value.item);
      var val := line.values.value.val;
      if request.ReqRead? {
        if request.item != item {
          response := Some(RespError(ParseError));
          return true;
        }
        response := Some(RespRead(item, val, request.mirror));
      } else {
        if request.item != item {
          response := Some(RespError(ParseError));
          return true;
        }
        response := Some(MakeSetResponse(item, val, AsInt(request.mirror)));
      }
      return true;
    }

    method ParseScanbus(line: Line) returns (done: bool)
      requires request.ReqScanbus?
      requires errorLinesToConsume == 0
      modifies this
      ensures request == old(request)
      ensures (View(), done) == After(request, old(View()), line)
    {
      if line.header.Some? {
        response := Some(RespScanbus(line.header.value % 256, []));
        return false;
      } else if line.busAddress {
        scanbusAddressConflict := true;
        return false;
      } else if line.body.Some? {
        var dev: int := line.body.value.dev;
        if response.Some? && response.value.RespScanbus? {
          var idc, rc := 0, false;
          if line.body.value.device.Some? {
            idc, rc := line.body.value.device.value.0, line.body.value.device.value.1;
          }
          var entry := ScanEntry(idc, rc, scanbusAddressConflict);
          response := Some(RespScanbus(response.value.bus, response.value.entries + [entry]));
          scanbusAddressConflict := false;
        } else {
          response := Some(RespError(ParseError));
          errorLinesToConsume := Wrap(15 - dev);
        }
        return dev >= 15;
      } else if line.exactNoResponse {
        response := Some(RespError(NoResponse));
        return true;
      }
      response := Some(RespError(ParseError));
      return true;
    }

    method ParseOther(line: Line) returns (done: bool)
      requires request.ReqRc? || request.ReqReset? || request.ReqCopy?
      requires errorLinesToConsume == 0
      modifies this
      ensures request == old(request)
      ensures (View(), done) == After(request, old(View()), line)
    {
      response := ErrorOf(line);
      if response.Some? {
        errorLinesToConsume := 1;
        return false;
      }
      response := Some(RespBool(true));
      return true;
    }
  }
}
