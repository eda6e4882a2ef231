/** The messages exchanged between the clients, the server and the MRC, as values.
    Only the fields the server logic looks at are kept. */
module Messages {

  datatype Option<+T> = None | Some(value: T)

  // A client connection, identified by the object that represents it.
  type Client = nat

  // One parameter of one device. The protocol carries 32-bit numbers, the MRC link 8-bit ones.
  datatype Item = Item(bus: nat, dev: nat, par: nat)

  const ORIGIN := Item(0, 0, 0)

  // The conversion to uint8_t at every MessageFactory call.
  function Truncate(item: Item): Item {
    Item(item.bus % 256, item.dev % 256, item.par % 256)
  }

  predicate InByteRange(item: Item) {
    item.bus < 256 && item.dev < 256 && item.par < 256
  }

  // 'count' consecutive parameters starting at 'first'.
  datatype PollRange = PollRange(first: Item, count: nat)

  datatype Status = Stopped | Connecting | ConnectFailed | Initializing | InitFailed | Running

  datatype ErrorKind =
    | Unknown | NoResponse | AddressConflict | LinkConnecting | ConnectError | ComTimeout | ComError
    | Silenced | PermissionDenied | ParseError | InvalidType

  datatype ScanEntry = ScanEntry(idc: nat, rc: bool, conflict: bool)

  datatype Request =
    | ReqScanbus(bus: nat)
    | ReqRead(item: Item, mirror: bool)
    | ReqSet(item: Item, val: int, mirror: bool)
    | ReqRc(bus: nat, dev: nat, rc: bool)
    | ReqReset(bus: nat, dev: nat)
    | ReqCopy(bus: nat, dev: nat)
    | ReqReadMulti(item: Item, count: nat)
    | ReqMrcStatus
    | ReqHasWriteAccess
    | ReqAcquireWriteAccess(force: bool)
    | ReqReleaseWriteAccess
    | ReqIsSilenced
    | ReqSetSilenced(silenced: bool)
    | ReqSetPollItems(ranges: seq<PollRange>)
    | ReqQuit
    | NotARequest // every other message type
  {
    predicate IsMrcCommand() {
      ReqScanbus? || ReqRead? || ReqSet? || ReqRc? || ReqReset? || ReqCopy? || ReqReadMulti?
    }

    predicate IsMrcWriteCommand() {
      ReqSet? || ReqRc? || ReqReset? || ReqCopy?
    }
  }

  datatype Message =
    | RespBool(flag: bool)
    | RespError(kind: ErrorKind)
    | RespScanbus(bus: nat, entries: seq<ScanEntry>)
    | RespRead(item: Item, val: int, mirror: bool)
    | RespSet(item: Item, val: int, requested: int, mirror: bool)
    | RespMrcStatus(status: Status)
    | NotifyScanbus(bus: nat, entries: seq<ScanEntry>)
    | NotifyMrcStatus(status: Status)
    | NotifyWriteAccess(hasAccess: bool, canAcquire: bool)
    | NotifySilenced(silenced: bool)
    | NotifySet(item: Item, val: int, requested: int, mirror: bool)
    | NotifyPolledItems(values: map<Item, int>)
  {
    // set_type() on the answer to a SET.
    function AsNotification(): Message
      requires RespSet?
    {
      NotifySet(item, val, requested, mirror)
    }

    predicate IsResponse() {
      RespBool? || RespError? || RespScanbus? || RespRead? || RespSet? || RespMrcStatus?
    }
  }

  // The conversion of a flag to a number.
  function AsInt(b: bool): int {
    if b then 1 else 0
  }

  // MessageFactory::make_set_response(). Its callers give it one argument less
  // than it has, a flag, which so becomes the requested value.
  function MakeSetResponse(item: Item, val: int, requested: int, mirror: bool := false): Message {
    RespSet(item, val, requested, mirror)
  }
}
