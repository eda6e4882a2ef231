# mesycontrol: a verified model

mesycontrol controls mesytec devices that sit behind an MRC, a controller
reached over a serial line or TCP. A server owns the link to the MRC and serves
any number of clients over TCP; a client keeps the hardware and a configuration
side by side and writes one to the other. This project models the parts of the
program whose correctness is spread over several objects and callbacks, and
proves what they promise together. `dafny verify dfyconfig.toml` checks all of it.

## The server (`ServerModel`, `Server` and the other `Server` modules)

The server runs callbacks one at a time. `ServerModel` is the state machine over
these callbacks: clients connect, leave and send requests; a write or a read on
the MRC link completes or fails; a posted response is delivered; the retry, poll,
scan and reconnect timers fire; the link is started, opened and initialised. `Server` has
the program's objects (connection, request queue, pollers, connection manager)
with their fields and methods, each method proved to do what the state machine's
function says, up to `RunCallback`: one callback of the objects is one step of the
machine. The other modules prove what holds of every run:

* requests are answered in the order they were queued, each once, with its own
  request; at most one command is on the link; nothing waits without something
  that wakes it up; a link that is down empties the queue on the spot
  (`ServerFifo`);
* what each callback puts into the queue, and that a SET, RC, RESET or COPY gets
  there exactly if a client asks for it that is the writer at that moment; others
  are refused, and nothing else happens (`ServerRequests`);
* every client is sent exactly the messages that its requests and the history of the
  queue call for, in order (`ServerDelivery`), and an answer that is no error is what
  the MRC said while that request was on the link (`ServerOrigins`);
* every request of a client is answered with exactly one response, where a SET
  and the READ that follows it count as one, and the flag that suppresses the
  READ of a failed SET never hits another request (`ServerReplies`);
* a client gets one answer for each of its SETs that did not fail, in order, made
  from the response to the READ after it (`ServerSets`);
* who is connected, who may write, the state of the link and whether there is polling
  follow a small machine of their own, whose invariants hold of every run; every
  connected client was last told the truth about the write access (`ServerAccess`)
  and the status of the link (`ServerControl`);
* a client is subscribed to exactly the parameters that the ranges it last sent
  cover, until it leaves, and a cycle covers exactly what anyone is subscribed to
  (`ServerSubscriptions`);
* a published poll cycle has the parameter of the first value read for it and
  those of the other items of its poll set, each with the last value that the
  MRC's answers told of it, however SETs, subscriptions and restarts interleave
  (`ServerPolling`).

Where the program does something else than its comments or a reader would expect,
the model follows the program and a lemma says exactly when:

* `TCPConnectionManager::stop` tests the number of connections before it takes the
  leaving one out (src/server/tcp_connection_manager.cc:58-65). So a writer who
  leaves another client behind leaves no writer, although the comment there
  promises that the last remaining client becomes one; and the last client to
  leave stays recorded as writer. `DisconnectInforms` states the first.
* If the MRC's reply ends before the parser is satisfied, no response is posted
  and the pipeline is stuck for good: `StarvedForever`. `NoResponseExactly` says for
  every command which replies these are, and `StuckExactly` that a run gets stuck
  if and only if one of them arrives in it.
* The answer to a SET is made by a function that takes a requested value before the
  mirror flag (src/server/protocol.h:28-30), but is called without one
  (src/server/mrc1_reply_parser.cc:138-139,
  src/server/tcp_connection_manager.cc:298-303). So the flag is sent as the
  requested value, and no answer or notification ever carries it. The READ after a
  successful SET is not checked for an error response either; the answer is then a
  zero for parameter (0, 0, 0). `WhatAnAnswerSays` states exactly when the answer
  names the parameter that was set, and when it has its flag.
* The answer to a SET is retyped to a notification while it may still be in the
  client's write queue: `RetypedReply` shows that the client gets the answer if
  and only if nothing was being written to it at that moment.
* Items are truncated to 8 bits. `KeysAreTheItems` says when the delivered keys are
  the subscribed items, and `CollidingItems` that a cycle delivers the last values
  read, whatever they are, if and only if no two of its items are truncated to one.
* A value that is read for the poller, and delivered to it after it was stopped and
  started, before its first cycle or while it has nothing to poll, meets an end
  iterator: `EndIteratorExactly` says that this is the only way, `RestartHazard`
  gives a run for every parameter, and `CleanEpochsAreDefined` says that it takes a
  poll read that is outstanding while the poller starts.
* Delivered after the poller began a cycle, that value is taken for the cycle's first
  item. So the cycle can lack a parameter of its poll set and deliver one that is not
  in it: `PollResultsAreNewest` says that it has the right parameters if and only if
  the first value read for it was that of its first item, and `StaleValueIsDelivered`
  gives a run for every two parameters.
* The scan poller asks for its next scan, and sets its timer for it, without looking
  whether it was stopped (src/server/poller.cc:255-299). `ScansStoppedExactly` says
  that it scans while it is stopped if and only if it was stopped with one of its scans
  queued, `ScansForNobody` gives a run in which the server scans with no client there.
* Starting the link ends silence without telling anyone
  (src/server/mrc1_connection.cc:178). `MisledExactly` says that a client believes the
  server silenced that is not exactly after the link was restarted while silenced, and
  until a writer asks for silence or its end.

`ReplyParser` is the line parser of the MRC's replies. A line is represented by
what the program's regular expressions find in it.

## Framing (`Framing`, `TcpConnection`)

A message is preceded by its size in two bytes. `Framing` has the client's reader
and proves that cutting the byte stream into pieces makes no difference and that
the messages arrive exactly if each has 1 to 65535 bytes and can be parsed.
`TcpConnection` is the server's side with its write queue of shared message
objects; `EndToEnd` joins the two.

## The client (`ClientQueue`, `Futures`)

`ClientQueue` is the queue of requests with one request under way, over futures
that are objects of `Futures`. Handlers and done-callbacks may queue and cancel
requests at any point where the program calls them.

## Hardware, configuration and the join (`AppTree`, `Director`, `ScanbusResult`)

The Director keeps the application tree equal to the outer join of the hardware
tree and the configuration tree, on URL, bus and address. `AppTree` defines the
join and how it changes; `Director` is the object with its handlers, each proved
to raise nothing and to keep the tree equal to the join but for the modules of
some devices, and exactly those: each handler makes the modules of the devices it
touches fit, and leaves the others as they were. `ScanbusResult` feeds it from the
result of a bus scan.

For a device whose identifier code changes, the Director connects a function that
has the device bound by keyword (src/client/mesycontrol/app_model.py:718, 799) to a
signal that carries the new code. Called with the code as well, Python refuses the
call. Which of the two happens is decided by the Qt binding, which is not part of
this model; `DeviceIdcChanged` has both. If the call is refused, the modules stay,
and a device that had the right ones has wrong ones afterwards exactly if its code
is another one. So after a bus scan of a tree that was the join, the tree is the
join again if and only if no device got another code, or the call is accepted
(`HandleScanbusResult`).

## Writing a configuration (`ApplyParameters`)

Critical parameters are made safe, then the others are written, then the critical
ones. The environment decides how each request ends: it may fail, with or without
having taken effect, be retried, skipped or aborted, or the generator may be
closed at any yield. A skipped read lets the run end with a missing value, and
the model says what state that leaves behind.

## Configuration files and the modified flag (`XmlTree`, `PythonText`, `ConfigXml`, `ConfigFiles`, `ConfigModel`)

Extension values, device configurations and whole setups become an element tree
and are read back, directly or through a file. A file drops comments and empty
texts, reads every line end as a line feed and white space in attribute values as
spaces, and cannot be written with some characters (sections 2.2, 2.11 and 3.3.3 of
XML 1.0). `RoundTrip`, `DeviceRoundTrip` and `SetupRoundTrip` say what comes back;
`ComesBack`, `DeviceComesBack` and `SetupComesBack` exactly when that is the
original. They show that an `autoconnect` flag always comes back as true
(src/client/mesycontrol/config_xml.py:211-223, 239-240: any text is true), that an
extension whose value is an empty string does not come back from a file at all,
that a name with a line break comes back with a space, that tuples come back as
lists, and that a parameter's name with two hyphens in a row, which is written as a
comment, keeps the whole file from being written. `ConfigModel` proves that the
modified flags of setup, MRCs and devices are sound.

## Assumptions

* Requests come from connected clients, and a client connects once.
* No message is unsolicited: the client gets a response only for a request that
  it wrote (the program raises an exception otherwise).
* A successful set stores the requested value
  (src/client/mesycontrol/basic_model.py:192-193 is not called by Python 3, so the
  check at src/client/mesycontrol/config_util.py:315-316 never fails).
* The XML library writes the white space in attribute values as it is; Python's
  minidom did so for long, later versions write it as character references.
* The hardware or configuration objects the Director is told about have distinct
  identities and fixed URLs; removed ones are not used again.

## Model

| member | source | states |
|---|---|---|
| ReplyParser.RespondAnswers | src/server/mrc1_reply_parser.cc:63-214 | whatever lines arrive, a finished parse is an error or answers the request: a value only for the parameter asked for, for a SET without the mirror flag, for a scan with the bus that the reply's header names |
| ReplyParser.ReadReply | src/server/mrc1_reply_parser.cc:37-146 | the response to a READ for every first line; an error keeps the response back until a second line |
| ReplyParser.SetReply | src/server/mrc1_reply_parser.cc:97-146 | the response to a SET for every first line, with the flag as the requested value |
| ReplyParser.OtherReply | src/server/mrc1_reply_parser.cc:204-214 | the response to RC, RESET and COPY for every first line |
| ReplyParser.NoResponseExactly | src/server/mrc1_connection.cc:337-360 | for every command, exactly the replies that leave it without a response: none, a lone error line, a listing that ends too early |
| ReplyParser.ScanStarvesExactly | src/server/mrc1_reply_parser.cc:148-202 | for a scan: nothing but conflict lines, a header without a last line after it, or a first body with fewer lines after it than addresses left |
| ReplyParser.ScanbusListing | src/server/mrc1_reply_parser.cc:148-202 | header and 16 bodies, each after any number of conflict lines: done on the last body only, and the entry of each address has a conflict iff a conflict line precedes its body, and the code and remote control state on its body line, or 0 and off |
| ReplyParser.OddLine | src/server/mrc1_reply_parser.cc:148-202 | anywhere in a listing a header begins it anew, and a line that belongs to none ends it with an error |
| ReplyParser.HeaderlessBody | src/server/mrc1_reply_parser.cc:148-202 | a body without a header consumes exactly the lines of the remaining addresses and yields a parse error |
| ReplyParser.FeedDropped | src/server/mrc1_reply_parser.cc:65-71 | lines to be dropped are counted off exactly |
| ReplyParser.FeedSlots | src/server/mrc1_reply_parser.cc:148-202 | from any address on, the rest of a listing is consumed to its last body |
| ReplyParser.MRC1ReplyParser.SetCurrentRequest | src/server/mrc1_reply_parser.cc:24-33 | every request starts the parser afresh |
| ReplyParser.MRC1ReplyParser.ParseLine | src/server/mrc1_reply_parser.cc:63-95 | the object does one step of the specification per line |
| ReplyParser.MRC1ReplyParser.ParseReadOrSet | src/server/mrc1_reply_parser.cc:97-146 | the step for READ and SET, with errors and mismatching items |
| ReplyParser.MRC1ReplyParser.ParseScanbus | src/server/mrc1_reply_parser.cc:148-202 | the step for a bus scan |
| ReplyParser.MRC1ReplyParser.ParseOther | src/server/mrc1_reply_parser.cc:204-215 | the step for the remaining commands |
| ServerFifo.StepKeeps | src/server/mrc1_request_queue.cc:23-113 | every callback keeps: in-progress flag iff exactly one command or one posted response for the front; queue is the unanswered rest; a waiting queue has a retry timer |
| ServerFifo.RunKeeps | src/server/mrc1_request_queue.cc:23-113 | the same for every run |
| ServerFifo.AnsweredInOrder | src/server/mrc1_request_queue.cc:101-113 | in every run, enqueued is answered followed by queued, each handler called with its own request and a response that answers it |
| ServerFifo.StepExtends | src/server/mrc1_request_queue.cc:101-113 | no callback takes back or repeats an answer |
| ServerFifo.RunExtends | src/server/mrc1_request_queue.cc:101-113 | neither does a run |
| ServerFifo.WriteNeverRefused | src/server/mrc1_connection.cc:238-270 | a free queue on a running link is never refused its command; a silenced link answers it at once |
| ServerFifo.DownLinkDrains | src/server/mrc1_request_queue.cc:46-79 | on a link that is down the queue is emptied, every request answered with the link's error, nothing lost |
| ServerFifo.StarvedForever | src/server/mrc1_connection.cc:337-360 | after a reply that ends too early nothing is ever answered again |
| ServerFifo.StarvesExactly | src/server/mrc1_connection.cc:337-374 | a callback leaves the link stuck iff it was, or it is the arrival of such a reply |
| ServerFifo.StuckExactly | src/server/mrc1_connection.cc:337-374 | a run ends up stuck iff such a reply arrives in it |
| ServerRequests.StepQueues | src/server/tcp_connection_manager.cc:92-118 | every callback but the poll timer queues exactly: a client's READ, scan or READ_MULTI; the writer's RC, RESET or COPY, or its SET and the READ of the 8-bit address; on the scan timer both buses; else nothing |
| ServerRequests.PollTimerQueues | src/server/poller.cc:145-165 | the poll timer queues one read, of the item at the iterator, iff the poller runs, the queue is empty and there is such an item |
| ServerRequests.OnlyTheWriterWrites | src/server/tcp_connection_manager.cc:94-118 | a SET, RC, RESET or COPY gets into the queue in a callback iff that is such a request of the client that is the writer |
| ServerRequests.OthersAreRefused | src/server/tcp_connection_manager.cc:94-97 | any other client gets exactly PERMISSION_DENIED, nobody gets anything else, and queue, link and pollers stay as they are |
| ServerRequests.WritesArePermitted | src/server/tcp_connection_manager.cc:94-118 | in every run the write commands ever queued are, in order, those made by clients that were the writer then |
| ServerDelivery.StepDelivers | src/server/tcp_connection_manager.cc:92-319 | what each callback brings each client: the reply to a request the server answers itself, written out for every kind; for each answer given the response to its own request, the error of its SET, the values read after its SET, or, while connected, the news of another's SET and of a scan; and the results of completed cycles |
| ServerDelivery.EverythingIsDelivered | src/server/tcp_connection_manager.cc:92-319 | in every run each client got exactly these messages, in order |
| ServerDelivery.ValuesAreTheClients | src/server/tcp_connection_manager.cc:271-275 | in every run the values and listings sent to a client as responses are, in order and unchanged, the answers to its own READs and scans |
| ServerOrigins.StepReplies | src/server/mrc1_connection.cc:238-374 | in every callback the command on the link gets what the arriving reply says, or the error of its failure; all other replies are the error that the link's status, or silence, calls for, and there is none while it is being initialised |
| ServerOrigins.AnswersWereSaid | src/server/mrc1_connection.cc:298-374 | in every run an answer that is no error is what the MRC's reply said that arrived while this request was on the link |
| ServerOrigins.ReadsWereSaid | src/server/mrc1_reply_parser.cc:97-146 | for a READ that is the value on the reply's first line, and it is for the parameter that was asked for |
| ServerReplies.OneResponsePerRequest | src/server/tcp_connection_manager.cc:92-305 | in every run and for every client, responses sent plus obligations queued equal requests made |
| ServerReplies.FlagGuardsItsOwnRead | src/server/tcp_connection_manager.cc:277-296 | in every run the skip flag is up iff the front is the READ of the SET that failed last |
| ServerReplies.SetSettles | src/server/tcp_connection_manager.cc:97-113 | a SET with its READ adds one obligation to its client and none to others, whatever the link does |
| ServerReplies.AnswerFrontSettles | src/server/tcp_connection_manager.cc:271-319 | answering the front leaves every client's balance as it is |
| ServerReplies.LocalRequestSettles | src/server/tcp_connection_manager.cc:119-253 | a request the server answers itself gets one response in the same step, others get none |
| ServerReplies.RequestsAreCounted | src/server/tcp_connection_manager.cc:92-97 | the counter in these statements counts exactly the requests made |
| ServerReplies.StepSettles | src/server/tcp_connection_manager.cc:92-319 | every callback keeps every client's account balanced and the SET/READ pairs adjacent |
| ServerSets.SetsAreAnswered | src/server/tcp_connection_manager.cc:277-319 | in every run the answers to SETs a client was sent are, in order, those made from the READs after its SETs that did not fail |
| ServerSets.WhatAnAnswerSays | src/server/tcp_connection_manager.cc:288-309 | in every run such an answer names the parameter that was set iff the READ did not fail (or it is the origin), has the request's mirror flag iff that was false, and the READ's flag as requested value |
| ServerAccess.ClientsKnowTheWriter | src/server/tcp_connection_manager.cc:340-372 | in every run the last access notification of a connected client is true, and the writer is none or connected while anyone is |
| ServerAccess.SetWriterInforms | src/server/tcp_connection_manager.cc:340-372 | changing the writer tells every connected client |
| ServerAccess.ConnectInforms | src/server/tcp_connection_manager.cc:33-54 | the first client becomes writer, later ones are told who may write |
| ServerAccess.DisconnectInforms | src/server/tcp_connection_manager.cc:56-73 | a writer leaving others behind leaves no writer, and all know |
| ServerControl.StepFollows | src/server/tcp_connection_manager.cc:33-338 | connections, writer, status and silence of the link, reconnecting and polling change in every callback as in the small machine |
| ServerControl.RunIsSane | src/server/tcp_connection_manager.cc:33-338 | in every run both pollers run or neither does, only while someone is connected, and always while someone is connected to a running link that is not silenced; a link that could not be opened or initialised is tried again |
| ServerControl.MisledExactly | src/server/mrc1_connection.cc:169-181 | exactly when a connected client believes that the server is silenced and it is not |
| ServerControl.ClientsKnowTheLink | src/server/tcp_connection_manager.cc:33-42 | in every run the last status a connected client was told is the link's (also :321-329), and if the link is silenced it was last told so |
| ServerSubscriptions.RangesExpand | src/server/tcp_connection_manager.cc:197-206 | a parameter is among those of a list of ranges iff one of them covers it, up to its 32-bit end |
| ServerSubscriptions.OneRangeExpands | src/server/tcp_connection_manager.cc:200-206 | a range that does not overflow stands for 'count' parameters, one after the other |
| ServerSubscriptions.StepSubscribes | src/server/poller.cc:55-69 | what each callback does to each client's subscription: asking replaces it, leaving ends it, nothing else changes it |
| ServerSubscriptions.OnlyClientsSubscribe | src/server/tcp_connection_manager.cc:65-66 | in every run only connected clients are subscribed |
| ServerSubscriptions.CyclesCoverSubscriptions | src/server/poller.cc:114-143 | a cycle that begins covers a parameter iff some client is subscribed to it |
| ServerScans.BusesInTurn | src/server/poller.cc:287-299 | in every run the server's own scans are of bus 0 and bus 1 in turn |
| ServerScans.ScansWhileStarted | src/server/poller.cc:234-299 | in every run a scan poller that is not stopped has its timer set or a scan queued |
| ServerScans.ScansStoppedExactly | src/server/poller.cc:245-299 | a stopped scan poller scans after a callback iff it did before, or was stopped in it with a scan queued |
| ServerScans.ScansForNobody | src/server/poller.cc:245-299 | a run from the start in which the only client leaves and the server scans on |
| ServerPolling.PollResultsAreNewest | src/server/poller.cc:93-209 | in every run a delivered cycle has the parameter of its first reading and those of the items after the first; if no items are truncated to the same, that is its poll set iff the first reading was of the first item, as it always is unless a poll read was outstanding when the poller started; each value is then the last one that the answers up to the read completing the cycle told of its parameter, to poll reads and to READs after SETs, and so it is if the first reading was of a parameter outside the poll set |
| ServerPolling.KeysOfReadings | src/server/poller.cc:167-197 | the keys that a first reading of any parameter and the right later ones leave are the poll set's iff the first was right, too |
| ServerPolling.KeysAreTheItems | src/server/poller.cc:145-209 | the delivered keys are the subscribed items iff all are in 8-bit range |
| ServerPollEnds.EndIteratorExactly | src/server/poller.cc:167-197 | in every run an end iterator is advanced iff a value read for the poller is delivered while it runs and has not begun a cycle since its start, or has nothing to poll |
| ServerPollEnds.StepEnds | src/server/poller.cc:71-197 | the same for one callback |
| ServerPollEnds.CleanEpochsAreDefined | src/server/poller.cc:71-91 | that takes a poll read outstanding while the poller starts |
| ServerPollEnds.RestartHazard | src/server/poller.cc:71-91 | a run from the start in which it happens, for every client, parameter and value |
| ServerPollEnds.StaleValueIsDelivered | src/server/poller.cc:71-197 | for every two parameters a run from the start in which a cycle over the one delivers the value of the other |
| ServerPolling.CollidingItems | src/server/poller.cc:167-197 | a cycle delivers the last value read for every parameter, whatever is read, iff no two of its items are truncated to the same |
| ServerPolling.CompletedCycleIsSent | src/server/tcp_connection_manager.cc:374-393 | a completed cycle is sent to every connected client |
| ServerPolling.StepPolls | src/server/poller.cc:71-221 | every callback keeps: at most one poll read, in front of the queue; a running poller has it or its timer, both only after a restart; and the cycle's result is what its readings recorded |
| Server.RunCallback | src/server/mrc1_connection.cc:223-409 | one callback of the objects is one step of the state machine |
| Server.MRC1Connection.Start | src/server/mrc1_connection.cc:169-181 | starting the link from every status |
| Server.MRC1Connection.HandleStart | src/server/mrc1_connection.cc:183-195 | the device could be opened, or not |
| Server.MRC1Connection.HandleInit | src/server/mrc1_connection.cc:223-236 | both outcomes of the initialisation |
| Server.MRC1Connection.HandleReconnectTimer | src/server/mrc1_connection.cc:403-409 | the link is started again |
| Server.MRC1Connection.WriteCommand | src/server/mrc1_connection.cc:238-270 | accepted iff no command is in flight; a silenced link posts an error |
| Server.MRC1Connection.FailCommand | src/server/mrc1_connection.cc:272-310 | a failing write or read posts an error and takes the link down |
| Server.MRC1Connection.HandleCommandResponseRead | src/server/mrc1_connection.cc:298-374 | the lines are fed to the parser until it is done; if it is not, nothing is posted |
| Server.MRC1RequestQueue.QueueRequest | src/server/mrc1_request_queue.cc:23-37 | appends and tries to send |
| Server.MRC1RequestQueue.TrySendMrc1Request | src/server/mrc1_request_queue.cc:39-94 | sends the front, answers it with an error, or starts the retry timer |
| Server.MRC1RequestQueue.HandleRetryTimer | src/server/mrc1_request_queue.cc:96-99 | tries again |
| Server.MRC1RequestQueue.HandleMrc1Response | src/server/mrc1_request_queue.cc:101-113 | the handler runs while the front is still queued, then the next is tried |
| Server.MRC1RequestQueue.HandlePostedResponse | src/server/mrc1_request_queue.cc:101-113 | the first posted response goes to the front of the queue |
| Server.Poller.CollectItems | src/server/poller.cc:114-135 | the loop over the subscriptions collects every item once |
| Server.Poller.StartCycle | src/server/poller.cc:114-135 | a new cycle over all subscribed items, or the timer |
| Server.Poller.PollNext | src/server/poller.cc:145-165 | the next read, or the timer while the queue is busy |
| Server.Poller.HandleResponse | src/server/poller.cc:167-197 | records, moves on, completes the cycle |
| Server.Poller.NotifyParameterChanged | src/server/poller.cc:93-112 | a value set meanwhile replaces one already recorded |
| Server.Poller.NotifyCycleComplete | src/server/poller.cc:199-209 | hands the result out and starts the timer |
| Server.TCPConnectionManager.Start | src/server/tcp_connection_manager.cc:33-54 | a client connects |
| Server.TCPConnectionManager.Stop | src/server/tcp_connection_manager.cc:56-73 | a client leaves |
| Server.TCPConnectionManager.StopAll | src/server/tcp_connection_manager.cc:75-90 | all clients are dropped |
| Server.TCPConnectionManager.DispatchRequest | src/server/tcp_connection_manager.cc:92-254 | every request type, with the access check |
| Server.TCPConnectionManager.SetWriteConnection | src/server/tcp_connection_manager.cc:340-372 | the new writer and the others are notified |
| Server.TCPConnectionManager.SendToEach | src/server/tcp_connection_manager.cc:256-269 | the loop sends one message to each of the clients and to no other |
| Server.TCPConnectionManager.ExpandPollRanges | src/server/tcp_connection_manager.cc:214-241 | the nested loop lists the parameters of every range |
| Server.TCPConnectionManager.HandleSetResponse | src/server/tcp_connection_manager.cc:277-286 | only an error is passed on, and raises the flag |
| Server.TCPConnectionManager.HandleReadAfterSet | src/server/tcp_connection_manager.cc:288-319 | consumes the flag, or answers, notifies the others and the poller |
| Server.TCPConnectionManager.HandleMrc1StatusChange | src/server/tcp_connection_manager.cc:321-338 | clients are told; polling runs iff the link runs and clients are connected |
| Framing.Fragmentation | src/client/mesycontrol/tcp_client.py:210-241 | for every way of cutting the stream the reader ends in the same state |
| Framing.DrainMore | src/client/mesycontrol/tcp_client.py:210-241 | draining early makes no difference |
| Framing.NetworkByteOrder | src/client/mesycontrol/tcp_client.py:197-224 | sizes compare as their two bytes do from left to right, and every two bytes are those of the size they give |
| Framing.FramesArrive | src/client/mesycontrol/tcp_client.py:210-241 | framed messages are handed out one by one, nothing is left |
| Framing.Delivery | src/client/mesycontrol/tcp_client.py:210-241 | any part of the stream gives a first part of the messages, the whole stream all of them |
| Framing.DeliveryExactly | src/client/mesycontrol/tcp_client.py:210-241 | the messages arrive iff each has 1 to 65535 bytes and parses |
| Framing.NextConnection | src/client/mesycontrol/tcp_client.py:276-291 | after a disconnect, wherever it hit the stream, the messages of the next connection arrive |
| Framing.MessageReader.ReadyRead | src/client/mesycontrol/tcp_client.py:210-241 | the loop terminates and drains the socket |
| Framing.MessageReader.Arrive | src/client/mesycontrol/tcp_client.py:210-241 | a new piece of the stream is drained with what was left |
| Framing.MessageReader.Reconnect | src/client/mesycontrol/tcp_client.py:276-291 | neither the pending size nor unread bytes survive a disconnect |
| TcpConnection.EndToEnd | src/server/tcp_connection.cc:61-73 | if no queued message is changed, the peer gets a first part of the messages accepted, and all with the last byte |
| TcpConnection.RetypedReply | src/server/tcp_connection_manager.cc:298-309 | the client that sets gets the answer iff nothing was being written to it, and the notification in its place otherwise |
| TcpConnection.TCPConnection.SendMessage | src/server/tcp_connection.cc:61-73 | queued and written at once if idle; discarded while stopping |
| TcpConnection.TCPConnection.StartWrite | src/server/tcp_connection.cc:158-185 | the front's frame goes to the socket, as the message is now |
| TcpConnection.TCPConnection.HandleWriteMessage | src/server/tcp_connection.cc:187-202 | what waits is being written; a graceful stop closes once all is written |
| TcpConnection.TCPConnection.Stop | src/server/tcp_connection.cc:46-54 | graceful iff there is something to write |
| TcpConnection.TCPConnection.HandleReadMessageSize | src/server/tcp_connection.cc:86-119 | a zero size is answered with an error and stops the connection |
| TcpConnection.TCPConnection.HandleReadMessage | src/server/tcp_connection.cc:130-156 | the request is dispatched, a refused one stops the connection |
| TcpConnection.TCPConnection.ReadRequests | src/server/tcp_connection.cc:75-156 | framed requests are dispatched one by one, in order |
| TcpConnection.TCPConnection.FinishWrites | src/server/tcp_connection.cc:158-202 | the remaining messages go out in order |
| Futures.Future.Cancel | src/client/mesycontrol/future.py:98-106 | cancelled iff neither done nor running |
| Futures.Future.SetResult | src/client/mesycontrol/future.py:155-162 | done at most once |
| Futures.Future.SetException | src/client/mesycontrol/future.py:164-173 | done at most once |
| Futures.Future.SetRunningOrNotifyCancel | src/client/mesycontrol/future.py:175-189 | running, cancelled or an exception; a future done with None is not recognised |
| Futures.Future.AddDoneCallback | src/client/mesycontrol/future.py:126-134 | registered once, or run at once |
| Futures.Future.SetDone | src/client/mesycontrol/future.py:210-230 | every registered callback has run once, in order, with what it registered itself |
| Futures.TraceJoins | src/client/mesycontrol/future.py:210-236 | the callbacks registered first run first, with everything they register |
| Futures.EachRunsOnce | src/client/mesycontrol/future.py:210-236 | every callback runs once; the one registered first runs first, then what it registers, then the others |
| Futures.AllDone | src/client/mesycontrol/future.py:238-259 | collects the futures in the order they finish |
| Futures.DonePicked | src/client/mesycontrol/future.py:238-259 | those that are done already are collected from left to right |
| Futures.ListedPicked | src/client/mesycontrol/future.py:238-259 | the others in the order they finish |
| Futures.AllDoneCompletes | src/client/mesycontrol/future.py:238-259 | done with the last future iff no unfinished one was given twice |
| ClientQueue.KthResponse | src/client/mesycontrol/tcp_client.py:170-208 | the k-th request sent is the k-th that was not cancelled before its turn |
| ClientQueue.SentSoFar | src/client/mesycontrol/tcp_client.py:170-208 | requests are sent in the order they were queued, none twice |
| ClientQueue.PopInOrder | src/client/mesycontrol/tcp_client.py:179-187 | taking the next request from the queue keeps the order |
| ClientQueue.MCTCPClient.QueueRequest | src/client/mesycontrol/tcp_client.py:145-168 | appended, and sent at once if nothing waits; fails when disconnected; cancels nothing |
| ClientQueue.MCTCPClient.StartWriteRequest | src/client/mesycontrol/tcp_client.py:170-208 | afterwards a waiting request means one under way, which fails iff it could not be written; cancels nothing |
| ClientQueue.MCTCPClient.PopRequest | src/client/mesycontrol/tcp_client.py:179-187 | started iff not cancelled |
| ClientQueue.MCTCPClient.HandleResponse | src/client/mesycontrol/tcp_client.py:243-262 | completes exactly the request under way with this response, whatever handlers and callbacks queue or cancel; then the next is sent |
| ClientQueue.MCTCPClient.CancelRequest | src/client/mesycontrol/future.py:98-106 | cancelled iff neither done nor sent |
| ClientQueue.MCTCPClient.Disconnected | src/client/mesycontrol/tcp_client.py:266-291 | the requests under way and queued fail with the error, all iff none in the queue had been cancelled; otherwise up to that one, and the rest stays queued as it was |
| ClientQueue.MCTCPClient.ResetState | src/client/mesycontrol/tcp_client.py:276-291 | the same for the reset itself; no finished future changes |
| AppTree.JoinMeaning | src/client/mesycontrol/app_model.py:628-661 | the join in elementary terms: MRCs, devices, references, modules, conflict flags |
| AppTree.JoinAddMrc | src/client/mesycontrol/app_model.py:679-696 | the join after an MRC without devices is added |
| AppTree.JoinRemoveMrc | src/client/mesycontrol/app_model.py:698-705 | the join after an MRC is removed |
| AppTree.JoinAddDevice | src/client/mesycontrol/app_model.py:707-718 | the join after a device is added or replaced |
| AppTree.JoinRemoveDevice | src/client/mesycontrol/app_model.py:720-729 | the join after a device is removed |
| AppTree.StaleWithDevice | src/client/mesycontrol/app_model.py:644-662 | a device that is put in, changed or dropped gets the modules of the join, the others keep theirs |
| Director.Director.constructor | src/client/mesycontrol/app_model.py:633-642 | the join holds from the start |
| Director.Director.JoinedExactly | src/client/mesycontrol/app_model.py:628-662 | the tree is the join iff it follows it and the modules of no device are stale |
| Director.Director.DeviceAdded | src/client/mesycontrol/app_model.py:707-718 | the tree follows the join, the device's modules fit, no other device's change, nothing raised (and app_model.py:785-799 for the configuration) |
| Director.Director.DeviceAboutToBeRemoved | src/client/mesycontrol/app_model.py:720-729 | likewise (and app_model.py:801-809) |
| Director.Director.DeviceIdcChanged | src/client/mesycontrol/app_model.py:349-361 | when a device's code changes the tree follows the join; its modules fit iff the connected function can be called, or they happen to be right, which for modules that fitted means the same code |
| AppTree.StaleIsWrong | src/client/mesycontrol/app_model.py:718 | a device whose modules are not looked at again, and fitted before, has wrong ones iff its code is another one |
| Director.Director.MrcAdded | src/client/mesycontrol/app_model.py:679-696 | likewise with all devices of the MRC (and app_model.py:757-774) |
| Director.Director.MrcAboutToBeRemoved | src/client/mesycontrol/app_model.py:698-705 | likewise (and app_model.py:776-783) |
| Director.Director.RegistrySet | src/client/mesycontrol/app_model.py:731-755 | replacing a whole registry gives the join with the new one, with the modules of all its devices looked at (and app_model.py:664-677) |
| Director.Director.MaybeUpdateDeviceModule | src/client/mesycontrol/app_model.py:656-662 | the modules fit the sides that are present; the setters do not raise |
| Director.AppDevice.UpdateIdcConflict | src/client/mesycontrol/app_model.py:428-434 | the flag is up iff both sides are present with different codes |
| Director.AppDevice.SetModule | src/client/mesycontrol/app_model.py:384-398 | raises iff in conflict or the code fits neither side |
| Director.AppMrc.AddDevice | src/client/mesycontrol/app_model.py:163-173 | sorted by address, no address twice |
| Director.AppMrc.RemoveDevice | src/client/mesycontrol/app_model.py:175-186 | exactly this device is gone |
| Director.MRCRegistry.AddMrc | src/client/mesycontrol/app_model.py:94-101 | sorted by URL, no URL twice |
| Director.MRCRegistry.RemoveMrc | src/client/mesycontrol/app_model.py:103-111 | exactly this MRC is gone |
| ScanbusResult.Controller.HandleScanbusResult | src/client/mesycontrol/hardware_controller.py:362-402 | for every result: the bus has exactly the scanned devices with their codes and flags, the other bus is untouched, the address conflict is set; the tree follows the join, and is the join again iff no code changed or the Director's function can be called; fewer than 16 entries raise |
| ScanbusResult.OneMoreEntry | src/client/mesycontrol/hardware_controller.py:373-400 | one more address is reconciled and the earlier ones stay so |
| ScanbusResult.AllFitExactly | src/client/mesycontrol/app_model.py:718 | the exact condition for a scan that began with the join |
| ApplyParameters.ApplyParameters | src/client/mesycontrol/config_util.py:820-955 | for every environment: protection of the phases, what a missing value leaves behind, what a finished run delivered, progress, that a cooperative environment is enough, and that it ends where the environment closes it, keeps it waiting or leaves a value missing, and nowhere else |
| ApplyParameters.WriteAll | src/client/mesycontrol/config_util.py:881-955 | the three write phases with the same promises |
| ApplyParameters.RunCallables | src/client/mesycontrol/config_util.py:302-324 | every call achieved its effect or was given up; the requests are for the calls, one after the other; only the calls' addresses change |
| ApplyParameters.RunCallable | src/client/mesycontrol/config_util.py:310-324 | repeated while it fails and the user retries: one request for each answer, given up exactly where the user does so, closed exactly by the last |
| ApplyParameters.SafeWhileOthersAreWritten | src/client/mesycontrol/config_util.py:882-936 | a non-critical request leaves only while each critical parameter is safe or its safe write was given up; a critical value only after the non-critical ones |
| ApplyParameters.SafeAfterAnAbort | src/client/mesycontrol/config_util.py:882-931 | a run that ends before the final phase leaves those parameters safe |
| ApplyParameters.CompletedCopies | src/client/mesycontrol/config_util.py:909-955 | with nothing given up the destination equals the source on every address |
| ApplyParameters.ReadsLeaveGaps | src/client/mesycontrol/config_util.py:858-879 | a value is missing iff its read was given up |
| ApplyParameters.NothingMissing | src/client/mesycontrol/config_util.py:909 | so a run without skips never misses a value |
| ApplyParameters.ApplyDeviceConfig | src/client/mesycontrol/config_util.py:269-300 | extensions are copied iff the parameters are through |
| ApplyParameters.DistinctCount | src/client/mesycontrol/config_util.py:840-847 | the progress total is exact iff no cached address is repeated |
| PythonText.IntInvertsStr | src/client/mesycontrol/config_xml.py:303-308 | int() undoes str() |
| PythonText.IntReads | src/client/mesycontrol/config_xml.py:303-308 | int() ignores white space around a number and a plus sign before its digits |
| PythonText.DigitPlaces | src/client/mesycontrol/config_xml.py:275-276 | the k-th digit from the right is that of the k-th power of ten |
| PythonText.LeastIsFirst | src/client/mesycontrol/config_xml.py:295-296 | the smallest key comes first in sorted order |
| PythonText.LessExactly | src/client/mesycontrol/config_xml.py:295-296 | strings are ordered by the first character that differs, a first part before the whole |
| XmlTree.CommentTreeBuilder.AddTag | src/client/mesycontrol/config_xml.py:255-262 | one child is added to the innermost open element |
| XmlTree.CommentTreeBuilder.AddComment | src/client/mesycontrol/config_xml.py:139-143 | likewise for a comment |
| XmlTree.LinesExactly | src/client/mesycontrol/config_xml.py:264-267 | a file leaves a text alone iff it has no carriage return |
| XmlTree.LineEnds | src/client/mesycontrol/config_xml.py:264-267 | each kind of line end is read as one line feed |
| XmlTree.AttrExactly | src/client/mesycontrol/config_xml.py:264-267 | and a name iff it has no tab or line break |
| ConfigXml.Value2Xml | src/client/mesycontrol/config_xml.py:269-284 | adds exactly one child, the value's element, and leaves the open elements alone; fails iff a part has no known type |
| ConfigXml.List2Xml | src/client/mesycontrol/config_xml.py:286-291 | likewise for lists and tuples |
| ConfigXml.Dict2Xml | src/client/mesycontrol/config_xml.py:293-301 | likewise for dictionaries, in key order |
| ConfigXml.Xml2Value | src/client/mesycontrol/config_xml.py:303-316 | decodes an element, with every exception |
| ConfigXml.Xml2List | src/client/mesycontrol/config_xml.py:318-322 | the value children in order |
| ConfigXml.Xml2Dict | src/client/mesycontrol/config_xml.py:324-330 | the key children, later ones winning |
| ConfigXml.RoundTrip | src/client/mesycontrol/config_xml.py:269-330 | what every value comes back as: tuples as lists, and through a file empty strings as None, line ends as line feeds, and keys with spaces for white space, the later of two equal ones winning |
| ConfigXml.ReturnedIsSame | src/client/mesycontrol/config_xml.py:269-330 | that is the value itself iff it has no tuple and, through a file, no empty string, carriage return or white space in a key |
| ConfigXml.WritableExactly | src/client/mesycontrol/config_xml.py:264-284 | it can be written iff all its texts and keys consist of XML characters |
| ConfigXml.ComesBack | src/client/mesycontrol/config_xml.py:264-330 | written and read it comes back as itself iff both conditions hold |
| ConfigFiles.BuildDeviceTree | src/client/mesycontrol/config_xml.py:151-169 | adds exactly the device's element |
| ConfigFiles.DeviceConfigFromNode | src/client/mesycontrol/config_xml.py:171-191 | decodes a device, with every exception |
| ConfigFiles.DeviceRoundTrip | src/client/mesycontrol/config_xml.py:151-191 | what every device configuration comes back as |
| ConfigFiles.DeviceWritable | src/client/mesycontrol/config_xml.py:151-169 | it can be written iff its texts, names and values consist of XML characters and no parameter name breaks its comment |
| ConfigFiles.DeviceComesBack | src/client/mesycontrol/config_xml.py:119-191 | written and read it comes back unchanged iff it can be written and name, description, extension names and values are stable |
| ConfigFiles.IterValue | src/client/mesycontrol/config_xml.py:180-187 | the search for parameters and extensions finds none inside an extension's value |
| ConfigFiles.ExtensionsComeBack | src/client/mesycontrol/basic_model.py:409-422 | the extensions come back iff each name and value does, though names may become equal |
| ConfigFiles.BuildSetupTree | src/client/mesycontrol/config_xml.py:244-253 | adds exactly the setup's element |
| ConfigFiles.WriteSetup | src/client/mesycontrol/config_xml.py:87-97 | the whole tree of a setup, or the TypeError |
| ConfigFiles.ReadSetup | src/client/mesycontrol/config_xml.py:64-85 | decodes a setup, with every exception |
| ConfigFiles.MrcConfigFromNode | src/client/mesycontrol/config_xml.py:205-228 | decodes an MRC, with every exception |
| ConfigFiles.MrcRoundTrip | src/client/mesycontrol/config_xml.py:193-228 | what every MRC comes back as: autoconnect true, an empty URL as "None" |
| ConfigFiles.SetupRoundTrip | src/client/mesycontrol/config_xml.py:64-104 | what every setup comes back as, or the exception where two URLs are read as the same |
| ConfigFiles.SetupComesBack | src/client/mesycontrol/config_xml.py:64-104 | written and read it comes back unchanged iff it can be written, all flags were true, and every URL, name and device is stable |
| ConfigOrder.AddedInOrder | src/client/mesycontrol/basic_model.py:128-138 | a device is refused iff it has no place or its place is taken, and otherwise put between those before and after it by bus and address |
| ConfigOrder.AddedByUrl | src/client/mesycontrol/basic_model.py:65-72 | likewise an MRC, by URL |
| ConfigOrder.AnyMrc | src/client/mesycontrol/config_xml.py:205-228 | any MRC element, whoever wrote it: it cannot be read iff a device cannot, has no place or the place of another; otherwise it has exactly the devices of its elements, in order |
| ConfigFormat.AnyValue | src/client/mesycontrol/config_xml.py:303-316 | any value element but a float: strings, numbers, lists and dictionaries, and an exception for every other type |
| ConfigFormat.AnyList | src/client/mesycontrol/config_xml.py:318-322 | the i-th item is what the i-th value element says; all must be readable |
| ConfigFormat.AnyDict | src/client/mesycontrol/config_xml.py:324-330 | the keys are those of the key elements, each with the value of its last one; all must be readable |
| ConfigFormat.AnyParameters | src/client/mesycontrol/config_xml.py:180-182 | the addresses are those of the parameter elements, each with the value of its last one; all must have an address in range and a value |
| ConfigFormat.AnyDevice | src/client/mesycontrol/config_xml.py:171-191 | the numbers and texts of a device come from the elements of their names |
| ConfigFormat.AnyMrcTexts | src/client/mesycontrol/config_xml.py:205-228 | likewise for an MRC; its flag is false iff the element is there without a text |
| ConfigFormat.AnySetup | src/client/mesycontrol/config_xml.py:64-85 | a setup needs its elements by name; its MRCs are exactly those of its elements, ordered by URL |
| ConfigFormat.WrittenDevice | src/client/mesycontrol/config_xml.py:151-169 | a device's element has one parameter element for each parameter, with its address and value, in ascending order |
| ConfigFormat.CommentsNameParameters | src/client/mesycontrol/config_xml.py:158-162 | every parameter that has a name is preceded by it as a comment, and there are no other comments |
| ConfigFormat.WrittenMrc | src/client/mesycontrol/config_xml.py:193-203 | an MRC's texts, its flag as "True" or "False", and its devices, each with the parameter names of its kind |
| ConfigFormat.WrittenSetup | src/client/mesycontrol/config_xml.py:87-97 | the root with its version, the setup with its flag and its MRCs (and config_xml.py:244-253) |
| ConfigModel.WhatSettersDo | src/client/mesycontrol/basic_model.py:231-422 | each setter changes its own field to what it was given and no other; one parameter or extension is set or removed and the others stay, the extensions in order |
| ConfigModel.WhatMrcSettersDo | src/client/mesycontrol/basic_model.py:116-120 | each setter of an MRC changes its own field and no other (and config_model.py:139-171) |
| ConfigModel.Device.Apply | src/client/mesycontrol/config_model.py:30-39 | a setter reports exactly the changes, and a change raises the flags up to the setup |
| ConfigModel.Device.Set | src/client/mesycontrol/basic_model.py:231-422 | what every setter does, with its exceptions |
| ConfigModel.ConfigMrc.AddDevice | src/client/mesycontrol/basic_model.py:128-138 | inserted in order, refused if the place is taken |
| ConfigModel.ConfigMrc.RemoveDevice | src/client/mesycontrol/config_model.py:153-157 | removed and disconnected |
| ConfigModel.ConfigMrc.ClearFlag | src/client/mesycontrol/config_model.py:128-131 | the devices' flags are cleared, too, and no content changes |
| ConfigModel.Setup.SetOnDevice | src/client/mesycontrol/config_model.py:203-216 | a device setter anywhere keeps the flags sound, reports exactly the changes and touches no other device |
| ConfigModel.Setup.SetOnMrc | src/client/mesycontrol/config_model.py:139-145 | an MRC setter keeps the flags sound and touches no other MRC |
| ConfigModel.Setup.AddDeviceTo | src/client/mesycontrol/config_model.py:147-151 | adding a device, modified or not, keeps the flags sound |
| ConfigModel.Setup.RemoveDeviceFrom | src/client/mesycontrol/config_model.py:153-157 | so does removing one |
| ConfigModel.Setup.AddMrc | src/client/mesycontrol/config_model.py:80-84 | so does adding an MRC with its devices |
| ConfigModel.Setup.RemoveMrc | src/client/mesycontrol/config_model.py:86-90 | so does removing one |
| ConfigModel.Setup.ClearFlag | src/client/mesycontrol/config_model.py:41-46 | clearing reaches every device and changes no content |
| ConfigModel.Setup.FlagsReachUp | src/client/mesycontrol/config_model.py:159-161 | a modified device means a modified MRC and a modified setup |
| ConfigModel.Setup.ClearDevice | src/client/mesycontrol/config_model.py:41-46 | clearing one device keeps the flags sound |

## Left out

- Sockets, serial lines, baud rates, timeouts of the link, asio, Qt signals and timers are reduced to their events; a signal is a direct call.
- A timer is a pending flag or counter. The retry timer's handler ignores its error code, so cancelled waits count as firing; handlers that asio has already queued when a timer is cancelled are not modelled.
- An external stop of the MRC link: nothing in the program calls it while the server runs.
- Protobuf encoding: messages are values, their bytes opaque; 32-bit fields the server passes on are unbounded numbers.
- Regular expressions of the reply parser: a line is what they find in it.
- READ_MULTI replies: the connection's command set without them is modelled, the parser answers the rest with an error.
- Poller: the order in which a hash set enumerates the items is an arbitrary enumeration; response handlers are named cases instead of closures, and the manager is passed in.
- URLs are numbers in the Director's trees; appending and sorting is insertion at the right place; modules are known by their identifier code; hardware and configuration handlers, which mirror each other, are one handler with a side.
- Director: autoconnect and the automatic creation of configurations.
- Hardware device polling, temperature, and the subscriptions of the controller.
- ClientQueue: handlers of the queue's size signals do not call back into the client; a handler does not disconnect while it handles a response.
- Futures: progress callbacks, names, logging and the Qt observer.
- ApplyParameters: a failed request takes effect at once or never; a future that a disconnect cancels, for which asking for the exception raises (src/client/mesycontrol/future.py:88-96), is not one of its outcomes; connect_and_apply_setup and its progress, and the collection of several devices, are not modelled.
- ConfigFiles: the XML library is represented by what a file does to texts, attribute values and comments, its text form is not modelled; strings have no surrogates; floats, booleans as extension values, and the descriptions of a setup are not modelled; a device without a bus or address within an MRC is refused.
- PythonText.Int: decimal digits outside ASCII are not read as digits, and the limit that newer versions of Python put on the number of digits is not modelled.
- Director.Director.DeviceIdcChanged: whether the connected function can be called is a constant of the Director, since the Qt binding decides it.
- TcpConnection.TCPConnection.ReadRequests: the stream holds whole requests; a read that waits for more bytes is asio's.
- ClientQueue.MCTCPClient.StartWriteRequest: a request of more than 65535 bytes, for which packing its size raises an exception, is not modelled.
- Futures.Future.ExecCallback: a callback registers further callbacks on its own future; what it does to the client is modelled in ClientQueue.
- ConfigModel: the description of a device is a plain attribute and no setter; a value changed through a reference that get_extensions gave out is not noticed by the program either; a device belongs to one MRC and an MRC to one setup.
- The three-valued config_applied state, device profiles, GUI, scripting, command line and build files.
