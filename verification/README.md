# A verified model of an Electrum private-broadcast proxy

The proxy sits between Electrum wallets and a public query upstream. It passes ordinary requests through
byte for byte, intercepts `blockchain.transaction.broadcast` and hands the transaction to one private relay,
and never lets a broadcast reach the upstream. This project models the proxy's protocol and proves what it
is for: the bytes that go upstream, the ids and replies a wallet can rely on, the limits of the relay
stack, an orderly shutdown, and the validation of its configuration; and, beside it, the create-once
publication of release candidates.

| files | what they model |
|---|---|
| `Sequences` | sequences: concatenation, filtering, weighted totals |
| `Framing`, `Json`, `JsonReader`, `Protocol` | newline frames with a length cap, compact JSON text and a reader for it, classification and replies |
| `Pending`, `Connection` | the pending table and one wallet connection as a transition system |
| `ConnectionRoutes`, `ConnectionIds`, `ConnectionCalls`, `ConnectionReplies`, `ConnectionQueries`, `ConnectionEnds`, `ReplyText` | theorems about every run of a connection |
| `LiveConnection`, `ConnectionLoops` | the connection's code in place, proved to make runs of that system |
| `Relay`, `RelayRuns`, `RelayBudget`, `RelayShutdown` | the shutdown gate around the limiter around one adapter, with interleaved and cancellable calls |
| `Process`, `ProcessRuns` | any number of connections sharing one relay stack |
| `Config`, `Endpoint`, `EndpointText`, `EndpointWitness` | validation of the configuration, endpoint identity and text form |
| `Serve`, `LiveServer` | the accept loop, its connection tasks and its shutdown |
| `Supervision` | the accept loop, its connections and the relay stack together |
| `Publication`, `PublicationRuns` | exclusive creation and rollback of the evidence files, by one invocation and by any number at once |

Concurrent code is a transition system with one event for each atomic action: a lock section, a send into the
channel, a write of some bytes, entering and leaving the relay, an abort. `Run` applies a sequence of
events and is defined only if each was possible when it happened, so a statement about every `events` with
`Run(...).Some?` is a statement about every interleaving. States carry the history of the connection
(frames read, bytes sent, replies enqueued, relay calls made), which the theorems speak about. Timeouts,
write errors, amounts written and the behaviour of peers and of the adapter are events chosen freely.

The text of JSON values is modelled, its deserialisation is not: `Env.parseRequest` and `Env.parseEnvelope`
are arbitrary functions from frames. Only `DecodingNeverGrows`, that a transaction text is no longer than the
frame it was decoded from, is assumed of them, and only where the payload budget needs it. The library's
text form of IP addresses is a parameter too, used through the properties collected in `Endpoint.Sane`;
`EndpointWitness.SaneIsConsistent` shows that they can be met together.

Where the code and its documentation disagree, the model follows the code:

- `docs/architecture.md` lines 27-28 say a response is forwarded only if its query was actually sent
  upstream. The code reserves the id before the write, so wherever the first query is answered at all, its
  response can be accepted before a byte of the query has gone out (`ResponseCanPrecedeItsQuery`). The
  promise holds for a key exactly when the query being written is not one with that key which is no longer
  pending (`ResponsesFollowQueries`).
- `docs/architecture.md` line 96 and `src/relay/draining.rs` line 94 call the lifecycle gate race-free. Admission
  is, and `AdmittedOnlyShrink` proves it. The watch value is published outside the mutex, though, and
  `StaleZeroDeceives` gives an interleaving in which `wait_for_idle` would report idle while a call is
  active. `ZeroTrustedExactlyWhenSettled` says exactly when a zero can be trusted.
- `docs/architecture.md` lines 82-85 present the payload semaphore as an independent limit. Under an accepted
  configuration it never refuses anything (`AcceptedConfigNeverRefusesPayload`); in general it does
  if and only if the product exceeds the budget (`BudgetBindsExactly`).

- `scripts/release_candidate_once.py` line 112 promises a pair with rollback. An interrupt between creating
  or copying a file and noting that, a failing removal or a kill can leave part of a pair
  (`InterruptStrandsArchive`); `PairsAreAllOrNothing` says exactly when a pair is whole or absent. A failing
  removal of a sidecar that was already noted is harmless: it ends the rollback with both files whole.

## Model

| member | source | states |
|---|---|---|
| `Framing.FramingUnambiguous` | src/proxy.rs:523-542 | if one list of newline-terminated frames concatenates to a prefix of another's stream, the list is a prefix of the other: no stream, whole or truncated, can be framed in two ways |
| `Framing.ReadAllSound` | src/proxy.rs:523-542 | repeated reading yields only frames within the cap with their one newline last, and they concatenate to a prefix of the stream |
| `Framing.ReadAllMaximal` | src/proxy.rs:523-542 | any legal frames that make up a prefix of the stream are all read, in order; with soundness this characterises repeated `read_frame` |
| `Framing.ReadBackWhatWasWritten` | src/proxy.rs:523-542 | writing any legal frames and reading gives exactly those frames and then end of input |
| `Framing.ReadAllEnding` | src/proxy.rs:523-542 | how reading ends is decided by the bytes left after the frames read, which begin with no legal frame: too many or unfinished bytes are invalid, a broken source is reported as such, and only nothing at all is a clean end |
| `Framing.ReframingTruncated` | src/proxy.rs:523-542 | whoever re-frames a truncated stream of frames, with any cap, sees only those frames |
| `Framing.ReadNextFromUntil` | src/proxy.rs:532-541 | the tests made on the bytes obtained decide closed, invalid, failed or a frame just as the declarative split of the stream does |
| `Framing.BufferedReader.TakePiece` | src/proxy.rs:528-531 | one turn of the bounded read takes a piece off the front of the stream with at most one newline, last, and an empty piece only at the end |
| `Framing.ReadUntil` | src/proxy.rs:528-531 | the bounded read takes bytes up to the first newline or the limit, whatever the arrivals, and fails exactly if the source breaks before either |
| `Framing.ReadFrame` | src/proxy.rs:523-542 | the result and the bytes left depend on the stream alone and not on how it was cut into arrivals |
| `Json.UnescapeEscape` | src/proxy.rs:511-517 | unescaping inverts string escaping as in section 7 of RFC 8259 and finds the closing quote by itself |
| `Json.SerializePrintable` | src/protocol.rs:149-153 | no JSON value, whatever it holds, is printed with a control byte in it |
| `Json.ReadSerializedId` | src/proxy.rs:511-517 | the text of any null, integer or string id can be read back together with what follows it |
| `JsonReader.ReadPrinted` | src/protocol.rs:149-153 | a reader written from the grammar of RFC 8259 reads every printed value back, whatever follows it, if it holds no floating-point number |
| `Json.TwoMemberInjective` | src/protocol.rs:97-99 | the text of an object holding an id and a string determines both |
| `Protocol.ClassifyExact` | src/protocol.rs:50-94 | every frame is taken for exactly one thing: relayed iff it parses, its id is absent, a 64-bit integer or a string of at most 256 bytes, its method is the broadcast method and its parameters are one text, alone or in an array, that is hexadecimal for some bytes; upstream with another method; refused under its own id with -32602 for other parameters, under none with -32600 otherwise |
| `Protocol.ReadPrintedHex` | src/protocol.rs:72-77 | reading hexadecimal text inverts printing it, whatever case each digit is in |
| `Protocol.PrintReadHex` | src/protocol.rs:72-77 | printing inverts reading, in the cases of the text |
| `Protocol.TransactionHexExact` | src/protocol.rs:72-77 | the transaction test accepts exactly the hexadecimal texts of non-empty byte strings |
| `Protocol.KeyedExactly` | src/protocol.rs:88-94 | an id has a key iff it is a 64-bit integer or a string of at most 256 bytes |
| `Protocol.RequestKeyInjective` | src/proxy.rs:511-517 | two usable ids have the same key iff they are the same integer or the same string |
| `Protocol.EncodeResponseTerminated` | src/protocol.rs:149-153 | every reply the proxy makes is one frame whose only newline is last |
| `Protocol.SuccessResponseInjective` | src/protocol.rs:97-99 | a success reply determines the id it answers and the transaction id |
| `Protocol.ErrorIsNotSuccess` | src/protocol.rs:96-131 | no error reply has the bytes of a success reply |
| `Protocol.ErrorResponseDeterminesCode` | src/protocol.rs:101-147 | a wallet can tell error replies apart: the bytes determine the code |
| `Protocol.RelayErrorTells` | src/protocol.rs:101-115 | a wallet can tell a relay that is switched off from one that failed |
| `ReplyText.RepliesReadBack` | src/protocol.rs:96-153 | read by name, a success carries the id of its broadcast and the transaction id and no error; every error carries no result, the id of its request, or none for unreadable frames and ids in use, and the code of its kind: -32600, -32602, -32090, -32091 or -32092 |
| `ReplyText.RefusalReadsBack` | src/protocol.rs:50-83 | the reply to a refused frame has code -32602 under its own id for a broadcast with bad parameters, and -32600 under none otherwise |
| `ReplyText.ChannelRepliesReadBack` | src/proxy.rs:404-491 | in every run each reply the handler puts in the channel reads, by name, as what it is, with the id of the broadcast frame it answers |
| `Pending.ReserveThenRelease` | src/proxy.rs:494-509 | releasing a reserved key, or accepting the response to a query, restores the table; an upstream response to a broadcast's key is refused and changes nothing |
| `Pending.PendingRequests.ReserveRequest` | src/proxy.rs:494-509 | the lock section in place: duplicate, full or reserved, as the table function says |
| `Pending.PendingRequests.AcceptResponse` | src/proxy.rs:368-375 | the forwarder's lock section in place: only a key awaiting the upstream is taken out |
| `Connection.HandlerFrame` | src/proxy.rs:390-492 | which parts of the connection each kind of handler step leaves alone |
| `Connection.ForwarderFrame` | src/proxy.rs:350-388 | which parts of the connection each kind of forwarder step leaves alone |
| `ConnectionRoutes.OutwardKeptByStep` | src/proxy.rs:403-491 | every step keeps: frames read plus the unread rest are the wallet's stream, and bytes written plus the unwritten rest of the current request are the passthrough frames in order |
| `ConnectionRoutes.InwardKeptByStep` | src/proxy.rs:359-387 | every step keeps: each accepted upstream frame is in the channel's history or in the forwarder's hand, in order, and accepted frames are among those read |
| `ConnectionRoutes.DeliveryKeptByStep` | src/proxy.rs:337-348 | every step keeps: bytes delivered, bytes in the writer's hand and bytes queued are exactly what was enqueued, and the channel is within its capacity |
| `ConnectionRoutes.UpstreamNeverSeesBroadcast` | src/proxy.rs:403-491 | in every run the upstream bytes are a prefix of the wallet's passthrough frames, unchanged and in order; re-framed in any way they hold no broadcast request, valid or not; and between frames nothing is held back |
| `ConnectionRoutes.WalletStreamIsFaithful` | src/proxy.rs:337-385 | in every run the wallet's bytes are a prefix of the enqueued frames and re-frame to just those; the upstream ones among them are read frames in order, none invented or altered; a drained channel has delivered all |
| `ConnectionIds.ReservationsConserved` | src/proxy.rs:494-509 | over every run with any reuse of ids, reservations of a key equal accepted responses or completed broadcasts plus the entry still pending; the table is within its limit, holds at most one broadcast, and none at the loop head |
| `ConnectionIds.BroadcastOwnsItsId` | src/proxy.rs:446-485 | from the reservation of a broadcast until its answer is enqueued no response with its key is accepted; at most one frame with that key enters the channel, the one the forwarder already held |
| `ConnectionCalls.OneRelayCallPerFrame` | src/proxy.rs:446-478 | over every run a wallet frame reaches the relay at most once, and only as a well-formed broadcast with its own transaction |
| `ConnectionCalls.SuccessIsNeverInvented` | src/proxy.rs:473-485 | handler bytes that read as a success reply for an id stem from one broadcast frame with that id for which the relay returned that transaction id |
| `ConnectionCalls.RejectionIsFinal` | src/proxy.rs:411-489 | after a duplicate, a full table, a malformed frame or any end of the handler: no byte upstream, no relay call, no reservation, whatever else happens |
| `ConnectionCalls.ShutdownReadsNoMore` | src/proxy.rs:404-417 | once shutdown is signalled at most the frame a handler was already reading is still read |
| `ConnectionCalls.SignalEndsReading` | src/proxy.rs:326-335 | from the signal on, in whatever state the connection is, at most the frame being read is still read |
| `ConnectionCalls.ReturnLeavesNothingRunning` | src/proxy.rs:295-323 | whichever task ends first, along each of the three branches a normal return leaves all three ended, and whatever is awaited without a bound has been asked to stop; once a cancelled connection has dropped its handles all three have been asked to stop; only that cuts the writer off before its senders are gone |
| `ConnectionReplies.EveryCallAnsweredOnce` | src/proxy.rs:446-485 | in every run the broadcasts answered in the channel are the relay calls made, in order and each once; only a call in the handler's hand, or the last one of a handler that has stopped, is unanswered |
| `ConnectionReplies.MalformedFrameCloses` | src/proxy.rs:404-489 | in every run only the newest frame can be malformed, and then the handler is at it or closing; a rejection in the channel is the handler's last word and is deserved: unread bytes that are no frame, the newest frame malformed in just that way, its id outstanding when it was looked at, or not outstanding but the table full |
| `ConnectionReplies.OnlySolicitedIsForwarded` | src/proxy.rs:359-387 | in every run each forwarded frame is a notification or a response, and responses to an id never exceed its reservations for the upstream |
| `ConnectionEnds.NothingOwedIsDropped` | src/proxy.rs:359-387 | in every run the notifications accepted for the wallet are exactly those read, in order; and the responses to an id that were decided on are those accepted and those dropped, each of which was not awaited from the upstream when it was matched |
| `ConnectionEnds.NothingEndsWithoutCause` | src/proxy.rs:337-492 | in every run a forwarder, handler or writer that has ended had one of its reasons: an abort, a closed channel, no further frame, an unrecognisable frame, shutdown, the end or failure of a stream, an unfinished write, a rejection put in the channel, or nothing left to deliver |
| `ConnectionQueries.RequestsReservedOrRefused` | src/proxy.rs:419-472 | in every run the requests with a key that were dealt with are those reserved for the upstream, those reserved for the relay and at most one refused; a refusal is of the newest frame, closes the connection, and had its key outstanding or the table full as cause |
| `ConnectionQueries.ResponseCanPrecedeItsQuery` | docs/architecture.md:27-28 | wherever the wallet's first query is answered, there is a run in which the response is accepted with no byte of the query sent |
| `ConnectionQueries.ResponsesFollowQueries` | docs/architecture.md:27-28 | in every run, responses forwarded for a key are at most the queries with that key sent in full, if and only if the query being written is not one with that key which is pending no more |
| `LiveConnection.LiveConnection.constructor` | src/proxy.rs:268-293 | a new connection is the initial state of the transition system |
| `LiveConnection.LiveConnection.ReserveOrReject` | src/proxy.rs:423-442 | the id is reserved, or the connection is set to close with the error that fits |
| `LiveConnection.LiveConnection.DecideFrame` | src/proxy.rs:419-490 | what happens to a frame in place is the transition the theorems speak about, on every branch |
| `LiveConnection.LiveConnection.ReleaseAnswered` | src/proxy.rs:473-482 | the id is released before the reply can be sent, and the reply is the relay's answer |
| `LiveConnection.LiveConnection.MatchResponse` | src/proxy.rs:363-385 | a response is accepted or dropped in place as the transition says |
| `ConnectionLoops.ReadClientFrame` | src/proxy.rs:405-417 | reading from a buffered socket is the handler's read step on the wallet's stream |
| `ConnectionLoops.WriteAllUpstream` | src/proxy.rs:444 | in whatever amounts the socket takes them, the remaining bytes of the request go out in order and in full, or the handler ends with a prefix of them sent, as a run of the transition system |
| `ConnectionLoops.RelayAndReply` | src/proxy.rs:473-484 | a reserved broadcast goes through relay, release and reply as steps of the transition system in that order, or waits in the relay |
| `ConnectionLoops.HandleClientFrames` | src/proxy.rs:390-492 | the handler's loop ends, or waits for the relay or for channel room, and until then has made one run of the transition system |
| `ConnectionLoops.ForwardUpstreamFrames` | src/proxy.rs:350-388 | the forwarder's loop ends or waits for channel room, and until then has made one run of the transition system |
| `ConnectionLoops.WriteClientOutput` | src/proxy.rs:337-348 | the writer's loop, with partial and failing writes, is a run of the transition system; it waits on an empty channel with a sender left or has ended, and if the socket never fails everything ever enqueued is delivered |
| `ConnectionLoops.FinishStreams` | src/proxy.rs:295-323 | once any task has ended the others are stopped and awaited and the function returns, as a run of the transition system |
| `Relay.SharedDrainState.AdmitSection` | src/relay/draining.rs:139-146 | admission in place: refused when closed or at the counter's maximum, otherwise counted |
| `Relay.SharedDrainState.LeaveSection` | src/relay/draining.rs:125-131 | a guard's drop in place; the value to publish is the count under the lock |
| `Relay.LimitedRelay.Broadcast` | src/relay/limited.rs:41-53 | the adapter is reached iff the length fits 32 bits and both budgets allow it; otherwise the call fails; every permit is back afterwards, also when the call is cancelled in the adapter |
| `Relay.ConservedByStep` | src/relay/limited.rs:41-53 | every step of any number of calls, with refusals and cancellations, keeps available plus held permits and the gate's count of admitted calls |
| `Relay.FlightBounded` | src/relay/limited.rs:26-53 | in every reachable state adapter calls in flight are within the limit and their payloads together within the budget |
| `Relay.GuardIsCounted` | src/relay/draining.rs:123-134 | a guard being dropped is always counted, so the test before the decrement never fails |
| `Relay.NeverRefusedForSize` | src/relay/limited.rs:41-51 | if limit times largest payload fits the budget, no step refuses a call for its size or for want of payload permits |
| `Relay.LogKeptByStep` | src/relay/limited.rs:41-53 | every step keeps: no call invokes the adapter twice, and every outcome is the adapter's own, or a plain failure where the adapter was not reached |
| `Relay.ResultsPassUnchanged` | src/relay/draining.rs:138-152 | in every run a call that has ended uncancelled returned exactly what the adapter returned to it, success or either failure, and the plain failure if it was never invoked |
| `Relay.TurnedAwayExactly` | src/relay/limited.rs:41-51 | a call is turned away exactly when the gate is closed or its counter exhausted, its length does not fit 32 bits, as many calls as allowed hold request permits, or the payloads held leave it no room |
| `RelayBudget.BudgetCanBind` | src/relay/limited.rs:48-51 | if the budget is smaller than limit times size, there is a run in which a call holding a request permit is refused for want of payload permits |
| `RelayBudget.BudgetBindsExactly` | src/relay/limited.rs:41-53 | no run with payloads up to a size ever sees such a refusal iff limit times that size is within the budget |
| `RelayShutdown.AdmittedOnlyShrink` | src/relay/draining.rs:46-54 | once the gate is closed it stays closed and the admitted calls are always among those admitted then |
| `RelayShutdown.ZeroTrustedExactlyWhenSettled` | src/relay/draining.rs:61-79 | once shutdown has begun, a zero watch value means idle in every continuation iff nothing is active, or neither the watch value nor a value still to be published is zero |
| `RelayShutdown.ShutdownEarnsTrust` | src/relay/draining.rs:46-54 | with any number of shutdowns begun, when one publishes while no zero computed earlier is outstanding, zero can be trusted from then on |
| `RelayShutdown.IdleReportIsFinal` | src/relay/draining.rs:46-79 | from then on a zero seen means no call is active then or ever after, however often shutdown is begun and however publications are reordered |
| `RelayShutdown.WaitForIdle` | src/relay/draining.rs:61-79 | the waiter reports idle at the first zero it sees and only then; if zero could be trusted when it started, no call is active at that moment |
| `RelayShutdown.StaleZeroDeceives` | src/relay/draining.rs:123-134 | without that condition there is a run in which shutdown has published, the watch value is zero and a call is active |
| `RelayShutdown.WatchWasTrueOnce` | src/relay/draining.rs:46-54 | in every run the watch value and every value still to be published were the active count at some moment: publications can be late, but none is made up |
| `Process.KeptByStep` | src/main.rs:46-48 | every step of the composed process keeps the invariants of each connection and of the relay stack, and the link between each relay call and the wallet frame it stands for |
| `Process.OneAdapterCallPerFrame` | src/proxy.rs:446-485 | over every run of the process, each adapter invocation is for one wallet frame, a well-formed broadcast of that transaction, and no frame causes two |
| `Process.NoPublicFallback` | docs/architecture.md:61-80 | whatever happens to the relay, on every connection the upstream sees only permitted requests and never a broadcast |
| `Process.OneCallInFlightPerConnection` | src/proxy.rs:473-485 | a connection never has two unfinished relay calls |
| `Process.SuccessComesFromTheAdapter` | src/proxy.rs:473-485 | a success reply in a wallet's channel means the adapter was invoked with the transaction of that wallet's own frame with that id and returned that transaction id |
| `Process.AnswerIsTheAdapters` | src/proxy.rs:473-485 | the answer a connection gets for a call is exactly what the adapter returned to that very call, or the plain failure if it was not invoked, and the reply in the wallet's channel says just that |
| `ProcessRuns.BroadcastGoesThrough` | src/proxy.rs:404-485 | if the wallet's first frame is a broadcast the limits admit, then for every result of the adapter there is a run that ends with the reply for that result in the wallet's channel |
| `ProcessRuns.CancelledCallUnwinds` | src/relay/draining.rs:123-134 | a handler asked to stop while its call is in the adapter can always end, and then the call has given back its permits and is no longer counted |
| `Process.PayloadBudgetNeverBinds` | src/relay/limited.rs:41-53 | with frames capped so that limit times cap fits the budget, no run refuses a broadcast for its size or for want of payload permits |
| `Config.BudgetProductNeverOverflows` | src/config.rs:214-217 | with its factors in range the product never overflows, so that error is never reported |
| `Config.ConfiguredAsAsked` | src/config.rs:250-262 | every route, limit and timeout of an accepted configuration is the one given |
| `Config.AcceptedExactlyWhenSafe` | src/config.rs:173-263 | a configuration is accepted iff its ports are set, a reachable listener was asked for, its endpoints can be connected to, its limits are in range, every load they admit fits in 128 MiB, and its routes are safe in terms of the targets they name |
| `Config.SpellingDoesNotMatter` | src/config.rs:185-248 | replacing the upstream and relay endpoints by valid spellings of the same targets does not change acceptance |
| `Config.AcceptedRoutesAreSeparate` | src/config.rs:227-262 | the routes of an accepted relaying configuration itself: its relay is not its upstream, and neither of them nor its SOCKS proxy leads back to its listener, under any spelling of the same targets |
| `Config.AcceptedConfigNeverRefusesPayload` | src/config.rs:206-222 | under any accepted configuration, in every run of any number of connections, no broadcast is refused for want of payload permits or for its length, and flight and payload stay within their limits |
| `Endpoint.SameTargetIsKeyEquality` | src/endpoint.rs:51-66 | two endpoints are the same target iff their canonical keys of port and host class are equal, so the relation is an equivalence on all endpoints |
| `Endpoint.ListenerCheckByClass` | src/endpoint.rs:73-91 | the loop check is decided by the canonical key alone |
| `Endpoint.ListenerCheckRespectsTargets` | src/endpoint.rs:73-91 | endpoints that are the same target get the same loop check for every listener |
| `Endpoint.DnsNameFitsWire` | src/endpoint.rs:186-202 | a name is accepted iff its labels are legal and its wire form takes at most the 255 octets of section 2.3.4 of RFC 1035 |
| `EndpointText.HostsExactly` | src/endpoint.rs:163-203 | a host is accepted iff it is the text of an address, or a name of the grammar of section 2.3.1 of RFC 1035, digits first allowed, of at most 255 octets in wire form, with or without the root dot; all other checks are implied |
| `EndpointText.ValidExactly` | src/endpoint.rs:39-44 | an endpoint is valid iff its port is not zero and its host is such a host |
| `EndpointText.NamesParseExactly` | src/endpoint.rs:122-153 | a text that is no socket address names an endpoint iff it is a valid host without a colon, a colon and a port text; the checks for padding, schemes and stray colons are implied |
| `EndpointText.PortsExactly` | src/endpoint.rs:146-148 | a text is a port iff it is the port's decimal text behind any number of zeros and an optional plus sign |
| `EndpointText.LocalAddressesExactly` | src/endpoint.rs:73-91 | loopback is 127.0.0.0/8 and ::1 and unspecified the zero address, as numbers |
| `EndpointText.CasesExactly` | src/endpoint.rs:62-64 | only the 26 capital letters have another case, 32 code points up |
| `EndpointText.SpellingsOfOneName` | src/endpoint.rs:46-66 | dots at the end never matter, and neither does the case of a name |
| `EndpointText.TrimExact` | src/endpoint.rs:93-95 | normalising takes off all the dots at the end and nothing else |
| `Endpoint.PrintThenParse` | src/endpoint.rs:98-153 | printing any valid endpoint and parsing it succeeds and names the same target |
| `Endpoint.ParsedHostIsCanonical` | src/endpoint.rs:122-153 | a parsed endpoint is valid, and a host with a colon is an address in canonical form |
| `Endpoint.ParsePrintParse` | src/endpoint.rs:98-153 | printing an endpoint that came from parsing and parsing again gives the identical endpoint |
| `EndpointWitness.SaneIsConsistent` | src/endpoint.rs:137-141 | the properties assumed of the address library can be met together |
| `Serve.KeptByStep` | src/proxy.rs:151-229 | every step keeps the connection permits conserved, joins only ended tasks, and returns without a listener error only when all are joined |
| `Serve.SupervisionIsSound` | src/proxy.rs:150-229 | working connections never exceed the limit; a return leaves no unended task unless the listener failed; the report says drained only if every connection ended without failure; no task is aborted while it may finish by itself, and every one is once the others are to be cancelled |
| `Serve.AcceptedExactlyWhenRoom` | src/proxy.rs:166-171 | an arriving connection gets a task iff fewer connections are working than allowed |
| `Serve.ReturnIsFinal` | src/proxy.rs:207-229 | nothing is accepted after a return, and unless the listener failed nothing changes at all |
| `Serve.ExitHasCause` | src/proxy.rs:151-229 | every way to end has its cause: a failed listener, a failed connection task, or for an incomplete drain the deadline or such a task; and a report is made only after shutdown |
| `LiveServer.Server.AcceptConnection` | src/proxy.rs:166-171 | a connection gets a task iff there is a permit and is dropped otherwise |
| `LiveServer.Server.CancelRemaining` | src/proxy.rs:223-225 | every aborted task is awaited before the return, as a run of the supervision machine |
| `LiveServer.Server.ShutDown` | src/proxy.rs:207-229 | joining until all are joined, one fails or the deadline strikes is a run of the supervision machine that ends in the report returned |
| `Supervision.KeptByStep` | src/proxy.rs:150-205 | every step of the server as a whole keeps: a connection that was not accepted has not started, and one whose task ended well has finished with its three tasks ended |
| `Supervision.DrainedMeansIdle` | docs/architecture.md:122-128 | in every run of the whole server, a report that all connections were drained means that no relay call is active or ever will be, and every permit is back |
| `Publication.Directory.CopyExclusive` | scripts/release_candidate_once.py:88-104 | succeeds iff the destination was absent and nothing went wrong; a failed copy leaves the directory as it was, unless it was interrupted before noting its file or could not remove it, and then leaves just a prefix of the source |
| `Publication.Directory.PublishCandidateEvidence` | scripts/release_candidate_once.py:107-129 | both files or neither, whatever fails, except exactly the files stranded by an interrupt before they are noted or by a failing removal; nothing else changes |
| `PublicationRuns.KeptByStep` | scripts/release_candidate_once.py:77-129 | every step of any interleaving, with failures, interrupts and kills, keeps: a file is as it was at the start, or is what its one creator has made of it so far |
| `PublicationRuns.ExistingEvidenceIsUntouched` | scripts/release_candidate_once.py:67-129 | in every interleaving, with failures, interrupts and kills anywhere and with or without the lock, files that existed are never changed or removed |
| `PublicationRuns.OnlyTheCreatorRemoves` | scripts/release_candidate_once.py:77-85 | a file disappears only by a step of the invocation that created it |
| `PublicationRuns.OccupiedPairIsUntouched` | scripts/release_candidate_once.py:67-74 | where either file of a pair existed, nothing is ever added to the pair |
| `PublicationRuns.PairsAreAllOrNothing` | scripts/release_candidate_once.py:107-129 | once all have ended, a pair absent at the start is absent or whole from one invocation, if and only if no invocation for it was killed with part of it in place, interrupted before noting a file, or failed to remove one, other than so that both stayed whole |
| `PublicationRuns.CleanPairIsPublished` | scripts/release_candidate_once.py:107-129 | where no invocation gave anything up, a file of the pair that is there belongs to an invocation that succeeded |
| `PublicationRuns.InterruptStrandsArchive` | scripts/release_candidate_once.py:93-104 | an interrupt right after the archive is created leaves it empty and alone, although the invocation unwinds in good order |
| `PublicationRuns.LoneInvocationPublishes` | scripts/release_candidate_once.py:132-161 | a lone invocation that nothing goes wrong with ends with both files whole and the lock gone |
| `PublicationRuns.AtMostOneSucceeds` | scripts/release_candidate_once.py:107-129 | two successful invocations for one target are impossible |
| `PublicationRuns.LockExcludes` | scripts/release_candidate_once.py:30-57 | among users of the lock at most one per target is ever inside, whatever lock files were left over and whoever is killed |
| `PublicationRuns.LeftoverLockExcludesAll` | scripts/release_candidate_once.py:37-48 | a lock file left over keeps everyone who uses the lock out for good |

## Left out

- Tokio, sockets and clocks: timeouts are events that may happen at any time; fairness and liveness are not modelled, and the code does not promise that an admitted broadcast is answered.
- JSON deserialisation and UTF-8 validity: parsers are arbitrary functions of the frame, strings are byte sequences, and no claim is made about which texts parse.
- The text form of IP addresses: a parameter with the properties of `Endpoint.Sane`; its grammar is not modelled.
- The SOCKS and rejecting adapters (src/relay/socks_electrum.rs, src/relay/reject.rs): the adapter returns anything or is cancelled, so its own timeouts and response checks are not modelled.
- Command-line parsing, the texts of configuration and endpoint errors, exit codes and printed output.
- scripts/reproducible_release.py and the build inside `build_and_publish`: an invocation starts with its two files at hand.
- Panics inside a connection's subtasks: the one `expect` on this path cannot fail by `ClassifyExact`. A connection task itself may fail.
- ConnectionLoops.HandleClientFrames: the loop by itself; steps of others, aborts and a shutdown signal in between are events of the transition system, which is where the theorems are stated.
- ConnectionLoops.RelayAndReply: by itself, as above; a relay that does not answer leaves it waiting.
- ConnectionLoops.ForwardUpstreamFrames: the loop by itself, as above.
- ConnectionLoops.WriteClientOutput: the loop by itself, as above.
- Relay.LimitedRelay.Broadcast: one call by itself; interleaved calls are in the transition system.
- RelayShutdown.WaitForIdle: the moments of its looks at the watch value are given; that it notices every change is not modelled.
- Serve.SupervisionIsSound: the order in which the accept loop prefers its branches, and binding the listener, are not modelled; any order is allowed.
- `build_and_publish` checks for existing files twice; the model has one such check, since the second adds nothing to what is proved.
