/** One wallet connection: the client handler, the upstream forwarder, the wallet writer and the
    function that supervises them, as a transition system with one step per atomic action. The state
    keeps the whole history of the connection beside the program counters and the shared objects. */
module Connection {
  import opened Sequences
  import opened Framing
  import opened Json
  import opened Protocol
  import opened Pending
  import opened RelayApi

  const CHANNEL_CAPACITY := 32

  /** What is fixed for the life of the connection, including the bytes each peer will ever send. */
  datatype Env = Env(
    parseRequest: RequestParser,
    parseEnvelope: EnvelopeParser,
    maxFrameBytes: nat,
    maxPendingRequests: nat,
    clientStream: Bytes,
    clientEnding: Ending,
    upstreamStream: Bytes,
    upstreamEnding: Ending)

  /** A broadcast taken from the wallet: the position of its frame and what was read from it. */
  datatype Call = Call(frameIndex: nat, id: Value, key: Option<Key>, raw: Bytes)

  datatype Reply =
    | Unreadable                 // the wallet's bytes are no frame
    | DuplicateId(id: Value)     // the id is outstanding; reported like an unreadable frame
    | TooManyPending(id: Value)
    | Malformed(error: ProtocolError)
    | Relayed(call: Call, transactionId: Bytes)
    | RelayFailed(call: Call, disabled: bool)

  datatype Output = FromHandler(reply: Reply) | FromUpstream(frame: Bytes, key: Option<Key>)

  function EncodeReply(reply: Reply): Bytes {
    match reply
    case Unreadable => InvalidFrameResponse()
    case DuplicateId(_) => InvalidFrameResponse()
    case TooManyPending(id) => PendingRequestLimitResponse(id)
    case Malformed(error) => ProtocolErrorResponse(error)
    case Relayed(call, transactionId) => SuccessResponse(call.id, transactionId)
    case RelayFailed(call, disabled) => RelayErrorResponse(call.id, disabled)
  }

  function Text(output: Output): Bytes {
    match output
    case FromHandler(reply) => EncodeReply(reply)
    case FromUpstream(frame, _) => frame
  }

  function Texts(outputs: seq<Output>): seq<Bytes> {
    seq(|outputs|, i requires 0 <= i < |outputs| => Text(outputs[i]))
  }

  predicate IsForwarded(output: Output) { output.FromUpstream? }

  function Answer(call: Call, result: RelayResult): Reply {
    match result
    case Ok(transactionId) => Relayed(call, transactionId)
    case Failed(disabled) => RelayFailed(call, disabled)
  }

  // ---------------------------------------------------------------- program counters

  datatype Handler =
    | Polling                                // loop head: about to look at the shutdown flag
    | Reading                                // flag seen down: reading a frame
    | Received(index: nat, frame: Bytes)     // frame read, nothing done with it
    | Writing(frame: Bytes, sent: nat)       // writing an accepted request upstream
    | Admitting(call: Call)                  // broadcast reserved, relay not yet entered
    | Relaying(call: Call)                   // inside the relay
    | Answered(call: Call, result: RelayResult)  // relay returned, id still reserved
    | Replying(reply: Reply, fatal: bool)    // sending a reply into the channel
    | Stopped(abandoned: Option<Key>, unsent: Bytes)

  datatype Forwarder =
    | Listening
    | Matching(frame: Bytes, key: Key)       // response read, table not yet consulted
    | Forwarding(output: Output)             // accepted, waiting for channel room
    | Ended(lost: seq<Output>, unmatched: bool)  // unmatched: aborted with a response read and not matched

  datatype Writer =
    | Waiting
    | Delivering(text: Bytes, sent: nat)
    | Finished(undelivered: Bytes)

  datatype Task = HandlerTask | ForwarderTask | WriterTask

  /** What the supervising function has still to do once a first task has ended. */
  datatype Duty =
    | Await(task: Task)   // wait for the end of this task
    | FlushWriter         // wait for the end of the writer, for a bounded time

  datatype Supervisor =
    | Selecting                      // all three may be running
    | Stopping(duties: seq<Duty>)    // in one of the three branches
    | Returned
    | Dropping(handles: seq<Task>)   // cancelled itself: handles not yet dropped

  /** Wallet to upstream: what the handler has read and where it went. */
  datatype Outward = Outward(
    rest: Bytes,              // wallet bytes not yet read
    frames: seq<Bytes>,       // frames read
    passed: seq<Bytes>,       // requests accepted for the upstream
    bytes: Bytes)             // bytes written to the upstream

  /** A response that was dropped, with the table it was matched against. */
  datatype Unsolicited = Unsolicited(frame: Bytes, key: Key, table: Table)

  /** Upstream to wallet: what the forwarder has read, accepted and dropped. */
  datatype Inward = Inward(rest: Bytes, frames: seq<Bytes>, accepted: seq<Output>, dropped: seq<Unsolicited>)

  /** The bounded channel and the wallet side of it. */
  datatype Delivery = Delivery(
    writer: Writer,
    queue: seq<Output>,
    enqueued: seq<Output>,    // everything ever put in the channel
    bytes: Bytes)             // bytes written to the wallet

  /** The pending table, every reservation ever made, the keys released by returned broadcasts, and
      the table as it was when an id was refused. */
  datatype Ids = Ids(
    pending: Table,
    reserved: seq<(Key, PendingRequest)>,
    completed: seq<Key>,
    refused: Option<Table>)

  /** Broadcasts handed to the relay, and what it returned by position of the frame. */
  datatype Relays = Relays(calls: seq<Call>, answers: map<nat, RelayResult>)

  datatype Control = Control(supervisor: Supervisor, aborts: set<Task>, shutdown: bool)

  datatype State = State(
    handler: Handler,
    forwarder: Forwarder,
    outward: Outward,
    inward: Inward,
    delivery: Delivery,
    ids: Ids,
    relays: Relays,
    control: Control)

  function Init(env: Env): State {
    State(Polling, Listening,
          Outward(env.clientStream, [], [], []), Inward(env.upstreamStream, [], [], []),
          Delivery(Waiting, [], [], []), Ids(map[], [], [], None), Relays([], map[]),
          Control(Selecting, {}, false))
  }

  predicate Terminal(s: State, task: Task) {
    match task
    case HandlerTask => s.handler.Stopped?
    case ForwarderTask => s.forwarder.Ended?
    case WriterTask => s.delivery.writer.Finished?
  }

  /** Nothing more can be put in the channel. */
  predicate SendersGone(s: State) {
    s.handler.Stopped? && s.forwarder.Ended?
  }

  // ---------------------------------------------------------------- steps

  datatype HandlerEvent =
    | Poll | Wake | ReadClient | Decide | WriteUpstream(n: nat) | FailWrite
    | StartRelay | FinishRelay(result: RelayResult) | Release | SendReply | AbortHandler
  datatype ForwarderEvent = ReadUpstream | Match | Forward | AbortForwarder
  datatype WriterEvent = Take | WriteWallet(n: nat) | FailWallet | CloseWallet | AbortWriter
  datatype SupervisorEvent = SignalShutdown | Observe(first: Task) | Awaited | FlushTimeout | Return | Drop | DropHandle

  datatype Event = H(h: HandlerEvent) | F(f: ForwarderEvent) | W(w: WriterEvent) | S(s: SupervisorEvent)

  /** The key an aborted or finished handler leaves reserved. */
  function HeldKey(handler: Handler): Option<Key> {
    match handler
    case Admitting(call) => call.key
    case Relaying(call) => call.key
    case Answered(call, _) => call.key
    case Stopped(abandoned, _) => abandoned
    case _ => None
  }

  function Unsent(handler: Handler): Bytes {
    match handler
    case Writing(frame, sent) => if sent <= |frame| then frame[sent..] else []
    case Stopped(_, unsent) => unsent
    case _ => []
  }

  function Halt(handler: Handler): Handler {
    Stopped(HeldKey(handler), Unsent(handler))
  }

  function InHand(forwarder: Forwarder): seq<Output> {
    match forwarder
    case Forwarding(output) => [output]
    case Ended(lost, _) => lost
    case _ => []
  }

  function Undelivered(writer: Writer): Bytes {
    match writer
    case Delivering(text, sent) => if sent <= |text| then text[sent..] else []
    case Finished(undelivered) => undelivered
    case _ => []
  }

  /** Sending into the channel needs room and a receiver; without a receiver the send fails. */
  predicate HasRoom(d: Delivery) {
    !d.writer.Finished? && |d.queue| < CHANNEL_CAPACITY
  }

  function Enqueue(d: Delivery, output: Output): Delivery {
    d.(queue := d.queue + [output], enqueued := d.enqueued + [output])
  }

  function Book(ids: Ids, table: Table, key: Key, request: PendingRequest): Ids {
    ids.(pending := table, reserved := ids.reserved + [(key, request)])
  }

  /** An id that cannot be reserved: the connection closes, and the table it met is remembered. */
  function Refuse(s: State, reply: Reply): State {
    s.(handler := Replying(reply, true), ids := s.ids.(refused := Some(s.ids.pending)))
  }

  function OnRead(env: Env, s: State): State {
    var (result, rest) := ReadNext(s.outward.rest, env.clientEnding, env.maxFrameBytes);
    match result
    case Frame(frame) =>
      s.(handler := Received(|s.outward.frames|, frame),
         outward := s.outward.(rest := rest, frames := s.outward.frames + [frame]))
    case InvalidData => s.(handler := Replying(Unreadable, true))
    case _ => s.(handler := Halt(s.handler))
  }

  /** A request for the upstream: reserve its id, if it has one, in one lock section. */
  function OnQuery(env: Env, s: State, frame: Bytes, id: Option<Value>): State {
    var pass := s.(handler := Writing(frame, 0), outward := s.outward.(passed := s.outward.passed + [frame]));
    if id.None? || RequestKey(id.value).None? then pass  // an accepted id always has a key
    else
      var key := RequestKey(id.value).value;
      var (table, r) := Reserve(s.ids.pending, key, AwaitsUpstream, env.maxPendingRequests);
      match r
      case Reserved => pass.(ids := Book(s.ids, table, key, AwaitsUpstream))
      case Duplicate => Refuse(s, DuplicateId(id.value))
      case LimitExceeded => Refuse(s, TooManyPending(id.value))
  }

  /** A broadcast: reserve its id, if it has one, before the relay is entered. */
  function OnBroadcast(env: Env, s: State, call: Call): State {
    var admit := s.(handler := Admitting(call));
    if call.key.None? then admit
    else
      var key := call.key.value;
      var (table, r) := Reserve(s.ids.pending, key, AwaitsRelay, env.maxPendingRequests);
      match r
      case Reserved => admit.(ids := Book(s.ids, table, key, AwaitsRelay))
      case Duplicate => Refuse(s, DuplicateId(call.id))
      case LimitExceeded => Refuse(s, TooManyPending(call.id))
  }

  function OnDecide(env: Env, s: State, index: nat, frame: Bytes): State {
    match Classify(env.parseRequest, frame)
    case Rejected(error) => s.(handler := Replying(Malformed(error), true))
    case Passthrough(id) => OnQuery(env, s, frame, id)
    case Broadcast(id, raw) => OnBroadcast(env, s, Call(index, id, RequestKey(id), raw))
  }

  function OnWrite(s: State, frame: Bytes, sent: nat, n: nat): State
    requires sent + n <= |frame|
  {
    s.(outward := s.outward.(bytes := s.outward.bytes + frame[sent..sent + n]),
       handler := if sent + n == |frame| then Polling else Writing(frame, sent + n))
  }

  /** After the relay has returned: release the id, then the reply can be sent. */
  function OnRelease(s: State, call: Call, result: RelayResult): State {
    var replying := s.(handler := Replying(Answer(call, result), false));
    if call.key.None? then replying
    else replying.(ids := s.ids.(pending := s.ids.pending - {call.key.value},
                                 completed := s.ids.completed + [call.key.value]))
  }

  function OnReply(s: State, reply: Reply, fatal: bool): State {
    s.(delivery := Enqueue(s.delivery, FromHandler(reply)), handler := if fatal then Halt(s.handler) else Polling)
  }

  function HandlerStep(env: Env, s: State, e: HandlerEvent): Option<State> {
    match e
    case Poll =>
      if s.handler.Polling? then Some(s.(handler := if s.control.shutdown then Halt(s.handler) else Reading)) else None
    case Wake =>
      if s.handler.Reading? then Some(s.(handler := Polling)) else None
    case ReadClient =>
      if s.handler.Reading? then Some(OnRead(env, s)) else None
    case Decide =>
      if s.handler.Received? then Some(OnDecide(env, s, s.handler.index, s.handler.frame)) else None
    case WriteUpstream(n) =>
      if s.handler.Writing? && 0 < n && s.handler.sent + n <= |s.handler.frame|
      then Some(OnWrite(s, s.handler.frame, s.handler.sent, n)) else None
    case FailWrite =>
      if s.handler.Writing? then Some(s.(handler := Halt(s.handler))) else None
    case StartRelay =>
      if s.handler.Admitting?
      then Some(s.(handler := Relaying(s.handler.call),
          relays := s.relays.(calls := s.relays.calls + [s.handler.call])))
      else None
    case FinishRelay(result) =>
      if s.handler.Relaying?
      then Some(s.(handler := Answered(s.handler.call, result),
                   relays := s.relays.(answers := s.relays.answers[s.handler.call.frameIndex := result])))
      else None
    case Release =>
      if s.handler.Answered? then Some(OnRelease(s, s.handler.call, s.handler.result)) else None
    case SendReply =>
      if !s.handler.Replying? then None
      else if HasRoom(s.delivery) then Some(OnReply(s, s.handler.reply, s.handler.fatal))
      else if s.delivery.writer.Finished? then Some(s.(handler := Halt(s.handler)))
      else None
    case AbortHandler =>
      if HandlerTask in s.control.aborts && !s.handler.Stopped? then Some(s.(handler := Halt(s.handler))) else None
  }

  function AcceptFrame(s: State, output: Output): State {
    s.(forwarder := Forwarding(output), inward := s.inward.(accepted := s.inward.accepted + [output]))
  }

  function OnReadUpstream(env: Env, s: State): State {
    var (result, rest) := ReadNext(s.inward.rest, env.upstreamEnding, env.maxFrameBytes);
    match result
    case Frame(frame) =>
      var read := s.(inward := s.inward.(rest := rest, frames := s.inward.frames + [frame]));
      (match env.parseEnvelope(frame)
       case Some(UpstreamEnvelope(Some(id), None)) =>
         read.(forwarder := if RequestKey(id).Some? then Matching(frame, RequestKey(id).value) else Ended([], false))
       case Some(UpstreamEnvelope(None, Some(_))) =>
         AcceptFrame(read, FromUpstream(frame, None))
       case _ => read.(forwarder := Ended([], false)))
    case _ => s.(forwarder := Ended([], false))
  }

  /** The forwarder's lock section for a response. */
  function OnMatch(s: State, frame: Bytes, key: Key): State {
    var (table, forward) := Accept(s.ids.pending, key);
    if forward then AcceptFrame(s.(ids := s.ids.(pending := table)), FromUpstream(frame, Some(key)))
    else s.(forwarder := Listening, inward := s.inward.(dropped := s.inward.dropped + [Unsolicited(frame, key, table)]))
  }

  function ForwarderStep(env: Env, s: State, e: ForwarderEvent): Option<State> {
    match e
    case ReadUpstream =>
      if s.forwarder.Listening? then Some(OnReadUpstream(env, s)) else None
    case Match =>
      if s.forwarder.Matching? then Some(OnMatch(s, s.forwarder.frame, s.forwarder.key)) else None
    case Forward =>
      if !s.forwarder.Forwarding? then None
      else if HasRoom(s.delivery)
      then Some(s.(delivery := Enqueue(s.delivery, s.forwarder.output), forwarder := Listening))
      else if s.delivery.writer.Finished? then Some(s.(forwarder := Ended(InHand(s.forwarder), false)))
      else None
    case AbortForwarder =>
      if ForwarderTask in s.control.aborts && !s.forwarder.Ended?
      then Some(s.(forwarder := Ended(InHand(s.forwarder), s.forwarder.Matching?))) else None
  }

  /** The writer; `closed` says that both senders are gone. */
  function WriterStep(d: Delivery, e: WriterEvent, closed: bool, abort: bool): Option<Delivery> {
    match e
    case Take =>
      if d.writer.Waiting? && d.queue != []
      then Some(d.(writer := Delivering(Text(d.queue[0]), 0), queue := d.queue[1..])) else None
    case WriteWallet(n) =>
      if d.writer.Delivering? && 0 < n && d.writer.sent + n <= |d.writer.text| then
        var text, sent := d.writer.text, d.writer.sent;
        Some(d.(bytes := d.bytes + text[sent..sent + n],
                writer := if sent + n == |text| then Waiting else Delivering(text, sent + n)))
      else None
    case FailWallet =>
      if d.writer.Delivering? then Some(d.(writer := Finished(Undelivered(d.writer)))) else None
    case CloseWallet =>
      if d.writer.Waiting? && d.queue == [] && closed then Some(d.(writer := Finished([]))) else None
    case AbortWriter =>
      if abort && !d.writer.Finished? then Some(d.(writer := Finished(Undelivered(d.writer)))) else None
  }

  /** The tasks that are told to stop when this one has ended first. */
  function AbortedBy(first: Task): set<Task> {
    match first
    case WriterTask => {ForwarderTask, HandlerTask}
    case ForwarderTask => {HandlerTask}
    case HandlerTask => {ForwarderTask}
  }

  /** What is awaited then, in order. */
  function DutiesAfter(first: Task): seq<Duty> {
    match first
    case WriterTask => [Await(ForwarderTask), Await(HandlerTask)]
    case ForwarderTask => [Await(HandlerTask), FlushWriter]
    case HandlerTask => [Await(ForwarderTask), FlushWriter]
  }

  function AwaitedTask(duty: Duty): Task {
    match duty
    case Await(task) => task
    case FlushWriter => WriterTask
  }

  /** The supervising function: wait for any task, then stop and await the others, one handle at a
      time; a cancelled one drops its handles, each of which asks its task to stop. */
  function SupervisorStep(s: State, e: SupervisorEvent): Option<Control> {
    var c := s.control;
    match e
    case SignalShutdown => Some(c.(shutdown := true))
    case Observe(first) =>
      if c.supervisor.Selecting? && Terminal(s, first)
      then Some(c.(supervisor := Stopping(DutiesAfter(first)), aborts := c.aborts + AbortedBy(first))) else None
    case Awaited =>
      if c.supervisor.Stopping? && c.supervisor.duties != [] && Terminal(s, AwaitedTask(c.supervisor.duties[0]))
      then Some(c.(supervisor := Stopping(c.supervisor.duties[1..]))) else None
    case FlushTimeout =>
      if c.supervisor.Stopping? && c.supervisor.duties != [] && c.supervisor.duties[0] == FlushWriter
      then Some(c.(supervisor := Stopping([Await(WriterTask)] + c.supervisor.duties[1..]),
                   aborts := c.aborts + {WriterTask}))
      else None
    case Return =>
      if c.supervisor.Stopping? && c.supervisor.duties == [] then Some(c.(supervisor := Returned)) else None
    case Drop =>
      if c.supervisor.Selecting? || c.supervisor.Stopping?
      then Some(c.(supervisor := Dropping([HandlerTask, ForwarderTask, WriterTask]))) else None
    case DropHandle =>
      if c.supervisor.Dropping? && c.supervisor.handles != []
      then Some(c.(supervisor := Dropping(c.supervisor.handles[1..]), aborts := c.aborts + {c.supervisor.handles[0]}))
      else None
  }

  function Step(env: Env, s: State, e: Event): Option<State> {
    match e
    case H(h) => HandlerStep(env, s, h)
    case F(f) => ForwarderStep(env, s, f)
    case W(w) =>
      (match WriterStep(s.delivery, w, SendersGone(s), WriterTask in s.control.aborts)
       case Some(d) => Some(s.(delivery := d))
       case None => None)
    case S(v) =>
      (match SupervisorStep(s, v)
       case Some(c) => Some(s.(control := c))
       case None => None)
  }

  /** The state after a sequence of events, if each was possible when it happened. */
  function Run(env: Env, s: State, events: seq<Event>): Option<State>
    decreases |events|
  {
    if events == [] then Some(s)
    else match Step(env, s, events[0]) {
      case None => None
      case Some(next) => Run(env, next, events[1..])
    }
  }

  lemma {:induction false} RunAppend(env: Env, s: State, a: seq<Event>, b: seq<Event>)
    requires Run(env, s, a).Some?
    ensures Run(env, s, a + b) == Run(env, Run(env, s, a).value, b)
    decreases |a|
  {
    hide Step;
    if a == [] {
      assert a + b == b;
    } else {
      RunAppend(env, Step(env, s, a[0]).value, a[1..], b);
      assert (a + b)[1..] == a[1..] + b;
    }
  }

  lemma RunOne(env: Env, s: State, e: Event)
    ensures Run(env, s, [e]) == Step(env, s, e)
  {
    hide Step;
    assert [e][1..] == [];
  }

  lemma RunNone(env: Env, s: State)
    ensures Run(env, s, []) == Some(s)
  {
  }

  // ---------------------------------------------------------------- which step touches what

  lemma HandlerFrame(env: Env, s: State, e: HandlerEvent)
    requires HandlerStep(env, s, e).Some?
    ensures var t := HandlerStep(env, s, e).value;
            && t.forwarder == s.forwarder && t.inward == s.inward && t.control == s.control
            && (e != SendReply ==> t.delivery == s.delivery)
            && (!e.ReadClient? && !e.Decide? && !e.WriteUpstream? ==> t.outward == s.outward)
            && (!e.Decide? && !e.Release? ==> t.ids == s.ids)
            && (!e.Decide? ==> t.ids.reserved == s.ids.reserved && t.ids.refused == s.ids.refused)
            && (!e.StartRelay? && !e.FinishRelay? ==> t.relays == s.relays)
  {
    hide ReadNext, Classify, Reserve, RequestKey, Halt, Answer, Enqueue;
  }

  lemma ForwarderFrame(env: Env, s: State, e: ForwarderEvent)
    requires ForwarderStep(env, s, e).Some?
    ensures var t := ForwarderStep(env, s, e).value;
            && t.handler == s.handler && t.outward == s.outward && t.relays == s.relays && t.control == s.control
            && (e != Forward ==> t.delivery == s.delivery)
            && (e != Match ==> t.ids == s.ids)
            && t.ids.reserved == s.ids.reserved && t.ids.refused == s.ids.refused
  {
    hide ReadNext, Accept, RequestKey, InHand, Enqueue;
  }
}
