/** The lock sections of a connection as the code performs them, in place, on the shared table and the
    connection's own fields. Each is proved against the transition it stands for. */
module LiveConnection {
  import opened Sequences
  import opened Json
  import opened Protocol
  import opened Pending
  import opened RelayApi
  import opened Connection

  class LiveConnection {
    const env: Env
    const table: PendingRequests
    var handler: Handler
    var forwarder: Forwarder
    var outward: Outward
    var inward: Inward
    var delivery: Delivery
    var relays: Relays
    var control: Control
    ghost var reserved: seq<(Key, PendingRequest)>
    ghost var completed: seq<Key>
    ghost var refused: Option<Table>

    constructor (env: Env)
      ensures View() == Init(env) && this.env == env && fresh(table)
    {
      this.env := env;
      table := new PendingRequests();
      handler, forwarder := Polling, Listening;
      outward, inward := Outward(env.clientStream, [], [], []), Inward(env.upstreamStream, [], [], []);
      delivery, relays := Delivery(Waiting, [], [], []), Relays([], map[]);
      control := Control(Selecting, {}, false);
      reserved, completed, refused := [], [], None;
    }

    ghost function View(): State
      reads this, table
    {
      State(handler, forwarder, outward, inward, delivery, Ids(table.table, reserved, completed, refused), relays,
          control)
    }

    /** Reserves the id of a request; the connection is told to close when that is not possible. */
    method ReserveOrReject(id: Value, key: Key, request: PendingRequest) returns (ok: bool)
      modifies this, table
      ensures var was := old(View());
              var (after, r) := Reserve(was.ids.pending, key, request, env.maxPendingRequests);
              && ok == (r == Reserved)
              && View() == match r
                           case Reserved => was.(ids := Book(was.ids, after, key, request))
                           case Duplicate => Refuse(was, DuplicateId(id))
                           case LimitExceeded => Refuse(was, TooManyPending(id))
    {
      var r := table.ReserveRequest(key, request, env.maxPendingRequests);
      ok := r == Reserved;
      match r
      case Reserved => reserved := reserved + [(key, request)];
      case Duplicate => handler, refused := Replying(DuplicateId(id), true), Some(table.table);
      case LimitExceeded => handler, refused := Replying(TooManyPending(id), true), Some(table.table);
    }

    /** What the handler does with a frame it has read. */
    method DecideFrame()
      requires handler.Received?
      modifies this, table
      ensures View() == OnDecide(env, old(View()), old(handler).index, old(handler).frame)
      ensures handler.Writing? ==> handler == Writing(old(handler).frame, 0)
      ensures handler.Writing? || handler.Admitting? || handler.Replying?
      ensures outward.rest == old(outward).rest
    {
      hide Classify, RequestKey;
      var index, frame := handler.index, handler.frame;
      match Classify(env.parseRequest, frame)
      case Rejected(error) =>
        handler := Replying(Malformed(error), true);
      case Passthrough(id) =>
        var ok := true;
        if id.Some? {
          var key := RequestKey(id.value);
          if key.Some? {
            ok := ReserveOrReject(id.value, key.value, AwaitsUpstream);
          }
        }
        if ok {
          handler, outward := Writing(frame, 0), outward.(passed := outward.passed + [frame]);
        }
      case Broadcast(id, raw) =>
        var ok := true;
        var key := RequestKey(id);
        if key.Some? {
          ok := ReserveOrReject(id, key.value, AwaitsRelay);
        }
        if ok {
          handler := Admitting(Call(index, id, key, raw));
        }
    }

    /** After the relay has returned: the id is released before the reply is sent. */
    method ReleaseAnswered()
      requires handler.Answered?
      modifies this, table
      ensures View() == OnRelease(old(View()), old(handler).call, old(handler).result)
    {
      var call, result := handler.call, handler.result;
      if call.key.Some? {
        table.Release(call.key.value);
        completed := completed + [call.key.value];
      }
      handler := Replying(Answer(call, result), false);
    }

    /** The forwarder's lock section for a response it has read. */
    method MatchResponse()
      requires forwarder.Matching?
      modifies this, table
      ensures View() == OnMatch(old(View()), old(forwarder).frame, old(forwarder).key)
    {
      var output := FromUpstream(forwarder.frame, Some(forwarder.key));
      var forward := table.AcceptResponse(forwarder.key);
      if forward {
        forwarder, inward := Forwarding(output), inward.(accepted := inward.accepted + [output]);
      } else {
        var drop := Unsolicited(forwarder.frame, forwarder.key, table.table);
        forwarder, inward := Listening, inward.(dropped := inward.dropped + [drop]);
      }
    }
  }
}
