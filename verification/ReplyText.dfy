/** What a wallet reads in the proxy's own replies, with a reader that knows nothing of how they are
    written. Names are given as bytes. */
module ReplyText {
  import opened Sequences
  import opened Framing
  import opened Json
  import opened JsonReader
  import opened Protocol
  import opened Connection
  import opened ConnectionCalls
  import opened ConnectionReplies

  const ID: Bytes := [105, 100]
  const RESULT: Bytes := [114, 101, 115, 117, 108, 116]
  const ERROR: Bytes := [101, 114, 114, 111, 114]
  const CODE: Bytes := [99, 111, 100, 101]

  /** The wallet reads one object, and then the newline. */
  ghost predicate Says(text: Bytes, id: Value, result: Option<Bytes>, code: Option<int>) {
    ReadValue(text).Some? && ReadValue(text).value.1 == [10] &&
    var reply := ReadValue(text).value.0;
    && Lookup(reply, ID) == Some(id)
    && Lookup(reply, RESULT) == (if result.Some? then Some(Str(result.value)) else None)
    && match code
       case None => Lookup(reply, ERROR) == None
       case Some(n) =>
         && -0x8000_0000_0000_0000 <= n < 0 && Lookup(reply, ERROR).Some?
         && Lookup(Lookup(reply, ERROR).value, CODE) == Some(Num(NegInt(n)))
  }

  lemma Names()
    ensures Ascii("id") == ID && Ascii("result") == RESULT && Ascii("error") == ERROR && Ascii("code") == CODE
    ensures Ascii("message") !in {ID, RESULT, ERROR, CODE}
  {
    assert |Ascii("message")| == 7;
  }

  lemma FindTwo(a: Member, b: Member, name: Bytes)
    ensures Find([a, b], name)
            == if a.name == name then Some(a.value) else if b.name == name then Some(b.value) else None
  {
    assert [a, b][1..] == [b] && [b][1..] == [];
    assert Find([b], name) == if b.name == name then Some(b.value) else Find([], name);
  }

  lemma SuccessSays(id: Value, transactionId: Bytes)
    requires Exact(id)
    ensures Says(SuccessResponse(id, transactionId), id, Some(transactionId), None)
  {
    hide Ascii, ReadValue, Serialize, Find;
    Names();
    var members := [Member(Ascii("id"), id), Member(Ascii("result"), Str(transactionId))];
    forall name ensures Find(members, name) == if name == ID then Some(id)
                                               else if name == RESULT then Some(Str(transactionId)) else None {
      FindTwo(members[0], members[1], name);
    }
    assert Exact(Obj(members));
    assert |ID| == 2 && |RESULT| == 6 && |ERROR| == 5;
    ReadPrinted(Obj(members), [NEWLINE]);
  }

  lemma ErrorSays(id: Value, code: NegativeI64, message: Bytes)
    requires Exact(id)
    ensures Says(ErrorResponse(id, code, message), id, None, Some(code))
  {
    hide Ascii, ReadValue, Serialize, Find;
    Names();
    var inner := [Member(Ascii("code"), Num(NegInt(code))), Member(Ascii("message"), Str(message))];
    var members := [Member(Ascii("error"), Obj(inner)), Member(Ascii("id"), id)];
    forall name ensures Find(members, name) == if name == ERROR then Some(Obj(inner))
                                               else if name == ID then Some(id) else None {
      FindTwo(members[0], members[1], name);
    }
    FindTwo(inner[0], inner[1], CODE);
    assert Exact(Obj(inner)) && Exact(Obj(members));
    assert |ID| == 2 && |RESULT| == 6 && |ERROR| == 5;
    ReadPrinted(Obj(members), [NEWLINE]);
  }

  /** The id a reply must carry to reach the request it is about. */
  function AddressedTo(reply: Reply): Value {
    match reply
    case Relayed(call, _) => call.id
    case RelayFailed(call, _) => call.id
    case TooManyPending(id) => id
    case Malformed(error) => error.id
    case _ => Null
  }

  /** Every reply, read by name: a success carries the id of its broadcast and the transaction id and no
      error; an error carries no result, the id of its request, or none where the request could not be
      read or its id is in use, and the code of its kind. */
  lemma RepliesReadBack(reply: Reply)
    requires Exact(AddressedTo(reply))
    ensures var text := EncodeReply(reply);
            match reply
            case Relayed(call, transactionId) => Says(text, call.id, Some(transactionId), None)
            case RelayFailed(call, disabled) => Says(text, call.id, None, Some(if disabled then -32090 else -32091))
            case TooManyPending(id) => Says(text, id, None, Some(-32092))
            case Unreadable => Says(text, Null, None, Some(-32600))
            case DuplicateId(_) => Says(text, Null, None, Some(-32600))
            case Malformed(error) => Says(text, error.id, None, Some(error.code))
  {
    hide Says, SuccessResponse, ErrorResponse, Ascii;
    match reply
    case Relayed(call, transactionId) => SuccessSays(call.id, transactionId);
    case RelayFailed(call, disabled) =>
      if disabled { ErrorSays(call.id, -32090, Ascii("private broadcasting is not configured")); }
      else { ErrorSays(call.id, -32091, Ascii("private broadcast failed; no public fallback was attempted")); }
    case TooManyPending(id) => ErrorSays(id, -32092, Ascii("too many pending requests"));
    case Malformed(error) => ErrorSays(error.id, error.code, error.message);
    case _ => ErrorSays(Null, -32600, Ascii("invalid Electrum request"));
  }

  /** The reply to a frame that is refused for itself: a broadcast with bad parameters gets code -32602 under
      its own id, anything else -32600 under none. */
  lemma RefusalReadsBack(parse: RequestParser, frame: Bytes)
    requires Classify(parse, frame).Rejected?
    ensures var text := EncodeReply(Malformed(Classify(parse, frame).error));
            if parse(frame).Some? && MayBeAbsent(parse(frame).value.id)
            then Says(text, ReplyId(parse(frame).value.id), None, Some(-32602))
            else Says(text, Null, None, Some(-32600))
  {
    hide Says, Classify, EncodeReply, Ascii, IsHexOfSomething;
    ClassifyExact(parse, frame);
    RepliesReadBack(Malformed(Classify(parse, frame).error));
  }

  lemma CorrelatableIsExact(id: Value)
    requires Correlatable(id) || id.Null?
    ensures Exact(id)
  {
  }

  /** What a wallet may conclude from a reply of the handler it has read. */
  ghost predicate Informs(env: Env, t: State, reply: Reply) {
    var text := EncodeReply(reply);
    match reply
    case Relayed(call, transactionId) =>
      FromFrame(env, t.outward.frames, call) && Says(text, call.id, Some(transactionId), None)
    case RelayFailed(call, disabled) =>
      FromFrame(env, t.outward.frames, call) && Says(text, call.id, None, Some(if disabled then -32090 else -32091))
    case TooManyPending(id) => Says(text, id, None, Some(-32092))
    case Malformed(error) => Says(text, error.id, None, Some(error.code))
    case _ => Says(text, Null, None, Some(-32600))
  }

  /** In every run, each reply the handler puts in the channel reads, by name, as what it is: a success or
      failure under the id of the broadcast frame it answers, or a rejection with the code of its cause. */
  lemma ChannelRepliesReadBack(env: Env, events: seq<Event>, i: nat)
    requires Run(env, Init(env), events).Some?
    requires i < |Run(env, Init(env), events).value.delivery.enqueued|
    requires Run(env, Init(env), events).value.delivery.enqueued[i].FromHandler?
    ensures var t := Run(env, Init(env), events).value; Informs(env, t, t.delivery.enqueued[i].reply)
  {
    hide Run, Says, EncodeReply;
    CallsReachable(env, events);
    RepliesReachable(env, events);
    var t := Run(env, Init(env), events).value;
    RejectionInState(env, t, i);
    AddressIsExact(env, t, t.delivery.enqueued[i].reply);
    RepliesReadBack(t.delivery.enqueued[i].reply);
  }

  lemma RejectionInState(env: Env, t: State, i: nat)
    requires RepliesKept(env, t) && i < |t.delivery.enqueued| && t.delivery.enqueued[i].FromHandler?
    ensures Deserved(env, t.outward, t.ids.refused, t.delivery.enqueued[i].reply)
  {
    hide Deserved, AnswersAccounted, FramesChecked, Recognisable;
    var reply := t.delivery.enqueued[i].reply;
    assert RejectionAt(env, t, i);
    if IsAnswer(reply) { AnswersAreDeserved(env, t.outward, t.ids.refused, reply); }
  }

  lemma AddressIsExact(env: Env, t: State, reply: Reply)
    requires CallsKept(env, t) && AnswersKept(t) && FromHandler(reply) in t.delivery.enqueued
    requires Deserved(env, t.outward, t.ids.refused, reply)
    ensures Exact(AddressedTo(reply))
    ensures reply.Relayed? || reply.RelayFailed? ==> FromFrame(env, t.outward.frames, reply.call)
  {
    hide Classify, RequestKey, ReadNext, IsHexOfSomething, Exact, Ascii;
    assert Truthful(t.relays, FromHandler(reply).reply);
    match reply {
      case Malformed(error) => ClassifyExact(env.parseRequest, t.outward.frames[|t.outward.frames| - 1]);
      case TooManyPending(id) => KeyedExactly(id);
      case Relayed(call, _) => ClassifyExact(env.parseRequest, t.outward.frames[call.frameIndex]);
      case RelayFailed(call, _) => ClassifyExact(env.parseRequest, t.outward.frames[call.frameIndex]);
      case _ =>
    }
    CorrelatableIsExact(AddressedTo(reply));
  }
}
