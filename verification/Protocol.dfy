/** Classification of wallet requests, correlation keys and the replies the proxy makes itself. */
module Protocol {
  import opened Sequences
  import opened Framing
  import opened Json

  const BROADCAST_METHOD: Bytes := Ascii("blockchain.transaction.broadcast")
  const MAX_REQUEST_ID_STRING_BYTES := 256

  datatype Request = Request(id: Option<Value>, methodName: Bytes, params: Option<Value>)
  datatype UpstreamEnvelope = UpstreamEnvelope(id: Option<Value>, methodName: Option<Bytes>)

  /** Deserialisation is a deterministic partial function of the frame; nothing else is known of it. */
  type RequestParser = Bytes -> Option<Request>
  type EnvelopeParser = Bytes -> Option<UpstreamEnvelope>

  datatype ProtocolError = ProtocolError(id: Value, code: NegativeI64, message: Bytes)

  datatype ClientFrame =
    | Broadcast(id: Value, raw: Bytes)
    | Passthrough(queryId: Option<Value>)
    | Rejected(error: ProtocolError)

  predicate IsValidRequestId(id: Value) {
    match id
    case Num(number) => !number.Float?
    case Str(text) => |text| <= MAX_REQUEST_ID_STRING_BYTES
    case _ => false
  }

  function RequestKey(id: Value): Option<Bytes> {
    if IsValidRequestId(id) then Some(Serialize(id)) else None
  }

  function InvalidRequest(): ProtocolError {
    ProtocolError(Null, -32600, Ascii("invalid Electrum request"))
  }

  function InvalidParams(id: Value): ProtocolError {
    ProtocolError(id, -32602, Ascii("broadcast expects one hex-encoded transaction"))
  }

  /** The one transaction text in the parameters of a broadcast. */
  function TransactionText(params: Option<Value>): Option<Bytes> {
    match params
    case Some(Arr(items)) => if |items| == 1 && items[0].Str? then Some(items[0].text) else None
    case Some(Str(text)) => Some(text)
    case _ => None
  }

  predicate IsHexDigit(b: Byte) {
    48 <= b <= 57 || 65 <= b <= 70 || 97 <= b <= 102
  }

  predicate IsTransactionHex(raw: Bytes) {
    raw != [] && |raw| % 2 == 0 && forall i | 0 <= i < |raw| :: IsHexDigit(raw[i])
  }

  function Classify(parse: RequestParser, frame: Bytes): ClientFrame {
    match parse(frame)
    case None => Rejected(InvalidRequest())
    case Some(request) =>
      if request.id.Some? && !IsValidRequestId(request.id.value) then Rejected(InvalidRequest())
      else if request.methodName != BROADCAST_METHOD then Passthrough(request.id)
      else
        var id := if request.id.Some? then request.id.value else Null;
        match TransactionText(request.params)
        case None => Rejected(InvalidParams(id))
        case Some(raw) => if IsTransactionHex(raw) then Broadcast(id, raw) else Rejected(InvalidParams(id))
  }

  predicate IsPassthrough(parse: RequestParser, frame: Bytes) {
    Classify(parse, frame).Passthrough?
  }

  /** A frame that some JSON reader takes for a broadcast request, with good parameters or not. */
  predicate IsBroadcastRequest(parse: RequestParser, frame: Bytes) {
    parse(frame).Some? && parse(frame).value.methodName == BROADCAST_METHOD
  }

  /** The parameters hold this one text, by itself or as the only element of an array. */
  predicate HoldsText(params: Option<Value>, h: Bytes) {
    params == Some(Str(h)) || params == Some(Arr([Str(h)]))
  }

  /** Decoding never makes the text of a transaction longer than the frame it was decoded from. */
  ghost predicate DecodingNeverGrows(parse: RequestParser) {
    forall frame, h :: parse(frame).Some? && HoldsText(parse(frame).value.params, h) ==> |h| <= |frame|
  }

  lemma TransactionTextExact(params: Option<Value>, h: Bytes)
    ensures TransactionText(params) == Some(h) <==> HoldsText(params, h)
  {
    if params.Some? && params.value.Arr? && |params.value.items| == 1 {
      assert params.value.items == [params.value.items[0]];
    }
  }

  // ---------------------------------------------------------------- hexadecimal text

  function HexOf(n: nat, upper: bool): Byte
    requires n < 16
  {
    if n < 10 then 48 + n else if upper then 55 + n else 87 + n
  }

  /** Two digits for each byte, the case of each chosen freely. */
  function HexText(data: Bytes, upper: seq<bool>): Bytes
    requires |upper| == 2 * |data|
  {
    if data == [] then []
    else [HexOf(data[0] / 16, upper[0]), HexOf(data[0] % 16, upper[1])] + HexText(data[1..], upper[2..])
  }

  function Nibble(b: Byte): (r: Option<nat>)
    ensures r.Some? ==> r.value < 16
  {
    if 48 <= b <= 57 then Some(b - 48)
    else if 65 <= b <= 70 then Some(b - 55)
    else if 97 <= b <= 102 then Some(b - 87)
    else None
  }

  function ReadHex(h: Bytes): Option<Bytes> {
    if h == [] then Some([])
    else if |h| == 1 then None
    else match (Nibble(h[0]), Nibble(h[1]), ReadHex(h[2..]))
      case (Some(a), Some(b), Some(rest)) => Some([a * 16 + b] + rest)
      case _ => None
  }

  lemma NibbleOfHex(n: nat, upper: bool)
    requires n < 16
    ensures Nibble(HexOf(n, upper)) == Some(n)
  {
  }

  /** Reading inverts printing, whatever cases were chosen. */
  lemma {:induction false} ReadPrintedHex(data: Bytes, upper: seq<bool>)
    requires |upper| == 2 * |data|
    ensures |HexText(data, upper)| == 2 * |data| && ReadHex(HexText(data, upper)) == Some(data)
  {
    if data != [] {
      var h := HexText(data, upper);
      NibbleOfHex(data[0] / 16, upper[0]);
      NibbleOfHex(data[0] % 16, upper[1]);
      ReadPrintedHex(data[1..], upper[2..]);
      assert h[2..] == HexText(data[1..], upper[2..]);
      assert data == [data[0]] + data[1..];
    }
  }

  function CaseOf(h: Bytes): seq<bool> {
    seq(|h|, i requires 0 <= i < |h| => 65 <= h[i] <= 70)
  }

  /** Printing inverts reading, in the cases of the text. */
  lemma {:induction false} PrintReadHex(h: Bytes)
    requires ReadHex(h).Some?
    ensures |h| == 2 * |ReadHex(h).value| && HexText(ReadHex(h).value, CaseOf(h)) == h
  {
    if h != [] {
      PrintReadHex(h[2..]);
      assert CaseOf(h)[2..] == CaseOf(h[2..]);
      var data := ReadHex(h).value;
      assert data[1..] == ReadHex(h[2..]).value;
    }
  }

  /** The text is hexadecimal for some bytes, and not for none. */
  ghost predicate IsHexOfSomething(h: Bytes) {
    exists data: Bytes, upper: seq<bool> :: data != [] && |upper| == 2 * |data| && h == HexText(data, upper)
  }

  lemma {:induction false} DigitsRead(h: Bytes)
    ensures ReadHex(h).Some? <==> |h| % 2 == 0 && forall i | 0 <= i < |h| :: IsHexDigit(h[i])
  {
    if |h| > 1 {
      DigitsRead(h[2..]);
      assert forall i | 2 <= i < |h| :: h[i] == h[2..][i - 2];
    }
  }

  lemma TransactionHexExact(h: Bytes)
    ensures IsTransactionHex(h) <==> IsHexOfSomething(h)
  {
    DigitsRead(h);
    if IsTransactionHex(h) {
      PrintReadHex(h);
      assert |CaseOf(h)| == 2 * |ReadHex(h).value|;
    }
    if IsHexOfSomething(h) {
      var data: Bytes, upper: seq<bool> :| data != [] && |upper| == 2 * |data| && h == HexText(data, upper);
      ReadPrintedHex(data, upper);
    }
  }

  // ---------------------------------------------------------------- what a frame is taken for

  /** An id that can be correlated: any 64-bit integer, and any string of at most 256 bytes. */
  predicate Correlatable(id: Value) {
    match id
    case Num(PosInt(_)) => true
    case Num(NegInt(_)) => true
    case Str(text) => |text| <= 256
    case _ => false
  }

  predicate MayBeAbsent(id: Option<Value>) {
    match id
    case None => true
    case Some(v) => Correlatable(v)
  }

  /** The id a reply to a request carries. */
  function ReplyId(id: Option<Value>): Value {
    match id
    case None => Null
    case Some(v) => v
  }

  /** Every frame is taken for exactly one thing. It is relayed if and only if it parses, its id is absent
      or correlatable, its method is the broadcast method and its parameters are one text, alone or in an
      array, that is hexadecimal for some bytes; and then with that text and its id. With another method it
      goes upstream. A broadcast with other parameters is refused under its own id with code -32602, and
      anything else under no id with code -32600. */
  lemma ClassifyExact(parse: RequestParser, frame: Bytes)
    ensures var c := Classify(parse, frame);
            if parse(frame).None? || !MayBeAbsent(parse(frame).value.id) then
              c.Rejected? && c.error.id == Null && c.error.code == -32600
            else
              var r := parse(frame).value;
              if r.methodName != Ascii("blockchain.transaction.broadcast") then c == Passthrough(r.id)
              else if exists h :: HoldsText(r.params, h) && IsHexOfSomething(h) then
                c.Broadcast? && c.id == ReplyId(r.id) && HoldsText(r.params, c.raw) && IsHexOfSomething(c.raw)
              else c.Rejected? && c.error.id == ReplyId(r.id) && c.error.code == -32602
  {
    hide Ascii, IsHexOfSomething, IsTransactionHex;
    if parse(frame).Some? {
      var params := parse(frame).value.params;
      forall h ensures TransactionText(params) == Some(h) <==> HoldsText(params, h) { TransactionTextExact(params, h); }
      forall h ensures IsTransactionHex(h) <==> IsHexOfSomething(h) { TransactionHexExact(h); }
      assert TransactionText(params).Some? ==> HoldsText(params, TransactionText(params).value);
    }
  }

  /** A response or request can be correlated exactly when its id is a 64-bit integer or a short string. */
  lemma KeyedExactly(id: Value)
    ensures RequestKey(id).Some? <==> Correlatable(id)
  {
  }

  /** What the other modules use of classification. */
  lemma ClassifyFacts(parse: RequestParser, frame: Bytes)
    ensures var c := Classify(parse, frame);
            && (c.Passthrough? ==> !IsBroadcastRequest(parse, frame))
            && (c.Broadcast? && DecodingNeverGrows(parse) ==> |c.raw| <= |frame|)
  {
    hide IsTransactionHex;
    var c := Classify(parse, frame);
    if c.Broadcast? {
      TransactionTextExact(parse(frame).value.params, c.raw);
    }
  }

  /** Two usable ids have the same key exactly when they are the same integer or the same string. */
  lemma RequestKeyInjective(a: Value, b: Value)
    requires IsValidRequestId(a) && IsValidRequestId(b)
    ensures RequestKey(a) == RequestKey(b) <==> a == b
  {
    ReadSerializedId(a, []);
    ReadSerializedId(b, []);
    assert Serialize(a) + [] == Serialize(a) && Serialize(b) + [] == Serialize(b);
  }

  // ---------------------------------------------------------------- replies

  function EncodeResponse(v: Value): Bytes {
    Serialize(v) + [NEWLINE]
  }

  function ErrorResponse(id: Value, code: NegativeI64, message: Bytes): Bytes {
    EncodeResponse(Obj([
      Member(Ascii("error"), Obj([Member(Ascii("code"), Num(NegInt(code))), Member(Ascii("message"), Str(message))])),
      Member(Ascii("id"), id)]))
  }

  function SuccessResponse(id: Value, transactionId: Bytes): Bytes {
    EncodeResponse(Obj([Member(Ascii("id"), id), Member(Ascii("result"), Str(transactionId))]))
  }

  function RelayErrorResponse(id: Value, disabled: bool): Bytes {
    if disabled then ErrorResponse(id, -32090, Ascii("private broadcasting is not configured"))
    else ErrorResponse(id, -32091, Ascii("private broadcast failed; no public fallback was attempted"))
  }

  function ProtocolErrorResponse(error: ProtocolError): Bytes {
    ErrorResponse(error.id, error.code, error.message)
  }

  function InvalidFrameResponse(): Bytes {
    ProtocolErrorResponse(InvalidRequest())
  }

  function PendingRequestLimitResponse(id: Value): Bytes {
    ErrorResponse(id, -32092, Ascii("too many pending requests"))
  }

  /** Every encoded reply is one frame: its only newline is the one at the end. */
  lemma EncodeResponseTerminated(v: Value)
    ensures Terminated(EncodeResponse(v))
  {
    SerializePrintable(v);
    assert EncodeResponse(v)[..|Serialize(v)|] == Serialize(v);
  }

  /** A success reply can be read back: it determines the id it answers and the transaction id. */
  lemma SuccessResponseInjective(id: Value, transactionId: Bytes, id': Value, transactionId': Bytes)
    requires IsScalarId(id) && IsScalarId(id')
    requires SuccessResponse(id, transactionId) == SuccessResponse(id', transactionId')
    ensures id == id' && transactionId == transactionId'
  {
    var text := (v: Value, t: Bytes) => Serialize(Obj([Member(Ascii("id"), v), Member(Ascii("result"), Str(t))]));
    var n := |SuccessResponse(id, transactionId)| - 1;
    assert SuccessResponse(id, transactionId)[..n] == text(id, transactionId);
    assert SuccessResponse(id', transactionId')[..n] == text(id', transactionId');
    TwoMemberInjective(Ascii("id"), id, id', Ascii("result"), transactionId, transactionId');
  }

  /** No error reply can be mistaken for a success reply. */
  lemma ErrorIsNotSuccess(id: Value, code: NegativeI64, message: Bytes, id': Value, transactionId: Bytes)
    ensures ErrorResponse(id, code, message) != SuccessResponse(id', transactionId)
  {
    var error := Obj([Member(Ascii("code"), Num(NegInt(code))), Member(Ascii("message"), Str(message))]);
    assert Ascii("error")[0] == 101 && Ascii("id")[0] == 105;
    FirstNameByte(Member(Ascii("error"), error), Member(Ascii("id"), id));
    FirstNameByte(Member(Ascii("id"), id'), Member(Ascii("result"), Str(transactionId)));
    assert ErrorResponse(id, code, message)[2] == 101;
    assert SuccessResponse(id', transactionId)[2] == 105;
  }

  /** The wallet can tell error replies apart: the text of one determines its code. */
  lemma ErrorResponseDeterminesCode(id: Value, code: NegativeI64, message: Bytes, id': Value, code': NegativeI64,
      message': Bytes)
    requires ErrorResponse(id, code, message) == ErrorResponse(id', code', message')
    ensures code == code'
  {
    var reply := (i: Value, c: NegativeI64, m: Bytes) => Obj([
      Member(Ascii("error"), Obj([Member(Ascii("code"), Num(NegInt(c))), Member(Ascii("message"), Str(m))])),
          Member(Ascii("id"), i)]);
    var n := |ErrorResponse(id, code, message)| - 1;
    assert ErrorResponse(id, code, message)[..n] == Serialize(reply(id, code, message));
    assert ErrorResponse(id', code', message')[..n] == Serialize(reply(id', code', message'));
    NestedIdInjective(Ascii("error"), Ascii("code"), Num(NegInt(code)), Num(NegInt(code')),
                      Member(Ascii("message"), Str(message)), Member(Ascii("message"), Str(message')),
                      Member(Ascii("id"), id), Member(Ascii("id"), id'));
  }

  /** A wallet can tell a relay that is switched off from one that failed. */
  lemma RelayErrorTells(id: Value, disabled: bool, id': Value, disabled': bool)
    requires RelayErrorResponse(id, disabled) == RelayErrorResponse(id', disabled')
    ensures disabled == disabled'
  {
    var text := (d: bool) => if d then Ascii("private broadcasting is not configured")
                             else Ascii("private broadcast failed; no public fallback was attempted");
    var code := (d: bool) => if d then -32090 else -32091;
    ErrorResponseDeterminesCode(id, code(disabled), text(disabled), id', code(disabled'), text(disabled'));
  }
}
