/** The wire protocol: message envelopes, message ids and error objects
    (protocol.h, the on_message dispatch of the two handlers, request.cc, exception.cc). */
module Protocol {

  datatype Option<+T> = None | Some(value: T)

  const TWO31: int := 0x8000_0000
  const TWO32: int := 0x1_0000_0000

  /** msgid_t is a signed 32-bit int; request::get_msgid returns it as uint32_t. */
  type MsgId = n: int | -TWO31 <= n < TWO31
  type UInt32 = n: int | 0 <= n < TWO32

  function ToUnsigned(id: MsgId): UInt32 {
    if id < 0 then id + TWO32 else id
  }

  function ToSigned(u: UInt32): MsgId {
    if u >= TWO31 then u - TWO32 else u
  }

  /** Values as they travel: no storage, hence no pointers. */
  datatype Value = Nil | Int(n: int) | Bin(raw: string) | Str(text: string) | Arr(items: seq<Value>)

  datatype Message =
    | Request(msgid: MsgId, name: Value, params: Value)
    | Response(msgid: MsgId, result: Value, error: Value)
    | Notify(name: Value, params: Value)

  const REQUEST: int := 0
  const RESPONSE: int := 1
  const NOTIFY: int := 2

  /** The field arrays of msg_request, msg_response and msg_notify; a response carries error before result. */
  function Encode(m: Message): Value {
    match m
    case Request(id, name, params) => Arr([Int(REQUEST), Int(id), name, params])
    case Response(id, result, error) => Arr([Int(RESPONSE), Int(id), error, result])
    case Notify(name, params) => Arr([Int(NOTIFY), name, params])
  }

  /** What on_message does with one decoded object: the handler call it makes, or a type error. */
  datatype Dispatched = Deliver(m: Message) | TypeError

  function Dispatch(v: Value): Dispatched {
    if !v.Arr? || |v.items| == 0 || !v.items[0].Int? then TypeError
    else
      var tag := v.items[0].n;
      if tag == NOTIFY then
        if |v.items| == 3 then Deliver(Notify(v.items[1], v.items[2])) else TypeError
      else if tag != REQUEST && tag != RESPONSE then TypeError
      else if |v.items| != 4 || !v.items[1].Int? || !(-TWO31 <= v.items[1].n < TWO31) then TypeError
      else if tag == REQUEST then Deliver(Request(v.items[1].n, v.items[2], v.items[3]))
      else Deliver(Response(v.items[1].n, v.items[3], v.items[2]))
  }

  // The wire layout, field by field

  /** A response is tag 1, the id, the error and then the result. */
  lemma ResponseOnTheWire(v: Value, id: MsgId, result: Value, error: Value)
    ensures Dispatch(v) == Deliver(Response(id, result, error)) <==> v == Arr([Int(1), Int(id), error, result])
  {
    if Dispatch(v) == Deliver(Response(id, result, error)) {
      assert v.items == [Int(1), Int(id), error, result];
    }
  }

  /** A request is tag 0, the id, the method and its parameters. */
  lemma RequestOnTheWire(v: Value, id: MsgId, name: Value, params: Value)
    ensures Dispatch(v) == Deliver(Request(id, name, params)) <==> v == Arr([Int(0), Int(id), name, params])
  {
    if Dispatch(v) == Deliver(Request(id, name, params)) {
      assert v.items == [Int(0), Int(id), name, params];
    }
  }

  /** A notification is tag 2, the method and its parameters. */
  lemma NotifyOnTheWire(v: Value, name: Value, params: Value)
    ensures Dispatch(v) == Deliver(Notify(name, params)) <==> v == Arr([Int(2), name, params])
  {
    if Dispatch(v) == Deliver(Notify(name, params)) {
      assert v.items == [Int(2), name, params];
    }
  }

  /** Dispatch inverts Encode, and nothing but an envelope of m is ever delivered as m. */
  lemma EnvelopeRoundTrip(m: Message, v: Value)
    ensures Dispatch(v) == Deliver(m) <==> v == Encode(m)
  {
    if Dispatch(v) == Deliver(m) {
      match m
      case Request(id, name, params) => assert v.items == [Int(REQUEST), Int(id), name, params];
      case Response(id, result, error) => assert v.items == [Int(RESPONSE), Int(id), error, result];
      case Notify(name, params) => assert v.items == [Int(NOTIFY), name, params];
    }
  }

  /** The envelope request::call packs: the id goes out through uint32_t and back through msgid_t. */
  function ReplyEnvelope(id: MsgId, result: Value, error: Value): Value {
    Encode(Response(ToSigned(ToUnsigned(id)), result, error))
  }

  /** For every one of the 2^32 ids the reply is delivered under the request's own id, fields unswapped. */
  lemma ReplyReachesItsRequest(id: MsgId, result: Value, error: Value)
    ensures ReplyEnvelope(id, result, error) == Arr([Int(1), Int(id), error, result])
    ensures Dispatch(ReplyEnvelope(id, result, error)) == Deliver(Response(id, result, error))
  {
    EnvelopeRoundTrip(Response(id, result, error), ReplyEnvelope(id, result, error));
    ResponseOnTheWire(ReplyEnvelope(id, result, error), id, result, error);
  }

  /** Which sides handle which messages: the other combinations throw a type error
      (client_socket::on_request, server_socket::on_response). */
  datatype Role = Client | Server

  predicate Accepts(role: Role, v: Value) {
    match Dispatch(v)
    case TypeError => false
    case Deliver(m) => m.Notify? || (if role == Client then m.Response? else m.Request?)
  }

  ghost predicate IsRequest(v: Value) {
    exists id: MsgId, name, params :: v == Arr([Int(0), Int(id), name, params])
  }

  ghost predicate IsResponse(v: Value) {
    exists id: MsgId, result, error :: v == Arr([Int(1), Int(id), error, result])
  }

  ghost predicate IsNotify(v: Value) {
    exists name, params :: v == Arr([Int(2), name, params])
  }

  /** A client takes exactly responses and notifications, a server exactly requests and notifications. */
  lemma AcceptedMessages(v: Value)
    ensures Accepts(Client, v) <==> IsResponse(v) || IsNotify(v)
    ensures Accepts(Server, v) <==> IsRequest(v) || IsNotify(v)
  {
    match Dispatch(v) {
      case Deliver(Request(id, name, params)) => RequestOnTheWire(v, id, name, params);
      case Deliver(Response(id, result, error)) => ResponseOnTheWire(v, id, result, error);
      case Deliver(Notify(name, params)) => NotifyOnTheWire(v, name, params);
      case TypeError =>
    }
  }

  // Error objects

  /** Where the bytes of an in-memory object live. Only the two static texts are compared. */
  datatype Storage = TimeoutText | ConnectText | Buffer

  datatype Object = Object(value: Value, at: Storage)

  const NIL_OBJECT := Object(Nil, Buffer)
  const TIMEOUT_ERROR := Object(Bin("request timed out"), TimeoutText)
  const CONNECT_ERROR := Object(Bin("connection failed"), ConnectText)
  const NO_METHOD_ERROR: int := 1
  const ARGUMENT_ERROR: int := 2

  /** An object decoded from the wire points into a receive buffer or a zone. */
  function Unpack(v: Value): Object {
    Object(v, Buffer)
  }

  datatype Raised = TimeoutError | ConnectError | NoMethodError | ArgumentError | RemoteError(error: Object)

  function ThrowException(err: Object): Raised {
    if err.value.Bin? && err.at == TimeoutText then TimeoutError
    else if err.value.Bin? && err.at == ConnectText then ConnectError
    else if err.value == Int(NO_METHOD_ERROR) then NoMethodError
    else if err.value == Int(ARGUMENT_ERROR) then ArgumentError
    else RemoteError(err)
  }

  /** What an error received from the server is taken for: 1 is a missing method, 2 a wrong argument, and
      everything else, the texts of the local errors included, an error of the server's own. */
  lemma RemoteErrors(error: Value)
    ensures ThrowException(Unpack(error)) == NoMethodError <==> error == Int(1)
    ensures ThrowException(Unpack(error)) == ArgumentError <==> error == Int(2)
    ensures error != Int(1) && error != Int(2) ==> ThrowException(Unpack(error)) == RemoteError(Object(error, Buffer))
  {}

  datatype Got = Returned(result: Object) | Threw(raised: Raised)

  /** The tail of future::get_impl, once the future is ready. */
  function GetReady(result: Object, error: Object): Got {
    if !error.value.Nil? then Threw(ThrowException(error)) else Returned(result)
  }
}
