/** The one-shot reply handle a server gives to its dispatcher (request_impl.h, request.h, server.cc). */
module Server {
  import opened Protocol

  type Endpoint = nat

  datatype Packet = ToServer(from: Endpoint, body: Value) | ToClient(to: Endpoint, body: Value)

  /** `replyTo` is m_ms. `peer` and `done` are history: where the request came from (None for a
      notification), and the first reply whose send completed. */
  datatype Handle = Handle(
    replyTo: Option<Endpoint>, msgid: MsgId, name: Value, params: Value,
    peer: Option<Endpoint>, done: Option<(Value, Value)>)

  /** server_impl::on_request and on_notify. */
  function OnRequest(from: Endpoint, msgid: MsgId, name: Value, params: Value): Handle {
    Handle(Some(from), msgid, name, params, Some(from), None)
  }

  function OnNotify(name: Value, params: Value): Handle {
    Handle(None, 0, name, params, None, None)
  }

  /** The handle of a message: for a request it replies to the sender under the request's id, for a notification
      it replies to nobody; both carry the method and its parameters. */
  function HandleFor(from: Endpoint, v: Value): Option<Handle> {
    match Dispatch(v)
    case Deliver(Request(id, name, params)) => Some(OnRequest(from, id, name, params))
    case Deliver(Notify(name, params)) => Some(OnNotify(name, params))
    case _ => None
  }

  lemma HandleOfMessage(from: Endpoint, id: MsgId, name: Value, params: Value)
    ensures HandleFor(from, Arr([Int(0), Int(id), name, params]))
            == Some(Handle(Some(from), id, name, params, Some(from), None))
    ensures HandleFor(from, Arr([Int(2), name, params]))
            == Some(Handle(None, 0, name, params, None, None))
  {
    RequestOnTheWire(Arr([Int(0), Int(id), name, params]), id, name, params);
    NotifyOnTheWire(Arr([Int(2), name, params]), name, params);
  }

  lemma NoOtherHandle(from: Endpoint, v: Value)
    ensures HandleFor(from, v).Some? <==> IsRequest(v) || IsNotify(v)
  {
    AcceptedMessages(v);
  }

  /** request::call: nothing once sent; otherwise the reply is packed under the request's id and handed to the
      sender. `ok` is false when that throws, and then m_ms is not reset. */
  function Respond(h: Handle, result: Value, error: Value, ok: bool): (Handle, seq<Packet>) {
    match h.replyTo
    case None => (h, [])
    case Some(to) =>
      if ok then
        (h.(replyTo := None, done := Some((result, error))), [ToClient(to, ReplyEnvelope(h.msgid, result, error))])
      else (h, [])
  }

  /** One use of a handle through any of its copies, which all share one request_impl. */
  datatype Attempt = Attempt(result: Value, error: Value, ok: bool)

  function RespondAll(h: Handle, attempts: seq<Attempt>): (Handle, seq<Packet>)
    decreases |attempts|
  {
    if attempts == [] then (h, [])
    else
      var a := attempts[0];
      var (h1, out1) := Respond(h, a.result, a.error, a.ok);
      var (h2, out2) := RespondAll(h1, attempts[1..]);
      (h2, out1 + out2)
  }

  function FirstOk(attempts: seq<Attempt>): (k: nat)
    ensures k <= |attempts|
    ensures k < |attempts| ==> attempts[k].ok
    ensures forall j :: 0 <= j < k ==> !attempts[j].ok
  {
    if attempts == [] || attempts[0].ok then 0 else 1 + FirstOk(attempts[1..])
  }

  /** However often result() and error() are called, exactly the first attempt whose send completes goes out,
      once, to the sender of the request and under the request's id. A notification's handle sends nothing. */
  lemma {:induction false} ReplyAtMostOnce(h: Handle, attempts: seq<Attempt>)
    ensures var (h', out) := RespondAll(h, attempts);
            var k := FirstOk(attempts);
            if h.replyTo == None then out == [] && h' == h
            else if k == |attempts| then out == [] && h' == h
            else
              var a := attempts[k];
              && |out| == 1 && out[0].ToClient? && out[0].to == h.replyTo.value
              && Dispatch(out[0].body) == Deliver(Response(h.msgid, a.result, a.error))
              && h'.replyTo == None && h'.done == Some((a.result, a.error))
    decreases |attempts|
  {
    if attempts != [] {
      var a := attempts[0];
      var (h1, out1) := Respond(h, a.result, a.error, a.ok);
      ReplyAtMostOnce(h1, attempts[1..]);
      ReplyReachesItsRequest(h.msgid, a.result, a.error);
    }
  }
}
