/** The server side as objects: reply handles and the datagram socket that hands them out
    (request_impl.h, request.h, server.cc, dgram_handler.cc). */
module ServerObjects {
  import opened Protocol
  import opened Server

  /** response_sender: the endpoint is copied at construction. */
  class ResponseSender {
    const m_handler: DgramHandler
    const m_remote: Endpoint

    constructor (handler: DgramHandler, remote: Endpoint)
      ensures m_handler == handler && m_remote == remote
    {
      m_handler, m_remote := handler, remote;
    }

    method SendData(body: Value, ok: bool)
      modifies m_handler`sent
      ensures m_handler.sent == old(m_handler.sent) + if ok then [ToClient(m_remote, body)] else []
    {
      m_handler.SendTo(m_remote, body, ok);
    }
  }

  /** request_impl. `peer` and `done` are history. */
  class RequestImpl {
    var m_ms: ResponseSender?
    const m_msgid: MsgId
    const m_name: Value
    const m_params: Value
    ghost const peer: Option<Endpoint>
    ghost var done: Option<(Value, Value)>

    constructor (ms: ResponseSender?, msgid: MsgId, name: Value, params: Value)
      ensures m_ms == ms && View() == if ms == null then Handle(None, msgid, name, params, None, None)
                                      else OnRequest(ms.m_remote, msgid, name, params)
    {
      m_ms, m_msgid, m_name, m_params := ms, msgid, name, params;
      peer := if ms == null then None else Some(ms.m_remote);
      done := None;
    }

    ghost function View(): Handle
      reads this
    {
      Handle(if m_ms == null then None else Some(m_ms.m_remote), m_msgid, m_name, m_params, peer, done)
    }

    predicate IsSent()
      reads this
    {
      m_ms == null
    }

    /** request::call with request_impl::send_data. When sending throws, the handle stays usable. */
    method Call(result: Value, error: Value, ok: bool)
      modifies this`m_ms, this`done, if m_ms == null then {} else {m_ms.m_handler}
      ensures View() == Respond(old(View()), result, error, ok).0
      ensures old(m_ms) == null || m_ms == null || m_ms == old(m_ms)
      ensures old(m_ms) != null ==>
                var h := old(m_ms).m_handler;
                h.sent == old(h.sent) + Respond(old(View()), result, error, ok).1
                && h.m_remote == old(h.m_remote) && h.m_reading == old(h.m_reading)
    {
      if IsSent() {
        return;
      }
      var msgres := Encode(Response(ToSigned(ToUnsigned(m_msgid)), result, error));
      var ms := m_ms;
      ms.SendData(msgres, ok);
      if ok {
        m_ms := null;
        done := Some((result, error));
      }
    }
  }

  /** The handles a datagram's messages lead to, from number i on: up to the first message the server does not
      take, or to the first whose dispatch ends in an exception, which has its handle already. */
  function Handles(from: Endpoint, msgs: seq<Value>, served: Value -> bool, i: nat): seq<Handle>
    requires i <= |msgs|
    decreases |msgs| - i
  {
    if i == |msgs| || HandleFor(from, msgs[i]) == None then []
    else [HandleFor(from, msgs[i]).value] + if served(msgs[i]) then Handles(from, msgs, served, i + 1) else []
  }

  predicate AllTaken(msgs: seq<Value>, served: Value -> bool, n: nat)
    requires n <= |msgs|
  {
    forall i :: 0 <= i < n ==> Accepts(Role.Server, msgs[i]) && served(msgs[i])
  }

  /** The first i messages were taken and have led to `views`. */
  ghost predicate HandledTo(from: Endpoint, msgs: seq<Value>, served: Value -> bool, i: nat, views: seq<Handle>) {
    i <= |msgs| && AllTaken(msgs, served, i) && Handles(from, msgs, served, 0) == views + Handles(from, msgs, served, i)
  }

  lemma HandledNext(from: Endpoint, msgs: seq<Value>, served: Value -> bool, i: nat, views: seq<Handle>)
    requires HandledTo(from, msgs, served, i, views) && i < |msgs|
    ensures var h := HandleFor(from, msgs[i]);
            var views' := if h == None then views else views + [h.value];
            if Accepts(Role.Server, msgs[i]) && served(msgs[i]) then HandledTo(from, msgs, served, i + 1, views')
            else Handles(from, msgs, served, 0) == views' && !AllTaken(msgs, served, |msgs|)
  {
    TakenHasHandle(from, msgs[i]);
    AddOne(views, HandleFor(from, msgs[i]), if served(msgs[i]) then Handles(from, msgs, served, i + 1) else []);
  }

  lemma TakenHasHandle(from: Endpoint, v: Value)
    ensures Accepts(Role.Server, v) <==> HandleFor(from, v).Some?
  {}

  lemma AddOne(views: seq<Handle>, h: Option<Handle>, more: seq<Handle>)
    ensures h.Some? ==> views + ([h.value] + more) == (views + [h.value]) + more
    ensures h.Some? && more == [] ==> views + ([h.value] + more) == views + [h.value]
  {
    if h.Some? {
      assert views + ([h.value] + more) == (views + [h.value]) + more;
    }
  }

  /** dgram_handler on the server: one member holds the sender of the datagram being read. `sent` is what has
      gone out on the socket. */
  class DgramHandler {
    var m_remote: Endpoint
    var m_reading: bool
    ghost var sent: seq<Packet>

    constructor ()
      ensures m_reading && sent == []
    {
      m_remote, m_reading, sent := 0, true, [];
    }

    method SendTo(ep: Endpoint, body: Value, ok: bool)
      modifies this`sent
      ensures sent == old(sent) + if ok then [ToClient(ep, body)] else []
    {
      sent := sent + if ok then [ToClient(ep, body)] else [];
    }

    /** on_message and the server handler it calls; `served` is false for a message whose dispatch throws. */
    method OnMessage(v: Value, served: Value -> bool) returns (req: RequestImpl?, ok: bool)
      ensures req == null <==> HandleFor(m_remote, v) == None
      ensures req != null ==> fresh(req) && req.View() == HandleFor(m_remote, v).value
      ensures req != null && req.m_ms != null ==> req.m_ms.m_handler == this
      ensures ok == (Accepts(Role.Server, v) && served(v))
    {
      match Dispatch(v) {
        case Deliver(Request(id, name, params)) =>
          var ms := new ResponseSender(this, m_remote);
          req := new RequestImpl(ms, id, name, params);
        case Deliver(Notify(name, params)) =>
          req := new RequestImpl(null, 0, name, params);
        case _ =>
          return null, false;
      }
      ok := served(v);
    }

    /** One round of that loop. */
    method Round(msgs: seq<Value>, i: nat, served: Value -> bool, reqs: seq<RequestImpl>, ghost views: seq<Handle>)
      returns (reqs': seq<RequestImpl>, ok: bool, ghost views': seq<Handle>)
      requires HandledTo(m_remote, msgs, served, i, views) && i < |msgs| && Represent(reqs, views)
      ensures if ok then HandledTo(m_remote, msgs, served, i + 1, views')
              else Handles(m_remote, msgs, served, 0) == views' && !AllTaken(msgs, served, |msgs|)
      ensures Represent(reqs', views') && forall r :: r in reqs' ==> r in reqs || fresh(r)
    {
      HandledNext(m_remote, msgs, served, i, views);
      reqs', views' := reqs, views;
      var req: RequestImpl?;
      req, ok := OnMessage(msgs[i], served);
      if req != null {
        reqs', views' := reqs + [req], views + [req.View()];
      }
    }

    /** on_read, with the drain loop over one datagram. Every request gets a handle bound to this datagram's
        sender, whatever is received later; an error, a message the server does not take and an exception end
        the reading. */
    method OnRead(err: bool, from: Endpoint, msgs: seq<Value>, served: Value -> bool) returns (reqs: seq<RequestImpl>)
      modifies this`m_remote, this`m_reading
      ensures m_remote == from
      ensures m_reading == (old(m_reading) && !err && AllTaken(msgs, served, |msgs|))
      ensures forall r :: r in reqs ==> fresh(r)
      ensures Represent(reqs, if err then [] else Handles(from, msgs, served, 0))
    {
      m_remote := from;
      reqs := [];
      if err {
        m_reading := false;
        return;
      }
      ghost var views: seq<Handle> := [];
      var i := 0;
      while i < |msgs|
        invariant HandledTo(from, msgs, served, i, views)
        invariant (forall r :: r in reqs ==> fresh(r)) && Represent(reqs, views)
        invariant m_remote == from && m_reading == old(m_reading)
      {
        var ok: bool;
        reqs, ok, views := Round(msgs, i, served, reqs, views);
        if !ok {
          m_reading := false;
          return;
        }
        i := i + 1;
      }
    }

    /** The handle objects of `views`, in order, all replying through this socket. */
    ghost predicate Represent(reqs: seq<RequestImpl>, views: seq<Handle>)
      reads reqs
    {
      |reqs| == |views| && forall i :: 0 <= i < |reqs| ==>
        reqs[i].View() == views[i] && (reqs[i].m_ms != null ==> reqs[i].m_ms.m_handler == this)
    }
  }

  lemma OneRequest(from: Endpoint, request: Message, served: Value -> bool)
    requires request.Request?
    ensures Handles(from, [Encode(request)], served, 0)
            == [OnRequest(from, request.msgid, request.name, request.params)]
  {
    EnvelopeRoundTrip(request, Encode(request));
  }

  /** A reply given after later datagrams have overwritten m_remote still goes to the sender of its request,
      under its request's id, and only one reply goes out. */
  method LateReply(h: DgramHandler, from: Endpoint, request: Message, later: Endpoint, more: seq<Value>,
                   served: Value -> bool, result: Value, error: Value)
    requires request.Request?
    modifies h
    ensures h.sent == old(h.sent) + [ToClient(from, Encode(Response(request.msgid, result, error)))]
    ensures h.m_remote == later
  {
    OneRequest(from, request, served);
    var reqs := h.OnRead(false, from, [Encode(request)], served);
    var req := reqs[0];
    assert req in reqs;
    ghost var handle := req.View();
    var others := h.OnRead(false, later, more, served);
    assert req.View() == handle;
    req.Call(result, error, true);
    req.Call(error, result, true);
  }
}
