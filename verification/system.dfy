/** Many client sessions, one server and an adversarial network between them. */
module System {
  import opened Protocol
  import opened AtomicOps
  import opened Futures
  import opened Engine
  import opened EngineInvariants
  import opened EngineTheorems
  import opened Server

  datatype Node = Node(ep: Endpoint, core: Session)

  /** `wire` keeps every packet ever sent: delivering one does not remove it, and none need be delivered, so
      packets may be lost, duplicated, delayed and reordered at will. */
  datatype Sys = Sys(nodes: seq<Node>, wire: set<Packet>, handles: seq<Handle>)

  datatype SysOp =
    | Join(ep: Endpoint, timeout: nat)
    | Local(i: nat, op: Op)
    | SendRequest(i: nat, n: nat)
    | SendNotify(i: nat, name: Value, params: Value)
    | ServerReceive(p: Packet)
    | Reply(h: nat, result: Value, error: Value, ok: bool)
    | ClientReceive(i: nat, p: Packet)

  function Start(): Sys {
    Sys([], {}, [])
  }

  ghost predicate SysEnabled(s: Sys, sop: SysOp) {
    match sop
    case Join(ep, _) => forall i :: 0 <= i < |s.nodes| ==> s.nodes[i].ep != ep
    case Local(i, op) => i < |s.nodes| && Enabled(s.nodes[i].core, op) && !op.Transmit? && !op.Take?
    case SendRequest(i, n) => i < |s.nodes| && Enabled(s.nodes[i].core, Transmit(n))
    case SendNotify(i, _, _) => i < |s.nodes|
    case ServerReceive(p) => p in s.wire && p.ToServer?
    case Reply(h, _, _, _) => h < |s.handles|
    case ClientReceive(i, p) => i < |s.nodes| && p in s.wire && p.ToClient? && p.to == s.nodes[i].ep
  }

  ghost function Step(s: Sys, i: nat, op: Op): Sys
    requires i < |s.nodes| && Enabled(s.nodes[i].core, op)
  {
    s.(nodes := s.nodes[i := s.nodes[i].(core := Apply(s.nodes[i].core, op))])
  }

  ghost function SysApply(s: Sys, sop: SysOp): Sys
    requires SysEnabled(s, sop)
  {
    match sop
    case Join(ep, timeout) => s.(nodes := s.nodes + [Node(ep, Init(timeout))])
    case Local(i, op) => Step(s, i, op)
    case SendRequest(i, n) =>
      var c := s.nodes[i].core.calls[n];
      Step(s, i, Transmit(n)).(
        wire := s.wire + {ToServer(s.nodes[i].ep, Encode(Request(c.msgid, c.name, c.params)))})
    case SendNotify(i, name, params) =>
      s.(wire := s.wire + {ToServer(s.nodes[i].ep, Encode(Notify(name, params)))})
    case ServerReceive(p) =>
      (match HandleFor(p.from, p.body)
       case Some(handle) => s.(handles := s.handles + [handle])
       case None => s)
    case Reply(h, result, error, ok) =>
      var (handle, out) := Respond(s.handles[h], result, error, ok);
      s.(handles := s.handles[h := handle], wire := s.wire + set p | p in out)
    case ClientReceive(i, p) =>
      (match Dispatch(p.body)
       case Deliver(Response(id, result, error)) => Step(s, i, Take(id, result, error))
       case _ => s)
  }

  ghost predicate SysRun(s: Sys, sops: seq<SysOp>, s': Sys)
    decreases |sops|
  {
    if sops == [] then s' == s
    else SysEnabled(s, sops[0]) && SysRun(SysApply(s, sops[0]), sops[1..], s')
  }

  // Invariant

  ghost predicate SentBy(s: Sys, i: nat, n: nat, from: Endpoint, id: MsgId, name: Value, params: Value) {
    && i < |s.nodes| && s.nodes[i].ep == from && n < |s.nodes[i].core.calls|
    && var c := s.nodes[i].core.calls[n];
       c.stage == Sent && c.msgid == id && c.name == name && c.params == params
  }

  /** Some transmitted call of the session at `from` carries this request. */
  ghost predicate Asked(s: Sys, from: Endpoint, id: MsgId, name: Value, params: Value) {
    exists i: nat, n: nat :: SentBy(s, i, n, from, id, name, params)
  }

  /** The first completed reply on some handle for request `id` of the session at `ep` was this pair. */
  ghost predicate AnsweredBy(s: Sys, h: nat, ep: Endpoint, id: MsgId, result: Value, error: Value) {
    && h < |s.handles| && s.handles[h].peer == Some(ep) && s.handles[h].msgid == id
    && s.handles[h].done == Some((result, error))
  }

  ghost predicate Answered(s: Sys, ep: Endpoint, id: MsgId, result: Value, error: Value) {
    exists h: nat :: AnsweredBy(s, h, ep, id, result, error)
  }

  ghost predicate HandleOk(s: Sys, h: Handle) {
    && (h.peer.Some? ==> Asked(s, h.peer.value, h.msgid, h.name, h.params))
    && h.replyTo == (if h.done == None then h.peer else None)
    && (h.done.Some? ==> h.peer.Some?)
  }

  ghost predicate PacketOk(s: Sys, p: Packet) {
    match p
    case ToServer(from, body) =>
      forall id, name, params ::
        Dispatch(body) == Deliver(Request(id, name, params)) ==> Asked(s, from, id, name, params)
    case ToClient(to, body) =>
      exists id, result, error :: body == ReplyEnvelope(id, result, error) && Answered(s, to, id, result, error)
  }

  /** Every reply a session has taken in, still held by a handler or already written, was given by the server
      to a handle of that session's request with that call's id. */
  ghost predicate NodeOk(s: Sys, node: Node) {
    && Inv(node.core)
    && (|node.core.calls| <= TWO32 ==> node.core.displaced == {})
    && (forall h, k, result, error ::
          0 <= h < |node.core.handlers| && 0 <= k < |node.core.handlers[h].owned|
          && node.core.handlers[h].cause == ByReply(result, error) && node.core.handlers[h].owned[k] < |node.core.calls|
          ==> Answered(s, node.ep, node.core.calls[node.core.handlers[h].owned[k]].msgid, result, error))
    && (forall n, result, error ::
          0 <= n < |node.core.calls| && ByReply(result, error) in node.core.calls[n].log
          ==> Answered(s, node.ep, node.core.calls[n].msgid, result, error))
  }

  ghost predicate SysInv(s: Sys) {
    && (forall i, j :: 0 <= i < j < |s.nodes| ==> s.nodes[i].ep != s.nodes[j].ep)
    && (forall i :: 0 <= i < |s.nodes| ==> NodeOk(s, s.nodes[i]))
    && (forall h :: 0 <= h < |s.handles| ==> HandleOk(s, s.handles[h]))
    && (forall p :: p in s.wire ==> PacketOk(s, p))
  }

  /** s' knows at least what s knows: transmitted calls and completed replies are never taken back. */
  ghost predicate Grows(s: Sys, s': Sys) {
    && (forall from, id, name, params :: Asked(s, from, id, name, params) ==> Asked(s', from, id, name, params))
    && (forall ep, id, result, error :: Answered(s, ep, id, result, error) ==> Answered(s', ep, id, result, error))
  }

  lemma NodesGrow(s: Sys, s': Sys)
    requires |s.nodes| <= |s'.nodes| && |s.handles| <= |s'.handles|
    requires forall i :: 0 <= i < |s.nodes| ==>
               s'.nodes[i].ep == s.nodes[i].ep && |s.nodes[i].core.calls| <= |s'.nodes[i].core.calls|
    requires forall i, n ::
               0 <= i < |s.nodes| && 0 <= n < |s.nodes[i].core.calls| && s.nodes[i].core.calls[n].stage == Sent ==>
               var c, c' := s.nodes[i].core.calls[n], s'.nodes[i].core.calls[n];
               c'.stage == Sent && c'.msgid == c.msgid && c'.name == c.name && c'.params == c.params
    requires forall h :: 0 <= h < |s.handles| ==>
               var x, x' := s.handles[h], s'.handles[h];
               x'.peer == x.peer && x'.msgid == x.msgid && (x.done.Some? ==> x'.done == x.done)
    ensures Grows(s, s')
  {
    forall from, id, name, params | Asked(s, from, id, name, params)
      ensures Asked(s', from, id, name, params)
    {
      var i: nat, n: nat :| SentBy(s, i, n, from, id, name, params);
      assert SentBy(s', i, n, from, id, name, params);
    }
    forall ep, id, result, error | Answered(s, ep, id, result, error)
      ensures Answered(s', ep, id, result, error)
    {
      var h: nat :| AnsweredBy(s, h, ep, id, result, error);
      assert AnsweredBy(s', h, ep, id, result, error);
    }
  }

  lemma StepGrows(s: Sys, i: nat, op: Op)
    requires i < |s.nodes| && Inv(s.nodes[i].core) && Enabled(s.nodes[i].core, op)
    ensures Grows(s, Step(s, i, op))
  {
    var core := s.nodes[i].core;
    assert |core.calls| <= |Apply(core, op).calls|;
    forall n | 0 <= n < |core.calls|
      ensures Evolves(core.calls[n], Apply(core, op).calls[n])
    {
      CallEvolves(core, op, n);
    }
    NodesGrow(s, Step(s, i, op));
  }

  lemma PacketsStayOk(s: Sys, s': Sys)
    requires SysInv(s) && Grows(s, s')
    ensures forall p :: p in s.wire ==> PacketOk(s', p)
    ensures forall h :: 0 <= h < |s.handles| ==> HandleOk(s', s.handles[h])
    ensures forall i :: 0 <= i < |s.nodes| ==> NodeOk(s', s.nodes[i])
  {
    forall p | p in s.wire
      ensures PacketOk(s', p)
    {
      assert PacketOk(s, p);
      if p.ToClient? {
        var id, result, error :| p.body == ReplyEnvelope(id, result, error) && Answered(s, p.to, id, result, error);
        assert Answered(s', p.to, id, result, error);
      }
    }
    forall i | 0 <= i < |s.nodes|
      ensures NodeOk(s', s.nodes[i])
    {
      assert NodeOk(s, s.nodes[i]);
    }
  }

  /** A step of one session keeps NodeOk; what a Take brings in must have been answered. */
  lemma NodeStep(s: Sys, s': Sys, node: Node, op: Op)
    requires NodeOk(s, node) && Enabled(node.core, op) && Grows(s, s')
    requires op.Take? ==> Answered(s, node.ep, op.msgid, op.result, op.error)
    ensures NodeOk(s', node.(core := Apply(node.core, op)))
  {
    var core, core' := node.core, Apply(node.core, op);
    InvStep(core, op);
    if |core'.calls| <= TWO32 {
      FewCallsStep(core, op);
    }
    forall h, k, result, error |
      0 <= h < |core'.handlers| && 0 <= k < |core'.handlers[h].owned|
      && core'.handlers[h].cause == ByReply(result, error) && core'.handlers[h].owned[k] < |core'.calls|
      ensures Answered(s', node.ep, core'.calls[core'.handlers[h].owned[k]].msgid, result, error)
    {
      HandlerOrigin(core, op, h, k);
    }
    forall n, result, error | 0 <= n < |core'.calls| && ByReply(result, error) in core'.calls[n].log
      ensures Answered(s', node.ep, core'.calls[n].msgid, result, error)
    {
      LogAnswered(s, node, op, n, result, error);
    }
  }

  lemma LogAnswered(s: Sys, node: Node, op: Op, n: nat, result: Value, error: Value)
    requires NodeOk(s, node) && Enabled(node.core, op) && n < |Apply(node.core, op).calls|
    requires ByReply(result, error) in Apply(node.core, op).calls[n].log
    ensures Answered(s, node.ep, Apply(node.core, op).calls[n].msgid, result, error)
  {
    LogOrigin(node.core, op, n, ByReply(result, error));
    if op.Settle? {
      OwnershipSettle(node.core, op.h);
    }
  }

  /** Whatever a handler holds after a step it held before, unless a Take has just given it to it. */
  lemma HandlerOrigin(s: Session, op: Op, h: nat, k: nat)
    requires Inv(s) && Enabled(s, op)
    requires h < |Apply(s, op).handlers| && k < |Apply(s, op).handlers[h].owned|
    requires Apply(s, op).handlers[h].cause.ByReply?
    ensures var s' := Apply(s, op);
            var n, cause := s'.handlers[h].owned[k], s'.handlers[h].cause;
            && n < |s.calls| <= |s'.calls| && s'.calls[n].msgid == s.calls[n].msgid
            && ((h < |s.handlers| && s.handlers[h].cause == cause && n in s.handlers[h].owned)
                || (op.Take? && cause == ByReply(op.result, op.error) && s.calls[n].msgid == op.msgid))
  {
    var s' := Apply(s, op);
    var n := s'.handlers[h].owned[k];
    if h < |s.handlers| {
      assert n in s.handlers[h].owned by {
        if op == Settle(h) {
          assert n == s.handlers[h].owned[k + 1];
        }
      }
      OwnedAtLeast(s.handlers, h, n);
    }
    CallEvolves(s, op, n);
  }

  /** Whatever call n's log holds after a step it held before, unless a handler has just written it. */
  lemma LogOrigin(s: Session, op: Op, n: nat, src: Source)
    requires Inv(s) && Enabled(s, op) && n < |Apply(s, op).calls| && src in Apply(s, op).calls[n].log && !src.ByWait?
    ensures n < |s.calls| && Apply(s, op).calls[n].msgid == s.calls[n].msgid
    ensures src in s.calls[n].log
            || (op.Settle? && s.handlers[op.h].cause == src && n == s.handlers[op.h].owned[0])
  {
    if n < |s.calls| {
      CallEvolves(s, op, n);
    }
  }

  lemma SysStep(s: Sys, sop: SysOp)
    requires SysInv(s) && SysEnabled(s, sop)
    ensures SysInv(SysApply(s, sop))
  {
    match sop {
      case Join(ep, timeout) => JoinKeeps(s, ep, timeout);
      case Local(i, op) => NodeKeeps(s, i, op);
      case SendRequest(i, n) => SendKeeps(s, i, n);
      case SendNotify(i, name, params) => NotifyKeeps(s, i, name, params);
      case ServerReceive(p) => ServerKeeps(s, p);
      case Reply(h, result, error, ok) => ReplyKeeps(s, h, result, error, ok);
      case ClientReceive(i, p) => ClientKeeps(s, i, p);
    }
  }

  lemma JoinKeeps(s: Sys, ep: Endpoint, timeout: nat)
    requires SysInv(s) && SysEnabled(s, Join(ep, timeout))
    ensures SysInv(SysApply(s, Join(ep, timeout)))
  {
    var s' := SysApply(s, Join(ep, timeout));
    NodesGrow(s, s');
    PacketsStayOk(s, s');
    InitInv(timeout);
  }

  lemma NodeKeeps(s: Sys, i: nat, op: Op)
    requires SysInv(s) && i < |s.nodes| && Enabled(s.nodes[i].core, op)
    requires op.Take? ==> Answered(s, s.nodes[i].ep, op.msgid, op.result, op.error)
    ensures SysInv(Step(s, i, op)) && Grows(s, Step(s, i, op))
  {
    var s' := Step(s, i, op);
    assert NodeOk(s, s.nodes[i]);
    StepGrows(s, i, op);
    PacketsStayOk(s, s');
    NodeStep(s, s', s.nodes[i], op);
  }

  lemma SendKeeps(s: Sys, i: nat, n: nat)
    requires SysInv(s) && SysEnabled(s, SendRequest(i, n))
    ensures SysInv(SysApply(s, SendRequest(i, n)))
  {
    NodeKeeps(s, i, Transmit(n));
    var mid, s' := Step(s, i, Transmit(n)), SysApply(s, SendRequest(i, n));
    NodesGrow(mid, s');
    PacketsStayOk(mid, s');
    var c := s.nodes[i].core.calls[n];
    var p := ToServer(s.nodes[i].ep, Encode(Request(c.msgid, c.name, c.params)));
    assert SentBy(s', i, n, s.nodes[i].ep, c.msgid, c.name, c.params);
    EnvelopeRoundTrip(Request(c.msgid, c.name, c.params), p.body);
    assert PacketOk(s', p);
  }

  lemma NotifyKeeps(s: Sys, i: nat, name: Value, params: Value)
    requires SysInv(s) && SysEnabled(s, SendNotify(i, name, params))
    ensures SysInv(SysApply(s, SendNotify(i, name, params)))
  {
    var s' := SysApply(s, SendNotify(i, name, params));
    NodesGrow(s, s');
    PacketsStayOk(s, s');
    EnvelopeRoundTrip(Notify(name, params), Encode(Notify(name, params)));
  }

  lemma ServerKeeps(s: Sys, p: Packet)
    requires SysInv(s) && SysEnabled(s, ServerReceive(p))
    ensures SysInv(SysApply(s, ServerReceive(p)))
  {
    var s' := SysApply(s, ServerReceive(p));
    if s' != s {
      var x := s'.handles[|s.handles|];
      assert HandleOk(s, x) by {
        assert PacketOk(s, p);
      }
      assert s' == s.(handles := s.handles + [x]);
      HandleMade(s, s', x);
    }
  }

  lemma HandleMade(s: Sys, s': Sys, x: Handle)
    requires SysInv(s) && HandleOk(s, x) && s' == s.(handles := s.handles + [x])
    ensures SysInv(s')
  {
    NodesGrow(s, s');
    PacketsStayOk(s, s');
    if x.peer.Some? {
      assert Asked(s', x.peer.value, x.msgid, x.name, x.params);
    }
  }

  lemma ReplyKeeps(s: Sys, h: nat, result: Value, error: Value, ok: bool)
    requires SysInv(s) && SysEnabled(s, Reply(h, result, error, ok))
    ensures SysInv(SysApply(s, Reply(h, result, error, ok)))
  {
    var s', x := SysApply(s, Reply(h, result, error, ok)), s.handles[h];
    assert HandleOk(s, x);
    if x.replyTo.Some? && ok {
      var done := x.(replyTo := None, done := Some((result, error)));
      var p := ToClient(x.replyTo.value, ReplyEnvelope(x.msgid, result, error));
      assert s' == s.(handles := s.handles[h := done], wire := s.wire + {p});
      ReplySent(s, s', h, done, p);
    } else {
      assert s' == s;
    }
  }

  /** s' is s after the reply p has gone out through handle h. */
  ghost predicate Replied(s: Sys, s': Sys, h: nat, done: Handle, p: Packet) {
    && h < |s.handles| && HandleOk(s, s.handles[h]) && s.handles[h].done == None
    && done.done.Some? && done == s.handles[h].(replyTo := None, done := done.done) && done.peer.Some?
    && p == ToClient(done.peer.value, ReplyEnvelope(done.msgid, done.done.value.0, done.done.value.1))
    && s' == s.(handles := s.handles[h := done], wire := s.wire + {p})
  }

  lemma ReplyGrows(s: Sys, s': Sys, h: nat, done: Handle, p: Packet)
    requires Replied(s, s', h, done, p)
    ensures Grows(s, s')
  {
    NodesGrow(s, s');
  }

  lemma ReplyIsOk(s: Sys, s': Sys, h: nat, done: Handle, p: Packet)
    requires Replied(s, s', h, done, p)
    ensures PacketOk(s', p)
  {
    assert AnsweredBy(s', h, done.peer.value, done.msgid, done.done.value.0, done.done.value.1);
  }

  lemma ReplySent(s: Sys, s': Sys, h: nat, done: Handle, p: Packet)
    requires SysInv(s) && Replied(s, s', h, done, p)
    ensures SysInv(s')
  {
    ReplyGrows(s, s', h, done, p);
    PacketsStayOk(s, s');
    ReplyIsOk(s, s', h, done, p);
    RepliedHandles(s, s', h, done, p);
    assert s'.nodes == s.nodes;
    assert forall q :: q in s'.wire ==> q in s.wire || q == p;
  }

  lemma RepliedHandles(s: Sys, s': Sys, h: nat, done: Handle, p: Packet)
    requires Replied(s, s', h, done, p) && forall k :: 0 <= k < |s.handles| ==> HandleOk(s', s.handles[k])
    ensures forall k :: 0 <= k < |s'.handles| ==> HandleOk(s', s'.handles[k])
  {
    assert HandleOk(s', s.handles[h]);
  }

  lemma ClientKeeps(s: Sys, i: nat, p: Packet)
    requires SysInv(s) && SysEnabled(s, ClientReceive(i, p))
    ensures SysInv(SysApply(s, ClientReceive(i, p)))
  {
    assert PacketOk(s, p);
    var id, result, error :| p.body == ReplyEnvelope(id, result, error) && Answered(s, p.to, id, result, error);
    ReplyReachesItsRequest(id, result, error);
    NodeKeeps(s, i, Take(id, result, error));
  }

  lemma {:induction false} SysInvRun(s: Sys, sops: seq<SysOp>, s': Sys)
    requires SysInv(s) && SysRun(s, sops, s')
    ensures SysInv(s')
    decreases |sops|
  {
    if sops != [] {
      SysStep(s, sops[0]);
      SysInvRun(SysApply(s, sops[0]), sops[1..], s');
    }
  }

  /** Handle h was made from the request of call n of session i, and of no other call of any session. */
  ghost predicate HandleOf(s: Sys, h: nat, i: nat, n: nat) {
    && h < |s.handles| && s.handles[h].peer.Some?
    && SentBy(s, i, n, s.handles[h].peer.value, s.handles[h].msgid, s.handles[h].name, s.handles[h].params)
    && (forall j: nat, m: nat ::
          SentBy(s, j, m, s.handles[h].peer.value, s.handles[h].msgid, s.handles[h].name, s.handles[h].params)
          ==> j == i && m == n)
  }

  /** End to end: sessions may use the same ids at the same time, the network may lose, duplicate, delay and
      reorder, and the server may reply late, repeatedly and in any order. While no session has made more than
      2^32 calls, get() on a ready future reports the local timeout, the local connect failure, or exactly the
      pair whose send completed first on a handle made from this very request, as its last set_result says. */
  lemma EndToEndCorrelation(sops: seq<SysOp>, s: Sys, i: nat, n: nat)
    requires SysRun(Start(), sops, s)
    requires forall j :: 0 <= j < |s.nodes| ==> |s.nodes[j].core.calls| <= TWO32
    requires i < |s.nodes| && Live(s.nodes[i].core, n) && !s.nodes[i].core.calls[n].fut.pending
    ensures s.nodes[i].core.calls[n].log != []
    ensures var f := s.nodes[i].core.calls[n].fut;
            var got := GetReady(f.result, f.error);
            match Last(s.nodes[i].core.calls[n])
            case ByTick => got == Threw(TimeoutError)
            case ByWait => got == Threw(TimeoutError)
            case ByDrain => got == Threw(ConnectError)
            case ByReply(result, error) =>
              && (exists h: nat :: HandleOf(s, h, i, n) && s.handles[h].done == Some((result, error)))
              && f.result == Object(result, Buffer) && f.error == Object(error, Buffer)
              && got == (if error == Nil then Returned(Object(result, Buffer))
                         else if error == Int(1) then Threw(NoMethodError)
                         else if error == Int(2) then Threw(ArgumentError)
                         else Threw(RemoteError(Object(error, Buffer))))
  {
    SysInvRun(Start(), sops, s);
    var c := s.nodes[i].core.calls[n];
    assert NodeOk(s, s.nodes[i]) && CallOk(c);
    GetAfter(c);
    if Last(c).ByReply? {
      ReplyOrigin(s, i, n, Last(c).result, Last(c).error);
    }
  }

  lemma ReplyOrigin(s: Sys, i: nat, n: nat, result: Value, error: Value)
    requires SysInv(s) && forall j :: 0 <= j < |s.nodes| ==> |s.nodes[j].core.calls| <= TWO32
    requires i < |s.nodes| && n < |s.nodes[i].core.calls| && ByReply(result, error) in s.nodes[i].core.calls[n].log
    ensures exists h: nat :: HandleOf(s, h, i, n) && s.handles[h].done == Some((result, error))
  {
    var node := s.nodes[i];
    assert NodeOk(s, node);
    var h: nat :| AnsweredBy(s, h, node.ep, node.core.calls[n].msgid, result, error);
    OnlyOneCall(s, h, i, n);
  }

  lemma OnlyOneCall(s: Sys, h: nat, i: nat, n: nat)
    requires SysInv(s) && forall j :: 0 <= j < |s.nodes| ==> |s.nodes[j].core.calls| <= TWO32
    requires h < |s.handles| && i < |s.nodes| && n < |s.nodes[i].core.calls|
    requires s.handles[h].peer == Some(s.nodes[i].ep) && s.handles[h].msgid == s.nodes[i].core.calls[n].msgid
    ensures HandleOf(s, h, i, n)
  {
    var x := s.handles[h];
    assert HandleOk(s, x);
    forall j: nat, m: nat | SentBy(s, j, m, x.peer.value, x.msgid, x.name, x.params)
      ensures j == i && m == n
    {
      assert NodeOk(s, s.nodes[i]);
      if m != n {
        CloseCallsHaveDistinctIds(m, n);
      }
    }
    var j: nat, m: nat :| SentBy(s, j, m, x.peer.value, x.msgid, x.name, x.params);
  }

  /** While no session has made more than 2^32 calls, a response that reaches a session carries the id of a call
      that was registered and then transmitted, and of no other. If the session finds that id in its table it is
      that call; if it does not, that call has already been taken out to be settled. */
  lemma ResponsesFollowRegistration(sops: seq<SysOp>, s: Sys, i: nat, p: Packet, id: MsgId, result: Value, error: Value)
    returns (n: nat)
    requires SysRun(Start(), sops, s) && SysEnabled(s, ClientReceive(i, p))
    requires |s.nodes[i].core.calls| <= TWO32 && Dispatch(p.body) == Deliver(Response(id, result, error))
    ensures var core := s.nodes[i].core;
            && n < |core.calls| && core.calls[n].stage == Sent && core.calls[n].msgid == id
            && (forall m :: 0 <= m < |core.calls| && core.calls[m].msgid == id ==> m == n)
            && (if id in core.table then core.table[id] == n
                else Owned(core.handlers, n) + HandlerWrites(core.calls[n].log) == 1)
  {
    SysInvRun(Start(), sops, s);
    n := CallOfResponse(s, i, p, id, result, error);
    var core := s.nodes[i].core;
    assert NodeOk(s, s.nodes[i]);
    if id !in core.table {
      NoResponseOvertakesRegistration(core, n, id);
    }
    forall m | 0 <= m < |core.calls| && core.calls[m].msgid == id
      ensures m == n
    {
      if m != n {
        CloseCallsHaveDistinctIds(m, n);
      }
    }
  }

  lemma CallOfResponse(s: Sys, i: nat, p: Packet, id: MsgId, result: Value, error: Value) returns (n: nat)
    requires SysInv(s) && SysEnabled(s, ClientReceive(i, p)) && Dispatch(p.body) == Deliver(Response(id, result, error))
    ensures n < |s.nodes[i].core.calls|
    ensures s.nodes[i].core.calls[n].stage == Sent && s.nodes[i].core.calls[n].msgid == id
  {
    assert PacketOk(s, p);
    ResponseWasGiven(s, p, id, result, error);
    var h: nat :| AnsweredBy(s, h, p.to, id, result, error);
    n := CallOfHandle(s, i, s.handles[h]);
  }

  lemma ResponseWasGiven(s: Sys, p: Packet, id: MsgId, result: Value, error: Value)
    requires p.ToClient? && PacketOk(s, p) && Dispatch(p.body) == Deliver(Response(id, result, error))
    ensures Answered(s, p.to, id, result, error)
  {
    var id', result', error' :|
      p.body == ReplyEnvelope(id', result', error') && Answered(s, p.to, id', result', error');
    ReplyReachesItsRequest(id', result', error');
  }

  lemma CallOfHandle(s: Sys, i: nat, x: Handle) returns (n: nat)
    requires HandleOk(s, x) && i < |s.nodes| && x.peer == Some(s.nodes[i].ep)
    requires forall i, j :: 0 <= i < j < |s.nodes| ==> s.nodes[i].ep != s.nodes[j].ep
    ensures SentBy(s, i, n, s.nodes[i].ep, x.msgid, x.name, x.params)
  {
    var j: nat, m: nat :| SentBy(s, j, m, x.peer.value, x.msgid, x.name, x.params);
    n := m;
  }
}
