/** That the system does something: responses are taken in, and every call still tabled can be answered. */
module Answering {
  import opened Protocol
  import opened Engine
  import opened EngineInvariants
  import opened EngineTheorems
  import opened Server
  import opened System

  /** Whatever a session's engine can do by itself it can do as part of the system, and nothing else changes. */
  lemma SessionsRunFreely(s: Sys, i: nat, op: Op)
    requires i < |s.nodes| && Enabled(s.nodes[i].core, op) && !op.Transmit? && !op.Take?
    ensures SysEnabled(s, Local(i, op))
    ensures SysApply(s, Local(i, op)) == s.(nodes := s.nodes[i := Node(s.nodes[i].ep, Apply(s.nodes[i].core, op))])
  {}

  /** A response that arrives under the id of a tabled call takes that call, and no other, out of the table, and
      one handler has it to settle with the pair; without such a call nothing changes. */
  lemma ResponseTakesItsCall(s: Sys, i: nat, from: Endpoint, id: MsgId, result: Value, error: Value)
    requires SysEnabled(s, ClientReceive(i, ToClient(from, Arr([Int(1), Int(id), error, result]))))
    ensures var s' := SysApply(s, ClientReceive(i, ToClient(from, Arr([Int(1), Int(id), error, result]))));
            var core := s.nodes[i].core;
            if id !in core.table then s' == s
            else
              && i < |s'.nodes|
              && s' == s.(nodes := s.nodes[i := s.nodes[i].(core := s'.nodes[i].core)])
              && s'.nodes[i].core == core.(table := s'.nodes[i].core.table, handlers := s'.nodes[i].core.handlers)
              && s'.nodes[i].core.table == core.table - {id}
              && s'.nodes[i].core.handlers == core.handlers + [Handler(ByReply(result, error), [core.table[id]])]
  {
    ResponseOnTheWire(Arr([Int(1), Int(id), error, result]), id, result, error);
    var core := s.nodes[i].core;
    assert Apply(core, Take(id, result, error)) == core || id in core.table;
    if id !in core.table {
      assert s.nodes[i := s.nodes[i]] == s.nodes;
    } else {
      assert core.table - {id} == map k | k in core.table && k != id :: core.table[k];
    }
  }

  // What has been transmitted is on the wire

  function RequestPacket(ep: Endpoint, c: Call): Packet {
    ToServer(ep, Arr([Int(0), Int(c.msgid), c.name, c.params]))
  }

  ghost predicate Carried(s: Sys, i: nat, n: nat) {
    i < |s.nodes| && n < |s.nodes[i].core.calls| && s.nodes[i].core.calls[n].stage == Sent ==>
      RequestPacket(s.nodes[i].ep, s.nodes[i].core.calls[n]) in s.wire
  }

  ghost predicate AllCarried(s: Sys) {
    forall i: nat, n: nat :: Carried(s, i, n)
  }

  lemma SentBefore(s: Session, op: Op, n: nat)
    requires Inv(s) && Enabled(s, op) && !op.Transmit?
    requires n < |Apply(s, op).calls| && Apply(s, op).calls[n].stage == Sent
    ensures n < |s.calls|
    ensures var c, c' := s.calls[n], Apply(s, op).calls[n];
            c.stage == Sent && c.msgid == c'.msgid && c.name == c'.name && c.params == c'.params
  {
    if n < |s.calls| {
      CallEvolves(s, op, n);
    }
  }

  lemma CarriedAcross(s: Sys, j: nat, op: Op, i: nat, n: nat)
    requires SysInv(s) && j < |s.nodes| && Enabled(s.nodes[j].core, op) && !op.Transmit? && Carried(s, i, n)
    ensures Carried(System.Step(s, j, op), i, n)
  {
    var calls := System.Step(s, j, op).nodes[j].core.calls;
    if i == j && n < |calls| && calls[n].stage == Sent {
      assert NodeOk(s, s.nodes[i]);
      SentBefore(s.nodes[i].core, op, n);
    }
  }

  lemma CarriedBySend(s: Sys, j: nat, m: nat, i: nat, n: nat)
    requires SysEnabled(s, SendRequest(j, m)) && Carried(s, i, n)
    ensures Carried(SysApply(s, SendRequest(j, m)), i, n)
  {
    var c := s.nodes[j].core.calls[m];
    RequestOnTheWire(Encode(Request(c.msgid, c.name, c.params)), c.msgid, c.name, c.params);
    EnvelopeRoundTrip(Request(c.msgid, c.name, c.params), Encode(Request(c.msgid, c.name, c.params)));
  }

  lemma CarriedStep(s: Sys, sop: SysOp, i: nat, n: nat)
    requires SysInv(s) && SysEnabled(s, sop) && Carried(s, i, n)
    ensures Carried(SysApply(s, sop), i, n)
  {
    match sop {
      case Local(j, op) => CarriedAcross(s, j, op, i, n);
      case SendRequest(j, m) => CarriedBySend(s, j, m, i, n);
      case ClientReceive(j, p) =>
        if Dispatch(p.body).Deliver? && Dispatch(p.body).m.Response? {
          var m := Dispatch(p.body).m;
          CarriedAcross(s, j, Take(m.msgid, m.result, m.error), i, n);
        }
      case _ =>
    }
  }

  /** Every transmitted call's request is on the wire for good, field by field. */
  lemma {:induction false} CarriedRun(s: Sys, sops: seq<SysOp>, s': Sys)
    requires SysInv(s) && AllCarried(s) && SysRun(s, sops, s')
    ensures SysInv(s') && AllCarried(s')
    decreases |sops|
  {
    if sops != [] {
      var mid := SysApply(s, sops[0]);
      SysStep(s, sops[0]);
      forall i: nat, n: nat
        ensures Carried(mid, i, n)
      {
        assert Carried(s, i, n);
        CarriedStep(s, sops[0], i, n);
      }
      CarriedRun(mid, sops[1..], s');
    }
  }

  // Answering a call

  lemma {:induction false} SysRunAppend(s: Sys, sops: seq<SysOp>, mid: Sys, more: seq<SysOp>, s': Sys)
    requires SysRun(s, sops, mid) && SysRun(mid, more, s')
    ensures SysRun(s, sops + more, s')
    decreases |sops|
  {
    if sops == [] {
      assert sops + more == more;
    } else {
      assert (sops + more)[1..] == sops[1..] + more;
      SysRunAppend(SysApply(s, sops[0]), sops[1..], mid, more, s');
    }
  }

  lemma OneMore(s: Sys, sops: seq<SysOp>, mid: Sys, sop: SysOp)
    requires SysRun(s, sops, mid) && SysEnabled(mid, sop)
    ensures SysRun(s, sops + [sop], SysApply(mid, sop))
  {
    var s' := SysApply(mid, sop);
    assert SysRun(s', [], s') && [sop][1..] == [];
    SysRunAppend(s, sops, mid, [sop], s');
  }

  /** The server takes the request off the wire. */
  lemma ServerGetsIt(s: Sys, ep: Endpoint, c: Call) returns (sop: SysOp)
    requires RequestPacket(ep, c) in s.wire
    ensures SysEnabled(s, sop)
    ensures SysApply(s, sop) ==
            s.(handles := s.handles + [Handle(Some(ep), c.msgid, c.name, c.params, Some(ep), None)])
  {
    sop := ServerReceive(RequestPacket(ep, c));
    HandleOfMessage(ep, c.msgid, c.name, c.params);
  }

  /** The server answers through that handle. */
  lemma ServerReplies(s: Sys, ep: Endpoint, id: MsgId, h: nat, result: Value, error: Value) returns (sop: SysOp)
    requires h < |s.handles| && s.handles[h].replyTo == Some(ep) && s.handles[h].msgid == id
    ensures SysEnabled(s, sop)
    ensures SysApply(s, sop) ==
            s.(handles := s.handles[h := s.handles[h].(replyTo := None, done := Some((result, error)))],
               wire := s.wire + {ToClient(ep, Arr([Int(1), Int(id), error, result]))})
  {
    sop := Reply(h, result, error, true);
    ReplyReachesItsRequest(id, result, error);
    var p := ToClient(ep, Arr([Int(1), Int(id), error, result]));
    assert (set q | q in [p]) == {p};
  }

  /** The session takes the response in and its handler settles the call. */
  lemma ClientSettles(s: Sys, i: nat, n: nat, result: Value, error: Value) returns (more: seq<SysOp>, s': Sys)
    requires i < |s.nodes| && Inv(s.nodes[i].core) && InTable(s.nodes[i].core, n)
    requires ToClient(s.nodes[i].ep, Arr([Int(1), Int(s.nodes[i].core.calls[n].msgid), error, result])) in s.wire
    ensures SysRun(s, more, s') && |s'.nodes| == |s.nodes| && s'.handles == s.handles
    ensures s'.nodes[i].ep == s.nodes[i].ep && n < |s'.nodes[i].core.calls|
    ensures s'.nodes[i].core.calls[n] == Write(s.nodes[i].core.calls[n], ByReply(result, error))
  {
    var core := s.nodes[i].core;
    var id := core.calls[n].msgid;
    var take := ClientReceive(i, ToClient(s.nodes[i].ep, Arr([Int(1), Int(id), error, result])));
    ResponseTakesItsCall(s, i, s.nodes[i].ep, id, result, error);
    assert SysRun(s, [], s);
    OneMore(s, [], s, take);
    var mid := SysApply(s, take);
    var settle := Local(i, Settle(|core.handlers|));
    OneMore(s, [] + [take], mid, settle);
    more, s' := [] + [take] + [settle], SysApply(mid, settle);
  }

  /** Call n of session i holds this pair, given by the server to a handle of this very request. */
  ghost predicate AnsweredWith(s: Sys, i: nat, n: nat, h: nat, result: Value, error: Value) {
    && i < |s.nodes| && n < |s.nodes[i].core.calls| && h < |s.handles|
    && var c := s.nodes[i].core.calls[n];
       && !c.fut.pending && c.fut.result == Object(result, Buffer) && c.fut.error == Object(error, Buffer)
       && s.handles[h] == Handle(None, c.msgid, c.name, c.params, Some(s.nodes[i].ep), Some((result, error)))
  }

  /** A transmitted call, once its request is on the wire. */
  lemma SentCanBeAnswered(s: Sys, i: nat, n: nat, result: Value, error: Value)
    returns (more: seq<SysOp>, s': Sys, h: nat)
    requires i < |s.nodes| && Inv(s.nodes[i].core) && InTable(s.nodes[i].core, n)
    requires RequestPacket(s.nodes[i].ep, s.nodes[i].core.calls[n]) in s.wire
    ensures SysRun(s, more, s') && |s'.nodes| == |s.nodes| && AnsweredWith(s', i, n, h, result, error)
    ensures n < |s.nodes[i].core.calls| && s'.nodes[i].core.calls[n].name == s.nodes[i].core.calls[n].name
    ensures s'.nodes[i].core.calls[n].params == s.nodes[i].core.calls[n].params
  {
    var node, c := s.nodes[i], s.nodes[i].core.calls[n];
    var mid, rest;
    more, mid, h := ServerAnswers(s, node.ep, c, result, error);
    rest, s' := ClientSettles(mid, i, n, result, error);
    SysRunAppend(s, more, mid, rest, s');
    more := more + rest;
  }

  /** The server's part: it makes a handle of the request and replies through it. */
  lemma ServerAnswers(s: Sys, ep: Endpoint, c: Call, result: Value, error: Value)
    returns (more: seq<SysOp>, s': Sys, h: nat)
    requires RequestPacket(ep, c) in s.wire
    ensures SysRun(s, more, s') && s'.nodes == s.nodes && h < |s'.handles|
    ensures s'.handles[h] == Handle(None, c.msgid, c.name, c.params, Some(ep), Some((result, error)))
    ensures ToClient(ep, Arr([Int(1), Int(c.msgid), error, result])) in s'.wire
  {
    h := |s.handles|;
    var receive := ServerGetsIt(s, ep, c);
    var s1 := SysApply(s, receive);
    assert SysRun(s, [], s);
    OneMore(s, [], s, receive);
    var reply := ServerReplies(s1, ep, c.msgid, h, result, error);
    OneMore(s, [] + [receive], s1, reply);
    more, s' := [] + [receive] + [reply], SysApply(s1, reply);
  }

  /** From every reachable state, every registered call still in its session's table, transmitted or not, can be
      answered with every result and error: some run ends with its future ready and holding exactly that pair. */
  lemma CallCanBeAnswered(sops: seq<SysOp>, s: Sys, i: nat, n: nat, result: Value, error: Value)
    returns (more: seq<SysOp>, s': Sys, h: nat)
    requires SysRun(Start(), sops, s) && i < |s.nodes| && Live(s.nodes[i].core, n) && InTable(s.nodes[i].core, n)
    ensures SysRun(s, more, s') && AnsweredWith(s', i, n, h, result, error)
    ensures s'.nodes[i].core.calls[n].name == s.nodes[i].core.calls[n].name
    ensures s'.nodes[i].core.calls[n].params == s.nodes[i].core.calls[n].params
  {
    CarriedRun(Start(), sops, s);
    assert NodeOk(s, s.nodes[i]) && Carried(s, i, n);
    if s.nodes[i].core.calls[n].stage == Sent {
      more, s', h := SentCanBeAnswered(s, i, n, result, error);
    } else {
      var send := SendRequest(i, n);
      var s1 := SysApply(s, send);
      SysStep(s, send);
      CarriedStep(s, send, i, n);
      assert NodeOk(s1, s1.nodes[i]);
      assert SysRun(s, [], s);
      OneMore(s, [], s, send);
      more, s', h := SentCanBeAnswered(s1, i, n, result, error);
      SysRunAppend(s, [] + [send], s1, more, s');
      more := [] + [send] + more;
    }
  }

  /** A new session's first call, up to its registration. */
  lemma FirstCall(s: Sys, ep: Endpoint, timeout: nat, name: Value, params: Value) returns (more: seq<SysOp>, s': Sys)
    requires SysEnabled(s, Join(ep, timeout))
    ensures SysRun(s, more, s') && |s'.nodes| == |s.nodes| + 1 && s'.nodes[|s.nodes|].ep == ep
    ensures var core := s'.nodes[|s.nodes|].core;
            InTable(core, 0) && Live(core, 0) && core.calls[0].name == name && core.calls[0].params == params
  {
    var i := |s.nodes|;
    assert SysRun(s, [], s);
    OneMore(s, [], s, Join(ep, timeout));
    var s1 := SysApply(s, Join(ep, timeout));
    more := [] + [Join(ep, timeout)];
    OneMore(s, more, s1, Local(i, Allocate(name, params)));
    var s2 := SysApply(s1, Local(i, Allocate(name, params)));
    more := more + [Local(i, Allocate(name, params))];
    OneMore(s, more, s2, Local(i, Create(0)));
    var s3 := SysApply(s2, Local(i, Create(0)));
    more := more + [Local(i, Create(0))];
    OneMore(s, more, s3, Local(i, Insert(0)));
    s' := SysApply(s3, Local(i, Insert(0)));
    more := more + [Local(i, Insert(0))];
  }

  /** From every reachable state, a new session at an unused endpoint can make any call and get any answer. */
  lemma NewcomerCanBeAnswered(sops: seq<SysOp>, s: Sys, ep: Endpoint, timeout: nat, name: Value, params: Value,
                              result: Value, error: Value)
    returns (more: seq<SysOp>, s': Sys, h: nat)
    requires SysRun(Start(), sops, s) && forall i :: 0 <= i < |s.nodes| ==> s.nodes[i].ep != ep
    ensures SysRun(s, more, s') && AnsweredWith(s', |s.nodes|, 0, h, result, error)
    ensures s'.handles[h].name == name && s'.handles[h].params == params
  {
    var first, s1 := FirstCall(s, ep, timeout, name, params);
    SysRunAppend(Start(), sops, s, first, s1);
    more, s', h := CallCanBeAnswered(sops + first, s1, |s.nodes|, 0, result, error);
    SysRunAppend(s, first, s1, more, s');
    more := first + more;
  }

  /** A notification is put on the wire, and the server can take it off: its handle has the method and the
      parameters and answers nobody. */
  lemma NotificationCanArrive(s: Sys, i: nat, name: Value, params: Value)
    requires i < |s.nodes|
    ensures SysEnabled(s, SendNotify(i, name, params))
    ensures var s1 := SysApply(s, SendNotify(i, name, params));
            var p := ToServer(s.nodes[i].ep, Arr([Int(2), name, params]));
            && s1 == s.(wire := s.wire + {p}) && SysEnabled(s1, ServerReceive(p))
            && SysApply(s1, ServerReceive(p)) ==
               s1.(handles := s1.handles + [Handle(None, 0, name, params, None, None)])
  {
    NotifyOnTheWire(Encode(Notify(name, params)), name, params);
    EnvelopeRoundTrip(Notify(name, params), Encode(Notify(name, params)));
    HandleOfMessage(s.nodes[i].ep, 0, name, params);
  }
}
