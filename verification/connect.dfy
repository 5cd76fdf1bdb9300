/** Connecting and reconnecting a TCP client transport, and sending a request through it (tcp.cc, session.cc). */
module Connect {
  import opened Protocol
  import opened AtomicOps
  import opened Engine
  import opened EngineInvariants
  import opened Client
  import Futures

  /** How one connect() attempt ends: success, ETIMEDOUT, or any other error. */
  datatype Attempt = Success | TimedOut | Failed

  /** outcome(k) is how attempt number k ends, counting from 1. */
  type Outcomes = nat -> Attempt

  /** The attempt after which no further one is made, from attempt n on. */
  function StopAt(outcome: Outcomes, limit: int, n: nat): nat
    requires n >= 1
    decreases limit - n
  {
    if outcome(n) == Failed && n < limit then StopAt(outcome, limit, n + 1) else n
  }

  predicate Stops(outcome: Outcomes, limit: int, n: nat) {
    outcome(n) != Failed || n >= limit
  }

  /** At most max(1, limit) attempts; they stop at the first success or timeout or when the limit is reached,
      and at nothing before; and an attempt has succeeded exactly when the last one has. */
  lemma {:induction false} StopAtIsLeast(outcome: Outcomes, limit: int, n: nat)
    requires n >= 1
    ensures var k := StopAt(outcome, limit, n);
            && n <= k <= (if limit > n then limit else n)
            && Stops(outcome, limit, k) && (forall j :: n <= j < k ==> !Stops(outcome, limit, j))
            && (outcome(k) == Success <==> exists j :: n <= j <= k && outcome(j) == Success)
    decreases limit - n
  {
    if outcome(n) == Failed && n < limit {
      StopAtIsLeast(outcome, limit, n + 1);
    }
  }

  /** Some attempt within the limit succeeds, and every one before it fails without a timeout. */
  ghost predicate Connects(outcome: Outcomes, limit: int) {
    exists k: nat :: ConnectsAt(outcome, limit, k)
  }

  predicate ConnectsAt(outcome: Outcomes, limit: int, k: nat) {
    && 1 <= k <= (if limit > 1 then limit else 1)
    && outcome(k) == Success && forall j :: 1 <= j < k ==> outcome(j) == Failed
  }

  lemma StopsConnected(outcome: Outcomes, limit: int)
    ensures outcome(StopAt(outcome, limit, 1)) == Success <==> Connects(outcome, limit)
  {
    var k := StopAt(outcome, limit, 1);
    StopAtIsLeast(outcome, limit, 1);
    if outcome(k) == Success {
      forall j | 1 <= j < k
        ensures outcome(j) == Failed
      {
        assert !Stops(outcome, limit, j);
      }
      assert ConnectsAt(outcome, limit, k);
    }
    if Connects(outcome, limit) {
      var m: nat :| ConnectsAt(outcome, limit, m);
      assert Stops(outcome, limit, m);
      assert k >= m;
    }
  }

  datatype Result<T> = Ok(value: T) | ConnectErrorThrown

  /** Every tabled call of s has been given the connect outcome, and nothing else has happened to the calls. */
  ghost predicate DrainedFrom(s: Session, s': Session) {
    && s' == s.(table := map[], calls := s'.calls, handlers := s'.handlers) && |s'.calls| == |s.calls|
    && forall n :: 0 <= n < |s.calls| ==>
         s'.calls[n] == if InTable(s, n) then Write(s.calls[n], ByDrain) else s.calls[n]
  }

  class ClientTransport {
    const m_session: SessionImpl
    const m_reconnect_limit: int
    var m_connecting: nat
    var m_open: bool

    constructor (s: SessionImpl, limit: int)
      ensures m_session == s && m_reconnect_limit == limit && !m_open
    {
      m_session, m_reconnect_limit := s, limit;
      m_connecting, m_open := 0, false;
    }

    /** What a chain of attempts numbered from n on has led to. */
    twostate predicate Ended(outcome: Outcomes, n: nat)
      requires n >= 1
      reads this, m_session
    {
      && m_connecting == StopAt(outcome, m_reconnect_limit, n)
      && m_open == (outcome(m_connecting) == Success)
      && m_session.impls == old(m_session.impls)
      && if m_open then m_session.core == old(m_session.core) else DrainedFrom(old(m_session.core), m_session.core)
    }

    /** How many more attempts the limit allows. */
    function Left(attempts: int): nat {
      if m_reconnect_limit > attempts then m_reconnect_limit - attempts else 0
    }

    method TryConnect(outcome: Outcomes)
      requires m_session.Valid()
      modifies this, m_session`core, m_session.m_reqtable, m_session.impls
      ensures m_session.Valid() && Onward(old(m_session.core), m_session.core)
      ensures Ended(outcome, old(m_connecting) + 1)
      decreases Left(m_connecting + 1), 2
    {
      m_connecting := m_connecting + 1;
      m_open := true;
      var ec := outcome(m_connecting);
      OnConnect(outcome, ec);
    }

    method OnConnect(outcome: Outcomes, ec: Attempt)
      requires m_session.Valid() && m_open && m_connecting >= 1 && ec == outcome(m_connecting)
      modifies this, m_session`core, m_session.m_reqtable, m_session.impls
      ensures m_session.Valid() && Onward(old(m_session.core), m_session.core)
      ensures Ended(outcome, old(m_connecting))
      decreases Left(m_connecting), 1
    {
      if ec != Success {
        OnConnectFailed(outcome, ec);
      } else {
        assert Run(m_session.core, [], m_session.core);
      }
    }

    method OnConnectFailed(outcome: Outcomes, ec: Attempt)
      requires m_session.Valid() && m_connecting >= 1 && ec == outcome(m_connecting) != Success
      modifies this, m_session`core, m_session.m_reqtable, m_session.impls
      ensures m_session.Valid() && Onward(old(m_session.core), m_session.core)
      ensures Ended(outcome, old(m_connecting))
      decreases Left(m_connecting), 0
    {
      if ec != TimedOut && m_connecting < m_reconnect_limit {
        TryConnect(outcome);
        return;
      }
      m_open := false;
      m_session.OnConnectFailed();
    }

    /** client_transport::connect: returns normally exactly when some attempt succeeded; otherwise the request
        table has been drained into the connect outcome and connect_error is thrown. */
    method Connect(outcome: Outcomes) returns (r: Result<()>)
      requires m_session.Valid() && !m_open
      modifies this, m_session`core, m_session.m_reqtable, m_session.impls
      ensures m_session.Valid() && Onward(old(m_session.core), m_session.core)
      ensures Ended(outcome, 1) && 1 <= m_connecting <= (if m_reconnect_limit > 1 then m_reconnect_limit else 1)
      ensures r.Ok? <==> exists k :: 1 <= k <= m_connecting && outcome(k) == Success
      ensures r.Ok? <==> Connects(outcome, m_reconnect_limit)
      ensures r.Ok? <==> m_open
    {
      m_connecting := 0;
      TryConnect(outcome);
      StopAtIsLeast(outcome, m_reconnect_limit, 1);
      StopsConnected(outcome, m_reconnect_limit);
      if !m_open {
        return ConnectErrorThrown;
      }
      return Ok(());
    }

    /** client_socket::on_system_error: the session's table is drained and the socket closed. */
    method OnSystemError()
      requires m_session.Valid()
      modifies this`m_open, m_session`core, m_session.m_reqtable, m_session.impls
      ensures m_session.Valid() && Onward(old(m_session.core), m_session.core)
      ensures !m_open && m_session.impls == old(m_session.impls)
      ensures DrainedFrom(old(m_session.core), m_session.core)
    {
      m_session.OnSystemError();
      m_open := false;
    }

    /** client_transport::send_data: connect first if the socket is closed, then write; `wrote` is false when the
        write ends in an error, which is not thrown on. */
    method SendData(outcome: Outcomes, wrote: bool) returns (r: Result<()>)
      requires m_session.Valid()
      modifies this, m_session`core, m_session.m_reqtable, m_session.impls
      ensures m_session.Valid() && Onward(old(m_session.core), m_session.core)
      ensures m_session.impls == old(m_session.impls)
      ensures r.Ok? <==> old(m_open) || Connects(outcome, m_reconnect_limit)
      ensures m_open <==> r.Ok? && wrote
      ensures if m_open then m_session.core == old(m_session.core) else DrainedFrom(old(m_session.core), m_session.core)
    {
      if !m_open {
        r := Connect(outcome);
        if r.ConnectErrorThrown? {
          return r;
        }
      }
      assert Run(m_session.core, [], m_session.core);
      if !wrote {
        OnSystemError();
      }
      return Ok(());
    }
  }

  /** session_impl::send_request_impl: the future is tabled before anything is sent. When connecting fails the
      exception reaches the caller; when only the write fails the caller gets the future; in both cases the call
      itself has already been settled as a connect failure. */
  method SendRequest(s: SessionImpl, t: ClientTransport, name: Value, params: Value, outcome: Outcomes, wrote: bool)
    returns (r: Result<FutureImpl>, ghost f: FutureImpl)
    requires s.Valid() && t.m_session == s
    modifies t, s`core, s`impls, s.m_msgid_rr, s.m_reqtable, s.impls
    ensures s.Valid() && Onward(old(s.core), s.core)
    ensures fresh(f) && s.impls == old(s.impls) + [f]
    ensures r.Ok? <==> old(t.m_open) || Connects(outcome, t.m_reconnect_limit)
    ensures t.m_open <==> r.Ok? && wrote
    ensures r.Ok? ==> r.value == f && s.core.calls[|old(s.impls)|].stage == Sent
    ensures var c := s.core.calls[|old(s.impls)|];
            c.name == name && c.params == params && c.msgid == f.m_msgid == old(s.core).counter
    ensures if r.Ok? && wrote then
              f.m_session == s && f.m_msgid in s.m_reqtable.m_map && s.m_reqtable.m_map[f.m_msgid] == f
            else f.m_session == null && f.m_error == CONNECT_ERROR && s.m_reqtable.m_map == map[]
  {
    ghost var n, c0 := |s.impls|, s.core;
    var future := s.Register(name, params);
    f := future;
    ghost var c1 := s.core;
    var sent := Handover(s, t, n, outcome, wrote);
    OnwardTwice(c0, c1, s.core);
    if sent.ConnectErrorThrown? {
      return ConnectErrorThrown, f;
    }
    ghost var c2 := s.core;
    s.Transmitted(n);
    OnwardTwice(c0, c2, s.core);
    return Ok(future), f;
  }

  /** m_tran->send_data for the registered call n. */
  method Handover(s: SessionImpl, t: ClientTransport, ghost n: nat, outcome: Outcomes, wrote: bool)
    returns (r: Result<()>)
    requires s.Valid() && t.m_session == s && n < |s.impls|
    requires InTable(s.core, n) && s.core.calls[n].stage == Registered && s.impls[n].m_session != null
    modifies t, s`core, s.m_reqtable, s.impls
    ensures s.Valid() && Onward(old(s.core), s.core) && s.impls == old(s.impls)
    ensures r.Ok? <==> old(t.m_open) || Connects(outcome, t.m_reconnect_limit)
    ensures t.m_open <==> r.Ok? && wrote
    ensures n < |s.core.calls| && s.core.calls[n].stage == Registered
    ensures var c, c0 := s.core.calls[n], old(s.core).calls[n];
            c.name == c0.name && c.params == c0.params && c.msgid == c0.msgid
    ensures var f := s.impls[n];
            if r.Ok? && wrote then
              f.m_session == s && f.m_msgid in s.m_reqtable.m_map && s.m_reqtable.m_map[f.m_msgid] == f
            else f.m_session == null && f.m_error == CONNECT_ERROR && s.m_reqtable.m_map == map[]
  {
    ghost var c1 := s.core;
    r := t.SendData(outcome, wrote);
    if t.m_open {
      TabledCall(s, n);
    } else {
      FailedCall(s, c1, n);
    }
  }

  lemma FailedCall(s: SessionImpl, before: Session, n: nat)
    requires s.Valid() && DrainedFrom(before, s.core) && n < |before.calls| && InTable(before, n)
    ensures n < |s.impls| && s.impls[n].m_session == null && s.impls[n].m_error == CONNECT_ERROR
    ensures var c, c0 := s.core.calls[n], before.calls[n];
            c.stage == c0.stage && c.name == c0.name && c.params == c0.params && c.msgid == c0.msgid
    ensures s.m_reqtable.m_map == map[]
  {
    assert s.ImplIs(s.impls[n], s.core.calls[n]);
    assert s.core.calls[n] == Write(before.calls[n], ByDrain);
    assert s.m_reqtable.m_map.Keys == {};
  }

  lemma TabledCall(s: SessionImpl, n: nat)
    requires s.Valid() && n < |s.core.calls| && InTable(s.core, n) && n < |s.impls| && s.impls[n].m_session != null
    ensures s.impls[n].m_session == s
    ensures s.impls[n].m_msgid in s.m_reqtable.m_map && s.m_reqtable.m_map[s.impls[n].m_msgid] == s.impls[n]
  {
    assert s.ImplIs(s.impls[n], s.core.calls[n]);
  }
}
