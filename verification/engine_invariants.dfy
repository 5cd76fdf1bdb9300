/** What every step of the call engine keeps, and what follows for every run. */
module EngineInvariants {
  import opened Protocol
  import opened AtomicOps
  import opened Futures
  import opened Engine

  // Ids

  ghost predicate IdsOk(s: Session) {
    s.counter == IdOf(|s.calls|) && forall n :: 0 <= n < |s.calls| ==> s.calls[n].msgid == IdOf(n)
  }

  ghost predicate TableOk(s: Session) {
    forall id :: id in s.table ==> InTable(s, s.table[id]) && s.calls[s.table[id]].msgid == id && Live(s, s.table[id])
  }

  // Ownership

  /** How many times handlers still hold call n. */
  function Owned(hs: seq<Handler>, n: nat): nat {
    if hs == [] then 0 else Owned(hs[..|hs| - 1], n) + multiset(hs[|hs| - 1].owned)[n]
  }

  lemma OwnedAppend(hs: seq<Handler>, h: Handler, n: nat)
    ensures Owned(hs + [h], n) == Owned(hs, n) + multiset(h.owned)[n]
  {
    assert (hs + [h])[..|hs + [h]| - 1] == hs;
  }

  lemma {:induction false} OwnedUpdate(hs: seq<Handler>, i: nat, h: Handler, n: nat)
    requires i < |hs|
    ensures Owned(hs[i := h], n) + multiset(hs[i].owned)[n] == Owned(hs, n) + multiset(h.owned)[n]
  {
    var last := |hs| - 1;
    if i == last {
      assert hs[i := h][..last] == hs[..last];
    } else {
      assert hs[i := h][..last] == hs[..last][i := h];
      OwnedUpdate(hs[..last], i, h, n);
    }
  }

  lemma {:induction false} OwnedAtLeast(hs: seq<Handler>, i: nat, n: nat)
    requires i < |hs| && n in hs[i].owned
    ensures Owned(hs, n) >= 1
  {
    if i < |hs| - 1 {
      OwnedAtLeast(hs[..|hs| - 1], i, n);
    }
  }

  /** The set_result calls made by expired waits, and those made by handlers. */
  function WaitWrites(log: seq<Source>): (k: nat)
    ensures k <= |log|
  {
    if log == [] then 0 else WaitWrites(log[..|log| - 1]) + if log[|log| - 1].ByWait? then 1 else 0
  }

  function HandlerWrites(log: seq<Source>): nat {
    |log| - WaitWrites(log)
  }

  lemma WritesAppend(log: seq<Source>, src: Source)
    ensures WaitWrites(log + [src]) == WaitWrites(log) + if src.ByWait? then 1 else 0
    ensures HandlerWrites(log + [src]) == HandlerWrites(log) + if src.ByWait? then 0 else 1
  {
    assert (log + [src])[..|log + [src]| - 1] == log;
  }

  /** In how many places call n is: the table, some handler's private list, written by its handler, overwritten. */
  function Places(s: Session, n: nat): nat
    requires n < |s.calls|
  {
    (if InTable(s, n) then 1 else 0) + Owned(s.handlers, n) + HandlerWrites(s.calls[n].log)
    + (if n in s.displaced then 1 else 0)
  }

  ghost predicate OwnershipOk(s: Session) {
    && (forall n :: 0 <= n < |s.calls| ==> Places(s, n) == if Live(s, n) then 1 else 0)
    && (forall n :: n >= |s.calls| ==> Owned(s.handlers, n) == 0 && n !in s.displaced)
    && (forall w :: 0 <= w < |s.waiters| ==> Live(s, s.waiters[w]))
    && (forall h :: 0 <= h < |s.handlers| ==> !s.handlers[h].cause.ByWait?)
  }

  // Outcomes

  ghost predicate CallOk(c: Call) {
    if c.stage == Allocated then c.fut == NewFuture(0).(pending := false) && c.log == []
    else
      && c.fut.writes == |c.log|
      && (c.fut.pending <==> c.log == [])
      && (c.log != [] ==> c.fut.result == ResultOf(Last(c)) && c.fut.error == ErrorOf(Last(c)))
      && (c.fut.callback.Some? ==> c.fut.pending)
  }

  function Last(c: Call): Source
    requires c.log != []
  {
    c.log[|c.log| - 1]
  }

  ghost predicate OutcomesOk(s: Session) {
    forall n :: 0 <= n < |s.calls| ==> CallOk(s.calls[n])
  }

  // Clock

  ghost predicate CallClockOk(s: Session, n: nat)
    requires n < |s.calls|
  {
    var c := s.calls[n];
    && c.taken <= s.ticks
    && (Live(s, n) ==> c.taken <= c.since <= s.ticks)
    && (c.stage == Created ==> c.fut.timeout == c.born)
    && (InTable(s, n) ==> c.fut.timeout + (s.ticks - c.since) == c.born)
  }

  ghost predicate ClockOk(s: Session) {
    && (forall n :: 0 <= n < |s.calls| ==> CallClockOk(s, n))
    && (forall m, n :: 0 <= m <= n < |s.calls| ==> s.calls[m].taken <= s.calls[n].taken)
  }

  ghost predicate Inv(s: Session) {
    IdsOk(s) && TableOk(s) && OwnershipOk(s) && OutcomesOk(s) && ClockOk(s)
  }

  // Preservation

  lemma InitInv(timeout: nat)
    ensures Inv(Init(timeout))
  {}

  lemma IdsStep(s: Session, op: Op)
    requires Inv(s) && Enabled(s, op)
    ensures IdsOk(Apply(s, op))
  {
    NextId(|s.calls|);
  }

  lemma TableTick(s: Session, out: seq<nat>)
    requires Inv(s) && Enabled(s, Tick(out))
    ensures TableOk(Apply(s, Tick(out)))
  {}

  lemma TableSettle(s: Session, op: Op)
    requires Inv(s) && Enabled(s, op) && (op.Settle? || op.SettleWait?)
    ensures TableOk(Apply(s, op))
  {}

  lemma TableInsert(s: Session, n: nat)
    requires Inv(s) && Enabled(s, Insert(n))
    ensures TableOk(Apply(s, Insert(n)))
  {}

  lemma TableOneCall(s: Session, op: Op)
    requires Inv(s) && Enabled(s, op) && (op.Create? || op.Transmit? || op.AttachTo?)
    ensures TableOk(Apply(s, op))
  {}

  lemma TableSameCalls(s: Session, op: Op)
    requires Inv(s) && Enabled(s, op) && (op.Allocate? || op.TakeAll? || op.Take? || op.ExpireWait? || op.SetTimeout?)
    ensures TableOk(Apply(s, op))
  {}

  lemma TableStep(s: Session, op: Op)
    requires Inv(s) && Enabled(s, op)
    ensures TableOk(Apply(s, op))
  {
    match op {
      case Tick(out) => TableTick(s, out);
      case Settle(_) => TableSettle(s, op);
      case SettleWait(_) => TableSettle(s, op);
      case Insert(n) => TableInsert(s, n);
      case Create(_) => TableOneCall(s, op);
      case Transmit(_) => TableOneCall(s, op);
      case AttachTo(_, _) => TableOneCall(s, op);
      case _ => TableSameCalls(s, op);
    }
  }

  /** The front element leaves a handler's list. */
  lemma PopOwned(owned: seq<nat>, n: nat)
    requires owned != []
    ensures multiset(owned[1..])[n] == multiset(owned)[n] - if owned[0] == n then 1 else 0
  {
    assert owned == [owned[0]] + owned[1..];
  }

  lemma OwnershipInsert(s: Session, n: nat)
    requires Inv(s) && Enabled(s, Insert(n))
    ensures OwnershipOk(Apply(s, Insert(n)))
  {
    var s' := Apply(s, Insert(n));
    forall m: nat | m < |s'.calls|
      ensures Places(s', m) == if Live(s', m) then 1 else 0
    {
      PlacesInsert(s, n, m);
    }
  }

  /** The call inserted enters the table; one it displaces leaves it for good. */
  lemma PlacesInsert(s: Session, n: nat, m: nat)
    requires Inv(s) && Enabled(s, Insert(n)) && m < |s.calls| == |Apply(s, Insert(n)).calls|
    ensures Places(Apply(s, Insert(n)), m) == if Live(Apply(s, Insert(n)), m) then 1 else 0
  {
    assert Places(s, m) == if Live(s, m) then 1 else 0;
    if m != n {
      assert InTable(Apply(s, Insert(n)), m) <==> InTable(s, m) && s.calls[m].msgid != s.calls[n].msgid;
    }
  }

  lemma OwnershipSettle(s: Session, h: nat)
    requires Inv(s) && Enabled(s, Settle(h))
    ensures OwnershipOk(Apply(s, Settle(h)))
    ensures Live(s, s.handlers[h].owned[0])
  {
    var s' := Apply(s, Settle(h));
    var Handler(cause, owned) := s.handlers[h];
    OwnedAtLeast(s.handlers, h, owned[0]);
    assert Places(s, owned[0]) >= 1;
    forall n: nat
      ensures Owned(s'.handlers, n) == Owned(s.handlers, n) - if owned[0] == n then 1 else 0
    {
      OwnedUpdate(s.handlers, h, Handler(cause, owned[1..]), n);
      PopOwned(owned, n);
    }
    forall n: nat | n < |s'.calls|
      ensures Places(s', n) == if Live(s', n) then 1 else 0
    {
      PlacesSettle(s, h, n);
    }
  }

  /** The call settled leaves its handler's list and counts as written by it. */
  lemma PlacesSettle(s: Session, h: nat, n: nat)
    requires Inv(s) && Enabled(s, Settle(h)) && n < |s.calls| == |Apply(s, Settle(h)).calls|
    requires Owned(Apply(s, Settle(h)).handlers, n)
             == Owned(s.handlers, n) - if s.handlers[h].owned[0] == n then 1 else 0
    ensures Places(Apply(s, Settle(h)), n) == if Live(Apply(s, Settle(h)), n) then 1 else 0
  {
    assert Places(s, n) == if Live(s, n) then 1 else 0;
    assert InTable(Apply(s, Settle(h)), n) <==> InTable(s, n);
    WritesAppend(s.calls[n].log, s.handlers[h].cause);
  }

  /** Exactly the calls that leave the table are given to the new handler. */
  lemma RemovedIsOwned(s: Session, op: Op, h: Handler)
    requires Inv(s) && Enabled(s, op) && (op.Tick? || op.TakeAll? || op.Take?)
    requires Apply(s, op).handlers == s.handlers + [h]
    ensures |Apply(s, op).calls| == |s.calls|
    ensures forall n: nat :: multiset(h.owned)[n] == if InTable(s, n) && !InTable(Apply(s, op), n) then 1 else 0
    ensures forall n: nat :: InTable(Apply(s, op), n) ==> InTable(s, n)
  {
    var s' := Apply(s, op);
    forall n: nat
      ensures multiset(h.owned)[n] == if InTable(s, n) && !InTable(s', n) then 1 else 0
      ensures InTable(s', n) ==> InTable(s, n)
    {
      RemovedCount(s, op, h, n);
    }
  }

  lemma RemovedCount(s: Session, op: Op, h: Handler, n: nat)
    requires Inv(s) && Enabled(s, op) && (op.Tick? || op.TakeAll? || op.Take?)
    requires Apply(s, op).handlers == s.handlers + [h]
    ensures |Apply(s, op).calls| == |s.calls|
    ensures multiset(h.owned)[n] == if InTable(s, n) && !InTable(Apply(s, op), n) then 1 else 0
    ensures InTable(Apply(s, op), n) ==> InTable(s, n)
  {
    var s' := Apply(s, op);
    assert s'.handlers[|s.handlers|] == h;
    if n < |s.calls| {
      assert s'.calls[n].msgid == s.calls[n].msgid;
    }
  }

  lemma OwnershipRemove(s: Session, op: Op)
    requires Inv(s) && Enabled(s, op)
    requires op.Tick? || op.TakeAll? || op.Take?
    ensures OwnershipOk(Apply(s, op))
  {
    var s' := Apply(s, op);
    if s' != s {
      var h := s'.handlers[|s.handlers|];
      assert s'.handlers == s.handlers + [h];
      RemovedIsOwned(s, op, h);
      forall n: nat
        ensures Owned(s'.handlers, n) == Owned(s.handlers, n) + multiset(h.owned)[n]
      {
        OwnedAppend(s.handlers, h, n);
      }
      forall n: nat | n < |s'.calls|
        ensures Places(s', n) == if Live(s', n) then 1 else 0
      {
        assert Places(s, n) == if Live(s, n) then 1 else 0;
        assert s'.calls[n].msgid == s.calls[n].msgid && s'.calls[n].log == s.calls[n].log;
      }
    }
  }

  lemma OwnershipSettleWait(s: Session, w: nat)
    requires Inv(s) && Enabled(s, SettleWait(w))
    ensures OwnershipOk(Apply(s, SettleWait(w)))
  {
    var s' := Apply(s, SettleWait(w));
    forall n: nat | n < |s'.calls|
      ensures Places(s', n) == if Live(s', n) then 1 else 0
    {
      assert Places(s, n) == if Live(s, n) then 1 else 0;
      assert InTable(s', n) <==> InTable(s, n);
      WritesAppend(s.calls[n].log, ByWait);
    }
  }

  lemma OwnershipOther(s: Session, op: Op)
    requires Inv(s) && Enabled(s, op)
    requires op.Create? || op.Transmit? || op.ExpireWait? || op.AttachTo? || op.SetTimeout?
    ensures OwnershipOk(Apply(s, op))
  {
    var s' := Apply(s, op);
    assert s'.handlers == s.handlers && s'.table == s.table && |s'.calls| == |s.calls|;
    forall n: nat | n < |s.calls|
      ensures Places(s', n) == Places(s, n) && Live(s', n) == Live(s, n)
    {
      assert s'.calls[n].msgid == s.calls[n].msgid && s'.calls[n].log == s.calls[n].log;
    }
  }

  lemma OwnershipAllocate(s: Session, name: Value, params: Value)
    requires Inv(s)
    ensures OwnershipOk(Apply(s, Allocate(name, params)))
  {
    var s' := Apply(s, Allocate(name, params));
    forall n: nat | n < |s.calls|
      ensures Places(s', n) == Places(s, n) && Live(s', n) == Live(s, n)
    {
      assert s'.calls[n] == s.calls[n];
    }
    assert Places(s', |s.calls|) == 0;
  }

  lemma OwnershipStep(s: Session, op: Op)
    requires Inv(s) && Enabled(s, op)
    ensures OwnershipOk(Apply(s, op))
  {
    match op {
      case Tick(_) => OwnershipRemove(s, op);
      case TakeAll(_) => OwnershipRemove(s, op);
      case Take(_, _, _) => OwnershipRemove(s, op);
      case Settle(h) => OwnershipSettle(s, h);
      case Insert(n) => OwnershipInsert(s, n);
      case SettleWait(w) => OwnershipSettleWait(s, w);
      case Allocate(name, params) => OwnershipAllocate(s, name, params);
      case _ => OwnershipOther(s, op);
    }
  }

  /** What one step can do to an existing call: it keeps its identity, moves forward through its stages,
      keeps the timeout it was built with, and once ready it stays ready. */
  ghost predicate Evolves(c: Call, c': Call) {
    && c'.msgid == c.msgid && c'.name == c.name && c'.params == c.params && c'.taken == c.taken
    && (c'.stage == c.stage
        || (c.stage == Allocated && c'.stage == Created)
        || (c.stage == Created && c'.stage == Registered)
        || (c.stage == Registered && c'.stage == Sent))
    && (c.stage != Allocated ==> c'.born == c.born && (!c.fut.pending ==> !c'.fut.pending))
    && (c.stage == Registered || c.stage == Sent ==> c'.since == c.since)
    && c.log <= c'.log
  }

  lemma CallEvolves(s: Session, op: Op, n: nat)
    requires Inv(s) && Enabled(s, op) && n < |s.calls|
    ensures |s.calls| <= |Apply(s, op).calls|
    ensures Evolves(s.calls[n], Apply(s, op).calls[n])
  {
    assert CallOk(s.calls[n]);
  }

  lemma OutcomesStep(s: Session, op: Op)
    requires Inv(s) && Enabled(s, op)
    ensures OutcomesOk(Apply(s, op))
  {
    forall n | 0 <= n < |Apply(s, op).calls|
      ensures CallOk(Apply(s, op).calls[n])
    {
      OutcomeStep(s, op, n);
    }
  }

  lemma OutcomeStep(s: Session, op: Op, n: nat)
    requires Inv(s) && Enabled(s, op) && n < |Apply(s, op).calls|
    ensures CallOk(Apply(s, op).calls[n])
  {
    match op {
      case Settle(h) => OutcomeSettle(s, h, n);
      case SettleWait(w) => OutcomeWait(s, w, n);
      case Allocate(name, params) => OutcomeAllocate(s, name, params, n);
      case _ => OutcomeKept(s, op, n);
    }
  }

  lemma OutcomeSettle(s: Session, h: nat, n: nat)
    requires Inv(s) && Enabled(s, Settle(h)) && n < |s.calls|
    ensures |Apply(s, Settle(h)).calls| == |s.calls| && CallOk(Apply(s, Settle(h)).calls[n])
  {
    OwnershipSettle(s, h);
    assert CallOk(s.calls[n]);
    WriteIsOk(s.calls[n], s.handlers[h].cause);
  }

  lemma OutcomeWait(s: Session, w: nat, n: nat)
    requires Inv(s) && Enabled(s, SettleWait(w)) && n < |s.calls|
    ensures |Apply(s, SettleWait(w)).calls| == |s.calls| && CallOk(Apply(s, SettleWait(w)).calls[n])
  {
    assert CallOk(s.calls[n]);
    WriteIsOk(s.calls[n], ByWait);
  }

  lemma OutcomeAllocate(s: Session, name: Value, params: Value, n: nat)
    requires Inv(s) && n <= |s.calls|
    ensures |Apply(s, Allocate(name, params)).calls| == |s.calls| + 1
    ensures CallOk(Apply(s, Allocate(name, params)).calls[n])
  {
    assert n < |s.calls| ==> CallOk(s.calls[n]);
  }

  lemma WriteIsOk(c: Call, src: Source)
    ensures CallOk(c) && c.stage != Allocated ==> CallOk(Write(c, src))
  {}

  lemma OutcomeKept(s: Session, op: Op, n: nat)
    requires Inv(s) && Enabled(s, op) && !op.Settle? && !op.SettleWait? && !op.Allocate? && n < |s.calls|
    ensures |Apply(s, op).calls| == |s.calls| && CallOk(Apply(s, op).calls[n])
  {
    assert CallOk(s.calls[n]);
  }

  /** Only a tick moves a tabled call's count, by one; nothing else in the step touches its clock. */
  lemma CountAcrossStep(s: Session, op: Op, n: nat)
    requires Inv(s) && Enabled(s, op) && n < |s.calls| && InTable(s, n)
    requires |s.calls| <= |Apply(s, op).calls| && InTable(Apply(s, op), n)
    ensures var s' := Apply(s, op);
            s'.calls[n].fut.timeout == s.calls[n].fut.timeout - (s'.ticks - s.ticks)
  {
    assert s.calls[n].msgid in s.table;
    assert Live(s, n);
  }

  lemma CallClockStep(s: Session, op: Op, n: nat)
    requires Inv(s) && Enabled(s, op) && n < |s.calls|
    ensures |s.calls| <= |Apply(s, op).calls| && CallClockOk(Apply(s, op), n)
  {
    assert CallClockOk(s, n);
    CallEvolves(s, op, n);
    if op == Create(n) || op == Insert(n) {
      NewCallClock(s, op, n);
    } else if InTable(Apply(s, op), n) {
      assert InTable(s, n);
      CountAcrossStep(s, op, n);
    }
  }

  lemma NewCallClock(s: Session, op: Op, n: nat)
    requires Inv(s) && Enabled(s, op) && n < |s.calls| && (op == Create(n) || op == Insert(n))
    ensures CallClockOk(Apply(s, op), n)
  {
    assert CallClockOk(s, n) && !InTable(s, n);
  }

  lemma ClockStep(s: Session, op: Op)
    requires Inv(s) && Enabled(s, op)
    ensures ClockOk(Apply(s, op))
  {
    var s' := Apply(s, op);
    forall n | 0 <= n < |s'.calls|
      ensures CallClockOk(s', n)
      ensures n < |s.calls| ==> s'.calls[n].taken == s.calls[n].taken
      ensures n >= |s.calls| ==> s'.calls[n].taken == s.ticks
    {
      if n < |s.calls| {
        CallEvolves(s, op, n);
        CallClockStep(s, op, n);
      }
    }
    forall m, n | 0 <= m <= n < |s'.calls|
      ensures s'.calls[m].taken <= s'.calls[n].taken
    {
      if m < |s.calls| {
        assert CallClockOk(s, m);
      }
    }
  }

  /** In a session of at most 2^32 calls no step overwrites a table entry. */
  lemma FewCallsStep(s: Session, op: Op)
    requires Inv(s) && Enabled(s, op) && |Apply(s, op).calls| <= TWO32
    ensures Apply(s, op).displaced == s.displaced && |s.calls| <= |Apply(s, op).calls|
  {
    if op.Insert? && s.calls[op.n].msgid in s.table {
      CloseCallsHaveDistinctIds(s.table[s.calls[op.n].msgid], op.n);
      assert false;
    }
  }

  lemma InvStep(s: Session, op: Op)
    requires Inv(s) && Enabled(s, op)
    ensures Inv(Apply(s, op))
  {
    IdsStep(s, op);
    TableStep(s, op);
    OwnershipStep(s, op);
    OutcomesStep(s, op);
    ClockStep(s, op);
  }

  lemma {:induction false} InvRun(s: Session, ops: seq<Op>, s': Session)
    requires Inv(s) && Run(s, ops, s')
    ensures Inv(s')
    decreases |ops|
  {
    if ops != [] {
      InvStep(s, ops[0]);
      InvRun(Apply(s, ops[0]), ops[1..], s');
    }
  }
}
