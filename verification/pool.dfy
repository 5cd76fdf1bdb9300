/** The session pool: reference counts, idle countdown and eviction, interleaved with everything the pooled
    sessions do (session_pool.cc, and the shared_session members of future.cc and session.cc). */
module Pool {
  import opened Protocol
  import opened Futures
  import opened Engine
  import opened EngineInvariants
  import opened EngineTheorems

  const SESSION_POOL_TIME_LIMIT: nat := 60

  type Address = nat

  /** One session_impl object. `useCount` is the shared_ptr count, changed one by one where the source copies or
      releases a shared_session; `handles` are the session objects users hold, `locks` the temporary owners
      made by weak_session::lock. */
  datatype Member = Member(addr: Address, core: Session, useCount: nat, handles: nat, locks: nat)

  /** `idle` is history: pool ticks that found the pool the only owner since the last get_session. */
  datatype Entry = Entry(session: nat, ttl: nat, idle: nat)

  /** The pool's mutex: free, held by a tick with entries still to visit, or held by a tick that has found the
      entry at `addr` unique and out of time and is about to erase it. */
  datatype Lock = Free | Ticking(todo: set<Address>) | Erasing(addr: Address, todo: set<Address>)

  datatype State = State(table: map<Address, Entry>, members: seq<Member>, lock: Lock, timeout: nat)

  datatype PoolOp =
    | GetSession(addr: Address)
    | CopyHandle(i: nat)
    | DropHandle(i: nat)
    | LockWeak(i: nat)
    | Unlock(i: nat)
    | Do(i: nat, op: Op)
    | SetPoolTimeout(timeout: nat)
    | TickBegin
    | Visit(addr: Address)
    | Erase
    | TickEnd

  function Empty(timeout: nat): State {
    State(map[], [], Free, timeout)
  }

  /** What a pool tick makes of a time to live: nothing is left of it when the entry is to be erased. */
  function AfterVisit(ttl: nat, unique: bool): Option<nat> {
    if !unique then Some(ttl) else if ttl <= 0 then None else Some(ttl - 1)
  }

  /** What visiting an entry does, apart from erasing it. */
  function VisitEntry(e: Entry, unique: bool): Entry {
    var left := AfterVisit(e.ttl, unique);
    e.(ttl := if left.Some? then left.value else 0, idle := if unique then e.idle + 1 else e.idle)
  }

  /** Whether a step releases call n's m_session: the first set_result on it. */
  predicate Releases(s: Session, op: Op) {
    match op
    case Settle(h) =>
      h < |s.handlers| && s.handlers[h].owned != [] && s.handlers[h].owned[0] < |s.calls|
      && s.calls[s.handlers[h].owned[0]].fut.pending
    case SettleWait(w) => w < |s.waiters| && s.waiters[w] < |s.calls| && s.calls[s.waiters[w]].fut.pending
    case _ => false
  }

  ghost predicate PoolEnabled(p: State, pop: PoolOp) {
    match pop
    case GetSession(_) => p.lock == Free && forall a :: a in p.table ==> p.table[a].session < |p.members|
    case CopyHandle(i) => i < |p.members| && p.members[i].handles > 0
    case DropHandle(i) => i < |p.members| && p.members[i].handles > 0 && p.members[i].useCount > 0
    case LockWeak(i) => i < |p.members| && p.members[i].useCount > 0
    case Unlock(i) => i < |p.members| && p.members[i].locks > 0 && p.members[i].useCount > 0
    case Do(i, op) =>
      && i < |p.members| && Enabled(p.members[i].core, op)
      && (op.Create? ==> p.members[i].handles > 0)
      && (Releases(p.members[i].core, op) ==> p.members[i].useCount > 0)
    case SetPoolTimeout(_) => true
    case TickBegin => p.lock == Free
    case Visit(a) => p.lock.Ticking? && a in p.lock.todo && a in p.table && p.table[a].session < |p.members|
    case Erase =>
      p.lock.Erasing? && p.lock.addr in p.table && p.table[p.lock.addr].session < |p.members|
      && p.members[p.table[p.lock.addr].session].useCount > 0
    case TickEnd => p.lock == Ticking({})
  }

  ghost function PoolApply(p: State, pop: PoolOp): State
    requires PoolEnabled(p, pop)
  {
    match pop
    case GetSession(a) =>
      if a in p.table then
        var e := p.table[a];
        var m := p.members[e.session];
        p.(table := p.table[a := Entry(e.session, SESSION_POOL_TIME_LIMIT, 0)],
           members := p.members[e.session := m.(useCount := m.useCount + 1, handles := m.handles + 1)])
      else
        p.(table := p.table[a := Entry(|p.members|, SESSION_POOL_TIME_LIMIT, 0)],
           members := p.members + [Member(a, Init(p.timeout), 2, 1, 0)])
    case CopyHandle(i) =>
      var m := p.members[i];
      p.(members := p.members[i := m.(useCount := m.useCount + 1, handles := m.handles + 1)])
    case DropHandle(i) =>
      var m := p.members[i];
      p.(members := p.members[i := m.(useCount := m.useCount - 1, handles := m.handles - 1)])
    case LockWeak(i) =>
      var m := p.members[i];
      p.(members := p.members[i := m.(useCount := m.useCount + 1, locks := m.locks + 1)])
    case Unlock(i) =>
      var m := p.members[i];
      p.(members := p.members[i := m.(useCount := m.useCount - 1, locks := m.locks - 1)])
    case Do(i, op) =>
      var m := p.members[i];
      var count := if op.Create? then m.useCount + 1 else if Releases(m.core, op) then m.useCount - 1 else m.useCount;
      p.(members := p.members[i := m.(core := Apply(m.core, op), useCount := count)])
    case SetPoolTimeout(timeout) => p.(timeout := timeout)
    case TickBegin => p.(lock := Ticking(p.table.Keys))
    case Visit(a) =>
      var e, todo := p.table[a], p.lock.todo - {a};
      var unique := p.members[e.session].useCount == 1;
      p.(table := p.table[a := VisitEntry(e, unique)],
         lock := if AfterVisit(e.ttl, unique) == None then Erasing(a, todo) else Ticking(todo))
    case Erase =>
      var i := p.table[p.lock.addr].session;
      p.(table := map a | a in p.table && a != p.lock.addr :: p.table[a],
         members := p.members[i := p.members[i].(useCount := p.members[i].useCount - 1)],
         lock := Ticking(p.lock.todo))
    case TickEnd => p.(lock := Free)
  }

  ghost predicate PoolRun(p: State, pops: seq<PoolOp>, p': State)
    decreases |pops|
  {
    if pops == [] then p' == p
    else PoolEnabled(p, pops[0]) && PoolRun(PoolApply(p, pops[0]), pops[1..], p')
  }

  // Counting pending futures

  function Pending(calls: seq<Call>): nat {
    if calls == [] then 0 else Pending(calls[..|calls| - 1]) + if calls[|calls| - 1].fut.pending then 1 else 0
  }

  lemma {:induction false} PendingSame(a: seq<Call>, b: seq<Call>)
    requires |a| == |b| && forall n :: 0 <= n < |a| ==> a[n].fut.pending == b[n].fut.pending
    ensures Pending(a) == Pending(b)
  {
    if a != [] {
      PendingSame(a[..|a| - 1], b[..|b| - 1]);
    }
  }

  lemma {:induction false} PendingUpdate(calls: seq<Call>, n: nat, c: Call)
    requires n < |calls|
    ensures Pending(calls[n := c]) + (if calls[n].fut.pending then 1 else 0)
            == Pending(calls) + (if c.fut.pending then 1 else 0)
  {
    var last := |calls| - 1;
    if n == last {
      assert calls[n := c][..last] == calls[..last];
    } else {
      assert calls[n := c][..last] == calls[..last][n := c];
      PendingUpdate(calls[..last], n, c);
    }
  }

  lemma {:induction false} PendingZero(calls: seq<Call>)
    ensures Pending(calls) == 0 <==> forall n :: 0 <= n < |calls| ==> !calls[n].fut.pending
  {
    if calls != [] {
      PendingZero(calls[..|calls| - 1]);
    }
  }

  /** Only constructing a future adds a pending one, and only a releasing set_result removes one. */
  lemma PendingStep(s: Session, op: Op)
    requires Inv(s) && Enabled(s, op)
    ensures Pending(Apply(s, op).calls)
            == Pending(s.calls) + (if op.Create? then 1 else 0) - (if Releases(s, op) then 1 else 0)
    ensures Releases(s, op) ==> Pending(s.calls) > 0
  {
    var s' := Apply(s, op);
    match op {
      case Create(n) =>
        assert CallOk(s.calls[n]);
        PendingUpdate(s.calls, n, s'.calls[n]);
      case Settle(h) =>
        var n := s.handlers[h].owned[0];
        PendingUpdate(s.calls, n, s'.calls[n]);
      case SettleWait(w) =>
        PendingUpdate(s.calls, s.waiters[w], s'.calls[s.waiters[w]]);
      case Allocate(_, _) =>
        assert s'.calls[..|s'.calls| - 1] == s.calls;
      case _ =>
        PendingKept(s, op);
    }
  }

  lemma PendingKept(s: Session, op: Op)
    requires Inv(s) && Enabled(s, op)
    requires !op.Create? && !op.Settle? && !op.SettleWait? && !op.Allocate?
    ensures Pending(Apply(s, op).calls) == Pending(s.calls)
  {
    PendingSame(s.calls, Apply(s, op).calls);
  }

  // Invariant

  predicate InPool(p: State, i: nat) {
    i < |p.members| && p.members[i].addr in p.table && p.table[p.members[i].addr].session == i
  }

  /** The reference count is the pool's own reference, the users' handles, the pending futures (tabled or not),
      and the temporary locks. */
  ghost predicate CountOk(p: State, i: nat)
    requires i < |p.members|
  {
    var m := p.members[i];
    m.useCount == (if InPool(p, i) then 1 else 0) + m.handles + m.locks + Pending(m.core.calls)
  }

  ghost predicate EntryOk(p: State, a: Address)
    requires a in p.table
  {
    var e := p.table[a];
    && e.session < |p.members| && p.members[e.session].addr == a
    && if p.lock.Erasing? && p.lock.addr == a then
         e.ttl == 0 && e.idle == SESSION_POOL_TIME_LIMIT + 1
         && p.members[e.session].handles == 0 && Pending(p.members[e.session].core.calls) == 0
       else e.ttl + e.idle == SESSION_POOL_TIME_LIMIT
  }

  ghost predicate PoolInv(p: State) {
    && (forall i :: 0 <= i < |p.members| ==> Inv(p.members[i].core) && CountOk(p, i))
    && (forall a :: a in p.table ==> EntryOk(p, a))
    && (p.lock.Erasing? ==> p.lock.addr in p.table && p.lock.addr !in p.lock.todo)
    && (!p.lock.Free? ==> p.lock.todo <= p.table.Keys)
  }

  /** A step that leaves the table alone and changes one member consistently. */
  lemma MemberKeeps(p: State, i: nat, m: Member)
    requires PoolInv(p) && i < |p.members|
    requires m.addr == p.members[i].addr && Inv(m.core)
    requires m.useCount == (if InPool(p, i) then 1 else 0) + m.handles + m.locks + Pending(m.core.calls)
    requires p.members[i].handles == 0 ==> m.handles == 0 && Pending(m.core.calls) <= Pending(p.members[i].core.calls)
    ensures PoolInv(p.(members := p.members[i := m]))
  {
    var p' := p.(members := p.members[i := m]);
    forall j | 0 <= j < |p'.members|
      ensures Inv(p'.members[j].core) && CountOk(p', j)
    {
      assert CountOk(p, j);
      assert InPool(p', j) <==> InPool(p, j);
    }
    forall a | a in p'.table
      ensures EntryOk(p', a)
    {
      assert EntryOk(p, a);
    }
  }

  lemma GetKeeps(p: State, a: Address)
    requires PoolInv(p) && PoolEnabled(p, GetSession(a))
    ensures PoolInv(PoolApply(p, GetSession(a)))
  {
    if a in p.table {
      GetCachedKeeps(p, a);
    } else {
      GetNewKeeps(p, a);
    }
  }

  lemma GetCachedKeeps(p: State, a: Address)
    requires PoolInv(p) && PoolEnabled(p, GetSession(a)) && a in p.table
    ensures PoolInv(PoolApply(p, GetSession(a)))
  {
    var p' := PoolApply(p, GetSession(a));
    assert EntryOk(p, a);
    forall j | 0 <= j < |p'.members|
      ensures Inv(p'.members[j].core) && CountOk(p', j)
    {
      GetCachedCounts(p, a, j);
    }
    forall b | b in p'.table
      ensures EntryOk(p', b)
    {
      assert EntryOk(p, b);
    }
  }

  lemma GetCachedCounts(p: State, a: Address, j: nat)
    requires PoolInv(p) && PoolEnabled(p, GetSession(a)) && a in p.table && j < |p.members|
    ensures var p' := PoolApply(p, GetSession(a));
            j < |p'.members| && Inv(p'.members[j].core) && CountOk(p', j)
  {
    assert CountOk(p, j);
    assert InPool(PoolApply(p, GetSession(a)), j) <==> InPool(p, j);
  }

  lemma GetNewKeeps(p: State, a: Address)
    requires PoolInv(p) && PoolEnabled(p, GetSession(a)) && a !in p.table
    ensures PoolInv(PoolApply(p, GetSession(a)))
  {
    var p' := PoolApply(p, GetSession(a));
    InitInv(p.timeout);
    forall j | 0 <= j < |p'.members|
      ensures Inv(p'.members[j].core) && CountOk(p', j)
    {
      if j < |p.members| {
        assert CountOk(p, j);
        assert InPool(p', j) <==> InPool(p, j);
      }
    }
    forall b | b in p'.table
      ensures EntryOk(p', b)
    {
      assert b in p.table ==> EntryOk(p, b);
    }
  }

  /** Changing one entry's time to live, idle count and the lock leaves the counts alone. */
  lemma VisitCounts(p: State, a: Address)
    requires PoolInv(p) && PoolEnabled(p, Visit(a))
    ensures var p' := PoolApply(p, Visit(a));
            forall j :: 0 <= j < |p'.members| ==> Inv(p'.members[j].core) && CountOk(p', j)
  {
    var p' := PoolApply(p, Visit(a));
    forall j | 0 <= j < |p'.members|
      ensures Inv(p'.members[j].core) && CountOk(p', j)
    {
      assert CountOk(p, j);
      assert InPool(p', j) <==> InPool(p, j);
    }
  }

  lemma VisitKeeps(p: State, a: Address)
    requires PoolInv(p) && PoolEnabled(p, Visit(a))
    ensures PoolInv(PoolApply(p, Visit(a)))
  {
    var p' := PoolApply(p, Visit(a));
    VisitCounts(p, a);
    assert EntryOk(p, a);
    var i := p.table[a].session;
    assert CountOk(p, i) && InPool(p, i);
    forall b | b in p'.table
      ensures EntryOk(p', b)
    {
      assert EntryOk(p, b);
    }
  }

  lemma EraseCounts(p: State, j: nat)
    requires PoolInv(p) && PoolEnabled(p, Erase) && j < |p.members|
    ensures var p' := PoolApply(p, Erase);
            j < |p'.members| && Inv(p'.members[j].core) && CountOk(p', j)
  {
    var p', i := PoolApply(p, Erase), p.table[p.lock.addr].session;
    assert EntryOk(p, p.lock.addr) && CountOk(p, j);
    assert if j == i then InPool(p, j) && !InPool(p', j) else InPool(p', j) <==> InPool(p, j);
  }

  lemma EraseEntries(p: State, b: Address)
    requires PoolInv(p) && PoolEnabled(p, Erase) && b in PoolApply(p, Erase).table
    ensures EntryOk(PoolApply(p, Erase), b)
  {
    assert EntryOk(p, b) && EntryOk(p, p.lock.addr);
  }

  lemma EraseKeeps(p: State)
    requires PoolInv(p) && PoolEnabled(p, Erase)
    ensures PoolInv(PoolApply(p, Erase))
  {
    var p' := PoolApply(p, Erase);
    forall j | 0 <= j < |p'.members|
      ensures Inv(p'.members[j].core) && CountOk(p', j)
    {
      EraseCounts(p, j);
    }
    forall b | b in p'.table
      ensures EntryOk(p', b)
    {
      EraseEntries(p, b);
    }
  }

  lemma DoKeeps(p: State, i: nat, op: Op)
    requires PoolInv(p) && PoolEnabled(p, Do(i, op))
    ensures PoolInv(PoolApply(p, Do(i, op)))
  {
    var m, m' := p.members[i], PoolApply(p, Do(i, op)).members[i];
    assert CountOk(p, i);
    InvStep(m.core, op);
    PendingStep(m.core, op);
    MemberKeeps(p, i, m');
  }

  lemma LockKeeps(p: State, pop: PoolOp)
    requires PoolInv(p) && PoolEnabled(p, pop) && (pop.TickBegin? || pop.TickEnd? || pop.SetPoolTimeout?)
    ensures PoolInv(PoolApply(p, pop))
  {
    var p' := PoolApply(p, pop);
    forall j | 0 <= j < |p'.members|
      ensures CountOk(p', j)
    {
      assert CountOk(p, j);
      assert InPool(p', j) <==> InPool(p, j);
    }
    forall b | b in p'.table
      ensures EntryOk(p', b)
    {
      assert EntryOk(p, b);
    }
  }

  lemma PoolStep(p: State, pop: PoolOp)
    requires PoolInv(p) && PoolEnabled(p, pop)
    ensures PoolInv(PoolApply(p, pop))
  {
    match pop {
      case GetSession(a) => GetKeeps(p, a);
      case Visit(a) => VisitKeeps(p, a);
      case Erase => EraseKeeps(p);
      case Do(i, op) => DoKeeps(p, i, op);
      case TickBegin => LockKeeps(p, pop);
      case TickEnd => LockKeeps(p, pop);
      case SetPoolTimeout(_) => LockKeeps(p, pop);
      case CopyHandle(i) => assert CountOk(p, i); MemberKeeps(p, i, PoolApply(p, pop).members[i]);
      case DropHandle(i) => assert CountOk(p, i); MemberKeeps(p, i, PoolApply(p, pop).members[i]);
      case LockWeak(i) => assert CountOk(p, i); MemberKeeps(p, i, PoolApply(p, pop).members[i]);
      case Unlock(i) => assert CountOk(p, i); MemberKeeps(p, i, PoolApply(p, pop).members[i]);
    }
  }

  lemma {:induction false} PoolInvRun(p: State, pops: seq<PoolOp>, p': State)
    requires PoolInv(p) && PoolRun(p, pops, p')
    ensures PoolInv(p')
    decreases |pops|
  {
    if pops != [] {
      PoolStep(p, pops[0]);
      PoolInvRun(PoolApply(p, pops[0]), pops[1..], p');
    }
  }

  // What has been handed out, counted from the operations of a run

  /** The member that get_session returns for an address. */
  function MemberFor(p: State, a: Address): nat {
    if a in p.table then p.table[a].session else |p.members|
  }

  /** How often a handle on member i has been given out: by get_session, and by copying one. */
  ghost function Given(p: State, pops: seq<PoolOp>, i: nat): nat
    decreases |pops|
  {
    if pops == [] || !PoolEnabled(p, pops[0]) then 0
    else
      (if pops[0].GetSession? && MemberFor(p, pops[0].addr) == i then 1 else 0)
      + (if pops[0] == CopyHandle(i) then 1 else 0)
      + Given(PoolApply(p, pops[0]), pops[1..], i)
  }

  /** How often an operation occurs in a run. */
  function Times(pops: seq<PoolOp>, pop: PoolOp): nat {
    if pops == [] then 0 else (if pops[0] == pop then 1 else 0) + Times(pops[1..], pop)
  }

  function HandlesOf(p: State, i: nat): nat {
    if i < |p.members| then p.members[i].handles else 0
  }

  function LocksOf(p: State, i: nat): nat {
    if i < |p.members| then p.members[i].locks else 0
  }

  lemma LedgerStep(p: State, pop: PoolOp, i: nat)
    requires PoolEnabled(p, pop)
    ensures var p' := PoolApply(p, pop);
            && HandlesOf(p', i) + (if pop == DropHandle(i) then 1 else 0)
               == HandlesOf(p, i) + (if pop.GetSession? && MemberFor(p, pop.addr) == i then 1 else 0)
                  + (if pop == CopyHandle(i) then 1 else 0)
            && LocksOf(p', i) + (if pop == Unlock(i) then 1 else 0)
               == LocksOf(p, i) + (if pop == LockWeak(i) then 1 else 0)
  {}

  /** The books of a run: the handles and the temporary locks on a session are exactly those given out and not
      given back. */
  lemma {:induction false} Ledger(p: State, pops: seq<PoolOp>, p': State, i: nat)
    requires PoolRun(p, pops, p')
    ensures HandlesOf(p', i) + Times(pops, DropHandle(i)) == HandlesOf(p, i) + Given(p, pops, i)
    ensures LocksOf(p', i) + Times(pops, Unlock(i)) == LocksOf(p, i) + Times(pops, LockWeak(i))
    decreases |pops|
  {
    if pops != [] {
      LedgerStep(p, pops[0], i);
      Ledger(PoolApply(p, pops[0]), pops[1..], p', i);
    }
  }

  // The timeout of new sessions

  /** The timeout set last. */
  function TimeoutSet(timeout: nat, pops: seq<PoolOp>): nat
    decreases |pops|
  {
    if pops == [] then timeout
    else TimeoutSet(if pops[0].SetPoolTimeout? then pops[0].timeout else timeout, pops[1..])
  }

  lemma {:induction false} TimeoutOfRun(p: State, pops: seq<PoolOp>, p': State)
    requires PoolRun(p, pops, p')
    ensures p'.timeout == TimeoutSet(p.timeout, pops)
    decreases |pops|
  {
    if pops != [] {
      TimeoutOfRun(PoolApply(p, pops[0]), pops[1..], p');
    }
  }

  /** After any run, get_session for an address without an entry makes a session with the timeout set last, held
      by the pool and by the caller; for one with an entry it makes none. */
  lemma NewSession(timeout: nat, pops: seq<PoolOp>, p: State, a: Address)
    requires PoolRun(Empty(timeout), pops, p) && PoolEnabled(p, GetSession(a))
    ensures var p' := PoolApply(p, GetSession(a));
            && a in p'.table && p'.table[a].session == MemberFor(p, a)
            && if a in p.table then |p'.members| == |p.members|
               else p'.members == p.members + [Member(a, Init(TimeoutSet(timeout, pops)), 2, 1, 0)]
  {
    TimeoutOfRun(Empty(timeout), pops, p);
  }

  /** No count ever runs short: whoever holds a handle can copy it or give it back, whoever has locked the session
      can release it, and every step of a session that its own engine allows can be taken, except that only a
      holder of a handle makes calls. */
  lemma CountsSuffice(p: State, i: nat, op: Op)
    requires PoolInv(p) && i < |p.members|
    ensures PoolEnabled(p, CopyHandle(i)) <==> p.members[i].handles > 0
    ensures PoolEnabled(p, DropHandle(i)) <==> p.members[i].handles > 0
    ensures PoolEnabled(p, Unlock(i)) <==> p.members[i].locks > 0
    ensures PoolEnabled(p, LockWeak(i)) <==> p.members[i].useCount > 0
    ensures PoolEnabled(p, Do(i, op)) <==> Enabled(p.members[i].core, op) && (op.Create? ==> p.members[i].handles > 0)
  {
    assert CountOk(p, i);
    if Enabled(p.members[i].core, op) {
      PendingStep(p.members[i].core, op);
    }
  }

  /** Whenever the pool erases an entry, although threads may have taken temporary locks since it looked at the
      count: every handle on the session that was given out has been given back, none of its futures is pending,
      so none is in its table or with a handler, only the temporary locks taken and not released remain besides
      the pool, and exactly 61 pool ticks had found the pool the only owner since the last get_session for that
      address. */
  lemma EvictionSafety(timeout: nat, pops: seq<PoolOp>, p: State)
    requires PoolRun(Empty(timeout), pops, p) && PoolEnabled(p, Erase)
    ensures var e := p.table[p.lock.addr];
            var m := p.members[e.session];
            && Given(Empty(timeout), pops, e.session) == Times(pops, DropHandle(e.session))
            && m.handles == 0 && m.useCount == 1 + m.locks
            && m.locks + Times(pops, Unlock(e.session)) == Times(pops, LockWeak(e.session))
            && (forall n :: 0 <= n < |m.core.calls| ==> !m.core.calls[n].fut.pending)
            && (forall id :: id in m.core.table ==>
                  m.core.table[id] < |m.core.calls| && !m.core.calls[m.core.table[id]].fut.pending)
            && e.idle == 61
  {
    PoolInvRun(Empty(timeout), pops, p);
    Ledger(Empty(timeout), pops, p, p.table[p.lock.addr].session);
    var a := p.lock.addr;
    assert EntryOk(p, a);
    var i := p.table[a].session;
    assert InPool(p, i) && CountOk(p, i);
    PendingZero(p.members[i].core.calls);
    assert TableOk(p.members[i].core);
  }

  /** What unique() really tells: nobody else holds the session exactly when there is no handle, no temporary
      lock and no pending future. */
  lemma UniqueMeansNothingPending(p: State, a: Address)
    requires PoolInv(p) && a in p.table
    ensures p.table[a].session < |p.members|
    ensures var m := p.members[p.table[a].session];
            m.useCount == 1 <==>
            m.handles == 0 && m.locks == 0 && (forall n :: 0 <= n < |m.core.calls| ==> !m.core.calls[n].fut.pending)
  {
    assert EntryOk(p, a);
    var i := p.table[a].session;
    assert InPool(p, i) && CountOk(p, i);
    PendingZero(p.members[i].core.calls);
  }

  // The comment "if unique() is true, the request table is empty"

  /** With nothing pending, what is left in a table was written by expired waits and by nothing else. */
  lemma TableOfSettled(s: Session)
    requires Inv(s) && Pending(s.calls) == 0
    ensures s.table == map[] <==> forall n: nat :: InTable(s, n) ==> WaitWrites(s.calls[n].log) == 0
    ensures forall n: nat :: InTable(s, n) ==> WaitWrites(s.calls[n].log) == |s.calls[n].log| > 0
  {
    PendingZero(s.calls);
    forall n: nat | InTable(s, n)
      ensures WaitWrites(s.calls[n].log) == |s.calls[n].log| > 0
    {
      assert s.calls[n].msgid in s.table;
      assert Places(s, n) == 1 && CallOk(s.calls[n]);
    }
    assert forall id :: id in s.table ==> InTable(s, s.table[id]);
    assert s.table.Keys == {} ==> s.table == map[];
  }

  /** The comment holds of a pooled session exactly when no call still tabled was written by an expired
      timed_wait. */
  lemma UniqueMeansEmptyTableIff(p: State, a: Address)
    requires PoolInv(p) && a in p.table && p.table[a].session < |p.members|
    requires p.members[p.table[a].session].useCount == 1
    ensures var core := p.members[p.table[a].session].core;
            core.table == map[] <==> forall n: nat :: InTable(core, n) ==> WaitWrites(core.calls[n].log) == 0
  {
    UniqueMeansNothingPending(p, a);
    PendingZero(p.members[p.table[a].session].core.calls);
    TableOfSettled(p.members[p.table[a].session].core);
  }

  ghost predicate Unwaited(s: Session) {
    forall n: nat :: Waits(s, n) == 0
  }

  predicate NoExpiry(pops: seq<PoolOp>, i: nat) {
    forall k :: 0 <= k < |pops| ==> !(pops[k].Do? && pops[k].i == i && pops[k].op.ExpireWait?)
  }

  lemma UnwaitedStep(p: State, pop: PoolOp, i: nat)
    requires PoolInv(p) && PoolEnabled(p, pop) && !(pop.Do? && pop.i == i && pop.op.ExpireWait?)
    requires i < |p.members| ==> Unwaited(p.members[i].core)
    ensures i < |PoolApply(p, pop).members| ==> Unwaited(PoolApply(p, pop).members[i].core)
  {
    if pop.Do? && pop.i == i {
      forall n: nat
        ensures Waits(Apply(p.members[i].core, pop.op), n) == 0
      {
        WaitsStep(p.members[i].core, pop.op, n);
      }
    } else if i < |PoolApply(p, pop).members| {
      assert i < |p.members| ==> PoolApply(p, pop).members[i].core == p.members[i].core;
      assert Unwaited(Init(p.timeout));
    }
  }

  lemma {:induction false} UnwaitedRun(p: State, pops: seq<PoolOp>, p': State, i: nat)
    requires PoolInv(p) && PoolRun(p, pops, p') && NoExpiry(pops, i)
    requires i < |p.members| ==> Unwaited(p.members[i].core)
    ensures i < |p'.members| ==> Unwaited(p'.members[i].core)
    decreases |pops|
  {
    if pops != [] {
      PoolStep(p, pops[0]);
      UnwaitedStep(p, pops[0], i);
      UnwaitedRun(PoolApply(p, pops[0]), pops[1..], p', i);
    }
  }

  /** So it holds of every session on whose calls no timed_wait has ever expired. */
  lemma UniqueMeansEmptyTableWithoutExpiry(timeout: nat, pops: seq<PoolOp>, p: State, a: Address)
    requires PoolRun(Empty(timeout), pops, p) && a in p.table && p.table[a].session < |p.members|
    requires p.members[p.table[a].session].useCount == 1 && NoExpiry(pops, p.table[a].session)
    ensures p.members[p.table[a].session].core.table == map[]
  {
    var i := p.table[a].session;
    PoolInvRun(Empty(timeout), pops, p);
    UnwaitedRun(Empty(timeout), pops, p, i);
    UniqueMeansEmptyTableIff(p, a);
    var core := p.members[i].core;
    forall n: nat | InTable(core, n)
      ensures WaitWrites(core.calls[n].log) == 0
    {
      assert Waits(core, n) == 0;
    }
  }

  lemma {:induction false} PoolRunAppend(p: State, pops: seq<PoolOp>, mid: State, pop: PoolOp)
    requires PoolRun(p, pops, mid) && PoolEnabled(mid, pop)
    ensures PoolRun(p, pops + [pop], PoolApply(mid, pop))
    decreases |pops|
  {
    if pops == [] {
      assert PoolRun(PoolApply(mid, pop), [], PoolApply(mid, pop));
      assert (pops + [pop])[1..] == [];
    } else {
      assert (pops + [pop])[1..] == pops[1..] + [pop];
      PoolRunAppend(PoolApply(p, pops[0]), pops[1..], mid, pop);
    }
  }

  /** A fresh session with one handle and one id taken. */
  lemma OneId() returns (pops: seq<PoolOp>, p: State)
    ensures PoolRun(Empty(30), pops, p) && |p.members| == 1 && InPool(p, 0)
    ensures var m := p.members[0];
            m.handles == 1 && m.useCount == 2 && m.core == Apply(Init(30), Allocate(Nil, Nil))
  {
    var p0 := Empty(30);
    assert PoolRun(p0, [], p0);
    var p1 := PoolApply(p0, GetSession(0));
    PoolRunAppend(p0, [], p0, GetSession(0));
    p := PoolApply(p1, Do(0, Allocate(Nil, Nil)));
    PoolRunAppend(p0, [] + [GetSession(0)], p1, Do(0, Allocate(Nil, Nil)));
    pops := [] + [GetSession(0)] + [Do(0, Allocate(Nil, Nil))];
  }

  /** A call by that handle, up to its insertion. */
  lemma OneCall() returns (pops: seq<PoolOp>, p: State)
    ensures PoolRun(Empty(30), pops, p) && |p.members| == 1 && InPool(p, 0)
    ensures var m := p.members[0];
            m.handles == 1 && m.useCount == 3 && m.core.handlers == [] && m.core.waiters == []
            && m.core.table == map[1 := 0] && |m.core.calls| == 1
            && m.core.calls[0].stage == Registered && m.core.calls[0].fut.pending
  {
    var pops2, p2 := OneId();
    var p3 := PoolApply(p2, Do(0, Create(0)));
    PoolRunAppend(Empty(30), pops2, p2, Do(0, Create(0)));
    p := PoolApply(p3, Do(0, Insert(0)));
    PoolRunAppend(Empty(30), pops2 + [Do(0, Create(0))], p3, Do(0, Insert(0)));
    pops := pops2 + [Do(0, Create(0))] + [Do(0, Insert(0))];
  }

  /** It does not tell that the request table is empty: an expired timed_wait leaves its call tabled. */
  lemma UniqueDoesNotMeanEmptyTable() returns (pops: seq<PoolOp>, p: State)
    ensures PoolRun(Empty(30), pops, p)
    ensures |p.members| == 1 && p.members[0].useCount == 1 && InPool(p, 0)
    ensures p.members[0].core.table != map[]
  {
    var pops0, p0 := OneCall();
    var p1 := PoolApply(p0, Do(0, ExpireWait(0)));
    PoolRunAppend(Empty(30), pops0, p0, Do(0, ExpireWait(0)));
    var p2 := PoolApply(p1, Do(0, SettleWait(0)));
    PoolRunAppend(Empty(30), pops0 + [Do(0, ExpireWait(0))], p1, Do(0, SettleWait(0)));
    p := PoolApply(p2, DropHandle(0));
    PoolRunAppend(Empty(30), pops0 + [Do(0, ExpireWait(0))] + [Do(0, SettleWait(0))], p2, DropHandle(0));
    pops := pops0 + [Do(0, ExpireWait(0))] + [Do(0, SettleWait(0))] + [DropHandle(0)];
    assert 1 in p.members[0].core.table;
  }
}
