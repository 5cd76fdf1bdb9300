/** The session pool as an object, each method proved against the pool's steps (session_pool.cc). */
module PoolObjects {
  import opened Protocol
  import opened Pool
  import opened Client

  datatype PoolEntry = PoolEntry(session: SessionImpl, ttl: nat)

  type Table = map<Address, PoolEntry>

  /** The table of the object is the table of p; member i of p is the object impls[i]. */
  ghost predicate SameTable(t: Table, impls: seq<SessionImpl>, p: State) {
    && |impls| == |p.members| && t.Keys == p.table.Keys
    && forall a :: a in t ==>
         p.table[a].session < |impls| && t[a].session == impls[p.table[a].session] && t[a].ttl == p.table[a].ttl
  }

  /** Between two calls nobody holds the pool's lock. */
  ghost predicate Represents(t: Table, impls: seq<SessionImpl>, p: State) {
    PoolInv(p) && p.lock.Free? && SameTable(t, impls, p)
  }

  /** What use_count reads for each entry. */
  ghost predicate Counted(p: State, addrs: set<Address>, useCount: Address -> nat) {
    forall a :: a in addrs ==>
      a in p.table && p.table[a].session < |p.members| && p.members[p.table[a].session].useCount == useCount(a)
  }

  predicate OfATick(pop: PoolOp) {
    pop.TickBegin? || pop.Visit? || pop.Erase? || pop.TickEnd?
  }

  /** p has been reached from p0 by steps of a tick alone. */
  ghost predicate ByTicking(p0: State, pops: seq<PoolOp>, p: State) {
    PoolRun(p0, pops, p) && PoolInv(p) && forall k :: 0 <= k < |pops| ==> OfATick(pops[k])
  }

  lemma TickedOn(p0: State, pops: seq<PoolOp>, p: State, pop: PoolOp)
    requires ByTicking(p0, pops, p) && PoolEnabled(p, pop) && OfATick(pop)
    ensures ByTicking(p0, pops + [pop], PoolApply(p, pop))
  {
    PoolStep(p, pop);
    PoolRunAppend(p0, pops, p, pop);
  }

  /** A tick under way, with `todo` still to visit. */
  ghost predicate TickUnderWay(p0: State, pops: seq<PoolOp>, p: State, todo: set<Address>) {
    ByTicking(p0, pops, p) && p.lock == Ticking(todo)
  }

  /** p' is p after the entry at `a` has been visited, and erased if its time was up. */
  ghost predicate Visited(p: State, p': State, a: Address)
    requires a in p.table && p.table[a].session < |p.members|
  {
    var left := AfterVisit(p.table[a].ttl, p.members[p.table[a].session].useCount == 1);
    && |p'.members| == |p.members|
    && p'.table.Keys == (if left == None then p.table.Keys - {a} else p.table.Keys)
    && (forall b :: b in p'.table ==> p'.table[b].session == p.table[b].session)
    && (forall b :: b in p'.table ==> p'.table[b].ttl == if b == a then left.value else p.table[b].ttl)
    && (forall b :: b in p'.table && b != a && p.table[b].session < |p.members| ==>
          p'.members[p.table[b].session].useCount == p.members[p.table[b].session].useCount)
  }

  lemma EntryIn(p: State, a: Address)
    requires PoolInv(p) && a in p.table
    ensures p.table[a].session < |p.members|
    ensures forall b :: b in p.table && b != a ==> p.table[b].session != p.table[a].session
  {
    assert EntryOk(p, a);
    forall b | b in p.table && b != a
      ensures p.table[b].session != p.table[a].session
    {
      assert EntryOk(p, b);
    }
  }

  lemma EraseEnabled(p: State)
    requires PoolInv(p) && p.lock.Erasing?
    ensures PoolEnabled(p, Erase)
  {
    assert EntryOk(p, p.lock.addr);
    var i := p.table[p.lock.addr].session;
    assert InPool(p, i) && CountOk(p, i);
  }

  lemma VisitEffect(p: State, a: Address)
    requires PoolEnabled(p, Visit(a)) && AfterVisit(p.table[a].ttl, p.members[p.table[a].session].useCount == 1).Some?
    ensures Visited(p, PoolApply(p, Visit(a)), a)
  {}

  lemma EraseEffect(p: State, mid: State, a: Address)
    requires PoolEnabled(p, Visit(a)) && mid == PoolApply(p, Visit(a)) && mid.lock.Erasing? && PoolEnabled(mid, Erase)
    requires forall b :: b in p.table && b != a ==> p.table[b].session != p.table[a].session
    ensures Visited(p, PoolApply(mid, Erase), a)
  {
    assert mid.lock.addr == a && mid.table[a].session == p.table[a].session;
  }

  /** One visit, with the erasure it may lead to. */
  lemma VisitOne(p0: State, pops: seq<PoolOp>, p: State, todo: set<Address>, a: Address)
    returns (pops': seq<PoolOp>, p': State)
    requires TickUnderWay(p0, pops, p, todo) && a in todo
    ensures TickUnderWay(p0, pops', p', todo - {a})
    ensures a in p.table && p.table[a].session < |p.members| && Visited(p, p', a)
  {
    VisitEnabled(p, a);
    TickedOn(p0, pops, p, Visit(a));
    var mid := PoolApply(p, Visit(a));
    pops', p' := pops + [Visit(a)], mid;
    if mid.lock.Erasing? {
      EraseEnabled(mid);
      EraseEffect(p, mid, a);
      TickedOn(p0, pops', mid, Erase);
      pops', p' := pops' + [Erase], PoolApply(mid, Erase);
    } else {
      VisitEffect(p, a);
    }
  }

  lemma VisitEnabled(p: State, a: Address)
    requires PoolInv(p) && p.lock.Ticking? && a in p.lock.todo
    ensures PoolEnabled(p, Visit(a))
    ensures forall b :: b in p.table && b != a ==> p.table[b].session != p.table[a].session
  {
    EntryIn(p, a);
  }

  /** What a visit makes of the table. */
  function AfterVisiting(t: Table, a: Address, unique: bool): Table
    requires a in t
  {
    var left := AfterVisit(t[a].ttl, unique);
    if left == None then t - {a} else t[a := t[a].(ttl := left.value)]
  }

  lemma VisitKeepsTable(t: Table, impls: seq<SessionImpl>, p: State, p': State, todo: set<Address>, a: Address,
                        useCount: Address -> nat)
    requires SameTable(t, impls, p) && Counted(p, todo, useCount) && a in todo && todo <= t.Keys && Visited(p, p', a)
    ensures SameTable(AfterVisiting(t, a, useCount(a) == 1), impls, p')
    ensures todo - {a} <= p'.table.Keys ==> Counted(p', todo - {a}, useCount)
  {
    var t' := AfterVisiting(t, a, useCount(a) == 1);
    assert t'.Keys == p'.table.Keys;
    assert forall b :: b in t' ==> t'[b].session == t[b].session;
  }

  /** What a tick has made of t when `todo` is still to visit. */
  function TickTable(t: Table, todo: set<Address>, useCount: Address -> nat): Table {
    map a | a in t && (a in todo || AfterVisit(t[a].ttl, useCount(a) == 1).Some?) ::
      if a in todo then t[a] else t[a].(ttl := AfterVisit(t[a].ttl, useCount(a) == 1).value)
  }

  lemma TickTableStart(t: Table, useCount: Address -> nat)
    ensures TickTable(t, t.Keys, useCount) == t
  {}

  lemma TickTableNext(t: Table, todo: set<Address>, useCount: Address -> nat, a: Address)
    requires a in todo && a in t
    ensures a in TickTable(t, todo, useCount)
    ensures AfterVisiting(TickTable(t, todo, useCount), a, useCount(a) == 1) == TickTable(t, todo - {a}, useCount)
  {}

  /** The table after a get_session. */
  lemma GetKeepsTable(t: Table, impls: seq<SessionImpl>, p: State, a: Address, s: SessionImpl)
    requires Represents(t, impls, p) && (a in t ==> s == t[a].session)
    ensures PoolEnabled(p, GetSession(a))
    ensures Represents(t[a := PoolEntry(s, SESSION_POOL_TIME_LIMIT)], if a in t then impls else impls + [s],
                       PoolApply(p, GetSession(a)))
  {
    PoolStep(p, GetSession(a));
    GetTable(t, impls, p, a, s);
  }

  lemma GetTable(t: Table, impls: seq<SessionImpl>, p: State, a: Address, s: SessionImpl)
    requires PoolEnabled(p, GetSession(a)) && SameTable(t, impls, p) && (a in t ==> s == t[a].session)
    ensures SameTable(t[a := PoolEntry(s, SESSION_POOL_TIME_LIMIT)], if a in t then impls else impls + [s],
                      PoolApply(p, GetSession(a)))
    ensures PoolApply(p, GetSession(a)).lock.Free?
  {}

  class SessionPoolImpl {
    var m_table: Table
    var m_timeout: nat

    constructor (timeout: nat)
      ensures m_table == map[] && m_timeout == timeout
      ensures Represents(m_table, [], Empty(timeout))
    {
      m_table, m_timeout := map[], timeout;
    }

    /** The cached session for an address, its time to live renewed, or a new session with the builder's timeout:
        one get_session step of the pool. */
    method GetSession(addr: Address, ghost impls: seq<SessionImpl>, ghost p: State) returns (s: SessionImpl)
      requires Represents(m_table, impls, p) && p.timeout == m_timeout
      modifies this`m_table
      ensures m_table == old(m_table)[addr := PoolEntry(s, SESSION_POOL_TIME_LIMIT)]
      ensures addr in old(m_table) ==> s == old(m_table)[addr].session
      ensures addr !in old(m_table) ==> fresh(s) && s.Valid() && s.m_timeout == m_timeout && s.impls == []
      ensures PoolEnabled(p, PoolOp.GetSession(addr))
      ensures MemberFor(p, addr) < |impls + [s]| && (impls + [s])[MemberFor(p, addr)] == s
      ensures Represents(m_table, if addr in old(m_table) then impls else impls + [s],
                         PoolApply(p, PoolOp.GetSession(addr)))
    {
      if addr in m_table {
        s := m_table[addr].session;
        GetKeepsTable(m_table, impls, p, addr, s);
        m_table := m_table[addr := PoolEntry(s, SESSION_POOL_TIME_LIMIT)];
        return;
      }
      s := new SessionImpl(m_timeout);
      GetKeepsTable(m_table, impls, p, addr, s);
      m_table := m_table[addr := PoolEntry(s, SESSION_POOL_TIME_LIMIT)];
    }

    /** The timeout of the sessions made from now on: one set_timeout step of the pool. */
    method SetTimeout(sec: nat, ghost impls: seq<SessionImpl>, ghost p: State)
      requires Represents(m_table, impls, p)
      modifies this`m_timeout
      ensures m_timeout == sec == PoolApply(p, SetPoolTimeout(sec)).timeout
      ensures Represents(m_table, impls, PoolApply(p, SetPoolTimeout(sec)))
    {
      PoolStep(p, SetPoolTimeout(sec));
      m_timeout := sec;
    }

    /** One pool tick; `useCount` is what shared_ptr::use_count reads for each entry when it is looked at. It is
        a run of the pool's tick steps: begin, one visit an entry, erasures, end. */
    method StepTimerHandler(useCount: Address -> nat, ghost impls: seq<SessionImpl>, ghost p: State)
      returns (ghost pops: seq<PoolOp>, ghost p': State)
      requires Represents(m_table, impls, p) && Counted(p, m_table.Keys, useCount)
      modifies this`m_table
      ensures m_table == map a | a in old(m_table) && AfterVisit(old(m_table)[a].ttl, useCount(a) == 1).Some? ::
                old(m_table)[a].(ttl := AfterVisit(old(m_table)[a].ttl, useCount(a) == 1).value)
      ensures ByTicking(p, pops, p') && Represents(m_table, impls, p')
    {
      ghost var before := m_table;
      var todo := m_table.Keys;
      pops, p' := TickStarts(m_table, impls, p, useCount);
      while todo != {}
        invariant TickState(before, m_table, impls, p, pops, p', todo, useCount)
        decreases todo
      {
        var it :| it in todo;
        pops, p' := TickRound(before, m_table, impls, p, pops, p', todo, useCount, it);
        StepEntry(it, useCount(it) == 1);
        todo := todo - {it};
      }
      pops, p' := TickFinishes(before, m_table, impls, p, pops, p', useCount);
    }

    /** One round of that loop: an entry the pool alone holds is erased when its time is up, or counts down. */
    method StepEntry(it: Address, unique: bool)
      requires it in m_table
      modifies this`m_table
      ensures m_table == AfterVisiting(old(m_table), it, unique)
    {
      var e := m_table[it];
      if unique {
        if e.ttl <= 0 {
          m_table := m_table - {it};
          return;
        }
        m_table := m_table[it := e.(ttl := e.ttl - 1)];
      } else {
        assert m_table == m_table[it := e];
      }
    }
  }

  /** The loop of a tick that began on the table `before` in state p0, with `todo` still to visit. */
  ghost predicate TickState(before: Table, t: Table, impls: seq<SessionImpl>, p0: State, pops: seq<PoolOp>, p: State,
                            todo: set<Address>, useCount: Address -> nat) {
    && todo <= before.Keys && t == TickTable(before, todo, useCount)
    && TickUnderWay(p0, pops, p, todo) && SameTable(t, impls, p) && Counted(p, todo, useCount)
  }

  lemma TickStarts(t: Table, impls: seq<SessionImpl>, p0: State, useCount: Address -> nat)
    returns (pops: seq<PoolOp>, p: State)
    requires Represents(t, impls, p0) && Counted(p0, t.Keys, useCount)
    ensures TickState(t, t, impls, p0, pops, p, t.Keys, useCount)
  {
    pops, p := Begin(p0);
    TickTableStart(t, useCount);
  }

  lemma TickRound(before: Table, t: Table, impls: seq<SessionImpl>, p0: State, pops: seq<PoolOp>, p: State,
                  todo: set<Address>, useCount: Address -> nat, a: Address)
    returns (pops': seq<PoolOp>, p': State)
    requires TickState(before, t, impls, p0, pops, p, todo, useCount) && a in todo
    ensures a in t
    ensures TickState(before, AfterVisiting(t, a, useCount(a) == 1), impls, p0, pops', p', todo - {a}, useCount)
  {
    pops', p' := VisitOne(p0, pops, p, todo, a);
    TickTableNext(before, todo, useCount, a);
    assert todo <= t.Keys;
    VisitKeepsTable(t, impls, p, p', todo, a, useCount);
    assert todo - {a} <= p'.table.Keys;
  }

  lemma TickFinishes(before: Table, t: Table, impls: seq<SessionImpl>, p0: State, pops: seq<PoolOp>, p: State,
                     useCount: Address -> nat)
    returns (pops': seq<PoolOp>, p': State)
    requires TickState(before, t, impls, p0, pops, p, {}, useCount)
    ensures ByTicking(p0, pops', p') && Represents(t, impls, p')
    ensures t == map a | a in before && AfterVisit(before[a].ttl, useCount(a) == 1).Some? ::
                   before[a].(ttl := AfterVisit(before[a].ttl, useCount(a) == 1).value)
  {
    pops', p' := End(p0, pops, p);
  }

  lemma Begin(p: State) returns (pops: seq<PoolOp>, p': State)
    requires PoolInv(p) && p.lock.Free?
    ensures TickUnderWay(p, pops, p', p.table.Keys) && p' == p.(lock := Ticking(p.table.Keys))
  {
    assert PoolRun(p, [], p);
    TickedOn(p, [], p, TickBegin);
    pops, p' := [] + [TickBegin], PoolApply(p, TickBegin);
  }

  lemma End(p0: State, pops: seq<PoolOp>, p: State) returns (pops': seq<PoolOp>, p': State)
    requires TickUnderWay(p0, pops, p, {})
    ensures ByTicking(p0, pops', p') && p' == p.(lock := Free)
  {
    TickedOn(p0, pops, p, TickEnd);
    pops', p' := pops + [TickEnd], PoolApply(p, TickEnd);
  }
}
