/** Bounded reclamation: a session nobody uses any more settles its calls and leaves the pool in time
    (session_pool.cc, session_impl::step_timer_handler). */
module Reclamation {
  import opened Protocol
  import opened Futures
  import opened Engine
  import opened EngineInvariants
  import opened EngineTheorems
  import opened Pool

  // The session's own ticks empty its table

  predicate NoInserts(ops: seq<Op>) {
    forall k :: 0 <= k < |ops| ==> !ops[k].Insert?
  }

  lemma NoNewcomerStep(s: Session, op: Op, n: nat)
    requires Inv(s) && Enabled(s, op) && !op.Insert?
    ensures Live(Apply(s, op), n) ==> Live(s, n)
    ensures Apply(s, op).displaced == s.displaced
  {
    if n < |s.calls| {
      CallEvolves(s, op, n);
    }
  }

  lemma {:induction false} NoNewcomers(s: Session, ops: seq<Op>, s': Session, n: nat)
    requires Inv(s) && Run(s, ops, s') && NoInserts(ops)
    ensures Live(s', n) ==> Live(s, n)
    ensures s'.displaced == s.displaced
    decreases |ops|
  {
    if ops != [] {
      InvStep(s, ops[0]);
      NoNewcomerStep(s, ops[0], n);
      NoNewcomers(Apply(s, ops[0]), ops[1..], s', n);
    }
  }

  /** Without new registrations, more ticks than the longest remaining count leave the table empty. */
  lemma TicksEmptyTheTable(s: Session, ops: seq<Op>, s': Session, longest: nat)
    requires Inv(s) && Run(s, ops, s') && NoInserts(ops)
    requires forall n: nat :: InTable(s, n) ==> s.calls[n].fut.timeout <= longest
    requires Ticks(ops) > longest
    ensures s'.table == map[]
  {
    InvRun(s, ops, s');
    forall id | id in s'.table
      ensures false
    {
      var n := s'.table[id];
      assert InTable(s', n);
      NoNewcomers(s, ops, s', n);
      if InTable(s, n) {
        CountsEveryTick(s, ops, s', n);
      } else {
        StaysOut(s, ops, s', n);
      }
    }
    assert s'.table.Keys == {};
  }

  predicate Drained(s: Session) {
    forall h :: 0 <= h < |s.handlers| ==> s.handlers[h].owned == []
  }

  lemma {:induction false} DrainedOwnsNothing(hs: seq<Handler>, n: nat)
    requires forall h :: 0 <= h < |hs| ==> hs[h].owned == []
    ensures Owned(hs, n) == 0
  {
    if hs != [] {
      DrainedOwnsNothing(hs[..|hs| - 1], n);
    }
  }

  predicate NoneUnderConstruction(s: Session) {
    forall n :: 0 <= n < |s.calls| ==> s.calls[n].stage != Created
  }

  /** With an empty table and idle handlers every registered future has been settled. */
  lemma NothingPendingWhenDrained(s: Session)
    requires Inv(s) && s.table == map[] && Drained(s) && s.displaced == {} && NoneUnderConstruction(s)
    ensures Pending(s.calls) == 0
  {
    forall n | 0 <= n < |s.calls|
      ensures !s.calls[n].fut.pending
    {
      assert CallOk(s.calls[n]);
      DrainedOwnsNothing(s.handlers, n);
      assert Places(s, n) == if Live(s, n) then 1 else 0;
    }
    PendingZero(s.calls);
  }

  // A pooled session without handles

  function CoreOps(pops: seq<PoolOp>, i: nat): seq<Op> {
    if pops == [] then []
    else (if pops[0].Do? && pops[0].i == i then [pops[0].op] else []) + CoreOps(pops[1..], i)
  }

  /** Nobody holds the session and no call is between construction and registration. */
  ghost predicate Abandoned(p: State, i: nat) {
    i < |p.members| && p.members[i].handles == 0 && NoneUnderConstruction(p.members[i].core)
  }

  predicate NotAsked(pops: seq<PoolOp>, a: Address) {
    GetSession(a) !in pops
  }

  lemma AbandonedStep(p: State, pop: PoolOp, i: nat)
    requires PoolInv(p) && PoolEnabled(p, pop) && Abandoned(p, i) && pop != GetSession(p.members[i].addr)
    ensures var p' := PoolApply(p, pop);
            && Abandoned(p', i) && p'.members[i].addr == p.members[i].addr
            && (if pop.Do? && pop.i == i then p'.members[i].core == Apply(p.members[i].core, pop.op) && !pop.op.Insert?
                else p'.members[i].core == p.members[i].core)
  {
    match pop {
      case GetSession(b) => AbandonedGet(p, b, i);
      case Do(j, op) =>
        if j == i {
          CreatesNothing(p.members[i].core, op);
        }
      case _ => AbandonedOther(p, pop, i);
    }
  }

  lemma AbandonedGet(p: State, b: Address, i: nat)
    requires PoolInv(p) && PoolEnabled(p, GetSession(b)) && Abandoned(p, i) && b != p.members[i].addr
    ensures var p' := PoolApply(p, GetSession(b));
            i < |p'.members| && p'.members[i] == p.members[i]
  {
    if b in p.table {
      assert EntryOk(p, b);
    }
  }

  lemma AbandonedOther(p: State, pop: PoolOp, i: nat)
    requires PoolInv(p) && PoolEnabled(p, pop) && Abandoned(p, i) && !pop.GetSession? && !pop.Do?
    ensures var p' := PoolApply(p, pop);
            Abandoned(p', i) && p'.members[i].addr == p.members[i].addr && p'.members[i].core == p.members[i].core
  {}

  /** A step that constructs no future registers none either, when none is waiting to be. */
  lemma CreatesNothing(s: Session, op: Op)
    requires Inv(s) && Enabled(s, op) && NoneUnderConstruction(s)
    ensures !op.Insert? && (!op.Create? ==> NoneUnderConstruction(Apply(s, op)))
  {
    if !op.Create? {
      var s' := Apply(s, op);
      forall n | 0 <= n < |s'.calls|
        ensures s'.calls[n].stage != Created
      {
        if n < |s.calls| {
          StageKept(s, op, n);
        }
      }
    }
  }

  lemma StageKept(s: Session, op: Op, n: nat)
    requires Inv(s) && Enabled(s, op) && n < |s.calls| && !op.Create?
    ensures |s.calls| <= |Apply(s, op).calls|
    ensures Apply(s, op).calls[n].stage == Created ==> s.calls[n].stage == Created
  {}

  lemma {:induction false} AbandonedRun(p: State, pops: seq<PoolOp>, p': State, i: nat)
    requires PoolInv(p) && PoolRun(p, pops, p') && Abandoned(p, i) && NotAsked(pops, p.members[i].addr)
    ensures Abandoned(p', i) && p'.members[i].addr == p.members[i].addr && PoolInv(p')
    ensures Run(p.members[i].core, CoreOps(pops, i), p'.members[i].core) && NoInserts(CoreOps(pops, i))
    decreases |pops|
  {
    if pops != [] {
      AbandonedStep(p, pops[0], i);
      PoolStep(p, pops[0]);
      AbandonedRun(PoolApply(p, pops[0]), pops[1..], p', i);
      if pops[0].Do? && pops[0].i == i {
        var op := pops[0].op;
        var rest := CoreOps(pops[1..], i);
        assert CoreOps(pops, i) == [op] + rest && ([op] + rest)[1..] == rest;
      } else {
        assert CoreOps(pops, i) == CoreOps(pops[1..], i);
      }
    }
  }

  // The pool's ticks use up the entry

  predicate UniqueVisit(p: State, pop: PoolOp, a: Address) {
    pop == Visit(a) && a in p.table && p.table[a].session < |p.members| && p.members[p.table[a].session].useCount == 1
  }

  predicate QuietVisit(p: State, pop: PoolOp, a: Address) {
    pop == Visit(a) && a in p.table && p.table[a].session < |p.members| && p.members[p.table[a].session].locks == 0
  }

  /** The visits of the entry at `a` that found the pool the only owner of its session. */
  ghost function UniqueVisits(p: State, pops: seq<PoolOp>, a: Address): nat
    decreases |pops|
  {
    if pops == [] || !PoolEnabled(p, pops[0]) then 0
    else (if UniqueVisit(p, pops[0], a) then 1 else 0) + UniqueVisits(PoolApply(p, pops[0]), pops[1..], a)
  }

  lemma IdleStep(p: State, pop: PoolOp, a: Address)
    requires PoolInv(p) && PoolEnabled(p, pop) && pop != GetSession(a) && a in PoolApply(p, pop).table
    ensures a in p.table
    ensures var e, e' := p.table[a], PoolApply(p, pop).table[a];
            e'.session == e.session && e'.idle == e.idle + if UniqueVisit(p, pop, a) then 1 else 0
  {}

  /** An entry nobody asks for is never put back, and every visit that finds it unique, and no other, uses up
      one unit of its budget, whatever happens in between. */
  lemma {:induction false} IdleBudget(p: State, pops: seq<PoolOp>, p': State, a: Address)
    requires PoolInv(p) && PoolRun(p, pops, p') && NotAsked(pops, a) && a in p'.table
    ensures a in p.table && p'.table[a].session == p.table[a].session
    ensures p'.table[a].idle == p.table[a].idle + UniqueVisits(p, pops, a)
    decreases |pops|
  {
    if pops != [] {
      PoolStep(p, pops[0]);
      IdleBudget(PoolApply(p, pops[0]), pops[1..], p', a);
      IdleStep(p, pops[0], a);
    }
  }

  /** The visits of the entry at `a` made while no temporary lock on its session was held. */
  ghost function QuietVisits(p: State, pops: seq<PoolOp>, a: Address): nat
    decreases |pops|
  {
    if pops == [] || !PoolEnabled(p, pops[0]) then 0
    else (if QuietVisit(p, pops[0], a) then 1 else 0) + QuietVisits(PoolApply(p, pops[0]), pops[1..], a)
  }

  lemma QuietStep(p: State, pop: PoolOp, i: nat)
    requires PoolInv(p) && PoolEnabled(p, pop) && Abandoned(p, i) && pop != GetSession(p.members[i].addr)
    requires Pending(p.members[i].core.calls) == 0
    ensures i < |PoolApply(p, pop).members| && Pending(PoolApply(p, pop).members[i].core.calls) == 0
  {
    AbandonedStep(p, pop, i);
    if pop.Do? && pop.i == i {
      PendingStep(p.members[i].core, pop.op);
    }
  }

  lemma QuietIsUnique(p: State, pop: PoolOp, a: Address, i: nat)
    requires PoolInv(p) && Abandoned(p, i) && p.members[i].addr == a && Pending(p.members[i].core.calls) == 0
    requires a in p.table && p.table[a].session == i
    ensures UniqueVisit(p, pop, a) <==> QuietVisit(p, pop, a)
  {
    assert InPool(p, i) && CountOk(p, i);
  }

  /** Session i, pooled at `a`, with nothing held and nothing pending. */
  ghost predicate Quiet(p: State, a: Address, i: nat) {
    && PoolInv(p) && Abandoned(p, i) && p.members[i].addr == a && Pending(p.members[i].core.calls) == 0
    && (a in p.table ==> p.table[a].session == i)
  }

  lemma StaysQuiet(p: State, pop: PoolOp, a: Address, i: nat)
    requires Quiet(p, a, i) && PoolEnabled(p, pop) && pop != GetSession(a)
    ensures Quiet(PoolApply(p, pop), a, i)
  {
    PoolStep(p, pop);
    AbandonedStep(p, pop, i);
    QuietStep(p, pop, i);
    if a in PoolApply(p, pop).table {
      IdleStep(p, pop, a);
    }
  }

  /** Once nothing is held and nothing is pending, a visit finds the session unique unless it is locked. */
  lemma {:induction false} QuietVisitsCount(p: State, pops: seq<PoolOp>, p': State, a: Address, i: nat)
    requires Quiet(p, a, i) && PoolRun(p, pops, p') && NotAsked(pops, a) && a in p'.table
    ensures UniqueVisits(p, pops, a) == QuietVisits(p, pops, a)
    decreases |pops|
  {
    if pops != [] {
      StaysQuiet(p, pops[0], a, i);
      QuietVisitsCount(PoolApply(p, pops[0]), pops[1..], p', a, i);
      if a in p.table {
        QuietIsUnique(p, pops[0], a, i);
      }
    }
  }

  // Pool ticks

  function Visits(pops: seq<PoolOp>, a: Address): nat {
    if pops == [] then 0 else (if pops[0] == Visit(a) then 1 else 0) + Visits(pops[1..], a)
  }

  /** The pool ticks a run completes. */
  function TickEnds(pops: seq<PoolOp>): nat {
    if pops == [] then 0 else (if pops[0].TickEnd? then 1 else 0) + TickEnds(pops[1..])
  }

  /** Whether the tick in progress has already been at `a`. */
  function Credit(p: State, a: Address): nat {
    if p.lock.Free? || a in p.lock.todo then 0 else 1
  }

  lemma CreditStep(p: State, pop: PoolOp, a: Address)
    requires PoolInv(p) && PoolEnabled(p, pop) && a in p.table && a in PoolApply(p, pop).table
    ensures (if pop == Visit(a) then 1 else 0) + Credit(p, a)
            == (if pop.TickEnd? then 1 else 0) + Credit(PoolApply(p, pop), a)
  {}

  /** Every completed pool tick visits every surviving entry exactly once. */
  lemma {:induction false} EachTickVisitsOnce(p: State, pops: seq<PoolOp>, p': State, a: Address)
    requires PoolInv(p) && PoolRun(p, pops, p') && NotAsked(pops, a) && a in p'.table
    ensures Visits(pops, a) + Credit(p, a) == TickEnds(pops) + Credit(p', a)
    decreases |pops|
  {
    if pops != [] {
      var mid := PoolApply(p, pops[0]);
      PoolStep(p, pops[0]);
      IdleBudget(mid, pops[1..], p', a);
      IdleStep(p, pops[0], a);
      CreditStep(p, pops[0], a);
      EachTickVisitsOnce(mid, pops[1..], p', a);
    }
  }

  /** The visits of the entry at `a` that found a temporary lock on its session. */
  ghost function LockedVisits(p: State, pops: seq<PoolOp>, a: Address): nat
    decreases |pops|
  {
    if pops == [] || !PoolEnabled(p, pops[0]) then 0
    else
      (if pops[0] == Visit(a) && !QuietVisit(p, pops[0], a) then 1 else 0)
      + LockedVisits(PoolApply(p, pops[0]), pops[1..], a)
  }

  lemma {:induction false} VisitsByKind(p: State, pops: seq<PoolOp>, p': State, a: Address)
    requires PoolRun(p, pops, p')
    ensures QuietVisits(p, pops, a) + LockedVisits(p, pops, a) == Visits(pops, a)
    ensures UniqueVisits(p, pops, a) <= Visits(pops, a)
    decreases |pops|
  {
    if pops != [] {
      VisitsByKind(PoolApply(p, pops[0]), pops[1..], p', a);
    }
  }

  /** More quiet visits than the budget allows leave no entry behind. */
  lemma QuietTicksErase(q: State, after: seq<PoolOp>, r: State, a: Address, i: nat)
    requires Quiet(q, a, i) && a in q.table && PoolRun(q, after, r) && NotAsked(after, a)
    ensures TickEnds(after) > 60 + LockedVisits(q, after, a) + Credit(q, a) ==> a !in r.table
  {
    if a in r.table {
      IdleBudget(q, after, r, a);
      QuietVisitsCount(q, after, r, a, i);
      VisitsByKind(q, after, r, a);
      EachTickVisitsOnce(q, after, r, a);
      PoolInvRun(q, after, r);
      assert EntryOk(r, a);
    }
  }

  /** After more ticks of its own than its longest remaining count, once its handlers are done, an abandoned
      session is quiet. */
  lemma BecomesQuiet(p: State, before: seq<PoolOp>, q: State, a: Address, longest: nat)
    requires PoolInv(p) && a in p.table && PoolRun(p, before, q) && NotAsked(before, a)
    requires var i := p.table[a].session;
             && Abandoned(p, i) && p.members[i].core.displaced == {}
             && (forall n: nat :: InTable(p.members[i].core, n) ==> p.members[i].core.calls[n].fut.timeout <= longest)
             && Ticks(CoreOps(before, i)) > longest
             && i < |q.members| && Drained(q.members[i].core)
    ensures Quiet(q, a, p.table[a].session)
  {
    var i := p.table[a].session;
    assert EntryOk(p, a);
    AbandonedRun(p, before, q, i);
    TicksEmptyTheTable(p.members[i].core, CoreOps(before, i), q.members[i].core, longest);
    NoNewcomers(p.members[i].core, CoreOps(before, i), q.members[i].core, 0);
    NothingPendingWhenDrained(q.members[i].core);
    if a in q.table {
      IdleBudget(p, before, q, a);
    }
  }

  /** Take a pooled session nobody holds and nobody asks for, whose longest remaining timeout is `longest`.
      After more than `longest` of its own ticks, once its handlers are done, all its futures are settled; from
      then on 61 completed pool ticks remove its entry, plus one for each tick that met a temporary lock on it
      and for a tick in progress that had passed it already. */
  lemma BoundedReclamation(p: State, before: seq<PoolOp>, q: State, after: seq<PoolOp>, r: State,
                           a: Address, longest: nat)
    requires PoolInv(p) && a in p.table
    requires PoolRun(p, before, q) && PoolRun(q, after, r) && NotAsked(before, a) && NotAsked(after, a)
    requires var i := p.table[a].session;
             && Abandoned(p, i) && p.members[i].core.displaced == {}
             && (forall n: nat :: InTable(p.members[i].core, n) ==> p.members[i].core.calls[n].fut.timeout <= longest)
             && Ticks(CoreOps(before, i)) > longest
             && i < |q.members| && Drained(q.members[i].core)
    ensures var core := q.members[p.table[a].session].core;
            forall n :: 0 <= n < |core.calls| ==> !core.calls[n].fut.pending
    ensures TickEnds(after) > 60 + LockedVisits(q, after, a) + Credit(q, a) ==> a !in r.table
  {
    var i := p.table[a].session;
    BecomesQuiet(p, before, q, a, longest);
    PendingZero(q.members[i].core.calls);
    if a in r.table {
      IdleBudget(q, after, r, a);
      QuietTicksErase(q, after, r, a, i);
    }
  }

  /** The other direction: from get_session on, the entry is erased in the 61st pool tick at the earliest, on
      the 61st visit that finds it unique. */
  lemma NoEarlyEviction(p: State, a: Address, pops: seq<PoolOp>, r: State)
    requires PoolInv(p) && PoolEnabled(p, GetSession(a))
    requires PoolRun(PoolApply(p, GetSession(a)), pops, r) && NotAsked(pops, a)
    requires PoolEnabled(r, Erase) && r.lock.addr == a
    ensures UniqueVisits(PoolApply(p, GetSession(a)), pops, a) == 61
    ensures Visits(pops, a) == TickEnds(pops) + 1 && TickEnds(pops) >= 60
  {
    var q := PoolApply(p, GetSession(a));
    PoolStep(p, GetSession(a));
    PoolInvRun(q, pops, r);
    IdleBudget(q, pops, r, a);
    EachTickVisitsOnce(q, pops, r, a);
    VisitsByKind(q, pops, r, a);
    assert EntryOk(r, a);
  }

  lemma {:induction false} PoolRunSplit(p: State, pops: seq<PoolOp>, k: nat, p': State) returns (mid: State)
    requires PoolRun(p, pops, p') && k < |pops|
    ensures PoolRun(p, pops[..k], mid) && PoolEnabled(mid, pops[k])
    ensures PoolRun(PoolApply(mid, pops[k]), pops[k + 1..], p')
    decreases k
  {
    if k == 0 {
      mid := p;
    } else {
      mid := PoolRunSplit(PoolApply(p, pops[0]), pops[1..], k - 1, p');
      assert pops[..k][1..] == pops[1..][..k - 1];
      assert pops[1..][k..] == pops[k + 1..];
    }
  }

  lemma {:induction false} LastAsked(pops: seq<PoolOp>, a: Address) returns (k: nat)
    requires !NotAsked(pops, a)
    ensures k < |pops| && pops[k] == GetSession(a) && NotAsked(pops[k + 1..], a)
  {
    k := |pops| - 1;
    if pops[k] != GetSession(a) {
      assert pops == pops[..k] + [pops[k]];
      k := LastAsked(pops[..k], a);
      assert pops[k + 1..] == pops[..|pops| - 1][k + 1..] + [pops[|pops| - 1]];
    }
  }

  /** In every run, an entry about to be erased was last asked for so long ago that 60 pool ticks have been
      completed since and the one in progress is at least the 61st; exactly 61 of their visits found it
      unique. */
  lemma EvictionInTicks(timeout: nat, pops: seq<PoolOp>, r: State) returns (k: nat, p: State)
    requires PoolRun(Empty(timeout), pops, r) && PoolEnabled(r, Erase)
    ensures var a := r.lock.addr;
            && k < |pops| && pops[k] == GetSession(a) && NotAsked(pops[k + 1..], a)
            && PoolRun(Empty(timeout), pops[..k], p) && PoolEnabled(p, GetSession(a))
            && UniqueVisits(PoolApply(p, GetSession(a)), pops[k + 1..], a) == 61
            && Visits(pops[k + 1..], a) == TickEnds(pops[k + 1..]) + 1
            && TickEnds(pops[k + 1..]) >= 60
  {
    var a := r.lock.addr;
    if NotAsked(pops, a) {
      IdleBudget(Empty(timeout), pops, r, a);
      assert false;
    }
    k := LastAsked(pops, a);
    p := PoolRunSplit(Empty(timeout), pops, k, r);
    PoolInvRun(Empty(timeout), pops[..k], p);
    NoEarlyEviction(p, a, pops[k + 1..], r);
  }
}
