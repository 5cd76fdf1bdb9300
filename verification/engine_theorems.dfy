/** Guarantees of the call engine over whole runs, for every interleaving of its steps. */
module EngineTheorems {
  import opened Protocol
  import opened AtomicOps
  import opened Futures
  import opened Engine
  import opened EngineInvariants

  // Single ownership

  /** The timed_wait calls on call n that have expired during a run. */
  function Expired(ops: seq<Op>, n: nat): nat {
    if ops == [] then 0 else (if ops[0] == ExpireWait(n) then 1 else 0) + Expired(ops[1..], n)
  }

  /** Expired waits of call n so far: written ones and those about to write. */
  function Waits(s: Session, n: nat): nat {
    multiset(s.waiters)[n] + if n < |s.calls| then WaitWrites(s.calls[n].log) else 0
  }

  lemma RemoveWaiter(ws: seq<nat>, w: nat, n: nat)
    requires w < |ws|
    ensures multiset(ws[..w] + ws[w + 1..])[n] == multiset(ws)[n] - if ws[w] == n then 1 else 0
  {
    assert ws == ws[..w] + [ws[w]] + ws[w + 1..];
  }

  lemma WaitsOfWaiter(s: Session, w: nat, n: nat)
    requires Inv(s) && Enabled(s, SettleWait(w))
    ensures Waits(Apply(s, SettleWait(w)), n) == Waits(s, n)
  {
    var m, s' := s.waiters[w], Apply(s, SettleWait(w));
    RemoveWaiter(s.waiters, w, n);
    assert s'.waiters == s.waiters[..w] + s.waiters[w + 1..];
    if n == m {
      WritesAppend(s.calls[m].log, ByWait);
      assert s'.calls[m].log == s.calls[m].log + [ByWait];
    } else if n < |s.calls| {
      assert s'.calls[n] == s.calls[n];
    }
  }

  lemma WaitsOfHandler(s: Session, h: nat, n: nat)
    requires Inv(s) && Enabled(s, Settle(h))
    ensures Waits(Apply(s, Settle(h)), n) == Waits(s, n)
  {
    var m, cause := s.handlers[h].owned[0], s.handlers[h].cause;
    assert !cause.ByWait?;
    WritesAppend(s.calls[m].log, cause);
    assert Apply(s, Settle(h)).calls == s.calls[m := Write(s.calls[m], cause)];
  }

  lemma WaitsStep(s: Session, op: Op, n: nat)
    requires Inv(s) && Enabled(s, op)
    ensures Waits(Apply(s, op), n) == Waits(s, n) + if op == ExpireWait(n) then 1 else 0
  {
    if op.SettleWait? {
      WaitsOfWaiter(s, op.w, n);
    } else if op.Settle? {
      WaitsOfHandler(s, op.h, n);
    } else if n < |s.calls| {
      assert Apply(s, op).calls[n].log == s.calls[n].log;
    }
  }

  lemma {:induction false} WaitsRun(s: Session, ops: seq<Op>, s': Session, n: nat)
    requires Inv(s) && Run(s, ops, s')
    ensures Waits(s', n) == Waits(s, n) + Expired(ops, n)
    decreases |ops|
  {
    if ops != [] {
      WaitsStep(s, ops[0], n);
      InvStep(s, ops[0]);
      WaitsRun(Apply(s, ops[0]), ops[1..], s', n);
    }
  }

  /** At every moment of every run each registered call is in exactly one of: the table, one handler's
      private list (once), the calls already written by their handler, or the calls whose entry an id
      collision overwrote. So its handlers write it at most once, and all set_result calls together are at
      most one plus the timed_waits on it that expired. */
  lemma SingleOwnership(timeout: nat, ops: seq<Op>, s: Session, n: nat)
    requires Run(Init(timeout), ops, s) && Live(s, n)
    ensures (if InTable(s, n) then 1 else 0) + Owned(s.handlers, n) + HandlerWrites(s.calls[n].log)
            + (if n in s.displaced then 1 else 0) == 1
    ensures s.calls[n].fut.writes <= 1 + Expired(ops, n)
    ensures s.calls[n].fut.writes == |s.calls[n].log|
  {
    InitInv(timeout);
    InvRun(Init(timeout), ops, s);
    assert Places(s, n) == 1;
    assert CallOk(s.calls[n]);
    WaitsRun(Init(timeout), ops, s, n);
  }

  // Readiness is permanent

  lemma {:induction false} CallEvolvesRun(s: Session, ops: seq<Op>, s': Session, n: nat)
    requires Inv(s) && Run(s, ops, s') && n < |s.calls| && s.calls[n].stage != Allocated
    ensures |s.calls| <= |s'.calls|
    ensures var c, c' := s.calls[n], s'.calls[n];
            && c'.msgid == c.msgid && c'.name == c.name && c'.params == c.params && c'.born == c.born
            && c'.stage != Allocated
            && c.log <= c'.log
            && (!c.fut.pending ==> !c'.fut.pending)
            && (Live(s, n) ==> Live(s', n) && c'.since == c.since)
    decreases |ops|
  {
    if ops != [] {
      CallEvolves(s, ops[0], n);
      InvStep(s, ops[0]);
      CallEvolvesRun(Apply(s, ops[0]), ops[1..], s', n);
    }
  }

  // Exact timeout

  function Ticks(ops: seq<Op>): nat {
    if ops == [] then 0 else (if ops[0].Tick? then 1 else 0) + Ticks(ops[1..])
  }

  /** A tick removes a tabled call exactly when `born` ticks have passed since its insertion, so on the
      (born + 1)-th; `born` is the session timeout at construction, untouched by later set_timeout calls. */
  lemma ExactTimeout(s: Session, out: seq<nat>, n: nat)
    requires Inv(s) && Enabled(s, Tick(out)) && InTable(s, n)
    ensures s.ticks - s.calls[n].since <= s.calls[n].born
    ensures n in out <==> s.ticks - s.calls[n].since == s.calls[n].born
    ensures InTable(Apply(s, Tick(out)), n) <==> s.ticks - s.calls[n].since < s.calls[n].born
  {
    assert CallClockOk(s, n);
    assert n in out <==> multiset(out)[n] > 0;
  }

  /** As long as a call stays in the table its count drops by exactly the ticks of the run, whatever else
      happens; so it cannot stay for more ticks than it has left. */
  lemma {:induction false} CountsEveryTick(s: Session, ops: seq<Op>, s': Session, n: nat)
    requires Inv(s) && Run(s, ops, s') && InTable(s, n) && InTable(s', n)
    ensures s'.calls[n].fut.timeout + Ticks(ops) == s.calls[n].fut.timeout
    decreases |ops|
  {
    if ops != [] {
      var mid := Apply(s, ops[0]);
      InvStep(s, ops[0]);
      CallEvolves(s, ops[0], n);
      assert s.calls[n].msgid in s.table;
      if InTable(mid, n) {
        CountAcrossStep(s, ops[0], n);
        CountsEveryTick(mid, ops[1..], s', n);
      } else {
        StaysOut(mid, ops[1..], s', n);
      }
    }
  }

  lemma OutStep(s: Session, op: Op, n: nat)
    requires Inv(s) && Enabled(s, op) && Live(s, n) && !InTable(s, n)
    ensures Live(Apply(s, op), n) && !InTable(Apply(s, op), n)
  {
    CallEvolves(s, op, n);
  }

  /** A registered call that has left the table never returns to it. */
  lemma {:induction false} StaysOut(s: Session, ops: seq<Op>, s': Session, n: nat)
    requires Inv(s) && Run(s, ops, s') && Live(s, n) && !InTable(s, n)
    ensures !InTable(s', n)
    decreases |ops|
  {
    if ops != [] {
      InvStep(s, ops[0]);
      OutStep(s, ops[0], n);
      StaysOut(Apply(s, ops[0]), ops[1..], s', n);
    }
  }

  // Outcome classification

  /** What get() makes of what the last set_result wrote. */
  lemma GetAfter(c: Call)
    requires CallOk(c) && c.stage != Allocated && c.log != []
    ensures var got := GetReady(c.fut.result, c.fut.error);
            match Last(c)
            case ByTick => got == Threw(TimeoutError)
            case ByWait => got == Threw(TimeoutError)
            case ByDrain => got == Threw(ConnectError)
            case ByReply(result, error) =>
              && c.fut.result == Unpack(result) && c.fut.error == Unpack(error)
              && got == (if error == Nil then Returned(Object(result, Buffer))
                         else if error == Int(1) then Threw(NoMethodError)
                         else if error == Int(2) then Threw(ArgumentError)
                         else Threw(RemoteError(Object(error, Buffer))))
              && got != Threw(TimeoutError) && got != Threw(ConnectError)
  {}

  /** What get() does with a ready future is decided by the last set_result: timeout exactly after a tick or
      an expired wait, connect error exactly after a drain, and otherwise the remote answer itself; no remote
      error, whatever its text, is taken for either local outcome. */
  lemma FaithfulOutcome(timeout: nat, ops: seq<Op>, s: Session, n: nat)
    requires Run(Init(timeout), ops, s) && Live(s, n) && !s.calls[n].fut.pending
    ensures s.calls[n].log != []
    ensures var got := GetReady(s.calls[n].fut.result, s.calls[n].fut.error);
            var last := Last(s.calls[n]);
            && (got == Threw(TimeoutError) <==> last.ByTick? || last.ByWait?)
            && (got == Threw(ConnectError) <==> last.ByDrain?)
            && (got == Threw(NoMethodError) <==> last.ByReply? && last.error == Int(1))
            && (got == Threw(ArgumentError) <==> last.ByReply? && last.error == Int(2))
            && (last.ByReply? && last.error == Nil ==> got == Returned(Object(last.result, Buffer)))
            && (last.ByReply? && last.error !in {Nil, Int(1), Int(2)} ==>
                  got == Threw(RemoteError(Object(last.error, Buffer))))
  {
    InitInv(timeout);
    InvRun(Init(timeout), ops, s);
    assert CallOk(s.calls[n]);
    GetAfter(s.calls[n]);
  }

  // Responses and registration

  /** In a session without collisions, a response under the id of a transmitted call that finds no entry
      comes for a call already taken out to be settled, never for one not yet registered. */
  lemma NoResponseOvertakesRegistration(s: Session, n: nat, id: MsgId)
    requires Inv(s) && n < |s.calls| && s.calls[n].stage == Sent && s.calls[n].msgid == id
    requires n !in s.displaced && id !in s.table
    ensures Owned(s.handlers, n) + HandlerWrites(s.calls[n].log) == 1
    ensures forall result, error :: Apply(s, Take(id, result, error)) == s
  {
    assert Places(s, n) == 1;
  }

  // Snapshot drain

  lemma HandlerStep(s: Session, op: Op, h: nat)
    requires Inv(s) && Enabled(s, op) && h < |s.handlers|
    ensures h < |Apply(s, op).handlers| && Apply(s, op).handlers[h].cause == s.handlers[h].cause
    ensures Apply(s, op).handlers[h].owned == if op == Settle(h) then s.handlers[h].owned[1..] else s.handlers[h].owned
    ensures op == Settle(h) ==>
              var n := s.handlers[h].owned[0];
              n < |Apply(s, op).calls| && Live(s, n) && Live(Apply(s, op), n)
              && s.handlers[h].cause in Apply(s, op).calls[n].log
  {
    if op == Settle(h) {
      OwnershipSettle(s, h);
      assert Last(Apply(s, op).calls[s.handlers[h].owned[0]]) == s.handlers[h].cause;
    }
  }

  /** The first `done` calls of a handler's list have been written with its outcome. */
  ghost predicate Settled(s: Session, owned: seq<nat>, done: nat, cause: Source) {
    done <= |owned| && forall i :: 0 <= i < done ==> owned[i] < |s.calls| && cause in s.calls[owned[i]].log
  }

  lemma OneMoreSettled(s: Session, owned: seq<nat>, done: nat, cause: Source)
    requires owned != [] && Settled(s, owned[1..], done, cause)
    requires owned[0] < |s.calls| && cause in s.calls[owned[0]].log
    ensures Settled(s, owned, done + 1, cause)
  {
    forall i | 0 <= i < done + 1
      ensures owned[i] < |s.calls| && cause in s.calls[owned[i]].log
    {
      if i > 0 {
        assert owned[i] == owned[1..][i - 1];
      }
    }
  }

  /** What a handler's list `out` has come to: handler h still owns the end of it, and every call before that has
      been written with its outcome. */
  ghost predicate DrainedTo(s: Session, h: nat, out: seq<nat>, cause: Source) {
    && h < |s.handlers| && s.handlers[h].cause == cause && |s.handlers[h].owned| <= |out|
    && s.handlers[h].owned == out[|out| - |s.handlers[h].owned|..]
    && Settled(s, out, |out| - |s.handlers[h].owned|, cause)
  }

  lemma DrainedFront(s: Session, h: nat, out: seq<nat>, cause: Source)
    requires out != [] && DrainedTo(s, h, out[1..], cause)
    requires out[0] < |s.calls| && cause in s.calls[out[0]].log
    ensures DrainedTo(s, h, out, cause)
  {
    OneMoreSettled(s, out, |out[1..]| - |s.handlers[h].owned|, cause);
  }

  /** In every run a handler's list only shrinks, from the front, and each call that left it has been written
      with the handler's outcome. */
  lemma {:induction false} DrainRun(s: Session, ops: seq<Op>, s': Session, h: nat)
    requires Inv(s) && Run(s, ops, s') && h < |s.handlers|
    ensures DrainedTo(s', h, s.handlers[h].owned, s.handlers[h].cause)
    decreases |ops|
  {
    if ops != [] {
      InvStep(s, ops[0]);
      HandlerStep(s, ops[0], h);
      DrainRun(Apply(s, ops[0]), ops[1..], s', h);
      if ops[0] == Settle(h) {
        DrainSettles(s, h, ops[1..], s');
      }
    }
  }

  /** The call settled first stays written. */
  lemma DrainSettles(s: Session, h: nat, ops: seq<Op>, s': Session)
    requires Inv(s) && Enabled(s, Settle(h)) && Run(Apply(s, Settle(h)), ops, s')
    requires DrainedTo(s', h, s.handlers[h].owned[1..], s.handlers[h].cause)
    ensures DrainedTo(s', h, s.handlers[h].owned, s.handlers[h].cause)
  {
    var owned := s.handlers[h].owned;
    InvStep(s, Settle(h));
    HandlerStep(s, Settle(h), h);
    CallEvolvesRun(Apply(s, Settle(h)), ops, s', owned[0]);
    DrainedFront(s', h, owned, s.handlers[h].cause);
  }

  lemma SnapshotTaken(s: Session, out: seq<nat>)
    requires Inv(s) && Enabled(s, TakeAll(out))
    ensures Apply(s, TakeAll(out)).table == map[]
    ensures Apply(s, TakeAll(out)).handlers == s.handlers + [Handler(ByDrain, out)]
    ensures forall n: nat :: multiset(out)[n] == if InTable(s, n) then 1 else 0
  {
    forall n: nat
      ensures multiset(out)[n] == if InTable(s, n) then 1 else 0
    {
      assert n in TabledSet(s) <==> InTable(s, n);
    }
  }

  /** take_all empties the table into one private list, each of its calls once. In every later state the list
      is what is left of that snapshot, each call that left it has been written with the connect outcome, and
      calls registered later, by callbacks or other threads, never enter it. */
  lemma SnapshotDrain(s: Session, out: seq<nat>, ops: seq<Op>, s': Session)
    requires Inv(s) && Enabled(s, TakeAll(out)) && Run(Apply(s, TakeAll(out)), ops, s')
    ensures Apply(s, TakeAll(out)).table == map[]
    ensures forall n: nat :: multiset(out)[n] == if InTable(s, n) then 1 else 0
    ensures DrainedTo(s', |s.handlers|, out, ByDrain)
    ensures forall n: nat :: InTable(s, n) && n !in s'.handlers[|s.handlers|].owned ==>
              n < |s'.calls| && ByDrain in s'.calls[n].log
    ensures forall n: nat :: n in s'.handlers[|s.handlers|].owned ==> InTable(s, n)
  {
    var mid, h := Apply(s, TakeAll(out)), |s.handlers|;
    SnapshotTaken(s, out);
    InvStep(s, TakeAll(out));
    assert mid.handlers[h] == Handler(ByDrain, out);
    DrainRun(mid, ops, s', h);
    forall n: nat
      ensures InTable(s, n) && n !in s'.handlers[h].owned ==> n < |s'.calls| && ByDrain in s'.calls[n].log
      ensures n in s'.handlers[h].owned ==> InTable(s, n)
    {
      assert multiset(out)[n] == if InTable(s, n) then 1 else 0;
      DrainedOrLeft(s', out, s'.handlers[h].owned, n);
    }
  }

  lemma DrainedOrLeft(s: Session, out: seq<nat>, left: seq<nat>, n: nat)
    requires |left| <= |out| && left == out[|out| - |left|..] && Settled(s, out, |out| - |left|, ByDrain)
    ensures n in left ==> n in out
    ensures n in out && n !in left ==> n < |s.calls| && ByDrain in s.calls[n].log
  {
    var done := |out| - |left|;
    assert out == out[..done] + left;
  }

  // Callbacks

  /** The operations one step of the session performs on call n's future. */
  function Project(s: Session, op: Op, n: nat): seq<FutureOp> {
    match op
    case Tick(_) => if InTable(s, n) then [Step] else []
    case Settle(h) =>
      if h < |s.handlers| && s.handlers[h].owned != [] && s.handlers[h].owned[0] == n
      then [Set(ResultOf(s.handlers[h].cause), ErrorOf(s.handlers[h].cause))] else []
    case SettleWait(w) =>
      if w < |s.waiters| && s.waiters[w] == n then [Set(ResultOf(ByWait), ErrorOf(ByWait))] else []
    case AttachTo(m, cb) => if m == n then [Attach(cb)] else []
    case _ => []
  }

  ghost function ProjectRun(s: Session, ops: seq<Op>, n: nat): seq<FutureOp>
    decreases |ops|
  {
    if ops == [] || !Enabled(s, ops[0]) then []
    else Project(s, ops[0], n) + ProjectRun(Apply(s, ops[0]), ops[1..], n)
  }

  lemma ProjectStep(s: Session, op: Op, n: nat)
    requires Inv(s) && Enabled(s, op) && n < |s.calls| && s.calls[n].stage != Allocated
    ensures |s.calls| <= |Apply(s, op).calls|
    ensures Apply(s, op).calls[n].fut == ApplyAll(s.calls[n].fut, Project(s, op, n))
  {
    var f, fops := s.calls[n].fut, Project(s, op, n);
    if |fops| == 1 {
      assert fops[..0] == [];
      assert ApplyAll(f, fops) == ApplyOp(f, fops[0]);
    }
  }

  lemma {:induction false} FutureFollowsProjection(s: Session, ops: seq<Op>, s': Session, n: nat)
    requires Inv(s) && Run(s, ops, s') && n < |s.calls| && s.calls[n].stage != Allocated
    ensures |s.calls| <= |s'.calls|
    ensures s'.calls[n].fut == ApplyAll(s.calls[n].fut, ProjectRun(s, ops, n))
    decreases |ops|
  {
    if ops != [] {
      InvStep(s, ops[0]);
      CallEvolves(s, ops[0], n);
      ProjectStep(s, ops[0], n);
      FutureFollowsProjection(Apply(s, ops[0]), ops[1..], s', n);
      ApplyAllAppend(s.calls[n].fut, Project(s, ops[0], n), ProjectRun(Apply(s, ops[0]), ops[1..], n));
    }
  }

  /** Callback delivery on every run after a call's construction, through ticks, drains, responses, expired
      waits and attaches in any order. */
  lemma CallbacksDelivered(s: Session, n: nat, ops: seq<Op>, s': Session)
    requires Inv(s) && Enabled(s, Create(n)) && Run(Apply(s, Create(n)), ops, s')
    ensures n < |s'.calls| && Delivered(s'.calls[n].fut, ProjectRun(Apply(s, Create(n)), ops, n))
  {
    var mid := Apply(s, Create(n));
    InvStep(s, Create(n));
    FutureFollowsProjection(mid, ops, s', n);
    CallbackDelivery(s.timeout, ProjectRun(mid, ops, n));
  }
}
