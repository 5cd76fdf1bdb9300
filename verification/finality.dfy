/** When the outcome of a ready future is final, and how one can be overwritten (future.cc, session.cc). */
module Finality {
  import opened Protocol
  import opened AtomicOps
  import opened Futures
  import opened Engine
  import opened EngineInvariants
  import opened EngineTheorems

  /** No run from here on writes call n again. */
  ghost predicate Final(s: Session, n: nat)
    requires n < |s.calls|
  {
    forall ops, s' :: Run(s, ops, s') ==> n < |s'.calls| && s'.calls[n].log == s.calls[n].log
  }

  /** Nobody is left who could: the call is in neither the table nor a handler's list, and no expired wait of
      it is about to write. */
  predicate Untouchable(s: Session, n: nat) {
    !InTable(s, n) && Owned(s.handlers, n) == 0 && n !in s.waiters
  }

  predicate Ready(s: Session, n: nat) {
    Live(s, n) && !s.calls[n].fut.pending
  }

  lemma UntouchedLog(s: Session, op: Op, n: nat)
    requires Inv(s) && Enabled(s, op) && n < |s.calls| && Untouchable(s, n)
    ensures n < |Apply(s, op).calls| && Apply(s, op).calls[n].log == s.calls[n].log
  {
    if op.Settle? && s.handlers[op.h].owned[0] == n {
      OwnedAtLeast(s.handlers, op.h, n);
      assert false;
    }
  }

  lemma DisplacedStays(s: Session, op: Op, n: nat)
    requires Enabled(s, op) && n in s.displaced
    ensures n in Apply(s, op).displaced
  {}

  lemma NoNewWaiter(s: Session, op: Op, n: nat)
    requires Enabled(s, op) && Ready(s, n) && n !in s.waiters
    ensures n !in Apply(s, op).waiters
  {}

  lemma FinalStep(s: Session, op: Op, n: nat)
    requires Inv(s) && Enabled(s, op) && Ready(s, n) && Untouchable(s, n)
    ensures var s' := Apply(s, op);
            Inv(s') && Ready(s', n) && Untouchable(s', n) && s'.calls[n].log == s.calls[n].log
  {
    var s' := Apply(s, op);
    InvStep(s, op);
    CallEvolves(s, op, n);
    UntouchedLog(s, op, n);
    OutStep(s, op, n);
    NoNewWaiter(s, op, n);
    assert Places(s, n) == 1 && Places(s', n) == 1;
    if n in s.displaced {
      DisplacedStays(s, op, n);
    }
  }

  lemma {:induction false} FinalRun(s: Session, ops: seq<Op>, s': Session, n: nat)
    requires Inv(s) && Run(s, ops, s') && Ready(s, n) && Untouchable(s, n)
    ensures n < |s'.calls| && s'.calls[n].log == s.calls[n].log
    decreases |ops|
  {
    if ops != [] {
      FinalStep(s, ops[0], n);
      FinalRun(Apply(s, ops[0]), ops[1..], s', n);
    }
  }

  lemma OneStep(s: Session, op: Op)
    requires Enabled(s, op)
    ensures Run(s, [op], Apply(s, op))
  {
    assert [op][1..] == [];
    assert Run(Apply(s, op), [], Apply(s, op));
  }

  lemma {:induction false} OwnedBySome(hs: seq<Handler>, n: nat) returns (h: nat, k: nat)
    requires Owned(hs, n) > 0
    ensures h < |hs| && k < |hs[h].owned| && hs[h].owned[k] == n
  {
    h := |hs| - 1;
    if n in hs[h].owned {
      k :| 0 <= k < |hs[h].owned| && hs[h].owned[k] == n;
    } else {
      h, k := OwnedBySome(hs[..h], n);
    }
  }

  lemma SettleWrites(s: Session, h: nat)
    requires Inv(s) && h < |s.handlers| && s.handlers[h].owned != []
    ensures var n := s.handlers[h].owned[0];
            && n < |s.calls| && Enabled(s, Settle(h))
            && Apply(s, Settle(h)).handlers[h].owned == s.handlers[h].owned[1..]
            && Apply(s, Settle(h)).calls[n] == Write(s.calls[n], s.handlers[h].cause)
  {
    OwnedAtLeast(s.handlers, h, s.handlers[h].owned[0]);
    assert s.handlers[h].owned[0] < |s.calls|;
  }

  /** A handler that settles on until it has reached its k-th call has written it. */
  lemma {:induction false} SettleChain(s: Session, h: nat, k: nat) returns (ops: seq<Op>, s': Session)
    requires Inv(s) && h < |s.handlers| && k < |s.handlers[h].owned| && Live(s, s.handlers[h].owned[k])
    ensures var n := s.handlers[h].owned[k];
            Run(s, ops, s') && n < |s'.calls| && |s'.calls[n].log| > |s.calls[n].log|
    decreases k
  {
    var n, mid := s.handlers[h].owned[k], s;
    SettleWrites(s, h);
    mid := Apply(s, Settle(h));
    OneStep(s, Settle(h));
    if k == 0 {
      ops, s' := [Settle(h)], mid;
    } else {
      InvStep(s, Settle(h));
      CallEvolves(s, Settle(h), n);
      assert mid.handlers[h].owned[k - 1] == n;
      ops, s' := SettleChain(mid, h, k - 1);
      RunAppend(s, [Settle(h)], mid, ops, s');
      ops := [Settle(h)] + ops;
    }
  }

  /** Whoever still has the call can write it once more. */
  lemma WrittenAgain(s: Session, n: nat) returns (ops: seq<Op>, s': Session)
    requires Inv(s) && Live(s, n) && !Untouchable(s, n)
    ensures Run(s, ops, s') && n < |s'.calls| && |s'.calls[n].log| > |s.calls[n].log|
  {
    if n in s.waiters {
      ops, s' := WaitIsWritten(s, n);
    } else if Owned(s.handlers, n) > 0 {
      var h, k := OwnedBySome(s.handlers, n);
      ops, s' := SettleChain(s, h, k);
    } else {
      ops, s' := AnsweredLate(s, n, Nil, Nil);
    }
  }

  /** A response to a tabled call, settled or not, is written. */
  lemma AnsweredLate(s: Session, n: nat, result: Value, error: Value) returns (ops: seq<Op>, s': Session)
    requires Inv(s) && Live(s, n) && InTable(s, n)
    ensures Run(s, ops, s') && n < |s'.calls|
    ensures s'.calls[n] == Write(s.calls[n], ByReply(result, error)) && s'.waiters == s.waiters
  {
    var take, h := Take(s.calls[n].msgid, result, error), |s.handlers|;
    var mid := Apply(s, take);
    InvStep(s, take);
    OneStep(s, take);
    assert mid.handlers[h] == Handler(ByReply(result, error), [n]);
    SettleWrites(mid, h);
    OneStep(mid, Settle(h));
    ops, s' := [take] + [Settle(h)], Apply(mid, Settle(h));
    RunAppend(s, [take], mid, [Settle(h)], s');
  }

  /** A ready future keeps its outcome for good exactly when its call is out of the table, out of every
      handler's list, and none of its expired waits is still to write. */
  lemma OutcomeIsFinalIff(s: Session, n: nat)
    requires Inv(s) && Ready(s, n)
    ensures Final(s, n) <==> !InTable(s, n) && Owned(s.handlers, n) == 0 && n !in s.waiters
  {
    if Untouchable(s, n) {
      forall ops, s' | Run(s, ops, s')
        ensures n < |s'.calls| && s'.calls[n].log == s.calls[n].log
      {
        FinalRun(s, ops, s', n);
      }
    } else {
      var ops, s' := WrittenAgain(s, n);
      assert Run(s, ops, s');
    }
  }

  /** The first call of a session, registered, with a wait on it that has expired and not written yet. */
  lemma OneExpiredWait() returns (ops: seq<Op>, s: Session)
    ensures Run(Init(30), ops, s) && Inv(s) && Live(s, 0) && InTable(s, 0)
    ensures s.calls[0].fut.pending && s.calls[0].log == [] && s.handlers == [] && s.waiters == [0]
  {
    var s0 := Init(30);
    var s1 := Apply(s0, Allocate(Nil, Nil));
    var s2 := Apply(s1, Create(0));
    var s3 := Apply(s2, Insert(0));
    s := Apply(s3, ExpireWait(0));
    OneStep(s0, Allocate(Nil, Nil));
    OneStep(s1, Create(0));
    OneStep(s2, Insert(0));
    OneStep(s3, ExpireWait(0));
    ops := [Allocate(Nil, Nil)] + [Create(0)];
    RunAppend(s0, [Allocate(Nil, Nil)], s1, [Create(0)], s2);
    RunAppend(s0, ops, s2, [Insert(0)], s3);
    RunAppend(s0, ops + [Insert(0)], s3, [ExpireWait(0)], s);
    ops := ops + [Insert(0)] + [ExpireWait(0)];
    InitInv(30);
    InvRun(s0, ops, s);
  }

  /** What get() makes of call n. */
  function GetOf(s: Session, n: nat): Got
    requires n < |s.calls|
  {
    GetReady(s.calls[n].fut.result, s.calls[n].fut.error)
  }

  lemma GetOfLast(s: Session, n: nat)
    requires Inv(s) && Live(s, n) && s.calls[n].log != []
    ensures Ready(s, n)
    ensures Last(s.calls[n]).ByWait? ==> GetOf(s, n) == Threw(TimeoutError)
    ensures Last(s.calls[n]).ByReply? && Last(s.calls[n]).error == Nil ==>
              GetOf(s, n) == Returned(Unpack(Last(s.calls[n]).result))
  {
    assert CallOk(s.calls[n]);
    GetAfter(s.calls[n]);
  }

  /** An expired wait of call n writes its timeout. */
  lemma WaitIsWritten(s: Session, n: nat) returns (ops: seq<Op>, s': Session)
    requires Inv(s) && Live(s, n) && n in s.waiters
    ensures Run(s, ops, s') && Inv(s') && Ready(s', n) && s'.calls[n].log == s.calls[n].log + [ByWait]
    ensures GetOf(s', n) == Threw(TimeoutError)
    ensures InTable(s', n) <==> InTable(s, n)
  {
    var w :| 0 <= w < |s.waiters| && s.waiters[w] == n;
    OneStep(s, SettleWait(w));
    InvStep(s, SettleWait(w));
    ops, s' := [SettleWait(w)], Apply(s, SettleWait(w));
    GetOfLast(s', n);
  }

  /** A successful response to a tabled call, settled or not, is what get() returns next. */
  lemma ReplyIsWritten(s: Session, n: nat, result: Value) returns (ops: seq<Op>, s': Session)
    requires Inv(s) && Live(s, n) && InTable(s, n)
    ensures Run(s, ops, s') && Inv(s') && Ready(s', n) && s'.calls[n].log == s.calls[n].log + [ByReply(result, Nil)]
    ensures GetOf(s', n) == Returned(Unpack(result))
    ensures s'.waiters == s.waiters
  {
    ops, s' := AnsweredLate(s, n, result, Nil);
    InvRun(s, ops, s');
    CallEvolvesRun(s, ops, s', n);
    GetOfLast(s', n);
  }

  /** A reply is lost: get() returns it, then an expired wait writes, and get() reports a timeout from then on. */
  lemma ReplyLostToTimeout(result: Value) returns (ops: seq<Op>, mid: Session, more: seq<Op>, s: Session)
    ensures Run(Init(30), ops, mid) && Run(mid, more, s) && Ready(mid, 0) && Ready(s, 0)
    ensures mid.calls[0].log == [ByReply(result, Nil)] && GetOf(mid, 0) == Returned(Unpack(result))
    ensures s.calls[0].log == [ByReply(result, Nil), ByWait] && GetOf(s, 0) == Threw(TimeoutError)
  {
    var ops0, s0 := OneExpiredWait();
    ops, mid := ReplyIsWritten(s0, 0, result);
    RunAppend(Init(30), ops0, s0, ops, mid);
    ops := ops0 + ops;
    more, s := WaitIsWritten(mid, 0);
  }

  /** And the other way round: get() reports a timeout, and a later get() on the same future returns the reply
      that came after all, the call having stayed in the table. */
  lemma TimeoutTurnsIntoReply(result: Value) returns (ops: seq<Op>, mid: Session, more: seq<Op>, s: Session)
    ensures Run(Init(30), ops, mid) && Run(mid, more, s) && Ready(mid, 0) && Ready(s, 0)
    ensures mid.calls[0].log == [ByWait] && GetOf(mid, 0) == Threw(TimeoutError)
    ensures s.calls[0].log == [ByWait, ByReply(result, Nil)] && GetOf(s, 0) == Returned(Unpack(result))
  {
    var ops0, s0 := OneExpiredWait();
    ops, mid := WaitIsWritten(s0, 0);
    RunAppend(Init(30), ops0, s0, ops, mid);
    ops := ops0 + ops;
    more, s := ReplyIsWritten(mid, 0, result);
  }

  /** A callback attached to a tabled, pending call can run: a response that is written next runs it, once. */
  lemma AttachedCallbackRuns(s: Session, n: nat, cb: Callback, result: Value, error: Value)
    returns (ops: seq<Op>, s': Session)
    requires Inv(s) && Live(s, n) && InTable(s, n) && s.calls[n].fut.pending
    ensures Run(s, ops, s') && ops != [] && ops[0] == AttachTo(n, cb) && n < |s'.calls|
    ensures s'.calls[n].fut.ran == s.calls[n].fut.ran + [cb] && s'.calls[n].fut.callback == None
  {
    var mid := Apply(s, AttachTo(n, cb));
    InvStep(s, AttachTo(n, cb));
    OneStep(s, AttachTo(n, cb));
    ops, s' := AnsweredLate(mid, n, result, error);
    RunAppend(s, [AttachTo(n, cb)], mid, ops, s');
    ops := [AttachTo(n, cb)] + ops;
  }
}
