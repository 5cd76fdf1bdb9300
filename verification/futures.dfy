/** The state of one future_impl and what its locked operations do to it (future.cc). */
module Futures {
  import opened Protocol

  /** A user callback; `throws` says whether invoking it ends in an exception. */
  datatype Callback = Callback(id: nat, throws: bool)

  /** `pending` is m_session being set. The last three fields are what the outside observes: callbacks run
      inline by set_result, callbacks posted to the loop by attach_callback, and set_result calls so far. */
  datatype Future = Future(
    pending: bool,
    result: Object,
    error: Object,
    callback: Option<Callback>,
    timeout: nat,
    ran: seq<Callback>,
    posted: seq<Callback>,
    writes: nat)

  /** The constructor captures the session's timeout at that moment. */
  function NewFuture(timeout: nat): Future {
    Future(true, NIL_OBJECT, NIL_OBJECT, None, timeout, [], [], 0)
  }

  /** set_result overwrites whatever was there; a stored callback runs, its exceptions are swallowed by
      callback_real, and it is then forgotten. */
  function SetResult(f: Future, result: Object, error: Object): Future {
    f.(pending := false,
       result := result,
       error := error,
       callback := None,
       ran := match f.callback case None => f.ran case Some(cb) => f.ran + [cb],
       writes := f.writes + 1)
  }

  function AttachCallback(f: Future, cb: Callback): Future {
    if f.pending then f.(callback := Some(cb)) else f.(posted := f.posted + [cb])
  }

  /** step_timeout returns true once the count has run out, without touching it again. */
  predicate IsDue(f: Future) {
    f.timeout == 0
  }

  function StepTimeout(f: Future): Future {
    if f.timeout > 0 then f.(timeout := f.timeout - 1) else f
  }

  // Callback delivery

  datatype FutureOp = Attach(cb: Callback) | Set(result: Object, error: Object) | Step

  function ApplyOp(f: Future, op: FutureOp): Future {
    match op
    case Attach(cb) => AttachCallback(f, cb)
    case Set(result, error) => SetResult(f, result, error)
    case Step => StepTimeout(f)
  }

  function ApplyAll(f: Future, ops: seq<FutureOp>): Future {
    if ops == [] then f else ApplyOp(ApplyAll(f, ops[..|ops| - 1]), ops[|ops| - 1])
  }

  lemma {:induction false} ApplyAllAppend(f: Future, a: seq<FutureOp>, b: seq<FutureOp>)
    ensures ApplyAll(f, a + b) == ApplyAll(ApplyAll(f, a), b)
  {
    if b == [] {
      assert a + b == a;
    } else {
      assert (a + b)[..|a + b| - 1] == a + b[..|b| - 1];
      ApplyAllAppend(f, a, b[..|b| - 1]);
    }
  }

  /** The number of operations before the first set_result, all of them if there is none. */
  function FirstSet(ops: seq<FutureOp>): (k: nat)
    ensures k <= |ops|
  {
    if ops == [] || ops[0].Set? then 0 else 1 + FirstSet(ops[1..])
  }

  /** The callbacks attached by a run of operations, in order. */
  function Attached(ops: seq<FutureOp>): seq<Callback> {
    if ops == [] then []
    else Attached(ops[..|ops| - 1]) + if ops[|ops| - 1].Attach? then [ops[|ops| - 1].cb] else []
  }

  function LastOf(cbs: seq<Callback>): Option<Callback> {
    if cbs == [] then None else Some(cbs[|cbs| - 1])
  }

  function AsSeq(cb: Option<Callback>): seq<Callback> {
    match cb case None => [] case Some(c) => [c]
  }

  lemma {:induction false} FirstSetOfExtension(ops: seq<FutureOp>, op: FutureOp)
    ensures FirstSet(ops + [op]) ==
            if FirstSet(ops) < |ops| then FirstSet(ops) else if op.Set? then |ops| else |ops| + 1
  {
    if ops != [] && !ops[0].Set? {
      assert (ops + [op])[1..] == ops[1..] + [op];
      FirstSetOfExtension(ops[1..], op);
    }
  }

  /** Nothing settled yet: the last attached callback is stored, and nothing has run. */
  predicate DeliveredBefore(f: Future, attached: seq<Callback>) {
    f.pending && f.callback == LastOf(attached) && f.ran == [] && f.posted == []
  }

  /** Settled: nothing is stored, the last callback attached before has run once, those attached since have been
      posted once each, in order. */
  predicate DeliveredAfter(f: Future, before: seq<Callback>, since: seq<Callback>) {
    !f.pending && f.callback == None && f.ran == AsSeq(LastOf(before)) && f.posted == since
  }

  /** Before the first set_result the last attached callback is stored and nothing has run; from then on nothing
      is stored, the callback attached last before it has run exactly once, the ones it replaced never run, and
      each one attached later has been posted exactly once, in order. */
  predicate Delivered(f: Future, ops: seq<FutureOp>) {
    var k := FirstSet(ops);
    if k == |ops| then DeliveredBefore(f, Attached(ops))
    else DeliveredAfter(f, Attached(ops[..k]), Attached(ops[k..]))
  }

  lemma AttachedAppend(ops: seq<FutureOp>, op: FutureOp)
    ensures Attached(ops + [op]) == Attached(ops) + AttachedBy(op)
  {
    assert (ops + [op])[..|ops + [op]| - 1] == ops;
  }

  function AttachedBy(op: FutureOp): seq<Callback> {
    if op.Attach? then [op.cb] else []
  }

  /** One operation, in terms of the callbacks attached so far. */
  lemma DeliveredStep(f: Future, op: FutureOp, before: seq<Callback>, since: seq<Callback>)
    ensures DeliveredBefore(f, before) ==>
              if op.Set? then DeliveredAfter(ApplyOp(f, op), before, [])
              else DeliveredBefore(ApplyOp(f, op), before + AttachedBy(op))
    ensures DeliveredAfter(f, before, since) ==> DeliveredAfter(ApplyOp(f, op), before, since + AttachedBy(op))
  {}

  /** The callbacks attached before and since number k, with one more operation. */
  lemma AttachedAround(ops: seq<FutureOp>, op: FutureOp, k: nat)
    requires k <= |ops|
    ensures Attached((ops + [op])[..k]) == Attached(ops[..k])
    ensures Attached((ops + [op])[k..]) == Attached(ops[k..]) + AttachedBy(op)
  {
    assert (ops + [op])[..k] == ops[..k] && (ops + [op])[k..] == ops[k..] + [op];
    AttachedAppend(ops[k..], op);
  }

  lemma DeliveredNext(f: Future, ops: seq<FutureOp>, op: FutureOp)
    requires Delivered(f, ops)
    ensures Delivered(ApplyOp(f, op), ops + [op])
  {
    var k := FirstSet(ops);
    FirstSetOfExtension(ops, op);
    AttachedAround(ops, op, k);
    DeliveredStep(f, op, Attached(ops[..k]), Attached(ops[k..]));
    if k == |ops| {
      assert ops[..k] == ops && ops[k..] == [];
      AttachedAppend(ops, op);
    }
  }

  /** Over any interleaving of attach_callback, set_result and ticks on one future. */
  lemma {:induction false} CallbackDelivery(timeout: nat, ops: seq<FutureOp>)
    ensures Delivered(ApplyAll(NewFuture(timeout), ops), ops)
  {
    if ops != [] {
      var init, op := ops[..|ops| - 1], ops[|ops| - 1];
      CallbackDelivery(timeout, init);
      var f := ApplyAll(NewFuture(timeout), init);
      assert ApplyAll(NewFuture(timeout), ops) == ApplyOp(f, op);
      assert Delivered(ApplyOp(f, op), init + [op]) by { DeliveredNext(f, init, op); }
      assert init + [op] == ops;
    }
  }

  /** Readiness is permanent and the last set_result wins, whatever else happens after it. */
  lemma {:induction false} LastWriteWins(f: Future, ops: seq<FutureOp>, result: Object, error: Object)
    requires forall i :: 0 <= i < |ops| ==> !ops[i].Set?
    ensures var g := ApplyAll(SetResult(f, result, error), ops);
            !g.pending && g.result == result && g.error == error && g.callback == None
            && g.writes == f.writes + 1
  {
    if ops != [] {
      LastWriteWins(f, ops[..|ops| - 1], result, error);
    }
  }
}
