/** The client side as objects: the future, the request table and the session, each method proved against the
    call engine's steps (future.cc, reqtable.cc, session.cc). */
module Client {
  import opened Protocol
  import opened AtomicOps
  import opened Engine
  import opened EngineInvariants
  import opened EngineTheorems
  import Futures

  type Callback = Futures.Callback
  type Future = Futures.Future

  datatype Completion = Normal | Exception

  /** future_impl. The three ghost fields record what the outside observes. */
  class FutureImpl {
    const m_msgid: MsgId
    var m_session: SessionImpl?
    var m_timeout: nat
    var m_callback: Option<Callback>
    var m_result: Object
    var m_error: Object
    ghost var ran: seq<Callback>
    ghost var posted: seq<Callback>
    ghost var writes: nat

    ghost function View(): Future
      reads this
    {
      Futures.Future(m_session != null, m_result, m_error, m_callback, m_timeout, ran, posted, writes)
    }

    constructor (msgid: MsgId, s: SessionImpl)
      ensures m_msgid == msgid && m_session == s && View() == Futures.NewFuture(s.m_timeout)
    {
      m_msgid := msgid;
      m_session := s;
      m_timeout := s.m_timeout;
      m_callback := None;
      m_result, m_error := NIL_OBJECT, NIL_OBJECT;
      ran, posted, writes := [], [], 0;
    }

    /** Running user code, which may end in an exception. */
    method Invoke(cb: Callback) returns (c: Completion)
      modifies this`ran
      ensures ran == old(ran) + [cb]
      ensures c == if cb.throws then Exception else Normal
    {
      ran := ran + [cb];
      c := if cb.throws then Exception else Normal;
    }

    /** callback_real: whatever the callback throws is caught and logged. */
    method CallbackReal(cb: Callback)
      modifies this`ran
      ensures ran == old(ran) + [cb]
    {
      var c := Invoke(cb);
      match c {
        case Normal =>
        case Exception =>
      }
    }

    method SetResult(result: Object, error: Object)
      modifies this
      ensures View() == Futures.SetResult(old(View()), result, error)
      ensures m_session == null
    {
      m_result := result;
      m_error := error;
      m_session := null;
      if m_callback.Some? {
        CallbackReal(m_callback.value);
        m_callback := None;
      }
      writes := writes + 1;
    }

    method AttachCallback(cb: Callback)
      modifies this
      ensures View() == Futures.AttachCallback(old(View()), cb)
      ensures m_session == old(m_session)
    {
      if m_session == null {
        posted := posted + [cb];
      } else {
        m_callback := Some(cb);
      }
    }

    method StepTimeout() returns (due: bool)
      modifies this`m_timeout
      ensures due == Futures.IsDue(old(View()))
      ensures View() == Futures.StepTimeout(old(View()))
    {
      if m_timeout > 0 {
        m_timeout := m_timeout - 1;
        return false;
      }
      return true;
    }

    /** What another thread does to this future under its lock. */
    method Perform(op: Futures.FutureOp)
      modifies this
      ensures View() == Futures.ApplyOp(old(View()), op)
    {
      match op {
        case Attach(cb) => AttachCallback(cb);
        case Set(result, error) => SetResult(result, error);
        case Step => var _ := StepTimeout();
      }
    }

    method PerformAll(ops: seq<Futures.FutureOp>)
      modifies this
      ensures View() == Futures.ApplyAll(old(View()), ops)
    {
      for i := 0 to |ops|
        invariant View() == Futures.ApplyAll(old(View()), ops[..i])
      {
        Perform(ops[i]);
        assert ops[..i + 1][..i] == ops[..i];
      }
      assert ops[..|ops|] == ops;
    }

    /** timed_wait. Each wake tells how one wait on the condition variable went: what others did while the lock
        was released, whether it ended by expiry, and, if so, what others did between the unlock and
        set_result. The future is ready afterwards on both paths; after an expiry the timeout has overwritten
        whatever was there, a result that arrived meanwhile included. */
    method TimedWait(wakes: seq<Wake>) returns (inTime: bool, ghost k: nat)
      requires wakes != [] && wakes[|wakes| - 1].expired
      modifies this
      ensures m_session == null
      ensures Waited(wakes, inTime, k, old(View()))
      ensures View() == Futures.ApplyAll(old(View()), DuringWait(wakes, inTime, k))
      ensures !inTime ==> m_result == NIL_OBJECT && m_error == TIMEOUT_ERROR
    {
      k := 0;
      var i := 0;
      while m_session != null
        invariant k == i <= |wakes|
        invariant i == |wakes| ==> m_session == null
        invariant View() == Futures.ApplyAll(old(View()), Meanwhile(wakes[..i]))
        invariant StillWaiting(wakes, i, old(View()))
        decreases |wakes| - i
      {
        var w := wakes[i];
        assert wakes[..i + 1][..i] == wakes[..i];
        PerformAll(w.meanwhile);
        Futures.ApplyAllAppend(old(View()), Meanwhile(wakes[..i]), w.meanwhile);
        if w.expired {
          TimeOut(w.between);
          Futures.ApplyAllAppend(old(View()), Meanwhile(wakes[..i + 1]), w.between + [TIMED_OUT]);
          return false, i;
        }
        i, k := i + 1, i + 1;
      }
      return true, k;
    }

    /** The wait's own expiry: the lock is released, others may act, and then the timeout is written. */
    method TimeOut(between: seq<Futures.FutureOp>)
      modifies this
      ensures m_session == null && m_result == NIL_OBJECT && m_error == TIMEOUT_ERROR
      ensures View() == Futures.ApplyAll(old(View()), between + [TIMED_OUT])
    {
      PerformAll(between);
      SetResult(NIL_OBJECT, TIMEOUT_ERROR);
      assert (between + [TIMED_OUT])[..|between|] == between;
    }

    /** The tail of future::get_impl. */
    method Unwrap() returns (got: Got)
      ensures got == GetReady(m_result, m_error)
    {
      if !m_error.value.Nil? {
        return Threw(ThrowException(m_error));
      }
      return Returned(m_result);
    }

    /** future::get_impl while the loop runs in other threads: it throws the local timeout when its own wait
        expired, and otherwise returns what the others settled the future with. */
    method Get(wakes: seq<Wake>) returns (got: Got, ghost inTime: bool, ghost k: nat)
      requires wakes != [] && wakes[|wakes| - 1].expired
      modifies this
      ensures m_session == null && got == GetReady(m_result, m_error)
      ensures Waited(wakes, inTime, k, old(View()))
      ensures View() == Futures.ApplyAll(old(View()), DuringWait(wakes, inTime, k))
      ensures !inTime ==> got == Threw(TimeoutError)
    {
      inTime, k := true, 0;
      if m_session != null {
        inTime, k := TimedWait(wakes);
      }
      got := Unwrap();
    }
  }

  const TIMED_OUT := Futures.Set(NIL_OBJECT, TIMEOUT_ERROR)

  /** What others do to the future in a number of waits, in order. */
  function Meanwhile(wakes: seq<Wake>): seq<Futures.FutureOp> {
    if wakes == [] then [] else Meanwhile(wakes[..|wakes| - 1]) + wakes[|wakes| - 1].meanwhile
  }

  /** Everything done to the future while timed_wait was at work: k waits that did not expire and, unless the
      future was found ready then, the one that did, the interval without the lock, and the timeout. */
  function DuringWait(wakes: seq<Wake>, inTime: bool, k: nat): seq<Futures.FutureOp>
    requires k <= |wakes| && (inTime || k < |wakes|)
  {
    if inTime then Meanwhile(wakes[..k]) else Meanwhile(wakes[..k + 1]) + (wakes[k].between + [TIMED_OUT])
  }

  /** How many waits there were: one for each time the future f was found pending, up to the first to expire. */
  predicate Waited(wakes: seq<Wake>, inTime: bool, k: nat, f: Future) {
    && StillWaiting(wakes, k, f)
    && if inTime then !PendingAfter(wakes, k, f) else k < |wakes| && wakes[k].expired && PendingAfter(wakes, k, f)
  }

  predicate StillWaiting(wakes: seq<Wake>, k: nat, f: Future) {
    k <= |wakes| && forall j :: 0 <= j < k ==> !wakes[j].expired && PendingAfter(wakes, j, f)
  }

  predicate PendingAfter(wakes: seq<Wake>, j: nat, f: Future)
    requires j <= |wakes|
  {
    Futures.ApplyAll(f, Meanwhile(wakes[..j])).pending
  }

  datatype Wake = Wake(meanwhile: seq<Futures.FutureOp>, expired: bool, between: seq<Futures.FutureOp>)

  lemma ListsAdd<T(!new)>(out: seq<T>, s: set<T>, x: T)
    requires Lists(out, s) && x !in s
    ensures Lists(out + [x], s + {x})
  {}

  /** reqtable: futures by message id. */
  class Reqtable {
    var m_map: map<MsgId, FutureImpl>

    constructor ()
      ensures m_map == map[]
    {
      m_map := map[];
    }

    /** No future is tabled under two ids. */
    static ghost predicate Injective(m: map<MsgId, FutureImpl>) {
      forall a, b :: a in m && b in m && a != b ==> m[a] != m[b]
    }

    ghost function Timeouts(): map<MsgId, nat>
      reads this, m_map.Values
    {
      map k | k in m_map :: m_map[k].m_timeout
    }

    method Insert(msgid: MsgId, f: FutureImpl)
      modifies this
      ensures m_map == old(m_map)[msgid := f]
    {
      m_map := m_map[msgid := f];
    }

    method Take(msgid: MsgId) returns (f: FutureImpl?)
      modifies this
      ensures msgid in old(m_map) ==> f == old(m_map)[msgid]
      ensures msgid !in old(m_map) ==> f == null
      ensures m_map == map k | k in old(m_map) && k != msgid :: old(m_map)[k]
    {
      if msgid !in m_map {
        f := null;
      } else {
        f := m_map[msgid];
        m_map := map k | k in m_map && k != msgid :: m_map[k];
      }
    }

    /** The table ends empty and `all` is its contents; `order` is the order the hash map was walked in. */
    method TakeAll() returns (all: seq<FutureImpl>, ghost order: seq<MsgId>)
      modifies this
      ensures m_map == map[]
      ensures Lists(order, old(m_map).Keys) && Picks(old(m_map), all, order)
    {
      all, order := [], [];
      while m_map != map[]
        invariant m_map.Keys <= old(m_map).Keys
        invariant forall k :: k in m_map ==> m_map[k] == old(m_map)[k]
        invariant Lists(order, old(m_map).Keys - m_map.Keys)
        invariant Picks(old(m_map), all, order)
        decreases m_map.Keys
      {
        var it :| it in m_map;
        all := all + [m_map[it]];
        m_map := map k | k in m_map && k != it :: m_map[k];
        order := order + [it];
      }
    }

    /** The counts of the futures in m0 after the entries in `seen` have been stepped, from the counts t0. */
    static ghost predicate Stepped(m0: map<MsgId, FutureImpl>, t0: map<MsgId, nat>, seen: set<MsgId>)
      requires m0.Keys == t0.Keys
      reads m0.Values`m_timeout
    {
      forall k :: k in m0 ==> m0[k].m_timeout == if k in seen && t0[k] > 0 then t0[k] - 1 else t0[k]
    }

    /** `out` is the futures tabled in m0 under the ids of `order`, in that order. */
    static ghost predicate Picks(m0: map<MsgId, FutureImpl>, out: seq<FutureImpl>, order: seq<MsgId>) {
      |out| == |order| && forall i :: 0 <= i < |order| ==> order[i] in m0 && out[i] == m0[order[i]]
    }

    static ghost function DueIn(t0: map<MsgId, nat>, seen: set<MsgId>): set<MsgId> {
      set k | k in seen && k in t0 && t0[k] == 0
    }

    /** What the loop of step_timeout has done once it has passed the entries in `seen`. */
    static ghost predicate Progress(m0: map<MsgId, FutureImpl>, t0: map<MsgId, nat>, seen: set<MsgId>,
                                    m: map<MsgId, FutureImpl>, out: seq<FutureImpl>, order: seq<MsgId>)
      reads m0.Values`m_timeout
    {
      && m0.Keys == t0.Keys && Stepped(m0, t0, seen)
      && m == m0 - DueIn(t0, seen) && Lists(order, DueIn(t0, seen)) && Picks(m0, out, order)
    }

    /** One round of that loop: the entry at `it` counts down, or moves to the output when it cannot. */
    method StepEntry(it: MsgId, f: FutureImpl, out: seq<FutureImpl>, ghost order: seq<MsgId>,
                     ghost m0: map<MsgId, FutureImpl>, ghost t0: map<MsgId, nat>, ghost seen: set<MsgId>)
      returns (out': seq<FutureImpl>, ghost order': seq<MsgId>)
      requires Progress(m0, t0, seen, m_map, out, order) && Injective(m0)
      requires it in m0 && it !in seen && f == m0[it]
      modifies this`m_map, f`m_timeout
      ensures Progress(m0, t0, seen + {it}, m_map, out', order')
    {
      out', order' := out, order;
      var due := f.StepTimeout();
      assert Stepped(m0, t0, seen + {it});
      if due {
        out', order' := out + [f], order + [it];
        m_map := m_map - {it};
        ListsAdd(order, DueIn(t0, seen), it);
        assert DueIn(t0, seen + {it}) == DueIn(t0, seen) + {it};
      } else {
        assert DueIn(t0, seen + {it}) == DueIn(t0, seen);
      }
    }

    /** Each future still counting goes down by one and stays; each one already at zero moves to `timedout`. */
    method StepTimeout() returns (timedout: seq<FutureImpl>, ghost order: seq<MsgId>)
      requires Injective(m_map)
      modifies this`m_map, m_map.Values`m_timeout
      ensures Progress(old(m_map), old(Timeouts()), old(m_map).Keys, m_map, timedout, order)
    {
      timedout, order := [], [];
      ghost var m0, t0 := m_map, Timeouts();
      ghost var seen: set<MsgId> := {};
      var todo := m_map.Keys;
      while todo != {}
        invariant todo !! seen && todo + seen == m0.Keys
        invariant Progress(m0, t0, seen, m_map, timedout, order)
        decreases todo
      {
        var it :| it in todo;
        timedout, order := StepEntry(it, m_map[it], timedout, order, m0, t0, seen);
        todo, seen := todo - {it}, seen + {it};
      }
      assert seen == m0.Keys;
    }
  }

  // Facts about the engine's steps, in the form the session's methods use them

  /** A listing has no repetitions and the right members, and that is all it needs. */
  lemma {:induction false} ListsIff<T(!new)>(out: seq<T>, s: set<T>)
    ensures Lists(out, s) <==> NoRepeats(out) && forall x :: x in out <==> x in s
  {
    if out == [] {
      assert Lists(out, s) ==> forall x :: x in s ==> multiset(out)[x] == 1;
    } else {
      var init, x := out[..|out| - 1], out[|out| - 1];
      assert out == init + [x];
      ListsIff(init, s - {x});
      if Lists(out, s) {
        assert multiset(out)[x] > 0;
        assert forall y {:trigger multiset(init)[y]} :: multiset(init)[y] == multiset(out)[y] - if y == x then 1 else 0;
        assert Lists(init, s - {x});
      }
      if NoRepeats(out) && forall y :: y in out <==> y in s {
        assert NoRepeats(init);
        forall y
          ensures y in init <==> y in s - {x}
        {
          assert y in out <==> y in init || y == x;
        }
        ListsAdd(init, s - {x}, x);
        assert s - {x} + {x} == s;
      }
    }
  }

  ghost predicate NoRepeats<T>(out: seq<T>) {
    forall i, j :: 0 <= i < j < |out| ==> out[i] != out[j]
  }

  /** Walking the hash map by id walks the calls tabled under those ids. */
  lemma ListsOfCalls(s: Session, order: seq<MsgId>, ids: seq<nat>, keys: set<MsgId>, calls: set<nat>)
    requires Inv(s) && Lists(order, keys) && keys <= s.table.Keys
    requires |ids| == |order| && forall i :: 0 <= i < |ids| ==> order[i] in s.table && ids[i] == s.table[order[i]]
    requires forall n: nat :: n in calls <==> InTable(s, n) && s.calls[n].msgid in keys
    ensures Lists(ids, calls)
  {
    ListsIff(order, keys);
    forall n: nat
      ensures n in ids <==> n in calls
    {
      if n in ids {
        var i :| 0 <= i < |ids| && ids[i] == n;
        assert order[i] in keys;
      }
      if n in calls {
        assert s.calls[n].msgid in order;
        var i :| 0 <= i < |order| && order[i] == s.calls[n].msgid;
        assert ids[i] == n;
      }
    }
    assert forall i :: 0 <= i < |ids| ==> s.calls[ids[i]].msgid == order[i];
    ListsIff(ids, calls);
  }

  /** Some run from a fresh session leads here. */
  ghost predicate Reachable(s: Session) {
    exists timeout: nat :: Reaches(Init(timeout), s)
  }

  lemma ReachableInv(s: Session)
    requires Reachable(s)
    ensures Inv(s)
  {
    var timeout: nat :| Reaches(Init(timeout), s);
    var ops :| Run(Init(timeout), ops, s);
    InitInv(timeout);
    InvRun(Init(timeout), ops, s);
  }

  lemma ReachableTable(s: Session)
    requires Reachable(s)
    ensures TableOk(s)
  {
    ReachableInv(s);
  }

  ghost predicate Onward(s: Session, s': Session) {
    Reachable(s') && Reaches(s, s')
  }

  lemma ReachesOn(s: Session, mid: Session, s': Session)
    requires Reaches(s, mid) && Reaches(mid, s')
    ensures Reaches(s, s')
  {
    var ops :| Run(s, ops, mid);
    var more :| Run(mid, more, s');
    RunAppend(s, ops, mid, more, s');
  }

  lemma StepOnward(s: Session, op: Op)
    requires Reachable(s) && Enabled(s, op)
    ensures Onward(s, Apply(s, op))
  {
    var s' := Apply(s, op);
    assert Run(s', [], s');
    assert Run(s, [op], s') by { assert [op][1..] == []; }
    var timeout: nat :| Reaches(Init(timeout), s);
    ReachesOn(Init(timeout), s, s');
  }

  lemma OnwardTwice(s: Session, mid: Session, s': Session)
    requires Onward(s, mid) && Onward(mid, s')
    ensures Onward(s, s')
  {
    ReachesOn(s, mid, s');
  }

  /** All handlers have finished, except that the last one still has `owned` to settle. */
  predicate Working(hs: seq<Handler>, owned: seq<nat>) {
    && (forall h :: 0 <= h < |hs| - 1 ==> hs[h].owned == [])
    && (if hs == [] then owned == [] else hs[|hs| - 1].owned == owned)
  }

  /** Call n after the first calls of `done` have been written. */
  function Written(c: Call, n: nat, done: seq<nat>, src: Source): Call {
    if n in done then Write(c, src) else c
  }

  /** send_request before the transport, as one transition. */
  lemma RegisterSteps(s: Session, name: Value, params: Value) returns (s': Session)
    requires Reachable(s)
    ensures Onward(s, s')
    ensures s' == s.(counter := Wrap32(s.counter + 1), calls := s'.calls, displaced := s'.displaced,
                     table := s.table[s.counter := |s.calls|])
    ensures |s'.calls| == |s.calls| + 1 && forall n :: 0 <= n < |s.calls| ==> s'.calls[n] == s.calls[n]
    ensures var c := s'.calls[|s.calls|];
            c.stage == Registered && c.msgid == s.counter && c.name == name && c.params == params
            && c.fut == Futures.NewFuture(s.timeout)
  {
    var mid := ConstructSteps(s, name, params);
    ReachableTable(s);
    StepOnward(mid, Engine.Insert(|s.calls|));
    s' := Apply(mid, Engine.Insert(|s.calls|));
    OnwardTwice(s, mid, s');
  }

  lemma ConstructSteps(s: Session, name: Value, params: Value) returns (s': Session)
    requires Reachable(s)
    ensures Onward(s, s')
    ensures s' == s.(counter := Wrap32(s.counter + 1),
                     calls := s.calls + [NewCall(s, name, params).(stage := Created, born := s.timeout,
                                                                   fut := Futures.NewFuture(s.timeout))])
  {
    var n := |s.calls|;
    StepOnward(s, Allocate(name, params));
    var mid := Apply(s, Allocate(name, params));
    StepOnward(mid, Create(n));
    s' := Apply(mid, Create(n));
    OnwardTwice(s, mid, s');
  }

  /** One settlement by the last handler, as one transition. */
  lemma SettleSteps(s: Session, owned: seq<nat>) returns (s': Session)
    requires Reachable(s) && Working(s.handlers, owned) && owned != []
    ensures Onward(s, s')
    ensures owned[0] < |s.calls| && Working(s'.handlers, owned[1..])
    ensures |s'.handlers| == |s.handlers| > 0
    ensures var src := s.handlers[|s.handlers| - 1].cause;
            s' == s.(calls := s.calls[owned[0] := Write(s.calls[owned[0]], src)], handlers := s'.handlers)
            && s'.handlers[|s.handlers| - 1].cause == src
  {
    var h := |s.handlers| - 1;
    ReachableInv(s);
    OwnedAtLeast(s.handlers, h, owned[0]);
    assert s.handlers[h].owned[0] < |s.calls|;
    StepOnward(s, Settle(h));
    s' := Apply(s, Settle(h));
  }

  /** The calls tabled under the ids a walk of the hash map visits. */
  function CallsOf(s: Session, order: seq<MsgId>): (ids: seq<nat>)
    requires forall i :: 0 <= i < |order| ==> order[i] in s.table
    ensures |ids| == |order|
  {
    seq(|order|, i requires 0 <= i < |order| => s.table[order[i]])
  }

  function DueIds(s: Session): set<MsgId>
    requires TableOk(s)
  {
    set id | id in s.table && Futures.IsDue(s.calls[s.table[id]].fut)
  }

  /** A handler taking what it will settle out of the table, as one transition. */
  ghost predicate TakesOut(s: Session, s': Session, src: Source, ids: seq<nat>) {
    && Onward(s, s') && s'.waiters == s.waiters && s'.counter == s.counter && s'.timeout == s.timeout
    && |s'.handlers| == |s.handlers| + 1 && Working(s'.handlers, ids) && s'.handlers[|s.handlers|].cause == src
    && NoRepeats(ids) && (forall i :: 0 <= i < |ids| ==> ids[i] < |s.calls| == |s'.calls|)
  }

  lemma DueCalls(s: Session, order: seq<MsgId>, ids: seq<nat>)
    requires Reachable(s) && TableOk(s) && Lists(order, DueIds(s))
    requires (forall i :: 0 <= i < |order| ==> order[i] in s.table) && ids == CallsOf(s, order)
    ensures Lists(ids, DueSet(s)) && NoRepeats(ids) && forall n: nat :: n in ids <==> TickDue(s, n)
  {
    ReachableInv(s);
    ListsOfCalls(s, order, ids, DueIds(s), DueSet(s));
    ListsIff(ids, DueSet(s));
  }

  lemma TabledCalls(s: Session, order: seq<MsgId>, ids: seq<nat>)
    requires Reachable(s) && Lists(order, s.table.Keys)
    requires (forall i :: 0 <= i < |order| ==> order[i] in s.table) && ids == CallsOf(s, order)
    ensures Lists(ids, TabledSet(s)) && NoRepeats(ids) && forall n: nat :: n in ids <==> InTable(s, n)
  {
    ReachableInv(s);
    ListsOfCalls(s, order, ids, s.table.Keys, TabledSet(s));
    ListsIff(ids, TabledSet(s));
  }

  /** What a tick takes out, and what it leaves. */
  ghost predicate TicksOut(s: Session, s': Session, ids: seq<nat>) {
    && TakesOut(s, s', ByTick, ids) && (forall n: nat :: n in ids <==> TickDue(s, n))
    && s'.calls == CountDown(s) && s'.displaced == s.displaced && s'.ticks == s.ticks + 1
    && s'.table == map id | id in s.table && s.table[id] !in DueSet(s) :: s.table[id]
  }

  lemma TickSteps(s: Session, order: seq<MsgId>) returns (s': Session, ids: seq<nat>)
    requires Reachable(s) && TableOk(s) && Working(s.handlers, []) && Lists(order, DueIds(s))
    requires forall i :: 0 <= i < |order| ==> order[i] in s.table
    ensures ids == CallsOf(s, order) && TicksOut(s, s', ids)
  {
    ids := CallsOf(s, order);
    DueCalls(s, order, ids);
    StepOnward(s, Tick(ids));
    s' := Apply(s, Tick(ids));
  }

  lemma TakeAllSteps(s: Session, order: seq<MsgId>) returns (s': Session, ids: seq<nat>)
    requires Reachable(s) && Working(s.handlers, []) && Lists(order, s.table.Keys)
    requires forall i :: 0 <= i < |order| ==> order[i] in s.table
    ensures ids == CallsOf(s, order) && TakesOut(s, s', ByDrain, ids)
    ensures forall n: nat :: n in ids <==> InTable(s, n)
    ensures s' == s.(table := map[], handlers := s'.handlers)
  {
    ids := CallsOf(s, order);
    TabledCalls(s, order, ids);
    assert forall i :: 0 <= i < |ids| ==> ids[i] in ids && InTable(s, ids[i]);
    StepOnward(s, TakeAll(ids));
    s' := Apply(s, TakeAll(ids));
  }

  lemma TakeSteps(s: Session, id: MsgId, result: Value, error: Value) returns (s': Session)
    requires Reachable(s) && Working(s.handlers, []) && id in s.table
    ensures TakesOut(s, s', ByReply(result, error), [s.table[id]])
    ensures s' == s.(table := map k | k in s.table && k != id :: s.table[k], handlers := s'.handlers)
  {
    ReachableTable(s);
    StepOnward(s, Engine.Take(id, result, error));
    s' := Apply(s, Engine.Take(id, result, error));
  }

  lemma TakeMisses(s: Session, id: MsgId, result: Value, error: Value)
    requires Reachable(s) && id !in s.table
    ensures Onward(s, s)
  {
    assert Apply(s, Engine.Take(id, result, error)) == s;
    StepOnward(s, Engine.Take(id, result, error));
  }

  /** A handler's loop after its first i settlements. */
  ghost predicate Progressed(base: Session, s: Session, ids: seq<nat>, i: nat, src: Source) {
    && i <= |ids| && s == base.(calls := s.calls, handlers := s.handlers)
    && |s.calls| == |base.calls| && |s.handlers| == |base.handlers| > 0 && s.handlers[|s.handlers| - 1].cause == src
    && (forall n :: 0 <= n < |base.calls| ==> s.calls[n] == Written(base.calls[n], n, ids[..i], src))
  }

  lemma ProgressedNext(base: Session, s: Session, s': Session, ids: seq<nat>, i: nat, src: Source)
    requires Progressed(base, s, ids, i, src) && i < |ids| && NoRepeats(ids) && ids[i] < |s.calls|
    requires s' == s.(calls := s.calls[ids[i] := Write(s.calls[ids[i]], src)], handlers := s'.handlers)
    requires |s'.handlers| == |s.handlers| && s'.handlers[|s.handlers| - 1].cause == src
    ensures Progressed(base, s', ids, i + 1, src)
  {
    assert ids[..i + 1] == ids[..i] + [ids[i]];
    assert ids[i] !in ids[..i];
  }

  /** Call n after a whole tick: timed out if its count had run out, one step closer if it is tabled. */
  function Ticked(s: Session, n: nat): Call
    requires n < |s.calls|
  {
    if TickDue(s, n) then Write(s.calls[n], ByTick)
    else if InTable(s, n) then s.calls[n].(fut := Futures.StepTimeout(s.calls[n].fut))
    else s.calls[n]
  }

  /** What one run_once of the loop processes: the step timer, an incoming response, a broken connection, or
      something that does not concern this session. */
  datatype Event = TimerEvent | ResponseEvent(msgid: MsgId, result: Value, error: Value) | FailureEvent | OtherEvent

  /** With no handler at work, a pending future that was not overwritten is in the table. */
  lemma PendingIsTabled(s: Session, n: nat)
    requires Reachable(s) && Working(s.handlers, []) && Live(s, n) && s.calls[n].fut.pending && n !in s.displaced
    ensures InTable(s, n)
  {
    ReachableInv(s);
    assert CallOk(s.calls[n]) && Places(s, n) == 1;
    IdleOwnsNothing(s.handlers, n);
  }

  lemma {:induction false} IdleOwnsNothing(hs: seq<Handler>, n: nat)
    requires Working(hs, [])
    ensures Owned(hs, n) == 0
  {
    if hs != [] {
      IdleOwnsNothing(hs[..|hs| - 1], n);
    }
  }

  /** What an event does to the session's calls. */
  ghost predicate Effect(s: Session, s': Session, e: Event) {
    && |s'.calls| == |s.calls| && s'.displaced == s.displaced
    && forall n :: 0 <= n < |s.calls| ==>
         s'.calls[n] ==
           match e
           case TimerEvent => Ticked(s, n)
           case ResponseEvent(id, result, error) =>
             if id in s.table && s.table[id] == n then Write(s.calls[n], ByReply(result, error)) else s.calls[n]
           case FailureEvent => if InTable(s, n) then Write(s.calls[n], ByDrain) else s.calls[n]
           case OtherEvent => s.calls[n]
  }

  /** Call n across one event: still pending only if it was, and then with one tick less after the timer. */
  lemma AcrossEvent(s: Session, s': Session, n: nat, e: Event)
    requires Reachable(s) && Working(s.handlers, []) && Live(s, n) && n !in s.displaced && Effect(s, s', e)
    ensures s'.calls[n].fut.pending ==>
              s.calls[n].fut.pending
              && s'.calls[n].fut.timeout + (if e.TimerEvent? then 1 else 0) == s.calls[n].fut.timeout
  {
    if s.calls[n].fut.pending {
      PendingIsTabled(s, n);
    }
  }

  /** k intervals of b events. */
  function Budget(k: nat, b: nat): nat {
    if k == 0 then 0 else Budget(k - 1, b) + b
  }

  lemma {:induction false} BudgetMono(j: nat, k: nat, b: nat)
    requires j <= k
    ensures Budget(j, b) <= Budget(k, b)
    decreases k
  {
    if j < k {
      BudgetMono(j, k - 1, b);
    }
  }

  lemma {:induction false} BudgetIsProduct(k: nat, b: nat)
    ensures Budget(k, b) == k * b
  {
    if k > 0 {
      BudgetIsProduct(k - 1, b);
      assert k * b == (k - 1) * b + b;
    }
  }

  ghost predicate TickAt(events: nat -> Event, from: nat, j: nat, bound: nat) {
    from <= j < from + bound && events(j).TimerEvent?
  }

  /** Some timer tick is among the `bound` events from number `from` on. */
  ghost predicate TickSoon(events: nat -> Event, from: nat, bound: nat) {
    exists j: nat :: TickAt(events, from, j, bound)
  }

  /** While waiting with `left` ticks to go out of t0: a tick is coming at `next`, and `limit` events suffice. */
  ghost predicate Waiting(events: nat -> Event, bound: nat, t0: nat, left: nat, used: nat, next: nat, limit: nat) {
    && used <= next < limit && events(next).TimerEvent?
    && left <= t0 && limit == Budget(t0 - left + 1, bound) <= Budget(t0 + 1, bound)
  }

  lemma WaitingStart(events: nat -> Event, bound: nat, t0: nat) returns (next: nat, limit: nat)
    requires forall i: nat :: TickSoon(events, i, bound)
    ensures Waiting(events, bound, t0, t0, 0, next, limit)
  {
    assert TickSoon(events, 0, bound);
    next :| TickAt(events, 0, next, bound);
    limit := bound;
    BudgetMono(1, t0 + 1, bound);
  }

  /** After one more event the wait goes on within the same budget. */
  lemma WaitingOn(events: nat -> Event, bound: nat, t0: nat, left: nat, left': nat, used: nat, next: nat, limit: nat)
    returns (next': nat, limit': nat)
    requires forall i: nat :: TickSoon(events, i, bound)
    requires Waiting(events, bound, t0, left, used, next, limit)
    requires left' + (if events(used).TimerEvent? then 1 else 0) == left
    ensures Waiting(events, bound, t0, left', used + 1, next', limit')
    ensures left' < left || (left' == left && next' == next)
  {
    if events(used).TimerEvent? {
      BudgetMono(t0 - left' + 1, t0 + 1, bound);
      assert TickSoon(events, used + 1, bound);
      next' :| TickAt(events, used + 1, next', bound);
      limit' := limit + bound;
    } else {
      next', limit' := next, limit;
    }
  }

  /** session_impl. `core` is the state of the call engine this object is in; call n is the object impls[n]. */
  class SessionImpl {
    const m_msgid_rr: AtomicInt
    const m_reqtable: Reqtable
    var m_timeout: nat
    ghost var core: Session
    ghost var impls: seq<FutureImpl>

    ghost predicate Matches(owned: seq<nat>)
      reads this, m_msgid_rr, m_reqtable, impls
    {
      InStep(owned) && ImplsOk(core) && TableMatches(core)
    }

    /** What ties this object to the engine's state, apart from the futures and the table. */
    ghost predicate InStep(owned: seq<nat>)
      reads this, m_msgid_rr
    {
      && Reachable(core) && TableOk(core)
      && m_msgid_rr.value == core.counter && m_timeout == core.timeout
      && NoRepeats(impls) && Working(core.handlers, owned) && core.waiters == []
    }

    /** The future objects are the futures of s. */
    ghost predicate ImplsOk(s: Session)
      reads this`impls, impls
    {
      ImplsAre(impls, s)
    }

    ghost predicate ImplsAre(fs: seq<FutureImpl>, s: Session)
      reads fs
    {
      |fs| == |s.calls| && forall n :: 0 <= n < |fs| ==> ImplIs(fs[n], s.calls[n]) && Live(s, n)
    }

    ghost predicate ImplIs(f: FutureImpl, c: Call)
      reads f
    {
      f.m_msgid == c.msgid && f.View() == c.fut && (f.m_session == null || f.m_session == this)
    }

    ghost predicate TableMatches(s: Session)
      reads this`impls, m_reqtable
    {
      TableIn(impls, s)
    }

    ghost predicate TableIn(fs: seq<FutureImpl>, s: Session)
      reads m_reqtable
    {
      && m_reqtable.m_map.Keys == s.table.Keys
      && (forall k :: k in s.table ==> s.table[k] < |fs| && m_reqtable.m_map[k] == fs[s.table[k]])
    }

    /** Between two method calls no handler is at work. */
    ghost predicate Valid()
      reads this, m_msgid_rr, m_reqtable, impls
    {
      Matches([])
    }

    constructor (timeout: nat)
      ensures Valid() && fresh(m_msgid_rr) && fresh(m_reqtable)
      ensures core == Init(timeout) && impls == []
    {
      m_msgid_rr := new AtomicInt(1);
      m_reqtable := new Reqtable();
      m_timeout := timeout;
      core := Init(timeout);
      impls := [];
      new;
      assert Run(Init(timeout), [], Init(timeout));
      assert Reachable(core);
    }

    method SetTimeout(sec: nat)
      requires Valid()
      modifies this`m_timeout, this`core
      ensures Valid() && m_timeout == sec
      ensures core == old(core).(timeout := sec) && Onward(old(core), core)
    {
      m_timeout := sec;
      StepOnward(core, Engine.SetTimeout(sec));
      core := Apply(core, Engine.SetTimeout(sec));
    }

    /** session::send_request up to the transport: take an id, construct the future, table it. */
    method Register(name: Value, params: Value) returns (f: FutureImpl)
      requires Valid()
      modifies this`core, this`impls, m_msgid_rr, m_reqtable
      ensures Valid() && Onward(old(core), core)
      ensures fresh(f) && impls == old(impls) + [f] && m_reqtable.m_map == old(m_reqtable.m_map)[f.m_msgid := f]
      ensures f.m_msgid == old(core).counter && f.m_session == this && f.m_timeout == m_timeout
      ensures InTable(core, |old(impls)|)
      ensures var c := core.calls[|old(impls)|];
              c.stage == Registered && c.name == name && c.params == params && c.msgid == f.m_msgid
    {
      ghost var next := RegisterSteps(core, name, params);
      ReachableTable(next);
      var msgid := m_msgid_rr.FetchAndIncrement();
      f := new FutureImpl(msgid, this);
      ghost var m0 := m_reqtable.m_map;
      m_reqtable.Insert(msgid, f);
      CallAdded(next, m0, f);
      core, impls := next, impls + [f];
    }

    /** The new call's object, before it is recorded as such. */
    lemma CallAdded(next: Session, m0: map<MsgId, FutureImpl>, f: FutureImpl)
      requires ImplsOk(core) && NoRepeats(impls) && f !in impls
      requires |next.calls| == |core.calls| + 1 && forall n :: 0 <= n < |core.calls| ==> next.calls[n] == core.calls[n]
      requires ImplIs(f, next.calls[|core.calls|]) && next.calls[|core.calls|].stage == Registered
      requires m0.Keys == core.table.Keys
      requires forall k :: k in m0 ==> core.table[k] < |impls| && m0[k] == impls[core.table[k]]
      requires m_reqtable.m_map == m0[f.m_msgid := f] && next.table == core.table[f.m_msgid := |core.calls|]
      ensures NoRepeats(impls + [f]) && ImplsAre(impls + [f], next) && TableIn(impls + [f], next)
    {
      forall n | 0 <= n < |impls|
        ensures ImplIs((impls + [f])[n], next.calls[n]) && Live(next, n)
      {
        assert ImplIs(impls[n], core.calls[n]) && Live(core, n);
      }
    }

    /** The transport has taken the data of call n. */
    ghost method Transmitted(n: nat)
      requires Valid() && n < |core.calls| && core.calls[n].stage == Registered
      modifies this`core
      ensures Valid() && Onward(old(core), core)
      ensures core == old(core).(calls := old(core).calls[n := old(core).calls[n].(stage := Sent)])
    {
      StepOnward(core, Transmit(n));
      core := Apply(core, Transmit(n));
      ReachableTable(core);
    }

    /** future::attach_callback on call n. */
    method Attach(f: FutureImpl, ghost n: nat, cb: Callback)
      requires Valid() && n < |impls| && f == impls[n]
      modifies this`core, f
      ensures Valid() && Onward(old(core), core) && f.View() == Futures.AttachCallback(old(f.View()), cb)
      ensures n < |old(core).calls| && core.calls == old(core).calls[n := old(core).calls[n].(fut := f.View())]
      ensures core == old(core).(calls := core.calls)
    {
      assert ImplIs(f, core.calls[n]) && Live(core, n);
      StepOnward(core, AttachTo(n, cb));
      ghost var next := Apply(core, AttachTo(n, cb));
      ReachableTable(next);
      f.AttachCallback(cb);
      core := next;
    }

    /** One f->set_result of a handler's loop, on the first call it still owns. */
    method SettleNext(f: FutureImpl, ghost owned: seq<nat>, result: Object, error: Object)
      requires Matches(owned) && owned != [] && owned[0] < |impls| && f == impls[owned[0]]
      requires var src := core.handlers[|core.handlers| - 1].cause;
               result == ResultOf(src) && error == ErrorOf(src)
      modifies this`core, f
      ensures Matches(owned[1..])
      ensures Onward(old(core), core)
      ensures |core.handlers| == |old(core).handlers| > 0
      ensures var src := old(core).handlers[|core.handlers| - 1].cause;
              core == old(core).(calls := old(core).calls[owned[0] := Write(old(core).calls[owned[0]], src)],
                                 handlers := core.handlers)
              && core.handlers[|core.handlers| - 1].cause == src
    {
      ghost var next := SettleSteps(core, owned);
      ReachableTable(next);
      f.SetResult(result, error);
      core := next;
    }

    /** Round i of a handler's loop. */
    method SettleAt(f: FutureImpl, ghost ids: seq<nat>, ghost i: nat, ghost start: Session, ghost base: Session,
                    ghost src: Source, result: Object, error: Object)
      requires i < |ids| && ids[i] < |impls| && f == impls[ids[i]] && NoRepeats(ids)
      requires Matches(ids[i..]) && Onward(start, core) && Progressed(base, core, ids, i, src)
      requires result == ResultOf(src) && error == ErrorOf(src)
      modifies this`core, f
      ensures Matches(ids[i + 1..]) && Onward(start, core) && Progressed(base, core, ids, i + 1, src)
    {
      ghost var before := core;
      SettleNext(f, ids[i..], result, error);
      assert ids[i..][1..] == ids[i + 1..];
      ProgressedNext(base, before, core, ids, i, src);
      OnwardTwice(start, before, core);
    }

    /** The first half of step_timer_handler, under the table's lock. */
    method StepTable() returns (timedout: seq<FutureImpl>, ghost ids: seq<nat>)
      requires Valid()
      modifies this`core, m_reqtable`m_map, impls`m_timeout
      ensures Matches(ids) && TicksOut(old(core), core, ids)
      ensures |timedout| == |ids| && forall i :: 0 <= i < |ids| ==> timedout[i] == impls[ids[i]]
    {
      ghost var order: seq<MsgId>;
      ghost var m0, t0 := m_reqtable.m_map, m_reqtable.Timeouts();
      TimeoutsAreCounts();
      timedout, order := StepCounts();
      ghost var next: Session;
      next, ids := TickNext(m0, t0, timedout, order);
      core := next;
    }

    /** The engine's tick, once the table and the counts have been stepped. */
    lemma TickNext(m0: map<MsgId, FutureImpl>, t0: map<MsgId, nat>, timedout: seq<FutureImpl>, order: seq<MsgId>)
      returns (next: Session, ids: seq<nat>)
      requires InStep([]) && TableIs(core, m0, t0) && SameButCounts(core, m0)
      requires Reqtable.Progress(m0, t0, m0.Keys, m_reqtable.m_map, timedout, order)
      ensures ImplsOk(next) && TableOk(next) && TableMatches(next)
      ensures TicksOut(core, next, ids)
      ensures |timedout| == |ids| && forall i :: 0 <= i < |ids| ==> timedout[i] == impls[ids[i]]
    {
      WalkedDue(core, m0, t0, timedout, order);
      next, ids := TickSteps(core, order);
      TickedImpls(core, m0, t0, next);
      TickedTable(core, m0, t0, next);
    }

    /** The entries of s's table are the objects in m0, with the counts in t0. */
    ghost predicate TableIs(s: Session, m0: map<MsgId, FutureImpl>, t0: map<MsgId, nat>)
      reads this`impls
    {
      && TableOk(s) && |impls| == |s.calls| && m0.Keys == t0.Keys == s.table.Keys
      && forall k :: k in s.table ==> m0[k] == impls[s.table[k]] && t0[k] == s.calls[s.table[k]].fut.timeout
    }

    /** The walk of the table has picked the objects of the due calls. */
    lemma WalkedDue(s: Session, m0: map<MsgId, FutureImpl>, t0: map<MsgId, nat>,
                    out: seq<FutureImpl>, order: seq<MsgId>)
      requires TableIs(s, m0, t0) && Lists(order, Reqtable.DueIn(t0, m0.Keys)) && Reqtable.Picks(m0, out, order)
      ensures Lists(order, DueIds(s)) && |out| == |order|
      ensures forall i :: 0 <= i < |order| ==> order[i] in s.table && out[i] == impls[s.table[order[i]]]
    {
      assert Reqtable.DueIn(t0, m0.Keys) == DueIds(s);
    }

    /** reqtable::step_timeout on this session's table: of the future objects nothing but counts changes. */
    method StepCounts() returns (timedout: seq<FutureImpl>, ghost order: seq<MsgId>)
      requires Valid()
      modifies m_reqtable`m_map, impls`m_timeout
      ensures Reqtable.Progress(old(m_reqtable.m_map), old(m_reqtable.Timeouts()), old(m_reqtable.m_map).Keys,
                                m_reqtable.m_map, timedout, order)
      ensures SameButCounts(core, old(m_reqtable.m_map))
    {
      ghost var m0 := m_reqtable.m_map;
      TableInjective();
      ValuesAreImpls();
      timedout, order := m_reqtable.StepTimeout();
      forall n | 0 <= n < |impls|
        ensures ImplIsButCount(impls[n], core.calls[n]) && Live(core, n)
        ensures impls[n] !in m0.Values ==> impls[n].m_timeout == core.calls[n].fut.timeout
      {
        assert old(ImplIs(impls[n], core.calls[n]));
      }
    }

    /** The future objects are the futures of s, except for the counts of those tabled in m0. */
    ghost predicate SameButCounts(s: Session, m0: map<MsgId, FutureImpl>)
      reads this`impls, impls
    {
      |impls| == |s.calls| && forall n :: 0 <= n < |impls| ==>
        ImplIsButCount(impls[n], s.calls[n]) && Live(s, n)
        && (impls[n] !in m0.Values ==> impls[n].m_timeout == s.calls[n].fut.timeout)
    }

    /** The table after it has been stepped. */
    lemma TickedTable(s: Session, m0: map<MsgId, FutureImpl>, t0: map<MsgId, nat>, next: Session)
      requires TableIs(s, m0, t0) && Reachable(next)
      requires m_reqtable.m_map == m0 - Reqtable.DueIn(t0, m0.Keys)
      requires next.table == map id | id in s.table && s.table[id] !in DueSet(s) :: s.table[id]
      ensures TableOk(next) && TableMatches(next)
    {
      ReachableTable(next);
    }

    /** Call n's object, its count aside. */
    ghost predicate ImplIsButCount(f: FutureImpl, c: Call)
      reads f
    {
      f.m_msgid == c.msgid && f.View() == c.fut.(timeout := f.m_timeout) && (f.m_session == null || f.m_session == this)
    }

    /** The futures after the table has been stepped, nothing but counts having changed. */
    lemma TickedImpls(s: Session, m0: map<MsgId, FutureImpl>, t0: map<MsgId, nat>, next: Session)
      requires TableIs(s, m0, t0) && NoRepeats(impls) && next.calls == CountDown(s)
      requires Reqtable.Stepped(m0, t0, m0.Keys)
      requires SameButCounts(s, m0)
      ensures ImplsOk(next)
    {
      forall n: nat | n < |impls|
        ensures ImplIs(impls[n], next.calls[n]) && Live(next, n)
      {
        var f := impls[n];
        assert ImplIsButCount(f, s.calls[n]) && Live(s, n);
        assert forall k :: k in s.table && m0[k] == f ==> s.table[k] == n;
        if InTable(s, n) {
          assert m0[s.calls[n].msgid] == f;
        } else {
          assert f !in m0.Values;
        }
      }
    }

    lemma TimeoutsAreCounts()
      requires Valid()
      ensures TableIs(core, m_reqtable.m_map, m_reqtable.Timeouts())
    {
      forall k | k in core.table
        ensures m_reqtable.Timeouts()[k] == core.calls[core.table[k]].fut.timeout
      {
        assert ImplIs(impls[core.table[k]], core.calls[core.table[k]]);
      }
    }

    lemma TableInjective()
      requires Valid()
      ensures Reqtable.Injective(m_reqtable.m_map)
    {
      forall a, b | a in core.table && b in core.table && a != b
        ensures m_reqtable.m_map[a] != m_reqtable.m_map[b]
      {
        assert core.table[a] != core.table[b];
      }
    }

    lemma ValuesAreImpls()
      requires Valid()
      ensures forall f :: f in m_reqtable.m_map.Values ==> f in impls
    {}

    method StepTimerHandler()
      requires Valid()
      modifies this`core, m_reqtable, impls
      ensures Valid() && Onward(old(core), core)
      ensures core.table == map id | id in old(core).table && old(core).table[id] !in DueSet(old(core)) ::
                old(core).table[id]
      ensures |core.calls| == |old(core).calls| && core.displaced == old(core).displaced
      ensures forall n :: 0 <= n < |core.calls| ==> core.calls[n] == Ticked(old(core), n)
    {
      var timedout: seq<FutureImpl>;
      ghost var ids: seq<nat>;
      timedout, ids := StepTable();
      ghost var next := core;
      for i := 0 to |timedout|
        invariant Matches(ids[i..]) && Onward(old(core), core) && Progressed(next, core, ids, i, ByTick)
      {
        SettleAt(timedout[i], ids, i, old(core), next, ByTick, NIL_OBJECT, TIMEOUT_ERROR);
      }
    }

    /** A snapshot of the table is failed; what callbacks register meanwhile is not part of it. */
    method OnConnectFailed()
      requires Valid()
      modifies this`core, m_reqtable, impls
      ensures Valid() && Onward(old(core), core) && impls == old(impls)
      ensures core == old(core).(table := map[], calls := core.calls, handlers := core.handlers)
      ensures |core.calls| == |old(core).calls|
      ensures forall n :: 0 <= n < |core.calls| ==>
                core.calls[n] ==
                  if InTable(old(core), n) then Write(old(core).calls[n], ByDrain) else old(core).calls[n]
    {
      var all: seq<FutureImpl>;
      ghost var ids: seq<nat>;
      all, ids := TakeTable();
      ghost var next := core;
      for i := 0 to |all|
        invariant Matches(ids[i..]) && Onward(old(core), core) && Progressed(next, core, ids, i, ByDrain)
      {
        SettleAt(all[i], ids, i, old(core), next, ByDrain, NIL_OBJECT, CONNECT_ERROR);
      }
    }

    /** The first half of on_connect_failed and on_system_error, under the table's lock. */
    method TakeTable() returns (all: seq<FutureImpl>, ghost ids: seq<nat>)
      requires Valid()
      modifies this`core, m_reqtable
      ensures Matches(ids) && TakesOut(old(core), core, ByDrain, ids)
      ensures |all| == |ids| && forall i :: 0 <= i < |ids| ==> all[i] == impls[ids[i]]
      ensures forall n: nat :: n in ids <==> InTable(old(core), n)
      ensures core == old(core).(table := map[], handlers := core.handlers)
    {
      ghost var m0, order := m_reqtable.m_map, [];
      all, order := m_reqtable.TakeAll();
      ghost var next: Session;
      next, ids := TakeAllNext(m0, all, order);
      core := next;
    }

    /** The engine's drain, once the table has been emptied. */
    lemma TakeAllNext(m0: map<MsgId, FutureImpl>, all: seq<FutureImpl>, order: seq<MsgId>)
      returns (next: Session, ids: seq<nat>)
      requires InStep([]) && ImplsOk(core) && m_reqtable.m_map == map[]
      requires m0.Keys == core.table.Keys && Lists(order, m0.Keys) && Reqtable.Picks(m0, all, order)
      requires forall k :: k in core.table ==> core.table[k] < |impls| && m0[k] == impls[core.table[k]]
      ensures ImplsOk(next) && TableOk(next) && TableMatches(next) && TakesOut(core, next, ByDrain, ids)
      ensures |all| == |ids| && forall i :: 0 <= i < |ids| ==> all[i] == impls[ids[i]]
      ensures forall n: nat :: n in ids <==> InTable(core, n)
      ensures next == core.(table := map[], handlers := next.handlers)
    {
      next, ids := TakeAllSteps(core, order);
    }

    /** The same loop, for an error on an established connection. */
    method OnSystemError()
      requires Valid()
      modifies this`core, m_reqtable, impls
      ensures Valid() && Onward(old(core), core) && impls == old(impls)
      ensures core == old(core).(table := map[], calls := core.calls, handlers := core.handlers)
      ensures |core.calls| == |old(core).calls|
      ensures forall n :: 0 <= n < |core.calls| ==>
                core.calls[n] ==
                  if InTable(old(core), n) then Write(old(core).calls[n], ByDrain) else old(core).calls[n]
    {
      OnConnectFailed();
    }

    method OnResponse(msgid: MsgId, result: Value, error: Value)
      requires Valid()
      modifies this`core, m_reqtable, impls
      ensures Valid() && Onward(old(core), core) && impls == old(impls)
      ensures msgid !in old(core).table ==> core == old(core)
      ensures msgid in old(core).table ==>
                var n := old(core).table[msgid];
                n < |old(core).calls|
                && core == old(core).(table := map k | k in old(core).table && k != msgid :: old(core).table[k],
                                      calls := old(core).calls[n := Write(old(core).calls[n], ByReply(result, error))],
                                      handlers := core.handlers)
    {
      var f := TakeEntry(msgid, result, error);
      if f == null {
        return;
      }
      SettleTaken(f, core.handlers[|core.handlers| - 1].owned[0], old(core), result, error);
    }

    /** The second half of on_response: f->set_result on the call taken out of the table in state `start`. */
    method SettleTaken(f: FutureImpl, ghost n: nat, ghost start: Session, result: Value, error: Value)
      requires Matches([n]) && n < |impls| && f == impls[n]
      requires TakesOut(start, core, ByReply(result, error), [n])
      modifies this`core, f
      ensures Valid() && Onward(start, core)
      ensures core == old(core).(calls := old(core).calls[n := Write(old(core).calls[n], ByReply(result, error))],
                                 handlers := core.handlers)
    {
      ghost var mid := core;
      SettleNext(f, [n], Unpack(result), Unpack(error));
      assert [n][1..] == [];
      OnwardTwice(start, mid, core);
    }

    /** The first half of on_response, under the table's lock. */
    method TakeEntry(msgid: MsgId, ghost result: Value, ghost error: Value) returns (f: FutureImpl?)
      requires Valid()
      modifies this`core, m_reqtable
      ensures Onward(old(core), core) && (f == null <==> msgid !in old(core).table)
      ensures f == null ==> Valid() && core == old(core)
      ensures f != null ==>
                var n := old(core).table[msgid];
                && n < |impls| && f == impls[n] && Matches([n])
                && TakesOut(old(core), core, ByReply(result, error), [n])
                && core == old(core).(table := map k | k in old(core).table && k != msgid :: old(core).table[k],
                                      handlers := core.handlers)
    {
      ghost var m0 := m_reqtable.m_map;
      f := m_reqtable.Take(msgid);
      if f == null {
        assert m_reqtable.m_map == m0;
        TakeMisses(core, msgid, result, error);
      } else {
        core := TakeNext(m0, msgid, result, error);
      }
    }

    /** The engine's take, once the entry has been removed. */
    lemma TakeNext(m0: map<MsgId, FutureImpl>, msgid: MsgId, result: Value, error: Value) returns (next: Session)
      requires InStep([]) && ImplsOk(core) && msgid in m0 && m0.Keys == core.table.Keys
      requires forall k :: k in core.table ==> core.table[k] < |impls| && m0[k] == impls[core.table[k]]
      requires m_reqtable.m_map == map k | k in m0 && k != msgid :: m0[k]
      ensures ImplsOk(next) && TableOk(next) && TableMatches(next)
      ensures TakesOut(core, next, ByReply(result, error), [core.table[msgid]])
      ensures next == core.(table := map k | k in core.table && k != msgid :: core.table[k], handlers := next.handlers)
    {
      next := TakeSteps(core, msgid, result, error);
      ReachableTable(next);
    }

    /** io_service::run_one: one handler runs to its end. */
    method RunOnce(e: Event)
      requires Valid()
      modifies this`core, m_reqtable, impls
      ensures Valid() && Onward(old(core), core) && impls == old(impls)
      ensures Effect(old(core), core, e)
    {
      match e {
        case TimerEvent => StepTimerHandler();
        case ResponseEvent(msgid, result, error) => OnResponse(msgid, result, error);
        case FailureEvent => OnSystemError();
        case OtherEvent => assert Run(core, [], core);
      }
    }

    /** One event while call n is being waited for. */
    method WaitOnce(f: FutureImpl, ghost n: nat, e: Event, ghost start: Session)
      requires Valid() && Onward(start, core)
      requires n < |impls| && f == impls[n] && n !in core.displaced && f.m_session != null
      modifies this`core, m_reqtable, impls
      ensures Valid() && Onward(start, core) && impls == old(impls) && core.displaced == old(core).displaced
      ensures f.m_session != null ==> f.m_timeout + (if e.TimerEvent? then 1 else 0) == old(f.m_timeout)
    {
      ghost var before := core;
      assert ImplIs(f, core.calls[n]) && Live(core, n);
      RunOnce(e);
      assert ImplIs(f, core.calls[n]);
      AcrossEvent(before, core, n, e);
      OnwardTwice(start, before, core);
    }

    /** One round of recv, and what it leaves to wait for. */
    method WaitRound(f: FutureImpl, ghost n: nat, events: nat -> Event, ghost bound: nat, ghost start: Session,
                     ghost t0: nat, used: nat, ghost next: nat, ghost limit: nat)
      returns (ghost next': nat, ghost limit': nat)
      requires Valid() && Onward(start, core)
      requires n < |impls| && f == impls[n] && n !in core.displaced && f.m_session != null
      requires forall i: nat :: TickSoon(events, i, bound)
      requires Waiting(events, bound, t0, f.m_timeout, used, next, limit)
      modifies this`core, m_reqtable, impls
      ensures Valid() && Onward(start, core) && impls == old(impls) && core.displaced == old(core).displaced
      ensures f.m_session != null ==>
                && Waiting(events, bound, t0, f.m_timeout, used + 1, next', limit')
                && (f.m_timeout < old(f.m_timeout) || (f.m_timeout == old(f.m_timeout) && next' == next))
    {
      ghost var left := f.m_timeout;
      next', limit' := next, limit;
      WaitOnce(f, n, events(used), start);
      if f.m_session != null {
        next', limit' := WaitingOn(events, bound, t0, left, f.m_timeout, used, next, limit);
      }
    }

    /** future_impl::recv on call n, the loop having no threads of its own. If every `bound` consecutive events
        contain a timer tick, it returns with the future ready after at most (timeout + 1) * bound events. */
    method Recv(f: FutureImpl, ghost n: nat, events: nat -> Event, ghost bound: nat) returns (used: nat)
      requires Valid() && n < |impls| && f == impls[n] && n !in core.displaced
      requires forall i: nat :: TickSoon(events, i, bound)
      modifies this`core, m_reqtable, impls
      ensures Valid() && Onward(old(core), core) && impls == old(impls)
      ensures f.m_session == null
      ensures used <= (old(f.m_timeout) + 1) * bound
    {
      used := 0;
      ghost var t0 := f.m_timeout;
      ghost var next: nat, limit: nat := WaitingStart(events, bound, t0);
      assert Run(core, [], core);
      while f.m_session != null
        invariant Valid() && Onward(old(core), core) && impls == old(impls)
        invariant n !in core.displaced
        invariant used <= Budget(t0 + 1, bound)
        invariant f.m_session != null ==> Waiting(events, bound, t0, f.m_timeout, used, next, limit)
        decreases f.m_session != null, f.m_timeout, next - used
      {
        next, limit := WaitRound(f, n, events, bound, old(core), t0, used, next, limit);
        used := used + 1;
      }
      BudgetIsProduct(t0 + 1, bound);
    }

    /** What get() made of call n is decided by the set_result that wrote it last. */
    ghost predicate Classified(n: nat, got: Got)
      reads this`core
    {
      && n < |core.calls| && core.calls[n].log != []
      && var last := Last(core.calls[n]);
         && (got == Threw(TimeoutError) <==> last.ByTick? || last.ByWait?)
         && (got == Threw(ConnectError) <==> last.ByDrain?)
         && (got == Threw(NoMethodError) <==> last.ByReply? && last.error == Int(1))
         && (got == Threw(ArgumentError) <==> last.ByReply? && last.error == Int(2))
         && (last.ByReply? && last.error == Nil ==> got == Returned(Object(last.result, Buffer)))
         && (last.ByReply? && last.error !in {Nil, Int(1), Int(2)} ==>
               got == Threw(RemoteError(Object(last.error, Buffer))))
    }

    lemma ReadyIsClassified(f: FutureImpl, n: nat)
      requires Valid() && n < |impls| && f == impls[n] && f.m_session == null
      ensures Classified(n, GetReady(f.m_result, f.m_error))
    {
      ReachableInv(core);
      assert ImplIs(f, core.calls[n]) && Live(core, n) && CallOk(core.calls[n]);
      GetAfter(core.calls[n]);
    }

    /** future::get_impl on call n when the loop has no threads of its own. */
    method Get(f: FutureImpl, ghost n: nat, events: nat -> Event, ghost bound: nat) returns (got: Got)
      requires Valid() && n < |impls| && f == impls[n] && n !in core.displaced
      requires forall i: nat :: TickSoon(events, i, bound)
      modifies this`core, m_reqtable, impls
      ensures Valid() && Onward(old(core), core) && impls == old(impls)
      ensures f.m_session == null && Classified(n, got)
    {
      if f.m_session != null {
        var _ := Recv(f, n, events, bound);
      } else {
        assert Run(core, [], core);
      }
      ReadyIsClassified(f, n);
      got := f.Unwrap();
    }
  }
}
