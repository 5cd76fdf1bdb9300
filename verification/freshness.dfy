/** When the wrapping id counter is safe: how much load a session takes before an insert can overwrite a live
    table entry (atomic_ops.h, session_impl::next_msgid, reqtable::insert). */
module Freshness {
  import opened Protocol
  import opened AtomicOps
  import opened Futures
  import opened Engine
  import opened EngineInvariants

  /** Load on a session: at most `rate` ids taken between two ticks, timeouts of at most `timeout`, and at
      most `lag` ticks between taking an id and tabling its future. */
  ghost predicate Load(s: Session, rate: nat, timeout: nat, lag: nat) {
    && (forall m: nat, n: nat :: m + rate <= n < |s.calls| ==> s.calls[m].taken < s.calls[n].taken)
    && (forall n: nat :: Live(s, n) ==> s.calls[n].born <= timeout && s.calls[n].since <= s.calls[n].taken + lag)
  }

  ghost predicate LoadedRun(s: Session, ops: seq<Op>, s': Session, rate: nat, timeout: nat, lag: nat)
    decreases |ops|
  {
    && Load(s, rate, timeout, lag)
    && if ops == [] then s' == s
       else Enabled(s, ops[0]) && LoadedRun(Apply(s, ops[0]), ops[1..], s', rate, timeout, lag)
  }

  lemma Distribute(a: nat, b: nat)
    ensures (a + 1) * b == a * b + b && a * b >= 0
  {}

  lemma CancelFactor(a: nat, b: nat, c: nat)
    ensures a * c < b * c ==> a < b
  {
    if a >= b {
      var d := a - b;
      assert (b + d) * c == b * c + d * c;
    }
  }

  /** Ids taken j times `rate` calls apart are at least j ticks apart. */
  lemma {:induction false} Spread(s: Session, rate: nat, timeout: nat, lag: nat, m: nat, n: nat, j: nat)
    requires ClockOk(s) && Load(s, rate, timeout, lag)
    requires m + j * rate <= n < |s.calls|
    ensures s.calls[m].taken + j <= s.calls[n].taken
    decreases j
  {
    if j > 0 {
      Distribute(j - 1, rate);
      Spread(s, rate, timeout, lag, m + rate, n, j - 1);
      assert s.calls[m].taken < s.calls[m + rate].taken;
    }
  }

  lemma CloseInTimeIsCloseInNumber(s: Session, rate: nat, timeout: nat, lag: nat, m: nat, n: nat)
    requires Inv(s) && Load(s, rate, timeout, lag) && (timeout + lag + 1) * rate <= TWO32
    requires m < n < |s.calls| && s.calls[n].taken <= s.calls[m].taken + timeout + lag
    ensures n - m < TWO32
  {
    if n - m >= TWO32 {
      Spread(s, rate, timeout, lag, m, n, timeout + lag + 1);
    }
  }

  /** Under a load with (timeout + lag + 1) * rate <= 2^32 the id being inserted is not in the table. */
  lemma InsertIsFresh(s: Session, n: nat, rate: nat, timeout: nat, lag: nat)
    requires Inv(s) && Enabled(s, Insert(n))
    requires Load(s, rate, timeout, lag) && Load(Apply(s, Insert(n)), rate, timeout, lag)
    requires (timeout + lag + 1) * rate <= TWO32
    ensures s.calls[n].msgid !in s.table
  {
    var id := s.calls[n].msgid;
    if id in s.table {
      var m := s.table[id];
      var s' := Apply(s, Insert(n));
      assert CallClockOk(s, m) && CallClockOk(s, n);
      assert Live(s', n) && s'.calls[n].since == s.ticks;
      assert s.calls[m].since <= s.calls[m].taken + lag;
      if m < n {
        CloseInTimeIsCloseInNumber(s, rate, timeout, lag, m, n);
      } else {
        CloseInTimeIsCloseInNumber(s, rate, timeout, lag, n, m);
      }
      CloseCallsHaveDistinctIds(m, n);
      assert false;
    }
  }

  lemma {:induction false} NoCollision(s: Session, ops: seq<Op>, s': Session, rate: nat, timeout: nat, lag: nat)
    requires Inv(s) && LoadedRun(s, ops, s', rate, timeout, lag)
    requires (timeout + lag + 1) * rate <= TWO32
    ensures s'.displaced == s.displaced && Run(s, ops, s') && Inv(s')
    decreases |ops|
  {
    if ops != [] {
      InvStep(s, ops[0]);
      if ops[0].Insert? {
        InsertIsFresh(s, ops[0].n, rate, timeout, lag);
      }
      NoCollision(Apply(s, ops[0]), ops[1..], s', rate, timeout, lag);
    }
  }

  // The bound is exact

  lemma {:induction false} LoadedRunAppend(s: Session, ops: seq<Op>, mid: Session, op: Op,
                                           rate: nat, timeout: nat, lag: nat)
    requires LoadedRun(s, ops, mid, rate, timeout, lag) && Enabled(mid, op)
    requires Load(Apply(mid, op), rate, timeout, lag)
    ensures LoadedRun(s, ops + [op], Apply(mid, op), rate, timeout, lag)
    decreases |ops|
  {
    if ops == [] {
      assert LoadedRun(Apply(mid, op), [], Apply(mid, op), rate, timeout, lag);
      assert (ops + [op])[1..] == [];
    } else {
      assert (ops + [op])[1..] == ops[1..] + [op];
      LoadedRunAppend(Apply(s, ops[0]), ops[1..], mid, op, rate, timeout, lag);
    }
  }

  /** Only call 0 has got past its id; `now` ids were taken in the current interval, the others before. */
  ghost predicate Piled(s: Session, now: nat, rate: nat, timeout: nat) {
    && now <= rate && now <= |s.calls| && 0 < |s.calls|
    && s.counter == IdOf(|s.calls|) && s.timeout == timeout
    && s.calls[0].born == timeout && s.calls[0].taken == 0
    && (forall n :: 0 <= n < |s.calls| ==> s.calls[n].msgid == IdOf(n))
    && (forall n :: 1 <= n < |s.calls| ==> s.calls[n].stage == Allocated)
    && (forall n :: 0 <= n < |s.calls| - now ==> s.calls[n].taken < s.ticks)
    && (forall n :: |s.calls| - now <= n < |s.calls| ==> s.calls[n].taken == s.ticks)
  }

  /** Call 0 is constructed and not tabled yet. */
  ghost predicate Held(s: Session, timeout: nat, lag: nat) {
    && 0 < |s.calls| && s.calls[0].stage == Created && s.calls[0].fut.timeout == timeout
    && s.table == map[] && s.ticks <= lag
  }

  /** Call 0 has been tabled `lag` ticks late, with the full timeout. */
  ghost predicate Tabled(s: Session, timeout: nat, lag: nat) {
    && 0 < |s.calls| && s.calls[0].stage == Registered && s.calls[0].since == lag <= s.ticks
    && s.calls[0].fut.timeout + (s.ticks - lag) == timeout && s.table == map[IdOf(0) := 0]
  }

  ghost predicate HeldOrTabled(s: Session, timeout: nat, lag: nat) {
    if s.ticks < lag then Held(s, timeout, lag) else Tabled(s, timeout, lag)
  }

  ghost predicate Pile(s: Session, now: nat, rate: nat, timeout: nat, lag: nat) {
    Load(s, rate, timeout, lag) && Piled(s, now, rate, timeout) && HeldOrTabled(s, timeout, lag)
  }

  /** Call 0 up to its construction. */
  lemma PileStart(rate: nat, timeout: nat, lag: nat) returns (ops: seq<Op>, s: Session)
    requires rate > 0
    ensures LoadedRun(Init(timeout), ops, s, rate, timeout, lag) && Load(s, rate, timeout, lag)
    ensures Piled(s, 1, rate, timeout) && Held(s, timeout, lag) && s.ticks == 0 && |s.calls| == 1
  {
    var s0, next := Init(timeout), Allocate(Nil, Nil);
    assert LoadedRun(s0, [], s0, rate, timeout, lag);
    var s1 := Apply(s0, next);
    LoadedRunAppend(s0, [], s0, next, rate, timeout, lag);
    s := Apply(s1, Create(0));
    LoadedRunAppend(s0, [] + [next], s1, Create(0), rate, timeout, lag);
    ops := [] + [next] + [Create(0)];
  }

  /** Tabling call 0 once `lag` ticks have passed. */
  lemma PileInsert(s: Session, now: nat, rate: nat, timeout: nat, lag: nat)
    requires Load(s, rate, timeout, lag) && Piled(s, now, rate, timeout) && Held(s, timeout, lag) && s.ticks == lag
    ensures Enabled(s, Insert(0))
    ensures var s' := Apply(s, Insert(0));
            Pile(s', now, rate, timeout, lag) && |s'.calls| == |s.calls| && s'.ticks == s.ticks
            && forall n :: 0 <= n < |s.calls| ==> s'.calls[n].taken == s.calls[n].taken
  {
    var s' := Apply(s, Insert(0));
    assert forall n :: 1 <= n < |s.calls| ==> s'.calls[n] == s.calls[n];
  }

  /** One more id, in a current interval that is not full. */
  lemma PileOne(s: Session, now: nat, rate: nat, timeout: nat, lag: nat)
    requires Pile(s, now, rate, timeout, lag) && now < rate
    ensures var s' := Apply(s, Allocate(Nil, Nil));
            Pile(s', now + 1, rate, timeout, lag) && |s'.calls| == |s.calls| + 1 && s'.ticks == s.ticks
  {
    NextId(|s.calls|);
    var s' := Apply(s, Allocate(Nil, Nil));
    assert forall n :: 0 <= n < |s.calls| ==> s'.calls[n] == s.calls[n];
    assert s'.calls[|s.calls|].stage == Allocated && s'.calls[|s.calls|].taken == s.ticks;
  }

  /** A tick while call 0 is not due: nothing leaves the table, and only call 0 counts down. */
  lemma NothingDue(s: Session, now: nat, rate: nat, timeout: nat, lag: nat)
    requires Pile(s, now, rate, timeout, lag) && s.ticks < timeout + lag
    ensures Enabled(s, Tick([]))
    ensures var s' := Apply(s, Tick([]));
            && s' == s.(calls := s'.calls, handlers := s'.handlers, ticks := s.ticks + 1)
            && |s'.calls| == |s.calls|
            && s'.calls[0].fut.timeout == s.calls[0].fut.timeout - (if s.ticks < lag then 0 else 1)
            && forall n :: 0 <= n < |s.calls| ==> s'.calls[n] == s.calls[n].(fut := s'.calls[n].fut)
  {
    assert forall n :: 1 <= n < |s.calls| ==> !InTable(s, n);
    assert DueSet(s) == {};
    var s' := Apply(s, Tick([]));
    assert s'.table == s.table;
    assert forall n :: 0 <= n < |s.calls| ==> s'.calls[n] == s.calls[n].(fut := s'.calls[n].fut);
  }

  lemma PileTick(s: Session, now: nat, rate: nat, timeout: nat, lag: nat)
    requires Pile(s, now, rate, timeout, lag) && s.ticks < timeout + lag
    ensures Enabled(s, Tick([]))
    ensures var s' := Apply(s, Tick([]));
            && Load(s', rate, timeout, lag) && Piled(s', 0, rate, timeout)
            && (if s.ticks < lag then Held(s', timeout, lag) else Tabled(s', timeout, lag))
            && |s'.calls| == |s.calls| && s'.ticks == s.ticks + 1
            && forall n :: 0 <= n < |s.calls| ==> s'.calls[n].taken == s.calls[n].taken
  {
    NothingDue(s, now, rate, timeout, lag);
  }

  /** A tick, and call 0's insertion if that tick is the last one to wait for. */
  lemma PileTurn(ops: seq<Op>, s: Session, now: nat, rate: nat, timeout: nat, lag: nat)
    returns (ops': seq<Op>, s': Session)
    requires LoadedRun(Init(timeout), ops, s, rate, timeout, lag) && Pile(s, now, rate, timeout, lag)
    requires s.ticks < timeout + lag
    ensures LoadedRun(Init(timeout), ops', s', rate, timeout, lag) && Pile(s', 0, rate, timeout, lag)
    ensures |s'.calls| == |s.calls| && s'.ticks == s.ticks + 1
    ensures forall n :: 0 <= n < |s.calls| ==> s'.calls[n].taken == s.calls[n].taken
  {
    PileTick(s, now, rate, timeout, lag);
    LoadedRunAppend(Init(timeout), ops, s, Tick([]), rate, timeout, lag);
    ops', s' := ops + [Tick([])], Apply(s, Tick([]));
    if s'.ticks == lag {
      PileInsert(s', 0, rate, timeout, lag);
      LoadedRunAppend(Init(timeout), ops', s', Insert(0), rate, timeout, lag);
      ops', s' := ops' + [Insert(0)], Apply(s', Insert(0));
    }
  }

  lemma PileMore(ops: seq<Op>, s: Session, now: nat, rate: nat, timeout: nat, lag: nat)
    returns (ops': seq<Op>, s': Session, now': nat)
    requires LoadedRun(Init(timeout), ops, s, rate, timeout, lag) && Pile(s, now, rate, timeout, lag) && rate > 0
    requires now == rate ==> s.ticks < timeout + lag
    ensures LoadedRun(Init(timeout), ops', s', rate, timeout, lag) && Pile(s', now', rate, timeout, lag)
    ensures |s'.calls| == |s.calls| + 1
    ensures if now < rate then now' == now + 1 && s'.ticks == s.ticks else now' == 1 && s'.ticks == s.ticks + 1
  {
    var next := Allocate(Nil, Nil);
    ops', s', now' := ops, s, now;
    if now == rate {
      ops', s' := PileTurn(ops, s, now, rate, timeout, lag);
      now' := 0;
    }
    PileOne(s', now', rate, timeout, lag);
    LoadedRunAppend(Init(timeout), ops', s', next, rate, timeout, lag);
    ops', s', now' := ops' + [next], Apply(s', next), now' + 1;
  }

  /** k ids taken as fast as the load allows. */
  lemma {:induction false} PileUp(k: nat, rate: nat, timeout: nat, lag: nat)
    returns (ops: seq<Op>, s: Session, now: nat)
    requires k >= 1 && k - 1 < (timeout + lag + 1) * rate
    ensures LoadedRun(Init(timeout), ops, s, rate, timeout, lag) && Pile(s, now, rate, timeout, lag)
    ensures |s.calls| == k == s.ticks * rate + now && now >= 1 && s.ticks <= timeout + lag
    decreases k
  {
    if k == 1 {
      ops, s := PileFirst(rate, timeout, lag);
      now := 1;
    } else {
      ops, s, now := PileUp(k - 1, rate, timeout, lag);
      RoomLeft(s.ticks, now, rate, timeout + lag);
      ops, s, now := PileMore(ops, s, now, rate, timeout, lag);
    }
  }

  lemma PileFirst(rate: nat, timeout: nat, lag: nat) returns (ops: seq<Op>, s: Session)
    requires rate > 0
    ensures LoadedRun(Init(timeout), ops, s, rate, timeout, lag) && Pile(s, 1, rate, timeout, lag)
    ensures |s.calls| == 1 && s.ticks == 0
  {
    ops, s := PileStart(rate, timeout, lag);
    if lag == 0 {
      PileInsert(s, 1, rate, timeout, lag);
      LoadedRunAppend(Init(timeout), ops, s, Insert(0), rate, timeout, lag);
      ops, s := ops + [Insert(0)], Apply(s, Insert(0));
    }
  }

  /** A full interval before the last leaves room for another one. */
  lemma RoomLeft(ticks: nat, now: nat, rate: nat, last: nat)
    ensures (ticks + 1) * rate == ticks * rate + rate
    ensures now == rate && ticks * rate + now < (last + 1) * rate ==> ticks < last
  {
    Distribute(ticks, rate);
    CancelFactor(ticks + 1, last + 1, rate);
  }

  /** Ticks alone, until call 0 is tabled. */
  lemma {:induction false} AwaitTabled(ops: seq<Op>, s: Session, now: nat, rate: nat, timeout: nat, lag: nat)
    returns (ops': seq<Op>, s': Session, now': nat)
    requires LoadedRun(Init(timeout), ops, s, rate, timeout, lag) && Pile(s, now, rate, timeout, lag)
    ensures LoadedRun(Init(timeout), ops', s', rate, timeout, lag) && Pile(s', now', rate, timeout, lag)
    ensures s'.ticks == (if s.ticks < lag then lag else s.ticks) && |s'.calls| == |s.calls|
    ensures forall n :: 0 <= n < |s.calls| ==> s'.calls[n].taken == s.calls[n].taken
    decreases lag - s.ticks
  {
    ops', s', now' := ops, s, now;
    if s.ticks < lag {
      ops', s' := PileTurn(ops, s, now, rate, timeout, lag);
      ops', s', now' := AwaitTabled(ops', s', 0, rate, timeout, lag);
    }
  }

  lemma Collide(s: Session, now: nat, rate: nat, timeout: nat, lag: nat)
    requires Pile(s, now, rate, timeout, lag) && |s.calls| == TWO32 + 1
    requires lag <= s.ticks <= s.calls[TWO32].taken + lag
    ensures Enabled(s, Create(TWO32))
    ensures var s1 := Apply(s, Create(TWO32));
            && Load(s1, rate, timeout, lag)
            && Enabled(s1, Insert(TWO32))
            && Load(Apply(s1, Insert(TWO32)), rate, timeout, lag)
            && 0 in Apply(s1, Insert(TWO32)).displaced
  {
    SameIdIff(0, TWO32);
  }

  /** If more than 2^32 ids fit into timeout + lag + 1 intervals, some run within the load does overwrite. */
  lemma Overwrites(rate: nat, timeout: nat, lag: nat) returns (ops: seq<Op>, s: Session)
    requires (timeout + lag + 1) * rate > TWO32
    ensures LoadedRun(Init(timeout), ops, s, rate, timeout, lag) && s.displaced != {}
  {
    var ops0, s0, now := PileUp(TWO32 + 1, rate, timeout, lag);
    assert s0.calls[TWO32].taken == s0.ticks;
    ops0, s0, now := AwaitTabled(ops0, s0, now, rate, timeout, lag);
    Collide(s0, now, rate, timeout, lag);
    var s1 := Apply(s0, Create(TWO32));
    LoadedRunAppend(Init(timeout), ops0, s0, Create(TWO32), rate, timeout, lag);
    LoadedRunAppend(Init(timeout), ops0 + [Create(TWO32)], s1, Insert(TWO32), rate, timeout, lag);
    ops, s := ops0 + [Create(TWO32)] + [Insert(TWO32)], Apply(s1, Insert(TWO32));
  }

  ghost predicate NeverOverwrites(rate: nat, timeout: nat, lag: nat) {
    forall initial, ops, s :: LoadedRun(Init(initial), ops, s, rate, timeout, lag) ==> s.displaced == {}
  }

  /** No run within the load ever overwrites a live entry, through any number of wrap-arounds, exactly when
      (timeout + lag + 1) * rate <= 2^32. */
  lemma FreshnessBoundIsExact(rate: nat, timeout: nat, lag: nat)
    ensures NeverOverwrites(rate, timeout, lag) <==> (timeout + lag + 1) * rate <= TWO32
  {
    if (timeout + lag + 1) * rate <= TWO32 {
      forall initial, ops, s | LoadedRun(Init(initial), ops, s, rate, timeout, lag)
        ensures s.displaced == {}
      {
        InitInv(initial);
        NoCollision(Init(initial), ops, s, rate, timeout, lag);
      }
    } else {
      var ops, s := Overwrites(rate, timeout, lag);
      assert !NeverOverwrites(rate, timeout, lag);
    }
  }

  /** With fewer than 2^32 calls in all, no load condition is needed. */
  lemma {:induction false} FewCallsNeverCollide(s: Session, ops: seq<Op>, s': Session)
    requires Inv(s) && Run(s, ops, s') && |s'.calls| <= TWO32
    ensures s'.displaced == s.displaced && |s.calls| <= |s'.calls|
    decreases |ops|
  {
    if ops != [] {
      var mid := Apply(s, ops[0]);
      InvStep(s, ops[0]);
      FewCallsNeverCollide(mid, ops[1..], s');
      FewCallsStep(s, ops[0]);
    }
  }
}
