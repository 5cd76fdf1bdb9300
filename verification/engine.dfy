/** One client session as a concurrent step machine. Each step is one atomic increment, one region under the
    request table's lock, one region under a future's lock, or the hand-over to the transport
    (session.cc, reqtable.cc, future.cc, session.h). */
module Engine {
  import opened Protocol
  import opened AtomicOps
  import opened Futures

  /** How far send_request has come: id taken, future constructed, future tabled, data handed to the transport. */
  datatype Stage = Allocated | Created | Registered | Sent

  /** What a set_result call carries. */
  datatype Source = ByTick | ByWait | ByDrain | ByReply(result: Value, error: Value)

  function ResultOf(src: Source): Object {
    if src.ByReply? then Unpack(src.result) else NIL_OBJECT
  }

  function ErrorOf(src: Source): Object {
    match src
    case ByTick => TIMEOUT_ERROR
    case ByWait => TIMEOUT_ERROR
    case ByDrain => CONNECT_ERROR
    case ByReply(_, error) => Unpack(error)
  }

  /** The n-th call of a session. After `fut` come history fields: the timeout captured at construction, the
      tick counts at id allocation and at insertion, and what every set_result call so far carried. */
  datatype Call = Call(
    stage: Stage, msgid: MsgId, name: Value, params: Value, fut: Future,
    born: nat, taken: nat, since: nat, log: seq<Source>)

  /** A thread that has removed futures from the table and settles them one after another. */
  datatype Handler = Handler(cause: Source, owned: seq<nat>)

  /** `waiters` are the timed_wait calls that have expired, released the future's lock and not yet written.
      `ticks` and `displaced` are history: ticks so far, and calls whose table entry was overwritten. */
  datatype Session = Session(
    counter: MsgId, timeout: nat, calls: seq<Call>, table: map<MsgId, nat>,
    handlers: seq<Handler>, waiters: seq<nat>, ticks: nat, displaced: set<nat>)

  function Init(timeout: nat): Session {
    Session(1, timeout, [], map[], [], [], 0, {})
  }

  datatype Op =
    | Allocate(name: Value, params: Value)
    | Create(n: nat)
    | Insert(n: nat)
    | Transmit(n: nat)
    | Tick(out: seq<nat>)
    | TakeAll(out: seq<nat>)
    | Take(msgid: MsgId, result: Value, error: Value)
    | Settle(h: nat)
    | ExpireWait(n: nat)
    | SettleWait(w: nat)
    | AttachTo(n: nat, cb: Callback)
    | SetTimeout(timeout: nat)

  /** `out` lists the elements of `s`, each exactly once, in whatever order the hash map is walked. */
  ghost predicate Lists<T(!new)>(out: seq<T>, s: set<T>) {
    forall x {:trigger multiset(out)[x]} :: multiset(out)[x] == if x in s then 1 else 0
  }

  predicate InTable(s: Session, n: nat) {
    n < |s.calls| && s.calls[n].msgid in s.table && s.table[s.calls[n].msgid] == n
  }

  predicate TickDue(s: Session, n: nat) {
    InTable(s, n) && IsDue(s.calls[n].fut)
  }

  function DueSet(s: Session): set<nat> {
    set n | 0 <= n < |s.calls| && TickDue(s, n)
  }

  function TabledSet(s: Session): set<nat> {
    set n | 0 <= n < |s.calls| && InTable(s, n)
  }

  predicate Live(s: Session, n: nat) {
    n < |s.calls| && (s.calls[n].stage == Registered || s.calls[n].stage == Sent)
  }

  ghost predicate Enabled(s: Session, op: Op) {
    match op
    case Allocate(_, _) => true
    case Create(n) => n < |s.calls| && s.calls[n].stage == Allocated
    case Insert(n) => n < |s.calls| && s.calls[n].stage == Created
    case Transmit(n) => n < |s.calls| && s.calls[n].stage == Registered
    case Tick(out) => Lists(out, DueSet(s))
    case TakeAll(out) => Lists(out, TabledSet(s))
    case Take(_, _, _) => true
    case Settle(h) => h < |s.handlers| && s.handlers[h].owned != [] && s.handlers[h].owned[0] < |s.calls|
    case ExpireWait(n) => Live(s, n) && s.calls[n].fut.pending
    case SettleWait(w) => w < |s.waiters| && s.waiters[w] < |s.calls|
    case AttachTo(n, _) => Live(s, n)
    case SetTimeout(_) => true
  }

  function NewCall(s: Session, name: Value, params: Value): Call {
    Call(Allocated, s.counter, name, params, NewFuture(0).(pending := false), 0, s.ticks, 0, [])
  }

  function Write(c: Call, src: Source): Call {
    c.(fut := SetResult(c.fut, ResultOf(src), ErrorOf(src)), log := c.log + [src])
  }

  /** reqtable::step_timeout: every tabled future counts down, the ones already at zero leave. */
  function CountDown(s: Session): (calls: seq<Call>)
    ensures |calls| == |s.calls|
  {
    seq(|s.calls|, n requires 0 <= n < |s.calls| =>
      if InTable(s, n) then s.calls[n].(fut := StepTimeout(s.calls[n].fut)) else s.calls[n])
  }

  ghost function Apply(s: Session, op: Op): Session
    requires Enabled(s, op)
  {
    match op
    case Allocate(name, params) =>
      s.(counter := Wrap32(s.counter + 1), calls := s.calls + [NewCall(s, name, params)])
    case Create(n) =>
      s.(calls := s.calls[n := s.calls[n].(stage := Created, fut := NewFuture(s.timeout), born := s.timeout)])
    case Insert(n) =>
      var id := s.calls[n].msgid;
      s.(calls := s.calls[n := s.calls[n].(stage := Registered, since := s.ticks)],
         table := s.table[id := n],
         displaced := if id in s.table then s.displaced + {s.table[id]} else s.displaced)
    case Transmit(n) =>
      s.(calls := s.calls[n := s.calls[n].(stage := Sent)])
    case Tick(out) =>
      s.(calls := CountDown(s),
         table := map id | id in s.table && s.table[id] !in DueSet(s) :: s.table[id],
         handlers := s.handlers + [Handler(ByTick, out)],
         ticks := s.ticks + 1)
    case TakeAll(out) =>
      s.(table := map[], handlers := s.handlers + [Handler(ByDrain, out)])
    case Take(id, result, error) =>
      if id !in s.table then s
      else s.(table := map k | k in s.table && k != id :: s.table[k],
              handlers := s.handlers + [Handler(ByReply(result, error), [s.table[id]])])
    case Settle(h) =>
      var Handler(cause, owned) := s.handlers[h];
      s.(calls := s.calls[owned[0] := Write(s.calls[owned[0]], cause)],
         handlers := s.handlers[h := Handler(cause, owned[1..])])
    case ExpireWait(n) =>
      s.(waiters := s.waiters + [n])
    case SettleWait(w) =>
      var n := s.waiters[w];
      s.(calls := s.calls[n := Write(s.calls[n], ByWait)],
         waiters := s.waiters[..w] + s.waiters[w + 1..])
    case AttachTo(n, cb) =>
      s.(calls := s.calls[n := s.calls[n].(fut := AttachCallback(s.calls[n].fut, cb))])
    case SetTimeout(timeout) =>
      s.(timeout := timeout)
  }

  /** A run, one state after each step. */
  ghost predicate Run(s: Session, ops: seq<Op>, s': Session)
    decreases |ops|
  {
    if ops == [] then s' == s
    else Enabled(s, ops[0]) && Run(Apply(s, ops[0]), ops[1..], s')
  }

  ghost predicate Reaches(s: Session, s': Session) {
    exists ops :: Run(s, ops, s')
  }

  lemma {:induction false} RunAppend(s: Session, ops: seq<Op>, mid: Session, more: seq<Op>, s': Session)
    requires Run(s, ops, mid) && Run(mid, more, s')
    ensures Run(s, ops + more, s')
    decreases |ops|
  {
    if ops == [] {
      assert ops + more == more;
    } else {
      assert (ops + more)[1..] == ops[1..] + more;
      RunAppend(Apply(s, ops[0]), ops[1..], mid, more, s');
    }
  }
}
