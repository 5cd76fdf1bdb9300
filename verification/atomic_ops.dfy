/** The message id counter (atomic_ops.h, session_impl::next_msgid). */
module AtomicOps {
  import opened Protocol

  /** Two's complement reduction to 32 bits. */
  function Wrap32(n: int): MsgId {
    (n + TWO31) % TWO32 - TWO31
  }

  /** The id handed to the n-th call of a session, n from 0: the counter starts at 1. */
  function IdOf(n: nat): MsgId {
    Wrap32(1 + n)
  }

  class AtomicInt {
    var value: MsgId

    constructor (start: MsgId)
      ensures value == start
    {
      value := start;
    }

    /** __sync_fetch_and_add(p, 1) on a 32-bit int. */
    method FetchAndIncrement() returns (before: MsgId)
      modifies this
      ensures before == old(value) && value == Wrap32(old(value) + 1)
    {
      before := value;
      value := if value == TWO31 - 1 then -TWO31 else value + 1;
    }
  }

  /** Each increment moves from the id of call n to the id of call n + 1, across the wrap as well. */
  lemma NextId(n: nat)
    ensures IdOf(0) == 1 && Wrap32(IdOf(n) + 1) == IdOf(n + 1)
  {}

  /** Two calls share an id exactly when their numbers differ by a multiple of 2^32. */
  lemma SameIdIff(m: nat, n: nat)
    ensures IdOf(m) == IdOf(n) <==> (m - n) % TWO32 == 0
  {}

  lemma CloseCallsHaveDistinctIds(m: nat, n: nat)
    requires m != n && -TWO32 < m - n < TWO32
    ensures IdOf(m) != IdOf(n)
  {
    SameIdIff(m, n);
  }

  /** The id is packed as a signed integer, so it is the unsigned number the MessagePack-RPC
      specification asks for exactly during the non-negative half of each cycle. */
  lemma WireIdIsUnsignedIff(n: nat)
    ensures IdOf(n) == ToUnsigned(IdOf(n)) <==> (n + 1) % TWO32 < TWO31
  {}
}
