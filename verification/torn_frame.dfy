/** A small length-prefixed code, and what a failed write can do to a stream of it (stream_handler.cc). */
module TornFrame {
  import opened Protocol
  import opened Stream
  import opened StreamObjects

  // One byte of length, then that many bytes

  predicate Packable(v: Value) {
    v.Arr? && |v.items| < 256 && forall i :: 0 <= i < |v.items| ==> v.items[i].Int? && 0 <= v.items[i].n < 256
  }

  function Pack(v: Value): Bytes {
    if Packable(v) then
      [|v.items|] + seq(|v.items|, i requires 0 <= i < |v.items| => v.items[i].n)
    else [0]
  }

  function Items(s: Bytes): seq<Value> {
    seq(|s|, i requires 0 <= i < |s| => Int(s[i]))
  }

  function FrameLen(s: Bytes): (len: nat)
    requires s != []
    ensures len > 0
  {
    var n: int := s[0];
    n + 1
  }

  function Find(s: Bytes): Decoded {
    if s == [] || |s| < FrameLen(s) then Need else Got(Arr(Items(s[1..FrameLen(s)])), FrameLen(s))
  }

  /** The assumptions about the decoder can be met: this one is a prefix code, and it reads back every list of
      fewer than 256 bytes. */
  lemma LengthPrefixIsPrefixCode()
    ensures PrefixCode(Find)
  {
    forall s
      ensures SelfDelimiting(Find, s)
    {
      if Find(s).Got? {
        var front := s[..FrameLen(s)];
        assert front[1..FrameLen(front)] == s[1..FrameLen(s)];
      }
    }
    forall s, t
      ensures Stable(Find, s, t)
    {
      if Find(s).Got? {
        assert FrameLen(s + t) == FrameLen(s);
        assert (s + t)[1..FrameLen(s)] == s[1..FrameLen(s)];
      }
    }
  }

  lemma PackIsReadBack(v: Value)
    requires Packable(v)
    ensures Encodes(Find, Pack, v)
  {
    var s := Pack(v);
    assert |s| == FrameLen(s) && Items(s[1..|s|]) == v.items;
  }

  // A torn frame

  lemma {:induction false} LinkRunAppend(dec: Decoder, accept: Filter, enc: Encoder, l: Link, ops: seq<LinkOp>,
                                         mid: Link, more: seq<LinkOp>, l': Link)
    requires PrefixCode(dec) && LinkRun(dec, accept, enc, l, ops, mid) && LinkRun(dec, accept, enc, mid, more, l')
    ensures LinkRun(dec, accept, enc, l, ops + more, l')
    decreases |ops|
  {
    if ops == [] {
      assert ops + more == more;
    } else {
      assert (ops + more)[1..] == ops[1..] + more;
      LinkRunAppend(dec, accept, enc, LinkApply(dec, accept, enc, l, ops[0]), ops[1..], mid, more, l');
    }
  }

  const FIRST := Arr([Int(7), Int(8)])
  const SECOND := Arr([Int(9)])
  const TORN := Arr([Int(7), Int(1)])

  lemma DrainTorn(accept: Filter)
    requires PrefixCode(Find) && forall v :: accept(v)
    ensures Drain(Find, accept, [2, 7, 1, 9]) == Drained([TORN], [9], true)
  {
    var s: Bytes := [2, 7, 1, 9];
    assert s[1..3] == [7, 1] && Items([7, 1]) == [Int(7), Int(1)];
    assert Find(s) == Got(TORN, 3) && s[3..] == [9];
    assert Find([9]) == Need;
  }

  lemma Frames2()
    ensures Packable(FIRST) && Packable(SECOND) && Pack(FIRST) == [2, 7, 8] && Pack(SECOND) == [1, 9]
  {}

  /** Reading everything that is on the wire at once. */
  lemma ReadTorn(accept: Filter, l: Link) returns (l': Link)
    requires PrefixCode(Find) && forall v :: accept(v)
    requires l.r == FRESH_READER && l.chunks == [] && l.w.wire == [2, 7, 1, 9]
    ensures LinkRun(Find, accept, Pack, l, [Read(4)], l')
    ensures l'.w == l.w && l'.r == Reader([9], [TORN], true)
  {
    assert l.w.wire[0..0 + 4] == l.w.wire && FRESH_READER.buf + l.w.wire == l.w.wire;
    DrainTorn(accept);
    l' := LinkApply(Find, accept, Pack, l, Read(4));
    assert LinkRun(Find, accept, Pack, l', [], l') && [Read(4)][1..] == [];
  }

  /** A sender's write fails after two of its three bytes. A second sender, past the open check already, writes
      its whole frame, which completes the torn one: the reader hands over a message nobody sent. */
  lemma NoOrderAfterAFailure(accept: Filter) returns (ops: seq<LinkOp>, l: Link)
    requires forall v :: accept(v)
    ensures PrefixCode(Find) && LinkRun(Find, accept, Pack, NEW_LINK, ops, l) && AllEncoded(Find, Pack, l.w.order)
    ensures l.w.failedAt == Some(0) && l.w.order == [FIRST, SECOND]
    ensures l.r.log == [TORN] && !(l.r.log <= l.w.order) && TORN !in l.w.order
  {
    LengthPrefixIsPrefixCode();
    Frames2();
    PackIsReadBack(FIRST);
    PackIsReadBack(SECOND);
    SendIsALockedWrite(Find, accept, Pack, NEW_LINK, FIRST, 2, true);
    var w1 := AfterSend(Pack, NEW_LINK.w, FIRST, 2, true);
    var l1 := NEW_LINK.(w := w1);
    assert w1.wire == [2, 7];
    SendIsALockedWrite(Find, accept, Pack, l1, SECOND, 2, false);
    var w2 := AfterSend(Pack, w1, SECOND, 2, false);
    var l2 := l1.(w := w2);
    assert w2.wire == [2, 7, 1, 9];
    l := ReadTorn(accept, l2);
    var send1 := [Acquire(FIRST), WriteSome(2), Fail];
    var send2 := [Acquire(SECOND), WriteSome(2), Release];
    LinkRunAppend(Find, accept, Pack, NEW_LINK, send1, l1, send2, l2);
    LinkRunAppend(Find, accept, Pack, NEW_LINK, send1 + send2, l2, [Read(4)], l);
    ops := send1 + send2 + [Read(4)];
    assert TORN.items[1] != FIRST.items[1] && |TORN.items| != |SECOND.items|;
    assert l.r.log[0] != l.w.order[0];
  }
}
