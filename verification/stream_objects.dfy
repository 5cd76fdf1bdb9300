/** The stream socket as an object (stream_handler.cc). */
module StreamObjects {
  import opened Protocol
  import opened Stream

  datatype Completion = Normal | Exception

  /** The writer after one send_data: `k` bytes of the frame of v went out, all of them unless the write failed. */
  function AfterSend(enc: Encoder, w: Writer, v: Value, k: nat, failed: bool): Writer
    requires k <= |enc(v)|
  {
    Writer(w.wire + enc(v)[..k], w.order + [v], None,
           if failed && w.failedAt == None then Some(|w.order|) else w.failedAt)
  }

  /** One send_data is one stay of its thread inside the lock. */
  lemma SendIsALockedWrite(dec: Decoder, accept: Filter, enc: Encoder, l: Link, v: Value, k: nat, failed: bool)
    requires PrefixCode(dec) && l.w.written == None && k <= |enc(v)| && (failed || k == |enc(v)|)
    ensures LinkRun(dec, accept, enc, l, [Acquire(v), WriteSome(k), if failed then Fail else Release],
                    l.(w := AfterSend(enc, l.w, v, k, failed)))
  {
    var last := if failed then Fail else Release;
    var l1 := LinkApply(dec, accept, enc, l, Acquire(v));
    var l2 := LinkApply(dec, accept, enc, l1, WriteSome(k));
    var l3 := LinkApply(dec, accept, enc, l2, last);
    assert l3 == l.(w := AfterSend(enc, l.w, v, k, failed));
    assert LinkRun(dec, accept, enc, l3, [], l3);
    assert [last][1..] == [];
    assert LinkRun(dec, accept, enc, l2, [last], l3);
    assert [WriteSome(k), last][1..] == [last];
    assert LinkRun(dec, accept, enc, l1, [WriteSome(k), last], l3);
    assert [Acquire(v), WriteSome(k), last][1..] == [WriteSome(k), last];
  }

  /** Draining `buf`, with `log` handed over already, does the same as draining buf0 from log0 on. */
  ghost predicate DrainedTo(dec: Decoder, take: Filter, buf0: Bytes, log0: seq<Value>, buf: Bytes, log: seq<Value>)
    requires PrefixCode(dec)
  {
    var d, e := Drain(dec, take, buf0), Drain(dec, take, buf);
    d.ok == e.ok && d.rest == e.rest && log0 + d.msgs == log + e.msgs
  }

  lemma DrainStep(dec: Decoder, take: Filter, buf0: Bytes, log0: seq<Value>, buf: Bytes, log: seq<Value>)
    requires PrefixCode(dec) && dec(buf).Got? && DrainedTo(dec, take, buf0, log0, buf, log)
    ensures 0 < dec(buf).len <= |buf|
    ensures if take(dec(buf).v) then DrainedTo(dec, take, buf0, log0, buf[dec(buf).len..], log + [dec(buf).v])
            else Drain(dec, take, buf0).ok == false && log0 + Drain(dec, take, buf0).msgs == log
  {
    assert SelfDelimiting(dec, buf);
    var v, rest := dec(buf).v, buf[dec(buf).len..];
    if take(v) {
      assert log + ([v] + Drain(dec, take, rest).msgs) == log + [v] + Drain(dec, take, rest).msgs;
    }
  }

  /** stream_handler. `m_reading` is an async_read_some being outstanding. The ghost fields record the messages
      handed over, the on_system_error calls, and the bytes that went out in which order. */
  class StreamHandler {
    const dec: Decoder
    const enc: Encoder
    const role: Role

    /** Whether the message's handler and the user code it calls return normally. */
    const handled: Filter

    var m_pac: Bytes
    var m_open: bool
    var m_reading: bool
    ghost var dispatched: seq<Value>
    ghost var systemErrors: nat
    ghost var w: Writer

    constructor (dec: Decoder, enc: Encoder, role: Role, handled: Filter)
      requires PrefixCode(dec)
      ensures Valid() && View() == FRESH_READER && m_open && systemErrors == 0
      ensures this.dec == dec && this.enc == enc && this.role == role && this.handled == handled
      ensures w == NEW_LINK.w
    {
      this.dec, this.enc, this.role, this.handled := dec, enc, role, handled;
      m_pac, m_open, m_reading := [], true, true;
      dispatched, systemErrors, w := [], 0, NEW_LINK.w;
    }

    ghost predicate Valid()
      reads this
    {
      PrefixCode(dec) && w.written == None
    }

    function Taken(): Filter {
      v => Accepts(role, v) && handled(v)
    }

    ghost function View(): Reader
      reads this
    {
      Reader(m_pac, dispatched, m_reading)
    }

    /** on_message: the tag picks the handler; a message the side does not handle, or whose handler throws,
        ends in an exception. */
    method OnMessage(v: Value) returns (c: Completion)
      modifies this`dispatched
      ensures c.Normal? <==> Taken()(v)
      ensures dispatched == if c.Normal? then old(dispatched) + [v] else old(dispatched)
    {
      assert Taken()(v) == (Accepts(role, v) && handled(v));
      match Dispatch(v) {
        case TypeError => return Exception;
        case Deliver(m) =>
          if (m.Request? && role == Role.Client) || (m.Response? && role == Role.Server) || !handled(v) {
            return Exception;
          }
          dispatched := dispatched + [v];
          return Normal;
      }
    }

    method OnSystemError()
      modifies this`m_open, this`systemErrors
      ensures !m_open && systemErrors == old(systemErrors) + 1
    {
      m_open := false;
      systemErrors := systemErrors + 1;
    }

    /** The loop over unpacker::next; it leaves in the buffer what starts no complete message. */
    method DrainBuffer() returns (c: Completion)
      requires Valid()
      modifies this`m_pac, this`dispatched
      ensures var d := Drain(dec, Taken(), old(m_pac));
              && c.Normal? == d.ok && dispatched == old(dispatched) + d.msgs && (d.ok ==> m_pac == d.rest)
    {
      ghost var take, buf0, log0 := Taken(), m_pac, dispatched;
      var found := dec(m_pac);
      while found.Got?
        invariant PrefixCode(dec) && found == dec(m_pac)
        invariant DrainedTo(dec, take, buf0, log0, m_pac, dispatched)
        decreases |m_pac|
      {
        DrainStep(dec, take, buf0, log0, m_pac, dispatched);
        c := OnMessage(found.v);
        if c.Exception? {
          return;
        }
        m_pac := m_pac[found.len..];
        found := dec(m_pac);
      }
      c := if found.Bad? then Exception else Normal;
    }

    /** on_read. An error, a rejected message and an oversized rest all end the reading: the owner is told
        exactly once, the socket is closed and the buffer is dropped. */
    method OnRead(err: bool, chunk: Bytes)
      requires Valid() && m_reading
      modifies this
      ensures Valid() && w == old(w)
      ensures !err ==> View() == Stream.OnRead(dec, Taken(), old(View()), chunk)
      ensures err ==> View() == Reader([], old(dispatched), false)
      ensures if m_reading then m_open == old(m_open) && systemErrors == old(systemErrors)
              else !m_open && systemErrors == old(systemErrors) + 1
    {
      m_reading := false;
      var failed := false;
      if !err {
        m_pac := m_pac + chunk;
        var c := DrainBuffer();
        if c.Normal? && |m_pac| <= MESSAGE_LIMIT {
          m_reading := true;
          return;
        }
        failed := true;
      }
      if err || failed {
        OnSystemError();
        m_pac := [];
      }
    }

    /** send_data of a packed message: nothing on a closed socket; `written` is how far the write got. */
    method SendData(frame: Bytes, ghost v: Value, written: nat)
      requires Valid() && frame == enc(v) && written <= |frame|
      modifies this`m_open, this`systemErrors, this`w
      ensures Valid()
      ensures if !old(m_open) then w == old(w) && !m_open && systemErrors == old(systemErrors)
              else w == AfterSend(enc, old(w), v, written, written < |frame|)
                   && m_open == (written == |frame|)
                   && systemErrors == old(systemErrors) + if m_open then 0 else 1
    {
      if !m_open {
        return;
      }
      w := AfterSend(enc, w, v, written, written < |frame|);
      if written < |frame| {
        OnSystemError();
      }
    }

    /** The overload for scattered buffers sends the same bytes: their concatenation, in order. */
    method SendVector(vec: seq<Bytes>, ghost v: Value, written: nat)
      requires Valid() && Concat(vec) == enc(v) && written <= |enc(v)|
      modifies this`m_open, this`systemErrors, this`w
      ensures Valid()
      ensures if !old(m_open) then w == old(w) && !m_open && systemErrors == old(systemErrors)
              else w == AfterSend(enc, old(w), v, written, written < |enc(v)|)
                   && m_open == (written == |enc(v)|)
                   && systemErrors == old(systemErrors) + if m_open then 0 else 1
    {
      if !m_open {
        return;
      }
      var buffers: seq<Bytes> := [];
      for i := 0 to |vec|
        invariant buffers == vec[..i]
      {
        buffers := buffers + [vec[i]];
      }
      var frame: Bytes := [];
      for i := 0 to |buffers|
        invariant frame + Concat(buffers[i..]) == Concat(buffers)
      {
        assert buffers[i..][1..] == buffers[i + 1..];
        frame := frame + buffers[i];
      }
      assert buffers == vec && buffers[|buffers|..] == [];
      SendData(frame, v, written);
    }
  }
}
