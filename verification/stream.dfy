/** Message framing over a byte stream: the read side's drain loop, the write side's lock, and both ends
    together (stream_handler.cc). The msgpack unpacker is an arbitrary prefix-code decoder. */
module Stream {
  import opened Protocol

  type Byte = b: int | 0 <= b < 256
  type Bytes = seq<Byte>

  /** What unpacker::next finds at the front of its buffer. */
  datatype Decoded = Need | Bad | Got(v: Value, len: nat)

  type Decoder = Bytes -> Decoded
  type Filter = Value -> bool

  /** A message is recognized from its own bytes. */
  ghost predicate SelfDelimiting(dec: Decoder, s: Bytes) {
    dec(s).Got? ==> 0 < dec(s).len <= |s| && dec(s[..dec(s).len]) == dec(s)
  }

  /** Whatever is decided on some bytes stays decided when more arrive. */
  ghost predicate Stable(dec: Decoder, s: Bytes, t: Bytes) {
    !dec(s).Need? ==> dec(s + t) == dec(s)
  }

  /** And nothing is found in an empty buffer. */
  ghost predicate PrefixCode(dec: Decoder) {
    dec([]).Need? && (forall s :: SelfDelimiting(dec, s)) && (forall s, t :: Stable(dec, s, t))
  }

  const MESSAGE_LIMIT: nat := 10 * 1024 * 1024

  /** The drain loop of on_read on one buffer: the messages handed over, what is left, and whether it ended
      without an exception. `accept` is false for a message whose handler throws. */
  datatype Drained = Drained(msgs: seq<Value>, rest: Bytes, ok: bool)

  ghost function Drain(dec: Decoder, accept: Filter, buf: Bytes): Drained
    requires PrefixCode(dec)
    decreases |buf|
  {
    assert SelfDelimiting(dec, buf);
    match dec(buf)
    case Need => Drained([], buf, true)
    case Bad => Drained([], [], false)
    case Got(v, len) =>
      if accept(v) then
        var d := Drain(dec, accept, buf[len..]);
        d.(msgs := [v] + d.msgs)
      else Drained([], [], false)
  }

  /** A connection's read side: buffered bytes, messages dispatched so far, and whether it is still reading. */
  datatype Reader = Reader(buf: Bytes, log: seq<Value>, live: bool)

  const FRESH_READER := Reader([], [], true)

  /** One successful on_read: append, drain, check the size of what is left, go on or stop for good. */
  ghost function OnRead(dec: Decoder, accept: Filter, r: Reader, chunk: Bytes): Reader
    requires PrefixCode(dec)
  {
    if !r.live then r
    else
      var d := Drain(dec, accept, r.buf + chunk);
      if d.ok && |d.rest| <= MESSAGE_LIMIT then Reader(d.rest, r.log + d.msgs, true)
      else Reader([], r.log + d.msgs, false)
  }

  ghost function ReadAll(dec: Decoder, accept: Filter, r: Reader, chunks: seq<Bytes>): Reader
    requires PrefixCode(dec)
    decreases |chunks|
  {
    if chunks == [] then r else ReadAll(dec, accept, OnRead(dec, accept, r, chunks[0]), chunks[1..])
  }

  function Concat(chunks: seq<Bytes>): Bytes {
    if chunks == [] then [] else chunks[0] + Concat(chunks[1..])
  }

  // Draining in two goes

  /** Draining a + b hands over what draining a does; if a leaves a rest, it goes on from rest + b, and if a
      ends in an exception, so does a + b, with nothing more handed over. */
  lemma {:induction false} DrainSplit(dec: Decoder, accept: Filter, a: Bytes, b: Bytes)
    requires PrefixCode(dec)
    ensures var d := Drain(dec, accept, a);
            var e := Drain(dec, accept, d.rest + b);
            Drain(dec, accept, a + b) == if d.ok then e.(msgs := d.msgs + e.msgs) else d
    decreases |a|
  {
    assert SelfDelimiting(dec, a) && Stable(dec, a, b);
    match dec(a)
    case Need =>
    case Bad =>
    case Got(v, len) =>
      if accept(v) {
        assert (a + b)[len..] == a[len..] + b;
        DrainSplit(dec, accept, a[len..], b);
      }
  }

  lemma {:induction false} DrainIdempotent(dec: Decoder, accept: Filter, a: Bytes)
    requires PrefixCode(dec) && Drain(dec, accept, a).ok
    ensures dec(Drain(dec, accept, a).rest).Need?
    ensures |Drain(dec, accept, a).rest| <= |a|
    decreases |a|
  {
    assert SelfDelimiting(dec, a);
    match dec(a)
    case Need =>
    case Bad =>
    case Got(v, len) =>
      DrainIdempotent(dec, accept, a[len..]);
  }

  /** A reader that is dead hands over nothing more. */
  lemma {:induction false} DeadReader(dec: Decoder, accept: Filter, r: Reader, chunks: seq<Bytes>)
    requires PrefixCode(dec) && !r.live
    ensures ReadAll(dec, accept, r, chunks) == r
    decreases |chunks|
  {
    if chunks != [] {
      DeadReader(dec, accept, r, chunks[1..]);
    }
  }

  // Chunking invariance

  /** No message the stream dispatches is longer than 10 MiB and one byte. */
  ghost predicate FramesFit(dec: Decoder, accept: Filter, s: Bytes)
    requires PrefixCode(dec)
    decreases |s|
  {
    assert SelfDelimiting(dec, s);
    match dec(s)
    case Got(v, len) => accept(v) ==> len <= 10485761 && FramesFit(dec, accept, s[len..])
    case _ => true
  }

  ghost predicate ChunkingInvariant(dec: Decoder, accept: Filter, s: Bytes)
    requires PrefixCode(dec)
  {
    forall chunks :: Concat(chunks) == s ==>
      ReadAll(dec, accept, FRESH_READER, chunks).log == Drain(dec, accept, s).msgs
  }

  lemma {:induction false} FramesFitSuffix(dec: Decoder, accept: Filter, a: Bytes, b: Bytes)
    requires PrefixCode(dec) && FramesFit(dec, accept, a + b) && Drain(dec, accept, a).ok
    ensures FramesFit(dec, accept, Drain(dec, accept, a).rest + b)
    decreases |a|
  {
    assert SelfDelimiting(dec, a) && Stable(dec, a, b);
    match dec(a)
    case Need =>
    case Bad =>
    case Got(v, len) =>
      assert (a + b)[len..] == a[len..] + b;
      FramesFitSuffix(dec, accept, a[len..], b);
  }

  /** An undecided piece is shorter than the message it turns out to start. */
  lemma UndecidedIsProper(dec: Decoder, a: Bytes, b: Bytes)
    requires PrefixCode(dec)
    ensures dec(a + b).Got? && dec(a + b).len <= |a| ==> !dec(a).Need?
  {
    if dec(a + b).Got? && dec(a + b).len <= |a| {
      var front := a[..dec(a + b).len];
      assert SelfDelimiting(dec, a + b) && Stable(dec, front, a[|front|..]);
      assert (a + b)[..|front|] == front && a == front + a[|front|..];
    }
  }

  /** A live reader between two reads: what it has buffered starts no complete message. */
  ghost predicate Idle(dec: Decoder, accept: Filter, r: Reader)
    requires PrefixCode(dec)
  {
    r.live && Drain(dec, accept, r.buf).msgs == []
  }

  lemma FreshIsIdle(dec: Decoder, accept: Filter)
    requires PrefixCode(dec)
    ensures Idle(dec, accept, FRESH_READER)
  {
    assert SelfDelimiting(dec, []);
  }

  /** One read, against all that is still to come, b. */
  ghost predicate ReadAgainst(dec: Decoder, accept: Filter, r: Reader, r': Reader, chunk: Bytes, b: Bytes)
    requires PrefixCode(dec)
  {
    var all := r.log + Drain(dec, accept, r.buf + chunk + b).msgs;
    var fits := FramesFit(dec, accept, r.buf + chunk + b);
    if r'.live then
      Idle(dec, accept, r') && r'.log + Drain(dec, accept, r'.buf + b).msgs == all
      && (fits ==> FramesFit(dec, accept, r'.buf + b))
    else r'.log <= all && (fits ==> r'.log == all)
  }

  /** Draining what is buffered and the new chunk, against draining everything. */
  lemma DrainAgainst(dec: Decoder, accept: Filter, a: Bytes, b: Bytes)
    requires PrefixCode(dec)
    ensures var d := Drain(dec, accept, a);
            var all := Drain(dec, accept, a + b).msgs;
            if d.ok then
              Drain(dec, accept, d.rest).msgs == [] && all == d.msgs + Drain(dec, accept, d.rest + b).msgs
              && (FramesFit(dec, accept, a + b) ==> FramesFit(dec, accept, d.rest + b))
            else all == d.msgs
  {
    DrainSplit(dec, accept, a, b);
    if Drain(dec, accept, a).ok {
      DrainIdempotent(dec, accept, a);
      if FramesFit(dec, accept, a + b) {
        FramesFitSuffix(dec, accept, a, b);
      }
    }
  }

  lemma OneRead(dec: Decoder, accept: Filter, r: Reader, chunk: Bytes, b: Bytes)
    requires PrefixCode(dec) && Idle(dec, accept, r)
    ensures ReadAgainst(dec, accept, r, OnRead(dec, accept, r, chunk), chunk, b)
  {
    var d := Drain(dec, accept, r.buf + chunk);
    DrainAgainst(dec, accept, r.buf + chunk, b);
    if d.ok && |d.rest| <= MESSAGE_LIMIT {
      Assoc(r.log, d.msgs, Drain(dec, accept, d.rest + b).msgs);
    } else if d.ok {
      Assoc(r.log, d.msgs, Drain(dec, accept, d.rest + b).msgs);
      if FramesFit(dec, accept, r.buf + chunk + b) {
        DrainIdempotent(dec, accept, r.buf + chunk);
        OversizedPieceIsTheEnd(dec, accept, d.rest, b);
      }
    }
  }

  lemma Assoc(a: seq<Value>, b: seq<Value>, c: seq<Value>)
    ensures a + (b + c) == (a + b) + c && a + b <= a + (b + c) && (c == [] ==> a + (b + c) == a + b)
  {
    assert a + (b + c) == (a + b) + c;
  }

  /** An undecided piece over the limit at the front of a stream that fits starts no message. */
  lemma OversizedPieceIsTheEnd(dec: Decoder, accept: Filter, rest: Bytes, b: Bytes)
    requires PrefixCode(dec) && FramesFit(dec, accept, rest + b) && dec(rest).Need? && |rest| > MESSAGE_LIMIT
    ensures Drain(dec, accept, rest + b).msgs == []
  {
    UndecidedIsProper(dec, rest, b);
  }

  /** Whatever the split and the sizes, the dispatched messages are a prefix of the stream's messages; they
      are all of them when the messages fit. */
  lemma {:induction false} Reads(dec: Decoder, accept: Filter, r: Reader, chunks: seq<Bytes>)
    requires PrefixCode(dec) && Idle(dec, accept, r)
    ensures var all := r.log + Drain(dec, accept, r.buf + Concat(chunks)).msgs;
            var got := ReadAll(dec, accept, r, chunks).log;
            got <= all && (FramesFit(dec, accept, r.buf + Concat(chunks)) ==> got == all)
    decreases |chunks|
  {
    if chunks == [] {
      assert r.buf + Concat(chunks) == r.buf;
    } else {
      var r' := OnRead(dec, accept, r, chunks[0]);
      assert r.buf + Concat(chunks) == r.buf + chunks[0] + Concat(chunks[1..]);
      OneRead(dec, accept, r, chunks[0], Concat(chunks[1..]));
      if r'.live {
        Reads(dec, accept, r', chunks[1..]);
      } else {
        DeadReader(dec, accept, r', chunks[1..]);
      }
    }
  }

  /** A stream with a dispatched message of more than 10 MiB and one byte can be cut so that the size check stops
      the reader right before it. */
  lemma {:induction false} CutBefore(dec: Decoder, accept: Filter, s: Bytes) returns (k: nat)
    requires PrefixCode(dec) && !FramesFit(dec, accept, s)
    ensures k <= |s|
    ensures var d := Drain(dec, accept, s[..k]);
            d.ok && |d.rest| > MESSAGE_LIMIT && |d.msgs| < |Drain(dec, accept, s).msgs|
    decreases |s|
  {
    var Got(v, len) := dec(s);
    assert SelfDelimiting(dec, s);
    if len > MESSAGE_LIMIT + 1 {
      k := len - 1;
      assert s == s[..k] + s[k..];
      assert SelfDelimiting(dec, s[..k]) && Stable(dec, s[..k], s[k..]);
    } else {
      k := CutBefore(dec, accept, s[len..]);
      k := len + k;
      assert s[..k] == s[..len] + s[len..k];
      assert Stable(dec, s[..len], s[len..k]);
      assert s[..k][len..] == s[len..][..k - len];
    }
  }

  /** The messages dispatched do not depend on how the stream is split into reads exactly when no dispatched
      message is longer than 10 * 1024 * 1024 + 1 bytes; longer ones pass or fail with the split. */
  lemma ChunkingInvarianceIsExact(dec: Decoder, accept: Filter, s: Bytes)
    requires PrefixCode(dec)
    ensures ChunkingInvariant(dec, accept, s) <==> FramesFit(dec, accept, s)
  {
    if FramesFit(dec, accept, s) {
      forall chunks | Concat(chunks) == s
        ensures ReadAll(dec, accept, FRESH_READER, chunks).log == Drain(dec, accept, s).msgs
      {
        assert [] + s == s;
        FreshIsIdle(dec, accept);
        Reads(dec, accept, FRESH_READER, chunks);
      }
    } else {
      var k := CutBefore(dec, accept, s);
      var chunks := [s[..k], s[k..]];
      assert chunks[1..] == [s[k..]] && [s[k..]][1..] == [];
      assert Concat([s[k..]]) == s[k..];
      assert Concat(chunks) == s;
      assert [] + s[..k] == s[..k];
      DeadReader(dec, accept, OnRead(dec, accept, FRESH_READER, s[..k]), chunks[1..]);
    }
  }

  // The write side

  type Encoder = Value -> Bytes

  /** The bytes made of a message are read back as that message. */
  ghost predicate Encodes(dec: Decoder, enc: Encoder, v: Value) {
    dec(enc(v)) == Got(v, |enc(v)|)
  }

  ghost predicate AllEncoded(dec: Decoder, enc: Encoder, vs: seq<Value>) {
    forall i :: 0 <= i < |vs| ==> Encodes(dec, enc, vs[i])
  }

  function Frames(enc: Encoder, vs: seq<Value>): Bytes {
    if vs == [] then [] else enc(vs[0]) + Frames(enc, vs[1..])
  }

  lemma {:induction false} FramesAppend(enc: Encoder, a: seq<Value>, b: seq<Value>)
    ensures Frames(enc, a + b) == Frames(enc, a) + Frames(enc, b)
  {
    if a == [] {
      assert a + b == b;
    } else {
      assert (a + b)[1..] == a[1..] + b;
      FramesAppend(enc, a[1..], b);
    }
  }

  /** Threads sending on one socket. `order` is the messages in the order their senders got the lock;
      `written` is how much of the last one is out while its sender still holds the lock; `failedAt` is the
      first of them whose write ended in an error. */
  datatype Writer = Writer(wire: Bytes, order: seq<Value>, written: Option<nat>, failedAt: Option<nat>)

  /** The socket's two ends; `chunks` is history: what each read returned. */
  datatype Link = Link(w: Writer, r: Reader, chunks: seq<Bytes>)

  datatype LinkOp = Acquire(v: Value) | WriteSome(k: nat) | Release | Fail | Read(k: nat)

  const NEW_LINK := Link(Writer([], [], None, None), FRESH_READER, [])

  predicate LinkEnabled(enc: Encoder, l: Link, op: LinkOp) {
    var w := l.w;
    match op
    case Acquire(_) => w.written == None
    case WriteSome(k) => w.written.Some? && w.order != [] && w.written.value + k <= |enc(w.order[|w.order| - 1])|
    case Release => w.written.Some? && w.order != [] && w.written.value == |enc(w.order[|w.order| - 1])|
    case Fail => w.written.Some? && w.order != []
    case Read(k) => |Concat(l.chunks)| + k <= |w.wire|
  }

  ghost function LinkApply(dec: Decoder, accept: Filter, enc: Encoder, l: Link, op: LinkOp): Link
    requires PrefixCode(dec) && LinkEnabled(enc, l, op)
  {
    var w := l.w;
    match op
    case Acquire(v) => l.(w := w.(order := w.order + [v], written := Some(0)))
    case WriteSome(k) =>
      var frame, from := enc(w.order[|w.order| - 1]), w.written.value;
      l.(w := w.(wire := w.wire + frame[from..from + k], written := Some(from + k)))
    case Release => l.(w := w.(written := None))
    case Fail =>
      l.(w := w.(written := None, failedAt := if w.failedAt == None then Some(|w.order| - 1) else w.failedAt))
    case Read(k) =>
      var pos := |Concat(l.chunks)|;
      var chunk := w.wire[pos..pos + k];
      l.(r := OnRead(dec, accept, l.r, chunk), chunks := l.chunks + [chunk])
  }

  ghost predicate LinkRun(dec: Decoder, accept: Filter, enc: Encoder, l: Link, ops: seq<LinkOp>, l': Link)
    requires PrefixCode(dec)
    decreases |ops|
  {
    if ops == [] then l' == l
    else LinkEnabled(enc, l, ops[0]) && LinkRun(dec, accept, enc, LinkApply(dec, accept, enc, l, ops[0]), ops[1..], l')
  }

  /** Before the first error the wire holds whole frames and a piece of the one being written; after it,
      still all the frames before the failed one. */
  ghost predicate WriterOk(enc: Encoder, w: Writer) {
    && (w.written.Some? ==> w.order != [] && w.written.value <= |enc(w.order[|w.order| - 1])|)
    && match w.failedAt
       case Some(j) => j < |w.order| && Frames(enc, w.order[..j]) <= w.wire
       case None =>
         if w.written.Some? then
           w.wire == Frames(enc, w.order[..|w.order| - 1]) + enc(w.order[|w.order| - 1])[..w.written.value]
         else w.wire == Frames(enc, w.order)
  }

  ghost predicate LinkOk(dec: Decoder, accept: Filter, enc: Encoder, l: Link)
    requires PrefixCode(dec)
  {
    && WriterOk(enc, l.w)
    && l.r == ReadAll(dec, accept, FRESH_READER, l.chunks)
    && Concat(l.chunks) <= l.w.wire
  }

  lemma {:induction false} ConcatAppend(chunks: seq<Bytes>, c: Bytes)
    ensures Concat(chunks + [c]) == Concat(chunks) + c
  {
    if chunks == [] {
      assert chunks + [c] == [c] && [c][1..] == [];
    } else {
      assert (chunks + [c])[1..] == chunks[1..] + [c];
      ConcatAppend(chunks[1..], c);
    }
  }

  lemma {:induction false} ReadAllAppend(dec: Decoder, accept: Filter, r: Reader, chunks: seq<Bytes>, c: Bytes)
    requires PrefixCode(dec)
    ensures ReadAll(dec, accept, r, chunks + [c]) == OnRead(dec, accept, ReadAll(dec, accept, r, chunks), c)
    decreases |chunks|
  {
    if chunks == [] {
      assert chunks + [c] == [c] && [c][1..] == [];
    } else {
      assert (chunks + [c])[1..] == chunks[1..] + [c];
      ReadAllAppend(dec, accept, OnRead(dec, accept, r, chunks[0]), chunks[1..], c);
    }
  }

  lemma WriterAcquires(enc: Encoder, w: Writer, v: Value)
    requires WriterOk(enc, w) && w.written == None
    ensures WriterOk(enc, w.(order := w.order + [v], written := Some(0)))
  {
    var order := w.order + [v];
    assert order[..|order| - 1] == w.order;
    if w.failedAt.Some? {
      assert order[..w.failedAt.value] == w.order[..w.failedAt.value];
    }
  }

  lemma WriterReleases(enc: Encoder, w: Writer)
    requires WriterOk(enc, w) && w.written.Some? && w.order != [] && w.written.value == |enc(w.order[|w.order| - 1])|
    ensures WriterOk(enc, w.(written := None))
  {
    var init, last := w.order[..|w.order| - 1], w.order[|w.order| - 1];
    assert w.order == init + [last];
    FramesAppend(enc, init, [last]);
    assert enc(last)[..|enc(last)|] == enc(last);
  }

  lemma WriterWrites(enc: Encoder, w: Writer, k: nat)
    requires WriterOk(enc, w) && w.written.Some? && w.order != []
    requires w.written.value + k <= |enc(w.order[|w.order| - 1])|
    ensures var frame, from := enc(w.order[|w.order| - 1]), w.written.value;
            WriterOk(enc, w.(wire := w.wire + frame[from..from + k], written := Some(from + k)))
  {
    var frame, from := enc(w.order[|w.order| - 1]), w.written.value;
    assert frame[..from] + frame[from..from + k] == frame[..from + k];
  }

  lemma WriterFails(enc: Encoder, w: Writer)
    requires WriterOk(enc, w) && w.written.Some? && w.order != []
    ensures WriterOk(enc, w.(written := None,
                             failedAt := if w.failedAt == None then Some(|w.order| - 1) else w.failedAt))
  {}

  lemma WriterStep(dec: Decoder, accept: Filter, enc: Encoder, l: Link, op: LinkOp)
    requires PrefixCode(dec) && WriterOk(enc, l.w) && LinkEnabled(enc, l, op)
    ensures WriterOk(enc, LinkApply(dec, accept, enc, l, op).w)
  {
    match op {
      case Acquire(v) => WriterAcquires(enc, l.w, v);
      case WriteSome(k) => WriterWrites(enc, l.w, k);
      case Release => WriterReleases(enc, l.w);
      case Fail => WriterFails(enc, l.w);
      case Read(_) =>
    }
  }

  lemma LinkStep(dec: Decoder, accept: Filter, enc: Encoder, l: Link, op: LinkOp)
    requires PrefixCode(dec) && LinkOk(dec, accept, enc, l) && LinkEnabled(enc, l, op)
    ensures LinkOk(dec, accept, enc, LinkApply(dec, accept, enc, l, op))
  {
    WriterStep(dec, accept, enc, l, op);
    if op.Read? {
      var pos := |Concat(l.chunks)|;
      var chunk := l.w.wire[pos..pos + op.k];
      ConcatAppend(l.chunks, chunk);
      ReadAllAppend(dec, accept, FRESH_READER, l.chunks, chunk);
    }
  }

  lemma {:induction false} LinkOkRun(dec: Decoder, accept: Filter, enc: Encoder, l: Link, ops: seq<LinkOp>, l': Link)
    requires PrefixCode(dec) && LinkOk(dec, accept, enc, l) && LinkRun(dec, accept, enc, l, ops, l')
    ensures LinkOk(dec, accept, enc, l')
    decreases |ops|
  {
    if ops != [] {
      LinkStep(dec, accept, enc, l, ops[0]);
      LinkOkRun(dec, accept, enc, LinkApply(dec, accept, enc, l, ops[0]), ops[1..], l');
    }
  }

  // Both ends together

  function AcceptedPrefix(accept: Filter, vs: seq<Value>): seq<Value> {
    if vs == [] || !accept(vs[0]) then [] else [vs[0]] + AcceptedPrefix(accept, vs[1..])
  }

  lemma {:induction false} AcceptedIsPrefix(accept: Filter, vs: seq<Value>)
    ensures AcceptedPrefix(accept, vs) <= vs
    ensures (forall i :: 0 <= i < |vs| ==> accept(vs[i])) ==> AcceptedPrefix(accept, vs) == vs
  {
    if vs != [] {
      AcceptedIsPrefix(accept, vs[1..]);
    }
  }

  /** Draining whole frames and a tail: the frames up to the first rejected one, then the tail if none was. */
  lemma {:induction false} DrainFrames(dec: Decoder, accept: Filter, enc: Encoder, vs: seq<Value>, tail: Bytes)
    requires PrefixCode(dec) && AllEncoded(dec, enc, vs)
    ensures var msgs := Drain(dec, accept, Frames(enc, vs) + tail).msgs;
            var good := AcceptedPrefix(accept, vs);
            msgs == if good == vs then vs + Drain(dec, accept, tail).msgs else good
  {
    if vs == [] {
      assert Frames(enc, vs) + tail == tail;
    } else {
      var frame, more := enc(vs[0]), Frames(enc, vs[1..]) + tail;
      assert Frames(enc, vs) + tail == frame + more;
      assert Stable(dec, frame, more);
      assert Encodes(dec, enc, vs[0]);
      assert SelfDelimiting(dec, frame);
      assert (frame + more)[|frame|..] == more;
      DrainFrames(dec, accept, enc, vs[1..], tail);
    }
  }

  /** Any initial part of a run of frames yields only whole messages of that run, in order. */
  lemma DrainPrefixOfFrames(dec: Decoder, accept: Filter, enc: Encoder, vs: seq<Value>, part: Bytes)
    requires PrefixCode(dec) && AllEncoded(dec, enc, vs) && part <= Frames(enc, vs)
    ensures Drain(dec, accept, part).msgs <= vs
  {
    var more := Frames(enc, vs)[|part|..];
    assert part + more == Frames(enc, vs) + [];
    DrainSplit(dec, accept, part, more);
    DrainFrames(dec, accept, enc, vs, []);
    AcceptedIsPrefix(accept, vs);
    NothingInNothing(dec, accept);
  }

  lemma NothingInNothing(dec: Decoder, accept: Filter)
    requires PrefixCode(dec)
    ensures Drain(dec, accept, []).msgs == []
  {
    assert SelfDelimiting(dec, []);
  }

  lemma {:induction false} FramesOfFittingMessages(dec: Decoder, accept: Filter, enc: Encoder, vs: seq<Value>)
    requires PrefixCode(dec) && AllEncoded(dec, enc, vs)
    requires forall i :: 0 <= i < |vs| ==> |enc(vs[i])| <= 10485761
    ensures FramesFit(dec, accept, Frames(enc, vs))
  {
    if vs != [] {
      var frame, more := enc(vs[0]), Frames(enc, vs[1..]);
      assert Stable(dec, frame, more);
      assert Encodes(dec, enc, vs[0]);
      assert SelfDelimiting(dec, frame);
      assert (frame + more)[|frame|..] == more;
      FramesOfFittingMessages(dec, accept, enc, vs[1..]);
    }
  }

  /** Senders in any number of threads writing their frames in partial chunks, reads of any size in between:
      the dispatched messages are always a prefix of the messages in lock order, and after a write error agree
      with that order up to the failed message. When no write failed, everything was read, every message is
      accepted and none exceeds 10 MiB and one byte, all of them have been dispatched. */
  lemma FrameAtomicity(dec: Decoder, accept: Filter, enc: Encoder, ops: seq<LinkOp>, l: Link)
    requires PrefixCode(dec) && AllEncoded(dec, enc, l.w.order) && LinkRun(dec, accept, enc, NEW_LINK, ops, l)
    ensures match l.w.failedAt
            case None => l.r.log <= l.w.order
            case Some(j) => j < |l.w.order| && (l.r.log <= l.w.order[..j] || l.w.order[..j] <= l.r.log)
    ensures l.w.failedAt == None && l.w.written == None && Concat(l.chunks) == l.w.wire
            && (forall i :: 0 <= i < |l.w.order| ==>
                  accept(l.w.order[i]) && |enc(l.w.order[i])| <= 10485761)
            ==> l.r.log == l.w.order
  {
    LinkOkRun(dec, accept, enc, NEW_LINK, ops, l);
    LogAgainstWire(dec, accept, enc, l);
    if l.w.failedAt == None {
      LogWithoutFailure(dec, accept, enc, l);
    } else {
      PartPastFrames(dec, accept, enc, l.w.order[..l.w.failedAt.value], Concat(l.chunks));
    }
  }

  lemma LogAgainstWire(dec: Decoder, accept: Filter, enc: Encoder, l: Link)
    requires PrefixCode(dec) && LinkOk(dec, accept, enc, l)
    ensures var all := Drain(dec, accept, Concat(l.chunks)).msgs;
            l.r.log <= all && (FramesFit(dec, accept, Concat(l.chunks)) ==> l.r.log == all)
  {
    var got := Concat(l.chunks);
    assert FRESH_READER.buf + got == got;
    FreshIsIdle(dec, accept);
    Reads(dec, accept, FRESH_READER, l.chunks);
  }

  lemma LogWithoutFailure(dec: Decoder, accept: Filter, enc: Encoder, l: Link)
    requires PrefixCode(dec) && AllEncoded(dec, enc, l.w.order) && LinkOk(dec, accept, enc, l) && l.w.failedAt == None
    ensures l.r.log <= l.w.order
    ensures l.w.written == None && Concat(l.chunks) == l.w.wire
            && (forall i :: 0 <= i < |l.w.order| ==>
                  accept(l.w.order[i]) && |enc(l.w.order[i])| <= 10485761)
            ==> l.r.log == l.w.order
  {
    LogAgainstWire(dec, accept, enc, l);
    WireIsPrefix(enc, l.w);
    DrainPrefixOfFrames(dec, accept, enc, l.w.order, Concat(l.chunks));
    AllArrive(dec, accept, enc, l.w.order);
  }

  lemma AllArrive(dec: Decoder, accept: Filter, enc: Encoder, vs: seq<Value>)
    requires PrefixCode(dec) && AllEncoded(dec, enc, vs)
    ensures (forall i :: 0 <= i < |vs| ==> accept(vs[i]) && |enc(vs[i])| <= 10485761) ==>
              FramesFit(dec, accept, Frames(enc, vs)) && Drain(dec, accept, Frames(enc, vs)).msgs == vs
  {
    if forall i :: 0 <= i < |vs| ==> accept(vs[i]) && |enc(vs[i])| <= 10485761 {
      FramesOfFittingMessages(dec, accept, enc, vs);
      assert Frames(enc, vs) + [] == Frames(enc, vs);
      DrainFrames(dec, accept, enc, vs, []);
      AcceptedIsPrefix(accept, vs);
      NothingInNothing(dec, accept);
    }
  }

  /** Bytes that are a part of some frames, or go on past them. */
  lemma PartPastFrames(dec: Decoder, accept: Filter, enc: Encoder, vs: seq<Value>, got: Bytes)
    requires PrefixCode(dec) && AllEncoded(dec, enc, vs) && (got <= Frames(enc, vs) || Frames(enc, vs) <= got)
    ensures var msgs := Drain(dec, accept, got).msgs; msgs <= vs || vs <= msgs
  {
    if got <= Frames(enc, vs) {
      DrainPrefixOfFrames(dec, accept, enc, vs, got);
    } else {
      var tail := got[|Frames(enc, vs)|..];
      assert got == Frames(enc, vs) + tail;
      DrainFrames(dec, accept, enc, vs, tail);
      AcceptedIsPrefix(accept, vs);
    }
  }

  /** A part of accepted, fitting frames drains without exception and leaves less than one frame. */
  lemma {:induction false} PartOfFrames(dec: Decoder, accept: Filter, enc: Encoder, vs: seq<Value>, part: Bytes)
    returns (k: nat)
    requires PrefixCode(dec) && AllEncoded(dec, enc, vs) && part <= Frames(enc, vs)
    requires forall i :: 0 <= i < |vs| ==> accept(vs[i]) && |enc(vs[i])| <= 10485761
    ensures var d := Drain(dec, accept, part);
            d.ok && |d.rest| <= MESSAGE_LIMIT && k <= |vs| && d.rest + Frames(enc, vs)[|part|..] == Frames(enc, vs[k..])
  {
    k := 0;
    assert SelfDelimiting(dec, part);
    if vs == [] {
      assert part == [];
    } else if |part| < |enc(vs[0])| {
      var frame := enc(vs[0]);
      assert Encodes(dec, enc, vs[0]);
      assert Stable(dec, part, frame[|part|..]) && part + frame[|part|..] == frame;
      assert part + Frames(enc, vs)[|part|..] == Frames(enc, vs);
    } else {
      var frame := enc(vs[0]);
      var more := part[|frame|..];
      assert part == frame + more && Stable(dec, frame, more) && SelfDelimiting(dec, frame);
      assert Encodes(dec, enc, vs[0]);
      k := PartOfFrames(dec, accept, enc, vs[1..], more);
      assert Frames(enc, vs)[|part|..] == Frames(enc, vs[1..])[|more|..];
      k := k + 1;
    }
  }

  /** With accepted frames of at most 10 MiB and one byte the size check never fires, however they are cut. */
  lemma {:induction false} SizeCheckStaysSilent(dec: Decoder, accept: Filter, enc: Encoder, vs: seq<Value>,
                                                r: Reader, chunks: seq<Bytes>)
    requires PrefixCode(dec) && AllEncoded(dec, enc, vs) && r.live && r.buf + Concat(chunks) <= Frames(enc, vs)
    requires forall i :: 0 <= i < |vs| ==> accept(vs[i]) && |enc(vs[i])| <= 10485761
    ensures ReadAll(dec, accept, r, chunks).live
    decreases |chunks|
  {
    if chunks != [] {
      var part, all := r.buf + chunks[0], Frames(enc, vs);
      assert r.buf + Concat(chunks) == part + Concat(chunks[1..]);
      assert part == all[..|part|];
      var k := PartOfFrames(dec, accept, enc, vs, part);
      var r' := OnRead(dec, accept, r, chunks[0]);
      assert Concat(chunks[1..]) <= all[|part|..];
      SizeCheckStaysSilent(dec, accept, enc, vs[k..], r', chunks[1..]);
    }
  }

  lemma WireIsPrefix(enc: Encoder, w: Writer)
    requires WriterOk(enc, w) && w.failedAt == None
    ensures w.wire <= Frames(enc, w.order)
  {
    if w.written.Some? {
      var init, last := w.order[..|w.order| - 1], w.order[|w.order| - 1];
      assert w.order == init + [last];
      FramesAppend(enc, init, [last]);
    }
  }
}
