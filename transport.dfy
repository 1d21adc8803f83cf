// What NioProcessor asks of a socket channel: read into a buffer and
// write from one. The socket's answers are an input here, one per call:
// how many bytes a read delivers (or the end of the stream, or an
// exception), and how many bytes a write accepts (or an exception).
module Transport {
  import opened Common
  import opened Buffers

  /** One answer of channel.read: bytes available, the end of the stream, or an exception. */
  datatype ReadResult = Bytes(data: seq<Byte>) | EndOfStream | ReadThrows(cause: Exn)

  /** How readFrom's read loop ends: the last read's return value, or the exception a read threw. */
  datatype ReadEnd = Stopped(ret: int) | ReadFailed(cause: Exn)

  function Min(a: int, b: int): (m: int)
    ensures m <= a && m <= b && (m == a || m == b)
  {
    if a <= b then a else b
  }

  /**
   * readFrom's loop `while ((ret = read(session, buf)) > 0) { ... if
   * (!buf.hasRemaining()) break; }` over a buffer with `room` bytes free:
   * the bytes it deposits, and how it ends. A read stores as many of the
   * available bytes as fit; once the answers run out, a read returns 0.
   */
  function ReadLoop(script: seq<ReadResult>, room: nat): (r: (seq<Byte>, ReadEnd))
    decreases |script|
  {
    if script == [] then ([], Stopped(0))
    else match script[0]
      case EndOfStream => ([], Stopped(-1))
      case ReadThrows(e) => ([], ReadFailed(e))
      case Bytes(d) =>
        var n := Min(|d|, room);
        if n == 0 then ([], Stopped(0))
        else if n == room then (d[..n], Stopped(n))
        else var rest := ReadLoop(script[1..], room - n); (d[..n] + rest.0, rest.1)
  }

  /**
   * The read loop never overfills the buffer; it stops on a successful
   * read only when the buffer is full, and it stops on a read of 0 or -1
   * only with room to spare. It returns -1 exactly when it met the end of
   * the stream.
   */
  lemma {:induction false} ReadLoopMeaning(script: seq<ReadResult>, room: nat)
    ensures var (got, end) := ReadLoop(script, room);
      |got| <= room
      && (end.Stopped? && end.ret > 0 ==> |got| == room)
      && (room > 0 && end.Stopped? && end.ret <= 0 ==> |got| < room)
      && (end.Stopped? ==> end.ret >= -1)
      && (end == Stopped(-1) <==> EndsAtEof(script, room))
    decreases |script|
  {
    if script != [] && script[0].Bytes? {
      var n := Min(|script[0].data|, room);
      if 0 < n < room {
        ReadLoopMeaning(script[1..], room - n);
      }
    }
  }

  /** The read loop reaches the end of the stream: every read before it filled part of the buffer. */
  predicate EndsAtEof(script: seq<ReadResult>, room: nat)
    decreases |script|
  {
    script != []
    && match script[0]
       case EndOfStream => true
       case ReadThrows(_) => false
       case Bytes(d) => 0 < Min(|d|, room) < room && EndsAtEof(script[1..], room - Min(|d|, room))
  }

  /** Every read answer delivers what it has and more than fits: one read fills the buffer and the loop stops. */
  lemma OneReadFills(d: seq<Byte>, rest: seq<ReadResult>, room: nat)
    requires 0 < room <= |d|
    ensures ReadLoop([Bytes(d)] + rest, room) == (d[..room], Stopped(room))
  {
    assert ([Bytes(d)] + rest)[0] == Bytes(d);
  }

  /** channel.read(buf): stores bytes at the position and moves it on; the limit stays. */
  method Deposit(buf: IoBuffer, data: seq<Byte>)
    requires buf.Valid() && buf.hasBuffer && |data| <= buf.lim - buf.pos
    modifies buf
    ensures buf.Valid() && buf.hasBuffer && buf.lim == old(buf.lim) && buf.pos == old(buf.pos) + |data|
    ensures buf.bytes == old(buf.bytes)[..old(buf.pos)] + data + old(buf.bytes)[old(buf.pos) + |data|..]
  {
    buf.bytes := buf.bytes[..buf.pos] + data + buf.bytes[buf.pos + |data|..];
    buf.pos := buf.pos + |data|;
  }

  /**
   * The read loop of readFrom, on the buffer itself: it reads until a
   * read returns 0 or less, or the buffer is full, and reports how it
   * ended. Proved against ReadLoop.
   */
  method ReadInto(buf: IoBuffer, script: seq<ReadResult>) returns (end: ReadEnd)
    requires buf.Valid() && buf.hasBuffer
    modifies buf
    ensures var (got, e) := ReadLoop(script, old(buf.lim - buf.pos));
      end == e && buf.Valid() && buf.hasBuffer && buf.lim == old(buf.lim) && buf.pos == old(buf.pos) + |got|
      && buf.bytes == old(buf.bytes)[..old(buf.pos)] + got + old(buf.bytes)[old(buf.pos) + |got|..]
  {
    ghost var b0, p0 := buf.bytes, buf.pos;
    ghost var all := ReadLoop(script, buf.lim - buf.pos);
    ghost var acc: seq<Byte> := [];
    assert script[0..] == script && acc + all.0 == all.0;
    var i := 0;
    while true
      invariant 0 <= i <= |script|
      invariant p0 + |acc| <= |b0|
      invariant buf.Valid() && buf.hasBuffer && buf.lim == old(buf.lim) && buf.pos == p0 + |acc|
      invariant buf.bytes == b0[..p0] + acc + b0[p0 + |acc|..]
      invariant var rest := ReadLoop(script[i..], buf.lim - buf.pos); all == (acc + rest.0, rest.1)
      decreases |script| - i
    {
      var stop;
      stop, i, acc := ReadStep(buf, script, i, b0, p0, acc);
      if stop.Some? {
        end := stop.value;
        break;
      }
    }
  }

  /**
   * One read of ReadInto's loop, the i-th: Some(end) when the loop stops
   * there (its rest of ReadLoop is then empty), None to go on.
   */
  method ReadStep(buf: IoBuffer, script: seq<ReadResult>, i: nat, ghost b0: seq<Byte>, ghost p0: nat, ghost acc: seq<Byte>)
      returns (stop: Option<ReadEnd>, i': nat, ghost acc': seq<Byte>)
    requires i <= |script|
    requires p0 + |acc| <= |b0|
    requires buf.Valid() && buf.hasBuffer && buf.pos == p0 + |acc| && buf.bytes == b0[..p0] + acc + b0[p0 + |acc|..]
    modifies buf
    ensures p0 + |acc'| <= |b0| && buf.Valid() && buf.hasBuffer && buf.lim == old(buf.lim) && buf.pos == p0 + |acc'|
    ensures buf.bytes == b0[..p0] + acc' + b0[p0 + |acc'|..]
    ensures var rest := ReadLoop(script[i..], old(buf.lim - buf.pos));
      stop.Some? ==> acc + rest.0 == acc' && rest.1 == stop.value
    ensures var rest := ReadLoop(script[i..], old(buf.lim - buf.pos));
      stop.None? ==> i < i' <= |script| && var more := ReadLoop(script[i'..], buf.lim - buf.pos);
        acc + rest.0 == acc' + more.0 && rest.1 == more.1
  {
    acc', i' := acc, i;
    if i == |script| {
      return Some(Stopped(0)), i, acc;
    }
    assert script[i..][0] == script[i] && script[i..][1..] == script[i + 1..];
    match script[i]
    case EndOfStream =>
      return Some(Stopped(-1)), i, acc;
    case ReadThrows(e) =>
      return Some(ReadFailed(e)), i, acc;
    case Bytes(d) =>
      var n := Min(|d|, buf.lim - buf.pos);
      if n == 0 {
        return Some(Stopped(0)), i, acc;
      }
      Deposit(buf, d[..n]);
      SpliceAppend(b0, p0, acc, d[..n]);
      acc' := acc + d[..n];
      if buf.pos == buf.lim {
        return Some(Stopped(n)), i, acc';
      }
      i' := i + 1;
      stop := None;
  }

  /** Writing `d` after the bytes `acc` already stored over `b0` from `p0` on stores `acc + d`. */
  lemma SpliceAppend(b0: seq<Byte>, p0: nat, acc: seq<Byte>, d: seq<Byte>)
    requires p0 + |acc| + |d| <= |b0|
    ensures var b := b0[..p0] + acc + b0[p0 + |acc|..];
      b[..p0 + |acc|] + d + b[p0 + |acc| + |d|..] == b0[..p0] + (acc + d) + b0[p0 + |acc + d|..]
  {
    var b := b0[..p0] + acc + b0[p0 + |acc|..];
    assert b[..p0 + |acc|] == b0[..p0] + acc;
    assert b[p0 + |acc| + |d|..] == b0[p0 + |acc| + |d|..];
  }

  /** One answer of channel.write: how many bytes it accepts, or an exception. */
  datatype WriteResult = Wrote(n: int) | WriteThrows(cause: Exn)

  /** The channel writes no fewer than none and no more than it is offered. */
  function Accepted(n: int, offered: int): (k: int)
    requires offered >= 0
    ensures 0 <= k <= offered
  {
    if n < 0 then 0 else if n > offered then offered else n
  }

  /**
   * NioProcessor.write: when more than `length` bytes remain, the limit
   * is pulled in to position + length for the write and put back after
   * it (also when the write throws). limit() throws IllegalArgumentException
   * for a negative limit, and pulls the position back to a limit below it.
   * Returns the buffer's new state and what the write returned or threw.
   */
  function ChannelWrite(b: BufferView, length: int, w: WriteResult): (r: (BufferView, Result<int>))
    requires b.hasBuffer
    ensures r.0.hasBuffer && r.0.bytes == b.bytes && r.0.lim == b.lim
    ensures length >= 0 ==> r.0.pos >= b.pos
    ensures r.1.Ok? ==> 0 <= r.1.value <= b.lim - b.pos && r.0.pos - r.1.value <= b.pos
  {
    if b.lim - b.pos <= length then
      match w
      case WriteThrows(e) => (b, Err(e))
      case Wrote(n) =>
        var k := Accepted(n, b.lim - b.pos);
        (b.(pos := b.pos + k), Ok(k))
    else
      var newLimit := b.pos + length;
      if newLimit < 0 then (b, Err(Exn(IllegalArgument, "newLimit")))
      else
        var p := if b.pos > newLimit then newLimit else b.pos;
        match w
        case WriteThrows(e) => (b.(pos := p), Err(e))
        case Wrote(n) =>
          var k := Accepted(n, newLimit - p);
          (b.(pos := p + k), Ok(k))
  }

  /**
   * A write offered `length` bytes, no more than remain, writes at most
   * that many and moves the position on by exactly what it wrote.
   */
  lemma ChannelWriteOffers(b: BufferView, length: int, w: WriteResult)
    requires b.hasBuffer && 0 <= length <= b.lim - b.pos
    ensures var (b2, r) := ChannelWrite(b, length, w);
      (r.Ok? ==> 0 <= r.value <= length && b2.pos == b.pos + r.value)
      && (r.Err? ==> w.WriteThrows? && r.exn == w.cause && b2 == b)
  {
  }

  /**
   * A negative offer (a negative maxWriteBytes budget) writes nothing and
   * moves the position back, or throws when the limit would be negative.
   */
  lemma NegativeOfferRewinds(b: BufferView, length: int, w: WriteResult)
    requires b.hasBuffer && length < 0 && b.pos < b.lim
    ensures var (b2, r) := ChannelWrite(b, length, w);
      (b.pos + length < 0 ==> r == Err(Exn(IllegalArgument, "newLimit")) && b2 == b)
      && (b.pos + length >= 0 && w.Wrote? ==> r == Ok(0) && b2.pos == b.pos + length)
  {
  }

  /**
   * writeBuffer's use of the buffer: a buffer never allocated throws
   * NullPointerException from hasRemaining; one with nothing remaining is
   * not written (0); otherwise write is offered min(remaining, maxLength).
   */
  function Offer(b: BufferView, maxLength: int, w: WriteResult): (r: (BufferView, Result<int>))
    ensures r.1.Ok? ==> r.0.hasBuffer && r.0.bytes == b.bytes && r.0.lim == b.lim
    ensures !b.hasBuffer ==> r == (b, Err(Exn(NullPointer, "buf")))
    ensures r.1.Err? && b.hasBuffer ==> r.0.hasBuffer && r.0.lim == b.lim && r.0.pos <= b.pos < b.lim
    ensures r.1.Ok? && r.1.value > 0 ==> w.Wrote? && w.n > 0 && b.HasRemaining() == Ok(true)
  {
    match b.HasRemaining()
    case Err(e) => (b, Err(e))
    case Ok(has) => if !has then (b, Ok(0)) else ChannelWrite(b, Min(b.lim - b.pos, maxLength), w)
  }

  /**
   * Each write stays within its budget: offered maxLength >= 0, it
   * writes between 0 and maxLength bytes, and no more than remained, and
   * the position moves on by exactly that much; only the channel's own
   * exception escapes.
   */
  lemma OfferWithinBudget(b: BufferView, maxLength: int, w: WriteResult)
    requires maxLength >= 0
    ensures var (b2, r) := Offer(b, maxLength, w);
      (r.Ok? ==> 0 <= r.value <= maxLength && r.value <= b.lim - b.pos && b2.pos == b.pos + r.value)
      && (r.Err? && b.hasBuffer ==> w.WriteThrows? && r.exn == w.cause && b2 == b)
  {
    if b.hasBuffer && b.pos < b.lim {
      ChannelWriteOffers(b, Min(b.lim - b.pos, maxLength), w);
    }
  }
}
