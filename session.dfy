// AbstractIOSession and NioSession: one TCP connection's state machine,
// its write queue, its idle and write-timeout bookkeeping, its attributes
// and its remote address.
//
// The session's filter chain is modelled in FilterChains; here every call
// the session makes on its chain is recorded, in order, in `fired`, after
// the part of DefaultFilterChain's fire method that runs before dispatch
// (fireSessionIdle counts the idle event, fireMessageSent marks the
// packet's future written). The processor and the controller a session
// talks to are passed to the operations that need them (Processors and
// PollingControllers).
module Sessions {
  import opened Common
  import opened Futures
  import opened Buffers
  import opened WritePackets
  import opened Config
  import opened AttributeKeys
  import opened AttributeMaps
  import DnsCache
  import JavaLang

  /** SState. CONNECTED is spelt CONNECTTED in the source's enum, which shows in messages. */
  datatype SState = New | Connecting | Connected | Ready | Closing | Invalid

  function StateName(s: SState): string {
    match s
    case New => "NEW"
    case Connecting => "CONNECTING"
    case Connected => "CONNECTTED"
    case Ready => "READY"
    case Closing => "CLOSING"
    case Invalid => "INVALID"
  }

  type Future = IOFuture<Session?>
  type Packet = WritePacket<Session?>

  /**
   * A ConnectFuture as a session attribute holds it. Attribute values are
   * plain objects and a test against the generic future class cannot be
   * written, so the stored object is this handle on the future.
   */
  class ConnectFuture {
    const future: Future

    constructor(future: Future)
      ensures this.future == future
    {
      this.future := future;
    }
  }

  /** What the write queue holds: the CLOSE_REQUEST sentinel or a packet. */
  datatype Queued = CloseRequest | Send(packet: Packet)

  /** A socket channel, by identity. */
  datatype Channel = Channel(id: nat)

  /**
   * A SocketAddress: an InetSocketAddress (with its resolved IP address,
   * None when unresolved) or any other kind.
   */
  datatype SocketAddress = InetSocketAddress(ip: Option<string>, port: int) | OtherAddress(id: nat)

  /** The calls a session makes on its filter chain. */
  datatype ChainCall =
    | FireSessionOpened
    | FireSessionClosed
    | FireExceptionCaught(cause: Exn)
    | FireMessageSent(packet: Packet)
    | FireInputClosed
    | FireMessageReceived(msg: Message)
    | FireFilterClose
    | FireFilterWrite(packet: Packet)
    | FireSessionIdle(status: IdleStatus)

  const NPE := Exn(NullPointer, "null")
  const SESSION_CLOSED := Exn(IOError, "session closed!")
  const WRITE_TIMEOUT := Exn(IOError, "Write Timeout")

  // ------------------------------------------------------ idle bookkeeping

  /** The session's last-I/O times, idle counters and last idle-event times. */
  datatype IdleClock = IdleClock(
    lastRead: int, lastWrite: int,
    countBoth: int, countRead: int, countWrite: int,
    idleBoth: int, idleRead: int, idleWrite: int)

  /** A new session stamps every time with its creation time; the counters start at 0. */
  function ClockAt(t: int): (c: IdleClock)
    ensures c.lastRead == c.lastWrite == c.idleBoth == c.idleRead == c.idleWrite == t
    ensures c.countBoth == c.countRead == c.countWrite == 0
  {
    IdleClock(t, t, 0, 0, 0, t, t, t)
  }

  function Max(a: int, b: int): (m: int)
    ensures m >= a && m >= b && (m == a || m == b)
  {
    if a >= b then a else b
  }

  /** getLastIoTime: the later of the last read and the last write. */
  function LastIoTime(c: IdleClock): (t: int)
    ensures t >= c.lastRead && t >= c.lastWrite && (t == c.lastRead || t == c.lastWrite)
  {
    Max(c.lastRead, c.lastWrite)
  }

  /** getLastIdleTime */
  function LastIdleTime(c: IdleClock, status: IdleStatus): int {
    match status
    case BothIdle => c.idleBoth
    case ReaderIdle => c.idleRead
    case WriterIdle => c.idleWrite
  }

  /** The idle counter of a status (getIdleCount). */
  function IdleCount(c: IdleClock, status: IdleStatus): int {
    match status
    case BothIdle => c.countBoth
    case ReaderIdle => c.countRead
    case WriterIdle => c.countWrite
  }

  /**
   * The time a status's idleness is measured from: the later of the last
   * relevant I/O and the last idle event of that status.
   */
  function Reference(c: IdleClock, status: IdleStatus): (t: int)
    ensures t >= LastIdleTime(c, status)
    ensures status == BothIdle ==> t >= LastIoTime(c)
    ensures status == ReaderIdle ==> t >= c.lastRead
    ensures status == WriterIdle ==> t >= c.lastWrite
  {
    match status
    case BothIdle => Max(LastIoTime(c), c.idleBoth)
    case ReaderIdle => Max(c.lastRead, c.idleRead)
    case WriterIdle => Max(c.lastWrite, c.idleWrite)
  }

  /** notifyIdleSession0's test. */
  predicate IdleDue(now: int, idleTime: int, ref: int) {
    idleTime > 0 && ref != 0 && now - ref >= idleTime
  }

  /** updateReadTime */
  function ReadAt(c: IdleClock, t: int): (r: IdleClock)
    ensures r.lastRead == t && r.countBoth == 0 && r.countRead == 0
    ensures r.lastWrite == c.lastWrite && r.countWrite == c.countWrite
    ensures r.idleBoth == c.idleBoth && r.idleRead == c.idleRead && r.idleWrite == c.idleWrite
  {
    c.(lastRead := t, countBoth := 0, countRead := 0)
  }

  /** updateWrittenTime */
  function WrittenAt(c: IdleClock, t: int): (r: IdleClock)
    ensures r.lastWrite == t && r.countBoth == 0 && r.countWrite == 0
    ensures r.lastRead == c.lastRead && r.countRead == c.countRead
    ensures r.idleBoth == c.idleBoth && r.idleRead == c.idleRead && r.idleWrite == c.idleWrite
  {
    c.(lastWrite := t, countBoth := 0, countWrite := 0)
  }

  /** increaseIdleCount: the status's AtomicInteger counter goes up (wrapping at 32 bits) and the event time is kept. */
  function IdleFired(c: IdleClock, status: IdleStatus, t: int): (r: IdleClock)
    ensures LastIdleTime(r, status) == t
    ensures IdleCount(r, status) == Wrap32(IdleCount(c, status) + 1)
    ensures r.lastRead == c.lastRead && r.lastWrite == c.lastWrite
    ensures forall s :: s != status ==> LastIdleTime(r, s) == LastIdleTime(c, s) && IdleCount(r, s) == IdleCount(c, s)
  {
    match status
    case BothIdle => c.(countBoth := Wrap32(c.countBoth + 1), idleBoth := t)
    case ReaderIdle => c.(countRead := Wrap32(c.countRead + 1), idleRead := t)
    case WriterIdle => c.(countWrite := Wrap32(c.countWrite + 1), idleWrite := t)
  }

  /** Whether a status is idle at `now` under configuration `cfg`. */
  predicate Due(c: IdleClock, cfg: ConfigValues, now: int, status: IdleStatus) {
    IdleDue(now, IdleTimeOf(cfg, status), Reference(c, status))
  }

  /** The idle events notifyIdleSession fires, in its order: BOTH, READER, WRITER. */
  function DueStatuses(c: IdleClock, cfg: ConfigValues, now: int): (r: seq<IdleStatus>)
    ensures forall s :: s in r <==> Due(c, cfg, now, s)
  {
    (if Due(c, cfg, now, BothIdle) then [BothIdle] else [])
    + (if Due(c, cfg, now, ReaderIdle) then [ReaderIdle] else [])
    + (if Due(c, cfg, now, WriterIdle) then [WriterIdle] else [])
  }

  /** The clock after the given idle events at `now`. */
  function FireAll(c: IdleClock, statuses: seq<IdleStatus>, now: int): IdleClock
    decreases |statuses|
  {
    if |statuses| == 0 then c else FireAll(IdleFired(c, statuses[0], now), statuses[1..], now)
  }

  function IdleCalls(statuses: seq<IdleStatus>): (r: seq<ChainCall>)
    ensures |r| == |statuses|
    ensures forall i :: 0 <= i < |r| ==> r[i] == FireSessionIdle(statuses[i])
  {
    if |statuses| == 0 then [] else [FireSessionIdle(statuses[0])] + IdleCalls(statuses[1..])
  }

  /**
   * Counting one status's idle event does not move another status's
   * reference time, so it cannot change whether another status is due.
   */
  lemma {:induction false} IdleStatusesIndependent(c: IdleClock, cfg: ConfigValues, fired: IdleStatus, t: int, now: int, other: IdleStatus)
    requires fired != other
    ensures Due(IdleFired(c, fired, t), cfg, now, other) == Due(c, cfg, now, other)
  {
    assert Reference(IdleFired(c, fired, t), other) == Reference(c, other);
  }

  /** One idle test's effect on the clock: the status fires when due. */
  function FireIf(c: IdleClock, due: bool, status: IdleStatus, now: int): (r: IdleClock)
    ensures !due ==> r == c
    ensures due ==> LastIdleTime(r, status) == now
  {
    if due then IdleFired(c, status, now) else c
  }

  /** One idle test's effect on the chain: sessionIdle when due. */
  function CallIf(due: bool, status: IdleStatus): (r: seq<ChainCall>)
    ensures |r| == (if due then 1 else 0)
    ensures due ==> r[0] == FireSessionIdle(status)
  {
    if due then [FireSessionIdle(status)] else []
  }

  /**
   * notifyIdleSession tests BOTH, then READER, then WRITER, each on the
   * clock the previous test left. The outcome is the same as deciding all
   * three on the clock as it was before: one event per due status, in
   * that order.
   */
  lemma {:induction false} IdleTestsInSequence(c0: IdleClock, cfg: ConfigValues, now: int)
    ensures var c1 := FireIf(c0, Due(c0, cfg, now, BothIdle), BothIdle, now);
      var c2 := FireIf(c1, Due(c1, cfg, now, ReaderIdle), ReaderIdle, now);
      var c3 := FireIf(c2, Due(c2, cfg, now, WriterIdle), WriterIdle, now);
      var due := DueStatuses(c0, cfg, now);
      c3 == FireAll(c0, due, now)
      && CallIf(Due(c0, cfg, now, BothIdle), BothIdle) + CallIf(Due(c1, cfg, now, ReaderIdle), ReaderIdle)
         + CallIf(Due(c2, cfg, now, WriterIdle), WriterIdle) == IdleCalls(due)
  {
    var db, dr, dw := Due(c0, cfg, now, BothIdle), Due(c0, cfg, now, ReaderIdle), Due(c0, cfg, now, WriterIdle);
    var b := if db then [BothIdle] else [];
    var r := if dr then [ReaderIdle] else [];
    var w := if dw then [WriterIdle] else [];
    var c1 := FireIf(c0, db, BothIdle, now);
    if db { IdleStatusesIndependent(c0, cfg, BothIdle, now, now, ReaderIdle); }
    assert Due(c1, cfg, now, ReaderIdle) == dr;
    var c2 := FireIf(c1, dr, ReaderIdle, now);
    if db { IdleStatusesIndependent(c0, cfg, BothIdle, now, now, WriterIdle); }
    if dr { IdleStatusesIndependent(c1, cfg, ReaderIdle, now, now, WriterIdle); }
    assert Due(c2, cfg, now, WriterIdle) == dw;
    var c3 := FireIf(c2, dw, WriterIdle, now);
    assert |b| == 1 ==> b[1..] == [];
    assert |r| == 1 ==> r[1..] == [];
    assert |w| == 1 ==> w[1..] == [];
    assert c1 == FireAll(c0, b, now);
    assert c2 == FireAll(c1, r, now);
    assert c3 == FireAll(c2, w, now);
    assert DueStatuses(c0, cfg, now) == b + r + w;
    FireAllAppend(c0, b + r, w, now);
    FireAllAppend(c0, b, r, now);
    IdleCallsAppend(b + r, w);
    IdleCallsAppend(b, r);
    assert IdleCalls(b) == CallIf(db, BothIdle);
    assert IdleCalls(r) == CallIf(dr, ReaderIdle);
    assert IdleCalls(w) == CallIf(dw, WriterIdle);
  }

  /**
   * An idle event suppresses the next one of its status for a whole idle
   * period: after firing at t, the status is due again only once
   * now - t >= idleTime.
   */
  lemma {:induction false} IdleFiresOncePerPeriod(c: IdleClock, cfg: ConfigValues, status: IdleStatus, t: int, now: int)
    requires Due(IdleFired(c, status, t), cfg, now, status)
    ensures now - t >= IdleTimeOf(cfg, status) > 0
  {
    var r := IdleFired(c, status, t);
    assert Reference(r, status) >= LastIdleTime(r, status) == t;
  }

  /** Reading resets READER and BOTH idleness: neither is due within one idle period of the read. */
  lemma {:induction false} ReadDefersReaderIdle(c: IdleClock, cfg: ConfigValues, t: int, now: int, status: IdleStatus)
    requires status != WriterIdle
    requires now - t < IdleTimeOf(cfg, status)
    ensures !Due(ReadAt(c, t), cfg, now, status)
  {
    var r := ReadAt(c, t);
    assert Reference(r, status) >= t by {
      assert LastIoTime(r) >= r.lastRead;
    }
  }

  /** Writing resets WRITER and BOTH idleness in the same way. */
  lemma {:induction false} WriteDefersWriterIdle(c: IdleClock, cfg: ConfigValues, t: int, now: int, status: IdleStatus)
    requires status != ReaderIdle
    requires now - t < IdleTimeOf(cfg, status)
    ensures !Due(WrittenAt(c, t), cfg, now, status)
  {
    var r := WrittenAt(c, t);
    assert Reference(r, status) >= t by {
      assert LastIoTime(r) >= r.lastWrite;
    }
  }

  /** A threshold of 0 (the default) turns a status's idle events off. */
  lemma ZeroThresholdNeverDue(c: IdleClock, cfg: ConfigValues, now: int, status: IdleStatus)
    requires IdleTimeOf(cfg, status) <= 0
    ensures !Due(c, cfg, now, status)
  {
  }

  // ------------------------------------------------------ remote address

  /** new InetSocketAddress(ip, port): the port must fit in 16 bits. */
  function NewInetSocketAddress(ip: string, port: int): (r: Result<SocketAddress>)
    ensures r.Ok? <==> 0 <= port <= 0xFFFF
    ensures r.Ok? ==> r.value == InetSocketAddress(Some(ip), port)
    ensures r.Err? ==> r.exn.kind == IllegalArgument
  {
    if port < 0 || port > 0xFFFF then Err(Exn(IllegalArgument, "port out of range:" + JavaLang.IntToDecimal(port)))
    else Ok(InetSocketAddress(Some(ip), port))
  }

  /** getUniqueKey: "ip:port" once the address is known; an unresolved address has no IP to print. */
  function UniqueKey(remote: Option<SocketAddress>): (r: Result<Option<string>>)
    ensures remote.None? ==> r == Ok(None)
    ensures remote.Some? && remote.value.InetSocketAddress? && remote.value.ip.Some? ==>
      r == Ok(Some(remote.value.ip.value + ":" + JavaLang.IntToDecimal(remote.value.port)))
    ensures remote.Some? && remote.value.InetSocketAddress? && remote.value.ip.None? ==> r == Err(NPE)
  {
    match remote
    case None => Ok(None)
    case Some(InetSocketAddress(ip, port)) =>
      if ip.None? then Err(NPE) else Ok(Some(ip.value + ":" + JavaLang.IntToDecimal(port)))
    case Some(OtherAddress(_)) => Err(Exn(ClassCast, "not an InetSocketAddress"))
  }

  /** The key of a resolved address ends with ":" and the port, and starts with the IP. */
  lemma UniqueKeyShape(ip: string, port: int)
    ensures var k := UniqueKey(Some(InetSocketAddress(Some(ip), port))).value.value;
      k[..|ip|] == ip && k[|ip|] == ':' && k[|ip| + 1..] == JavaLang.IntToDecimal(port)
  {
  }

  /** What parseRemoteAddress resolves to, with `lookup` standing for the DNS query. */
  function Resolve(host: Option<string>, port: int, lookup: string -> Result<string>): (r: Result<SocketAddress>)
    ensures host.None? ==> r == Err(NPE)
    ensures host.Some? && DnsCache.IsIpV4(host.value) ==> r == NewInetSocketAddress(host.value, port)
    ensures host.Some? && !DnsCache.IsIpV4(host.value) && lookup(host.value).Err? ==> r == Err(lookup(host.value).exn)
  {
    if host.None? then Err(NPE)
    else if DnsCache.IsIpV4(host.value) then NewInetSocketAddress(host.value, port)
    else
      match lookup(host.value)
      case Err(e) => Err(e)
      case Ok(ip) => NewInetSocketAddress(ip, port)
  }

  // ------------------------------------------------------ the write queue

  /** The future a queue entry carries, if any. */
  function EntryFuture(e: Queued): (r: set<Future>)
    ensures |r| <= 1
  {
    if e.Send? && e.packet.future.Some? then {e.packet.future.value} else {}
  }

  /** The futures of the packets in a queue. */
  function QueueFutures(q: seq<Queued>): (r: set<Future>)
  {
    set e | e in q && e.Send? && e.packet.future.Some? :: e.packet.future.value
  }

  /** Appending an entry adds its future. */
  lemma QueueFuturesSnoc(q: seq<Queued>, e: Queued)
    ensures QueueFutures(q + [e]) == QueueFutures(q) + EntryFuture(e)
  {
    assert forall x :: x in q + [e] <==> x in q || x == e;
  }

  /**
   * Fails the future of every entry that has one with `cause`, in queue
   * order (the loop of destroyWriteQueue, and the corrected loop of the
   * processor's clearWriteQueue).
   */
  method FailAll(q: seq<Queued>, cause: Exn)
    modifies QueueFutures(q)
    ensures forall f :: f in QueueFutures(q) ==> f.State() == FailedBy(old(f.State()), cause)
  {
    var i := 0;
    while i < |q|
      invariant 0 <= i <= |q|
      invariant forall f :: f in QueueFutures(q[..i]) ==> f.State() == FailedBy(old(f.State()), cause)
      invariant forall f :: f in QueueFutures(q) && f !in QueueFutures(q[..i]) ==> f.State() == old(f.State())
    {
      assert q[..i + 1] == q[..i] + [q[i]];
      QueueFuturesSnoc(q[..i], q[i]);
      FailEntry(q[i], cause);
      i := i + 1;
    }
    assert q[..i] == q;
  }

  /** One entry: fail its future, if it has one. */
  method FailEntry(e: Queued, cause: Exn)
    modifies EntryFuture(e)
    ensures forall f :: f in EntryFuture(e) ==> f.State() == FailedBy(old(f.State()), cause)
  {
    if e.Send? && e.packet.future.Some? {
      var _ := e.packet.future.value.SetException(Some(cause));
    }
  }

  /** A future's state after destroyWriteQueue fails it with "session closed!". */
  function FailedBy(st: FutureState, e: Exn): FutureState {
    SetValueSpec(st, Failure(e)).0
  }

  // ------------------------------------------------------ session ids

  /**
   * The static AtomicLong behind session ids: incremented for each new
   * session and reset to 0 once an id reaches Long.MAX_VALUE - 1.
   */
  const SESSION_ID_LIMIT := LONG_MAX - 1

  class SessionIds {
    var last: int
    /** How many ids have been handed out. */
    ghost var issued: nat

    ghost predicate Valid()
      reads this
    {
      last == issued % SESSION_ID_LIMIT
    }

    constructor()
      ensures Valid() && issued == 0
    {
      last := 0;
      issued := 0;
    }

    /** The id of the next session: 1, 2, ... up to Long.MAX_VALUE - 1, then 1 again. */
    method Next() returns (id: int)
      requires Valid()
      modifies this
      ensures Valid() && issued == old(issued) + 1
      ensures id == old(issued) % SESSION_ID_LIMIT + 1
      ensures 1 <= id <= SESSION_ID_LIMIT
    {
      last := last + 1;
      id := last;
      if id >= SESSION_ID_LIMIT {
        last := 0;
      }
      issued := issued + 1;
      IdStep(old(issued));
    }
  }

  lemma IdStep(k: nat)
    ensures (k + 1) % SESSION_ID_LIMIT == if k % SESSION_ID_LIMIT + 1 >= SESSION_ID_LIMIT then 0 else k % SESSION_ID_LIMIT + 1
  {
  }

  /** Ids handed out less than a full cycle apart are distinct. */
  lemma IdsDistinctWithinCycle(j: nat, k: nat)
    requires j < k < j + SESSION_ID_LIMIT
    ensures j % SESSION_ID_LIMIT + 1 != k % SESSION_ID_LIMIT + 1
  {
  }

  // ------------------------------------------------------ the session

  /** Every mutable field of a session, as one value. */
  datatype SessionFields = SessionFields(
    state: SState, scheduledForFlush: bool, hasQueue: bool, writeQueue: seq<Queued>,
    current: Option<Packet>, clock: IdleClock, config: NioSocketConfig,
    attributes: DefaultAttributeMap?, closeFuture: Future,
    remote: Option<SocketAddress>, host: Option<string>, port: int, connectDeadLine: int,
    keyValid: Option<bool>, channel: Option<Channel>, fired: seq<ChainCall>)

  /** IdleTestsInSequence, on the session's fields after each of the three idle tests. */
  lemma IdleFieldsInSequence(f0: SessionFields, f1: SessionFields, f2: SessionFields, f3: SessionFields, cfg: ConfigValues, now: int)
    requires f1 == f0.(clock := FireIf(f0.clock, Due(f0.clock, cfg, now, BothIdle), BothIdle, now),
                       fired := f0.fired + CallIf(Due(f0.clock, cfg, now, BothIdle), BothIdle))
    requires f2 == f1.(clock := FireIf(f1.clock, Due(f1.clock, cfg, now, ReaderIdle), ReaderIdle, now),
                       fired := f1.fired + CallIf(Due(f1.clock, cfg, now, ReaderIdle), ReaderIdle))
    requires f3 == f2.(clock := FireIf(f2.clock, Due(f2.clock, cfg, now, WriterIdle), WriterIdle, now),
                       fired := f2.fired + CallIf(Due(f2.clock, cfg, now, WriterIdle), WriterIdle))
    ensures var due := DueStatuses(f0.clock, cfg, now);
      f3 == f0.(clock := FireAll(f0.clock, due, now), fired := f0.fired + IdleCalls(due))
  {
    IdleTestsInSequence(f0.clock, cfg, now);
  }

  /** closeNow on a session in the given state: does it act? */
  predicate Closable(s: SState) {
    s != Closing && s != Invalid
  }

  /**
   * closeNow's effect on the session's own fields: a session that is not
   * already closing or invalid becomes CLOSING, its queue is drained and
   * filterClose is fired.
   */
  function AfterCloseNow(f: SessionFields): (r: SessionFields)
    ensures !Closable(f.state) ==> r == f
    ensures Closable(f.state) ==> r.state == Closing && r.writeQueue == [] && r.fired == f.fired + [FireFilterClose]
  {
    if !Closable(f.state) then f
    else f.(state := Closing, writeQueue := [], fired := f.fired + [FireFilterClose])
  }

  /** The UN_SET connect deadline. */
  const UN_SET := 0

  class Session {
    const id: int
    var state: SState
    var scheduledForFlush: bool
    /** The write queue exists (prepare creates it). */
    var hasQueue: bool
    var writeQueue: seq<Queued>
    /** The packet being written (currentWritePacket). */
    var current: Option<Packet>
    var clock: IdleClock
    var config: NioSocketConfig
    /** The attribute map; null until prepare. */
    var attributes: DefaultAttributeMap?
    /** The read buffer, allocated lazily. */
    const readBuffer: IoBuffer
    /** The session's one close future, made with the session. */
    var closeFuture: Future
    var remote: Option<SocketAddress>
    var host: Option<string>
    var port: int
    var connectDeadLine: int
    /** The selection key's validity; None while there is no key. */
    var keyValid: Option<bool>
    var channel: Option<Channel>
    /** The calls made on the filter chain, in order. */
    var fired: seq<ChainCall>

    function Fields(): SessionFields
      reads this
    {
      SessionFields(state, scheduledForFlush, hasQueue, writeQueue, current, clock, config,
        attributes, closeFuture, remote, host, port, connectDeadLine, keyValid, channel, fired)
    }

    ghost predicate Valid()
      reads this, config, readBuffer
    {
      config.Valid() && readBuffer.Valid() && closeFuture.session == this
      && (!hasQueue ==> writeQueue == [])
    }

    /** The futures closeNow fails: those of the queued packets. */
    function Pending(): set<Future>
      reads this
    {
      QueueFutures(writeQueue)
    }

    /**
     * A new session, created at time `now` with the configuration
     * createSession gives it: NEW, every time stamped `now`, no queue,
     * no attribute map, no address, and a fresh close future.
     */
    constructor(id: int, now: int, config: NioSocketConfig)
      requires config.Valid()
      ensures Valid() && this.id == id
      ensures fresh(readBuffer) && !readBuffer.hasBuffer
      ensures fresh(closeFuture) && closeFuture.State() == UNSET
      ensures Fields() == SessionFields(New, false, false, [], None, ClockAt(now), config,
        null, closeFuture, None, None, 0, UN_SET, None, None, [])
    {
      this.id := id;
      state := New;
      scheduledForFlush := false;
      hasQueue := false;
      writeQueue := [];
      current := None;
      clock := ClockAt(now);
      this.config := config;
      attributes := null;
      readBuffer := new IoBuffer();
      remote := None;
      host := None;
      port := 0;
      connectDeadLine := UN_SET;
      keyValid := None;
      channel := None;
      fired := [];
      closeFuture := new IOFuture<Session?>(null);
      new;
      closeFuture := new IOFuture<Session?>(this);
    }

    // ---------------------------------------------------- state

    function IsNew(): bool reads this { state == New }
    function IsConnecting(): bool reads this { state == Connecting }
    function IsReady(): bool reads this { state == Ready }
    function IsClosing(): bool reads this { state == Closing }
    function IsInvalid(): bool reads this { state == Invalid }

    /** _SWITCH_STATE_(NEW, CONNECTING): a compare-and-set that throws from any other state. */
    method SwitchToConnecting() returns (o: Outcome)
      modifies this
      ensures old(state) == New ==> o == Done && Fields() == old(Fields()).(state := Connecting)
      ensures old(state) != New ==>
        o == Threw(Exn(Runtime, "Unexpected Session state:" + StateName(old(state)) + " when set from NEW to CONNECTING!"))
        && Fields() == old(Fields())
    {
      if state != New {
        return Threw(Exn(Runtime, "Unexpected Session state:" + StateName(state) + " when set from NEW to CONNECTING!"));
      }
      state := Connecting;
      o := Done;
    }

    method SetStateClosed()
      modifies this
      ensures Fields() == old(Fields()).(state := Invalid)
    {
      state := Invalid;
    }

    method SetStateReady()
      modifies this
      ensures Fields() == old(Fields()).(state := Ready)
    {
      state := Ready;
    }

    /**
     * cancelConnect, less the call to the controller: only a CONNECTING
     * session moves to CLOSING, and then (forward) the controller is asked
     * to cancel the connect.
     */
    method CancelConnect() returns (forward: bool)
      modifies this
      ensures forward <==> old(state) == Connecting
      ensures forward ==> Fields() == old(Fields()).(state := Closing)
      ensures !forward ==> Fields() == old(Fields())
    {
      forward := state == Connecting;
      if forward {
        state := Closing;
      }
    }

    /**
     * prepare: CONNECTED, a copy of the configuration (applySessionConfig),
     * a new attribute map and a new, empty write queue. Anything queued
     * before is dropped without failing its future.
     */
    method Prepare()
      requires Valid()
      modifies this
      ensures Valid()
      ensures fresh(attributes) && attributes.attributes == map[]
      ensures fresh(config) && config.Values() == old(config.Values())
      ensures Fields() == old(Fields()).(state := Connected, config := config, attributes := attributes,
        hasQueue := true, writeQueue := [])
    {
      var c := config.Clone();
      var m := new DefaultAttributeMap();
      state, config, attributes, hasQueue, writeQueue := Connected, c, m, true, [];
    }

    method SetChannel(ch: Channel)
      modifies this
      ensures Fields() == old(Fields()).(channel := Some(ch))
    {
      channel := Some(ch);
    }

    method SetSelectionKey(valid: Option<bool>)
      modifies this
      ensures Fields() == old(Fields()).(keyValid := valid)
    {
      keyValid := valid;
    }

    /** isActive: the selection key's validity; there is no key to ask before registration. */
    function IsActive(): (r: Result<bool>)
      reads this
      ensures keyValid.None? <==> r.Err?
      ensures keyValid.Some? ==> r == Ok(keyValid.value)
    {
      if keyValid.None? then Err(NPE) else Ok(keyValid.value)
    }

    // ---------------------------------------------------- idle and timeout

    method UpdateWrittenTime(t: int)
      modifies this
      ensures Fields() == old(Fields()).(clock := WrittenAt(old(clock), t))
    {
      clock := clock.(lastWrite := t, countBoth := 0, countWrite := 0);
    }

    method UpdateReadTime(t: int)
      modifies this
      ensures Fields() == old(Fields()).(clock := ReadAt(old(clock), t))
    {
      clock := clock.(lastRead := t, countBoth := 0, countRead := 0);
    }

    method IncreaseIdleCount(status: IdleStatus, t: int)
      modifies this
      ensures Fields() == old(Fields()).(clock := IdleFired(old(clock), status, t))
    {
      match status
      case BothIdle => clock := clock.(countBoth := Wrap32(clock.countBoth + 1), idleBoth := t);
      case ReaderIdle => clock := clock.(countRead := Wrap32(clock.countRead + 1), idleRead := t);
      case WriterIdle => clock := clock.(countWrite := Wrap32(clock.countWrite + 1), idleWrite := t);
    }

    /** fireSessionIdle: the chain counts the event before dispatching it. */
    method FireIdle(status: IdleStatus, now: int)
      modifies this
      ensures Fields() == old(Fields()).(clock := IdleFired(old(clock), status, now),
        fired := old(fired) + [FireSessionIdle(status)])
    {
      IncreaseIdleCount(status, now);
      fired := fired + [FireSessionIdle(status)];
    }

    /** notifyIdleSession0 for one status. */
    method CheckIdle(status: IdleStatus, now: int)
      modifies this
      ensures var due := Due(old(clock), old(config.Values()), now, status);
        Fields() == old(Fields()).(clock := FireIf(old(clock), due, status, now),
                                   fired := old(fired) + CallIf(due, status))
    {
      if IdleDue(now, config.GetIdleTimeInMillis(status), Reference(clock, status)) {
        FireIdle(status, now);
      }
    }

    /**
     * The three idle tests of notifyIdleSession. Each is decided on the
     * clock as it was before any of them fired.
     */
    method NotifyIdle(now: int)
      modifies this
      ensures var due := DueStatuses(old(clock), old(config.Values()), now);
        Fields() == old(Fields()).(clock := FireAll(old(clock), due, now), fired := old(fired) + IdleCalls(due))
    {
      ghost var f0, cfg := Fields(), config.Values();
      CheckIdle(BothIdle, now);
      ghost var f1 := Fields();
      CheckIdle(ReaderIdle, now);
      ghost var f2 := Fields();
      CheckIdle(WriterIdle, now);
      IdleFieldsInSequence(f0, f1, f2, Fields(), cfg, now);
    }

    /** The packet in flight has exceeded the write timeout. */
    predicate TimedOut(now: int)
      reads this, config, if current.Some? then {current.value} else {}
    {
      current.Some? && now - current.value.startTime >= config.writeTimeout
    }

    /**
     * notifyWriteTimeout: a packet in flight for the write timeout or
     * longer is dropped from the current slot, its future is failed with
     * "Write Timeout", exceptionCaught is fired and the session is closed.
     * A packet without a future makes that a NullPointerException.
     */
    method NotifyWriteTimeout(now: int) returns (o: Outcome)
      modifies this, Pending(), if current.Some? && current.value.future.Some? then {current.value.future.value} else {}
      ensures !old(TimedOut(now)) ==> o == Done && Fields() == old(Fields())
      ensures old(TimedOut(now)) && old(current.value.future).None? ==>
        o == Threw(NPE) && Fields() == old(Fields()).(current := None)
      ensures old(TimedOut(now)) && old(current.value.future).Some? ==>
        o == Done
        && Fields() == AfterCloseNow(old(Fields()).(current := None, fired := old(fired) + [FireExceptionCaught(WRITE_TIMEOUT)]))
        && old(current.value.future.value).State() == FailedBy(old(current.value.future.value.State()), WRITE_TIMEOUT)
      ensures clock == old(clock) && closeFuture == old(closeFuture) && config == old(config)
      ensures |fired| >= |old(fired)| && fired[..|old(fired)|] == old(fired) && (!old(TimedOut(now)) ==> fired == old(fired))
      ensures (current == old(current) || current.None?) && (writeQueue == old(writeQueue) || writeQueue == [])
    {
      var wt := config.writeTimeout;
      if current.None? || now - current.value.startTime < wt {
        return Done;
      }
      var p := current.value;
      current := None;
      if p.future.None? {
        return Threw(NPE);
      }
      var _ := p.future.value.SetException(Some(WRITE_TIMEOUT));
      fired := fired + [FireExceptionCaught(WRITE_TIMEOUT)];
      ghost var f := p.future.value;
      ghost var st := f.State();
      var _ := CloseNowKeeping(f);
      assert f.State() == st;
      o := Done;
    }

    /**
     * notifyIdleSession: the three idle tests, then the write timeout.
     */
    method NotifyIdleSession(now: int) returns (o: Outcome)
      modifies this, Pending(), if current.Some? && current.value.future.Some? then {current.value.future.value} else {}
      ensures var due := DueStatuses(old(clock), old(config.Values()), now);
        clock == FireAll(old(clock), due, now)
        && |fired| >= |old(fired)| + |due| && fired[..|old(fired)| + |due|] == old(fired) + IdleCalls(due)
      ensures !old(TimedOut(now)) ==> o == Done && |fired| == |old(fired)| + |DueStatuses(old(clock), old(config.Values()), now)|
      ensures old(TimedOut(now)) ==> current.None?
      ensures (current == old(current) || current.None?) && (writeQueue == old(writeQueue) || writeQueue == [])
      ensures closeFuture == old(closeFuture) && config == old(config)
    {
      NotifyIdle(now);
      ghost var fired1 := fired;
      o := NotifyWriteTimeout(now);
      assert fired[..|fired1|] == fired1;
    }

    // ---------------------------------------------------- closing

    /** destroyWriteQueue: every queued packet that has a future is failed with "session closed!". */
    method DestroyWriteQueue()
      modifies this, Pending()
      ensures Fields() == old(Fields()).(writeQueue := [])
      ensures forall f :: f in old(Pending()) ==> f.State() == FailedBy(old(f.State()), SESSION_CLOSED)
    {
      FailAll(writeQueue, SESSION_CLOSED);
      writeQueue := [];
    }

    /**
     * closeNow: a session already CLOSING or INVALID is left alone;
     * otherwise it becomes CLOSING, its queue is destroyed and filterClose
     * is fired. The close future is returned either way.
     */
    method CloseNow() returns (r: Future)
      modifies this, Pending()
      ensures r == closeFuture
      ensures Fields() == AfterCloseNow(old(Fields()))
      ensures Closable(old(state)) ==> forall f :: f in old(Pending()) ==> f.State() == FailedBy(old(f.State()), SESSION_CLOSED)
      ensures !Closable(old(state)) ==> forall f :: f in old(Pending()) ==> f.State() == old(f.State())
    {
      if !Closable(state) {
        return closeFuture;
      }
      state := Closing;
      DestroyWriteQueue();
      fired := fired + [FireFilterClose];
      r := closeFuture;
    }

    /** closeNow, seen from a future that is not queued (or already complete): its state is kept. */
    method CloseNowKeeping(ghost f: Future) returns (r: Future)
      requires f.ready
      modifies this, Pending()
      ensures r == closeFuture && Fields() == AfterCloseNow(old(Fields()))
      ensures f.State() == old(f.State())
    {
      ghost var st := f.State();
      r := CloseNow();
    }

    /**
     * closeOnFlush, less the flush request: a session that is not closing
     * or invalid gets CLOSE_REQUEST at the end of its queue (offered), and
     * the caller then asks the processor to flush it. The queue must exist.
     */
    method CloseOnFlush() returns (r: Result<Future>, offered: bool)
      modifies this
      ensures offered <==> Closable(old(state)) && old(hasQueue)
      ensures Closable(old(state)) && !old(hasQueue) ==> r == Err(NPE) && Fields() == old(Fields())
      ensures !Closable(old(state)) ==> r == Ok(closeFuture) && Fields() == old(Fields())
      ensures offered ==> r == Ok(closeFuture) && Fields() == old(Fields()).(writeQueue := old(writeQueue) + [CloseRequest])
    {
      offered := false;
      if Closable(state) {
        if !hasQueue {
          return Err(NPE), false;
        }
        writeQueue := writeQueue + [CloseRequest];
        offered := true;
      }
      r := Ok(closeFuture);
    }

    // ---------------------------------------------------- writing

    /**
     * write: a null message is refused. A session that is not READY
     * fails the new future with IllegalStateException and queues nothing.
     * An IoBuffer with nothing remaining is refused. Otherwise a packet
     * stamped with `now` is fired from the tail towards the head.
     */
    method Write(message: Message, now: int) returns (r: Result<Future>)
      modifies this
      ensures message.NullMessage? ==> (r == Err(Exn(IllegalArgument, "Trying to write a null message : not allowed"))
        && Fields() == old(Fields()))
      ensures !message.NullMessage? && old(state) != Ready ==>
        r.Ok? && fresh(r.value) && r.value.session == this && Fields() == old(Fields())
        && r.value.State() == FutureState(true, Failure(Exn(IllegalState, "Trying to write a message to a closed session")))
      ensures !message.NullMessage? && old(state) == Ready && message.BufferMessage? && message.buf.HasRemaining() != Ok(true) ==>
        r == (if message.buf.HasRemaining().Err? then Err(message.buf.HasRemaining().exn)
              else Err(Exn(IllegalArgument, "message is empty. Forgot to call flip()?")))
        && Fields() == old(Fields())
      ensures !message.NullMessage? && old(state) == Ready && !(message.BufferMessage? && message.buf.HasRemaining() != Ok(true)) ==>
        r.Ok? && fresh(r.value) && r.value.session == this && r.value.State() == UNSET
        && |fired| == |old(fired)| + 1 && Fields() == old(Fields()).(fired := fired)
        && fired[|fired| - 1].FireFilterWrite?
        && var p := fired[|fired| - 1].packet;
           fresh(p)
           && p.origMessage == message && p.message == message && p.future == Some(r.value) && p.startTime == now
    {
      if message.NullMessage? {
        return Err(Exn(IllegalArgument, "Trying to write a null message : not allowed"));
      }
      var future := new IOFuture<Session?>(this);
      if state != Ready {
        var _ := future.SetException(Some(Exn(IllegalState, "Trying to write a message to a closed session")));
        return Ok(future);
      }
      if message.BufferMessage? {
        var has := message.buf.HasRemaining();
        if has.Err? {
          return Err(has.exn);
        }
        if !has.value {
          return Err(Exn(IllegalArgument, "message is empty. Forgot to call flip()?"));
        }
      }
      var packet := new WritePacket<Session?>(message, Some(future));
      packet.SetStartTime(now);
      fired := fired + [FireFilterWrite(packet)];
      r := Ok(future);
    }

    /**
     * setScheduledForFlush(true) is a compare-and-set from false and
     * reports whether it flipped the flag; (false) always clears it and
     * reports true.
     */
    method SetScheduledForFlush(schedule: bool) returns (r: bool)
      modifies this
      ensures r <==> !schedule || !old(scheduledForFlush)
      ensures Fields() == old(Fields()).(scheduledForFlush := schedule)
    {
      if schedule {
        r := !scheduledForFlush;
        scheduledForFlush := true;
      } else {
        scheduledForFlush := false;
        r := true;
      }
    }

    method SetCurrentWritePacket(p: Option<Packet>)
      modifies this
      ensures Fields() == old(Fields()).(current := p)
    {
      current := p;
    }

    /** poll on the write queue. */
    method PollWriteQueue() returns (q: Option<Queued>)
      modifies this
      ensures old(writeQueue) == [] ==> q.None? && Fields() == old(Fields())
      ensures old(writeQueue) != [] ==> q == Some(old(writeQueue)[0]) && Fields() == old(Fields()).(writeQueue := old(writeQueue)[1..])
    {
      if writeQueue == [] {
        return None;
      }
      q := Some(writeQueue[0]);
      writeQueue := writeQueue[1..];
    }

    /** A chain call with nothing done before dispatch. */
    method Fire(c: ChainCall)
      modifies this
      ensures Fields() == old(Fields()).(fired := old(fired) + [c])
    {
      fired := fired + [c];
    }

    /** fireMessageSent: the packet's future is marked written first; a packet without one throws. */
    method FireSent(p: Packet) returns (o: Outcome)
      modifies this, if p.future.Some? then {p.future.value} else {}
      ensures p.future.None? ==> o == Threw(NPE) && Fields() == old(Fields())
      ensures p.future.Some? ==> (o == Done && Fields() == old(Fields()).(fired := old(fired) + [FireMessageSent(p)])
        && p.future.value.State() == SetValueSpec(old(p.future.value.State()), BoolValue(true)).0)
    {
      if p.future.None? {
        return Threw(NPE);
      }
      p.future.value.SetWritten();
      fired := fired + [FireMessageSent(p)];
      o := Done;
    }

    // ---------------------------------------------------- buffer, attributes

    /** getIOBuffer: allocates the read buffer, with the configured size, the first time. */
    method GetIOBuffer() returns (b: IoBuffer)
      requires Valid()
      modifies readBuffer
      ensures Valid() && b == readBuffer && readBuffer.hasBuffer
      ensures old(readBuffer.hasBuffer) ==> readBuffer.View() == old(readBuffer.View())
      ensures !old(readBuffer.hasBuffer) ==> (|readBuffer.bytes| == config.readBufferSize
        && readBuffer.pos == 0 && readBuffer.lim == config.readBufferSize)
    {
      if !readBuffer.Available() {
        var _ := readBuffer.Allocate(config.readBufferSize);
      }
      b := readBuffer;
    }

    /** setAttribute: the attribute map's set; before prepare there is no map. */
    method SetAttribute(key: Option<AttributeKey>, value: Option<object>) returns (r: Result<Option<object>>)
      modifies attributes
      ensures attributes == null ==> r == Err(NPE)
      ensures attributes != null && key.None? ==> r.Err? && attributes.attributes == old(attributes.attributes)
      ensures attributes != null && key.Some? ==> (r == old(attributes.Get(key))
        && attributes.attributes == if value.None? then old(attributes.attributes) - {key.value}
                                    else old(attributes.attributes)[key.value := value.value])
    {
      if attributes == null {
        return Err(NPE);
      }
      r := attributes.Set(key, value);
    }

    /** removeAttribute */
    method RemoveAttribute(key: Option<AttributeKey>) returns (r: Result<Option<object>>)
      modifies attributes
      ensures attributes == null ==> r == Err(NPE)
      ensures attributes != null && key.None? ==> r.Err? && attributes.attributes == old(attributes.attributes)
      ensures attributes != null && key.Some? ==> (r == old(attributes.Get(key))
        && attributes.attributes == old(attributes.attributes) - {key.value})
    {
      if attributes == null {
        return Err(NPE);
      }
      r := attributes.Remove(key);
    }

    // ---------------------------------------------------- NioSession

    /** setRemoteAddress(SocketAddress): only a NEW session, and only an InetSocketAddress. */
    method SetRemoteAddress(address: SocketAddress) returns (o: Outcome)
      modifies this
      ensures old(state) != New ==> o == Threw(Exn(IllegalState, "Can change remote address of a session in use"))
      ensures old(state) == New && address.OtherAddress? ==> o == Threw(Exn(Runtime, "Unsupported remoteAddress class!"))
      ensures o.Threw? ==> Fields() == old(Fields())
      ensures o.Done? <==> old(state) == New && address.InetSocketAddress?
      ensures o.Done? ==> Fields() == old(Fields()).(remote := Some(address))
    {
      if state != New {
        return Threw(Exn(IllegalState, "Can change remote address of a session in use"));
      }
      if !address.InetSocketAddress? {
        return Threw(Exn(Runtime, "Unsupported remoteAddress class!"));
      }
      remote := Some(address);
      o := Done;
    }

    /** setRemoteAddress(host, port): only a NEW session; forgets any address already set. */
    method SetRemoteHost(remoteHost: Option<string>, remotePort: int) returns (o: Outcome)
      modifies this
      ensures old(state) != New ==> (o == Threw(Exn(IllegalState, "Can change remote address of a session in use"))
        && Fields() == old(Fields()))
      ensures old(state) == New ==> o == Done && Fields() == old(Fields()).(remote := None, host := remoteHost, port := remotePort)
    {
      if state != New {
        return Threw(Exn(IllegalState, "Can change remote address of a session in use"));
      }
      remote := None;
      host := remoteHost;
      port := remotePort;
      o := Done;
    }

    /**
     * parseRemoteAddress: nothing to do once an address is set; otherwise
     * the host is used as is when it is a dotted IPv4 address and looked
     * up (`lookup`) when it is not.
     */
    method ParseRemoteAddress(lookup: string -> Result<string>) returns (o: Outcome)
      modifies this
      ensures old(remote).Some? ==> o == Done && Fields() == old(Fields())
      ensures old(remote).None? && Resolve(old(host), old(port), lookup).Err? ==>
        o == Threw(Resolve(old(host), old(port), lookup).exn) && Fields() == old(Fields())
      ensures old(remote).None? && Resolve(old(host), old(port), lookup).Ok? ==>
        o == Done && Fields() == old(Fields()).(remote := Some(Resolve(old(host), old(port), lookup).value))
    {
      if remote.Some? {
        return Done;
      }
      if host.None? {
        return Threw(NPE);
      }
      var address: Result<SocketAddress>;
      if !DnsCache.IsIpV4(host.value) {
        var ip := lookup(host.value);
        if ip.Err? {
          return Threw(ip.exn);
        }
        address := NewInetSocketAddress(ip.value, port);
      } else {
        address := NewInetSocketAddress(host.value, port);
      }
      if address.Err? {
        return Threw(address.exn);
      }
      remote := Some(address.value);
      o := Done;
    }

    function GetUniqueKey(): (r: Result<Option<string>>)
      reads this
      ensures r == UniqueKey(remote)
      ensures remote.None? ==> r == Ok(None)
    {
      UniqueKey(remote)
    }

    /** setConnectDeadLine: `now` plus the configured connect timeout. */
    method SetConnectDeadLine(now: int)
      modifies this
      ensures Fields() == old(Fields()).(connectDeadLine := now + config.connectTimeoutMs)
    {
      connectDeadLine := now + config.connectTimeoutMs;
    }

    /** isConnectTimeout: never while the deadline is unset; otherwise once `now` reaches it. */
    function IsConnectTimeout(now: int): (r: bool)
      reads this
      ensures connectDeadLine == UN_SET ==> !r
      ensures connectDeadLine != UN_SET ==> (r <==> now >= connectDeadLine)
    {
      if connectDeadLine == UN_SET then false else now >= connectDeadLine
    }
  }

  lemma {:induction false} FireAllAppend(c: IdleClock, xs: seq<IdleStatus>, ys: seq<IdleStatus>, now: int)
    ensures FireAll(c, xs + ys, now) == FireAll(FireAll(c, xs, now), ys, now)
    decreases |xs|
  {
    if |xs| == 0 {
      assert xs + ys == ys;
    } else {
      assert (xs + ys)[1..] == xs[1..] + ys;
      FireAllAppend(IdleFired(c, xs[0], now), xs[1..], ys, now);
    }
  }

  lemma {:induction false} IdleCallsAppend(xs: seq<IdleStatus>, ys: seq<IdleStatus>)
    ensures IdleCalls(xs + ys) == IdleCalls(xs) + IdleCalls(ys)
  {
    var l, r := IdleCalls(xs + ys), IdleCalls(xs) + IdleCalls(ys);
    assert |l| == |r|;
    forall i | 0 <= i < |l| ensures l[i] == r[i] {
      if i < |xs| { assert (xs + ys)[i] == xs[i]; } else { assert (xs + ys)[i] == ys[i - |xs|]; }
    }
  }
}
