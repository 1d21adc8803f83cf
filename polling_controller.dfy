// AbstractPollingIoController, with NioChannelController's answers about
// the selector: the connect engine. Callers queue connect requests and
// cancellations; the WorkerBee drains them. Each pass of the worker loop
// is a method here. What the network does (name lookup, opening a channel,
// connecting it, finishing a connect) is an input.
module PollingControllers {
  import opened Common
  import opened Futures
  import opened Sessions
  import opened ControllerBase
  import Processors
  import ProtocolFilters

  /** What connect fails a request's future with once the controller is disposing. */
  const DISPOSING := Exn(IllegalState, "connect failed when Controller is disposing !")
  /** What checkTimeOut fails an overdue request's future with. */
  const TIMED_OUT := Exn(ConnectError, "Connection timed out.")
  /** What the processor's add throws once it is disposing. */
  const ALREADY_DISPOSED := Exn(IllegalState, "Already disposed.")
  /** The default interval between connect checks: one minute. */
  const CONNECT_CHECK_INTERVAL := 60 * 1000

  /** The select timeout of a worker iteration: at most a second, shorter while connects are pending if the check interval is. */
  function SelectTimeout(nConnect: int, interval: int): (t: int)
    ensures t <= 1000
    ensures nConnect <= 0 ==> t == 1000
    ensures nConnect > 0 ==> t == interval || t == 1000
  {
    if nConnect > 0 then (if interval < 1000 then interval else 1000) else 1000
  }

  /**
   * What the network does for one connect request: opening a channel,
   * connecting it to the remote address (true when the connect completed
   * at once), and registering a channel still connecting with the selector.
   */
  datatype Dial = Dial(open: Result<Channel>, connect: Result<bool>, register: Option<Exn>)

  /**
   * How a connect request ends: its future failed (with the channel opened
   * for it, if any, and whether the session was already handed to the
   * processor), the connection established and handed to the processor,
   * or the channel registered and still connecting.
   */
  datatype ConnectEnd =
    | Failed(cause: Exn, channel: Option<Channel>, handedOver: bool)
    | Established(ch: Channel)
    | InProgress(ch: Channel)

  /** parseRemoteAddress's outcome: nothing to do once an address is set, else the resolution's. */
  function ParseOutcome(remote: Option<SocketAddress>, host: Option<string>, port: int, lookup: string -> Result<string>): Outcome {
    if remote.Some? then Done
    else match Resolve(host, port, lookup)
      case Err(e) => Threw(e)
      case Ok(_) => Done
  }

  /** The remote address after parseRemoteAddress. */
  function ParsedRemote(remote: Option<SocketAddress>, host: Option<string>, port: int, lookup: string -> Result<string>): Option<SocketAddress> {
    if remote.Some? then remote
    else match Resolve(host, port, lookup)
      case Err(_) => remote
      case Ok(a) => Some(a)
  }

  /**
   * doConnectThenRegister on one request, from whether the future has a
   * session, how its address parses, what the network does and whether
   * the processor refuses new sessions.
   */
  function DialEnd(hasSession: bool, parsed: Outcome, d: Dial, processorClosed: bool): ConnectEnd {
    if !hasSession then Failed(NPE, None, false)
    else if parsed.Threw? then Failed(parsed.exn, None, false)
    else if d.open.Err? then Failed(d.open.exn, None, false)
    else if d.connect.Err? then Failed(d.connect.exn, Some(d.open.value), false)
    else if d.connect.value then
      (if processorClosed then Failed(ALREADY_DISPOSED, Some(d.open.value), true) else Established(d.open.value))
    else if d.register.Some? then Failed(d.register.value, Some(d.open.value), false)
    else InProgress(d.open.value)
  }

  /** The channels a request's failure closes. */
  function Opened(ch: Option<Channel>): set<Channel> {
    if ch.Some? then {ch.value} else {}
  }

  /** The channels still connecting after a request for f ended as e. */
  function EndConnecting(m: map<Channel, ConnectFuture>, f: ConnectFuture, e: ConnectEnd): map<Channel, ConnectFuture> {
    match e
    case Failed(_, ch, _) => m - Opened(ch)
    case Established(_) => m
    case InProgress(ch) => m[ch := f]
  }

  /** The channels a request that ended as e closed. */
  function Closes(e: ConnectEnd): set<Channel> {
    if e.Failed? then Opened(e.channel) else {}
  }

  /** How many of the requests were left connecting. */
  function StillConnecting(ends: seq<ConnectEnd>): nat
    decreases |ends|
  {
    if ends == [] then 0
    else StillConnecting(ends[..|ends| - 1]) + (if ends[|ends| - 1].InProgress? then 1 else 0)
  }

  /** The session one request hands to the processor: its own, when the connect completed at once. */
  function HandedOne(f: ConnectFuture, e: ConnectEnd): seq<Session> {
    if e.Established? && f.future.session != null then [f.future.session] else []
  }

  /** A request's future after it ended as e: failed with e's cause, else as it was. */
  function EndedState(st: FutureState, e: ConnectEnd): FutureState {
    if e.Failed? then FailedBy(st, e.cause) else st
  }

  /**
   * What draining the connect queue has done so far: the channels still
   * connecting, the channels closed, the sessions handed to the processor
   * and how many requests were left connecting.
   */
  datatype Drain = Drain(connecting: map<Channel, ConnectFuture>, closed: set<Channel>, handed: seq<Session>, still: nat)

  /** The drain after one more request, for f, ended as e. */
  function EndOne(d: Drain, f: ConnectFuture, e: ConnectEnd): Drain {
    Drain(EndConnecting(d.connecting, f, e), d.closed + Closes(e), d.handed + HandedOne(f, e),
      d.still + if e.InProgress? then 1 else 0)
  }

  /** The drain after the first |ends| requests of fs ended, in order, as ends says. */
  function DrainOf(d: Drain, fs: seq<ConnectFuture>, ends: seq<ConnectEnd>): Drain
    requires |ends| <= |fs|
    decreases |ends|
  {
    if ends == [] then d else EndOne(DrainOf(d, fs, ends[..|ends| - 1]), fs[|ends| - 1], ends[|ends| - 1])
  }

  /** The requests of Q0 that ended so far ended as DialEnd says, from their parses and what the network did for each. */
  predicate Dialed(Q0: seq<ConnectFuture>, ends: seq<ConnectEnd>, parsed: seq<Outcome>, dial: ConnectFuture -> Dial, closed: bool) {
    |ends| == |parsed| <= |Q0|
    && forall i :: 0 <= i < |ends| ==> ends[i] == DialEnd(Q0[i].future.session != null, parsed[i], dial(Q0[i]), closed)
  }

  /** One more request ending as DialEnd says keeps Dialed. */
  lemma DialedSnoc(Q0: seq<ConnectFuture>, ends: seq<ConnectEnd>, parsed: seq<Outcome>, dial: ConnectFuture -> Dial, closed: bool,
                   e: ConnectEnd, p: Outcome)
    requires Dialed(Q0, ends, parsed, dial, closed) && |ends| < |Q0|
    requires e == DialEnd(Q0[|ends|].future.session != null, p, dial(Q0[|ends|]), closed)
    ensures Dialed(Q0, ends + [e], parsed + [p], dial, closed)
  {
  }

  /**
   * With no session shared between the requests Q0, each request that
   * ended so far and has a session parsed the address a0 its session had
   * before the drain.
   */
  predicate ParsedAs(Q0: seq<ConnectFuture>, parsed: seq<Outcome>, a0: seq<Address>, lookup: string -> Result<string>) {
    |parsed| <= |Q0| == |a0|
    && (SessionsApart(Q0) ==> forall i :: 0 <= i < |parsed| && Q0[i].future.session != null ==>
          parsed[i] == ParseOutcome(a0[i].0, a0[i].1, a0[i].2, lookup))
  }

  /** One more request parsing its recorded address keeps ParsedAs. */
  lemma ParsedAsSnoc(Q0: seq<ConnectFuture>, parsed: seq<Outcome>, a0: seq<Address>, lookup: string -> Result<string>, p: Outcome)
    requires ParsedAs(Q0, parsed, a0, lookup) && |parsed| < |Q0|
    requires SessionsApart(Q0) && Q0[|parsed|].future.session != null ==>
      p == ParseOutcome(a0[|parsed|].0, a0[|parsed|].1, a0[|parsed|].2, lookup)
    ensures ParsedAs(Q0, parsed + [p], a0, lookup)
  {
  }

  /** Ending one more request extends the drain by it. */
  lemma DrainOfSnoc(d: Drain, fs: seq<ConnectFuture>, ends: seq<ConnectEnd>, e: ConnectEnd)
    requires |ends| < |fs|
    ensures DrainOf(d, fs, ends + [e]) == EndOne(DrainOf(d, fs, ends), fs[|ends|], e)
  {
    assert (ends + [e])[..|ends|] == ends;
  }

  /**
   * After the requests fs ended as ends: every channel left connecting was
   * connecting before with the same future or belongs to one of the
   * requests; no channel is reopened; the sessions handed over extend the
   * earlier ones; the requests left connecting are counted by
   * StillConnecting; and each request is left connecting, handed over, or
   * neither.
   */
  lemma {:induction false} DrainOfSpec(d: Drain, fs: seq<ConnectFuture>, ends: seq<ConnectEnd>)
    requires |ends| <= |fs|
    ensures var r := DrainOf(d, fs, ends);
      (forall ch :: ch in r.connecting ==> (ch in d.connecting && r.connecting[ch] == d.connecting[ch]) || r.connecting[ch] in fs[..|ends|])
      && d.closed <= r.closed
      && |d.handed| <= |r.handed| && r.handed[..|d.handed|] == d.handed
      && r.still == d.still + StillConnecting(ends)
      && (r.still - d.still) + (|r.handed| - |d.handed|) <= |ends|
    decreases |ends|
  {
    if ends != [] {
      var init := ends[..|ends| - 1];
      DrainOfSpec(d, fs, init);
      assert forall g :: g in fs[..|init|] ==> g in fs[..|ends|];
      var r0 := DrainOf(d, fs, init);
      var r := DrainOf(d, fs, ends);
      assert r.handed[..|r0.handed|] == r0.handed;
    }
  }

  /** A session's address as parseRemoteAddress reads it: the remote address, the host and the port. */
  type Address = (Option<SocketAddress>, Option<string>, int)

  /** The address fields of s, or nothing for a missing session. */
  ghost function AddressOf(s: Session?): Address
    reads s
  {
    if s == null then (None, None, 0) else (s.remote, s.host, s.port)
  }

  /** The addresses of the requests' sessions, request by request. */
  ghost function Addresses(fs: seq<ConnectFuture>): (r: seq<Address>)
    reads QueuedSessions(fs)
    ensures |r| == |fs| && forall i :: 0 <= i < |fs| ==> r[i] == AddressOf(fs[i].future.session)
    decreases |fs|
  {
    if fs == [] then [] else Addresses(fs[..|fs| - 1]) + [AddressOf(fs[|fs| - 1].future.session)]
  }

  /** The states of the requests' futures, request by request. */
  ghost function States(fs: seq<ConnectFuture>): (r: seq<FutureState>)
    reads FuturesOf(fs)
    ensures |r| == |fs| && forall i :: 0 <= i < |fs| ==> r[i] == fs[i].future.State()
    decreases |fs|
  {
    if fs == [] then [] else States(fs[..|fs| - 1]) + [fs[|fs| - 1].future.State()]
  }

  /**
   * With no session shared between the requests Q0, the sessions of the
   * requests from k on still have the addresses a0 they had before the drain.
   */
  ghost predicate AddressesFrom(Q0: seq<ConnectFuture>, k: nat, a0: seq<Address>)
    reads QueuedSessions(Q0)
  {
    |Q0| == |a0|
    && (SessionsApart(Q0) ==> forall j :: k <= j < |Q0| ==> AddressOf(Q0[j].future.session) == a0[j])
  }

  /**
   * With no future shared between the requests Q0, the futures of the
   * requests that ended failed or stayed, from their states st0 before the
   * drain, as ends says, and the others are as they were.
   */
  ghost predicate StatesAt(Q0: seq<ConnectFuture>, ends: seq<ConnectEnd>, st0: seq<FutureState>)
    reads FuturesOf(Q0)
  {
    |ends| <= |Q0| == |st0|
    && (FuturesApart(Q0) ==> forall i :: 0 <= i < |Q0| ==>
          Q0[i].future.State() == if i < |ends| then EndedState(st0[i], ends[i]) else st0[i])
  }

  /** Every request has a future of its own. */
  predicate FuturesApart(fs: seq<ConnectFuture>) {
    forall i, j :: 0 <= i < j < |fs| ==> fs[i].future != fs[j].future
  }

  /** No two requests share a session. */
  predicate SessionsApart(fs: seq<ConnectFuture>) {
    forall i, j :: 0 <= i < j < |fs| && fs[i].future.session != null ==> fs[i].future.session != fs[j].future.session
  }

  /** The cancel queue after scheduleCancelConnect: a future already queued is not queued again. */
  function Scheduled(q: seq<ConnectFuture>, f: ConnectFuture): seq<ConnectFuture> {
    if f in q then q else q + [f]
  }

  /** The cancel queue after scheduling each of fs in turn. */
  function ScheduledAll(q: seq<ConnectFuture>, fs: seq<ConnectFuture>): seq<ConnectFuture>
    decreases |fs|
  {
    if fs == [] then q else Scheduled(ScheduledAll(q, fs[..|fs| - 1]), fs[|fs| - 1])
  }

  /** Scheduling keeps what was queued, in order, adds exactly the futures scheduled and never queues one twice. */
  lemma {:induction false} ScheduledAllSpec(q: seq<ConnectFuture>, fs: seq<ConnectFuture>)
    ensures |q| <= |ScheduledAll(q, fs)| && ScheduledAll(q, fs)[..|q|] == q
    ensures forall f :: f in ScheduledAll(q, fs) <==> f in q || f in fs
    ensures Processors.NoDup(q) ==> Processors.NoDup(ScheduledAll(q, fs))
    decreases |fs|
  {
    if fs != [] {
      var init := fs[..|fs| - 1];
      ScheduledAllSpec(q, init);
      assert forall f :: f in fs <==> f in init || f == fs[|fs| - 1] by {
        assert fs == init + [fs[|fs| - 1]];
      }
    }
  }

  /** Scheduling a run of futures, then another, is scheduling them all. */
  lemma {:induction false} ScheduledAllAppend(q: seq<ConnectFuture>, a: seq<ConnectFuture>, b: seq<ConnectFuture>)
    ensures ScheduledAll(q, a + b) == ScheduledAll(ScheduledAll(q, a), b)
    decreases |b|
  {
    if b == [] {
      assert a + b == a;
    } else {
      var init := b[..|b| - 1];
      ScheduledAllAppend(q, a, init);
      assert (a + b)[..|a + b| - 1] == a + init;
    }
  }

  /** The request has a session whose connect deadline has passed at now. */
  predicate Overdue(f: ConnectFuture, now: int)
    reads f.future.session
  {
    f.future.session != null && f.future.session.IsConnectTimeout(now)
  }

  /** The sessions of the futures attached to the channels of a selector. */
  function SessionsOf(connecting: map<Channel, ConnectFuture>): set<Session?> {
    set ch | ch in connecting :: connecting[ch].future.session
  }

  /**
   * The futures checkTimeOut schedules for cancelling, key by key: every
   * attached one while the controller is disposing, else the overdue ones.
   */
  function TimeOutTargets(keys: seq<Option<Channel>>, connecting: map<Channel, ConnectFuture>, disposing: bool, overdue: set<ConnectFuture>): seq<ConnectFuture>
    decreases |keys|
  {
    if keys == [] then []
    else TimeOutTargets(keys[..|keys| - 1], connecting, disposing, overdue) + TimeOutTarget(keys[|keys| - 1], connecting, disposing, overdue)
  }

  /** Extending the keys by one extends the targets by that key's target. */
  lemma TimeOutTargetsSnoc(keys: seq<Option<Channel>>, i: nat, connecting: map<Channel, ConnectFuture>, disposing: bool, overdue: set<ConnectFuture>)
    requires i < |keys|
    ensures TimeOutTargets(keys[..i + 1], connecting, disposing, overdue)
      == TimeOutTargets(keys[..i], connecting, disposing, overdue) + TimeOutTarget(keys[i], connecting, disposing, overdue)
  {
    assert keys[..i + 1][..i] == keys[..i];
  }

  /** The future checkTimeOut schedules for one key, if any. */
  function TimeOutTarget(k: Option<Channel>, connecting: map<Channel, ConnectFuture>, disposing: bool, overdue: set<ConnectFuture>): seq<ConnectFuture> {
    if k.Some? && k.value in connecting && (disposing || connecting[k.value] in overdue) then [connecting[k.value]] else []
  }

  /** The attached requests that are overdue at now. */
  function OverdueAmong(connecting: map<Channel, ConnectFuture>, now: int): set<ConnectFuture>
    reads SessionsOf(connecting)
  {
    set f | f in connecting.Values && Overdue(f, now)
  }

  /** overdue holds exactly the attached requests that are overdue at now. */
  ghost predicate OverdueExactly(connecting: map<Channel, ConnectFuture>, overdue: set<ConnectFuture>, now: int)
    reads SessionsOf(connecting)
  {
    forall ch :: ch in connecting ==> (connecting[ch] in overdue <==> Overdue(connecting[ch], now))
  }

  /** A future is targeted exactly when one of the keys is its channel and it is due for cancelling. */
  lemma {:induction false} TimeOutTargetsSpec(keys: seq<Option<Channel>>, connecting: map<Channel, ConnectFuture>, disposing: bool, overdue: set<ConnectFuture>, f: ConnectFuture)
    ensures f in TimeOutTargets(keys, connecting, disposing, overdue) <==>
      exists i :: 0 <= i < |keys| && keys[i].Some? && keys[i].value in connecting && connecting[keys[i].value] == f
        && (disposing || f in overdue)
    decreases |keys|
  {
    if keys != [] {
      var init := keys[..|keys| - 1];
      TimeOutTargetsSpec(init, connecting, disposing, overdue, f);
      assert forall i :: 0 <= i < |init| ==> init[i] == keys[i];
    }
  }

  /** A key of the selector: its channel, whether it is still valid and whether its connect is ready. */
  datatype SelectionKey = SelectionKey(channel: Channel, valid: bool, connectable: bool)

  /**
   * NioChannelController's ChannelIterator, as written: a key that is valid
   * and ready to connect yields its channel, any other key yields null.
   * checkTimeOut walks the selector's keys through it.
   */
  function IteratedChannels(keys: seq<SelectionKey>): (r: seq<Option<Channel>>)
    ensures |r| == |keys|
  {
    seq(|keys|, i requires 0 <= i < |keys| => if keys[i].valid && keys[i].connectable then Some(keys[i].channel) else None)
  }

  /** What checkTimeOut needs to walk: every valid key's channel, whether or not its connect is ready. */
  function ValidChannels(keys: seq<SelectionKey>): (r: seq<Option<Channel>>)
    ensures |r| == |keys|
  {
    seq(|keys|, i requires 0 <= i < |keys| => if keys[i].valid then Some(keys[i].channel) else None)
  }

  /**
   * As written, a connect still pending (its key valid but not ready to
   * connect) is never timed out, however overdue: with one such key, the
   * iterated walk targets nothing while the walk over valid keys targets it.
   */
  lemma PendingConnectNeverTimesOut(c: Channel, f: ConnectFuture)
    ensures TimeOutTargets(IteratedChannels([SelectionKey(c, true, false)]), map[c := f], false, {f}) == []
    ensures TimeOutTargets(ValidChannels([SelectionKey(c, true, false)]), map[c := f], false, {f}) == [f]
  {
    var keys := [SelectionKey(c, true, false)];
    assert IteratedChannels(keys)[..0] == [] && ValidChannels(keys)[..0] == [];
  }

  /**
   * Walking the valid keys, every overdue request still connecting is
   * targeted, provided the selector holds a valid key for each channel
   * still connecting.
   */
  lemma {:induction false} ValidChannelsReachOverdue(keys: seq<SelectionKey>, connecting: map<Channel, ConnectFuture>,
      disposing: bool, overdue: set<ConnectFuture>, ch: Channel)
    requires ch in connecting && (disposing || connecting[ch] in overdue)
    requires exists i :: 0 <= i < |keys| && keys[i].valid && keys[i].channel == ch
    ensures connecting[ch] in TimeOutTargets(ValidChannels(keys), connecting, disposing, overdue)
  {
    var i :| 0 <= i < |keys| && keys[i].valid && keys[i].channel == ch;
    TimeOutTargetsSpec(ValidChannels(keys), connecting, disposing, overdue, connecting[ch]);
    assert ValidChannels(keys)[i] == Some(ch);
  }

  /** The futures of the requests given. */
  function FuturesOf(fs: seq<ConnectFuture>): set<Future> {
    set f | f in fs :: f.future
  }

  /** The futures of the requests queued. */
  function QueuedFutures(q: seq<ConnectFuture>): set<Future> {
    set f | f in q :: f.future
  }

  /** The sessions of the requests queued. */
  function QueuedSessions(q: seq<ConnectFuture>): set<Session> {
    set f | f in q && f.future.session != null :: f.future.session
  }

  /** The channels of the requests' sessions, as recorded in SS0. */
  function ChannelsClosed(q: seq<ConnectFuture>, SS0: map<Session, Option<Channel>>): set<Channel> {
    set f | f in q && f.future.session != null && f.future.session in SS0 && SS0[f.future.session].Some?
      :: SS0[f.future.session].value
  }

  /** The channels the requests' sessions hold. */
  function ChannelsOf(q: seq<ConnectFuture>): set<Channel>
    reads QueuedSessions(q)
  {
    set f | f in q && f.future.session != null && f.future.session.channel.Some? :: f.future.session.channel.value
  }

  datatype ControllerFields = ControllerFields(
    selectable: bool, workerRunning: bool, connectQueue: seq<ConnectFuture>, cancelQueue: seq<ConnectFuture>,
    connecting: map<Channel, ConnectFuture>, closed: set<Channel>, connectCheckIntervalMs: int)

  class PollingController {
    /** The state every controller shares (activation, handler, disposal flags). */
    const base: IOControllerBase
    /** The one processor the controller hands established sessions to. */
    const processor: Processors.Processor
    /** Completed with true once the worker has released everything after a dispose. */
    const disposalFuture: Future
    var selectable: bool
    /** A WorkerBee has been started and has not finished. */
    var workerRunning: bool
    var connectQueue: seq<ConnectFuture>
    var cancelQueue: seq<ConnectFuture>
    /** The selector's valid keys: the channels still connecting, with the future each is attached to. */
    var connecting: map<Channel, ConnectFuture>
    /** The channels closed so far. */
    var closed: set<Channel>
    var connectCheckIntervalMs: int

    function Fields(): ControllerFields
      reads this
    {
      ControllerFields(selectable, workerRunning, connectQueue, cancelQueue, connecting, closed, connectCheckIntervalMs)
    }

    /** The cancel queue never holds a future twice. */
    ghost predicate Valid()
      reads this
    {
      Processors.NoDup(cancelQueue)
    }

    constructor(base: IOControllerBase, processor: Processors.Processor)
      ensures this.base == base && this.processor == processor && Valid()
      ensures Fields() == ControllerFields(false, false, [], [], map[], {}, CONNECT_CHECK_INTERVAL)
      ensures fresh(disposalFuture) && disposalFuture.State() == UNSET
    {
      this.base := base;
      this.processor := processor;
      disposalFuture := new IOFuture<Session?>(null);
      selectable := false;
      workerRunning := false;
      connectQueue := [];
      cancelQueue := [];
      connecting := map[];
      closed := {};
      connectCheckIntervalMs := CONNECT_CHECK_INTERVAL;
    }

    method SetSelectable(b: bool)
      modifies this
      ensures Fields() == old(Fields()).(selectable := b)
    {
      selectable := b;
    }

    /**
     * runWorkerBee: nothing while the controller is not selectable;
     * otherwise a worker is started unless one is running (the wakeup
     * is not modelled).
     */
    method RunWorkerBee()
      modifies this
      ensures !old(selectable) ==> Fields() == old(Fields())
      ensures old(selectable) ==> Fields() == old(Fields()).(workerRunning := true)
    {
      if !selectable {
        return;
      }
      workerRunning := true;
    }

    /**
     * connect: refused while the controller is disposing, the future then
     * failed; otherwise queued for the worker.
     */
    method Connect(f: ConnectFuture) returns (accepted: bool)
      modifies this, f.future
      ensures accepted <==> !base.disposing
      ensures !accepted ==> Fields() == old(Fields()) && f.future.State() == FailedBy(old(f.future.State()), DISPOSING)
      ensures accepted ==>
          f.future.State() == old(f.future.State())
          && Fields() == old(Fields()).(connectQueue := old(connectQueue) + [f], workerRunning := old(workerRunning) || old(selectable))
    {
      if base.IsDisposing() {
        var _ := f.future.SetException(Some(DISPOSING));
        return false;
      }
      connectQueue := connectQueue + [f];
      RunWorkerBee();
      accepted := true;
    }

    /** scheduleCancelConnect: a future already queued for cancelling is not queued again. */
    method ScheduleCancelConnect(f: ConnectFuture)
      modifies this
      ensures Fields() == old(Fields()).(cancelQueue := Scheduled(old(cancelQueue), f))
      ensures f in cancelQueue
      ensures old(Valid()) ==> Valid()
    {
      if f !in cancelQueue {
        cancelQueue := cancelQueue + [f];
      }
    }

    /** cancelConnect: schedules the cancel and makes sure a worker runs. */
    method CancelConnect(f: ConnectFuture)
      modifies this
      ensures Fields() == old(Fields()).(cancelQueue := Scheduled(old(cancelQueue), f),
        workerRunning := old(workerRunning) || old(selectable))
      ensures old(Valid()) ==> Valid()
    {
      ScheduleCancelConnect(f);
      RunWorkerBee();
    }

    /**
     * AbstractIOSession.connect: NEW to CONNECTING, or the exception of
     * the compare-and-set; then a new connect future goes to the
     * controller. An accepted request sets the connect deadline; a
     * refused one leaves the session INVALID.
     */
    method SessionConnect(s: Session, now: int) returns (r: Result<ConnectFuture>)
      modifies this, s
      ensures old(s.state) != SState.New ==> r.Err? && Fields() == old(Fields()) && s.Fields() == old(s.Fields())
      ensures old(s.state) == SState.New ==> r.Ok? && fresh(r.value) && fresh(r.value.future) && r.value.future.session == s
      ensures r.Ok? && !base.disposing ==>
        r.value.future.State() == UNSET
        && Fields() == old(Fields()).(connectQueue := old(connectQueue) + [r.value], workerRunning := old(workerRunning) || old(selectable))
        && s.Fields() == old(s.Fields()).(state := SState.Connecting, connectDeadLine := now + s.config.connectTimeoutMs)
      ensures r.Ok? && base.disposing ==>
        r.value.future.State() == FailedBy(UNSET, DISPOSING)
        && Fields() == old(Fields()) && s.Fields() == old(s.Fields()).(state := SState.Invalid)
    {
      var o := s.SwitchToConnecting();
      if o.Threw? {
        return Err(o.exn);
      }
      var future := new IOFuture<Session?>(s);
      var f := new ConnectFuture(future);
      var accepted := Connect(f);
      if accepted {
        s.SetConnectDeadLine(now);
      } else {
        s.SetStateClosed();
      }
      r := Ok(f);
    }

    /**
     * ConnectFuture.cancel: a pending future is completed with false and
     * its session asked to cancel the connect, which, for a session still
     * CONNECTING, moves it to CLOSING and schedules the cancel here. The
     * answer is always true; a future without a session throws instead
     * once it has been cancelled.
     */
    method CancelFuture(f: ConnectFuture) returns (r: Result<bool>)
      modifies this, f.future, f.future.session
      ensures f.future.State() == (if old(f.future.State().ready) then old(f.future.State()) else FutureState(true, BoolValue(false)))
      ensures r == if !old(f.future.State().ready) && f.future.session == null then Err(NPE) else Ok(true)
      ensures var s := f.future.session;
        if !old(f.future.State().ready) && s != null && old(s.state) == SState.Connecting then
          s.Fields() == old(s.Fields()).(state := SState.Closing)
          && Fields() == old(Fields()).(cancelQueue := Scheduled(old(cancelQueue), f),
               workerRunning := old(workerRunning) || old(selectable))
        else
          (s != null ==> s.Fields() == old(s.Fields())) && Fields() == old(Fields())
      ensures old(Valid()) ==> Valid()
    {
      r := Ok(true);
      var justCancelled := f.future.CancelValue();
      if justCancelled {
        var s := f.future.session;
        if s == null {
          return Err(NPE);
        }
        var forward := s.CancelConnect();
        if forward {
          CancelConnect(f);
        }
      }
    }

    /** closeChannel: the channel's key, if any, is cancelled and the channel closed. A failure to close is only logged by every caller. */
    method CloseChannel(ch: Channel)
      modifies this
      ensures Fields() == old(Fields()).(connecting := old(connecting) - {ch}, closed := old(closed) + {ch})
    {
      connecting := connecting - {ch};
      closed := closed + {ch};
    }

    /**
     * The hand-over of a connected session: prepare (CONNECTED, fresh
     * configuration and attributes, empty write queue), the future stored
     * under SESSION_CREATED_FUTURE, then the processor's add.
     */
    method HandOver(s: Session, f: ConnectFuture) returns (o: Outcome)
      requires s.Valid()
      modifies s, processor
      ensures s.Valid() && fresh(s.attributes) && fresh(s.config) && s.config.Values() == old(s.config.Values())
      ensures s.attributes.attributes == map[ProtocolFilters.SESSION_CREATED_FUTURE := f]
      ensures s.Fields() == old(s.Fields()).(state := SState.Connected, config := s.config, attributes := s.attributes,
        hasQueue := true, writeQueue := [])
      ensures old(processor.disposing || processor.disposed) ==>
        o == Threw(ALREADY_DISPOSED) && processor.Fields() == old(processor.Fields())
      ensures !old(processor.disposing || processor.disposed) ==>
        o == Done && processor.Fields() == old(processor.Fields()).(newSessions := old(processor.newSessions) + [s])
    {
      s.Prepare();
      var _ := s.SetAttribute(Some(ProtocolFilters.SESSION_CREATED_FUTURE), Some(f));
      o := processor.Add(s);
    }

    // ---------------------------------------------------- connect requests

    /** A request's failure: its future failed and the channel opened for it, if any, closed. */
    method FailRequest(f: ConnectFuture, e: Exn, ch: Option<Channel>)
      modifies this, f.future
      ensures f.future.State() == FailedBy(old(f.future.State()), e)
      ensures Fields() == old(Fields()).(connecting := old(connecting) - Opened(ch), closed := old(closed) + Opened(ch))
    {
      var _ := f.future.SetException(Some(e));
      if ch.Some? {
        CloseChannel(ch.value);
      }
    }

    /** What one request does to the controller, its future and the processor, given how it ends. */
    ghost predicate RequestEnded(e: ConnectEnd, f: ConnectFuture, s: Session?, c0: ControllerFields, st0: FutureState,
                                 p0: Processors.ProcessorFields)
      reads this, f.future, processor
    {
      (e.Failed? ==>
          f.future.State() == FailedBy(st0, e.cause)
          && Fields() == c0.(connecting := c0.connecting - Opened(e.channel), closed := c0.closed + Opened(e.channel)))
      && (!e.Failed? ==> f.future.State() == st0)
      && (e.InProgress? ==> Fields() == c0.(connecting := c0.connecting[e.ch := f]))
      && (e.Established? ==> Fields() == c0 && s != null && processor.Fields() == p0.(newSessions := p0.newSessions + [s]))
      && (!e.Established? ==> processor.Fields() == p0)
    }

    /** A connected session's state after the hand-over: prepared, with its channel and the connect future stored. */
    ghost predicate Prepared(s: Session, f: ConnectFuture, f0: SessionFields, ch: Channel)
      reads s, s.attributes
    {
      s.attributes != null && s.attributes.attributes == map[ProtocolFilters.SESSION_CREATED_FUTURE := f]
      && s.Fields() == f0.(channel := Some(ch), state := SState.Connected, config := s.config,
           attributes := s.attributes, hasQueue := true, writeQueue := [])
    }

    /** A connect that completed at once: the session takes the channel and is handed over. */
    method Establish(s: Session, f: ConnectFuture, ch: Channel)
      requires s.Valid()
      modifies this, processor, f.future, s
      ensures s.Valid() && Prepared(s, f, old(s.Fields()), ch)
      ensures RequestEnded(if old(processor.disposing || processor.disposed) then Failed(ALREADY_DISPOSED, Some(ch), true) else Established(ch),
        f, s, old(Fields()), old(f.future.State()), old(processor.Fields()))
    {
      s.SetChannel(ch);
      var o := HandOver(s, f);
      if o.Threw? {
        FailRequest(f, o.exn, Some(ch));
      }
    }

    /** A connect still in progress: the channel is registered for OP_CONNECT with the future attached. */
    method RegisterConnecting(s: Session, f: ConnectFuture, ch: Channel, registerFault: Option<Exn>) returns (registered: bool)
      modifies this, f.future, s
      ensures registered <==> registerFault.None?
      ensures registered ==>
          s.Fields() == old(s.Fields()).(channel := Some(ch))
          && RequestEnded(InProgress(ch), f, s, old(Fields()), old(f.future.State()), old(processor.Fields()))
      ensures !registered ==>
          s.Fields() == old(s.Fields())
          && RequestEnded(Failed(registerFault.value, Some(ch), false), f, s, old(Fields()), old(f.future.State()), old(processor.Fields()))
    {
      if registerFault.Some? {
        FailRequest(f, registerFault.value, Some(ch));
        return false;
      }
      connecting := connecting[ch := f];
      s.SetChannel(ch);
      registered := true;
    }

    /** The part of a request that follows a successful open of channel ch. */
    method ConnectOpened(s: Session, f: ConnectFuture, ch: Channel, d: Dial) returns (registered: bool)
      requires s.Valid() && d.open == Ok(ch)
      modifies this, processor, f.future, s
      ensures s.Valid()
      ensures var e := DialEnd(true, Done, d, old(processor.disposing || processor.disposed));
        (registered <==> e.InProgress?)
        && RequestEnded(e, f, s, old(Fields()), old(f.future.State()), old(processor.Fields()))
        && (e.InProgress? ==> s.Fields() == old(s.Fields()).(channel := Some(ch)))
        && (e.Failed? && !e.handedOver ==> s.Fields() == old(s.Fields()))
        && (e.Established? || (e.Failed? && e.handedOver) ==> Prepared(s, f, old(s.Fields()), ch))
    {
      if d.connect.Err? {
        FailRequest(f, d.connect.exn, Some(ch));
        return false;
      }
      if d.connect.value {
        Establish(s, f, ch);
        return false;
      }
      registered := RegisterConnecting(s, f, ch, d.register);
    }

    /**
     * One request of doConnectThenRegister: the future's session parses its
     * address, a channel is opened and connected; then the session is
     * handed over or the channel registered, and any exception fails only
     * this request's future and closes the channel opened for it.
     */
    method ConnectOne(f: ConnectFuture, lookup: string -> Result<string>, d: Dial) returns (registered: bool)
      requires f.future.session != null ==> f.future.session.Valid()
      modifies this, processor, f.future, f.future.session
      ensures var s := f.future.session;
        var e := DialEnd(s != null, if s == null then Done else ParseOutcome(old(s.remote), old(s.host), old(s.port), lookup), d,
          old(processor.disposing || processor.disposed));
        (registered <==> e.InProgress?)
        && RequestEnded(e, f, s, old(Fields()), old(f.future.State()), old(processor.Fields()))
      ensures var s := f.future.session;
        s != null ==> s.Valid() && s.remote == ParsedRemote(old(s.remote), old(s.host), old(s.port), lookup)
    {
      var s := f.future.session;
      if s == null {
        FailRequest(f, NPE, None);
        return false;
      }
      registered := ConnectSession(s, f, lookup, d);
    }

    /** A request whose future has a session: parse, then open a channel. */
    method ConnectSession(s: Session, f: ConnectFuture, lookup: string -> Result<string>, d: Dial) returns (registered: bool)
      requires s.Valid()
      modifies this, processor, f.future, s
      ensures var e := DialEnd(true, ParseOutcome(old(s.remote), old(s.host), old(s.port), lookup), d,
          old(processor.disposing || processor.disposed));
        (registered <==> e.InProgress?)
        && RequestEnded(e, f, s, old(Fields()), old(f.future.State()), old(processor.Fields()))
      ensures s.Valid() && s.remote == ParsedRemote(old(s.remote), old(s.host), old(s.port), lookup)
    {
      var p := Parse(s, lookup);
      if p.Threw? {
        FailRequest(f, p.exn, None);
        return false;
      }
      registered := ConnectParsed(s, f, d);
    }

    /** parseRemoteAddress, stated with ParseOutcome and ParsedRemote. */
    static method Parse(s: Session, lookup: string -> Result<string>) returns (p: Outcome)
      requires s.Valid()
      modifies s
      ensures p == ParseOutcome(old(s.remote), old(s.host), old(s.port), lookup)
      ensures s.Fields() == old(s.Fields()).(remote := ParsedRemote(old(s.remote), old(s.host), old(s.port), lookup))
      ensures s.Valid()
    {
      p := s.ParseRemoteAddress(lookup);
    }

    /** A request whose address parsed: open a channel, then connect it. */
    method ConnectParsed(s: Session, f: ConnectFuture, d: Dial) returns (registered: bool)
      requires s.Valid()
      modifies this, processor, f.future, s
      ensures var e := DialEnd(true, Done, d, old(processor.disposing || processor.disposed));
        (registered <==> e.InProgress?)
        && RequestEnded(e, f, s, old(Fields()), old(f.future.State()), old(processor.Fields()))
      ensures s.Valid() && s.remote == old(s.remote)
    {
      if d.open.Err? {
        FailRequest(f, d.open.exn, None);
        return false;
      }
      registered := ConnectOpened(s, f, d.open.value, d);
    }

    /**
     * ConnectOne, stated for the doConnectThenRegister loop on request k of
     * Q0: how the request ended, what it parsed, and the drain record dr
     * advanced by EndOne. With no future shared between the requests, the
     * futures of the others keep their states.
     */
    method ConnectVisit(f: ConnectFuture, lookup: string -> Result<string>, d: Dial, ghost Q0: seq<ConnectFuture>, ghost k: nat,
                        ghost ends0: seq<ConnectEnd>, ghost a0: seq<Address>, ghost st0: seq<FutureState>, ghost dr: Drain,
                        ghost F0: ControllerFields, ghost P0: Processors.ProcessorFields)
      returns (registered: bool, ghost e: ConnectEnd, ghost parsed: Outcome)
      requires k < |Q0| && Q0[k] == f && |ends0| == k
      requires f.future.session != null ==> f.future.session.Valid()
      requires forall g :: g in Q0[k + 1..] && g.future.session != null ==> g.future.session.Valid()
      requires AddressesFrom(Q0, k, a0) && StatesAt(Q0, ends0, st0)
      requires Fields() == F0.(connectQueue := connectQueue, connecting := dr.connecting, closed := dr.closed)
      requires processor.Fields() == P0.(newSessions := dr.handed)
      modifies this, processor, f.future, f.future.session
      ensures forall g :: g in Q0[k + 1..] && g.future.session != null ==> g.future.session.Valid()
      ensures e == DialEnd(f.future.session != null, parsed, d, P0.disposing || P0.disposed)
      ensures registered <==> e.InProgress?
      ensures var dr' := EndOne(dr, f, e);
        Fields() == F0.(connectQueue := old(connectQueue), connecting := dr'.connecting, closed := dr'.closed)
        && processor.Fields() == P0.(newSessions := dr'.handed)
      ensures SessionsApart(Q0) && f.future.session != null ==> parsed == ParseOutcome(a0[k].0, a0[k].1, a0[k].2, lookup)
      ensures AddressesFrom(Q0, k + 1, a0) && StatesAt(Q0, ends0 + [e], st0)
    {
      registered, e, parsed := VisitSessions(f, lookup, d, Q0, k, a0);
      if FuturesApart(Q0) {
        forall i | 0 <= i < |Q0|
          ensures Q0[i].future.State() == if i < k + 1 then EndedState(st0[i], (ends0 + [e])[i]) else st0[i]
        {
          assert old(Q0[i].future.State()) == if i < k then EndedState(st0[i], ends0[i]) else st0[i];
          if i != k {
            assert Q0[i].future != f.future;
          }
        }
      }
    }

    /** VisitOne on request k of Q0: the sessions of the later requests stay well formed and, none shared, keep their addresses. */
    method VisitSessions(f: ConnectFuture, lookup: string -> Result<string>, d: Dial, ghost Q0: seq<ConnectFuture>, ghost k: nat,
                         ghost a0: seq<Address>)
      returns (registered: bool, ghost e: ConnectEnd, ghost parsed: Outcome)
      requires k < |Q0| && Q0[k] == f
      requires f.future.session != null ==> f.future.session.Valid()
      requires forall g :: g in Q0[k + 1..] && g.future.session != null ==> g.future.session.Valid()
      requires AddressesFrom(Q0, k, a0)
      modifies this, processor, f.future, f.future.session
      ensures forall g :: g in Q0[k + 1..] && g.future.session != null ==> g.future.session.Valid()
      ensures e == DialEnd(f.future.session != null, parsed, d, old(processor.disposing || processor.disposed))
      ensures registered <==> e.InProgress?
      ensures Fields() == old(Fields()).(connecting := EndConnecting(old(connecting), f, e), closed := old(closed) + Closes(e))
      ensures processor.Fields() == old(processor.Fields()).(newSessions := old(processor.newSessions) + HandedOne(f, e))
      ensures f.future.State() == EndedState(old(f.future.State()), e)
      ensures SessionsApart(Q0) && f.future.session != null ==> parsed == ParseOutcome(a0[k].0, a0[k].1, a0[k].2, lookup)
      ensures AddressesFrom(Q0, k + 1, a0)
    {
      ghost var s := f.future.session;
      registered, e, parsed := VisitOne(f, lookup, d);
      if SessionsApart(Q0) {
        assert old(AddressOf(Q0[k].future.session)) == a0[k];
        forall j | k + 1 <= j < |Q0| ensures AddressOf(Q0[j].future.session) == a0[j] {
          assert Q0[j].future.session == null || Q0[j].future.session != s;
          assert old(AddressOf(Q0[j].future.session)) == a0[j];
        }
      }
    }

    /** ConnectOne, with how the request ended and what it parsed as ghost results. */
    method VisitOne(f: ConnectFuture, lookup: string -> Result<string>, d: Dial)
      returns (registered: bool, ghost e: ConnectEnd, ghost parsed: Outcome)
      requires f.future.session != null ==> f.future.session.Valid()
      modifies this, processor, f.future, f.future.session
      ensures var s := f.future.session;
        parsed == (if s == null then Done else ParseOutcome(old(s.remote), old(s.host), old(s.port), lookup))
      ensures e == DialEnd(f.future.session != null, parsed, d, old(processor.disposing || processor.disposed))
      ensures registered <==> e.InProgress?
      ensures Fields() == old(Fields()).(connecting := EndConnecting(old(connecting), f, e), closed := old(closed) + Closes(e))
      ensures processor.Fields() == old(processor.Fields()).(newSessions := old(processor.newSessions) + HandedOne(f, e))
      ensures f.future.State() == EndedState(old(f.future.State()), e)
      ensures f.future.session != null ==> f.future.session.Valid()
    {
      ghost var s := f.future.session;
      parsed := if s == null then Done else ParseOutcome(s.remote, s.host, s.port, lookup);
      e := DialEnd(s != null, parsed, d, processor.disposing || processor.disposed);
      registered := ConnectOne(f, lookup, d);
    }

    /**
     * doConnectThenRegister: drains the connect queue, request by request
     * (ConnectOne), and returns how many channels were left connecting;
     * sessions whose connect completed at once are handed to the processor
     * in queue order and not counted. ends[i] is how request i ended and
     * parsed[i] how its address parsed; with no session shared between
     * requests that is the parse of the address the session had before the
     * drain, and with no future shared each request's future failed or
     * stayed as ends says.
     */
    method DoConnectThenRegister(lookup: string -> Result<string>, dial: ConnectFuture -> Dial)
      returns (n: nat, ghost ends: seq<ConnectEnd>, ghost parsed: seq<Outcome>)
      requires forall f :: f in connectQueue && f.future.session != null ==> f.future.session.Valid()
      modifies this, processor, FuturesOf(connectQueue), QueuedSessions(connectQueue)
      ensures |ends| == |parsed| == |old(connectQueue)|
      ensures forall i :: 0 <= i < |ends| ==>
        ends[i] == DialEnd(old(connectQueue)[i].future.session != null, parsed[i], dial(old(connectQueue)[i]),
          old(processor.disposing || processor.disposed))
      ensures var dr := DrainOf(Drain(old(connecting), old(closed), old(processor.newSessions), 0), old(connectQueue), ends);
        Fields() == old(Fields()).(connectQueue := [], connecting := dr.connecting, closed := dr.closed)
        && processor.Fields() == old(processor.Fields()).(newSessions := dr.handed) && n == dr.still
      ensures n == StillConnecting(ends)
      ensures SessionsApart(old(connectQueue)) ==> forall i :: 0 <= i < |ends| && old(connectQueue)[i].future.session != null ==>
        var s := old(connectQueue)[i].future.session;
        parsed[i] == ParseOutcome(old(s.remote), old(s.host), old(s.port), lookup)
      ensures FuturesApart(old(connectQueue)) ==> forall i :: 0 <= i < |ends| ==>
        var g := old(connectQueue)[i].future;
        g.State() == EndedState(old(g.State()), ends[i])
    {
      ghost var Q0, F0, P0 := connectQueue, Fields(), processor.Fields();
      ghost var d0 := Drain(connecting, closed, processor.newSessions, 0);
      ghost var closed0 := processor.disposing || processor.disposed;
      ghost var a0, st0 := Addresses(Q0), States(Q0);
      n, ends, parsed := DrainLoop(lookup, dial, Q0, closed0, d0, F0, P0, a0, st0);
      DrainOfSpec(d0, Q0, ends);
    }

    /** The loop of doConnectThenRegister: poll and connect requests until the queue is empty. */
    method DrainLoop(lookup: string -> Result<string>, dial: ConnectFuture -> Dial, ghost Q0: seq<ConnectFuture>, ghost closed0: bool,
                     ghost d0: Drain, ghost F0: ControllerFields, ghost P0: Processors.ProcessorFields, ghost a0: seq<Address>,
                     ghost st0: seq<FutureState>)
      returns (n: nat, ghost ends: seq<ConnectEnd>, ghost parsed: seq<Outcome>)
      requires DrainPass(Q0, 0, 0, [], [], dial, lookup, closed0, d0, F0, P0, a0, st0)
      requires forall g :: g in connectQueue && g.future.session != null ==> g.future.session.Valid()
      modifies this, processor, FuturesOf(Q0), QueuedSessions(Q0)
      ensures DrainPass(Q0, |Q0|, n, ends, parsed, dial, lookup, closed0, d0, F0, P0, a0, st0)
    {
      n, ends, parsed := 0, [], [];
      ghost var k := 0;
      while connectQueue != []
        invariant DrainPass(Q0, k, n, ends, parsed, dial, lookup, closed0, d0, F0, P0, a0, st0)
        invariant forall g :: g in connectQueue && g.future.session != null ==> g.future.session.Valid()
        decreases |connectQueue|
      {
        ghost var e, p;
        n, e, p := ConnectNext(lookup, dial, n, Q0, k, ends, parsed, closed0, d0, F0, P0, a0, st0);
        ends, parsed, k := ends + [e], parsed + [p], k + 1;
      }
      assert |Q0[k..]| == 0;
    }

    /** The drain of the connect queue Q0 after its first k requests, with the rest still queued. */
    ghost predicate DrainPass(Q0: seq<ConnectFuture>, k: nat, n: nat, ends: seq<ConnectEnd>, parsed: seq<Outcome>,
                              dial: ConnectFuture -> Dial, lookup: string -> Result<string>, closed0: bool, d0: Drain,
                              F0: ControllerFields, P0: Processors.ProcessorFields, a0: seq<Address>, st0: seq<FutureState>)
      reads this, processor, FuturesOf(Q0), QueuedSessions(Q0)
    {
      k <= |Q0| && connectQueue == Q0[k..] && Drained(Q0, k, n, ends, parsed, dial, lookup, closed0, d0, F0, P0, a0, st0)
    }

    /**
     * The drain of the connect queue Q0 after its first k requests: ends and
     * parsed say how each ended and what it parsed (Dialed, ParsedAs); the
     * channels connecting, the closed ones, the processor's new sessions and
     * the count n are DrainOf the ends; nothing else of the controller F0 or
     * the processor P0 changed; the sessions and futures are as
     * AddressesFrom and StatesAt say.
     */
    ghost predicate Drained(Q0: seq<ConnectFuture>, k: nat, n: nat, ends: seq<ConnectEnd>, parsed: seq<Outcome>,
                            dial: ConnectFuture -> Dial, lookup: string -> Result<string>, closed0: bool, d0: Drain,
                            F0: ControllerFields, P0: Processors.ProcessorFields, a0: seq<Address>, st0: seq<FutureState>)
      reads this, processor, FuturesOf(Q0), QueuedSessions(Q0)
    {
      |ends| == |parsed| == k
      && Dialed(Q0, ends, parsed, dial, closed0) && ParsedAs(Q0, parsed, a0, lookup)
      && var dr := DrainOf(d0, Q0, ends);
      Fields() == F0.(connectQueue := connectQueue, connecting := dr.connecting, closed := dr.closed)
      && processor.Fields() == P0.(newSessions := dr.handed) && n == dr.still
      && closed0 == (P0.disposing || P0.disposed)
      && AddressesFrom(Q0, k, a0) && StatesAt(Q0, ends, st0)
    }

    /** One request of the doConnectThenRegister loop: poll it, then VisitNext. */
    method ConnectNext(lookup: string -> Result<string>, dial: ConnectFuture -> Dial, n: nat, ghost Q0: seq<ConnectFuture>, ghost k: nat,
                       ghost ends: seq<ConnectEnd>, ghost parsed: seq<Outcome>, ghost closed0: bool, ghost d0: Drain,
                       ghost F0: ControllerFields, ghost P0: Processors.ProcessorFields, ghost a0: seq<Address>,
                       ghost st0: seq<FutureState>)
      returns (n': nat, ghost e: ConnectEnd, ghost p: Outcome)
      requires connectQueue != [] && DrainPass(Q0, k, n, ends, parsed, dial, lookup, closed0, d0, F0, P0, a0, st0)
      requires forall g :: g in connectQueue && g.future.session != null ==> g.future.session.Valid()
      modifies this, processor, connectQueue[0].future, connectQueue[0].future.session
      ensures DrainPass(Q0, k + 1, n', ends + [e], parsed + [p], dial, lookup, closed0, d0, F0, P0, a0, st0)
      ensures forall g :: g in connectQueue && g.future.session != null ==> g.future.session.Valid()
    {
      var f := connectQueue[0];
      connectQueue := connectQueue[1..];
      assert f == Q0[k] && connectQueue == Q0[k + 1..];
      n', e, p := VisitNext(f, lookup, dial, n, Q0, k, ends, parsed, closed0, d0, F0, P0, a0, st0);
    }

    /** Request k of Q0, polled: ConnectVisit, and the drain extended by how it ended. */
    method VisitNext(f: ConnectFuture, lookup: string -> Result<string>, dial: ConnectFuture -> Dial, n: nat, ghost Q0: seq<ConnectFuture>,
                     ghost k: nat, ghost ends: seq<ConnectEnd>, ghost parsed: seq<Outcome>, ghost closed0: bool, ghost d0: Drain,
                     ghost F0: ControllerFields, ghost P0: Processors.ProcessorFields, ghost a0: seq<Address>,
                     ghost st0: seq<FutureState>)
      returns (n': nat, ghost e: ConnectEnd, ghost p: Outcome)
      requires k < |Q0| && f == Q0[k] && connectQueue == Q0[k + 1..]
      requires Drained(Q0, k, n, ends, parsed, dial, lookup, closed0, d0, F0, P0, a0, st0)
      requires f.future.session != null ==> f.future.session.Valid()
      requires forall g :: g in connectQueue && g.future.session != null ==> g.future.session.Valid()
      modifies this, processor, f.future, f.future.session
      ensures DrainPass(Q0, k + 1, n', ends + [e], parsed + [p], dial, lookup, closed0, d0, F0, P0, a0, st0)
      ensures forall g :: g in connectQueue && g.future.session != null ==> g.future.session.Valid()
    {
      var registered;
      registered, e, p := ConnectVisit(f, lookup, dial(f), Q0, k, ends, a0, st0, DrainOf(d0, Q0, ends), F0, P0);
      DialedSnoc(Q0, ends, parsed, dial, closed0, e, p);
      ParsedAsSnoc(Q0, parsed, a0, lookup, p);
      DrainOfSnoc(d0, Q0, ends, e);
      n' := if registered then n + 1 else n;
    }

    // ---------------------------------------------------- connects finishing

    /** The futures attached to the channels still connecting. */
    ghost function Attached(): set<Future>
      reads this
    {
      set ch | ch in connecting :: connecting[ch].future
    }

    /** The sessions of the futures attached to the channels still connecting. */
    ghost function AttachedSessions(): set<Session>
      reads this
    {
      set ch | ch in connecting && connecting[ch].future.session != null :: connecting[ch].future.session
    }

    /** Every session with a channel still connecting is well formed. */
    ghost predicate AttachedValid()
      reads this, AttachedSessions(), set x | x in AttachedSessions() :: x.config, set x | x in AttachedSessions() :: x.readBuffer
    {
      forall x :: x in AttachedSessions() ==> x.Valid()
    }

    /** A connect attempt that failed: its future fails and its cancel is scheduled. */
    method FailConnect(f: ConnectFuture, e: Exn)
      modifies this, f.future
      ensures f.future.State() == FailedBy(old(f.future.State()), e)
      ensures Fields() == old(Fields()).(cancelQueue := Scheduled(old(cancelQueue), f))
      ensures old(Valid()) ==> Valid()
    {
      var _ := f.future.SetException(Some(e));
      ScheduleCancelConnect(f);
    }

    /**
     * A channel whose connect completed: its key is cancelled and, unless
     * the future was cancelled meanwhile, the session is handed over to the
     * processor; a processor already disposing fails the attempt.
     */
    method CompleteConnect(ch: Channel, f: ConnectFuture, s: Session) returns (finished: bool)
      requires f.future.session == s && s.Valid()
      modifies this, processor, f.future, s
      ensures s.Valid()
      ensures finished <==> !old(f.future.IsCanceled()) && !old(processor.disposing || processor.disposed)
      ensures old(f.future.IsCanceled()) ==>
        f.future.State() == old(f.future.State()) && Fields() == old(Fields()).(connecting := old(connecting) - {ch})
        && s.Fields() == old(s.Fields()) && processor.Fields() == old(processor.Fields())
      ensures finished ==>
        f.future.State() == old(f.future.State()) && Fields() == old(Fields()).(connecting := old(connecting) - {ch})
        && processor.Fields() == old(processor.Fields()).(newSessions := old(processor.newSessions) + [s])
      ensures !old(f.future.IsCanceled()) && old(processor.disposing || processor.disposed) ==>
        f.future.State() == FailedBy(old(f.future.State()), ALREADY_DISPOSED)
        && Fields() == old(Fields()).(connecting := old(connecting) - {ch}, cancelQueue := Scheduled(old(cancelQueue), f))
        && processor.Fields() == old(processor.Fields())
      ensures old(Valid()) ==> Valid()
    {
      finished := false;
      connecting := connecting - {ch};
      if f.future.IsCanceled() {
        return;
      }
      var o := HandOver(s, f);
      if o.Threw? {
        FailConnect(f, o.exn);
        return;
      }
      finished := true;
    }

    /**
     * process, for one selected channel whose future has a session:
     * finishConnect, whose outcome is the parameter finish. An exception
     * fails the attempt; a connect still pending leaves everything as it was.
     */
    method FinishConnect(ch: Channel, f: ConnectFuture, s: Session, finish: Result<bool>) returns (finished: bool)
      requires f.future.session == s && s.Valid()
      modifies this, processor, f.future, s
      ensures s.Valid()
      ensures finished <==> finish == Ok(true) && !old(f.future.IsCanceled()) && !old(processor.disposing || processor.disposed)
      ensures finish.Err? ==>
          f.future.State() == FailedBy(old(f.future.State()), finish.exn)
          && Fields() == old(Fields()).(cancelQueue := Scheduled(old(cancelQueue), f))
          && s.Fields() == old(s.Fields()) && processor.Fields() == old(processor.Fields())
      ensures finish == Ok(false) ==>
        f.future.State() == old(f.future.State()) && Fields() == old(Fields())
        && s.Fields() == old(s.Fields()) && processor.Fields() == old(processor.Fields())
      ensures finish == Ok(true) ==> connecting == old(connecting) - {ch}
      ensures processor.Fields() == old(processor.Fields()).(newSessions := old(processor.newSessions) + if finished then [s] else [])
      ensures Fields() == old(Fields()).(connecting := connecting, cancelQueue := cancelQueue)
      ensures connecting == old(connecting) || connecting == old(connecting) - {ch}
      ensures cancelQueue == old(cancelQueue) || cancelQueue == Scheduled(old(cancelQueue), f)
      ensures old(Valid()) ==> Valid()
    {
      finished := false;
      if finish.Err? {
        FailConnect(f, finish.exn);
      } else if finish.value {
        finished := CompleteConnect(ch, f, s);
      }
    }

    /**
     * process, for one selected key: an invalid or non-connectable key
     * (None) is skipped, a channel no future is attached to makes the pass
     * throw (its future is null), a future without a session is skipped,
     * and otherwise the connect is finished.
     */
    method ProcessOne(sel: Option<Channel>, finish: Channel -> Result<bool>) returns (finished: bool, o: Outcome)
      requires AttachedValid()
      modifies this, processor, Attached(), AttachedSessions()
      ensures AttachedValid() && AttachedSessions() <= old(AttachedSessions())
      ensures o.Threw? <==> sel.Some? && sel.value !in old(connecting)
      ensures o.Threw? ==> o.exn == NPE && Fields() == old(Fields()) && processor.Fields() == old(processor.Fields())
      ensures finished ==>
          o.Done? && sel.Some? && sel.value in old(connecting)
          && old(connecting)[sel.value].future.session != null
          && processor.Fields() == old(processor.Fields()).(newSessions := processor.newSessions)
          && processor.newSessions == old(processor.newSessions) + [old(connecting)[sel.value].future.session]
      ensures !finished ==> processor.Fields() == old(processor.Fields())
      ensures Fields() == old(Fields()).(connecting := connecting, cancelQueue := cancelQueue)
      ensures forall ch :: ch in connecting ==> ch in old(connecting) && connecting[ch] == old(connecting)[ch]
      ensures cancelQueue == old(cancelQueue) || (sel.Some? && sel.value in old(connecting) &&
        cancelQueue == Scheduled(old(cancelQueue), old(connecting)[sel.value]))
      ensures old(Valid()) ==> Valid()
    {
      finished, o := false, Done;
      if sel.None? {
        return;
      }
      var ch := sel.value;
      if ch !in connecting {
        return false, Threw(NPE);
      }
      var f := connecting[ch];
      var s := f.future.session;
      if s == null {
        return;
      }
      finished := FinishConnect(ch, f, s, finish(ch));
    }

    /**
     * What a process pass has done so far, from the controller's and the
     * processor's fields c0 and p0 and the sessions S0 attached at its
     * start: count sessions of S0 appended to newSessions, keys only
     * removed, futures of c0's keys only appended to the cancel queue.
     */
    ghost predicate ProcessedSince(c0: ControllerFields, p0: Processors.ProcessorFields, S0: set<Session>, count: nat)
      reads this, processor
    {
      && processor.Fields() == p0.(newSessions := processor.newSessions)
      && |processor.newSessions| == |p0.newSessions| + count && processor.newSessions[..|p0.newSessions|] == p0.newSessions
      && (forall x :: x in processor.newSessions[|p0.newSessions|..] ==> x in S0)
      && Fields() == c0.(connecting := connecting, cancelQueue := cancelQueue)
      && (forall ch :: ch in connecting ==> ch in c0.connecting && connecting[ch] == c0.connecting[ch])
      && |c0.cancelQueue| <= |cancelQueue| && cancelQueue[..|c0.cancelQueue|] == c0.cancelQueue
      && (forall f :: f in cancelQueue[|c0.cancelQueue|..] ==> f in c0.connecting.Values)
      && (Processors.NoDup(c0.cancelQueue) ==> Valid())
    }

    /** One step of process, keeping what the pass has done so far. */
    method ProcessNext(sel: Option<Channel>, finish: Channel -> Result<bool>, ghost c0: ControllerFields,
        ghost p0: Processors.ProcessorFields, ghost S0: set<Session>, count: nat) returns (count': nat, o: Outcome)
      requires AttachedValid() && AttachedSessions() <= S0 && ProcessedSince(c0, p0, S0, count)
      modifies this, processor, Attached(), AttachedSessions()
      ensures AttachedValid() && Attached() <= old(Attached()) && AttachedSessions() <= S0
      ensures ProcessedSince(c0, p0, S0, count') && count <= count' <= count + 1
      ensures o.Threw? ==> o.exn == NPE
    {
      var finished;
      finished, o := ProcessOne(sel, finish);
      count' := if finished then count + 1 else count;
      assert processor.newSessions[|p0.newSessions|..] == old(processor.newSessions)[|p0.newSessions|..] +
        (processor.newSessions[|old(processor.newSessions)|..]);
    }

    /**
     * process: finishes the connects of the selected keys in turn and
     * counts the sessions handed over; a selected channel no future is
     * attached to ends the pass with the exception.
     */
    method ProcessSelected(selected: seq<Option<Channel>>, finish: Channel -> Result<bool>) returns (count: nat, o: Outcome)
      requires AttachedValid()
      modifies this, processor, Attached(), AttachedSessions()
      ensures AttachedValid()
      ensures o.Threw? ==> o.exn == NPE
      ensures count <= |selected|
      ensures processor.Fields() == old(processor.Fields()).(newSessions := processor.newSessions)
      ensures |processor.newSessions| == |old(processor.newSessions)| + count
      ensures processor.newSessions[..|old(processor.newSessions)|] == old(processor.newSessions)
      ensures forall x :: x in processor.newSessions[|old(processor.newSessions)|..] ==> x in old(AttachedSessions())
      ensures Fields() == old(Fields()).(connecting := connecting, cancelQueue := cancelQueue)
      ensures forall ch :: ch in connecting ==> ch in old(connecting) && connecting[ch] == old(connecting)[ch]
      ensures |old(cancelQueue)| <= |cancelQueue| && cancelQueue[..|old(cancelQueue)|] == old(cancelQueue)
      ensures forall f :: f in cancelQueue[|old(cancelQueue)|..] ==> f in old(connecting).Values
      ensures old(Valid()) ==> Valid()
    {
      ghost var c0, p0, S0 := Fields(), processor.Fields(), AttachedSessions();
      count, o := 0, Done;
      var i := 0;
      while i < |selected| && o.Done?
        invariant 0 <= i <= |selected| && count <= i
        invariant o.Threw? ==> o.exn == NPE
        invariant AttachedValid()
        invariant Attached() <= old(Attached()) && AttachedSessions() <= S0
        invariant ProcessedSince(c0, p0, S0, count)
        decreases |selected| - i
      {
        count, o := ProcessNext(selected[i], finish, c0, p0, S0, count);
        i := i + 1;
      }
    }

    // ---------------------------------------------------- timeouts

    /**
     * checkTimeOut, for one key: while the controller is disposing the
     * attached future is scheduled for cancelling; otherwise one whose
     * session's connect deadline has passed fails with a timeout first.
     */
    method TimeOutOne(sel: Option<Channel>, now: int, ghost overdue: set<ConnectFuture>)
      requires sel.Some? ==> sel.value in connecting
      requires OverdueExactly(connecting, overdue, now)
      modifies this, Attached()
      ensures Fields() == old(Fields()).(cancelQueue := ScheduledAll(old(cancelQueue), TimeOutTarget(sel, old(connecting), old(base.disposing), overdue)))
      ensures forall g :: g in Attached() ==>
          g.State() ==
          if !base.disposing && g in FuturesOf(TimeOutTarget(sel, old(connecting), old(base.disposing), overdue))
          then FailedBy(old(g.State()), TIMED_OUT) else old(g.State())
      ensures old(Valid()) ==> Valid()
    {
      if sel.None? {
        return;
      }
      var f := connecting[sel.value];
      if base.IsDisposing() {
        ScheduleCancelConnect(f);
      } else if Overdue(f, now) {
        var _ := f.future.SetException(Some(TIMED_OUT));
        ScheduleCancelConnect(f);
      }
    }

    /**
     * checkTimeOut over the keys the selector's iterator yields (None for
     * a key that is invalid or not connectable): the cancel queue gains the
     * targets in key order, and, unless the controller is disposing, their
     * futures fail with a timeout.
     */
    method CheckTimeOut(keys: seq<Option<Channel>>, now: int)
      requires forall i :: 0 <= i < |keys| && keys[i].Some? ==> keys[i].value in connecting
      modifies this, Attached()
      ensures Fields() == old(Fields()).(cancelQueue :=
        ScheduledAll(old(cancelQueue), old(TimeOutTargets(keys, connecting, base.disposing, OverdueAmong(connecting, now)))))
      ensures forall g :: g in Attached() ==>
          g.State() ==
          if !base.disposing && g in old(FuturesOf(TimeOutTargets(keys, connecting, base.disposing, OverdueAmong(connecting, now))))
          then FailedBy(old(g.State()), TIMED_OUT) else old(g.State())
      ensures old(Valid()) ==> Valid()
    {
      ghost var C, D, OD := connecting, base.disposing, OverdueAmong(connecting, now);
      assert OverdueExactly(C, OD, now);
      ghost var f0, v0 := Fields(), Valid();
      ghost var S0 := map g | g in Attached() :: g.State();
      TimeOutLoop(keys, now, C, D, OD, S0, f0, v0);
    }

    /** The loop of checkTimeOut, from the snapshots its caller took. */
    method TimeOutLoop(keys: seq<Option<Channel>>, now: int, ghost C: map<Channel, ConnectFuture>, ghost D: bool,
        ghost OD: set<ConnectFuture>, ghost S0: map<Future, FutureState>, ghost f0: ControllerFields, ghost v0: bool)
      requires forall i :: 0 <= i < |keys| && keys[i].Some? ==> keys[i].value in C
      requires TimeOutPass([], now, C, D, OD, S0, f0, v0)
      modifies this, Attached()
      ensures TimeOutPass(TimeOutTargets(keys, C, D, OD), now, C, D, OD, S0, f0, v0)
    {
      var i := 0;
      while i < |keys|
        invariant 0 <= i <= |keys|
        invariant TimeOutPass(TimeOutTargets(keys[..i], C, D, OD), now, C, D, OD, S0, f0, v0)
      {
        TimeOutNext(keys[i], now, TimeOutTargets(keys[..i], C, D, OD), C, D, OD, S0, f0, v0);
        TimeOutTargetsSnoc(keys, i, C, D, OD);
        i := i + 1;
      }
      assert keys[..i] == keys;
    }

    /** The futures in S0 are failed with a timeout exactly when the controller is not disposing and they are targets. */
    ghost predicate TimeOutsApplied(S0: map<Future, FutureState>, targets: seq<ConnectFuture>, D: bool)
      reads S0.Keys
    {
      forall g :: g in S0 ==> g.State() == if !D && g in FuturesOf(targets) then FailedBy(S0[g], TIMED_OUT) else S0[g]
    }

    /**
     * What checkTimeOut has done once it has handled the requests in
     * targets, from the selector C, the disposing flag D, the overdue
     * requests OD, the futures' states S0, the fields f0 and the validity
     * v0 at its start.
     */
    ghost predicate TimeOutPass(targets: seq<ConnectFuture>, now: int, C: map<Channel, ConnectFuture>, D: bool,
        OD: set<ConnectFuture>, S0: map<Future, FutureState>, f0: ControllerFields, v0: bool)
      reads this, base, S0.Keys, SessionsOf(C)
    {
      && connecting == C && base.disposing == D && Attached() == S0.Keys && OverdueExactly(C, OD, now)
      && Fields() == f0.(cancelQueue := ScheduledAll(f0.cancelQueue, targets))
      && TimeOutsApplied(S0, targets, D)
      && (v0 ==> Valid())
    }

    /** One key of checkTimeOut, extending what the pass has done so far. */
    method TimeOutNext(sel: Option<Channel>, now: int, ghost before: seq<ConnectFuture>, ghost C: map<Channel, ConnectFuture>, ghost D: bool,
        ghost OD: set<ConnectFuture>, ghost S0: map<Future, FutureState>, ghost f0: ControllerFields, ghost v0: bool)
      requires sel.Some? ==> sel.value in C
      requires TimeOutPass(before, now, C, D, OD, S0, f0, v0)
      modifies this, Attached()
      ensures TimeOutPass(before + TimeOutTarget(sel, C, D, OD), now, C, D, OD, S0, f0, v0)
    {
      ghost var t := TimeOutTarget(sel, C, D, OD);
      TimeOutOne(sel, now, OD);
      ScheduledAllAppend(f0.cancelQueue, before, t);
      assert FuturesOf(before + t) == FuturesOf(before) + FuturesOf(t);
    }

    // ---------------------------------------------------- cancellations

    /** cancelConnectQueue.poll on a queue known not to be empty. */
    method PollCancel() returns (f: ConnectFuture)
      requires cancelQueue != []
      modifies this
      ensures f == old(cancelQueue)[0] && Fields() == old(Fields()).(cancelQueue := old(cancelQueue)[1..])
      ensures old(Valid()) ==> Valid()
    {
      f := cancelQueue[0];
      cancelQueue := cancelQueue[1..];
    }

    /**
     * processCancelQueue, for one polled request with a session: the
     * session's channel, if it has one, is closed (without one, the failure
     * is only logged), the session marked closed and the future cancelled,
     * which, the session being closed, schedules nothing again.
     */
    method CancelOne(f: ConnectFuture)
      requires f.future.session != null
      modifies this, f.future, f.future.session
      ensures f.future.session.Fields() == old(f.future.session.Fields()).(state := SState.Invalid)
      ensures f.future.State() == (if old(f.future.State().ready) then old(f.future.State()) else FutureState(true, BoolValue(false)))
      ensures Fields() == old(Fields()).(connecting := old(connecting) - Opened(old(f.future.session.channel)),
        closed := old(closed) + Opened(old(f.future.session.channel)))
      ensures old(Valid()) ==> Valid()
    {
      var s := f.future.session;
      if s.channel.Some? {
        CloseChannel(s.channel.value);
      }
      s.SetStateClosed();
      var _ := CancelFuture(f);
    }

    /** Every session of SS0 still holds the channel it held. */
    ghost predicate ChannelsKept(SS0: map<Session, Option<Channel>>)
      reads SS0.Keys
    {
      forall x :: x in SS0 ==> x.channel == SS0[x]
    }

    /** The first count requests of Q0 have a session marked closed and a future done. */
    ghost predicate CancelledPrefix(Q0: seq<ConnectFuture>, count: nat, SS0: map<Session, Option<Channel>>, FS: set<Future>)
      reads SS0.Keys, FS
    {
      && count <= |Q0|
      && forall j :: 0 <= j < count ==>
           Q0[j].future.session != null && Q0[j].future.session in SS0 && Q0[j].future.session.state == SState.Invalid
           && Q0[j].future in FS && Q0[j].future.State().ready
    }

    /**
     * What processCancelQueue has done after polling the first k requests
     * of Q0, count of them with a session: those sessions are marked
     * closed, their futures done and the channels they held (SS0, taken
     * at the start) closed; the rest is still queued.
     */
    ghost predicate CancelPass(Q0: seq<ConnectFuture>, k: nat, count: nat,
        SS0: map<Session, Option<Channel>>, FS: set<Future>, f0: ControllerFields, v0: bool)
      reads this, SS0.Keys, FS
    {
      && count <= k <= |Q0| && cancelQueue == Q0[k..]
      && ChannelsKept(SS0) && CancelledPrefix(Q0, count, SS0, FS)
      && Fields() == f0.(cancelQueue := cancelQueue, connecting := f0.connecting - ChannelsClosed(Q0[..count], SS0),
           closed := f0.closed + ChannelsClosed(Q0[..count], SS0))
      && (v0 ==> Valid())
    }

    /** One request of processCancelQueue; a request without a session stops the pass. */
    method CancelNext(ghost Q0: seq<ConnectFuture>, ghost k: nat, count: nat, ghost SS0: map<Session, Option<Channel>>,
        ghost FS: set<Future>, ghost f0: ControllerFields, ghost v0: bool) returns (stopped: bool)
      requires CancelPass(Q0, k, count, SS0, FS, f0, v0) && count == k && k < |Q0|
      requires forall j :: 0 <= j < |Q0| ==> Q0[j].future in FS && (Q0[j].future.session != null ==> Q0[j].future.session in SS0)
      modifies this, FS, SS0.Keys
      ensures stopped <==> Q0[k].future.session == null
      ensures CancelPass(Q0, k + 1, if stopped then count else count + 1, SS0, FS, f0, v0)
    {
      var f := PollCancel();
      assert f == Q0[k] && Q0[k..][1..] == Q0[k + 1..];
      stopped := f.future.session == null;
      if !stopped {
        CancelVisit(f, Q0, k + 1, count, SS0, FS, f0, v0);
      }
    }

    /** The request f, polled k-th from Q0 with a session, cancelled. */
    method CancelVisit(f: ConnectFuture, ghost Q0: seq<ConnectFuture>, ghost k: nat, count: nat,
        ghost SS0: map<Session, Option<Channel>>, ghost FS: set<Future>, ghost f0: ControllerFields, ghost v0: bool)
      requires CancelPass(Q0, k, count, SS0, FS, f0, v0) && count < k && Q0[count] == f
      requires f.future.session != null && f.future.session in SS0 && f.future in FS
      modifies this, FS, SS0.Keys
      ensures CancelPass(Q0, k, count + 1, SS0, FS, f0, v0)
    {
      ChannelsClosedStep(Q0, count, SS0);
      label Before:
      CancelOne(f);
      forall j | 0 <= j < count + 1
        ensures Q0[j].future.session != null && Q0[j].future.session in SS0 && Q0[j].future.session.state == SState.Invalid
          && Q0[j].future in FS && Q0[j].future.State().ready
      {
        if j < count {
          var x, g := Q0[j].future.session, Q0[j].future;
          assert old@Before(x.state) == SState.Invalid && old@Before(g.State().ready);
        }
      }
      assert old@Before(f.future.session.channel) == SS0[f.future.session];
      RemoveBoth(f0.connecting, ChannelsClosed(Q0[..count], SS0), Opened(SS0[f.future.session]));
    }

    /** Removing two sets of keys in turn is removing their union. */
    static lemma RemoveBoth(m: map<Channel, ConnectFuture>, a: set<Channel>, b: set<Channel>)
      ensures m - a - b == m - (a + b)
    {
    }

    /** The channels closed after one more request of the pass. */
    static lemma ChannelsClosedStep(Q0: seq<ConnectFuture>, count: nat, SS0: map<Session, Option<Channel>>)
      requires count < |Q0| && Q0[count].future.session != null && Q0[count].future.session in SS0
      ensures ChannelsClosed(Q0[..count + 1], SS0) == ChannelsClosed(Q0[..count], SS0) + Opened(SS0[Q0[count].future.session])
    {
      assert Q0[..count + 1] == Q0[..count] + [Q0[count]];
    }

    /**
     * processCancelQueue: polls the requests queued for cancelling until
     * the queue is empty or a request without a session is polled (which
     * is dropped and ends the pass); each other one has its session's
     * channel closed, its session marked closed and its future cancelled.
     * The count is how many were.
     */
    method ProcessCancelQueue() returns (count: nat)
      modifies this, QueuedFutures(cancelQueue), QueuedSessions(cancelQueue)
      ensures count <= |old(cancelQueue)|
      ensures (count == |old(cancelQueue)| && cancelQueue == [])
        || (count < |old(cancelQueue)| && old(cancelQueue)[count].future.session == null
            && cancelQueue == old(cancelQueue)[count + 1..])
      ensures forall j :: 0 <= j < count ==>
        var f := old(cancelQueue)[j];
        f.future.session != null && f.future.session.state == SState.Invalid && f.future.State().ready
      ensures forall x :: x in QueuedSessions(old(cancelQueue)) ==> x.channel == old(x.channel)
      ensures Fields() == old(Fields()).(cancelQueue := cancelQueue,
        connecting := old(connecting) - ChannelsOf(old(cancelQueue)[..count]),
        closed := old(closed) + ChannelsOf(old(cancelQueue)[..count]))
      ensures old(Valid()) ==> Valid()
    {
      ghost var Q0, f0, v0 := cancelQueue, Fields(), Valid();
      ghost var SS0 := map x | x in QueuedSessions(Q0) :: x.channel;
      ghost var FS := QueuedFutures(Q0);
      ghost var k;
      count, k := CancelLoop(Q0, SS0, FS, f0, v0);
      ChannelsClosedNow(Q0[..count], SS0);
    }

    /** While the sessions still hold the channels SS0 recorded, ChannelsClosed reads the same as ChannelsOf. */
    static lemma ChannelsClosedNow(q: seq<ConnectFuture>, SS0: map<Session, Option<Channel>>)
      requires forall f :: f in q && f.future.session != null ==> f.future.session in SS0 && f.future.session.channel == SS0[f.future.session]
      ensures ChannelsClosed(q, SS0) == ChannelsOf(q)
    {
    }

    /** The loop of processCancelQueue, from the pass's start (see CancelPass). */
    method CancelLoop(ghost Q0: seq<ConnectFuture>, ghost SS0: map<Session, Option<Channel>>, ghost FS: set<Future>,
        ghost f0: ControllerFields, ghost v0: bool) returns (count: nat, ghost k: nat)
      requires CancelPass(Q0, 0, 0, SS0, FS, f0, v0)
      requires forall j :: 0 <= j < |Q0| ==> Q0[j].future in FS && (Q0[j].future.session != null ==> Q0[j].future.session in SS0)
      modifies this, FS, SS0.Keys
      ensures CancelPass(Q0, k, count, SS0, FS, f0, v0)
      ensures (count == k && cancelQueue == []) || (count + 1 == k && Q0[count].future.session == null)
    {
      k := 0;
      count := 0;
      var more := cancelQueue != [];
      while more
        invariant CancelPass(Q0, k, count, SS0, FS, f0, v0)
        invariant more ==> count == k && cancelQueue != []
        invariant !more ==> (count == k && cancelQueue == []) || (count + 1 == k && Q0[count].future.session == null)
        decreases |Q0| - k
      {
        var stopped := CancelNext(Q0, k, count, SS0, FS, f0, v0);
        k := k + 1;
        if stopped {
          more := false;
        } else {
          count := count + 1;
          more := cancelQueue != [];
        }
      }
    }

    // ---------------------------------------------------- worker exit

    /** The worker loop's exit test: nothing connecting, nothing queued, no key left in the selector. */
    predicate NothingToDo(nConnect: int)
      reads this
    {
      nConnect == 0 && connectQueue == [] && cancelQueue == [] && connecting == map[]
    }

    /**
     * The end of a WorkerBee: the worker slot is freed and, when the
     * controller is being disposed while still selectable, it stops being
     * selectable, drops both queues, disposes the processor and completes
     * the disposal future with true (releasing the selector is not
     * modelled).
     */
    method FinishWorker()
      modifies this, processor, disposalFuture
      ensures !(old(selectable) && base.disposing) ==>
        Fields() == old(Fields()).(workerRunning := false)
        && processor.Fields() == old(processor.Fields()) && disposalFuture.State() == old(disposalFuture.State())
      ensures old(selectable) && base.disposing ==>
        Fields() == old(Fields()).(workerRunning := false, selectable := false, connectQueue := [], cancelQueue := [])
        && processor.Fields() == (if old(processor.disposing || processor.disposed) then old(processor.Fields())
             else old(processor.Fields()).(disposing := true, disposed := true))
        && disposalFuture.State() == SetValueSpec(old(disposalFuture.State()), BoolValue(true)).0
      ensures old(Valid()) ==> Valid()
    {
      workerRunning := false;
      if selectable && base.IsDisposing() {
        selectable := false;
        cancelQueue := [];
        connectQueue := [];
        processor.Dispose();
        var _ := disposalFuture.SetValue(BoolValue(true));
      }
    }
  }
}
