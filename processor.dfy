// AbstractPollingIoProcessor, with NioProcessor's answers to the questions
// it asks about a session's selection key. One iteration of the
// ProcessorBee loop is a sequence of passes over three session queues
// (new, removing, flushing) and the map of managed sessions; each pass is
// a method here. What the socket does is an input: a script of read or
// write results, and whether closing a channel throws.
module Processors {
  import opened Common
  import opened Futures
  import opened Buffers
  import opened WritePackets
  import opened AttributeKeys
  import opened Sessions
  import opened ControllerBase
  import ProtocolFilters
  import FilterEvents
  import opened Transport
  import AttributeMaps

  /** SessionState, as NioProcessor.getState derives it from the selection key. */
  datatype SessionState = Opening | Opened | Closing

  /** getState: no key yet is OPENING, a valid key OPENED, a cancelled key CLOSING. */
  function StateOf(keyValid: Option<bool>): SessionState {
    match keyValid
    case None => Opening
    case Some(valid) => if valid then Opened else SessionState.Closing
  }

  /** No element twice. */
  predicate NoDup<T(==)>(q: seq<T>) {
    forall i, j :: 0 <= i < j < |q| ==> q[i] != q[j]
  }

  /** List.remove(Object): takes out the first occurrence, if there is one. */
  function RemoveFirst<T(==)>(q: seq<T>, x: T): seq<T> {
    if q == [] then []
    else if q[0] == x then q[1..]
    else [q[0]] + RemoveFirst(q[1..], x)
  }

  /** remove takes out one element equal to x when there is one, and nothing else. */
  lemma {:induction false} RemoveFirstMembers<T>(q: seq<T>, x: T)
    ensures x !in q ==> RemoveFirst(q, x) == q
    ensures x in q ==> |RemoveFirst(q, x)| == |q| - 1
    ensures forall y :: y in RemoveFirst(q, x) ==> y in q
    ensures forall y :: y in q && y != x ==> y in RemoveFirst(q, x)
  {
    if q != [] && q[0] != x {
      RemoveFirstMembers(q[1..], x);
      assert forall y :: y in q <==> y == q[0] || y in q[1..];
    }
  }

  /** In a queue without repeats, remove takes the element out altogether and keeps the queue without repeats. */
  lemma {:induction false} RemoveFirstNoDup<T>(q: seq<T>, x: T)
    requires NoDup(q)
    ensures NoDup(RemoveFirst(q, x)) && x !in RemoveFirst(q, x)
  {
    if q != [] && q[0] != x {
      assert NoDup(q[1..]) by {
        forall i, j | 0 <= i < j < |q[1..]| ensures q[1..][i] != q[1..][j] {
          assert q[1..][i] == q[i + 1] && q[1..][j] == q[j + 1];
        }
      }
      RemoveFirstNoDup(q[1..], x);
      RemoveFirstMembers(q[1..], x);
      var rest := RemoveFirst(q[1..], x);
      assert q[0] !in rest by {
        assert forall k :: 0 <= k < |q[1..]| ==> q[1..][k] == q[k + 1] != q[0];
      }
      var r := [q[0]] + rest;
      forall i, j | 0 <= i < j < |r| ensures r[i] != r[j] {
        if i > 0 {
          assert r[i] == rest[i - 1] && r[j] == rest[j - 1];
        } else {
          assert r[j] in rest;
        }
      }
    } else if q != [] {
      forall i, j | 0 <= i < j < |q[1..]| ensures q[1..][i] != q[1..][j] {
        assert q[1..][i] == q[i + 1] && q[1..][j] == q[j + 1];
      }
      assert x !in q[1..] by {
        assert forall k :: 0 <= k < |q[1..]| ==> q[1..][k] == q[k + 1] != q[0];
      }
    }
  }

  // ------------------------------------------------- busy-poll detector

  /** The value nbTries starts from and is reset to. */
  const SPIN_TRIES := 10

  /** How long the ProcessorBee's select waits, and how often idle sessions are looked for, in ms. */
  const SELECT_TIMEOUT := 1000

  /**
   * One iteration's effect on nbTries, and whether it rebuilds the
   * selector. A select that returned 0 within 100 ms without a wakeup is
   * a spin, unless a broken connection explains it (nbTries is then left
   * alone); the eleventh spin in a row rebuilds the selector.
   */
  function SpinStep(nbTries: int, wakeupCalled: bool, selected: int, delta: int, broken: bool): (int, bool) {
    if wakeupCalled || selected != 0 || delta >= 100 then (SPIN_TRIES, false)
    else if broken then (nbTries, false)
    else if nbTries == 0 then (SPIN_TRIES, true)
    else (nbTries - 1, false)
  }

  /** nbTries after k spins in a row from n, with the number of selector rebuilds. */
  function Spins(n: int, k: nat): (int, nat)
    decreases k
  {
    if k == 0 then (n, 0)
    else
      var next := SpinStep(n, false, 0, 0, false);
      var rest := Spins(next.0, k - 1);
      (rest.0, rest.1 + if next.1 then 1 else 0)
  }

  /** Spins compose: k1 spins and then k2 more. */
  lemma {:induction false} SpinsAppend(n: int, k1: nat, k2: nat)
    ensures Spins(n, k1 + k2) == (Spins(Spins(n, k1).0, k2).0, Spins(n, k1).1 + Spins(Spins(n, k1).0, k2).1)
    decreases k1
  {
    if k1 > 0 {
      var next := SpinStep(n, false, 0, 0, false);
      SpinsAppend(next.0, k1 - 1, k2);
      assert k1 + k2 - 1 == (k1 - 1) + k2;
    }
  }

  /** From n in 0..10, n spins count down to 0 without a rebuild. */
  lemma {:induction false} SpinsCountDown(n: int, k: nat)
    requires k <= n <= SPIN_TRIES
    ensures Spins(n, k) == (n - k, 0)
    decreases k
  {
    if k > 0 {
      SpinsCountDown(n - 1, k - 1);
    }
  }

  /**
   * From a fresh counter, spinning selects rebuild the selector on the
   * eleventh spin and every eleventh after it: after 11 * rounds + extra
   * spins (extra at most 10) the selector was rebuilt `rounds` times and
   * nbTries has counted down to 10 - extra.
   */
  lemma {:induction false} SpinRebuildsEveryEleven(rounds: nat, extra: nat)
    requires extra <= SPIN_TRIES
    ensures Spins(SPIN_TRIES, 11 * rounds + extra) == (SPIN_TRIES - extra, rounds)
    decreases rounds
  {
    if rounds == 0 {
      SpinsCountDown(SPIN_TRIES, extra);
    } else {
      SpinsCountDown(SPIN_TRIES, SPIN_TRIES);
      SpinsAppend(SPIN_TRIES, SPIN_TRIES, 1);
      assert Spins(SPIN_TRIES, 11) == (SPIN_TRIES, 1);
      SpinsAppend(SPIN_TRIES, 11, 11 * (rounds - 1) + extra);
      SpinRebuildsEveryEleven(rounds - 1, extra);
      assert 11 * rounds + extra == 11 + (11 * (rounds - 1) + extra);
    }
  }

  // ------------------------------------------------- clearing a queue

  /** The WriteException clearWriteQueue fails the pending writes with. */
  const WRITE_TO_CLOSED := Exn(WriteError, "Trying to write a message to a closed session")

  /**
   * How clearWriteQueue judges the head of a queue: Ok(true) for an
   * IoBuffer with nothing left to write, Ok(false) for any other message,
   * or the exception hasRemaining throws.
   */
  function HeadSent(e: Queued): (r: Result<bool>)
    reads if e.Send? then {e.packet} else {}
    ensures r == Ok(true) ==> e.Send? && e.packet.message.BufferMessage?
    ensures r.Err? ==> e.Send? && e.packet.message.BufferMessage? && !e.packet.message.buf.hasBuffer
  {
    match e
    case CloseRequest => Ok(false)
    case Send(p) =>
      match p.message
      case BufferMessage(buf) =>
        var remaining := buf.HasRemaining();
        if remaining.Err? then Err(remaining.exn) else Ok(!remaining.value)
      case _ => Ok(false)
  }

  /** clearWriteQueue reports the head of this queue sent. */
  predicate HeadIsSent(q: seq<Queued>)
    reads if q != [] && q[0].Send? then {q[0].packet} else {}
  {
    q != [] && HeadSent(q[0]) == Ok(true)
  }

  /** The entries clearWriteQueue fails: the whole queue, less a head it reports sent. */
  function FailedEntries(q: seq<Queued>, headSent: bool): seq<Queued> {
    if q != [] && headSent then q[1..] else q
  }

  /**
   * Where clearWriteQueue stops with an exception: hasRemaining on a head
   * buffer that was never allocated, or a head reported sent whose packet
   * has no future to mark written.
   */
  function ClearFault(q: seq<Queued>): (r: Option<Exn>)
    reads if q != [] && q[0].Send? then {q[0].packet} else {}
  {
    if q == [] then None
    else match HeadSent(q[0])
      case Err(x) => Some(x)
      case Ok(sent) => if sent && q[0].packet.future.None? then Some(NPE) else None
  }

  /** The chain call clearWriteQueue makes for a head it reports sent. */
  function SentCalls(q: seq<Queued>, headSent: bool): seq<ChainCall>
    requires headSent ==> q != [] && q[0].Send?
  {
    if headSent then [FireMessageSent(q[0].packet)] else []
  }

  /** The chain call clearWriteQueue makes once it has failed the rest: one exceptionCaught, if anything failed. */
  function FailedCalls(q: seq<Queued>, headSent: bool): seq<ChainCall> {
    if FailedEntries(q, headSent) != [] then [FireExceptionCaught(WRITE_TO_CLOSED)] else []
  }

  /** The futures of a queue are those of its head and of its tail. */
  lemma QueueFuturesCons(q: seq<Queued>)
    requires q != []
    ensures QueueFutures(q) == EntryFuture(q[0]) + QueueFutures(q[1..])
  {
    assert forall x :: x in q <==> x == q[0] || x in q[1..];
  }

  /**
   * clearWriteQueue, with the failing loop corrected to skip the entries
   * that have no future (see FailLoopAsWritten). The head is polled: an
   * IoBuffer with nothing remaining is reported sent (its future marked
   * written), anything else is failed; every later entry is failed. The
   * failed entries' futures get the WriteException, and exceptionCaught
   * is fired once if anything failed. On completion the queue is empty
   * and every future it held is done.
   */
  method ClearWriteQueue(s: Session) returns (o: Outcome)
    modifies s, s.Pending()
    ensures var q := old(s.writeQueue); var fault := old(ClearFault(s.writeQueue));
      fault.Some? ==> o == Threw(fault.value) && s.Fields() == old(s.Fields()).(writeQueue := q[1..])
    ensures var q := old(s.writeQueue); var fault := old(ClearFault(s.writeQueue));
      var sent := old(HeadIsSent(s.writeQueue));
      fault.None? ==> (
        o == Done && s.Fields() == old(s.Fields()).(writeQueue := [], fired := old(s.fired) + SentCalls(q, sent) + FailedCalls(q, sent))
        && (sent ==> q[0].packet.future.value.State() == SetValueSpec(old(q[0].packet.future.value.State()), BoolValue(true)).0)
        && (forall f :: f in QueueFutures(FailedEntries(q, sent)) && !(sent && f == q[0].packet.future.value) ==>
              f.State() == FailedBy(old(f.State()), WRITE_TO_CLOSED)))
    ensures o == Done ==> forall f :: f in old(s.Pending()) ==> f.ready
    ensures old(s.writeQueue) == [] ==> o == Done && s.Fields() == old(s.Fields())
  {
    ghost var q := s.writeQueue;
    ghost var sent := HeadIsSent(q);
    var failed;
    o, failed := ClearHead(s);
    if o.Threw? {
      return;
    }
    if q != [] {
      QueueFuturesCons(q);
    }
    ReportFailed(s, failed);
    forall f | f in QueueFutures(q)
      ensures f.ready
    {
      if f !in QueueFutures(failed) {
        assert sent && f == q[0].packet.future.value;
      }
    }
  }

  /** The second part of clearWriteQueue: the failed entries' futures get the WriteException, reported once. */
  method ReportFailed(s: Session, failed: seq<Queued>)
    modifies s, QueueFutures(failed)
    ensures s.Fields() == old(s.Fields()).(fired := old(s.fired) + FailedCalls(failed, false))
    ensures forall f :: f in QueueFutures(failed) ==> f.State() == FailedBy(old(f.State()), WRITE_TO_CLOSED)
    ensures forall f :: f in QueueFutures(failed) ==> f.ready
  {
    if failed != [] {
      FailAll(failed, WRITE_TO_CLOSED);
      s.Fire(FireExceptionCaught(WRITE_TO_CLOSED));
    }
  }

  /**
   * The first part of clearWriteQueue: the head is polled and judged, a
   * head reported sent has its future marked written, and the rest of the
   * queue is discarded. Returns the entries to fail.
   */
  method ClearHead(s: Session) returns (o: Outcome, failed: seq<Queued>)
    modifies s, s.Pending()
    ensures var q := old(s.writeQueue); var fault := old(ClearFault(s.writeQueue));
      fault.Some? ==> o == Threw(fault.value) && s.Fields() == old(s.Fields()).(writeQueue := q[1..])
    ensures var q := old(s.writeQueue); var fault := old(ClearFault(s.writeQueue));
      var sent := old(HeadIsSent(s.writeQueue));
      fault.None? ==> (
        o == Done && failed == FailedEntries(q, sent)
        && s.Fields() == old(s.Fields()).(writeQueue := [], fired := old(s.fired) + SentCalls(q, sent))
        && (sent ==> q[0].packet.future.value.State() == SetValueSpec(old(q[0].packet.future.value.State()), BoolValue(true)).0)
        && forall f :: f in old(s.Pending()) && !(sent && f == q[0].packet.future.value) ==> f.State() == old(f.State()))
    ensures old(ClearFault(s.writeQueue)).None? && old(HeadIsSent(s.writeQueue)) ==> old(s.writeQueue)[0].packet.future.value.ready
  {
    ghost var q := s.writeQueue;
    failed := [];
    var head := s.PollWriteQueue();
    if head.Some? {
      var e := head.value;
      var hs := HeadSent(e);
      if hs.Err? {
        return Threw(hs.exn), [];
      }
      if hs.value {
        var sentOutcome := s.FireSent(e.packet);
        if sentOutcome.Threw? {
          return sentOutcome, [];
        }
      } else {
        failed := [e];
      }
      var others := DrainQueue(s);
      failed := failed + others;
    }
    o := Done;
  }

  /** The loop that discards what is left of a queue, entry by entry, and returns it. */
  method DrainQueue(s: Session) returns (rest: seq<Queued>)
    modifies s
    ensures rest == old(s.writeQueue)
    ensures s.Fields() == old(s.Fields()).(writeQueue := [])
  {
    rest := [];
    while s.writeQueue != []
      invariant rest + s.writeQueue == old(s.writeQueue)
      invariant s.Fields() == old(s.Fields()).(writeQueue := s.writeQueue)
      decreases |s.writeQueue|
    {
      var next := s.PollWriteQueue();
      rest := rest + [next.value];
    }
  }

  /**
   * The failing loop of clearWriteQueue as written: it calls
   * getFuture().setException on every failed entry, so the first entry
   * without a future throws NullPointerException, before exceptionCaught
   * is fired. CLOSE_REQUEST is such an entry: it is made without a future.
   */
  function FailLoopAsWritten(failed: seq<Queued>): (o: Outcome)
    ensures o == Done <==> forall i :: 0 <= i < |failed| ==> failed[i].Send? && failed[i].packet.future.Some?
    ensures o != Done ==> o == Threw(NPE)
  {
    if failed == [] then Done
    else if failed[0].Send? && failed[0].packet.future.Some? then FailLoopAsWritten(failed[1..])
    else Threw(NPE)
  }

  /**
   * A queue still holding CLOSE_REQUEST - closeOnFlush was called and the
   * flush has not run - makes clearWriteQueue as written throw, whatever
   * the head was; removeNow then loses the session before destroying it.
   */
  lemma CloseRequestBreaksClearAsWritten(q: seq<Queued>, headSent: bool)
    requires CloseRequest in q
    requires headSent ==> q[0].Send?
    ensures FailLoopAsWritten(FailedEntries(q, headSent)) == Threw(NPE)
  {
    var i :| 0 <= i < |q| && q[i] == CloseRequest;
    if headSent {
      assert FailedEntries(q, headSent)[i - 1] == CloseRequest;
    } else {
      assert FailedEntries(q, headSent)[i] == CloseRequest;
    }
  }

  /** The smallest such queue: CLOSE_REQUEST alone. */
  lemma CloseRequestAloneBreaksClearAsWritten()
    ensures HeadSent(CloseRequest) == Ok(false)
    ensures FailLoopAsWritten(FailedEntries([CloseRequest], false)) == Threw(NPE)
  {
  }

  // ------------------------------------------------- destroying a channel

  /**
   * NioProcessor.destroy: the selection key, if any, is cancelled; then
   * the channel is closed. `closeFault` is what closing it throws, if
   * anything; a session without a channel throws NullPointerException.
   */
  method Destroy(s: Session, closeFault: Option<Exn>) returns (o: Outcome)
    modifies s
    ensures s.Fields() == old(s.Fields()).(keyValid := Cancelled(old(s.keyValid)))
    ensures o == (if DestroyFault(s.channel, closeFault).Some? then Threw(DestroyFault(s.channel, closeFault).value) else Done)
  {
    if s.keyValid.Some? {
      s.SetSelectionKey(Some(false));
    }
    if s.channel.None? {
      return Threw(NPE);
    }
    if closeFault.Some? {
      return Threw(closeFault.value);
    }
    o := Done;
  }

  /** destroy as removeNow calls it: an exception from it is reported on the chain. Reports whether it succeeded. */
  method DestroyReporting(s: Session, closeFault: Option<Exn>) returns (removed: bool)
    modifies s
    ensures var destroyFault := DestroyFault(old(s.channel), closeFault);
      removed == destroyFault.None?
      && s.Fields() == old(s.Fields()).(keyValid := Cancelled(old(s.keyValid)),
           fired := old(s.fired) + if destroyFault.Some? then [FireExceptionCaught(destroyFault.value)] else [])
  {
    var d := Destroy(s, closeFault);
    removed := d.Done?;
    if d.Threw? {
      s.Fire(FireExceptionCaught(d.exn));
    }
  }

  /** What NioProcessor.destroy does to the key: cancels it, if there is one. */
  function Cancelled(keyValid: Option<bool>): Option<bool> {
    if keyValid.Some? then Some(false) else None
  }

  /** The key state of each session of a queue. */
  ghost function KeyStates(q: seq<Session>): (r: seq<Option<bool>>)
    reads set x | x in q
    ensures |r| == |q| && forall k :: 0 <= k < |q| ==> r[k] == q[k].keyValid
  {
    if q == [] then [] else [q[0].keyValid] + KeyStates(q[1..])
  }

  /** The channel of each session of a queue. */
  ghost function Channels(q: seq<Session>): (r: seq<Option<Channel>>)
    reads set x | x in q
    ensures |r| == |q| && forall k :: 0 <= k < |q| ==> r[k] == q[k].channel
  {
    if q == [] then [] else [q[0].channel] + Channels(q[1..])
  }

  /** What destroy throws. */
  function DestroyFault(channel: Option<Channel>, closeFault: Option<Exn>): Option<Exn> {
    if channel.None? then Some(NPE) else closeFault
  }

  /** The chain calls of destroy's exception, if any, and of sessionDestroyed. */
  function DestroyCalls(destroyFault: Option<Exn>, wasManaged: bool): seq<ChainCall> {
    (if destroyFault.Some? then [FireExceptionCaught(destroyFault.value)] else [])
    + (if wasManaged then [FireSessionClosed] else [])
  }

  // ------------------------------------------------------ registering

  /**
   * What registering a new session throws: initToRead needs the channel and
   * may fail to configure or register it; buildChain may throw after that.
   */
  function RegisterFault(channel: Option<Channel>, registerFault: Option<Exn>, buildFault: Option<Exn>): Option<Exn> {
    if channel.None? then Some(NPE) else if registerFault.Some? then registerFault else buildFault
  }

  /** The selection key after initToRead: a valid key once the channel is registered for reading. */
  function KeyAfterInit(keyValid: Option<bool>, channel: Option<Channel>, registerFault: Option<Exn>): Option<bool> {
    if channel.Some? && registerFault.None? then Some(true) else keyValid
  }

  /** The value stored under SESSION_CREATED_FUTURE, cast to a connect future as the failure path casts it. */
  function CreatedFuture(m: map<AttributeKey, object>): Result<Option<ConnectFuture>> {
    if ProtocolFilters.SESSION_CREATED_FUTURE !in m then Ok(None)
    else
      var v: object := m[ProtocolFilters.SESSION_CREATED_FUTURE];
      if v is ConnectFuture then Ok(Some(v as ConnectFuture)) else Err(Exn(ClassCast, "not a ConnectFuture"))
  }

  /** What registering a session may change besides the session: its attribute map and the connect future stored there. */
  ghost function SessionFrame(s: Session): set<object>
    reads s, s.attributes
  {
    if s.attributes == null then {}
    else
      {s.attributes} + match CreatedFuture(s.attributes.attributes) case Ok(Some(cf)) => {cf.future} case _ => {}
  }

  /** SessionFrame of every session of a queue. */
  ghost function RegisterFrame(q: seq<Session>): set<object>
    reads set x | x in q, set x | x in q :: x.attributes
  {
    if q == [] then {} else SessionFrame(q[0]) + RegisterFrame(q[1..])
  }

  lemma RegisterFrameCovers(q: seq<Session>)
    ensures forall x :: x in q ==> SessionFrame(x) <= RegisterFrame(q)
  {
    if q != [] {
      RegisterFrameCovers(q[1..]);
    }
  }

  /** The session's attributes, none when it has no attribute map. */
  ghost function StoredAttributes(s: Session): map<AttributeKey, object>
    reads s, s.attributes
  {
    if s.attributes == null then map[] else s.attributes.attributes
  }

  lemma IdsPrefix(q: seq<Session>, k: int)
    requires 0 <= k < |q|
    ensures Ids(q[..k+1]) == Ids(q[..k]) + {q[k].id}
  {
    assert q[..k+1] == q[..k] + [q[k]];
  }

  /**
   * The failure path of registerNewSessions, from the session's fields and
   * attributes before it to those after it: the connect future is removed
   * and, when there is a stored one, failed; then the session is destroyed
   * (a failure there is only logged) and marked closed. A missing attribute
   * map or a stored value that is not a connect future throws out of the pass.
   */
  ghost predicate FailedRegistration(f0: SessionFields, m0: map<AttributeKey, object>, f1: SessionFields, o: Outcome, key: Option<bool>) {
    if f0.attributes == null then o == Threw(NPE) && f1 == f0.(keyValid := key)
    else match CreatedFuture(m0)
      case Err(e) => o == Threw(e) && f1 == f0.(keyValid := key)
      case Ok(_) => o == Done && f1 == f0.(keyValid := Cancelled(key), state := Invalid)
  }

  method FailRegistration(s: Session, fault: Exn, closeFault: Option<Exn>) returns (o: Outcome)
    modifies s, SessionFrame(s)
    ensures s.attributes == old(s.attributes) && SessionFrame(s) <= old(SessionFrame(s))
    ensures FailedRegistration(old(s.Fields()), old(StoredAttributes(s)), s.Fields(), o, old(s.keyValid))
    ensures old(s.attributes) != null ==>
      old(s.attributes).attributes == old(StoredAttributes(s)) - {ProtocolFilters.SESSION_CREATED_FUTURE}
    ensures old(s.attributes) != null ==> var cf := CreatedFuture(old(StoredAttributes(s)));
      cf.Ok? && cf.value.Some? ==>
      cf.value.value.future.State() == SetValueSpec(old(cf.value.value.future.State()), Failure(fault)).0
    ensures forall y: Session :: old(allocated(y)) ==> y.attributes == old(y.attributes)
    ensures forall a: AttributeMaps.DefaultAttributeMap :: a != s.attributes && old(allocated(a)) ==> a.attributes == old(a.attributes)
  {
    var r := s.RemoveAttribute(Some(ProtocolFilters.SESSION_CREATED_FUTURE));
    if r.Err? {
      return Threw(r.exn);
    }
    if r.value.Some? {
      var v: object := r.value.value;
      if !(v is ConnectFuture) {
        return Threw(Exn(ClassCast, "not a ConnectFuture"));
      }
      var _ := (v as ConnectFuture).future.SetException(Some(fault));
    }
    var _ := Destroy(s, closeFault);
    s.SetStateClosed();
    o := Done;
  }

  /** The ids of the sessions of a queue. */
  function Ids(q: seq<Session>): set<int> {
    set x | x in q :: x.id
  }


  // ------------------------------------------------------ reading

  /** A queue after scheduleRemove: a session already queued is not queued again. */
  function Enqueued(q: seq<Session>, s: Session): (r: seq<Session>)
    ensures s in r
    ensures NoDup(q) ==> NoDup(r)
  {
    if s in q then q else q + [s]
  }

  /** readFrom schedules the session for removal after an IOException other than PortUnreachableException. */
  predicate RemovesOnReadError(end: ReadEnd) {
    end.ReadFailed? && end.cause.IsIOException() && end.cause.kind != PortUnreachable
  }

  /**
   * The chain calls readFrom makes after its read loop: exceptionCaught
   * when a read threw; otherwise messageReceived with the flipped buffer
   * when anything was read, then inputClosed when the last read was
   * negative.
   */
  function ReadCalls(readBytes: int, end: ReadEnd, flipped: BufferView): seq<ChainCall> {
    if end.ReadFailed? then [FireExceptionCaught(end.cause)]
    else
      (if readBytes > 0 then [FireMessageReceived(BufferMessage(flipped))] else [])
      + (if end.ret < 0 then [FireInputClosed] else [])
  }

  /**
   * What readFrom fires, for every sequence of read answers: at most two
   * calls; messageReceived exactly when the reads that completed brought
   * some bytes; inputClosed exactly when the loop met the end of the
   * stream; exceptionCaught exactly when a read threw, and then nothing
   * else.
   */
  lemma {:induction false} ReadFromEvents(script: seq<ReadResult>, room: nat, v: BufferView)
    ensures var (got, end) := ReadLoop(script, room); var calls := ReadCalls(|got|, end, v);
      |calls| <= 2
      && (FireMessageReceived(BufferMessage(v)) in calls <==> end.Stopped? && |got| > 0)
      && (FireInputClosed in calls <==> EndsAtEof(script, room))
      && (end.ReadFailed? ==> calls == [FireExceptionCaught(end.cause)])
  {
    ReadLoopMeaning(script, room);
  }

  /** The capacity of the read buffer readFrom fills: what it has, or the configured size when getIOBuffer allocates it. */
  function ReadCapacity(hasBuffer: bool, capacity: int, readBufferSize: int): int {
    if hasBuffer then capacity else readBufferSize
  }

  // ------------------------------------------------------ writing

  /** Why flushNow stopped. */
  datatype FlushEnd = NotReady | Drained | KernelFull | BudgetUsed | WriteFailed | Failed(cause: Exn)

  /** What flushNow does after one writeBuffer: go round again with the new total, or stop. */
  datatype AfterWrite = Again(total: int) | Stop(why: FlushEnd)

  /** The most a flush may write for a given maxWriteBytes. */
  function Budget(max: int): nat {
    if max > 0 then max else 0
  }

  /**
   * flushNow after a writeBuffer that returned `per`, `written` having
   * been written before it, as the code stands: some bytes written with
   * some left, or none written, stop with OP_WRITE set; otherwise `per`
   * is added to the int total, which stops the flush once it reaches
   * maxWriteBytes and otherwise goes round again. The -1 of a failed
   * write is added like a byte count.
   */
  function AfterWriteAsWritten(per: int, has: bool, written: int, max: int): AfterWrite {
    if per > 0 && has then Stop(KernelFull)
    else if per == 0 then Stop(KernelFull)
    else
      var total := Wrap32(written + per);
      if total >= max then Stop(BudgetUsed) else Again(total)
  }

  /**
   * The same decision with a failed write (-1: the session has been
   * closed and removed) ending the flush.
   */
  function NextFlush(per: int, has: bool, written: int, max: int): (d: AfterWrite)
    ensures d == Stop(WriteFailed) <==> per < 0
    ensures d.Again? ==> per > 0 && !has && d.total == written + per < max
    ensures d == Stop(BudgetUsed) ==> per > 0 && !has && written + per >= max
  {
    if per > 0 && has then Stop(KernelFull)
    else if per == 0 then Stop(KernelFull)
    else if per < 0 then Stop(WriteFailed)
    else if written + per >= max then Stop(BudgetUsed)
    else Again(written + per)
  }

  /** Where no write failed and the total fits an int, the corrected decision is the one the code makes. */
  lemma NextFlushAgreesAsWritten(per: int, has: bool, written: int, max: int)
    requires per >= 0 && INT_MIN <= written + per <= INT_MAX
    ensures NextFlush(per, has, written, max) == AfterWriteAsWritten(per, has, written, max)
  {
  }

  /** The code's decisions after `k` writes in a row that each fail, from a total of `written`. */
  function FailedWritesAsWritten(written: int, max: int, k: nat): AfterWrite {
    if k == 0 then Again(written)
    else match FailedWritesAsWritten(written, max, k - 1)
      case Stop(why) => Stop(why)
      case Again(w) => AfterWriteAsWritten(-1, true, w, max)
  }

  /**
   * As written, a flush whose writes keep failing does not stop: each
   * failure takes one off the total and goes round again, for as many
   * failures as it takes the total to reach Integer.MIN_VALUE.
   */
  lemma {:induction false} FailedWritesSpinAsWritten(written: int, max: int, k: nat)
    requires 0 <= written < max <= INT_MAX && k <= written - INT_MIN
    ensures FailedWritesAsWritten(written, max, k) == Again(written - k)
  {
    if k > 0 {
      FailedWritesSpinAsWritten(written, max, k - 1);
    }
  }

  /** Only the next failure stops it, when the total wraps round to Integer.MAX_VALUE. */
  lemma FailedWritesWrapAsWritten(written: int, max: int)
    requires 0 <= written < max <= INT_MAX
    ensures FailedWritesAsWritten(written, max, written - INT_MIN + 1) == Stop(BudgetUsed)
  {
    FailedWritesSpinAsWritten(written, max, written - INT_MIN);
  }

  /** The exception flushNow throws for a message that is not an IoBuffer (getClass on null throws first). */
  function UnknownMessage(m: Message): Exn {
    if m.NullMessage? then NPE
    else Exn(IllegalState, "Don't know how to handle message of type '" + MessageClassName(m)
      + "'.  Are you missing a protocol encoder?")
  }

  /** The class name of a message object, which the model does not know. */
  function MessageClassName(m: Message): string {
    "java.lang.Object"
  }

  /** The packets a flush may touch: the current one and those queued. */
  ghost function Packets(current: Option<Packet>, q: seq<Queued>): set<Packet> {
    (if current.Some? then {current.value} else {}) + set e | e in q && e.Send? :: e.packet
  }

  /** Their futures. */
  ghost function PacketFutures(current: Option<Packet>, q: seq<Queued>): set<Future> {
    (if current.Some? && current.value.future.Some? then {current.value.future.value} else {}) + QueueFutures(q)
  }

  /** Polling a packet into the current slot brings in nothing new to write or complete. */
  lemma HeadBecomesCurrent(q: seq<Queued>)
    requires q != [] && q[0].Send?
    ensures Packets(Some(q[0].packet), q[1..]) <= Packets(None, q)
    ensures PacketFutures(Some(q[0].packet), q[1..]) <= PacketFutures(None, q)
  {
    QueueFuturesCons(q);
    assert forall e :: e in q[1..] ==> e in q;
  }

  /** What flushNow returns for the reason it stopped: true once drained, the exception it throws, false otherwise. */
  function FlushResult(why: FlushEnd): (r: Result<bool>)
    ensures r == Ok(true) <==> why == Drained
    ensures r.Err? <==> why.Failed?
  {
    match why
    case Drained => Ok(true)
    case Failed(e) => Err(e)
    case _ => Ok(false)
  }

  /**
   * How a flush of `s` has ended, for the reason `why` after writing
   * `written` bytes, the processor's fields going from f0 (OP_WRITE
   * cleared) to f1 and the session's to s1, its flush flag and key having
   * been flag0 and key0: within the budget; rescheduled
   * only when the budget is used; drained only with nothing left to write;
   * OP_WRITE set only when the kernel stopped taking bytes; the session
   * closed and removed only when a write failed.
   */
  predicate FlushEnded(s: Session, max: int, f0: ProcessorFields, flag0: bool, key0: Option<bool>,
      f1: ProcessorFields, s1: SessionFields, why: FlushEnd, written: int)
  {
    why != NotReady
    && 0 <= written <= Budget(max) && (why == BudgetUsed ==> written == max)
    && f1 == f0.(
         flushing := if why == BudgetUsed && !flag0 then f0.flushing + [s] else f0.flushing,
         managed := if why == WriteFailed then f0.managed - {s.id} else f0.managed,
         writeInterest := if why == KernelFull && s1.keyValid == Some(true) then f0.writeInterest + {s} else f0.writeInterest)
    && s1.scheduledForFlush == (flag0 || why == BudgetUsed)
    && (why == Drained ==> s1.writeQueue == [] && s1.current.None?)
    && (if why == WriteFailed then s1.state == SState.Closing else s1.keyValid == key0)
  }

  /** The packet in the current slot still has bytes to write. */
  predicate StillToWrite(p: Packet)
    reads p
  {
    p.message.BufferMessage? && p.message.buf.HasRemaining() == Ok(true)
  }

  /**
   * One key the select returned: its session, whether the key is readable
   * and writable, and what the session's reads will return.
   */
  datatype SelectedKey = SelectedKey(session: Session, readable: bool, writable: bool, answers: seq<ReadResult>)

  /** The sessions of the selected keys. */
  ghost function KeySessions(keys: seq<SelectedKey>): set<Session> {
    set i | 0 <= i < |keys| :: keys[i].session
  }

  /** The sessions of the writable ones. */
  ghost function WritableSessions(keys: seq<SelectedKey>): set<Session> {
    set i | 0 <= i < |keys| && keys[i].writable :: keys[i].session
  }

  /** The sessions of the readable ones. */
  ghost function ReadableSessions(keys: seq<SelectedKey>): set<Session> {
    set i | 0 <= i < |keys| && keys[i].readable :: keys[i].session
  }

  /** The writable sessions of one more key. */
  lemma WritablePrefix(keys: seq<SelectedKey>, i: int)
    requires 0 <= i < |keys|
    ensures WritableSessions(keys[..i + 1]) == WritableSessions(keys[..i]) + if keys[i].writable then {keys[i].session} else {}
  {
    var a, b := keys[..i + 1], keys[..i];
    forall x | x in WritableSessions(a)
      ensures x in WritableSessions(b) + if keys[i].writable then {keys[i].session} else {}
    {
      var j :| 0 <= j < |a| && a[j].writable && a[j].session == x;
      if j < i {
        assert b[j] == a[j];
      }
    }
    forall x | x in WritableSessions(b)
      ensures x in WritableSessions(a)
    {
      var j :| 0 <= j < |b| && b[j].writable && b[j].session == x;
      assert a[j] == b[j];
    }
    if keys[i].writable {
      assert a[i] == keys[i];
    }
  }

  // ------------------------------------------------------ the processor

  /** Every mutable field of the processor, as one value. */
  datatype ProcessorFields = ProcessorFields(
    disposing: bool, disposed: bool, newSessions: seq<Session>, removing: seq<Session>,
    flushing: seq<Session>, managed: map<int, Session>, nbTries: int, lastIdleCheckTime: int,
    writeInterest: set<Session>)

  class Processor {
    /** The controller the sessions belong to, which the processor activates and deactivates. */
    const controller: IOControllerBase
    var disposing: bool
    var disposed: bool
    var newSessions: seq<Session>
    var removing: seq<Session>
    var flushing: seq<Session>
    /** managedSessions, by session id. */
    var managed: map<int, Session>
    /** The ProcessorBee's spin counter. */
    var nbTries: int
    /** When the ProcessorBee last looked for idle sessions. */
    var lastIdleCheckTime: int
    /** The sessions whose selection key has OP_WRITE set. */
    var writeInterest: set<Session>

    function Fields(): ProcessorFields
      reads this
    {
      ProcessorFields(disposing, disposed, newSessions, removing, flushing, managed, nbTries,
        lastIdleCheckTime, writeInterest)
    }

    /** Every session in the flush queue is there once and has its flag set. */
    ghost predicate FlushQueueOk()
      reads this, set x | x in flushing
    {
      NoDup(flushing) && forall x :: x in flushing ==> x.scheduledForFlush
    }

    /** The controller is active exactly while some session is managed. */
    ghost predicate ActivationTracksSessions()
      reads this, controller
    {
      controller.activated <==> managed != map[]
    }

    /** A processor whose worker starts at time `now`. */
    constructor(controller: IOControllerBase, now: int)
      ensures this.controller == controller
      ensures Fields() == ProcessorFields(false, false, [], [], [], map[], SPIN_TRIES, now, {})
    {
      this.controller := controller;
      disposing := false;
      disposed := false;
      newSessions := [];
      removing := [];
      flushing := [];
      managed := map[];
      nbTries := SPIN_TRIES;
      lastIdleCheckTime := now;
      writeInterest := {};
    }

    /** dispose: the first call marks the processor disposing and, once the worker has finished, disposed. */
    method Dispose()
      modifies this
      ensures old(disposing || disposed) ==> Fields() == old(Fields())
      ensures !old(disposing || disposed) ==> Fields() == old(Fields()).(disposing := true, disposed := true)
    {
      if disposed || disposing {
        return;
      }
      disposing := true;
      disposed := true;
    }

    /** add: refused once the processor is disposing or disposed; otherwise queued as new. */
    method Add(s: Session) returns (o: Outcome)
      modifies this
      ensures old(disposing || disposed) ==> o == Threw(Exn(IllegalState, "Already disposed.")) && Fields() == old(Fields())
      ensures !old(disposing || disposed) ==> o == Done && Fields() == old(Fields()).(newSessions := old(newSessions) + [s])
    {
      if disposed || disposing {
        return Threw(Exn(IllegalState, "Already disposed."));
      }
      newSessions := newSessions + [s];
      o := Done;
    }

    /** scheduleRemove (and remove, less the wakeup): a session already queued is not queued again. */
    method ScheduleRemove(s: Session)
      modifies this
      ensures Fields() == old(Fields()).(removing := Enqueued(old(removing), s))
      ensures NoDup(old(removing)) ==> NoDup(removing)
    {
      if s !in removing {
        removing := removing + [s];
      }
    }

    /**
     * scheduleFlush (and flush, less the wakeup): the session is queued
     * only when this call flips its flag from false to true, so it is
     * never in the flush queue twice.
     */
    method ScheduleFlush(s: Session)
      modifies this, s
      ensures s.Fields() == old(s.Fields()).(scheduledForFlush := true)
      ensures Fields() == old(Fields()).(flushing := old(flushing) + if old(s.scheduledForFlush) then [] else [s])
      ensures old(FlushQueueOk()) ==> FlushQueueOk()
    {
      var flipped := s.SetScheduledForFlush(true);
      if flipped {
        flushing := flushing + [s];
      }
    }

    /** The spin detector of the ProcessorBee loop, for one select. */
    method SpinCheck(wakeupCalled: bool, selected: int, delta: int, broken: bool) returns (rebuild: bool)
      modifies this
      ensures (nbTries, rebuild) == SpinStep(old(nbTries), wakeupCalled, selected, delta, broken)
      ensures 0 <= old(nbTries) <= SPIN_TRIES ==> 0 <= nbTries <= SPIN_TRIES
      ensures Fields() == old(Fields()).(nbTries := nbTries)
    {
      rebuild := false;
      if !wakeupCalled && selected == 0 && delta < 100 {
        if !broken {
          if nbTries == 0 {
            rebuild := true;
            nbTries := SPIN_TRIES;
          } else {
            nbTries := nbTries - 1;
          }
        }
      } else {
        nbTries := SPIN_TRIES;
      }
    }

    /**
     * addManagedSession: a session id already managed is ignored.
     * Otherwise the session is recorded, the controller is activated if
     * it is the first one, and sessionOpened is fired.
     */
    method AddManagedSession(s: Session)
      modifies this, controller, s
      ensures s.id in old(managed) ==>
        Fields() == old(Fields()) && s.Fields() == old(s.Fields()) && controller.activated == old(controller.activated)
      ensures s.id !in old(managed) ==> (
        Fields() == old(Fields()).(managed := old(managed)[s.id := s])
        && controller.activated == (old(controller.activated) || old(managed) == map[])
        && s.Fields() == old(s.Fields()).(fired := old(s.fired) + [FireSessionOpened]))
      ensures controller.handler == old(controller.handler) && controller.disposing == old(controller.disposing)
      ensures controller.disposed == old(controller.disposed)
      ensures old(ActivationTracksSessions()) ==> ActivationTracksSessions()
    {
      var firstAdded := managed == map[];
      if s.id in managed {
        return;
      }
      managed := managed[s.id := s];
      if firstAdded {
        controller.Activate();
      }
      s.Fire(FireSessionOpened);
    }

    /**
     * sessionDestroyed: an id that is not managed is ignored. Otherwise it
     * is forgotten, the controller is deactivated if no session is left,
     * and sessionClosed is fired.
     */
    method SessionDestroyed(s: Session)
      modifies this, controller, s
      ensures managed == old(managed) - {s.id}
      ensures disposing == old(disposing) && disposed == old(disposed) && newSessions == old(newSessions) && removing == old(removing)
      ensures flushing == old(flushing) && writeInterest == old(writeInterest) && nbTries == old(nbTries) && lastIdleCheckTime == old(lastIdleCheckTime)
      ensures s.Fields() == old(s.Fields()).(fired := old(s.fired) + if s.id in old(managed) then [FireSessionClosed] else [])
      ensures controller.activated == if s.id in old(managed) then old(controller.activated) && managed != map[] else old(controller.activated)
      ensures controller.handler == old(controller.handler) && controller.disposing == old(controller.disposing)
      ensures controller.disposed == old(controller.disposed)
      ensures old(ActivationTracksSessions()) ==> ActivationTracksSessions()
    {
      if s.id !in managed {
        return;
      }
      managed := managed - {s.id};
      if managed == map[] {
        controller.Deactivate();
      }
      s.Fire(FireSessionClosed);
    }

    /**
     * removeNow: the write queue is cleared (an exception from this first
     * clear escapes), then the channel is destroyed, an exception from
     * that being reported on the chain; either way the queue is cleared
     * again and the session is forgotten. Reports whether destroy
     * succeeded.
     */
    method RemoveNow(s: Session, closeFault: Option<Exn>) returns (removed: bool, o: Outcome)
      modifies this, controller, s, s.Pending()
      ensures var fault := old(ClearFault(s.writeQueue));
        fault.Some? ==> (o == Threw(fault.value) && !removed && managed == old(managed)
          && s.Fields() == old(s.Fields()).(writeQueue := old(s.writeQueue)[1..])
          && controller.activated == old(controller.activated))
      ensures var fault := old(ClearFault(s.writeQueue));
        var sent := old(HeadIsSent(s.writeQueue));
        var destroyFault := DestroyFault(old(s.channel), closeFault);
        fault.None? ==> (o == Done && removed == destroyFault.None? && managed == old(managed) - {s.id}
          && s.Fields() == old(s.Fields()).(writeQueue := [], keyValid := Cancelled(old(s.keyValid)),
               fired := old(s.fired) + SentCalls(old(s.writeQueue), sent) + FailedCalls(old(s.writeQueue), sent)
                 + DestroyCalls(destroyFault, s.id in old(managed)))
          && forall f :: f in old(s.Pending()) ==> f.ready)
      ensures disposing == old(disposing) && disposed == old(disposed) && newSessions == old(newSessions) && removing == old(removing)
      ensures flushing == old(flushing) && writeInterest == old(writeInterest) && nbTries == old(nbTries) && lastIdleCheckTime == old(lastIdleCheckTime)
      ensures controller.handler == old(controller.handler) && controller.disposing == old(controller.disposing)
      ensures controller.disposed == old(controller.disposed)
      ensures old(ActivationTracksSessions()) ==> ActivationTracksSessions()
    {
      o := ClearWriteQueue(s);
      if o.Threw? {
        return false, o;
      }
      removed := DestroyAndForget(s, closeFault);
    }

    /** removeNow after its first clear: destroy, then the second clear and sessionDestroyed. */
    method DestroyAndForget(s: Session, closeFault: Option<Exn>) returns (removed: bool)
      requires s.writeQueue == []
      modifies this, controller, s
      ensures var destroyFault := DestroyFault(old(s.channel), closeFault);
        removed == destroyFault.None? && managed == old(managed) - {s.id}
        && s.Fields() == old(s.Fields()).(keyValid := Cancelled(old(s.keyValid)),
             fired := old(s.fired) + DestroyCalls(destroyFault, s.id in old(managed)))
      ensures disposing == old(disposing) && disposed == old(disposed) && newSessions == old(newSessions) && removing == old(removing)
      ensures flushing == old(flushing) && writeInterest == old(writeInterest) && nbTries == old(nbTries) && lastIdleCheckTime == old(lastIdleCheckTime)
      ensures controller.handler == old(controller.handler) && controller.disposing == old(controller.disposing)
      ensures controller.disposed == old(controller.disposed)
      ensures old(ActivationTracksSessions()) ==> ActivationTracksSessions()
    {
      removed := DestroyReporting(s, closeFault);
      var again := ClearWriteQueue(s);
      SessionDestroyed(s);
    }

    /**
     * One session of removeSessions, by the state of its key: an OPENED
     * session is removed now; a CLOSING one is only counted; an OPENING
     * one is first taken out of the new-session queue. Reports whether the
     * session counts as removed.
     */
    method RemoveOne(s: Session, closeFault: Option<Exn>, ghost F: set<Future>) returns (counted: bool, o: Outcome)
      requires s.Pending() <= F
      modifies this, controller, s, F
      ensures StateOf(old(s.keyValid)) == SessionState.Closing ==>
        counted && o == Done && newSessions == old(newSessions) && managed == old(managed)
        && s.writeQueue == old(s.writeQueue) && s.keyValid == old(s.keyValid) && s.fired == old(s.fired)
        && controller.activated == old(controller.activated)
      ensures StateOf(old(s.keyValid)) != SessionState.Closing ==> (
        newSessions == (if old(s.keyValid).None? then RemoveFirst(old(newSessions), s) else old(newSessions))
        && (o == Done ==> (counted == DestroyFault(old(s.channel), closeFault).None?
              && s.writeQueue == [] && s.keyValid == Cancelled(old(s.keyValid)) && managed == old(managed) - {s.id}))
        && (o.Threw? ==> (!counted && managed == old(managed) && old(s.writeQueue) != []
              && s.writeQueue == old(s.writeQueue)[1..] && s.keyValid == old(s.keyValid))))
      ensures o == Done ==> s.keyValid != Some(true)
      ensures o == Done && old(s.keyValid) != Some(false) ==> s.writeQueue == [] && s.id !in managed
      ensures managed.Keys <= old(managed).Keys
      ensures disposing == old(disposing) && disposed == old(disposed) && removing == old(removing)
      ensures flushing == old(flushing) && writeInterest == old(writeInterest)
      ensures nbTries == old(nbTries) && lastIdleCheckTime == old(lastIdleCheckTime)
      ensures controller.handler == old(controller.handler) && controller.disposing == old(controller.disposing)
      ensures controller.disposed == old(controller.disposed)
      ensures old(ActivationTracksSessions()) ==> ActivationTracksSessions()
    {
      match StateOf(s.keyValid)
      case Opened =>
        counted, o := RemoveNow(s, closeFault);
      case Closing =>
        counted, o := true, Done;
      case Opening =>
        newSessions := RemoveFirst(newSessions, s);
        counted, o := RemoveNow(s, closeFault);
    }

    /**
     * How far removeSessions has got through the removal queue R it
     * started with: the first i sessions have been removed (their keys are
     * no longer valid, and those that were open or opening have an empty
     * queue and are no longer managed, nor still waiting in newSessions),
     * and the rest still have the key state kv0, channel ch0 and pending
     * futures within F they started with. ns0 is newSessions at the start.
     */
    ghost predicate RemovalProgress(R: seq<Session>, i: int, kv0: seq<Option<bool>>, ch0: seq<Option<Channel>>,
                                    ns0: seq<Session>, F: set<Future>)
      reads this, set x | x in R
    {
      0 <= i <= |R| && |kv0| == |R| && |ch0| == |R| && removing == R[i..]
      && (forall k :: i <= k < |R| ==> R[k].keyValid == kv0[k] && R[k].channel == ch0[k] && R[k].Pending() <= F)
      && (forall k :: 0 <= k < i ==> R[k].keyValid != Some(true))
      && (forall k :: 0 <= k < i && kv0[k] != Some(false) ==> R[k].writeQueue == [] && R[k].id !in managed)
      && (forall x :: x in newSessions ==> x in ns0)
      && (forall x :: x in ns0 && x !in R ==> x in newSessions)
      && (NoDup(ns0) ==> NoDup(newSessions) && forall k :: 0 <= k < i && kv0[k].None? ==> R[k] !in newSessions)
    }

    /** What a completed removal pass guarantees about every session it took from the queue. */
    lemma RemovalComplete(R: seq<Session>, kv0: seq<Option<bool>>, ch0: seq<Option<Channel>>, ns0: seq<Session>, F: set<Future>)
      requires RemovalProgress(R, |R|, kv0, ch0, ns0, F)
      ensures removing == []
      ensures forall x :: x in R ==> x.keyValid != Some(true)
      ensures forall k :: 0 <= k < |R| && kv0[k] != Some(false) ==> R[k].writeQueue == [] && R[k].id !in managed
      ensures NoDup(ns0) ==> forall k :: 0 <= k < |R| && kv0[k].None? ==> R[k] !in newSessions
    {
    }

    /**
     * What a removal pass leaves as it was: the processor's flags, flush
     * queue, write interest and spin state (as in `f`), and the
     * controller's handler and disposal flags.
     */
    ghost predicate KeepsOutside(f: ProcessorFields, handler: FilterEvents.IOHandler, cDisposing: bool, cDisposed: bool)
      reads this, controller
    {
      disposing == f.disposing && disposed == f.disposed && flushing == f.flushing && writeInterest == f.writeInterest
      && nbTries == f.nbTries && lastIdleCheckTime == f.lastIdleCheckTime
      && controller.handler == handler && controller.disposing == cDisposing && controller.disposed == cDisposed
    }

    /**
     * One turn of removeSessions' loop: poll the head of the removal queue
     * and remove that session by the state of its key. When the removal
     * completes, one more session of R counts as removed.
     */
    /**
     * RemoveOne with what a removal pass needs of it: the session is
     * closed when it completes, newSessions loses at most that session,
     * and nothing outside the session and its futures changes.
     */
    method RemoveStep(s: Session, closeFault: Option<Exn>, ghost F: set<Future>) returns (counted: bool, o: Outcome)
      requires s.Pending() <= F
      modifies this, controller, s, F
      ensures o == Done ==> s.keyValid != Some(true)
      ensures o == Done && old(s.keyValid) != Some(false) ==> s.writeQueue == [] && s.id !in managed
      ensures o == Done && (old(s.keyValid) == Some(false) || DestroyFault(old(s.channel), closeFault).None?) ==> counted
      ensures o.Threw? ==> !counted
      ensures managed.Keys <= old(managed).Keys && removing == old(removing)
      ensures forall x :: x in newSessions ==> x in old(newSessions)
      ensures forall x :: x in old(newSessions) && x != s ==> x in newSessions
      ensures NoDup(old(newSessions)) ==> NoDup(newSessions) && (old(s.keyValid).None? ==> s !in newSessions)
      ensures KeepsOutside(old(Fields()), old(controller.handler), old(controller.disposing), old(controller.disposed))
      ensures old(ActivationTracksSessions()) ==> ActivationTracksSessions()
    {
      RemoveFirstMembers(newSessions, s);
      if NoDup(newSessions) {
        RemoveFirstNoDup(newSessions, s);
      }
      counted, o := RemoveOne(s, closeFault, F);
    }

    method RemoveHead(closeFault: Option<Exn>, ghost F: set<Future>, ghost R: seq<Session>, ghost i: int,
                      ghost kv0: seq<Option<bool>>, ghost ch0: seq<Option<Channel>>, ghost ns0: seq<Session>,
                      ghost f0: ProcessorFields, ghost h0: FilterEvents.IOHandler, ghost d0: bool, ghost dd0: bool, ghost t0: bool)
      returns (counted: bool, o: Outcome)
      requires RemovalProgress(R, i, kv0, ch0, ns0, F) && i < |R|
      requires forall k :: 0 <= k < |R| && k != i ==> R[k] != R[i]
      requires KeepsOutside(f0, h0, d0, dd0) && (t0 ==> ActivationTracksSessions())
      modifies this, controller, R[i], F
      ensures o == Done ==> RemovalProgress(R, i + 1, kv0, ch0, ns0, F)
      ensures o.Threw? ==> removing == R[i + 1..] && !counted
      ensures o.Threw? ==> (forall x :: x in newSessions ==> x in ns0) && forall x :: x in ns0 && x !in R ==> x in newSessions
      ensures o == Done && (kv0[i] == Some(false) || DestroyFault(ch0[i], closeFault).None?) ==> counted
      ensures KeepsOutside(f0, h0, d0, dd0) && (t0 ==> ActivationTracksSessions())
    {
      var s := removing[0];
      removing := removing[1..];
      counted, o := RemoveStep(s, closeFault, F);
    }

    /**
     * removeSessions: polls the removal queue until it is empty, removing
     * each session by the state of its key, and returns how many count as
     * removed. `closeFault` says what closing each session's channel
     * throws. An exception from a first clearWriteQueue escapes, leaving
     * the rest of the queue for the next pass.
     */
    method RemoveSessions(closeFault: Session -> Option<Exn>, ghost F: set<Future>) returns (count: int, o: Outcome)
      requires NoDup(removing)
      requires forall x :: x in removing ==> x.Pending() <= F
      modifies this, controller, (set x | x in removing), F
      ensures o == Done ==> removing == []
      ensures o.Threw? ==> |removing| < |old(removing)| && removing == old(removing)[|old(removing)| - |removing|..]
      ensures 0 <= count <= |old(removing)|
      ensures o == Done && (forall k :: 0 <= k < |old(removing)| ==> DestroyFault(old(removing[k].channel), closeFault(old(removing)[k])).None?) ==>
        count == |old(removing)|
      ensures o == Done ==> RemovalProgress(old(removing), |old(removing)|, old(KeyStates(removing)), old(Channels(removing)), old(newSessions), F)
      ensures forall x :: x in newSessions ==> x in old(newSessions)
      ensures forall x :: x in old(newSessions) && x !in old(removing) ==> x in newSessions
      ensures disposing == old(disposing) && disposed == old(disposed) && flushing == old(flushing)
      ensures writeInterest == old(writeInterest) && nbTries == old(nbTries) && lastIdleCheckTime == old(lastIdleCheckTime)
      ensures controller.handler == old(controller.handler) && controller.disposing == old(controller.disposing)
      ensures controller.disposed == old(controller.disposed)
      ensures old(ActivationTracksSessions()) ==> ActivationTracksSessions()
    {
      ghost var R := removing;
      ghost var kv0 := KeyStates(R);
      ghost var ch0 := Channels(R);
      ghost var allOk := forall k :: 0 <= k < |R| ==> DestroyFault(R[k].channel, closeFault(R[k])).None?;
      assert RemovalProgress(R, 0, kv0, ch0, newSessions, F);
      ghost var i;
      count, o, i := RemoveLoop(closeFault, F, R, kv0, ch0, newSessions, allOk);
      if o.Threw? {
        assert |R| - |removing| == i;
      }
    }

    /** The loop of removeSessions, from the start of the removal queue R. */
    method RemoveLoop(closeFault: Session -> Option<Exn>, ghost F: set<Future>, ghost R: seq<Session>,
                      ghost kv0: seq<Option<bool>>, ghost ch0: seq<Option<Channel>>, ghost ns0: seq<Session>, ghost allOk: bool)
      returns (count: int, o: Outcome, ghost i: int)
      requires RemovalProgress(R, 0, kv0, ch0, ns0, F) && NoDup(R)
      requires allOk ==> forall k :: 0 <= k < |R| ==> DestroyFault(ch0[k], closeFault(R[k])).None?
      modifies this, controller, (set x | x in R), F
      ensures o == Done ==> RemovalProgress(R, |R|, kv0, ch0, ns0, F)
      ensures o.Threw? ==> 0 < i <= |R| && removing == R[i..]
      ensures 0 <= count <= |R| && (o == Done && allOk ==> count == |R|)
      ensures (forall x :: x in newSessions ==> x in ns0) && forall x :: x in ns0 && x !in R ==> x in newSessions
      ensures KeepsOutside(old(Fields()), old(controller.handler), old(controller.disposing), old(controller.disposed))
      ensures old(ActivationTracksSessions()) ==> ActivationTracksSessions()
    {
      count := 0;
      o := Done;
      i := 0;
      ghost var f0, h0, d0, dd0, t0 := Fields(), controller.handler, controller.disposing, controller.disposed, ActivationTracksSessions();
      while removing != []
        invariant RemovalProgress(R, i, kv0, ch0, ns0, F)
        invariant 0 <= count <= i && (allOk ==> count == i)
        invariant KeepsOutside(f0, h0, d0, dd0) && (t0 ==> ActivationTracksSessions())
        decreases |R| - i
      {
        var step;
        count, step := RemoveTurn(closeFault, F, R, i, count, kv0, ch0, ns0, allOk, f0, h0, d0, dd0, t0);
        i := i + 1;
        if step.Threw? {
          return count, step, i;
        }
      }
    }

    /** One turn of the removeSessions loop: the head of the queue, R[i], is removed. */
    method RemoveTurn(closeFault: Session -> Option<Exn>, ghost F: set<Future>, ghost R: seq<Session>, ghost i: int, count: int,
                      ghost kv0: seq<Option<bool>>, ghost ch0: seq<Option<Channel>>, ghost ns0: seq<Session>, ghost allOk: bool,
                      ghost f0: ProcessorFields, ghost h0: FilterEvents.IOHandler, ghost d0: bool, ghost dd0: bool, ghost t0: bool)
      returns (count': int, o: Outcome)
      requires RemovalProgress(R, i, kv0, ch0, ns0, F) && NoDup(R) && removing != []
      requires allOk ==> forall k :: 0 <= k < |R| ==> DestroyFault(ch0[k], closeFault(R[k])).None?
      requires 0 <= count <= i && (allOk ==> count == i)
      requires KeepsOutside(f0, h0, d0, dd0) && (t0 ==> ActivationTracksSessions())
      modifies this, controller, (set x | x in R), F
      ensures 0 <= count' <= i + 1 && (o == Done && allOk ==> count' == i + 1)
      ensures o == Done ==> RemovalProgress(R, i + 1, kv0, ch0, ns0, F)
      ensures o.Threw? ==> removing == R[i + 1..]
      ensures o.Threw? ==> (forall x :: x in newSessions ==> x in ns0) && forall x :: x in ns0 && x !in R ==> x in newSessions
      ensures KeepsOutside(f0, h0, d0, dd0) && (t0 ==> ActivationTracksSessions())
    {
      assert removing[0] == R[i];
      assert forall k :: 0 <= k < |R| && k != i ==> R[k] != R[i];
      assert allOk ==> DestroyFault(ch0[i], closeFault(R[i])).None?;
      var counted;
      counted, o := RemoveHead(closeFault(removing[0]), F, R, i, kv0, ch0, ns0, f0, h0, d0, dd0, t0);
      count' := if counted then count + 1 else count;
    }

    /**
     * readFrom: the read buffer is cleared and filled by the read loop,
     * then flipped whatever happens. Reading anything updates the last
     * read time and fires messageReceived with the buffer; a negative last
     * read fires inputClosed. A read that throws is reported on the chain,
     * and an IOException other than PortUnreachableException schedules the
     * session for removal. `script` answers the reads in turn.
     */
    method ReadFrom(s: Session, script: seq<ReadResult>, now: int)
      requires s.Valid()
      modifies this, s, s.readBuffer
      ensures s.Valid()
      ensures var cap := ReadCapacity(old(s.readBuffer.hasBuffer), old(|s.readBuffer.bytes|), s.config.readBufferSize);
        var (got, end) := ReadLoop(script, cap);
        s.readBuffer.hasBuffer && |s.readBuffer.bytes| == cap && s.readBuffer.pos == 0 && s.readBuffer.lim == |got|
        && s.readBuffer.bytes[..|got|] == got
        && s.Fields() == old(s.Fields()).(clock := if end.Stopped? && |got| > 0 then ReadAt(old(s.clock), now) else old(s.clock),
             fired := old(s.fired) + ReadCalls(|got|, end, s.readBuffer.View()))
        && Fields() == old(Fields()).(removing := if RemovesOnReadError(end) then Enqueued(old(removing), s) else old(removing))
    {
      var end, readBytes := FillReadBuffer(s, script);
      ReportRead(s, end, readBytes, now);
    }

    /** The second half of readFrom: the chain calls, the read time and the removal after an exception. */
    method ReportRead(s: Session, end: ReadEnd, readBytes: int, now: int)
      requires s.readBuffer.Valid()
      modifies this, s
      ensures s.Fields() == old(s.Fields()).(clock := if end.Stopped? && readBytes > 0 then ReadAt(old(s.clock), now) else old(s.clock),
        fired := old(s.fired) + ReadCalls(readBytes, end, s.readBuffer.View()))
      ensures Fields() == old(Fields()).(removing := if RemovesOnReadError(end) then Enqueued(old(removing), s) else old(removing))
    {
      var buf := s.readBuffer;
      if end.ReadFailed? {
        if end.cause.IsIOException() && end.cause.kind != PortUnreachable {
          ScheduleRemove(s);
        }
        s.Fire(FireExceptionCaught(end.cause));
        return;
      }
      if readBytes > 0 {
        s.UpdateReadTime(now);
        s.Fire(FireMessageReceived(BufferMessage(buf.View())));
      }
      if end.ret < 0 {
        s.Fire(FireInputClosed);
      }
    }

    /**
     * The buffer work of readFrom: getReadIOBuffer, clear, the read loop
     * and the flip. readBytes is the loop's running total.
     */
    static method FillReadBuffer(s: Session, script: seq<ReadResult>) returns (end: ReadEnd, readBytes: int)
      requires s.Valid()
      modifies s.readBuffer
      ensures s.Valid()
      ensures var cap := ReadCapacity(old(s.readBuffer.hasBuffer), old(|s.readBuffer.bytes|), s.config.readBufferSize);
        var r := ReadLoop(script, cap);
        end == r.1 && readBytes == |r.0|
        && s.readBuffer.hasBuffer && |s.readBuffer.bytes| == cap && s.readBuffer.pos == 0 && s.readBuffer.lim == |r.0|
        && s.readBuffer.bytes[..|r.0|] == r.0
    {
      var buf := s.GetIOBuffer();
      buf.Clear();
      end := ReadInto(buf, script);
      readBytes := buf.pos;
      buf.Flip();
    }

    /** setInterestedInWrite: sets or clears OP_WRITE; a session without a valid key is left alone. */
    method SetInterestedInWrite(s: Session, interested: bool)
      modifies this
      ensures Fields() == old(Fields()).(writeInterest :=
        if s.keyValid != Some(true) then old(writeInterest)
        else if interested then old(writeInterest) + {s} else old(writeInterest) - {s})
    {
      if s.keyValid != Some(true) {
        return;
      }
      if interested {
        writeInterest := writeInterest + {s};
      } else {
        writeInterest := writeInterest - {s};
      }
    }

    /**
     * writeBuffer's failure path: the channel threw an IOException, so the
     * session is closed and removed and -1 is returned; an exception from
     * removeNow escapes instead. A session closed before is only removed.
     */
    method FailWrite(s: Session, closeFault: Option<Exn>) returns (r: Result<int>)
      modifies this, controller, s, s.Pending()
      ensures r == Ok(-1) || r.Err?
      ensures Closable(old(s.state)) ==> (r == Ok(-1) && managed == old(managed) - {s.id}
        && s.Fields() == old(s.Fields()).(state := SState.Closing, writeQueue := [], keyValid := Cancelled(old(s.keyValid)),
             fired := old(s.fired) + [FireFilterClose] + DestroyCalls(DestroyFault(old(s.channel), closeFault), s.id in old(managed))))
      ensures s.current == old(s.current) && s.scheduledForFlush == old(s.scheduledForFlush) && s.config == old(s.config)
      ensures Fields() == old(Fields()).(managed := managed)
      ensures controller.handler == old(controller.handler) && controller.disposing == old(controller.disposing)
      ensures controller.disposed == old(controller.disposed)
      ensures old(ActivationTracksSessions()) ==> ActivationTracksSessions()
    {
      var _ := s.CloseNow();
      var removed, o := RemoveNow(s, closeFault);
      if o.Threw? {
        return Err(o.exn);
      }
      r := Ok(-1);
    }

    /**
     * writeBuffer: the packet's buffer is offered at most maxLength bytes
     * (see Offer). An IOException from the channel closes and removes the
     * session (FailWrite); any other exception escapes. Bytes written
     * update the session's write time.
     */
    method WriteBuffer(s: Session, p: Packet, maxLength: int, w: WriteResult, closeFault: Option<Exn>, now: int)
      returns (r: Result<int>)
      requires p.message.BufferMessage?
      modifies this, controller, s, s.Pending(), p
      ensures var (b2, res) := Offer(old(p.message.buf), maxLength, w);
        p.message == BufferMessage(b2)
        && (res.Ok? ==> (r == res && Fields() == old(Fields()) && controller.activated == old(controller.activated)
              && s.Fields() == old(s.Fields()).(clock := if res.value > 0 then WrittenAt(old(s.clock), now) else old(s.clock))))
        && (res.Err? && !res.exn.IsIOException() ==> (r == res && Fields() == old(Fields())
              && controller.activated == old(controller.activated) && s.Fields() == old(s.Fields())))
        && (res.Err? && res.exn.IsIOException() ==> ((r == Ok(-1) || r.Err?)
              && (Closable(old(s.state)) ==> (r == Ok(-1) && managed == old(managed) - {s.id} && s.state == SState.Closing
                    && s.writeQueue == [] && s.keyValid == Cancelled(old(s.keyValid))))))
      ensures p.startTime == old(p.startTime)
      ensures s.current == old(s.current) && s.scheduledForFlush == old(s.scheduledForFlush) && s.config == old(s.config)
      ensures Fields() == old(Fields()).(managed := managed)
      ensures controller.handler == old(controller.handler) && controller.disposing == old(controller.disposing)
      ensures controller.disposed == old(controller.disposed)
      ensures old(ActivationTracksSessions()) ==> ActivationTracksSessions()
    {
      var offered := Offer(p.message.buf, maxLength, w);
      p.SetMessage(BufferMessage(offered.0));
      var res := offered.1;
      if res.Err? {
        if res.exn.IsIOException() {
          r := FailWrite(s, closeFault);
          return;
        }
        return res;
      }
      if res.value > 0 {
        s.UpdateWrittenTime(now);
      }
      r := res;
    }

    /**
     * The start of one round of flushNow: the current packet if there is
     * one, else the head of the queue, which becomes current. CLOSE_REQUEST
     * at the head closes the session instead, and that, like an empty
     * queue, gives no packet.
     */
    static method TakePacket(s: Session) returns (p: Option<Packet>)
      requires s.state == Ready
      modifies s, s.Pending()
      ensures p.Some? ==> s.current == p && s.state == Ready
      ensures p.None? ==> s.current.None? && s.writeQueue == []
      ensures old(s.current).Some? ==> p == old(s.current) && s.Fields() == old(s.Fields())
      ensures old(s.current).None? && old(s.writeQueue) == [] ==> p.None? && s.Fields() == old(s.Fields())
      ensures old(s.current).None? && old(s.writeQueue) != [] && old(s.writeQueue[0]).Send? ==>
        (p == Some(old(s.writeQueue[0]).packet) && s.Fields() == old(s.Fields()).(writeQueue := old(s.writeQueue)[1..], current := p))
      ensures old(s.current).None? && old(s.writeQueue) != [] && old(s.writeQueue[0]).CloseRequest? ==>
        (p.None? && s.Fields() == AfterCloseNow(old(s.Fields()).(writeQueue := old(s.writeQueue)[1..])))
      ensures Packets(s.current, s.writeQueue) <= old(Packets(s.current, s.writeQueue))
      ensures PacketFutures(s.current, s.writeQueue) <= old(PacketFutures(s.current, s.writeQueue))
      ensures s.scheduledForFlush == old(s.scheduledForFlush) && s.keyValid == old(s.keyValid)
    {
      p := s.current;
      if p.Some? {
        return;
      }
      ghost var q := s.writeQueue;
      var head := s.PollWriteQueue();
      if head.None? {
        return;
      }
      if head.value.CloseRequest? {
        var _ := s.CloseNow();
        return None;
      }
      p := Some(head.value.packet);
      s.SetCurrentWritePacket(p);
      HeadBecomesCurrent(q);
    }

    /**
     * writeBuffer with what is left of the budget, seen from flushNow:
     * it writes no more than the budget allows, and a failed write (-1)
     * has closed and removed the session and left the buffer with bytes
     * to write.
     */
    method WriteWithin(s: Session, p: Packet, written: int, max: int, w: WriteResult, closeFault: Option<Exn>, now: int)
      returns (r: Result<int>)
      requires s.state == Ready && p.message.BufferMessage?
      requires 0 <= written && (written > 0 ==> written < max)
      modifies this, controller, s, s.Pending(), p
      ensures p.message.BufferMessage?
      ensures r.Ok? ==> r.value == -1 || (0 <= r.value && written + r.value <= Budget(max))
      ensures r.Ok? ==> p.message.buf.hasBuffer
      ensures r.Ok? && r.value > 0 ==> w.Wrote? && w.n > 0 && old(p.message.buf.HasRemaining()) == Ok(true)
      ensures r == Ok(-1) ==> (p.message.buf.pos < p.message.buf.lim && managed == old(managed) - {s.id}
        && s.state == SState.Closing && s.writeQueue == [] && s.keyValid == Cancelled(old(s.keyValid)))
      ensures r != Ok(-1) ==> (managed == old(managed) && controller.activated == old(controller.activated)
        && s.state == Ready && s.writeQueue == old(s.writeQueue) && s.keyValid == old(s.keyValid))
      ensures s.current == old(s.current) && s.scheduledForFlush == old(s.scheduledForFlush) && s.config == old(s.config)
      ensures Fields() == old(Fields()).(managed := managed)
      ensures controller.handler == old(controller.handler) && controller.disposing == old(controller.disposing)
      ensures controller.disposed == old(controller.disposed)
      ensures old(ActivationTracksSessions()) ==> ActivationTracksSessions()
    {
      ghost var b := p.message.buf;
      if max - written >= 0 {
        OfferWithinBudget(b, max - written, w);
      } else if b.hasBuffer && b.pos < b.lim {
        NegativeOfferRewinds(b, Min(b.lim - b.pos, max - written), w);
      }
      r := WriteBuffer(s, p, max - written, w, closeFault, now);
    }

    /**
     * The write of one round of flushNow (WriteWithin), after which a
     * buffer left empty is taken out of the current slot and reported
     * sent (`sent` is how that went). Also returns whether the buffer
     * still has bytes to write.
     */
    method SendBuffer(s: Session, p: Packet, written: int, max: int, w: WriteResult, closeFault: Option<Exn>, now: int)
      returns (r: Result<int>, has: bool, sent: Outcome)
      requires s.current == Some(p) && s.state == Ready && p.message.BufferMessage?
      requires 0 <= written && (written > 0 ==> written < max)
      modifies this, controller, s, s.Pending(), p, if p.future.Some? then {p.future.value} else {}
      ensures r.Ok? ==> r.value == -1 || (0 <= r.value && written + r.value <= Budget(max))
      ensures r == Ok(-1) ==> (has && managed == old(managed) - {s.id} && s.state == SState.Closing
        && s.writeQueue == [] && s.keyValid == Cancelled(old(s.keyValid)))
      ensures r != Ok(-1) ==> (managed == old(managed) && controller.activated == old(controller.activated)
        && s.state == Ready && s.writeQueue == old(s.writeQueue) && s.keyValid == old(s.keyValid))
      ensures r.Ok? && has ==> s.current == Some(p) && StillToWrite(p)
      ensures r.Ok? && !has ==> s.current.None?
      ensures r.Err? ==> s.current == Some(p) && sent == Done
      ensures sent.Threw? ==> r.Ok? && !has
      ensures r.Ok? && r.value > 0 ==> w.Wrote? && w.n > 0 && old(StillToWrite(p))
      ensures s.scheduledForFlush == old(s.scheduledForFlush) && s.config == old(s.config)
      ensures Fields() == old(Fields()).(managed := managed)
      ensures controller.handler == old(controller.handler) && controller.disposing == old(controller.disposing)
      ensures controller.disposed == old(controller.disposed)
      ensures old(ActivationTracksSessions()) ==> ActivationTracksSessions()
    {
      sent := Done;
      has := true;
      r := WriteWithin(s, p, written, max, w, closeFault, now);
      if r.Err? {
        return;
      }
      has := p.message.buf.lim > p.message.buf.pos;
      if !has {
        s.SetCurrentWritePacket(None);
        sent := s.FireSent(p);
      }
    }

    /**
     * The rest of one round of flushNow, on the current packet `p`: a
     * message that is not an IoBuffer throws; a buffer is written
     * (SendRound).
     */
    method WriteCurrent(s: Session, p: Packet, written: int, max: int, w: WriteResult, closeFault: Option<Exn>, now: int)
      returns (next: AfterWrite, per: int)
      requires s.current == Some(p) && s.state == Ready
      requires 0 <= written && (written > 0 ==> written < max)
      modifies this, controller, s, s.Pending(), p, if p.future.Some? then {p.future.value} else {}
      ensures !old(p.message).BufferMessage? ==> next == Stop(Failed(UnknownMessage(old(p.message))))
      ensures next.Again? ==> (next.total == written + per && written < next.total < max && s.state == Ready
        && s.current.None? && s.writeQueue == old(s.writeQueue) && Fields() == old(Fields())
        && s.scheduledForFlush == old(s.scheduledForFlush) && s.keyValid == old(s.keyValid)
        && controller.activated == old(controller.activated) && controller.handler == old(controller.handler)
        && controller.disposing == old(controller.disposing) && controller.disposed == old(controller.disposed))
      ensures next.Stop? ==> FlushEnded(s, max, old(Fields()), old(s.scheduledForFlush), old(s.keyValid), Fields(), s.Fields(),
        next.why, written + if per > 0 then per else 0)
      ensures next.Stop? && !next.why.Failed? && s.current.Some? ==> StillToWrite(s.current.value)
      ensures next == Stop(BudgetUsed) ==> w.Wrote? && w.n > 0 && old(StillToWrite(p))
      ensures controller.handler == old(controller.handler) && controller.disposing == old(controller.disposing)
      ensures controller.disposed == old(controller.disposed)
      ensures old(ActivationTracksSessions()) ==> ActivationTracksSessions()
      ensures s.current.Some? ==> s.current == Some(p)
      ensures s.writeQueue == old(s.writeQueue) || s.writeQueue == []
      ensures Packets(s.current, s.writeQueue) <= old(Packets(s.current, s.writeQueue))
      ensures PacketFutures(s.current, s.writeQueue) <= old(PacketFutures(s.current, s.writeQueue))
    {
      if !p.message.BufferMessage? {
        return Stop(Failed(UnknownMessage(p.message))), 0;
      }
      next, per := SendRound(s, p, written, max, w, closeFault, now);
    }

    /**
     * A round of flushNow on a current IoBuffer: it is written
     * (SendBuffer); an exception from the write or from messageSent ends
     * the flush, a failed write (-1) too, and otherwise Settle decides.
     */
    method SendRound(s: Session, p: Packet, written: int, max: int, w: WriteResult, closeFault: Option<Exn>, now: int)
      returns (next: AfterWrite, per: int)
      requires s.current == Some(p) && s.state == Ready && p.message.BufferMessage?
      requires 0 <= written && (written > 0 ==> written < max)
      modifies this, controller, s, s.Pending(), p, if p.future.Some? then {p.future.value} else {}
      ensures next.Again? ==> (next.total == written + per && written < next.total < max && s.state == Ready
        && s.current.None? && s.writeQueue == old(s.writeQueue) && Fields() == old(Fields())
        && s.scheduledForFlush == old(s.scheduledForFlush) && s.keyValid == old(s.keyValid)
        && controller.activated == old(controller.activated) && controller.handler == old(controller.handler)
        && controller.disposing == old(controller.disposing) && controller.disposed == old(controller.disposed))
      ensures next.Stop? ==> FlushEnded(s, max, old(Fields()), old(s.scheduledForFlush), old(s.keyValid), Fields(), s.Fields(),
        next.why, written + if per > 0 then per else 0)
      ensures next.Stop? && !next.why.Failed? && s.current.Some? ==> StillToWrite(s.current.value)
      ensures next == Stop(BudgetUsed) ==> w.Wrote? && w.n > 0 && old(StillToWrite(p))
      ensures controller.handler == old(controller.handler) && controller.disposing == old(controller.disposing)
      ensures controller.disposed == old(controller.disposed)
      ensures old(ActivationTracksSessions()) ==> ActivationTracksSessions()
      ensures s.current.Some? ==> s.current == Some(p)
      ensures s.writeQueue == old(s.writeQueue) || s.writeQueue == []
    {
      var r, has, sent := SendBuffer(s, p, written, max, w, closeFault, now);
      if r.Err? {
        return Stop(Failed(r.exn)), 0;
      }
      per := r.value;
      if sent.Threw? {
        return Stop(Failed(sent.exn)), per;
      }
      next := Settle(s, per, has, written, max);
    }

    /**
     * flushNow after a write that did not fail: NextFlush decides, OP_WRITE
     * is set again when the kernel took part of the buffer or none of it,
     * and a flush that used up its budget is rescheduled.
     */
    method Settle(s: Session, per: int, has: bool, written: int, max: int) returns (next: AfterWrite)
      modifies this, s
      ensures next == NextFlush(per, has, written, max)
      ensures Fields() == old(Fields()).(
        flushing := if next == Stop(BudgetUsed) && !old(s.scheduledForFlush) then old(flushing) + [s] else old(flushing),
        writeInterest := if next == Stop(KernelFull) && s.keyValid == Some(true) then old(writeInterest) + {s} else old(writeInterest))
      ensures s.Fields() == old(s.Fields()).(scheduledForFlush := old(s.scheduledForFlush) || next == Stop(BudgetUsed))
    {
      next := NextFlush(per, has, written, max);
      if next == Stop(KernelFull) {
        SetInterestedInWrite(s, true);
      } else if next == Stop(BudgetUsed) {
        ScheduleFlush(s);
      }
    }

    /**
     * One round of flushNow's loop: TakePacket, then WriteCurrent. Either
     * the flush goes round again with a larger total, still below
     * maxWriteBytes, having changed nothing of the processor's, or it has
     * ended (FlushEnded). `used` tells whether the write was offered to
     * the channel.
     */
    method FlushRound(s: Session, max: int, written: int, w: WriteResult, closeFault: Option<Exn>, now: int)
      returns (next: AfterWrite, used: bool, ghost total: int)
      requires s.state == Ready
      requires 0 <= written && (written > 0 ==> written < max)
      modifies this, controller, s, Packets(s.current, s.writeQueue), PacketFutures(s.current, s.writeQueue)
      ensures next.Again? ==> (written < next.total < max && s.state == Ready && Fields() == old(Fields())
        && s.scheduledForFlush == old(s.scheduledForFlush) && s.keyValid == old(s.keyValid)
        && controller.activated == old(controller.activated) && controller.handler == old(controller.handler)
        && controller.disposing == old(controller.disposing) && controller.disposed == old(controller.disposed))
      ensures Packets(s.current, s.writeQueue) <= old(Packets(s.current, s.writeQueue))
      ensures PacketFutures(s.current, s.writeQueue) <= old(PacketFutures(s.current, s.writeQueue))
      ensures next.Stop? ==> FlushEnded(s, max, old(Fields()), old(s.scheduledForFlush), old(s.keyValid), Fields(), s.Fields(), next.why, total)
      ensures next.Stop? && !next.why.Failed? && s.current.Some? ==> StillToWrite(s.current.value)
      ensures next == Stop(BudgetUsed) ==> used && w.Wrote? && w.n > 0
      ensures controller.handler == old(controller.handler) && controller.disposing == old(controller.disposing)
      ensures controller.disposed == old(controller.disposed)
      ensures old(ActivationTracksSessions()) ==> ActivationTracksSessions()
    {
      var p := TakePacket(s);
      if p.None? {
        return Stop(Drained), false, written;
      }
      used := p.value.message.BufferMessage? && p.value.message.buf.HasRemaining() == Ok(true);
      var per;
      next, per := WriteCurrent(s, p.value, written, max, w, closeFault, now);
      total := written + (if per > 0 then per else 0);
    }

    /**
     * flushNow, with a failed write ending the flush (AfterWriteAsWritten
     * shows the code as it stands). A session that is not READY is
     * scheduled for removal. Otherwise OP_WRITE is cleared and rounds of
     * writing (FlushRound) go on until one ends the flush: the queue runs
     * out or a close request empties it (true), the kernel stops taking
     * bytes (OP_WRITE set again), maxWriteBytes have been written (the
     * flush rescheduled), a write fails (false), or an exception escapes.
     * `script` answers the channel's writes in order, Wrote(0) once it
     * runs out; `why` and `written` record why the flush stopped and how
     * many bytes it wrote.
     */
    method FlushNow(s: Session, script: seq<WriteResult>, closeFault: Option<Exn>, now: int)
      returns (r: Result<bool>, ghost why: FlushEnd, ghost written: int, consumed: nat)
      modifies this, controller, s, Packets(s.current, s.writeQueue), PacketFutures(s.current, s.writeQueue)
      ensures why == NotReady <==> old(s.state) != Ready
      ensures why == NotReady ==> (r == Ok(false) && s.Fields() == old(s.Fields())
        && Fields() == old(Fields()).(removing := Enqueued(old(removing), s)))
      ensures why != NotReady ==> r == FlushResult(why) && removing == old(removing)
      ensures 0 <= written <= Budget(old(s.config.maxWriteBytes))
      ensures consumed <= |script| && (why == BudgetUsed ==> consumed > 0)
      ensures Packets(s.current, s.writeQueue) <= old(Packets(s.current, s.writeQueue))
      ensures PacketFutures(s.current, s.writeQueue) <= old(PacketFutures(s.current, s.writeQueue))
      ensures why == BudgetUsed ==> (written == old(s.config.maxWriteBytes) && s.scheduledForFlush
        && flushing == old(flushing) + if old(s.scheduledForFlush) then [] else [s])
      ensures why != BudgetUsed ==> flushing == old(flushing) && s.scheduledForFlush == old(s.scheduledForFlush)
      ensures why == Drained ==> s.writeQueue == [] && s.current.None?
      ensures why != NotReady ==> (writeInterest ==
        var cleared := if old(s.keyValid) == Some(true) then old(writeInterest) - {s} else old(writeInterest);
        if why == KernelFull && s.keyValid == Some(true) then cleared + {s} else cleared)
      ensures why == WriteFailed ==> s.state == SState.Closing && managed == old(managed) - {s.id}
      ensures why != WriteFailed ==> managed == old(managed)
      ensures why != NotReady && r.Ok? && s.current.Some? ==> StillToWrite(s.current.value)
      ensures Fields() == old(Fields()).(removing := removing, flushing := flushing, managed := managed, writeInterest := writeInterest)
      ensures controller.handler == old(controller.handler) && controller.disposing == old(controller.disposing)
      ensures controller.disposed == old(controller.disposed)
      ensures old(ActivationTracksSessions()) ==> ActivationTracksSessions()
    {
      if s.state != Ready {
        ScheduleRemove(s);
        return Ok(false), NotReady, 0, 0;
      }
      var max := s.config.maxWriteBytes;
      SetInterestedInWrite(s, false);
      var ended;
      ended, written, consumed := FlushLoop(s, max, script, closeFault, now);
      r, why := FlushResult(ended), ended;
    }

    /** The rounds of flushNow's loop, until one ends the flush. */
    method FlushLoop(s: Session, max: int, script: seq<WriteResult>, closeFault: Option<Exn>, now: int)
      returns (why: FlushEnd, ghost written: int, consumed: nat)
      requires s.state == Ready
      modifies this, controller, s, Packets(s.current, s.writeQueue), PacketFutures(s.current, s.writeQueue)
      ensures FlushEnded(s, max, old(Fields()), old(s.scheduledForFlush), old(s.keyValid), Fields(), s.Fields(), why, written)
      ensures !why.Failed? && s.current.Some? ==> StillToWrite(s.current.value)
      ensures consumed <= |script| && (why == BudgetUsed ==> consumed > 0)
      ensures Packets(s.current, s.writeQueue) <= old(Packets(s.current, s.writeQueue))
      ensures PacketFutures(s.current, s.writeQueue) <= old(PacketFutures(s.current, s.writeQueue))
      ensures controller.handler == old(controller.handler) && controller.disposing == old(controller.disposing)
      ensures controller.disposed == old(controller.disposed)
      ensures old(ActivationTracksSessions()) ==> ActivationTracksSessions()
    {
      var writtenBytes := 0;
      ghost var f0, flag0, key0 := Fields(), s.scheduledForFlush, s.keyValid;
      ghost var P0, F0 := Packets(s.current, s.writeQueue), PacketFutures(s.current, s.writeQueue);
      ghost var t0 := ActivationTracksSessions();
      var k := 0;
      why, written, consumed := NotReady, 0, 0;
      var more := true;
      while more
        invariant k <= |script| && Packets(s.current, s.writeQueue) <= P0 && PacketFutures(s.current, s.writeQueue) <= F0
        invariant controller.handler == old(controller.handler) && controller.disposing == old(controller.disposing)
        invariant controller.disposed == old(controller.disposed) && (t0 ==> ActivationTracksSessions())
        invariant more ==> (s.state == Ready && 0 <= writtenBytes && (writtenBytes > 0 ==> writtenBytes < max)
          && Fields() == f0 && s.scheduledForFlush == flag0 && s.keyValid == key0
          && controller.activated == old(controller.activated))
        invariant !more ==> (FlushEnded(s, max, f0, flag0, key0, Fields(), s.Fields(), why, written)
          && (!why.Failed? && s.current.Some? ==> StillToWrite(s.current.value))
          && consumed <= |script| && (why == BudgetUsed ==> consumed > 0))
        decreases more, (if max > writtenBytes then max - writtenBytes else 0) + (if writtenBytes == 0 then 1 else 0)
      {
        var w := if k < |script| then script[k] else Wrote(0);
        var next, used, total := FlushRound(s, max, writtenBytes, w, closeFault, now);
        if used && k < |script| {
          k := k + 1;
        }
        if next.Stop? {
          why, written, consumed := next.why, total, k;
          more := false;
        } else {
          writtenBytes := next.total;
        }
      }
    }

    /**
     * The OPENED case of the flush pass: flushNow, and when it throws the
     * session is scheduled for removal, closed, and the exception is
     * reported on its chain. Only a flush that used its budget puts the
     * session back in the flush queue.
     */
    method FlushOpened(s: Session, script: seq<WriteResult>, closeFault: Option<Exn>, now: int)
      returns (consumed: nat, failure: Option<Exn>, ghost why: FlushEnd)
      requires !s.scheduledForFlush
      modifies this, controller, s, Packets(s.current, s.writeQueue), PacketFutures(s.current, s.writeQueue)
      ensures consumed <= |script| && (why == BudgetUsed ==> consumed > 0)
      ensures failure.Some? <==> why.Failed?
      ensures failure.Some? ==> (failure.value == why.cause && |s.fired| > 0
        && s.fired[|s.fired| - 1] == FireExceptionCaught(why.cause))
      ensures flushing == old(flushing) + (if why == BudgetUsed then [s] else [])
      ensures s.scheduledForFlush == (why == BudgetUsed)
      ensures removing == if why == NotReady || why.Failed? then Enqueued(old(removing), s) else old(removing)
      ensures managed == if why == WriteFailed then old(managed) - {s.id} else old(managed)
      ensures Packets(s.current, s.writeQueue) <= old(Packets(s.current, s.writeQueue))
      ensures PacketFutures(s.current, s.writeQueue) <= old(PacketFutures(s.current, s.writeQueue))
      ensures disposing == old(disposing) && disposed == old(disposed) && newSessions == old(newSessions)
      ensures nbTries == old(nbTries) && lastIdleCheckTime == old(lastIdleCheckTime)
      ensures controller.handler == old(controller.handler) && controller.disposing == old(controller.disposing)
      ensures controller.disposed == old(controller.disposed)
      ensures old(ActivationTracksSessions()) ==> ActivationTracksSessions()
    {
      var r;
      ghost var written;
      r, why, written, consumed := FlushNow(s, script, closeFault, now);
      failure := None;
      if r.Err? {
        AbortFlush(s, r.exn);
        failure := Some(r.exn);
      }
    }

    /**
     * The flush pass's answer to an exception from flushNow: the session
     * is scheduled for removal and closed, and the exception goes to its
     * chain. Nothing it still had to write is added.
     */
    method AbortFlush(s: Session, e: Exn)
      modifies this, s, s.Pending()
      ensures Fields() == old(Fields()).(removing := Enqueued(old(removing), s))
      ensures s.Fields() == AfterCloseNow(old(s.Fields())).(fired := AfterCloseNow(old(s.Fields())).fired + [FireExceptionCaught(e)])
      ensures Packets(s.current, s.writeQueue) <= old(Packets(s.current, s.writeQueue))
      ensures PacketFutures(s.current, s.writeQueue) <= old(PacketFutures(s.current, s.writeQueue))
    {
      ScheduleRemove(s);
      var _ := s.CloseNow();
      s.Fire(FireExceptionCaught(e));
    }

    /**
     * One session of the flush pass: its flag is cleared, then, by the
     * state of its key, it is flushed (OPENED), skipped (CLOSING), or
     * put back in the flush queue to wait for its registration (OPENING),
     * which ends the pass.
     */
    method FlushOne(s: Session, script: seq<WriteResult>, closeFault: Option<Exn>, now: int)
      returns (stop: bool, consumed: nat)
      modifies this, controller, s, Packets(s.current, s.writeQueue), PacketFutures(s.current, s.writeQueue)
      ensures stop <==> old(s.keyValid).None?
      ensures consumed <= |script| && (StateOf(old(s.keyValid)) != Opened ==> consumed == 0)
      ensures flushing == old(flushing) || (flushing == old(flushing) + [s] && (stop || consumed > 0))
      ensures s.scheduledForFlush <==> flushing != old(flushing)
      ensures StateOf(old(s.keyValid)) == SessionState.Closing ==>
        Fields() == old(Fields()) && s.Fields() == old(s.Fields()).(scheduledForFlush := false)
      ensures StateOf(old(s.keyValid)) == Opening ==>
        Fields() == old(Fields()).(flushing := old(flushing) + [s]) && s.Fields() == old(s.Fields()).(scheduledForFlush := true)
      ensures forall x :: x in old(removing) ==> x in removing
      ensures managed.Keys <= old(managed).Keys
      ensures Packets(s.current, s.writeQueue) <= old(Packets(s.current, s.writeQueue))
      ensures PacketFutures(s.current, s.writeQueue) <= old(PacketFutures(s.current, s.writeQueue))
      ensures s.keyValid == old(s.keyValid) || StateOf(old(s.keyValid)) == Opened
      ensures disposing == old(disposing) && disposed == old(disposed) && newSessions == old(newSessions)
      ensures nbTries == old(nbTries) && lastIdleCheckTime == old(lastIdleCheckTime)
      ensures controller.handler == old(controller.handler) && controller.disposing == old(controller.disposing)
      ensures controller.disposed == old(controller.disposed)
      ensures old(ActivationTracksSessions()) ==> ActivationTracksSessions()
    {
      var _ := s.SetScheduledForFlush(false);
      stop, consumed := false, 0;
      match StateOf(s.keyValid)
      case Opened =>
        var failure;
        ghost var why;
        consumed, failure, why := FlushOpened(s, script, closeFault, now);
      case Closing =>
      case Opening =>
        ScheduleFlush(s);
        stop := true;
    }

    /** The packets of the given sessions: those a flush of them may touch. */
    ghost function AllPackets(S: set<Session>): set<Packet>
      reads S
    {
      set x, p | x in S && p in Packets(x.current, x.writeQueue) :: p
    }

    /** Their futures. */
    ghost function AllFutures(S: set<Session>): set<Future>
      reads S
    {
      set x, f | x in S && f in PacketFutures(x.current, x.writeQueue) :: f
    }

    /** Each session's futures are among those of a set it belongs to. */
    lemma AllFuturesCover(S: set<Session>)
      ensures forall x :: x in S ==> PacketFutures(x.current, x.writeQueue) <= AllFutures(S)
    {
    }

    /** Every session of S has its packets within P0 and their futures within F0. */
    ghost predicate FlushFrame(S: set<Session>, P0: set<Packet>, F0: set<Future>)
      reads S
    {
      forall x :: x in S ==> Packets(x.current, x.writeQueue) <= P0 && PacketFutures(x.current, x.writeQueue) <= F0
    }

    /** One turn of the flush pass: poll the head of the flush queue and flush that session. */
    method FlushTurn(script: seq<WriteResult>, closeFault: Session -> Option<Exn>, now: int,
                     ghost S: set<Session>, ghost P0: set<Packet>, ghost F0: set<Future>, ghost ok0: bool)
      returns (s: Session, stop: bool, consumed: nat)
      requires flushing != [] && (forall x :: x in flushing ==> x in S) && FlushFrame(S, P0, F0)
      requires ok0 ==> FlushQueueOk()
      modifies this, controller, S, P0, F0
      ensures (forall x :: x in flushing ==> x in S) && FlushFrame(S, P0, F0)
      ensures ok0 ==> FlushQueueOk()
      ensures consumed <= |script| && |flushing| <= |old(flushing)|
      ensures stop || consumed > 0 || |flushing| < |old(flushing)|
      ensures stop ==> s.keyValid.None? && flushing != [] && flushing[|flushing| - 1] == s && s.scheduledForFlush
      ensures forall x :: x in old(removing) ==> x in removing
      ensures managed.Keys <= old(managed).Keys
      ensures disposing == old(disposing) && disposed == old(disposed) && newSessions == old(newSessions)
      ensures nbTries == old(nbTries) && lastIdleCheckTime == old(lastIdleCheckTime)
      ensures controller.handler == old(controller.handler) && controller.disposing == old(controller.disposing)
      ensures controller.disposed == old(controller.disposed)
      ensures old(ActivationTracksSessions()) ==> ActivationTracksSessions()
    {
      s := flushing[0];
      flushing := flushing[1..];
      stop, consumed := FlushOne(s, script, closeFault(s), now);
    }

    /**
     * flush(curElapsedTime), the ProcessorBee's flush pass: sessions are
     * polled from the flush queue and flushed until it is empty, or until
     * one is found not yet registered (OPENING), which goes back to the
     * end of the queue for a later pass. `script` answers the channel
     * writes of the whole pass in turn; `closeFault` says how destroying
     * each session's channel goes. The pass ends: a session goes back in
     * the queue only after a write of the script has been used.
     */
    method Flush(script: seq<WriteResult>, closeFault: Session -> Option<Exn>, now: int) returns (ghost deferred: Option<Session>)
      modifies this, controller, (set x | x in flushing), AllPackets(set x | x in flushing), AllFutures(set x | x in flushing)
      ensures deferred.None? ==> flushing == []
      ensures deferred.Some? ==> (flushing != [] && flushing[|flushing| - 1] == deferred.value
        && deferred.value.keyValid.None? && deferred.value.scheduledForFlush)
      ensures old(FlushQueueOk()) ==> FlushQueueOk()
      ensures forall x :: x in old(removing) ==> x in removing
      ensures managed.Keys <= old(managed).Keys
      ensures disposing == old(disposing) && disposed == old(disposed) && newSessions == old(newSessions)
      ensures nbTries == old(nbTries) && lastIdleCheckTime == old(lastIdleCheckTime)
      ensures controller.handler == old(controller.handler) && controller.disposing == old(controller.disposing)
      ensures controller.disposed == old(controller.disposed)
      ensures old(ActivationTracksSessions()) ==> ActivationTracksSessions()
    {
      deferred := None;
      if flushing == [] {
        return;
      }
      ghost var S := set x | x in flushing;
      ghost var P0, F0 := AllPackets(S), AllFutures(S);
      ghost var ok0 := FlushQueueOk();
      var rest := script;
      var more := true;
      while more
        invariant (forall x :: x in flushing ==> x in S) && FlushFrame(S, P0, F0)
        invariant more ==> flushing != [] && deferred.None?
        invariant !more && deferred.None? ==> flushing == []
        invariant deferred.Some? ==> (flushing != [] && flushing[|flushing| - 1] == deferred.value
          && deferred.value.keyValid.None? && deferred.value.scheduledForFlush)
        invariant ok0 ==> FlushQueueOk()
        invariant forall x :: x in old(removing) ==> x in removing
        invariant managed.Keys <= old(managed).Keys
        invariant disposing == old(disposing) && disposed == old(disposed) && newSessions == old(newSessions)
        invariant nbTries == old(nbTries) && lastIdleCheckTime == old(lastIdleCheckTime)
        invariant controller.handler == old(controller.handler) && controller.disposing == old(controller.disposing)
        invariant controller.disposed == old(controller.disposed)
        invariant old(ActivationTracksSessions()) ==> ActivationTracksSessions()
        decreases more, |rest|, |flushing|
      {
        var s, stop, consumed := FlushTurn(rest, closeFault, now, S, P0, F0, ok0);
        rest := rest[consumed..];
        if stop {
          deferred := Some(s);
        }
        more := !stop && flushing != [];
      }
    }

    /**
     * One selected key of process(): a readable session is read
     * (readFrom), then a writable one is put in the flush queue when this
     * flips its flag.
     */
    method ProcessKey(k: SelectedKey, now: int)
      requires k.session.Valid()
      modifies this, k.session, k.session.readBuffer
      ensures k.session.Valid()
      ensures !k.readable ==> k.session.Fields() == old(k.session.Fields()).(scheduledForFlush := old(k.session.scheduledForFlush) || k.writable)
      ensures k.readable ==>
        var cap := ReadCapacity(old(k.session.readBuffer.hasBuffer), old(|k.session.readBuffer.bytes|), k.session.config.readBufferSize);
        var (got, end) := ReadLoop(k.answers, cap);
        k.session.readBuffer.pos == 0 && k.session.readBuffer.lim == |got| && k.session.readBuffer.bytes[..|got|] == got
        && k.session.Fields() == old(k.session.Fields()).(
             clock := if end.Stopped? && |got| > 0 then ReadAt(old(k.session.clock), now) else old(k.session.clock),
             fired := old(k.session.fired) + ReadCalls(|got|, end, k.session.readBuffer.View()),
             scheduledForFlush := old(k.session.scheduledForFlush) || k.writable)
        && removing == if RemovesOnReadError(end) then Enqueued(old(removing), k.session) else old(removing)
      ensures k.session.scheduledForFlush == (old(k.session.scheduledForFlush) || k.writable)
      ensures removing == old(removing) || (k.readable && removing == old(removing) + [k.session])
      ensures flushing == old(flushing) + if k.writable && !old(k.session.scheduledForFlush) then [k.session] else []
      ensures Fields() == old(Fields()).(removing := removing, flushing := flushing)
      ensures old(FlushQueueOk()) ==> FlushQueueOk()
    {
      var s := k.session;
      if k.readable {
        ReadFrom(s, k.answers, now);
      }
      if k.writable {
        ScheduleFlush(s);
      }
    }

    /**
     * ProcessKey, seen from the loop of process(): the sessions of the
     * other keys stay valid, even one that shares this one's read buffer.
     */
    method ProcessStep(k: SelectedKey, now: int, ghost keys: set<Session>)
      requires k.session in keys && forall x :: x in keys ==> x.Valid()
      modifies this, k.session, k.session.readBuffer
      ensures forall x :: x in keys ==> x.Valid()
      ensures k.session.scheduledForFlush == (old(k.session.scheduledForFlush) || k.writable)
      ensures removing == old(removing) || (k.readable && removing == old(removing) + [k.session])
      ensures flushing == old(flushing) + if k.writable && !old(k.session.scheduledForFlush) then [k.session] else []
      ensures Fields() == old(Fields()).(removing := removing, flushing := flushing)
      ensures old(FlushQueueOk()) ==> FlushQueueOk()
    {
      ProcessKey(k, now);
    }

    /**
     * process(): every selected key in turn, as ProcessKey. The flush
     * queue only grows, by writable sessions, and still holds each session
     * once; every writable session ends with its flag set; only readable
     * sessions are scheduled for removal (a read that threw an
     * IOException).
     */
    method Process(selected: seq<SelectedKey>, now: int)
      requires forall i :: 0 <= i < |selected| ==> selected[i].session.Valid()
      modifies this, KeySessions(selected), set i | 0 <= i < |selected| :: selected[i].session.readBuffer
      ensures forall x :: x in KeySessions(selected) ==> x.Valid()
      ensures forall x :: x in WritableSessions(selected) ==> x.scheduledForFlush
      ensures |flushing| >= |old(flushing)| && flushing[..|old(flushing)|] == old(flushing)
      ensures forall x :: x in flushing[|old(flushing)|..] ==> x in WritableSessions(selected)
      ensures old(FlushQueueOk()) ==> FlushQueueOk()
      ensures forall x :: x in old(removing) ==> x in removing
      ensures forall x :: x in removing ==> x in old(removing) || x in ReadableSessions(selected)
      ensures Fields() == old(Fields()).(removing := removing, flushing := flushing)
    {
      ghost var keys := KeySessions(selected);
      ProcessLoop(selected, now, keys, FlushQueueOk(), Fields());
    }

    /**
     * What process() has done after the first i keys, from the fields f0
     * and the flush queue's soundness ok0 at its start: W and Rd are the
     * sessions of the writable and (some of the) readable keys so far.
     */
    ghost predicate ProcessPass(selected: seq<SelectedKey>, i: nat, keys: set<Session>, W: set<Session>, Rd: set<Session>,
        ok0: bool, f0: ProcessorFields)
      reads this, keys, W, (set x | x in keys :: x.config), (set x | x in keys :: x.readBuffer), set x | x in flushing
    {
      && i <= |selected|
      && (forall x :: x in keys ==> x.Valid())
      && W == WritableSessions(selected[..i]) && Rd <= ReadableSessions(selected)
      && (forall x :: x in W ==> x.scheduledForFlush)
      && |flushing| >= |f0.flushing| && flushing[..|f0.flushing|] == f0.flushing
      && (forall x :: x in flushing[|f0.flushing|..] ==> x in W)
      && (ok0 ==> FlushQueueOk())
      && (forall x :: x in f0.removing ==> x in removing)
      && (forall x :: x in removing ==> x in f0.removing || x in Rd)
      && Fields() == f0.(removing := removing, flushing := flushing)
    }

    /** The loop of process(), from the keys' sessions, ok0 and f0 at its start. */
    method ProcessLoop(selected: seq<SelectedKey>, now: int, ghost keys: set<Session>, ghost ok0: bool, ghost f0: ProcessorFields)
      requires keys == KeySessions(selected)
      requires ProcessPass(selected, 0, keys, {}, {}, ok0, f0)
      modifies this, keys, set i | 0 <= i < |selected| :: selected[i].session.readBuffer
      ensures exists Rd :: ProcessPass(selected, |selected|, keys, WritableSessions(selected), Rd, ok0, f0)
    {
      ghost var W, Rd: set<Session> := {}, {};
      for i := 0 to |selected|
        invariant ProcessPass(selected, i, keys, W, Rd, ok0, f0)
      {
        W, Rd := ProcessNext(selected, i, now, keys, W, Rd, ok0, f0);
      }
      assert selected[..|selected|] == selected;
    }

    /** One key of process(), extending what the pass has done so far. */
    method ProcessNext(selected: seq<SelectedKey>, i: nat, now: int, ghost keys: set<Session>, ghost W: set<Session>, ghost Rd: set<Session>,
        ghost ok0: bool, ghost f0: ProcessorFields) returns (ghost W': set<Session>, ghost Rd': set<Session>)
      requires i < |selected| && keys == KeySessions(selected)
      requires ProcessPass(selected, i, keys, W, Rd, ok0, f0)
      modifies this, selected[i].session, selected[i].session.readBuffer
      ensures ProcessPass(selected, i + 1, keys, W', Rd', ok0, f0)
    {
      var k := selected[i];
      ProcessStep(k, now, keys);
      WritablePrefix(selected, i);
      W' := if k.writable then W + {k.session} else W;
      Rd' := if k.readable then Rd + {k.session} else Rd;
    }

    /** One session of that step: isActive, then scheduleRemove when it is. */
    method RemoveIfActive(x: Session) returns (active: Result<bool>)
      modifies this
      ensures active == x.IsActive()
      ensures active == Ok(true) ==> x in removing
      ensures removing == old(removing) || (active == Ok(true) && removing == old(removing) + [x])
      ensures Fields() == old(Fields()).(removing := removing)
      ensures NoDup(old(removing)) ==> NoDup(removing)
    {
      active := x.IsActive();
      if active == Ok(true) {
        ScheduleRemove(x);
      }
    }

    /**
     * The ProcessorBee's step while disposing: every managed session whose
     * key is valid is scheduled for removal, and hasKeys reports whether
     * there was one (the wakeup that follows is not modelled). A managed
     * session with no key yet makes isActive throw NullPointerException,
     * which ends the step; sessions are visited in no particular order.
     */
    method ScheduleActiveRemovals() returns (hasKeys: bool, o: Outcome)
      modifies this
      ensures !disposing ==> !hasKeys && o == Done && Fields() == old(Fields())
      ensures Fields() == old(Fields()).(removing := removing)
      ensures NoDup(old(removing)) ==> NoDup(removing)
      ensures |removing| >= |old(removing)| && removing[..|old(removing)|] == old(removing)
      ensures forall x :: x in removing[|old(removing)|..] ==> x in managed.Values && x.keyValid == Some(true)
      ensures hasKeys ==> exists x :: x in managed.Values && x.keyValid == Some(true)
      ensures disposing && o.Done? ==> forall x :: x in managed.Values && x.keyValid == Some(true) ==> x in removing
      ensures disposing && o.Done? ==> (hasKeys <==> exists x :: x in managed.Values && x.keyValid == Some(true))
      ensures o.Threw? ==> o == Threw(NPE) && exists x :: x in managed.Values && x.keyValid.None?
    {
      hasKeys, o := false, Done;
      if !disposing {
        return;
      }
      ghost var V := managed.Values;
      ghost var added: seq<Session> := [];
      var rest := managed.Values;
      var more := rest != {};
      while more
        invariant rest <= V && (more ==> rest != {} && o.Done?) && (o.Done? && !more ==> rest == {})
        invariant Fields() == old(Fields()).(removing := removing)
        invariant NoDup(old(removing)) ==> NoDup(removing)
        invariant removing == old(removing) + added
        invariant forall x :: x in added ==> x in V && x.keyValid == Some(true)
        invariant o.Done? ==> forall x :: x in V && x !in rest && x.keyValid == Some(true) ==> x in removing
        invariant hasKeys <==> exists x :: x in V && x !in rest && x.keyValid == Some(true)
        invariant o.Threw? ==> o == Threw(NPE) && exists x :: x in V && x.keyValid.None?
        decreases rest
      {
        var x: Session :| x in rest;
        rest := rest - {x};
        ghost var before := removing;
        var active := RemoveIfActive(x);
        if removing != before {
          added := added + [x];
        }
        if active.Err? {
          o := Threw(active.exn);
        }
        hasKeys := hasKeys || active == Ok(true);
        more := active.Ok? && rest != {};
      }
      assert removing[|old(removing)|..] == added;
    }

    /**
     * One session of notifyIdleSessions: a session whose close future
     * says it is closed is skipped, any other gets notifyIdleSession.
     * isClosed casts the future's value to Boolean; the exception it
     * throws for a future completed some other way escapes.
     */
    method NotifyManaged(x: Session, now: int, ghost F: set<Future>) returns (o: Outcome, notified: bool)
      requires PacketFutures(x.current, x.writeQueue) <= F
      modifies x, F
      ensures notified <==> old(x.closeFuture.IsClosed()) == Ok(false)
      ensures old(x.closeFuture.IsClosed()).Err? ==> o == Threw(old(x.closeFuture.IsClosed()).exn)
      ensures !notified ==> x.Fields() == old(x.Fields()) && (o.Done? <==> old(x.closeFuture.IsClosed()) == Ok(true))
      ensures notified ==>
        var due := DueStatuses(old(x.clock), old(x.config.Values()), now);
        x.clock == FireAll(old(x.clock), due, now)
        && |x.fired| >= |old(x.fired)| + |due| && x.fired[..|old(x.fired)| + |due|] == old(x.fired) + IdleCalls(due)
        && (old(x.TimedOut(now)) ==> x.current.None?)
        && (!old(x.TimedOut(now)) ==> o == Done && |x.fired| == |old(x.fired)| + |due|)
      ensures PacketFutures(x.current, x.writeQueue) <= old(PacketFutures(x.current, x.writeQueue))
      ensures forall y: Session :: y != x && old(allocated(y)) ==> y.current == old(y.current) && y.writeQueue == old(y.writeQueue)
    {
      var closed := x.closeFuture.IsClosed();
      notified := closed == Ok(false);
      if closed.Err? {
        return Threw(closed.exn), false;
      }
      o := Done;
      if !closed.value {
        o := x.NotifyIdleSession(now);
      }
    }

    /**
     * NotifyManaged, seen from the loop of notifyIdleSessions: the sessions
     * still to visit keep their packets and their close futures' state.
     */
    method NotifyVisit(x: Session, now: int, ghost F: set<Future>, ghost rest: set<Session>) returns (o: Outcome, notified: bool)
      requires x !in rest && PacketFutures(x.current, x.writeQueue) <= F
      requires forall y :: y in rest ==> PacketFutures(y.current, y.writeQueue) <= F && y.closeFuture !in F
      modifies x, F
      ensures forall y :: y in rest ==> PacketFutures(y.current, y.writeQueue) <= F
      ensures forall y :: y in rest ==> y.closeFuture == old(y.closeFuture) && y.closeFuture.IsClosed() == old(y.closeFuture.IsClosed())
      ensures notified <==> old(x.closeFuture.IsClosed()) == Ok(false)
    {
      o, notified := NotifyManaged(x, now, F);
    }

    /** No session's close future is among the futures of any session's packets. */
    ghost predicate CloseFuturesApart(V: set<Session>)
      reads V
    {
      forall x, y :: x in V && y in V ==> y.closeFuture !in PacketFutures(x.current, x.writeQueue)
    }

    /**
     * notifyIdleSessions: at most once per SELECT_TIMEOUT, every managed
     * session whose close future is not closed gets its idle and
     * write-timeout checks (NotifyManaged, which states the effect on
     * each), in no particular order; an exception from one of them ends
     * the pass. `notified` is the set of sessions that were checked: only
     * sessions not closed at the start, and all of them unless the pass
     * ended with an exception.
     */
    method NotifyIdleSessions(now: int) returns (o: Outcome, ghost notified: set<Session>)
      requires CloseFuturesApart(managed.Values)
      modifies this, managed.Values, AllFutures(managed.Values)
      ensures now - old(lastIdleCheckTime) < SELECT_TIMEOUT ==> o == Done && notified == {} && Fields() == old(Fields())
      ensures now - old(lastIdleCheckTime) >= SELECT_TIMEOUT ==> Fields() == old(Fields()).(lastIdleCheckTime := now)
      ensures notified <= old(managed).Values
      ensures forall x :: x in notified ==> old(x.closeFuture.IsClosed()) == Ok(false)
      ensures now - old(lastIdleCheckTime) >= SELECT_TIMEOUT && o.Done? ==>
        forall x :: x in old(managed).Values && old(x.closeFuture.IsClosed()) == Ok(false) ==> x in notified
    {
      o, notified := Done, {};
      if now - lastIdleCheckTime < SELECT_TIMEOUT {
        return;
      }
      lastIdleCheckTime := now;
      AllFuturesCover(managed.Values);
      assert forall y :: y in managed.Values ==> y.closeFuture !in AllFutures(managed.Values);
      o, notified := NotifyLoop(now, managed.Values, AllFutures(managed.Values));
    }

    /** The loop of notifyIdleSessions over the sessions V, whose packets' futures are within F0. */
    method NotifyLoop(now: int, V: set<Session>, ghost F0: set<Future>) returns (o: Outcome, ghost notified: set<Session>)
      requires forall x :: x in V ==> PacketFutures(x.current, x.writeQueue) <= F0 && x.closeFuture !in F0
      modifies V, F0
      ensures notified <= V
      ensures forall x :: x in notified ==> old(x.closeFuture.IsClosed()) == Ok(false)
      ensures o.Done? ==> forall x :: x in V && old(x.closeFuture.IsClosed()) == Ok(false) ==> x in notified
    {
      o, notified := Done, {};
      var rest := V;
      var more := rest != {};
      while more
        invariant rest <= V && notified <= V && (more ==> rest != {} && o.Done?) && (!more ==> rest == {} || o.Threw?)
        invariant forall x :: x in rest ==> PacketFutures(x.current, x.writeQueue) <= F0 && x.closeFuture !in F0
        invariant forall x :: x in rest ==> x.closeFuture == old(x.closeFuture) && x.closeFuture.IsClosed() == old(x.closeFuture.IsClosed())
        invariant forall x :: x in notified ==> old(x.closeFuture.IsClosed()) == Ok(false)
        invariant o.Done? ==> forall x :: x in V && x !in rest && old(x.closeFuture.IsClosed()) == Ok(false) ==> x in notified
        decreases rest
      {
        var x: Session :| x in rest;
        rest := rest - {x};
        var n;
        o, n := NotifyVisit(x, now, F0, rest);
        if n {
          notified := notified + {x};
        }
        more := o.Done? && rest != {};
      }
    }

    /**
     * One polled session of registerNewSessions: initToRead and buildChain,
     * then addManagedSession; a failure goes to FailRegistration.
     */
    method RegisterOne(s: Session, registerFault: Option<Exn>, buildFault: Option<Exn>, closeFault: Option<Exn>)
      returns (counted: bool, o: Outcome)
      modifies this, controller, s, SessionFrame(s)
      ensures counted <==> RegisterFault(old(s.channel), registerFault, buildFault).None?
      ensures counted ==> o == Done
      ensures counted && s.id in old(managed) ==>
        Fields() == old(Fields()) && controller.activated == old(controller.activated)
        && s.Fields() == old(s.Fields()).(keyValid := Some(true))
      ensures counted && s.id !in old(managed) ==>
        Fields() == old(Fields()).(managed := old(managed)[s.id := s])
        && controller.activated == (old(controller.activated) || old(managed) == map[])
        && s.Fields() == old(s.Fields()).(keyValid := Some(true), fired := old(s.fired) + [FireSessionOpened])
      ensures !counted ==>
        Fields() == old(Fields()) && controller.activated == old(controller.activated)
        && FailedRegistration(old(s.Fields()), old(StoredAttributes(s)), s.Fields(), o,
             KeyAfterInit(old(s.keyValid), old(s.channel), registerFault))
      ensures controller.handler == old(controller.handler) && controller.disposing == old(controller.disposing)
      ensures old(ActivationTracksSessions()) ==> ActivationTracksSessions()
      ensures s.attributes == old(s.attributes) && SessionFrame(s) <= old(SessionFrame(s))
      ensures forall y: Session :: old(allocated(y)) ==> y.attributes == old(y.attributes)
      ensures forall a: AttributeMaps.DefaultAttributeMap :: a != s.attributes && old(allocated(a)) ==> a.attributes == old(a.attributes)
    {
      var fault := RegisterFault(s.channel, registerFault, buildFault);
      s.SetSelectionKey(KeyAfterInit(s.keyValid, s.channel, registerFault));
      if fault.None? {
        AddManagedSession(s);
        return true, Done;
      }
      counted := false;
      o := FailRegistration(s, fault.value, closeFault);
    }
  
    /**
     * One turn of the registerNewSessions loop: poll the head of the queue
     * and register it; the sessions still queued keep their frames within F.
     */
    method RegisterNext(registerFault: Session -> Option<Exn>, buildFault: Session -> Option<Exn>,
                        closeFault: Session -> Option<Exn>, ghost F: set<object>)
      returns (counted: bool, o: Outcome)
      requires newSessions != []
      requires forall x :: x in newSessions ==> SessionFrame(x) <= F
      modifies this, controller, newSessions[0], F
      ensures newSessions == old(newSessions)[1..]
      ensures forall x :: x in newSessions ==> SessionFrame(x) <= F
      ensures Fields() == old(Fields()).(newSessions := newSessions, managed := managed)
      ensures old(managed).Keys <= managed.Keys <= old(managed).Keys + {old(newSessions)[0].id}
      ensures counted ==> o == Done
      ensures !counted ==> managed == old(managed)
      ensures controller.handler == old(controller.handler) && controller.disposing == old(controller.disposing)
      ensures old(ActivationTracksSessions()) ==> ActivationTracksSessions()
    {
      var s := PollNewSession();
      counted, o := RegisterVisit(s, registerFault(s), buildFault(s), closeFault(s), F, newSessions);
    }

    /** newSessions.poll on a queue known not to be empty. */
    method PollNewSession() returns (s: Session)
      requires newSessions != []
      modifies this
      ensures s == old(newSessions)[0] && Fields() == old(Fields()).(newSessions := old(newSessions)[1..])
    {
      s := newSessions[0];
      newSessions := newSessions[1..];
    }

    /** RegisterOne, stated for the registerNewSessions loop: the sessions still queued keep their frames within F. */
    method RegisterVisit(s: Session, registerFault: Option<Exn>, buildFault: Option<Exn>, closeFault: Option<Exn>,
                         ghost F: set<object>, ghost rest: seq<Session>)
      returns (counted: bool, o: Outcome)
      requires SessionFrame(s) <= F
      requires forall x :: x in rest ==> SessionFrame(x) <= F
      modifies this, controller, s, F
      ensures forall x :: x in rest ==> SessionFrame(x) <= F
      ensures Fields() == old(Fields()).(managed := managed)
      ensures old(managed).Keys <= managed.Keys <= old(managed).Keys + {s.id}
      ensures counted ==> o == Done
      ensures !counted ==> managed == old(managed)
      ensures controller.handler == old(controller.handler) && controller.disposing == old(controller.disposing)
      ensures old(ActivationTracksSessions()) ==> ActivationTracksSessions()
    {
      ghost var A := s.attributes;
      counted, o := RegisterOne(s, registerFault, buildFault, closeFault);
      forall x | x in rest
        ensures SessionFrame(x) <= F
      {
        if x.attributes == A {
          assert SessionFrame(x) == SessionFrame(s);
        }
      }
    }

    /**
     * registerNewSessions: polls the queue of new sessions until it is
     * empty, registering each one, and counts those registered. An
     * exception out of a failure path ends the pass, leaving the rest queued.
     */
    method RegisterNewSessions(registerFault: Session -> Option<Exn>, buildFault: Session -> Option<Exn>,
                               closeFault: Session -> Option<Exn>)
      returns (count: nat, o: Outcome)
      modifies this, controller, (set x | x in newSessions), RegisterFrame(newSessions)
      ensures o.Done? ==> newSessions == []
      ensures |newSessions| <= |old(newSessions)|
      ensures newSessions == old(newSessions)[|old(newSessions)| - |newSessions|..]
      ensures o.Threw? ==> |newSessions| < |old(newSessions)|
      ensures count <= |old(newSessions)| - |newSessions|
      ensures Fields() == old(Fields()).(newSessions := newSessions, managed := managed)
      ensures old(managed).Keys <= managed.Keys
      ensures managed.Keys <= old(managed).Keys + Ids(old(newSessions)[..|old(newSessions)| - |newSessions|])
      ensures count == 0 ==> managed == old(managed)
      ensures controller.handler == old(controller.handler) && controller.disposing == old(controller.disposing)
      ensures old(ActivationTracksSessions()) ==> ActivationTracksSessions()
    {
      ghost var Q0 := newSessions;
      RegisterFrameCovers(newSessions);
      ghost var k;
      count, o, k := RegisterLoop(registerFault, buildFault, closeFault, Q0, RegisterFrame(newSessions), Fields(),
        controller.handler, controller.disposing, ActivationTracksSessions());
    }

    /**
     * What registerNewSessions has done after polling the first k sessions
     * of Q0, count of them registered, from the frame F0, the fields f0,
     * the handler h0, the disposing flag d0 and the activation's soundness
     * a0 at its start.
     */
    ghost predicate RegisterPass(Q0: seq<Session>, k: nat, count: nat, F0: set<object>, f0: ProcessorFields,
        h0: FilterEvents.IOHandler, d0: bool, a0: bool)
      reads this, controller, (set x | x in newSessions), (set x | x in newSessions :: x.attributes)
    {
      && k <= |Q0| && newSessions == Q0[k..]
      && Fields() == f0.(newSessions := newSessions, managed := managed)
      && f0.managed.Keys <= managed.Keys <= f0.managed.Keys + Ids(Q0[..k])
      && count <= k && (count == 0 ==> managed == f0.managed)
      && (forall x :: x in newSessions ==> SessionFrame(x) <= F0)
      && controller.handler == h0 && controller.disposing == d0
      && (a0 ==> ActivationTracksSessions())
    }

    /** The loop of registerNewSessions, from the snapshots its caller took. */
    method RegisterLoop(registerFault: Session -> Option<Exn>, buildFault: Session -> Option<Exn>,
                        closeFault: Session -> Option<Exn>, ghost Q0: seq<Session>, ghost F0: set<object>,
                        ghost f0: ProcessorFields, ghost h0: FilterEvents.IOHandler, ghost d0: bool, ghost a0: bool)
      returns (count: nat, o: Outcome, ghost k: nat)
      requires RegisterPass(Q0, 0, 0, F0, f0, h0, d0, a0)
      modifies this, controller, F0, set x | x in Q0
      ensures RegisterPass(Q0, k, count, F0, f0, h0, d0, a0)
      ensures o.Done? ==> newSessions == []
      ensures o.Threw? ==> k > 0
    {
      count, o, k := 0, Done, 0;
      var more := newSessions != [];
      while more
        invariant RegisterPass(Q0, k, count, F0, f0, h0, d0, a0)
        invariant more ==> newSessions != [] && o.Done?
        invariant !more ==> (o.Done? ==> newSessions == []) && (o.Threw? ==> k > 0)
        decreases |Q0| - k
      {
        count, o := RegisterTurn(registerFault, buildFault, closeFault, Q0, k, count, F0, f0, h0, d0, a0);
        k := k + 1;
        more := o.Done? && newSessions != [];
      }
    }

    /** One turn of the registerNewSessions loop, extending what the pass has done so far. */
    method RegisterTurn(registerFault: Session -> Option<Exn>, buildFault: Session -> Option<Exn>,
                        closeFault: Session -> Option<Exn>, ghost Q0: seq<Session>, ghost k: nat, count: nat, ghost F0: set<object>,
                        ghost f0: ProcessorFields, ghost h0: FilterEvents.IOHandler, ghost d0: bool, ghost a0: bool)
      returns (count': nat, o: Outcome)
      requires RegisterPass(Q0, k, count, F0, f0, h0, d0, a0) && newSessions != []
      modifies this, controller, F0, set x | x in Q0
      ensures RegisterPass(Q0, k + 1, count', F0, f0, h0, d0, a0)
    {
      assert newSessions[0] == Q0[k];
      IdsPrefix(Q0, k);
      var counted;
      counted, o := RegisterNext(registerFault, buildFault, closeFault, F0);
      count' := if counted then count + 1 else count;
    }
  }
}
