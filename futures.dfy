// DefaultIOFuture and its three views: ConnectFuture, WriteFuture and
// CloseFuture. A future is completed at most once; the first value wins.
// The session a future belongs to is a type parameter, so that the reactor
// can instantiate it with its own session class.
module Futures {
  import opened Common

  /** The Object a future holds: null, a Boolean, a Throwable or anything else. */
  datatype FutureValue = Null | BoolValue(b: bool) | Failure(e: Exn) | OtherValue(id: nat)

  /** The part of a future that completion changes. */
  datatype FutureState = FutureState(ready: bool, result: FutureValue)

  const UNSET := FutureState(false, Null)

  /** setValue: only the first call takes effect and reports true. */
  function SetValueSpec(st: FutureState, v: FutureValue): (r: (FutureState, bool))
    ensures r.1 <==> !st.ready
    ensures r.0.ready
    ensures st.ready ==> r.0 == st
    ensures !st.ready ==> r.0.result == v
  {
    if st.ready then (st, false) else (FutureState(true, v), true)
  }

  /** The state after a run of setValue calls, and how many of them reported true. */
  function ApplyAll(st: FutureState, vs: seq<FutureValue>): (r: (FutureState, nat))
    decreases |vs|
  {
    if |vs| == 0 then (st, 0)
    else
      var (next, won) := SetValueSpec(st, vs[0]);
      var (last, wins) := ApplyAll(next, vs[1..]);
      (last, wins + if won then 1 else 0)
  }

  lemma {:induction false} ApplyAllSettled(st: FutureState, vs: seq<FutureValue>)
    requires st.ready
    ensures ApplyAll(st, vs) == (st, 0)
    decreases |vs|
  {
    if |vs| > 0 {
      ApplyAllSettled(st, vs[1..]);
    }
  }

  /** However many completions race, exactly the first one is kept and reported. */
  lemma SettleOnce(vs: seq<FutureValue>)
    requires |vs| > 0
    ensures ApplyAll(UNSET, vs) == (FutureState(true, vs[0]), 1)
  {
    ApplyAllSettled(FutureState(true, vs[0]), vs[1..]);
  }

  /** getException: the held value when it is a Throwable. */
  function ExceptionOf(st: FutureState): (r: Option<Exn>)
    ensures r.Some? <==> st.result.Failure?
  {
    if st.result.Failure? then Some(st.result.e) else None
  }

  /** ConnectFuture.isConnected: the held value is Boolean true. */
  predicate ConnectedView(st: FutureState) {
    st.result == BoolValue(true)
  }

  /** ConnectFuture.isCanceled: the held value is Boolean false. */
  predicate CanceledView(st: FutureState) {
    st.result == BoolValue(false)
  }

  /** WriteFuture.isWritten: completed, holding Boolean true. */
  predicate WrittenView(st: FutureState) {
    st.ready && st.result == BoolValue(true)
  }

  /** A connect future is never both connected and canceled, and a failed one is neither. */
  lemma ConnectViewsExclusive(st: FutureState)
    ensures !(ConnectedView(st) && CanceledView(st))
    ensures ExceptionOf(st).Some? ==> !ConnectedView(st) && !CanceledView(st)
  {
  }

  /** Once a write has failed, a later setWritten cannot make it written. */
  lemma FailedWriteStaysFailed(e: Exn, later: seq<FutureValue>)
    ensures var st := ApplyAll(UNSET, [Failure(e)] + later).0;
      !WrittenView(st) && ExceptionOf(st) == Some(e)
  {
    SettleOnce([Failure(e)] + later);
  }

  class IOFuture<S> {
    const session: S
    var ready: bool
    var result: FutureValue
    /** The one listener, by identity, or None. */
    var listener: Option<nat>
    /** The listeners whose onComplete ran, in order. */
    var notified: seq<nat>

    function State(): FutureState
      reads this
    {
      FutureState(ready, result)
    }

    constructor(session: S)
      ensures this.session == session && State() == UNSET
      ensures listener == None && notified == []
    {
      this.session := session;
      ready := false;
      result := Null;
      listener := None;
      notified := [];
    }

    /** notifyListener: run the listener, if any. */
    method NotifyListener()
      modifies this
      ensures State() == old(State()) && listener == old(listener)
      ensures notified == old(notified) + if listener.Some? then [listener.value] else []
    {
      if listener.Some? {
        notified := notified + [listener.value];
      }
    }

    /** setValue: completes the future and notifies the listener, once. */
    method SetValue(newValue: FutureValue) returns (r: bool)
      modifies this
      ensures (State(), r) == SetValueSpec(old(State()), newValue)
      ensures listener == old(listener)
      ensures notified == old(notified) + if r && listener.Some? then [listener.value] else []
    {
      if ready {
        return false;
      }
      result := newValue;
      ready := true;
      NotifyListener();
      r := true;
    }

    /** setException: a null exception is refused; otherwise completes with it. */
    method SetException(exception: Option<Exn>) returns (o: Outcome)
      modifies this
      ensures exception.None? ==> o == Threw(Exn(IllegalArgument, "exception")) && unchanged(this)
      ensures exception.Some? ==>
        o == Done && State() == SetValueSpec(old(State()), Failure(exception.value)).0
        && listener == old(listener)
        && notified == old(notified) + if !old(ready) && listener.Some? then [listener.value] else []
    {
      if exception.None? {
        return Threw(Exn(IllegalArgument, "exception"));
      }
      var _ := SetValue(Failure(exception.value));
      o := Done;
    }

    /** getException */
    function GetException(): (r: Option<Exn>)
      reads this
      ensures r.Some? ==> ready || result.Failure?
    {
      ExceptionOf(State())
    }

    function IsDone(): bool
      reads this
    {
      ready
    }

    /** setListener: replaces the listener and notifies it at once if already complete. */
    method SetListener(l: nat)
      modifies this
      ensures State() == old(State()) && listener == Some(l)
      ensures notified == old(notified) + if ready then [l] else []
    {
      listener := Some(l);
      if ready {
        NotifyListener();
      }
    }

    method RemoveListener()
      modifies this
      ensures State() == old(State()) && notified == old(notified) && listener == None
    {
      listener := None;
    }

    /**
     * await0's non-blocking path: a completed future, or a timeout of 0 or
     * less, answers at once with the ready flag; otherwise the caller would
     * block (None), which this model does not follow.
     */
    method AwaitNow(timeoutMillis: int) returns (r: Option<bool>)
      ensures (ready || timeoutMillis <= 0) <==> r.Some?
      ensures r.Some? ==> r.value == ready
    {
      if ready || timeoutMillis <= 0 {
        return Some(ready);
      }
      return None;
    }

    // ------------------------------------------------------ ConnectFuture

    /**
     * The part of ConnectFuture.cancel that touches the future: a pending
     * future is completed with false. The caller then asks the session to
     * cancel the connection when this reports true.
     */
    method CancelValue() returns (justCancelled: bool)
      modifies this
      ensures justCancelled <==> !old(ready)
      ensures old(ready) ==> State() == old(State()) && notified == old(notified)
      ensures !old(ready) ==> State() == FutureState(true, BoolValue(false))
      ensures listener == old(listener)
      ensures !old(ready) ==> notified == old(notified) + if listener.Some? then [listener.value] else []
    {
      justCancelled := false;
      if !ready {
        justCancelled := SetValue(BoolValue(false));
      }
    }

    /** ConnectFuture.setConnected: completes a pending future with true. */
    method SetConnected()
      modifies this
      ensures State() == SetValueSpec(old(State()), BoolValue(true)).0
      ensures listener == old(listener)
      ensures notified == old(notified) + if !old(ready) && listener.Some? then [listener.value] else []
    {
      if !ready {
        var _ := SetValue(BoolValue(true));
      }
    }

    function IsConnected(): (r: bool)
      reads this
      ensures r <==> ConnectedView(State())
    {
      result.BoolValue? && result.b
    }

    function IsCanceled(): (r: bool)
      reads this
      ensures r <==> CanceledView(State())
    {
      result.BoolValue? && !result.b
    }

    // -------------------------------------------------------- WriteFuture

    /** WriteFuture.setWritten */
    method SetWritten()
      modifies this
      ensures State() == SetValueSpec(old(State()), BoolValue(true)).0
      ensures listener == old(listener)
      ensures notified == old(notified) + if !old(ready) && listener.Some? then [listener.value] else []
    {
      var _ := SetValue(BoolValue(true));
    }

    function IsWritten(): (r: bool)
      reads this
      ensures r <==> WrittenView(State())
    {
      ready && result.BoolValue? && result.b
    }

    // -------------------------------------------------------- CloseFuture

    /** CloseFuture.setClosed */
    method SetClosed()
      modifies this
      ensures State() == SetValueSpec(old(State()), BoolValue(true)).0
      ensures listener == old(listener)
      ensures notified == old(notified) + if !old(ready) && listener.Some? then [listener.value] else []
    {
      var _ := SetValue(BoolValue(true));
    }

    /**
     * CloseFuture.isClosed: false while pending; once complete the value is
     * cast to Boolean, which throws when it holds anything else.
     */
    function IsClosed(): (r: Result<bool>)
      reads this
      ensures !ready ==> r == Ok(false)
      ensures ready && result.BoolValue? ==> r == Ok(result.b)
      ensures ready && result.Null? ==> r.Err? && r.exn.kind == NullPointer
      ensures ready && !result.BoolValue? && !result.Null? ==> r.Err? && r.exn.kind == ClassCast
    {
      if !ready then Ok(false)
      else match result
        case BoolValue(b) => Ok(b)
        case Null => Err(Exn(NullPointer, "isClosed"))
        case _ => Err(Exn(ClassCast, "isClosed"))
    }
  }
}
