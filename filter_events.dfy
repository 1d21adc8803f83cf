// How events travel through a session's filter chain. IFilterAdapter's
// forwarding, HeadFilter, TailFilter and ProtocolFilter's event handling
// are written as functions over a snapshot of the filters strictly between
// head and tail; the chain (FilterChains) takes the snapshot, evaluates
// these functions and applies their effects.
module FilterEvents {
  import opened Common
  import opened Buffers
  import opened WritePackets
  import opened ProtocolFilters

  /** The four lifecycle hooks of IFilter. */
  datatype Hook = PreAdd | PostAdd | PreRemove | PostRemove

  /**
   * A filter that can sit between head and tail as the dispatch sees it:
   * an IFilterAdapter (or a subclass overriding only the lifecycle hooks,
   * given by the hooks that throw), or a ProtocolFilter with its codecs.
   */
  datatype Stage =
    | Forward(hookFailures: map<Hook, Exn>)
    | Codecs(pf: ProtocolFilter, encoder: Option<ProtocolEncoder>, decoder: Option<ProtocolDecoder>)

  /** The IOHandler callbacks. */
  datatype HandlerCall =
    | OnSessionOpened
    | OnSessionClosed
    | OnExceptionCaught(cause: Exn)
    | OnMessageSent(msg: Message)
    | OnInputClosed
    | OnMessageReceived(msg: Message)
    | OnSessionIdle(status: IdleStatus)

  /**
   * The controller's handler: which of its callbacks throw, and whether
   * inputClosed closes the session.
   */
  datatype IOHandler = IOHandler(id: nat, failure: HandlerCall -> Option<Exn>, closesOnInputClosed: bool)

  /** IOHandlerAdapter: logs, never throws, and closes the session when its input ends. */
  const HANDLER_ADAPTER := IOHandler(0, _ => None, true)

  /** What the dispatch does outside the filters, in order. */
  datatype Effect =
    | Handler(call: HandlerCall)          // a handler callback
    | Codec(pf: ProtocolFilter, codecCall: CodecCall)
    | SetReady                            // session.setStateReady()
    | ConnectFutureResolved               // remove SESSION_CREATED_FUTURE and mark it connected
    | SetClosed                           // session.setStateClosed()
    | ClearChain                          // session.getFilterChain().clear()
    | RemoveCodecOutputs                  // remove SESSION_DECODER_OUT and SESSION_ENCODER_OUT
    | QueueWrite                          // offer the written packet to the write queue and ask the processor to flush
    | RemoveFromProcessor                 // processor.remove(session)

  /** A run of calls: the effects and the exception that ended it, if any. */
  datatype Run = Run(trace: seq<Effect>, thrown: Option<Exn>)

  /** The two codec outputs of a session (each chain shares one of each). */
  datatype Slots = Slots(decoderOut: SlotState, encoderOut: SlotState)

  /** A run that also changes the codec outputs. */
  datatype Dispatch = Dispatch(trace: seq<Effect>, thrown: Option<Exn>, slots: Slots)

  /** A write: also the packet's message after the encoders. */
  datatype WriteRun = WriteRun(trace: seq<Effect>, thrown: Option<Exn>, slots: Slots, message: Message)

  /** The inbound events that every core filter but the tail forwards unchanged. */
  datatype Inbound = Opened | Caught(cause: Exn) | Sent(orig: Message) | InputClosed | Idle(status: IdleStatus)

  const NPE := Exn(NullPointer, "null")
  const CLASS_CAST := Exn(ClassCast, "not an IProtocolOutput")

  /** First a, then b unless a threw. */
  function Then(a: Run, b: Run): (r: Run)
    ensures a.thrown.Some? ==> r == a
    ensures a.thrown.None? ==> r.trace == a.trace + b.trace && r.thrown == b.thrown
  {
    if a.thrown.Some? then a else Run(a.trace + b.trace, b.thrown)
  }

  function CodecEffects(pf: ProtocolFilter, calls: seq<CodecCall>): (r: seq<Effect>)
    ensures |r| == |calls|
    ensures forall i :: 0 <= i < |r| ==> r[i] == Codec(pf, calls[i])
  {
    if calls == [] then [] else [Codec(pf, calls[0])] + CodecEffects(pf, calls[1..])
  }

  // ------------------------------------------------------------ tail

  function CallOf(ev: Inbound): HandlerCall {
    match ev
    case Opened => OnSessionOpened
    case Caught(c) => OnExceptionCaught(c)
    case Sent(m) => OnMessageSent(m)
    case InputClosed => OnInputClosed
    case Idle(s) => OnSessionIdle(s)
  }

  /**
   * TailFilter's handling of a forwarded event: hand it to the handler;
   * sessionOpened first marks the session ready and, when the handler
   * returns, resolves the stored connect future.
   */
  function TailSimple(ev: Inbound, h: IOHandler): (r: Run)
    ensures r.thrown == h.failure(CallOf(ev))
    ensures Handler(CallOf(ev)) in r.trace
    ensures ev.Opened? ==> r.trace[0] == SetReady && (ConnectFutureResolved in r.trace <==> r.thrown.None?)
    ensures !ev.Opened? ==> r.trace == [Handler(CallOf(ev))]
  {
    var call := CallOf(ev);
    if ev.Opened? then
      Run([SetReady, Handler(call)] + (if h.failure(call).None? then [ConnectFutureResolved] else []), h.failure(call))
    else Run([Handler(call)], h.failure(call))
  }

  /**
   * The event handed to the filter at position k: every core filter
   * forwards it to the next entry, and the tail handles it.
   */
  function PassSimple(stages: seq<Stage>, k: nat, ev: Inbound, h: IOHandler): Run
    decreases |stages| - k
  {
    if k >= |stages| then TailSimple(ev, h) else PassSimple(stages, k + 1, ev, h)
  }

  /** A forwarded event reaches the tail unchanged, whatever filters it passes. */
  lemma {:induction false} PassSimpleReachesTail(stages: seq<Stage>, k: nat, ev: Inbound, h: IOHandler)
    ensures PassSimple(stages, k, ev, h) == TailSimple(ev, h)
    decreases |stages| - k
  {
    if k < |stages| {
      PassSimpleReachesTail(stages, k + 1, ev, h);
    }
  }

  // ------------------------------------------------- codec output slots

  /** getDecoderOut / getEncoderOut on a slot that is not of another class. */
  function Ensure(s: SlotState): (r: SlotState)
    requires !s.NotAnOutput?
    ensures r.OutputHolds?
    ensures s.OutputHolds? ==> r == s
    ensures s.NoOutput? ==> r == OutputHolds(NullMessage)
  {
    if s.NoOutput? then OutputHolds(NullMessage) else s
  }

  /** The slot after the codec's write, if it wrote anything. */
  function AfterWrite(s: SlotState, wrote: Option<Message>): (r: SlotState)
    requires s.OutputHolds?
    ensures r.OutputHolds?
    ensures r.m == if wrote.Some? then wrote.value else s.m
  {
    if wrote.Some? then OutputHolds(wrote.value) else s
  }

  // ---------------------------------------------------- messageReceived

  /**
   * messageReceived handed to the filter at position k (the tail when k
   * is past the last filter). A ProtocolFilter decodes an IoBuffer message
   * and forwards every other message unchanged.
   */
  function Received(stages: seq<Stage>, k: nat, msg: Message, slots: Slots, h: IOHandler): (r: Dispatch)
    ensures r.slots.encoderOut == slots.encoderOut
    ensures r.slots.decoderOut.NotAnOutput? <==> slots.decoderOut.NotAnOutput?
    ensures slots.decoderOut.OutputHolds? ==> r.slots.decoderOut.OutputHolds?
    decreases |stages| - k, 1, 0
  {
    if k >= |stages| then
      Dispatch([Handler(OnMessageReceived(msg))], h.failure(OnMessageReceived(msg)), slots)
    else
      match stages[k]
      case Forward(_) => Received(stages, k + 1, msg, slots, h)
      case Codecs(pf, _, decoder) =>
        if !msg.BufferMessage? then Received(stages, k + 1, msg, slots, h)
        else if slots.decoderOut.NotAnOutput? then Dispatch([], Some(CLASS_CAST), slots)
        else
          var s0 := slots.(decoderOut := Ensure(slots.decoderOut));
          if !msg.buf.hasBuffer then Dispatch([], Some(NPE), s0)
          else DecodeLoop(stages, k, pf, decoder, msg.buf, s0, h)
  }

  /** One decode call: the effect it shows and what it did (a null decoder throws). */
  function DecodeCall(pf: ProtocolFilter, decoder: Option<ProtocolDecoder>, buf: BufferView): (r: (seq<Effect>, DecodeStep))
    ensures decoder.None? ==> r == ([], DecodeStep(0, None, Some(NPE)))
    ensures decoder.Some? ==> r == ([Codec(pf, Decode(buf))], decoder.value.decode(buf))
  {
    if decoder.None? then ([], DecodeStep(0, None, Some(NPE)))
    else ([Codec(pf, Decode(buf))], decoder.value.decode(buf))
  }

  /**
   * The body of the decode loop, once: decode, forward what was decoded,
   * and send an Exception (not an Error) to the next filter's exceptionCaught.
   */
  function DecodeRound(stages: seq<Stage>, k: nat, pf: ProtocolFilter, decoder: Option<ProtocolDecoder>,
                          buf: BufferView, slots: Slots, h: IOHandler): (r: Dispatch)
    requires k < |stages| && slots.decoderOut.OutputHolds?
    ensures r.slots.decoderOut.OutputHolds? && r.slots.encoderOut == slots.encoderOut
    decreases |stages| - k, 0, buf.lim - buf.pos, 1
  {
    var (calls, step) := DecodeCall(pf, decoder, buf);
    var s1 := slots.(decoderOut := AfterWrite(slots.decoderOut, step.wrote));
    var tried: Dispatch :=
      if step.failure.Some? then Dispatch(calls, step.failure, s1)
      else
        var decoded := s1.decoderOut.m;
        var s2 := s1.(decoderOut := OutputHolds(NullMessage));
        if decoded == NullMessage then Dispatch(calls, None, s2)
        else
          var d := Received(stages, k + 1, decoded, s2, h);
          Dispatch(calls + d.trace, d.thrown, d.slots);
    if tried.thrown.None? || tried.thrown.value.IsError() then tried
    else
      var c := PassSimple(stages, k + 1, Caught(tried.thrown.value), h);
      Dispatch(tried.trace + c.trace, c.thrown, tried.slots)
  }

  /** The bytes the round's decode call leaves. */
  function NextView(decoder: Option<ProtocolDecoder>, buf: BufferView): (r: BufferView)
    ensures r.bytes == buf.bytes && r.lim == buf.lim && buf.pos <= r.pos <= buf.lim
  {
    if decoder.None? then buf else Advance(buf, decoder.value.decode(buf).consumed)
  }

  /**
   * The decode loop, corrected: it repeats while bytes remain and the last
   * round consumed some of them.
   */
  function DecodeLoop(stages: seq<Stage>, k: nat, pf: ProtocolFilter, decoder: Option<ProtocolDecoder>,
                         buf: BufferView, slots: Slots, h: IOHandler): (r: Dispatch)
    requires k < |stages| && slots.decoderOut.OutputHolds?
    ensures r.slots.decoderOut.OutputHolds? && r.slots.encoderOut == slots.encoderOut
    decreases |stages| - k, 0, buf.lim - buf.pos, 2
  {
    if buf.pos >= buf.lim then Dispatch([], None, slots)
    else
      var round := DecodeRound(stages, k, pf, decoder, buf, slots, h);
      var next := NextView(decoder, buf);
      if round.thrown.Some? || next.pos == buf.pos then round
      else
        var rest := DecodeLoop(stages, k, pf, decoder, next, round.slots, h);
        Dispatch(round.trace + rest.trace, rest.thrown, rest.slots)
  }

  /**
   * The decode loop as written: it repeats while bytes remain, whether or
   * not the decoder consumed any. None when the fuel runs out first.
   */
  function DecodeLoopAsWritten(stages: seq<Stage>, k: nat, pf: ProtocolFilter, decoder: Option<ProtocolDecoder>,
                                  buf: BufferView, slots: Slots, h: IOHandler, fuel: nat): (r: Option<Dispatch>)
    requires k < |stages| && slots.decoderOut.OutputHolds?
    decreases fuel
  {
    if buf.pos >= buf.lim then Some(Dispatch([], None, slots))
    else if fuel == 0 then None
    else
      var round := DecodeRound(stages, k, pf, decoder, buf, slots, h);
      if round.thrown.Some? then Some(round)
      else
        match DecodeLoopAsWritten(stages, k, pf, decoder, NextView(decoder, buf), round.slots, h, fuel - 1)
        case None => None
        case Some(rest) => Some(Dispatch(round.trace + rest.trace, rest.thrown, rest.slots))
  }

  /** A decoder that neither consumes, writes nor throws on these bytes (or is missing). */
  predicate Stalled(decoder: Option<ProtocolDecoder>, buf: BufferView) {
    decoder.None? || decoder.value.decode(buf) == DecodeStep(0, None, None)
  }

  /**
   * The as-written loop never ends on a stalled decoder: with a missing
   * decoder the NullPointerException goes to exceptionCaught on every
   * round, and a decoder that consumes nothing is called again on the same bytes.
   */
  lemma {:induction false} StalledDecoderSpins(stages: seq<Stage>, k: nat, pf: ProtocolFilter,
      decoder: Option<ProtocolDecoder>, buf: BufferView, slots: Slots, h: IOHandler, fuel: nat)
    requires k < |stages| && slots.decoderOut == OutputHolds(NullMessage)
    requires buf.pos < buf.lim && Stalled(decoder, buf)
    requires h.failure(OnExceptionCaught(NPE)) == None
    ensures DecodeLoopAsWritten(stages, k, pf, decoder, buf, slots, h, fuel).None?
    decreases fuel
  {
    var round := DecodeRound(stages, k, pf, decoder, buf, slots, h);
    if decoder.None? {
      PassSimpleReachesTail(stages, k + 1, Caught(NPE), h);
    }
    assert round.thrown.None? && round.slots == slots;
    assert NextView(decoder, buf) == buf;
    if fuel > 0 {
      StalledDecoderSpins(stages, k, pf, decoder, buf, slots, h, fuel - 1);
    }
  }

  /** The corrected loop gives up on a stalled decoder after one round. */
  lemma StalledDecoderStops(stages: seq<Stage>, k: nat, pf: ProtocolFilter,
      decoder: Option<ProtocolDecoder>, buf: BufferView, slots: Slots, h: IOHandler)
    requires k < |stages| && slots.decoderOut.OutputHolds?
    requires buf.pos < buf.lim && Stalled(decoder, buf)
    ensures DecodeLoop(stages, k, pf, decoder, buf, slots, h) == DecodeRound(stages, k, pf, decoder, buf, slots, h)
  {
    assert NextView(decoder, buf).pos == buf.pos;
  }

  /** The decoder consumes at least one byte of every suffix of these bytes. */
  predicate Progressing(decoder: Option<ProtocolDecoder>, buf: BufferView) {
    decoder.Some? &&
    forall p :: buf.pos <= p < buf.lim ==> decoder.value.decode(buf.(pos := p)).consumed > 0
  }

  /**
   * For a decoder that always makes progress the correction changes
   * nothing: the loop as written ends within one round per byte and
   * agrees with the corrected loop.
   */
  lemma {:induction false} ProgressingLoopsAgree(stages: seq<Stage>, k: nat, pf: ProtocolFilter,
      decoder: Option<ProtocolDecoder>, buf: BufferView, slots: Slots, h: IOHandler, fuel: nat)
    requires k < |stages| && slots.decoderOut.OutputHolds?
    requires Progressing(decoder, buf) && fuel >= buf.lim - buf.pos
    ensures DecodeLoopAsWritten(stages, k, pf, decoder, buf, slots, h, fuel)
         == Some(DecodeLoop(stages, k, pf, decoder, buf, slots, h))
    decreases buf.lim - buf.pos
  {
    if buf.pos < buf.lim {
      var round := DecodeRound(stages, k, pf, decoder, buf, slots, h);
      var next := NextView(decoder, buf);
      assert buf.(pos := buf.pos) == buf;
      assert next.pos > buf.pos;
      if round.thrown.None? {
        assert next == buf.(pos := next.pos);
        assert Progressing(decoder, next) by {
          forall p | next.pos <= p < next.lim
            ensures decoder.value.decode(next.(pos := p)).consumed > 0
          {
            assert next.(pos := p) == buf.(pos := p);
          }
        }
        ProgressingLoopsAgree(stages, k, pf, decoder, next, round.slots, h, fuel - 1);
      }
    }
  }

  // ----------------------------------------------------- lifecycle hooks

  /** The exception register/deregister throw for a failed hook: an Exception is wrapped, an Error passes. */
  function HookFailure(hook: Hook, e: Exn): (r: Exn)
    ensures r.IsError() <==> e.IsError()
    ensures !e.IsError() ==> r.kind == Runtime
  {
    if e.IsError() then e
    else
      var name := match hook
        case PreAdd => "onPreAdd(): "
        case PostAdd => "onPostAdd(): "
        case PreRemove => "onPreRemove(): "
        case PostRemove => "onPostRemove(): ";
      Exn(Runtime, name + e.msg)
  }

  /** What a filter's hook throws; alreadyInChain feeds ProtocolFilter.onPreAdd. */
  function HookThrows(st: Stage, hook: Hook, alreadyInChain: bool): (r: Option<Exn>)
    ensures st.Forward? ==> (r.Some? <==> hook in st.hookFailures)
    ensures st.Codecs? ==> (r.Some? <==> hook == PreAdd && alreadyInChain)
  {
    match st
    case Forward(failures) => if hook in failures then Some(failures[hook]) else None
    case Codecs(_, _, _) => if hook == PreAdd then OnPreAdd(alreadyInChain) else None
  }

  /**
   * deregister's hooks: onPreRemove may refuse the removal; onPostRemove
   * runs after the entry is unlinked (a ProtocolFilter disposes its codecs).
   */
  datatype Removal = Removal(refused: Option<Exn>, trace: seq<Effect>, failed: Option<Exn>)

  function RemovalOf(st: Stage): (r: Removal)
    ensures r.refused.Some? ==> r.trace == [] && r.failed.None?
    ensures st.Forward? ==> r.trace == []
    ensures st.Codecs? ==> r.refused.None? && (r.failed.Some? ==> r.failed.value.IsError())
  {
    match st
    case Forward(failures) =>
      if PreRemove in failures then Removal(Some(HookFailure(PreRemove, failures[PreRemove])), [], None)
      else if PostRemove in failures then Removal(None, [], Some(HookFailure(PostRemove, failures[PostRemove])))
      else Removal(None, [], None)
    case Codecs(pf, encoder, decoder) =>
      var (calls, err) := DisposeCodec(encoder, decoder);
      Removal(None, CodecEffects(pf, calls), err)
  }

  /** What removing one entry throws, if anything. */
  function RemovalThrown(rm: Removal): Option<Exn> {
    if rm.refused.Some? then rm.refused else rm.failed
  }

  /**
   * clear(), removing the entries of the snapshot in chain order: the
   * first hook that throws ends it.
   */
  function ClearRun(stages: seq<Stage>): (r: Run)
  {
    if stages == [] then Run([], None)
    else
      var rm := RemovalOf(stages[0]);
      Then(Run(rm.trace, RemovalThrown(rm)), ClearRun(stages[1..]))
  }

  /** How many entries clear() unlinks before it stops. */
  function ClearRemoves(stages: seq<Stage>): (n: nat)
    ensures n <= |stages|
  {
    if stages == [] then 0
    else
      var rm := RemovalOf(stages[0]);
      if rm.refused.Some? then 0
      else if rm.failed.Some? then 1
      else 1 + ClearRemoves(stages[1..])
  }

  /**
   * clear() that returns normally has unlinked every entry; it stops
   * early only by throwing (an onPostRemove failure throws after the unlink).
   */
  lemma {:induction false} ClearRemovesAllUnlessThrown(stages: seq<Stage>)
    ensures ClearRun(stages).thrown.None? ==> ClearRemoves(stages) == |stages|
    ensures ClearRemoves(stages) < |stages| ==> ClearRun(stages).thrown.Some?
  {
    if stages != [] {
      ClearRemovesAllUnlessThrown(stages[1..]);
    }
  }

  // ------------------------------------------------------ sessionClosed

  /**
   * TailFilter.sessionClosed: mark the session closed, clear the chain,
   * drop the codec outputs and tell the handler; a hook that throws during
   * clear() ends it there.
   */
  function TailClosed(stages: seq<Stage>, slots: Slots, h: IOHandler): (r: Dispatch)
    ensures |r.trace| >= 2 && r.trace[0] == SetClosed && r.trace[1] == ClearChain
    ensures r.thrown.None? ==> Handler(OnSessionClosed) in r.trace
    ensures (ClearRun(stages).thrown.None?) ==>
      r.slots == Slots(NoOutput, NoOutput) && r.thrown == h.failure(OnSessionClosed)
  {
    var c := ClearRun(stages);
    var t := [SetClosed, ClearChain] + c.trace;
    if c.thrown.Some? then Dispatch(t, c.thrown, slots)
    else Dispatch(t + [RemoveCodecOutputs, Handler(OnSessionClosed)], h.failure(OnSessionClosed), Slots(NoOutput, NoOutput))
  }

  /**
   * sessionClosed handed to the filter at position k. A ProtocolFilter
   * first runs finishDecode (an Exception from it is swallowed), then, as
   * its finally block, disposes its codecs and forwards whatever the
   * decoder output still holds as a message, and only then passes the event on.
   */
  function Closed(stages: seq<Stage>, k: nat, slots: Slots, h: IOHandler): (r: Dispatch)
    ensures r.slots.decoderOut.NotAnOutput? ==> slots.decoderOut.NotAnOutput?
    ensures r.slots.encoderOut.NotAnOutput? ==> slots.encoderOut.NotAnOutput?
    decreases |stages| - k
  {
    if k >= |stages| then TailClosed(stages, slots, h)
    else
      match stages[k]
      case Forward(_) => Closed(stages, k + 1, slots, h)
      case Codecs(pf, encoder, decoder) =>
        if slots.decoderOut.NotAnOutput? then Dispatch([], Some(CLASS_CAST), slots)
        else
          var s0 := slots.(decoderOut := Ensure(slots.decoderOut));
          var (calls, step) :=
            if decoder.None? then ([], CodecStep(None, Some(NPE)))
            else ([Codec(pf, FinishDecode)], decoder.value.finishDecode);
          var s1 := s0.(decoderOut := AfterWrite(s0.decoderOut, step.wrote));
          var pending := if step.failure.Some? && step.failure.value.IsError() then step.failure else None;
          var (disposed, disposeError) := DisposeCodec(encoder, decoder);
          var t := calls + CodecEffects(pf, disposed);
          if disposeError.Some? then Dispatch(t, disposeError, s1)
          else
            var remain := s1.decoderOut.m;
            var s2 := s1.(decoderOut := OutputHolds(NullMessage));
            var fwd: Dispatch :=
              if remain == NullMessage then Dispatch(t, None, s2)
              else
                var d := Received(stages, k + 1, remain, s2, h);
                Dispatch(t + d.trace, d.thrown, d.slots);
            if fwd.thrown.Some? then fwd
            else if pending.Some? then Dispatch(fwd.trace, pending, fwd.slots)
            else
              var rest := Closed(stages, k + 1, fwd.slots, h);
              Dispatch(fwd.trace + rest.trace, rest.thrown, rest.slots)
  }

  // --------------------------------------------------------- filterWrite

  /**
   * HeadFilter.filterWrite: an IoBuffer message is queued and a flush
   * requested; a null message or any other object is an IOException.
   */
  function HeadWrite(msg: Message, slots: Slots): (r: WriteRun)
    ensures r.thrown.None? <==> msg.BufferMessage?
    ensures r.thrown.Some? ==> r.thrown.value.kind == IOError && r.trace == []
    ensures r.thrown.None? ==> r.trace == [QueueWrite]
    ensures r.message == msg && r.slots == slots
  {
    match msg
    case NullMessage => WriteRun([], Some(Exn(IOError, "empty message should not be sent")), slots, msg)
    case BufferMessage(_) => WriteRun([QueueWrite], None, slots, msg)
    case OtherMessage(_) =>
      WriteRun([], Some(Exn(IOError, "Don't know how to handle message. Are you missing a protocol encoder?")), slots, msg)
  }

  /**
   * filterWrite handed to the filter at position k on its way to the head
   * (the head when k is -1). A ProtocolFilter lets IoBuffer messages pass
   * and replaces any other message with its encoder's output.
   */
  function Write(stages: seq<Stage>, k: int, msg: Message, slots: Slots): (r: WriteRun)
    requires -1 <= k < |stages|
    ensures r.slots.decoderOut == slots.decoderOut
    ensures r.slots.encoderOut.NotAnOutput? <==> slots.encoderOut.NotAnOutput?
    ensures r.thrown.None? ==> r.message.BufferMessage?
    decreases k + 1
  {
    if k < 0 then HeadWrite(msg, slots)
    else
      match stages[k]
      case Forward(_) => Write(stages, k - 1, msg, slots)
      case Codecs(pf, encoder, _) =>
        if msg.BufferMessage? then Write(stages, k - 1, msg, slots)
        else if encoder.None? then WriteRun([], Some(Exn(PlainException, "The encoder is null")), slots, msg)
        else if slots.encoderOut.NotAnOutput? then WriteRun([], Some(CLASS_CAST), slots, msg)
        else
          var step := encoder.value.encode(msg);
          var s0 := slots.(encoderOut := AfterWrite(Ensure(slots.encoderOut), step.wrote));
          var t := [Codec(pf, Encode(msg))];
          if step.failure.Some? then WriteRun(t, step.failure, s0, msg)
          else
            var encoded := s0.encoderOut.m;
            var s1 := s0.(encoderOut := OutputHolds(NullMessage));
            if encoded == NullMessage then WriteRun(t, Some(Exn(IOError, "Invalid message")), s1, msg)
            else
              var rest := Write(stages, k - 1, encoded, s1);
              WriteRun(t + rest.trace, rest.thrown, rest.slots, rest.message)
  }

  /** filterClose: every filter passes it towards the head, which removes the session from its processor. */
  function CloseRun(stages: seq<Stage>, k: int): (r: Run)
    requires -1 <= k < |stages|
    decreases k + 1
  {
    if k < 0 then Run([RemoveFromProcessor], None) else CloseRun(stages, k - 1)
  }

  lemma {:induction false} CloseReachesHead(stages: seq<Stage>, k: int)
    requires -1 <= k < |stages|
    ensures CloseRun(stages, k) == Run([RemoveFromProcessor], None)
    decreases k + 1
  {
    if k >= 0 {
      CloseReachesHead(stages, k - 1);
    }
  }

  // ------------------------------------------------ chains of adapters

  predicate AdaptersOnly(stages: seq<Stage>) {
    forall i :: 0 <= i < |stages| ==> stages[i].Forward?
  }

  /** Through adapters alone a received message reaches the handler unchanged. */
  lemma {:induction false} AdaptersDeliverReceived(stages: seq<Stage>, k: nat, msg: Message, slots: Slots, h: IOHandler)
    requires AdaptersOnly(stages)
    ensures Received(stages, k, msg, slots, h)
         == Dispatch([Handler(OnMessageReceived(msg))], h.failure(OnMessageReceived(msg)), slots)
    decreases |stages| - k
  {
    if k < |stages| {
      AdaptersDeliverReceived(stages, k + 1, msg, slots, h);
    }
  }

  /** Through adapters alone a written packet reaches the head with its message untouched. */
  lemma {:induction false} AdaptersDeliverWrite(stages: seq<Stage>, k: int, msg: Message, slots: Slots)
    requires AdaptersOnly(stages) && -1 <= k < |stages|
    ensures Write(stages, k, msg, slots) == HeadWrite(msg, slots)
    decreases k + 1
  {
    if k >= 0 {
      AdaptersDeliverWrite(stages, k - 1, msg, slots);
    }
  }

  /** A buffer message passes every filter, ProtocolFilters included, without being encoded. */
  lemma {:induction false} BufferWritesBypassEncoders(stages: seq<Stage>, k: int, buf: BufferView, slots: Slots)
    requires -1 <= k < |stages|
    ensures Write(stages, k, BufferMessage(buf), slots) == WriteRun([QueueWrite], None, slots, BufferMessage(buf))
    decreases k + 1
  {
    if k >= 0 {
      BufferWritesBypassEncoders(stages, k - 1, buf, slots);
    }
  }

  /** A non-buffer message, through ProtocolFilters alone, is handed to the handler unchanged. */
  lemma {:induction false} OtherMessagesBypassDecoders(stages: seq<Stage>, k: nat, msg: Message, slots: Slots, h: IOHandler)
    requires !msg.BufferMessage?
    ensures Received(stages, k, msg, slots, h)
         == Dispatch([Handler(OnMessageReceived(msg))], h.failure(OnMessageReceived(msg)), slots)
    decreases |stages| - k
  {
    if k < |stages| {
      OtherMessagesBypassDecoders(stages, k + 1, msg, slots, h);
    }
  }

  // ------------------------------------------- the chain's fire methods

  /**
   * Exception redirection: a caught exception goes to fireExceptionCaught
   * (from the head); an Error is thrown again afterwards when rethrowErrors.
   * An exception thrown by the handler's exceptionCaught replaces it.
   */
  function Redirect(stages: seq<Stage>, trace: seq<Effect>, thrown: Option<Exn>, h: IOHandler, rethrowErrors: bool): (r: Run)
    ensures thrown.None? ==> r == Run(trace, None)
    ensures thrown.Some? ==>
      r.trace == trace + [Handler(OnExceptionCaught(thrown.value))]
      && r.thrown == (if h.failure(OnExceptionCaught(thrown.value)).Some? then h.failure(OnExceptionCaught(thrown.value))
                      else if rethrowErrors && thrown.value.IsError() then thrown else None)
  {
    if thrown.None? then Run(trace, None)
    else
      var c := PassSimple(stages, 0, Caught(thrown.value), h);
      PassSimpleReachesTail(stages, 0, Caught(thrown.value), h);
      Run(trace + c.trace, if c.thrown.Some? then c.thrown
                           else if rethrowErrors && thrown.value.IsError() then thrown else None)
  }

  /** fireSessionOpened: no redirection. */
  function FireOpened(stages: seq<Stage>, h: IOHandler): (r: Run)
    ensures r == TailSimple(Opened, h)
  {
    PassSimpleReachesTail(stages, 0, Opened, h);
    PassSimple(stages, 0, Opened, h)
  }

  /** fireSessionClosed: every exception, Errors included, goes to exceptionCaught. */
  function FireClosed(stages: seq<Stage>, slots: Slots, h: IOHandler): (r: Dispatch)
    ensures r.thrown.Some? ==> exists e :: h.failure(OnExceptionCaught(e)) == r.thrown
    ensures r.slots.decoderOut.NotAnOutput? ==> slots.decoderOut.NotAnOutput?
    ensures r.slots.encoderOut.NotAnOutput? ==> slots.encoderOut.NotAnOutput?
  {
    var d := Closed(stages, 0, slots, h);
    var c := Redirect(stages, d.trace, d.thrown, h, false);
    Dispatch(c.trace, c.thrown, d.slots)
  }

  /** fireInputClosed: every Throwable goes to exceptionCaught. */
  function FireInputClosed(stages: seq<Stage>, h: IOHandler): (r: Run)
    ensures |r.trace| > 0 && r.trace[0] == Handler(OnInputClosed)
    ensures r.thrown.Some? ==>
      h.failure(OnInputClosed).Some? && r.thrown == h.failure(OnExceptionCaught(h.failure(OnInputClosed).value))
  {
    PassSimpleReachesTail(stages, 0, InputClosed, h);
    var d := PassSimple(stages, 0, InputClosed, h);
    Redirect(stages, d.trace, d.thrown, h, false)
  }

  /** fireMessageReceived: an Exception goes to exceptionCaught; an Error does too, and is then rethrown. */
  function FireReceived(stages: seq<Stage>, msg: Message, slots: Slots, h: IOHandler): (r: Dispatch)
    ensures r.thrown.Some? ==>
      r.thrown.value.IsError() || exists e :: h.failure(OnExceptionCaught(e)) == r.thrown
    ensures r.slots.decoderOut.NotAnOutput? <==> slots.decoderOut.NotAnOutput?
    ensures r.slots.encoderOut == slots.encoderOut
  {
    var d := Received(stages, 0, msg, slots, h);
    var c := Redirect(stages, d.trace, d.thrown, h, true);
    Dispatch(c.trace, c.thrown, d.slots)
  }

  /** fireSessionIdle: redirected like messageReceived. */
  function FireIdle(stages: seq<Stage>, status: IdleStatus, h: IOHandler): (r: Run)
    ensures |r.trace| > 0 && r.trace[0] == Handler(OnSessionIdle(status))
    ensures r.thrown.Some? ==>
      r.thrown.value.IsError() || exists e :: h.failure(OnExceptionCaught(e)) == r.thrown
  {
    PassSimpleReachesTail(stages, 0, Idle(status), h);
    var d := PassSimple(stages, 0, Idle(status), h);
    Redirect(stages, d.trace, d.thrown, h, true)
  }

  /**
   * fireFilterWrite, from the tail. On failure the packet's future is
   * failed first (a packet without a future makes that a
   * NullPointerException, which escapes), then exceptionCaught runs and an
   * Error is rethrown.
   */
  function FireWrite(stages: seq<Stage>, msg: Message, hasFuture: bool, slots: Slots, h: IOHandler): (r: WriteRun)
    ensures var w := Write(stages, |stages| - 1, msg, slots);
      r.slots == w.slots && r.message == w.message
      && (w.thrown.None? ==> r == w)
      && (w.thrown.Some? && !hasFuture ==> r.thrown == Some(NPE) && r.trace == w.trace)
      && (w.thrown.Some? && hasFuture ==> r.trace == w.trace + [Handler(OnExceptionCaught(w.thrown.value))])
  {
    var w := Write(stages, |stages| - 1, msg, slots);
    if w.thrown.None? then w
    else if !hasFuture then WriteRun(w.trace, Some(NPE), w.slots, w.message)
    else
      var c := Redirect(stages, w.trace, w.thrown, h, true);
      WriteRun(c.trace, c.thrown, w.slots, w.message)
  }
}
