// ProtocolFilter's own state and building blocks: the encoder and decoder
// it delegates to, the one-slot outputs they write into, and the session
// attributes those outputs live under. How the filter takes part in the
// dispatch of events is modelled with the chain (FilterChains).
module ProtocolFilters {
  import opened Common
  import opened Buffers
  import opened WritePackets
  import opened AttributeKeys
  import opened AttributeMaps

  // The session attribute keys DefaultFilterChain declares.
  const CHAIN_CLASS := "com.sonf.core.filter.DefaultFilterChain"
  const SESSION_CREATED_FUTURE := NewKey(CHAIN_CLASS, "connectFuture")
  const SESSION_DECODER_OUT := NewKey(CHAIN_CLASS, "decoderOut")
  const SESSION_ENCODER_OUT := NewKey(CHAIN_CLASS, "encoderOut")

  /** The three keys are distinct, so the three attributes never overwrite each other. */
  lemma ChainKeysDistinct()
    ensures SESSION_CREATED_FUTURE != SESSION_DECODER_OUT
    ensures SESSION_CREATED_FUTURE != SESSION_ENCODER_OUT
    ensures SESSION_DECODER_OUT != SESSION_ENCODER_OUT
  {
    KeySuffixIsConstant(CHAIN_CLASS, "connectFuture");
    KeySuffixIsConstant(CHAIN_CLASS, "decoderOut");
    KeySuffixIsConstant(CHAIN_CLASS, "encoderOut");
    var p := CHAIN_CLASS + ".";
    assert SESSION_CREATED_FUTURE.name[|p|] == 'c';
    assert SESSION_DECODER_OUT.name[|p|] == 'd';
    assert SESSION_ENCODER_OUT.name[|p|] == 'e';
  }

  // ------------------------------------------------------------- codecs

  /**
   * One call of IProtocolDecoder.decode on the bytes between position and
   * limit: how many bytes it consumed, the last object it wrote to the
   * output (if any) and the exception it threw (if any).
   */
  datatype DecodeStep = DecodeStep(consumed: nat, wrote: Option<Message>, failure: Option<Exn>)

  /** One call of encode or finishDecode: what it wrote and what it threw. */
  datatype CodecStep = CodecStep(wrote: Option<Message>, failure: Option<Exn>)

  /** A decoder, given by what each of its calls does. */
  datatype ProtocolDecoder = ProtocolDecoder(
    id: nat,
    decode: BufferView -> DecodeStep,
    finishDecode: CodecStep,
    disposeFailure: Option<Exn>)

  /** An encoder, given by what each of its calls does. */
  datatype ProtocolEncoder = ProtocolEncoder(
    id: nat,
    encode: Message -> CodecStep,
    disposeFailure: Option<Exn>)

  /** The codec calls a ProtocolFilter makes, as they appear in a dispatch trace. */
  datatype CodecCall = Decode(input: BufferView) | FinishDecode | Encode(msg: Message) | DisposeEncoder | DisposeDecoder

  /** The buffer after a decode call that consumed n bytes (never past the limit). */
  function Advance(buf: BufferView, n: nat): (r: BufferView)
    ensures r.bytes == buf.bytes && r.lim == buf.lim && r.hasBuffer == buf.hasBuffer
    ensures buf.pos <= r.pos <= buf.lim
    ensures r.pos == buf.pos <==> (n == 0 || buf.pos == buf.lim)
  {
    var step := if n < buf.lim - buf.pos then n else buf.lim - buf.pos;
    buf.(pos := buf.pos + step)
  }

  /**
   * disposeCodec: the encoder is disposed, then the decoder; an Exception
   * (a null codec's NullPointerException included) ends the sequence and is
   * swallowed, an Error is passed on.
   */
  function DisposeCodec(encoder: Option<ProtocolEncoder>, decoder: Option<ProtocolDecoder>): (r: (seq<CodecCall>, Option<Exn>))
    ensures r.1.Some? ==> r.1.value.IsError()
    ensures r.0 == [] || r.0 == [DisposeEncoder] || r.0 == [DisposeEncoder, DisposeDecoder]
    ensures r.0 == [DisposeEncoder, DisposeDecoder] <==>
      encoder.Some? && encoder.value.disposeFailure.None? && decoder.Some?
  {
    if encoder.None? then ([], None)
    else if encoder.value.disposeFailure.Some? then
      var e := encoder.value.disposeFailure.value;
      ([DisposeEncoder], if e.IsError() then Some(e) else None)
    else if decoder.None? then ([DisposeEncoder], None)
    else if decoder.value.disposeFailure.Some? then
      var e := decoder.value.disposeFailure.value;
      ([DisposeEncoder, DisposeDecoder], if e.IsError() then Some(e) else None)
    else ([DisposeEncoder, DisposeDecoder], None)
  }

  /** onPreAdd: refuses to join a chain that already holds this very filter. */
  function OnPreAdd(parentContainsThis: bool): (r: Option<Exn>)
    ensures r.Some? <==> parentContainsThis
    ensures r.Some? ==> r.value.kind == IllegalArgument
  {
    if parentContainsThis
    then Some(Exn(IllegalArgument, "You can't add the same filter instance more than once."))
    else None
  }

  // ------------------------------------------------------- output slots

  /** IProtocolOutputImpl: a one-object slot. */
  class ProtocolOutput {
    /** The slot; NullMessage when empty. */
    var message: Message

    constructor()
      ensures message == NullMessage
    {
      message := NullMessage;
    }

    /** write: replaces whatever the slot held. */
    method Write(m: Message)
      modifies this
      ensures message == m
    {
      message := m;
    }

    /** get: returns the last written object and empties the slot. */
    method Get() returns (m: Message)
      modifies this
      ensures m == old(message) && message == NullMessage
    {
      m := message;
      message := NullMessage;
    }
  }

  /**
   * What a session attribute holds under an output key: nothing, an output
   * (with its slot's content), or an object of some other class.
   */
  datatype SlotState = NoOutput | OutputHolds(m: Message) | NotAnOutput

  /** The codec outputs among the session's attributes: all that writing them back may change. */
  function OutputObjects(attrs: DefaultAttributeMap): set<ProtocolOutput>
    reads attrs
  {
    set o: ProtocolOutput | o in attrs.attributes.Values
  }

  /** The codec output under key, if the attribute is one. */
  function OutputAt(attrs: DefaultAttributeMap, key: AttributeKey): (r: set<ProtocolOutput>)
    reads attrs
    ensures r <= OutputObjects(attrs)
  {
    if key !in attrs.attributes then {}
    else
      var v: object := attrs.attributes[key];
      if v is ProtocolOutput then {v as ProtocolOutput} else {}
  }

  /** The state of the output stored under key. */
  function SlotOf(attrs: DefaultAttributeMap, key: AttributeKey): (r: SlotState)
    reads attrs, OutputAt(attrs, key)
    ensures r.NoOutput? <==> key !in attrs.attributes
  {
    if key !in attrs.attributes then NoOutput
    else
      var o: object := attrs.attributes[key];
      if o is ProtocolOutput then OutputHolds((o as ProtocolOutput).message) else NotAnOutput
  }

  /**
   * getDecoderOut / getEncoderOut: the output stored under key, created and
   * stored on first use. The cast throws when the attribute holds anything else.
   */
  method GetOutput(attrs: DefaultAttributeMap, key: AttributeKey) returns (r: Result<ProtocolOutput>)
    modifies attrs
    ensures old(SlotOf(attrs, key)).NotAnOutput? ==>
      r.Err? && r.exn.kind == ClassCast && attrs.attributes == old(attrs.attributes)
    ensures old(SlotOf(attrs, key)).OutputHolds? ==>
      r.Ok? && attrs.attributes == old(attrs.attributes) && attrs.attributes[key] == r.value
    ensures old(SlotOf(attrs, key)).NoOutput? ==>
      r.Ok? && fresh(r.value) && r.value.message == NullMessage
      && attrs.attributes == old(attrs.attributes)[key := r.value]
  {
    if key in attrs.attributes {
      var o: object := attrs.attributes[key];
      if o is ProtocolOutput {
        return Ok(o as ProtocolOutput);
      }
      return Err(Exn(ClassCast, "not an IProtocolOutput"));
    }
    var out := new ProtocolOutput();
    attrs.attributes := attrs.attributes[key := out];
    r := Ok(out);
  }

  /** Reusing the output: a second lookup returns the object the first one stored. */
  method GetOutputTwice(attrs: DefaultAttributeMap, key: AttributeKey) returns (first: Result<ProtocolOutput>, second: Result<ProtocolOutput>)
    requires !SlotOf(attrs, key).NotAnOutput?
    modifies attrs
    ensures first.Ok? && second.Ok? && first.value == second.value
  {
    first := GetOutput(attrs, key);
    second := GetOutput(attrs, key);
  }

  // ------------------------------------------------------------ filter

  class ProtocolFilter {
    var encoder: Option<ProtocolEncoder>
    var decoder: Option<ProtocolDecoder>

    constructor()
      ensures encoder.None? && decoder.None?
    {
      encoder := None;
      decoder := None;
    }

    method SetEncoder(e: Option<ProtocolEncoder>)
      modifies this
      ensures encoder == e && decoder == old(decoder)
    {
      encoder := e;
    }

    method SetDecoder(d: Option<ProtocolDecoder>)
      modifies this
      ensures decoder == d && encoder == old(encoder)
    {
      decoder := d;
    }
  }
}
