// WritePacket: one message on its way to the remote end, together with the
// future that reports the outcome of writing it.
module WritePackets {
  import opened Common
  import opened Buffers
  import opened Futures

  /**
   * The Object a packet or an inbound event carries: null, an IoBuffer (the
   * only thing the head of a filter chain can put on the wire), here as the
   * buffer's state, or any other object, by identity.
   */
  datatype Message = NullMessage | BufferMessage(buf: BufferView) | OtherMessage(id: nat)

  class WritePacket<S> {
    /** The message given to the constructor; never replaced. */
    const origMessage: Message
    /** The message as rewritten by the filters (an encoder, say). */
    var message: Message
    /** The write future; None for the close request sentinel. */
    const future: Option<IOFuture<S>>
    /** When the write was requested, 0 until stamped. */
    var startTime: int

    constructor(message: Message, future: Option<IOFuture<S>>)
      ensures this.origMessage == message && this.message == message
      ensures this.future == future && startTime == 0
    {
      this.origMessage := message;
      this.message := message;
      this.future := future;
      startTime := 0;
    }

    /** setMessage: replaces the current message; the original stays. */
    method SetMessage(newMessage: Message)
      modifies this
      ensures message == newMessage && startTime == old(startTime)
    {
      message := newMessage;
    }

    method SetStartTime(elapsedRealTime: int)
      modifies this
      ensures startTime == elapsedRealTime && message == old(message)
    {
      startTime := elapsedRealTime;
    }
  }
}
