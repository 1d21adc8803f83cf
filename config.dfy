// The session configuration: AbstractIOConfig, AbstractSocketConfig and
// their one concrete subclass NioSocketConfig, flattened into one class.
module Config {
  import opened Common

  /** Every property a socket configuration holds, as a value. */
  datatype ConfigValues = ConfigValues(
    readBufferSize: int,
    maxWriteBytes: int,
    idleTimeForRead: int,
    idleTimeForWrite: int,
    idleTimeForBoth: int,
    writeTimeout: int,
    connectTimeoutMs: int,
    receiveBufferSize: int,
    sendBufferSize: int,
    soLinger: int)

  /** What the validated setters let into a configuration. */
  predicate WellFormed(v: ConfigValues) {
    v.readBufferSize > 0 && v.idleTimeForRead >= 0 && v.idleTimeForWrite >= 0
    && v.idleTimeForBoth >= 0 && v.writeTimeout >= 0
  }

  const DEFAULT_READ_BUFFER_SIZE := 2048
  const DEFAULT_WRITE_TIMEOUT := 60 * 1000
  const DEFAULT_CONNECT_TIMEOUT := 60 * 1000
  const DEFAULT_SO_LINGER := -1

  const DEFAULTS := ConfigValues(
    DEFAULT_READ_BUFFER_SIZE,
    DEFAULT_READ_BUFFER_SIZE + DEFAULT_READ_BUFFER_SIZE / 2,
    0, 0, 0,
    DEFAULT_WRITE_TIMEOUT,
    DEFAULT_CONNECT_TIMEOUT,
    -1, -1, DEFAULT_SO_LINGER)

  /** The defaults pass every setter's validation and give maxWriteBytes 3072. */
  lemma DefaultsWellFormed()
    ensures WellFormed(DEFAULTS) && DEFAULTS.maxWriteBytes == 3072
  {
  }

  /** getIdleTimeInMillis */
  function IdleTimeOf(v: ConfigValues, status: IdleStatus): int {
    match status
    case BothIdle => v.idleTimeForBoth
    case ReaderIdle => v.idleTimeForRead
    case WriterIdle => v.idleTimeForWrite
  }

  /** setIdleTimeInMillis on values: a negative time is refused. */
  function WithIdleTime(v: ConfigValues, status: IdleStatus, t: int): (r: Result<ConfigValues>)
    ensures t < 0 <==> r.Err?
    ensures r.Err? ==> r.exn.kind == IllegalArgument
  {
    if t < 0 then Err(Exn(IllegalArgument, "Illegal idle time"))
    else match status
      case BothIdle => Ok(v.(idleTimeForBoth := t))
      case ReaderIdle => Ok(v.(idleTimeForRead := t))
      case WriterIdle => Ok(v.(idleTimeForWrite := t))
  }

  /**
   * Setting one status's idle time is read back for that status and leaves
   * the other two statuses, and every other property, as they were.
   */
  lemma IdleTimeReadBack(v: ConfigValues, status: IdleStatus, t: int, other: IdleStatus)
    requires t >= 0
    ensures WithIdleTime(v, status, t).Ok?
    ensures var w := WithIdleTime(v, status, t).value;
      IdleTimeOf(w, other) == (if other == status then t else IdleTimeOf(v, other))
      && w.readBufferSize == v.readBufferSize && w.writeTimeout == v.writeTimeout
      && w.maxWriteBytes == v.maxWriteBytes && w.connectTimeoutMs == v.connectTimeoutMs
    ensures WellFormed(v) ==> WellFormed(WithIdleTime(v, status, t).value)
  {
  }

  /** Where setAll copies from: another NioSocketConfig, or any other IOConfig. */
  datatype ConfigSource = FromNio(c: NioSocketConfig) | FromForeign

  class NioSocketConfig {
    var readBufferSize: int
    var maxWriteBytes: int
    var idleTimeForRead: int
    var idleTimeForWrite: int
    var idleTimeForBoth: int
    var writeTimeout: int
    var connectTimeoutMs: int
    var receiveBufferSize: int
    var sendBufferSize: int
    var soLinger: int

    function Values(): ConfigValues
      reads this
    {
      ConfigValues(readBufferSize, maxWriteBytes, idleTimeForRead, idleTimeForWrite,
        idleTimeForBoth, writeTimeout, connectTimeoutMs, receiveBufferSize, sendBufferSize, soLinger)
    }

    ghost predicate Valid()
      reads this
    {
      WellFormed(Values())
    }

    constructor()
      ensures Values() == DEFAULTS && Valid()
    {
      readBufferSize := DEFAULT_READ_BUFFER_SIZE;
      maxWriteBytes := DEFAULT_READ_BUFFER_SIZE + DEFAULT_READ_BUFFER_SIZE / 2;
      idleTimeForRead, idleTimeForWrite, idleTimeForBoth := 0, 0, 0;
      writeTimeout := DEFAULT_WRITE_TIMEOUT;
      connectTimeoutMs := DEFAULT_CONNECT_TIMEOUT;
      receiveBufferSize, sendBufferSize := -1, -1;
      soLinger := DEFAULT_SO_LINGER;
    }

    /** setReadBufferSize: sizes of 0 or less are refused and change nothing. */
    method SetReadBufferSize(size: int) returns (o: Outcome)
      modifies this
      ensures size <= 0 ==> o.Threw? && o.exn.kind == IllegalArgument && Values() == old(Values())
      ensures size > 0 ==> o == Done && Values() == old(Values()).(readBufferSize := size)
    {
      if size <= 0 {
        return Threw(Exn(IllegalArgument, "readBufferSize: expected 1+"));
      }
      readBufferSize := size;
      o := Done;
    }

    /** setMaxWriteBytes: stored as given, without validation. */
    method SetMaxWriteBytes(n: int)
      modifies this
      ensures Values() == old(Values()).(maxWriteBytes := n)
    {
      maxWriteBytes := n;
    }

    function GetIdleTimeInMillis(status: IdleStatus): (r: int)
      reads this
      ensures Valid() ==> r >= 0
    {
      IdleTimeOf(Values(), status)
    }

    /** setIdleTimeInMillis: exactly the given status's field, or nothing. */
    method SetIdleTimeInMillis(status: IdleStatus, t: int) returns (o: Outcome)
      modifies this
      ensures var r := WithIdleTime(old(Values()), status, t);
        (r.Err? ==> o == Threw(r.exn) && Values() == old(Values()))
        && (r.Ok? ==> o == Done && Values() == r.value)
    {
      if t < 0 {
        return Threw(Exn(IllegalArgument, "Illegal idle time"));
      }
      match status {
        case BothIdle => idleTimeForBoth := t;
        case ReaderIdle => idleTimeForRead := t;
        case WriterIdle => idleTimeForWrite := t;
      }
      o := Done;
    }

    /** setWriteTimeoutInMillis: negative timeouts are refused. */
    method SetWriteTimeoutInMillis(t: int) returns (o: Outcome)
      modifies this
      ensures t < 0 ==> o.Threw? && o.exn.kind == IllegalArgument && Values() == old(Values())
      ensures t >= 0 ==> o == Done && Values() == old(Values()).(writeTimeout := t)
    {
      if t < 0 {
        return Threw(Exn(IllegalArgument, "Illegal write timeout"));
      }
      writeTimeout := t;
      o := Done;
    }

    /** setConnectTimeoutMs: stored as given. */
    method SetConnectTimeoutMs(t: int)
      modifies this
      ensures Values() == old(Values()).(connectTimeoutMs := t)
    {
      connectTimeoutMs := t;
    }

    method SetReceiveBufferSize(n: int)
      modifies this
      ensures Values() == old(Values()).(receiveBufferSize := n)
    {
      receiveBufferSize := n;
    }

    method SetSendBufferSize(n: int)
      modifies this
      ensures Values() == old(Values()).(sendBufferSize := n)
    {
      sendBufferSize := n;
    }

    method SetSoLinger(n: int)
      modifies this
      ensures Values() == old(Values()).(soLinger := n)
    {
      soLinger := n;
    }

    /**
     * setAll, through all three levels of the hierarchy: the base copy of
     * the I/O and buffer properties through the validated setters, then the
     * socket copy of connect timeout and SO_LINGER; the NioSocketConfig level
     * adds nothing. A source of any other kind throws before anything changes.
     */
    method SetAll(source: ConfigSource) returns (o: Outcome)
      requires source.FromNio? ==> source.c.Valid()
      modifies this
      ensures source.FromForeign? ==> o.Threw? && o.exn.kind == Runtime && Values() == old(Values())
      ensures source.FromNio? ==> o == Done && Values() == old(source.c.Values())
    {
      if source.FromForeign? {
        return Threw(Exn(Runtime, "Unknown IOConfig implementation"));
      }
      var imp := source.c;
      var rb, mw := imp.readBufferSize, imp.maxWriteBytes;
      var ib, ir, iw := imp.idleTimeForBoth, imp.idleTimeForRead, imp.idleTimeForWrite;
      var wt, rcv, snd := imp.writeTimeout, imp.receiveBufferSize, imp.sendBufferSize;
      var ct, sl := imp.connectTimeoutMs, imp.soLinger;
      var _ := SetReadBufferSize(rb);
      SetMaxWriteBytes(mw);
      var _ := SetIdleTimeInMillis(BothIdle, ib);
      var _ := SetIdleTimeInMillis(ReaderIdle, ir);
      var _ := SetIdleTimeInMillis(WriterIdle, iw);
      var _ := SetWriteTimeoutInMillis(wt);
      SetReceiveBufferSize(rcv);
      SetSendBufferSize(snd);
      SetConnectTimeoutMs(ct);
      SetSoLinger(sl);
      o := Done;
    }

    /** clone: a fresh configuration of the same class with equal properties. */
    method Clone() returns (c: NioSocketConfig)
      requires Valid()
      ensures fresh(c) && c.Values() == Values() && c.Valid()
    {
      c := new NioSocketConfig();
      var _ := c.SetAll(FromNio(this));
    }
  }
}
