// IoBuffer / SimpleIoBuffer: a byte buffer with java.nio position, limit
// and capacity, allocated lazily, plus the zero-terminated string reader
// and the string writer the codecs use.
module Buffers {
  import opened Common
  import JavaLang

  /** A charset decoder: its charset name and what decoding a byte span gives (None: malformed). */
  datatype CharsetDecoder = CharsetDecoder(charsetName: string, decode: seq<Byte> -> Option<string>)

  /**
   * A stateless charset encoder: the bytes of each character (None: the
   * character cannot be encoded, which is a malformed or unmappable input).
   */
  datatype CharsetEncoder = CharsetEncoder(encodeChar: char -> Option<seq<Byte>>)

  /** The whole encoding of s, or None when some character cannot be encoded. */
  function EncodeAll(s: string, enc: CharsetEncoder): Option<seq<Byte>>
    decreases |s|
  {
    if s == [] then Some([])
    else match enc.encodeChar(s[0])
      case None => None
      case Some(b) =>
        match EncodeAll(s[1..], enc)
        case None => None
        case Some(rest) => Some(b + rest)
  }

  /** How CharsetEncoder.encode(in, out, true) ends: input used up, output full, or a bad character. */
  datatype EncodeEnd = Underflow | Overflow | Unmappable

  /**
   * encode(in, out, true) into room free bytes: the bytes of each character
   * go in while they fit. The result is the bytes written, how the call
   * ended and how many characters were consumed: those characters'
   * encoding is what was written, and the next one is either unencodable
   * (Unmappable) or too long for what room is left (Overflow).
   */
  function EncodeInto(val: string, enc: CharsetEncoder, room: nat): (r: (seq<Byte>, EncodeEnd, nat))
    ensures r.2 <= |val| && |r.0| <= room
    ensures EncodeAll(val[..r.2], enc) == Some(r.0)
    ensures r.1 == Underflow <==> r.2 == |val|
    ensures r.1 == Unmappable ==> r.2 < |val| && enc.encodeChar(val[r.2]).None?
    ensures r.1 == Overflow ==>
      r.2 < |val| && enc.encodeChar(val[r.2]).Some? && |r.0| + |enc.encodeChar(val[r.2]).value| > room
    decreases |val|
  {
    if val == [] then
      assert val[..0] == [];
      ([], Underflow, 0)
    else match enc.encodeChar(val[0])
      case None =>
        assert val[..0] == [];
        ([], Unmappable, 0)
      case Some(b) =>
        if |b| > room then
          assert val[..0] == [];
          ([], Overflow, 0)
        else
          var rest := EncodeInto(val[1..], enc, room - |b|);
          assert val[..rest.2 + 1][1..] == val[1..][..rest.2];
          (b + rest.0, rest.1, rest.2 + 1)
  }

  /** A string whose whole encoding fits is written whole, and the call ends with the input used up. */
  lemma {:induction false} EncodeIntoFits(val: string, enc: CharsetEncoder, room: nat)
    requires EncodeAll(val, enc).Some? && |EncodeAll(val, enc).value| <= room
    ensures EncodeInto(val, enc, room) == (EncodeAll(val, enc).value, Underflow, |val|)
    decreases |val|
  {
    if val != [] {
      EncodeIntoFits(val[1..], enc, room - |enc.encodeChar(val[0]).value|);
    }
  }

  /** A string whose encoding is longer than room overflows, having written less than the whole encoding. */
  lemma {:induction false} EncodeIntoTooLong(val: string, enc: CharsetEncoder, room: nat)
    requires EncodeAll(val, enc).Some? && |EncodeAll(val, enc).value| > room
    ensures EncodeInto(val, enc, room).1 == Overflow
    decreases |val|
  {
    if val != [] {
      var b := enc.encodeChar(val[0]).value;
      if |b| <= room {
        EncodeIntoTooLong(val[1..], enc, room - |b|);
      }
    }
  }

  /** Where the backing ByteBuffer keeps its bytes: off-heap, or in an array from an offset on. */
  datatype NioBacking = Direct | HeapArray(heap: seq<Byte>, arrayOffset: nat)

  /** The backing holds bytes: a direct buffer always does, an array does from its offset on. */
  ghost predicate Backs(nb: NioBacking, bytes: seq<Byte>) {
    nb.HeapArray? ==>
      nb.arrayOffset + |bytes| <= |nb.heap|
      && forall k :: 0 <= k < |bytes| ==> nb.heap[nb.arrayOffset + k] == bytes[k]
  }

  /**
   * indexOf over either backing: the array branch scans the array between
   * offset + position and offset + limit and takes the offset off again;
   * the direct branch reads get(i) between position and limit. Both find
   * the first index of b in [position, limit), or -1.
   */
  method IndexOfIn(nb: NioBacking, bytes: seq<Byte>, pos: int, lim: int, b: Byte) returns (r: int)
    requires 0 <= pos <= lim <= |bytes| && Backs(nb, bytes)
    ensures r == FirstIndexOf(bytes, pos, lim, b)
  {
    FirstIndexOfMeaning(bytes, pos, lim, b);
    if nb.HeapArray? {
      var arrayOffset := nb.arrayOffset;
      var beginPos := arrayOffset + pos;
      var limit := arrayOffset + lim;
      var i := beginPos;
      while i < limit
        invariant beginPos <= i <= limit
        invariant forall k :: pos <= k < i - arrayOffset ==> bytes[k] != b
      {
        assert nb.heap[i] == bytes[i - arrayOffset];
        if nb.heap[i] == b {
          return i - arrayOffset;
        }
        i := i + 1;
      }
    } else {
      var i := pos;
      while i < lim
        invariant pos <= i <= lim
        invariant forall k :: pos <= k < i ==> bytes[k] != b
      {
        if bytes[i] == b {
          return i;
        }
        i := i + 1;
      }
    }
    return -1;
  }

  // ------------------------------------------------ terminator search (pure)

  /** The first index in [lo, hi) holding b, or -1. */
  function FirstIndexOf(bytes: seq<Byte>, lo: int, hi: int, b: Byte): (r: int)
    requires 0 <= lo <= hi <= |bytes|
    ensures r == -1 || lo <= r < hi
    decreases hi - lo
  {
    if lo == hi then -1 else if bytes[lo] == b then lo else FirstIndexOf(bytes, lo + 1, hi, b)
  }

  lemma {:induction false} FirstIndexOfMeaning(bytes: seq<Byte>, lo: int, hi: int, b: Byte)
    requires 0 <= lo <= hi <= |bytes|
    ensures FirstIndexOf(bytes, lo, hi, b) == -1 <==> forall k :: lo <= k < hi ==> bytes[k] != b
    ensures var r := FirstIndexOf(bytes, lo, hi, b);
      r != -1 ==> bytes[r] == b && forall k :: lo <= k < r ==> bytes[k] != b
    decreases hi - lo
  {
    if lo < hi && bytes[lo] != b {
      FirstIndexOfMeaning(bytes, lo + 1, hi, b);
    }
  }

  /**
   * The UTF-16 terminator search of getString, one loop iteration per call:
   * from index i (a byte is read there), a zero byte followed by a zero
   * byte ends the string; a non-zero second byte skips two bytes.
   */
  function Utf16Scan(bytes: seq<Byte>, i: int, lim: int): (end: int)
    requires 0 <= i < lim <= |bytes|
    ensures end == -1 || i <= end < lim - 1
    decreases lim - i
  {
    var wasZero := bytes[i] == 0;
    if i + 1 >= lim then -1
    else if bytes[i + 1] != 0 then (if i + 2 >= lim then -1 else Utf16Scan(bytes, i + 2, lim))
    else if wasZero then i
    else Utf16Scan(bytes, i + 1, lim)
  }

  predicate DoubleZeroAt(bytes: seq<Byte>, k: int)
    requires 0 <= k < |bytes| - 1
  {
    bytes[k] == 0 && bytes[k + 1] == 0
  }

  /**
   * The UTF-16 search finds the first pair of zero bytes at ANY offset from
   * the position, not only at an even one: it is not aligned to code units.
   */
  lemma {:induction false} Utf16ScanFindsFirstZeroPair(bytes: seq<Byte>, i: int, lim: int)
    requires 0 <= i < lim <= |bytes|
    ensures var end := Utf16Scan(bytes, i, lim);
      && (end == -1 <==> forall k :: i <= k < lim - 1 ==> !DoubleZeroAt(bytes, k))
      && (end != -1 ==> DoubleZeroAt(bytes, end) && forall k :: i <= k < end ==> !DoubleZeroAt(bytes, k))
    decreases lim - i
  {
    if i + 1 < lim {
      if bytes[i + 1] != 0 {
        assert !DoubleZeroAt(bytes, i);
        if i + 2 < lim {
          assert !DoubleZeroAt(bytes, i + 1);
          Utf16ScanFindsFirstZeroPair(bytes, i + 2, lim);
        }
      } else if bytes[i] != 0 {
        assert !DoubleZeroAt(bytes, i);
        Utf16ScanFindsFirstZeroPair(bytes, i + 1, lim);
      } else {
        assert DoubleZeroAt(bytes, i);
      }
    }
  }

  /** UTF-16BE U+0100 U+0001 has no zero code unit, yet the search stops after one byte. */
  lemma Utf16ScanOddOffset()
    ensures Utf16Scan([0x01, 0x00, 0x00, 0x01], 0, 4) == 1
  {
  }

  /**
   * Where getString's text ends and where the position goes afterwards:
   * (end, newPos) for the remaining span [pos, lim) of a buffer.
   */
  function Terminator(bytes: seq<Byte>, pos: int, lim: int, utf16: bool): (r: (int, int))
    requires 0 <= pos < lim <= |bytes|
    ensures pos <= r.0 <= r.1 <= lim
  {
    if !utf16 then
      var end := FirstIndexOf(bytes, pos, lim, 0);
      if end < 0 then (lim, lim) else (end, end + 1)
    else
      var end := Utf16Scan(bytes, pos, lim);
      // (oldLimit - oldPos & 0xFFFFFFFE): the subtraction binds first, so the
      // span is rounded down to an even length.
      if end < 0 then (pos + (lim - pos) / 2 * 2, pos + (lim - pos) / 2 * 2)
      else if end + 2 <= lim then (end, end + 2) else (end, end)
  }

  /** Single-byte charsets: the text stops before the first zero byte, which is consumed. */
  lemma SingleByteTerminator(bytes: seq<Byte>, pos: int, lim: int)
    requires 0 <= pos < lim <= |bytes|
    ensures var (end, newPos) := Terminator(bytes, pos, lim, false);
      && (forall k :: pos <= k < end ==> bytes[k] != 0)
      && (end < lim ==> bytes[end] == 0 && newPos == end + 1)
      && (end == lim ==> newPos == lim)
  {
    FirstIndexOfMeaning(bytes, pos, lim, 0);
  }

  /** UTF-16: the text stops before the first zero pair, which is consumed; without one, an odd last byte is left. */
  lemma Utf16Terminator(bytes: seq<Byte>, pos: int, lim: int)
    requires 0 <= pos < lim <= |bytes|
    ensures var (end, newPos) := Terminator(bytes, pos, lim, true);
      && (forall k :: pos <= k < end && k < lim - 1 ==> !DoubleZeroAt(bytes, k))
      && (newPos == end + 2 ==> DoubleZeroAt(bytes, end))
      && (newPos == end ==> (end - pos) % 2 == 0 && lim - end <= 1)
  {
    Utf16ScanFindsFirstZeroPair(bytes, pos, lim);
  }

  // ---------------------------------------------------------- toString text

  function Describe(pos: nat, lim: nat, cap: nat): string {
    "[pos=" + (JavaLang.NatToDecimal(pos) + (" lim=" + (JavaLang.NatToDecimal(lim)
      + (" cap=" + (JavaLang.NatToDecimal(cap) + "]")))))
  }

  lemma {:induction false} DigitPrefixUnique(a1: string, r1: string, a2: string, r2: string)
    requires JavaLang.AllDigits(a1) && JavaLang.AllDigits(a2)
    requires |r1| > 0 && !JavaLang.IsDigit(r1[0]) && |r2| > 0 && !JavaLang.IsDigit(r2[0])
    requires a1 + r1 == a2 + r2
    ensures a1 == a2 && r1 == r2
    decreases |a1|
  {
    var x := a1 + r1;
    assert x[0] == (if |a1| > 0 then a1[0] else r1[0]);
    assert x[0] == (if |a2| > 0 then a2[0] else r2[0]);
    if |a1| == 0 {
      assert a1 + r1 == r1 && a2 + r2 == r2;
    } else {
      assert (a1 + r1)[1..] == a1[1..] + r1;
      assert (a2 + r2)[1..] == a2[1..] + r2;
      DigitPrefixUnique(a1[1..], r1, a2[1..], r2);
      assert a1 == [a1[0]] + a1[1..] && a2 == [a2[0]] + a2[1..];
    }
  }

  lemma NatToDecimalInjective(m: nat, n: nat)
    requires JavaLang.NatToDecimal(m) == JavaLang.NatToDecimal(n)
    ensures m == n
  {
    JavaLang.DigitsValueOfDecimal(m);
    JavaLang.DigitsValueOfDecimal(n);
  }

  /** A literal, then a number, then text not starting with a digit: the number reads back. */
  lemma LiteralThenNumber(lit: string, m: nat, r1: string, n: nat, r2: string)
    requires |r1| > 0 && !JavaLang.IsDigit(r1[0]) && |r2| > 0 && !JavaLang.IsDigit(r2[0])
    requires lit + (JavaLang.NatToDecimal(m) + r1) == lit + (JavaLang.NatToDecimal(n) + r2)
    ensures m == n && r1 == r2
  {
    var x := lit + (JavaLang.NatToDecimal(m) + r1);
    var y := lit + (JavaLang.NatToDecimal(n) + r2);
    assert x[|lit|..] == JavaLang.NatToDecimal(m) + r1;
    assert y[|lit|..] == JavaLang.NatToDecimal(n) + r2;
    DigitPrefixUnique(JavaLang.NatToDecimal(m), r1, JavaLang.NatToDecimal(n), r2);
    NatToDecimalInjective(m, n);
  }

  /** toString never confuses two buffer states: position, limit and capacity read back. */
  lemma DescribeInjective(p1: nat, l1: nat, c1: nat, p2: nat, l2: nat, c2: nat)
    requires Describe(p1, l1, c1) == Describe(p2, l2, c2)
    ensures p1 == p2 && l1 == l2 && c1 == c2
  {
    var tail1 := " cap=" + (JavaLang.NatToDecimal(c1) + "]");
    var tail2 := " cap=" + (JavaLang.NatToDecimal(c2) + "]");
    var mid1 := " lim=" + (JavaLang.NatToDecimal(l1) + tail1);
    var mid2 := " lim=" + (JavaLang.NatToDecimal(l2) + tail2);
    LiteralThenNumber("[pos=", p1, mid1, p2, mid2);
    LiteralThenNumber(" lim=", l1, tail1, l2, tail2);
    LiteralThenNumber(" cap=", c1, "]", c2, "]");
  }

  // ---------------------------------------------------------- the buffer

  /**
   * The state of an IoBuffer as a value: whether it has a backing buffer,
   * its bytes, position and limit. Messages carry buffers in this form.
   */
  datatype BufferState = BufferState(hasBuffer: bool, bytes: seq<Byte>, pos: int, lim: int)
  {
    /** hasRemaining, or the NullPointerException of a buffer never allocated. */
    function HasRemaining(): (r: Result<bool>)
      ensures r.Err? <==> !hasBuffer
      ensures r.Ok? ==> (r.value <==> pos < lim)
    {
      if !hasBuffer then Err(Exn(NullPointer, "buf")) else Ok(pos < lim)
    }
  }

  type BufferView = v: BufferState | 0 <= v.pos <= v.lim <= |v.bytes| && (!v.hasBuffer ==> v.bytes == [])
    witness BufferState(false, [], 0, 0)

  class IoBuffer {
    /** buf() != null */
    var hasBuffer: bool
    /** The backing array; its length is the capacity. */
    var bytes: seq<Byte>
    var pos: int
    var lim: int

    ghost predicate Valid()
      reads this
    {
      0 <= pos <= lim <= |bytes| && (!hasBuffer ==> bytes == [] && pos == 0 && lim == 0)
    }

    /** The buffer's state as a value. */
    function View(): (v: BufferView)
      reads this
      requires Valid()
      ensures v.hasBuffer == hasBuffer && v.bytes == bytes && v.pos == pos && v.lim == lim
    {
      BufferState(hasBuffer, bytes, pos, lim)
    }

    /** A SimpleIoBuffer starts without a backing buffer. */
    constructor()
      ensures Valid() && !hasBuffer
    {
      hasBuffer := false;
      bytes := [];
      pos := 0;
      lim := 0;
    }

    /** allocate: a negative capacity throws; otherwise a fresh zeroed buffer, position 0, limit = capacity. */
    method Allocate(capacity: int) returns (o: Outcome)
      requires Valid()
      modifies this
      ensures Valid()
      ensures capacity < 0 ==>
        o == Threw(Exn(IllegalArgument, "capacity: " + JavaLang.IntToDecimal(capacity))) && unchanged(this)
      ensures capacity >= 0 ==>
        o == Done && hasBuffer && |bytes| == capacity && pos == 0 && lim == capacity
        && forall k :: 0 <= k < capacity ==> bytes[k] == 0
    {
      if capacity < 0 {
        return Threw(Exn(IllegalArgument, "capacity: " + JavaLang.IntToDecimal(capacity)));
      }
      hasBuffer := true;
      bytes := seq(capacity, k => 0);
      pos := 0;
      lim := capacity;
      o := Done;
    }

    /** available: whether a backing buffer exists. */
    function Available(): (r: bool)
      reads this
      requires Valid()
      ensures !r ==> |bytes| == 0
    {
      hasBuffer
    }

    /** remaining: bytes between position and limit. */
    function Remaining(): (r: int)
      reads this
      requires Valid() && hasBuffer
      ensures r >= 0 && pos + r == lim
    {
      lim - pos
    }

    /** hasRemaining: the position is before the limit. */
    function HasRemaining(): (r: bool)
      reads this
      requires Valid() && hasBuffer
      ensures r <==> Remaining() > 0
    {
      lim > pos
    }

    function Capacity(): (r: int)
      reads this
      requires Valid() && hasBuffer
      ensures r >= lim
    {
      |bytes|
    }

    /** flip: the written part becomes the readable part. */
    method Flip()
      requires Valid() && hasBuffer
      modifies this
      ensures Valid() && hasBuffer && bytes == old(bytes)
      ensures lim == old(pos) && pos == 0
    {
      lim := pos;
      pos := 0;
    }

    /** clear: the whole capacity becomes writable again; contents are kept. */
    method Clear()
      requires Valid() && hasBuffer
      modifies this
      ensures Valid() && hasBuffer && bytes == old(bytes)
      ensures pos == 0 && lim == |bytes|
    {
      pos := 0;
      lim := |bytes|;
    }

    /** free: a no-op for this buffer. */
    method Free()
    {
    }

    /** limit(n): java.nio rejects n outside [0, capacity] and pulls the position back to n. */
    method SetLimit(newLimit: int) returns (o: Outcome)
      requires Valid() && hasBuffer
      modifies this
      ensures Valid() && hasBuffer && bytes == old(bytes)
      ensures o.Threw? <==> newLimit < 0 || newLimit > |bytes|
      ensures o.Threw? ==> o.exn.kind == IllegalArgument && pos == old(pos) && lim == old(lim)
      ensures o.Done? ==> lim == newLimit && pos == if old(pos) > newLimit then newLimit else old(pos)
    {
      if newLimit < 0 || newLimit > |bytes| {
        return Threw(Exn(IllegalArgument, "newLimit"));
      }
      lim := newLimit;
      if pos > newLimit {
        pos := newLimit;
      }
      o := Done;
    }

    /** position(n): java.nio rejects n outside [0, limit]. */
    method SetPosition(newPosition: int) returns (o: Outcome)
      requires Valid() && hasBuffer
      modifies this
      ensures Valid() && hasBuffer && bytes == old(bytes) && lim == old(lim)
      ensures o.Threw? <==> newPosition < 0 || newPosition > lim
      ensures o.Threw? ==> o.exn.kind == IllegalArgument && pos == old(pos)
      ensures o.Done? ==> pos == newPosition
    {
      if newPosition < 0 || newPosition > lim {
        return Threw(Exn(IllegalArgument, "newPosition"));
      }
      pos := newPosition;
      o := Done;
    }

    /** get(): the byte at the position, which advances; BufferUnderflowException at the limit. */
    method Get() returns (r: Result<Byte>)
      requires Valid() && hasBuffer
      modifies this
      ensures Valid() && hasBuffer && bytes == old(bytes) && lim == old(lim)
      ensures r.Err? <==> old(pos) >= lim
      ensures r.Err? ==> pos == old(pos) && r.exn.kind == Runtime
      ensures r.Ok? ==> r.value == bytes[old(pos)] && pos == old(pos) + 1
    {
      if pos >= lim {
        return Err(Exn(Runtime, "BufferUnderflowException"));
      }
      r := Ok(bytes[pos]);
      pos := pos + 1;
    }

    /** get(index): absolute read below the limit; IndexOutOfBoundsException otherwise. */
    method GetAt(index: int) returns (r: Result<Byte>)
      requires Valid() && hasBuffer
      ensures r.Err? <==> index < 0 || index >= lim
      ensures r.Ok? ==> r.value == bytes[index]
    {
      if index < 0 || index >= lim {
        return Err(Exn(Runtime, "IndexOutOfBoundsException"));
      }
      r := Ok(bytes[index]);
    }

    /** indexOf: the first index in [position, limit) holding b, or -1. */
    method IndexOf(b: Byte) returns (r: int)
      requires Valid() && hasBuffer
      ensures r == -1 <==> forall k :: pos <= k < lim ==> bytes[k] != b
      ensures r != -1 ==> pos <= r < lim && bytes[r] == b && forall k :: pos <= k < r ==> bytes[k] != b
      ensures r == FirstIndexOf(bytes, pos, lim, b)
    {
      // allocate always asks for a heap buffer, whose array starts at offset 0.
      r := IndexOfIn(HeapArray(bytes, 0), bytes, pos, lim, b);
      FirstIndexOfMeaning(bytes, pos, lim, b);
    }

    /** toString: "[]" without a backing buffer, else position, limit and capacity. */
    function ToString(): (r: string)
      reads this
      requires Valid()
      ensures !hasBuffer ==> r == "[]"
      ensures hasBuffer ==> r == Describe(pos, lim, |bytes|)
    {
      if !hasBuffer then "[]" else Describe(pos, lim, |bytes|)
    }

    /**
     * getString: decode up to the terminator found by Terminator. Nothing
     * remaining gives "". An empty text only moves the position past the
     * terminator; a decoding error restores position and limit and throws
     * CharacterCodingException; success leaves the limit as it was and the
     * position after the terminator.
     */
    method GetString(decoder: CharsetDecoder) returns (r: Result<string>)
      requires Valid() && hasBuffer
      modifies this
      ensures Valid() && hasBuffer && bytes == old(bytes) && lim == old(lim)
      ensures old(pos) >= old(lim) ==> r == Ok("") && pos == old(pos)
      ensures old(pos) < old(lim) ==>
        var utf16 := |decoder.charsetName| >= 6 && decoder.charsetName[..6] == "UTF-16";
        var (end, newPos) := Terminator(bytes, old(pos), lim, utf16);
        if end == old(pos) then r == Ok("") && pos == newPos
        else match decoder.decode(bytes[old(pos)..end])
             case Some(text) => r == Ok(text) && pos == newPos
             case None => r.Err? && r.exn.kind == CharacterCoding && pos == old(pos)
    {
      if !HasRemaining() {
        return Ok("");
      }
      var utf16 := |decoder.charsetName| >= 6 && decoder.charsetName[..6] == "UTF-16";
      var oldPos := pos;
      var oldLimit := lim;
      var end, newPos := FindTerminator(utf16);
      if oldPos == end {
        pos := newPos;
        return Ok("");
      }
      // limit(end), then decode the span [oldPos, end).
      var decoded := decoder.decode(bytes[oldPos..end]);
      match decoded
      case None =>
        lim := oldLimit;
        pos := oldPos;
        r := Err(Exn(CharacterCoding, "malformed input"));
      case Some(text) =>
        lim := oldLimit;
        pos := newPos;
        r := Ok(text);
    }

    /**
     * getString's terminator search over [position, limit): zero bytes for
     * a single-byte charset, a zero pair for UTF-16.
     */
    method FindTerminator(utf16: bool) returns (end: int, newPos: int)
      requires Valid() && hasBuffer && pos < lim
      ensures (end, newPos) == Terminator(bytes, pos, lim, utf16)
    {
      var oldPos := pos;
      var oldLimit := lim;
      end := -1;
      if !utf16 {
        end := IndexOf(0);
        if end < 0 {
          end := oldLimit;
          newPos := end;
        } else {
          newPos := end + 1;
        }
      } else {
        var i := oldPos;
        while true
          invariant oldPos <= i < oldLimit
          invariant Utf16Scan(bytes, i, oldLimit) == Utf16Scan(bytes, oldPos, oldLimit)
          decreases oldLimit - i
        {
          var wasZero := bytes[i] == 0;
          i := i + 1;
          if i >= oldLimit {
            break;
          }
          if bytes[i] != 0 {
            i := i + 1;
            if i >= oldLimit {
              break;
            }
            continue;
          }
          if wasZero {
            end := i - 1;
            break;
          }
        }
        if end < 0 {
          end := oldPos + (oldLimit - oldPos) / 2 * 2;
          newPos := end;
        } else if end + 2 <= oldLimit {
          newPos := end + 2;
        } else {
          newPos := end;
        }
      }
    }

    /**
     * putString: an empty string writes nothing; otherwise the encoder
     * writes the bytes of each character that fits, from the position on,
     * and a character it cannot encode throws CharacterCodingException, one
     * that does not fit the overflow RuntimeException, after what was
     * written before it.
     */
    method PutString(val: string, encoder: CharsetEncoder) returns (o: Outcome)
      requires Valid() && hasBuffer
      modifies this
      ensures Valid() && hasBuffer && lim == old(lim) && |bytes| == |old(bytes)|
      ensures |val| == 0 ==> o == Done && unchanged(this)
      ensures |val| > 0 ==>
        var (written, end, _) := EncodeInto(val, encoder, old(lim) - old(pos));
        pos == old(pos) + |written| && bytes == old(bytes)[..old(pos)] + written + old(bytes)[old(pos) + |written|..]
        && (end == Underflow ==> o == Done)
        && (end == Overflow ==> o.Threw? && o.exn.kind == Runtime)
        && (end == Unmappable ==> o.Threw? && o.exn.kind == CharacterCoding)
    {
      if |val| == 0 {
        return Done;
      }
      var (written, end, _) := EncodeInto(val, encoder, lim - pos);
      bytes := bytes[..pos] + written + bytes[pos + |written|..];
      pos := pos + |written|;
      match end
      case Underflow => o := Done;
      case Overflow => o := Threw(Exn(Runtime, "but that wasn't enough for '" + val + "'"));
      case Unmappable => o := Threw(Exn(CharacterCoding, "unmappable character"));
    }
  }
}
