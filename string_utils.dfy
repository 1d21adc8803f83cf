// StringUtils: null-safe string comparison, blank checks and hex encoding.
// A Java String that may be null is an Option<string>.
module StringUtils {
  import opened Common
  import JavaLang

  /** equals: two nulls are equal, a null never equals a string, otherwise contents decide. */
  function Equals(cs1: Option<string>, cs2: Option<string>): (r: bool)
    ensures r <==> cs1 == cs2
  {
    if cs1.None? && cs2.None? then true
    else cs1.Some? && cs2.Some? && cs1.value == cs2.value
  }

  /** Character.toUpperCase restricted to ASCII letters. */
  function UpperAscii(c: char): char {
    if 'a' <= c <= 'z' then (c as int - 32) as char else c
  }

  /** Character.toLowerCase restricted to ASCII letters. */
  function LowerAscii(c: char): char {
    if 'A' <= c <= 'Z' then (c as int + 32) as char else c
  }

  /** The per-character test String.equalsIgnoreCase applies. */
  predicate CharsMatchIgnoreCase(a: char, b: char) {
    a == b || UpperAscii(a) == UpperAscii(b)
      || LowerAscii(UpperAscii(a)) == LowerAscii(UpperAscii(b))
  }

  predicate SameIgnoringCase(a: string, b: string) {
    |a| == |b| && forall i :: 0 <= i < |a| ==> CharsMatchIgnoreCase(a[i], b[i])
  }

  /** equalsIgnoreCase: as equals, but letters compare without regard to case. */
  function EqualsIgnoreCase(cs1: Option<string>, cs2: Option<string>): (r: bool)
    ensures r <==> ((cs1.None? && cs2.None?)
                    || (cs1.Some? && cs2.Some? && SameIgnoringCase(cs1.value, cs2.value)))
    ensures Equals(cs1, cs2) ==> r
  {
    if cs1.None? && cs2.None? then true
    else cs1.Some? && cs2.Some? && SameIgnoringCase(cs1.value, cs2.value)
  }

  lemma IgnoreCaseSymmetric(a: Option<string>, b: Option<string>)
    ensures EqualsIgnoreCase(a, b) == EqualsIgnoreCase(b, a)
  {
  }

  /** isBlank: null, or nothing left once trimmed. */
  function IsBlank(s: Option<string>): (r: bool)
    ensures r <==> s.None? || JavaLang.AllWhite(s.value)
  {
    match s
    case None => true
    case Some(v) => JavaLang.TrimEmptyIffAllWhite(v); |JavaLang.Trim(v)| == 0
  }

  /** isNotBlank: the exact negation of isBlank. */
  function IsNotBlank(s: Option<string>): (r: bool)
    ensures r <==> s.Some? && exists i :: 0 <= i < |s.value| && s.value[i] > ' '
  {
    match s
    case None => false
    case Some(v) => JavaLang.TrimEmptyIffAllWhite(v); |JavaLang.Trim(v)| > 0
  }

  /** isAnyBlank: true for a null or empty argument list, or when some argument is blank. */
  method IsAnyBlank(ss: Option<seq<Option<string>>>) returns (r: bool)
    ensures r <==> ss.None? || |ss.value| == 0 || exists i :: 0 <= i < |ss.value| && IsBlank(ss.value[i])
  {
    if ss.None? || |ss.value| == 0 {
      return true;
    }
    var arr := ss.value;
    var i := 0;
    while i < |arr|
      invariant 0 <= i <= |arr|
      invariant forall k :: 0 <= k < i ==> !IsBlank(arr[k])
    {
      if IsBlank(arr[i]) {
        return true;
      }
      i := i + 1;
    }
    return false;
  }

  /** isNoneBlank: a non-empty argument list none of whose entries is blank. */
  method IsNoneBlank(ss: Option<seq<Option<string>>>) returns (r: bool)
    ensures r <==> ss.Some? && |ss.value| > 0 && forall i :: 0 <= i < |ss.value| ==> !IsBlank(ss.value[i])
  {
    var any := IsAnyBlank(ss);
    r := !any;
  }

  // ------------------------------------------------------------ hex encoding

  const HEX_DIGITS: seq<char> := "0123456789ABCDEF"

  /** The value of an upper-case hex digit, or None. */
  function HexValue(c: char): (r: Option<int>)
    ensures r.Some? ==> 0 <= r.value < 16 && HEX_DIGITS[r.value] == c
  {
    if '0' <= c <= '9' then Some(c as int - '0' as int)
    else if 'A' <= c <= 'F' then Some(c as int - 'A' as int + 10)
    else None
  }

  lemma HexValueOfDigit(d: int)
    requires 0 <= d < 16
    ensures HexValue(HEX_DIGITS[d]) == Some(d)
  {
  }

  /** Two characters per byte: the high nibble, then the low nibble. */
  predicate IsHexOf(r: string, bytes: seq<Byte>) {
    |r| == 2 * |bytes|
    && forall i :: 0 <= i < |bytes| ==>
         r[2 * i] == HEX_DIGITS[bytes[i] / 16] && r[2 * i + 1] == HEX_DIGITS[bytes[i] % 16]
  }

  /** Reads an upper-case hex string back into bytes. */
  function DecodeHex(s: string): Option<seq<Byte>>
    decreases |s|
  {
    if |s| == 0 then Some([])
    else if |s| == 1 then None
    else
      match (HexValue(s[0]), HexValue(s[1]), DecodeHex(s[2..]))
      case (Some(hi), Some(lo), Some(rest)) => Some([(hi * 16 + lo) as Byte] + rest)
      case _ => None
  }

  /** Dropping the first byte drops its two digits. */
  lemma IsHexOfTail(r: string, bytes: seq<Byte>)
    requires IsHexOf(r, bytes) && |bytes| > 0
    ensures IsHexOf(r[2..], bytes[1..])
  {
    forall i | 0 <= i < |bytes| - 1
      ensures r[2..][2 * i] == HEX_DIGITS[bytes[1..][i] / 16]
      ensures r[2..][2 * i + 1] == HEX_DIGITS[bytes[1..][i] % 16]
    {
      assert r[2 * (i + 1)] == HEX_DIGITS[bytes[i + 1] / 16];
      assert r[2 * (i + 1) + 1] == HEX_DIGITS[bytes[i + 1] % 16];
    }
  }

  /** A byte's two digits in front of an encoding read back as that byte in front. */
  lemma DecodeHexCons(r: string, b: Byte, rest: seq<Byte>)
    requires |r| >= 2 && r[0] == HEX_DIGITS[b / 16] && r[1] == HEX_DIGITS[b % 16]
    requires DecodeHex(r[2..]) == Some(rest)
    ensures DecodeHex(r) == Some([b] + rest)
  {
    var hi, lo := b / 16, b % 16;
    HexValueOfDigit(hi);
    HexValueOfDigit(lo);
    assert hi * 16 + lo == b;
    assert DecodeHex(r) == Some([(hi * 16 + lo) as Byte] + rest);
  }

  lemma {:induction false} DecodeHexOfEncoding(r: string, bytes: seq<Byte>)
    requires IsHexOf(r, bytes)
    ensures DecodeHex(r) == Some(bytes)
    decreases |bytes|
  {
    if |bytes| > 0 {
      IsHexOfTail(r, bytes);
      DecodeHexOfEncoding(r[2..], bytes[1..]);
      DecodeHexCons(r, bytes[0], bytes[1..]);
      assert [bytes[0]] + bytes[1..] == bytes;
    }
  }

  /**
   * byteArrayToHex: each byte as two upper-case hex digits. The source
   * takes `b >>> 4 & 0xf` of the sign-extended byte, which is the high
   * nibble of its unsigned value.
   */
  method ByteArrayToHex(byteArray: seq<Byte>) returns (r: string)
    ensures IsHexOf(r, byteArray)
    ensures DecodeHex(r) == Some(byteArray)
  {
    var result := new char[|byteArray| * 2];
    var index := 0;
    for k := 0 to |byteArray|
      invariant index == 2 * k
      invariant forall i :: 0 <= i < k ==>
        result[2 * i] == HEX_DIGITS[byteArray[i] / 16] && result[2 * i + 1] == HEX_DIGITS[byteArray[i] % 16]
    {
      var b := byteArray[k];
      result[index] := HEX_DIGITS[b / 16];
      index := index + 1;
      result[index] := HEX_DIGITS[b % 16];
      index := index + 1;
    }
    r := result[..];
    DecodeHexOfEncoding(r, byteArray);
  }
}
