// The few java.lang behaviours the sonf core relies on, stated exactly:
// Integer.toString, Integer.parseInt, Integer.toHexString, String.trim,
// String.split on a single literal character, and String.hashCode.
module JavaLang {
  import opened Common

  // ---------------------------------------------------------------- digits

  predicate IsDigit(c: char) {
    '0' <= c <= '9'
  }

  predicate AllDigits(s: string) {
    forall i :: 0 <= i < |s| ==> IsDigit(s[i])
  }

  function DigitChar(d: int): (c: char)
    requires 0 <= d < 10
    ensures IsDigit(c) && c as int - '0' as int == d
  {
    (('0' as int) + d) as char
  }

  // ------------------------------------------------------ Integer.toString

  /** Decimal text of a natural number, without leading zeros. */
  function NatToDecimal(n: nat): (s: string)
    ensures |s| >= 1 && AllDigits(s)
    ensures n >= 10 ==> s[0] != '0'
    decreases n
  {
    if n < 10 then [DigitChar(n)] else NatToDecimal(n / 10) + [DigitChar(n % 10)]
  }

  /** Integer.toString / string concatenation of an int or long. */
  function IntToDecimal(n: int): string {
    if n < 0 then "-" + NatToDecimal(-n) else NatToDecimal(n)
  }

  /** The value of a string of decimal digits, read left to right. */
  function DigitsValue(s: string): nat
    requires AllDigits(s)
  {
    if s == [] then 0
    else DigitsValue(s[..|s| - 1]) * 10 + (s[|s| - 1] as int - '0' as int)
  }

  lemma {:induction false} DigitsValueOfDecimal(n: nat)
    ensures DigitsValue(NatToDecimal(n)) == n
    decreases n
  {
    if n >= 10 {
      var s := NatToDecimal(n);
      assert s[..|s| - 1] == NatToDecimal(n / 10);
      DigitsValueOfDecimal(n / 10);
    }
  }

  // ------------------------------------------------------ Integer.parseInt

  /**
   * Integer.parseInt(s) in radix 10: an optional '+' or '-' followed by at
   * least one digit, whose value fits in an int; None stands for the
   * NumberFormatException.
   */
  function ParseInt(s: string): (r: Option<int>)
    ensures r.Some? ==> INT_MIN <= r.value <= INT_MAX
  {
    if |s| == 0 then None
    else
      var negative := s[0] == '-';
      var digits := if s[0] == '-' || s[0] == '+' then s[1..] else s;
      if |digits| == 0 || !AllDigits(digits) then None
      else
        var magnitude: int := DigitsValue(digits);
        var v := if negative then 0 - magnitude else magnitude;
        if INT_MIN <= v <= INT_MAX then Some(v) else None
  }

  /** parseInt reads back every int that toString writes. */
  lemma ParseIntOfDecimal(n: int)
    requires INT_MIN <= n <= INT_MAX
    ensures ParseInt(IntToDecimal(n)) == Some(n)
  {
    var s := IntToDecimal(n);
    if n < 0 {
      var digits := NatToDecimal(-n);
      assert s[0] == '-' && s[1..] == digits;
      DigitsValueOfDecimal(-n);
      assert 0 - DigitsValue(digits) == n;
    } else {
      assert IsDigit(s[0]);
      DigitsValueOfDecimal(n);
    }
  }

  // --------------------------------------------------- Integer.toHexString

  function HexDigitLower(d: int): (c: char)
    requires 0 <= d < 16
  {
    if d < 10 then DigitChar(d) else (('a' as int) + d - 10) as char
  }

  /** Integer.toHexString: unsigned 32-bit value in lower-case hex, no leading zeros. */
  function ToHexString(i: int): (s: string)
    requires INT_MIN <= i <= INT_MAX
    ensures |s| >= 1
  {
    NatToHex(if i < 0 then i + 0x1_0000_0000 else i)
  }

  function NatToHex(n: nat): (s: string)
    ensures |s| >= 1
    decreases n
  {
    if n < 16 then [HexDigitLower(n)] else NatToHex(n / 16) + [HexDigitLower(n % 16)]
  }

  // ------------------------------------------------------------ String.trim

  /** String.trim: strip leading and trailing characters up to U+0020. */
  function Trim(s: string): string {
    TrimEnd(TrimStart(s))
  }

  function TrimStart(s: string): string {
    if |s| > 0 && s[0] <= ' ' then TrimStart(s[1..]) else s
  }

  function TrimEnd(s: string): string {
    if |s| > 0 && s[|s| - 1] <= ' ' then TrimEnd(s[..|s| - 1]) else s
  }

  predicate AllWhite(s: string) {
    forall i :: 0 <= i < |s| ==> s[i] <= ' '
  }

  lemma {:induction false} TrimEndEmpty(s: string)
    ensures |TrimEnd(s)| == 0 <==> AllWhite(s)
  {
    if |s| > 0 && s[|s| - 1] <= ' ' {
      TrimEndEmpty(s[..|s| - 1]);
      assert forall i :: 0 <= i < |s| - 1 ==> s[..|s| - 1][i] == s[i];
    }
  }

  lemma {:induction false} TrimStartWhite(s: string)
    ensures AllWhite(TrimStart(s)) <==> AllWhite(s)
  {
    if |s| > 0 && s[0] <= ' ' {
      TrimStartWhite(s[1..]);
      assert forall i :: 1 <= i < |s| ==> s[1..][i - 1] == s[i];
    }
  }

  /** A string trims to nothing exactly when every character is at most U+0020. */
  lemma TrimEmptyIffAllWhite(s: string)
    ensures |Trim(s)| == 0 <==> AllWhite(s)
  {
    TrimEndEmpty(TrimStart(s));
    TrimStartWhite(s);
  }

  // ----------------------------------------------------------- String.split

  /** Every field between occurrences of sep (n separators give n + 1 fields). */
  function SplitAll(s: string, sep: char): (parts: seq<string>)
    ensures |parts| >= 1
    ensures forall k :: 0 <= k < |parts| ==> sep !in parts[k]
  {
    if |s| == 0 then [""]
    else
      var rest := SplitAll(s[1..], sep);
      if s[0] == sep then [""] + rest
      else [[s[0]] + rest[0]] + rest[1..]
  }

  function Join(parts: seq<string>, sep: char): string
    requires |parts| >= 1
  {
    if |parts| == 1 then parts[0] else parts[0] + [sep] + Join(parts[1..], sep)
  }

  /** An empty last part adds only a trailing separator. */
  lemma {:induction false} JoinEmptyLast(parts: seq<string>, sep: char)
    requires |parts| >= 1
    ensures Join(parts + [""], sep) == Join(parts, sep) + [sep]
    decreases |parts|
  {
    var ext := parts + [""];
    assert ext[1..] == parts[1..] + [""];
    if |parts| > 1 {
      JoinEmptyLast(parts[1..], sep);
    }
  }

  /** Joining the fields with the separator gives the original text back. */
  lemma {:induction false} JoinSplitAll(s: string, sep: char)
    ensures Join(SplitAll(s, sep), sep) == s
  {
    if |s| > 0 {
      var rest := SplitAll(s[1..], sep);
      JoinSplitAll(s[1..], sep);
      if s[0] == sep {
        assert SplitAll(s, sep)[1..] == rest;
      } else {
        var parts := SplitAll(s, sep);
        if |rest| == 1 {
          assert parts == [[s[0]] + rest[0]];
        } else {
          assert parts[1..] == rest[1..];
          assert Join(rest, sep) == rest[0] + [sep] + Join(rest[1..], sep);
        }
      }
    }
  }

  /** A field without the separator, followed by the separator, starts a new field. */
  lemma {:induction false} SplitAllCons(x: string, sep: char, y: string)
    requires sep !in x
    ensures SplitAll(x + [sep] + y, sep) == [x] + SplitAll(y, sep)
  {
    if |x| > 0 {
      assert (x + [sep] + y)[1..] == x[1..] + [sep] + y;
      SplitAllCons(x[1..], sep, y);
      assert [x[0]] + x[1..] == x;
    } else {
      assert (x + [sep] + y)[1..] == y;
    }
  }

  lemma {:induction false} SplitAllNoSep(x: string, sep: char)
    requires sep !in x
    ensures SplitAll(x, sep) == [x]
  {
    if |x| > 0 {
      SplitAllNoSep(x[1..], sep);
      assert [x[0]] + x[1..] == x;
    }
  }

  /** Splitting the join of separator-free fields gives the fields back. */
  lemma {:induction false} SplitAllJoin(fields: seq<string>, sep: char)
    requires |fields| >= 1
    requires forall k :: 0 <= k < |fields| ==> sep !in fields[k]
    ensures SplitAll(Join(fields, sep), sep) == fields
  {
    if |fields| == 1 {
      SplitAllNoSep(fields[0], sep);
    } else {
      SplitAllJoin(fields[1..], sep);
      SplitAllCons(fields[0], sep, Join(fields[1..], sep));
    }
  }

  lemma {:induction false} JoinHasSep(fields: seq<string>, sep: char)
    requires |fields| >= 2
    ensures sep in Join(fields, sep)
  {
    assert Join(fields, sep)[|fields[0]|] == sep;
  }

  /** String.split of such a join with a non-empty last field is the field list. */
  lemma SplitOfJoin(fields: seq<string>, sep: char)
    requires |fields| >= 2 && fields[|fields| - 1] != ""
    requires forall k :: 0 <= k < |fields| ==> sep !in fields[k]
    ensures Split(Join(fields, sep), sep) == fields
  {
    JoinHasSep(fields, sep);
    SplitAllJoin(fields, sep);
  }

  function DropTrailingEmpty(parts: seq<string>): (r: seq<string>)
    ensures |r| <= |parts| && r == parts[..|r|]
    ensures |r| > 0 ==> r[|r| - 1] != ""
    ensures forall k :: |r| <= k < |parts| ==> parts[k] == ""
  {
    if |parts| == 0 then []
    else if parts[|parts| - 1] == "" then DropTrailingEmpty(parts[..|parts| - 1])
    else parts
  }

  /**
   * String.split with a one-character literal pattern and limit 0: the
   * string itself when the separator never occurs, otherwise every field
   * with the trailing empty ones removed.
   */
  function Split(s: string, sep: char): seq<string> {
    if sep !in s then [s] else DropTrailingEmpty(SplitAll(s, sep))
  }

  // -------------------------------------------------------- String.hashCode

  /** String.hashCode: h = 31 * h + c over the characters, in int arithmetic. */
  function StringHash(s: string): (h: int)
    ensures INT_MIN <= h <= INT_MAX
  {
    if s == [] then 0 else Wrap32(31 * StringHash(s[..|s| - 1]) + s[|s| - 1] as int)
  }
}
