// DNSCache: a process-wide host -> IPv4 cache whose entries expire, and the
// IPv4 literal test NioSession uses to skip resolution. The clock
// (SystemClock.elapsedRealtime) is passed in as `now`.
module DnsCache {
  import opened Common
  import JavaLang

  /** One Integer.parseInt'd dot-separated part is an octet. */
  predicate IsOctet(part: string) {
    var v := JavaLang.ParseInt(part);
    v.Some? && 0 <= v.value <= 255
  }

  /**
   * isIpV4: split on '.', as String.split does (trailing empty fields
   * dropped), must give exactly four parts, each parsing to 0..255.
   */
  predicate IsIpV4(check: string) {
    var parts := JavaLang.Split(check, '.');
    |parts| == 4 && forall k :: 0 <= k < 4 ==> IsOctet(parts[k])
  }

  function Dotted(a: int, b: int, c: int, d: int): string {
    JavaLang.IntToDecimal(a) + "." + JavaLang.IntToDecimal(b) + "."
      + JavaLang.IntToDecimal(c) + "." + JavaLang.IntToDecimal(d)
  }

  lemma DecimalHasNoDot(n: int)
    ensures '.' !in JavaLang.IntToDecimal(n)
  {
    var s := JavaLang.IntToDecimal(n);
    if n >= 0 {
      assert forall i :: 0 <= i < |s| ==> JavaLang.IsDigit(s[i]);
    } else {
      var t := JavaLang.NatToDecimal(-n);
      assert s == "-" + t;
      assert forall i :: 0 <= i < |t| ==> JavaLang.IsDigit(t[i]);
    }
  }

  function Fields(a: int, b: int, c: int, d: int): seq<string> {
    [JavaLang.IntToDecimal(a), JavaLang.IntToDecimal(b),
     JavaLang.IntToDecimal(c), JavaLang.IntToDecimal(d)]
  }

  lemma FieldsJoin(a: int, b: int, c: int, d: int)
    ensures forall k :: 0 <= k < 4 ==> '.' !in Fields(a, b, c, d)[k]
    ensures Fields(a, b, c, d)[3] != ""
    ensures JavaLang.Join(Fields(a, b, c, d), '.') == Dotted(a, b, c, d)
    ensures JavaLang.Join(Fields(a, b, c, d) + [""], '.') == Dotted(a, b, c, d) + "."
  {
    var fields := Fields(a, b, c, d);
    DecimalHasNoDot(a); DecimalHasNoDot(b); DecimalHasNoDot(c); DecimalHasNoDot(d);
    assert |JavaLang.IntToDecimal(d)| >= 1;
    assert JavaLang.Join(fields[3..], '.') == fields[3];
    assert JavaLang.Join(fields[2..], '.') == fields[2] + "." + fields[3];
    assert JavaLang.Join(fields[1..], '.') == fields[1] + "." + fields[2] + "." + fields[3];
    JavaLang.JoinEmptyLast(fields, '.');
  }

  lemma OctetsAreOctets(a: int, b: int, c: int, d: int)
    requires 0 <= a <= 255 && 0 <= b <= 255 && 0 <= c <= 255 && 0 <= d <= 255
    ensures forall k :: 0 <= k < 4 ==> IsOctet(Fields(a, b, c, d)[k])
  {
    JavaLang.ParseIntOfDecimal(a); JavaLang.ParseIntOfDecimal(b);
    JavaLang.ParseIntOfDecimal(c); JavaLang.ParseIntOfDecimal(d);
  }

  /** Every dotted quad of octets, as Integer.toString writes them, is accepted. */
  lemma DottedQuadAccepted(a: int, b: int, c: int, d: int)
    requires 0 <= a <= 255 && 0 <= b <= 255 && 0 <= c <= 255 && 0 <= d <= 255
    ensures IsIpV4(Dotted(a, b, c, d))
  {
    FieldsJoin(a, b, c, d);
    JavaLang.SplitOfJoin(Fields(a, b, c, d), '.');
    OctetsAreOctets(a, b, c, d);
  }

  /** split drops trailing empty fields, so a dotted quad with a trailing dot is accepted too. */
  lemma TrailingDotAccepted(a: int, b: int, c: int, d: int)
    requires 0 <= a <= 255 && 0 <= b <= 255 && 0 <= c <= 255 && 0 <= d <= 255
    ensures IsIpV4(Dotted(a, b, c, d) + ".")
  {
    var fields := Fields(a, b, c, d);
    FieldsJoin(a, b, c, d);
    var ext := fields + [""];
    assert forall k :: 0 <= k < 5 ==> '.' !in ext[k];
    JavaLang.SplitAllJoin(ext, '.');
    JavaLang.JoinHasSep(ext, '.');
    assert JavaLang.DropTrailingEmpty(ext) == fields by {
      assert ext[..4] == fields;
    }
    OctetsAreOctets(a, b, c, d);
  }

  /** A first part above 255 makes the whole string a host name, not an address. */
  lemma OutOfRangeRejected(a: int, b: int, c: int, d: int)
    requires a > 255
    ensures !IsIpV4(Dotted(a, b, c, d))
  {
    FieldsJoin(a, b, c, d);
    JavaLang.SplitOfJoin(Fields(a, b, c, d), '.');
    if a <= INT_MAX {
      JavaLang.ParseIntOfDecimal(a);
    } else {
      JavaLang.DigitsValueOfDecimal(a);
      assert JavaLang.IsDigit(JavaLang.IntToDecimal(a)[0]);
    }
    assert !IsOctet(Fields(a, b, c, d)[0]);
  }

  /** An entry: the address and the clock reading at which it stops being served. */
  datatype CachedInfo = CachedInfo(ipAddress: Option<string>, expiredAt: int)

  /** CachedInfo.getIpAddress: the address while the clock is before the expiry. */
  function Served(info: CachedInfo, now: int): (r: Option<string>)
    ensures r.Some? <==> now < info.expiredAt && info.ipAddress.Some?
  {
    if now < info.expiredAt then info.ipAddress else None
  }

  /** get(host) on a given map: nothing for an unknown host or an expired entry. */
  function Lookup(entries: map<string, CachedInfo>, host: string, now: int): Option<string> {
    if host in entries then Served(entries[host], now) else None
  }

  /** The entry put(host, ip, validMs) stores at clock reading now (long arithmetic). */
  function NewEntry(ip: Option<string>, validMs: int, now: int): CachedInfo {
    CachedInfo(ip, Wrap64(now + validMs))
  }

  /** A put is served for exactly validMs milliseconds and leaves other hosts alone. */
  lemma PutThenLookup(entries: map<string, CachedInfo>, host: string, ip: string,
                      validMs: int, t: int, now: int, other: string)
    requires -LONG_MAX - 1 <= t + validMs <= LONG_MAX
    requires other != host
    ensures Lookup(entries[host := NewEntry(Some(ip), validMs, t)], host, now) == Some(ip)
            <==> now < t + validMs
    ensures Lookup(entries[host := NewEntry(Some(ip), validMs, t)], other, now)
            == Lookup(entries, other, now)
  {
  }

  /** A validity so long that now + validMs overflows a long is never served. */
  lemma OverflowingValidityNeverServed(ip: string, now: int)
    requires 0 <= now <= LONG_MAX
    ensures Served(NewEntry(Some(ip), LONG_MAX, now + 1), now + 1) == None
  {
  }

  class DNSCache {
    var entries: map<string, CachedInfo>

    constructor()
      ensures entries == map[]
    {
      entries := map[];
    }

    method Get(host: string, now: int) returns (r: Option<string>)
      ensures r == Lookup(entries, host, now)
    {
      if host in entries {
        r := Served(entries[host], now);
      } else {
        r := None;
      }
    }

    method Put(host: string, ip: Option<string>, validMs: int, now: int)
      modifies this
      ensures entries == old(entries)[host := NewEntry(ip, validMs, now)]
    {
      entries := entries[host := NewEntry(ip, validMs, now)];
    }
  }

  /** The static sInstance slot behind getInstance. */
  class DNSCacheSingleton {
    var instance: DNSCache?

    constructor()
      ensures instance == null
    {
      instance := null;
    }

    /** getInstance: creates the cache on first use, then always returns the same one. */
    method GetInstance() returns (c: DNSCache)
      modifies this
      ensures old(instance) != null ==> c == old(instance)
      ensures old(instance) == null ==> fresh(c) && c.entries == map[]
      ensures instance == c
    {
      if instance == null {
        instance := new DNSCache();
      }
      c := instance;
    }
  }
}
