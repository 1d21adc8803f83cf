// AttributeKey: a session attribute key named after its owner class and a
// key name. The constructor asks for the hash code while the name field is
// still null, so every key name carries the same suffix, "@275".
module AttributeKeys {
  import opened Common
  import JavaLang

  datatype AttributeKey = AttributeKey(name: string)

  /** hashCode() for a given state of the name field (None = still null). */
  function HashOfName(name: Option<string>): (h: int)
    ensures INT_MIN <= h <= INT_MAX
    ensures name.None? ==> h == 0x275
  {
    Wrap32(17 * 37 + (if name.None? then 0 else JavaLang.StringHash(name.value)))
  }

  /** hashCode() of a constructed key. */
  function HashCode(k: AttributeKey): int {
    HashOfName(Some(k.name))
  }

  /** new AttributeKey(clazz, name), with clazz.getName() passed as className. */
  function NewKey(className: string, key: string): (k: AttributeKey)
    ensures k.name == className + "." + key + "@275"
  {
    var hashWhileUnnamed := HashOfName(None);
    assert JavaLang.ToHexString(hashWhileUnnamed) == "275" by {
      assert JavaLang.NatToHex(2) == "2";
      assert JavaLang.NatToHex(39) == "27";
    }
    AttributeKey(className + "." + key + "@" + JavaLang.ToHexString(hashWhileUnnamed))
  }

  function ToString(k: AttributeKey): string {
    k.name
  }

  /** equals(Object): other is None when the argument is null or not an AttributeKey. */
  function Equals(k: AttributeKey, other: Option<AttributeKey>): (r: bool)
    ensures r <==> other == Some(k)
  {
    other.Some? && k.name == other.value.name
  }

  /** Equal keys hash alike, as the hashCode/equals contract requires. */
  lemma EqualKeysHashAlike(a: AttributeKey, b: AttributeKey)
    requires Equals(a, Some(b))
    ensures HashCode(a) == HashCode(b)
  {
  }

  /** Every constructed key ends in "@275", whatever its class and name. */
  lemma KeySuffixIsConstant(className: string, key: string)
    ensures var n := NewKey(className, key).name;
            |n| >= 4 && n[|n| - 4..] == "@275"
  {
  }

  /**
   * The name is a plain concatenation, so different (class, name) pairs can
   * build equal keys: the dot is not escaped.
   */
  lemma KeysCanCollide()
    ensures NewKey("a.b", "c") == NewKey("a", "b.c")
    ensures ("a.b", "c") != ("a", "b.c")
  {
  }
}
