// The per-session attribute map (AbstractIOSession.DefaultAttributeMap).
// Keys are AttributeKeys, values are arbitrary objects; a Java null is None.
module AttributeMaps {
  import opened Common
  import opened AttributeKeys

  class DefaultAttributeMap {
    var attributes: map<AttributeKey, object>

    constructor()
      ensures attributes == map[]
    {
      attributes := map[];
    }

    /** The objects stored as values. */
    function Values(): set<object>
      reads this
    {
      attributes.Values
    }

    /** get: a null key throws; an absent key gives null. */
    function Get(key: Option<AttributeKey>): (r: Result<Option<object>>)
      reads this
      ensures key.None? <==> r.Err?
      ensures r.Err? ==> r.exn.kind == IllegalArgument
      ensures key.Some? ==> r.value.Some? == (key.value in attributes)
      ensures key.Some? && r.value.Some? ==> r.value.value == attributes[key.value]
    {
      if key.None? then Err(Exn(IllegalArgument, "key"))
      else if key.value in attributes then Ok(Some(attributes[key.value]))
      else Ok(None)
    }

    /**
     * set: a null key throws; a null value removes the key; otherwise the
     * value is stored. Either way the previous value is returned.
     */
    method Set(key: Option<AttributeKey>, value: Option<object>) returns (r: Result<Option<object>>)
      modifies this
      ensures key.None? ==> r.Err? && r.exn.kind == IllegalArgument && attributes == old(attributes)
      ensures key.Some? ==> r == old(Get(key))
      ensures key.Some? && value.None? ==> attributes == old(attributes) - {key.value}
      ensures key.Some? && value.Some? ==> attributes == old(attributes)[key.value := value.value]
    {
      if key.None? {
        return Err(Exn(IllegalArgument, "key"));
      }
      r := Get(key);
      if value.None? {
        attributes := attributes - {key.value};
      } else {
        attributes := attributes[key.value := value.value];
      }
    }

    /**
     * setIfAbsent: a null key throws; a null value returns null and changes
     * nothing; otherwise the value is stored only when the key is absent,
     * and the value already there (or null) is returned.
     */
    method SetIfAbsent(key: Option<AttributeKey>, value: Option<object>) returns (r: Result<Option<object>>)
      modifies this
      ensures key.None? ==> r.Err? && r.exn.kind == IllegalArgument && attributes == old(attributes)
      ensures key.Some? && value.None? ==> r == Ok(None) && attributes == old(attributes)
      ensures key.Some? && value.Some? ==> r == old(Get(key))
      ensures key.Some? && value.Some? && key.value in old(attributes) ==> attributes == old(attributes)
      ensures key.Some? && value.Some? && key.value !in old(attributes) ==>
        attributes == old(attributes)[key.value := value.value]
    {
      if key.None? {
        return Err(Exn(IllegalArgument, "key"));
      }
      if value.None? {
        return Ok(None);
      }
      r := Get(key);
      if key.value !in attributes {
        attributes := attributes[key.value := value.value];
      }
    }

    /** remove: a null key throws; otherwise the key goes and its old value is returned. */
    method Remove(key: Option<AttributeKey>) returns (r: Result<Option<object>>)
      modifies this
      ensures key.None? ==> r.Err? && r.exn.kind == IllegalArgument && attributes == old(attributes)
      ensures key.Some? ==> r == old(Get(key)) && attributes == old(attributes) - {key.value}
    {
      if key.None? {
        return Err(Exn(IllegalArgument, "key"));
      }
      r := Get(key);
      attributes := attributes - {key.value};
    }

    function Contains(key: Option<AttributeKey>): (r: Result<bool>)
      reads this
      ensures key.None? <==> r.Err?
      ensures key.Some? ==> (r.value <==> key.value in attributes)
    {
      if key.None? then Err(Exn(IllegalArgument, "key")) else Ok(key.value in attributes)
    }

    /** getKeys: a copy of the key set. */
    function GetKeys(): (r: set<AttributeKey>)
      reads this
      ensures forall k :: k in r <==> Contains(Some(k)) == Ok(true)
    {
      attributes.Keys
    }
  }

  /** A value written with set is read back by get, and other keys are untouched. */
  method SetThenGet(m: DefaultAttributeMap, k: AttributeKey, v: object, other: AttributeKey)
    modifies m
    ensures m.Get(Some(k)) == Ok(Some(v))
    ensures other != k ==> m.Get(Some(other)) == old(m.Get(Some(other)))
  {
    var _ := m.Set(Some(k), Some(v));
  }
}
