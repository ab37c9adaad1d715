/**
 * A cookie: an attribute bag that the constructor fills with `name` and
 * `value` and that the magic accessors read and write. Attributes parsed from
 * a `Set-Cookie` line (`Path`, `HttpOnly`, …) land in the same bag.
 */
module Cookies {
  import opened Wrappers

  /** The attribute bag, keyed by attribute name (case-sensitive). */
  type Bag = map<string, string>

  /** `__get`: the attribute, or null when it was never set. */
  function Lookup(bag: Bag, key: string): (r: Option<string>)
    ensures r.Some? <==> key in bag
    ensures r.Some? ==> r.value == bag[key]
  {
    if key in bag then Some(bag[key]) else None
  }

  /** A bag made by the constructor. */
  function Fresh(name: string, value: string): (bag: Bag)
    ensures Lookup(bag, "name") == Some(name) && Lookup(bag, "value") == Some(value)
    ensures bag.Keys == {"name", "value"}
  {
    map["name" := name, "value" := value]
  }

  /**
   * `__toString`: `name=value`. A missing attribute reads as PHP's null, which
   * concatenates as the empty string; the constructor makes sure both exist.
   */
  function Render(bag: Bag): (s: string)
    ensures "name" in bag && "value" in bag ==> s == bag["name"] + "=" + bag["value"]
    ensures |s| == |Lookup(bag, "name").GetOr("")| + 1 + |Lookup(bag, "value").GetOr("")|
  {
    Lookup(bag, "name").GetOr("") + "=" + Lookup(bag, "value").GetOr("")
  }

  /** Only `name` and `value` show in the serialised form: bags that agree on them render alike. */
  lemma RenderIgnoresOtherAttributes(a: Bag, b: Bag)
    requires Lookup(a, "name") == Lookup(b, "name")
    requires Lookup(a, "value") == Lookup(b, "value")
    ensures Render(a) == Render(b)
  {
  }

  /** Writing `value` (or `name`) through the bag changes the serialised form, as both live in the bag. */
  lemma RenderAfterSet(bag: Bag, v: string)
    requires "name" in bag
    ensures Render(bag["value" := v]) == bag["name"] + "=" + v
    ensures Render(bag["name" := v]) == v + "=" + Lookup(bag, "value").GetOr("")
  {
  }

  class Cookie {
    var data: Bag

    /** Both identifying attributes are present; every operation keeps it so. */
    ghost predicate Valid()
      reads this
    {
      "name" in data && "value" in data
    }

    /** `new Cookie($name, $value)`, both defaulting to the empty string. */
    constructor(name: string := "", value: string := "")
      ensures data == Fresh(name, value)
      ensures Valid()
    {
      data := Fresh(name, value);
    }

    /** `__get`: never fails; a key that was never set gives null. */
    method Get(key: string) returns (r: Option<string>)
      ensures r.Some? <==> key in data
      ensures r.Some? ==> r.value == data[key]
    {
      r := Lookup(data, key);
    }

    /** `__set`: the key now holds the value, and nothing else in the bag changes. */
    method Set(key: string, value: string)
      modifies this
      ensures data == old(data)[key := value]
      ensures old(Valid()) ==> Valid()
    {
      data := data[key := value];
    }

    /** `__isset`: the key is present, whatever its value (the empty string included). */
    method IsSet(key: string) returns (b: bool)
      ensures b <==> key in data
    {
      b := key in data;
    }

    /** `__toString`. */
    method ToString() returns (s: string)
      ensures Valid() ==> s == data["name"] + "=" + data["value"]
      ensures s == Render(data)
    {
      s := Render(data);
    }
  }

  /** A set followed by a get returns what was set and leaves the other keys alone. */
  method SetThenGet(c: Cookie, key: string, value: string, other: string) returns (got: Option<string>, kept: Option<string>)
    requires other != key
    modifies c
    ensures got == Some(value)
    ensures kept == Lookup(old(c.data), other)
  {
    c.Set(key, value);
    got := c.Get(key);
    kept := c.Get(other);
  }
}
