/** `Query`: a name and an optional value, set through typed keys. */
module Queries {
  import opened Wrappers
  import Values

  /** A `QueryKey` type: its static `name`. */
  datatype QueryKey = QueryKey(name: string)

  /** A writable key path of `Query` together with the value assigned through it:
      `\.name`, `\.value`, or a property forwarding to a typed key. */
  datatype Assignment =
    | ToName(name: string)
    | ToValue(value: Option<Values.Value>)
    | ToKey(key: QueryKey, keyed: Option<Values.Value>)

  datatype Query = Query(name: string, value: Option<Values.Value>)
  {
    /** The setter of `self[K.self]`: the name becomes the key's name and the value the new value. */
    function Set(key: QueryKey, newValue: Option<Values.Value>): (r: Query)
      ensures r.name == key.name && r.value == newValue
    {
      Query(key.name, newValue)
    }

    /** The getter of `self[K.self]`: never reports a value, whatever the query holds. */
    function Get(key: QueryKey): (r: Option<Values.Value>)
      ensures r.None?
    {
      None
    }

    /** `self[keyPath: path] = value`. */
    function Assign(a: Assignment): (r: Query)
      ensures a.ToName? ==> r == this.(name := a.name)
      ensures a.ToValue? ==> r == this.(value := a.value)
      ensures a.ToKey? ==> r == Query(a.key.name, a.keyed)
    {
      match a
      case ToName(n) => this.(name := n)
      case ToValue(v) => this.(value := v)
      case ToKey(k, v) => Set(k, v)
    }
  }

  /** The stored defaults of a `Query`: empty name, no value. */
  const Default := Query("", None)

  /** `Query(name:value:)`. */
  function Init(name: string, value: Option<Values.Value>): (r: Query)
    ensures r.name == name && r.value == value
  {
    Query(name, value)
  }

  /** `Query(name:value:)` for a `RawRepresentable` value: its raw value is stored, not the wrapper. */
  function InitRaw(name: string, rawValue: string): (r: Query)
    ensures r.name == name
    ensures r.value == Some(Values.Str(rawValue))
    ensures r.value.value.Description() == rawValue
  {
    Query(name, Some(Values.Str(rawValue)))
  }

  /** `Query(keyPath, value:)`: the defaults with the one assignment applied. */
  function InitKeyPath(a: Assignment): (r: Query)
    ensures a.ToName? ==> r.name == a.name && r.value.None?
    ensures a.ToValue? ==> r.name == "" && r.value == a.value
    ensures a.ToKey? ==> r.name == a.key.name && r.value == a.keyed
  {
    Default.Assign(a)
  }

  /** Setting through a key forgets everything the query held before. */
  lemma SetForgetsReceiver(q1: Query, q2: Query, key: QueryKey, v: Option<Values.Value>)
    ensures q1.Set(key, v) == q2.Set(key, v)
  {
  }

  /** The last of two keyed assignments wins. */
  lemma SetLastWins(q: Query, k1: QueryKey, v1: Option<Values.Value>, k2: QueryKey, v2: Option<Values.Value>)
    ensures q.Set(k1, v1).Set(k2, v2) == q.Set(k2, v2)
  {
  }

  /** Even right after a value is set through a key, reading that key yields nil. */
  lemma GetAfterSet(q: Query, key: QueryKey, v: Option<Values.Value>)
    ensures q.Set(key, v).Get(key) == None
  {
  }
}
