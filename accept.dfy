/** `Accept`: the `AcceptValue` wrapper, its constants and the `Header.accept` property. */
module Accepts {
  import opened Wrappers
  import Values
  import Headers

  datatype AcceptValue = AcceptValue(rawValue: string)
  {
    /** `description`: the raw value itself. */
    function Description(): (r: string)
      ensures r == rawValue
    {
      rawValue
    }

    /** The value as a header stores it: the wrapper, whose description is the raw value. */
    function AsValue(): (r: Values.Value)
      ensures r.Description() == rawValue
    {
      Values.Wrapped(Values.AcceptKind, rawValue)
    }
  }

  const Html := AcceptValue("text/html")
  const Xhtml := AcceptValue("application/xhtml")
  const Xml := AcceptValue("application/xml")
  const Json := AcceptValue("application/json")

  /** The key, named "Accept". */
  const Key := Headers.HeaderKey("Accept")

  /** `AcceptValue(rawValue:)` and the string-literal initialiser: the string is stored unchanged. */
  function Init(rawValue: string): (r: AcceptValue)
    ensures r.rawValue == rawValue
  {
    AcceptValue(rawValue)
  }

  /** The setter of `Header.accept`: the header gets the key's name and the new value. */
  function Set(h: Headers.Header, newValue: Option<AcceptValue>): (r: Headers.Header)
    ensures r.name == "Accept"
    ensures newValue.None? <==> r.value.None?
    ensures newValue.Some? ==> r.value == Some(newValue.value.AsValue())
  {
    h.Set(Key, match newValue case None => None case Some(v) => Some(v.AsValue()))
  }

  /** The getter of `Header.accept`: always nil. */
  function Get(h: Headers.Header): (r: Option<AcceptValue>)
    ensures r.None?
  {
    match h.Get(Key)
    case None => None
    case Some(_) => None
  }

  /** Every value is the one its raw value initialises. */
  lemma InitRoundTrip(v: AcceptValue)
    ensures Init(v.rawValue) == v
  {
  }

  /** Reading the property right after setting it still yields nil. */
  lemma GetAfterSet(h: Headers.Header, v: Option<AcceptValue>)
    ensures Get(Set(h, v)) == None
  {
  }

  /** A header set through the property renders as "Accept: " followed by the raw value. */
  lemma SetDescription(h: Headers.Header, v: AcceptValue)
    ensures Set(h, Some(v)).Description() == "Accept: " + v.rawValue
  {
  }
}
