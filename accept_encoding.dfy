/** `Accept-Encoding`: the `AcceptEncoding` wrapper, its constants and the `Header.acceptEncoding` property. */
module AcceptEncodings {
  import opened Wrappers
  import Values
  import Headers

  datatype AcceptEncoding = AcceptEncoding(rawValue: string)
  {
    /** `description`: the raw value itself. */
    function Description(): (r: string)
      ensures r == rawValue
    {
      rawValue
    }

    /** The value as a header stores it: the wrapper, whose description is the raw value. */
    function AsValue(): (r: Values.Value)
      ensures r.Description() == rawValue
    {
      Values.Wrapped(Values.AcceptEncodingKind, rawValue)
    }
  }

  const Gzip := AcceptEncoding("gzip")
  const Deflate := AcceptEncoding("deflate")
  const Identity := AcceptEncoding("identity")

  /** The key, named "Accept-Encoding". */
  const Key := Headers.HeaderKey("Accept-Encoding")

  /** `AcceptEncoding(rawValue:)` and the string-literal initialiser: the string is stored unchanged. */
  function Init(rawValue: string): (r: AcceptEncoding)
    ensures r.rawValue == rawValue
  {
    AcceptEncoding(rawValue)
  }

  /** The setter of `Header.acceptEncoding`: the header gets the key's name and the new value. */
  function Set(h: Headers.Header, newValue: Option<AcceptEncoding>): (r: Headers.Header)
    ensures r.name == "Accept-Encoding"
    ensures newValue.None? <==> r.value.None?
    ensures newValue.Some? ==> r.value == Some(newValue.value.AsValue())
  {
    h.Set(Key, match newValue case None => None case Some(v) => Some(v.AsValue()))
  }

  /** The getter of `Header.acceptEncoding`: always nil. */
  function Get(h: Headers.Header): (r: Option<AcceptEncoding>)
    ensures r.None?
  {
    match h.Get(Key)
    case None => None
    case Some(_) => None
  }

  /** Every value is the one its raw value initialises. */
  lemma InitRoundTrip(v: AcceptEncoding)
    ensures Init(v.rawValue) == v
  {
  }

  /** Reading the property right after setting it still yields nil. */
  lemma GetAfterSet(h: Headers.Header, v: Option<AcceptEncoding>)
    ensures Get(Set(h, v)) == None
  {
  }

  /** A header set through the property renders as "Accept-Encoding: " followed by the raw value. */
  lemma SetDescription(h: Headers.Header, v: AcceptEncoding)
    ensures Set(h, Some(v)).Description() == "Accept-Encoding: " + v.rawValue
  {
  }
}
