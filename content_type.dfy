/** `Content-Type`: the `ContentType` wrapper, its constants and the `Header.contentType` property. */
module ContentTypes {
  import opened Wrappers
  import Values
  import Headers

  datatype ContentType = ContentType(rawValue: string)
  {
    /** `description`: the raw value itself. */
    function Description(): (r: string)
      ensures r == rawValue
    {
      rawValue
    }

    /** The value as a header stores it: the wrapper, whose description is the raw value. */
    function AsValue(): (r: Values.Value)
      ensures r.Description() == rawValue
    {
      Values.Wrapped(Values.ContentTypeKind, rawValue)
    }
  }

  const Text := ContentType("text/plain")
  const Xml := ContentType("application/xml")
  const Json := ContentType("application/json")
  const UrlEncoded := ContentType("application/x-www-form-urlencoded")

  /** The key, named "Content-Type". */
  const Key := Headers.HeaderKey("Content-Type")

  /** `ContentType(rawValue:)` and the string-literal initialiser: the string is stored unchanged. */
  function Init(rawValue: string): (r: ContentType)
    ensures r.rawValue == rawValue
  {
    ContentType(rawValue)
  }

  /** The setter of `Header.contentType`: the header gets the key's name and the new value. */
  function Set(h: Headers.Header, newValue: Option<ContentType>): (r: Headers.Header)
    ensures r.name == "Content-Type"
    ensures newValue.None? <==> r.value.None?
    ensures newValue.Some? ==> r.value == Some(newValue.value.AsValue())
  {
    h.Set(Key, match newValue case None => None case Some(v) => Some(v.AsValue()))
  }

  /** The getter of `Header.contentType`: always nil. */
  function Get(h: Headers.Header): (r: Option<ContentType>)
    ensures r.None?
  {
    match h.Get(Key)
    case None => None
    case Some(_) => None
  }

  /** Every value is the one its raw value initialises. */
  lemma InitRoundTrip(v: ContentType)
    ensures Init(v.rawValue) == v
  {
  }

  /** Reading the property right after setting it still yields nil. */
  lemma GetAfterSet(h: Headers.Header, v: Option<ContentType>)
    ensures Get(Set(h, v)) == None
  {
  }

  /** A header set through the property renders as "Content-Type: " followed by the raw value. */
  lemma SetDescription(h: Headers.Header, v: ContentType)
    ensures Set(h, Some(v)).Description() == "Content-Type: " + v.rawValue
  {
  }
}
