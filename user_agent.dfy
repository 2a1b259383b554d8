/** `User-Agent`: the `UserAgentValue` wrapper and the `Header.userAgent` property. */
module UserAgents {
  import opened Wrappers
  import Values
  import Headers

  datatype UserAgentValue = UserAgentValue(rawValue: string)
  {
    /** `description`: the raw value itself. */
    function Description(): (r: string)
      ensures r == rawValue
    {
      rawValue
    }

    /** The value as a header stores it: the wrapper, whose description is the raw value. */
    function AsValue(): (r: Values.Value)
      ensures r.Description() == rawValue
    {
      Values.Wrapped(Values.UserAgentKind, rawValue)
    }
  }

  /** The key, named "User-Agent". */
  const Key := Headers.HeaderKey("User-Agent")

  /** `UserAgentValue(rawValue:)` and the string-literal initialiser: the string is stored unchanged. */
  function Init(rawValue: string): (r: UserAgentValue)
    ensures r.rawValue == rawValue
  {
    UserAgentValue(rawValue)
  }

  /** The setter of `Header.userAgent`: the header gets the key's name and the new value. */
  function Set(h: Headers.Header, newValue: Option<UserAgentValue>): (r: Headers.Header)
    ensures r.name == "User-Agent"
    ensures newValue.None? <==> r.value.None?
    ensures newValue.Some? ==> r.value == Some(newValue.value.AsValue())
  {
    h.Set(Key, match newValue case None => None case Some(v) => Some(v.AsValue()))
  }

  /** The getter of `Header.userAgent`: always nil. */
  function Get(h: Headers.Header): (r: Option<UserAgentValue>)
    ensures r.None?
  {
    match h.Get(Key)
    case None => None
    case Some(_) => None
  }

  /** Every value is the one its raw value initialises. */
  lemma InitRoundTrip(v: UserAgentValue)
    ensures Init(v.rawValue) == v
  {
  }

  /** Reading the property right after setting it still yields nil. */
  lemma GetAfterSet(h: Headers.Header, v: Option<UserAgentValue>)
    ensures Get(Set(h, v)) == None
  {
  }

  /** A header set through the property renders as "User-Agent: " followed by the raw value. */
  lemma SetDescription(h: Headers.Header, v: UserAgentValue)
    ensures Set(h, Some(v)).Description() == "User-Agent: " + v.rawValue
  {
  }
}
