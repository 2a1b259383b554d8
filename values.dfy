/** The values a query or header carries: Swift's `CustomStringConvertible`
    existential, reduced to the kinds the library stores. */
module Values {
  import opened Wrappers
  import Text

  /** Swift's `Int` on 64-bit platforms. */
  type Int64 = i: int | -0x8000_0000_0000_0000 <= i < 0x8000_0000_0000_0000

  /** The string-wrapper types of the library whose `description` is their `rawValue`. */
  datatype WrapperKind =
    | ContentTypeKind | AcceptKind | AcceptEncodingKind | UserAgentKind | AuthorizationKind

  datatype Value =
    | Str(s: string)
    | Integer(i: Int64)
    | Wrapped(kind: WrapperKind, rawValue: string)
  {
    /** `value.description`, what string interpolation writes for the value. */
    function Description(): string {
      match this
      case Str(s) => s
      case Integer(i) => Text.IntToString(i)
      case Wrapped(_, raw) => raw
    }
  }

  /** `value?.description`. */
  function DescriptionOf(v: Option<Value>): Option<string> {
    match v
    case None => None
    case Some(x) => Some(x.Description())
  }

  /** An integer value renders to a string that parses back to that integer. */
  lemma IntegerDescriptionParses(i: Int64)
    ensures Text.ParseInt(Integer(i).Description()) == Some(i as int)
  {
    Text.IntRoundTrip(i);
  }
}
