/** `Authorization`: the Basic and Bearer schemes, their type-erased wrapper and the
    `Header.authorization` property. */
module Authorizations {
  import opened Wrappers
  import Utf8
  import Base64
  import Values
  import Headers

  /** The two `AuthorizationScheme`s the library defines. */
  datatype Scheme = Basic(username: string, password: string) | Bearer(token: string)

  /** `AnyAuthorizationScheme`: only the wrapped scheme's description, taken once at init. */
  datatype AnyAuthorizationScheme = AnyAuthorizationScheme(description: string)
  {
    /** The value as a header stores it. */
    function AsValue(): (r: Values.Value)
      ensures r.Description() == description
    {
      Values.Wrapped(Values.AuthorizationKind, description)
    }
  }

  /** The key, named "Authorization". */
  const Key := Headers.HeaderKey("Authorization")

  /** `"\(username):\(password)"`, the credentials Basic sends. */
  function Credentials(username: string, password: string): (r: string)
    ensures ':' in r
    ensures |r| == |username| + 1 + |password| && r[|username|] == ':'
  {
    username + ":" + password
  }

  /** Basic's `description` as written: the credentials are base64-DECODED, an undecodable
      string falls back to empty data, and that data is base64-encoded again. */
  function BasicDescriptionAsWritten(username: string, password: string): (r: string)
    ensures |r| >= 6 && r[..6] == "Basic "
  {
    var decoded := match Base64.Decode(Credentials(username, password))
      case None => []
      case Some(b) => b;
    "Basic " + Base64.Encode(decoded)
  }

  /** As written the credentials never reach the header: the colon is outside the base64
      alphabet, decoding always fails, and every user and password give "Basic ". */
  lemma BasicAsWrittenDropsCredentials(username: string, password: string)
    ensures BasicDescriptionAsWritten(username, password) == "Basic "
  {
    Base64.ColonIsRejected(Credentials(username, password));
  }

  /** Basic as section 2 of RFC 7617 defines it: "Basic " and the base64 encoding of the
      UTF-8 bytes of the credentials. */
  function BasicDescription(username: string, password: string): (r: string)
    ensures |r| >= 6 && r[..6] == "Basic "
  {
    "Basic " + Base64.Encode(Utf8.Encode(Credentials(username, password)))
  }

  /** The corrected Basic value decodes back to the credentials. */
  lemma BasicRecoversCredentials(username: string, password: string)
    ensures var r := BasicDescription(username, password);
      match Base64.Decode(r[6..])
      case None => false
      case Some(bytes) => Utf8.Decode(bytes) == Some(Credentials(username, password))
  {
    var c := Credentials(username, password);
    var r := BasicDescription(username, password);
    assert r[6..] == Base64.Encode(Utf8.Encode(c));
    Base64.DecodeEncode(Utf8.Encode(c));
    Utf8.DecodeEncode(c);
  }

  /** Different credentials give different corrected Basic values. */
  lemma BasicInjective(u1: string, p1: string, u2: string, p2: string)
    requires BasicDescription(u1, p1) == BasicDescription(u2, p2)
    ensures Credentials(u1, p1) == Credentials(u2, p2)
  {
    BasicRecoversCredentials(u1, p1);
    BasicRecoversCredentials(u2, p2);
  }

  /** Bearer's `description`: "Bearer " and the token (section 2.1 of RFC 6750). */
  function BearerDescription(token: string): (r: string)
    ensures |r| == 7 + |token| && r[..7] == "Bearer " && r[7..] == token
  {
    "Bearer " + token
  }

  /** A scheme's `description`; Basic uses the corrected encoding. */
  function Description(s: Scheme): (r: string)
    ensures s.Basic? ==> |r| >= 6 && r[..6] == "Basic "
    ensures s.Bearer? ==> |r| == 7 + |s.token| && r[..7] == "Bearer " && r[7..] == s.token
  {
    match s
    case Basic(u, p) => BasicDescription(u, p)
    case Bearer(t) => BearerDescription(t)
  }

  /** `AnyAuthorizationScheme(scheme)`: freezes the scheme's description. */
  function Erase(s: Scheme): (r: AnyAuthorizationScheme)
    ensures r.description == Description(s)
  {
    AnyAuthorizationScheme(Description(s))
  }

  /** `.basic(username:password:)`, with the corrected Basic encoding. */
  function MakeBasic(username: string, password: string): (r: AnyAuthorizationScheme)
    ensures r.description == BasicDescription(username, password)
    ensures |r.description| >= 6 && r.description[..6] == "Basic "
  {
    Erase(Basic(username, password))
  }

  /** `.basic(username:password:)` as written: whatever the credentials, the frozen
      description is "Basic ". */
  function MakeBasicAsWritten(username: string, password: string): (r: AnyAuthorizationScheme)
    ensures r.description == "Basic "
  {
    BasicAsWrittenDropsCredentials(username, password);
    AnyAuthorizationScheme(BasicDescriptionAsWritten(username, password))
  }

  /** `.bearer(token:)`. */
  function MakeBearer(token: string): (r: AnyAuthorizationScheme)
    ensures r.description == "Bearer " + token
  {
    Erase(Bearer(token))
  }

  /** The two schemes never render alike: the second letter tells them apart. */
  lemma SchemesDistinguishable(s1: Scheme, s2: Scheme)
    requires s1.Basic? != s2.Basic?
    ensures Description(s1) != Description(s2)
  {
    var d1, d2 := Description(s1), Description(s2);
    assert d1[1] == (if s1.Basic? then d1[..6][1] else d1[..7][1]);
    assert d2[1] == (if s2.Basic? then d2[..6][1] else d2[..7][1]);
    assert d1[1] != d2[1];
  }

  /** The setter of `Header.authorization`: the header gets the key's name and the scheme. */
  function Set(h: Headers.Header, newValue: Option<AnyAuthorizationScheme>): (r: Headers.Header)
    ensures r.name == "Authorization"
    ensures newValue.None? <==> r.value.None?
    ensures newValue.Some? ==> r.value == Some(newValue.value.AsValue())
  {
    h.Set(Key, match newValue case None => None case Some(v) => Some(v.AsValue()))
  }

  /** The getter of `Header.authorization`: always nil. */
  function Get(h: Headers.Header): (r: Option<AnyAuthorizationScheme>)
    ensures r.None?
  {
    match h.Get(Key)
    case None => None
    case Some(_) => None
  }

  /** A Bearer header renders as "Authorization: Bearer <token>". */
  lemma BearerHeader(h: Headers.Header, token: string)
    ensures Set(h, Some(MakeBearer(token))).Description() == "Authorization: Bearer " + token
  {
  }
}
