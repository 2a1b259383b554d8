/** The outcomes of the foreign JSON coders and the library's `EndpointError`, with the
    messages it reports for them. */
module Errors {
  import Utf8
  import Text
  import Http

  /** `EncodingError.Context` / `DecodingError.Context`: the coding path, as the keys'
      `stringValue`s, and the coder's explanation. */
  datatype Context = Context(codingPath: seq<string>, debugDescription: string)

  /** What `endpoint.encode()` gives: the body, `EncodingError.invalidValue`, or any
      other thrown error (by its description). */
  datatype EncodeOutcome = Encoded(data: Utf8.Bytes) | InvalidValue(context: Context) | EncodeFailed(description: string)

  /** What `endpoint.decode(data)` gives: the value (by its description), one of the four
      `DecodingError` cases, or any other thrown error. */
  datatype DecodeOutcome =
    | Decoded(value: string)
    | DataCorrupted(context: Context)
    | ValueNotFound(context: Context)
    | TypeMismatch(context: Context)
    | KeyNotFound(context: Context)
    | DecodeFailed(description: string)

  /** `EndpointError`; a type is named by its `String(describing:)`. */
  datatype EndpointError =
    | BadEndpoint(message: string)
    | UnexpectedResponse(response: Http.UrlResponse)
    | BadResponse(http: Http.HttpResponse)
    | Encoding(typeName: string, context: Context)
    | Decoding(typeName: string, context: Context)

  /** A thrown error: one the library classified, or one rethrown as it came. */
  datatype Error = Classified(error: EndpointError) | Foreign(description: string)

  /** The en dash the messages put between a type and its context. */
  const Dash := " \U{2013} "

  /** `errorDescription`: a bad endpoint reports its own message; an unexpected or bad
      response is introduced by a fixed text, unless its status is 401 or 404. */
  function ErrorDescription(e: EndpointError): (r: string)
    ensures e.BadEndpoint? ==> r == e.message
    ensures e.UnexpectedResponse? ==> |r| >= 21 && r[..21] == "Unexpected response: "
    ensures e.BadResponse? && e.http.statusCode != 401 && e.http.statusCode != 404 ==>
      |r| >= 14 && r[..14] == "Bad response: "
  {
    match e
    case BadEndpoint(message) => message
    case UnexpectedResponse(response) => "Unexpected response: " + response.Description()
    case BadResponse(response) =>
      if response.statusCode == 401 then "Authentication Required"
      else if response.statusCode == 404 then "Resource not found"
      else "Bad response: " + response.description
    case Encoding(t, context) => t + Dash + context.debugDescription
    case Decoding(t, context) => t + "." + Text.Join(context.codingPath, ".") + Dash + context.debugDescription
  }

  /** A 401 or 404 is reported by a fixed text that ignores what the response says;
      any other status reports the response itself after "Bad response: ". */
  lemma BadResponseMessages(r: Http.HttpResponse)
    ensures r.statusCode == 401 ==> ErrorDescription(BadResponse(r)) == "Authentication Required"
    ensures r.statusCode == 404 ==> ErrorDescription(BadResponse(r)) == "Resource not found"
    ensures r.statusCode != 401 && r.statusCode != 404 ==>
      var m := ErrorDescription(BadResponse(r));
      |m| == 14 + |r.description| && m[..14] == "Bad response: " && m[14..] == r.description
  {
  }

  /** Two bad responses with the same well-known status get the same message. */
  lemma KnownStatusIgnoresResponse(r1: Http.HttpResponse, r2: Http.HttpResponse)
    requires r1.statusCode == r2.statusCode && (r1.statusCode == 401 || r1.statusCode == 404)
    ensures ErrorDescription(BadResponse(r1)) == ErrorDescription(BadResponse(r2))
  {
  }

  /** The decoding message, for every coding path including the empty one: the type, a
      dot, the keys of the coding path joined by dots in order, the dash, and the coder's
      explanation. */
  lemma DecodingMessageShape(t: string, c: Context)
    ensures var m := ErrorDescription(Decoding(t, c));
      var p := Text.Join(c.codingPath, ".");
      |m| == |t| + 1 + |p| + |Dash| + |c.debugDescription|
      && m[..|t| + 1] == t + "."
      && m[|t| + 1..|t| + 1 + |p|] == p
      && m[|t| + 1 + |p|..] == Dash + c.debugDescription
  {
    var p := Text.Join(c.codingPath, ".");
    assert ErrorDescription(Decoding(t, c)) == (t + ".") + p + (Dash + c.debugDescription);
  }

  /** The decoding message names every key of the coding path and ends with the coder's
      explanation. */
  lemma DecodingMessageNamesPath(t: string, c: Context, i: nat)
    requires i < |c.codingPath|
    ensures var m := ErrorDescription(Decoding(t, c));
      m[..|t| + 1] == t + "."
      && Text.Occurs(c.codingPath[i], m)
      && Text.Occurs(c.debugDescription, m)
  {
    var path := Text.Join(c.codingPath, ".");
    var m := ErrorDescription(Decoding(t, c));
    assert m == (t + ".") + (path + Dash + c.debugDescription);
    Text.JoinContainsPart(c.codingPath, ".", i);
    Text.OccursBefore(c.codingPath[i], path, Dash + c.debugDescription);
    assert path + Dash + c.debugDescription == path + (Dash + c.debugDescription);
    Text.OccursAfter(c.codingPath[i], t + ".", path + Dash + c.debugDescription);
    Text.OccursAtStart(c.debugDescription, "");
    assert c.debugDescription + "" == c.debugDescription;
    Text.OccursAfter(c.debugDescription, t + "." + path + Dash, c.debugDescription);
  }

  /** The encoding message is the type, the dash and the coder's explanation, nothing else. */
  lemma EncodingMessageShape(t: string, c: Context)
    ensures var m := ErrorDescription(Encoding(t, c));
      |m| == |t| + 3 + |c.debugDescription|
      && m[..|t|] == t && m[|t|..|t| + 3] == Dash && m[|t| + 3..] == c.debugDescription
  {
  }
}
