/** Foundation's URL-loading types, reduced to the fields the library reads and writes:
    `URLComponents`/`URL` as a record, `URLRequest`, and the two kinds of `URLResponse`. */
module Http {
  import opened Wrappers
  import Utf8
  import Text
  import Seqs

  /** `URLRequest.CachePolicy`. */
  datatype CachePolicy =
    | UseProtocolCachePolicy
    | ReloadIgnoringLocalCacheData
    | ReloadIgnoringLocalAndRemoteCacheData
    | ReturnCacheDataElseLoad
    | ReturnCacheDataDontLoad
    | ReloadRevalidatingCacheData

  /** `URLQueryItem`. */
  datatype QueryItem = QueryItem(name: string, value: Option<string>)

  /** A URL as `URLComponents` holds it: the scheme and authority, the path segments,
      and the query items (`nil` when the URL has no query). */
  datatype Url = Url(origin: string, segments: seq<string>, queryItems: Option<seq<QueryItem>>)

  /** `url.path`: the segments, each after a slash; empty when there are none. */
  function PathString(u: Url): (r: string)
    ensures u.segments == [] <==> r == ""
  {
    if u.segments == [] then "" else "/" + Text.Join(u.segments, "/")
  }

  function ItemText(item: QueryItem): string {
    match item.value
    case None => item.name
    case Some(v) => item.name + "=" + v
  }

  /** `url.absoluteString`: origin, path, and `?` with the items joined by `&` when there is a query. */
  function AbsoluteString(u: Url): (r: string)
    ensures u.queryItems.None? ==> r == u.origin + PathString(u)
  {
    u.origin + PathString(u)
    + match u.queryItems
      case None => ""
      case Some(items) => "?" + Text.Join(Seqs.Map(ItemText, items), "&")
  }

  /** `url.appendingPathComponent(component)`: one more segment after the existing ones;
      the query is kept. */
  function AppendingPathComponent(u: Url, component: string): (r: Url)
    ensures r.origin == u.origin && r.queryItems == u.queryItems
    ensures |r.segments| == |u.segments| + 1
    ensures r.segments[..|u.segments|] == u.segments && r.segments[|u.segments|] == component
  {
    u.(segments := u.segments + [component])
  }

  /** A base URL: its text and what `URLComponents(url:resolvingAgainstBaseURL:)` makes of
      it (`nil` when Foundation cannot decompose it). */
  datatype BaseUrl = BaseUrl(text: string, components: Option<Url>)

  /** `URLRequest`. */
  datatype UrlRequest = UrlRequest(
    url: Option<Url>,
    httpMethod: Option<string>,
    allHTTPHeaderFields: Option<map<string, string>>,
    httpBody: Option<Utf8.Bytes>,
    cachePolicy: CachePolicy,
    timeoutInterval: real,
    allowsCellularAccess: bool,
    allowsExpensiveNetworkAccess: bool,
    allowsConstrainedNetworkAccess: bool)

  /** `URLRequest(url:cachePolicy:timeoutInterval:)`: Foundation's defaults for the rest
      (method GET, no header fields, no body, every network flag on). */
  function NewRequest(url: Url, cachePolicy: CachePolicy, timeout: real): (r: UrlRequest)
    ensures r.url == Some(url) && r.cachePolicy == cachePolicy && r.timeoutInterval == timeout
    ensures r.httpMethod == Some("GET") && r.allHTTPHeaderFields.None? && r.httpBody.None?
  {
    UrlRequest(Some(url), Some("GET"), None, None, cachePolicy, timeout, true, true, true)
  }

  /** `HTTPURLResponse`: its status code and how it renders. */
  datatype HttpResponse = HttpResponse(statusCode: int, description: string)

  /** What the transport answers: an `HTTPURLResponse`, or some other `URLResponse`. */
  datatype UrlResponse = NonHttp(description: string) | Http(http: HttpResponse)
  {
    function Description(): string {
      match this
      case NonHttp(d) => d
      case Http(h) => h.description
    }
  }
}
