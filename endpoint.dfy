/** `Endpoint`: a request descriptor together with the shape of its body and of its
    result, the protocol's defaults, and `request(baseUrl:)`, which assembles the
    `URLRequest`. */
module Endpoints {
  import opened Wrappers
  import Utf8
  import Text
  import Seqs
  import Values
  import Http
  import Methods
  import Paths
  import Queries
  import Headers
  import ContentTypes
  import Accepts
  import ResultBuilder
  import Requests
  import Errors

  /** What the endpoint sends: nothing, raw `Data` (`Input == Data`), or an `Encodable`
      input with what its encoder makes of it. */
  datatype Input = NoInput | DataInput(body: Utf8.Bytes) | EncodableInput(typeName: string, encoded: Errors.EncodeOutcome)

  /** What the endpoint returns: the raw `Data`, or a `Decodable` output. */
  datatype Output = DataOutput | DecodableOutput(typeName: string)

  datatype Endpoint = Endpoint(request: Requests.Request, input: Input, output: Output)
  {
    /** `path` as a `Path`. */
    function PathOf(): (r: Paths.Path)
      ensures r.rawValue == request.path
    {
      Paths.Init(request.path)
    }
  }

  /** The protocol's default `queries`: a block holding only `EmptyQuery()`. */
  function DefaultQueries(): (r: seq<Queries.Query>)
    ensures r == []
  {
    ResultBuilder.BlockSingle<Queries.Query>(ResultBuilder.Empty);
    ResultBuilder.BuildBlock<Queries.Query>([ResultBuilder.Empty])
  }

  /** The protocol's default `headers`: a block of the Content-Type and Accept headers. */
  function DefaultHeaders(): (r: seq<Headers.Header>)
    ensures r == Requests.DefaultHeaders()
  {
    var hs := Requests.DefaultHeaders();
    var parts := [ResultBuilder.Single(hs[0]), ResultBuilder.Single(hs[1])];
    ResultBuilder.BlockAppend([parts[0]], [parts[1]]);
    ResultBuilder.BlockSingle(parts[0]);
    ResultBuilder.BlockSingle(parts[1]);
    assert [parts[0]] + [parts[1]] == parts;
    ResultBuilder.BuildBlock(parts)
  }

  /** The descriptor an endpoint has when it keeps every protocol default: method GET,
      no queries, the JSON headers, the protocol's cache policy, 60 seconds, every flag on. */
  function Defaults(path: string): (r: Requests.Request)
    ensures r == Requests.Init(Methods.GET, path)
  {
    Requests.Request(Methods.GET, path, DefaultQueries(), DefaultHeaders(),
      Http.UseProtocolCachePolicy, 60.0, true, true, true)
  }

  /** The default method is GET whatever the endpoint sends or expects: an encodable
      endpoint that keeps the default is a GET too. */
  lemma DefaultMethodIgnoresShape(path: string, input: Input, output: Output)
    ensures Endpoint(Defaults(path), input, output).request.httpMethod == Methods.GET
    ensures input.EncodableInput? ==> Endpoint(Defaults(path), input, output).request.httpMethod != Methods.POST
  {
    Methods.Constants();
  }

  // Query items

  predicate HasValue(q: Queries.Query) {
    q.value.Some?
  }

  /** `URLQueryItem(name: q.name, value: q.value!.description)`. */
  function ToItem(q: Queries.Query): (r: Http.QueryItem)
    ensures r.name == q.name && r.value == Values.DescriptionOf(q.value)
  {
    Http.QueryItem(q.name, Values.DescriptionOf(q.value))
  }

  /** The items the endpoint's queries contribute: those with a value, in order. */
  function EmittedItems(qs: seq<Queries.Query>): (r: seq<Http.QueryItem>)
    ensures |r| <= |qs|
    ensures forall i :: 0 <= i < |r| ==> r[i].value.Some?
  {
    var kept := Seqs.Filter(HasValue, qs);
    assert forall i :: 0 <= i < |kept| ==> kept[i] in kept;
    Seqs.Map(ToItem, kept)
  }

  /** No emitted item lacks a value. */
  lemma EmittedItemsHaveValues(qs: seq<Queries.Query>)
    ensures forall it :: it in EmittedItems(qs) ==> it.value.Some?
  {
    var f := Seqs.Filter(HasValue, qs);
    var r := EmittedItems(qs);
    forall it | it in r ensures it.value.Some? {
      var i :| 0 <= i < |r| && r[i] == it;
      assert f[i] in f;
    }
  }

  /** The base URL's own items followed by the endpoint's. */
  function CombinedItems(base: Http.Url, qs: seq<Queries.Query>): (r: seq<Http.QueryItem>)
    ensures base.queryItems.None? ==> r == EmittedItems(qs)
    ensures |r| >= |EmittedItems(qs)| && r[|r| - |EmittedItems(qs)|..] == EmittedItems(qs)
  {
    (match base.queryItems case None => [] case Some(items) => items) + EmittedItems(qs)
  }

  /** `if !items.isEmpty { components.queryItems = items }`. */
  function WithItems(base: Http.Url, qs: seq<Queries.Query>): (r: Http.Url)
    ensures r.origin == base.origin && r.segments == base.segments
    ensures r.queryItems == base.queryItems || r.queryItems == Some(CombinedItems(base, qs))
  {
    var items := CombinedItems(base, qs);
    if |items| > 0 then base.(queryItems := Some(items)) else base
  }

  /** The query items of a concatenation of query lists are the items of each, in order. */
  lemma EmittedItemsAppend(xs: seq<Queries.Query>, ys: seq<Queries.Query>)
    ensures EmittedItems(xs + ys) == EmittedItems(xs) + EmittedItems(ys)
  {
    Seqs.FilterAppend(HasValue, xs, ys);
    Seqs.MapAppend(ToItem, Seqs.Filter(HasValue, xs), Seqs.Filter(HasValue, ys));
  }

  /** A query without a value contributes nothing; one with a value contributes exactly
      one item, its name and its value's description. */
  lemma EmittedItemsOfOne(q: Queries.Query)
    ensures q.value.None? ==> EmittedItems([q]) == []
    ensures q.value.Some? ==> EmittedItems([q]) == [Http.QueryItem(q.name, Some(q.value.value.Description()))]
  {
    assert [q][1..] == [];
  }

  /** An item is emitted exactly when some query with that name has a value whose
      description is the item's value. */
  lemma {:induction false} EmittedItemsMembership(qs: seq<Queries.Query>, name: string, text: string)
    ensures Http.QueryItem(name, Some(text)) in EmittedItems(qs)
        <==> exists i :: 0 <= i < |qs| && qs[i].name == name && qs[i].value.Some? && qs[i].value.value.Description() == text
    decreases |qs|
  {
    var item := Http.QueryItem(name, Some(text));
    if qs != [] {
      assert qs == [qs[0]] + qs[1..];
      EmittedItemsAppend([qs[0]], qs[1..]);
      EmittedItemsOfOne(qs[0]);
      EmittedItemsMembership(qs[1..], name, text);
      if exists i :: 0 <= i < |qs| && qs[i].name == name && qs[i].value.Some? && qs[i].value.value.Description() == text {
        var i :| 0 <= i < |qs| && qs[i].name == name && qs[i].value.Some? && qs[i].value.value.Description() == text;
        if i > 0 {
          assert qs[1..][i - 1] == qs[i];
        }
      }
      if item in EmittedItems(qs[1..]) {
        var j :| 0 <= j < |qs[1..]| && qs[1..][j].name == name && qs[1..][j].value.Some? && qs[1..][j].value.value.Description() == text;
        assert qs[j + 1] == qs[1..][j];
      }
    }
  }

  /** The combined list keeps the base URL's items first, unchanged. */
  lemma CombinedKeepsBase(base: Http.Url, qs: seq<Queries.Query>, items: seq<Http.QueryItem>)
    requires base.queryItems == Some(items)
    ensures CombinedItems(base, qs)[..|items|] == items
    ensures CombinedItems(base, qs)[|items|..] == EmittedItems(qs)
  {
  }

  /** The query component is touched only when there is at least one item; then it holds them all. */
  lemma WithItemsWritesOnlyNonEmpty(base: Http.Url, qs: seq<Queries.Query>)
    ensures CombinedItems(base, qs) == [] ==> WithItems(base, qs) == base
    ensures CombinedItems(base, qs) != [] ==> WithItems(base, qs).queryItems == Some(CombinedItems(base, qs))
    ensures WithItems(base, qs).origin == base.origin && WithItems(base, qs).segments == base.segments
  {
  }

  // Header fields

  /** `(header.name, header.value?.description)`. */
  function ToPair(h: Headers.Header): (r: (string, Option<string>))
    ensures r.0 == h.name && r.1 == Values.DescriptionOf(h.value)
  {
    (h.name, Values.DescriptionOf(h.value))
  }

  /** `Dictionary(pairs) { h1, _ in h1 }`: pairs are taken in order and a key already in
      the dictionary keeps the value it has. */
  function Uniquing(pairs: seq<(string, Option<string>)>): map<string, Option<string>>
    decreases |pairs|
  {
    if pairs == [] then map[]
    else
      var m := Uniquing(pairs[..|pairs| - 1]);
      var last := pairs[|pairs| - 1];
      if last.0 in m then m else m[last.0 := last.1]
  }

  /** `.compactMapValues { $0 }`: entries whose value is nil are dropped. */
  function CompactValues(m: map<string, Option<string>>): (r: map<string, string>)
    ensures forall k :: k in r <==> k in m && m[k].Some?
    ensures forall k :: k in r ==> Some(r[k]) == m[k]
  {
    map k | k in m && m[k].Some? :: m[k].value
  }

  /** `allHTTPHeaderFields` as the assembler sets it. */
  function HeaderFields(hs: seq<Headers.Header>): map<string, string> {
    CompactValues(Uniquing(Seqs.Map(ToPair, hs)))
  }

  /** The index of the first header with the given name, if any: a reference definition
      by search from the front. */
  function FirstNamed(hs: seq<Headers.Header>, name: string): (r: Option<nat>)
    ensures r.Some? ==> r.value < |hs| && hs[r.value].name == name
    ensures r.Some? ==> forall j :: 0 <= j < r.value ==> hs[j].name != name
    ensures r.None? ==> forall j :: 0 <= j < |hs| ==> hs[j].name != name
    decreases |hs|
  {
    if hs == [] then None
    else if hs[0].name == name then Some(0)
    else match FirstNamed(hs[1..], name)
      case None => None
      case Some(i) => Some(i + 1)
  }

  /** The dictionary holds a key exactly when some pair has it, with the value of the FIRST such pair. */
  lemma {:induction false} UniquingFirstWins(pairs: seq<(string, Option<string>)>, name: string)
    ensures name in Uniquing(pairs) <==> exists i :: 0 <= i < |pairs| && pairs[i].0 == name
    ensures name in Uniquing(pairs) ==>
      exists i :: 0 <= i < |pairs| && pairs[i].0 == name && Uniquing(pairs)[name] == pairs[i].1
        && forall j :: 0 <= j < i ==> pairs[j].0 != name
    decreases |pairs|
  {
    if pairs != [] {
      var front := pairs[..|pairs| - 1];
      var last := pairs[|pairs| - 1];
      UniquingFirstWins(front, name);
      forall i | 0 <= i < |front| ensures front[i] == pairs[i] { }
      if name in Uniquing(front) {
        var i :| 0 <= i < |front| && front[i].0 == name && Uniquing(front)[name] == front[i].1
          && forall j :: 0 <= j < i ==> front[j].0 != name;
        assert pairs[i].0 == name && Uniquing(pairs)[name] == pairs[i].1;
      } else if last.0 == name {
        assert pairs[|pairs| - 1].0 == name && Uniquing(pairs)[name] == pairs[|pairs| - 1].1;
      } else {
        assert name !in Uniquing(pairs);
        forall i | 0 <= i < |pairs| ensures pairs[i].0 != name {
          if i < |front| {
            assert pairs[i] == front[i];
          }
        }
      }
    }
  }

  /** The assembled header fields, stated per name against the reference search: a name is
      present exactly when its FIRST header has a value, and then it maps to that value's
      description. A later header of the same name never shows, even when the first one
      is nil. */
  lemma HeaderFieldsFirstWins(hs: seq<Headers.Header>, name: string)
    ensures name in HeaderFields(hs) <==> FirstNamed(hs, name).Some? && hs[FirstNamed(hs, name).value].value.Some?
    ensures name in HeaderFields(hs) ==>
      HeaderFields(hs)[name] == hs[FirstNamed(hs, name).value].value.value.Description()
  {
    var pairs := Seqs.Map(ToPair, hs);
    UniquingFirstWins(pairs, name);
    var f := FirstNamed(hs, name);
    if name in Uniquing(pairs) {
      var i :| 0 <= i < |pairs| && pairs[i].0 == name && Uniquing(pairs)[name] == pairs[i].1
        && forall j :: 0 <= j < i ==> pairs[j].0 != name;
      FirstNamedIsLeast(hs, name, i);
    } else {
      assert forall i :: 0 <= i < |hs| ==> hs[i].name != name by {
        forall i | 0 <= i < |hs| ensures hs[i].name != name {
          assert pairs[i].0 == hs[i].name;
        }
      }
    }
  }

  /** The first index carrying a name is what the search finds. */
  lemma {:induction false} FirstNamedIsLeast(hs: seq<Headers.Header>, name: string, i: nat)
    requires i < |hs| && hs[i].name == name
    requires forall j :: 0 <= j < i ==> hs[j].name != name
    ensures FirstNamed(hs, name) == Some(i)
    decreases i
  {
    if i > 0 {
      assert hs[0].name != name;
      FirstNamedIsLeast(hs[1..], name, i - 1);
    }
  }

  /** Concretely: a nil Content-Type first hides a later one that has a value. */
  lemma NilFirstHidesLater(v: Values.Value)
    ensures "Content-Type" !in HeaderFields([Headers.Header("Content-Type", None), Headers.Header("Content-Type", Some(v))])
  {
    var hs := [Headers.Header("Content-Type", None), Headers.Header("Content-Type", Some(v))];
    HeaderFieldsFirstWins(hs, "Content-Type");
  }

  // Assembly

  /** The message of `badEndpoint`; `selfText` is how the endpoint value renders by reflection. */
  function BadEndpointMessage(selfText: string, baseUrl: Http.BaseUrl): (r: string)
    ensures |r| >= 39 + |selfText| + |baseUrl.text|
    ensures r[..39] == "Unable to construct URL from endpoint: "
    ensures r[39..39 + |selfText|] == selfText && r[|r| - |baseUrl.text|..] == baseUrl.text
  {
    "Unable to construct URL from endpoint: " + selfText + Errors.Dash + "baseURL: " + baseUrl.text
  }

  /** What `request(baseUrl:)` returns; `formable` says whether Foundation can form a URL from
      the given components (`components.url` is not nil). */
  function Assembled(r: Requests.Request, baseUrl: Http.BaseUrl, formable: Http.Url -> bool, selfText: string)
    : (a: Result<Http.UrlRequest, Errors.EndpointError>)
    ensures a.Err? ==> a.error == Errors.BadEndpoint(BadEndpointMessage(selfText, baseUrl))
    ensures a.Ok? ==> a.value.url.Some? && a.value.httpBody.None? && a.value.httpMethod == Some(r.httpMethod.rawValue)
  {
    match baseUrl.components
    case None => Err(Errors.BadEndpoint(BadEndpointMessage(selfText, baseUrl)))
    case Some(components) =>
      var withItems := WithItems(components, r.queries);
      if !formable(withItems) then Err(Errors.BadEndpoint(BadEndpointMessage(selfText, baseUrl)))
      else
        var url := Http.AppendingPathComponent(withItems, r.path);
        Ok(Http.UrlRequest(Some(url), Some(r.httpMethod.rawValue), Some(HeaderFields(r.headers)), None,
          r.cachePolicy, r.timeout, r.allowsCellularAccess, r.allowsExpensiveNetworkAccess,
          r.allowsConstrainedNetworkAccess))
  }

  /** `request(baseUrl:)`, step by step. */
  method Assemble(r: Requests.Request, baseUrl: Http.BaseUrl, formable: Http.Url -> bool, selfText: string)
    returns (result: Result<Http.UrlRequest, Errors.EndpointError>)
    ensures result == Assembled(r, baseUrl, formable, selfText)
  {
    if baseUrl.components.None? {
      return Err(Errors.BadEndpoint(BadEndpointMessage(selfText, baseUrl)));
    }
    var components := baseUrl.components.value;
    var queries := EmittedItems(r.queries);
    var items := if components.queryItems.Some? then components.queryItems.value else [];
    items := items + queries;
    if |items| != 0 {
      components := components.(queryItems := Some(items));
    }
    if !formable(components) {
      return Err(Errors.BadEndpoint(BadEndpointMessage(selfText, baseUrl)));
    }
    var url := Http.AppendingPathComponent(components, r.path);
    var request := Http.NewRequest(url, r.cachePolicy, r.timeout);
    var fields := HeaderFields(r.headers);
    request := request.(httpMethod := Some(r.httpMethod.rawValue));
    request := request.(allHTTPHeaderFields := Some(fields));
    request := request.(allowsCellularAccess := r.allowsCellularAccess);
    request := request.(allowsExpensiveNetworkAccess := r.allowsExpensiveNetworkAccess);
    request := request.(allowsConstrainedNetworkAccess := r.allowsConstrainedNetworkAccess);
    return Ok(request);
  }

  /** What an assembled request carries: the URL is the base with the combined query items
      and the path appended as one more segment; the method is the raw value; the header
      map is `HeaderFields`; timeout, cache policy and flags are copied; there is no body.
      Assembly fails, with `badEndpoint`, exactly when the base URL cannot be decomposed or
      the final URL cannot be formed. */
  lemma AssembledFields(r: Requests.Request, baseUrl: Http.BaseUrl, formable: Http.Url -> bool, selfText: string)
    ensures var a := Assembled(r, baseUrl, formable, selfText);
      (a.Ok? <==> baseUrl.components.Some? && formable(WithItems(baseUrl.components.value, r.queries)))
      && (a.Err? ==> a.error == Errors.BadEndpoint(BadEndpointMessage(selfText, baseUrl)))
      && (a.Ok? ==>
        var base := baseUrl.components.value;
        var u := a.value;
        u.url.Some? && u.url.value.origin == base.origin
        && u.url.value.segments == base.segments + [r.path]
        && (CombinedItems(base, r.queries) != [] ==> u.url.value.queryItems == Some(CombinedItems(base, r.queries)))
        && (CombinedItems(base, r.queries) == [] ==> u.url.value.queryItems == base.queryItems)
        && u.httpMethod == Some(r.httpMethod.rawValue)
        && u.allHTTPHeaderFields == Some(HeaderFields(r.headers))
        && u.httpBody.None?
        && u.cachePolicy == r.cachePolicy && u.timeoutInterval == r.timeout
        && u.allowsCellularAccess == r.allowsCellularAccess
        && u.allowsExpensiveNetworkAccess == r.allowsExpensiveNetworkAccess
        && u.allowsConstrainedNetworkAccess == r.allowsConstrainedNetworkAccess)
  {
  }

  /** A query whose value is nil, such as one left by setting `offset = nil`, changes
      nothing in the assembled request. */
  lemma NilQueryNeverEmitted(r: Requests.Request, q: Queries.Query, baseUrl: Http.BaseUrl, formable: Http.Url -> bool, selfText: string)
    requires q.value.None?
    ensures Assembled(r.(queries := r.queries + [q]), baseUrl, formable, selfText) == Assembled(r, baseUrl, formable, selfText)
  {
    EmittedItemsAppend(r.queries, [q]);
    EmittedItemsOfOne(q);
    assert EmittedItems(r.queries + [q]) == EmittedItems(r.queries);
  }
}
