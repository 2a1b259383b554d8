# Endpoints, modelled in Dafny

A model of the request-building and response-handling core of the Swift library
*Endpoints*, with proofs of what it promises.

An endpoint is a `Request` descriptor. A descriptor holds:

- the HTTP method and the path;
- the queries and headers, built with result builders;
- the cache policy, the timeout and three network-access flags.

Each endpoint also has the shape of its body (none, raw data, or an `Encodable` input) and
of its result (raw data, or a `Decodable` output).

The model covers:

- **Assembly** (`Endpoints`). The endpoint becomes a `URLRequest`:
  - the endpoint's non-nil queries are appended after the base URL's own query items;
  - the path is added as one more path component;
  - the header dictionary keeps the first header of each name, and drops nil values afterwards.
- **The service** (`Service`, `Pipeline`), an `EndpointService` object:
  - it holds its observers in a map keyed by identity;
  - each `perform` runs encode, assemble, `willBegin`, the transport, the response-kind check, the status check, `didFinish`, then decode;
  - a failure of the response kind, of the status or of a coder is sent to the observers as `didFail` and rethrown. It is classified into `EndpointError` for the known cases (`unexpectedResponse`, `badResponse`, `invalidValue` and the four `DecodingError` cases); any other coder error is rethrown as it is;
  - an assembly failure (`badEndpoint`) and an error the domain raises are thrown with no `didFail`.
- **`WeakBox`** (`Service`): the weak reference to an observer, whose `didSet` unregisters the observer once the reference is cleared.
- **The cURL rendering** of a request (`Curls`).
- **The typed keys**: Content-Type, Accept, Accept-Encoding, User-Agent, Authorization, `offset` and `limit`.
- **The `Method` and `Path` wrappers.**

The layout follows the library's files:

- `builder.dfy` holds `QueryBuilder` and `HeadersBuilder`. They are one generic result builder, because their code is the same.
- `query.dfy`, `header.dfy` and `request.dfy` hold the value types.
- `endpoint.dfy` holds the protocol defaults and `request(baseUrl:)`.
- `pipeline.dfy` states, as values, what a `perform` returns and which steps it takes.
- `service.dfy` holds the imperative classes `EndpointService` and `WeakBox`. Their methods are proved to produce exactly what `pipeline.dfy` states.
- `curl.dfy` holds `Curl`. Its `components` walks the header dictionary in a loop, so it is stated for every order that lists each header name once.

Foundation and the network are parameters:

- the base URL, the transport and Foundation's ability to form a URL. They are fields of `Pipeline.Domain`.
- the JSON coders. An endpoint carries their outcome, and the decoder is a parameter.
- how Swift renders a value by reflection. This is a `render` or `reflect` parameter.

`utf8.dfy` and `base64.dfy` model the two Foundation codecs. The Basic authorization scheme needs them.

The sources mix two API generations:

- The `Endpoint` protocol declares `method`, `path` and `queries` separately. `AnyDataEndpoint` and the service read `endpoint.request`.
- `Domain.swift` calls `urlRequest(baseUrl:)`, while `Endpoint.swift` defines `request(baseUrl:)`.

The model uses one descriptor record (`Requests.Request`) and one assembler (`Endpoints.Assemble`).

A perform usually delivers one terminal event. A decode failure is the exception: it is reported after `didFinish`, so the observers see `didFinish` and then `didFail` (`Pipeline.TerminalEvents`).

The doc comments at `Endpoint.swift:10` and `Request.swift:5` say the method defaults to `.post` for encodable endpoints. The code at `Endpoint.swift:54` gives every endpoint `.GET`, and the model follows the code (`Endpoints.DefaultMethodIgnoresShape`).

## Model

| member | source | states |
|---|---|---|
| `ResultBuilder.Items` | Sources/Endpoints/Models/Query.swift:40-51 | a single query contributes `[self]`, an array contributes itself, the empty marker contributes nothing (the same for headers) |
| `ResultBuilder.BuildBlock` | Sources/Endpoints/Models/Query.swift:55-57 | the block's length is the sum of the lengths of its parts |
| `ResultBuilder.BuildOptional` | Sources/Endpoints/Models/Query.swift:59-61 | an absent branch gives the empty list, a present one gives its component's elements |
| `ResultBuilder.BuildEitherFirst` | Sources/Endpoints/Models/Query.swift:63-65 | the first branch passes its component's elements through unchanged |
| `ResultBuilder.BuildEitherSecond` | Sources/Endpoints/Models/Query.swift:67-69 | the second branch passes its component's elements through unchanged |
| `ResultBuilder.BuildLimitedAvailability` | Sources/Endpoints/Models/Query.swift:75-77 | passes its component's elements through unchanged |
| `ResultBuilder.BuildArray` | Sources/Endpoints/Models/Query.swift:71-73 | agrees with `buildBlock` on the same parts; its length is the sum of the parts' lengths |
| `ResultBuilder.FlattenLength` | Sources/Endpoints/Models/Header.swift:60-62 | flattening keeps every element: its length is the sum of the parts' lengths |
| `ResultBuilder.BlockAppend` | Sources/Endpoints/Models/Header.swift:60-62 | the block of two part lists is the concatenation of their blocks, in order, so nested blocks flatten the same way |
| `ResultBuilder.BlockSingle` | Sources/Endpoints/Models/Header.swift:45-47 | a block of one part is that part's elements |
| `ResultBuilder.EmptyIsIdentity` | Sources/Endpoints/Models/Header.swift:53-56 | the empty marker changes nothing wherever it stands in a block |
| `ResultBuilder.BlockKeepsDuplicates` | Sources/Endpoints/Models/Header.swift:76-78 | nothing is deduplicated: the result's multiset is the sum of the parts' multisets |
| `ResultBuilder.BlockMembership` | Sources/Endpoints/Models/Query.swift:55-57 | an element is in the block exactly when it is in one of the parts |
| `Queries.Query.Set` | Sources/Endpoints/Models/Query.swift:27-33 | the subscript setter sets the name to the key's name and the value to the new value |
| `Queries.Query.Get` | Sources/Endpoints/Models/Query.swift:28 | the subscript getter yields nil |
| `Queries.Query.Assign` | Sources/Endpoints/Models/Query.swift:23-25 | writing through a key path changes only the field that path names |
| `Queries.Init` | Sources/Endpoints/Models/Query.swift:13-16 | stores the name and the optional value as given |
| `Queries.InitRaw` | Sources/Endpoints/Models/Query.swift:18-21 | keeps the name; stores the raw value, not the wrapper; the stored value renders as the raw value |
| `Queries.InitKeyPath` | Sources/Endpoints/Models/Query.swift:23-25 | starts from the defaults (empty name, nil value) and applies the one assignment |
| `Queries.SetForgetsReceiver` | Sources/Endpoints/Models/Query.swift:29-32 | the result of a keyed set does not depend on what the query held before |
| `Queries.SetLastWins` | Sources/Endpoints/Models/Query.swift:29-32 | of two keyed sets, the last wins |
| `Queries.GetAfterSet` | Sources/Endpoints/Models/Query.swift:27-33 | even right after a keyed set, the getter yields nil |
| `Headers.Header.Set` | Sources/Endpoints/Models/Header.swift:26-32 | the subscript setter sets the name to the key's name and the value to the new value |
| `Headers.Header.Get` | Sources/Endpoints/Models/Header.swift:27 | the subscript getter yields nil |
| `Headers.Header.Assign` | Sources/Endpoints/Models/Header.swift:22-24 | writing through a key path changes only the field that path names |
| `Headers.Header.ValueText` | Sources/Endpoints/Models/Header.swift:37 | the value's description, or `<none>` for a nil value |
| `Headers.Header.Description` | Sources/Endpoints/Models/Header.swift:35-39 | the name, then ": ", then the value text, with the length of the three |
| `Headers.Init` | Sources/Endpoints/Models/Header.swift:12-15 | stores the name and the optional value as given |
| `Headers.InitRaw` | Sources/Endpoints/Models/Header.swift:17-20 | keeps the name; stores the raw value, not the wrapper; renders as `name: raw` |
| `Headers.InitKeyPath` | Sources/Endpoints/Models/Header.swift:22-24 | starts from the defaults (empty name, nil value) and applies the one assignment |
| `Headers.SetForgetsReceiver` | Sources/Endpoints/Models/Header.swift:28-31 | the result of a keyed set does not depend on what the header held before |
| `Headers.SetLastWins` | Sources/Endpoints/Models/Header.swift:28-31 | of two keyed sets, the last wins |
| `Headers.GetAfterSet` | Sources/Endpoints/Models/Header.swift:26-32 | even right after a keyed set, the getter yields nil |
| `Headers.FirstColon` | Sources/Endpoints/Models/Header.swift:36-38 | for a name without a colon, the first colon of the description ends the name |
| `Headers.DescriptionDetermines` | Sources/Endpoints/Models/Header.swift:36-38 | for names without a colon, equal descriptions mean equal names and equal value texts |
| `Headers.NilRendersAsNoneText` | Sources/Endpoints/Models/Header.swift:37 | a nil value renders exactly like the string `<none>` |
| `Requests.Request.WithCachePolicy` | Sources/Endpoints/Models/Request.swift:63-67 | the copy has the new cache policy and differs from the receiver in nothing else |
| `Requests.Request.WithTimeout` | Sources/Endpoints/Models/Request.swift:69-73 | the copy has the new timeout and differs from the receiver in nothing else |
| `Requests.Request.WithCellularAccess` | Sources/Endpoints/Models/Request.swift:75-79 | the copy has the new flag and differs from the receiver in nothing else |
| `Requests.Request.WithExpensiveNetworkAccess` | Sources/Endpoints/Models/Request.swift:81-85 | the copy has the new flag and differs from the receiver in nothing else |
| `Requests.Request.WithConstrainedNetworkAccess` | Sources/Endpoints/Models/Request.swift:87-91 | the copy has the new flag and differs from the receiver in nothing else |
| `Requests.Request.Description` | Sources/Endpoints/Models/Request.swift:95-97 | `METHOD /path`, then `?`, then the queries rendered as an array |
| `Requests.Request.QueriesArray` | Sources/Endpoints/Models/Request.swift:120 | `"\(queries)"`: `[]` for no queries, and every query's rendering occurs in it |
| `Requests.Request.HeadersArray` | Sources/Endpoints/Models/Request.swift:122 | `"\(headers)"`: `[]` for no headers, and every header's description occurs in it |
| `Requests.Request.QueriesDescription` | Sources/Endpoints/Models/Request.swift:102-107 | starts with `Queries:` and a line break, and is exactly that when there are no queries |
| `Requests.Request.HeadersDescription` | Sources/Endpoints/Models/Request.swift:109-114 | starts with `Headers:` and a line break, and is exactly that when there are no headers |
| `Requests.Request.DebugDescriptionAsWritten` | Sources/Endpoints/Models/Request.swift:116-125 | as written, for all four cases: exactly the head when both collections are empty; the head, a line break and `[]` when exactly one is empty, whatever the other holds; the head, then the queries array, then the headers array, each on its own line, when both are non-empty |
| `Requests.Request.DebugDescription` | Sources/Endpoints/Models/Request.swift:116-125 | corrected rendering: with neither queries nor headers it is exactly `METHOD /path` |
| `Requests.HeaderTexts` | Sources/Endpoints/Models/Request.swift:122 | the headers' descriptions, one per header, in order |
| `Requests.DefaultHeaders` | Sources/Endpoints/Models/Request.swift:9-12 | exactly two headers: Content-Type then Accept, both `application/json` |
| `Requests.Init` | Sources/Endpoints/Models/Request.swift:37-40 | method and path as given; no queries, the default headers, protocol cache policy, 60 seconds, all three flags on |
| `Requests.InitQueries` | Sources/Endpoints/Models/Request.swift:42-46 | the defaults with the built queries; the default headers stay |
| `Requests.InitHeaders` | Sources/Endpoints/Models/Request.swift:48-52 | the defaults with the built headers in place of the default ones; no queries |
| `Requests.InitBoth` | Sources/Endpoints/Models/Request.swift:54-59 | the defaults with both built lists in place of the default ones |
| `Requests.EmptyHeaderBlockDropsDefaults` | Sources/Endpoints/Models/Request.swift:48-52 | an empty header block leaves no header, although the plain initialiser has two |
| `Requests.ModifiersLastWins` | Sources/Endpoints/Models/Request.swift:62-91 | applying a modifier twice is applying it once with the last argument; repeating a value changes nothing |
| `Requests.ModifiersFixpoint` | Sources/Endpoints/Models/Request.swift:62-91 | setting a field to the value it has gives back the receiver |
| `Requests.DebugDescriptionListsHeaders` | Sources/Endpoints/Models/Request.swift:109-124 | corrected rendering: every header's description occurs in it |
| `Requests.DebugDescriptionListsQueries` | Sources/Endpoints/Models/Request.swift:102-124 | corrected rendering: every query's rendering occurs in it |
| `Requests.DebugDescriptionAsWrittenHidesHeaders` | Sources/Endpoints/Models/Request.swift:116-125 | as written, `GET /x` with the default headers renders as `GET /x` and `[]`, without either header |
| `Endpoints.Endpoint.PathOf` | Sources/Endpoints/Endpoint/Endpoint.swift:16 | the endpoint's `Path` wraps the descriptor's path |
| `Endpoints.DefaultQueries` | Sources/Endpoints/Endpoint/Endpoint.swift:48 | the default block `{ EmptyQuery() }` builds no query |
| `Endpoints.DefaultHeaders` | Sources/Endpoints/Endpoint/Endpoint.swift:49-52 | the default header block builds exactly the descriptor's default headers |
| `Endpoints.Defaults` | Sources/Endpoints/Endpoint/Endpoint.swift:47-60 | keeping every protocol default gives the descriptor of `Request(.GET, path:)` |
| `Endpoints.DefaultMethodIgnoresShape` | Sources/Endpoints/Endpoint/Endpoint.swift:54 | the default method is GET whatever the endpoint's input, so an encodable endpoint is not a POST by default |
| `Endpoints.ToItem` | Sources/Endpoints/Endpoint/Endpoint.swift:72 | a query becomes an item with its name and its value's description |
| `Endpoints.EmittedItems` | Sources/Endpoints/Endpoint/Endpoint.swift:70-72 | no more items than queries, and every item has a value |
| `Endpoints.EmittedItemsHaveValues` | Sources/Endpoints/Endpoint/Endpoint.swift:70-72 | every emitted item has a value |
| `Endpoints.EmittedItemsAppend` | Sources/Endpoints/Endpoint/Endpoint.swift:70-72 | the items of concatenated query lists are the items of each, in order |
| `Endpoints.EmittedItemsOfOne` | Sources/Endpoints/Endpoint/Endpoint.swift:71-72 | a nil-valued query emits nothing; a valued one emits exactly its name and value description |
| `Endpoints.EmittedItemsMembership` | Sources/Endpoints/Endpoint/Endpoint.swift:70-72 | an item is emitted exactly when some query has that name and a value with that description |
| `Endpoints.CombinedItems` | Sources/Endpoints/Endpoint/Endpoint.swift:74-75 | the emitted items come last; without base items they are all there is |
| `Endpoints.WithItems` | Sources/Endpoints/Endpoint/Endpoint.swift:76 | origin and segments unchanged; the query items are the base's or the combined list |
| `Endpoints.CombinedKeepsBase` | Sources/Endpoints/Endpoint/Endpoint.swift:74-75 | the base URL's own items come first, unchanged, then the emitted ones |
| `Endpoints.WithItemsWritesOnlyNonEmpty` | Sources/Endpoints/Endpoint/Endpoint.swift:76 | the query component is written only when the combined list is non-empty, and then holds all of it |
| `Endpoints.ToPair` | Sources/Endpoints/Endpoint/Endpoint.swift:88-89 | a header becomes its name and its value's optional description |
| `Endpoints.CompactValues` | Sources/Endpoints/Endpoint/Endpoint.swift:92 | exactly the non-nil entries are kept, with their values |
| `Endpoints.FirstNamed` | Sources/Endpoints/Endpoint/Endpoint.swift:92 | reference search: the least index holding the name, or none |
| `Endpoints.UniquingFirstWins` | Sources/Endpoints/Endpoint/Endpoint.swift:92 | a name is a key exactly when some pair has it, and maps to the value of the first such pair |
| `Endpoints.HeaderFieldsFirstWins` | Sources/Endpoints/Endpoint/Endpoint.swift:88-92 | a name is present exactly when its first header has a value, and maps to that value's description |
| `Endpoints.NilFirstHidesLater` | Sources/Endpoints/Endpoint/Endpoint.swift:88-92 | a nil Content-Type first hides a later Content-Type that has a value |
| `Endpoints.BadEndpointMessage` | Sources/Endpoints/Endpoint/Endpoint.swift:67 | "Unable to construct URL from endpoint: ", then the endpoint's rendering, and it ends with the base URL's text |
| `Endpoints.Assembled` | Sources/Endpoints/Endpoint/Endpoint.swift:63-98 | a failure is always `badEndpoint` with that message; a success has a URL, the method's raw value and no body |
| `Endpoints.Assemble` | Sources/Endpoints/Endpoint/Endpoint.swift:63-98 | the step-by-step assembly returns the specification `Assembled` |
| `Endpoints.AssembledFields` | Sources/Endpoints/Endpoint/Endpoint.swift:63-98 | fails with `badEndpoint` exactly when the base URL cannot be decomposed or the URL formed; otherwise the URL keeps the base origin and segments plus the path, takes the combined items only when there are any, the header fields are the first-wins fields of the headers, method, policy, timeout and flags are copied, and there is no body |
| `Endpoints.NilQueryNeverEmitted` | Sources/Endpoints/Endpoint/Endpoint.swift:71 | adding a nil-valued query changes nothing in the assembled request |
| `Http.PathString` | Sources/Endpoints/Support/URLRequest+cURL.swift:28 | `url.path` is empty exactly when there is no segment |
| `Http.AbsoluteString` | Sources/Endpoints/Support/URLRequest+cURL.swift:38 | without a query the absolute string is the origin and the path |
| `Http.AppendingPathComponent` | Sources/Endpoints/Endpoint/Endpoint.swift:78 | one more segment after the existing ones, which stay; origin and query unchanged |
| `Http.NewRequest` | Sources/Endpoints/Endpoint/Endpoint.swift:82-86 | the URL, cache policy and timeout as given; method GET, no header fields, no body |
| `Errors.BadResponseMessages` | Sources/Endpoints/EndpointService.swift:241-249 | 401 gives "Authentication Required", 404 "Resource not found", any other status "Bad response: " and the response |
| `Errors.KnownStatusIgnoresResponse` | Sources/Endpoints/EndpointService.swift:242-246 | for 401 and 404 the message does not depend on the response |
| `Errors.ErrorDescription` | Sources/Endpoints/EndpointService.swift:235-258 | a bad endpoint reports its own message; an unexpected response starts with "Unexpected response: "; a bad response other than 401 and 404 starts with "Bad response: " |
| `Errors.DecodingMessageNamesPath` | Sources/Endpoints/EndpointService.swift:252-256 | the decoding message starts with the type and a dot, and contains every coding-path key and the context's explanation |
| `Errors.DecodingMessageShape` | Sources/Endpoints/EndpointService.swift:252-256 | for every coding path, the empty one included: the type, a dot, the keys joined by dots in order, the dash, the explanation, and nothing else |
| `Errors.EncodingMessageShape` | Sources/Endpoints/EndpointService.swift:250-251 | the encoding message is exactly the type, the dash ` – `, then the context's explanation |
| `Pipeline.SubjectFor` | Sources/Endpoints/EndpointService.swift:112-113 | the transport reports an endpoint with the same descriptor |
| `Pipeline.UrlRequestFor` | Sources/Endpoints/Domain.swift:23-25 | a base-URL error passes through unchanged; an assembly error is a classified `badEndpoint`; a success has a URL and no body yet |
| `Pipeline.Fail` | Sources/Endpoints/EndpointService.swift:187-192 | throws the given error after exactly one step, a `didFail` |
| `Pipeline.Encoding` | Sources/Endpoints/EndpointService.swift:153-165 | only an encodable input takes a step, at most one, never a send; a body is produced exactly when the endpoint has one |
| `Pipeline.Decoding` | Sources/Endpoints/EndpointService.swift:167-185 | succeeds exactly when the decoder does, with its value; always exactly one delivered event |
| `Pipeline.Transfer` | Sources/Endpoints/EndpointService.swift:194-219 | nothing happens when the request cannot be formed; otherwise `willBegin`, then the send of the request with the body; a success has a 2xx status |
| `Pipeline.Received` | Sources/Endpoints/EndpointService.swift:203-219 | a success is exactly the transport's HTTP answer with a 2xx status; a transport error passes through with no step; at most one step |
| `Pipeline.Finish` | Sources/Endpoints/EndpointService.swift:43-62 | raw data is returned as it came with no step; the response is kept; a decodable output succeeds exactly when the decoder does |
| `Pipeline.Expected` | Sources/Endpoints/EndpointService.swift:43-146 | a failed encoding ends the perform with the encoding's steps; every successful perform has a 2xx status; a data output returns raw data |
| `Pipeline.StatusBoundaries` | Sources/Endpoints/EndpointService.swift:208-210 | 200 and 299 succeed; 199 and 300 do not |
| `Pipeline.TransferStatus` | Sources/Endpoints/EndpointService.swift:203-219 | with an HTTP response, success exactly when the status is in 200..<300; then `didFinish`, otherwise `badResponse` and `didFail` with the real status; `willBegin` and the send come first |
| `Pipeline.TransferNonHttp` | Sources/Endpoints/EndpointService.swift:204-206 | a non-HTTP response gives `unexpectedResponse`, with `didFail` carrying -1 and no `didFinish` |
| `Pipeline.DomainErrorsPassThrough` | Sources/Endpoints/EndpointService.swift:196-203 | errors from the domain are thrown as they are, with no `didFail`; one that arises while forming the request comes before any step |
| `Pipeline.EncodeFailureStopsEarly` | Sources/Endpoints/EndpointService.swift:153-165 | a failed encoding is the only step (`didFail` with -1): nothing is sent; `invalidValue` becomes `.encoding`, anything else is rethrown |
| `Pipeline.DataInputSentVerbatim` | Sources/Endpoints/EndpointService.swift:70-87 | a data body is never encoded and every request sent carries it verbatim |
| `Pipeline.DataOutputReturnsRaw` | Sources/Endpoints/EndpointService.swift:57-62 | a data output is never decoded: the steps are the encoding's and the transfer's, and the transferred bytes are returned |
| `Pipeline.ErasureOnlyForDecodeOnly` | Sources/Endpoints/EndpointService.swift:109-115 | only the decode-only overload sends the erased endpoint, and it has the same descriptor |
| `Pipeline.DecodeFailureOrder` | Sources/Endpoints/EndpointService.swift:167-185 | a decode failure gives the steps `willBegin`, send, `didFinish`, `didFail(-1)`; the four `DecodingError`s become `.decoding` |
| `Pipeline.TerminalEvents` | Sources/Endpoints/EndpointService.swift:43-49 | at most two terminal events, exactly two when decoding fails after the transfer; a success sees one `willBegin`, one `didFinish` and no `didFail` |
| `Pipeline.EncodingCounts` | Sources/Endpoints/EndpointService.swift:153-165 | encoding delivers no `willBegin` or `didFinish`, and one `didFail` exactly when it fails |
| `Pipeline.DecodingCounts` | Sources/Endpoints/EndpointService.swift:167-185 | decoding delivers at most one `didFail`, none exactly when the decoder succeeds |
| `Pipeline.TransferCounts` | Sources/Endpoints/EndpointService.swift:194-219 | the transfer delivers at most one terminal event; a success delivers one `willBegin` and one `didFinish` |
| `Service.WeakBox.constructor` | Sources/Endpoints/EndpointService.swift:17-19 | the box holds the observer and its closure targets that observer and the service |
| `Service.WeakBox.SetObject` | Sources/Endpoints/EndpointSessionObserver.swift:12-17 | assigning nil unregisters the target from the service, when there still is one; assigning an observer unregisters nothing |
| `Service.WeakBox.OnDeinit` | Sources/Endpoints/EndpointService.swift:17-19 | removes exactly the target from a live service; does nothing once the service is gone |
| `Service.WeakBox.ServiceGone` | Sources/Endpoints/EndpointService.swift:17 | the weak reference to the service becomes nil, and the box's observer is kept |
| `Service.EndpointService.constructor` | Sources/Endpoints/EndpointService.swift:11-14 | registers exactly the given observers, all live, with an empty trace |
| `Service.EndpointService.Register` | Sources/Endpoints/EndpointService.swift:16-20 | adds one entry, keyed by identity, with a fresh box; registering twice leaves one entry; other entries unchanged |
| `Service.EndpointService.Unregister` | Sources/Endpoints/EndpointService.swift:22-24 | removes the entry; an absent observer changes nothing |
| `Service.EndpointService.Release` | Sources/Endpoints/EndpointSessionObserver.swift:12-17 | clearing the box's reference removes its observer, which is no longer live |
| `Service.EndpointService.Broadcast` | Sources/Endpoints/EndpointService.swift:156-158 | the event is recorded as reaching exactly the live observers, and the registry is unchanged |
| `Service.EndpointService.ThrowError` | Sources/Endpoints/EndpointService.swift:187-192 | `didFail` with the status reaches the live observers, and the error is returned to be thrown |
| `Service.EndpointService.Encode` | Sources/Endpoints/EndpointService.swift:153-165 | returns and records exactly what the specification `Encoding` states |
| `Service.EndpointService.Decode` | Sources/Endpoints/EndpointService.swift:167-185 | returns and records exactly what the specification `Decoding` states |
| `Service.EndpointService.RequestFor` | Sources/Endpoints/EndpointService.swift:196 | the base URL from the domain, then assembly; an assembly error is classified |
| `Service.EndpointService.PerformData` | Sources/Endpoints/EndpointService.swift:194-219 | returns and records exactly what the specification `Transfer` states |
| `Service.EndpointService.Receive` | Sources/Endpoints/EndpointService.swift:203-219 | returns and records exactly what the specification `Received` states |
| `Service.EndpointService.PerformEncodedDecoded` | Sources/Endpoints/EndpointService.swift:43-49 | encode, transfer, decode: returns and records exactly `Expected` |
| `Service.EndpointService.PerformEncoded` | Sources/Endpoints/EndpointService.swift:141-146 | encode, transfer, raw data: returns and records exactly `Expected` |
| `Service.EndpointService.PerformBodyDecoded` | Sources/Endpoints/EndpointService.swift:70-75 | the data body, transfer, decode: returns and records exactly `Expected` |
| `Service.EndpointService.PerformBody` | Sources/Endpoints/EndpointService.swift:128-132 | the data body, transfer, raw data: returns and records exactly `Expected` |
| `Service.EndpointService.PerformRaw` | Sources/Endpoints/EndpointService.swift:98-102 | no body, transfer, raw data: returns and records exactly `Expected` |
| `Service.EndpointService.PerformDecoded` | Sources/Endpoints/EndpointService.swift:109-115 | the erased endpoint is transferred, the endpoint itself decodes: returns and records exactly `Expected` |
| `Service.EndpointService.Perform` | Sources/Endpoints/EndpointService.swift:43-146 | the overload the endpoint's shape selects returns and records exactly `Expected`; the registry and the live observers are unchanged |
| `Service.EndpointService.PerformForResponse` | Sources/Endpoints/EndpointService.swift:29-31 | no body; only the HTTP response of the transfer is returned |
| `AnyData.AnyDataEndpoint.AsEndpoint` | Sources/Endpoints/Endpoint/AnyDataEndpoint.swift:4 | the erased endpoint has the same descriptor, sends no body and returns raw data |
| `AnyData.Init` | Sources/Endpoints/Endpoint/AnyDataEndpoint.swift:8-11 | copies the method and the descriptor unchanged |
| `AnyData.ErasureKeepsDescriptor` | Sources/Endpoints/Endpoint/AnyDataEndpoint.swift:8-11 | erasing keeps the descriptor, erasing twice is erasing once, and erasing changes only endpoints that encode or decode |
| `Curls.BaseLine` | Sources/Endpoints/Support/URLRequest+cURL.swift:39-43 | the base component starts with `curl "` |
| `Curls.MethodLines` | Sources/Endpoints/Support/URLRequest+cURL.swift:47-49 | one `-X` component exactly when there is a method |
| `Curls.HeaderLine` | Sources/Endpoints/Support/URLRequest+cURL.swift:52 | a header component starts with `-H '` |
| `Curls.HeaderLines` | Sources/Endpoints/Support/URLRequest+cURL.swift:51-55 | at most one `-H` component per name walked |
| `Curls.BodyLines` | Sources/Endpoints/Support/URLRequest+cURL.swift:57-59 | at most one component, starting with `-d '` |
| `Curls.ComponentsFor` | Sources/Endpoints/Support/URLRequest+cURL.swift:37-62 | no components exactly when there is no URL |
| `Curls.WalkHeaders` | Sources/Endpoints/Support/URLRequest+cURL.swift:51-55 | the loop visits every header name once, in some order, and returns the `-H` components for that order |
| `Curls.Curl.Description` | Sources/Endpoints/Support/URLRequest+cURL.swift:27-31 | the method (GET when absent), a space, the path (`/` when there is no URL) |
| `Curls.Curl.Components` | Sources/Endpoints/Support/URLRequest+cURL.swift:37-62 | the components for an order that lists every header name once |
| `Curls.Curl.DebugDescription` | Sources/Endpoints/Support/URLRequest+cURL.swift:33-35 | the components joined by a space, a backslash, a line break and a tab |
| `Curls.Init` | Sources/Endpoints/Support/URLRequest+cURL.swift:22-25 | the name is the URL's path, or, without a URL, a decimal text that reads back as the hash value |
| `Curls.BaseComponent` | Sources/Endpoints/Support/URLRequest+cURL.swift:39-45 | the first component is the quoted absolute URL, and ends with ` --head` exactly when the method is HEAD |
| `Curls.MethodComponent` | Sources/Endpoints/Support/URLRequest+cURL.swift:47-49 | `-X method` comes right after the base, and some component starts with `-X ` exactly when there is a method |
| `Curls.HeaderLinesContain` | Sources/Endpoints/Support/URLRequest+cURL.swift:51-55 | every non-Cookie name walked has its `-H` component |
| `Curls.HeaderLinesFrom` | Sources/Endpoints/Support/URLRequest+cURL.swift:51-55 | every `-H` component comes from a non-Cookie name walked |
| `Curls.HeaderLinesCount` | Sources/Endpoints/Support/URLRequest+cURL.swift:51-55 | one `-H` component per distinct name walked, less one when Cookie is among them |
| `Curls.HeaderComponentsListed` | Sources/Endpoints/Support/URLRequest+cURL.swift:51-55 | the `-H` components are exactly the non-Cookie headers, one each, whatever the order |
| `Curls.BodyComponent` | Sources/Endpoints/Support/URLRequest+cURL.swift:57-59 | a `-d` component exists exactly when the body exists and is UTF-8, and then it comes last |
| `Curls.TextBodyShown` | Sources/Endpoints/Support/URLRequest+cURL.swift:57-59 | a body that encodes a text is shown as that text, last |
| `Curls.DebugDescriptionShowsComponents` | Sources/Endpoints/Support/URLRequest+cURL.swift:33-35 | every component occurs in the debug description |
| `Curls.DescriptionDetermines` | Sources/Endpoints/Support/URLRequest+cURL.swift:27-31 | for methods without a space, equal descriptions mean equal methods and equal paths |
| `Methods.Method.Description` | Sources/Endpoints/Models/Method.swift:26 | the description is the raw value |
| `Methods.Init` | Sources/Endpoints/Models/Method.swift:13-22 | both initialisers store the string unchanged |
| `Methods.InitRoundTrip` | Sources/Endpoints/Models/Method.swift:13-16 | every method is the one its raw value initialises |
| `Methods.Constants` | Sources/Endpoints/Models/Method.swift:4-9 | the six constants carry their own names and are distinct |
| `Paths.Path.Description` | Sources/Endpoints/Models/Path.swift:17 | the description is the raw value |
| `Paths.Init` | Sources/Endpoints/Models/Path.swift:5-13 | both initialisers store the string unchanged |
| `Paths.InitRoundTrip` | Sources/Endpoints/Models/Path.swift:5-7 | every path is the one its raw value initialises |
| `ContentTypes.ContentType.Description` | Sources/Endpoints/Models/Headers/Content-Type.swift:33-35 | the description is the raw value |
| `ContentTypes.ContentType.AsValue` | Sources/Endpoints/Models/Headers/Content-Type.swift:15-19 | the stored header value renders as the raw value |
| `ContentTypes.Init` | Sources/Endpoints/Models/Headers/Content-Type.swift:24-31 | both initialisers store the string unchanged |
| `ContentTypes.Set` | Sources/Endpoints/Models/Headers/Content-Type.swift:15-19 | the header is named "Content-Type" and holds the new value, nil exactly when it is nil |
| `ContentTypes.Get` | Sources/Endpoints/Models/Headers/Content-Type.swift:17 | reading `contentType` yields nil |
| `ContentTypes.InitRoundTrip` | Sources/Endpoints/Models/Headers/Content-Type.swift:24-26 | every value is the one its raw value initialises |
| `ContentTypes.GetAfterSet` | Sources/Endpoints/Models/Headers/Content-Type.swift:16-18 | reading right after setting still yields nil |
| `ContentTypes.SetDescription` | Sources/Endpoints/Models/Headers/Content-Type.swift:10-19 | a header set through the property renders as `Content-Type: ` and the raw value |
| `Accepts.AcceptValue.Description` | Sources/Endpoints/Models/Headers/Accept.swift:33-35 | the description is the raw value |
| `Accepts.AcceptValue.AsValue` | Sources/Endpoints/Models/Headers/Accept.swift:15-19 | the stored header value renders as the raw value |
| `Accepts.Init` | Sources/Endpoints/Models/Headers/Accept.swift:25-31 | both initialisers store the string unchanged |
| `Accepts.Set` | Sources/Endpoints/Models/Headers/Accept.swift:15-19 | the header is named "Accept" and holds the new value, nil exactly when it is nil |
| `Accepts.Get` | Sources/Endpoints/Models/Headers/Accept.swift:17 | reading `accept` yields nil |
| `Accepts.InitRoundTrip` | Sources/Endpoints/Models/Headers/Accept.swift:25-27 | every value is the one its raw value initialises |
| `Accepts.GetAfterSet` | Sources/Endpoints/Models/Headers/Accept.swift:16-18 | reading right after setting still yields nil |
| `Accepts.SetDescription` | Sources/Endpoints/Models/Headers/Accept.swift:10-19 | a header set through the property renders as `Accept: ` and the raw value |
| `AcceptEncodings.AcceptEncoding.Description` | Sources/Endpoints/Models/Headers/Accept-Encoding.swift:32-34 | the description is the raw value |
| `AcceptEncodings.AcceptEncoding.AsValue` | Sources/Endpoints/Models/Headers/Accept-Encoding.swift:14-18 | the stored header value renders as the raw value |
| `AcceptEncodings.Init` | Sources/Endpoints/Models/Headers/Accept-Encoding.swift:24-30 | both initialisers store the string unchanged |
| `AcceptEncodings.Set` | Sources/Endpoints/Models/Headers/Accept-Encoding.swift:14-18 | the header is named "Accept-Encoding" and holds the new value, nil exactly when it is nil |
| `AcceptEncodings.Get` | Sources/Endpoints/Models/Headers/Accept-Encoding.swift:16 | reading `acceptEncoding` yields nil |
| `AcceptEncodings.InitRoundTrip` | Sources/Endpoints/Models/Headers/Accept-Encoding.swift:24-26 | every value is the one its raw value initialises |
| `AcceptEncodings.GetAfterSet` | Sources/Endpoints/Models/Headers/Accept-Encoding.swift:15-17 | reading right after setting still yields nil |
| `AcceptEncodings.SetDescription` | Sources/Endpoints/Models/Headers/Accept-Encoding.swift:9-18 | a header set through the property renders as `Accept-Encoding: ` and the raw value |
| `UserAgents.UserAgentValue.Description` | Sources/Endpoints/Models/Headers/User-Agent.swift:26-28 | the description is the raw value |
| `UserAgents.UserAgentValue.AsValue` | Sources/Endpoints/Models/Headers/User-Agent.swift:8-12 | the stored header value renders as the raw value |
| `UserAgents.Init` | Sources/Endpoints/Models/Headers/User-Agent.swift:18-24 | both initialisers store the string unchanged |
| `UserAgents.Set` | Sources/Endpoints/Models/Headers/User-Agent.swift:8-12 | the header is named "User-Agent" and holds the new value, nil exactly when it is nil |
| `UserAgents.Get` | Sources/Endpoints/Models/Headers/User-Agent.swift:10 | reading `userAgent` yields nil |
| `UserAgents.InitRoundTrip` | Sources/Endpoints/Models/Headers/User-Agent.swift:18-20 | every value is the one its raw value initialises |
| `UserAgents.GetAfterSet` | Sources/Endpoints/Models/Headers/User-Agent.swift:9-11 | reading right after setting still yields nil |
| `UserAgents.SetDescription` | Sources/Endpoints/Models/Headers/User-Agent.swift:3-12 | a header set through the property renders as `User-Agent: ` and the raw value |
| `Authorizations.AnyAuthorizationScheme.AsValue` | Sources/Endpoints/Models/Headers/Authorization.swift:13-17 | the stored header value renders as the frozen description |
| `Authorizations.Credentials` | Sources/Endpoints/Models/Headers/Authorization.swift:39 | the user name, a colon, the password; it always holds a colon |
| `Authorizations.BasicAsWrittenDropsCredentials` | Sources/Endpoints/Models/Headers/Authorization.swift:38-41 | as written, every user name and password give exactly "Basic " |
| `Authorizations.BasicDescriptionAsWritten` | Sources/Endpoints/Models/Headers/Authorization.swift:38-41 | as written: starts with "Basic " (and is exactly that, by `BasicAsWrittenDropsCredentials`) |
| `Authorizations.BasicDescription` | Sources/Endpoints/Models/Headers/Authorization.swift:38-41 | corrected Basic value: it starts with "Basic " |
| `Authorizations.BasicRecoversCredentials` | Sources/Endpoints/Models/Headers/Authorization.swift:38-41 | the corrected value after "Basic " decodes back to the credentials |
| `Authorizations.BasicInjective` | Sources/Endpoints/Models/Headers/Authorization.swift:38-41 | equal corrected values mean equal `user:password` credentials |
| `Authorizations.BearerDescription` | Sources/Endpoints/Models/Headers/Authorization.swift:47-49 | "Bearer " followed by the token exactly |
| `Authorizations.Description` | Sources/Endpoints/Models/Headers/Authorization.swift:38-49 | a Basic scheme renders with "Basic " first (corrected encoding); a Bearer scheme renders as "Bearer " and the token exactly |
| `Authorizations.Erase` | Sources/Endpoints/Models/Headers/Authorization.swift:15-17 | the wrapper freezes the scheme's description |
| `Authorizations.MakeBasic` | Sources/Endpoints/Models/Headers/Authorization.swift:4-6 | corrected `.basic`: holds the corrected Basic description, which starts with "Basic " |
| `Authorizations.MakeBasicAsWritten` | Sources/Endpoints/Models/Headers/Authorization.swift:4-6 | `.basic` as written: the frozen description is "Basic " for every user name and password |
| `Authorizations.MakeBearer` | Sources/Endpoints/Models/Headers/Authorization.swift:8-10 | `.bearer` holds "Bearer " and the token |
| `Authorizations.SchemesDistinguishable` | Sources/Endpoints/Models/Headers/Authorization.swift:38-49 | a Basic and a Bearer value never render alike |
| `Authorizations.Set` | Sources/Endpoints/Models/Headers/Authorization.swift:25-30 | the header is named "Authorization" and holds the scheme, nil exactly when it is nil |
| `Authorizations.Get` | Sources/Endpoints/Models/Headers/Authorization.swift:27 | reading `authorization` yields nil |
| `Authorizations.BearerHeader` | Sources/Endpoints/Models/Headers/Authorization.swift:20-30 | a Bearer header renders as `Authorization: Bearer ` and the token |
| `Offsets.Set` | Sources/Endpoints/Models/Queries/Offset.swift:8-12 | the query is named "offset" and holds the integer, nil exactly when it is nil |
| `Offsets.Get` | Sources/Endpoints/Models/Queries/Offset.swift:10 | reading `offset` yields nil |
| `Offsets.GetAfterSet` | Sources/Endpoints/Models/Queries/Offset.swift:8-12 | reading right after setting still yields nil |
| `Offsets.SetRendersDecimal` | Sources/Endpoints/Models/Queries/Offset.swift:4 | the `Int` value renders as decimal text that reads back as the same integer |
| `Offsets.NilOffsetOmitted` | Sources/Endpoints/Models/Queries/Offset.swift:11 | `offset = nil` leaves a query that assembly omits: the request is the one without it |
| `Limits.Set` | Sources/Endpoints/Models/Queries/Limit.swift:8-12 | the query is named "limit" and holds the integer, nil exactly when it is nil |
| `Limits.Get` | Sources/Endpoints/Models/Queries/Limit.swift:10 | reading `limit` yields nil |
| `Limits.GetAfterSet` | Sources/Endpoints/Models/Queries/Limit.swift:8-12 | reading right after setting still yields nil |
| `Limits.SetRendersDecimal` | Sources/Endpoints/Models/Queries/Limit.swift:4 | the `Int` value renders as decimal text that reads back as the same integer |
| `Limits.NilLimitOmitted` | Sources/Endpoints/Models/Queries/Limit.swift:11 | `limit = nil` leaves a query that assembly omits: the request is the one without it |
| `Values.IntegerDescriptionParses` | Sources/Endpoints/Endpoint/Endpoint.swift:72 | an `Int` value's description reads back as the integer |
| `Base64.ColonIsRejected` | Sources/Endpoints/Models/Headers/Authorization.swift:39 | `Data(base64Encoded:)` rejects any string that holds a colon |
| `Base64.DecodeEncode` | Sources/Endpoints/Models/Headers/Authorization.swift:40 | decoding the base64 encoding of any bytes gives the bytes back |
| `Base64.Encode` | Sources/Endpoints/Models/Headers/Authorization.swift:40 | four characters per started group of three bytes; empty exactly for no bytes |
| `Base64.Decode` | Sources/Endpoints/Models/Headers/Authorization.swift:39 | an accepted string has a length that is a multiple of four, and yields at most three bytes per four characters |
| `Utf8.DecodeEncode` | Sources/Endpoints/Support/URLRequest+cURL.swift:57 | decoding the UTF-8 encoding of any string gives the string back |
| `Utf8.Decode` | Sources/Endpoints/Support/URLRequest+cURL.swift:57 | a decoded string has no more characters than there were bytes |
| `Text.IntRoundTrip` | Sources/Endpoints/Support/URLRequest+cURL.swift:24 | the decimal rendering of an integer reads back as the integer |

## Left out

- The domain's `baseUrl(for:)` and `data(for:)` are parameters (fields of `Pipeline.Domain`). They answer either a value or an error. `URLSession` and the iOS 15 backport are not modelled.
- A domain's own override of `urlRequest(for:)` is not modelled. Only the default implementation is: the base URL, then assembly.
- The `Endpoint` protocol's separate `method`, `path`, `queries` and `headers` requirements are not modelled separately. They are the fields of the one descriptor, whose defaults `Endpoints.Defaults` states.
- The JSON coders of `EncodableEndpoint` and `DecodableEndpoint` are foreign:
  - encoding is the outcome an endpoint carries;
  - decoding is a parameter;
  - a decoded value is represented by its description.
- Foundation's URL handling is not modelled: `URLComponents` parsing, percent-encoding and `appendingPathComponent` normalisation. A URL is a record of an origin, path segments and optional query items. Whether Foundation can decompose a base URL, or form the final URL, is given.
- How Swift renders a value by reflection is a parameter. This covers `"\(queries)"` in `description` and `"\(self)"` in the `badEndpoint` message.
- Values stored in queries and headers are reduced to strings, `Int`s and the library's string wrappers. `TimeInterval` is a real number.
- The `Date()` measurements and the `duration` passed to `didFinish` are left out: wall-clock time in floating point. The model keeps only that `didFinish` is delivered.
- `async`/`await` suspension and concurrent access to the observer dictionary are left out. Performs run one at a time.
- ARC's zeroing of a weak reference is an explicit step, `Service.EndpointService.Release`: ARC itself does not run `didSet`.
- `private(set)` on `WeakBox.object` is not enforced, since Dafny has no access control. In the model only the box's own `SetObject` writes it.
- What an observer does with an event is not modelled. The service records each delivered event, with the observers it reached, in `trace`.
- `EndpointPrintLogger` is left out: console printing and `NumberFormatter`. So is the default observer list, which holds a fresh logger.
- `Curl.init(_:domain:)` is left out: an async call into the domain.
- `Curls.Init`: the request's `hashValue` is a parameter, because Foundation computes it.
- The order in which a dictionary is walked is unspecified. `Curls.Curl.Components` and `Curls.Curl.DebugDescription` are stated for every order that lists each header name once.
- `Request.swift:10` calls the key-path initialiser with a `value:` label that `Header.swift:22` does not declare. Both lines are read as the same initialiser.
- `Logging.swift`, `Package.swift` and the test target are not part of this model.
- Authorizations.MakeBasic: carries the corrected Basic value, not the source's constant "Basic ", so that the header the rest of the model builds has the intended meaning. The as-written factory is `Authorizations.MakeBasicAsWritten`.
- Authorizations.Description: renders Basic with the corrected encoding, for the same reason. The as-written rendering is `Authorizations.BasicDescriptionAsWritten`.
- Endpoints.Assembled, Endpoints.AssembledFields, Endpoints.HeaderFieldsFirstWins: header names are compared code point by code point. Foundation's `allHTTPHeaderFields` merges names that differ only in letter case, and Swift's `String ==` compares by canonical equivalence. So "Accept" and "accept" stay two fields in the model, and are one field in a real request.
- Endpoints.Uniquing and Endpoints.HeaderFields carry no contract of their own. What they compute is stated about them by `Endpoints.UniquingFirstWins` and `Endpoints.HeaderFieldsFirstWins`.
- Service.EndpointService.Release: models an event the library cannot reach while the observer is registered. The `onDeinit` closure at `EndpointService.swift:17-19` captures the observer strongly, so the box's weak `object` is not zeroed while the entry exists. `WeakBox.SetObject` with nil still models the `didSet` of `EndpointSessionObserver.swift:12-17`.
- The `static var` constants (`Method.GET` and the others at `Method.swift:4-9`, `ContentType.json`, `Accept.json` and the like) are mutable globals in Swift. The model makes them constants, and does not model a program that reassigns them.

## Findings

| source | as written | input that shows it | evidently intended | confidence | as-written member | corrected member |
|---|---|---|---|---|---|---|
| Sources/Endpoints/Models/Headers/Authorization.swift:38-41 | the credentials `user:pass` are base64-*decoded*; the failed decode falls back to empty data, which is encoded again | username `user`, password `pass`: the value is `Basic ` with nothing after it, because `:` is outside the base64 alphabet | `Basic ` followed by the base64 encoding of the UTF-8 credentials (section 2 of RFC 7617), e.g. `Basic dXNlcjpwYXNz` | high; not executed | `Authorizations.BasicAsWrittenDropsCredentials` | `Authorizations.BasicRecoversCredentials` |
| Sources/Endpoints/Models/Request.swift:116-125 | when exactly one collection is empty, the EMPTY one is printed, and the listings built in lines 102-114 are never used | `Request(.GET, path: "x")` with its default headers renders as `GET /x` then `[]`, and shows neither header | the head, then the listing of each non-empty collection | medium; not executed | `Requests.DebugDescriptionAsWrittenHidesHeaders` | `Requests.DebugDescriptionListsHeaders` |
