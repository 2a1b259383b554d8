/** What one `perform` does, as a value: the result it returns or throws and the sequence
    of steps it takes (observer notifications and the call to the transport). The
    service's methods are proved to produce exactly this. */
module Pipeline {
  import opened Wrappers
  import Utf8
  import Http
  import Errors
  import Requests
  import Endpoints
  import AnyData

  /** The endpoint an observer is told about: the endpoint itself, or its erased form. */
  datatype Subject = Direct(endpoint: Endpoints.Endpoint) | Erased(erased: AnyData.AnyDataEndpoint)
  {
    function Request(): Requests.Request {
      match this
      case Direct(e) => e.request
      case Erased(a) => a.request
    }
  }

  /** The five hooks of `EndpointServiceObserver`. */
  datatype Event =
    | DidEncode(subject: Subject)
    | DidDecode(subject: Subject)
    | WillBegin(subject: Subject)
    | DidFinish(subject: Subject)
    | DidFail(subject: Subject, status: int, error: Errors.Error)

  /** A step of a perform: an event delivered to the recipients `to`, or a request handed
      to the transport. */
  datatype Step<R> = Delivered(event: Event, to: R) | Sent(request: Http.UrlRequest)

  /** The `Domain`: where the base URL comes from, and the transport. `formable` stands for
      Foundation's `URLComponents.url`, which may fail to form a URL. */
  datatype Domain = Domain(
    baseUrl: Requests.Request -> Result<Http.BaseUrl, Errors.Error>,
    formable: Http.Url -> bool,
    data: Http.UrlRequest -> Result<(Utf8.Bytes, Http.UrlResponse), Errors.Error>)

  /** What a perform returns besides the response: the raw data or the decoded value. */
  datatype Payload = RawData(data: Utf8.Bytes) | DecodedValue(value: string)

  datatype Reply = Reply(payload: Payload, response: Http.HttpResponse)

  /** A stage's result with the steps it took. */
  datatype Outcome<T, R> = Outcome(result: Result<T, Errors.Error>, steps: seq<Step<R>>)

  /** `domain.urlRequest(for:)` with its default implementation: the base URL, then
      `request(baseUrl:)`. `reflect` is how an endpoint value renders by reflection. */
  function UrlRequestFor(d: Domain, s: Subject, reflect: Subject -> string): (r: Result<Http.UrlRequest, Errors.Error>)
    ensures d.baseUrl(s.Request()).Err? ==> r == Err(d.baseUrl(s.Request()).error)
    ensures d.baseUrl(s.Request()).Ok? && r.Err? ==> r.error.Classified? && r.error.error.BadEndpoint?
    ensures r.Ok? ==> r.value.url.Some? && r.value.httpBody.None?
  {
    match d.baseUrl(s.Request())
    case Err(e) => Err(e)
    case Ok(base) =>
      match Endpoints.Assembled(s.Request(), base, d.formable, reflect(s))
      case Err(x) => Err(Errors.Classified(x))
      case Ok(u) => Ok(u)
  }

  /** The status codes that count as success: `200 ..< 300`. */
  predicate IsSuccess(code: int) {
    200 <= code < 300
  }

  /** `throwError`: `didFail` is delivered, then the error is thrown. */
  function Fail<T, R>(s: Subject, status: int, err: Errors.Error, to: R): (o: Outcome<T, R>)
    ensures o.result == Err(err) && |o.steps| == 1 && o.steps[0].Delivered? && o.steps[0].event.DidFail?
  {
    Outcome(Err(err), [Delivered(DidFail(s, status, err), to)])
  }

  /** The private `encode(endpoint:)`, or the body an endpoint sends without encoding. */
  function Encoding<R>(e: Endpoints.Endpoint, to: R): (o: Outcome<Option<Utf8.Bytes>, R>)
    ensures !e.input.EncodableInput? ==> o.steps == []
    ensures o.result.Ok? ==> (o.result.value.None? <==> e.input.NoInput?)
    ensures |o.steps| <= 1 && forall i :: 0 <= i < |o.steps| ==> o.steps[i].Delivered?
  {
    match e.input
    case NoInput => Outcome(Ok(None), [])
    case DataInput(body) => Outcome(Ok(Some(body)), [])
    case EncodableInput(t, outcome) =>
      match outcome
      case Encoded(data) => Outcome(Ok(Some(data)), [Delivered(DidEncode(Direct(e)), to)])
      case InvalidValue(c) => Fail(Direct(e), -1, Errors.Classified(Errors.Encoding(t, c)), to)
      case EncodeFailed(x) => Fail(Direct(e), -1, Errors.Foreign(x), to)
  }

  /** The context of the four `DecodingError` cases the service classifies. */
  function DecodingContext(o: Errors.DecodeOutcome): Option<Errors.Context> {
    match o
    case DataCorrupted(c) => Some(c)
    case ValueNotFound(c) => Some(c)
    case TypeMismatch(c) => Some(c)
    case KeyNotFound(c) => Some(c)
    case _ => None
  }

  /** The private `decode(_:endpoint:)`. */
  function Decoding<R>(e: Endpoints.Endpoint, t: string, data: Utf8.Bytes, decode: Utf8.Bytes -> Errors.DecodeOutcome, to: R)
    : (r: Outcome<string, R>)
    ensures r.result.Ok? <==> decode(data).Decoded?
    ensures r.result.Ok? ==> r.result.value == decode(data).value
    ensures |r.steps| == 1 && r.steps[0].Delivered?
  {
    var o := decode(data);
    match o
    case Decoded(v) => Outcome(Ok(v), [Delivered(DidDecode(Direct(e)), to)])
    case DecodeFailed(d) => Fail(Direct(e), -1, Errors.Foreign(d), to)
    case _ => Fail(Direct(e), -1, Errors.Classified(Errors.Decoding(t, o.context)), to)
  }

  /** The private `perform(_:data:)`: assemble, attach the body, `willBegin`, transport,
      check the response kind and the status, `didFinish`. */
  function Transfer<R>(s: Subject, d: Domain, body: Option<Utf8.Bytes>, reflect: Subject -> string, to: R)
    : (r: Outcome<(Utf8.Bytes, Http.HttpResponse), R>)
    ensures UrlRequestFor(d, s, reflect).Err? ==> r.steps == []
    ensures UrlRequestFor(d, s, reflect).Ok? ==>
      |r.steps| >= 2 && r.steps[0] == Delivered(WillBegin(s), to)
      && r.steps[1] == Sent(UrlRequestFor(d, s, reflect).value.(httpBody := body))
    ensures r.result.Ok? ==> IsSuccess(r.result.value.1.statusCode)
  {
    match UrlRequestFor(d, s, reflect)
    case Err(e) => Outcome(Err(e), [])
    case Ok(u) =>
      var request := u.(httpBody := body);
      var rest := Received(s, d.data(request), to);
      Outcome(rest.result, [Delivered(WillBegin(s), to), Sent(request)] + rest.steps)
  }

  /** What the transport returned, checked: a domain error passes through, a response that is
      not HTTP or whose status is not a success fails with `didFail`, anything else finishes. */
  function Received<R>(s: Subject, answer: Result<(Utf8.Bytes, Http.UrlResponse), Errors.Error>, to: R)
    : (r: Outcome<(Utf8.Bytes, Http.HttpResponse), R>)
    ensures r.result.Ok? ==> answer == Ok((r.result.value.0, Http.Http(r.result.value.1)))
    ensures r.result.Ok? ==> IsSuccess(r.result.value.1.statusCode)
    ensures answer.Err? ==> r.result == Err(answer.error) && r.steps == []
    ensures |r.steps| <= 1
  {
    match answer
    case Err(e) => Outcome(Err(e), [])
    case Ok(a) =>
      match a.1
      case NonHttp(_) => Fail(s, -1, Errors.Classified(Errors.UnexpectedResponse(a.1)), to)
      case Http(h) =>
        if !IsSuccess(h.statusCode) then Fail(s, h.statusCode, Errors.Classified(Errors.BadResponse(h)), to)
        else Outcome(Ok((a.0, h)), [Delivered(DidFinish(s), to)])
  }

  /** The endpoint the transport stage reports: erased exactly in the decode-only case. */
  function SubjectFor(e: Endpoints.Endpoint): (s: Subject)
    ensures s.Request() == e.request
  {
    if e.input.NoInput? && e.output.DecodableOutput? then Erased(AnyData.Init(e)) else Direct(e)
  }

  /** The public `perform` overload selected by the endpoint's shape. */
  function Expected<R>(e: Endpoints.Endpoint, d: Domain, decode: Utf8.Bytes -> Errors.DecodeOutcome,
    reflect: Subject -> string, to: R): (o: Outcome<Reply, R>)
    ensures Encoding(e, to).result.Err? ==> o.result.Err? && o.steps == Encoding(e, to).steps
    ensures o.result.Ok? ==> IsSuccess(o.result.value.response.statusCode)
    ensures o.result.Ok? && e.output.DataOutput? ==> o.result.value.payload.RawData?
  {
    var enc := Encoding(e, to);
    if enc.result.Err? then Outcome(Err(enc.result.error), enc.steps)
    else
      var t := Transfer(SubjectFor(e), d, enc.result.value, reflect, to);
      if t.result.Err? then Outcome(Err(t.result.error), enc.steps + t.steps)
      else
        var fin := Finish(e, t.result.value.0, t.result.value.1, decode, to);
        Outcome(fin.result, enc.steps + t.steps + fin.steps)
  }

  /** What a `perform` overload returns from the transferred data: the raw data, or its decoding. */
  function Finish<R>(e: Endpoints.Endpoint, data: Utf8.Bytes, h: Http.HttpResponse,
    decode: Utf8.Bytes -> Errors.DecodeOutcome, to: R): (o: Outcome<Reply, R>)
    ensures e.output.DataOutput? ==> o == Outcome(Ok(Reply(RawData(data), h)), [])
    ensures o.result.Ok? ==> o.result.value.response == h
    ensures e.output.DecodableOutput? ==> (o.result.Ok? <==> decode(data).Decoded?)
  {
    match e.output
    case DataOutput => Outcome(Ok(Reply(RawData(data), h)), [])
    case DecodableOutput(ty) =>
      var dec := Decoding(e, ty, data, decode, to);
      Outcome(if dec.result.Ok? then Ok(Reply(DecodedValue(dec.result.value), h)) else Err(dec.result.error), dec.steps)
  }

  // Counting events

  predicate IsWillBegin(ev: Event) { ev.WillBegin? }
  predicate IsDidFinish(ev: Event) { ev.DidFinish? }
  predicate IsDidFail(ev: Event) { ev.DidFail? }
  predicate IsTerminal(ev: Event) { ev.DidFinish? || ev.DidFail? }
  predicate IsSent<R>(st: Step<R>) { st.Sent? }

  /** The number of delivered events that satisfy `p`. */
  function Count<R>(steps: seq<Step<R>>, p: Event -> bool): nat
    decreases |steps|
  {
    if steps == [] then 0
    else (if steps[0].Delivered? && p(steps[0].event) then 1 else 0) + Count(steps[1..], p)
  }

  lemma {:induction false} CountAppend<R>(xs: seq<Step<R>>, ys: seq<Step<R>>, p: Event -> bool)
    ensures Count(xs + ys, p) == Count(xs, p) + Count(ys, p)
    decreases |xs|
  {
    if xs == [] {
      assert xs + ys == ys;
    } else {
      assert (xs + ys)[1..] == xs[1..] + ys;
      CountAppend(xs[1..], ys, p);
    }
  }

  lemma CountOne<R>(st: Step<R>, p: Event -> bool)
    ensures Count([st], p) == if st.Delivered? && p(st.event) then 1 else 0
  {
    assert [st][1..] == [];
  }

  // Properties of the stages

  /** Exactly the codes from 200 through 299 succeed. */
  lemma StatusBoundaries()
    ensures IsSuccess(200) && IsSuccess(299) && !IsSuccess(199) && !IsSuccess(300)
  {
  }

  /** Once the transport answers with an HTTP response, the request succeeds exactly when
      its status is in `200 ..< 300`; otherwise `badResponse` is thrown and `didFail` carries
      the real status; `didFinish` follows only a success. */
  lemma TransferStatus<R>(s: Subject, d: Domain, body: Option<Utf8.Bytes>, reflect: Subject -> string, to: R,
    u: Http.UrlRequest, data: Utf8.Bytes, h: Http.HttpResponse)
    requires UrlRequestFor(d, s, reflect) == Ok(u)
    requires d.data(u.(httpBody := body)) == Ok((data, Http.Http(h)))
    ensures var t := Transfer(s, d, body, reflect, to);
      var begun := [Delivered(WillBegin(s), to), Sent(u.(httpBody := body))];
      (t.result.Ok? <==> IsSuccess(h.statusCode))
      && (t.result.Ok? ==> t.result.value == (data, h) && t.steps == begun + [Delivered(DidFinish(s), to)])
      && (t.result.Err? ==>
            t.result.error == Errors.Classified(Errors.BadResponse(h))
            && t.steps == begun + [Delivered(DidFail(s, h.statusCode, t.result.error), to)])
  {
  }

  /** A response that is not an HTTP response gives `unexpectedResponse`, reported with status -1. */
  lemma TransferNonHttp<R>(s: Subject, d: Domain, body: Option<Utf8.Bytes>, reflect: Subject -> string, to: R,
    u: Http.UrlRequest, data: Utf8.Bytes, r: Http.UrlResponse)
    requires UrlRequestFor(d, s, reflect) == Ok(u)
    requires d.data(u.(httpBody := body)) == Ok((data, r)) && r.NonHttp?
    ensures var t := Transfer(s, d, body, reflect, to);
      var err := Errors.Classified(Errors.UnexpectedResponse(r));
      t.result == Err(err)
      && t.steps == [Delivered(WillBegin(s), to), Sent(u.(httpBody := body)), Delivered(DidFail(s, -1, err), to)]
  {
  }

  /** An error from the domain, while preparing the request or from the transport, is thrown
      as it is, and no `didFail` is delivered for it. */
  lemma DomainErrorsPassThrough<R>(s: Subject, d: Domain, body: Option<Utf8.Bytes>, reflect: Subject -> string, to: R)
    ensures var t := Transfer(s, d, body, reflect, to);
      (UrlRequestFor(d, s, reflect).Err? ==> t.result == Err(UrlRequestFor(d, s, reflect).error) && t.steps == [])
      && (UrlRequestFor(d, s, reflect).Ok? && d.data(UrlRequestFor(d, s, reflect).value.(httpBody := body)).Err? ==>
          t.result.Err? && Count(t.steps, IsDidFail) == 0 && Count(t.steps, IsWillBegin) == 1)
  {
    var t := Transfer(s, d, body, reflect, to);
    if UrlRequestFor(d, s, reflect).Ok? && d.data(UrlRequestFor(d, s, reflect).value.(httpBody := body)).Err? {
      var u := UrlRequestFor(d, s, reflect).value;
      CountAppend([Delivered(WillBegin(s), to)], [Sent(u.(httpBody := body))], IsDidFail);
      CountAppend([Delivered(WillBegin(s), to)], [Sent(u.(httpBody := body))], IsWillBegin);
      assert t.steps == [Delivered(WillBegin(s), to)] + [Sent(u.(httpBody := body))];
      CountOne(Delivered(WillBegin(s), to), IsDidFail);
      CountOne(Delivered(WillBegin(s), to), IsWillBegin);
      CountOne<R>(Sent(u.(httpBody := body)), IsDidFail);
      CountOne<R>(Sent(u.(httpBody := body)), IsWillBegin);
    }
  }

  /** A failed encoding stops the perform before anything is sent: `didFail` with -1 is the
      only step; `invalidValue` becomes `.encoding(Input)`, any other error is rethrown as it is. */
  lemma EncodeFailureStopsEarly<R>(e: Endpoints.Endpoint, d: Domain, decode: Utf8.Bytes -> Errors.DecodeOutcome,
    reflect: Subject -> string, to: R)
    requires e.input.EncodableInput? && !e.input.encoded.Encoded?
    ensures var o := Expected(e, d, decode, reflect, to);
      var err := match e.input.encoded
        case InvalidValue(c) => Errors.Classified(Errors.Encoding(e.input.typeName, c))
        case EncodeFailed(x) => Errors.Foreign(x)
        case Encoded(_) => Errors.Foreign("");
      o.result == Err(err) && o.steps == [Delivered(DidFail(Direct(e), -1, err), to)]
  {
  }

  /** An endpoint whose input is raw data sends it as the body verbatim and is never encoded. */
  lemma DataInputSentVerbatim<R>(e: Endpoints.Endpoint, d: Domain, decode: Utf8.Bytes -> Errors.DecodeOutcome,
    reflect: Subject -> string, to: R)
    requires e.input.DataInput?
    ensures Encoding(e, to) == Outcome(Ok(Some(e.input.body)), [])
    ensures var o := Expected(e, d, decode, reflect, to);
      forall i :: 0 <= i < |o.steps| && o.steps[i].Sent? ==> o.steps[i].request.httpBody == Some(e.input.body)
  {
  }

  /** An endpoint whose output is raw data returns the transport's bytes, and is never decoded. */
  lemma DataOutputReturnsRaw<R>(e: Endpoints.Endpoint, d: Domain, decode: Utf8.Bytes -> Errors.DecodeOutcome,
    reflect: Subject -> string, to: R)
    requires e.output.DataOutput?
    ensures var o := Expected(e, d, decode, reflect, to);
      var enc := Encoding(e, to);
      enc.result.Ok? ==>
        var t := Transfer(SubjectFor(e), d, enc.result.value, reflect, to);
        o.steps == enc.steps + t.steps
        && (o.result.Ok? <==> t.result.Ok?)
        && (o.result.Ok? ==> o.result.value == Reply(RawData(t.result.value.0), t.result.value.1))
  {
  }

  /** Only the decode-only overload erases: the transport stage then reports the
      `AnyDataEndpoint`, whose descriptor is the endpoint's; every other shape reports the
      endpoint itself. */
  lemma ErasureOnlyForDecodeOnly(e: Endpoints.Endpoint)
    ensures SubjectFor(e).Erased? <==> e.input.NoInput? && e.output.DecodableOutput?
    ensures SubjectFor(e).Erased? ==> SubjectFor(e).erased == AnyData.Init(e)
    ensures SubjectFor(e).Request() == e.request
  {
  }

  /** Decoding failed after a successful transfer. */
  predicate DecodeFailedAfterTransfer<R>(e: Endpoints.Endpoint, d: Domain, decode: Utf8.Bytes -> Errors.DecodeOutcome,
    reflect: Subject -> string, to: R)
  {
    var enc := Encoding(e, to);
    enc.result.Ok? && e.output.DecodableOutput?
    && var t := Transfer(SubjectFor(e), d, enc.result.value, reflect, to);
    t.result.Ok? && !decode(t.result.value.0).Decoded?
  }

  /** A decode failure is reported after the transfer has finished: the steps are the
      encoding's, `willBegin`, the send, `didFinish`, then `didFail` with -1 for the endpoint
      itself; the four `DecodingError`s become `.decoding(Output)`. */
  lemma DecodeFailureOrder<R>(e: Endpoints.Endpoint, d: Domain, decode: Utf8.Bytes -> Errors.DecodeOutcome,
    reflect: Subject -> string, to: R)
    requires DecodeFailedAfterTransfer(e, d, decode, reflect, to)
    ensures var o := Expected(e, d, decode, reflect, to);
      var enc := Encoding(e, to);
      var s := SubjectFor(e);
      var u := UrlRequestFor(d, s, reflect).value.(httpBody := enc.result.value);
      var data := Transfer(s, d, enc.result.value, reflect, to).result.value.0;
      var err := o.result.error;
      o.result.Err?
      && o.steps == enc.steps + [Delivered(WillBegin(s), to), Sent(u), Delivered(DidFinish(s), to),
                                 Delivered(DidFail(Direct(e), -1, err), to)]
      && (DecodingContext(decode(data)).Some? ==>
          err == Errors.Classified(Errors.Decoding(e.output.typeName, DecodingContext(decode(data)).value)))
  {
  }

  /** The number of terminal events (`didFinish`, `didFail`) of a perform is at most two, and
      two exactly when decoding failed after the transfer; a successful perform delivers
      exactly one `willBegin` and one `didFinish` and no `didFail`. */
  lemma TerminalEvents<R>(e: Endpoints.Endpoint, d: Domain, decode: Utf8.Bytes -> Errors.DecodeOutcome,
    reflect: Subject -> string, to: R)
    ensures var o := Expected(e, d, decode, reflect, to);
      Count(o.steps, IsTerminal) <= 2
      && (Count(o.steps, IsTerminal) == 2 <==> DecodeFailedAfterTransfer(e, d, decode, reflect, to))
      && (o.result.Ok? ==> Count(o.steps, IsWillBegin) == 1 && Count(o.steps, IsDidFinish) == 1
                           && Count(o.steps, IsDidFail) == 0)
  {
    var o := Expected(e, d, decode, reflect, to);
    var enc := Encoding(e, to);
    EncodingCounts(e, to);
    if enc.result.Ok? {
      var s := SubjectFor(e);
      var t := Transfer(s, d, enc.result.value, reflect, to);
      TransferCounts(s, d, enc.result.value, reflect, to);
      CountAppend(enc.steps, t.steps, IsTerminal);
      CountAppend(enc.steps, t.steps, IsWillBegin);
      CountAppend(enc.steps, t.steps, IsDidFinish);
      CountAppend(enc.steps, t.steps, IsDidFail);
      if t.result.Ok? && e.output.DataOutput? {
        assert o.steps == enc.steps + t.steps + [];
        assert enc.steps + t.steps + [] == enc.steps + t.steps;
      } else if t.result.Ok? && e.output.DecodableOutput? {
        var dec := Decoding(e, e.output.typeName, t.result.value.0, decode, to);
        assert o.steps == enc.steps + t.steps + dec.steps;
        DecodingCounts(e, e.output.typeName, t.result.value.0, decode, to);
        CountAppend(enc.steps + t.steps, dec.steps, IsTerminal);
        CountAppend(enc.steps + t.steps, dec.steps, IsWillBegin);
        CountAppend(enc.steps + t.steps, dec.steps, IsDidFinish);
        CountAppend(enc.steps + t.steps, dec.steps, IsDidFail);
      }
    }
  }

  lemma EncodingCounts<R>(e: Endpoints.Endpoint, to: R)
    ensures var enc := Encoding(e, to);
      Count(enc.steps, IsWillBegin) == 0 && Count(enc.steps, IsDidFinish) == 0
      && Count(enc.steps, IsTerminal) == Count(enc.steps, IsDidFail)
      && (enc.result.Ok? ==> Count(enc.steps, IsDidFail) == 0)
      && (enc.result.Err? ==> Count(enc.steps, IsDidFail) == 1)
  {
    var enc := Encoding(e, to);
    if |enc.steps| == 1 {
      assert enc.steps == [enc.steps[0]];
      CountOne(enc.steps[0], IsWillBegin);
      CountOne(enc.steps[0], IsDidFinish);
      CountOne(enc.steps[0], IsDidFail);
      CountOne(enc.steps[0], IsTerminal);
    }
  }

  lemma DecodingCounts<R>(e: Endpoints.Endpoint, t: string, data: Utf8.Bytes, decode: Utf8.Bytes -> Errors.DecodeOutcome, to: R)
    ensures var dec := Decoding(e, t, data, decode, to);
      Count(dec.steps, IsWillBegin) == 0 && Count(dec.steps, IsDidFinish) == 0
      && Count(dec.steps, IsTerminal) == Count(dec.steps, IsDidFail)
      && (dec.result.Ok? <==> Count(dec.steps, IsDidFail) == 0)
      && Count(dec.steps, IsDidFail) <= 1
      && (dec.result.Ok? <==> decode(data).Decoded?)
  {
    var dec := Decoding(e, t, data, decode, to);
    assert dec.steps == [dec.steps[0]];
    CountOne(dec.steps[0], IsWillBegin);
    CountOne(dec.steps[0], IsDidFinish);
    CountOne(dec.steps[0], IsDidFail);
    CountOne(dec.steps[0], IsTerminal);
  }

  lemma TransferCounts<R>(s: Subject, d: Domain, body: Option<Utf8.Bytes>, reflect: Subject -> string, to: R)
    ensures var t := Transfer(s, d, body, reflect, to);
      Count(t.steps, IsTerminal) <= 1
      && (t.result.Ok? ==> Count(t.steps, IsWillBegin) == 1 && Count(t.steps, IsDidFinish) == 1
                           && Count(t.steps, IsDidFail) == 0 && Count(t.steps, IsTerminal) == 1)
  {
    var t := Transfer(s, d, body, reflect, to);
    if UrlRequestFor(d, s, reflect).Ok? {
      var u := UrlRequestFor(d, s, reflect).value;
      var w := Delivered(WillBegin(s), to);
      var sent: Step<R> := Sent(u.(httpBody := body));
      CountOne(w, IsWillBegin); CountOne(w, IsDidFinish); CountOne(w, IsDidFail); CountOne(w, IsTerminal);
      CountOne(sent, IsWillBegin); CountOne(sent, IsDidFinish); CountOne(sent, IsDidFail); CountOne(sent, IsTerminal);
      CountAppend([w], [sent], IsWillBegin);
      CountAppend([w], [sent], IsDidFinish);
      CountAppend([w], [sent], IsDidFail);
      CountAppend([w], [sent], IsTerminal);
      assert [w] + [sent] == [w, sent];
      if |t.steps| == 3 {
        var last := t.steps[2];
        assert t.steps == [w, sent] + [last];
        CountOne(last, IsWillBegin); CountOne(last, IsDidFinish); CountOne(last, IsDidFail); CountOne(last, IsTerminal);
        CountAppend([w, sent], [last], IsWillBegin);
        CountAppend([w, sent], [last], IsDidFinish);
        CountAppend([w, sent], [last], IsDidFail);
        CountAppend([w, sent], [last], IsTerminal);
      }
    }
  }
}
