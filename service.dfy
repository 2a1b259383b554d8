/** `EndpointService`: the registry of observers, kept by identity, and the perform
    pipeline, which notifies the live observers at each phase. `WeakBox` holds one
    registered observer weakly and unregisters it when its reference is cleared. */
module Service {
  import opened Wrappers
  import Utf8
  import Http
  import Errors
  import Endpoints
  import AnyData
  import Pipeline

  /** An `EndpointServiceObserver`; only its identity matters to the service. */
  class Observer {
    constructor () {
    }
  }

  /** `WeakBox`: the weak reference to the observer, and the `onDeinit` closure that
      `register` installs, which captures the observer and, weakly, the service. */
  class WeakBox {
    /** `object` (a keyword here, so `held`); nil once the observer is gone. */
    var held: Observer?
    /** The observer the closure unregisters. */
    const target: Observer
    /** The closure's `[weak self]`: nil once the service is gone. */
    var owner: EndpointService?

    constructor (o: Observer, s: EndpointService)
      ensures held == o && target == o && owner == s
    {
      held := o;
      target := o;
      owner := s;
    }

    /** Assigning `object`: the `didSet` runs `onDeinit` exactly when the new value is nil,
        and `onDeinit` unregisters the target from the service, when there still is one. */
    method SetObject(newValue: Observer?)
      modifies this, owner
      ensures held == newValue && owner == old(owner)
      ensures owner != null && newValue == null ==> owner.observers == old(owner.observers) - {target}
      ensures owner != null && newValue != null ==> owner.observers == old(owner.observers)
      ensures owner != null ==> owner.trace == old(owner.trace)
    {
      held := newValue;
      if held == null {
        OnDeinit();
      }
    }

    /** `{ [weak self] in self?.unregister(observer) }`. */
    method OnDeinit()
      modifies owner
      ensures owner != null ==> owner.observers == old(owner.observers) - {target}
      ensures owner != null ==> owner.trace == old(owner.trace)
    {
      if owner != null {
        owner.Unregister(target);
      }
    }

    /** The service is gone: the closure's weak reference to it becomes nil. */
    method ServiceGone()
      modifies this
      ensures owner == null && held == old(held)
    {
      owner := null;
    }
  }

  class EndpointService {
    const domain: Pipeline.Domain
    /** `observers`, keyed by the observer's identity. */
    var observers: map<Observer, WeakBox>
    /** Every event delivered, with the observers it reached, and every request sent. */
    var trace: seq<Pipeline.Step<set<Observer>>>

    /** Each entry's box holds the closure for its own key, bound to this service. */
    ghost predicate Valid()
      reads `observers, observers.Values
    {
      forall o :: o in observers ==> observers[o].target == o && observers[o].owner == this
    }

    /** The observers a broadcast reaches: the registered ones whose box still holds them. */
    ghost function Live(): set<Observer>
      reads `observers, observers.Values
    {
      set o | o in observers && observers[o].held != null
    }

    /** `init(domain:observers:)`: registers the given observers in order. */
    constructor (domain: Pipeline.Domain, initial: seq<Observer>)
      ensures this.domain == domain && Valid() && trace == []
      ensures observers.Keys == set o | o in initial
      ensures Live() == observers.Keys
    {
      this.domain := domain;
      observers := map[];
      trace := [];
      new;
      var i := 0;
      while i < |initial|
        invariant 0 <= i <= |initial|
        invariant Valid() && trace == []
        invariant observers.Keys == set o | o in initial[..i]
        invariant Live() == observers.Keys
      {
        Register(initial[i]);
        assert initial[..i + 1] == initial[..i] + [initial[i]];
        i := i + 1;
      }
      assert initial[..i] == initial;
    }

    /** `register(_:)`: the entry for the observer is replaced by a fresh box; registering
        twice leaves one entry. */
    method Register(o: Observer)
      requires Valid()
      modifies this
      ensures Valid() && trace == old(trace)
      ensures observers.Keys == old(observers.Keys) + {o}
      ensures forall p :: p in old(observers) && p != o ==> observers[p] == old(observers[p])
      ensures fresh(observers[o]) && observers[o].held == o
      ensures Live() == old(Live()) + {o}
    {
      var box := new WeakBox(o, this);
      observers := observers[o := box];
    }

    /** `unregister(_:)`: the entry is removed; an absent observer changes nothing. */
    method Unregister(o: Observer)
      modifies this
      ensures observers == old(observers) - {o} && trace == old(trace)
      ensures o !in old(observers) ==> observers == old(observers)
      ensures old(Valid()) ==> Valid()
    {
      observers := observers - {o};
    }

    /** The observer is deallocated: its box's reference is cleared, which unregisters it, so
        it receives nothing afterwards. */
    method Release(o: Observer)
      requires Valid() && o in observers
      modifies this, observers[o]
      ensures Valid() && observers == old(observers) - {o} && trace == old(trace)
      ensures Live() == old(Live()) - {o}
    {
      var box := observers[o];
      box.SetObject(null);
    }

    /** `observers.values.forEach { $0.object?.service(...) }`: the event reaches every entry
        whose box still holds its observer. */
    method Broadcast(ev: Pipeline.Event)
      modifies this
      ensures trace == old(trace) + [Pipeline.Delivered(ev, old(Live()))]
      ensures observers == old(observers) && Live() == old(Live())
    {
      var pending := observers.Keys;
      var reached: set<Observer> := {};
      while pending != {}
        invariant observers == old(observers) && trace == old(trace)
        invariant pending <= observers.Keys
        invariant reached == set p | p in observers && p !in pending && observers[p].held != null
        decreases pending
      {
        var p :| p in pending;
        if observers[p].held != null {
          reached := reached + {p};
        }
        pending := pending - {p};
      }
      assert reached == Live();
      trace := trace + [Pipeline.Delivered(ev, reached)];
    }

    /** `throwError(error:status:endpoint:)`: `didFail` is broadcast and the error returned
        for the caller to throw. */
    method ThrowError(err: Errors.Error, status: int, s: Pipeline.Subject) returns (r: Errors.Error)
      modifies this
      ensures r == err && observers == old(observers) && Live() == old(Live())
      ensures trace == old(trace) + [Pipeline.Delivered(Pipeline.DidFail(s, status, err), old(Live()))]
    {
      Broadcast(Pipeline.DidFail(s, status, err));
      return err;
    }

    /** `encode(endpoint:)`. */
    method Encode(e: Endpoints.Endpoint) returns (r: Result<Option<Utf8.Bytes>, Errors.Error>)
      requires e.input.EncodableInput?
      modifies this
      ensures observers == old(observers) && Live() == old(Live())
      ensures var o := Pipeline.Encoding(e, old(Live())); r == o.result && trace == old(trace) + o.steps
    {
      match e.input.encoded
      case Encoded(data) =>
        Broadcast(Pipeline.DidEncode(Pipeline.Direct(e)));
        return Ok(Some(data));
      case InvalidValue(c) =>
        var err := ThrowError(Errors.Classified(Errors.Encoding(e.input.typeName, c)), -1, Pipeline.Direct(e));
        return Err(err);
      case EncodeFailed(x) =>
        var err := ThrowError(Errors.Foreign(x), -1, Pipeline.Direct(e));
        return Err(err);
    }

    /** `decode(_:endpoint:)`. */
    method Decode(data: Utf8.Bytes, e: Endpoints.Endpoint, decode: Utf8.Bytes -> Errors.DecodeOutcome)
      returns (r: Result<string, Errors.Error>)
      requires e.output.DecodableOutput?
      modifies this
      ensures observers == old(observers) && Live() == old(Live())
      ensures var o := Pipeline.Decoding(e, e.output.typeName, data, decode, old(Live()));
        r == o.result && trace == old(trace) + o.steps
    {
      var outcome := decode(data);
      if outcome.Decoded? {
        Broadcast(Pipeline.DidDecode(Pipeline.Direct(e)));
        return Ok(outcome.value);
      }
      var context := Pipeline.DecodingContext(outcome);
      var err: Errors.Error;
      if context.Some? {
        err := ThrowError(Errors.Classified(Errors.Decoding(e.output.typeName, context.value)), -1, Pipeline.Direct(e));
      } else {
        err := ThrowError(Errors.Foreign(if outcome.DecodeFailed? then outcome.description else ""), -1, Pipeline.Direct(e));
      }
      return Err(err);
    }

    /** The request the domain assembles for the endpoint: its base URL, then `request(baseUrl:)`. */
    method RequestFor(s: Pipeline.Subject, reflect: Pipeline.Subject -> string)
      returns (r: Result<Http.UrlRequest, Errors.Error>)
      ensures r == Pipeline.UrlRequestFor(domain, s, reflect)
    {
      var base := domain.baseUrl(s.Request());
      if base.Err? {
        return Err(base.error);
      }
      var assembled := Endpoints.Assemble(s.Request(), base.value, domain.formable, reflect(s));
      if assembled.Err? {
        return Err(Errors.Classified(assembled.error));
      }
      return Ok(assembled.value);
    }

    /** `perform(_:data:)`: assemble through the domain, attach the body, `willBegin`, the
        transport, then the checks of `Receive`. */
    method PerformData(s: Pipeline.Subject, body: Option<Utf8.Bytes>, reflect: Pipeline.Subject -> string)
      returns (r: Result<(Utf8.Bytes, Http.HttpResponse), Errors.Error>)
      modifies this
      ensures observers == old(observers) && Live() == old(Live())
      ensures var o := Pipeline.Transfer(s, domain, body, reflect, old(Live()));
        r == o.result && trace == old(trace) + o.steps
    {
      var prepared := RequestFor(s, reflect);
      if prepared.Err? {
        return Err(prepared.error);
      }
      var request := prepared.value.(httpBody := body);
      Broadcast(Pipeline.WillBegin(s));
      trace := trace + [Pipeline.Sent(request)];
      var answer := domain.data(request);
      r := Receive(s, answer);
    }

    /** The response-kind check, the status check (`200 ..< 300`), and `didFail` or `didFinish`. */
    method Receive(s: Pipeline.Subject, answer: Result<(Utf8.Bytes, Http.UrlResponse), Errors.Error>)
      returns (r: Result<(Utf8.Bytes, Http.HttpResponse), Errors.Error>)
      modifies this
      ensures observers == old(observers) && Live() == old(Live())
      ensures var o := Pipeline.Received(s, answer, old(Live())); r == o.result && trace == old(trace) + o.steps
    {
      if answer.Err? {
        return Err(answer.error);
      }
      var data, response := answer.value.0, answer.value.1;
      if !response.Http? {
        var err := ThrowError(Errors.Classified(Errors.UnexpectedResponse(response)), -1, s);
        return Err(err);
      }
      var http := response.http;
      if !(200 <= http.statusCode < 300) {
        var err := ThrowError(Errors.Classified(Errors.BadResponse(http)), http.statusCode, s);
        return Err(err);
      }
      Broadcast(Pipeline.DidFinish(s));
      return Ok((data, http));
    }

    /** `perform(_:)` for an endpoint that encodes its body and decodes its output. */
    method PerformEncodedDecoded(e: Endpoints.Endpoint, decode: Utf8.Bytes -> Errors.DecodeOutcome, reflect: Pipeline.Subject -> string)
      returns (r: Result<Pipeline.Reply, Errors.Error>)
      requires e.input.EncodableInput? && e.output.DecodableOutput?
      modifies this
      ensures observers == old(observers) && Live() == old(Live())
      ensures var o := Pipeline.Expected(e, domain, decode, reflect, old(Live()));
        r == o.result && trace == old(trace) + o.steps
    {
      var encoded := Encode(e);
      if encoded.Err? {
        return Err(encoded.error);
      }
      var result := PerformData(Pipeline.Direct(e), encoded.value, reflect);
      if result.Err? {
        return Err(result.error);
      }
      var decoded := Decode(result.value.0, e, decode);
      if decoded.Err? {
        return Err(decoded.error);
      }
      return Ok(Pipeline.Reply(Pipeline.DecodedValue(decoded.value), result.value.1));
    }

    /** `perform(_:)` for an endpoint that encodes its body and returns the response data. */
    method PerformEncoded(e: Endpoints.Endpoint, decode: Utf8.Bytes -> Errors.DecodeOutcome, reflect: Pipeline.Subject -> string)
      returns (r: Result<Pipeline.Reply, Errors.Error>)
      requires e.input.EncodableInput? && e.output.DataOutput?
      modifies this
      ensures observers == old(observers) && Live() == old(Live())
      ensures var o := Pipeline.Expected(e, domain, decode, reflect, old(Live()));
        r == o.result && trace == old(trace) + o.steps
    {
      var encoded := Encode(e);
      if encoded.Err? {
        return Err(encoded.error);
      }
      var result := PerformData(Pipeline.Direct(e), encoded.value, reflect);
      if result.Err? {
        return Err(result.error);
      }
      return Ok(Pipeline.Reply(Pipeline.RawData(result.value.0), result.value.1));
    }

    /** `perform(_:)` for an endpoint whose body is data and whose output is decoded. */
    method PerformBodyDecoded(e: Endpoints.Endpoint, decode: Utf8.Bytes -> Errors.DecodeOutcome, reflect: Pipeline.Subject -> string)
      returns (r: Result<Pipeline.Reply, Errors.Error>)
      requires e.input.DataInput? && e.output.DecodableOutput?
      modifies this
      ensures observers == old(observers) && Live() == old(Live())
      ensures var o := Pipeline.Expected(e, domain, decode, reflect, old(Live()));
        r == o.result && trace == old(trace) + o.steps
    {
      var result := PerformData(Pipeline.Direct(e), Some(e.input.body), reflect);
      if result.Err? {
        return Err(result.error);
      }
      var decoded := Decode(result.value.0, e, decode);
      if decoded.Err? {
        return Err(decoded.error);
      }
      return Ok(Pipeline.Reply(Pipeline.DecodedValue(decoded.value), result.value.1));
    }

    /** `perform(_:)` for an endpoint whose body is data and which returns the response data. */
    method PerformBody(e: Endpoints.Endpoint, decode: Utf8.Bytes -> Errors.DecodeOutcome, reflect: Pipeline.Subject -> string)
      returns (r: Result<Pipeline.Reply, Errors.Error>)
      requires e.input.DataInput? && e.output.DataOutput?
      modifies this
      ensures observers == old(observers) && Live() == old(Live())
      ensures var o := Pipeline.Expected(e, domain, decode, reflect, old(Live()));
        r == o.result && trace == old(trace) + o.steps
    {
      var result := PerformData(Pipeline.Direct(e), Some(e.input.body), reflect);
      if result.Err? {
        return Err(result.error);
      }
      return Ok(Pipeline.Reply(Pipeline.RawData(result.value.0), result.value.1));
    }

    /** `perform(_:)` for a decodable endpoint whose output is the response data: no body. */
    method PerformRaw(e: Endpoints.Endpoint, decode: Utf8.Bytes -> Errors.DecodeOutcome, reflect: Pipeline.Subject -> string)
      returns (r: Result<Pipeline.Reply, Errors.Error>)
      requires e.input.NoInput? && e.output.DataOutput?
      modifies this
      ensures observers == old(observers) && Live() == old(Live())
      ensures var o := Pipeline.Expected(e, domain, decode, reflect, old(Live()));
        r == o.result && trace == old(trace) + o.steps
    {
      var result := PerformData(Pipeline.Direct(e), None, reflect);
      if result.Err? {
        return Err(result.error);
      }
      return Ok(Pipeline.Reply(Pipeline.RawData(result.value.0), result.value.1));
    }

    /** `perform(_:)` for a decodable endpoint: the transfer goes through `AnyDataEndpoint(endpoint)`,
        the decoding through the endpoint itself. */
    method PerformDecoded(e: Endpoints.Endpoint, decode: Utf8.Bytes -> Errors.DecodeOutcome, reflect: Pipeline.Subject -> string)
      returns (r: Result<Pipeline.Reply, Errors.Error>)
      requires e.input.NoInput? && e.output.DecodableOutput?
      modifies this
      ensures observers == old(observers) && Live() == old(Live())
      ensures var o := Pipeline.Expected(e, domain, decode, reflect, old(Live()));
        r == o.result && trace == old(trace) + o.steps
    {
      var dataEndpoint := AnyData.Init(e);
      var result := PerformData(Pipeline.Erased(dataEndpoint), None, reflect);
      if result.Err? {
        return Err(result.error);
      }
      var decoded := Decode(result.value.0, e, decode);
      if decoded.Err? {
        return Err(decoded.error);
      }
      return Ok(Pipeline.Reply(Pipeline.DecodedValue(decoded.value), result.value.1));
    }

    /** Overload resolution: the `perform(_:)` the endpoint's shape selects. */
    method Perform(e: Endpoints.Endpoint, decode: Utf8.Bytes -> Errors.DecodeOutcome, reflect: Pipeline.Subject -> string)
      returns (r: Result<Pipeline.Reply, Errors.Error>)
      modifies this
      ensures observers == old(observers) && Live() == old(Live())
      ensures var o := Pipeline.Expected(e, domain, decode, reflect, old(Live()));
        r == o.result && trace == old(trace) + o.steps
    {
      match (e.input, e.output) {
        case (EncodableInput(_, _), DecodableOutput(_)) => r := PerformEncodedDecoded(e, decode, reflect);
        case (EncodableInput(_, _), DataOutput) => r := PerformEncoded(e, decode, reflect);
        case (DataInput(_), DecodableOutput(_)) => r := PerformBodyDecoded(e, decode, reflect);
        case (DataInput(_), DataOutput) => r := PerformBody(e, decode, reflect);
        case (NoInput, DataOutput) => r := PerformRaw(e, decode, reflect);
        case (NoInput, DecodableOutput(_)) => r := PerformDecoded(e, decode, reflect);
      }
    }

    /** `perform(_:) -> HTTPURLResponse` for a plain endpoint: no body, only the response is returned. */
    method PerformForResponse(e: Endpoints.Endpoint, reflect: Pipeline.Subject -> string)
      returns (r: Result<Http.HttpResponse, Errors.Error>)
      modifies this
      ensures observers == old(observers) && Live() == old(Live())
      ensures var o := Pipeline.Transfer(Pipeline.Direct(e), domain, None, reflect, old(Live()));
        (r.Ok? <==> o.result.Ok?) && (r.Ok? ==> r.value == o.result.value.1)
        && (r.Err? ==> r.error == o.result.error) && trace == old(trace) + o.steps
    {
      var result := PerformData(Pipeline.Direct(e), None, reflect);
      if result.Err? {
        return Err(result.error);
      }
      return Ok(result.value.1);
    }
  }
}
