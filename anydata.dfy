/** `AnyDataEndpoint`: an endpoint reduced to its method and descriptor, with neither an
    encodable input nor a decodable output. */
module AnyData {
  import Methods
  import Requests
  import Endpoints

  datatype AnyDataEndpoint = AnyDataEndpoint(httpMethod: Methods.Method, request: Requests.Request)
  {
    /** The erased endpoint seen as an `Endpoint`: the same descriptor; it sends no body
        and returns the raw data. */
    function AsEndpoint(): (r: Endpoints.Endpoint)
      ensures r.request == request && r.input.NoInput? && r.output.DataOutput?
    {
      Endpoints.Endpoint(request, Endpoints.NoInput, Endpoints.DataOutput)
    }
  }

  /** `AnyDataEndpoint(endpoint)`: copies the method and the descriptor unchanged. */
  function Init(e: Endpoints.Endpoint): (r: AnyDataEndpoint)
    ensures r.httpMethod == e.request.httpMethod && r.request == e.request
  {
    AnyDataEndpoint(e.request.httpMethod, e.request)
  }

  /** Erasing loses only the body and result shapes: the descriptor survives, and erasing
      an erased endpoint again changes nothing. */
  lemma ErasureKeepsDescriptor(e: Endpoints.Endpoint)
    ensures Init(e).AsEndpoint().request == e.request
    ensures Init(Init(e).AsEndpoint()) == Init(e)
    ensures Init(e).AsEndpoint() == e <==> e.input.NoInput? && e.output.DataOutput?
  {
  }
}
