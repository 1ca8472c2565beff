/** Values of the Fetch standard that the service worker handles: requests,
    responses, and the outcome of asking the network for a request. Responses
    are immutable values, so `response.clone()` is the identity here. */
module Fetch {

  datatype Option<T> = None | Some(value: T)

  /** The `type` attribute of a Fetch `Response`. */
  datatype ResponseType = Basic | Cors | Default | Error | Opaque | OpaqueRedirect

  /** A snapshot of an HTTP response: status line, header list and body text. */
  datatype Response = Response(
    status: int,
    statusText: string,
    responseType: ResponseType,
    headers: seq<(string, string)>,
    body: string)

  /** The parts of a request that the worker looks at: its method, its URL
      (also the cache key) and its destination (`"document"` for a page
      navigation). */
  datatype Request = Request(httpMethod: string, url: string, destination: string)

  /** How the promise returned by `fetch(request)` settles: it resolves with a
      value (which the worker tests for presence) or it rejects (network
      failure). */
  datatype FetchOutcome = Resolved(value: Option<Response>) | Rejected

  /** The network, as the outcome it gives for each request. */
  type Network = Request -> FetchOutcome

  /** The request that `new Request(url)` builds: a GET with no destination. */
  function GetRequest(url: string): Request
  {
    Request("GET", url, "")
  }

  /** An ok status in the sense of the Fetch standard: 200 to 299 inclusive. */
  predicate IsOkStatus(status: int)
  {
    200 <= status <= 299
  }
}
