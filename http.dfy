/**
 * The slice of Go's `net/http` that the proxy's handlers touch: a request's
 * method, path, header and body, and a `ResponseWriter` whose status line
 * and body the handler writes.
 */
module Http {
  import opened Wrappers
  import opened GoStrings

  const StatusOK := 200
  const StatusCreated := 201
  const StatusBadRequest := 400
  const StatusNotFound := 404

  /**
   * `http.Header`: header names (as the server delivers them, already in
   * canonical form) to their values, in arrival order.
   */
  type Header = map<string, seq<string>>

  /** The server records a header name only with at least one value. */
  predicate WellFormed(header: Header) {
    forall name :: name in header ==> |header[name]| > 0
  }

  /** `Header.Get`: the first value of `name`, or "" when it is absent. */
  function Get(header: Header, name: string): string {
    if name in header && |header[name]| > 0 then header[name][0] else ""
  }

  /** The parts of an `*http.Request` the proxy reads; `verb` is `r.Method` and `path` is `r.URL.Path`. */
  datatype Request = Request(verb: string, path: string, header: Header, body: seq<Byte>)

  /**
   * What a handler has written so far: the status line once it is committed
   * (`None` while nothing has been written) and the body bytes.
   */
  datatype Response = Response(status: Option<int>, body: seq<Byte>) {

    /**
     * `WriteHeader(code)`: only the first final status (200 or above) takes
     * effect. A 1xx code is sent as an informational response and commits
     * nothing, so the response is unchanged by it.
     */
    function WithHeader(code: int): Response {
      if status.None? && code >= 200 then Response(Some(code), body) else this
    }

    /** `Write(data)`: appends to the body, committing status 200 if none was written. */
    function WithWrite(data: seq<Byte>): Response {
      Response(if status.None? then Some(StatusOK) else status, body + data)
    }
  }

  /** The state of a response that the handler has not touched. */
  const Unwritten := Response(None, [])

  /** An `http.ResponseWriter` as one request's handler sees it. */
  class ResponseWriter {
    var status: Option<int>
    var body: seq<Byte>

    function Current(): Response
      reads this
    {
      Response(status, body)
    }

    constructor ()
      ensures Current() == Unwritten
    {
      status, body := None, [];
    }

    /** net/http rejects status codes outside 100..999. */
    method WriteHeader(code: int)
      requires 100 <= code <= 999
      modifies this
      ensures Current() == old(Current()).WithHeader(code)
    {
      if status.None? && code >= 200 {
        status := Some(code);
      }
    }

    method Write(data: seq<Byte>)
      modifies this
      ensures Current() == old(Current()).WithWrite(data)
    {
      if status.None? {
        status := Some(StatusOK);
      }
      body := body + data;
    }
  }
}
