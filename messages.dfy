/**
 * The values the middleware passes around: what it binds into statements,
 * the request and response it sees, and what the downstream handler does.
 */
module Messages {
  import opened Wrappers
  import QueryString

  /** A value bound into a statement or returned by a custom column function. */
  datatype Value =
    | Null
    | False
    | Int(i: int)
    | Text(s: string)
      /** `json_encode(['querystring' => ..., 'body' => ...])`; the encoding itself is left opaque. */
    | Params(querystring: QueryString.Query, body: Value)

  /**
   * The server variables read per request: the formatted request time, the
   * path part of the request URI, the method name and, when present, the
   * (already URL-decoded) query string.
   */
  datatype Server = Server(requestTime: string, requestPath: string, requestMethod: string, queryString: Option<string>)

  /** The parts of a PSR request the middleware uses. */
  datatype Request = Request(path: string, parsedBody: Value, attributes: map<string, Value>) {
    /** `withAttribute`: a copy with one attribute set. */
    function WithAttribute(name: string, value: Value): (r: Request)
      ensures r.path == path && r.parsedBody == parsedBody
      ensures name in r.attributes && r.attributes[name] == value
      ensures forall k :: k != name ==> (k in r.attributes <==> k in attributes)
      ensures forall k :: k != name && k in attributes ==> r.attributes[k] == attributes[k]
    {
      this.(attributes := attributes[name := value])
    }
  }

  /** The parts of a PSR response the middleware uses. */
  datatype Response = Response(status: int, body: string)

  /** A downstream `\Exception`: its code and message. */
  datatype Exception = Exception(code: int, message: string)

  /** What the downstream handler did: returned a response or threw. */
  datatype Outcome = Completed(response: Response) | Threw(exception: Exception)
}
