// Response.kt: a status, the response headers (names lower-cased by the
// client) and the body text. The status defaults to 200 and the headers to
// an empty map.

module Responses {
  datatype Response = Response(status: int, headers: map<string, string>, body: string)

  /** `Response(body = ...)` */
  function BodyResponse(body: string): (r: Response)
    ensures r.status == 200 && r.headers == map[] && r.body == body
  {
    Response(200, map[], body)
  }
}
