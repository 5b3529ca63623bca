/** The request and response records every handler and the dispatcher pass
    around (include/sera.h). A NULL `const char *` field is `None`;
    the request method is the field `verb`. */
module Sera {
  import opened CStrings

  datatype Request = Request(
    verb: Option<string>,
    path: string,
    query: Option<string>,
    body: Option<string>,
    bodyLen: nat)

  /** A response as a handler allocates it: the body is the text before its
      terminator and `bodyLen` the count of bytes to send from it. */
  datatype Response = Response(status: int, contentType: string, body: string, bodyLen: nat)

  /** The request built with only `.path` set; every other field is zeroed. */
  function PathOnly(path: string): (req: Request)
    ensures req.path == path && req.bodyLen == 0
    ensures req.verb.None? && req.query.None? && req.body.None?
  {
    Request(None, path, None, None, 0)
  }

  /** Every producer of a response sets `body_len` to `strlen(body)`. */
  predicate WellFormed(res: Response) {
    res.bodyLen == |res.body| && NoNul(res.body) && NoNul(res.contentType)
  }
}
