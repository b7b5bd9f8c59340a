/**
 The HTTP status codes the error model names (section 15 of RFC 9110, and
 section 6 of RFC 6585 for 511), under the names Go's `net/http` gives them.
 */
module Status {

  const BadRequest: int := 400
  const Unauthorized: int := 401
  const Forbidden: int := 403
  const NotFound: int := 404
  const MethodNotAllowed: int := 405
  const NotAcceptable: int := 406
  const UnprocessableEntity: int := 422
  const NotImplemented: int := 501
  const ServiceUnavailable: int := 503
  const NetworkAuthenticationRequired: int := 511

  /** The codes `HTTPCode` lets through unchanged: every 4xx and 5xx up to 511. */
  predicate IsErrorStatus(code: int) {
    BadRequest <= code <= NetworkAuthenticationRequired
  }
}
