/**
 * What a handler answers, the query parameters it reads, and the
 * authentication middleware every route runs first.
 */
module Http {
  import opened Wrappers
  import Json

  /** An error body: `{ error: text }`, or express-validator's `{ errors: [...] }` naming the failed fields. */
  datatype ErrorBody = Message(text: string) | FieldErrors(fields: seq<string>)

  /** A response: a status code with its payload, or a status code with an error body. */
  datatype Reply<T> = Ok(status: nat, value: T) | Fail(status: nat, body: ErrorBody)

  /** A query-string parameter: missing, an integer, or text Postgres cannot read as a bigint. */
  datatype Param = Missing | Given(n: int) | Malformed

  /** What the remote verify call of the middleware reports. */
  datatype VerifyReply = Verified(userId: int) | VerifyFailed(status: nat) | VerifyUnreachable

  /** The middleware's decision: the caller's user id, or the response that ends the request. */
  datatype Auth = Authenticated(userId: int) | Denied(status: nat, message: string)

  const BearerPrefix: string := "Bearer "

  predicate IsBearer(header: string)
  {
    |header| >= |BearerPrefix| && header[..|BearerPrefix|] == BearerPrefix
  }

  /**
   * The authenticate middleware: a missing header or one without the
   * "Bearer " prefix is refused without asking the auth service; otherwise
   * the auth service's verdict decides.
   */
  function Authenticate(header: Option<string>, verify: VerifyReply): (a: Auth)
    ensures a.Authenticated? <==> header.Some? && IsBearer(header.value) && verify.Verified?
    ensures a.Authenticated? ==> a.userId == verify.userId
    ensures header.None? || !IsBearer(header.value) ==> a == Denied(401, "Authentication required")
    ensures a.Denied? ==> a.status == 401 || a.status == 500
  {
    if header.None? || !IsBearer(header.value) then Denied(401, "Authentication required")
    else match verify
      case Verified(u) => Authenticated(u)
      case VerifyFailed(status) =>
        if status == 401 then Denied(401, "Invalid or expired token") else Denied(500, "Authentication failed")
      case VerifyUnreachable => Denied(500, "Authentication failed")
  }

  /** The message axios gives a request answered with a non-2xx status. */
  function AxiosStatusMessage(status: nat): string
  {
    "Request failed with status code " + Json.DigitString(status)
  }

  /** JavaScript's `m || fallback` on a string. */
  function OrElse(m: string, fallback: string): (r: string)
    ensures m != "" ==> r == m
    ensures m == "" ==> r == fallback
  {
    if m != "" then m else fallback
  }

  /** Postgres INTEGER, the type of every id column and id parameter. */
  predicate InInt4(n: int) { -0x8000_0000 <= n < 0x8000_0000 }

  /** Postgres BIGINT, the type of LIMIT and OFFSET. */
  predicate InInt8(n: int) { -0x8000_0000_0000_0000 <= n < 0x8000_0000_0000_0000 }
}
