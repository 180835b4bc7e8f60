/** The errors a router procedure can end with: a `TRPCError` it throws itself,
    a rejection by the input schema, or a fault of an external service that the
    routers let propagate without catching it. */
module Errors {
  import opened Wrappers

  /** The external services the routers call. */
  datatype Dependency = PostStore | UserDirectory | RateLimiter

  /** An exception raised inside an external service, carried unchanged. */
  datatype Fault = Fault(dependency: Dependency, detail: string)

  /** The tRPC error codes the routers throw. */
  datatype Code = BadRequest | TooManyRequests | InternalServerError | ParseError

  /** One issue reported by the input schema of `createPosts`. */
  datatype Issue = NotEmoji(message: string) | TooSmall(minimum: nat) | TooBig(maximum: nat)

  datatype ApiError =
    | Thrown(code: Code, message: string)   // a TRPCError raised by a router
    | InvalidInput(issues: seq<Issue>)      // schema rejection, answered as BAD_REQUEST
    | Upstream(fault: Fault)                // an external service's exception, not caught

  const AuthorNotFound: ApiError := Thrown(InternalServerError, "Author not found!")
  const BlurFailed: ApiError := Thrown(ParseError, "Cannot create blur image!")
  const PostLimitExceeded: ApiError := Thrown(TooManyRequests, "Post limit exceeded")
  const UserNotFound: ApiError := Thrown(InternalServerError, "User not found")

  /** Lets an external service's failure through unchanged, as an un-caught
      `await` does. */
  function Forward<T>(r: Result<T, Fault>): (f: Result<T, ApiError>)
    ensures f.Success? <==> r.Success?
    ensures r.Success? ==> f.value == r.value
    ensures r.Failure? ==> f.error == Upstream(r.error)
  {
    match r
    case Success(v) => Success(v)
    case Failure(e) => Failure(Upstream(e))
  }
}
