/**
 * What every route handler of the blog's REST API returns: a success reply
 * carrying a JSON body, or an error reply carrying a status code and the
 * `message` the client reads.
 */
module Http {

  /** The identity the access guard attaches to an authenticated request. */
  type UserId = nat

  const OK := 200
  const Created := 201
  const BadRequest := 400
  const Unauthorized := 401
  const Forbidden := 403
  const NotFound := 404

  datatype Reply<+T> = Ok(status: nat, value: T) | Fail(status: nat, message: string)
}
