/** The documents the backend keeps in its store, the token payload and the
    outcome of a request handler. */
module Records {
  import opened Js

  /** A document of the "users" collection. */
  datatype User = User(id: int, username: string, password: string, base64Photo: string, role: string)

  /** A document of the "messages" collection. `read` is the string "false"
      or "true", as the handlers store it. */
  datatype Message = Message(
    id: int,
    name: string,
    message: string,
    gender: string,
    country: string,
    creationDate: string,
    read: string)

  /** What a session token carries once its signature and expiry check out. */
  datatype Payload = Payload(userId: int, username: string)

  /** Signature and expiry check of a token string under the server's secret
      and the current time: the payload, or nothing when it throws. */
  type Verifier = string -> Option<Payload>

  /** Signing of a payload into a token string valid for one hour. */
  type Signer = Payload -> string

  /** A handler's reply: a body with status 200, or a status and an error text. */
  datatype Result<T> = Ok(value: T) | Err(status: nat, error: string)

  const BadRequest: nat := 400
  const Unauthenticated: nat := 401
  const Forbidden: nat := 403
  const NotFound: nat := 404
}
