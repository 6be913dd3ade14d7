/**
 * What the authentication handlers share: the JSON request body they destructure, the
 * payload of the session token they sign, and the response they return.
 *
 * Signing the payload into a JWT and serialising it into the `auth_token` cookie are library
 * calls; a response that sets the cookie carries the payload itself.
 */
module Auth {
  import opened Wrappers
  import opened Db

  /** `request.json()`: either it throws, or it gives an object whose fields are strings. */
  datatype Body = Unparseable | Fields(fields: map<string, string>)

  /** The field read by destructuring when it is truthy: present and not empty. */
  function Provided(fields: map<string, string>, key: string): (r: Option<string>)
    ensures r.Some? <==> key in fields && fields[key] != ""
    ensures r.Some? ==> r.value == fields[key]
  {
    if key in fields && fields[key] != "" then Some(fields[key]) else None
  }

  /** The cookie holding the session token. */
  const TokenName := "auth_token"

  /** `AuthTokenPayload` as the handlers fill it (no `targetLevelId`). */
  datatype TokenPayload = TokenPayload(userId: Id, email: string, role: Role, plan: Plan)

  /** The user object a handler returns in its JSON body. */
  datatype UserView = UserView(id: Id, email: string, role: Role, plan: Plan)

  function PayloadOf(u: User): TokenPayload
  {
    TokenPayload(u.id, u.email, u.role, u.plan)
  }

  function ViewOf(u: User): UserView
  {
    UserView(u.id, u.email, u.role, u.plan)
  }

  /** A JSON response: status, message, the user object and the session cookie, when set. */
  datatype Response = Response(status: nat, message: string, user: Option<UserView>, session: Option<TokenPayload>)

  function Plain(status: nat, message: string): Response
  {
    Response(status, message, None, None)
  }

  /** What every handler's `catch` returns. */
  const InternalError := Plain(500, "Internal Server Error")

  /** A handler's response together with the tables it leaves behind. */
  datatype Outcome = Outcome(response: Response, tables: Tables)
}
