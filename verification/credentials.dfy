/**
 The credentials login handler: validate the request body, look the principal
 up by email, compare the password with the stored hash, and on success issue
 a session as a pair of cookies together with a `200` response echoing the
 user. Every failure is an `{error}` response that sets no cookie.

 The handler's collaborators are parameters of the model (see `Env`): the
 user table, the password-hash comparator, the session encoder, the clock and
 whether the deployment is production.
 */
module Credentials {
  import opened Wrappers
  import opened Cookies
  import opened Sessions

  /** One field of the parsed request body, as far as the handler tells fields apart. */
  datatype Field =
    | Absent                // `undefined` or `null`
    | Text(s: string)       // a JSON string
    | NonText(truthy: bool) // a number, boolean, array or object, with its JavaScript truthiness

  /** The request body after `request.json()`. */
  datatype RequestBody =
    | Unparseable           // the body is not JSON: `request.json()` rejects
    | NullBody              // the JSON `null`: destructuring it throws
    | Fields(email: Field, password: Field) // any other JSON value; a non-object has both fields `Absent`

  /** JavaScript's `!x` on a field. */
  predicate Falsy(f: Field)
  {
    f.Absent? || f == Text("") || f == NonText(false)
  }

  datatype Principal = Principal(id: string, email: string, name: string, passwordHash: string)

  /** The user table, looked up by exact email; it may be unreachable. */
  datatype UserStore = Online(users: map<string, Principal>) | Offline

  /** A table in which every principal is filed under its own email. */
  predicate WellFormed(users: map<string, Principal>)
  {
    forall e :: e in users ==> users[e].email == e
  }

  /**
   What the handler consults besides the request: the user table, the
   password comparator (bcrypt's `compare(password, hash)`), the encoder of the
   session into the opaque cookie value (JSON then base64), the clock in
   milliseconds, and whether the deployment is production.
   */
  datatype Env = Env(
    store: UserStore,
    matches: (string, string) -> bool,
    encode: Session -> string,
    now: int,
    isProduction: bool)

  datatype Header = Header(name: string, value: string)

  datatype ResponseBody =
    | ErrorBody(error: string)
    | SuccessBody(success: bool, user: SessionUser)

  datatype Response = Response(status: int, body: ResponseBody, headers: seq<Header>, cookies: Jar)

  const MissingFieldsMessage := "Missing email or password"
  const NotFoundMessage := "User not found"
  const InvalidPasswordMessage := "Invalid password"
  const UnexpectedMessage := "An unexpected error occurred"

  const SessionCookieName := "next-auth.session-token"
  const StatusCookieName := "auth-status"
  const StatusCookieValue := "authenticated"

  /** The headers that forbid caching the outcome of a login. */
  const NoCacheHeaders := [
    Header("Cache-Control", "no-store, no-cache, must-revalidate"),
    Header("Pragma", "no-cache")
  ]

  /** The only message each error status carries. */
  function ErrorMessage(status: int): string
  {
    if status == 400 then MissingFieldsMessage
    else if status == 404 then NotFoundMessage
    else if status == 401 then InvalidPasswordMessage
    else UnexpectedMessage
  }

  /** An error response: a bare `{error}` body, no headers, no cookies. */
  function Reject(status: int): Response
  {
    Response(status, ErrorBody(ErrorMessage(status)), [], [])
  }

  /** The fields of a principal that leave the server, in the session and in the body. */
  function View(p: Principal): SessionUser
  {
    SessionUser(p.id, p.email, p.name)
  }

  /** Both fields are present and truthy, so validation lets the request through. */
  predicate Presented(body: RequestBody)
  {
    body.Fields? && !Falsy(body.email) && !Falsy(body.password)
  }

  /** The principal the lookup finds for a presented string email. */
  predicate Found(body: RequestBody, env: Env)
  {
    Presented(body) && body.email.Text? && env.store.Online? && body.email.s in env.store.users
  }

  /** The opaque cookie carrying the encoded session; page scripts cannot read it. */
  function SessionCookie(session: Session, env: Env): Cookie
  {
    Cookie(SessionCookieName, env.encode(session), true, "/", env.isProduction, MaxAgeSeconds, Strict, High)
  }

  /** The client-readable marker that a login happened; it carries no trust. */
  function StatusCookie(env: Env): Cookie
  {
    Cookie(StatusCookieName, StatusCookieValue, false, "/", env.isProduction, MaxAgeSeconds, Strict, High)
  }

  /** The successful response for principal `p`: the session cookie, then the marker cookie. */
  function Welcome(p: Principal, env: Env): Response
  {
    var session := Issue(View(p), env.now);
    var jar := Set(Set([], SessionCookie(session, env)), StatusCookie(env));
    Response(200, SuccessBody(true, View(p)), NoCacheHeaders, jar)
  }

  /**
   The handler. The checks run in the order fields, lookup, comparison,
   expiry, and the first that fails decides the status: a missing field (400),
   an unknown email (404), a wrong password (401); any exception the handler
   catches becomes 500.
   */
  function Login(body: RequestBody, env: Env): (r: Response)
    ensures r.status in {200, 400, 401, 404, 500}
    ensures r.status != 200 ==> r == Reject(r.status)
    ensures r.status == 400 <==> body.Fields? && (Falsy(body.email) || Falsy(body.password))
    ensures r.status == 404 <==>
      Presented(body) && body.email.Text? && env.store.Online? && body.email.s !in env.store.users
    ensures r.status == 401 <==>
      Found(body, env) && body.password.Text?
      && !env.matches(body.password.s, env.store.users[body.email.s].passwordHash)
    ensures r.status == 200 <==>
      Found(body, env) && body.password.Text?
      && env.matches(body.password.s, env.store.users[body.email.s].passwordHash)
      && ExpiryRepresentable(env.now)
    ensures r.status == 200 ==>
      && r.body == SuccessBody(true, View(env.store.users[body.email.s]))
      && r.headers == NoCacheHeaders
  {
    match body
    case Unparseable => Reject(500)
    case NullBody => Reject(500)
    case Fields(email, password) =>
      if Falsy(email) || Falsy(password) then Reject(400)
      // a truthy non-string email fails the store's argument validation
      else if !email.Text? then Reject(500)
      else match env.store
        case Offline => Reject(500)
        case Online(users) =>
          if email.s !in users then Reject(404)
          else
            var user := users[email.s];
            // the comparator rejects a password that is not a string
            if !password.Text? then Reject(500)
            else if !env.matches(password.s, user.passwordHash) then Reject(401)
            // rendering the expiry as an ISO date throws outside the time range
            else if !ExpiryRepresentable(env.now) then Reject(500)
            else Welcome(user, env)
  }
}
