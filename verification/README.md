# Credentials login handler, modelled in Dafny

This project models the direct credentials login endpoint of the pickleball
scheduler (`POST` in `app/api/auth/callback/credentials/route.ts`). The handler
validates the request body, finds the user by email, and compares the
password with the stored bcrypt hash. On success it issues a 30-day session
as two cookies: the opaque `next-auth.session-token`, which page scripts
cannot read, and the readable marker `auth-status=authenticated`. It answers
with the user and no-cache headers. Every failure is a bare `{error}`
response with a fixed message.

The model is one pure function, `Credentials.Login(body, env)`, from the
parsed request body and the handler's collaborators to a `Response`. The
collaborators are parameters:

- the user table is a `map` from email to `Principal`, or `Offline` when the database cannot be reached;
- bcrypt's `compare` is a comparator `matches(password, hash)`;
- the JSON-then-base64 encoding of the session is an encoder `encode(session)`;
- `Date.now()` is an integer `now` in milliseconds;
- `NODE_ENV === "production"` is a boolean.

Files:

- `credentials.dfy` (module `Credentials`) holds the request, principal, response and cookie records and the `Login` cascade.
- `sessions.dfy` (module `Sessions`) holds the session record, the 30-day lifetime constants and `Issue`.
- `cookies.dfy` (module `Cookies`) holds the response cookie store written by `cookies().set`. It is keyed by name, so setting a name again replaces the earlier entry.
- `login_properties.dfy` (module `LoginProperties`) holds the lemmas relating inputs, collaborators and outcomes.
- `wrappers.dfy` (module `Wrappers`) holds `Option`.

JavaScript's `!x` on a body field is modelled by `Field`: `Absent` stands for
`undefined` or `null`, `Text(s)` for a string, and `NonText(truthy)` for a
number, boolean, array or object. Each exception the handler's `catch`
turns into a 500 appears as its own branch:

- the body is not JSON;
- the body is JSON `null`, which cannot be destructured;
- a truthy email is not a string, which the store's query validation rejects;
- the store is unreachable;
- a truthy password is not a string, which bcrypt rejects. This check comes after the lookup, so an unknown email still gives 404;
- `now + 30 days` lies outside the ECMAScript time range of ±8.64e15 ms (section 21.4.1.1 of ECMA-262), so `toISOString` throws.

## Model

| member | source | states |
|---|---|---|
| Credentials.Login | app/api/auth/callback/credentials/route.ts:8-95 | The checks run in the order fields, lookup, comparison, expiry, and the first failing one fixes the status: 400 iff a field is falsy, 404 iff the string email has no principal, 401 iff the comparator rejects the stored hash, 200 iff it accepts and the expiry is representable, 500 otherwise. Every non-200 response is the bare error for its status. A 200 echoes the stored principal and sends the no-cache headers. |
| Sessions.Issue | app/api/auth/callback/credentials/route.ts:35-43 | The session carries the user, and its expiry is `now` plus exactly `maxAge` seconds written as milliseconds (30 × 86 400 000 ms). |
| Cookies.Set | app/api/auth/callback/credentials/route.ts:46-66 | Setting a cookie makes it what the store holds under its name. Every other name reads back unchanged. The set of names gains exactly that name. The length grows only for a new name. Unique names stay unique. |
| LoginProperties.MissingInputDecidedFirst | app/api/auth/callback/credentials/route.ts:14-17 | A falsy email or password gives 400 "Missing email or password". The outcome is the same under any store, comparator, encoder, clock or deployment, so no lookup happens. |
| LoginProperties.ComparatorNotConsultedBeforeLookup | app/api/auth/callback/credentials/route.ts:19-29 | A 400 or 404 outcome is unchanged when the password comparator is replaced by any other. |
| LoginProperties.UnknownEmailIsNotFound | app/api/auth/callback/credentials/route.ts:19-26 | A non-empty string email with no principal gives 404 "User not found" for every truthy password, string or not. |
| LoginProperties.NonStringPasswordFailsAfterLookup | app/api/auth/callback/credentials/route.ts:20-29 | A truthy non-string password gives 500 when the email is known, because the comparator rejects it. When the email is unknown, the lookup's 404 comes first. |
| LoginProperties.WrongPasswordIsUnauthorized | app/api/auth/callback/credentials/route.ts:28-33 | A known email with a password the comparator rejects gives 401 "Invalid password". |
| LoginProperties.FailuresLeakNothing | app/api/auth/callback/credentials/route.ts:88-93 | Every failure, 500 included, sets no cookie and no header. Its body is only `{error}` with one of the four fixed messages. |
| LoginProperties.SuccessIffSomePrincipalMatches | app/api/auth/callback/credentials/route.ts:15-33 | In a table that files each principal under its own email, a string login succeeds iff three things hold: both fields are non-empty, some principal has that email and a hash the comparator accepts, and the expiry is representable. |
| LoginProperties.SuccessEchoesPrincipal | app/api/auth/callback/credentials/route.ts:36-48 | On success the body is `{success: true, user}` with the stored principal's id, email and name. The user's email is the one submitted. The session token is the encoding of the session for that same user, expiring 2 592 000 000 ms after `now`. |
| LoginProperties.SuccessSetsCookiePair | app/api/auth/callback/credentials/route.ts:46-66 | On success exactly two cookies are set, under distinct names. The session token is httpOnly. `auth-status` is `authenticated` and not httpOnly. Both have path `/`, same-site strict, priority high, maxAge 2 592 000 and secure exactly in production. |
| LoginProperties.SessionAndCookiesExpireTogether | app/api/auth/callback/credentials/route.ts:42-63 | The session-token cookie holds the encoding of a session for the echoed user. For each cookie set, that session expires at `now + maxAge * 1000` ms, with `maxAge` in seconds. |
| LoginProperties.Scenarios | app/api/auth/callback/credentials/route.ts:15-86 | In a table holding only `u@test.com`: `a@x.com` gives 404; `u@test.com` with a rejected password gives 401; with the accepted password it gives 200, echoes the email and sets two cookies. |

## Left out

- Request parsing, `NextResponse` and the `cookies()` API are framework I/O. Their effects are plain records: a parsed `RequestBody`, a `Response`, and a cookie store as a sequence. The `Content-Type` header that `NextResponse.json` adds is not modelled.
- The database query is a lookup by exact email in a map, or `Offline`. The table's schema is not part of this model. A principal's `name` is modelled as a string.
- bcrypt hashing is the abstract comparator `matches`. Its timing behaviour is not modelled.
- `JSON.stringify`, base64 and `toISOString` are not reimplemented. The session stays a record with its expiry in integer milliseconds. The cookie value is the abstract `encode` applied to that record. A JavaScript `Date` is modelled only by whether it can represent the expiry.
- `console.error` and the async scheduling have no observable effect on the outcome.
- The schedule route (`app/api/schedule/user/[userId]/route.ts`) is not part of this model. That covers its session/owner gate, the upstream fetch with its 8-second abort timer, and the fallback data. Its timer race is concurrency.
