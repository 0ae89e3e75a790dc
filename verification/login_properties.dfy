/**
 What the login handler promises across inputs and collaborators: the order
 in which it consults them, the shape of every failure, and the agreement
 between the issued session, its two cookies and the response body.
 */
module LoginProperties {
  import opened Wrappers
  import opened Cookies
  import opened Sessions
  import opened Credentials

  /**
   A missing or falsy email or password is answered with 400 before anything
   else is consulted: the outcome is the same whatever the user table, the
   comparator, the encoder, the clock or the deployment.
   */
  lemma MissingInputDecidedFirst(body: RequestBody, env: Env, other: Env)
    requires body.Fields? && (Falsy(body.email) || Falsy(body.password))
    ensures Login(body, env) == Reject(400)
    ensures Login(body, other) == Login(body, env)
  {
  }

  /**
   Neither a 400 nor a 404 depends on the password comparator: both are
   decided before the stored hash is looked at.
   */
  lemma ComparatorNotConsultedBeforeLookup(body: RequestBody, env: Env, matches: (string, string) -> bool)
    requires Login(body, env).status in {400, 404}
    ensures Login(body, env.(matches := matches)) == Login(body, env)
  {
  }

  /**
   An unknown email is a 404 for every truthy password, a string or not: the
   password is not looked at before the lookup has found a principal.
   */
  lemma UnknownEmailIsNotFound(email: string, password: Field, env: Env)
    requires email != "" && !Falsy(password)
    requires env.store.Online? && email !in env.store.users
    ensures Login(Fields(Text(email), password), env) == Reject(404)
  {
  }

  /** A known email with a password the comparator rejects is a 401. */
  lemma WrongPasswordIsUnauthorized(email: string, password: string, env: Env)
    requires email != "" && password != ""
    requires env.store.Online? && email in env.store.users
    requires !env.matches(password, env.store.users[email].passwordHash)
    ensures Login(Fields(Text(email), Text(password)), env) == Reject(401)
  {
  }

  /**
   A truthy password that is not a string fails in the comparator, which runs
   only after the lookup: with a known email it is a 500, with an unknown one
   the lookup's 404 comes first.
   */
  lemma NonStringPasswordFailsAfterLookup(email: string, env: Env)
    requires email != "" && env.store.Online?
    ensures email in env.store.users ==> Login(Fields(Text(email), NonText(true)), env) == Reject(500)
    ensures email !in env.store.users ==> Login(Fields(Text(email), NonText(true)), env) == Reject(404)
  {
  }

  /**
   Every error response, 500 included, is a bare `{error}` with one of the four
   fixed messages, no headers and no cookies: nothing about the principal,
   the hash or the fault leaks.
   */
  lemma FailuresLeakNothing(body: RequestBody, env: Env)
    requires Login(body, env).status != 200
    ensures Login(body, env).cookies == [] && Login(body, env).headers == []
    ensures Login(body, env).body.ErrorBody?
    ensures Login(body, env).body.error in
      {"Missing email or password", "User not found", "Invalid password", "An unexpected error occurred"}
  {
  }

  /**
   A login succeeds exactly when the table is reachable, some principal has
   the given email and the comparator accepts the password against that
   principal's hash, and the session's expiry is a representable date.
   */
  lemma SuccessIffSomePrincipalMatches(email: string, password: string, env: Env)
    requires env.store.Online? && WellFormed(env.store.users)
    ensures Login(Fields(Text(email), Text(password)), env).status == 200 <==>
      && email != "" && password != ""
      && ExpiryRepresentable(env.now)
      && exists p :: p in env.store.users.Values && p.email == email && env.matches(password, p.passwordHash)
  {
  }

  /**
   On success the body echoes the principal stored under the email, and so
   does the session sealed in the opaque cookie; that session expires 30 days
   after `now`.
   */
  lemma SuccessEchoesPrincipal(body: RequestBody, env: Env)
    requires Login(body, env).status == 200
    ensures body.Fields? && body.email.Text? && env.store.Online?
    ensures WellFormed(env.store.users) ==> Login(body, env).body.user.email == body.email.s
    ensures var p := env.store.users[body.email.s];
      var r := Login(body, env);
      && r.body == SuccessBody(true, SessionUser(p.id, p.email, p.name))
      && Lookup(r.cookies, "next-auth.session-token").Some?
      && Lookup(r.cookies, "next-auth.session-token").value.value
         == env.encode(Session(r.body.user, env.now + 2_592_000_000))
  {
  }

  /** Attributes both cookies carry alike. */
  predicate SharedAttributes(c: Cookie, env: Env)
  {
    && c.path == "/"
    && c.sameSite == Strict
    && c.priority == High
    && c.maxAge == 2_592_000
    && c.secure == env.isProduction
  }

  /**
   On success exactly two cookies are set, under distinct names: the opaque
   session token, which page scripts cannot read, and the readable marker
   `auth-status=authenticated`. They share path, same-site policy, priority,
   lifetime and the secure flag, which is on exactly in production.
   */
  lemma SuccessSetsCookiePair(body: RequestBody, env: Env)
    requires Login(body, env).status == 200
    ensures var jar := Login(body, env).cookies;
      && |jar| == 2
      && UniqueNames(jar)
      && Names(jar) == {"next-auth.session-token", "auth-status"}
      && Lookup(jar, "next-auth.session-token").Some?
      && Lookup(jar, "next-auth.session-token").value.httpOnly
      && Lookup(jar, "auth-status").Some?
      && Lookup(jar, "auth-status").value.value == "authenticated"
      && !Lookup(jar, "auth-status").value.httpOnly
      && forall c :: c in jar ==> SharedAttributes(c, env)
  {
  }

  /**
   The session sealed in the opaque cookie expires, in absolute milliseconds,
   at the instant each cookie's relative `maxAge` in seconds runs out.
   */
  lemma SessionAndCookiesExpireTogether(body: RequestBody, env: Env)
    requires Login(body, env).status == 200
    ensures var r := Login(body, env);
      && Lookup(r.cookies, "next-auth.session-token").Some?
      && forall c :: c in r.cookies ==>
           Lookup(r.cookies, "next-auth.session-token").value.value
           == env.encode(Session(r.body.user, env.now + c.maxAge * 1000))
  {
  }

  /**
   The literal scenarios: an absent `a@x.com` is a 404; present with a
   rejected password it is a 401; `u@test.com` with the matching password
   logs in, echoes its email and sets two cookies.
   */
  lemma Scenarios(env: Env, p: Principal)
    requires env.store.Online? && ExpiryRepresentable(env.now)
    requires p.email == "u@test.com" && env.store.users == map["u@test.com" := p]
    requires env.matches("correct", p.passwordHash) && !env.matches("wrong", p.passwordHash)
    ensures Login(Fields(Text("a@x.com"), Text("correct")), env).status == 404
    ensures Login(Fields(Text("u@test.com"), Text("wrong")), env).status == 401
    ensures var r := Login(Fields(Text("u@test.com"), Text("correct")), env);
      r.status == 200 && r.body.user.email == "u@test.com" && |r.cookies| == 2
  {
  }
}
