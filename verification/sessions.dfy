/**
 The session record issued on a successful login, and the lifetime shared by
 the session and its cookies. The session's expiry is kept as an absolute
 time in milliseconds; the cookies' lifetime is a relative `maxAge` in seconds.
 */
module Sessions {

  const SessionDays := 30
  const MillisPerSecond := 1000

  /** The cookies' `maxAge`, in seconds: 30 days. */
  const MaxAgeSeconds := 30 * 24 * 60 * 60

  /** The session's lifetime as the handler adds it to the clock, in milliseconds. */
  const LifetimeMillis := 30 * 24 * 60 * 60 * 1000

  /**
   The largest magnitude of an ECMAScript time value (section 21.4.1.1 of
   ECMA-262): a `Date` beyond it is invalid and `toISOString` throws.
   */
  const MaxTimeValue := 8_640_000_000_000_000

  datatype SessionUser = SessionUser(id: string, email: string, name: string)

  datatype Session = Session(user: SessionUser, expires: int)

  /** Whether `Date` can represent the instant `t` (milliseconds since the epoch). */
  predicate Representable(t: int)
  {
    -MaxTimeValue <= t <= MaxTimeValue
  }

  /** The expiry of a session issued at `now` can be rendered as a date. */
  predicate ExpiryRepresentable(now: int)
  {
    Representable(now + LifetimeMillis)
  }

  /**
   The session issued to `user` at clock reading `now` (milliseconds). Its
   expiry is self-described in the record, and is exactly the instant at
   which a cookie of `MaxAgeSeconds` set at `now` lapses.
   */
  function Issue(user: SessionUser, now: int): (s: Session)
    ensures s.user == user
    ensures s.expires == now + MaxAgeSeconds * MillisPerSecond
    ensures s.expires - now == SessionDays * 86_400_000
  {
    Session(user, now + LifetimeMillis)
  }
}
