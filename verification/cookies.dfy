/**
 The response cookie store that the handler writes through `cookies().set`.
 The store is keyed by cookie name: setting a name that is already present
 replaces that entry where it stands, a new name is appended. The sequence
 order is the order of the `Set-Cookie` headers on the response.
 */
module Cookies {
  import opened Wrappers

  datatype SameSite = Strict | Lax | NoRestriction

  datatype Priority = Low | Medium | High

  datatype Cookie = Cookie(
    name: string,
    value: string,
    httpOnly: bool,
    path: string,
    secure: bool,
    maxAge: int,      // seconds
    sameSite: SameSite,
    priority: Priority)

  type Jar = seq<Cookie>

  /** The names that occur in a jar. */
  function Names(jar: Jar): set<string>
  {
    set i | 0 <= i < |jar| :: jar[i].name
  }

  /** No name occurs twice: the jar is a faithful map from names to cookies. */
  predicate UniqueNames(jar: Jar)
  {
    forall i, j :: 0 <= i < j < |jar| ==> jar[i].name != jar[j].name
  }

  /** The cookie a client would read back under `name`. */
  function Lookup(jar: Jar, name: string): (r: Option<Cookie>)
    ensures r.Some? ==> r.value in jar && r.value.name == name
    ensures r.None? <==> name !in Names(jar)
  {
    if jar == [] then None
    else if jar[0].name == name then Some(jar[0])
    else Lookup(jar[1..], name)
  }

  /** A jar with `head` in front of `rest`, seen through `Names`, `Lookup` and `UniqueNames`. */
  lemma Cons(head: Cookie, rest: Jar)
    ensures Names([head] + rest) == {head.name} + Names(rest)
    ensures forall n :: Lookup([head] + rest, n) == if head.name == n then Some(head) else Lookup(rest, n)
    ensures UniqueNames([head] + rest) <==> UniqueNames(rest) && head.name !in Names(rest)
  {
    var jar := [head] + rest;
    assert jar[0] == head && jar[1..] == rest;
    forall n | n in Names(jar) ensures n in {head.name} + Names(rest) {
      var i :| 0 <= i < |jar| && jar[i].name == n;
      if i > 0 {
        assert rest[i - 1] == jar[i];
      }
    }
    forall n | n in Names(rest) ensures n in Names(jar) {
      var i :| 0 <= i < |rest| && rest[i].name == n;
      assert jar[i + 1] == rest[i];
    }
    if UniqueNames(jar) {
      forall i, j | 0 <= i < j < |rest| ensures rest[i].name != rest[j].name {
        assert rest[i] == jar[i + 1] && rest[j] == jar[j + 1];
      }
      forall k | 0 <= k < |rest| ensures rest[k].name != head.name {
        assert rest[k] == jar[k + 1];
      }
    }
    if UniqueNames(rest) && head.name !in Names(rest) {
      forall i, j | 0 <= i < j < |jar| ensures jar[i].name != jar[j].name {
        assert jar[j] == rest[j - 1];
        if i == 0 {
          assert rest[j - 1].name in Names(rest);
        } else {
          assert jar[i] == rest[i - 1];
        }
      }
    }
  }

  /**
   Records `c` in the jar. Afterwards `c` is what the jar holds under its
   name, every other name reads back as before, and a jar without duplicate
   names stays without them.
   */
  function Set(jar: Jar, c: Cookie): (r: Jar)
    ensures Names(r) == Names(jar) + {c.name}
    ensures |r| == if c.name in Names(jar) then |jar| else |jar| + 1
    ensures Lookup(r, c.name) == Some(c)
    ensures forall n :: n != c.name ==> Lookup(r, n) == Lookup(jar, n)
    ensures UniqueNames(jar) ==> UniqueNames(r)
  {
    if jar == [] then
      Cons(c, []);
      [c]
    else
      assert jar == [jar[0]] + jar[1..];
      Cons(jar[0], jar[1..]);
      Cons(c, jar[1..]);
      if jar[0].name == c.name then
        [c] + jar[1..]
      else
        var rest := Set(jar[1..], c);
        Cons(jar[0], rest);
        [jar[0]] + rest
  }
}
