/** The cookie jar a route handler sees through `cookies()`: the request's
    cookies, updated by the handler's `set` and `delete`. Names are unique and
    `getAll()` returns the cookies in order. A `delete` is modelled as the
    removal the browser performs when it receives the expired cookie. */
module Cookies {
  import opened Common

  datatype SameSite = Lax | Strict | NoneSite

  datatype CookieAttrs = CookieAttrs(httpOnly: bool, secure: bool, sameSite: SameSite, maxAge: int, path: string)

  /** A cookie; `attrs` is None for a cookie that came in with the request. */
  datatype Cookie = Cookie(name: string, value: string, attrs: Option<CookieAttrs>)

  ghost predicate NamesUnique(cs: seq<Cookie>) {
    forall i, j :: 0 <= i < j < |cs| ==> cs[i].name != cs[j].name
  }

  /** `cookieStore.get(name)`. */
  function Find(cs: seq<Cookie>, name: string): (r: Option<Cookie>)
    ensures r.Some? ==> r.value in cs && r.value.name == name
    ensures r.None? <==> forall i :: 0 <= i < |cs| ==> cs[i].name != name
  {
    if cs == [] then None
    else if cs[0].name == name then Some(cs[0])
    else Find(cs[1..], name)
  }

  /** `cookieStore.get(name)?.value`. */
  function Value(cs: seq<Cookie>, name: string): Option<string> {
    match Find(cs, name)
    case Some(c) => Some(c.value)
    case None => None
  }

  /** `cookieStore.set(name, value, attrs)`: an existing cookie of that name is
      replaced in place, otherwise the cookie is appended. */
  function SetCookie(cs: seq<Cookie>, c: Cookie): (r: seq<Cookie>)
    ensures forall n :: n != c.name ==> Find(r, n) == Find(cs, n)
    ensures Find(r, c.name) == Some(c)
  {
    if cs == [] then [c]
    else if cs[0].name == c.name then [c] + cs[1..]
    else [cs[0]] + SetCookie(cs[1..], c)
  }

  /** `cookieStore.delete(name)`. */
  function DeleteCookie(cs: seq<Cookie>, name: string): (r: seq<Cookie>)
    ensures Find(r, name).None?
    ensures forall n :: n != name ==> Find(r, n) == Find(cs, n)
  {
    if cs == [] then []
    else if cs[0].name == name then DeleteCookie(cs[1..], name)
    else [cs[0]] + DeleteCookie(cs[1..], name)
  }

  lemma {:induction false} SetCookieKeepsNamesUnique(cs: seq<Cookie>, c: Cookie)
    requires NamesUnique(cs)
    ensures NamesUnique(SetCookie(cs, c))
  {
    if cs != [] && cs[0].name != c.name {
      SetCookieKeepsNamesUnique(cs[1..], c);
      var r := SetCookie(cs, c);
      forall j | 0 < j < |r| ensures r[0].name != r[j].name {
        var n := r[j].name;
        assert Find(r[1..], n).Some? by { assert r[1..][j - 1] == r[j]; }
        if n != c.name {
          assert Find(cs[1..], n).Some?;
          var i :| 0 <= i < |cs[1..]| && cs[1..][i].name == n;
          assert cs[i + 1].name == n;
        }
      }
    }
  }

  lemma {:induction false} DeleteCookieKeepsNamesUnique(cs: seq<Cookie>, name: string)
    requires NamesUnique(cs)
    ensures NamesUnique(DeleteCookie(cs, name))
    ensures forall i :: 0 <= i < |DeleteCookie(cs, name)| ==> DeleteCookie(cs, name)[i] in cs
  {
    if cs != [] {
      DeleteCookieKeepsNamesUnique(cs[1..], name);
      var r := DeleteCookie(cs, name);
      if cs[0].name != name {
        forall j | 0 < j < |r| ensures r[0].name != r[j].name {
          assert r[j] == r[1..][j - 1] && r[1..][j - 1] in cs[1..];
          var i :| 0 <= i < |cs[1..]| && cs[1..][i] == r[j];
          assert cs[i + 1] == r[j];
        }
      }
    }
  }

  class CookieJar {
    var cookies: seq<Cookie>

    ghost predicate Valid()
      reads this
    {
      NamesUnique(cookies)
    }

    constructor (initial: seq<Cookie>)
      requires NamesUnique(initial)
      ensures Valid() && cookies == initial
    {
      cookies := initial;
    }

    /** `cookieStore.get(name)?.value`. */
    function Get(name: string): Option<string>
      reads this
    {
      Value(cookies, name)
    }

    method Set(name: string, value: string, attrs: CookieAttrs)
      requires Valid()
      modifies this
      ensures Valid()
      ensures cookies == SetCookie(old(cookies), Cookie(name, value, Some(attrs)))
    {
      SetCookieKeepsNamesUnique(cookies, Cookie(name, value, Some(attrs)));
      cookies := SetCookie(cookies, Cookie(name, value, Some(attrs)));
    }

    method Delete(name: string)
      requires Valid()
      modifies this
      ensures Valid()
      ensures cookies == DeleteCookie(old(cookies), name)
    {
      DeleteCookieKeepsNamesUnique(cookies, name);
      cookies := DeleteCookie(cookies, name);
    }
  }
}
