/**
 * The route guard (src/middleware.ts): public paths always pass, protected
 * paths without a session token are redirected to `/login` with the
 * original path in `callbackUrl`, and everything else passes. Whether a
 * session token was found is an input.
 */
module Middleware {
  import opened Strings
  import opened Options

  /** A query string as `URLSearchParams` holds it: name/value pairs in order. */
  type Query = seq<(string, string)>

  /** The parts of the request URL the guard reads or rewrites; the clone
      keeps every other part of the URL as it is. */
  datatype Url = Url(pathname: string, query: Query)

  datatype Decision = Next | Redirect(target: Url)

  // ---------------------------------------------------------------------
  // URLSearchParams.set

  predicate HasParam(q: Query, name: string) {
    exists i :: 0 <= i < |q| && q[i].0 == name
  }

  /** `params.get(name)`: the value of the first pair with that name. */
  function GetParam(q: Query, name: string): Option<string>
    decreases |q|
  {
    if q == [] then None
    else if q[0].0 == name then Some(q[0].1)
    else GetParam(q[1..], name)
  }

  /** The pairs with any other name, in order. */
  function Without(q: Query, name: string): (r: Query)
    decreases |q|
  {
    if q == [] then []
    else (if q[0].0 == name then [] else [q[0]]) + Without(q[1..], name)
  }

  function SetFirst(q: Query, name: string, value: string): Query
    decreases |q|
  {
    if q == [] then []
    else if q[0].0 == name then [(name, value)] + Without(q[1..], name)
    else [q[0]] + SetFirst(q[1..], name, value)
  }

  /** `params.set(name, value)`: the first pair with that name takes the new
      value and the later ones are removed; without one, the pair is appended. */
  function SetParam(q: Query, name: string, value: string): Query {
    if HasParam(q, name) then SetFirst(q, name, value) else q + [(name, value)]
  }

  /** The number of pairs with a name. */
  function CountParam(q: Query, name: string): nat
    decreases |q|
  {
    if q == [] then 0 else (if q[0].0 == name then 1 else 0) + CountParam(q[1..], name)
  }

  lemma {:induction false} WithoutFacts(q: Query, name: string)
    ensures GetParam(Without(q, name), name) == None
    ensures CountParam(Without(q, name), name) == 0
    ensures Without(Without(q, name), name) == Without(q, name)
    decreases |q|
  {
    if q != [] {
      WithoutFacts(q[1..], name);
      var rest := Without(q[1..], name);
      if q[0].0 != name {
        assert Without(q, name) == [q[0]] + rest;
        assert ([q[0]] + rest)[1..] == rest;
      } else {
        assert Without(q, name) == rest;
      }
    }
  }

  lemma {:induction false} SetFirstFacts(q: Query, name: string, value: string)
    requires HasParam(q, name)
    ensures GetParam(SetFirst(q, name, value), name) == Some(value)
    ensures CountParam(SetFirst(q, name, value), name) == 1
    ensures Without(SetFirst(q, name, value), name) == Without(q, name)
    decreases |q|
  {
    var r := SetFirst(q, name, value);
    if q[0].0 == name {
      WithoutFacts(q[1..], name);
      assert r[1..] == Without(q[1..], name);
    } else {
      var i :| 0 <= i < |q| && q[i].0 == name;
      assert q[1..][i - 1].0 == name;
      SetFirstFacts(q[1..], name, value);
      assert r[1..] == SetFirst(q[1..], name, value);
    }
  }

  lemma {:induction false} AbsentParam(q: Query, name: string, value: string)
    requires !HasParam(q, name)
    ensures GetParam(q + [(name, value)], name) == Some(value)
    ensures CountParam(q + [(name, value)], name) == 1
    ensures Without(q + [(name, value)], name) == Without(q, name)
    decreases |q|
  {
    if q == [] {
      assert [(name, value)][1..] == [];
    } else {
      assert !HasParam(q[1..], name) by {
        forall i | 0 <= i < |q[1..]| ensures q[1..][i].0 != name {
          assert q[1..][i] == q[i + 1];
        }
      }
      AbsentParam(q[1..], name, value);
      assert (q + [(name, value)])[1..] == q[1..] + [(name, value)];
    }
  }

  /** After `set`, the name has exactly one pair, holding the new value, and
      the pairs with other names are the same, in the same order. */
  lemma SetParamFacts(q: Query, name: string, value: string)
    ensures GetParam(SetParam(q, name, value), name) == Some(value)
    ensures CountParam(SetParam(q, name, value), name) == 1
    ensures Without(SetParam(q, name, value), name) == Without(q, name)
  {
    if HasParam(q, name) {
      SetFirstFacts(q, name, value);
    } else {
      AbsentParam(q, name, value);
    }
  }

  // ---------------------------------------------------------------------
  // The decision

  /** The routes anyone may open. */
  predicate IsPublic(pathname: string) {
    || StartsWith(pathname, "/login")
    || StartsWith(pathname, "/signup")
    || StartsWith(pathname, "/forgot-password")
    || StartsWith(pathname, "/reset-password")
    || StartsWith(pathname, "/rsvp")
    || StartsWith(pathname, "/api/rsvp")
    || StartsWith(pathname, "/api/auth")
    || pathname == "/"
  }

  /** The routes that need a session, event creation excepted. */
  predicate IsProtected(pathname: string) {
    || StartsWith(pathname, "/dashboard")
    || (StartsWith(pathname, "/events") && !StartsWith(pathname, "/events/new"))
    || StartsWith(pathname, "/api/events")
  }

  const LoginPath: string := "/login"
  const CallbackParam: string := "callbackUrl"

  /** `middleware(req)` */
  function Decide(url: Url, hasToken: bool): Decision {
    if IsPublic(url.pathname) then Next
    else if IsProtected(url.pathname) && !hasToken then
      Redirect(Url(LoginPath, SetParam(url.query, CallbackParam, url.pathname)))
    else Next
  }

  /** A request is redirected exactly when its path is protected, not public,
      and there is no token: with a token, on a public path, or on a path
      neither list names, the request passes. */
  lemma DecideRedirectsExactly(url: Url, hasToken: bool)
    ensures Decide(url, hasToken).Redirect? <==> !IsPublic(url.pathname) && IsProtected(url.pathname) && !hasToken
    ensures hasToken ==> Decide(url, hasToken) == Next
    ensures IsPublic(url.pathname) ==> Decide(url, hasToken) == Next
  {}

  /** The redirect goes to `/login`, carries the original path as its only
      `callbackUrl`, and keeps the other query parameters. */
  lemma RedirectTarget(url: Url, hasToken: bool)
    requires Decide(url, hasToken).Redirect?
    ensures var t := Decide(url, hasToken).target;
            && t.pathname == LoginPath
            && GetParam(t.query, CallbackParam) == Some(url.pathname)
            && CountParam(t.query, CallbackParam) == 1
            && Without(t.query, CallbackParam) == Without(url.query, CallbackParam)
  {
    SetParamFacts(url.query, CallbackParam, url.pathname);
  }

  /** The login page is public, so a redirect never leads to another redirect. */
  lemma NoRedirectLoop(url: Url, hasToken: bool, laterToken: bool)
    requires Decide(url, hasToken).Redirect?
    ensures Decide(Decide(url, hasToken).target, laterToken) == Next
  {
    assert StartsWith(LoginPath, "/login");
  }

  /** Every public prefix has one of `l s f r a` after its slash, so a path
      with any other second character is not public. */
  lemma NotPublicBySecondChar(pathname: string)
    requires |pathname| >= 2
    requires pathname[1] != 'l' && pathname[1] != 's' && pathname[1] != 'f' && pathname[1] != 'r' && pathname[1] != 'a'
    ensures !IsPublic(pathname)
  {
    SecondCharOfPrefix(pathname, "/login");
    SecondCharOfPrefix(pathname, "/signup");
    SecondCharOfPrefix(pathname, "/forgot-password");
    SecondCharOfPrefix(pathname, "/reset-password");
    SecondCharOfPrefix(pathname, "/rsvp");
    SecondCharOfPrefix(pathname, "/api/rsvp");
    SecondCharOfPrefix(pathname, "/api/auth");
  }

  lemma SecondCharOfPrefix(s: string, p: string)
    requires |p| >= 2
    ensures StartsWith(s, p) ==> s[1] == p[1]
  {
    if StartsWith(s, p) {
      assert s[..|p|][1] == s[1];
    }
  }

  /** Without a token, an event page is redirected. */
  lemma EventPageExample(q: Query)
    ensures Decide(Url("/events/abc", q), false).Redirect?
  {
    NotPublicBySecondChar("/events/abc");
    assert StartsWith("/events/abc", "/events");
    assert "/events/abc"[8] != "/events/new"[8];
    assert !StartsWith("/events/abc", "/events/new");
  }

  /** Without a token, the page that creates an event still passes. */
  lemma NewEventPageExample(q: Query)
    ensures Decide(Url("/events/new", q), false) == Next
  {
    var p := "/events/new";
    assert StartsWith(p, "/events/new");
    SecondCharOfPrefix(p, "/dashboard");
    SecondCharOfPrefix(p, "/api/events");
  }

  /** Without a token, the RSVP API and the home page pass. */
  lemma PublicPagesExample(q: Query)
    ensures Decide(Url("/api/rsvp/t", q), false) == Next
    ensures Decide(Url("/", q), false) == Next
  {
    assert StartsWith("/api/rsvp/t", "/api/rsvp");
  }
}
