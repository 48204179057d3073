/** One redirect step: from a 3xx response to the next request, or a stop, or an error. */
module Redirect {
  import opened Wrappers
  import opened Text
  import opened Target
  import opened HeaderMaps

  datatype Method = GET | POST | PUT | PATCH | DELETE | HEAD | OPTIONS | OTHER(name: string)

  /** What is sent on a hop, and what is carried from one hop to the next. */
  datatype Request = Request(verb: Method, headers: Headers, uri: Uri)

  /** The Location header of a response; `to_str` refuses the unreadable ones. */
  datatype Location = Absent | Unreadable | Readable(text: string)

  datatype NextHop = Continue(request: Request) | Stop

  type Resolver = (Uri, string) -> Result<Uri, Rejection>

  const SENSITIVE: seq<string> :=
    ["authorization", "cookie", "proxy-authorization", "authentication-info", "www-authenticate"]

  function Sensitive(): set<string> {
    set name | name in SENSITIVE
  }

  predicate IsRedirect(status: nat) {
    status in {301, 302, 303, 307, 308}
  }

  predicate BodyBearing(m: Method) {
    m in {POST, PUT, PATCH}
  }

  /** The next method, and whether the body is dropped. */
  function ClassifyTransition(m: Method, status: nat): (Method, bool) {
    if status in {301, 302, 303} && BodyBearing(m) then (GET, true) else (m, false)
  }

  predicate AuthorityDiffers(a: Uri, b: Uri) {
    if a.authority.Some? && b.authority.Some? then
      !EqIgnoreCase(a.authority.value.text, b.authority.value.text)
    else
      true
  }

  predicate SafeScheme(u: Uri) {
    u.scheme == Some("http") || u.scheme == Some("https")
  }

  predicate IsDowngrade(a: Uri, b: Uri) {
    a.scheme == Some("https") && b.scheme == Some("http")
  }

  /** What a redirect response asks for next, given the request that was answered. */
  function Prepared(r: Request, status: nat, location: Location, allowDowngrade: bool, resolve: Resolver):
    Result<NextHop, Rejection>
  {
    match location
    case Absent => Ok(Stop)
    case Unreadable => Ok(Stop)
    case Readable(text) =>
      var target := resolve(r.uri, text);
      if target.Err? then Err(target.error)
      else if !SafeScheme(target.value) then Err(InvalidUrl)
      else if !allowDowngrade && IsDowngrade(r.uri, target.value) then Err(InvalidUrl)
      else
        var (verb, dropBody) := ClassifyTransition(r.verb, status);
        if !dropBody && BodyBearing(verb) then Ok(Stop)
        else
          var crossing := AuthorityDiffers(r.uri, target.value);
          var headers := if crossing then r.headers - Sensitive() - {"host"} else r.headers;
          Ok(Continue(Request(verb, headers, target.value)))
  }

  // ------------------------------------------- when a redirect is followed

  lemma RedirectStatuses(status: nat)
    ensures IsRedirect(status) <==> 301 <= status <= 303 || 307 <= status <= 308
  {
  }

  /** What a readable Location names, seen from the URI that was answered. */
  predicate Names(resolve: Resolver, from: Uri, location: Location, u: Uri) {
    location.Readable? && resolve(from, location.text) == Ok(u)
  }

  /** An http or https URI, and not plain http after https unless that is allowed. */
  predicate MayGo(from: Uri, to: Uri, allowDowngrade: bool) {
    && (to.scheme == Some("http") || to.scheme == Some("https"))
    && (from.scheme == Some("https") && to.scheme == Some("http") ==> allowDowngrade)
  }

  /** Both name an authority, and the same one up to the case of its letters. */
  predicate SameAuthority(a: Uri, b: Uri) {
    && a.authority.Some? && b.authority.Some?
    && var x, y := a.authority.value.text, b.authority.value.text;
       |x| == |y| && forall i :: 0 <= i < |x| ==> SameLetter(x[i], y[i])
  }

  lemma SameAuthorityExactly(a: Uri, b: Uri)
    ensures AuthorityDiffers(a, b) <==> !SameAuthority(a, b)
  {
    if a.authority.Some? && b.authority.Some? {
      EqIgnoreCaseExactly(a.authority.value.text, b.authority.value.text);
    }
  }

  /** The headers that go along: all within the authority, beyond it none that may carry credentials. */
  function HeadersTo(r: Request, u: Uri): Headers {
    if SameAuthority(r.uri, u) then r.headers
    else
      r.headers
      - {"authorization", "cookie", "proxy-authorization", "authentication-info", "www-authenticate", "host"}
  }

  lemma StrippedExactly(h: Headers)
    ensures h - Sensitive() - {"host"} ==
            h - {"authorization", "cookie", "proxy-authorization", "authentication-info", "www-authenticate", "host"}
  {
    assert Sensitive() ==
           {SENSITIVE[0], SENSITIVE[1], SENSITIVE[2], SENSITIVE[3], SENSITIVE[4]};
  }

  /** A body that was sent once and would have to be sent again. */
  predicate NeedsReplay(verb: Method, status: nat) {
    (verb == POST || verb == PUT || verb == PATCH) && (status == 307 || status == 308)
  }

  /**
   A redirect goes on exactly when its Location is readable and resolves to a URI it may go to,
   and no body is to be replayed; then it goes to that URI, as GET where the body is dropped, and
   with all its headers or only those that may leave the authority.
   */
  lemma ContinuesExactly(r: Request, status: nat, location: Location, allowDowngrade: bool, resolve: Resolver)
    requires IsRedirect(status)
    ensures var p := Prepared(r, status, location, allowDowngrade, resolve);
            && (p.Ok? && p.value.Continue? <==>
                  && (exists u :: Names(resolve, r.uri, location, u) && MayGo(r.uri, u, allowDowngrade))
                  && !NeedsReplay(r.verb, status))
            && (p.Ok? && p.value.Continue? ==>
                  && Names(resolve, r.uri, location, p.value.request.uri)
                  && p.value.request.verb ==
                     (if r.verb == POST || r.verb == PUT || r.verb == PATCH then GET else r.verb)
                  && p.value.request.headers == HeadersTo(r, p.value.request.uri))
  {
    assert status == 301 || status == 302 || status == 303 || status == 307 || status == 308;
    if location.Readable? && resolve(r.uri, location.text).Ok? {
      var u := resolve(r.uri, location.text).value;
      assert Names(resolve, r.uri, location, u);
      SameAuthorityExactly(r.uri, u);
      StrippedExactly(r.headers);
    }
  }

  /**
   It stops, handing the response back, exactly when there is no readable Location or a body
   would have to be replayed to a URI it may go to.
   */
  lemma StopsExactly(r: Request, status: nat, location: Location, allowDowngrade: bool, resolve: Resolver)
    requires IsRedirect(status)
    ensures Prepared(r, status, location, allowDowngrade, resolve) == Ok(Stop) <==>
              || location == Absent || location == Unreadable
              || (&& (exists u :: Names(resolve, r.uri, location, u) && MayGo(r.uri, u, allowDowngrade))
                  && NeedsReplay(r.verb, status))
  {
    assert status == 301 || status == 302 || status == 303 || status == 307 || status == 308;
    if location.Readable? && resolve(r.uri, location.text).Ok? {
      assert Names(resolve, r.uri, location, resolve(r.uri, location.text).value);
    }
  }

  /** It fails with the resolver's own error, or as an invalid URL for a place it may not go. */
  lemma FailsExactly(r: Request, status: nat, location: Location, allowDowngrade: bool, resolve: Resolver,
                     reason: Rejection)
    ensures Prepared(r, status, location, allowDowngrade, resolve) == Err(reason) <==>
              && location.Readable?
              && (|| resolve(r.uri, location.text) == Err(reason)
                  || (&& reason == InvalidUrl
                      && exists u :: Names(resolve, r.uri, location, u) && !MayGo(r.uri, u, allowDowngrade)))
  {
    if location.Readable? && resolve(r.uri, location.text).Ok? {
      assert Names(resolve, r.uri, location, resolve(r.uri, location.text).value);
    }
  }

  /** The state kept between hops, updated in place. */
  class RedirectState {
    var verb: Method
    var headers: Headers
    var uri: Uri

    ghost function Value(): Request
      reads this
    {
      Request(verb, headers, uri)
    }

    constructor FromInitial(r: Request)
      ensures Value() == r
    {
      verb, headers, uri := r.verb, r.headers, r.uri;
    }

    method PrepareNext(status: nat, location: Location, allowDowngrade: bool, resolve: Resolver)
      returns (r: Result<NextHop, Rejection>)
      modifies this
      ensures r == Prepared(old(Value()), status, location, allowDowngrade, resolve)
      ensures Value() == if r.Ok? && r.value.Continue? then r.value.request else old(Value())
    {
      if !location.Readable? {
        return Ok(Stop);
      }
      var target := resolve(uri, location.text);
      if target.Err? {
        return Err(target.error);
      }
      var next := target.value;
      if !SafeScheme(next) || (!allowDowngrade && IsDowngrade(uri, next)) {
        return Err(InvalidUrl);
      }
      var crossHost := AuthorityDiffers(uri, next);
      var (nextVerb, dropBody) := ClassifyTransition(verb, status);
      if !dropBody && BodyBearing(nextVerb) {
        return Ok(Stop);
      }
      verb, uri := nextVerb, next;
      if crossHost {
        RemoveSensitive();
        headers := headers - {"host"};
      }
      r := Ok(Continue(Request(verb, headers, uri)));
    }

    method RemoveSensitive()
      modifies this`headers
      ensures headers == old(headers) - Sensitive()
    {
      ghost var names: set<string> := {};
      for i := 0 to |SENSITIVE|
        invariant names == set name | name in SENSITIVE[..i]
        invariant headers == old(headers) - names
      {
        headers := headers - {SENSITIVE[i]};
        names := names + {SENSITIVE[i]};
      }
      assert names == Sensitive();
    }
  }
}
