/** Properties of every chain of requests that redirects can produce, for any upstream. */
module RedirectChain {
  import opened Wrappers
  import opened Text
  import opened Target
  import opened Redirect
  import opened HeaderMaps

  /** Some redirect response to `a` makes `b` the next request. */
  ghost predicate Linked(allowDowngrade: bool, resolve: Resolver, a: Request, b: Request) {
    exists status: nat, location: Location ::
      IsRedirect(status) && Prepared(a, status, location, allowDowngrade, resolve) == Ok(Continue(b))
  }

  ghost predicate Chain(allowDowngrade: bool, resolve: Resolver, trail: seq<Request>) {
    forall i :: 0 < i < |trail| ==> Linked(allowDowngrade, resolve, trail[i - 1], trail[i])
  }

  lemma LinkedFacts(allowDowngrade: bool, resolve: Resolver, a: Request, b: Request)
    requires Linked(allowDowngrade, resolve, a, b)
    ensures !BodyBearing(b.verb)
    ensures b.verb == a.verb || (BodyBearing(a.verb) && b.verb == GET)
    ensures SafeScheme(b.uri)
    ensures !allowDowngrade && a.uri.scheme == Some("https") ==> b.uri.scheme == Some("https")
    ensures b.headers == if AuthorityDiffers(a.uri, b.uri) then a.headers - Sensitive() - {"host"} else a.headers
  {
  }

  /** Every hop goes where some readable Location leads from the hop before it. */
  lemma HopsAreResolutions(allowDowngrade: bool, resolve: Resolver, trail: seq<Request>, k: nat)
    returns (text: string)
    requires Chain(allowDowngrade, resolve, trail) && 0 < k < |trail|
    ensures resolve(trail[k - 1].uri, text) == Ok(trail[k].uri)
  {
    var a, b := trail[k - 1], trail[k];
    assert Linked(allowDowngrade, resolve, a, b);
    var status: nat, location: Location :|
      IsRedirect(status) && Prepared(a, status, location, allowDowngrade, resolve) == Ok(Continue(b));
    ContinuesExactly(a, status, location, allowDowngrade, resolve);
    text := location.text;
  }

  /** No request after the first carries a body method, and the method changes at most once. */
  lemma {:induction false} MethodOverChain(allowDowngrade: bool, resolve: Resolver, trail: seq<Request>, k: nat)
    requires Chain(allowDowngrade, resolve, trail) && 0 < k < |trail|
    ensures !BodyBearing(trail[k].verb)
    ensures trail[k].verb == trail[1].verb
    ensures trail[1].verb == trail[0].verb || (BodyBearing(trail[0].verb) && trail[1].verb == GET)
  {
    LinkedFacts(allowDowngrade, resolve, trail[0], trail[1]);
    if k == 1 {
    } else {
      MethodOverChain(allowDowngrade, resolve, trail, k - 1);
      LinkedFacts(allowDowngrade, resolve, trail[k - 1], trail[k]);
    }
  }

  /** With downgrades off, once a hop is https every later hop is. */
  lemma {:induction false} HttpsSticks(resolve: Resolver, trail: seq<Request>, i: nat, k: nat)
    requires Chain(false, resolve, trail) && i <= k < |trail|
    requires trail[i].uri.scheme == Some("https")
    ensures trail[k].uri.scheme == Some("https")
  {
    if i == k {
    } else {
      HttpsSticks(resolve, trail, i, k - 1);
      LinkedFacts(false, resolve, trail[k - 1], trail[k]);
    }
  }

  /** Some hop up to the `k`-th went to another authority than the hop before it. */
  predicate CrossedBy(trail: seq<Request>, k: nat)
    requires k < |trail|
  {
    k > 0 && (CrossedBy(trail, k - 1) || AuthorityDiffers(trail[k - 1].uri, trail[k].uri))
  }

  /**
   The headers of a hop are those of the first request, less the sensitive ones and Host
   exactly when the chain has crossed authorities by then, even if it came back.
   */
  lemma {:induction false} HeadersOverChain(allowDowngrade: bool, resolve: Resolver, trail: seq<Request>, k: nat)
    requires Chain(allowDowngrade, resolve, trail) && k < |trail|
    ensures trail[k].headers ==
            if CrossedBy(trail, k) then trail[0].headers - Sensitive() - {"host"} else trail[0].headers
  {
    if k == 0 {
    } else {
      HeadersOverChain(allowDowngrade, resolve, trail, k - 1);
      LinkedFacts(allowDowngrade, resolve, trail[k - 1], trail[k]);
      var h := trail[0].headers;
      assert h - Sensitive() - {"host"} - Sensitive() - {"host"} == h - Sensitive() - {"host"};
    }
  }

  /** Once any hop changed authority, no later request carries a sensitive header or Host. */
  lemma {:induction false} SensitiveNeverReturns(allowDowngrade: bool, resolve: Resolver, trail: seq<Request>,
                                                 i: nat, k: nat)
    requires Chain(allowDowngrade, resolve, trail) && i < k < |trail|
    requires AuthorityDiffers(trail[i].uri, trail[i + 1].uri)
    ensures CrossedBy(trail, k)
    ensures trail[k].headers.Keys !! Sensitive() + {"host"}
  {
    if i + 1 < k {
      SensitiveNeverReturns(allowDowngrade, resolve, trail, i, k - 1);
    }
    HeadersOverChain(allowDowngrade, resolve, trail, k);
  }

  /** Any Host header carried names the authority of the URI, ignoring ASCII case. */
  predicate HostAgrees(r: Request) {
    "host" in r.headers ==>
      && r.uri.authority.Some?
      && forall v :: v in r.headers["host"] ==> EqIgnoreCase(v, r.uri.authority.value.text)
  }

  lemma {:induction false} HostAgreesOverChain(allowDowngrade: bool, resolve: Resolver, trail: seq<Request>, k: nat)
    requires Chain(allowDowngrade, resolve, trail) && k < |trail|
    requires HostAgrees(trail[0])
    ensures HostAgrees(trail[k])
  {
    if k == 0 {
    } else {
      HostAgreesOverChain(allowDowngrade, resolve, trail, k - 1);
      LinkedFacts(allowDowngrade, resolve, trail[k - 1], trail[k]);
    }
  }

  // ------------------------------------------------- where a chain begins

  /** A validated target; `port` is present only when it is not the scheme's default. */
  datatype TargetUrl = TargetUrl(
    scheme: string,
    host: string,
    port: Option<string>,
    path: string,
    query: Option<string>)

  /** The URI parser: which authorities and paths it takes, and the host it reads. */
  datatype UriParser = UriParser(authorityOk: string -> bool, pathOk: string -> bool, hostOf: string -> string)

  function AuthorityOf(t: TargetUrl): string {
    match t.port
    case None => t.host
    case Some(p) => t.host + ":" + p
  }

  /** URI authorities are made of visible ASCII only. */
  predicate UriText(s: string) {
    forall c :: c in s ==> '!' <= c <= '~'
  }

  function SetHostFromTarget(headers: Headers, t: TargetUrl): Headers {
    if ValueOk(AuthorityOf(t)) then headers["host" := [AuthorityOf(t)]] else headers
  }

  /** The handler's step: the inbound Host is replaced by the target's own authority. */
  method SetHost(headers: HeaderMap, t: TargetUrl)
    modifies headers
    ensures headers.entries == SetHostFromTarget(old(headers.entries), t)
  {
    var authority := AuthorityOf(t);
    if ValueOk(authority) {
      headers.Insert("host", authority);
    }
  }

  /** The target's authority takes the place of any Host, if it can be a header value at all. */
  lemma HostSetExactly(headers: Headers, t: TargetUrl)
    ensures var after, text := SetHostFromTarget(headers, t), AuthorityOf(t);
            && (forall name :: name != "host" ==> (name in after <==> name in headers))
            && (forall name :: name != "host" && name in headers ==> after[name] == headers[name])
            && (Settable(text) ==> "host" in after && after["host"] == [text])
            && (!Settable(text) ==> after == headers)
  {
    ValuesByCode(AuthorityOf(t));
  }

  function ToUri(parser: UriParser, t: TargetUrl): Result<Uri, Rejection> {
    var pq := if t.query.Some? && t.query.value != "" then t.path + "?" + t.query.value else t.path;
    var authority := AuthorityOf(t);
    if !parser.pathOk(pq) || !UriText(authority) || !parser.authorityOk(authority) then Err(InvalidUrl)
    else Ok(Uri(Some(t.scheme), Some(Authority(authority, parser.hostOf(authority))), pq))
  }

  /**
   The outbound URI holds exactly the target's parts: they can be read back from it, with the
   port exactly when the target has one and a question mark exactly before a query with content.
   */
  lemma ToUriExactly(parser: UriParser, t: TargetUrl)
    requires ToUri(parser, t).Ok?
    ensures var u := ToUri(parser, t).value;
            && u.scheme == Some(t.scheme) && u.authority.Some?
            && var authority, rest := u.authority.value, u.pathAndQuery;
               && |t.host| <= |authority.text| && authority.text[..|t.host|] == t.host
               && (t.port == None ==> authority.text == t.host)
               && (t.port.Some? ==> authority.text[|t.host|..] == [':'] + t.port.value)
               && authority.host == parser.hostOf(authority.text)
               && |t.path| <= |rest| && rest[..|t.path|] == t.path
               && (t.query in {None, Some("")} ==> rest == t.path)
               && (t.query !in {None, Some("")} ==> rest[|t.path|..] == ['?'] + t.query.value)
  {
    assert AuthorityOf(t)[..|t.host|] == t.host;
  }

  /** It can be built exactly when the parser takes both parts and the authority is visible ASCII. */
  lemma ToUriFails(parser: UriParser, t: TargetUrl, authority: string, rest: string)
    requires authority == t.host + (if t.port.Some? then ":" + t.port.value else "")
    requires rest == t.path + (if t.query in {None, Some("")} then "" else "?" + t.query.value)
    ensures ToUri(parser, t).Err? ==> ToUri(parser, t) == Err(InvalidUrl)
    ensures ToUri(parser, t).Ok? <==>
              parser.pathOk(rest) && parser.authorityOk(authority) && forall c :: c in authority ==> '!' <= c <= '~'
  {
    assert t.host + "" == t.host && t.path + "" == t.path;
    if t.port.Some? {
      assert t.host + (":" + t.port.value) == t.host + ":" + t.port.value;
    }
    if t.query.Some? {
      assert t.path + ("?" + t.query.value) == t.path + "?" + t.query.value;
    }
    assert authority == AuthorityOf(t);
  }

  /**
   From the outbound request the handler builds, every hop of every chain carries either no
   Host header or one that equals its authority.
   */
  lemma HostAgreesFromTarget(parser: UriParser, t: TargetUrl, verb: Method, inbound: Headers,
                             allowDowngrade: bool, resolve: Resolver, trail: seq<Request>, k: nat)
    requires ToUri(parser, t).Ok?
    requires Chain(allowDowngrade, resolve, trail) && k < |trail|
    requires trail[0] == Request(verb, SetHostFromTarget(inbound, t), ToUri(parser, t).value)
    ensures HostAgrees(trail[k])
    ensures k == 0 ==> trail[k].headers["host"] == [AuthorityOf(t)]
  {
    HostAgreesOverChain(allowDowngrade, resolve, trail, k);
  }
}
