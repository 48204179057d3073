/** The CORS headers stamped on every response, and the synthetic preflight answer. */
module Cors {
  import opened Wrappers
  import opened Text
  import opened HeaderMaps

  datatype Mode = Wildcard | Reflect(gate: Option<set<string>>) | Explicit(origins: set<string>)

  /** The compiled policy; an absent list means there is nothing to stamp. */
  datatype CorsPolicy = CorsPolicy(
    mode: Mode,
    allowedMethods: Option<string>,
    allowedHeaders: Option<string>,
    exposedHeaders: Option<string>,
    maxAge: Option<string>,
    credentials: bool,
    privateNetwork: bool)

  const ALLOW_ORIGIN := "access-control-allow-origin"
  const ALLOW_CREDENTIALS := "access-control-allow-credentials"
  const ALLOW_METHODS := "access-control-allow-methods"
  const ALLOW_HEADERS := "access-control-allow-headers"
  const EXPOSE_HEADERS := "access-control-expose-headers"
  const MAX_AGE := "access-control-max-age"
  const ALLOW_PRIVATE_NETWORK := "access-control-allow-private-network"
  const REQUEST_METHOD := "access-control-request-method"
  const REQUEST_HEADERS := "access-control-request-headers"
  const REQUEST_PRIVATE_NETWORK := "access-control-request-private-network"

  function AdmittedOrigin(origins: set<string>, origin: Option<string>): Option<string> {
    if origin.Some? && Readable(origin.value) && origin.value in origins then origin else None
  }

  function Echoed(origin: Option<string>): Option<string> {
    if origin.Some? && Readable(origin.value) then origin else None
  }

  /** The allow-origin value for a request origin, if the origin is admitted. */
  function ResolveAllowOrigin(p: CorsPolicy, origin: Option<string>): Option<string> {
    match p.mode
    case Wildcard => if p.credentials then Echoed(origin) else Some("*")
    case Reflect(None) => Echoed(origin)
    case Reflect(Some(admitted)) => AdmittedOrigin(admitted, origin)
    case Explicit(admitted) => AdmittedOrigin(admitted, origin)
  }

  // ----------------------------------------------------------------- Vary

  predicate Lists(line: string, token: string) {
    exists i :: 0 <= i < |Split(line, ',')| && EqIgnoreCase(Trim(Split(line, ',')[i]), token)
  }

  /** Adds `token` to the first Vary line, which then replaces all of them. */
  function Varied(h: Headers, token: string): Headers {
    match Get(h, "vary")
    case None => h["vary" := [token]]
    case Some(line) =>
      if !Readable(line) || Lists(line, token) || !ValueOk(line + ", " + token) then h
      else h["vary" := [line + ", " + token]]
  }

  method AppendVary(headers: HeaderMap, token: string)
    modifies headers
    ensures headers.entries == Varied(old(headers.entries), token)
  {
    var existing := Get(headers.entries, "vary");
    match existing
    case None =>
      headers.Insert("vary", token);
    case Some(line) =>
      if !Readable(line) {
        return;
      }
      var pieces := Split(line, ',');
      for i := 0 to |pieces|
        invariant forall j :: 0 <= j < i ==> !EqIgnoreCase(Trim(pieces[j]), token)
      {
        if EqIgnoreCase(Trim(pieces[i]), token) {
          return;
        }
      }
      var combined := line + ", " + token;
      if ValueOk(combined) {
        headers.Insert("vary", combined);
      }
  }

  // ------------------------------------------------------------- stamping

  /** What the base stamp leaves, given the request's origin. */
  function Based(h: Headers, origin: Option<string>, p: CorsPolicy): Headers {
    match ResolveAllowOrigin(p, origin)
    case None => Varied(h, "origin")
    case Some(v) =>
      var allowed := h[ALLOW_ORIGIN := [v]];
      Varied(if p.credentials then allowed[ALLOW_CREDENTIALS := ["true"]] else allowed, "origin")
  }

  function Stamped(h: Headers, request: Headers, p: CorsPolicy): Headers {
    var base := Based(h, Get(request, "origin"), p);
    if p.exposedHeaders.Some? then base[EXPOSE_HEADERS := [p.exposedHeaders.value]] else base
  }

  method ApplyCorsBase(headers: HeaderMap, request: Headers, p: CorsPolicy)
    modifies headers
    ensures headers.entries == Based(old(headers.entries), Get(request, "origin"), p)
  {
    var allowed := ResolveAllowOrigin(p, Get(request, "origin"));
    if allowed.Some? {
      headers.Insert(ALLOW_ORIGIN, allowed.value);
      if p.credentials {
        headers.Insert(ALLOW_CREDENTIALS, "true");
      }
    }
    AppendVary(headers, "origin");
  }

  method ApplyToResponse(headers: HeaderMap, request: Headers, p: CorsPolicy)
    modifies headers
    ensures headers.entries == Stamped(old(headers.entries), request, p)
  {
    ApplyCorsBase(headers, request, p);
    if p.exposedHeaders.Some? {
      headers.Insert(EXPOSE_HEADERS, p.exposedHeaders.value);
    }
  }

  /** `name` set to the configured list, or else to what the request asked for. */
  function Allowed(h: Headers, name: string, configured: Option<string>, asked: Option<string>): Headers {
    if configured.Some? then h[name := [configured.value]]
    else if asked.Some? && ValueOk(asked.value) then h[name := [asked.value]]
    else h
  }

  /** The preflight's own fields, put on top of the base stamp. */
  function Answered(h1: Headers, request: Headers, p: CorsPolicy): Headers {
    var h2 := Allowed(h1, ALLOW_METHODS, p.allowedMethods, Get(request, REQUEST_METHOD));
    var h3 := Allowed(h2, ALLOW_HEADERS, p.allowedHeaders, Get(request, REQUEST_HEADERS));
    var h4 := if p.maxAge.Some? then h3[MAX_AGE := [p.maxAge.value]] else h3;
    var private := p.privateNetwork && Get(request, REQUEST_PRIVATE_NETWORK).Some?;
    if private then h4[ALLOW_PRIVATE_NETWORK := ["true"]] else h4
  }

  function Preflight(request: Headers, p: CorsPolicy): Headers {
    Varied(Varied(Answered(Based(map[], Get(request, "origin"), p), request, p), REQUEST_METHOD), REQUEST_HEADERS)
  }

  method BuildPreflightResponse(request: Headers, p: CorsPolicy) returns (headers: HeaderMap)
    ensures fresh(headers) && headers.entries == Preflight(request, p)
  {
    headers := new HeaderMap(map[]);
    ApplyCorsBase(headers, request, p);
    var acrm, acrh := Get(request, REQUEST_METHOD), Get(request, REQUEST_HEADERS);
    if p.allowedMethods.Some? {
      headers.Insert(ALLOW_METHODS, p.allowedMethods.value);
    } else if acrm.Some? && ValueOk(acrm.value) {
      headers.Insert(ALLOW_METHODS, acrm.value);
    }
    if p.allowedHeaders.Some? {
      headers.Insert(ALLOW_HEADERS, p.allowedHeaders.value);
    } else if acrh.Some? && ValueOk(acrh.value) {
      headers.Insert(ALLOW_HEADERS, acrh.value);
    }
    if p.maxAge.Some? {
      headers.Insert(MAX_AGE, p.maxAge.value);
    }
    if p.privateNetwork && Get(request, REQUEST_PRIVATE_NETWORK).Some? {
      headers.Insert(ALLOW_PRIVATE_NETWORK, "true");
    }
    AppendVary(headers, REQUEST_METHOD);
    AppendVary(headers, REQUEST_HEADERS);
  }

  // --------------------------------------------------- what a Vary line names

  /** The tokens of a comma-separated line, trimmed and folded to lower case. */
  function Tokens(line: string): set<string> {
    TokensOf(Split(line, ','))
  }

  function TokensOf(pieces: seq<string>): set<string> {
    set i | 0 <= i < |pieces| :: Lower(Trim(pieces[i]))
  }

  lemma TokensOfConcat(a: seq<string>, b: seq<string>)
    ensures TokensOf(a + b) == TokensOf(a) + TokensOf(b)
  {
    forall t | t in TokensOf(b)
      ensures t in TokensOf(a + b)
    {
      var i :| 0 <= i < |b| && Lower(Trim(b[i])) == t;
      assert (a + b)[|a| + i] == b[i];
    }
    forall t | t in TokensOf(a)
      ensures t in TokensOf(a + b)
    {
      var i :| 0 <= i < |a| && Lower(Trim(a[i])) == t;
      assert (a + b)[i] == a[i];
    }
  }

  /** A token of lower-case letters and dashes. */
  predicate PlainToken(token: string) {
    token != "" && forall i :: 0 <= i < |token| ==> token[i] == '-' || 'a' <= token[i] <= 'z'
  }

  /** Trimming, folding and splitting leave a plain token whole. */
  lemma PlainTokenIsWhole(token: string)
    requires PlainToken(token)
    ensures Lower(token) == token && Readable(token) && ',' !in token
    ensures Trim(token) == token && Trim(" " + token) == token
  {
  }

  lemma ListsIsToken(line: string, token: string)
    requires Lower(token) == token
    ensures Lists(line, token) <==> token in Tokens(line)
  {
  }

  lemma {:induction false} UnsplitPiece(s: string, sep: char)
    requires sep !in s
    ensures Split(s, sep) == [s]
  {
    if s == [] {
    } else {
      UnsplitPiece(s[1..], sep);
      assert s == [s[0]] + s[1..];
    }
  }

  /** Appending a token to a line adds exactly that token. */
  lemma TokensAppended(line: string, token: string)
    requires PlainToken(token)
    ensures Tokens(line + ", " + token) == Tokens(line) + {token}
  {
    var piece := " " + token;
    PlainTokenIsWhole(token);
    assert line + ", " + token == line + [','] + piece;
    SplitAround(line, piece, ',');
    UnsplitPiece(piece, ',');
    TokensOfConcat(Split(line, ','), [piece]);
    assert TokensOf([piece]) == {token} by {
      assert [piece][0] == piece;
    }
  }

  /** Adding a token makes the tokens of a readable single Vary line the old ones plus it. */
  lemma VariedTokens(h: Headers, token: string, line: string)
    requires PlainToken(token) && "vary" in h && h["vary"] == [line] && Readable(line)
    ensures var after := Varied(h, token);
            "vary" in after && |after["vary"]| == 1 && Tokens(after["vary"][0]) == Tokens(line) + {token}
  {
    PlainTokenIsWhole(token);
    ListsIsToken(line, token);
    TokensAppended(line, token);
    ReadableIsOk(line + ", " + token);
  }

  /** The stamp treats Vary as adding the token `origin`. */
  lemma StampVaries(h: Headers, request: Headers, p: CorsPolicy)
    ensures "vary" in Varied(h, "origin") && "vary" in Stamped(h, request, p)
    ensures Stamped(h, request, p)["vary"] == Varied(h, "origin")["vary"]
  {
  }

  /** One stamp makes the tokens of a readable single Vary line the old ones plus `origin`. */
  lemma VaryTokens(h: Headers, request: Headers, p: CorsPolicy, line: string)
    requires "vary" in h && h["vary"] == [line] && Readable(line)
    ensures var after := Stamped(h, request, p);
            "vary" in after && |after["vary"]| == 1 && Tokens(after["vary"][0]) == Tokens(line) + {"origin"}
  {
    PlainTokens();
    StampVaries(h, request, p);
    VariedTokens(h, "origin", line);
  }

  function AllTokens(lines: seq<string>): set<string> {
    if lines == [] then {} else Tokens(lines[0]) + AllTokens(lines[1..])
  }

  /**
   With several Vary lines the others are dropped: the union of all tokens gains the new one
   and loses nothing exactly when the first line lists it already, or names every token of
   the others.
   */
  lemma VariedLinesKept(h: Headers, token: string)
    requires PlainToken(token) && "vary" in h && h["vary"] != [] && Readable(h["vary"][0])
    ensures var lines := h["vary"];
            AllTokens(Varied(h, token)["vary"]) == AllTokens(lines) + {token} <==>
              || token in Tokens(lines[0])
              || AllTokens(lines[1..]) <= Tokens(lines[0]) + {token}
  {
    var line := h["vary"][0];
    VariedLine(h, token, line);
    OneLine(line + ", " + token);
    NothingLost(Tokens(line), AllTokens(h["vary"][1..]), token);
  }

  lemma NothingLost(first: set<string>, rest: set<string>, token: string)
    ensures first + {token} == first + rest + {token} <==> rest <= first + {token}
    ensures token in first ==> first + rest + {token} == first + rest
  {
  }

  /** So a stamp keeps every token of several Vary lines exactly in those cases. */
  lemma VaryLinesKept(h: Headers, request: Headers, p: CorsPolicy)
    requires "vary" in h && h["vary"] != [] && Readable(h["vary"][0])
    ensures var lines, after := h["vary"], Stamped(h, request, p);
            && "vary" in after
            && (AllTokens(after["vary"]) == AllTokens(lines) + {"origin"} <==>
                  || "origin" in Tokens(lines[0])
                  || AllTokens(lines[1..]) <= Tokens(lines[0]) + {"origin"})
  {
    PlainTokens();
    StampVaries(h, request, p);
    VariedLinesKept(h, "origin");
  }

  lemma OneLine(line: string)
    ensures AllTokens([line]) == Tokens(line)
  {
  }

  /** The first Vary line is unreadable, or lists the token. */
  predicate VarySettled(h: Headers, token: string) {
    var line := Get(h, "vary");
    line.Some? && (!Readable(line.value) || token in Tokens(line.value))
  }

  /** Adding a token to a readable line that lacks it leaves the longer line. */
  lemma VariedLine(h: Headers, token: string, line: string)
    requires PlainToken(token) && Get(h, "vary") == Some(line) && Readable(line)
    ensures Readable(line + ", " + token) && Tokens(line + ", " + token) == Tokens(line) + {token}
    ensures Varied(h, token) == if token in Tokens(line) then h else h["vary" := [line + ", " + token]]
  {
    PlainTokenIsWhole(token);
    ListsIsToken(line, token);
    TokensAppended(line, token);
    ReadableIsOk(line + ", " + token);
  }

  /** Adding any token settles it, and unsettles none. */
  lemma VariedSettles(h: Headers, token: string, other: string)
    requires PlainToken(token)
    ensures VarySettled(Varied(h, token), token)
    ensures VarySettled(h, other) ==> VarySettled(Varied(h, token), other)
  {
    match Get(h, "vary")
    case None =>
      TokenAlone(token);
    case Some(line) =>
      if Readable(line) {
        VariedLine(h, token, line);
      }
  }

  lemma TokenAlone(token: string)
    requires PlainToken(token)
    ensures token in Tokens(token)
  {
    PlainTokenIsWhole(token);
    UnsplitPiece(token, ',');
    assert Lower(Trim([token][0])) == token;
  }

  lemma PlainTokens()
    ensures PlainToken("origin") && PlainToken(REQUEST_METHOD) && PlainToken(REQUEST_HEADERS)
  {
  }

  // ------------------------------------------------------------ idempotence

  lemma BaseSettles(h: Headers, request: Headers, p: CorsPolicy)
    ensures var base := Based(h, Get(request, "origin"), p);
            VarySettled(base, "origin") && Carries(base, request, p)
  {
    PlainTokens();
    VariedSettles(h, "origin", "origin");
    var v := ResolveAllowOrigin(p, Get(request, "origin"));
    if v.Some? {
      VariedSettles(h[ALLOW_ORIGIN := [v.value]], "origin", "origin");
      VariedSettles(h[ALLOW_ORIGIN := [v.value]][ALLOW_CREDENTIALS := ["true"]], "origin", "origin");
    }
  }

  /** Stamping a stamped response again changes nothing, on every header map. */
  lemma StampIdempotent(h: Headers, request: Headers, p: CorsPolicy)
    ensures Stamped(Stamped(h, request, p), request, p) == Stamped(h, request, p)
  {
    var base := Based(h, Get(request, "origin"), p);
    BaseSettles(h, request, p);
    StampOnSettled(base, request, p);
    if p.exposedHeaders.Some? {
      var v := p.exposedHeaders.value;
      ExposeKeeps(base, request, p, v);
      StampOnSettled(base[EXPOSE_HEADERS := [v]], request, p);
    }
  }

  lemma ExposeKeeps(h: Headers, request: Headers, p: CorsPolicy, v: string)
    requires VarySettled(h, "origin") && Carries(h, request, p)
    ensures VarySettled(h[EXPOSE_HEADERS := [v]], "origin") && Carries(h[EXPOSE_HEADERS := [v]], request, p)
  {
  }

  /** The values a stamp puts are already there. */
  predicate Carries(h: Headers, request: Headers, p: CorsPolicy) {
    var v := ResolveAllowOrigin(p, Get(request, "origin"));
    v.Some? ==>
      && ALLOW_ORIGIN in h && h[ALLOW_ORIGIN] == [v.value]
      && (p.credentials ==> ALLOW_CREDENTIALS in h && h[ALLOW_CREDENTIALS] == ["true"])
  }

  /** On headers that carry its values, a stamp touches the exposed-headers field alone. */
  lemma StampOnSettled(h: Headers, request: Headers, p: CorsPolicy)
    requires VarySettled(h, "origin") && Carries(h, request, p)
    ensures Stamped(h, request, p) ==
            if p.exposedHeaders.Some? then h[EXPOSE_HEADERS := [p.exposedHeaders.value]] else h
  {
  }

  /** What is put on a preflight between the base stamp and its last two Vary tokens. */
  lemma MiddleSettled(h1: Headers, request: Headers, p: CorsPolicy)
    requires VarySettled(h1, "origin") && Carries(h1, request, p)
    ensures VarySettled(Answered(h1, request, p), "origin") && Carries(Answered(h1, request, p), request, p)
  {
    var h := Answered(h1, request, p);
    KeptUnderAnswer(h1, request, p, "vary");
    KeptUnderAnswer(h1, request, p, ALLOW_ORIGIN);
    KeptUnderAnswer(h1, request, p, ALLOW_CREDENTIALS);
  }

  lemma KeptUnderAnswer(h1: Headers, request: Headers, p: CorsPolicy, name: string)
    requires name !in [ALLOW_METHODS, ALLOW_HEADERS, MAX_AGE, ALLOW_PRIVATE_NETWORK]
    ensures var h := Answered(h1, request, p);
            (name in h <==> name in h1) && (name in h1 ==> h[name] == h1[name])
  {
  }

  /** Stamping a preflight answer afterwards changes nothing but the exposed-headers field. */
  lemma StampAfterPreflight(request: Headers, p: CorsPolicy)
    ensures var pre := Preflight(request, p);
            Stamped(pre, request, p) ==
            if p.exposedHeaders.Some? then pre[EXPOSE_HEADERS := [p.exposedHeaders.value]] else pre
  {
    var h1 := Based(map[], Get(request, "origin"), p);
    var h5 := Answered(h1, request, p);
    BaseSettles(map[], request, p);
    MiddleSettled(h1, request, p);
    TwoMoreTokens(h5, request, p);
    StampOnSettled(Preflight(request, p), request, p);
  }

  lemma TwoMoreTokens(h: Headers, request: Headers, p: CorsPolicy)
    requires VarySettled(h, "origin") && Carries(h, request, p)
    ensures var t := Varied(Varied(h, REQUEST_METHOD), REQUEST_HEADERS);
            VarySettled(t, "origin") && Carries(t, request, p)
  {
    PlainTokens();
    VariedSettles(h, REQUEST_METHOD, "origin");
    VariedSettles(Varied(h, REQUEST_METHOD), REQUEST_HEADERS, "origin");
  }

  /** With credentials the allow-origin value is the request's own origin, never the wildcard's. */
  lemma CredentialsEchoOrigin(p: CorsPolicy, origin: Option<string>)
    requires p.credentials
    ensures ResolveAllowOrigin(p, origin) in {None, origin}
    ensures ResolveAllowOrigin(p, origin).Some? <==>
              && origin.Some? && Readable(origin.value)
              && match p.mode
                 case Wildcard => true
                 case Reflect(gate) => gate.None? || origin.value in gate.value
                 case Explicit(origins) => origin.value in origins
  {
  }

  /**
   Which origin is allowed: the wildcard's star without credentials, and else the request's own
   readable origin, where the mode admits it.
   */
  lemma AllowOriginExactly(p: CorsPolicy, origin: Option<string>)
    ensures p.mode == Wildcard && !p.credentials ==> ResolveAllowOrigin(p, origin) == Some("*")
    ensures p.mode != Wildcard || p.credentials ==>
              && ResolveAllowOrigin(p, origin) in {None, origin}
              && (ResolveAllowOrigin(p, origin).Some? <==>
                    && origin.Some? && Readable(origin.value)
                    && (p.mode.Reflect? && p.mode.gate.Some? ==> origin.value in p.mode.gate.value)
                    && (p.mode.Explicit? ==> origin.value in p.mode.origins))
  {
  }

  /** A stamped response exposes the configured headers. */
  lemma StampExposes(h: Headers, request: Headers, p: CorsPolicy)
    requires p.exposedHeaders.Some?
    ensures var after := Stamped(h, request, p);
            EXPOSE_HEADERS in after && after[EXPOSE_HEADERS] == [p.exposedHeaders.value]
  {
  }

  /** Without a Vary line the stamp starts one; an unreadable one it leaves alone. */
  lemma VaryOtherwise(h: Headers, request: Headers, p: CorsPolicy)
    ensures Get(h, "vary").None? ==> Stamped(h, request, p)["vary"] == ["origin"]
    ensures Get(h, "vary").Some? && !Readable(Get(h, "vary").value) ==> Stamped(h, request, p)["vary"] == h["vary"]
  {
    StampVaries(h, request, p);
  }

  /** The field is there with this one value, or not at all. */
  predicate FieldIs(h: Headers, name: string, value: Option<string>) {
    if value.Some? then name in h && h[name] == [value.value] else name !in h
  }

  /** A list as configured, or else as the request asked for, if it can be sent back. */
  function GrantedList(configured: Option<string>, asked: Option<string>): Option<string> {
    if configured.Some? then configured
    else if asked.Some? && ValueOk(asked.value) then asked
    else None
  }

  /** Field by field, what a preflight is answered with, and that it is nothing else. */
  lemma PreflightExactly(request: Headers, p: CorsPolicy)
    ensures var pre := Preflight(request, p);
            var origin := ResolveAllowOrigin(p, Get(request, "origin"));
            && FieldIs(pre, "access-control-allow-origin", origin)
            && FieldIs(pre, "access-control-allow-credentials",
                       if origin.Some? && p.credentials then Some("true") else None)
            && FieldIs(pre, "access-control-allow-methods",
                       GrantedList(p.allowedMethods, Get(request, "access-control-request-method")))
            && FieldIs(pre, "access-control-allow-headers",
                       GrantedList(p.allowedHeaders, Get(request, "access-control-request-headers")))
            && FieldIs(pre, "access-control-max-age", p.maxAge)
            && FieldIs(pre, "access-control-allow-private-network",
                       if p.privateNetwork && Get(request, "access-control-request-private-network").Some?
                       then Some("true") else None)
            && FieldIs(pre, "vary", Some("origin" + ", " + "access-control-request-method"
                                         + ", " + "access-control-request-headers"))
            && pre.Keys <= {"access-control-allow-origin", "access-control-allow-credentials",
                            "access-control-allow-methods", "access-control-allow-headers", "access-control-max-age",
                            "access-control-allow-private-network", "vary"}
  {
    var base := Based(map[], Get(request, "origin"), p);
    var h := Answered(base, request, p);
    AnsweredFields(base, request, p);
    OwnFields(base, request, p);
    PreflightVary(h);
  }

  lemma NamesDiffer()
    ensures ALLOW_METHODS != ALLOW_HEADERS && ALLOW_METHODS != MAX_AGE && ALLOW_METHODS != ALLOW_PRIVATE_NETWORK
    ensures ALLOW_HEADERS != MAX_AGE && ALLOW_HEADERS != ALLOW_PRIVATE_NETWORK && MAX_AGE != ALLOW_PRIVATE_NETWORK
    ensures {ALLOW_ORIGIN, ALLOW_CREDENTIALS, "vary"} !! {ALLOW_METHODS, ALLOW_HEADERS, MAX_AGE, ALLOW_PRIVATE_NETWORK}
  {
    assert ALLOW_METHODS[21] != ALLOW_HEADERS[21];
  }

  /** Every field but one is the same. */
  ghost predicate SameBut(a: Headers, b: Headers, name: string) {
    forall n :: n != name ==> (n in a <==> n in b) && (n in a ==> a[n] == b[n])
  }

  lemma FieldsPut(h1: Headers, request: Headers, p: CorsPolicy) returns (h2: Headers, h3: Headers, h4: Headers)
    ensures SameBut(h1, h2, ALLOW_METHODS) && SameBut(h2, h3, ALLOW_HEADERS) && SameBut(h3, h4, MAX_AGE)
    ensures SameBut(h4, Answered(h1, request, p), ALLOW_PRIVATE_NETWORK)
    ensures ALLOW_METHODS !in h1 ==>
              FieldIs(h2, ALLOW_METHODS, GrantedList(p.allowedMethods, Get(request, REQUEST_METHOD)))
    ensures ALLOW_HEADERS !in h2 ==>
              FieldIs(h3, ALLOW_HEADERS, GrantedList(p.allowedHeaders, Get(request, REQUEST_HEADERS)))
    ensures MAX_AGE !in h3 ==> FieldIs(h4, MAX_AGE, p.maxAge)
    ensures ALLOW_PRIVATE_NETWORK !in h4 ==>
              FieldIs(Answered(h1, request, p), ALLOW_PRIVATE_NETWORK,
                      if p.privateNetwork && Get(request, REQUEST_PRIVATE_NETWORK).Some? then Some("true") else None)
  {
    h2 := Allowed(h1, ALLOW_METHODS, p.allowedMethods, Get(request, REQUEST_METHOD));
    h3 := Allowed(h2, ALLOW_HEADERS, p.allowedHeaders, Get(request, REQUEST_HEADERS));
    h4 := if p.maxAge.Some? then h3[MAX_AGE := [p.maxAge.value]] else h3;
  }

  lemma EmptyBased(origin: Option<string>, p: CorsPolicy)
    ensures var h, v := Based(map[], origin, p), ResolveAllowOrigin(p, origin);
            && FieldIs(h, ALLOW_ORIGIN, v)
            && FieldIs(h, ALLOW_CREDENTIALS, if v.Some? && p.credentials then Some("true") else None)
            && FieldIs(h, "vary", Some("origin"))
            && h.Keys <= {ALLOW_ORIGIN, ALLOW_CREDENTIALS, "vary"}
  {
  }

  lemma OwnFields(h1: Headers, request: Headers, p: CorsPolicy)
    requires h1.Keys !! {ALLOW_METHODS, ALLOW_HEADERS, MAX_AGE, ALLOW_PRIVATE_NETWORK}
    ensures var h := Answered(h1, request, p);
            && FieldIs(h, ALLOW_METHODS, GrantedList(p.allowedMethods, Get(request, REQUEST_METHOD)))
            && FieldIs(h, ALLOW_HEADERS, GrantedList(p.allowedHeaders, Get(request, REQUEST_HEADERS)))
            && FieldIs(h, MAX_AGE, p.maxAge)
            && FieldIs(h, ALLOW_PRIVATE_NETWORK,
                       if p.privateNetwork && Get(request, REQUEST_PRIVATE_NETWORK).Some? then Some("true") else None)
  {
    NamesDiffer();
    var h2, h3, h4 := FieldsPut(h1, request, p);
  }

  lemma OtherFields(h1: Headers, request: Headers, p: CorsPolicy, name: string)
    requires name !in {ALLOW_METHODS, ALLOW_HEADERS, MAX_AGE, ALLOW_PRIVATE_NETWORK}
    ensures var h := Answered(h1, request, p);
            (name in h <==> name in h1) && (name in h1 ==> h[name] == h1[name])
  {
    KeptUnderAnswer(h1, request, p, name);
  }

  lemma AnsweredFields(h1: Headers, request: Headers, p: CorsPolicy)
    requires h1 == Based(map[], Get(request, "origin"), p)
    ensures var h := Answered(h1, request, p);
            var origin := ResolveAllowOrigin(p, Get(request, "origin"));
            && FieldIs(h, ALLOW_ORIGIN, origin)
            && FieldIs(h, ALLOW_CREDENTIALS, if origin.Some? && p.credentials then Some("true") else None)
            && FieldIs(h, "vary", Some("origin"))
            && h.Keys <= {ALLOW_ORIGIN, ALLOW_CREDENTIALS, ALLOW_METHODS, ALLOW_HEADERS, MAX_AGE,
                          ALLOW_PRIVATE_NETWORK, "vary"}
            && h1.Keys !! {ALLOW_METHODS, ALLOW_HEADERS, MAX_AGE, ALLOW_PRIVATE_NETWORK}
  {
    NamesDiffer();
    EmptyBased(Get(request, "origin"), p);
    OtherFields(h1, request, p, ALLOW_ORIGIN);
    OtherFields(h1, request, p, ALLOW_CREDENTIALS);
    OtherFields(h1, request, p, "vary");
    forall name | name in Answered(h1, request, p)
      ensures name in h1 || name in {ALLOW_METHODS, ALLOW_HEADERS, MAX_AGE, ALLOW_PRIVATE_NETWORK}
    {
      if name !in {ALLOW_METHODS, ALLOW_HEADERS, MAX_AGE, ALLOW_PRIVATE_NETWORK} {
        OtherFields(h1, request, p, name);
      }
    }
  }

  /** The two tokens a preflight adds after `origin`. */
  lemma PreflightVary(h: Headers)
    requires FieldIs(h, "vary", Some("origin"))
    ensures Varied(Varied(h, REQUEST_METHOD), REQUEST_HEADERS)
            == h["vary" := ["origin" + ", " + REQUEST_METHOD + ", " + REQUEST_HEADERS]]
  {
    PlainTokens();
    TokensDiffer();
    TokenIsAlone("origin");
    var line := "origin" + ", " + REQUEST_METHOD;
    VariedLine(h, REQUEST_METHOD, "origin");
    SecondToken(h, line);
  }

  lemma SecondToken(h: Headers, line: string)
    requires Readable(line) && Tokens(line) == {"origin", REQUEST_METHOD}
    ensures Varied(h["vary" := [line]], REQUEST_HEADERS) == h["vary" := [line + ", " + REQUEST_HEADERS]]
  {
    PlainTokens();
    TokensDiffer();
    VariedLine(h["vary" := [line]], REQUEST_HEADERS, line);
    var longer := line + ", " + REQUEST_HEADERS;
    assert h["vary" := [line]]["vary" := [longer]] == h["vary" := [longer]];
  }

  lemma TokensDiffer()
    ensures "origin" != REQUEST_METHOD && "origin" != REQUEST_HEADERS && REQUEST_METHOD != REQUEST_HEADERS
  {
  }

  lemma TokenIsAlone(token: string)
    requires PlainToken(token)
    ensures Tokens(token) == {token} && Readable(token)
  {
    PlainTokenIsWhole(token);
    UnsplitPiece(token, ',');
    assert [token][0] == token;
  }

  /**
   The upstream's allow-origin field is replaced exactly when the origin is admitted; when it
   is not, whatever the upstream sent is left in place.
   */
  lemma AllowOriginAfterStamp(h: Headers, request: Headers, p: CorsPolicy)
    ensures var v := ResolveAllowOrigin(p, Get(request, "origin"));
            var after := Stamped(h, request, p);
            && (v.Some? ==> ALLOW_ORIGIN in after && after[ALLOW_ORIGIN] == [v.value])
            && (v.None? ==> (ALLOW_ORIGIN in after <==> ALLOW_ORIGIN in h)
                            && (ALLOW_ORIGIN in h ==> after[ALLOW_ORIGIN] == h[ALLOW_ORIGIN]))
  {
  }

  /**
   The allow-credentials field is never taken away: a stamped response carries it exactly when
   credentials are on and the origin admitted, or the upstream sent it.
   */
  lemma CredentialsAfterStamp(h: Headers, request: Headers, p: CorsPolicy)
    ensures var put := p.credentials && ResolveAllowOrigin(p, Get(request, "origin")).Some?;
            var after := Stamped(h, request, p);
            && (ALLOW_CREDENTIALS in after <==> put || ALLOW_CREDENTIALS in h)
            && (put ==> after[ALLOW_CREDENTIALS] == ["true"])
            && (!put && ALLOW_CREDENTIALS in h ==> after[ALLOW_CREDENTIALS] == h[ALLOW_CREDENTIALS])
  {
  }

  /** With credentials off, the upstream's own allow-credentials field reaches the browser. */
  lemma UpstreamCredentialsSurvive(p: CorsPolicy, request: Headers)
    requires !p.credentials && ResolveAllowOrigin(p, Get(request, "origin")).Some?
    ensures var after := Stamped(map[ALLOW_CREDENTIALS := ["true"]], request, p);
            && ALLOW_ORIGIN in after
            && ALLOW_CREDENTIALS in after && after[ALLOW_CREDENTIALS] == ["true"]
  {
    CredentialsAfterStamp(map[ALLOW_CREDENTIALS := ["true"]], request, p);
    AllowOriginAfterStamp(map[ALLOW_CREDENTIALS := ["true"]], request, p);
  }

  /**
   A stamp touches at most four fields; everything else the upstream sent, its allow-methods,
   allow-headers and max-age included, goes through, and so does its own list of exposed
   headers when none is configured.
   */
  lemma StampLeavesTheRest(h: Headers, request: Headers, p: CorsPolicy, name: string)
    requires name !in {ALLOW_ORIGIN, ALLOW_CREDENTIALS, "vary"}
    requires name == EXPOSE_HEADERS ==> p.exposedHeaders.None?
    ensures var after := Stamped(h, request, p);
            (name in after <==> name in h) && (name in h ==> after[name] == h[name])
  {
  }
}
