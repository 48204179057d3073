/**
 Configuration snapshots and their reload. A new snapshot keeps parts of the old one when
 their configuration is unchanged; the breaker, the limiter and the client carry an
 identity, so that keeping one and building an equal one are told apart.
 */
module Reload {
  import opened Wrappers
  import opened Text
  import opened Target
  import Circuit
  import Exchange

  /** A section of the configuration whose content plays no part here. */
  type Section = string

  datatype Tls = Tls(certPath: string, keyPath: string, clientCaPath: Option<string>, alpn: seq<string>)

  datatype ServerConfig = ServerConfig(bind: string, workers: nat, gracefulShutdown: nat, http2: bool, tls: Option<Tls>)

  datatype Limits = Limits(
    maxRequestBody: nat,
    maxRequestHeader: nat,
    maxResponseBody: nat,
    inflightMax: nat,
    requestTimeout: nat,
    connectTimeout: nat,
    maxRedirects: nat,
    allowDowngrade: bool,
    redirects: Exchange.RedirectPolicy)

  datatype Security = Security(removeRequest: seq<string>, removeResponse: seq<string>, rest: Section)

  datatype UpstreamConfig = UpstreamConfig(poolMaxIdle: nat, poolIdleTimeout: nat, userAgent: string)

  datatype Config = Config(
    server: ServerConfig,
    limits: Limits,
    cors: Section,
    security: Security,
    ssrf: Section,
    target: TargetConfig,
    forwarded: Section,
    rateLimit: Section,
    circuit: Circuit.Settings,
    upstream: UpstreamConfig,
    metricsEndpoint: string,
    telemetry: Section)

  /**
   How sections are compiled, into parts of any type; some compilations can fail. `sound` is
   the validation of the sections whose content plays no part here.
   */
  datatype Compiler<!P> = Compiler(
    sound: (Section, Security, Section) -> bool,
    cors: Section -> P,
    filter: seq<string> -> Option<P>,
    origins: Security -> P,
    limiter: Section -> Option<P>)

  /** A shared object: its identity, and what it was built as. */
  datatype Shared<T> = Shared(id: nat, value: T)

  datatype ClientConfig = ClientConfig(
    upstream: UpstreamConfig,
    connectTimeout: nat,
    maxRedirects: nat,
    allowDowngrade: bool,
    redirects: Exchange.RedirectPolicy)

  /** The upstream client: its tuning, its address policy and its own copy of the target policy. */
  datatype UpstreamParts = UpstreamParts(client: ClientConfig, ssrf: Section, target: TargetPolicy)

  datatype LivePolicies<P> = LivePolicies(
    config: Config,
    cors: P,
    requestFilter: P,
    responseFilter: P,
    origins: P,
    limiter: Shared<P>,
    target: TargetPolicy,
    circuit: Shared<Circuit.Settings>,
    upstream: Shared<UpstreamParts>)

  predicate UpstreamConfigEq(a: Config, b: Config) {
    && a.ssrf == b.ssrf
    && a.target == b.target
    && a.upstream == b.upstream
    && a.limits.connectTimeout == b.limits.connectTimeout
    && a.limits.maxRedirects == b.limits.maxRedirects
    && a.limits.allowDowngrade == b.limits.allowDowngrade
    && a.limits.redirects == b.limits.redirects
  }

  function UpstreamOf(config: Config, target: TargetPolicy): UpstreamParts {
    UpstreamParts(
      ClientConfig(config.upstream, config.limits.connectTimeout, config.limits.maxRedirects,
                   config.limits.allowDowngrade, config.limits.redirects),
      config.ssrf, target)
  }

  /** Builds a snapshot; new objects are numbered from `ids`. `tlsRoots` tells if the root store loads. */
  function BuildFrom<P>(c: Compiler<P>, config: Config, previous: Option<LivePolicies<P>>, ids: nat, tlsRoots: bool):
    Option<LivePolicies<P>>
  {
    var requestFilter := c.filter(config.security.removeRequest);
    var responseFilter := c.filter(config.security.removeResponse);
    if requestFilter.None? || responseFilter.None? then None
    else
      var target := FromConfig(config.target);
      var limiter :=
        if previous.Some? && previous.value.config.rateLimit == config.rateLimit then Some(previous.value.limiter)
        else
          match c.limiter(config.rateLimit)
          case None => None
          case Some(l) => Some(Shared(ids, l));
      if limiter.None? then None
      else
        var circuit :=
          if previous.Some? && previous.value.config.circuit == config.circuit then previous.value.circuit
          else Shared(ids + 1, Circuit.FromConfig(config.circuit));
        if previous.Some? && UpstreamConfigEq(previous.value.config, config) then
          Some(LivePolicies(config, c.cors(config.cors), requestFilter.value, responseFilter.value,
                            c.origins(config.security), limiter.value, target, circuit, previous.value.upstream))
        else if tlsRoots then
          Some(LivePolicies(config, c.cors(config.cors), requestFilter.value, responseFilter.value,
                            c.origins(config.security), limiter.value, target, circuit,
                            Shared(ids + 2, UpstreamOf(config, target))))
        else None
  }

  // -------------------------------------------------------------- validation

  /** An allowlist must name something. */
  predicate TargetLoads(t: TargetConfig) {
    t.mode == Allowlist ==> t.hosts != []
  }

  /** The checks a configuration must pass to be loaded at all, at startup and at every reload. */
  predicate Validated<P>(c: Compiler<P>, config: Config) {
    && TargetLoads(config.target)
    && (config.circuit.enabled ==> 0 < config.circuit.threshold)
    && 0 < config.limits.maxRequestBody
    && 0 < config.upstream.poolMaxIdle
    && Trim(config.upstream.userAgent) != ""
    && c.sound(config.cors, config.security, config.rateLimit)
  }

  // -------------------------------------------------------- immutable fields

  predicate TlsEq(a: Option<Tls>, b: Option<Tls>) {
    match (a, b)
    case (None, None) => true
    case (Some(x), Some(y)) =>
      x.certPath == y.certPath && x.keyPath == y.keyPath && x.clientCaPath == y.clientCaPath && x.alpn == y.alpn
    case _ => false
  }

  predicate AssertImmutable(next: Config, startup: Config) {
    && next.server.bind == startup.server.bind
    && next.server.http2 == startup.server.http2
    && TlsEq(next.server.tls, startup.server.tls)
    && next.limits.maxRequestBody == startup.limits.maxRequestBody
    && next.limits.maxRequestHeader == startup.limits.maxRequestHeader
    && next.limits.requestTimeout == startup.limits.requestTimeout
    && next.limits.inflightMax == startup.limits.inflightMax
    && next.limits.maxResponseBody == startup.limits.maxResponseBody
    && next.metricsEndpoint == startup.metricsEndpoint
  }

  /** Everything a reload may not change. */
  datatype Frozen = Frozen(
    bind: string, http2: bool, tls: Option<Tls>, maxRequestBody: nat, maxRequestHeader: nat,
    requestTimeout: nat, inflightMax: nat, maxResponseBody: nat, metricsEndpoint: string)

  function FrozenOf(c: Config): Frozen {
    Frozen(c.server.bind, c.server.http2, c.server.tls, c.limits.maxRequestBody, c.limits.maxRequestHeader,
           c.limits.requestTimeout, c.limits.inflightMax, c.limits.maxResponseBody, c.metricsEndpoint)
  }

  /** The reload guard passes exactly when every immutable field is unchanged. */
  lemma ImmutableIsFrozen(next: Config, startup: Config)
    ensures AssertImmutable(next, startup) <==> FrozenOf(next) == FrozenOf(startup)
  {
  }

  // ------------------------------------------------------------ the server

  datatype Server<P> = Server(startup: Config, live: LivePolicies<P>, ids: nat)

  /** One reload request: the file as read, if it was and the files it names exist, and the TLS roots. */
  datatype Attempt = Attempt(config: Option<Config>, tlsRoots: bool)

  function Candidate<P>(c: Compiler<P>, s: Server<P>, a: Attempt): Option<LivePolicies<P>> {
    if a.config.Some? && Validated(c, a.config.value) && AssertImmutable(a.config.value, s.startup) then
      BuildFrom(c, a.config.value, Some(s.live), s.ids, a.tlsRoots)
    else
      None
  }

  function Reloaded<P>(c: Compiler<P>, s: Server<P>, a: Attempt): Server<P> {
    var next := Candidate(c, s, a);
    if next.Some? then s.(live := next.value, ids := s.ids + 3) else s
  }

  function After<P>(c: Compiler<P>, s: Server<P>, attempts: seq<Attempt>): Server<P> {
    if attempts == [] then s
    else Reloaded(c, After(c, s, attempts[..|attempts| - 1]), attempts[|attempts| - 1])
  }

  /** None of the attempts is accepted. */
  predicate NoneAccepted<P>(c: Compiler<P>, s: Server<P>, attempts: seq<Attempt>) {
    attempts == [] ||
    var front, a := attempts[..|attempts| - 1], attempts[|attempts| - 1];
    NoneAccepted(c, s, front) && Candidate(c, After(c, s, front), a).None?
  }

  /** The server is as it was exactly when none was, and numbers more objects otherwise. */
  lemma {:induction false} SameServerExactly<P>(c: Compiler<P>, s: Server<P>, attempts: seq<Attempt>)
    ensures var t := After(c, s, attempts);
            && s.ids <= t.ids
            && (s.ids == t.ids <==> NoneAccepted(c, s, attempts))
            && (NoneAccepted(c, s, attempts) ==> t == s)
  {
    if attempts == [] {
    } else {
      SameServerExactly(c, s, attempts[..|attempts| - 1]);
    }
  }

  lemma AfterSnoc<P>(c: Compiler<P>, s: Server<P>, attempts: seq<Attempt>, a: Attempt)
    ensures After(c, s, attempts + [a]) == Reloaded(c, After(c, s, attempts), a)
  {
    assert (attempts + [a])[..|attempts|] == attempts;
  }

  lemma {:induction false} AfterConcat<P>(c: Compiler<P>, s: Server<P>, a: seq<Attempt>, b: seq<Attempt>)
    ensures After(c, s, a + b) == After(c, After(c, s, a), b)
  {
    if b == [] {
      assert a + b == a;
    } else {
      assert (a + b)[..|a + b| - 1] == a + b[..|b| - 1];
      AfterConcat(c, s, a, b[..|b| - 1]);
    }
  }

  // ------------------------------------------------ when a reload is accepted

  /** The configuration an upstream client is built from. */
  function ClientSections(config: Config):
    (Section, TargetConfig, UpstreamConfig, nat, nat, bool, Exchange.RedirectPolicy)
  {
    (config.ssrf, config.target, config.upstream, config.limits.connectTimeout, config.limits.maxRedirects,
     config.limits.allowDowngrade, config.limits.redirects)
  }

  /**
   A running server takes over a configuration exactly when the file was read, passes every
   check, keeps every immutable field, and can be built: both header filters compile, the
   limiter is kept or compiles, and the client is kept or the TLS roots load. Otherwise
   nothing changes at all.
   */
  lemma AcceptedExactly<P>(c: Compiler<P>, s: Server<P>, attempts: seq<Attempt>, a: Attempt)
    ensures var t, u := After(c, s, attempts), After(c, s, attempts + [a]);
            && (t.ids < u.ids <==>
                  && a.config.Some?
                  && var config, live := a.config.value, t.live.config;
                     && (config.target.mode == Allowlist ==> |config.target.hosts| > 0)
                     && (config.circuit.enabled ==> config.circuit.threshold != 0)
                     && config.limits.maxRequestBody != 0 && config.upstream.poolMaxIdle != 0
                     && |Trim(config.upstream.userAgent)| > 0
                     && c.sound(config.cors, config.security, config.rateLimit)
                     && FrozenOf(config) == FrozenOf(t.startup)
                     && c.filter(config.security.removeRequest).Some?
                     && c.filter(config.security.removeResponse).Some?
                     && (config.rateLimit == live.rateLimit || c.limiter(config.rateLimit).Some?)
                     && (ClientSections(config) == ClientSections(live) || a.tlsRoots))
            && (t.ids < u.ids ==> u.live.config == a.config.value && u.startup == t.startup)
            && (!(t.ids < u.ids) ==> u == t)
  {
    assert (attempts + [a])[..|attempts|] == attempts;
    var t := After(c, s, attempts);
    if a.config.Some? {
      ImmutableIsFrozen(a.config.value, t.startup);
    }
  }

  /** The running server's cell, as the reload handle updates it. */
  class ReloadHandle<P> {
    const compiler: Compiler<P>
    const startup: Config
    var live: LivePolicies<P>
    var ids: nat

    ghost function State(): Server<P>
      reads this
    {
      Server(startup, live, ids)
    }

    constructor (compiler: Compiler<P>, s: Server<P>)
      ensures State() == s && this.compiler == compiler
    {
      this.compiler, startup, live, ids := compiler, s.startup, s.live, s.ids;
    }

    /** Stores the new snapshot, or leaves the current one untouched on every error. */
    method Reload(file: Option<Config>, tlsRoots: bool) returns (ok: bool)
      modifies this
      ensures State() == Reloaded(compiler, old(State()), Attempt(file, tlsRoots))
      ensures !ok ==> State() == old(State())
      ensures ok <==> Candidate(compiler, old(State()), Attempt(file, tlsRoots)).Some?
    {
      if file.None? || !Validated(compiler, file.value) {
        return false;
      }
      if !AssertImmutable(file.value, startup) {
        return false;
      }
      var previous := live;
      var policies := BuildFrom(compiler, file.value, Some(previous), ids, tlsRoots);
      if policies.None? {
        return false;
      }
      live, ids := policies.value, ids + 3;
      return true;
    }
  }

  // ----------------------------------------------- agreement with a fresh build

  /** Two snapshots that differ at most in the identity of their shared objects. */
  predicate SameParts<P(==)>(a: LivePolicies<P>, b: LivePolicies<P>) {
    && a.config == b.config && a.cors == b.cors
    && a.requestFilter == b.requestFilter && a.responseFilter == b.responseFilter
    && a.origins == b.origins && a.target == b.target
    && a.limiter.value == b.limiter.value
    && a.circuit.value == b.circuit.value
    && a.upstream.value == b.upstream.value
  }

  /** Every compiled part comes from its own section, and the client from the live settings. */
  predicate PartsFromConfig<P(==)>(c: Compiler<P>, live: LivePolicies<P>) {
    var config := live.config;
    && live.cors == c.cors(config.cors)
    && c.filter(config.security.removeRequest) == Some(live.requestFilter)
    && c.filter(config.security.removeResponse) == Some(live.responseFilter)
    && live.origins == c.origins(config.security)
    && c.limiter(config.rateLimit) == Some(live.limiter.value)
    && live.circuit.value == Circuit.FromConfig(config.circuit)
    && live.target == live.upstream.value.target == FromConfig(config.target)
    && live.upstream.value.ssrf == config.ssrf
    && live.upstream.value.client ==
       ClientConfig(config.upstream, config.limits.connectTimeout, config.limits.maxRedirects,
                    config.limits.allowDowngrade, config.limits.redirects)
  }

  ghost predicate Current<P>(c: Compiler<P>, live: LivePolicies<P>) {
    var anew := BuildFrom(c, live.config, None, 0, true);
    anew.Some? && SameParts(live, anew.value)
  }

  /** Reuse never shows: building on a current snapshot gives what building from nothing gives. */
  lemma BuildIsCurrent<P>(c: Compiler<P>, config: Config, previous: Option<LivePolicies<P>>, ids: nat, tlsRoots: bool)
    requires previous.Some? ==> Current(c, previous.value)
    requires BuildFrom(c, config, previous, ids, tlsRoots).Some?
    ensures Current(c, BuildFrom(c, config, previous, ids, tlsRoots).value)
  {
    if previous.Some? && UpstreamConfigEq(previous.value.config, config) {
      var earlier := previous.value.config;
      assert UpstreamOf(earlier, FromConfig(earlier.target)) == UpstreamOf(config, FromConfig(config.target));
    }
  }

  /** A server as it starts: its configuration is valid and its first snapshot is built from nothing. */
  ghost predicate Started<P>(c: Compiler<P>, s: Server<P>) {
    Validated(c, s.startup) && BuildFrom(c, s.startup, None, 0, true) == Some(s.live) && s.ids == 3
  }

  lemma CurrentParts<P>(c: Compiler<P>, live: LivePolicies<P>)
    requires Current(c, live)
    ensures PartsFromConfig(c, live)
  {
  }

  /** An accepted candidate is current, valid, and leaves the immutable fields alone. */
  lemma CandidateIsCurrent<P>(c: Compiler<P>, s: Server<P>, a: Attempt)
    requires Current(c, s.live) && Candidate(c, s, a).Some?
    ensures var next := Candidate(c, s, a).value;
            && Current(c, next) && Validated(c, next.config)
            && FrozenOf(next.config) == FrozenOf(s.startup)
  {
    BuildIsCurrent(c, a.config.value, Some(s.live), s.ids, a.tlsRoots);
    ImmutableIsFrozen(a.config.value, s.startup);
  }

  /**
   After any sequence of accepted and rejected reloads the live snapshot equals, identities
   apart, a fresh build of its configuration, which is a valid one; its client's hop policy is
   its own target policy; and every immutable field still has its startup value.
   */
  lemma {:induction false} LiveIsCurrent<P>(c: Compiler<P>, s: Server<P>, attempts: seq<Attempt>)
    requires Started(c, s)
    ensures var t := After(c, s, attempts);
            && Current(c, t.live) && PartsFromConfig(c, t.live)
            && Validated(c, t.live.config)
            && FrozenOf(t.live.config) == FrozenOf(s.startup)
            && t.startup == s.startup
  {
    if attempts == [] {
      BuildIsCurrent(c, s.startup, None, 0, true);
    } else {
      var front, a := attempts[..|attempts| - 1], attempts[|attempts| - 1];
      LiveIsCurrent(c, s, front);
      var before := After(c, s, front);
      if Candidate(c, before, a).Some? {
        CandidateIsCurrent(c, before, a);
      }
    }
    CurrentParts(c, After(c, s, attempts).live);
  }

  // --------------------------------------------------------- what is retained

  datatype Kept = KeptLimiter | KeptCircuit | KeptUpstream

  function IdOf<P>(live: LivePolicies<P>, k: Kept): nat {
    match k
    case KeptLimiter => live.limiter.id
    case KeptCircuit => live.circuit.id
    case KeptUpstream => live.upstream.id
  }

  predicate SameSection(k: Kept, a: Config, b: Config) {
    match k
    case KeptLimiter => a.rateLimit == b.rateLimit
    case KeptCircuit => a.circuit == b.circuit
    case KeptUpstream => UpstreamConfigEq(a, b)
  }

  /** Every reload accepted along `attempts` kept the section as it is in `s`. */
  predicate SectionHeld<P>(c: Compiler<P>, s: Server<P>, attempts: seq<Attempt>, k: Kept) {
    attempts == [] ||
    var front, a := attempts[..|attempts| - 1], attempts[|attempts| - 1];
    && SectionHeld(c, s, front, k)
    && (Candidate(c, After(c, s, front), a).Some? ==> SameSection(k, a.config.value, s.live.config))
  }

  lemma BuildIdentity<P>(c: Compiler<P>, config: Config, live: LivePolicies<P>, ids: nat, tlsRoots: bool, k: Kept)
    requires BuildFrom(c, config, Some(live), ids, tlsRoots).Some?
    ensures var next := BuildFrom(c, config, Some(live), ids, tlsRoots).value;
            && next.config == config
            && if SameSection(k, live.config, config) then IdOf(next, k) == IdOf(live, k)
               else ids <= IdOf(next, k) < ids + 3
  {
  }

  /**
   Between two points of a server's life an object keeps its identity if and only if its
   section was equal at every reload accepted in between; a section changed and changed back
   does not bring the object back.
   */
  lemma {:induction false} RetainedExactly<P>(c: Compiler<P>, s: Server<P>, attempts: seq<Attempt>, k: Kept)
    requires IdOf(s.live, k) < s.ids
    ensures var t := After(c, s, attempts);
            && IdOf(t.live, k) < t.ids && s.ids <= t.ids
            && (IdOf(t.live, k) == IdOf(s.live, k) <==> SectionHeld(c, s, attempts, k))
            && (SectionHeld(c, s, attempts, k) ==> SameSection(k, t.live.config, s.live.config))
            && (!SectionHeld(c, s, attempts, k) ==> s.ids <= IdOf(t.live, k))
  {
    if attempts == [] {
    } else {
      var front, a := attempts[..|attempts| - 1], attempts[|attempts| - 1];
      RetainedExactly(c, s, front, k);
      var before := After(c, s, front);
      if Candidate(c, before, a).Some? {
        BuildIdentity(c, a.config.value, before.live, before.ids, a.tlsRoots, k);
      }
    }
  }
}
