/**
 One request's way through the handler. The live snapshot is loaded three times, to admit the
 target, to send the request and to shape the response, and reloads may come in between.
 */
module Handler {
  import opened Wrappers
  import opened Text
  import opened Target
  import opened Reload
  import opened RedirectChain
  import Redirect
  import Exchange

  /** How many reload attempts come before each load of one request. */
  datatype Loads = Loads(admit: nat, send: nat, shape: nat)

  predicate Ordered(l: Loads, n: nat) {
    l.admit <= l.send <= l.shape <= n
  }

  function At<P>(c: Compiler<P>, s: Server<P>, attempts: seq<Attempt>, n: nat): Server<P>
    requires n <= |attempts|
  {
    Reload.After(c, s, attempts[..n])
  }

  /** Objects are numbered as snapshots are installed, so the next number tells snapshots apart. */
  function SnapshotId<P>(s: Server<P>): nat {
    s.ids
  }

  /** The client a request executes with, once it has loaded a snapshot. */
  function ClientOf<P>(live: LivePolicies<P>, resolve: Redirect.Resolver): Exchange.Client {
    var u := live.upstream.value;
    Exchange.Client(u.target, u.client.maxRedirects, u.client.allowDowngrade, u.client.redirects, resolve)
  }

  datatype Handled<P> =
    | Refused(reason: Rejection)
    | Pending
    | Broken(fault: Exchange.Fault)
    | Shaped(status: nat, location: Redirect.Location, filter: P, rewriting: bool)

  /** The request as answered with the three snapshots it loaded. */
  function HandledBy<P>(admit: LivePolicies<P>, send: LivePolicies<P>, shape: LivePolicies<P>,
                        resolve: Redirect.Resolver, t: TargetUrl, outbound: Redirect.Request,
                        inputs: seq<Exchange.Input>): Handled<P>
  {
    var verdict := CheckAuthority(admit.target, t.scheme, t.host);
    if verdict.Err? then Refused(verdict.error)
    else
      match Exchange.Played(ClientOf(send, resolve), outbound, inputs).phase
      case Launching => Pending
      case InFlight => Pending
      case Done(Failed(fault)) => Broken(fault)
      case Done(Answered(status, location)) =>
        Shaped(status, location, shape.responseFilter, send.config.limits.redirects == Exchange.Rewrite)
  }

  /**
   What the client gets: the admitting snapshot's refusal, the fault that ended the request, or
   the upstream's reply to the last hop sent, with its own status and Location.
   */
  lemma HandledExactly<P>(admit: LivePolicies<P>, send: LivePolicies<P>, shape: LivePolicies<P>,
                          resolve: Redirect.Resolver, t: TargetUrl, outbound: Redirect.Request,
                          inputs: seq<Exchange.Input>, upstream: (nat, Redirect.Request) -> Exchange.Reply)
    requires send.upstream.value.client.maxRedirects <= Exchange.U8_MAX
    requires Exchange.Heard(upstream, ClientOf(send, resolve), outbound, inputs)
    ensures var m := Exchange.Played(ClientOf(send, resolve), outbound, inputs);
            var verdict := CheckAuthority(admit.target, t.scheme, t.host);
            match HandledBy(admit, send, shape, resolve, t, outbound, inputs)
            case Refused(reason) => verdict == Err(reason)
            case Pending => verdict.Ok? && !m.phase.Done?
            case Broken(fault) => verdict.Ok? && m.phase == Exchange.Done(Exchange.Failed(fault))
            case Shaped(status, location, filter, rewriting) =>
              && verdict.Ok? && m.sent != []
              && upstream(|m.sent| - 1, m.sent[|m.sent| - 1]) == Exchange.Response(status, location)
              && filter == shape.responseFilter
              && (rewriting <==> send.config.limits.redirects == Exchange.Rewrite)
  {
    Exchange.RepliesLead(upstream, ClientOf(send, resolve), outbound, inputs);
  }

  // --------------------------------------------------- one snapshot, or more

  /** The attempts from the `i`-th up to the `j`-th are all rejected. */
  predicate Quiet<P>(c: Compiler<P>, s: Server<P>, attempts: seq<Attempt>, i: nat, j: nat)
    requires i <= j <= |attempts|
  {
    NoneAccepted(c, At(c, s, attempts, i), attempts[i..j])
  }

  /** Between two points the installed snapshot is the same one exactly when none was accepted. */
  lemma SameSnapshotExactly<P>(c: Compiler<P>, s: Server<P>, attempts: seq<Attempt>, i: nat, j: nat)
    requires i <= j <= |attempts|
    ensures var a, b := At(c, s, attempts, i), At(c, s, attempts, j);
            && SnapshotId(a) <= SnapshotId(b)
            && (SnapshotId(a) == SnapshotId(b) <==> Quiet(c, s, attempts, i, j))
            && (SnapshotId(a) == SnapshotId(b) ==> a == b)
  {
    assert attempts[..j] == attempts[..i] + attempts[i..j];
    AfterConcat(c, s, attempts[..i], attempts[i..j]);
    SameServerExactly(c, At(c, s, attempts, i), attempts[i..j]);
  }

  /**
   A request sees one snapshot throughout if and only if no reload is accepted between its
   first load and its last; then it is answered as if it had loaded a single snapshot.
   */
  lemma OneSnapshotExactly<P>(c: Compiler<P>, s: Server<P>, attempts: seq<Attempt>, l: Loads,
                              resolve: Redirect.Resolver, t: TargetUrl, outbound: Redirect.Request,
                              inputs: seq<Exchange.Input>)
    requires Ordered(l, |attempts|)
    ensures var a, b, d := At(c, s, attempts, l.admit), At(c, s, attempts, l.send), At(c, s, attempts, l.shape);
            && (SnapshotId(a) == SnapshotId(b) == SnapshotId(d) <==> Quiet(c, s, attempts, l.admit, l.shape))
            && (Quiet(c, s, attempts, l.admit, l.shape) ==>
                  HandledBy(a.live, b.live, d.live, resolve, t, outbound, inputs)
                  == HandledBy(a.live, a.live, a.live, resolve, t, outbound, inputs))
  {
    SameSnapshotExactly(c, s, attempts, l.admit, l.send);
    SameSnapshotExactly(c, s, attempts, l.send, l.shape);
    SameSnapshotExactly(c, s, attempts, l.admit, l.shape);
  }

  // ------------------------------------------- admitted at the door and sent

  /** The parts of a snapshot a request is handled by come from that snapshot's own sections. */
  lemma AtIsCurrent<P>(c: Compiler<P>, s: Server<P>, attempts: seq<Attempt>, n: nat)
    requires Started(c, s) && n <= |attempts|
    ensures var live := At(c, s, attempts, n).live;
            && live.target == live.upstream.value.target == FromConfig(live.config.target)
            && live.upstream.value.client.maxRedirects == live.config.limits.maxRedirects
            && live.upstream.value.client.allowDowngrade == live.config.limits.allowDowngrade
            && live.upstream.value.client.redirects == live.config.limits.redirects
            && c.filter(live.config.security.removeResponse) == Some(live.responseFilter)
  {
    LiveIsCurrent(c, s, attempts[..n]);
  }

  /** With an unchanged target section two snapshots give every hop the same verdict. */
  lemma SameTargetSameVerdict<P>(c: Compiler<P>, s: Server<P>, attempts: seq<Attempt>, l: Loads, uri: Uri)
    requires Started(c, s) && Ordered(l, |attempts|)
    requires At(c, s, attempts, l.admit).live.config.target == At(c, s, attempts, l.send).live.config.target
    ensures CheckUri(At(c, s, attempts, l.admit).live.target, uri)
            == CheckUri(At(c, s, attempts, l.send).live.upstream.value.target, uri)
  {
    AtIsCurrent(c, s, attempts, l.admit);
    AtIsCurrent(c, s, attempts, l.send);
  }

  /**
   So a target admitted at the door is admitted again as the first hop, provided the URI
   library reads back the host the target was built with, ignoring ASCII case.
   */
  lemma AdmittedIsSent<P>(c: Compiler<P>, s: Server<P>, attempts: seq<Attempt>, l: Loads, resolve: Redirect.Resolver,
                          parser: UriParser, t: TargetUrl)
    requires Started(c, s) && Ordered(l, |attempts|) && ToUri(parser, t).Ok?
    requires EqIgnoreCase(parser.hostOf(AuthorityOf(t)), t.host)
    requires At(c, s, attempts, l.admit).live.config.target == At(c, s, attempts, l.send).live.config.target
    ensures CheckAuthority(At(c, s, attempts, l.admit).live.target, t.scheme, t.host)
            == CheckUri(ClientOf(At(c, s, attempts, l.send).live, resolve).policy, ToUri(parser, t).value)
  {
    var uri, policy := ToUri(parser, t).value, At(c, s, attempts, l.admit).live.target;
    SameTargetSameVerdict(c, s, attempts, l, uri);
    VerdictIgnoresCase(policy, t.scheme, t.host, t.scheme, uri.authority.value.host);
  }

  /** Two triples of loaded configurations agree in the sections a request is answered by. */
  predicate AnsweredAlike(admit1: Config, send1: Config, shape1: Config,
                          admit2: Config, send2: Config, shape2: Config)
  {
    && admit1.target == admit2.target && send1.target == send2.target
    && send1.limits.maxRedirects == send2.limits.maxRedirects
    && send1.limits.allowDowngrade == send2.limits.allowDowngrade
    && send1.limits.redirects == send2.limits.redirects
    && shape1.security.removeResponse == shape2.security.removeResponse
  }

  /**
   The answer depends on nothing else: wherever a request's loads fall, it is answered as with
   any other loads that read the same target, redirect limits and response filter there. So
   reloads in between that leave these sections alone are never noticed.
   */
  lemma SameSectionsSameAnswer<P>(c: Compiler<P>, s: Server<P>, attempts: seq<Attempt>, l: Loads, k: Loads,
                                  resolve: Redirect.Resolver, t: TargetUrl, outbound: Redirect.Request,
                                  inputs: seq<Exchange.Input>)
    requires Started(c, s) && Ordered(l, |attempts|) && Ordered(k, |attempts|)
    requires AnsweredAlike(At(c, s, attempts, l.admit).live.config, At(c, s, attempts, l.send).live.config,
                           At(c, s, attempts, l.shape).live.config, At(c, s, attempts, k.admit).live.config,
                           At(c, s, attempts, k.send).live.config, At(c, s, attempts, k.shape).live.config)
    ensures HandledBy(At(c, s, attempts, l.admit).live, At(c, s, attempts, l.send).live,
                      At(c, s, attempts, l.shape).live, resolve, t, outbound, inputs)
            == HandledBy(At(c, s, attempts, k.admit).live, At(c, s, attempts, k.send).live,
                         At(c, s, attempts, k.shape).live, resolve, t, outbound, inputs)
  {
    AtIsCurrent(c, s, attempts, l.admit);
    AtIsCurrent(c, s, attempts, k.admit);
    AtIsCurrent(c, s, attempts, l.send);
    AtIsCurrent(c, s, attempts, k.send);
    AtIsCurrent(c, s, attempts, l.shape);
    AtIsCurrent(c, s, attempts, k.shape);
  }

  /** The target section can be replaced by any other that loads, at any time. */
  lemma AnyTargetAccepted<P>(c: Compiler<P>, s: Server<P>, attempts: seq<Attempt>, target: TargetConfig)
    returns (a: Attempt)
    requires Started(c, s) && TargetLoads(target)
    ensures var next := Candidate(c, Reload.After(c, s, attempts), a);
            next.Some? && next.value.config == Reload.After(c, s, attempts).live.config.(target := target)
  {
    LiveIsCurrent(c, s, attempts);
    var live := Reload.After(c, s, attempts).live;
    a := Attempt(Some(live.config.(target := target)), true);
    ImmutableIsFrozen(a.config.value, s.startup);
  }

  lemma AtAppended<P>(c: Compiler<P>, s: Server<P>, attempts: seq<Attempt>, a: Attempt)
    requires Candidate(c, Reload.After(c, s, attempts), a).Some?
    ensures var n := |attempts|;
            && At(c, s, attempts + [a], n) == At(c, s, attempts, n) == Reload.After(c, s, attempts)
            && Some(At(c, s, attempts + [a], n + 1).live) == Candidate(c, Reload.After(c, s, attempts), a)
  {
    Slices(attempts, a);
    AfterSnoc(c, s, attempts, a);
  }

  lemma Slices(attempts: seq<Attempt>, a: Attempt)
    ensures var n := |attempts|;
            && attempts[..n] == attempts && (attempts + [a])[..n] == attempts
            && (attempts + [a])[..n + 1] == attempts + [a]
  {
  }

  /** A valid target section that admits any public host, but only on the other scheme. */
  function OtherSchemeOnly(scheme: string): TargetConfig {
    TargetConfig(AnyPublic, [], [if Lower(scheme) == "https" then "http" else "https"], false)
  }

  lemma OtherSchemeLoads(scheme: string)
    ensures TargetLoads(OtherSchemeOnly(scheme))
    ensures var p := FromConfig(OtherSchemeOnly(scheme));
            !p.httpsOnly && p.schemes == OtherSchemeOnly(scheme).schemes
  {
    assert Lower(Trim("http")) == "http" && Lower(Trim("https")) == "https";
  }

  lemma OtherSchemeRefuses(p: TargetPolicy, scheme: string, uri: Uri)
    requires !p.httpsOnly && p.schemes == OtherSchemeOnly(scheme).schemes
    requires uri.scheme == Some(scheme) && uri.authority.Some?
    ensures CheckUri(p, uri) == Err(TargetNotAllowed)
  {
  }

  lemma RefusedAtOnce(client: Exchange.Client, outbound: Redirect.Request, reason: Rejection)
    requires CheckUri(client.policy, outbound.uri) == Err(reason)
    ensures var m := Exchange.Played(client, outbound, [] + [Exchange.Verdict(true)]);
            m.phase == Exchange.Done(Exchange.Failed(Exchange.Refused(reason))) && m.sent == []
  {
    Exchange.PlayedSnoc(client, outbound, [], Exchange.Verdict(true));
  }

  lemma NothingIsSent<P>(admit: LivePolicies<P>, send: LivePolicies<P>, resolve: Redirect.Resolver, t: TargetUrl,
                         outbound: Redirect.Request)
    requires CheckAuthority(admit.target, t.scheme, t.host).Ok?
    requires CheckUri(send.upstream.value.target, outbound.uri) == Err(TargetNotAllowed)
    ensures HandledBy(admit, send, send, resolve, t, outbound, [] + [Exchange.Verdict(true)])
            == Broken(Exchange.Refused(TargetNotAllowed))
    ensures Exchange.Played(ClientOf(send, resolve), outbound, [] + [Exchange.Verdict(true)]).sent == []
  {
    RefusedAtOnce(ClientOf(send, resolve), outbound, TargetNotAllowed);
  }

  /**
   Otherwise not: whatever a running server admits, a valid reload that changes nothing but
   the target section can be accepted before the send, and the request is then refused before
   anything is sent.
   */
  lemma ReloadRefusesAdmitted<P>(c: Compiler<P>, s: Server<P>, attempts: seq<Attempt>, resolve: Redirect.Resolver,
                                 parser: UriParser, t: TargetUrl, outbound: Redirect.Request)
    returns (a: Attempt)
    requires Started(c, s) && ToUri(parser, t).Ok? && outbound.uri == ToUri(parser, t).value
    requires CheckAuthority(At(c, s, attempts, |attempts|).live.target, t.scheme, t.host).Ok?
    ensures var n := |attempts|;
            var before, after := At(c, s, attempts + [a], n).live, At(c, s, attempts + [a], n + 1).live;
            && before == At(c, s, attempts, n).live
            && after.config == before.config.(target := OtherSchemeOnly(t.scheme)) && TargetLoads(after.config.target)
            && Candidate(c, At(c, s, attempts, n), a) == Some(after)
            && CheckAuthority(before.target, t.scheme, t.host).Ok?
            && HandledBy(before, after, after, resolve, t, outbound, [Exchange.Verdict(true)])
               == Broken(Exchange.Refused(TargetNotAllowed))
            && Exchange.Played(ClientOf(after, resolve), outbound, [Exchange.Verdict(true)]).sent == []
  {
    var n := |attempts|;
    OtherSchemeLoads(t.scheme);
    a := AnyTargetAccepted(c, s, attempts, OtherSchemeOnly(t.scheme));
    AtAppended(c, s, attempts, a);
    AtIsCurrent(c, s, attempts + [a], n + 1);
    var before, after := At(c, s, attempts + [a], n).live, At(c, s, attempts + [a], n + 1).live;
    OtherSchemeRefuses(after.upstream.value.target, t.scheme, outbound.uri);
    NothingIsSent(before, after, resolve, t, outbound);
    assert [] + [Exchange.Verdict(true)] == [Exchange.Verdict(true)];
  }

  /**
   A request that straddles reloads, wherever its loads fall: it was admitted by the snapshot
   of its first load, every hop it sends is admitted by the snapshot of its second, under that
   snapshot's own redirect settings, and no later reload changes what it sends.
   */
  lemma StraddlingRequest<P>(c: Compiler<P>, s: Server<P>, attempts: seq<Attempt>, l: Loads, resolve: Redirect.Resolver,
                             t: TargetUrl, outbound: Redirect.Request, inputs: seq<Exchange.Input>, i: nat)
    requires Started(c, s) && Ordered(l, |attempts|)
    requires At(c, s, attempts, l.send).live.config.limits.maxRedirects <= Exchange.U8_MAX
    requires i < |Exchange.Played(ClientOf(At(c, s, attempts, l.send).live, resolve), outbound, inputs).sent|
    ensures var admit, send := At(c, s, attempts, l.admit).live, At(c, s, attempts, l.send).live;
            var shape := At(c, s, attempts, l.shape).live;
            var m := Exchange.Played(ClientOf(send, resolve), outbound, inputs);
            && CheckUri(FromConfig(send.config.target), m.sent[i].uri).Ok?
            && (admit.config.target == send.config.target ==> CheckUri(admit.target, m.sent[i].uri).Ok?)
            && |m.sent| <= send.config.limits.maxRedirects + 1
            && (send.config.limits.redirects != Exchange.Follow ==> |m.sent| == 1)
            && (!send.config.limits.allowDowngrade && m.sent[0].uri.scheme == Some("https") ==>
                  m.sent[i].uri.scheme == Some("https"))
            && match HandledBy(admit, send, shape, resolve, t, outbound, inputs)
               case Refused(_) => CheckAuthority(FromConfig(admit.config.target), t.scheme, t.host).Err?
               case Shaped(_, _, filter, rewriting) =>
                 && c.filter(shape.config.security.removeResponse) == Some(filter)
                 && rewriting == (send.config.limits.redirects == Exchange.Rewrite)
               case _ => true
  {
    AtIsCurrent(c, s, attempts, l.admit);
    AtIsCurrent(c, s, attempts, l.send);
    AtIsCurrent(c, s, attempts, l.shape);
    SentBySnapshot(At(c, s, attempts, l.send).live, resolve, outbound, inputs, i);
  }

  lemma SentBySnapshot<P>(send: LivePolicies<P>, resolve: Redirect.Resolver, outbound: Redirect.Request,
                          inputs: seq<Exchange.Input>, i: nat)
    requires ClientOf(send, resolve).maxRedirects <= Exchange.U8_MAX
    requires i < |Exchange.Played(ClientOf(send, resolve), outbound, inputs).sent|
    ensures var client := ClientOf(send, resolve);
            var m := Exchange.Played(client, outbound, inputs);
            && CheckUri(client.policy, m.sent[i].uri).Ok?
            && |m.sent| <= client.maxRedirects + 1
            && (client.redirects != Exchange.Follow ==> |m.sent| == 1)
            && (!client.allowDowngrade && m.sent[0].uri.scheme == Some("https") ==>
                  m.sent[i].uri.scheme == Some("https"))
  {
    var client := ClientOf(send, resolve);
    var m := Exchange.Played(client, outbound, inputs);
    Exchange.EveryPlayIsGood(client, outbound, inputs);
    Exchange.SendBound(m, outbound);
    if !client.allowDowngrade && m.sent[0].uri.scheme == Some("https") {
      var trail := Exchange.Trail(m);
      assert trail[0] == m.sent[0] && trail[i] == m.sent[i];
      HttpsSticks(resolve, trail, 0, i);
    }
  }
}
