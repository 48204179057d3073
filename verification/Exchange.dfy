/**
 The request loop: each hop is admitted by the target policy and the breaker, sent, and
 settled exactly once. The upstream, the Location resolver and the clock are arbitrary.
 */
module Exchange {
  import opened Wrappers
  import opened Target
  import opened Redirect
  import opened RedirectChain
  import opened Circuit
  import opened Breaker

  const U8_MAX: nat := 255

  datatype RedirectPolicy = Follow | Block | Rewrite

  datatype Client = Client(
    policy: TargetPolicy,
    maxRedirects: nat,
    allowDowngrade: bool,
    redirects: RedirectPolicy,
    resolve: Resolver)

  datatype Fault =
    | Refused(reason: Rejection)
    | CircuitOpen
    | Transport
    | RedirectBlocked
    | TooManyRedirects
    | BadRedirect(reason: Rejection)
    | Cancelled

  /** What the await yields; `Dropped` is the request being cancelled there. */
  datatype Reply = TransportError | Response(status: nat, location: Location) | Dropped

  datatype Outcome = Answered(status: nat, location: Location) | Failed(fault: Fault)

  datatype Phase = Launching | InFlight | Done(outcome: Outcome)

  /** One request being executed; `sent` lists everything sent upstream for it. */
  datatype Machine = Machine(client: Client, next: Request, hops: nat, phase: Phase, sent: seq<Request>)

  function Begin(client: Client, r: Request): Machine {
    Machine(client, r, 0, Launching, [])
  }

  function HostOf(u: Uri): Host {
    if u.authority.Some? then u.authority.value.host else "unknown"
  }

  function SaturatingU8(n: nat): (r: nat)
    ensures r <= 255 && (n <= 255 ==> r == n)
  {
    Min(n, U8_MAX)
  }

  /** The head of the loop, given the breaker's verdict. */
  function Launched(m: Machine, verdict: bool): Machine {
    var admission := CheckUri(m.client.policy, m.next.uri);
    if admission.Err? then m.(phase := Done(Failed(Refused(admission.error))))
    else if !verdict then m.(phase := Done(Failed(CircuitOpen)))
    else m.(phase := InFlight, sent := m.sent + [m.next])
  }

  /** How the hop in flight is settled on the breaker. */
  function Settlement(m: Machine, reply: Reply, count5xx: bool): Op {
    match reply
    case TransportError => Op.Failure
    case Dropped => Op.Failure
    case Response(status, _) =>
      if !IsRedirect(status) then
        if count5xx && 500 <= status < 600 then Op.Failure else Op.Success
      else if m.client.redirects == Follow && m.hops >= m.client.maxRedirects then Op.Failure
      else Op.Success
  }

  /** The rest of the loop, given what the await yields. */
  function Delivered(m: Machine, reply: Reply): Machine {
    match reply
    case TransportError => m.(phase := Done(Failed(Transport)))
    case Dropped => m.(phase := Done(Failed(Cancelled)))
    case Response(status, location) =>
      if !IsRedirect(status) then m.(phase := Done(Answered(status, location)))
      else
        match m.client.redirects
        case Block => m.(phase := Done(Failed(RedirectBlocked)))
        case Rewrite => m.(phase := Done(Answered(status, location)))
        case Follow =>
          if m.hops >= m.client.maxRedirects then m.(phase := Done(Failed(TooManyRedirects)))
          else
            match Prepared(m.next, status, location, m.client.allowDowngrade, m.client.resolve)
            case Err(reason) => m.(phase := Done(Failed(BadRedirect(reason))))
            case Ok(Stop) => m.(phase := Done(Answered(status, location)))
            case Ok(Continue(r)) => m.(next := r, hops := SaturatingU8(m.hops + 1), phase := Launching)
  }

  // --------------------------------------------------- how a request ends

  /** The head of the loop: the policy's refusal comes before the breaker's, and only then is sent. */
  lemma LaunchedExactly(m: Machine, verdict: bool)
    ensures var t, policy := Launched(m, verdict), CheckUri(m.client.policy, m.next.uri);
            && (policy.Err? ==> t == m.(phase := Done(Failed(Refused(policy.error)))))
            && (policy.Ok? && !verdict ==> t == m.(phase := Done(Failed(CircuitOpen))))
            && (policy.Ok? && verdict ==> t.phase == InFlight && t.sent == m.sent + [m.next])
  {
  }

  /** The reply is a redirect that this request follows, with budget left. */
  predicate Follows(m: Machine, reply: Reply) {
    && reply.Response? && (301 <= reply.status <= 303 || 307 <= reply.status <= 308)
    && m.client.redirects == Follow && m.hops < m.client.maxRedirects
  }

  /** The request may go to a URI that the reply's Location names. */
  ghost predicate Reaches(m: Machine, reply: Reply, u: Uri) {
    && reply.Response? && Names(m.client.resolve, m.next.uri, reply.location, u)
    && MayGo(m.next.uri, u, m.client.allowDowngrade)
  }

  /** What ends a request after its await, and what makes it go on, reply by reply. */
  lemma DeliveredExactly(m: Machine, reply: Reply)
    ensures var phase := Delivered(m, reply).phase;
            && (phase == Done(Failed(Transport)) <==> reply == TransportError)
            && (phase == Done(Failed(Cancelled)) <==> reply == Dropped)
            && (phase == Done(Failed(RedirectBlocked)) <==>
                  reply.Response? && IsRedirect(reply.status) && m.client.redirects == Block)
            && (phase == Done(Failed(TooManyRedirects)) <==>
                  && reply.Response? && IsRedirect(reply.status)
                  && m.client.redirects == Follow && m.client.maxRedirects <= m.hops)
            && (phase.Launching? <==>
                  Follows(m, reply) && !NeedsReplay(m.next.verb, reply.status) && exists u :: Reaches(m, reply, u))
            && (phase.Launching? ==>
                  && Reaches(m, reply, Delivered(m, reply).next.uri)
                  && Delivered(m, reply).hops == SaturatingU8(m.hops + 1))
            && phase != InFlight
  {
    if reply.Response? {
      RedirectStatuses(reply.status);
      if Follows(m, reply) {
        ContinuesExactly(m.next, reply.status, reply.location, m.client.allowDowngrade, m.client.resolve);
        if u :| Names(m.client.resolve, m.next.uri, reply.location, u)
                && MayGo(m.next.uri, u, m.client.allowDowngrade) {
          assert Reaches(m, reply, u);
        }
      }
    }
  }

  /**
   The client gets the upstream's response, unchanged, exactly when it is no redirect, when
   redirects are rewritten, or when one in budget has no readable Location or needs a replay.
   */
  lemma AnsweredExactly(m: Machine, reply: Reply, status: nat, location: Location)
    ensures Delivered(m, reply).phase == Done(Answered(status, location)) <==>
              && reply == Response(status, location)
              && (|| !IsRedirect(status)
                  || m.client.redirects == Rewrite
                  || (&& Follows(m, reply)
                      && (|| location == Absent || location == Unreadable
                          || ((exists u :: Reaches(m, reply, u)) && NeedsReplay(m.next.verb, status)))))
  {
    if reply.Response? {
      RedirectStatuses(reply.status);
      if Follows(m, reply) {
        StopsExactly(m.next, reply.status, reply.location, m.client.allowDowngrade, m.client.resolve);
        if u :| Names(m.client.resolve, m.next.uri, reply.location, u)
                && MayGo(m.next.uri, u, m.client.allowDowngrade) {
          assert Reaches(m, reply, u);
        }
        if u :| Reaches(m, reply, u) {
          assert Names(m.client.resolve, m.next.uri, reply.location, u);
        }
      }
    }
  }

  /** A followed redirect that leads nowhere fails for the resolver's reason, or as an invalid URL. */
  lemma BadRedirectExactly(m: Machine, reply: Reply, reason: Rejection)
    ensures Delivered(m, reply).phase == Done(Failed(BadRedirect(reason))) <==>
              && Follows(m, reply) && reply.location.Readable?
              && var target := m.client.resolve(m.next.uri, reply.location.text);
                 target == Err(reason)
                 || (reason == InvalidUrl && target.Ok? && !MayGo(m.next.uri, target.value, m.client.allowDowngrade))
  {
    if reply.Response? {
      RedirectStatuses(reply.status);
      FailsExactly(m.next, reply.status, reply.location, m.client.allowDowngrade, m.client.resolve, reason);
      if reply.location.Readable? && m.client.resolve(m.next.uri, reply.location.text).Ok? {
        assert Names(m.client.resolve, m.next.uri, reply.location,
                     m.client.resolve(m.next.uri, reply.location.text).value);
      }
    }
  }

  // ------------------------------------------- what every request keeps

  /** Everything sent, and what is about to be. */
  function Trail(m: Machine): seq<Request> {
    if m.phase.Launching? then m.sent + [m.next] else m.sent
  }

  /**
   The invariant of a request: a chain from its first request, each hop admitted by its own
   client's policy, at most one send more than the redirect budget.
   */
  ghost predicate Good(m: Machine, first: Request) {
    && m.client.maxRedirects <= U8_MAX
    && Chain(m.client.allowDowngrade, m.client.resolve, Trail(m))
    && (Trail(m) != [] ==> Trail(m)[0] == first)
    && (m.phase.InFlight? ==> m.sent != [] && m.sent[|m.sent| - 1] == m.next)
    && (forall i :: 0 <= i < |m.sent| ==> CheckUri(m.client.policy, m.sent[i].uri).Ok?)
    && m.hops <= m.client.maxRedirects
    && (m.phase.Launching? ==> |m.sent| == m.hops)
    && (m.phase.InFlight? ==> |m.sent| == m.hops + 1)
    && |m.sent| <= m.hops + 1
    && (m.hops > 0 ==> m.client.redirects == Follow)
  }

  lemma BeginIsGood(client: Client, r: Request)
    requires client.maxRedirects <= U8_MAX
    ensures Good(Begin(client, r), r)
  {
  }

  lemma LaunchKeepsGood(m: Machine, first: Request, verdict: bool)
    requires Good(m, first) && m.phase.Launching?
    ensures Good(Launched(m, verdict), first)
  {
    var t := Launched(m, verdict);
    if t.phase.Done? {
      forall i | 0 < i < |t.sent|
        ensures Linked(m.client.allowDowngrade, m.client.resolve, t.sent[i - 1], t.sent[i])
      {
        assert t.sent[i - 1] == Trail(m)[i - 1] && t.sent[i] == Trail(m)[i];
      }
    }
  }

  lemma DeliveryKeepsGood(m: Machine, first: Request, reply: Reply)
    requires Good(m, first) && m.phase.InFlight?
    ensures Good(Delivered(m, reply), first)
    ensures Delivered(m, reply).phase.Launching? ==> Delivered(m, reply).hops == m.hops + 1
  {
    DeliveredParts(m, reply);
    var t := Delivered(m, reply);
    if t.phase.Launching? {
      ChainSnoc(m.client.allowDowngrade, m.client.resolve, m.sent, t.next);
    }
  }

  /** A reply sends nothing; it leads to another request only by a redirect still in budget. */
  lemma DeliveredParts(m: Machine, reply: Reply)
    ensures var t := Delivered(m, reply);
            && t.client == m.client && t.sent == m.sent
            && (t.phase.Done? || t.phase.Launching?)
            && if t.phase.Launching? then
                 && m.client.redirects == Follow && m.hops < m.client.maxRedirects
                 && t.hops == SaturatingU8(m.hops + 1)
                 && Linked(m.client.allowDowngrade, m.client.resolve, m.next, t.next)
               else
                 t.hops == m.hops
  {
    var t := Delivered(m, reply);
    if t.phase.Launching? {
      assert IsRedirect(reply.status)
             && Prepared(m.next, reply.status, reply.location, m.client.allowDowngrade, m.client.resolve)
                == Ok(Continue(t.next));
    }
  }

  lemma ChainSnoc(allowDowngrade: bool, resolve: Resolver, trail: seq<Request>, next: Request)
    requires Chain(allowDowngrade, resolve, trail) && trail != []
    requires Linked(allowDowngrade, resolve, trail[|trail| - 1], next)
    ensures Chain(allowDowngrade, resolve, trail + [next])
  {
  }

  /**
   A hop counts against its host exactly when it was abandoned, failed in transport, ran out
   of redirect budget, or ended the request with a counted server error; a hop that leads to
   another request never does.
   */
  lemma FailuresByOutcome(m: Machine, reply: Reply, count5xx: bool)
    ensures Settlement(m, reply, count5xx) in {Op.Success, Op.Failure}
    ensures Settlement(m, reply, count5xx) == Op.Failure <==>
            match Delivered(m, reply).phase
            case Launching => false
            case InFlight => false
            case Done(Answered(status, _)) => count5xx && 500 <= status < 600
            case Done(Failed(fault)) => fault in {Transport, Cancelled, TooManyRedirects}
  {
  }

  /** What drives a request: the breaker's verdicts and what its awaits yield. */
  datatype Input = Verdict(admitted: bool) | Yielded(reply: Reply)

  function Fed(m: Machine, x: Input): Machine {
    if m.phase.Launching? && x.Verdict? then Launched(m, x.admitted)
    else if m.phase.InFlight? && x.Yielded? then Delivered(m, x.reply)
    else m
  }

  function Played(client: Client, r: Request, inputs: seq<Input>): Machine {
    if inputs == [] then Begin(client, r)
    else Fed(Played(client, r, inputs[..|inputs| - 1]), inputs[|inputs| - 1])
  }

  lemma PlayedSnoc(client: Client, r: Request, inputs: seq<Input>, x: Input)
    ensures Played(client, r, inputs + [x]) == Fed(Played(client, r, inputs), x)
  {
  }

  /** Every request keeps the invariant, whatever the upstream and the breaker do. */
  lemma {:induction false} EveryPlayIsGood(client: Client, r: Request, inputs: seq<Input>)
    requires client.maxRedirects <= U8_MAX
    ensures Good(Played(client, r, inputs), r) && Played(client, r, inputs).client == client
  {
    if inputs == [] {
      BeginIsGood(client, r);
    } else {
      var m, x := Played(client, r, inputs[..|inputs| - 1]), inputs[|inputs| - 1];
      EveryPlayIsGood(client, r, inputs[..|inputs| - 1]);
      if m.phase.Launching? && x.Verdict? {
        LaunchKeepsGood(m, r, x.admitted);
      } else if m.phase.InFlight? && x.Yielded? {
        DeliveryKeepsGood(m, r, x.reply);
      }
    }
  }

  /** At most `maxRedirects + 1` sends, and a single one unless redirects are followed. */
  lemma SendBound(m: Machine, first: Request)
    requires Good(m, first)
    ensures |m.sent| <= m.client.maxRedirects + 1
    ensures m.client.redirects != Follow ==> |m.sent| <= 1
  {
  }

  // ------------------------------------- what a request asks of the breaker

  /** A call on the breaker as the request sees it: only a check has an answer. */
  datatype Call = Call(op: Op, host: Host, admitted: bool)

  function CallsIn(evs: seq<Event>): seq<Call> {
    if evs == [] then []
    else CallsIn(Front(evs)) + [Call(Last(evs).op, Last(evs).host, Last(evs).op == Check && Last(evs).verdict)]
  }

  /** The call an input stands for: none when the policy refused the hop before the breaker. */
  function CallBy(m: Machine, x: Input, count5xx: bool): seq<Call> {
    if m.phase.Launching? && x.Verdict? && CheckUri(m.client.policy, m.next.uri).Ok? then
      [Call(Check, HostOf(m.next.uri), x.admitted)]
    else if m.phase.InFlight? && x.Yielded? then
      [Call(Settlement(m, x.reply, count5xx), HostOf(m.next.uri), false)]
    else []
  }

  function CallsOf(client: Client, r: Request, inputs: seq<Input>, count5xx: bool): seq<Call> {
    if inputs == [] then []
    else
      var before := inputs[..|inputs| - 1];
      CallsOf(client, r, before, count5xx) + CallBy(Played(client, r, before), inputs[|inputs| - 1], count5xx)
  }

  /** Every reply is the upstream's answer to the request in flight at that hop. */
  predicate Heard(upstream: (nat, Request) -> Reply, client: Client, r: Request, inputs: seq<Input>) {
    inputs == [] ||
    var before, x := inputs[..|inputs| - 1], inputs[|inputs| - 1];
    var m := Played(client, r, before);
    Heard(upstream, client, r, before) && (x.Yielded? ==> x.reply == upstream(m.hops, m.next))
  }

  /** The authority host of a URI that has one. */
  ghost predicate OnHost(u: Uri, host: Host) {
    u.authority.Some? && host == u.authority.value.host
  }

  /** Calls come in pairs, a check and a settlement of the same hop on its own host, in send order. */
  ghost predicate PairedCalls(calls: seq<Call>, sent: seq<Request>) {
    forall i :: 0 <= i < |sent| ==>
      && 2 * i < |calls|
      && calls[2 * i].op == Check && calls[2 * i].admitted && OnHost(sent[i].uri, calls[2 * i].host)
      && (2 * i + 1 < |calls| ==> calls[2 * i + 1].op != Check && OnHost(sent[i].uri, calls[2 * i + 1].host))
  }

  /** What is left over: nothing, the check of the hop in flight, or the check that was rejected. */
  ghost predicate OddCall(m: Machine, calls: seq<Call>) {
    if m.phase == Done(Failed(CircuitOpen)) then
      && |calls| == 2 * |m.sent| + 1
      && calls[2 * |m.sent|].op == Check && !calls[2 * |m.sent|].admitted
      && OnHost(m.next.uri, calls[2 * |m.sent|].host)
    else if m.phase.InFlight? then
      |m.sent| > 0 && m.sent[|m.sent| - 1] == m.next && |calls| == 2 * |m.sent| - 1
    else |calls| == 2 * |m.sent|
  }

  lemma CallsStep(m: Machine, calls: seq<Call>, x: Input, count5xx: bool)
    requires PairedCalls(calls, m.sent) && OddCall(m, calls)
    ensures var t := Fed(m, x);
            PairedCalls(calls + CallBy(m, x, count5xx), t.sent) && OddCall(t, calls + CallBy(m, x, count5xx))
  {
    if m.phase.InFlight? && x.Yielded? {
      SettleStep(m, calls, x.reply, count5xx);
    } else if m.phase.Launching? && x.Verdict? {
      CheckStep(m, calls, x.admitted, count5xx);
    } else {
      assert calls + [] == calls;
    }
  }

  lemma SettleStep(m: Machine, calls: seq<Call>, reply: Reply, count5xx: bool)
    requires PairedCalls(calls, m.sent) && OddCall(m, calls) && m.phase.InFlight?
    ensures var t, more := Delivered(m, reply), calls + CallBy(m, Yielded(reply), count5xx);
            PairedCalls(more, t.sent) && OddCall(t, more)
  {
    FailuresByOutcome(m, reply, count5xx);
    DeliveredParts(m, reply);
    DeliveredExactly(m, reply);
    SettledPair(calls, CallBy(m, Yielded(reply), count5xx)[0], m.sent);
  }

  lemma CheckStep(m: Machine, calls: seq<Call>, verdict: bool, count5xx: bool)
    requires PairedCalls(calls, m.sent) && OddCall(m, calls) && m.phase.Launching?
    ensures var t, more := Launched(m, verdict), calls + CallBy(m, Verdict(verdict), count5xx);
            PairedCalls(more, t.sent) && OddCall(t, more)
  {
    LaunchedExactly(m, verdict);
    if CheckUri(m.client.policy, m.next.uri).Err? {
      assert calls + [] == calls;
    }
  }

  lemma SettledPair(calls: seq<Call>, call: Call, sent: seq<Request>)
    requires PairedCalls(calls, sent) && |sent| > 0 && |calls| == 2 * |sent| - 1
    requires call.op != Check && OnHost(sent[|sent| - 1].uri, call.host)
    ensures PairedCalls(calls + [call], sent) && |calls + [call]| == 2 * |sent|
  {
  }

  /**
   Every call names the host of the hop it is about: the `i`-th admitted check and the `i`-th
   settlement that of the `i`-th request sent, a rejected check that of the request held back.
   */
  lemma {:induction false} CallsNameHosts(client: Client, r: Request, inputs: seq<Input>, count5xx: bool)
    ensures var m, calls := Played(client, r, inputs), CallsOf(client, r, inputs, count5xx);
            PairedCalls(calls, m.sent) && OddCall(m, calls)
  {
    if inputs == [] {
    } else {
      var front := inputs[..|inputs| - 1];
      CallsNameHosts(client, r, front, count5xx);
      CallsStep(Played(client, r, front), CallsOf(client, r, front, count5xx), inputs[|inputs| - 1], count5xx);
    }
  }

  /** Two admitted URIs share a breaker entry exactly when their authorities have the same host. */
  lemma BreakerPerHost(p: TargetPolicy, a: Uri, b: Uri)
    requires CheckUri(p, a).Ok? && CheckUri(p, b).Ok?
    ensures HostOf(a) == HostOf(b) <==> a.authority.value.host == b.authority.value.host
    ensures a.authority.Some? && HostOf(a.(authority := None)) == "unknown"
  {
  }

  /** The reply is a redirect whose Location leads from one request to the other. */
  ghost predicate LeadsTo(client: Client, a: Request, reply: Reply, b: Request) {
    && reply.Response? && (301 <= reply.status <= 303 || 307 <= reply.status <= 308)
    && Names(client.resolve, a.uri, reply.location, b.uri)
    && b.verb == if a.verb == POST || a.verb == PUT || a.verb == PATCH then GET else a.verb
  }

  /** The trail follows the upstream's replies, and an answer is the last of them. */
  ghost predicate Replied(upstream: (nat, Request) -> Reply, m: Machine) {
    && (forall k :: 0 < k < |Trail(m)| ==>
          LeadsTo(m.client, Trail(m)[k - 1], upstream(k - 1, Trail(m)[k - 1]), Trail(m)[k]))
    && (m.phase.Done? && m.phase.outcome.Answered? ==>
          && m.sent != []
          && upstream(|m.sent| - 1, m.sent[|m.sent| - 1])
             == Response(m.phase.outcome.status, m.phase.outcome.location))
  }

  lemma ReplyStep(upstream: (nat, Request) -> Reply, m: Machine, first: Request, x: Input)
    requires Good(m, first) && Replied(upstream, m)
    requires x.Yielded? ==> x.reply == upstream(m.hops, m.next)
    ensures Replied(upstream, Fed(m, x))
  {
    if m.phase.Launching? && x.Verdict? {
      LaunchReplied(upstream, m, x.admitted);
    } else if m.phase.InFlight? && x.Yielded? {
      DeliveryReplied(upstream, m, first, x.reply);
    }
  }

  lemma LaunchReplied(upstream: (nat, Request) -> Reply, m: Machine, verdict: bool)
    requires Replied(upstream, m) && m.phase.Launching?
    ensures Replied(upstream, Launched(m, verdict))
  {
    var t := Launched(m, verdict);
    LaunchedExactly(m, verdict);
    assert |Trail(t)| <= |Trail(m)| && Trail(t) == Trail(m)[..|Trail(t)|];
  }

  lemma DeliveryReplied(upstream: (nat, Request) -> Reply, m: Machine, first: Request, reply: Reply)
    requires Good(m, first) && Replied(upstream, m) && m.phase.InFlight? && reply == upstream(m.hops, m.next)
    ensures Replied(upstream, Delivered(m, reply))
  {
    var t := Delivered(m, reply);
    DeliveredParts(m, reply);
    if t.phase.Launching? {
      FollowedLeads(m, reply);
      assert Trail(t) == m.sent + [t.next];
    } else if t.phase.outcome.Answered? {
      AnsweredExactly(m, reply, t.phase.outcome.status, t.phase.outcome.location);
    }
  }

  lemma FollowedLeads(m: Machine, reply: Reply)
    requires Delivered(m, reply).phase.Launching?
    ensures LeadsTo(m.client, m.next, reply, Delivered(m, reply).next)
  {
    DeliveredExactly(m, reply);
    ContinuesExactly(m.next, reply.status, reply.location, m.client.allowDowngrade, m.client.resolve);
  }

  /**
   Whatever the upstream replies, each hop goes where the Location of its reply to the hop
   before leads, and the client is answered with its reply to the last hop sent.
   */
  lemma {:induction false} RepliesLead(upstream: (nat, Request) -> Reply, client: Client, r: Request,
                                       inputs: seq<Input>)
    requires client.maxRedirects <= U8_MAX && Heard(upstream, client, r, inputs)
    ensures Replied(upstream, Played(client, r, inputs))
  {
    if inputs == [] {
    } else {
      var front := inputs[..|inputs| - 1];
      RepliesLead(upstream, client, r, front);
      EveryPlayIsGood(client, r, front);
      ReplyStep(upstream, Played(client, r, front), r, inputs[|inputs| - 1]);
    }
  }

  /** The calls, at most one, were made between two histories. */
  predicate Made(before: seq<Event>, after: seq<Event>, calls: seq<Call>) {
    if calls == [] then after == before
    else
      && |calls| == 1 && Recorded(before, after, calls[0].op, calls[0].host)
      && calls[0].admitted == (calls[0].op == Check && Last(after).verdict)
  }

  /** What a request has done so far: its replies, its calls, and the hops it owes the breaker. */
  predicate Traced(upstream: (nat, Request) -> Reply, client: Client, r: Request, count5xx: bool,
                   inputs: seq<Input>, before: seq<Event>, after: seq<Event>)
  {
    var m := Played(client, r, inputs);
    && Heard(upstream, client, r, inputs)
    && CallsIn(after) == CallsIn(before) + CallsOf(client, r, inputs, count5xx)
    && Admissions(after) == Admissions(before) + |m.sent|
    && Settlements(after) + (if m.phase.InFlight? then 1 else 0) == Settlements(before) + |m.sent|
  }

  lemma MadeCounts(before: seq<Event>, after: seq<Event>, calls: seq<Call>)
    requires Made(before, after, calls)
    ensures CallsIn(after) == CallsIn(before) + calls
    ensures calls == [] ==> Admissions(after) == Admissions(before) && Settlements(after) == Settlements(before)
    ensures calls != [] ==>
              && Admissions(after) == Admissions(before) + (if calls[0].admitted then 1 else 0)
              && Settlements(after) == Settlements(before) + (if calls[0].op == Check then 0 else 1)
  {
    if calls != [] {
      assert calls == [calls[0]];
    }
  }

  /** A request sends when a check admits it, and holds its guard until the settlement. */
  lemma FedCounts(m: Machine, x: Input, count5xx: bool)
    ensures var calls, t := CallBy(m, x, count5xx), Fed(m, x);
            && |t.sent| == |m.sent| + (if calls != [] && calls[0].admitted then 1 else 0)
            && (if t.phase.InFlight? then 1 else 0) ==
               (if m.phase.InFlight? then 1 else 0) + (|t.sent| - |m.sent|)
               - (if calls != [] && calls[0].op != Check then 1 else 0)
  {
  }

  lemma InputsSnoc(upstream: (nat, Request) -> Reply, client: Client, r: Request, inputs: seq<Input>, x: Input,
                   count5xx: bool)
    ensures var m := Played(client, r, inputs);
            && Played(client, r, inputs + [x]) == Fed(m, x)
            && CallsOf(client, r, inputs + [x], count5xx)
               == CallsOf(client, r, inputs, count5xx) + CallBy(m, x, count5xx)
            && (Heard(upstream, client, r, inputs + [x]) <==>
                Heard(upstream, client, r, inputs) && (x.Yielded? ==> x.reply == upstream(m.hops, m.next)))
  {
    assert (inputs + [x])[..|inputs|] == inputs;
  }

  lemma TracedSnoc(upstream: (nat, Request) -> Reply, client: Client, r: Request, count5xx: bool,
                   inputs: seq<Input>, x: Input, before: seq<Event>, mid: seq<Event>, after: seq<Event>)
    requires Traced(upstream, client, r, count5xx, inputs, before, mid)
    requires var m := Played(client, r, inputs);
             && (x.Yielded? ==> x.reply == upstream(m.hops, m.next))
             && Made(mid, after, CallBy(m, x, count5xx))
    ensures Traced(upstream, client, r, count5xx, inputs + [x], before, after)
    ensures Played(client, r, inputs + [x]) == Fed(Played(client, r, inputs), x)
  {
    var m := Played(client, r, inputs);
    MadeCounts(mid, after, CallBy(m, x, count5xx));
    FedCounts(m, x, count5xx);
    InputsSnoc(upstream, client, r, inputs, x, count5xx);
  }

  // ----------------------------------------------------- the loop itself

  method SettleTerminal(hop: CircuitHop, status: nat, now: nat)
    requires !hop.settled && hop.circuit.Valid() && hop.circuit.Now() <= now
    modifies hop, hop.circuit
    ensures hop.settled && hop.circuit.Valid() && hop.circuit.Now() == now
    ensures Recorded(old(hop.circuit.history), hop.circuit.history,
                     if hop.circuit.settings.count5xx && 500 <= status < 600 then Op.Failure else Op.Success, hop.host)
  {
    if hop.circuit.settings.count5xx && 500 <= status < 600 {
      hop.Failure(now);
    } else {
      hop.Success(now);
    }
  }

  /**
   Runs one request to its end. It always ends, as a play of the machine above whose replies are
   the upstream's own; its calls on the breaker are exactly those of that play, in order, and it
   settles exactly the hops the breaker admitted, on every exit including cancellation.
   */
  method Execute(client: Client, request: Request, circuit: CircuitBreaker,
                 upstream: (nat, Request) -> Reply, start: nat, elapsed: nat -> nat)
    returns (outcome: Outcome, ghost inputs: seq<Input>)
    requires client.maxRedirects <= U8_MAX
    requires circuit.Valid() && circuit.Now() <= start
    modifies circuit
    ensures circuit.Valid()
    ensures Played(client, request, inputs).phase == Done(outcome)
    ensures Traced(upstream, client, request, circuit.settings.count5xx, inputs, old(circuit.history), circuit.history)
  {
    var state := new RedirectState.FromInitial(request);
    var hops: nat := 0;
    var next, now := request, start;
    inputs := [];
    ghost var h0 := circuit.history;
    while true
      invariant fresh(state) && circuit.Valid() && circuit.Now() <= now
      invariant Underway(client, request, inputs, next, hops) && next == state.Value()
      invariant Traced(upstream, client, request, circuit.settings.count5xx, inputs, h0, circuit.history)
      decreases client.maxRedirects - hops
    {
      ghost var more: seq<Input>;
      var turn;
      turn, more := OneHop(client, state, circuit, next, hops, upstream, now, elapsed(hops), request, inputs, h0);
      now := now + elapsed(hops);
      inputs := more;
      match turn {
        case Finish(end) =>
          return end, inputs;
        case Proceed(r) =>
          next := r;
          hops := SaturatingU8(hops + 1);
      }
    }
  }

  /** The request is about to send `next`, after following `hops` redirects. */
  ghost predicate Underway(client: Client, request: Request, inputs: seq<Input>, next: Request, hops: nat) {
    var m := Played(client, request, inputs);
    m.client == client && m.phase.Launching? && m.next == next && m.hops == hops <= client.maxRedirects
  }

  /** One turn of the loop: the hop is admitted, sent and settled, and the request ends or goes on. */
  method OneHop(client: Client, state: RedirectState, circuit: CircuitBreaker, next: Request, hops: nat,
                upstream: (nat, Request) -> Reply, now: nat, wait: nat,
                ghost request: Request, ghost inputs: seq<Input>, ghost h0: seq<Event>)
    returns (turn: Turn, ghost more: seq<Input>)
    requires client.maxRedirects <= U8_MAX && next == state.Value()
    requires circuit.Valid() && circuit.Now() <= now
    requires Underway(client, request, inputs, next, hops)
    requires Traced(upstream, client, request, circuit.settings.count5xx, inputs, h0, circuit.history)
    modifies state, circuit
    ensures circuit.Valid() && circuit.Now() <= now + wait
    ensures Traced(upstream, client, request, circuit.settings.count5xx, more, h0, circuit.history)
    ensures turn.Finish? ==> Played(client, request, more).phase == Done(turn.outcome)
    ensures turn.Proceed? ==>
              && hops < client.maxRedirects && state.Value() == turn.request
              && Underway(client, request, more, turn.request, SaturatingU8(hops + 1))
  {
    ghost var count5xx := circuit.settings.count5xx;
    var hop;
    hop, more := AdmitHop(client, circuit, next, hops, upstream, now, request, inputs, h0);
    if hop.Err? {
      return Finish(Failed(hop.error)), more;
    }
    ghost var m, h2 := Played(client, request, more), circuit.history;
    var reply := upstream(hops, next);
    turn := Answer(client, state, hop.value, hops, reply, now + wait, m);
    TracedSnoc(upstream, client, request, count5xx, more, Yielded(reply), h0, h2, circuit.history);
    more := more + [Yielded(reply)];
  }

  /** The head of a turn: the target policy, then the breaker. */
  method AdmitHop(client: Client, circuit: CircuitBreaker, next: Request, hops: nat,
                  ghost upstream: (nat, Request) -> Reply, now: nat,
                  ghost request: Request, ghost inputs: seq<Input>, ghost h0: seq<Event>)
    returns (hop: Result<CircuitHop, Fault>, ghost more: seq<Input>)
    requires circuit.Valid() && circuit.Now() <= now
    requires Underway(client, request, inputs, next, hops)
    requires Traced(upstream, client, request, circuit.settings.count5xx, inputs, h0, circuit.history)
    modifies circuit
    ensures circuit.Valid() && circuit.Now() <= now
    ensures Traced(upstream, client, request, circuit.settings.count5xx, more, h0, circuit.history)
    ensures Played(client, request, more) == Launched(Played(client, request, inputs), hop.Ok?)
    ensures hop.Ok? ==>
              && CheckUri(client.policy, next.uri).Ok?
              && fresh(hop.value) && !hop.value.settled
              && hop.value.circuit == circuit && hop.value.host == HostOf(next.uri)
    ensures hop.Err? ==> Played(client, request, more).phase == Done(Failed(hop.error))
  {
    ghost var count5xx, h1 := circuit.settings.count5xx, circuit.history;
    var admission := CheckUri(client.policy, next.uri);
    more := inputs + [Verdict(false)];
    if admission.Err? {
      TracedSnoc(upstream, client, request, count5xx, inputs, Verdict(false), h0, h1, h1);
      return Err(Refused(admission.error)), more;
    }
    var admitted := CircuitHop.Admit(circuit, HostOf(next.uri), now);
    TracedSnoc(upstream, client, request, count5xx, inputs, Verdict(admitted.Some?), h0, h1, circuit.history);
    more := inputs + [Verdict(admitted.Some?)];
    if admitted.None? {
      return Err(CircuitOpen), more;
    }
    return Ok(admitted.value), more;
  }

  datatype Turn = Finish(outcome: Outcome) | Proceed(request: Request)

  /** The part of the loop body after the await: settles the hop, then ends or goes on. */
  method Answer(client: Client, state: RedirectState, hop: CircuitHop, hops: nat, reply: Reply, now: nat,
                ghost m: Machine)
    returns (turn: Turn)
    requires m.client == client && m.hops == hops && m.next == state.Value()
    requires !hop.settled && hop.circuit.Valid() && hop.circuit.Now() <= now
    modifies state, hop, hop.circuit
    ensures hop.circuit.Valid() && hop.circuit.Now() == now
    ensures Recorded(old(hop.circuit.history), hop.circuit.history,
                     Settlement(m, reply, hop.circuit.settings.count5xx), hop.host)
    ensures Delivered(m, reply) == match turn
            case Finish(end) => m.(phase := Done(end))
            case Proceed(r) => m.(next := r, hops := SaturatingU8(hops + 1), phase := Launching)
    ensures turn.Proceed? ==> hops < client.maxRedirects && state.Value() == turn.request
  {
    match reply {
      case TransportError =>
        hop.Failure(now);
        return Finish(Failed(Transport));
      case Dropped =>
        hop.Drop(now);
        return Finish(Failed(Cancelled));
      case Response(status, location) =>
        if !IsRedirect(status) {
          SettleTerminal(hop, status, now);
          return Finish(Answered(status, location));
        }
        match client.redirects {
          case Block =>
            hop.Success(now);
            return Finish(Failed(RedirectBlocked));
          case Rewrite =>
            hop.Success(now);
            return Finish(Answered(status, location));
          case Follow =>
        }
        if hops >= client.maxRedirects {
          hop.Failure(now);
          return Finish(Failed(TooManyRedirects));
        }
        hop.Success(now);
        var step := state.PrepareNext(status, location, client.allowDowngrade, client.resolve);
        match step {
          case Err(reason) =>
            return Finish(Failed(BadRedirect(reason)));
          case Ok(Stop) =>
            return Finish(Answered(status, location));
          case Ok(Continue(r)) =>
            return Proceed(r);
        }
    }
  }
}
