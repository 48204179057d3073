/** Which addresses may be connected to: folding, the verdict, and the lookup loop. */
module Ssrf {
  import opened Wrappers
  import opened Ranges

  datatype Mode = Strict | Permissive(allowPrivate: bool)

  datatype Guard = Guard(mode: Mode, allowIpv6: bool, extraBlocked: seq<Cidr>, allowed: seq<Cidr>)

  /** IPv4-mapped IPv6 addresses are folded to the IPv4 address they carry. */
  function Canonicalise(ip: Ip): Ip {
    if ip.V6? && ip.v6 / TWO32 == 0xFFFF then V4(ip.v6 % TWO32) else ip
  }

  predicate Evaluate(g: Guard, ip: Ip) {
    InAny(g.allowed, ip) ||
    match g.mode
    case Strict => !InAny(DEFAULT_BLOCKED + g.extraBlocked, ip)
    case Permissive(allowPrivate) => allowPrivate || !InAny(PRIVATE_RANGES, ip)
  }

  /** The canonical form when it may be used, or the blocked canonical address. */
  function CheckIp(g: Guard, raw: Ip): Result<Ip, Ip> {
    var canonical := Canonicalise(raw);
    if (!g.allowIpv6 && canonical.V6?) || !Evaluate(g, canonical) then Err(canonical) else Ok(canonical)
  }

  // -------------------------------------------------------------- verdicts

  /** An IPv4-mapped address gets exactly the verdict of the IPv4 address it carries. */
  lemma MappedVerdict(g: Guard, a: U32)
    ensures CheckIp(g, V6(0xFFFF * TWO32 + a)) == CheckIp(g, V4(a))
  {
  }

  /** Admitted addresses are fixed points: checking the result again returns it. */
  lemma AdmittedIsFixed(g: Guard, raw: Ip)
    requires CheckIp(g, raw).Ok?
    ensures CheckIp(g, CheckIp(g, raw).value) == CheckIp(g, raw)
  {
  }

  /**
   Exactly the addresses of the IPv4-mapped range are folded, so that range of the table can
   never match what is evaluated.
   */
  lemma MappedRangeIsDead(raw: Ip)
    ensures Canonicalise(raw) != raw <==> Contains(MAPPED, raw)
    ensures !Contains(MAPPED, Canonicalise(raw))
  {
    PowOf32();
    assert 0xFFFF_0000_0000 / TWO32 == 0xFFFF;
  }

  /** Strict admits no more than permissive, which admits no more than allowing private space. */
  lemma ModesAreOrdered(g: Guard, raw: Ip)
    ensures CheckIp(g.(mode := Strict), raw).Ok? ==> CheckIp(g.(mode := Permissive(false)), raw).Ok?
    ensures CheckIp(g.(mode := Permissive(false)), raw).Ok? ==> CheckIp(g.(mode := Permissive(true)), raw).Ok?
  {
    var ip := Canonicalise(raw);
    if InAny(PRIVATE_RANGES, ip) {
      PrivateIsBlocked(ip);
      InAnyConcat(DEFAULT_BLOCKED, g.extraBlocked, ip);
    }
  }

  /**
   Permissive without private space rejects RFC 1918 and unique-local addresses unless an
   allowed range carves them out; only strict mode reads the extra blocked ranges.
   */
  lemma PermissiveStillBlocksPrivate(g: Guard, raw: Ip)
    requires g.mode == Permissive(false)
    ensures var ip := Canonicalise(raw);
            InAny(RFC1918, ip) || Contains(UNIQUE_LOCAL, ip) ==>
              (CheckIp(g, raw).Ok? <==> (g.allowIpv6 || ip.V4?) && InAny(g.allowed, ip))
    ensures forall extra :: CheckIp(g.(extraBlocked := extra), raw) == CheckIp(g, raw)
  {
    var ip := Canonicalise(raw);
    InAnyConcat(RFC1918, [LOOPBACK4, LINK_LOCAL4, LOOPBACK6, UNIQUE_LOCAL, LINK_LOCAL6], ip);
    if Contains(UNIQUE_LOCAL, ip) {
      assert PRIVATE_RANGES[6] == UNIQUE_LOCAL;
    }
  }

  /** The verdict on every IPv4 address, in plain notation. */
  lemma VerdictExactly4(g: Guard, a: nat, b: nat, c: nat, d: nat)
    requires a < 256 && b < 256 && c < 256 && d < 256
    ensures var ip := V4(Dotted(a, b, c, d));
            && CheckIp(g, ip) in {Ok(ip), Err(ip)}
            && (CheckIp(g, ip) == Ok(ip) <==>
                  || InAny(g.allowed, ip)
                  || match g.mode
                     case Strict => !Reserved4(a, b, c) && !InAny(g.extraBlocked, ip)
                     case Permissive(allowPrivate) => allowPrivate || !Private4(a, b))
  {
    Blocked4Exactly(a, b, c, d);
    Private4Exactly(a, b, c, d);
    InAnyConcat(DEFAULT_BLOCKED, g.extraBlocked, V4(Dotted(a, b, c, d)));
  }

  /** The verdict on every IPv6 address that carries no IPv4 address, in plain notation. */
  lemma VerdictExactly6(g: Guard, g0: nat, g1: nat, g2: nat, g3: nat, low: nat)
    requires low < 0x1_0000_0000_0000_0000
    requires g0 < 0x1_0000 && g1 < 0x1_0000 && g2 < 0x1_0000 && g3 < 0x1_0000
    requires !Contains(MAPPED, V6(Halved(Groups(g0, g1, g2, g3), low)))
    ensures var ip := V6(Halved(Groups(g0, g1, g2, g3), low));
            && CheckIp(g, ip) in {Ok(ip), Err(ip)}
            && (CheckIp(g, ip) == Ok(ip) <==>
                  && g.allowIpv6
                  && (|| InAny(g.allowed, ip)
                      || match g.mode
                         case Strict => !Reserved6(g0, g1, g2, g3, low) && !InAny(g.extraBlocked, ip)
                         case Permissive(allowPrivate) => allowPrivate || !Private6(g0, g1, g2, g3, low)))
  {
    var ip := V6(Halved(Groups(g0, g1, g2, g3), low));
    MappedRangeIsDead(ip);
    Blocked6Exactly(g0, g1, g2, g3, low);
    Private6Exactly(g0, g1, g2, g3, low);
    InAnyConcat(DEFAULT_BLOCKED, g.extraBlocked, ip);
  }

  // --------------------------------------------------------- the lookup loop

  datatype LookupError = Dns | NoUsableAddress | SsrfBlocked(ip: Ip)

  datatype SocketAddr = SocketAddr(ip: Ip, port: nat)

  /** The canonical forms of the admissible answers, in answer order. */
  function Admissible(g: Guard, answers: seq<Ip>, port: nat): seq<SocketAddr> {
    if answers == [] then []
    else
      var front, verdict := answers[..|answers| - 1], CheckIp(g, answers[|answers| - 1]);
      Admissible(g, front, port) + if verdict.Ok? then [SocketAddr(verdict.value, port)] else []
  }

  /** The last answer refused by policy; one skipped for its family does not count. */
  function LastViolation(g: Guard, answers: seq<Ip>): Option<Ip> {
    if answers == [] then None
    else
      var ip := Canonicalise(answers[|answers| - 1]);
      if (g.allowIpv6 || ip.V4?) && !Evaluate(g, ip) then Some(ip)
      else LastViolation(g, answers[..|answers| - 1])
  }

  /** What a lookup must return: `literal` is the address the name spells, `answers` what DNS says. */
  function Looked(g: Guard, literal: Option<Ip>, answers: Option<seq<Ip>>, port: nat):
    Result<seq<SocketAddr>, LookupError>
  {
    if literal.Some? then
      var verdict := CheckIp(g, literal.value);
      if verdict.Ok? then Ok([SocketAddr(verdict.value, port)]) else Err(SsrfBlocked(verdict.error))
    else if answers.None? then Err(Dns)
    else if Admissible(g, answers.value, port) != [] then Ok(Admissible(g, answers.value, port))
    else if LastViolation(g, answers.value).Some? then Err(SsrfBlocked(LastViolation(g, answers.value).value))
    else Err(NoUsableAddress)
  }

  /** One answer more: it is admitted, refused by policy, or skipped for its family. */
  lemma OneMoreAnswer(g: Guard, list: seq<Ip>, i: nat, port: nat)
    requires i < |list|
    ensures var canonical := Canonicalise(list[i]);
            var counts := g.allowIpv6 || canonical.V4?;
            && Admissible(g, list[..i + 1], port)
               == Admissible(g, list[..i], port)
                  + (if counts && Evaluate(g, canonical) then [SocketAddr(canonical, port)] else [])
            && LastViolation(g, list[..i + 1])
               == if counts && !Evaluate(g, canonical) then Some(canonical) else LastViolation(g, list[..i])
  {
    assert list[..i + 1][..i] == list[..i] && list[..i + 1][i] == list[i];
  }

  /** An answer skipped because IPv6 is off. */
  predicate Skipped(g: Guard, raw: Ip) {
    Canonicalise(raw).V6? && !g.allowIpv6
  }

  /** An answer that leads to no violation: skipped, or admitted. */
  predicate Harmless(g: Guard, raw: Ip) {
    Skipped(g, raw) || CheckIp(g, raw).Ok?
  }

  /** The `i`-th answer is refused as `ip`, and all later ones are harmless. */
  ghost predicate BlockedAt(g: Guard, answers: seq<Ip>, ip: Ip, i: nat) {
    && i < |answers| && !Skipped(g, answers[i]) && CheckIp(g, answers[i]) == Err(ip)
    && forall j :: i < j < |answers| ==> Harmless(g, answers[j])
  }

  /** `ip` is the canonical form of the last answer that the check refuses and does not skip. */
  ghost predicate LastBlocked(g: Guard, answers: seq<Ip>, ip: Ip) {
    exists i :: BlockedAt(g, answers, ip, i)
  }

  lemma {:induction false} LastViolationExactly(g: Guard, answers: seq<Ip>)
    ensures forall ip :: LastViolation(g, answers) == Some(ip) <==> LastBlocked(g, answers, ip)
    ensures LastViolation(g, answers).None? <==> forall i :: 0 <= i < |answers| ==> Harmless(g, answers[i])
  {
    if answers == [] {
    } else {
      var front, last := answers[..|answers| - 1], answers[|answers| - 1];
      LastViolationExactly(g, front);
      assert forall i :: 0 <= i < |front| ==> front[i] == answers[i];
      if Harmless(g, last) {
        forall ip
          ensures LastBlocked(g, answers, ip) <==> LastBlocked(g, front, ip)
        {
          LastBlockedFront(g, answers, ip);
        }
      } else {
        assert BlockedAt(g, answers, Canonicalise(last), |front|);
      }
    }
  }

  lemma LastBlockedFront(g: Guard, answers: seq<Ip>, ip: Ip)
    requires answers != [] && Harmless(g, answers[|answers| - 1])
    ensures LastBlocked(g, answers, ip) <==> LastBlocked(g, answers[..|answers| - 1], ip)
  {
    if i: nat :| BlockedAt(g, answers, ip, i) {
      BlockedAtFront(g, answers, ip, i);
    }
    var front := answers[..|answers| - 1];
    if i: nat :| BlockedAt(g, front, ip, i) {
      BlockedAtFront(g, answers, ip, i);
    }
  }

  lemma BlockedAtFront(g: Guard, answers: seq<Ip>, ip: Ip, i: nat)
    requires answers != [] && Harmless(g, answers[|answers| - 1])
    ensures BlockedAt(g, answers, ip, i) <==> BlockedAt(g, answers[..|answers| - 1], ip, i)
  {
    var front := answers[..|answers| - 1];
    if i < |front| {
      assert front[i] == answers[i];
      HarmlessFrom(g, answers, i);
    }
  }

  lemma HarmlessFrom(g: Guard, answers: seq<Ip>, i: nat)
    requires answers != [] && Harmless(g, answers[|answers| - 1])
    ensures var front := answers[..|answers| - 1];
            (forall j :: i < j < |answers| ==> Harmless(g, answers[j])) <==>
            forall j :: i < j < |front| ==> Harmless(g, front[j])
  {
    var front := answers[..|answers| - 1];
    assert forall j :: 0 <= j < |front| ==> front[j] == answers[j];
  }

  /** What a lookup may return, and when. */
  ghost predicate Lawful(g: Guard, literal: Option<Ip>, answers: Option<seq<Ip>>, port: nat,
                         r: Result<seq<SocketAddr>, LookupError>)
  {
    && (r.Ok? ==> r.value != [] && forall a :: a in r.value ==> CheckIp(g, a.ip) == Ok(a.ip) && a.port == port)
    && match literal
       case Some(raw) =>
         if CheckIp(g, raw).Ok? then r == Ok([SocketAddr(Canonicalise(raw), port)])
         else r == Err(SsrfBlocked(Canonicalise(raw)))
       case None =>
         && (r == Err(Dns) <==> answers == None)
         && (r.Ok? <==> answers.Some? && exists raw :: raw in answers.value && CheckIp(g, raw).Ok?)
         && (r.Ok? ==> forall ip :: SocketAddr(ip, port) in r.value <==>
                         exists raw :: raw in answers.value && CheckIp(g, raw) == Ok(ip))
         && (r == Err(NoUsableAddress) <==> answers.Some? && forall raw :: raw in answers.value ==> Skipped(g, raw))
         && forall ip :: r == Err(SsrfBlocked(ip)) <==>
              && answers.Some? && (forall raw :: raw in answers.value ==> CheckIp(g, raw).Err?)
              && LastBlocked(g, answers.value, ip)
  }

  /** A lookup obeys the check, literal or not, and each error arises exactly in its own case. */
  lemma LookedIsLawful(g: Guard, literal: Option<Ip>, answers: Option<seq<Ip>>, port: nat)
    ensures Lawful(g, literal, answers, port, Looked(g, literal, answers, port))
  {
    if literal.Some? {
      if CheckIp(g, literal.value).Ok? {
        AdmittedIsFixed(g, literal.value);
      }
    } else if answers.Some? {
      LookupIsLawful(g, answers.value, port);
    }
  }

  lemma LookupIsLawful(g: Guard, answers: seq<Ip>, port: nat)
    ensures Lawful(g, None, Some(answers), port, Looked(g, None, Some(answers), port))
  {
    AdmissibleExactly(g, answers, port);
    LastViolationExactly(g, answers);
    if Admissible(g, answers, port) != [] {
      var a := Admissible(g, answers, port)[0];
      assert a in Admissible(g, answers, port) && a == SocketAddr(a.ip, port);
    }
    if raw :| raw in answers && CheckIp(g, raw).Ok? {
      assert SocketAddr(CheckIp(g, raw).value, port) in Admissible(g, answers, port);
    }
    SkippedAll(g, answers);
  }

  /** Skipped answers are refused; with nothing refused for another reason they are all there is. */
  lemma SkippedAll(g: Guard, answers: seq<Ip>)
    ensures (forall raw :: raw in answers ==> Skipped(g, raw)) <==>
            && (forall raw :: raw in answers ==> CheckIp(g, raw).Err?)
            && forall i :: 0 <= i < |answers| ==> Harmless(g, answers[i])
  {
    if forall raw :: raw in answers ==> Skipped(g, raw) {
      assert forall i :: 0 <= i < |answers| ==> answers[i] in answers;
    }
  }

  method Resolve(g: Guard, literal: Option<Ip>, answers: Option<seq<Ip>>, port: nat)
    returns (r: Result<seq<SocketAddr>, LookupError>)
    ensures r == Looked(g, literal, answers, port)
    ensures Lawful(g, literal, answers, port, r)
  {
    LookedIsLawful(g, literal, answers, port);
    if literal.Some? {
      var verdict := CheckIp(g, literal.value);
      if verdict.Ok? {
        return Ok([SocketAddr(verdict.value, port)]);
      }
      return Err(SsrfBlocked(verdict.error));
    }
    if answers.None? {
      return Err(Dns);
    }
    var list := answers.value;
    var admissible: seq<SocketAddr> := [];
    var lastViolation: Option<Ip> := None;
    for i := 0 to |list|
      invariant admissible == Admissible(g, list[..i], port)
      invariant lastViolation == LastViolation(g, list[..i])
    {
      OneMoreAnswer(g, list, i, port);
      var canonical := Canonicalise(list[i]);
      if g.allowIpv6 || !canonical.V6? {
        if Evaluate(g, canonical) {
          admissible := admissible + [SocketAddr(canonical, port)];
        } else {
          lastViolation := Some(canonical);
        }
      }
    }
    assert list[..|list|] == list;
    if admissible != [] {
      return Ok(admissible);
    }
    if lastViolation.Some? {
      return Err(SsrfBlocked(lastViolation.value));
    }
    return Err(NoUsableAddress);
  }

  /**
   A lookup returns exactly the admissible answers: each result is an answer's canonical form
   and passes the check unchanged, and no admissible answer is left out.
   */
  lemma {:induction false} AdmissibleExactly(g: Guard, answers: seq<Ip>, port: nat)
    ensures forall a :: a in Admissible(g, answers, port) ==> CheckIp(g, a.ip) == Ok(a.ip) && a.port == port
    ensures forall ip :: SocketAddr(ip, port) in Admissible(g, answers, port) <==>
                         exists raw :: raw in answers && CheckIp(g, raw) == Ok(ip)
  {
    if answers == [] {
    } else {
      var front, last := answers[..|answers| - 1], answers[|answers| - 1];
      AdmissibleExactly(g, front, port);
      assert forall raw :: raw in answers <==> raw in front || raw == last;
      if CheckIp(g, last).Ok? {
        AdmittedIsFixed(g, last);
      }
    }
  }

  /** Order is kept: results of a split answer list are the results of its parts in order. */
  lemma {:induction false} AdmissibleInOrder(g: Guard, a: seq<Ip>, b: seq<Ip>, port: nat)
    ensures Admissible(g, a + b, port) == Admissible(g, a, port) + Admissible(g, b, port)
  {
    if b == [] {
      assert a + b == a;
    } else {
      AdmissibleInOrder(g, a, b[..|b| - 1], port);
      assert (a + b)[..|a + b| - 1] == a + b[..|b| - 1];
    }
  }
}
