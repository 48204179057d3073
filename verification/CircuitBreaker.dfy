/**
 The shared breaker object and the guard of one admitted hop. Every method is one atomic
 step; `history` records the calls, and `Valid` says the host map is what they lead to, so
 every lemma about reachable runs is a statement about this object.
 */
module Breaker {
  import opened Wrappers
  import opened Circuit

  /** One call of kind `op` on `host` was appended to the history. */
  predicate Recorded(before: seq<Event>, after: seq<Event>, op: Op, host: Host) {
    after != [] && Front(after) == before && Last(after).op == op && Last(after).host == host
  }

  /** Checks that let a request through. */
  function Admissions(evs: seq<Event>): nat {
    if evs == [] then 0
    else Admissions(Front(evs)) + if Last(evs).op == Check && Last(evs).verdict then 1 else 0
  }

  /** Successes and failures recorded. */
  function Settlements(evs: seq<Event>): nat {
    if evs == [] then 0 else Settlements(Front(evs)) + if Last(evs).op == Check then 0 else 1
  }

  /** What one pass removes: as many matching entries as the excess asks for. */
  predicate Pass(hosts: map<Host, HostCircuit>, gone: set<Host>, tier: Tier, max: nat, now: nat) {
    && gone <= Matching(hosts, tier, now)
    && |gone| == Min(Excess(|hosts|, max), |Matching(hosts, tier, now)|)
  }

  /** A map within its cap needs no pass. */
  lemma PassNothing(hosts: map<Host, HostCircuit>, max: nat, now: nat)
    ensures hosts - {} == hosts
    ensures |hosts| <= max ==> forall tier :: Pass(hosts, {}, tier, max, now)
  {
  }

  function Monus(a: nat, b: nat): nat {
    if b <= a then a - b else 0
  }

  /** The counting behind three passes; the third kind may include the first. */
  lemma ThreeTiers<T>(n: nat, max: nat, idle: set<T>, expired: set<T>, closed: set<T>, g1: set<T>, g2: set<T>,
                      g3: set<T>)
    requires expired !! idle + closed && idle <= closed
    requires g1 <= idle && |g1| == Min(Excess(n, max), |idle|)
    requires g2 <= expired && |g2| == Min(Excess(Monus(n, |g1|), max), |expired|)
    requires g3 <= closed - g1 && |g3| == Min(Excess(Monus(n, |g1| + |g2|), max), |closed - g1|)
    ensures InOrder(idle, expired, closed, g1 + g2 + g3, Excess(n, max))
  {
    assert |g1 + g2 + g3| == |g1| + |g2| + |g3|;
    assert idle + expired + closed == expired + closed;
    assert |expired + closed| == |expired| + |closed|;
    assert |closed - g1| == |closed| - |g1|;
    if g2 + g3 == {} {
      assert g1 + g2 + g3 == g1;
    } else {
      assert |g2| + |g3| == |g2 + g3| > 0;
      SubsetOfEqualSize(g1, idle);
    }
    if g3 != {} {
      SubsetOfEqualSize(g2, expired);
    } else {
      SubsetSize(idle, closed);
    }
  }

  lemma LaterPasses(hosts: map<Host, HostCircuit>, g1: set<Host>, g2: set<Host>, now: nat)
    requires g1 <= Matching(hosts, IdleClosed, now) && g2 <= Matching(hosts, ExpiredOpen, now)
    ensures Matching(hosts - g1, ExpiredOpen, now) == Matching(hosts, ExpiredOpen, now)
    ensures Matching(hosts - g1 - g2, AnyClosed, now) == Matching(hosts, AnyClosed, now) - g1
  {
  }

  /** The three passes together are one legal eviction. */
  lemma ThreePasses(hosts: map<Host, HostCircuit>, g1: set<Host>, g2: set<Host>, g3: set<Host>, max: nat, now: nat)
    requires Pass(hosts, g1, IdleClosed, max, now)
    requires Pass(hosts - g1, g2, ExpiredOpen, max, now)
    requires Pass(hosts - g1 - g2, g3, AnyClosed, max, now)
    ensures LegalEviction(hosts, g1 + g2 + g3, max, now)
  {
    LaterPasses(hosts, g1, {}, now);
    assert hosts - g1 - {} == hosts - g1;
    LaterPasses(hosts, g1, g2, now);
    SizeWithout(hosts, g1);
    SizeWithout(hosts - g1, g2);
    ThreeTiers(|hosts|, max, Matching(hosts, IdleClosed, now), Matching(hosts, ExpiredOpen, now),
               Matching(hosts, AnyClosed, now), g1, g2, g3);
  }

  /** And every legal eviction is what three such passes can remove: nothing else is allowed for. */
  lemma EveryEvictionArises(hosts: map<Host, HostCircuit>, gone: set<Host>, max: nat, now: nat)
    returns (g1: set<Host>, g2: set<Host>, g3: set<Host>)
    requires LegalEviction(hosts, gone, max, now)
    ensures gone == g1 + g2 + g3
    ensures Pass(hosts, g1, IdleClosed, max, now)
    ensures Pass(hosts - g1, g2, ExpiredOpen, max, now)
    ensures Pass(hosts - g1 - g2, g3, AnyClosed, max, now)
  {
    var idle, expired := Matching(hosts, IdleClosed, now), Matching(hosts, ExpiredOpen, now);
    var closed := Matching(hosts, AnyClosed, now);
    g1, g2, g3 := PartsOfOrder(|hosts|, max, idle, expired, closed, gone);
    PassesOfParts(hosts, g1, g2, g3, max, now);
  }

  lemma PassesOfParts(hosts: map<Host, HostCircuit>, g1: set<Host>, g2: set<Host>, g3: set<Host>, max: nat, now: nat)
    requires g1 <= Matching(hosts, IdleClosed, now) && g2 <= Matching(hosts, ExpiredOpen, now)
    requires g3 <= Matching(hosts, AnyClosed, now) - g1
    requires |g1| == Min(Excess(|hosts|, max), |Matching(hosts, IdleClosed, now)|)
    requires |g2| == Min(Excess(Monus(|hosts|, |g1|), max), |Matching(hosts, ExpiredOpen, now)|)
    requires |g3| == Min(Excess(Monus(|hosts|, |g1| + |g2|), max), |Matching(hosts, AnyClosed, now) - g1|)
    ensures Pass(hosts, g1, IdleClosed, max, now)
    ensures Pass(hosts - g1, g2, ExpiredOpen, max, now)
    ensures Pass(hosts - g1 - g2, g3, AnyClosed, max, now)
  {
    LaterPasses(hosts, g1, {}, now);
    assert hosts - g1 - {} == hosts - g1;
    LaterPasses(hosts, g1, g2, now);
    SizeWithout(hosts, g1);
    SizeWithout(hosts - g1, g2);
  }

  lemma PartsOfOrder<T>(n: nat, max: nat, idle: set<T>, expired: set<T>, closed: set<T>, gone: set<T>)
    returns (g1: set<T>, g2: set<T>, g3: set<T>)
    requires expired !! idle + closed && idle <= closed
    requires InOrder(idle, expired, closed, gone, Excess(n, max))
    ensures gone == g1 + g2 + g3 && g1 <= idle && g2 <= expired && g3 <= closed - g1
    ensures |g1| == Min(Excess(n, max), |idle|)
    ensures |g2| == Min(Excess(Monus(n, |g1|), max), |expired|)
    ensures |g3| == Min(Excess(Monus(n, |g1| + |g2|), max), |closed - g1|)
  {
    g1, g2, g3 := Parts(idle, expired, closed, gone);
    PartSizes(n, max, |idle|, |expired|, |closed - idle|, |g1|, |g2|, |g3|);
    LastPart(idle, closed, g1, Excess(Monus(n, |g1| + |g2|), max));
  }

  lemma Parts<T>(idle: set<T>, expired: set<T>, closed: set<T>, gone: set<T>)
    returns (g1: set<T>, g2: set<T>, g3: set<T>)
    requires expired !! idle + closed && idle <= closed && gone <= idle + expired + closed
    requires gone <= idle || idle <= gone
    requires gone <= idle + expired || idle + expired <= gone
    ensures gone == g1 + g2 + g3 && g1 <= idle && g2 <= expired && g3 <= closed - g1
    ensures |gone| == |g1| + |g2| + |g3|
    ensures |idle + expired + closed| == |idle| + |expired| + |closed - idle|
    ensures |g1| <= |idle| && |g2| <= |expired| && |g3| <= |closed - idle|
    ensures |g1| == |idle| || |g2| == |g3| == 0
    ensures |g3| == 0 || (|g1| == |idle| && |g2| == |expired|)
  {
    g1, g2, g3 := gone * idle, gone * expired, (gone - idle) * closed;
    PartsAddUp(idle, expired, closed, gone);
    PartsInTurn(idle, expired, closed, gone);
  }

  lemma LastPart<T>(idle: set<T>, closed: set<T>, g1: set<T>, left: nat)
    requires g1 <= idle && (|g1| < |idle| ==> left == 0)
    ensures Min(left, |closed - idle|) == Min(left, |closed - g1|)
  {
    if |idle| <= |g1| {
      SubsetOfEqualSize(g1, idle);
    }
  }

  lemma PartsAddUp<T>(idle: set<T>, expired: set<T>, closed: set<T>, gone: set<T>)
    requires expired !! idle + closed && idle <= closed && gone <= idle + expired + closed
    ensures var g1, g2, g3 := gone * idle, gone * expired, (gone - idle) * closed;
            gone == g1 + g2 + g3 && |gone| == |g1| + |g2| + |g3|
    ensures |idle + expired + closed| == |idle| + |expired| + |closed - idle|
  {
    var g1, g2, g3 := gone * idle, gone * expired, (gone - idle) * closed;
    assert gone == g1 + g2 + g3;
    assert idle + expired + closed == idle + expired + (closed - idle);
  }

  lemma PartsInTurn<T>(idle: set<T>, expired: set<T>, closed: set<T>, gone: set<T>)
    requires expired !! idle + closed && idle <= closed && gone <= idle + expired + closed
    requires gone <= idle || idle <= gone
    requires gone <= idle + expired || idle + expired <= gone
    ensures var g1, g2, g3 := gone * idle, gone * expired, (gone - idle) * closed;
            && |g1| <= |idle| && |g2| <= |expired| && |g3| <= |closed - idle|
            && (|g1| == |idle| || |g2| == |g3| == 0)
            && (|g3| == 0 || (|g1| == |idle| && |g2| == |expired|))
  {
    var g1, g2, g3 := gone * idle, gone * expired, (gone - idle) * closed;
    SubsetSize(g1, idle);
    SubsetSize(g2, expired);
    SubsetSize(g3, closed - idle);
    if gone <= idle {
      assert g2 == {} && g3 == {};
    } else {
      assert g1 == idle;
    }
    if gone <= idle + expired {
      assert g3 == {};
    } else {
      assert g1 == idle && g2 == expired;
    }
  }

  lemma PartSizes(n: nat, max: nat, idle: nat, expired: nat, live: nat, a: nat, b: nat, c: nat)
    requires a <= idle && b <= expired && c <= live && a + b + c == Min(Excess(n, max), idle + expired + live)
    requires a == idle || (b == 0 && c == 0)
    requires c == 0 || (a == idle && b == expired)
    ensures a == Min(Excess(n, max), idle) && b == Min(Excess(Monus(n, a), max), expired)
    ensures c == Min(Excess(Monus(n, a + b), max), live)
    ensures a < idle ==> Excess(Monus(n, a + b), max) == 0
  {
  }

  lemma RemoveOne(m: map<Host, HostCircuit>, gone: set<Host>, h: Host)
    ensures m - gone - {h} == m - (gone + {h})
  {
  }

  lemma RemoveThrice(m: map<Host, HostCircuit>, g1: set<Host>, g2: set<Host>, g3: set<Host>)
    ensures m - g1 - g2 - g3 == m - (g1 + g2 + g3)
  {
  }

  lemma SizeWithout(m: map<Host, HostCircuit>, gone: set<Host>)
    requires gone <= m.Keys
    ensures |m - gone| == |m| - |gone|
  {
  }

  lemma RecordedStep(s: Settings, past: seq<Event>, e: Event)
    requires Reachable(s, past) && Clock(0, past) <= e.now && Legal(s, Final(s, map[], past), e)
    ensures Reachable(s, past + [e]) && Recorded(past, past + [e], e.op, e.host)
    ensures Final(s, map[], past + [e]) == After(s, Final(s, map[], past), e)
  {
  }

  lemma KeepAll(m: map<Host, HostCircuit>)
    ensures m - {} == m
  {
  }

  class CircuitBreaker {
    const settings: Settings
    var hosts: map<Host, HostCircuit>
    ghost var history: seq<Event>

    ghost predicate Valid()
      reads this
    {
      Reachable(settings, history) && hosts == Final(settings, map[], history)
    }

    ghost function Now(): nat
      reads this
    {
      Clock(0, history)
    }

    constructor FromConfig(cfg: Settings)
      requires cfg.threshold <= U32_MAX && cfg.halfOpenMax <= U32_MAX
      ensures Valid() && settings == Circuit.FromConfig(cfg) && hosts == map[] && history == []
    {
      settings := Circuit.FromConfig(cfg);
      hosts := map[];
      history := [];
    }

    method Check(host: Host, now: nat) returns (ok: bool)
      requires Valid() && Now() <= now
      modifies this
      ensures Valid() && Now() == now
      ensures Recorded(old(history), history, Op.Check, host) && Last(history).verdict == ok
    {
      ghost var gone: set<Host> := {};
      ok := true;
      if settings.enabled {
        var (entry, allowed) := OnCheck(EntryOf(hosts, host), now, settings);
        hosts := hosts[host := entry];
        ok := allowed;
        if allowed {
          gone := EvictIfNeeded(now);
        }
      }
      ghost var e := Event(Op.Check, host, now, ok, gone);
      KeepAll(hosts);
      RecordedStep(settings, history, e);
      history := history + [e];
    }

    method RecordSuccess(host: Host, now: nat)
      requires Valid() && Now() <= now
      modifies this
      ensures Valid() && Now() == now
      ensures Recorded(old(history), history, Op.Success, host)
      ensures settings.enabled && host in old(hosts) ==> hosts == old(hosts)[host := FRESH]
      ensures !settings.enabled || host !in old(hosts) ==> hosts == old(hosts)
    {
      if settings.enabled && host in hosts {
        hosts := hosts[host := FRESH];
      }
      ghost var e := Event(Op.Success, host, now, false, {});
      KeepAll(hosts);
      RecordedStep(settings, history, e);
      history := history + [e];
    }

    method RecordFailure(host: Host, now: nat) returns (tripped: bool)
      requires Valid() && Now() <= now
      modifies this
      ensures Valid() && Now() == now
      ensures Recorded(old(history), history, Op.Failure, host) && Last(history).verdict == tripped
    {
      ghost var gone: set<Host> := {};
      tripped := false;
      if settings.enabled {
        var (entry, verdict) := OnFailure(EntryOf(hosts, host), now, settings);
        hosts := hosts[host := entry];
        tripped := verdict;
        gone := EvictIfNeeded(now);
      }
      ghost var e := Event(Op.Failure, host, now, tripped, gone);
      RecordedStep(settings, history, e);
      history := history + [e];
    }

    /** Three passes, cheapest protection first; each stops as soon as the map fits. */
    method EvictIfNeeded(now: nat) returns (ghost gone: set<Host>)
      modifies this`hosts
      ensures hosts == old(hosts) - gone
      ensures LegalEviction(old(hosts), gone, settings.maxHosts, now)
    {
      ghost var all := hosts;
      ghost var g1: set<Host>, g2: set<Host>, g3: set<Host> := {}, {}, {};
      PassNothing(hosts, settings.maxHosts, now);
      if |hosts| > settings.maxHosts {
        g1 := EvictMatching(IdleClosed, now);
      }
      PassNothing(hosts, settings.maxHosts, now);
      if |hosts| > settings.maxHosts {
        g2 := EvictMatching(ExpiredOpen, now);
      }
      PassNothing(hosts, settings.maxHosts, now);
      if |hosts| > settings.maxHosts {
        g3 := EvictMatching(AnyClosed, now);
      }
      gone := g1 + g2 + g3;
      RemoveThrice(all, g1, g2, g3);
      ThreePasses(all, g1, g2, g3, settings.maxHosts, now);
    }

    /** The retain loop of one pass, visiting the entries in any order. */
    method EvictMatching(tier: Tier, now: nat) returns (ghost gone: set<Host>)
      modifies this`hosts
      ensures hosts == old(hosts) - gone && Pass(old(hosts), gone, tier, settings.maxHosts, now)
    {
      var excess := Excess(|hosts|, settings.maxHosts);
      gone := {};
      KeepAll(hosts);
      if excess == 0 {
        return;
      }
      ghost var all, matched := hosts, Matching(hosts, tier, now);
      var removed := 0;
      var rest := hosts.Keys;
      while rest != {}
        invariant rest <= all.Keys && gone <= matched && gone !! rest
        invariant hosts == all - gone
        invariant removed == |gone| <= excess
        invariant removed < excess ==> matched - rest <= gone
        decreases rest
      {
        var h :| h in rest;
        rest := rest - {h};
        if removed < excess && Matches(tier, hosts[h], now) {
          removed := removed + 1;
          RemoveOne(all, gone, h);
          hosts := hosts - {h};
          gone := gone + {h};
        }
      }
      SubsetSize(gone, matched);
      if removed < excess {
        assert gone == matched;
      }
    }
  }

  /** Guard of one admitted hop: dropping it unsettled records a failure. */
  class CircuitHop {
    const circuit: CircuitBreaker
    const host: Host
    var settled: bool

    constructor (circuit: CircuitBreaker, host: Host)
      ensures this.circuit == circuit && this.host == host && !settled
    {
      this.circuit := circuit;
      this.host := host;
      settled := false;
    }

    static method Admit(circuit: CircuitBreaker, host: Host, now: nat) returns (hop: Option<CircuitHop>)
      requires circuit.Valid() && circuit.Now() <= now
      modifies circuit
      ensures circuit.Valid() && circuit.Now() == now
      ensures Recorded(old(circuit.history), circuit.history, Op.Check, host)
      ensures hop.Some? <==> Last(circuit.history).verdict
      ensures hop.Some? ==> fresh(hop.value) && !hop.value.settled
                            && hop.value.circuit == circuit && hop.value.host == host
    {
      var ok := circuit.Check(host, now);
      if !ok {
        return None;
      }
      var guard := new CircuitHop(circuit, host);
      hop := Some(guard);
    }

    /** Records the success, then the drop finds the guard settled and does nothing. */
    method Success(now: nat)
      requires !settled && circuit.Valid() && circuit.Now() <= now
      modifies this, circuit
      ensures settled && circuit.Valid() && circuit.Now() == now
      ensures Recorded(old(circuit.history), circuit.history, Op.Success, host)
    {
      circuit.RecordSuccess(host, now);
      settled := true;
      Drop(now);
    }

    method Failure(now: nat)
      requires !settled && circuit.Valid() && circuit.Now() <= now
      modifies this, circuit
      ensures settled && circuit.Valid() && circuit.Now() == now
      ensures Recorded(old(circuit.history), circuit.history, Op.Failure, host)
    {
      var _ := circuit.RecordFailure(host, now);
      settled := true;
      Drop(now);
    }

    method Drop(now: nat)
      requires circuit.Valid() && circuit.Now() <= now
      modifies this, circuit
      ensures settled && circuit.Valid()
      ensures old(settled) ==> circuit.history == old(circuit.history) && circuit.hosts == old(circuit.hosts)
      ensures !old(settled) ==>
                circuit.Now() == now && Recorded(old(circuit.history), circuit.history, Op.Failure, host)
    {
      if !settled {
        var _ := circuit.RecordFailure(host, now);
        settled := true; // the drop consumes the guard
      }
    }
  }
}
