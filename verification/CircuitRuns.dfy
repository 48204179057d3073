/** What the circuit breaker keeps over whole runs, host by host. */
module CircuitRuns {
  import opened Wrappers
  import opened Circuit

  // ---------------------------------------------------- the view of one host

  function Lookup(hosts: map<Host, HostCircuit>, h: Host): Option<HostCircuit> {
    if h in hosts then Some(hosts[h]) else None
  }

  function EntryIn(v: Option<HostCircuit>): HostCircuit {
    if v.Some? then v.value else FRESH
  }

  /** What a call on the host itself makes of its entry, before any eviction. */
  function Own(s: Settings, v: Option<HostCircuit>, e: Event): Option<HostCircuit> {
    match e.op
    case Check => Some(OnCheck(EntryIn(v), e.now, s).0)
    case Success => if v.Some? then Some(FRESH) else None
    case Failure => Some(OnFailure(EntryIn(v), e.now, s).0)
  }

  /** How one event changes what is stored for `h`. */
  function View(s: Settings, v: Option<HostCircuit>, h: Host, e: Event): Option<HostCircuit> {
    if !s.enabled then v
    else if h in e.gone then None
    else if e.host != h then v
    else Own(s, v, e)
  }

  lemma LookupTouched(s: Settings, hosts: map<Host, HostCircuit>, h: Host, e: Event)
    ensures Lookup(Touched(s, hosts, e), h) ==
            if e.host == h then Own(s, Lookup(hosts, h), e) else Lookup(hosts, h)
  {
  }

  lemma LookupWithout(m: map<Host, HostCircuit>, gone: set<Host>, h: Host)
    ensures Lookup(m - gone, h) == if h in gone then None else Lookup(m, h)
  {
  }

  /** Other hosts reach `h` only by evicting it, and never while it is protected. */
  lemma ViewStep(s: Settings, hosts: map<Host, HostCircuit>, h: Host, e: Event)
    requires Legal(s, hosts, e)
    ensures Lookup(After(s, hosts, e), h) == View(s, Lookup(hosts, h), h, e)
    ensures var v := if e.host == h then Own(s, Lookup(hosts, h), e) else Lookup(hosts, h);
            h in e.gone ==> s.enabled && v.Some? && !Protected(v.value, e.now)
  {
    LookupTouched(s, hosts, h, e);
    LookupWithout(Touched(s, hosts, e), e.gone, h);
    if h in e.gone {
      GoneIsUnprotected(Touched(s, hosts, e), e.gone, s.maxHosts, e.now, h);
    }
  }

  lemma GoneIsUnprotected(hosts: map<Host, HostCircuit>, gone: set<Host>, max: nat, now: nat, h: Host)
    requires LegalEviction(hosts, gone, max, now) && h in gone
    ensures h in hosts && !Protected(hosts[h], now)
  {
  }

  // ------------------------------------------------- invariants of every run

  predicate Sound(s: Settings, c: HostCircuit, clock: nat) {
    && |c.failures| < s.threshold
    && match c.state
       case Closed => true
       case Open(until) => until <= clock + s.openDuration
       case HalfOpen(probes, since) => 1 <= probes <= s.halfOpenMax && since <= clock
  }

  lemma SoundStep(s: Settings, v: Option<HostCircuit>, clock: nat, h: Host, e: Event)
    requires s.Valid() && clock <= e.now && (v.Some? ==> Sound(s, v.value, clock))
    ensures var w := View(s, v, h, e); w.Some? ==> Sound(s, w.value, e.now)
  {
  }

  /**
   In every reachable state the probe count is between one and the budget, no open
   period ends later than a full one begun now, and the failure list is too short to trip.
   */
  lemma {:induction false} ReachableIsSound(s: Settings, evs: seq<Event>, h: Host)
    requires Reachable(s, evs)
    ensures var v := Lookup(Final(s, map[], evs), h);
            v.Some? ==> Sound(s, v.value, Clock(0, evs))
  {
    if evs == [] {
    } else {
      var before, e := Final(s, map[], Front(evs)), Last(evs);
      ReachableIsSound(s, Front(evs), h);
      ViewStep(s, before, h, e);
      SoundStep(s, Lookup(before, h), Clock(0, Front(evs)), h, e);
    }
  }

  /** Nothing is settled for `h` and no check of it gets through; rejected retries may abound. */
  predicate OnlyRejected(evs: seq<Event>, h: Host) {
    evs == [] || (OnlyRejected(Front(evs), h) && (Last(evs).host == h ==> Last(evs).op == Check && !Last(evs).verdict))
  }

  /** A rejected retry renews nothing: neither the open period nor the half-open window. */
  lemma {:induction false} RejectionsKeep(s: Settings, hosts: map<Host, HostCircuit>, start: nat, evs: seq<Event>,
                                          h: Host)
    requires Run(s, hosts, start, evs) && OnlyRejected(evs, h)
    ensures Lookup(Final(s, hosts, evs), h) in {None, Lookup(hosts, h)}
    ensures start <= Clock(start, evs)
  {
    if evs == [] {
    } else {
      RejectionsKeep(s, hosts, start, Front(evs), h);
      ViewStep(s, Final(s, hosts, Front(evs)), h, Last(evs));
    }
  }

  /**
   No permanent lock-out: from any reachable state at clock `c`, the checks of a host cannot
   all be rejected through `c + openDuration` with nothing settled for it. However often it is
   retried in vain meanwhile, whatever happens to other hosts, and even when every probe was
   abandoned, a check at `c + openDuration` or later gets through.
   */
  lemma NoPermanentLockOut(s: Settings, past: seq<Event>, evs: seq<Event>, h: Host, e: Event)
    requires Reachable(s, past)
    requires e.op == Check && e.host == h
    ensures Run(s, Final(s, map[], past), Clock(0, past), evs + [e]) ==>
            OnlyRejected(evs, h) && Clock(0, past) + s.openDuration <= e.now ==>
            e.verdict
  {
    RunSnoc(s, Final(s, map[], past), Clock(0, past), evs, e);
    if Run(s, Final(s, map[], past), Clock(0, past), evs + [e]) && OnlyRejected(evs, h) {
      RejectionsKeep(s, Final(s, map[], past), Clock(0, past), evs, h);
      ReachableIsSound(s, past, h);
    }
  }

  // -------------------------------------------------------- open stays shut

  /** Whether an open host has stayed open: a success lifts it, a new trip restores it. */
  predicate Shut(evs: seq<Event>, h: Host) {
    evs == [] ||
    var e := Last(evs);
    if e.host == h && e.op == Success then false
    else if e.host == h && e.op == Failure && e.verdict then true
    else Shut(Front(evs), h)
  }

  predicate OpenUntil(v: Option<HostCircuit>, until: nat) {
    v.Some? && v.value.state.Open? && until <= v.value.state.until
  }

  lemma ShutStep(s: Settings, v: Option<HostCircuit>, shut: bool, until: nat, h: Host, e: Event)
    requires s.enabled && e.now < until <= e.now + s.openDuration
    requires if shut then OpenUntil(v, until) && h !in e.gone else v.None? || v.value.state.Closed?
    requires e.op == Failure && e.host == h ==> e.verdict == OnFailure(EntryIn(v), e.now, s).1
    requires h in e.gone ==> !(e.op == Failure && e.verdict && e.host == h)
    ensures var w := View(s, v, h, e);
            if e.host == h && e.op == Success then w.None? || w.value.state.Closed?
            else if (e.host == h && e.op == Failure && e.verdict) || shut then OpenUntil(w, until)
            else w.None? || w.value.state.Closed?
  {
  }

  /** A host open until `until`, or, once a success has lifted that, not open at all. */
  predicate OpenOrLifted(v: Option<HostCircuit>, shut: bool, until: nat) {
    if shut then OpenUntil(v, until) else v.None? || v.value.state.Closed?
  }

  lemma OpenStep(s: Settings, hosts: map<Host, HostCircuit>, evs: seq<Event>, h: Host, until: nat)
    requires s.enabled && evs != [] && Legal(s, hosts, Last(evs))
    requires Last(evs).now < until <= Last(evs).now + s.openDuration
    requires OpenOrLifted(Lookup(hosts, h), Shut(Front(evs), h), until)
    ensures OpenOrLifted(Lookup(After(s, hosts, Last(evs)), h), Shut(evs, h), until)
  {
    var e, v := Last(evs), Lookup(hosts, h);
    ViewStep(s, hosts, h, e);
    LegalVerdict(s, hosts, e);
    ShutProtects(s, v, until, h, e);
    ShutStep(s, v, Shut(Front(evs), h), until, h, e);
  }

  lemma LegalVerdict(s: Settings, hosts: map<Host, HostCircuit>, e: Event)
    requires s.enabled && Legal(s, hosts, e)
    ensures e.op == Check ==> e.verdict == OnCheck(EntryIn(Lookup(hosts, e.host)), e.now, s).1
    ensures e.op == Failure ==> e.verdict == OnFailure(EntryIn(Lookup(hosts, e.host)), e.now, s).1
    ensures e.op == Success ==> e.gone == {}
  {
  }

  /** What is left of an open host, before any eviction, is protected from it. */
  lemma ShutProtects(s: Settings, v: Option<HostCircuit>, until: nat, h: Host, e: Event)
    requires e.now < until <= e.now + s.openDuration
    ensures var w := if e.host == h then Own(s, v, e) else v;
            && (OpenUntil(v, until) && !(e.host == h && e.op == Success) ==> w.Some? && Protected(w.value, e.now))
            && (e.host == h && e.op == Failure && OnFailure(EntryIn(v), e.now, s).1 ==> Protected(w.value, e.now))
  {
  }

  lemma {:induction false} OpenHistory(s: Settings, hosts: map<Host, HostCircuit>, start: nat, evs: seq<Event>,
                                       h: Host, until: nat)
    requires s.enabled && Run(s, hosts, start, evs)
    requires OpenUntil(Lookup(hosts, h), until)
    requires Clock(start, evs) < until <= start + s.openDuration
    ensures start <= Clock(start, evs)
    ensures OpenOrLifted(Lookup(Final(s, hosts, evs), h), Shut(evs, h), until)
  {
    if evs == [] {
    } else {
      OpenHistory(s, hosts, start, Front(evs), h, until);
      OpenStep(s, Final(s, hosts, Front(evs)), evs, h, until);
    }
  }

  /**
   Once a reachable breaker holds `h` open until `u`, a check of `h` before `u` is rejected if
   and only if no success for `h` was recorded since the open period began or since `h`
   last tripped again, whatever other hosts and evictions do.
   */
  lemma OpenStaysShut(s: Settings, past: seq<Event>, evs: seq<Event>, h: Host, e: Event)
    requires s.enabled && Reachable(s, past)
    requires h in Final(s, map[], past) && Final(s, map[], past)[h].state.Open?
    requires Run(s, Final(s, map[], past), Clock(0, past), evs + [e])
    requires e.op == Check && e.host == h && e.now < Final(s, map[], past)[h].state.until
    ensures !e.verdict <==> Shut(evs, h)
  {
    var hosts, start := Final(s, map[], past), Clock(0, past);
    ReachableIsSound(s, past, h);
    RunSnoc(s, hosts, start, evs, e);
    OpenHistory(s, hosts, start, evs, h, hosts[h].state.until);
  }

  /** No success is recorded for `h`, and every check of it is rejected. */
  predicate Unforgiven(evs: seq<Event>, h: Host) {
    evs == [] || (Unforgiven(Front(evs), h) && !(Last(evs).op == Success && Last(evs).host == h))
  }

  predicate AllRejected(evs: seq<Event>, h: Host) {
    evs == [] || (AllRejected(Front(evs), h) && !(Last(evs).op == Check && Last(evs).host == h && Last(evs).verdict))
  }

  /** Without a success every check is rejected, and `until` never moves earlier. */
  lemma {:induction false} NoSuccessStaysShut(s: Settings, hosts: map<Host, HostCircuit>, start: nat,
                                              evs: seq<Event>, h: Host, until: nat)
    requires s.enabled && Run(s, hosts, start, evs) && Unforgiven(evs, h)
    requires OpenUntil(Lookup(hosts, h), until)
    requires Clock(start, evs) < until <= start + s.openDuration
    ensures Shut(evs, h) && AllRejected(evs, h)
    ensures OpenUntil(Lookup(Final(s, hosts, evs), h), until)
  {
    OpenHistory(s, hosts, start, evs, h, until);
    if evs == [] {
    } else {
      NoSuccessStaysShut(s, hosts, start, Front(evs), h, until);
    }
  }

  lemma ReachSnoc(s: Settings, past: seq<Event>, e: Event)
    requires Reachable(s, past) && Clock(0, past) <= e.now && Legal(s, Final(s, map[], past), e)
    ensures Reachable(s, past + [e]) && Clock(0, past + [e]) == e.now
    ensures Final(s, map[], past + [e]) == After(s, Final(s, map[], past), e)
  {
    RunSnoc(s, map[], 0, past, e);
  }

  /** Settings that trip at once, for ten ticks. */
  const QUICK := Settings(true, 1, 10, 10, 1, true, 4)

  /** A check of a host that is untracked, or fresh, with room for it. */
  lemma ThenCheck(s: Settings, past: seq<Event>, hosts: map<Host, HostCircuit>, h: Host, now: nat)
    requires Reachable(s, past) && Clock(0, past) <= now && Final(s, map[], past) == hosts
    requires s.enabled && |hosts[h := FRESH]| <= s.maxHosts && (h in hosts ==> hosts[h] == FRESH)
    ensures var evs := past + [Event(Check, h, now, true, {})];
            Reachable(s, evs) && Clock(0, evs) == now && Final(s, map[], evs) == hosts[h := FRESH]
  {
    FreshCheckLegal(s, hosts, h, now);
    ReachSnoc(s, past, Event(Check, h, now, true, {}));
  }

  lemma FreshCheckLegal(s: Settings, hosts: map<Host, HostCircuit>, h: Host, now: nat)
    requires s.enabled && |hosts[h := FRESH]| <= s.maxHosts && (h in hosts ==> hosts[h] == FRESH)
    ensures var e := Event(Check, h, now, true, {});
            Legal(s, hosts, e) && After(s, hosts, e) == hosts[h := FRESH]
  {
    var e := Event(Check, h, now, true, {});
    assert Touched(s, hosts, e) == hosts[h := FRESH];
    NoEvictionWithinCap(hosts[h := FRESH], {}, s.maxHosts, now);
    assert hosts[h := FRESH] - {} == hosts[h := FRESH];
  }

  /** With a threshold of one the first failure trips the host. */
  lemma FreshTripLegal(s: Settings, hosts: map<Host, HostCircuit>, h: Host, now: nat)
    requires s.enabled && s.threshold == 1 && |hosts| <= s.maxHosts && h in hosts && hosts[h] == FRESH
    ensures var e := Event(Failure, h, now, true, {});
            && Legal(s, hosts, e)
            && After(s, hosts, e) == hosts[h := HostCircuit(Open(now + s.openDuration), [])]
  {
    var e, after := Event(Failure, h, now, true, {}), hosts[h := HostCircuit(Open(now + s.openDuration), [])];
    FreshTrips(s, now);
    assert Touched(s, hosts, e) == after && after.Keys == hosts.Keys;
    NoEvictionWithinCap(after, {}, s.maxHosts, now);
    assert after - {} == after;
  }

  lemma FreshTrips(s: Settings, now: nat)
    requires s.threshold == 1
    ensures OnFailure(FRESH, now, s) == (HostCircuit(Open(now + s.openDuration), []), true)
  {
  }

  lemma ThenSuccess(s: Settings, past: seq<Event>, hosts: map<Host, HostCircuit>, h: Host, now: nat)
    requires Reachable(s, past) && Clock(0, past) <= now && Final(s, map[], past) == hosts
    requires s.enabled && h in hosts
    ensures var evs := past + [Event(Success, h, now, false, {})];
            Reachable(s, evs) && Clock(0, evs) == now && Final(s, map[], evs) == hosts[h := FRESH]
  {
    SuccessCloses(s, hosts, Event(Success, h, now, false, {}));
    ReachSnoc(s, past, Event(Success, h, now, false, {}));
  }

  lemma OneHost(h: Host, c: HostCircuit, d: HostCircuit)
    ensures map[h := c][h := d] == map[h := d]
    ensures map[][h := d] == map[h := d]
    ensures |map[h := c]| == 1
  {
    assert map[h := c].Keys == {h};
  }

  /** A request to `h` is admitted at 0 on an empty breaker. */
  lemma FirstArrival(s: Settings, h: Host) returns (evs: seq<Event>)
    requires s.enabled && s.Valid()
    ensures evs == [Event(Check, h, 0, true, {})]
    ensures Reachable(s, evs) && Clock(0, evs) == 0 && Final(s, map[], evs) == map[h := FRESH]
  {
    OneHost(h, FRESH, FRESH);
    ThenCheck(s, [], map[], h, 0);
    evs := [] + [Event(Check, h, 0, true, {})];
  }

  /** And then another. */
  lemma NextArrival(s: Settings, past: seq<Event>, h: Host)
    requires Reachable(s, past) && s.enabled && Clock(0, past) == 0 && Final(s, map[], past) == map[h := FRESH]
    ensures var evs := past + [Event(Check, h, 0, true, {})];
            Reachable(s, evs) && Clock(0, evs) == 0 && Final(s, map[], evs) == map[h := FRESH]
  {
    OneHost(h, FRESH, FRESH);
    ThenCheck(s, past, map[h := FRESH], h, 0);
  }

  /** One of them fails at once and trips the host. */
  lemma Tripped(s: Settings, past: seq<Event>, h: Host)
    requires Reachable(s, past) && s.enabled && s.threshold == 1
    requires Clock(0, past) == 0 && Final(s, map[], past) == map[h := FRESH]
    ensures var evs := past + [Event(Failure, h, 0, true, {})];
            && Reachable(s, evs) && Clock(0, evs) == 0
            && Final(s, map[], evs) == map[h := HostCircuit(Open(s.openDuration), [])]
  {
    JustTrips(s, h);
    ReachSnoc(s, past, Event(Failure, h, 0, true, {}));
  }

  lemma JustTrips(s: Settings, h: Host)
    requires s.enabled && s.Valid() && s.threshold == 1
    ensures var e := Event(Failure, h, 0, true, {});
            && Legal(s, map[h := FRESH], e)
            && After(s, map[h := FRESH], e) == map[h := HostCircuit(Open(s.openDuration), [])]
  {
    OneHost(h, FRESH, HostCircuit(Open(s.openDuration), []));
    FreshTripLegal(s, map[h := FRESH], h, 0);
  }

  lemma LateSuccess(past: seq<Event>, h: Host)
    requires Reachable(QUICK, past) && Clock(0, past) == 0
    requires Final(QUICK, map[], past) == map[h := HostCircuit(Open(10), [])]
    ensures Reachable(QUICK, past + [Event(Success, h, 1, false, {})] + [Event(Check, h, 2, true, {})])
  {
    OneHost(h, HostCircuit(Open(10), []), FRESH);
    OneHost(h, FRESH, FRESH);
    ThenSuccess(QUICK, past, map[h := HostCircuit(Open(10), [])], h, 1);
    ThenCheck(QUICK, past + [Event(Success, h, 1, false, {})], map[h := FRESH], h, 2);
  }

  /**
   A late success closes an open host early. Of two requests admitted at 0 the first trips the
   host at once; the second, still in flight, succeeds at 1, and the next check is admitted
   before `until`.
   */
  lemma LateSuccessOpensEarly(h: Host) returns (trip: seq<Event>, evs: seq<Event>)
    ensures trip == [Event(Check, h, 0, true, {})] + [Event(Check, h, 0, true, {})] + [Event(Failure, h, 0, true, {})]
    ensures Final(QUICK, map[], trip) == map[h := HostCircuit(Open(10), [])]
    ensures evs == trip + [Event(Success, h, 1, false, {})] + [Event(Check, h, 2, true, {})]
    ensures Reachable(QUICK, evs)
  {
    var first := FirstArrival(QUICK, h);
    NextArrival(QUICK, first, h);
    trip := first + [Event(Check, h, 0, true, {})];
    Tripped(QUICK, trip, h);
    trip := trip + [Event(Failure, h, 0, true, {})];
    LateSuccess(trip, h);
    evs := trip + [Event(Success, h, 1, false, {})] + [Event(Check, h, 2, true, {})];
  }

  lemma SuccessCloses(s: Settings, hosts: map<Host, HostCircuit>, e: Event)
    requires s.enabled && e.op == Success && !e.verdict && e.gone == {} && e.host in hosts
    ensures Legal(s, hosts, e) && After(s, hosts, e) == hosts[e.host := FRESH]
  {
  }

  /** No failure trips `h`, and every check of it is admitted. */
  predicate Untripped(evs: seq<Event>, h: Host) {
    evs == [] || (Untripped(Front(evs), h) && !(Last(evs).op == Failure && Last(evs).host == h && Last(evs).verdict))
  }

  predicate AllAdmitted(evs: seq<Event>, h: Host) {
    evs == [] || (AllAdmitted(Front(evs), h) && (Last(evs).op == Check && Last(evs).host == h ==> Last(evs).verdict))
  }

  /**
   A host that is closed or not stored is never rejected until a failure trips it. So evicting
   an expired open host forgets its probe budget: any number of checks is then admitted.
   */
  lemma {:induction false} ClosedAdmitsAll(s: Settings, hosts: map<Host, HostCircuit>, start: nat, evs: seq<Event>,
                                           h: Host)
    requires Run(s, hosts, start, evs) && Untripped(evs, h)
    requires h in hosts ==> hosts[h].state.Closed?
    ensures AllAdmitted(evs, h)
    ensures var v := Lookup(Final(s, hosts, evs), h); v.None? || v.value.state.Closed?
  {
    if evs == [] {
    } else {
      ClosedAdmitsAll(s, hosts, start, Front(evs), h);
      var before, e := Final(s, hosts, Front(evs)), Last(evs);
      ViewStep(s, before, h, e);
      if s.enabled && e.host == h && e.op == Failure {
        UntrippedStaysClosed(s, before, e);
      }
    }
  }

  lemma UntrippedStaysClosed(s: Settings, hosts: map<Host, HostCircuit>, e: Event)
    requires s.enabled && Legal(s, hosts, e) && e.op == Failure && !e.verdict
    requires e.host in hosts ==> hosts[e.host].state.Closed?
    ensures Own(s, Lookup(hosts, e.host), e).value.state.Closed?
  {
  }

  // ------------------------------------------------------- probe-rate bound

  function Admitted(evs: seq<Event>, h: Host): nat {
    if evs == [] then 0
    else Admitted(Front(evs), h) + if Last(evs).op == Check && Last(evs).host == h && Last(evs).verdict then 1 else 0
  }

  /** Probe windows that can have begun by `t` after a trip at `trip`. */
  function Windows(s: Settings, trip: nat, t: nat): nat
    requires 0 < s.openDuration
  {
    if trip <= t then (t - trip) / s.openDuration else 0
  }

  lemma WindowsGrow(s: Settings, trip: nat, t: nat, u: nat)
    requires 0 < s.openDuration && trip <= t <= u
    ensures Windows(s, trip, t) <= Windows(s, trip, u)
    ensures Windows(s, trip, t + s.openDuration) == Windows(s, trip, t) + 1
    ensures s.halfOpenMax * Windows(s, trip, t) <= s.halfOpenMax * Windows(s, trip, u)
  {
    DivMonotone(t - trip, u - trip, s.openDuration);
    DivNext(t - trip, s.openDuration);
    MulMonotone(s.halfOpenMax, Windows(s, trip, t), Windows(s, trip, u));
  }

  lemma DivMonotone(a: nat, b: nat, d: nat)
    requires 0 < d && a <= b
    ensures a / d <= b / d
  {
    MulGap(d, b / d, a / d);
    assert (a / d) * d <= a && b < (b / d) * d + d;
  }

  lemma DivUnique(a: nat, d: nat, q: nat)
    requires 0 < d && d * q <= a < d * q + d
    ensures a / d == q
  {
    MulGap(d, a / d, q);
    MulGap(d, q, a / d);
    assert d * (a / d) <= a < d * (a / d) + d;
  }

  lemma DivNext(a: nat, d: nat)
    requires 0 < d
    ensures (a + d) / d == a / d + 1
  {
    var p := a / d;
    assert d * (p + 1) == d * p + d;
    DivUnique(a + d, d, p + 1);
  }

  /** What the admissions so far leave of the budget, by the state of the host. */
  predicate WithinBudget(s: Settings, v: Option<HostCircuit>, trip: nat, clock: nat, n: nat)
    requires 0 < s.openDuration
  {
    v.Some? && match v.value.state
      case Closed => false
      case Open(until) =>
        && trip + s.openDuration <= until <= clock + s.openDuration
        && n <= s.halfOpenMax * Windows(s, trip, until - s.openDuration)
      case HalfOpen(probes, since) =>
        && trip + s.openDuration <= since <= clock && 1 <= probes <= s.halfOpenMax
        && n <= s.halfOpenMax * (Windows(s, trip, since) - 1) + probes
  }

  /** No success is recorded for `h`, and `h` is never evicted. */
  predicate Watched(evs: seq<Event>, h: Host) {
    evs == [] || (Watched(Front(evs), h) && h !in Last(evs).gone && !(Last(evs).op == Success && Last(evs).host == h))
  }

  lemma BudgetStep(s: Settings, v: Option<HostCircuit>, trip: nat, clock: nat, n: nat, h: Host, e: Event)
    requires s.enabled && s.Valid() && 0 < s.openDuration && trip <= clock <= e.now
    requires WithinBudget(s, v, trip, clock, n)
    requires h !in e.gone && !(e.op == Success && e.host == h)
    ensures e.host != h || e.op != Check ==> WithinBudget(s, View(s, v, h, e), trip, e.now, n)
    ensures e.host == h && e.op == Check ==>
              WithinBudget(s, View(s, v, h, e), trip, e.now, n + if OnCheck(v.value, e.now, s).1 then 1 else 0)
  {
    var m := s.halfOpenMax;
    match v.value.state
    case Closed =>
    case Open(until) =>
      WindowsGrow(s, trip, until - s.openDuration, e.now);
      if until <= e.now {
        WindowsGrow(s, trip, until, e.now);
        assert m * (Windows(s, trip, until) - 1) <= m * (Windows(s, trip, e.now) - 1) by {
          MulMonotone(m, Windows(s, trip, until) - 1, Windows(s, trip, e.now) - 1);
        }
      }
    case HalfOpen(probes, since) =>
      var w := Windows(s, trip, since);
      WindowsGrow(s, trip, since, e.now);
      assert m * (w - 1) + m == m * w;
      if since + s.openDuration <= e.now {
        WindowsGrow(s, trip, since + s.openDuration, e.now);
        MulMonotone(m, w, Windows(s, trip, e.now) - 1);
      }
  }

  lemma {:induction false} BudgetRun(s: Settings, hosts: map<Host, HostCircuit>, trip: nat, evs: seq<Event>, h: Host)
    requires s.enabled && s.Valid() && 0 < s.openDuration && Run(s, hosts, trip, evs)
    requires h in hosts && hosts[h].state == Open(trip + s.openDuration)
    requires Watched(evs, h)
    ensures trip <= Clock(trip, evs)
    ensures WithinBudget(s, Lookup(Final(s, hosts, evs), h), trip, Clock(trip, evs), Admitted(evs, h))
  {
    if evs == [] {
      assert Windows(s, trip, trip) == 0;
    } else {
      BudgetRun(s, hosts, trip, Front(evs), h);
      var before, e := Final(s, hosts, Front(evs)), Last(evs);
      ViewStep(s, before, h, e);
      BudgetStep(s, Lookup(before, h), trip, Clock(trip, Front(evs)), Admitted(Front(evs), h), h, e);
    }
  }

  lemma BudgetAt(s: Settings, v: Option<HostCircuit>, trip: nat, clock: nat, n: nat, t: nat)
    requires 0 < s.openDuration && trip <= clock <= t && WithinBudget(s, v, trip, clock, n)
    ensures n <= s.halfOpenMax * ((t - trip) / s.openDuration)
  {
    var m := s.halfOpenMax;
    match v.value.state
    case Closed =>
    case Open(until) =>
      WindowsGrow(s, trip, until - s.openDuration, t);
    case HalfOpen(probes, since) =>
      WindowsGrow(s, trip, since, t);
      assert m * (Windows(s, trip, since) - 1) + m == m * Windows(s, trip, since);
  }

  /**
   Probe-rate bound: after `h` trips at `trip`, with no success for it and no eviction of
   it, at most `halfOpenMax` checks are admitted per elapsed `openDuration`.
   */
  lemma ProbeRateBound(s: Settings, hosts: map<Host, HostCircuit>, trip: nat, evs: seq<Event>, h: Host, t: nat)
    requires s.enabled && s.Valid() && 0 < s.openDuration
    requires h in hosts && hosts[h].state == Open(trip + s.openDuration)
    requires Run(s, hosts, trip, evs) && Clock(trip, evs) <= t && Watched(evs, h)
    ensures trip <= t
    ensures Admitted(evs, h) <= s.halfOpenMax * ((t - trip) / s.openDuration)
  {
    BudgetRun(s, hosts, trip, evs, h);
    BudgetAt(s, Lookup(Final(s, hosts, evs), h), trip, Clock(trip, evs), Admitted(evs, h), t);
  }

  // ------------------------------------------------- the verdict by history

  /** What counts for a check of `h`: when its open period ends, and the admissions since the trip. */
  datatype Spell = Spell(until: nat, admitted: seq<nat>)

  /** The spell begun by the last trip of `h`, unless a success or an eviction has ended it. */
  function SpellOf(s: Settings, evs: seq<Event>, h: Host): Option<Spell> {
    if evs == [] then None else Spelled(s, SpellOf(s, Front(evs), h), h, Last(evs))
  }

  function Spelled(s: Settings, spell: Option<Spell>, h: Host, e: Event): Option<Spell> {
    if h in e.gone then None
    else if e.host != h then spell
    else if e.op == Success then None
    else if e.op == Failure && e.verdict then Some(Spell(e.now + s.openDuration, []))
    else if e.op == Check && e.verdict && spell.Some? then
      Some(Spell(spell.value.until, spell.value.admitted + [e.now]))
    else spell
  }

  /**
   The verdict read off the history alone: outside a spell everything passes; in one, the first
   check at `until` or later opens a batch of `halfOpenMax` admissions, and once a batch is
   used up the first check `openDuration` or more after its first admission opens the next.
   */
  predicate Passes(s: Settings, spell: Option<Spell>, now: nat)
    requires 0 < s.halfOpenMax
  {
    spell.Some? ==>
      var admitted, n := spell.value.admitted, |spell.value.admitted|;
      if admitted == [] then spell.value.until <= now
      else n % s.halfOpenMax != 0 || (s.halfOpenMax <= n && admitted[n - s.halfOpenMax] + s.openDuration <= now)
  }

  /** How many of `n` admissions are in the last batch. */
  function InBatch(n: nat, m: nat): nat {
    if n == 0 then 0 else if InBatch(n - 1, m) == m then 1 else InBatch(n - 1, m) + 1
  }

  lemma {:induction false} BatchSize(n: nat, m: nat)
    requires 0 < m
    ensures 0 < n ==> 1 <= InBatch(n, m) <= m
    ensures InBatch(n, m) <= n && (n <= m ==> InBatch(n, m) == n)
  {
    if n == 0 {
    } else {
      BatchSize(n - 1, m);
    }
  }

  lemma {:induction false} BatchRest(n: nat, m: nat) returns (q: nat)
    requires 0 < n && 0 < m
    ensures n == m * q + InBatch(n, m)
  {
    BatchSize(n - 1, m);
    if n == 1 {
      q := 0;
    } else {
      q := BatchRest(n - 1, m);
      if InBatch(n - 1, m) == m {
        assert m * (q + 1) == m * q + m;
        q := q + 1;
      }
    }
  }

  /** The last batch is used up exactly when whole batches have been admitted. */
  lemma WholeBatches(n: nat, m: nat)
    requires 0 < n && 0 < m
    ensures InBatch(n, m) == m <==> n % m == 0
  {
    BatchSize(n, m);
    var q := BatchRest(n, m);
    if InBatch(n, m) == m {
      assert m * (q + 1) == m * q + m;
      RestIs(n, m, q + 1, 0);
    } else {
      RestIs(n, m, q, InBatch(n, m));
    }
  }

  lemma RestIs(n: nat, m: nat, q: nat, r: nat)
    requires r < m && n == m * q + r
    ensures n % m == r
  {
    DivUnique(n, m, q);
    assert n == m * (n / m) + n % m;
  }

  /** How an entry stands for a spell. */
  predicate StandsFor(s: Settings, v: Option<HostCircuit>, spell: Option<Spell>)
    requires 0 < s.halfOpenMax
  {
    match spell
    case None => v.None? || v.value.state.Closed?
    case Some(Spell(until, admitted)) =>
      && v.Some?
      && var n := |admitted|;
         var used := InBatch(n, s.halfOpenMax);
         if n == 0 then v.value.state == Open(until)
         else 1 <= used <= n && used <= s.halfOpenMax && v.value.state == HalfOpen(used, admitted[n - used])
  }

  lemma StandingPasses(s: Settings, v: Option<HostCircuit>, spell: Option<Spell>, now: nat)
    requires s.Valid() && StandsFor(s, v, spell) && PastOnly(spell, now)
    ensures OnCheck(EntryIn(v), now, s).1 <==> Passes(s, spell, now)
  {
    if spell.Some? && spell.value.admitted != [] {
      var admitted, n := spell.value.admitted, |spell.value.admitted|;
      WholeBatches(n, s.halfOpenMax);
      assert admitted[n - InBatch(n, s.halfOpenMax)] <= now;
    }
  }

  lemma SpellStep(s: Settings, v: Option<HostCircuit>, spell: Option<Spell>, h: Host, e: Event)
    requires s.enabled && s.Valid() && StandsFor(s, v, spell)
    requires e.host == h && e.op == Check ==> e.verdict == OnCheck(EntryIn(v), e.now, s).1
    requires e.host == h && e.op == Failure ==> e.verdict == OnFailure(EntryIn(v), e.now, s).1
    ensures StandsFor(s, View(s, v, h, e), Spelled(s, spell, h, e))
  {
    if spell.Some? {
      BatchSize(|spell.value.admitted|, s.halfOpenMax);
      BatchSize(|spell.value.admitted| + 1, s.halfOpenMax);
    }
  }

  predicate PastOnly(spell: Option<Spell>, clock: nat) {
    spell.Some? ==> forall i :: 0 <= i < |spell.value.admitted| ==> spell.value.admitted[i] <= clock
  }

  lemma SpelledIsPast(s: Settings, spell: Option<Spell>, clock: nat, h: Host, e: Event)
    requires PastOnly(spell, clock) && clock <= e.now
    ensures PastOnly(Spelled(s, spell, h, e), e.now)
  {
  }

  lemma {:induction false} SpellIsPast(s: Settings, evs: seq<Event>, h: Host)
    requires Run(s, map[], 0, evs)
    ensures PastOnly(SpellOf(s, evs, h), Clock(0, evs))
  {
    if evs == [] {
    } else {
      SpellIsPast(s, Front(evs), h);
      SpelledIsPast(s, SpellOf(s, Front(evs), h), Clock(0, Front(evs)), h, Last(evs));
    }
  }

  lemma {:induction false} SpellStands(s: Settings, evs: seq<Event>, h: Host)
    requires s.enabled && Reachable(s, evs)
    ensures StandsFor(s, Lookup(Final(s, map[], evs), h), SpellOf(s, evs, h))
  {
    if evs == [] {
    } else {
      var before, e := Final(s, map[], Front(evs)), Last(evs);
      SpellStands(s, Front(evs), h);
      LegalSpellStep(s, before, SpellOf(s, Front(evs), h), h, e);
    }
  }

  lemma LegalSpellStep(s: Settings, hosts: map<Host, HostCircuit>, spell: Option<Spell>, h: Host, e: Event)
    requires s.enabled && s.Valid() && Legal(s, hosts, e) && StandsFor(s, Lookup(hosts, h), spell)
    ensures StandsFor(s, Lookup(After(s, hosts, e), h), Spelled(s, spell, h, e))
  {
    ViewStep(s, hosts, h, e);
    LegalVerdict(s, hosts, e);
    SpellStep(s, Lookup(hosts, h), spell, h, e);
  }

  /** Every check of every run is admitted exactly when its history says so. */
  lemma ChecksExactlyByHistory(s: Settings, evs: seq<Event>, e: Event)
    requires Reachable(s, evs + [e]) && e.op == Check
    ensures e.verdict <==> !s.enabled || Passes(s, SpellOf(s, evs, e.host), e.now)
  {
    RunSnoc(s, map[], 0, evs, e);
    CheckVerdict(s, Final(s, map[], evs), e);
    if s.enabled {
      SpellStands(s, evs, e.host);
      SpellIsPast(s, evs, e.host);
      StandingPasses(s, Lookup(Final(s, map[], evs), e.host), SpellOf(s, evs, e.host), e.now);
    }
  }

  lemma CheckVerdict(s: Settings, hosts: map<Host, HostCircuit>, e: Event)
    requires Legal(s, hosts, e) && e.op == Check
    ensures e.verdict <==> !s.enabled || OnCheck(EntryIn(Lookup(hosts, e.host)), e.now, s).1
  {
  }

  /** Nothing is settled for `h` and it is never evicted; its checks may go either way. */
  predicate OnlyChecked(evs: seq<Event>, h: Host) {
    evs == [] || (OnlyChecked(Front(evs), h) && h !in Last(evs).gone && (Last(evs).host == h ==> Last(evs).op == Check))
  }

  /** The instants of the checks of `h` at `until` or later. */
  function DueChecks(evs: seq<Event>, h: Host, until: nat): seq<nat> {
    if evs == [] then []
    else
      var e := Last(evs);
      DueChecks(Front(evs), h, until) + if e.host == h && e.op == Check && until <= e.now then [e.now] else []
  }

  /** While a host is only checked, its first due checks up to the budget are its admissions. */
  predicate BudgetSoFar(s: Settings, spell: Option<Spell>, until: nat, due: seq<nat>, admitted: nat) {
    && spell.Some? && spell.value.until == until
    && admitted == |spell.value.admitted| == Min(s.halfOpenMax, |due|)
    && spell.value.admitted == due[..admitted]
  }

  lemma SmallRest(n: nat, m: nat)
    requires 0 < n <= m
    ensures n % m == if n < m then n else 0
  {
  }

  lemma BudgetVerdict(s: Settings, spell: Option<Spell>, until: nat, due: seq<nat>, admitted: nat, now: nat)
    requires s.Valid() && BudgetSoFar(s, spell, until, due, admitted)
    requires due != [] ==> until <= now < due[0] + s.openDuration
    ensures Passes(s, spell, now) <==> until <= now && |due| < s.halfOpenMax
  {
    if admitted != 0 {
      SmallRest(admitted, s.halfOpenMax);
      assert spell.value.admitted[0] == due[0];
    }
  }

  lemma BudgetNext(s: Settings, spell: Option<Spell>, h: Host, e: Event, until: nat, due: seq<nat>, admitted: nat)
    requires s.Valid() && BudgetSoFar(s, spell, until, due, admitted) && h !in e.gone
    requires e.host == h ==> e.op == Check && (e.verdict <==> until <= e.now && |due| < s.halfOpenMax)
    ensures var more := if e.host == h && until <= e.now then due + [e.now] else due;
            BudgetSoFar(s, Spelled(s, spell, h, e), until, more, admitted + if e.host == h && e.verdict then 1 else 0)
  {
    if e.host == h && e.verdict {
      assert due[..admitted] == due && (due + [e.now])[..admitted + 1] == due + [e.now];
    }
  }

  lemma BudgetEvent(s: Settings, past: seq<Event>, e: Event, h: Host, until: nat, due: seq<nat>, admitted: nat)
    requires Reachable(s, past + [e]) && s.enabled && h !in e.gone && (e.host == h ==> e.op == Check)
    requires BudgetSoFar(s, SpellOf(s, past, h), until, due, admitted)
    requires due != [] ==> until <= e.now < due[0] + s.openDuration
    ensures BudgetSoFar(s, SpellOf(s, past + [e], h), until,
                        if e.host == h && until <= e.now then due + [e.now] else due,
                        admitted + if e.host == h && e.verdict then 1 else 0)
  {
    if e.host == h {
      ChecksExactlyByHistory(s, past, e);
      BudgetVerdict(s, SpellOf(s, past, h), until, due, admitted, e.now);
    }
    BudgetNext(s, SpellOf(s, past, h), h, e, until, due, admitted);
    SpellSnoc(s, past, e, h);
  }

  /** Everything due falls within one `openDuration` of the first that is. */
  predicate InOneWindow(s: Settings, due: seq<nat>, clock: nat) {
    due != [] ==> clock < due[0] + s.openDuration
  }

  lemma FrontAndLast(past: seq<Event>, evs: seq<Event>)
    requires evs != []
    ensures past + evs == (past + Front(evs)) + [Last(evs)]
  {
  }

  lemma ReachFront(s: Settings, front: seq<Event>, e: Event)
    requires Reachable(s, front + [e])
    ensures Reachable(s, front) && Clock(0, front) <= e.now == Clock(0, front + [e])
  {
    RunSnoc(s, map[], 0, front, e);
  }

  lemma WindowFront(s: Settings, evs: seq<Event>, h: Host, until: nat, clock: nat)
    requires evs != [] && InOneWindow(s, DueChecks(evs, h, until), clock)
    ensures InOneWindow(s, DueChecks(Front(evs), h, until), clock)
  {
  }

  lemma {:induction false} BudgetInSpell(s: Settings, past: seq<Event>, evs: seq<Event>, h: Host, until: nat)
    requires s.enabled && Reachable(s, past + evs) && OnlyChecked(evs, h)
    requires SpellOf(s, past, h) == Some(Spell(until, []))
    requires InOneWindow(s, DueChecks(evs, h, until), Clock(0, past + evs))
    ensures var due := DueChecks(evs, h, until);
            && BudgetSoFar(s, SpellOf(s, past + evs, h), until, due, Admitted(evs, h))
            && (due != [] ==> until <= Clock(0, past + evs))
  {
    if evs == [] {
      assert past + [] == past;
    } else {
      FrontAndLast(past, evs);
      ReachFront(s, past + Front(evs), Last(evs));
      WindowFront(s, evs, h, until, Last(evs).now);
      BudgetInSpell(s, past, Front(evs), h, until);
      BudgetEvent(s, past + Front(evs), Last(evs), h, until, DueChecks(Front(evs), h, until), Admitted(Front(evs), h));
      CheckedCounts(evs, h, until);
    }
  }

  lemma CheckedCounts(evs: seq<Event>, h: Host, until: nat)
    requires evs != [] && OnlyChecked(evs, h)
    ensures var e, due := Last(evs), DueChecks(Front(evs), h, until);
            && DueChecks(evs, h, until) == (if e.host == h && until <= e.now then due + [e.now] else due)
            && Admitted(evs, h) == Admitted(Front(evs), h) + if e.host == h && e.verdict then 1 else 0
  {
  }

  lemma SpellSnoc(s: Settings, evs: seq<Event>, e: Event, h: Host)
    ensures SpellOf(s, evs + [e], h) == Spelled(s, SpellOf(s, evs, h), h, e)
  {
  }

  /**
   The budget is given in full: from a reachable state that holds `h` open until `u`, while
   nothing is settled for it and it is not evicted, the first `halfOpenMax` checks at `u` or
   later are admitted, and within one `openDuration` of the first of them no other.
   */
  lemma FullBudgetGiven(s: Settings, past: seq<Event>, evs: seq<Event>, h: Host)
    requires s.enabled && Reachable(s, past + evs) && Reachable(s, past) && OnlyChecked(evs, h)
    requires h in Final(s, map[], past) && Final(s, map[], past)[h].state.Open?
    requires InOneWindow(s, DueChecks(evs, h, Final(s, map[], past)[h].state.until), Clock(0, past + evs))
    ensures Admitted(evs, h) == Min(s.halfOpenMax, |DueChecks(evs, h, Final(s, map[], past)[h].state.until)|)
  {
    SpellStands(s, past, h);
    BudgetInSpell(s, past, evs, h, Final(s, map[], past)[h].state.until);
  }

  /** A trip leaves its host open for `openDuration`; the eviction it runs cannot remove it. */
  lemma TripOpens(s: Settings, hosts: map<Host, HostCircuit>, e: Event)
    requires s.enabled && 0 < s.openDuration && Legal(s, hosts, e) && e.op == Failure && e.verdict
    ensures var after := After(s, hosts, e);
            e.host in after && after[e.host].state == Open(e.now + s.openDuration)
  {
    ViewStep(s, hosts, e.host, e);
    TripView(s, Lookup(hosts, e.host), e);
  }

  lemma TripView(s: Settings, v: Option<HostCircuit>, e: Event)
    requires OnFailure(EntryIn(v), e.now, s).1
    ensures OnFailure(EntryIn(v), e.now, s).0 == HostCircuit(Open(e.now + s.openDuration), [])
  {
  }

  /** Settings that trip at once, for ten ticks, with one probe and room for one host. */
  const NARROW := Settings(true, 1, 10, 10, 1, true, 1)

  /** Of an expired open host and a protected one, an eviction to one entry takes the first. */
  lemma ExpiredGoes(hosts: map<Host, HostCircuit>, h: Host, g: Host)
    requires h != g && hosts.Keys == {h, g}
    requires hosts[h].state == Open(10) && hosts[g].state == Open(20)
    ensures LegalEviction(hosts, {h}, 1, 10)
  {
    assert Matching(hosts, IdleClosed, 10) == {} && Matching(hosts, AnyClosed, 10) == {};
    assert Matching(hosts, ExpiredOpen, 10) == {h};
    assert |hosts| == |hosts.Keys| == 2;
  }

  lemma EvictsExpired(hosts: map<Host, HostCircuit>, h: Host, g: Host, e: Event)
    requires h != g && hosts == map[h := HostCircuit(Open(10), [])]
    requires e == Event(Failure, g, 10, true, {h})
    ensures Legal(NARROW, hosts, e) && After(NARROW, hosts, e) == map[g := HostCircuit(Open(20), [])]
  {
    var touched := hosts[g := HostCircuit(Open(20), [])];
    assert OnFailure(FRESH, 10, NARROW) == (HostCircuit(Open(20), []), true);
    assert Touched(NARROW, hosts, e) == touched;
    ExpiredGoes(touched, h, g);
    assert touched - {h} == map[g := HostCircuit(Open(20), [])];
  }

  /** Of an untouched host and an open one, an eviction to one entry takes the first. */
  lemma IdleGoes(hosts: map<Host, HostCircuit>, h: Host, g: Host)
    requires h != g && hosts.Keys == {h, g}
    requires hosts[h] == FRESH && hosts[g].state.Open?
    ensures LegalEviction(hosts, {h}, 1, 10)
  {
    assert Matching(hosts, IdleClosed, 10) == {h} && Matching(hosts, AnyClosed, 10) == {h};
    assert g !in Matching(hosts, IdleClosed, 10) + Matching(hosts, AnyClosed, 10);
    assert |hosts| == |hosts.Keys| == 2;
  }

  lemma AdmitsUntracked(hosts: map<Host, HostCircuit>, h: Host, g: Host, until: nat, e: Event)
    requires h != g && hosts == map[g := HostCircuit(Open(until), [])]
    requires e == Event(Check, h, 10, true, {h})
    ensures Legal(NARROW, hosts, e) && After(NARROW, hosts, e) == hosts
  {
    var touched := hosts[h := FRESH];
    assert Touched(NARROW, hosts, e) == touched;
    IdleGoes(touched, h, g);
    assert touched - {h} == hosts;
  }

  /** A request to `g` is admitted at 10, and its failure evicts the expired `h`. */
  lemma Displaces(past: seq<Event>, h: Host, g: Host)
    requires h != g && Reachable(NARROW, past) && Clock(0, past) <= 10
    requires Final(NARROW, map[], past) == map[h := HostCircuit(Open(10), [])]
    ensures var evs := past + [Event(Check, g, 10, true, {g})] + [Event(Failure, g, 10, true, {h})];
            && Reachable(NARROW, evs) && Clock(0, evs) == 10
            && Final(NARROW, map[], evs) == map[g := HostCircuit(Open(20), [])]
  {
    var check, trip := Event(Check, g, 10, true, {g}), Event(Failure, g, 10, true, {h});
    AdmitsUntracked(Final(NARROW, map[], past), g, h, 10, check);
    ReachSnoc(NARROW, past, check);
    EvictsExpired(Final(NARROW, map[], past + [check]), h, g, trip);
    ReachSnoc(NARROW, past + [check], trip);
  }

  lemma OneMoreUntracked(past: seq<Event>, h: Host, g: Host, check: Event)
    requires h != g && Reachable(NARROW, past) && Clock(0, past) == 10 && check == Event(Check, h, 10, true, {h})
    requires Final(NARROW, map[], past) == map[g := HostCircuit(Open(20), [])]
    ensures Reachable(NARROW, past + [check]) && Clock(0, past + [check]) == 10
    ensures Final(NARROW, map[], past + [check]) == map[g := HostCircuit(Open(20), [])]
  {
    AdmitsUntracked(Final(NARROW, map[], past), h, g, 20, check);
    ReachSnoc(NARROW, past, check);
  }

  /** Then `n` checks of `h` at 10, each admitted and its entry evicted at once. */
  lemma {:induction false} Retried(past: seq<Event>, h: Host, g: Host, n: nat) returns (evs: seq<Event>)
    requires h != g && Reachable(NARROW, past) && Clock(0, past) == 10
    requires Final(NARROW, map[], past) == map[g := HostCircuit(Open(20), [])]
    ensures Reachable(NARROW, evs) && Clock(0, evs) == 10
    ensures Final(NARROW, map[], evs) == map[g := HostCircuit(Open(20), [])]
    ensures past <= evs && |evs| == |past| + n
    ensures Admitted(evs, h) == Admitted(past, h) + n && (Unforgiven(past, h) ==> Unforgiven(evs, h))
  {
    if n == 0 {
      evs := past;
    } else {
      var front := Retried(past, h, g, n - 1);
      var check := Event(Check, h, 10, true, {h});
      OneMoreUntracked(front, h, g, check);
      CountsSnoc(front, check, h);
      evs := front + [check];
    }
  }

  lemma TripCounts(trip: seq<Event>, h: Host)
    requires |trip| == 2 && trip[0] == Event(Check, h, 0, true, {}) && trip[1] == Event(Failure, h, 0, true, {})
    ensures Unforgiven(trip, h) && Admitted(trip, h) == 1
  {
    CountsSnoc([], trip[0], h);
    CountsSnoc([] + [trip[0]], trip[1], h);
    assert trip == [] + [trip[0]] + [trip[1]];
  }

  lemma OthersCount(past: seq<Event>, h: Host, a: Event, b: Event)
    requires a.host != h && b.host != h
    ensures Admitted(past + [a] + [b], h) == Admitted(past, h)
    ensures Unforgiven(past + [a] + [b], h) <==> Unforgiven(past, h)
  {
    CountsSnoc(past, a, h);
    CountsSnoc(past + [a], b, h);
  }

  /** The run up to the eviction. */
  lemma Displaced(h: Host, g: Host) returns (trip: seq<Event>, evs: seq<Event>)
    requires h != g
    ensures |trip| == 2 && trip[0] == Event(Check, h, 0, true, {}) && trip[1] == Event(Failure, h, 0, true, {})
    ensures evs == trip + [Event(Check, g, 10, true, {g})] + [Event(Failure, g, 10, true, {h})]
    ensures Reachable(NARROW, evs) && Clock(0, evs) == 10
    ensures Final(NARROW, map[], evs) == map[g := HostCircuit(Open(20), [])]
  {
    trip := FirstArrival(NARROW, h);
    Tripped(NARROW, trip, h);
    trip := trip + [Event(Failure, h, 0, true, {})];
    Displaces(trip, h, g);
    evs := trip + [Event(Check, g, 10, true, {g})] + [Event(Failure, g, 10, true, {h})];
  }

  /**
   Without that proviso the bound fails by any margin: `h` trips at 0, another host's failure at
   10 evicts its expired entry, and any number of checks of `h` is then admitted at 10, though
   no success of `h` was ever recorded.
   */
  lemma EvictionForgetsBudget(h: Host, g: Host, n: nat) returns (trip: seq<Event>, evs: seq<Event>)
    requires h != g
    ensures |trip| == 2 && trip[0] == Event(Check, h, 0, true, {}) && trip[1] == Event(Failure, h, 0, true, {})
    ensures trip + [Event(Check, g, 10, true, {g})] + [Event(Failure, g, 10, true, {h})] <= evs
    ensures Reachable(NARROW, evs) && Clock(0, evs) == 10 && Unforgiven(evs, h)
    ensures Admitted(evs, h) - Admitted(trip, h) == n
    ensures n > 1 ==> Admitted(evs, h) - Admitted(trip, h) > NARROW.halfOpenMax * ((10 - 0) / NARROW.openDuration)
  {
    var past: seq<Event>;
    trip, past := Displaced(h, g);
    TripCounts(trip, h);
    OthersCount(trip, h, Event(Check, g, 10, true, {g}), Event(Failure, g, 10, true, {h}));
    evs := Retried(past, h, g, n);
  }

  lemma CountsSnoc(evs: seq<Event>, e: Event, h: Host)
    ensures Admitted(evs + [e], h) == Admitted(evs, h) + if e.op == Check && e.host == h && e.verdict then 1 else 0
    ensures Unforgiven(evs + [e], h) <==> Unforgiven(evs, h) && !(e.op == Success && e.host == h)
  {
  }

  // ------------------------------------------------------- window refinement

  /** Every failure of `h` since its last success, trip or eviction, never pruned. */
  function Log(evs: seq<Event>, h: Host): seq<nat> {
    if evs == [] then [] else Logged(Log(Front(evs), h), Last(evs), h)
  }

  function Logged(log: seq<nat>, e: Event, h: Host): seq<nat> {
    if h in e.gone then []
    else if e.host != h || e.op == Check then log
    else if e.op == Success || e.verdict then []
    else log + [e.now]
  }

  lemma RecentSnoc(log: seq<nat>, t: nat, now: nat, window: nat)
    ensures Recent(log + [t], now, window) ==
            if Since(now, t) <= window then Recent(log, now, window) + [t] else Recent(log, now, window)
  {
    assert (log + [t])[..|log|] == log;
  }

  /** Pruning at an earlier instant first changes nothing later. */
  lemma {:induction false} RecentTwice(log: seq<nat>, early: nat, late: nat, window: nat)
    requires early <= late && forall t :: t in log ==> t <= early
    ensures Recent(Recent(log, early, window), late, window) == Recent(log, late, window)
  {
    if log == [] {
    } else {
      var front, last := log[..|log| - 1], log[|log| - 1];
      assert log == front + [last];
      assert last in log && forall t :: t in front ==> t in log;
      RecentTwice(front, early, late, window);
      RecentSnoc(front, last, early, window);
      RecentSnoc(front, last, late, window);
      RecentSnoc(Recent(front, early, window), last, late, window);
    }
  }

  /** The full log holds instants of the past only. */
  lemma {:induction false} LogIsPast(s: Settings, hosts: map<Host, HostCircuit>, evs: seq<Event>, h: Host)
    requires Run(s, hosts, 0, evs)
    ensures forall t :: t in Log(evs, h) ==> t <= Clock(0, evs)
  {
    if evs == [] {
    } else {
      LogIsPast(s, hosts, Front(evs), h);
    }
  }

  /** A further failure, pruned or not, leaves the same live instants. */
  lemma PrunedWithFailure(stored: seq<nat>, log: seq<nat>, at: nat, now: nat, window: nat)
    requires at <= now && forall t :: t in log ==> t <= at
    requires Recent(stored, at, window) == Recent(log, at, window)
    ensures Recent(Recent(stored, at, window) + [at], now, window) == Recent(log + [at], now, window)
  {
    var pruned := Recent(stored, at, window);
    RecentTwice(log, at, now, window);
    assert (pruned + [at])[..|pruned|] == pruned && (log + [at])[..|log|] == log;
  }

  /** What a call that is no untripped failure of `h` does to its list and its log. */
  lemma OtherwiseKeptOrCleared(s: Settings, v: Option<HostCircuit>, log: seq<nat>, h: Host, e: Event)
    requires s.enabled
    requires e.op == Failure && e.host == h ==> e.verdict == OnFailure(EntryIn(v), e.now, s).1
    ensures var w := EntryIn(View(s, v, h, e)).failures;
            if h !in e.gone && e.host == h && e.op == Failure && !e.verdict then
              w == Recent(EntryIn(v).failures, e.now, s.window) + [e.now] && Logged(log, e, h) == log + [e.now]
            else
              (w == EntryIn(v).failures && Logged(log, e, h) == log) || (w == [] && Logged(log, e, h) == [])
  {
  }

  /** At any instant from now on, the stored list prunes to what the full log prunes to. */
  lemma {:induction false} StoredTracksLog(s: Settings, evs: seq<Event>, h: Host, now: nat)
    requires s.enabled && Reachable(s, evs) && Clock(0, evs) <= now
    ensures Recent(EntryIn(Lookup(Final(s, map[], evs), h)).failures, now, s.window)
            == Recent(Log(evs, h), now, s.window)
  {
    if evs == [] {
    } else {
      var before, e := Final(s, map[], Front(evs)), Last(evs);
      var v, log := Lookup(before, h), Log(Front(evs), h);
      ViewStep(s, before, h, e);
      OtherwiseKeptOrCleared(s, v, log, h, e);
      if h !in e.gone && e.host == h && e.op == Failure && !e.verdict {
        StoredTracksLog(s, Front(evs), h, e.now);
        LogIsPast(s, map[], Front(evs), h);
        PrunedWithFailure(EntryIn(v).failures, log, e.now, now, s.window);
      } else {
        StoredTracksLog(s, Front(evs), h, now);
      }
    }
  }

  /**
   Window refinement: a failure trips its host exactly when the host is half-open, or when
   the full, never pruned log of failures since the last reset, counting this one, holds
   `threshold` instants no older than `window`.
   */
  lemma TripsExactlyOnFullLog(s: Settings, evs: seq<Event>, e: Event)
    requires s.enabled && Reachable(s, evs + [e]) && e.op == Failure
    ensures e.verdict <==>
              || EntryOf(Final(s, map[], evs), e.host).state.HalfOpen?
              || |Recent(Log(evs, e.host) + [e.now], e.now, s.window)| >= s.threshold
  {
    RunSnoc(s, map[], 0, evs, e);
    StoredTracksLog(s, evs, e.host, e.now);
    var entry := EntryOf(Final(s, map[], evs), e.host);
    FailureVerdict(s, Final(s, map[], evs), e);
    RecentWithNow(entry.failures, e.now, s.window);
    RecentWithNow(Log(evs, e.host), e.now, s.window);
  }

  lemma FailureVerdict(s: Settings, hosts: map<Host, HostCircuit>, e: Event)
    requires s.enabled && s.Valid() && Legal(s, hosts, e) && e.op == Failure
    ensures var entry := EntryOf(hosts, e.host);
            && entry == EntryIn(Lookup(hosts, e.host))
            && (e.verdict <==>
                  entry.state.HalfOpen? || |Recent(entry.failures, e.now, s.window) + [e.now]| >= s.threshold)
  {
  }

  lemma RecentWithNow(log: seq<nat>, now: nat, window: nat)
    ensures Recent(log + [now], now, window) == Recent(log, now, window) + [now]
  {
  }

  // ------------------------------------------------------------------- size

  lemma SizeAfterEvent(s: Settings, hosts: map<Host, HostCircuit>, e: Event)
    requires s.enabled && Legal(s, hosts, e)
    requires e.op == Failure || (e.op == Check && e.verdict)
    ensures var after := After(s, hosts, e);
            |after| <= s.maxHosts || after.Keys == ProtectedIn(Touched(s, hosts, e), e.now)
  {
    SizeAfterEviction(Touched(s, hosts, e), e.gone, s.maxHosts, e.now);
  }

  /** Every admitted check and every failure leaves the map capped, or fully protected. */
  lemma SizeOverRuns(s: Settings, evs: seq<Event>, e: Event)
    requires s.enabled && Reachable(s, evs + [e])
    requires e.op == Failure || (e.op == Check && e.verdict)
    ensures var hosts := Final(s, map[], evs + [e]);
            |hosts| <= s.maxHosts || forall h :: h in hosts ==> Protected(hosts[h], e.now)
  {
    RunSnoc(s, map[], 0, evs, e);
    var before := Final(s, map[], evs);
    SizeAfterEvent(s, before, e);
    forall h | h in After(s, before, e) && h in ProtectedIn(Touched(s, before, e), e.now)
      ensures Protected(After(s, before, e)[h], e.now)
    {
      LookupWithout(Touched(s, before, e), e.gone, h);
    }
  }
}
