/**
 The per-host circuit breaker: the three-state entry of one host, the eviction
 pass over the host map, and the events whose sequences are the breaker's runs.
 Instants and durations are natural numbers of one monotonic clock.
 */
module Circuit {
  import opened Wrappers

  type Host = string

  const U32_MAX: nat := 0xFFFF_FFFF

  datatype State = Closed | Open(until: nat) | HalfOpen(probes: nat, since: nat)

  /** One host: its state and the failures still remembered, oldest first. */
  datatype HostCircuit = HostCircuit(state: State, failures: seq<nat>)

  const FRESH := HostCircuit(Closed, [])

  datatype Settings = Settings(
    enabled: bool,
    threshold: nat,
    window: nat,
    openDuration: nat,
    halfOpenMax: nat,
    count5xx: bool,
    maxHosts: nat)
  {
    predicate Valid() {
      1 <= threshold <= U32_MAX && 1 <= halfOpenMax <= U32_MAX && 1 <= maxHosts
    }
  }

  /** Zero thresholds, budgets and caps are lifted to one. */
  function FromConfig(cfg: Settings): (s: Settings)
    ensures cfg.threshold <= U32_MAX && cfg.halfOpenMax <= U32_MAX ==> s.Valid()
    ensures s == cfg.(threshold := s.threshold, halfOpenMax := s.halfOpenMax, maxHosts := s.maxHosts)
    ensures s.threshold == cfg.threshold || (cfg.threshold == 0 && s.threshold == 1)
    ensures s.halfOpenMax == cfg.halfOpenMax || (cfg.halfOpenMax == 0 && s.halfOpenMax == 1)
    ensures s.maxHosts == cfg.maxHosts || (cfg.maxHosts == 0 && s.maxHosts == 1)
  {
    cfg.(threshold := Max(cfg.threshold, 1), halfOpenMax := Max(cfg.halfOpenMax, 1), maxHosts := Max(cfg.maxHosts, 1))
  }

  /** `Instant::duration_since`, which is zero for a later instant. */
  function Since(now: nat, t: nat): (d: nat)
    ensures t <= now ==> t + d == now
    ensures now <= t ==> d == 0
  {
    if t <= now then now - t else 0
  }

  function SaturatingU32(n: nat): nat {
    Min(n, U32_MAX)
  }

  /** The entry after an admission check, and whether the request may go. */
  function OnCheck(c: HostCircuit, now: nat, s: Settings): (r: (HostCircuit, bool)) {
    match c.state
    case Closed => (c, true)
    case Open(until) =>
      if until <= now then (c.(state := HalfOpen(1, now)), true) else (c, false)
    case HalfOpen(probes, since) =>
      if probes < s.halfOpenMax then
        (c.(state := HalfOpen(SaturatingU32(probes + 1), since)), true)
      else if Since(now, since) >= s.openDuration then
        (c.(state := HalfOpen(1, now)), true)
      else
        (c, false)
  }

  /** The instants of `log` that are no older than `window` at `now`. */
  function Recent(log: seq<nat>, now: nat, window: nat): (r: seq<nat>)
    ensures |r| <= |log|
    ensures forall t :: t in r ==> t in log
  {
    if log == [] then []
    else
      var last := log[|log| - 1];
      Recent(log[..|log| - 1], now, window) + (if Since(now, last) <= window then [last] else [])
  }

  /** The entry after a failure, and whether this failure opened it. */
  function OnFailure(c: HostCircuit, now: nat, s: Settings): (r: (HostCircuit, bool)) {
    var failures := Recent(c.failures, now, s.window) + [now];
    if c.state.HalfOpen? || SaturatingU32(|failures|) >= s.threshold then
      (HostCircuit(Open(now + s.openDuration), []), true)
    else
      (c.(failures := failures), false)
  }

  // ---------------------------------------------------------------- eviction

  /** The three passes of the eviction, in the order they run. */
  datatype Tier = IdleClosed | ExpiredOpen | AnyClosed

  predicate Matches(tier: Tier, c: HostCircuit, now: nat) {
    match tier
    case IdleClosed => c.state.Closed? && c.failures == []
    case ExpiredOpen => c.state.Open? && c.state.until <= now
    case AnyClosed => c.state.Closed?
  }

  function Matching(hosts: map<Host, HostCircuit>, tier: Tier, now: nat): set<Host> {
    set h | h in hosts && Matches(tier, hosts[h], now)
  }

  /** Entries no pass may remove: half-open ones and unexpired open ones. */
  predicate Protected(c: HostCircuit, now: nat) {
    c.state.HalfOpen? || (c.state.Open? && now < c.state.until)
  }

  function ProtectedIn(hosts: map<Host, HostCircuit>, now: nat): set<Host> {
    set h | h in hosts && Protected(hosts[h], now)
  }

  function Evictable(hosts: map<Host, HostCircuit>, now: nat): set<Host> {
    Matching(hosts, IdleClosed, now) + Matching(hosts, ExpiredOpen, now) + Matching(hosts, AnyClosed, now)
  }

  function Excess(size: nat, max: nat): nat {
    if size <= max then 0 else size - max
  }

  /** Just enough elements go, and those of a later kind only after all of the earlier ones. */
  predicate InOrder<T>(first: set<T>, second: set<T>, third: set<T>, gone: set<T>, excess: nat) {
    && gone <= first + second + third
    && |gone| == Min(excess, |first + second + third|)
    && (gone <= first || first <= gone)
    && (gone <= first + second || first + second <= gone)
  }

  /**
   What an eviction may remove: just enough unprotected entries, expired open
   entries only after every idle one, live closed ones only after both.
   */
  predicate LegalEviction(hosts: map<Host, HostCircuit>, gone: set<Host>, max: nat, now: nat) {
    InOrder(Matching(hosts, IdleClosed, now), Matching(hosts, ExpiredOpen, now), Matching(hosts, AnyClosed, now),
            gone, Excess(|hosts|, max))
  }

  /** Nothing is removed from a map within its cap. */
  lemma NoEvictionWithinCap(hosts: map<Host, HostCircuit>, gone: set<Host>, max: nat, now: nat)
    requires |hosts| <= max
    ensures LegalEviction(hosts, gone, max, now) <==> gone == {}
  {
  }

  lemma ProtectedOrEvictable(hosts: map<Host, HostCircuit>, now: nat)
    ensures hosts.Keys == ProtectedIn(hosts, now) + Evictable(hosts, now)
    ensures ProtectedIn(hosts, now) !! Evictable(hosts, now)
    ensures |hosts| == |ProtectedIn(hosts, now)| + |Evictable(hosts, now)|
  {
  }

  /**
   After an eviction the map is within the cap unless the protected entries alone
   exceed it, and then only protected entries are left.
   */
  lemma SizeAfterEviction(hosts: map<Host, HostCircuit>, gone: set<Host>, max: nat, now: nat)
    requires LegalEviction(hosts, gone, max, now)
    ensures gone !! ProtectedIn(hosts, now)
    ensures |hosts - gone| == if |hosts| <= max then |hosts| else Max(max, |ProtectedIn(hosts, now)|)
    ensures max < |hosts - gone| ==> (hosts - gone).Keys == ProtectedIn(hosts, now)
  {
    ProtectedOrEvictable(hosts, now);
    assert (hosts - gone).Keys == hosts.Keys - gone;
    assert |hosts - gone| == |hosts.Keys - gone| == |hosts| - |gone|;
    if max < |hosts - gone| {
      SubsetOfEqualSize(gone, Evictable(hosts, now));
    }
  }

  /** A closed entry with live failures goes only when the other two kinds are gone. */
  lemma LiveClosedGoesLast(hosts: map<Host, HostCircuit>, gone: set<Host>, max: nat, now: nat, h: Host)
    requires LegalEviction(hosts, gone, max, now)
    requires h in gone && hosts[h].state.Closed? && hosts[h].failures != []
    ensures forall k :: k in hosts - gone ==> hosts[k].state != Closed || hosts[k].failures != []
    ensures forall k :: k in hosts - gone && hosts[k].state.Open? ==> now < hosts[k].state.until
  {
  }

  /** An expired open entry goes only when no idle closed one is left. */
  lemma ExpiredGoesAfterIdle(hosts: map<Host, HostCircuit>, gone: set<Host>, max: nat, now: nat, h: Host)
    requires LegalEviction(hosts, gone, max, now)
    requires h in gone && hosts[h].state.Open?
    ensures hosts[h].state.until <= now
    ensures forall k :: k in hosts - gone ==> hosts[k].state != Closed || hosts[k].failures != []
  {
    assert h !in Matching(hosts, IdleClosed, now) && h !in Matching(hosts, AnyClosed, now);
  }

  /** Whatever the map, there is an eviction the pass may make. */
  lemma EvictionExists(hosts: map<Host, HostCircuit>, max: nat, now: nat) returns (gone: set<Host>)
    ensures LegalEviction(hosts, gone, max, now)
  {
    gone := InOrderExists(Matching(hosts, IdleClosed, now), Matching(hosts, ExpiredOpen, now),
                          Matching(hosts, AnyClosed, now), Excess(|hosts|, max));
  }

  lemma InOrderExists<T>(first: set<T>, second: set<T>, third: set<T>, excess: nat) returns (gone: set<T>)
    ensures InOrder(first, second, third, gone, excess)
  {
    var all := first + second + third;
    if excess <= |first| {
      gone := SubsetOfSize(first, excess);
      SubsetSize(first, all);
    } else if excess <= |first + second| {
      gone := Topped(first, second, excess);
      SubsetSize(first + second, all);
    } else {
      SubsetSize(first + second, all);
      gone := Topped(first + second, third, Min(excess, |all|));
    }
  }

  /** All of one set, topped up from another to the size asked for. */
  lemma Topped<T>(base: set<T>, more: set<T>, size: nat) returns (t: set<T>)
    requires |base| <= size <= |base + more|
    ensures base <= t <= base + more && |t| == size
  {
    assert base + more == base + (more - base);
    var top := SubsetOfSize(more - base, size - |base|);
    t := base + top;
  }

  // -------------------------------------------------------------------- runs

  datatype Op = Check | Success | Failure

  /**
   One call on the breaker at `now`. `verdict` is the answer of a check, or whether a
   failure opened the host; `gone` holds the hosts the call evicted.
   */
  datatype Event = Event(op: Op, host: Host, now: nat, verdict: bool, gone: set<Host>)

  function EntryOf(hosts: map<Host, HostCircuit>, h: Host): HostCircuit {
    if h in hosts then hosts[h] else FRESH
  }

  /** The host map after the call's own update, before any eviction. */
  function Touched(s: Settings, hosts: map<Host, HostCircuit>, e: Event): map<Host, HostCircuit> {
    match e.op
    case Check => hosts[e.host := OnCheck(EntryOf(hosts, e.host), e.now, s).0]
    case Success => if e.host in hosts then hosts[e.host := FRESH] else hosts
    case Failure => hosts[e.host := OnFailure(EntryOf(hosts, e.host), e.now, s).0]
  }

  function Verdict(s: Settings, hosts: map<Host, HostCircuit>, e: Event): bool {
    match e.op
    case Check => !s.enabled || OnCheck(EntryOf(hosts, e.host), e.now, s).1
    case Success => false
    case Failure => s.enabled && OnFailure(EntryOf(hosts, e.host), e.now, s).1
  }

  function After(s: Settings, hosts: map<Host, HostCircuit>, e: Event): map<Host, HostCircuit> {
    if s.enabled then Touched(s, hosts, e) - e.gone else hosts
  }

  /** Admitted checks and failures evict; rejected checks and successes do not. */
  predicate Legal(s: Settings, hosts: map<Host, HostCircuit>, e: Event) {
    && e.verdict == Verdict(s, hosts, e)
    && if s.enabled && (e.op.Failure? || (e.op.Check? && e.verdict)) then
         LegalEviction(Touched(s, hosts, e), e.gone, s.maxHosts, e.now)
       else
         e.gone == {}
  }

  function Front(evs: seq<Event>): seq<Event>
    requires evs != []
  {
    evs[..|evs| - 1]
  }

  function Last(evs: seq<Event>): Event
    requires evs != []
  {
    evs[|evs| - 1]
  }

  /** The clock after a run that began at `start`. */
  function Clock(start: nat, evs: seq<Event>): nat {
    if evs == [] then start else Last(evs).now
  }

  function Final(s: Settings, hosts: map<Host, HostCircuit>, evs: seq<Event>): map<Host, HostCircuit> {
    if evs == [] then hosts else After(s, Final(s, hosts, Front(evs)), Last(evs))
  }

  /** Every event is a call the breaker can make there, on a clock that never goes back. */
  predicate Run(s: Settings, hosts: map<Host, HostCircuit>, start: nat, evs: seq<Event>) {
    evs == [] || (
      && Run(s, hosts, start, Front(evs))
      && Clock(start, Front(evs)) <= Last(evs).now
      && Legal(s, Final(s, hosts, Front(evs)), Last(evs)))
  }

  predicate Reachable(s: Settings, evs: seq<Event>) {
    s.Valid() && Run(s, map[], 0, evs)
  }

  /** Every call can be made in every state: the breaker never gets stuck. */
  lemma CallPossible(s: Settings, hosts: map<Host, HostCircuit>, op: Op, h: Host, now: nat) returns (e: Event)
    ensures e.op == op && e.host == h && e.now == now && Legal(s, hosts, e)
  {
    var verdict := Verdict(s, hosts, Event(op, h, now, false, {}));
    e := Event(op, h, now, verdict, {});
    if s.enabled && (op.Failure? || (op.Check? && verdict)) {
      var gone := EvictionExists(Touched(s, hosts, e), s.maxHosts, now);
      e := Event(op, h, now, verdict, gone);
    }
  }

  lemma RunSnoc(s: Settings, hosts: map<Host, HostCircuit>, start: nat, evs: seq<Event>, e: Event)
    ensures Run(s, hosts, start, evs + [e]) <==>
            Run(s, hosts, start, evs) && Clock(start, evs) <= e.now && Legal(s, Final(s, hosts, evs), e)
    ensures Final(s, hosts, evs + [e]) == After(s, Final(s, hosts, evs), e)
    ensures Clock(start, evs + [e]) == e.now
  {
  }
}
