/**
 Requests running while the configuration is reloaded. A reload that changes the breaker section
 puts a new breaker in place, and requests under way settle their hops on the one they took along.
 */
module Fleet {
  import opened Wrappers
  import Circuit
  import Breaker
  import Exchange
  import Redirect
  import opened Traffic
  import opened Reload
  import opened Handler

  /** One breaker object, with the requests that took it along and the calls made on it. */
  datatype Ledger = Ledger(settings: Circuit.Settings, world: World)

  /** The running server, and every breaker that ever was live, by identity. */
  datatype Fleet<P> = Fleet(server: Server<P>, ledgers: map<nat, Ledger>)

  datatype Move =
    | Reloading(a: Attempt)
    | Sending(id: nat, request: Redirect.Request, resolve: Redirect.Resolver)
    | Acting(breaker: nat, act: Act)

  /** The configured numbers fit the widths of their fields. */
  predicate Typed(config: Config) {
    && config.circuit.threshold <= Circuit.U32_MAX && config.circuit.halfOpenMax <= Circuit.U32_MAX
    && config.limits.maxRedirects <= Exchange.U8_MAX
  }

  function LiveBreaker<P>(f: Fleet<P>): nat {
    f.server.live.circuit.id
  }

  /** A new request takes along the live client and the live breaker, from one snapshot. */
  predicate CanMove<P>(f: Fleet<P>, m: Move) {
    match m
    case Reloading(a) => a.config.Some? ==> Typed(a.config.value)
    case Sending(id, request, resolve) =>
      && LiveBreaker(f) in f.ledgers
      && var on := f.ledgers[LiveBreaker(f)];
         CanAct(on.settings, on.world, Arrive(id, ClientOf(f.server.live, resolve), request))
    case Acting(b, act) =>
      && b in f.ledgers && !act.Arrive?
      && CanAct(f.ledgers[b].settings, f.ledgers[b].world, act)
  }

  function Acts(ledgers: map<nat, Ledger>, b: nat, act: Act): map<nat, Ledger>
    requires b in ledgers && CanAct(ledgers[b].settings, ledgers[b].world, act)
  {
    ledgers[b := ledgers[b].(world := Acted(ledgers[b].settings, ledgers[b].world, act))]
  }

  function Moved<P>(c: Compiler<P>, f: Fleet<P>, m: Move): Fleet<P>
    requires CanMove(f, m)
  {
    match m
    case Reloading(a) =>
      var server := Reloaded(c, f.server, a);
      var live := server.live.circuit;
      Fleet(server, if live.id in f.ledgers then f.ledgers else f.ledgers[live.id := Ledger(live.value, EMPTY)])
    case Sending(id, request, resolve) =>
      f.(ledgers := Acts(f.ledgers, LiveBreaker(f), Arrive(id, ClientOf(f.server.live, resolve), request)))
    case Acting(b, act) =>
      f.(ledgers := Acts(f.ledgers, b, act))
  }

  predicate Playable<P>(c: Compiler<P>, f: Fleet<P>, moves: seq<Move>)
    decreases |moves|, 0
  {
    moves == [] || (Playable(c, f, moves[..|moves| - 1])
                    && CanMove(FleetAfter(c, f, moves[..|moves| - 1]), moves[|moves| - 1]))
  }

  function FleetAfter<P>(c: Compiler<P>, f: Fleet<P>, moves: seq<Move>): Fleet<P>
    requires Playable(c, f, moves)
    decreases |moves|, 1
  {
    if moves == [] then f else Moved(c, FleetAfter(c, f, moves[..|moves| - 1]), moves[|moves| - 1])
  }

  /** The step a move takes on one breaker, if it takes one there. */
  function ActOn<P>(f: Fleet<P>, m: Move, b: nat): Option<Act> {
    match m
    case Reloading(_) => None
    case Sending(id, request, resolve) =>
      if b == LiveBreaker(f) then Some(Arrive(id, ClientOf(f.server.live, resolve), request)) else None
    case Acting(breaker, act) => if b == breaker then Some(act) else None
  }

  /**
   Move by move: each breaker known so far takes exactly the step meant for it and keeps its
   settings, and only a reload brings in another, with an empty ledger.
   */
  lemma MovesExactly<P>(c: Compiler<P>, f: Fleet<P>, m: Move, b: nat)
    requires CanMove(f, m) && b in f.ledgers
    ensures var t := Moved(c, f, m);
            && b in t.ledgers && t.ledgers[b].settings == f.ledgers[b].settings
            && match ActOn(f, m, b)
               case None => t.ledgers[b] == f.ledgers[b]
               case Some(act) =>
                 && CanAct(f.ledgers[b].settings, f.ledgers[b].world, act)
                 && t.ledgers[b].world == Acted(f.ledgers[b].settings, f.ledgers[b].world, act)
  {
  }

  lemma NewLedgers<P>(c: Compiler<P>, f: Fleet<P>, m: Move)
    requires CanMove(f, m)
    ensures var t := Moved(c, f, m);
            forall b :: b in t.ledgers && b !in f.ledgers ==>
              m.Reloading? && b == LiveBreaker(t) && t.ledgers[b] == Ledger(t.server.live.circuit.value, EMPTY)
    ensures m.Reloading? ==> LiveBreaker(Moved(c, f, m)) in Moved(c, f, m).ledgers
  {
  }

  /** A reload can be asked for with any configuration whose numbers fit their fields. */
  lemma AnyReload<P>(f: Fleet<P>, a: Attempt)
    ensures CanMove(f, Reloading(a)) <==>
              a.config.None?
              || (&& a.config.value.circuit.threshold < 0x1_0000_0000
                  && a.config.value.circuit.halfOpenMax < 0x1_0000_0000 && a.config.value.limits.maxRedirects < 256)
  {
  }

  // ------------------------------------------------------ one ledger each

  ghost predicate Kept(on: Ledger) {
    on.settings.Valid() && Balanced(on.settings, on.world) && forall h :: HostBalanced(on.world, h)
  }

  /** Every breaker's books are in order, and the live one runs with the live settings. */
  ghost predicate Sound<P>(f: Fleet<P>) {
    && (forall b :: b in f.ledgers ==> b < f.server.ids && Kept(f.ledgers[b]))
    && LiveBreaker(f) in f.ledgers
    && f.ledgers[LiveBreaker(f)].settings == f.server.live.circuit.value
  }

  lemma NothingOwed(settings: Circuit.Settings)
    requires settings.Valid()
    ensures Kept(Ledger(settings, EMPTY))
  {
    assert Live(EMPTY.sessions) == {};
    forall h
      ensures HostBalanced(EMPTY, h)
    {
      assert LiveOn(EMPTY.sessions, h) == {};
    }
  }

  lemma ActKeepsLedger(on: Ledger, act: Act)
    requires Kept(on) && CanAct(on.settings, on.world, act)
    ensures Kept(on.(world := Acted(on.settings, on.world, act)))
  {
    ActKeepsBalance(on.settings, on.world, act);
    forall h
      ensures HostBalanced(Acted(on.settings, on.world, act), h)
    {
      ActKeepsHostBalance(on.settings, on.world, act, h);
    }
  }

  /** The breaker of a reloaded server is the old one, or a new one numbered past all others. */
  lemma ReloadedBreaker<P>(c: Compiler<P>, s: Server<P>, a: Attempt)
    requires a.config.Some? ==> Typed(a.config.value)
    ensures var t := Reloaded(c, s, a);
            && s.ids <= t.ids
            && (|| t.live.circuit == s.live.circuit
                || (s.ids <= t.live.circuit.id < t.ids && t.live.circuit.value.Valid()))
  {
  }

  lemma MoveKeepsSound<P>(c: Compiler<P>, f: Fleet<P>, m: Move)
    requires Sound(f) && CanMove(f, m)
    ensures Sound(Moved(c, f, m))
  {
    match m
    case Reloading(a) =>
      ReloadKeepsSound(c, f, a);
    case Sending(id, request, resolve) =>
      ActKeepsSound(f, LiveBreaker(f), Arrive(id, ClientOf(f.server.live, resolve), request));
    case Acting(b, act) =>
      ActKeepsSound(f, b, act);
  }

  lemma ReloadKeepsSound<P>(c: Compiler<P>, f: Fleet<P>, a: Attempt)
    requires Sound(f) && CanMove(f, Reloading(a))
    ensures Sound(Moved(c, f, Reloading(a)))
  {
    ReloadedBreaker(c, f.server, a);
    var live := Reloaded(c, f.server, a).live.circuit;
    if live.id !in f.ledgers {
      NothingOwed(live.value);
    }
  }

  lemma ActKeepsSound<P>(f: Fleet<P>, b: nat, act: Act)
    requires Sound(f) && b in f.ledgers && CanAct(f.ledgers[b].settings, f.ledgers[b].world, act)
    ensures Sound(f.(ledgers := Acts(f.ledgers, b, act)))
  {
    ActKeepsLedger(f.ledgers[b], act);
  }

  /** A server at its start, with its one breaker. */
  ghost predicate Fresh<P>(c: Compiler<P>, f: Fleet<P>) {
    && Started(c, f.server) && Typed(f.server.startup)
    && f.ledgers == map[LiveBreaker(f) := Ledger(f.server.live.circuit.value, EMPTY)]
  }

  /**
   Under every interleaving of requests, cancellations and reloads each breaker that ever was
   live balances on its own, in all and host by host: hops it admitted are settled on it or
   held by guards taken from it.
   */
  lemma {:induction false} LedgersOverReloads<P>(c: Compiler<P>, f: Fleet<P>, moves: seq<Move>)
    requires Fresh(c, f) && Playable(c, f, moves)
    ensures Sound(FleetAfter(c, f, moves))
  {
    if moves == [] {
      NothingOwed(f.server.live.circuit.value);
    } else {
      LedgersOverReloads(c, f, moves[..|moves| - 1]);
      MoveKeepsSound(c, FleetAfter(c, f, moves[..|moves| - 1]), moves[|moves| - 1]);
    }
  }

  /** When all requests that took a breaker along are done, every hop it admitted has been settled. */
  lemma QuiescentLedger<P>(c: Compiler<P>, f: Fleet<P>, moves: seq<Move>, b: nat)
    requires Fresh(c, f) && Playable(c, f, moves) && b in FleetAfter(c, f, moves).ledgers
    requires var sessions := FleetAfter(c, f, moves).ledgers[b].world.sessions;
             forall id :: id in sessions ==> StateOf(sessions[id]).phase.Done?
    ensures var events := FleetAfter(c, f, moves).ledgers[b].world.events;
            Breaker.Admissions(events) == Breaker.Settlements(events)
  {
    LedgersOverReloads(c, f, moves);
    assert Live(FleetAfter(c, f, moves).ledgers[b].world.sessions) == {};
  }

  // ------------------------------------------------------- live and retired

  /** The reloads among the moves. */
  function Attempts(moves: seq<Move>): seq<Attempt> {
    if moves == [] then []
    else
      var last := moves[|moves| - 1];
      Attempts(moves[..|moves| - 1]) + if last.Reloading? then [last.a] else []
  }

  /** Requests do not touch the server: it goes through the reloads alone. */
  lemma {:induction false} ServerAlone<P>(c: Compiler<P>, f: Fleet<P>, moves: seq<Move>)
    requires Playable(c, f, moves)
    ensures FleetAfter(c, f, moves).server == Reload.After(c, f.server, Attempts(moves))
  {
    if moves == [] {
    } else {
      var front, last := moves[..|moves| - 1], moves[|moves| - 1];
      ServerAlone(c, f, front);
      if last.Reloading? {
        assert Attempts(moves)[..|Attempts(moves)| - 1] == Attempts(front);
      } else {
        assert Attempts(moves) == Attempts(front);
      }
    }
  }

  /**
   Requests sent at two points share a breaker if and only if its section was equal at every
   reload accepted in between.
   */
  lemma SharedBreakerExactly<P>(c: Compiler<P>, f: Fleet<P>, moves: seq<Move>)
    requires Sound(f) && Playable(c, f, moves)
    ensures LiveBreaker(FleetAfter(c, f, moves)) == LiveBreaker(f) <==>
            SectionHeld(c, f.server, Attempts(moves), KeptCircuit)
  {
    ServerAlone(c, f, moves);
    RetainedExactly(c, f.server, Attempts(moves), KeptCircuit);
  }

  /** A breaker no longer live never is again, and takes no new request: it only drains. */
  lemma {:induction false} RetiredOnlyDrains<P>(c: Compiler<P>, f: Fleet<P>, moves: seq<Move>, b: nat)
    requires Sound(f) && Playable(c, f, moves)
    requires b in f.ledgers && b != LiveBreaker(f)
    ensures var t := FleetAfter(c, f, moves);
            && f.server.ids <= t.server.ids && LiveBreaker(t) != b
            && b in t.ledgers && t.ledgers[b].world.sessions.Keys == f.ledgers[b].world.sessions.Keys
  {
    if moves == [] {
    } else {
      var front, last := moves[..|moves| - 1], moves[|moves| - 1];
      RetiredOnlyDrains(c, f, front, b);
      DrainStep(c, FleetAfter(c, f, front), last, b);
    }
  }

  lemma DrainStep<P>(c: Compiler<P>, f: Fleet<P>, m: Move, b: nat)
    requires CanMove(f, m) && b in f.ledgers && b != LiveBreaker(f) && b < f.server.ids
    ensures var t := Moved(c, f, m);
            && f.server.ids <= t.server.ids && LiveBreaker(t) != b
            && b in t.ledgers && t.ledgers[b].world.sessions.Keys == f.ledgers[b].world.sessions.Keys
  {
    if m.Reloading? {
      ReloadedBreaker(c, f.server, m.a);
    }
  }
}
