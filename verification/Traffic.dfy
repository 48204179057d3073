/** Any number of requests interleaving on one shared breaker, step by atomic step. */
module Traffic {
  import opened Wrappers
  import opened Target
  import opened Redirect
  import opened Circuit
  import opened Breaker
  import opened Exchange

  /** One request: its client, what it first asked for, and all it has met so far. */
  datatype Session = Session(client: Client, first: Request, inputs: seq<Input>)

  function StateOf(x: Session): Machine {
    Played(x.client, x.first, x.inputs)
  }

  function Met(x: Session, input: Input): Session {
    x.(inputs := x.inputs + [input])
  }

  /** All requests, finished or not, and every call made on the breaker, in order. */
  datatype World = World(sessions: map<nat, Session>, events: seq<Event>)

  const EMPTY := World(map[], [])

  datatype Act =
    | Arrive(id: nat, client: Client, request: Request)
    | Refuse(id: nat)
    | Admit(id: nat, e: Event)
    | Settle(id: nat, reply: Reply, e: Event)

  predicate Callable(s: Settings, w: World, e: Event) {
    Clock(0, w.events) <= e.now && Legal(s, Final(s, map[], w.events), e)
  }

  /** One atomic step of one request; a cancellation is the settlement of a dropped reply. */
  predicate CanAct(s: Settings, w: World, a: Act) {
    match a
    case Arrive(id, client, _) => id !in w.sessions && client.maxRedirects <= U8_MAX
    case Refuse(id) =>
      id in w.sessions &&
      var m := StateOf(w.sessions[id]);
      m.phase.Launching? && CheckUri(m.client.policy, m.next.uri).Err?
    case Admit(id, e) =>
      id in w.sessions &&
      var m := StateOf(w.sessions[id]);
      && m.phase.Launching? && CheckUri(m.client.policy, m.next.uri).Ok?
      && e.op == Op.Check && e.host == HostOf(m.next.uri) && Callable(s, w, e)
    case Settle(id, reply, e) =>
      id in w.sessions &&
      var m := StateOf(w.sessions[id]);
      && m.phase.InFlight? && e.op == Settlement(m, reply, s.count5xx)
      && e.host == HostOf(m.next.uri) && Callable(s, w, e)
  }

  function Acted(s: Settings, w: World, a: Act): World
    requires CanAct(s, w, a)
  {
    match a
    case Arrive(id, client, r) => w.(sessions := w.sessions[id := Session(client, r, [])])
    case Refuse(id) => w.(sessions := w.sessions[id := Met(w.sessions[id], Verdict(true))])
    case Admit(id, e) => World(w.sessions[id := Met(w.sessions[id], Verdict(e.verdict))], w.events + [e])
    case Settle(id, reply, e) => World(w.sessions[id := Met(w.sessions[id], Yielded(reply))], w.events + [e])
  }

  /** Requests holding an unsettled hop guard. */
  function Live(sessions: map<nat, Session>): set<nat> {
    set id | id in sessions && StateOf(sessions[id]).phase.InFlight?
  }

  predicate Balanced(s: Settings, w: World) {
    Reachable(s, w.events) && Admissions(w.events) == Settlements(w.events) + |Live(w.sessions)|
  }

  lemma LedgerSnoc(evs: seq<Event>, e: Event)
    ensures Admissions(evs + [e]) == Admissions(evs) + if e.op == Op.Check && e.verdict then 1 else 0
    ensures Settlements(evs + [e]) == Settlements(evs) + if e.op == Op.Check then 0 else 1
  {
  }

  lemma LiveAfter(sessions: map<nat, Session>, id: nat, x: Session)
    ensures Live(sessions[id := x]) ==
            if StateOf(x).phase.InFlight? then Live(sessions) + {id} else Live(sessions) - {id}
  {
  }

  lemma StateAfter(x: Session, input: Input)
    ensures StateOf(Met(x, input)) == Fed(StateOf(x), input)
  {
    PlayedSnoc(x.client, x.first, x.inputs, input);
  }

  /** What the acting request meets. */
  function InputOf(a: Act): Input
    requires !a.Arrive?
  {
    match a
    case Refuse(_) => Verdict(true)
    case Admit(_, e) => Verdict(e.verdict)
    case Settle(_, reply, _) => Yielded(reply)
  }

  /** The state of the acting request after its step; the host it is about does not change while in flight. */
  lemma ActedState(s: Settings, w: World, a: Act)
    requires CanAct(s, w, a)
    ensures var after := Acted(s, w, a).sessions;
            && after == w.sessions[a.id := after[a.id]]
            && match a
               case Arrive(_, _, _) => !StateOf(after[a.id]).phase.InFlight?
               case Refuse(_) => StateOf(after[a.id]).phase.Done?
               case Admit(_, e) =>
                 && !StateOf(after[a.id]).phase.Launching?
                 && (StateOf(after[a.id]).phase.InFlight? <==> e.verdict)
                 && HostOf(StateOf(after[a.id]).next.uri) == e.host
               case Settle(_, _, _) => !StateOf(after[a.id]).phase.InFlight?
  {
    if !a.Arrive? {
      StateAfter(w.sessions[a.id], InputOf(a));
    }
  }

  /** The guard of the acting request is taken by an admission and given up by a settlement. */
  lemma LiveStep(s: Settings, w: World, a: Act)
    requires CanAct(s, w, a)
    ensures var live, after := Live(w.sessions), Live(Acted(s, w, a).sessions);
            match a
            case Arrive(_, _, _) => after == live
            case Refuse(_) => after == live
            case Admit(id, e) => id !in live && after == if e.verdict then live + {id} else live
            case Settle(id, _, _) => id in live && after == live - {id}
  {
    ActedState(s, w, a);
    LiveAfter(w.sessions, a.id, Acted(s, w, a).sessions[a.id]);
  }

  /** The calls of a step on the breaker, and of which kind they are. */
  function EventsOf(a: Act): seq<Event> {
    match a
    case Arrive(_, _, _) => []
    case Refuse(_) => []
    case Admit(_, e) => [e]
    case Settle(_, _, e) => [e]
  }

  lemma ActedEvents(s: Settings, w: World, a: Act)
    requires CanAct(s, w, a)
    ensures Acted(s, w, a).events == w.events + EventsOf(a)
    ensures a.Admit? ==> a.e.op == Op.Check
    ensures a.Settle? ==> a.e.op != Op.Check
  {
    if a.Settle? {
      FailuresByOutcome(StateOf(w.sessions[a.id]), a.reply, s.count5xx);
    }
  }

  lemma SetSizes(ids: set<nat>, id: nat)
    ensures |ids + {id}| == if id in ids then |ids| else |ids| + 1
    ensures |ids - {id}| == if id in ids then |ids| - 1 else |ids|
  {
  }

  lemma CountsMatch(before: seq<Event>, a: Act, live: set<nat>, after: set<nat>)
    requires Admissions(before) == Settlements(before) + |live|
    requires a.Admit? ==> a.e.op == Op.Check
    requires a.Settle? ==> a.e.op != Op.Check
    requires match a
             case Arrive(_, _, _) => after == live
             case Refuse(_) => after == live
             case Admit(id, e) => id !in live && after == if e.verdict then live + {id} else live
             case Settle(id, _, _) => id in live && after == live - {id}
    ensures Admissions(before + EventsOf(a)) == Settlements(before + EventsOf(a)) + |after|
  {
    SetSizes(live, a.id);
    if EventsOf(a) == [] {
      assert before + [] == before;
    } else {
      LedgerSnoc(before, a.e);
    }
  }

  lemma ActKeepsReachable(s: Settings, w: World, a: Act)
    requires Reachable(s, w.events) && CanAct(s, w, a)
    ensures Reachable(s, Acted(s, w, a).events)
  {
    if a.Admit? || a.Settle? {
      RecordedStep(s, w.events, a.e);
    }
  }

  lemma ActKeepsBalance(s: Settings, w: World, a: Act)
    requires Balanced(s, w) && CanAct(s, w, a)
    ensures Balanced(s, Acted(s, w, a))
  {
    ActKeepsReachable(s, w, a);
    ActedEvents(s, w, a);
    LiveStep(s, w, a);
    CountsMatch(w.events, a, Live(w.sessions), Live(Acted(s, w, a).sessions));
  }

  ghost predicate Step(s: Settings, w: World, t: World) {
    exists a :: CanAct(s, w, a) && t == Acted(s, w, a)
  }

  /** Worlds along a run of acts from the empty one. */
  ghost predicate History(s: Settings, worlds: seq<World>) {
    worlds != [] &&
    if |worlds| == 1 then worlds[0] == EMPTY
    else History(s, worlds[..|worlds| - 1]) && Step(s, worlds[|worlds| - 2], worlds[|worlds| - 1])
  }

  /**
   Settlement ledger: under every interleaving of arrivals, sends, replies and
   cancellations, hops admitted equal successes plus failures plus guards still live, and
   the breaker's calls form one of its runs.
   */
  lemma {:induction false} LedgerOverHistory(s: Settings, worlds: seq<World>)
    requires s.Valid() && History(s, worlds)
    ensures Balanced(s, worlds[|worlds| - 1])
  {
    var n := |worlds|;
    if n > 1 {
      LedgerOverHistory(s, worlds[..n - 1]);
      var a :| CanAct(s, worlds[n - 2], a) && worlds[n - 1] == Acted(s, worlds[n - 2], a);
      ActKeepsBalance(s, worlds[n - 2], a);
    } else {
      assert Live(EMPTY.sessions) == {};
    }
  }

  /** Any request can arrive, and starts from the beginning. */
  lemma AnyoneArrives(s: Settings, w: World, id: nat, client: Client, r: Request)
    requires id !in w.sessions && client.maxRedirects <= 255
    ensures CanAct(s, w, Arrive(id, client, r))
    ensures var after := Acted(s, w, Arrive(id, client, r)).sessions;
            after == w.sessions[id := after[id]] && StateOf(after[id]) == Begin(client, r)
  {
  }

  /** A step moves its request on by what it met, records its own call, and touches no other request. */
  lemma ActsExactly(s: Settings, w: World, a: Act)
    requires CanAct(s, w, a) && !a.Arrive?
    ensures var t := Acted(s, w, a);
            && t.sessions.Keys == w.sessions.Keys
            && (forall id :: id in w.sessions && id != a.id ==> t.sessions[id] == w.sessions[id])
            && StateOf(t.sessions[a.id]) == Fed(StateOf(w.sessions[a.id]), InputOf(a))
            && StateOf(t.sessions[a.id]).phase != StateOf(w.sessions[a.id]).phase
            && t.events == w.events + EventsOf(a)
  {
    StateAfter(w.sessions[a.id], InputOf(a));
    ActedState(s, w, a);
  }

  /**
   No request is ever stuck: whatever the others have done, one about to send can take its next
   step, and one in flight can be settled with any reply, cancellation included.
   */
  lemma NeverStuck(s: Settings, w: World, id: nat, reply: Reply, now: nat) returns (a: Act)
    requires Balanced(s, w) && Clock(0, w.events) <= now && id in w.sessions
    ensures StateOf(w.sessions[id]).phase.Launching? ==>
              CanAct(s, w, a) && a.id == id && (a.Refuse? || a.Admit?)
    ensures StateOf(w.sessions[id]).phase.InFlight? ==> CanAct(s, w, a) && a.Settle? && a.id == id && a.reply == reply
  {
    var m := StateOf(w.sessions[id]);
    var hosts := Final(s, map[], w.events);
    if m.phase.Launching? && CheckUri(m.client.policy, m.next.uri).Ok? {
      var e := CallPossible(s, hosts, Op.Check, HostOf(m.next.uri), now);
      a := Admit(id, e);
    } else if m.phase.InFlight? {
      var e := CallPossible(s, hosts, Settlement(m, reply, s.count5xx), HostOf(m.next.uri), now);
      a := Settle(id, reply, e);
    } else {
      a := Refuse(id);
    }
  }

  // ------------------------------------------------------- host by host

  function AdmissionsOf(evs: seq<Event>, h: Host): nat {
    if evs == [] then 0
    else
      var e := Last(evs);
      AdmissionsOf(Front(evs), h) + if e.host == h && e.op == Op.Check && e.verdict then 1 else 0
  }

  function SettlementsOf(evs: seq<Event>, h: Host): nat {
    if evs == [] then 0
    else
      var e := Last(evs);
      SettlementsOf(Front(evs), h) + if e.host == h && e.op != Op.Check then 1 else 0
  }

  /** Requests holding an unsettled guard of `h`. */
  function LiveOn(sessions: map<nat, Session>, h: Host): set<nat> {
    set id | id in sessions && StateOf(sessions[id]).phase.InFlight? && HostOf(StateOf(sessions[id]).next.uri) == h
  }

  lemma HostLedgerSnoc(evs: seq<Event>, e: Event, h: Host)
    ensures AdmissionsOf(evs + [e], h) ==
            AdmissionsOf(evs, h) + if e.host == h && e.op == Op.Check && e.verdict then 1 else 0
    ensures SettlementsOf(evs + [e], h) == SettlementsOf(evs, h) + if e.host == h && e.op != Op.Check then 1 else 0
  {
  }

  lemma LiveOnAfter(sessions: map<nat, Session>, id: nat, x: Session, h: Host)
    ensures LiveOn(sessions[id := x], h) ==
            if StateOf(x).phase.InFlight? && HostOf(StateOf(x).next.uri) == h then LiveOn(sessions, h) + {id}
            else LiveOn(sessions, h) - {id}
  {
  }

  lemma LiveOnStep(s: Settings, w: World, a: Act, h: Host)
    requires CanAct(s, w, a)
    ensures var live, after := LiveOn(w.sessions, h), LiveOn(Acted(s, w, a).sessions, h);
            match a
            case Arrive(_, _, _) => after == live
            case Refuse(_) => after == live
            case Admit(id, e) => id !in live && after == if e.host == h && e.verdict then live + {id} else live
            case Settle(id, _, e) => (id in live <==> e.host == h) && after == live - {id}
  {
    ActedState(s, w, a);
    LiveOnAfter(w.sessions, a.id, Acted(s, w, a).sessions[a.id], h);
  }

  /** What is admitted for `h` is settled for `h`, or still held by a guard of `h`. */
  predicate HostBalanced(w: World, h: Host) {
    AdmissionsOf(w.events, h) == SettlementsOf(w.events, h) + |LiveOn(w.sessions, h)|
  }

  lemma HostCountsMatch(before: seq<Event>, a: Act, h: Host, live: set<nat>, after: set<nat>)
    requires AdmissionsOf(before, h) == SettlementsOf(before, h) + |live|
    requires a.Admit? ==> a.e.op == Op.Check
    requires a.Settle? ==> a.e.op != Op.Check
    requires match a
             case Arrive(_, _, _) => after == live
             case Refuse(_) => after == live
             case Admit(id, e) => id !in live && after == if e.host == h && e.verdict then live + {id} else live
             case Settle(id, _, e) => (id in live <==> e.host == h) && after == live - {id}
    ensures AdmissionsOf(before + EventsOf(a), h) == SettlementsOf(before + EventsOf(a), h) + |after|
  {
    SetSizes(live, a.id);
    if EventsOf(a) == [] {
      assert before + [] == before;
    } else {
      HostLedgerSnoc(before, a.e, h);
    }
  }

  lemma ActKeepsHostBalance(s: Settings, w: World, a: Act, h: Host)
    requires HostBalanced(w, h) && CanAct(s, w, a)
    ensures HostBalanced(Acted(s, w, a), h)
  {
    ActedEvents(s, w, a);
    LiveOnStep(s, w, a, h);
    HostCountsMatch(w.events, a, h, LiveOn(w.sessions, h), LiveOn(Acted(s, w, a).sessions, h));
  }

  /** The ledger holds host by host, so no hop is ever settled on another host than its own. */
  lemma {:induction false} HostLedgerOverHistory(s: Settings, worlds: seq<World>, h: Host)
    requires s.Valid() && History(s, worlds)
    ensures HostBalanced(worlds[|worlds| - 1], h)
  {
    var n := |worlds|;
    if n > 1 {
      HostLedgerOverHistory(s, worlds[..n - 1], h);
      var a :| CanAct(s, worlds[n - 2], a) && worlds[n - 1] == Acted(s, worlds[n - 2], a);
      ActKeepsHostBalance(s, worlds[n - 2], a, h);
    } else {
      assert LiveOn(EMPTY.sessions, h) == {};
    }
  }

  /** At quiescence every admitted hop has been settled exactly once. */
  lemma QuiescentLedger(s: Settings, worlds: seq<World>)
    requires s.Valid() && History(s, worlds)
    requires var w := worlds[|worlds| - 1]; forall id :: id in w.sessions ==> StateOf(w.sessions[id]).phase.Done?
    ensures var w := worlds[|worlds| - 1]; Admissions(w.events) == Settlements(w.events)
  {
    LedgerOverHistory(s, worlds);
    assert Live(worlds[|worlds| - 1].sessions) == {};
  }
}
