/**
 The in-flight cap. Each request adds itself to a shared 64-bit counter, and takes its
 addition back at once when it finds the cap reached, or later when its permit is dropped. A
 cap of zero disables all this: requests then run without touching the counter.
 */
module LoadShed {
  const U64: nat := 0x1_0000_0000_0000_0000

  /** The counter, the requests holding a permit, and those about to take their addition back. */
  datatype Gate = Gate(counter: nat, holding: set<nat>, rejecting: set<nat>)

  const IDLE := Gate(0, {}, {})

  datatype Step = Arrive(id: nat) | Undo(id: nat) | Release(id: nat)

  function Load(g: Gate): nat {
    |g.holding| + |g.rejecting|
  }

  /** One atomic step; at most 2^64 - 1 requests are ever counted at once. */
  predicate Can(g: Gate, step: Step) {
    match step
    case Arrive(id) => id !in g.holding + g.rejecting && Load(g) + 1 < U64
    case Undo(id) => id in g.rejecting
    case Release(id) => id in g.holding
  }

  function Added(counter: nat): nat {
    (counter + 1) % U64
  }

  function Subtracted(counter: nat): nat {
    (counter + U64 - 1) % U64
  }

  function Taken(g: Gate, max: nat, step: Step): Gate {
    match step
    case Arrive(id) =>
      if max == 0 then g
      else if g.counter >= max then g.(counter := Added(g.counter), rejecting := g.rejecting + {id})
      else g.(counter := Added(g.counter), holding := g.holding + {id})
    case Undo(id) => g.(counter := Subtracted(g.counter), rejecting := g.rejecting - {id})
    case Release(id) => g.(counter := Subtracted(g.counter), holding := g.holding - {id})
  }

  predicate Safe(g: Gate, max: nat) {
    && g.holding !! g.rejecting
    && g.counter == Load(g) < U64
    && |g.holding| <= max
  }

  lemma NoWrap(counter: nat)
    requires counter < U64
    ensures counter + 1 < U64 ==> Added(counter) == counter + 1
    ensures 0 < counter ==> Subtracted(counter) == counter - 1
  {
  }

  lemma SetSizes(s: set<nat>, id: nat)
    ensures |s + {id}| == if id in s then |s| else |s| + 1
    ensures |s - {id}| == if id in s then |s| - 1 else |s|
  {
  }

  lemma ArrivalKeepsSafe(g: Gate, max: nat, id: nat)
    requires Safe(g, max) && Can(g, Arrive(id))
    ensures Safe(Taken(g, max, Arrive(id)), max)
  {
    NoWrap(g.counter);
    if g.counter >= max {
      SetSizes(g.rejecting, id);
    } else {
      SetSizes(g.holding, id);
    }
  }

  lemma DepartureKeepsSafe(g: Gate, max: nat, step: Step)
    requires Safe(g, max) && Can(g, step) && !step.Arrive?
    ensures Safe(Taken(g, max, step), max) && 0 < g.counter
  {
    NoWrap(g.counter);
    if step.Undo? {
      SetSizes(g.rejecting, step.id);
    } else {
      SetSizes(g.holding, step.id);
    }
  }

  lemma StepKeepsSafe(g: Gate, max: nat, step: Step)
    requires Safe(g, max) && Can(g, step)
    ensures Safe(Taken(g, max, step), max)
    ensures !step.Arrive? ==> 0 < g.counter
  {
    if step.Arrive? {
      ArrivalKeepsSafe(g, max, step.id);
    } else {
      DepartureKeepsSafe(g, max, step);
    }
  }

  predicate Playable(max: nat, steps: seq<Step>) {
    steps == [] || (Playable(max, steps[..|steps| - 1])
                    && Can(GateAfter(max, steps[..|steps| - 1]), steps[|steps| - 1]))
  }

  function GateAfter(max: nat, steps: seq<Step>): Gate {
    if steps == [] then IDLE
    else Taken(GateAfter(max, steps[..|steps| - 1]), max, steps[|steps| - 1])
  }

  /** A run can be continued by every step that can be taken, and any new request can arrive. */
  lemma PlaySnoc(max: nat, steps: seq<Step>, step: Step)
    requires Playable(max, steps)
    ensures Playable(max, steps + [step]) <==> Can(GateAfter(max, steps), step)
    ensures GateAfter(max, steps + [step]) == Taken(GateAfter(max, steps), max, step)
    ensures step.Arrive? ==>
              var g := GateAfter(max, steps);
              Can(g, step) <==>
                step.id !in g.holding && step.id !in g.rejecting && |g.holding| + |g.rejecting| <= U64 - 2
  {
  }

  /**
   Over every interleaving: permits never exceed the cap, the counter is exactly the permits
   plus the rejected requests yet to decrement, and it is zero when no request is left.
   */
  lemma {:induction false} SafeOverRuns(max: nat, steps: seq<Step>)
    requires Playable(max, steps)
    ensures var g := GateAfter(max, steps);
            && Safe(g, max)
            && (g.holding == {} && g.rejecting == {} ==> g.counter == 0)
  {
    if steps == [] {
    } else {
      SafeOverRuns(max, steps[..|steps| - 1]);
      StepKeepsSafe(GateAfter(max, steps[..|steps| - 1]), max, steps[|steps| - 1]);
    }
  }

  /** No decrement ever wraps below zero. */
  lemma NoUnderflow(max: nat, steps: seq<Step>, step: Step)
    requires Playable(max, steps) && Can(GateAfter(max, steps), step) && !step.Arrive?
    ensures Taken(GateAfter(max, steps), max, step).counter == GateAfter(max, steps).counter - 1
  {
    SafeOverRuns(max, steps);
    StepKeepsSafe(GateAfter(max, steps), max, step);
  }

  /**
   A request is shed exactly when there is a cap and permits and not yet undone rejections
   together reach it; with no rejection pending, exactly when all permits are taken.
   */
  lemma ShedExactly(max: nat, steps: seq<Step>, id: nat)
    requires Playable(max, steps) && Can(GateAfter(max, steps), Arrive(id))
    ensures var g := GateAfter(max, steps);
            var shed := id in Taken(g, max, Arrive(id)).rejecting;
            && (shed <==> 0 < max <= |g.holding| + |g.rejecting|)
            && (g.rejecting == {} ==> (shed <==> 0 < max == |g.holding|))
  {
    SafeOverRuns(max, steps);
  }

  /** Under a cap a request not shed holds a permit, and either way it has counted itself. */
  lemma PermitOrRejection(max: nat, steps: seq<Step>, id: nat)
    requires Playable(max, steps) && Can(GateAfter(max, steps), Arrive(id)) && 0 < max
    ensures var g, t := GateAfter(max, steps), Taken(GateAfter(max, steps), max, Arrive(id));
            && t.counter == g.counter + 1
            && (t.holding, t.rejecting) in {(g.holding + {id}, g.rejecting), (g.holding, g.rejecting + {id})}
  {
    SafeOverRuns(max, steps);
    NoWrap(GateAfter(max, steps).counter);
  }

  /** Without a cap nothing is ever shed and the counter is never touched, however many run. */
  lemma {:induction false} NoCapNoShedding(steps: seq<Step>)
    requires Playable(0, steps)
    ensures GateAfter(0, steps) == IDLE
    ensures forall step :: step in steps ==> step.Arrive?
  {
    if steps == [] {
    } else {
      NoCapNoShedding(steps[..|steps| - 1]);
      assert Can(IDLE, steps[|steps| - 1]);
    }
  }

  /** The shared counter itself; each method is one atomic operation of one request. */
  class Inflight {
    const max: nat
    var counter: nat
    ghost var holding: set<nat>
    ghost var rejecting: set<nat>

    ghost function State(): Gate
      reads this
    {
      Gate(counter, holding, rejecting)
    }

    constructor (max: nat)
      ensures State() == IDLE && this.max == max
    {
      this.max := max;
      counter, holding, rejecting := 0, {}, {};
    }

    method FetchAdd() returns (prev: nat)
      modifies this`counter
      ensures prev == old(counter) && counter == Added(prev)
    {
      prev := counter;
      counter := (counter + 1) % U64;
    }

    method FetchSub()
      modifies this`counter
      ensures counter == Subtracted(old(counter))
    {
      counter := (counter + U64 - 1) % U64;
    }

    /** Without a cap the request just runs; else `fetch_add`, and its result against the cap. */
    method Enter(id: nat) returns (admitted: bool)
      requires Safe(State(), max) && Can(State(), Step.Arrive(id))
      modifies this
      ensures State() == Taken(old(State()), max, Step.Arrive(id)) && Safe(State(), max)
      ensures admitted <==> id !in rejecting
      ensures max == 0 ==> admitted && State() == old(State())
      ensures 0 < max ==> (admitted <==> id in holding)
    {
      StepKeepsSafe(State(), max, Step.Arrive(id));
      if max == 0 {
        return true;
      }
      var prev := FetchAdd();
      admitted := prev < max;
      if admitted {
        holding := holding + {id};
      } else {
        rejecting := rejecting + {id};
      }
    }

    method UndoRejected(id: nat)
      requires Safe(State(), max) && Can(State(), Step.Undo(id))
      modifies this
      ensures State() == Taken(old(State()), max, Step.Undo(id)) && Safe(State(), max)
    {
      StepKeepsSafe(State(), max, Step.Undo(id));
      FetchSub();
      rejecting := rejecting - {id};
    }

    method DropPermit(id: nat)
      requires Safe(State(), max) && Can(State(), Step.Release(id))
      modifies this
      ensures State() == Taken(old(State()), max, Step.Release(id)) && Safe(State(), max)
    {
      StepKeepsSafe(State(), max, Step.Release(id));
      FetchSub();
      holding := holding - {id};
    }
  }
}
