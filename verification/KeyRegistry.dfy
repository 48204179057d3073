/**
 The bounded registry of rate-limit keys. A new key is looked up, the size is checked, the
 key inserted, the size checked again and the insertion undone on overshoot; other threads
 may run between any two of these operations.
 */
module KeyRegistry {
  import opened Wrappers

  type Key = string

  /** Where one call of `admit_key` stands; each stage names the operation it does next. */
  datatype Stage =
    | Looking(key: Key)
    | Sizing(key: Key)
    | Inserting(key: Key)
    | Deciding(key: Key)
    | Removing(key: Key)
    | Done(key: Key, admitted: bool)

  datatype Registry = Registry(keys: set<Key>, threads: map<nat, Stage>)

  const EMPTY := Registry({}, map[])

  datatype Step = Call(id: nat, key: Key) | Go(id: nat)

  predicate Can(r: Registry, step: Step) {
    match step
    case Call(id, _) => id !in r.threads
    case Go(id) => id in r.threads && !r.threads[id].Done?
  }

  function Moved(r: Registry, max: nat, step: Step): Registry
    requires Can(r, step)
  {
    match step
    case Call(id, key) => r.(threads := r.threads[id := Looking(key)])
    case Go(id) =>
      match r.threads[id]
      case Looking(key) =>
        r.(threads := r.threads[id := if key in r.keys then Done(key, true) else Sizing(key)])
      case Sizing(key) =>
        r.(threads := r.threads[id := if |r.keys| >= max then Done(key, false) else Inserting(key)])
      case Inserting(key) =>
        Registry(r.keys + {key}, r.threads[id := Deciding(key)])
      case Deciding(key) =>
        r.(threads := r.threads[id := if |r.keys| > max then Removing(key) else Done(key, true)])
      case Removing(key) =>
        Registry(r.keys - {key}, r.threads[id := Done(key, false)])
  }

  // ------------------------------------------------------------- the cap

  /** Threads between their insertion and their decision. */
  function Pending(threads: map<nat, Stage>): set<nat> {
    set id | id in threads && (threads[id].Deciding? || threads[id].Removing?)
  }

  function PendingKeys(threads: map<nat, Stage>): set<Key> {
    set id | id in Pending(threads) :: threads[id].key
  }

  predicate Capped(r: Registry, max: nat) {
    |r.keys - PendingKeys(r.threads)| <= max
  }

  lemma PendingKeysAfter(threads: map<nat, Stage>, id: nat, stage: Stage)
    requires id in threads && stage.key == threads[id].key
    ensures var after := PendingKeys(threads[id := stage]);
            && (stage.Deciding? || stage.Removing? ==> after == PendingKeys(threads) + {stage.key})
            && PendingKeys(threads) - {stage.key} <= after
            && (id !in Pending(threads) ==> PendingKeys(threads) <= after)
  {
    var t := threads[id := stage];
    forall k | k in PendingKeys(threads) && (k != stage.key || id !in Pending(threads))
      ensures k in PendingKeys(t)
    {
      var j :| j in Pending(threads) && threads[j].key == k;
      assert j in Pending(t) && t[j].key == k;
    }
    if stage.Deciding? || stage.Removing? {
      assert id in Pending(t);
    }
  }

  lemma StepKeepsCapped(r: Registry, max: nat, step: Step)
    requires Capped(r, max) && Can(r, step)
    ensures Capped(Moved(r, max, step), max)
  {
    match step
    case Call(id, key) =>
      CallKeepsPending(r.threads, id, key);
    case Go(id) =>
      GoKeepsCapped(r, max, id);
  }

  lemma CallKeepsPending(threads: map<nat, Stage>, id: nat, key: Key)
    requires id !in threads
    ensures PendingKeys(threads[id := Looking(key)]) == PendingKeys(threads)
  {
    var t := threads[id := Looking(key)];
    assert Pending(t) == Pending(threads);
    forall k
      ensures k in PendingKeys(t) <==> k in PendingKeys(threads)
    {
      if j :| j in Pending(t) && t[j].key == k {
        assert j in Pending(threads) && threads[j].key == k;
      }
      if j :| j in Pending(threads) && threads[j].key == k {
        assert j in Pending(t) && t[j].key == k;
      }
    }
  }

  lemma GoKeepsCapped(r: Registry, max: nat, id: nat)
    requires Capped(r, max) && Can(r, Go(id))
    ensures Capped(Moved(r, max, Go(id)), max)
  {
    var t := Moved(r, max, Go(id));
    var stage, key := r.threads[id], r.threads[id].key;
    var next := t.threads[id];
    assert t.threads == r.threads[id := next] && next.key == key;
    PendingKeysAfter(r.threads, id, next);
    if stage.Deciding? && next.Done? {
      SubsetSize(t.keys - PendingKeys(t.threads), r.keys);
    } else {
      assert next.Deciding? || next.Removing? ==> key in PendingKeys(t.threads);
      StillFree(r, t, key, id);
      SubsetSize(t.keys - PendingKeys(t.threads), r.keys - PendingKeys(r.threads));
    }
  }

  /** Only a decision within the cap can add to the keys that await none. */
  lemma StillFree(r: Registry, t: Registry, key: Key, id: nat)
    requires id in r.threads && id in t.threads && r.threads[id].key == key
    requires PendingKeys(r.threads) - {key} <= PendingKeys(t.threads)
    requires id !in Pending(r.threads) ==> PendingKeys(r.threads) <= PendingKeys(t.threads)
    requires if key in PendingKeys(t.threads) then t.keys <= r.keys + {key}
             else if id in Pending(r.threads) then t.keys <= r.keys - {key}
             else t.keys <= r.keys
    ensures t.keys - PendingKeys(t.threads) <= r.keys - PendingKeys(r.threads)
  {
  }

  lemma {:induction false} PendingKeysFew(threads: map<nat, Stage>, ids: set<nat>, keys: set<Key>)
    requires ids <= threads.Keys && keys == set id | id in ids :: threads[id].key
    ensures |keys| <= |ids|
  {
    if ids == {} {
    } else {
      var id :| id in ids;
      var rest := set j | j in ids - {id} :: threads[j].key;
      PendingKeysFew(threads, ids - {id}, rest);
      assert keys == rest + {threads[id].key};
    }
  }

  /** Every step of a run from `start` is one its thread can take there. */
  predicate Playable(max: nat, start: Registry, steps: seq<Step>)
    decreases |steps|, 0
  {
    steps == [] || (Playable(max, start, steps[..|steps| - 1])
                    && Can(RegistryAfter(max, start, steps[..|steps| - 1]), steps[|steps| - 1]))
  }

  function RegistryAfter(max: nat, start: Registry, steps: seq<Step>): Registry
    requires Playable(max, start, steps)
    decreases |steps|, 1
  {
    if steps == [] then start
    else Moved(RegistryAfter(max, start, steps[..|steps| - 1]), max, steps[|steps| - 1])
  }

  /**
   Under every interleaving the keys not still awaiting a decision number at most `max`, the
   whole registry at most `max` plus the threads awaiting one, so at quiescence at most `max`.
   */
  lemma {:induction false} CapOverRuns(max: nat, steps: seq<Step>)
    requires Playable(max, EMPTY, steps)
    ensures var r := RegistryAfter(max, EMPTY, steps);
            && Capped(r, max)
            && |r.keys| <= max + |Pending(r.threads)|
            && (Pending(r.threads) == {} ==> |r.keys| <= max)
  {
    if steps == [] {
    } else {
      CapOverRuns(max, steps[..|steps| - 1]);
      StepKeepsCapped(RegistryAfter(max, EMPTY, steps[..|steps| - 1]), max, steps[|steps| - 1]);
    }
    var r := RegistryAfter(max, EMPTY, steps);
    var pending := PendingKeys(r.threads);
    PendingKeysFew(r.threads, Pending(r.threads), pending);
    SubsetSize(r.keys, (r.keys - pending) + pending);
  }

  // ---------------------------------------------------- when a key is kept

  /** A stage past the first size check, from which the insertion can still be undone. */
  predicate Undoing(stage: Stage) {
    stage.Inserting? || stage.Deciding? || stage.Removing?
  }

  function Undoable(threads: map<nat, Stage>): set<Key> {
    set id | id in threads && Undoing(threads[id]) :: threads[id].key
  }

  /** The keys that no thread can undo. */
  function Firm(r: Registry): set<Key> {
    r.keys - Undoable(r.threads)
  }

  /** Some thread is about to take the first size check for `key`. */
  predicate About(r: Registry, key: Key) {
    exists id :: id in r.threads && r.threads[id] == Sizing(key)
  }

  /** The set of keys can still change without it being exactly full all along. */
  predicate Unsettled(r: Registry, max: nat) {
    || |r.keys| != max
    || (exists id :: id in r.threads && r.threads[id].Inserting? && r.threads[id].key !in r.keys)
    || (exists id :: id in r.threads && r.threads[id].Removing? && r.threads[id].key in r.keys)
  }

  /**
   Whether `key` is at risk, read off where the threads stand: the registry can still change,
   and a thread may come to undo `key`, either because it is already past the first size
   check, or because it is about to take it and undoing can make room.
   */
  predicate AtRisk(r: Registry, max: nat, key: Key) {
    Unsettled(r, max) &&
    (key in Undoable(r.threads) || (|Firm(r)| < max && About(r, key)))
  }

  lemma UndoableAfter(threads: map<nat, Stage>, id: nat, stage: Stage)
    requires id in threads ==> threads[id].key == stage.key
    ensures var u, v := Undoable(threads), Undoable(threads[id := stage]);
            && u - {stage.key} <= v <= u + {stage.key}
            && (Undoing(stage) ==> stage.key in v)
            && (!Undoing(stage) ==> v <= u)
            && (id in threads && Undoing(threads[id]) ==> stage.key in u)
            && (id !in threads || !Undoing(threads[id]) ==> u <= v)
  {
    var t := threads[id := stage];
    forall k | k in Undoable(threads) && (k != stage.key || id !in threads || !Undoing(threads[id]))
      ensures k in Undoable(t)
    {
      var j :| j in threads && Undoing(threads[j]) && threads[j].key == k;
      assert j in t && t[j] == threads[j];
    }
    if Undoing(stage) {
      assert id in t && t[id] == stage;
    }
  }

  /** A full registry in which nothing is about to change never changes again. */
  lemma SettledStep(r: Registry, max: nat, step: Step)
    requires !Unsettled(r, max) && Can(r, step)
    ensures Moved(r, max, step).keys == r.keys && !Unsettled(Moved(r, max, step), max)
  {
    var t := Moved(r, max, step);
    assert t.keys == r.keys;
    forall id | id in t.threads && id != step.id
      ensures id in r.threads && r.threads[id] == t.threads[id]
    {
    }
  }

  /** In a registry without room, keys that nobody can undo only grow in number. */
  lemma FirmKeysStay(r: Registry, max: nat, step: Step)
    requires |r.keys| >= max && Can(r, step)
    ensures Firm(r) <= Firm(Moved(r, max, step))
    ensures |Firm(r)| <= |Firm(Moved(r, max, step))|
  {
    var t := Moved(r, max, step);
    UndoableAfter(r.threads, step.id, t.threads[step.id]);
    assert t.threads == r.threads[step.id := t.threads[step.id]];
    assert Firm(r) <= Firm(t);
    SubsetSize(Firm(r), Firm(t));
  }

  /** A key that nobody can undo keeps so, as long as no thread can insert it again. */
  lemma FirmKeyStays(r: Registry, max: nat, step: Step, key: Key)
    requires key in Firm(r) && Can(r, step)
    requires |r.keys| < max ==> !About(r, key)
    ensures key in Firm(Moved(r, max, step))
    ensures About(Moved(r, max, step), key) ==> About(r, key)
  {
    var t := Moved(r, max, step);
    UndoableAfter(r.threads, step.id, t.threads[step.id]);
    assert t.threads == r.threads[step.id := t.threads[step.id]];
    if id :| id in t.threads && t.threads[id] == Sizing(key) {
      assert id != step.id;
      assert id in r.threads && r.threads[id] == Sizing(key);
    }
  }

  lemma StepKeepsKey(r: Registry, max: nat, step: Step, key: Key)
    requires key in r.keys && !AtRisk(r, max, key) && Can(r, step)
    ensures key in Moved(r, max, step).keys && !AtRisk(Moved(r, max, step), max, key)
  {
    if !Unsettled(r, max) {
      SettledStep(r, max, step);
    } else {
      SubsetSize(Firm(r), r.keys);
      FirmKeyStays(r, max, step, key);
      if |Firm(r)| >= max {
        FirmKeysStay(r, max, step);
      }
    }
  }

  lemma {:induction false} KeptOverRuns(max: nat, r: Registry, key: Key, steps: seq<Step>)
    requires key in r.keys && !AtRisk(r, max, key) && Playable(max, r, steps)
    ensures key in RegistryAfter(max, r, steps).keys && !AtRisk(RegistryAfter(max, r, steps), max, key)
  {
    if steps == [] {
    } else {
      KeptOverRuns(max, r, key, steps[..|steps| - 1]);
      StepKeepsKey(RegistryAfter(max, r, steps[..|steps| - 1]), max, steps[|steps| - 1], key);
    }
  }

  // ------------------------------------------------ how a key at risk is lost

  lemma PlaySnoc(max: nat, start: Registry, steps: seq<Step>, step: Step)
    requires Playable(max, start, steps) && Can(RegistryAfter(max, start, steps), step)
    ensures Playable(max, start, steps + [step])
    ensures RegistryAfter(max, start, steps + [step]) == Moved(RegistryAfter(max, start, steps), max, step)
  {
  }

  lemma {:induction false} PlayConcat(max: nat, start: Registry, a: seq<Step>, b: seq<Step>)
    requires Playable(max, start, a) && Playable(max, RegistryAfter(max, start, a), b)
    ensures Playable(max, start, a + b)
    ensures RegistryAfter(max, start, a + b) == RegistryAfter(max, RegistryAfter(max, start, a), b)
  {
    if b == [] {
      assert a + b == a;
    } else {
      var front, last := b[..|b| - 1], b[|b| - 1];
      assert a + b == (a + front) + [last];
      PlayConcat(max, start, a, front);
      PlaySnoc(max, start, a + front, last);
    }
  }

  /** Some run leads from `r` to `t`. */
  ghost predicate Leads(max: nat, r: Registry, t: Registry) {
    exists steps :: Playable(max, r, steps) && RegistryAfter(max, r, steps) == t
  }

  lemma LeadsOn(max: nat, r: Registry, t: Registry, u: Registry)
    requires Leads(max, r, t) && Leads(max, t, u)
    ensures Leads(max, r, u)
  {
    var a :| Playable(max, r, a) && RegistryAfter(max, r, a) == t;
    var b :| Playable(max, t, b) && RegistryAfter(max, t, b) == u;
    PlayConcat(max, r, a, b);
  }

  lemma LeadsByStep(max: nat, r: Registry, step: Step)
    requires Can(r, step)
    ensures Leads(max, r, Moved(r, max, step))
  {
    assert Playable(max, r, []);
    PlaySnoc(max, r, [], step);
  }

  lemma LeadsThenStep(max: nat, r: Registry, t: Registry, step: Step)
    requires Leads(max, r, t) && Can(t, step)
    ensures Leads(max, r, Moved(t, max, step))
  {
    LeadsByStep(max, t, step);
    LeadsOn(max, r, t, Moved(t, max, step));
  }

  /** An overshooting thread gets as far as its removal. */
  lemma ToRemoving(max: nat, r: Registry, id: nat) returns (t: Registry)
    requires id in r.threads && Undoing(r.threads[id]) && r.threads[id].key in r.keys
    requires |r.keys| > max
    ensures Leads(max, r, t) && t.keys == r.keys
    ensures t.threads == r.threads[id := Removing(r.threads[id].key)]
  {
    var key := r.threads[id].key;
    assert Playable(max, r, []) && RegistryAfter(max, r, []) == r;
    t := r;
    if t.threads[id].Inserting? {
      LeadsThenStep(max, r, t, Go(id));
      t := Moved(t, max, Go(id));
      assert t.keys == r.keys;
    }
    if t.threads[id].Deciding? {
      LeadsThenStep(max, r, t, Go(id));
      t := Moved(t, max, Go(id));
    }
    assert t.threads[id] == Removing(key);
    assert t.threads == r.threads[id := Removing(key)];
  }

  /** While the registry overshoots, any insertion can be undone. */
  lemma UndoneNow(max: nat, r: Registry, id: nat) returns (t: Registry)
    requires id in r.threads && Undoing(r.threads[id]) && r.threads[id].key in r.keys
    requires |r.keys| > max
    ensures Leads(max, r, t) && t.keys == r.keys - {r.threads[id].key}
    ensures t.threads == r.threads[id := Done(r.threads[id].key, false)]
  {
    var u := ToRemoving(max, r, id);
    LeadsThenStep(max, r, u, Go(id));
    t := Moved(u, max, Go(id));
    assert t.threads == r.threads[id := Done(r.threads[id].key, false)];
  }

  /** With room left, a new caller of an unknown key comes to stand before its insertion. */
  lemma Poised(max: nat, r: Registry, id: nat, key: Key) returns (t: Registry)
    requires id !in r.threads && key !in r.keys && |r.keys| < max
    ensures Leads(max, r, t)
    ensures t == r.(threads := r.threads[id := Inserting(key)])
  {
    LeadsByStep(max, r, Call(id, key));
    var r1 := Moved(r, max, Call(id, key));
    LeadsThenStep(max, r, r1, Go(id));
    var r2 := Moved(r1, max, Go(id));
    assert r2.threads[id] == Sizing(key);
    LeadsThenStep(max, r, r2, Go(id));
    t := Moved(r2, max, Go(id));
    assert t.threads == r.threads[id := Inserting(key)];
  }

  lemma {:induction false} FreshId(ids: set<nat>) returns (id: nat)
    ensures id !in ids && forall j :: j in ids ==> j < id
  {
    if ids == {} {
      return 0;
    }
    var j :| j in ids;
    var rest := FreshId(ids - {j});
    id := if rest > j then rest else j + 1;
    assert forall i :: i in ids ==> i == j || i in ids - {j};
  }

  lemma {:induction false} FreshKey(keys: set<Key>) returns (key: Key)
    ensures key !in keys && forall k :: k in keys ==> |k| < |key|
  {
    if keys == {} {
      return "";
    }
    var k :| k in keys;
    var rest := FreshKey(keys - {k});
    key := if |rest| > |k| then rest else seq(|k| + 1, _ => 'k');
  }

  /** Threads other than `except` stand where they stood. */
  predicate Others(r: Registry, t: Registry, except: nat) {
    forall id :: id in r.threads && id != except ==> id in t.threads && t.threads[id] == r.threads[id]
  }

  /** A new caller inserts a key that is neither registered nor `other`. */
  lemma OneMore(max: nat, r: Registry, other: Key) returns (t: Registry)
    requires |r.keys| < max
    ensures Leads(max, r, t) && r.keys <= t.keys && |t.keys| == |r.keys| + 1
    ensures other !in r.keys ==> other !in t.keys
    ensures forall id :: id in r.threads ==> id in t.threads && t.threads[id] == r.threads[id]
  {
    var id := FreshId(r.threads.Keys);
    var key := FreshKey(r.keys + {other});
    var r1 := Poised(max, r, id, key);
    LeadsThenStep(max, r, r1, Go(id));
    t := Moved(r1, max, Go(id));
  }

  /** New callers fill the registry up, and the thread poised at `x` makes it overshoot. */
  lemma {:induction false} Overfilled(max: nat, r: Registry, x: nat) returns (t: Registry)
    requires |r.keys| <= max
    requires x in r.threads && r.threads[x].Inserting? && r.threads[x].key !in r.keys
    ensures Leads(max, r, t) && |t.keys| > max && r.keys <= t.keys && Others(r, t, x)
    decreases max - |r.keys|
  {
    if |r.keys| == max {
      LeadsByStep(max, r, Go(x));
      t := Moved(r, max, Go(x));
    } else {
      var u := OneMore(max, r, r.threads[x].key);
      t := Overfilled(max, u, x);
      LeadsOn(max, r, u, t);
    }
  }

  /** With room left, or an insertion under way, the registry can come to overshoot. */
  lemma Overshoot(max: nat, r: Registry, j: nat) returns (t: Registry)
    requires j in r.threads && (r.threads[j].Inserting? ==> r.threads[j].key in r.keys)
    requires |r.keys| == max ==>
               exists x :: x in r.threads && r.threads[x].Inserting? && r.threads[x].key !in r.keys
    ensures Leads(max, r, t) && |t.keys| > max && r.keys <= t.keys
    ensures j in t.threads && t.threads[j] == r.threads[j]
  {
    if |r.keys| > max {
      assert Playable(max, r, []) && RegistryAfter(max, r, []) == r;
      t := r;
    } else if |r.keys| == max {
      var x :| x in r.threads && r.threads[x].Inserting? && r.threads[x].key !in r.keys;
      t := Overfilled(max, r, x);
    } else {
      var id := FreshId(r.threads.Keys);
      var key := FreshKey(r.keys);
      var r1 := Poised(max, r, id, key);
      t := Overfilled(max, r1, id);
      LeadsOn(max, r, r1, t);
    }
  }

  /** A thread on its way to undo `key` gets there, as long as the registry can still change. */
  lemma LostByUndo(max: nat, r: Registry, key: Key, j: nat) returns (t: Registry)
    requires key in r.keys && Unsettled(r, max)
    requires j in r.threads && Undoing(r.threads[j]) && r.threads[j].key == key
    ensures Leads(max, r, t) && key !in t.keys
  {
    if x :| x in r.threads && r.threads[x].Removing? && r.threads[x].key in r.keys {
      LeadsByStep(max, r, Go(x));
      t := Moved(r, max, Go(x));
      if |r.keys| <= max && r.threads[x].key != key {
        var u := Overshoot(max, t, j);
        LeadsOn(max, r, t, u);
        t := UndoneNow(max, u, j);
        LeadsOn(max, r, u, t);
      } else if r.threads[x].key != key {
        t := UndoneNow(max, r, j);
      }
    } else {
      var u := Overshoot(max, r, j);
      t := UndoneNow(max, u, j);
      LeadsOn(max, r, u, t);
    }
  }

  lemma TwoIn(keys: set<Key>) returns (a: Key, b: Key)
    requires |keys| >= 2
    ensures a in keys && b in keys && a != b
  {
    a :| a in keys;
    assert |keys - {a}| == |keys| - 1;
    b :| b in keys - {a};
  }

  /** Two keys, with threads that can undo them, when few keys are firm. */
  lemma TwoToUndo(max: nat, r: Registry) returns (a: nat, b: nat)
    requires |r.keys| > max && |Firm(r)| < max
    ensures a in r.threads && Undoing(r.threads[a]) && r.threads[a].key in r.keys
    ensures b in r.threads && Undoing(r.threads[b]) && r.threads[b].key in r.keys
    ensures r.threads[a].key != r.threads[b].key
  {
    var loose := r.keys * Undoable(r.threads);
    assert r.keys == Firm(r) + loose && |r.keys| == |Firm(r)| + |loose|;
    var k, l := TwoIn(loose);
    a :| a in r.threads && Undoing(r.threads[a]) && r.threads[a].key == k;
    b :| b in r.threads && Undoing(r.threads[b]) && r.threads[b].key == l;
  }

  /** Threads that are not on their way to undo anything stand where they stood. */
  predicate Bystanders(r: map<nat, Stage>, t: map<nat, Stage>) {
    forall id :: id in r && !Undoing(r[id]) ==> id in t && t[id] == r[id]
  }

  /** An undo takes away a key that was not firm, and leaves the firm ones as they were. */
  lemma FirmThroughUndo(keys: set<Key>, threads: map<nat, Stage>, id: nat, stage: Stage)
    requires id in threads && Undoing(threads[id]) && stage.key == threads[id].key
    ensures stage.Removing? ==> Undoable(threads[id := stage]) == Undoable(threads)
    ensures keys - {stage.key} - Undoable(threads[id := stage]) == keys - Undoable(threads)
  {
    UndoableAfter(threads, id, stage);
  }

  /** One thread before its removal and another through with its own. */
  lemma AfterDrop(r: Registry, a: nat, b: nat, t: Registry)
    requires a in r.threads && Undoing(r.threads[a]) && r.threads[a].key in r.keys
    requires b in r.threads && Undoing(r.threads[b]) && r.threads[b].key in r.keys
    requires r.threads[a].key != r.threads[b].key
    requires t.keys == r.keys - {r.threads[b].key}
    requires t.threads == r.threads[a := Removing(r.threads[a].key)][b := Done(r.threads[b].key, false)]
    ensures |t.keys| == |r.keys| - 1 && Firm(t) == Firm(r)
    ensures Bystanders(r.threads, t.threads)
    ensures a in t.threads && t.threads[a] == Removing(r.threads[a].key) && r.threads[a].key in t.keys
    ensures r.threads[a].key !in Firm(t)
  {
    var mid := r.threads[a := Removing(r.threads[a].key)];
    FirmThroughUndo(r.keys, r.threads, a, mid[a]);
    FirmThroughUndo(r.keys, mid, b, t.threads[b]);
    assert mid[a].key in Undoable(mid);
  }

  /** One key is undone, and another thread is brought before its own removal. */
  lemma DroppedOne(max: nat, r: Registry) returns (t: Registry, a: nat)
    requires |r.keys| > max && |Firm(r)| < max
    ensures Leads(max, r, t) && |t.keys| == |r.keys| - 1 && Firm(t) == Firm(r)
    ensures Bystanders(r.threads, t.threads)
    ensures a in r.threads && Undoing(r.threads[a])
    ensures a in t.threads && t.threads[a].Removing? && t.threads[a].key in t.keys && t.threads[a].key !in Firm(t)
  {
    var b: nat;
    a, b := TwoToUndo(max, r);
    var r1 := ToRemoving(max, r, a);
    t := UndoneNow(max, r1, b);
    LeadsOn(max, r, r1, t);
    AfterDrop(r, a, b, t);
  }

  /** An overshooting registry with few firm keys can come to have room again. */
  lemma {:induction false} Drained(max: nat, r: Registry) returns (t: Registry)
    requires |r.keys| > max && |Firm(r)| < max
    ensures Leads(max, r, t) && |t.keys| < max && Firm(r) <= t.keys && Bystanders(r.threads, t.threads)
    decreases |r.keys|
  {
    var u, a := DroppedOne(max, r);
    if |u.keys| == max {
      LeadsThenStep(max, r, u, Go(a));
      t := Moved(u, max, Go(a));
    } else {
      t := Drained(max, u);
      LeadsOn(max, r, u, t);
    }
  }

  /** A thread about to take the size check finds room, and is then on its way to undo `key`. */
  lemma LostBySizing(max: nat, r: Registry, key: Key, j: nat) returns (t: Registry)
    requires key in Firm(r) && |Firm(r)| < max && Unsettled(r, max)
    requires j in r.threads && r.threads[j] == Sizing(key)
    ensures Leads(max, r, t) && key !in t.keys
  {
    var u := WithRoom(max, r);
    LeadsThenStep(max, r, u, Go(j));
    var v := Moved(u, max, Go(j));
    t := LostByUndo(max, v, key, j);
    LeadsOn(max, r, v, t);
  }

  lemma FirmAfterInsertion(max: nat, r: Registry, x: nat)
    requires x in r.threads && r.threads[x].Inserting? && r.threads[x].key !in r.keys
    ensures var u := Moved(r, max, Go(x));
            Firm(u) == Firm(r) && |u.keys| == |r.keys| + 1 && Bystanders(r.threads, u.threads)
  {
    UndoableAfter(r.threads, x, Deciding(r.threads[x].key));
  }

  lemma WithRoom(max: nat, r: Registry) returns (t: Registry)
    requires |Firm(r)| < max && Unsettled(r, max)
    ensures Leads(max, r, t) && |t.keys| < max && Firm(r) <= t.keys && Bystanders(r.threads, t.threads)
  {
    if |r.keys| < max {
      assert Playable(max, r, []) && RegistryAfter(max, r, []) == r;
      t := r;
    } else if |r.keys| > max {
      t := Drained(max, r);
    } else if x :| x in r.threads && r.threads[x].Removing? && r.threads[x].key in r.keys {
      LeadsByStep(max, r, Go(x));
      t := Moved(r, max, Go(x));
    } else {
      var x :| x in r.threads && r.threads[x].Inserting? && r.threads[x].key !in r.keys;
      LeadsByStep(max, r, Go(x));
      var u := Moved(r, max, Go(x));
      FirmAfterInsertion(max, r, x);
      t := Drained(max, u);
      LeadsOn(max, r, u, t);
    }
  }

  // -------------------------------------------------- the exact conditions

  ghost predicate KeptForGood(r: Registry, max: nat, key: Key) {
    forall steps :: Playable(max, r, steps) ==> key in RegistryAfter(max, r, steps).keys
  }

  /** A registered key stays registered in every run from here if and only if it is not at risk. */
  lemma KeptExactly(max: nat, r: Registry, key: Key)
    requires key in r.keys
    ensures KeptForGood(r, max, key) <==> !AtRisk(r, max, key)
  {
    if AtRisk(r, max, key) {
      var t: Registry;
      if j :| j in r.threads && Undoing(r.threads[j]) && r.threads[j].key == key {
        t := LostByUndo(max, r, key, j);
      } else {
        var j :| j in r.threads && r.threads[j] == Sizing(key);
        t := LostBySizing(max, r, key, j);
      }
      var steps :| Playable(max, r, steps) && RegistryAfter(max, r, steps) == t;
    } else {
      forall steps | Playable(max, r, steps)
        ensures key in RegistryAfter(max, r, steps).keys
      {
        KeptOverRuns(max, r, key, steps);
      }
    }
  }

  /** The next operation of `id` admits it: its key is known, or inserted without overshoot. */
  predicate Admits(r: Registry, max: nat, id: nat) {
    && id in r.threads
    && match r.threads[id]
       case Looking(key) => key in r.keys
       case Deciding(_) => |r.keys| <= max
       case _ => false
  }

  /** No thread but `id` stands anywhere between the first lookup of `key` and its end. */
  predicate Alone(r: Registry, id: nat, key: Key) {
    forall j :: j in r.threads && j != id && r.threads[j].key == key ==> r.threads[j].Looking? || r.threads[j].Done?
  }

  /**
   An admitted caller, by either path, finds its key registered for good exactly when the key
   is registered and not at risk; a caller alone on its key runs no risk.
   */
  lemma AdmittedKeyKept(max: nat, r: Registry, id: nat)
    requires Admits(r, max, id)
    ensures var key, t := r.threads[id].key, Moved(r, max, Go(id));
            && t.threads[id] == Done(key, true) && t.keys == r.keys
            && (KeptForGood(t, max, key) <==> key in t.keys && !AtRisk(t, max, key))
            && (Alone(r, id, key) && key in r.keys ==> KeptForGood(t, max, key))
  {
    var key, t := r.threads[id].key, Moved(r, max, Go(id));
    assert Playable(max, t, []) && RegistryAfter(max, t, []) == t;
    if key in t.keys {
      KeptExactly(max, t, key);
    }
  }

  // ------------------------------------------------------------ three races

  /** Where the keys and three threads stand. */
  predicate Standing(r: Registry, keys: set<Key>, one: Stage, two: Stage, three: Stage) {
    && r.keys == keys && 1 in r.threads && 2 in r.threads && 3 in r.threads
    && r.threads[1] == one && r.threads[2] == two && r.threads[3] == three
  }

  /** The thread moves, and comes to stand at `stage`. */
  lemma Goes(max: nat, r: Registry, t: Registry, id: nat, keys: set<Key>, stage: Stage) returns (u: Registry)
    requires Leads(max, r, t) && Can(t, Go(id))
    requires Moved(t, max, Go(id)).keys == keys && Moved(t, max, Go(id)).threads[id] == stage
    ensures Leads(max, r, u) && u == Registry(keys, t.threads[id := stage])
  {
    LeadsThenStep(max, r, t, Go(id));
    u := Moved(t, max, Go(id));
    assert u.threads == t.threads[id := stage];
  }

  /** With room for one, callers of `b` and `x` have overshot it, and thread 2 calls `b` too. */
  lemma Overshot(r: Registry, b: Key, x: Key, second: bool) returns (t: Registry)
    requires b != x && r == EMPTY
    ensures Leads(1, r, t)
    ensures Standing(t, {b, x}, Deciding(b), if second then Inserting(b) else Looking(b), Deciding(x))
  {
    t := Poised(1, r, 1, b);
    var u := Poised(1, t, 3, x);
    LeadsOn(1, r, t, u);
    if second {
      t := Poised(1, u, 2, b);
      LeadsOn(1, r, u, t);
    } else {
      LeadsThenStep(1, r, u, Call(2, b));
      t := Moved(u, 1, Call(2, b));
    }
    t := BothInsert(r, t, b, x);
  }

  lemma BothInsert(r: Registry, t: Registry, b: Key, x: Key) returns (u: Registry)
    requires b != x && Leads(1, r, t) && t.keys == {}
    requires 1 in t.threads && 3 in t.threads && t.threads[1] == Inserting(b) && t.threads[3] == Inserting(x)
    ensures Leads(1, r, u)
    ensures u == Registry({b, x}, t.threads[1 := Deciding(b)][3 := Deciding(x)])
  {
    u := Goes(1, r, t, 1, {b}, Deciding(b));
    u := Goes(1, r, u, 3, {b, x}, Deciding(x));
  }

  /** The first caller undoes the insertion that the second, not yet decided, counts on. */
  lemma RaceLosesKey(b: Key, x: Key) returns (t: Registry)
    requires b != x
    ensures Leads(1, EMPTY, t) && Standing(t, {x}, Done(b, false), Done(b, true), Deciding(x))
  {
    var r := EMPTY;
    t := Overshot(r, b, x, true);
    t := Goes(1, r, t, 2, {b, x}, Deciding(b));
    t := Goes(1, r, t, 1, {b, x}, Removing(b));
    t := Goes(1, r, t, 1, {x}, Done(b, false));
    t := Goes(1, r, t, 2, {x}, Done(b, true));
  }

  /** The second caller is admitted on its first lookup; the first then undoes the key. */
  lemma FoundKeyIsUndone(b: Key, x: Key) returns (r: Registry, t: Registry)
    requires b != x
    ensures Leads(1, EMPTY, r) && Standing(r, {b, x}, Deciding(b), Looking(b), Deciding(x)) && Admits(r, 1, 2)
    ensures Leads(1, r, t) && Standing(t, {x}, Done(b, false), Done(b, true), Deciding(x))
  {
    r := Overshot(EMPTY, b, x, false);
    LeadsByStep(1, r, Go(2));
    t := Moved(r, 1, Go(2));
    t := Goes(1, r, t, 1, {b, x}, Removing(b));
    t := Goes(1, r, t, 1, {x}, Done(b, false));
  }

  /** A caller is admitted with its key registered, while a removal of that key is still due. */
  lemma PendingRemovalUndoes(b: Key, x: Key) returns (r: Registry, t: Registry)
    requires b != x
    ensures Leads(1, EMPTY, r) && Standing(r, {b}, Removing(b), Deciding(b), Done(x, false)) && Admits(r, 1, 2)
    ensures Leads(1, r, t) && Standing(t, {}, Done(b, false), Done(b, true), Done(x, false))
  {
    var e := EMPTY;
    r := Overshot(e, b, x, true);
    r := Goes(1, e, r, 2, {b, x}, Deciding(b));
    r := Goes(1, e, r, 1, {b, x}, Removing(b));
    r := Goes(1, e, r, 3, {b, x}, Removing(x));
    r := Goes(1, e, r, 3, {b}, Done(x, false));
    LeadsByStep(1, r, Go(2));
    t := Moved(r, 1, Go(2));
    t := Goes(1, r, t, 1, {}, Done(b, false));
  }

  // ------------------------------------------------------ one call at a time

  /** The registry as used by one caller at a time. */
  class Keys {
    var keys: set<Key>

    constructor ()
      ensures keys == {}
    {
      keys := {};
    }

    /**
     Alone, a call is admitted exactly when its key is known or there is room; a full registry
     never changes, and the undo is never reached.
     */
    method AdmitKey(key: Key, max: nat) returns (admitted: bool)
      modifies this
      ensures admitted <==> key in old(keys) || |old(keys)| < max
      ensures keys == if admitted then old(keys) + {key} else old(keys)
      ensures |old(keys)| >= max ==> keys == old(keys)
      ensures |keys| <= Max(max, |old(keys)|)
    {
      if key in keys {
        return true;
      }
      if |keys| >= max {
        return false;
      }
      keys := keys + {key};
      if |keys| > max {
        assert false; // a lone caller never overshoots, so never undoes
      }
      return true;
    }
  }

  function GoOn(r: Registry, max: nat, id: nat): Registry
    requires id in r.threads
  {
    if r.threads[id].Done? then r else Moved(r, max, Go(id))
  }

  /** A thread that runs undisturbed does what the sequential method does. */
  lemma UndisturbedIsSequential(r: Registry, max: nat, id: nat, key: Key)
    requires id in r.threads && r.threads[id] == Looking(key)
    ensures var t := GoOn(GoOn(GoOn(GoOn(r, max, id), max, id), max, id), max, id);
            var admitted := key in r.keys || |r.keys| < max;
            && t.threads == r.threads[id := Done(key, admitted)]
            && t.keys == if admitted then r.keys + {key} else r.keys
  {
  }
}
