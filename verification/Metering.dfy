/**
 The streaming body cap: frames pass through until their data exceeds a byte budget. The
 count saturates at the largest 64-bit value; the inner body is arbitrary and endless.
 */
module Metering {
  import opened Wrappers

  const U64_MAX: nat := 0xFFFF_FFFF_FFFF_FFFF

  datatype Frame = Data(payload: string) | Trailers(fields: string)

  /** What polling the inner body yields. */
  datatype Poll = Pending | End | InnerError(message: string) | Ready(frame: Frame)

  /** What polling the capped body yields. */
  datatype Capped = Passed(poll: Poll) | PayloadTooLarge

  function SizeOf(p: Poll): nat {
    if p.Ready? && p.frame.Data? then |p.frame.payload| else 0
  }

  function Saturating(n: nat): nat {
    Min(n, U64_MAX)
  }

  predicate OverBudget(max: nat, seen: nat) {
    max > 0 && seen > max
  }

  /** The bytes counted, how far the inner body has been polled, and all that was yielded. */
  datatype Stream = Stream(seen: nat, pos: nat, out: seq<Capped>)

  function Polled(max: nat, inner: nat -> Poll, s: Stream): Stream {
    if OverBudget(max, s.seen) then s.(out := s.out + [PayloadTooLarge])
    else
      var p := inner(s.pos);
      var seen := if p.Ready? && p.frame.Data? then Saturating(s.seen + Saturating(SizeOf(p))) else s.seen;
      Stream(seen, s.pos + 1, s.out + [if OverBudget(max, seen) then PayloadTooLarge else Passed(p)])
  }

  function StreamAfter(max: nat, inner: nat -> Poll, polls: nat): Stream {
    if polls == 0 then Stream(0, 0, []) else Polled(max, inner, StreamAfter(max, inner, polls - 1))
  }

  /** The body as it is polled. */
  class LimitingBody {
    const inner: nat -> Poll
    const max: nat
    var seen: nat
    var pos: nat
    ghost var out: seq<Capped>

    ghost function State(): Stream
      reads this
    {
      Stream(seen, pos, out)
    }

    constructor (inner: nat -> Poll, max: nat)
      ensures State() == StreamAfter(max, inner, 0) && this.inner == inner && this.max == max
    {
      this.inner, this.max := inner, max;
      seen, pos, out := 0, 0, [];
    }

    method PollInner() returns (p: Poll)
      modifies this`pos
      ensures p == inner(old(pos)) && pos == old(pos) + 1
    {
      p := inner(pos);
      pos := pos + 1;
    }

    method PollFrame() returns (r: Capped)
      modifies this
      ensures State() == Polled(max, inner, old(State()))
      ensures out == old(out) + [r]
    {
      if OverBudget(max, seen) {
        out := out + [PayloadTooLarge];
        return PayloadTooLarge;
      }
      var p := PollInner();
      if p.Ready? && p.frame.Data? {
        var n := Saturating(|p.frame.payload|);
        seen := Saturating(seen + n);
      }
      r := if OverBudget(max, seen) then PayloadTooLarge else Passed(p);
      out := out + [r];
    }
  }

  /** Data bytes in the first `n` polls of the inner body. */
  function Total(inner: nat -> Poll, n: nat): nat {
    if n == 0 then 0 else Total(inner, n - 1) + SizeOf(inner(n - 1))
  }

  /** The budgets that are enforced: zero means none, and the largest one cannot be exceeded. */
  predicate Enforced(max: nat) {
    0 < max < U64_MAX
  }

  predicate Exceeds(max: nat, total: nat) {
    Enforced(max) && total > max
  }

  lemma {:induction false} TotalGrows(inner: nat -> Poll, a: nat, b: nat)
    requires a <= b
    ensures Total(inner, a) <= Total(inner, b)
  {
    if a == b {
    } else {
      TotalGrows(inner, a, b - 1);
    }
  }

  /** What the `i`-th poll of the capped body must answer. */
  function Expected(max: nat, inner: nat -> Poll, i: nat): Capped {
    if Exceeds(max, Total(inner, i + 1)) then PayloadTooLarge else Passed(inner(i))
  }

  /** The count and the position: every poll reached the inner body until one exceeded the budget. */
  ghost predicate Tallied(max: nat, inner: nat -> Poll, s: Stream, polls: nat) {
    && s.pos <= polls && s.seen == Saturating(Total(inner, s.pos))
    && if Exceeds(max, Total(inner, polls)) then
         s.pos > 0 && Exceeds(max, Total(inner, s.pos)) && !Exceeds(max, Total(inner, s.pos - 1))
       else
         s.pos == polls
  }

  lemma OverBudgetExactly(max: nat, total: nat)
    requires max <= U64_MAX
    ensures OverBudget(max, Saturating(total)) <==> Exceeds(max, total)
  {
  }

  lemma PollStep(max: nat, inner: nat -> Poll, s: Stream, polls: nat)
    requires max <= U64_MAX && Tallied(max, inner, s, polls)
    ensures var t := Polled(max, inner, s);
            Tallied(max, inner, t, polls + 1) && t.out == s.out + [Expected(max, inner, polls)]
  {
    OverBudgetExactly(max, Total(inner, s.pos));
    TotalGrows(inner, polls, polls + 1);
    if !Exceeds(max, Total(inner, polls)) {
      AddSaturated(Total(inner, polls), SizeOf(inner(polls)));
      OverBudgetExactly(max, Total(inner, polls + 1));
    }
  }

  lemma {:induction false} TallyOverPolls(max: nat, inner: nat -> Poll, polls: nat)
    requires max <= U64_MAX
    ensures Tallied(max, inner, StreamAfter(max, inner, polls), polls)
  {
    if polls == 0 {
    } else {
      TallyOverPolls(max, inner, polls - 1);
      PollStep(max, inner, StreamAfter(max, inner, polls - 1), polls - 1);
    }
  }

  function Outs(max: nat, inner: nat -> Poll, polls: nat): (out: seq<Capped>)
    ensures |out| == polls
  {
    if polls == 0 then [] else Outs(max, inner, polls - 1) + [Expected(max, inner, polls - 1)]
  }

  lemma {:induction false} OutsAt(max: nat, inner: nat -> Poll, polls: nat, i: nat)
    requires i < polls
    ensures Outs(max, inner, polls)[i] == Expected(max, inner, i)
  {
    if i < polls - 1 {
      OutsAt(max, inner, polls - 1, i);
    }
  }

  lemma {:induction false} OutOverPolls(max: nat, inner: nat -> Poll, polls: nat)
    requires max <= U64_MAX
    ensures StreamAfter(max, inner, polls).out == Outs(max, inner, polls)
  {
    if polls == 0 {
    } else {
      OutOverPolls(max, inner, polls - 1);
      TallyOverPolls(max, inner, polls - 1);
      PollStep(max, inner, StreamAfter(max, inner, polls - 1), polls - 1);
    }
  }

  /**
   The cap exactly: the `i`-th poll answers what the inner body's `i`-th poll answers, unless
   the budget is enforced and the bytes through it exceed the budget; the inner body is polled
   no further than the frame that did.
   */
  lemma CapExactly(max: nat, inner: nat -> Poll, polls: nat)
    requires max <= U64_MAX
    ensures var s := StreamAfter(max, inner, polls);
            && |s.out| == polls
            && (forall i :: 0 <= i < polls ==>
                  s.out[i] == if Exceeds(max, Total(inner, i + 1)) then PayloadTooLarge else Passed(inner(i)))
            && if Exceeds(max, Total(inner, polls)) then
                 s.pos > 0 && Exceeds(max, Total(inner, s.pos)) && !Exceeds(max, Total(inner, s.pos - 1))
               else
                 s.pos == polls
  {
    OutOverPolls(max, inner, polls);
    TallyOverPolls(max, inner, polls);
    forall i | 0 <= i < polls
      ensures Outs(max, inner, polls)[i] == Expected(max, inner, i)
    {
      OutsAt(max, inner, polls, i);
    }
  }

  lemma AddSaturated(a: nat, b: nat)
    ensures Saturating(Saturating(a) + Saturating(b)) == Saturating(a + b)
  {
  }

  /** Data bytes actually yielded. */
  function Yielded(out: seq<Capped>): nat {
    if out == [] then 0
    else
      var last := out[|out| - 1];
      Yielded(out[..|out| - 1]) + if last.Passed? then SizeOf(last.poll) else 0
  }

  lemma YieldedSnoc(out: seq<Capped>, c: Capped)
    ensures Yielded(out + [c]) == Yielded(out) + if c.Passed? then SizeOf(c.poll) else 0
  {
  }

  /** Over budget, a poll only repeats the refusal. */
  lemma RefusalStep(max: nat, inner: nat -> Poll, s: Stream, polls: nat)
    requires max <= U64_MAX && Tallied(max, inner, s, polls) && Exceeds(max, Total(inner, polls))
    ensures Polled(max, inner, s) == s.(out := s.out + [PayloadTooLarge])
  {
  }

  /** The bytes yielded are those before the frame that exceeded the budget, or all of them. */
  predicate YieldedSoFar(max: nat, inner: nat -> Poll, s: Stream, polls: nat) {
    if Exceeds(max, Total(inner, polls)) then s.pos > 0 && Yielded(s.out) == Total(inner, s.pos - 1)
    else Yielded(s.out) == Total(inner, polls)
  }

  lemma YieldedStep(max: nat, inner: nat -> Poll, s: Stream, polls: nat)
    requires max <= U64_MAX && Tallied(max, inner, s, polls) && YieldedSoFar(max, inner, s, polls)
    ensures YieldedSoFar(max, inner, Polled(max, inner, s), polls + 1)
  {
    TotalGrows(inner, polls, polls + 1);
    PollStep(max, inner, s, polls);
    YieldedSnoc(s.out, Expected(max, inner, polls));
    if Exceeds(max, Total(inner, polls)) {
      RefusalStep(max, inner, s, polls);
    }
  }

  lemma {:induction false} YieldedOverPolls(max: nat, inner: nat -> Poll, polls: nat)
    requires max <= U64_MAX
    ensures YieldedSoFar(max, inner, StreamAfter(max, inner, polls), polls)
  {
    if polls == 0 {
    } else {
      YieldedOverPolls(max, inner, polls - 1);
      TallyOverPolls(max, inner, polls - 1);
      YieldedStep(max, inner, StreamAfter(max, inner, polls - 1), polls - 1);
    }
  }

  /** Under an enforced budget the bytes yielded never exceed it, whatever is streamed. */
  lemma NeverMoreThanBudget(max: nat, inner: nat -> Poll, polls: nat)
    requires Enforced(max)
    ensures Yielded(StreamAfter(max, inner, polls).out) <= max
    ensures !Exceeds(max, Total(inner, polls)) ==> Yielded(StreamAfter(max, inner, polls).out) == Total(inner, polls)
  {
    YieldedOverPolls(max, inner, polls);
    TallyOverPolls(max, inner, polls);
  }

  /** Once refused for size, every later poll is refused and the inner body is left alone. */
  lemma {:induction false} RefusalIsPermanent(max: nat, inner: nat -> Poll, early: nat, late: nat)
    requires max <= U64_MAX && early < late && Exceeds(max, Total(inner, early))
    ensures StreamAfter(max, inner, late).pos == StreamAfter(max, inner, early).pos
    ensures StreamAfter(max, inner, late).out == StreamAfter(max, inner, late - 1).out + [PayloadTooLarge]
  {
    TallyOverPolls(max, inner, late - 1);
    TotalGrows(inner, early, late - 1);
    RefusalStep(max, inner, StreamAfter(max, inner, late - 1), late - 1);
    if early < late - 1 {
      RefusalIsPermanent(max, inner, early, late - 1);
    }
  }

  /** A budget bounds the bytes of every stream exactly when it is neither zero nor the largest. */
  lemma BudgetBinds(max: nat)
    requires max <= U64_MAX
    ensures (forall inner: nat -> Poll, polls: nat :: Yielded(StreamAfter(max, inner, polls).out) <= max)
            <==> Enforced(max)
  {
    if Enforced(max) {
      forall inner: nat -> Poll, polls: nat
        ensures Yielded(StreamAfter(max, inner, polls).out) <= max
      {
        NeverMoreThanBudget(max, inner, polls);
      }
    } else {
      // two frames of a size a 64-bit length can express
      var size := if max == 0 then 1 else 0x8000_0000_0000_0000;
      var frame := Data(seq(size, _ => 'x'));
      var inner: nat -> Poll := _ => Ready(frame);
      TallyOverPolls(max, inner, 0);
      TallyOverPolls(max, inner, 1);
      PollStep(max, inner, StreamAfter(max, inner, 0), 0);
      PollStep(max, inner, StreamAfter(max, inner, 1), 1);
      YieldedSnoc(StreamAfter(max, inner, 0).out, Passed(Ready(frame)));
      YieldedSnoc(StreamAfter(max, inner, 1).out, Passed(Ready(frame)));
      assert Yielded(StreamAfter(max, inner, 2).out) == 2 * size > max;
    }
  }
}
