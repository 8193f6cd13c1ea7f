/** The lock-free presence counter (internal/csapi/fedbroadcast.go): a load and a compare-and-swap in a
    loop, by any number of callers at once. */
module PresenceCounter {
  import opened Wrappers

  /** A caller in its loop: the clock it read, the value it will try, and what it loaded. */
  datatype Caller = Caller(clock: int, next: int, loaded: Option<int>)

  /** answers: the values returned, in the order of the successful swaps, with the callers' clocks. */
  datatype Sys = Sys(counter: int, callers: map<nat, Caller>, answers: seq<(int, int)>)

  datatype Step = Enter(tid: nat, clock: int) | Load(tid: nat) | Swap(tid: nat)

  predicate Enabled(s: Sys, a: Step) {
    match a
    case Enter(tid, _) => tid !in s.callers
    case Load(tid) => tid in s.callers && s.callers[tid].loaded.None?
    case Swap(tid) => tid in s.callers && s.callers[tid].loaded.Some?
  }

  function Next(s: Sys, a: Step): Sys
    requires Enabled(s, a)
  {
    match a
    case Enter(tid, clock) => s.(callers := s.callers[tid := Caller(clock, clock, None)])
    case Load(tid) =>
      var c := s.callers[tid];
      s.(callers := s.callers[tid :=
        c.(loaded := Some(s.counter), next := if c.next <= s.counter then s.counter + 1 else c.next)])
    case Swap(tid) =>
      var c := s.callers[tid];
      if s.counter == c.loaded.value then
        Sys(c.next, s.callers - {tid}, s.answers + [(c.next, c.clock)])
      else s.(callers := s.callers[tid := c.(loaded := None)])
  }

  /** The largest of the clock and what follows `below`. */
  function Above(clock: int, below: int): int { if clock > below then clock else below + 1 }

  /** The value before the k-th answer: the one of the answer before it, or the counter's first. */
  function Before(start: int, answers: seq<(int, int)>, k: nat): int
    requires k <= |answers|
  {
    if k == 0 then start else answers[k - 1].0
  }

  ghost predicate CallerOk(c: Caller, counter: int) {
    if c.loaded.Some? then c.loaded.value <= counter && c.next == Above(c.clock, c.loaded.value)
    else c.next == c.clock || c.clock < c.next <= counter
  }

  ghost predicate Inv(start: int, s: Sys) {
    && (forall tid | tid in s.callers :: CallerOk(s.callers[tid], s.counter))
    && s.counter == Before(start, s.answers, |s.answers|)
    && (forall k: nat | k < |s.answers| :: s.answers[k].0 == Above(s.answers[k].1, Before(start, s.answers, k)))
  }

  lemma SwapKeeps(start: int, s: Sys, tid: nat)
    requires Inv(start, s) && Enabled(s, Swap(tid)) && s.counter == s.callers[tid].loaded.value
    ensures Inv(start, Next(s, Swap(tid)))
  {
    var c, t := s.callers[tid], Next(s, Swap(tid));
    assert c.next == Above(c.clock, s.counter);
    assert forall k: nat | k <= |s.answers| :: Before(start, t.answers, k) == Before(start, s.answers, k);
  }

  lemma StepKeeps(start: int, s: Sys, a: Step)
    requires Inv(start, s) && Enabled(s, a)
    ensures Inv(start, Next(s, a))
  {
    if a.Swap? && s.counter == s.callers[a.tid].loaded.value { SwapKeeps(start, s, a.tid); }
  }

  ghost predicate Runs(start: int, steps: seq<Step>, states: seq<Sys>) {
    && |states| == |steps| + 1 && states[0] == Sys(start, map[], [])
    && forall i | 0 <= i < |steps| :: Enabled(states[i], steps[i]) && states[i + 1] == Next(states[i], steps[i])
  }

  lemma {:induction false} RunKeeps(start: int, steps: seq<Step>, states: seq<Sys>, i: nat)
    requires Runs(start, steps, states) && i < |states|
    ensures Inv(start, states[i])
    decreases i
  {
    if i > 0 {
      RunKeeps(start, steps, states, i - 1);
      hide Next, Enabled, Inv;
      StepKeeps(start, states[i - 1], steps[i - 1]);
    }
  }

  /** Under every interleaving each value returned is the clock its caller read, or one past the value
      returned before it when the clock does not lie beyond that; so it is what the callers would get one
      after the other, in the order of their swaps. */
  lemma AnswersExactly(start: int, steps: seq<Step>, states: seq<Sys>, i: nat, k: nat)
    requires Runs(start, steps, states) && i < |states| && k < |states[i].answers|
    ensures var answers := states[i].answers;
      var before := if k == 0 then start else answers[k - 1].0;
      answers[k].0 == if answers[k].1 > before then answers[k].1 else before + 1
  {
    RunKeeps(start, steps, states, i);
  }

  /** So the values are pairwise distinct, rise in the order of the swaps that produced them, and are never
      below the clock their caller read. */
  lemma {:induction false} DistinctAndRising(start: int, steps: seq<Step>, states: seq<Sys>, i: nat, j: nat, k: nat)
    requires Runs(start, steps, states) && i < |states| && j < k < |states[i].answers|
    ensures states[i].answers[j].0 < states[i].answers[k].0
    ensures states[i].answers[j].0 >= states[i].answers[j].1
    ensures states[i].answers[k].0 >= states[i].answers[k].1
    decreases k
  {
    AnswersExactly(start, steps, states, i, j);
    AnswersExactly(start, steps, states, i, k);
    if j < k - 1 { DistinctAndRising(start, steps, states, i, j, k - 1); }
  }

  /** Run alone, a caller returns after one round: its clock reading, or one past the counter. */
  class PresenceStream {
    var value: int

    constructor ()
      ensures value == 0
    {
      value := 0;
    }

    method CompareAndSwap(previous: int, next: int) returns (ok: bool)
      modifies this
      ensures ok == (old(value) == previous) && value == if ok then next else old(value)
    {
      ok := value == previous;
      if ok { value := next; }
    }

    method NextPresenceStreamID(clock: int) returns (id: int)
      modifies this
      ensures id == value == if clock > old(value) then clock else old(value) + 1
    {
      var next := clock;
      var done := false;
      while !done
        invariant !done ==> value == old(value) && next == clock
        invariant done ==> value == next == if clock > old(value) then clock else old(value) + 1
        decreases !done
      {
        var previous := value;
        if next <= previous { next := previous + 1; }
        done := CompareAndSwap(previous, next);
      }
      return next;
    }
  }
}
