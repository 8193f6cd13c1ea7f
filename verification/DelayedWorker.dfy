/** The delayed-event worker's sleep (internal/csapi/delayed.go): a timer re-armed from the earliest
    fire time, and a one-slot wake channel. */
module DelayedWorker {

  const MAX_SLEEP := 5000

  /** Where the worker is in its loop. next is what the store answered, 0 when nothing is scheduled. */
  datatype Phase =
    | Working
    | HasRead(next: int)
    | Slept(next: int, computedAt: int, sleep: int)
    | Parked(next: int, computedAt: int, armedAt: int, deadline: int)

  datatype World = World(
    now: int,
    due: map<string, int>,        // fire times of the scheduled events
    token: bool,                  // the wake channel's slot
    wakers: map<nat, string>,     // requests between their store write and their wake
    unclaimed: set<string>,       // put back by a failed manual send since the worker last read
    phase: Phase)

  datatype Step =
    | Tick(t: int)
    | Write(req: nat, id: string, fireAt: int)     // schedule or restart
    | Repeat(req: nat, id: string)                 // scheduling again what the transaction scheduled before
    | Wake(req: nat)
    | Remove(ids: set<string>)                     // claim, cancel, supersede, the worker's own claims
    | Unclaim(id: string, fireAt: int)
    | Read
    | ComputeSleep
    | Arm
    | TakeToken
    | TimerFires

  ghost predicate IsNext(due: map<string, int>, next: int) {
    if due == map[] then next == 0
    else (exists id :: id in due && due[id] == next) && forall id | id in due :: next <= due[id]
  }

  /** Sleeping until the next fire time, never negative and never longer than five seconds. */
  function SleepFor(next: int, now: int): (d: int)
    ensures 0 <= d <= MAX_SLEEP
    ensures next > 0 ==> d <= (if next > now then next - now else 0)
  {
    if next > 0 then
      var wait := if next - now > 0 then next - now else 0;
      if wait < MAX_SLEEP then wait else MAX_SLEEP
    else MAX_SLEEP
  }

  ghost predicate Next(s: World, a: Step, t: World) {
    match a
    case Tick(now) => now >= s.now && t == s.(now := now)
    case Write(req, id, fireAt) =>
      req !in s.wakers && fireAt > 0 && t == s.(due := s.due[id := fireAt], wakers := s.wakers[req := id])
    case Repeat(req, id) => req !in s.wakers && t == s.(wakers := s.wakers[req := id])
    case Wake(req) => req in s.wakers && t == s.(token := true, wakers := s.wakers - {req})
    case Remove(ids) => t == s.(due := s.due - ids)
    case Unclaim(id, fireAt) => fireAt > 0 && t == s.(due := s.due[id := fireAt], unclaimed := s.unclaimed + {id})
    case Read => s.phase.Working? && t.phase.HasRead? && IsNext(s.due, t.phase.next)
      && t == s.(phase := t.phase, unclaimed := {})
    case ComputeSleep => s.phase.HasRead?
      && t == s.(phase := Slept(s.phase.next, s.now, SleepFor(s.phase.next, s.now)))
    case Arm => s.phase.Slept?
      && t == s.(phase := Parked(s.phase.next, s.phase.computedAt, s.now, s.now + s.phase.sleep))
    case TakeToken => s.phase.Parked? && s.token && t == s.(phase := Working, token := false)
    case TimerFires => s.phase.Parked? && s.now >= s.phase.deadline && t == s.(phase := Working)
  }

  /** The worker will look at the store again for this event's sake. */
  ghost predicate Covered(s: World, id: string) {
    s.token || id in s.unclaimed || exists req :: req in s.wakers && s.wakers[req] == id
  }

  /** Every scheduled event is either no earlier than the fire time the worker knows, or covered. */
  ghost predicate KnownOrCovered(s: World, next: int) {
    forall id | id in s.due :: Covered(s, id) || (next > 0 && next <= s.due[id])
  }

  predicate Positive(due: map<string, int>) { forall id | id in due :: due[id] > 0 }

  ghost predicate Inv(s: World) {
    && Positive(s.due)
    && match s.phase
       case Working => true
       case HasRead(next) => KnownOrCovered(s, next)
       case Slept(next, at, sleep) => KnownOrCovered(s, next) && at <= s.now && sleep == SleepFor(next, at)
       case Parked(next, at, armed, deadline) =>
         KnownOrCovered(s, next) && at <= armed <= s.now && deadline == armed + SleepFor(next, at)
  }

  lemma CoverStays(s: World, a: Step, t: World, id: string)
    requires Next(s, a, t) && Covered(s, id) && !a.Read? && !a.TakeToken?
    ensures Covered(t, id)
  {
    if !s.token && id !in s.unclaimed {
      var req :| req in s.wakers && s.wakers[req] == id;
      if !(a.Wake? && a.req == req) { assert req in t.wakers && t.wakers[req] == id; }
    }
  }

  lemma KnownStays(s: World, a: Step, t: World, next: int)
    requires Next(s, a, t) && KnownOrCovered(s, next) && !a.Read? && !a.TakeToken?
    ensures KnownOrCovered(t, next)
  {
    forall id | id in t.due ensures Covered(t, id) || (next > 0 && next <= t.due[id]) {
      if a.Write? && a.id == id {
        assert a.req in t.wakers && t.wakers[a.req] == id;
      } else if !(a.Unclaim? && a.id == id) {
        assert id in s.due && t.due[id] == s.due[id];
        if Covered(s, id) { CoverStays(s, a, t, id); }
      }
    }
  }

  lemma ReadKnows(s: World, t: World)
    requires Inv(s) && Next(s, Read, t)
    ensures Inv(t)
  {
  }

  /** Every step keeps it. */
  lemma StepKeeps(s: World, a: Step, t: World)
    requires Inv(s) && Next(s, a, t)
    ensures Inv(t)
  {
    if a.Read? {
      ReadKnows(s, t);
    } else if !a.TakeToken? && !s.phase.Working? {
      hide KnownOrCovered;
      KnownStays(s, a, t, s.phase.next);
    }
  }

  ghost predicate Runs(steps: seq<Step>, states: seq<World>) {
    && |states| == |steps| + 1 && Positive(states[0].due) && states[0].phase == Working
    && forall i | 0 <= i < |steps| :: Next(states[i], steps[i], states[i + 1])
  }

  lemma {:induction false} RunKeeps(steps: seq<Step>, states: seq<World>, i: nat)
    requires Runs(steps, states) && i < |states|
    ensures Inv(states[i])
    decreases i
  {
    hide Inv, Next;
    if i > 0 {
      RunKeeps(steps, states, i - 1);
      StepKeeps(states[i - 1], steps[i - 1], states[i]);
    } else {
      StartOk(states[0]);
    }
  }

  lemma StartOk(s: World)
    requires Positive(s.due) && s.phase == Working
    ensures Inv(s)
  {
  }

  /** A parked worker wakes at most five seconds after parking; and for each scheduled event either it
      wakes no later than the event is due (at once when the event was already due, plus the time that
      passed between computing the sleep and arming the timer), or a wake token is queued, or the
      request that wrote the event has its wake still to come, or the event was un-claimed. */
  lemma NobodySleepsPast(steps: seq<Step>, states: seq<World>, i: nat, id: string)
    requires Runs(steps, states) && i < |states| && states[i].phase.Parked?
    ensures var p := states[i].phase;
      && p.deadline <= p.armedAt + 5000
      && (id in states[i].due ==>
            || Covered(states[i], id)
            || p.deadline == p.armedAt
            || p.deadline - p.armedAt <= states[i].due[id] - p.computedAt)
  {
    RunKeeps(steps, states, i);
  }

  /** The worker last read the store at step j. */
  ghost predicate ReadLast(steps: seq<Step>, states: seq<World>, i: nat, j: int)
    requires Runs(steps, states) && i < |states|
  {
    0 <= j < i && steps[j].Read? && forall k | j < k < i :: !steps[k].Read?
  }

  lemma {:induction false} RemembersRead(steps: seq<Step>, states: seq<World>, i: nat) returns (j: nat)
    requires Runs(steps, states) && i < |states| && !states[i].phase.Working?
    ensures j < i && ReadLast(steps, states, i, j) && IsNext(states[j].due, states[i].phase.next)
    decreases i
  {
    var p: nat := i - 1;
    assert Next(states[p], steps[p], states[i]);
    if steps[p].Read? { j := p; } else { j := RemembersRead(steps, states, p); }
  }

  /** The length of a sleep computed at a moment: five seconds when nothing is scheduled; else until the
      earliest fire time, none when that is over, and never longer than five seconds. */
  ghost predicate SleepIs(due: map<string, int>, at: int, d: int) {
    if due == map[] then d == 5000
    else exists id ::
      && id in due && (forall k | k in due :: due[id] <= due[k])
      && d == if due[id] <= at then 0 else if due[id] - at < 5000 then due[id] - at else 5000
  }

  lemma SleepForIs(due: map<string, int>, next: int, at: int)
    requires IsNext(due, next) && Positive(due)
    ensures SleepIs(due, at, SleepFor(next, at))
  {
  }

  /** A parked worker sleeps, from arming its timer, exactly as long as what it last read asks for. */
  lemma SleepsExactly(steps: seq<Step>, states: seq<World>, i: nat)
    requires Runs(steps, states) && i < |states| && states[i].phase.Parked?
    ensures var p := states[i].phase;
      exists j :: ReadLast(steps, states, i, j) && SleepIs(states[j].due, p.computedAt, p.deadline - p.armedAt)
  {
    hide *;
    var p := states[i].phase;
    var j := RemembersRead(steps, states, i);
    AlwaysPositive(steps, states, j);
    ParkedFor(steps, states, i);
    SleepForIs(states[j].due, p.next, p.computedAt);
  }

  lemma ParkedFor(steps: seq<Step>, states: seq<World>, i: nat)
    requires Runs(steps, states) && i < |states| && states[i].phase.Parked?
    ensures var p := states[i].phase; p.deadline - p.armedAt == SleepFor(p.next, p.computedAt)
  {
    RunKeeps(steps, states, i);
    hide KnownOrCovered, Next;
  }

  lemma AlwaysPositive(steps: seq<Step>, states: seq<World>, i: nat)
    requires Runs(steps, states) && i < |states|
    ensures Positive(states[i].due)
  {
    RunKeeps(steps, states, i);
  }

  /** In the terms of the deadline: an event due before it is covered, unless it was already due when the
      sleep was computed or the clock moved before the timer was armed. */
  lemma DueBeforeDeadline(steps: seq<Step>, states: seq<World>, i: nat, id: string)
    requires Runs(steps, states) && i < |states| && states[i].phase.Parked? && id in states[i].due
    requires states[i].phase.armedAt == states[i].phase.computedAt < states[i].due[id] < states[i].phase.deadline
    ensures Covered(states[i], id)
  {
    RunKeeps(steps, states, i);
  }

  /** The event is due, the worker parked for longer, and no wake is queued or coming. */
  ghost predicate SleepsOn(s: World, id: string) {
    id in s.due && s.phase.Parked? && s.due[id] < s.now < s.phase.deadline && !s.token && s.wakers == map[]
  }

  /** The exception is real: an un-claimed event can be due while the worker sleeps on. */
  lemma UnclaimedWaits()
    ensures exists steps: seq<Step>, states: seq<World> :: Runs(steps, states) && SleepsOn(states[|steps|], "a")
  {
    var steps := [Read, ComputeSleep, Arm, Unclaim("a", 100), Tick(200)];
    var s0 := World(0, map[], false, map[], {}, Working);
    var s1 := s0.(phase := HasRead(0));
    var s2 := s0.(phase := Slept(0, 0, 5000));
    var s3 := s0.(phase := Parked(0, 0, 0, 5000));
    var s4 := s3.(due := map["a" := 100], unclaimed := {"a"});
    var s5 := s4.(now := 200);
    var states := [s0, s1, s2, s3, s4, s5];
    assert Next(s3, steps[3], s4);
    assert Runs(steps, states);
    assert states[|steps|] == s5;
  }
}
