/** When the timer sends a delayed event: never before its whole delay has passed since it was scheduled or
    last restarted, in any run (internal/storage/delayed.go, internal/csapi/delayed.go). */
module DelayedTiming {
  import opened Wrappers
  import opened DelayedEvents

  /** Step j starts the clock of the event at time `at`: it schedules the event, or is a restart by its
      owner that finds it scheduled. */
  ghost predicate Starts(steps: seq<Step>, states: seq<Sys>, j: nat, id: string, at: int)
    requires Runs(steps, states) && j < |steps|
  {
    match steps[j]
    case ScheduleStep(k, row) => k == id && id in states[j + 1].db && at == row.since
    case ActStep(_, RestartIt, user, k, now) =>
      k == id && at == now && id in states[j].db && states[j].db[id].user == user
        && states[j].db[id].status == Scheduled
    case _ => false
  }

  /** The clock was started last at step j, at time `at`. */
  ghost predicate StartedLast(steps: seq<Step>, states: seq<Sys>, i: nat, j: nat, id: string, at: int)
    requires Runs(steps, states) && i < |states|
  {
    && j < i && Starts(steps, states, j, id, at)
    && forall k, b | j < k < i :: !Starts(steps, states, k, id, b)
  }

  /** The event was scheduled at step j, with this delay. */
  ghost predicate ScheduledWith(steps: seq<Step>, states: seq<Sys>, i: nat, j: nat, id: string, delay: int)
    requires Runs(steps, states) && i < |states|
  {
    j < i && steps[j].ScheduleStep? && steps[j].id == id && id !in states[j].db && steps[j].row.delay == delay
  }

  /** What one step does to the clock of an event. */
  lemma ClockStep(s: Sys, a: Step, id: string)
    requires Inv(s) && Enabled(s, a) && id in Next(s, a).db
    ensures var r := Next(s, a).db[id];
      if id !in s.db then
        a.ScheduleStep? && a.id == id && r.since == a.row.since && r.delay == a.row.delay
          && r.fireAt == r.since + r.delay
      else if a.ActStep? && a.action == RestartIt && a.id == id && s.db[id].user == a.user
        && s.db[id].status == Scheduled
      then r.since == a.now && r.delay == s.db[id].delay && r.fireAt == r.since + r.delay
      else r.since == s.db[id].since && r.delay == s.db[id].delay && r.fireAt == s.db[id].fireAt
    ensures a.ScheduleStep? && a.id == id ==> id !in s.db
  {
    if a.ScheduleStep? && id in s.db { assert RowOk(s, id); }
    if a.FinishStep? { assert FlightOk(s, a.id); }
  }

  lemma StartedNow(steps: seq<Step>, states: seq<Sys>, p: nat, id: string, at: int)
    requires Runs(steps, states) && p < |steps| && Starts(steps, states, p, id, at)
    ensures StartedLast(steps, states, p + 1, p, id, at)
  {
    hide Starts;
  }

  lemma NotStartedNow(steps: seq<Step>, states: seq<Sys>, p: nat, j: nat, id: string, at: int)
    requires Runs(steps, states) && p < |steps| && StartedLast(steps, states, p, j, id, at)
    requires forall b :: !Starts(steps, states, p, id, b)
    ensures StartedLast(steps, states, p + 1, j, id, at)
  {
    hide Starts;
  }

  /** A step either starts the clock, at the start the row has behind it, or leaves the row's clock alone. */
  lemma StartsOrNot(steps: seq<Step>, states: seq<Sys>, p: nat, id: string)
    requires Runs(steps, states) && p < |steps| && id in states[p + 1].db
    ensures var r := states[p + 1].db[id];
      || Starts(steps, states, p, id, r.since)
      || (id in states[p].db && states[p].db[id].since == r.since && forall b :: !Starts(steps, states, p, id, b))
  {
    RunKeeps(steps, states, p);
    ClockStep(states[p], steps[p], id);
    hide Inv, Enabled, Next;
  }

  lemma {:induction false} StartOnRuns(steps: seq<Step>, states: seq<Sys>, i: nat, id: string) returns (j: nat)
    requires Runs(steps, states) && i < |states| && id in states[i].db
    ensures StartedLast(steps, states, i, j, id, states[i].db[id].since)
    decreases i
  {
    var p: nat := i - 1;
    hide *;
    StartsOrNot(steps, states, p, id);
    if Starts(steps, states, p, id, states[i].db[id].since) {
      StartedNow(steps, states, p, id, states[i].db[id].since);
      j := p;
    } else {
      j := StartOnRuns(steps, states, p, id);
      NotStartedNow(steps, states, p, j, id, states[i].db[id].since);
    }
  }

  lemma {:induction false} DelayOnRuns(steps: seq<Step>, states: seq<Sys>, i: nat, id: string) returns (j: nat)
    requires Runs(steps, states) && i < |states| && id in states[i].db
    ensures ScheduledWith(steps, states, i, j, id, states[i].db[id].delay)
    ensures states[i].db[id].fireAt == states[i].db[id].since + states[i].db[id].delay
    decreases i
  {
    var p: nat := i - 1;
    RunKeeps(steps, states, p);
    ClockStep(states[p], steps[p], id);
    hide Inv, Enabled, Next;
    if id in states[p].db { j := DelayOnRuns(steps, states, p, id); } else { j := p; }
  }

  /** The timer's statement may take an event at a moment exactly when the event is scheduled and its delay
      has passed since its start; it takes at most fifty of these at once. */
  lemma TakesExactly(steps: seq<Step>, states: seq<Sys>, i: nat, ids: set<string>, now: int)
    requires Runs(steps, states) && i < |states|
    ensures Enabled(states[i], ClaimDueStep(ids, now)) <==>
      && |ids| <= 50
      && forall id | id in ids :: id in states[i].db && states[i].db[id].status == Scheduled
           && states[i].db[id].since + states[i].db[id].delay <= now
  {
    forall id | id in states[i].db
      ensures states[i].db[id].fireAt == states[i].db[id].since + states[i].db[id].delay
    {
      var _ := DelayOnRuns(steps, states, i, id);
    }
  }

  /** In every run: when the timer starts to send an event, the delay the event was scheduled with has
      passed in whole since the step that scheduled or last restarted it. */
  lemma WaitsWholeDelay(steps: seq<Step>, states: seq<Sys>, i: nat, id: string)
    requires Runs(steps, states) && i < |steps|
    requires id !in states[i].flights && id in states[i + 1].flights && !states[i + 1].flights[id].manual
    ensures steps[i].ClaimDueStep?
    ensures exists j, m, at, delay ::
      StartedLast(steps, states, i, j, id, at) && ScheduledWith(steps, states, i, m, id, delay)
        && steps[i].now >= at + delay
  {
    assert Enabled(states[i], steps[i]) && states[i + 1] == Next(states[i], steps[i]);
    assert id in states[i].db;
    var j := StartOnRuns(steps, states, i, id);
    var m := DelayOnRuns(steps, states, i, id);
  }
}
