/** When a 409 on a delayed event meets an event that is scheduled (internal/csapi/delayed.go,
    internal/storage/delayed.go): a request's UPDATE and the SELECT behind it are two statements. */
module DelayedAnswers {
  import opened Wrappers
  import opened DelayedEvents

  /** The step makes the user's event scheduled: it creates it, or a send by hand of it failed. */
  predicate Opens(s: Sys, a: Step, user: string, id: string) {
    match a
    case ScheduleStep(x, row) => x == id && row.user == user && !Known(s.db, row)
    case FinishStep(_, _) => Returns(s, a, user, id)
    case _ => false
  }

  /** The failure of a send by hand puts the user's event back. */
  predicate Returns(s: Sys, a: Step, user: string, id: string) {
    a.FinishStep? && a.id == id && id in s.flights && s.flights[id].manual && s.flights[id].phase == Refused
    && Owned(s.db, user, id)
  }

  /** The step takes the user's event out of the schedule, if it is there: a claim, a cancellation, or a
      newer event on its state key. A restart leaves it scheduled. */
  predicate Closes(s: Sys, a: Step, user: string, id: string) {
    match a
    case ActStep(_, action, u, x, _) => u == user && x == id && action != RestartIt
    case ClaimDueStep(ids, _) => id in ids
    case ScheduleStep(_, row) => !Known(s.db, row) && id in s.db && Superseded(s.db[id], row)
    case _ => false
  }

  lemma OpenAfterRequest(s: Sys, a: Step, user: string, id: string)
    requires Inv(s) && Enabled(s, a) && (a.ActStep? || a.ScheduleStep?)
    ensures Open(Next(s, a).db, user, id) <==>
      Opens(s, a, user, id) || (Open(s.db, user, id) && !Closes(s, a, user, id))
  {
    if id in s.db { assert RowOk(s, id); }
  }

  lemma OpenAfter(s: Sys, a: Step, user: string, id: string)
    requires Inv(s) && Enabled(s, a) && !a.RebootStep?
    ensures Open(Next(s, a).db, user, id) <==>
      Opens(s, a, user, id) || (Open(s.db, user, id) && !Closes(s, a, user, id))
  {
    if a.ActStep? || a.ScheduleStep? {
      OpenAfterRequest(s, a, user, id);
    } else {
      if id in s.db { assert RowOk(s, id); }
      if a.FinishStep? { assert FlightOk(s, a.id); }
    }
  }

  /** Strictly between the moments i and n a step opened the event, and none closed it since. */
  ghost predicate OpenedWithin(steps: seq<Step>, states: seq<Sys>, i: nat, n: nat, user: string, id: string)
    requires n <= |steps| < |states|
  {
    exists k :: i < k < n && Opens(states[k], steps[k], user, id)
      && forall m | k < m < n :: !Closes(states[m], steps[m], user, id)
  }

  lemma WithinNothing(steps: seq<Step>, states: seq<Sys>, i: nat, user: string, id: string)
    requires i < |steps| < |states|
    ensures !OpenedWithin(steps, states, i, i + 1, user, id)
  {
    hide Opens, Closes;
  }

  lemma WithinStep(steps: seq<Step>, states: seq<Sys>, i: nat, m: nat, user: string, id: string)
    requires i < m < |steps| < |states|
    ensures OpenedWithin(steps, states, i, m + 1, user, id) <==>
      || Opens(states[m], steps[m], user, id)
      || (OpenedWithin(steps, states, i, m, user, id) && !Closes(states[m], steps[m], user, id))
  {
    hide Opens, Closes;
    if OpenedWithin(steps, states, i, m, user, id) && !Closes(states[m], steps[m], user, id) {
      var k :| i < k < m && Opens(states[k], steps[k], user, id)
        && forall l | k < l < m :: !Closes(states[l], steps[l], user, id);
      assert forall l | k < l < m + 1 :: !Closes(states[l], steps[l], user, id);
    }
  }

  lemma {:induction false} OpenWithin(steps: seq<Step>, states: seq<Sys>, i: nat, n: nat, user: string, id: string)
    requires Runs(steps, states) && i < n <= |steps| && !Open(states[i + 1].db, user, id)
    requires |steps| < |states| && forall k | i < k < n :: !steps[k].RebootStep?
    ensures Open(states[n].db, user, id) <==> OpenedWithin(steps, states, i, n, user, id)
    decreases n
  {
    hide *;
    if n == i + 1 {
      WithinNothing(steps, states, i, user, id);
    } else {
      var m := n - 1;
      OpenWithin(steps, states, i, m, user, id);
      RunLength(steps, states);
      RunKeeps(steps, states, m);
      StepOf(steps, states, m);
      OpenAfter(states[m], steps[m], user, id);
      WithinStep(steps, states, i, m, user, id);
    }
  }

  lemma RunLength(steps: seq<Step>, states: seq<Sys>)
    requires Runs(steps, states)
    ensures |states| == |steps| + 1
  {
    hide Enabled, Next;
  }

  lemma StepOf(steps: seq<Step>, states: seq<Sys>, m: nat)
    requires Runs(steps, states) && m < |steps|
    ensures Enabled(states[m], steps[m]) && states[m + 1] == Next(states[m], steps[m])
  {
    hide Enabled, Next;
  }

  /** Step i is a request's UPDATE that matches nothing, and step j the SELECT that answers it. */
  ghost predicate Answers(steps: seq<Step>, states: seq<Sys>, i: nat, j: nat) {
    && Runs(steps, states) && i < j < |steps|
    && steps[i].ActStep? && !Open(states[i].db, steps[i].user, steps[i].id)
    && steps[j] == LookupStep(steps[i].req)
    && forall k | i < k < j :: !steps[k].RebootStep? && steps[k] != LookupStep(steps[i].req)
  }

  /** The status in which the UPDATE found the user's event. */
  function Met(s: Sys, user: string, id: string): Option<Status> {
    if Owned(s.db, user, id) then Some(s.db[id].status) else None
  }

  lemma {:induction false} RequestWaits(steps: seq<Step>, states: seq<Sys>, i: nat, j: nat, n: nat)
    requires Answers(steps, states, i, j) && i < n <= j
    ensures var a, s := steps[i], states[n];
      a.req in s.lookups && s.lookups[a.req] == Lookup(a.action, a.user, a.id, Met(states[i], a.user, a.id))
    decreases n
  {
    StepOf(steps, states, n - 1);
    if n > i + 1 { RequestWaits(steps, states, i, j, n - 1); }
  }

  /** The answer is a 409 although the event is scheduled when it is given. */
  ghost predicate MeetsScheduled(steps: seq<Step>, states: seq<Sys>, i: nat, j: nat)
    requires Answers(steps, states, i, j)
  {
    && Enabled(states[j], steps[j])
    && Answered(states[j], steps[j]) == Some(Answer(steps[i].action, steps[i].id, C409))
    && steps[i].id in states[j].db && states[j].db[steps[i].id].status == Scheduled
  }

  /** A 409 meets a scheduled event exactly when, between the request's two statements, the event was
      created or came back from a failed send by hand, and nothing took it away again. */
  lemma ConflictExactly(steps: seq<Step>, states: seq<Sys>, i: nat, j: nat)
    requires Answers(steps, states, i, j)
    ensures MeetsScheduled(steps, states, i, j) <==>
      OpenedWithin(steps, states, i, j, steps[i].user, steps[i].id)
  {
    var a := steps[i];
    StepOf(steps, states, i);
    StepOf(steps, states, j);
    RequestWaits(steps, states, i, j, j);
    OpenWithin(steps, states, i, j, a.user, a.id);
    hide OpenedWithin, Runs;
  }

  // ---- by what the UPDATE had met ----

  /** The event came back within, and nothing took it away since. */
  ghost predicate ReturnedWithin(steps: seq<Step>, states: seq<Sys>, i: nat, n: nat, user: string, id: string)
    requires n <= |steps| < |states|
  {
    exists k :: i < k < n && Returns(states[k], steps[k], user, id)
      && forall m | k < m < n :: !Closes(states[m], steps[m], user, id)
  }

  /** A drawn id is never drawn again, and a row never changes hands. */
  lemma OwnerStays(s: Sys, a: Step, user: string, id: string)
    requires Inv(s) && Enabled(s, a) && id in s.used
    ensures id in Next(s, a).used && (Owned(Next(s, a).db, user, id) ==> Owned(s.db, user, id))
  {
    if a.FinishStep? || a.DispatchStep? { assert FlightOk(s, a.id); }
  }

  lemma {:induction false} OwnerStaysOn(steps: seq<Step>, states: seq<Sys>, i: nat, n: nat, user: string, id: string)
    requires Runs(steps, states) && i <= n < |states| && id in states[i].used
    ensures id in states[n].used && (Owned(states[n].db, user, id) ==> Owned(states[i].db, user, id))
    decreases n
  {
    hide Enabled, Next, Inv;
    if n > i {
      OwnerStaysOn(steps, states, i, n - 1, user, id);
      RunKeeps(steps, states, n - 1);
      StepOf(steps, states, n - 1);
      OwnerStays(states[n - 1], steps[n - 1], user, id);
    }
  }

  /** Opening an event whose id was drawn before is a return, and its row was not final before. */
  lemma OpensDrawn(steps: seq<Step>, states: seq<Sys>, i: nat, k: nat, user: string, id: string)
    requires Runs(steps, states) && i < k < |steps| && id in states[i].used && Opens(states[k], steps[k], user, id)
    ensures Returns(states[k], steps[k], user, id) && Owned(states[i].db, user, id) && !states[i].db[id].Final()
  {
    hide Next, Superseded;
    OwnerStaysOn(steps, states, i, k, user, id);
    RunKeeps(steps, states, k);
    StepOf(steps, states, k);
    assert Returns(states[k], steps[k], user, id);
    assert FlightOk(states[k], id);
    if states[i].db[id].Final() { NeverBoth(steps, states, i, k, id); }
  }

  /** For an id that had been drawn when the request came: its 409 meets a scheduled event exactly when
      the UPDATE met it while it was being sent, that send was by hand and failed before the answer, and
      nothing took the event away again. A request that met a final event, or somebody else's, or a
      pruned one, never does. */
  lemma ConflictOnDrawn(steps: seq<Step>, states: seq<Sys>, i: nat, j: nat)
    requires Answers(steps, states, i, j) && steps[i].id in states[i].used
    ensures MeetsScheduled(steps, states, i, j) <==>
      && Met(states[i], steps[i].user, steps[i].id) == Some(Sending)
      && ReturnedWithin(steps, states, i, j, steps[i].user, steps[i].id)
  {
    var a := steps[i];
    ConflictExactly(steps, states, i, j);
    ReturnedIsOpened(steps, states, i, j, a.user, a.id);
    if OpenedWithin(steps, states, i, j, a.user, a.id) { DrawnIsReturned(steps, states, i, j, a.user, a.id); }
    hide MeetsScheduled, Runs, OpenedWithin, ReturnedWithin;
  }

  lemma ReturnedIsOpened(steps: seq<Step>, states: seq<Sys>, i: nat, n: nat, user: string, id: string)
    requires n <= |steps| < |states|
    ensures ReturnedWithin(steps, states, i, n, user, id) ==> OpenedWithin(steps, states, i, n, user, id)
  {
    forall k | i < k < n && Returns(states[k], steps[k], user, id) ensures Opens(states[k], steps[k], user, id) {}
    hide Opens, Returns, Closes;
  }

  lemma DrawnIsReturned(steps: seq<Step>, states: seq<Sys>, i: nat, n: nat, user: string, id: string)
    requires Runs(steps, states) && n <= |steps| < |states| && i <= n && id in states[i].used
    requires OpenedWithin(steps, states, i, n, user, id) && !Open(states[i].db, user, id)
    ensures Met(states[i], user, id) == Some(Sending) && ReturnedWithin(steps, states, i, n, user, id)
  {
    hide Runs, Opens, Returns, Closes;
    var k :| i < k < n && Opens(states[k], steps[k], user, id)
      && forall m | k < m < n :: !Closes(states[m], steps[m], user, id);
    OpensDrawn(steps, states, i, k, user, id);
  }

  lemma RowsUsed(s: Sys)
    requires Inv(s)
    ensures forall id | id in s.db :: id in s.used
  {
    forall id | id in s.db ensures id in s.used { assert RowOk(s, id); }
  }

  /** For an id nobody had drawn yet, the event was created in between. */
  lemma ConflictOnGuessed(steps: seq<Step>, states: seq<Sys>, i: nat, j: nat)
    requires Answers(steps, states, i, j) && MeetsScheduled(steps, states, i, j) && steps[i].id !in states[i].used
    ensures Met(states[i], steps[i].user, steps[i].id) == None
    ensures exists k :: i < k < j && steps[k].ScheduleStep? && steps[k].id == steps[i].id
  {
    var a := steps[i];
    RunKeeps(steps, states, i);
    RowsUsed(states[i]);
    RunKeeps(steps, states, j);
    RowsUsed(states[j]);
    StepOf(steps, states, i);
    var k := DrawnWithin(steps, states, i + 1, j, a.id);
  }

  lemma OnlySchedulingDraws(s: Sys, a: Step, id: string)
    requires Enabled(s, a) && id !in s.used && id in Next(s, a).used
    ensures a.ScheduleStep? && a.id == id
  {
  }

  lemma {:induction false} DrawnWithin(steps: seq<Step>, states: seq<Sys>, i: nat, j: nat, id: string) returns (k: nat)
    requires Runs(steps, states) && i <= j <= |steps| && id !in states[i].used && id in states[j].used
    ensures i <= k < j && steps[k].ScheduleStep? && steps[k].id == id
    decreases j
  {
    StepOf(steps, states, j - 1);
    hide Enabled, Next;
    if id in states[j - 1].used {
      k := DrawnWithin(steps, states, i, j - 1, id);
    } else {
      OnlySchedulingDraws(states[j - 1], steps[j - 1], id);
      k := j - 1;
    }
  }

  // ---- an id guessed before it is drawn ----

  const EARLY_STEPS :=
    [ActStep(1, SendNow, "u", "a", 0),
      ScheduleStep("a", Row("u", "d", "t", "!r", "m.x", None, 1000, 0, 0, Scheduled, None, None)),
     LookupStep(1)]

  /** The request misses, the event is created, and the answer is a 409 on it. */
  function EarlyState(i: nat): Sys {
    var row := Row("u", "d", "t", "!r", "m.x", None, 1000, 0, 1000, Scheduled, None, None);
    var waiting := map[1 := Lookup(SendNow, "u", "a", None)];
    if i == 0 then BOOT
    else if i == 1 then Sys(map[], map[], multiset{}, waiting, {})
    else if i == 2 then Sys(map["a" := row], map[], multiset{}, waiting, {"a"})
    else Sys(map["a" := row], map[], multiset{}, map[], {"a"})
  }

  lemma EarlySteps(i: nat)
    requires i < 3
    ensures Enabled(EarlyState(i), EARLY_STEPS[i]) && EarlyState(i + 1) == Next(EarlyState(i), EARLY_STEPS[i])
  {
    if i == 2 { assert EarlyState(2).lookups - {1} == map[]; }
  }

  /** The hypothesis on drawn ids is needed: a guessed id can be answered with 409 on a fresh event. */
  lemma GuessedConflict()
    ensures exists steps: seq<Step>, states: seq<Sys> ::
      Answers(steps, states, 0, 2) && MeetsScheduled(steps, states, 0, 2)
  {
    var states := seq(4, (i: nat) => EarlyState(i));
    assert |EARLY_STEPS| == 3 && EarlyState(0) == BOOT && !Open(BOOT.db, "u", "a");
    hide Next, Enabled, EarlyState;
    forall i | 0 <= i < 3 ensures Enabled(states[i], EARLY_STEPS[i])
      && states[i + 1] == Next(states[i], EARLY_STEPS[i]) {
      EarlySteps(i);
    }
    assert Answers(EARLY_STEPS, states, 0, 2);
    assert Opens(states[1], EARLY_STEPS[1], "u", "a") by { EarlyIsEmpty(); }
    ConflictExactly(EARLY_STEPS, states, 0, 2);
  }

  lemma EarlyIsEmpty()
    ensures EarlyState(1).db == map[]
  {
  }
}
