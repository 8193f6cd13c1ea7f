/** Scheduling a delayed state event cancels the user's other scheduled ones on the same state key
    (internal/storage/delayed.go). What that leaves of "only the latest one can be sent". */
module DelayedSupersession {
  import opened Wrappers
  import opened DelayedEvents

  /** The rows compete for one state key. */
  predicate Rivals(a: Row, b: Row) {
    a.stateKey.Some? && a.user == b.user && a.room == b.room && a.typ == b.typ && a.stateKey == b.stateKey
  }

  ghost predicate RivalsIn(db: Db, j: string, k: string) {
    j in db && k in db && j != k && Rivals(db[j], db[k])
  }

  /** No state key of a user has two scheduled events. */
  ghost predicate OneEach(db: Db) {
    forall j, k | RivalsIn(db, j, k) :: db[j].status != Scheduled || db[k].status != Scheduled
  }

  /** The step puts an event that was sending back to scheduled, beside a rival. */
  ghost predicate Reopens(s: Sys, a: Step)
    requires Enabled(s, a)
  {
    match a
    case FinishStep(id, _) =>
      && s.flights[id].manual && s.flights[id].phase == Refused
      && exists j :: RivalsIn(s.db, j, id) && s.db[j].status == Scheduled && s.db[id].status == Sending
    case RebootStep => exists j, k :: RivalsIn(s.db, j, k) && !s.db[j].Final() && !s.db[k].Final()
    case _ => false
  }

  /** What is scheduled afterwards was scheduled before, on the same key. */
  ghost predicate OpensNothing(db: Db, after: Db) {
    forall k | k in after && after[k].status == Scheduled ::
      && k in db && db[k].status == Scheduled
      && after[k].user == db[k].user && after[k].room == db[k].room && after[k].typ == db[k].typ
        && after[k].stateKey == db[k].stateKey
  }

  lemma NothingOpened(db: Db, after: Db)
    requires OneEach(db) && OpensNothing(db, after)
    ensures OneEach(after)
  {
    forall j, k | RivalsIn(after, j, k) ensures after[j].status != Scheduled || after[k].status != Scheduled {
      assert after[j].status != Scheduled || after[k].status != Scheduled || RivalsIn(db, j, k);
    }
  }

  /** Scheduling keeps it: the new event's rivals are cancelled in the same transaction. */
  lemma ScheduleSupersedes(db: Db, id: string, row: Row)
    requires OneEach(db) && id !in db
    ensures OneEach(Schedule(db, id, row))
  {
    var after := Schedule(db, id, row);
    if !Known(db, row) {
      forall k | k in db && k != id && Rivals(row, db[k]) ensures after[k].status != Scheduled {
        assert Superseded(db[k], row) <==> db[k].status == Scheduled;
      }
      forall j, k | RivalsIn(after, j, k) ensures after[j].status != Scheduled || after[k].status != Scheduled {
        if j != id && k != id { assert RivalsIn(db, j, k); }
      }
    }
  }

  lemma FinishReopens(s: Sys, id: string, now: int)
    requires OneEach(s.db) && Enabled(s, FinishStep(id, now))
    ensures OneEach(Next(s, FinishStep(id, now)).db) <==> !Reopens(s, FinishStep(id, now))
  {
    var a := FinishStep(id, now);
    var f, after := s.flights[id], Next(s, a).db;
    if !(f.manual && f.phase == Refused && id in s.db && s.db[id].status == Sending) {
      NothingOpened(s.db, after);
    } else if j :| RivalsIn(s.db, j, id) && s.db[j].status == Scheduled {
      assert RivalsIn(after, j, id);
    } else {
      forall j, k | RivalsIn(after, j, k) ensures after[j].status != Scheduled || after[k].status != Scheduled {
        assert RivalsIn(s.db, j, k) && RivalsIn(s.db, k, j);
      }
    }
  }

  lemma RebootReopens(s: Sys)
    requires OneEach(s.db)
    ensures OneEach(Next(s, RebootStep).db) <==> !Reopens(s, RebootStep)
  {
    var after := Next(s, RebootStep).db;
    if j, k :| RivalsIn(s.db, j, k) && !s.db[j].Final() && !s.db[k].Final() {
      assert RivalsIn(after, j, k);
    } else {
      forall j, k | RivalsIn(after, j, k) ensures after[j].status != Scheduled || after[k].status != Scheduled {
        assert RivalsIn(s.db, j, k);
      }
    }
  }

  /** A step leaves two scheduled events on one state key exactly when it returns a failed or
      interrupted send to a key for which something newer was scheduled meanwhile. */
  lemma OneScheduledExactly(s: Sys, a: Step)
    requires Inv(s) && Enabled(s, a) && OneEach(s.db)
    ensures OneEach(Next(s, a).db) <==> !Reopens(s, a)
  {
    hide OneEach, Inv, FinaliseSent, FinaliseFailed, Unclaim, ReleaseSending;
    match a
    case ScheduleStep(id, row) =>
      UnusedIsNew(s, id);
      ScheduleSupersedes(s.db, id, row);
    case ActStep(_, _, _, _, _) => NothingOpened(s.db, Next(s, a).db);
    case LookupStep(_) =>
    case ClaimDueStep(_, _) => NothingOpened(s.db, Next(s, a).db);
    case DispatchStep(_, _) =>
    case FinishStep(id, now) => FinishReopens(s, id, now);
    case PruneStep(_) => NothingOpened(s.db, Next(s, a).db);
    case RebootStep => RebootReopens(s);
  }

  lemma UnusedIsNew(s: Sys, id: string)
    requires Inv(s) && id !in s.used
    ensures id !in s.db
  {
    forall k | k in s.db ensures k in s.used { assert RowOk(s, k); }
  }

  /** In a run without such a return a state key never has two scheduled events. */
  lemma {:induction false} OneScheduledOnRuns(steps: seq<Step>, states: seq<Sys>, i: nat)
    requires Runs(steps, states) && i < |states|
    requires forall j | 0 <= j < i :: Enabled(states[j], steps[j]) ==> !Reopens(states[j], steps[j])
    ensures OneEach(states[i].db)
    decreases i
  {
    if i > 0 {
      OneScheduledOnRuns(steps, states, i - 1);
      RunKeeps(steps, states, i - 1);
      hide OneEach, Inv, Next;
      assert Enabled(states[i - 1], steps[i - 1]) && states[i] == Next(states[i - 1], steps[i - 1]);
      OneScheduledExactly(states[i - 1], steps[i - 1]);
    }
  }

  // ---- the exception is real ----

  const OLDER := Row("u", "d", "t1", "!r", "m.x", Some(""), 1000, 0, 0, Scheduled, None, None)
  const NEWER := Row("u", "d", "t2", "!r", "m.x", Some(""), 1000, 5, 0, Scheduled, None, None)
  const STEPS := [ScheduleStep("a", OLDER), ActStep(1, SendNow, "u", "a", 1), ScheduleStep("b", NEWER),
                  DispatchStep("a", None), FinishStep("a", 9)]

  /** The older event is claimed, the newer one scheduled, and the send of the older one fails. */
  function StateAt(i: nat): Sys {
    var older, newer := OLDER.(fireAt := 1000), NEWER.(fireAt := 1005);
    var sending := older.(status := Sending);
    if i == 0 then BOOT
    else if i == 1 then Sys(map["a" := older], map[], multiset{}, map[], {"a"})
    else if i == 2 then Sys(map["a" := sending], map["a" := Flight(true, Dispatching)], multiset{}, map[], {"a"})
    else if i == 3 then Sys(map["a" := sending, "b" := newer], map["a" := Flight(true, Dispatching)], multiset{}, map[],
      {"a", "b"})
    else if i == 4 then Sys(map["a" := sending, "b" := newer], map["a" := Flight(true, Refused)], multiset{}, map[],
      {"a", "b"})
    else Sys(map["a" := older, "b" := newer], map[], multiset{}, map[], {"a", "b"})
  }

  lemma StateSteps(i: nat)
    requires i < 5
    ensures Enabled(StateAt(i), STEPS[i]) && StateAt(i + 1) == Next(StateAt(i), STEPS[i])
  {
    if i == 2 {
      assert !Known(StateAt(2).db, NEWER);
      assert StateAt(3).db == Schedule(StateAt(2).db, "b", NEWER);
    }
    if i == 4 { assert StateAt(4).flights - {"a"} == map[]; }
  }

  /** A run after which both are scheduled: a send that fails once the event was superseded brings it
      back. */
  lemma SupersededComesBack()
    ensures exists steps: seq<Step>, states: seq<Sys> :: Runs(steps, states) && !OneEach(states[|steps|].db)
  {
    var states := seq(6, (i: nat) => StateAt(i));
    assert RivalsIn(StateAt(5).db, "a", "b") && StateAt(0) == BOOT && |STEPS| == 5;
    assert !OneEach(StateAt(5).db);
    hide Next, Enabled, StateAt, OneEach;
    forall i | 0 <= i < 5 ensures Enabled(states[i], STEPS[i]) && states[i + 1] == Next(states[i], STEPS[i]) {
      StateSteps(i);
    }
    assert Runs(STEPS, states);
    assert states[|STEPS|] == StateAt(5);
  }
}
