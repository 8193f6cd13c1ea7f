/** The delayed-event worker over the delayed events themselves: what it sleeps on are the scheduled rows
    of the table, whatever requests, the worker and restarts do to them (internal/csapi/delayed.go). */
module DelayedSchedule {
  import E = DelayedEvents
  import W = DelayedWorker

  /** The fire times of the scheduled rows. */
  function DueOf(db: E.Db): map<string, int> {
    map id | id in db && db[id].status == E.Scheduled :: db[id].fireAt
  }

  datatype Server = Server(events: E.Sys, worker: W.World)
  datatype Step = Store(a: E.Step, req: nat) | Own(x: W.Step)

  /** The steps whose request goes on to wake the worker. */
  predicate Wakes(s: E.Sys, a: E.Step) {
    a.ScheduleStep? || (a.ActStep? && a.action == E.RestartIt && E.Open(s.db, a.user, a.id))
  }

  predicate PutsBack(s: E.Sys, a: E.Step) {
    a.FinishStep? && a.id in s.flights && s.flights[a.id].manual && s.flights[a.id].phase == E.Refused
  }

  /** The worker's surroundings after a step on the table; a restart starts a new worker. */
  function Told(w: W.World, s: E.Sys, a: E.Step, req: nat): W.World
    requires E.Enabled(s, a)
  {
    var due := DueOf(E.Next(s, a).db);
    if a.RebootStep? then W.World(w.now, due, false, map[], {}, W.Working)
    else w.(due := due,
            wakers := if Wakes(s, a) then w.wakers[req := a.id] else w.wakers,
            unclaimed := if PutsBack(s, a) then w.unclaimed + {a.id} else w.unclaimed)
  }

  /** The worker's own steps, the clock, and the wakes. */
  predicate Apart(x: W.Step) { !x.Write? && !x.Repeat? && !x.Remove? && !x.Unclaim? }

  ghost predicate Next(s: Server, a: Step, t: Server) {
    match a
    case Store(e, req) =>
      && E.Enabled(s.events, e) && t.events == E.Next(s.events, e)
      && (Wakes(s.events, e) ==> req !in s.worker.wakers)
      && W.Positive(DueOf(t.events.db))
      && t.worker == Told(s.worker, s.events, e, req)
    case Own(x) => Apart(x) && W.Next(s.worker, x, t.worker) && t.events == s.events
  }

  ghost predicate Inv(s: Server) {
    E.Inv(s.events) && W.Inv(s.worker) && s.worker.due == DueOf(s.events.db)
  }

  // ---- what a step on the table does to the fire times ----

  function Gone(db: E.Db, row: E.Row): set<string> { set k | k in db && E.Superseded(db[k], row) }

  lemma ScheduleDue(db: E.Db, id: string, row: E.Row)
    requires !E.Known(db, row) && id !in db
    ensures DueOf(E.Schedule(db, id, row)) == (DueOf(db) - Gone(db, row))[id := row.since + row.delay]
  {
    hide E.Known;
  }

  lemma ActDue(db: E.Db, action: E.Action, user: string, id: string, now: int)
    requires E.Open(db, user, id)
    ensures DueOf(E.Act(db, action, user, id, now)) ==
      if action == E.RestartIt then DueOf(db)[id := now + db[id].delay] else DueOf(db) - {id}
  {
  }

  lemma FinishDue(s: E.Sys, id: string, now: int)
    requires E.Inv(s) && E.Enabled(s, E.FinishStep(id, now))
    ensures id in s.db
    ensures var a := E.FinishStep(id, now);
      DueOf(E.Next(s, a).db) == if PutsBack(s, a) then DueOf(s.db)[id := s.db[id].fireAt] else DueOf(s.db)
  {
    assert E.FlightOk(s, id);
    hide E.Inv;
  }

  lemma OtherDue(s: E.Sys, a: E.Step)
    requires E.Enabled(s, a) && (a.ClaimDueStep? || a.PruneStep? || a.LookupStep? || a.DispatchStep?)
    ensures DueOf(E.Next(s, a).db) == if a.ClaimDueStep? then DueOf(s.db) - a.ids else DueOf(s.db)
  {
  }

  lemma Fresh(s: E.Sys, id: string)
    requires E.Inv(s) && id !in s.used
    ensures id !in s.db
  {
    forall k | k in s.db ensures k in s.used { assert E.RowOk(s, k); }
  }

  // ---- and that the worker's model knows such a step ----

  /** The surroundings of the worker, with these new fire times. */
  lemma PutSeen(w: W.World, gone: set<string>, id: string, at: int, req: nat, t: W.World)
    requires W.Inv(w) && req !in w.wakers && W.Positive(t.due)
    requires t == w.(due := (w.due - gone)[id := at], wakers := w.wakers[req := id])
    ensures W.Inv(t)
  {
    assert t.due[id] == at;
    var u := w.(due := w.due - gone);
    hide W.Inv;
    W.StepKeeps(w, W.Remove(gone), u);
    W.StepKeeps(u, W.Write(req, id, at), t);
  }

  lemma PutBackSeen(w: W.World, id: string, at: int, t: W.World)
    requires W.Inv(w) && W.Positive(t.due)
    requires t == w.(due := w.due[id := at], unclaimed := w.unclaimed + {id})
    ensures W.Inv(t)
  {
    assert t.due[id] == at;
    hide W.Inv;
    W.StepKeeps(w, W.Unclaim(id, at), t);
  }

  lemma ScheduleAgain(s: E.Sys, id: string, row: E.Row)
    requires E.Known(s.db, row)
    ensures E.Schedule(s.db, id, row) == s.db
  {
  }

  lemma AgainSeen(w: W.World, s: E.Sys, id: string, row: E.Row, req: nat)
    requires W.Inv(w) && w.due == DueOf(s.db) && id !in s.used && req !in w.wakers && E.Known(s.db, row)
    ensures W.Inv(Told(w, s, E.ScheduleStep(id, row), req))
  {
    ScheduleAgain(s, id, row);
    hide W.Inv, DueOf, E.Known, E.Schedule;
    W.StepKeeps(w, W.Repeat(req, id), Told(w, s, E.ScheduleStep(id, row), req));
  }

  lemma ScheduleSeen(w: W.World, s: E.Sys, id: string, row: E.Row, req: nat)
    requires E.Inv(s) && W.Inv(w) && w.due == DueOf(s.db) && id !in s.used && req !in w.wakers
    requires W.Positive(DueOf(E.Schedule(s.db, id, row)))
    ensures W.Inv(Told(w, s, E.ScheduleStep(id, row), req))
  {
    var t := Told(w, s, E.ScheduleStep(id, row), req);
    hide W.Inv, W.Positive, E.Inv, DueOf, E.Known, E.Schedule;
    if E.Known(s.db, row) {
      AgainSeen(w, s, id, row, req);
    } else {
      Fresh(s, id);
      ScheduleDue(s.db, id, row);
      PutSeen(w, Gone(s.db, row), id, row.since + row.delay, req, t);
    }
  }

  lemma ActSeen(w: W.World, s: E.Sys, a: E.Step, req: nat)
    requires W.Inv(w) && w.due == DueOf(s.db) && a.ActStep? && E.Enabled(s, a)
    requires (Wakes(s, a) ==> req !in w.wakers) && W.Positive(DueOf(E.Next(s, a).db))
    ensures W.Inv(Told(w, s, a, req))
  {
    var t := Told(w, s, a, req);
    hide W.Inv, W.Positive, DueOf, E.Act;
    if !E.Open(s.db, a.user, a.id) {
      assert t == w;
    } else {
      ActDue(s.db, a.action, a.user, a.id, a.now);
      if a.action == E.RestartIt {
        assert w.due - {} == w.due;
        PutSeen(w, {}, a.id, a.now + s.db[a.id].delay, req, t);
      } else {
        W.StepKeeps(w, W.Remove({a.id}), t);
      }
    }
  }

  lemma FinishSeen(w: W.World, s: E.Sys, id: string, now: int, req: nat)
    requires E.Inv(s) && W.Inv(w) && w.due == DueOf(s.db) && E.Enabled(s, E.FinishStep(id, now))
    requires W.Positive(DueOf(E.Next(s, E.FinishStep(id, now)).db))
    ensures W.Inv(Told(w, s, E.FinishStep(id, now), req))
  {
    var a := E.FinishStep(id, now);
    var t := Told(w, s, a, req);
    FinishDue(s, id, now);
    hide W.Inv, W.Positive, E.Inv, DueOf, E.Next;
    if PutsBack(s, a) { PutBackSeen(w, id, s.db[id].fireAt, t); } else { assert t == w; }
  }

  lemma OtherSeen(w: W.World, s: E.Sys, a: E.Step, req: nat)
    requires W.Inv(w) && w.due == DueOf(s.db) && E.Enabled(s, a)
    requires a.ClaimDueStep? || a.PruneStep? || a.LookupStep? || a.DispatchStep?
    ensures W.Inv(Told(w, s, a, req))
  {
    var t := Told(w, s, a, req);
    OtherDue(s, a);
    hide W.Inv, DueOf, E.Next, E.Enabled;
    if a.ClaimDueStep? { W.StepKeeps(w, W.Remove(a.ids), t); } else { assert t == w; }
  }

  lemma StoreSeen(w: W.World, s: E.Sys, a: E.Step, req: nat)
    requires E.Inv(s) && W.Inv(w) && w.due == DueOf(s.db) && E.Enabled(s, a)
    requires (Wakes(s, a) ==> req !in w.wakers) && W.Positive(DueOf(E.Next(s, a).db))
    ensures W.Inv(Told(w, s, a, req))
  {
    hide W.Inv, W.Positive, E.Inv, DueOf, E.Known, E.Schedule, E.Act, E.ClaimAll;
    match a
    case ScheduleStep(id, row) => ScheduleSeen(w, s, id, row, req);
    case ActStep(_, _, _, _, _) => ActSeen(w, s, a, req);
    case FinishStep(id, now) => FinishSeen(w, s, id, now, req);
    case RebootStep => W.StartOk(Told(w, s, a, req));
    case _ => OtherSeen(w, s, a, req);
  }

  /** Every step keeps it: the worker sleeps on exactly the scheduled rows, each known to it or covered. */
  lemma StepKeeps(s: Server, a: Step, t: Server)
    requires Inv(s) && Next(s, a, t)
    ensures Inv(t)
  {
    hide W.Inv, E.Inv, E.Next;
    match a
    case Store(e, req) =>
      E.StepKeeps(s.events, e);
      StoreSeen(s.worker, s.events, e, req);
    case Own(x) =>
      W.StepKeeps(s.worker, x, t.worker);
  }

  ghost predicate Runs(steps: seq<Step>, states: seq<Server>) {
    && |states| == |steps| + 1 && states[0].events == E.BOOT
    && states[0].worker.due == map[] && states[0].worker.phase == W.Working
    && forall i | 0 <= i < |steps| :: Next(states[i], steps[i], states[i + 1])
  }

  lemma {:induction false} RunKeeps(steps: seq<Step>, states: seq<Server>, i: nat)
    requires Runs(steps, states) && i < |states|
    ensures Inv(states[i])
    decreases i
  {
    if i > 0 {
      RunKeeps(steps, states, i - 1);
      hide Inv, Next;
      StepKeeps(states[i - 1], steps[i - 1], states[i]);
    } else {
      W.StartOk(states[0].worker);
    }
  }

  /** In every run of requests, worker and restarts: a parked worker wakes at most five seconds after
      parking; and for each scheduled row of the table it sleeps no longer than the row had left when the
      sleep was computed, or a wake is queued or still to come, or the row was un-claimed. */
  lemma NobodySleepsPast(steps: seq<Step>, states: seq<Server>, i: nat, id: string)
    requires Runs(steps, states) && i < |states| && states[i].worker.phase.Parked?
    ensures var w, db := states[i].worker, states[i].events.db; var p := w.phase;
      && p.deadline <= p.armedAt + 5000
      && (id in db && db[id].status == E.Scheduled ==>
            || W.Covered(w, id)
            || p.deadline == p.armedAt
            || p.deadline - p.armedAt <= db[id].fireAt - p.computedAt)
  {
    RunKeeps(steps, states, i);
  }
}
