/** MSC4140 delayed events: the statements of internal/storage/delayed.go and, over all
    interleavings of requests and the worker, the life of a delayed event
    (internal/csapi/delayed.go). */
module DelayedEvents {
  import opened Wrappers
  import opened Sorting

  const BATCH := 50

  datatype Status = Scheduled | Sending | Sent | Cancelled

  /** device and txn identify the client transaction. */
  datatype Row = Row(
    user: string, device: string, txn: string, room: string, typ: string, stateKey: Option<string>,
    delay: int, since: int, fireAt: int, status: Status, finalised: Option<int>, eventId: Option<string>)
  {
    predicate Final() { status == Sent || status == Cancelled }
  }

  type Db = map<string, Row>

  // ---- the statements ----

  predicate SameTransaction(a: Row, b: Row) {
    a.user == b.user && a.device == b.device && a.room == b.room && a.typ == b.typ && a.txn == b.txn
  }

  /** A scheduled state event of the same user on the same (room, type, state_key). */
  predicate Superseded(earlier: Row, later: Row) {
    later.stateKey.Some? && earlier.status == Scheduled
    && earlier.user == later.user && earlier.room == later.room && earlier.typ == later.typ
      && earlier.stateKey == later.stateKey
  }

  predicate Known(db: Db, r: Row) { exists id :: id in db && SameTransaction(db[id], r) }

  function Schedule(db: Db, id: string, r: Row): Db {
    if Known(db, r) then db else
      (map k | k in db :: if Superseded(db[k], r) then db[k].(status := Cancelled, finalised := Some(r.since))
        else db[k])
      [id := r.(status := Scheduled, fireAt := r.since + r.delay, finalised := None, eventId := None)]
  }

  predicate Owned(db: Db, user: string, id: string) { id in db && db[id].user == user }
  predicate Open(db: Db, user: string, id: string) { Owned(db, user, id) && db[id].status == Scheduled }

  function SetStatus(db: Db, id: string, s: Status): Db
    requires id in db
  {
    db[id := db[id].(status := s)]
  }

  function Claim(db: Db, user: string, id: string): Db {
    if Open(db, user, id) then SetStatus(db, id, Sending) else db
  }

  function Cancel(db: Db, user: string, id: string, now: int): Db {
    if Open(db, user, id) then db[id := db[id].(status := Cancelled, finalised := Some(now))] else db
  }

  function Restart(db: Db, user: string, id: string, now: int): Db {
    if Open(db, user, id) then db[id := db[id].(since := now, fireAt := now + db[id].delay)] else db
  }

  function ClaimAll(db: Db, ids: set<string>): Db {
    map k | k in db :: if k in ids then db[k].(status := Sending) else db[k]
  }

  /** The finalising statements name the row by id alone, whatever its status. */
  function FinaliseSent(db: Db, id: string, ev: string, now: int): Db {
    if id in db then db[id := db[id].(status := Sent, eventId := Some(ev), finalised := Some(now))] else db
  }

  function FinaliseFailed(db: Db, id: string, now: int): Db {
    if id in db then db[id := db[id].(status := Cancelled, finalised := Some(now))] else db
  }

  function Unclaim(db: Db, id: string): Db {
    if id in db && db[id].status == Sending then SetStatus(db, id, Scheduled) else db
  }

  function ReleaseSending(db: Db): Db {
    map k | k in db :: if db[k].status == Sending then db[k].(status := Scheduled) else db[k]
  }

  function Due(db: Db, now: int): set<string> {
    set k | k in db && db[k].status == Scheduled && db[k].fireAt <= now
  }

  // ---- the program: the store's statements, and the worker's sending of what is due ----

  /** The rows of `due` as their dispatches ended. */
  function Settled(db: Db, due: set<string>, dispatch: string -> Option<string>, now: int): Db {
    map k | k in db ::
      if k !in due then db[k]
      else match dispatch(k)
        case Some(ev) => db[k].(status := Sent, eventId := Some(ev), finalised := Some(now))
        case None => db[k].(status := Cancelled, finalised := Some(now))
  }

  class DelayedStore {
    var db: Db

    constructor ()
      ensures db == map[]
    {
      db := map[];
    }

    /** A transaction the table has already changes nothing. Otherwise the event is scheduled a delay after
        its start, and the user's scheduled state events of the same room, type and state key end with it. */
    method ScheduleEvent(id: string, r: Row)
      modifies this
      ensures (exists k ::
        && k in old(db) && old(db)[k].user == r.user && old(db)[k].device == r.device && old(db)[k].room == r.room
        && old(db)[k].typ == r.typ && old(db)[k].txn == r.txn) ==> db == old(db)
      ensures (forall k | k in old(db) ::
        || old(db)[k].user != r.user || old(db)[k].device != r.device || old(db)[k].room != r.room
        || old(db)[k].typ != r.typ || old(db)[k].txn != r.txn) ==>
        && db.Keys == old(db).Keys + {id}
        && db[id] == r.(fireAt := r.since + r.delay, status := Scheduled, finalised := None, eventId := None)
        && forall k | k in old(db) && k != id :: db[k] ==
             if r.stateKey.Some? && old(db)[k].status == Scheduled && old(db)[k].user == r.user
               && old(db)[k].room == r.room && old(db)[k].typ == r.typ && old(db)[k].stateKey == r.stateKey
             then old(db)[k].(status := Cancelled, finalised := Some(r.since)) else old(db)[k]
      ensures db == Schedule(old(db), id, r)
    {
      if k :| k in db && SameTransaction(db[k], r) {
      } else {
        assert !Known(db, r);
      }
      db := Schedule(db, id, r);
    }

    /** ClaimDelayedEvent, CancelDelayedEvent and RestartDelayedEvent. The UPDATE matches the user's own
        scheduled row of that id and no other; a claim only takes it out of the schedule, a cancellation
        ends it, and a restart gives it its whole delay again. */
    method Update(action: Action, user: string, id: string, now: int) returns (matched: bool)
      modifies this
      ensures matched <==> id in old(db) && old(db)[id].user == user && old(db)[id].status == Scheduled
      ensures !matched ==> db == old(db)
      ensures db.Keys == old(db).Keys && forall k | k in db && k != id :: db[k] == old(db)[k]
      ensures matched && action == SendNow ==> db[id] == old(db)[id].(status := Sending)
      ensures matched && action == CancelIt ==> db[id] == old(db)[id].(status := Cancelled, finalised := Some(now))
      ensures matched && action == RestartIt ==> db[id] == old(db)[id].(since := now, fireAt := now + old(db)[id].delay)
      ensures db == Act(old(db), action, user, id, now)
    {
      matched := false;
      if id in db {
        var row := db[id];
        if row.user == user && row.status == Scheduled {
          matched := true;
          match action {
            case SendNow => row := row.(status := Sending);
            case CancelIt => row := row.(status := Cancelled, finalised := Some(now));
            case RestartIt => row := row.(since := now, fireAt := now + row.delay);
          }
          db := db[id := row];
        }
      }
    }

    /** The scheduled rows whose time has come, soonest first, at most `limit` of them: they are sending
        afterwards, and no other row is touched. */
    method ClaimDue(now: int, limit: nat) returns (ids: seq<string>)
      modifies this
      ensures db.Keys == old(db).Keys
      ensures forall k | k in db :: db[k] == if k in ids then old(db)[k].(status := Sending) else old(db)[k]
      ensures forall id | id in ids :: id in old(db) && old(db)[id].status == Scheduled && old(db)[id].fireAt <= now
      ensures |ids| <= limit && forall i, j | 0 <= i < j < |ids| :: ids[i] != ids[j]
      ensures forall k | k in old(db) && old(db)[k].status == Scheduled && old(db)[k].fireAt <= now && k !in ids ::
        |ids| == limit && forall id | id in ids :: old(db)[id].fireAt <= old(db)[k].fireAt
    {
      ids := [];
      var rest := Due(db, now);
      while |ids| < limit && rest != {}
        invariant |ids| <= limit
        invariant rest == Due(db, now) - Elems(ids) && Elems(ids) <= Due(db, now) && db == old(db)
        invariant forall i, j | 0 <= i < j < |ids| :: ids[i] != ids[j]
        invariant forall id, k | id in ids && k in rest :: id in db && db[id].fireAt <= db[k].fireAt
      {
        var next := Soonest(rest);
        assert next in rest;
        assert next !in Elems(ids) && Elems(ids + [next]) == Elems(ids) + {next};
        ids, rest := ids + [next], rest - {next};
      }
      forall k | k in Due(db, now) && k !in ids ensures k in rest { assert k !in Elems(ids); }
      forall id | id in ids ensures id in Due(db, now) { assert id in Elems(ids); }
      db := ClaimAll(db, set k | k in ids);
    }

    method Soonest(ids: set<string>) returns (id: string)
      requires ids != {} && ids <= db.Keys
      ensures id in ids && forall k | k in ids :: db[id].fireAt <= db[k].fireAt
    {
      id :| id in ids;
      var rest := ids - {id};
      while rest != {}
        invariant id in ids && rest <= ids && forall k | k in ids - rest :: db[id].fireAt <= db[k].fireAt
      {
        var k :| k in rest;
        if db[k].fireAt < db[id].fireAt { id := k; }
        rest := rest - {k};
      }
    }

    /** Dispatches claimed events one by one and finalises each. */
    method SendBatch(ids: seq<string>, now: int, dispatch: string -> Option<string>)
      requires forall i, j | 0 <= i < j < |ids| :: ids[i] != ids[j]
      modifies this
      ensures db == Settled(old(db), Elems(ids), dispatch, now)
    {
      assert db == Settled(db, Elems(ids[..0]), dispatch, now);
      for i := 0 to |ids|
        invariant db == Settled(old(db), Elems(ids[..i]), dispatch, now)
      {
        assert ids[i] !in ids[..i];
        assert Elems(ids[..i + 1]) == Elems(ids[..i]) + {ids[i]};
        var ev := dispatch(ids[i]);
        db := if ev.Some? then FinaliseSent(db, ids[i], ev.value, now) else FinaliseFailed(db, ids[i], now);
      }
      assert ids[..|ids|] == ids;
    }

    /** sendDueDelayedEvents with nobody else at work: batch after batch, every scheduled event whose time
        has come is sent or cancelled, as its dispatch went, and nothing else is touched. */
    method SendDue(now: int, dispatch: string -> Option<string>)
      modifies this
      ensures db.Keys == old(db).Keys
      ensures forall k | k in db && !(old(db)[k].status == Scheduled && old(db)[k].fireAt <= now) ::
        db[k] == old(db)[k]
      ensures forall k | k in db && old(db)[k].status == Scheduled && old(db)[k].fireAt <= now ::
        && (dispatch(k).Some? ==>
              db[k] == old(db)[k].(status := Sent, eventId := dispatch(k), finalised := Some(now)))
        && (dispatch(k).None? ==> db[k] == old(db)[k].(status := Cancelled, finalised := Some(now)))
    {
      ghost var start, due := db, Due(db, now);
      SettledRows(start, dispatch, now);
      hide Settled, Due, ClaimAll;
      ghost var done: set<string> := {};
      NothingSettled(db, dispatch, now);
      var more := true;
      while more
        invariant done <= due && db == Settled(start, done, dispatch, now)
        invariant !more ==> done == due
        decreases due - done, more
      {
        StillDue(start, done, dispatch, now);
        ghost var before := db;
        var ids := ClaimDue(now, BATCH);
        Claimed(before, now, ids, db);
        SendBatch(ids, now, dispatch);
        SettledMore(start, done, Elems(ids), dispatch, now);
        if |ids| > 0 { assert ids[0] in Elems(ids); }
        done := done + Elems(ids);
        more := |ids| == BATCH;
      }
    }
  }

  /** What a claim did, in one equation. */
  lemma Claimed(db: Db, now: int, ids: seq<string>, after: Db)
    requires after.Keys == db.Keys
    requires forall k | k in db :: after[k] == if k in ids then db[k].(status := Sending) else db[k]
    requires forall id | id in ids :: id in db && db[id].status == Scheduled && db[id].fireAt <= now
    requires forall k | k in db && db[k].status == Scheduled && db[k].fireAt <= now && k !in ids :: |ids| == BATCH
    ensures after == ClaimAll(db, Elems(ids)) && Elems(ids) <= Due(db, now)
    ensures |ids| == BATCH || Elems(ids) == Due(db, now)
  {
  }

  lemma SettledRows(db: Db, dispatch: string -> Option<string>, now: int)
    ensures var t := Settled(db, Due(db, now), dispatch, now);
      && t.Keys == db.Keys
      && forall k | k in db :: t[k] ==
           if !(db[k].status == Scheduled && db[k].fireAt <= now) then db[k]
           else if dispatch(k).Some? then db[k].(status := Sent, eventId := dispatch(k), finalised := Some(now))
           else db[k].(status := Cancelled, finalised := Some(now))
  {
  }

  lemma NothingSettled(db: Db, dispatch: string -> Option<string>, now: int)
    ensures Settled(db, {}, dispatch, now) == db
  {
  }

  lemma StillDue(db: Db, done: set<string>, dispatch: string -> Option<string>, now: int)
    ensures Due(Settled(db, done, dispatch, now), now) == Due(db, now) - done
  {
  }

  lemma SettledMore(db: Db, done: set<string>, ids: set<string>, dispatch: string -> Option<string>, now: int)
    requires done !! ids
    ensures Settled(ClaimAll(Settled(db, done, dispatch, now), ids), ids, dispatch, now)
      == Settled(db, done + ids, dispatch, now)
  {
  }

  // ---- the system ----

  /** What became of a claimed event's dispatch into the room. */
  datatype Phase = Dispatching | Accepted(ev: string) | Refused
  datatype Flight = Flight(manual: bool, phase: Phase)
  datatype Action = SendNow | CancelIt | RestartIt

  /** A request whose UPDATE matched no row, before its SELECT; met is the status the UPDATE found. */
  datatype Lookup = Lookup(action: Action, user: string, id: string, met: Option<Status>)

  datatype Sys = Sys(
    db: Db,
    flights: map<string, Flight>,    // claims held by this process
    dispatched: multiset<string>,    // successful dispatches of this process
    lookups: map<nat, Lookup>,
    used: set<string>)               // every delay_id ever drawn

  datatype Step =
    | ScheduleStep(id: string, row: Row)
    | ActStep(req: nat, action: Action, user: string, id: string, now: int)   // the UPDATE of a request
    | LookupStep(req: nat)                                                     // its SELECT
    | ClaimDueStep(ids: set<string>, now: int)
    | DispatchStep(id: string, ev: Option<string>)
    | FinishStep(id: string, now: int)
    | PruneStep(ids: set<string>)
    | RebootStep

  datatype Code = C200 | C404 | C409 | SendError
  datatype Answer = Answer(action: Action, id: string, code: Code)

  predicate Enabled(s: Sys, a: Step) {
    match a
    case ScheduleStep(id, row) => id !in s.used
    case ActStep(req, _, _, _, _) => req !in s.lookups
    case LookupStep(req) => req in s.lookups
    case ClaimDueStep(ids, now) => ids <= Due(s.db, now) && |ids| <= BATCH
    case DispatchStep(id, _) => id in s.flights && s.flights[id].phase == Dispatching
    case FinishStep(id, _) => id in s.flights && s.flights[id].phase != Dispatching
    case PruneStep(ids) => forall id | id in ids :: id in s.db && s.db[id].Final()
    case RebootStep => true
  }

  function Act(db: Db, action: Action, user: string, id: string, now: int): Db {
    match action
    case SendNow => Claim(db, user, id)
    case CancelIt => Cancel(db, user, id, now)
    case RestartIt => Restart(db, user, id, now)
  }

  function Next(s: Sys, a: Step): Sys
    requires Enabled(s, a)
  {
    match a
    case ScheduleStep(id, row) => s.(db := Schedule(s.db, id, row), used := s.used + {id})
    case ActStep(req, action, user, id, now) =>
      if Open(s.db, user, id) then
        s.(db := Act(s.db, action, user, id, now),
           flights := if action == SendNow then s.flights[id := Flight(true, Dispatching)] else s.flights)
      else s.(lookups := s.lookups[req :=
        Lookup(action, user, id, if Owned(s.db, user, id) then Some(s.db[id].status) else None)])
    case LookupStep(req) => s.(lookups := s.lookups - {req})
    case ClaimDueStep(ids, now) =>
      s.(db := ClaimAll(s.db, ids),
         flights := s.flights + map id | id in ids :: Flight(false, Dispatching))
    case DispatchStep(id, ev) =>
      s.(flights := s.flights[id := s.flights[id].(phase := if ev.Some? then Accepted(ev.value) else Refused)],
         dispatched := if ev.Some? then s.dispatched + multiset{id} else s.dispatched)
    case FinishStep(id, now) =>
      var f := s.flights[id];
      s.(flights := s.flights - {id},
         db := if f.phase.Accepted? then FinaliseSent(s.db, id, f.phase.ev, now)
               else if f.manual then Unclaim(s.db, id) else FinaliseFailed(s.db, id, now))
    case PruneStep(ids) => s.(db := s.db - ids)
    case RebootStep => Sys(ReleaseSending(s.db), map[], multiset{}, map[], s.used)
  }

  /** The answer a step gives its request, if it answers one. */
  function Answered(s: Sys, a: Step): Option<Answer>
    requires Enabled(s, a)
  {
    match a
    case ActStep(_, action, user, id, _) =>
      if Open(s.db, user, id) && action != SendNow then Some(Answer(action, id, C200)) else None
    case LookupStep(req) =>
      var l := s.lookups[req];
      if !Owned(s.db, l.user, l.id) then Some(Answer(l.action, l.id, C404))
      else if l.action == SendNow && s.db[l.id].status == Sent then Some(Answer(SendNow, l.id, C200))
      else if l.action == CancelIt && s.db[l.id].status == Cancelled then Some(Answer(CancelIt, l.id, C200))
      else Some(Answer(l.action, l.id, C409))
    case FinishStep(id, _) =>
      if !s.flights[id].manual then None
      else Some(Answer(SendNow, id, if s.flights[id].phase.Accepted? then C200 else SendError))
    case _ => None
  }

  const BOOT := Sys(map[], map[], multiset{}, map[], {})

  // ---- what every run keeps ----

  ghost predicate FlightOk(s: Sys, id: string) {
    && id in s.flights && id in s.db && s.db[id].status == Sending
    && s.dispatched[id] == (if s.flights[id].phase.Accepted? then 1 else 0)
  }

  ghost predicate RowOk(s: Sys, id: string)
    requires id in s.db
  {
    && id in s.used
    && (s.db[id].status == Sending <==> id in s.flights)
    && (s.db[id].status == Scheduled || s.db[id].status == Cancelled ==> s.dispatched[id] == 0)
    && (s.db[id].status == Sent <==> s.db[id].eventId.Some?)
  }

  ghost predicate Inv(s: Sys) {
    && (forall id | id in s.flights :: FlightOk(s, id))
    && (forall id | id in s.db :: RowOk(s, id))
    && (forall id :: s.dispatched[id] <= 1)
    && (forall id | s.dispatched[id] > 0 :: id in s.used)
    && (forall q | q in s.lookups :: s.lookups[q].met != Some(Scheduled))
  }

  lemma ScheduleKeeps(s: Sys, id: string, row: Row)
    requires Inv(s) && id !in s.used
    ensures Inv(Next(s, ScheduleStep(id, row)))
  {
    var t := Next(s, ScheduleStep(id, row));
    forall k | k in t.db ensures RowOk(t, k) {
      if k != id || Known(s.db, row) { assert RowOk(s, k); }
    }
    forall k | k in t.flights ensures FlightOk(t, k) {
      assert FlightOk(s, k) && RowOk(s, k);
    }
  }

  lemma ActKeeps(s: Sys, req: nat, action: Action, user: string, id: string, now: int)
    requires Inv(s) && req !in s.lookups
    ensures Inv(Next(s, ActStep(req, action, user, id, now)))
  {
    var t := Next(s, ActStep(req, action, user, id, now));
    forall k | k in t.db ensures RowOk(t, k) { assert RowOk(s, k); }
    forall k | k in t.flights ensures FlightOk(t, k) {
      if k in s.flights { assert FlightOk(s, k); } else { assert RowOk(s, k); }
    }
  }

  lemma ClaimDueKeeps(s: Sys, ids: set<string>, now: int)
    requires Inv(s) && Enabled(s, ClaimDueStep(ids, now))
    ensures Inv(Next(s, ClaimDueStep(ids, now)))
  {
    var t := Next(s, ClaimDueStep(ids, now));
    forall k | k in t.db ensures RowOk(t, k) { assert RowOk(s, k); }
    forall k | k in t.flights ensures FlightOk(t, k) {
      if k in ids { assert k in Due(s.db, now) && RowOk(s, k); } else { assert FlightOk(s, k); }
    }
  }

  lemma DispatchKeeps(s: Sys, id: string, ev: Option<string>)
    requires Inv(s) && Enabled(s, DispatchStep(id, ev))
    ensures Inv(Next(s, DispatchStep(id, ev)))
  {
    var t := Next(s, DispatchStep(id, ev));
    assert FlightOk(s, id) && RowOk(s, id);
    forall k | k in t.db ensures RowOk(t, k) { assert RowOk(s, k); }
    forall k | k in t.flights ensures FlightOk(t, k) { assert FlightOk(s, k); }
  }

  lemma FinishKeeps(s: Sys, id: string, now: int)
    requires Inv(s) && Enabled(s, FinishStep(id, now))
    ensures Inv(Next(s, FinishStep(id, now)))
  {
    var t := Next(s, FinishStep(id, now));
    assert FlightOk(s, id) && RowOk(s, id);
    forall k | k in t.db ensures RowOk(t, k) { assert RowOk(s, k); }
    forall k | k in t.flights ensures FlightOk(t, k) { assert FlightOk(s, k); }
  }

  lemma PruneKeeps(s: Sys, ids: set<string>)
    requires Inv(s) && Enabled(s, PruneStep(ids))
    ensures Inv(Next(s, PruneStep(ids)))
  {
    var t := Next(s, PruneStep(ids));
    forall k | k in t.db ensures RowOk(t, k) { assert RowOk(s, k); }
    forall k | k in t.flights ensures FlightOk(t, k) { assert FlightOk(s, k); }
  }

  lemma RebootKeeps(s: Sys)
    requires Inv(s)
    ensures Inv(Next(s, RebootStep))
  {
    forall k | k in s.db ensures RowOk(Next(s, RebootStep), k) { assert RowOk(s, k); }
  }

  lemma StepKeeps(s: Sys, a: Step)
    requires Inv(s) && Enabled(s, a)
    ensures Inv(Next(s, a))
  {
    hide Inv, Enabled, Next;
    match a
    case ScheduleStep(id, row) => assert id !in s.used by { Unhidden(s, a); } ScheduleKeeps(s, id, row);
    case ActStep(req, action, user, id, now) =>
      assert req !in s.lookups by { Unhidden(s, a); }
      ActKeeps(s, req, action, user, id, now);
    case LookupStep(req) => LookupKeeps(s, req);
    case ClaimDueStep(ids, now) => ClaimDueKeeps(s, ids, now);
    case DispatchStep(id, ev) => DispatchKeeps(s, id, ev);
    case FinishStep(id, now) => FinishKeeps(s, id, now);
    case PruneStep(ids) => PruneKeeps(s, ids);
    case RebootStep => RebootKeeps(s);
  }

  lemma Unhidden(s: Sys, a: Step)
    requires Enabled(s, a)
    ensures a.ScheduleStep? ==> a.id !in s.used
    ensures a.ActStep? ==> a.req !in s.lookups
  {
  }

  lemma LookupKeeps(s: Sys, req: nat)
    requires Inv(s) && Enabled(s, LookupStep(req))
    ensures Inv(Next(s, LookupStep(req)))
  {
    var t := Next(s, LookupStep(req));
    forall k | k in t.db ensures RowOk(t, k) { assert RowOk(s, k); }
    forall k | k in t.flights ensures FlightOk(t, k) { assert FlightOk(s, k); }
  }

  // ---- runs ----

  ghost predicate Runs(steps: seq<Step>, states: seq<Sys>) {
    && |states| == |steps| + 1 && states[0] == BOOT
    && forall i | 0 <= i < |steps| :: Enabled(states[i], steps[i]) && states[i + 1] == Next(states[i], steps[i])
  }

  lemma {:induction false} RunKeeps(steps: seq<Step>, states: seq<Sys>, i: nat)
    requires Runs(steps, states) && i < |states|
    ensures Inv(states[i])
    decreases i
  {
    if i > 0 {
      RunKeeps(steps, states, i - 1);
      StepKeeps(states[i - 1], steps[i - 1]);
    }
  }

  /** At most one successful dispatch per delayed event in the life of a process, none at all of one that
      is still scheduled or was cancelled, and nothing is left sending that nobody is sending. */
  lemma AtMostOnce(steps: seq<Step>, states: seq<Sys>, i: nat, id: string)
    requires Runs(steps, states) && i < |states|
    ensures states[i].dispatched[id] <= 1
    ensures id in states[i].db && states[i].db[id].status in {Scheduled, Cancelled} ==> states[i].dispatched[id] == 0
    ensures id in states[i].db && states[i].db[id].status == Sending <==> id in states[i].flights
    ensures i > 0 && steps[i - 1].RebootStep? && id in states[i].db ==> states[i].db[id].status != Sending
  {
    RunKeeps(steps, states, i);
    var s := states[i];
    if id in s.db { assert RowOk(s, id); }
    if id in s.flights { assert FlightOk(s, id); }
    if i > 0 && steps[i - 1].RebootStep? { assert s == Next(states[i - 1], steps[i - 1]); }
  }

  /** A final status is never left: the row keeps it, with its event id, until it is pruned, and a
      pruned id does not come back. */
  lemma FinalStays(s: Sys, a: Step, id: string)
    requires Inv(s) && Enabled(s, a) && id in s.db && s.db[id].Final()
    ensures var t := Next(s, a);
      if id in t.db then t.db[id].status == s.db[id].status && t.db[id].eventId == s.db[id].eventId else a.PruneStep?
  {
    assert RowOk(s, id);
    if a.FinishStep? { assert FlightOk(s, a.id); }
  }

  lemma PrunedStaysGone(s: Sys, a: Step, id: string)
    requires Inv(s) && Enabled(s, a) && id in s.used && id !in s.db
    ensures id !in Next(s, a).db && id in Next(s, a).used
  {
    if a.FinishStep? { assert FlightOk(s, a.id); }
    if a.DispatchStep? { assert FlightOk(s, a.id); }
  }

  /** Over a whole run: what was final at one moment is unchanged, or pruned, at every later one. */
  lemma {:induction false} NeverBoth(steps: seq<Step>, states: seq<Sys>, i: nat, j: nat, id: string)
    requires Runs(steps, states) && i <= j < |states| && id in states[i].db && states[i].db[id].Final()
    ensures id in states[j].used
    ensures id in states[j].db ==>
      states[j].db[id].status == states[i].db[id].status && states[j].db[id].eventId == states[i].db[id].eventId
    decreases j
  {
    if i == j {
      RunKeeps(steps, states, i);
      assert RowOk(states[i], id);
    } else {
      NeverBoth(steps, states, i, j - 1, id);
      RunKeeps(steps, states, j - 1);
      hide Inv, Enabled, Next;
      if id in states[j - 1].db {
        FinalStays(states[j - 1], steps[j - 1], id);
      } else {
        PrunedStaysGone(states[j - 1], steps[j - 1], id);
      }
      UsedStays(states[j - 1], steps[j - 1]);
    }
  }

  lemma UsedStays(s: Sys, a: Step)
    requires Enabled(s, a)
    ensures s.used <= Next(s, a).used
  {
  }

  /** A 200 agrees with the status the event has when it is given. A 409 means that the user had no
      scheduled event of that id when the request tried, and that the event does not have the requested
      outcome now; when it is scheduled by then, DelayedAnswers tells. */
  lemma AnswersAgree(s: Sys, a: Step)
    requires Inv(s) && Enabled(s, a) && Answered(s, a).Some?
    ensures var t := Next(s, a); var r := Answered(s, a).value;
      && (r.code == C200 ==> r.id in t.db)
      && (r.code == C200 && r.action == SendNow ==> t.db[r.id].status == Sent && t.db[r.id].eventId.Some?)
      && (r.code == C200 && r.action == CancelIt ==> t.db[r.id].status == Cancelled && t.dispatched[r.id] == 0)
      && (r.code == C200 && r.action == RestartIt ==>
            a.ActStep? && t.db[r.id].status == Scheduled && t.db[r.id].fireAt == a.now + s.db[r.id].delay)
      && (r.code == C409 ==> r.id in t.db && a.LookupStep? && s.lookups[a.req].met != Some(Scheduled))
      && (r.code == C409 && r.action == SendNow ==> t.db[r.id].status != Sent)
      && (r.code == C409 && r.action == CancelIt ==> t.db[r.id].status != Cancelled)
      && (r.code == SendError ==> r.id in t.db && t.db[r.id].status == Scheduled && t.dispatched[r.id] == 0)
  {
    match a
    case FinishStep(id, _) => assert FlightOk(s, id) && RowOk(s, id);
    case LookupStep(req) =>
      if Owned(s.db, s.lookups[req].user, s.lookups[req].id) { assert RowOk(s, s.lookups[req].id); }
    case ActStep(_, _, user, id, _) => if Open(s.db, user, id) { assert RowOk(s, id); }
    case _ =>
  }

  const LATE_ROW := Row("u", "d", "t", "!r", "m.x", None, 1000, 0, 0, Scheduled, None, None)
  const LATE_STEPS := [ScheduleStep("a", LATE_ROW), ActStep(1, SendNow, "u", "a", 5), ActStep(2, SendNow, "u", "a", 6),
                       DispatchStep("a", None), FinishStep("a", 7)]

  /** Request 1 claims the event, request 2 finds it sending, and the send of request 1 fails. */
  function LateState(i: nat): Sys {
    var row := LATE_ROW.(fireAt := 1000);
    var sending := map["a" := row.(status := Sending)];
    var waiting := map[2 := Lookup(SendNow, "u", "a", Some(Sending))];
    if i == 0 then BOOT
    else if i == 1 then Sys(map["a" := row], map[], multiset{}, map[], {"a"})
    else if i == 2 then Sys(sending, map["a" := Flight(true, Dispatching)], multiset{}, map[], {"a"})
    else if i == 3 then Sys(sending, map["a" := Flight(true, Dispatching)], multiset{}, waiting, {"a"})
    else if i == 4 then Sys(sending, map["a" := Flight(true, Refused)], multiset{}, waiting, {"a"})
    else Sys(map["a" := row], map[], multiset{}, waiting, {"a"})
  }

  lemma LateSteps(i: nat)
    requires i < 5
    ensures Enabled(LateState(i), LATE_STEPS[i]) && LateState(i + 1) == Next(LateState(i), LATE_STEPS[i])
  {
    var s := LateState(i);
    if i == 4 { assert s.flights - {"a"} == map[]; }
  }

  ghost predicate RefusedWhileScheduled(s: Sys, req: nat, id: string) {
    && Enabled(s, LookupStep(req)) && Answered(s, LookupStep(req)) == Some(Answer(SendNow, id, C409))
    && id in s.db && s.db[id].status == Scheduled
  }

  /** A 409 can still meet a scheduled event: between the statement that found it sending and the one
      that reads its status, the send failed and the event went back to scheduled. */
  lemma ConflictThoughScheduled()
    ensures exists steps: seq<Step>, states: seq<Sys> ::
      Runs(steps, states) && RefusedWhileScheduled(states[|steps|], 2, "a")
  {
    var states := seq(6, (i: nat) => LateState(i));
    assert RefusedWhileScheduled(LateState(5), 2, "a") && LateState(0) == BOOT && |LATE_STEPS| == 5;
    hide Next, Enabled, LateState, RefusedWhileScheduled;
    forall i | 0 <= i < 5 ensures Enabled(states[i], LATE_STEPS[i]) && states[i + 1] == Next(states[i], LATE_STEPS[i]) {
      LateSteps(i);
    }
    assert Runs(LATE_STEPS, states);
    assert states[|LATE_STEPS|] == LateState(5);
  }
}
