/** Two servers that receive the same state-DAG events, in any two orders and with any retries,
    hold the same verdicts, snapshots, calculated auth events, heads and room state. */
module StateDagConvergence {
  import opened Wrappers
  import opened Sorting
  import opened Lexical
  import opened StateRes
  import opened StateDag
  import opened StateDagInvariant

  /** Event ids identify events; of the creates whose shape the checks accept, a room has one, and none
      names another room that has one. StateDagDivergence shows that both are needed. */
  ghost predicate Universe(U: set<Event>) {
    && (forall e, f | e in U && f in U && e.id == f.id :: e == f)
    && (forall e, f | e in U && f in U && e.Genesis() && f.Genesis() && e.room == f.room != "" :: e == f)
    && (forall e, f | e in U && f in U && e.Genesis() && f.Genesis() && e.roomId == f.room != "" :: e.room == f.room)
  }

  ghost predicate From(s: Store, U: set<Event>) {
    forall id | id in s.rows :: s.rows[id].ev in U && s.rows[id].ev.Deliverable() && s.rows[id].ev.id == id
  }

  /** What s knows of events, t knows too; arrival positions may differ. */
  ghost predicate Matches(s: Store, t: Store) {
    && (forall id | id in s.rows ::
      id in t.rows && t.rows[id].ev == s.rows[id].ev && (id in t.rejected <==> id in s.rejected))
    && (forall id | id in s.snapshots :: id in t.snapshots && t.snapshots[id] == s.snapshots[id])
    && (forall id | id in s.auth :: id in t.auth && t.auth[id] == s.auth[id])
  }

  lemma GrowsMatches(s: Store, t: Store)
    requires Grows(s, t)
    ensures Matches(s, t)
  {
  }

  // ---- a decision once possible does not change ----

  lemma OwnCreateSame(s: Store, t: Store, U: set<Event>, room: string)
    requires Universe(U) && From(s, U) && From(t, U) && RoomOk(s, room) && RoomOk(t, room) && room != ""
    ensures RoomCreate(s, room) == RoomCreate(t, room)
  {
    assert EntryOk(s, room, CREATE_KEY, s.roomState[room][CREATE_KEY]);
    assert EntryOk(t, room, CREATE_KEY, t.roomState[room][CREATE_KEY]);
  }

  /** Every row of room_state is sound. */
  ghost predicate StatesOk(s: Store) {
    forall room {:trigger RoomOk(s, room)} | room in s.roomState :: RoomOk(s, room)
  }

  /** The other room a create names has no create of its own. */
  lemma NoForeignCreate(s: Store, U: set<Event>, e: Event)
    requires Universe(U) && From(s, U) && StatesOk(s) && e in U && e.Genesis() && e.roomId != e.room && e.roomId != ""
    ensures RoomCreate(s, e.roomId) == None
  {
    if e.roomId in s.roomState {
      assert RoomOk(s, e.roomId);
      assert EntryOk(s, e.roomId, CREATE_KEY, s.roomState[e.roomId][CREATE_KEY]);
    }
  }

  lemma RoomCreateSame(s: Store, t: Store, U: set<Event>, room: string)
    requires Universe(U) && From(s, U) && From(t, U) && RoomOk(s, room) && RoomOk(t, room)
    requires StatesOk(s) && StatesOk(t)
    ensures RoomsAgree(s, t, U, room)
  {
    if room != "" { OwnCreateSame(s, t, U, room); }
    hide RoomCreate, Universe, From, StatesOk, RoomOk;
    forall e | e in U && e.Genesis() && e.room == room && e.roomId != ""
      ensures RoomCreate(s, e.roomId) == RoomCreate(t, e.roomId)
    {
      if e.roomId != room {
        NoForeignCreate(s, U, e);
        NoForeignCreate(t, U, e);
      }
    }
  }

  lemma AllStatesOk(s: Store)
    requires RoomsOk(s)
    ensures StatesOk(s)
  {
    hide RoomOk;
  }

  lemma {:induction false} LoadSame(s: Store, t: Store, ids: seq<string>)
    requires Matches(s, t) && forall id | id in ids :: id in s.rows
    ensures Load(s, ids) == Load(t, ids)
    decreases |ids|
  {
    if ids != [] { LoadSame(s, t, ids[1..]); }
  }

  /** The create lookups of the room, and of the rooms its creates name, agree. */
  ghost predicate RoomsAgree(s: Store, t: Store, U: set<Event>, room: string) {
    && (room == "" || RoomCreate(s, room) == RoomCreate(t, room))
    && forall e | e in U && e.Genesis() && e.room == room && e.roomId != "" ::
      RoomCreate(s, e.roomId) == RoomCreate(t, e.roomId)
  }

  lemma MetaSame(env: Env, s: Store, t: Store, U: set<Event>, room: string, id: string)
    requires Universe(U) && From(s, U) && Matches(s, t) && RoomsAgree(s, t, U, room)
    requires s.Accepted(id) && s.rows[id].ev.room == room && CreateOk(s.rows[id].ev) && AuthOk(s, id)
    ensures MetaOf(env, s, id) == MetaOf(env, t, id)
  {
    LoadSame(s, t, s.auth[id]);
    assert s.rows[id].ev in U && s.rows[id].ev.Deliverable();
    hide RoomCreate, Universe;
  }

  lemma CandidatesSame(s: Store, t: Store, ids: seq<string>)
    requires Matches(s, t) && forall id | id in ids :: id in s.snapshots
    ensures Candidates(s, ids) == Candidates(t, ids)
  {
    forall x | x in Candidates(s, ids) ensures x in Candidates(t, ids) {
      var id, k :| id in ids && id in s.snapshots && k in s.snapshots[id] && s.snapshots[id][k] == x;
      assert id in t.snapshots && k in t.snapshots[id] && t.snapshots[id][k] == x;
    }
    forall x | x in Candidates(t, ids) ensures x in Candidates(s, ids) {
      var id, k :| id in ids && id in t.snapshots && k in t.snapshots[id] && t.snapshots[id][k] == x;
      assert id in s.snapshots && k in s.snapshots[id] && s.snapshots[id][k] == x;
    }
  }

  lemma CandidateMetaSame(env: Env, s: Store, t: Store, U: set<Event>, room: string, ids: seq<string>, x: string)
    requires Universe(U) && From(s, U) && Matches(s, t) && RoomsAgree(s, t, U, room)
    requires EventsOk(s) && Snapshotted(s, room, ids) && x in Candidates(s, ids)
    ensures x in s.rows && x in t.rows && MetaOf(env, s, x) == MetaOf(env, t, x)
  {
    hide MetaOf, RoomsAgree, Universe, Snapshotted, SnapshotOk, ParentsOk, AuthOk, Candidates, RoomCreate;
    CandidatesOk(s, room, ids, x);
    assert EventOk(s, x);
    MetaSame(env, s, t, U, room, x);
  }

  lemma MetasSame(env: Env, s: Store, t: Store, cands: set<string>)
    requires forall x | x in cands :: x in s.rows && x in t.rows && MetaOf(env, s, x) == MetaOf(env, t, x)
    ensures Metas(env, s, cands) == Metas(env, t, cands)
  {
    hide MetaOf;
  }

  lemma ListedInSnapshots(s: Store, room: string, ids: seq<string>)
    requires Snapshotted(s, room, ids)
    ensures forall id | id in ids :: id in s.snapshots
  {
    forall id | id in ids ensures id in s.snapshots { assert SnapshotOk(s, id); }
  }

  lemma StateAfterSame(env: Env, s: Store, t: Store, U: set<Event>, room: string, ids: seq<string>)
    requires Universe(U) && From(s, U) && Matches(s, t) && (|ids| == 1 || RoomsAgree(s, t, U, room))
    requires EventsOk(s) && Snapshotted(s, room, ids)
    ensures StateAfter(env, s, ids) == StateAfter(env, t, ids)
  {
    hide MetaOf, RoomsAgree, Universe, From, EventsOk, Snapshotted, Resolve, Metas, Candidates;
    ListedInSnapshots(s, room, ids);
    if |ids| == 1 {
      assert ids[0] in ids;
    } else {
      var cands := Candidates(s, ids);
      CandidatesSame(s, t, ids);
      forall x | x in cands ensures x in s.rows && x in t.rows && MetaOf(env, s, x) == MetaOf(env, t, x) {
        CandidateMetaSame(env, s, t, U, room, ids, x);
      }
      MetasSame(env, s, t, cands);
    }
  }

  lemma {:induction false} CheckPrevsSame(s: Store, t: Store, ev: Event, prevs: seq<string>)
    requires Matches(s, t) && CheckPrevs(s, ev, prevs) != Missing
    ensures CheckPrevs(s, ev, prevs) == CheckPrevs(t, ev, prevs)
    decreases |prevs|
  {
    if prevs != [] && CheckPrevs(s, ev, prevs) == CheckPrevs(s, ev, prevs[1..]) && prevs[0] in s.rows {
      if s.rows[prevs[0]].ev.room == ev.roomId && !s.rows[prevs[0]].ev.stateKey.Absent? && prevs[0] !in s.rejected {
        CheckPrevsSame(s, t, ev, prevs[1..]);
      }
    }
  }

  lemma AuthViewSame(s: Store, t: Store, before: State, ev: Event)
    requires Matches(s, t) && forall k | k in before :: before[k] in s.rows
    ensures AuthView(s, before, ev) == AuthView(t, before, ev)
  {
    hide AuthKeys;
    var a, b := AuthView(s, before, ev), AuthView(t, before, ev);
    assert a.Some? && b.Some?;
    forall k | k in AuthKeys(ev) && k in before ensures a.value[k] == b.value[k] {
      assert before[k] in s.rows;
    }
    assert a.value == b.value;
  }

  /** A verdict reached on what is known stays the verdict whatever arrives later. */
  lemma Stable(env: Env, s: Store, t: Store, U: set<Event>, ev: Event)
    requires Universe(U) && From(s, U) && From(t, U) && Matches(s, t) && Inv(s) && RoomsOk(t)
    requires Check(env, s, ev) != Missing
    ensures Check(env, t, ev) == Check(env, s, ev)
    ensures Check(env, s, ev) == Accept && !ev.IsCreate()
      ==> StateAfter(env, t, ev.prevState) == StateAfter(env, s, ev.prevState)
  {
    if ev.hasPrevState && !ev.IsCreate() && ev.prevState != [] && |ev.prevState| <= MAX_PREV_STATE_EVENTS {
      CheckPrevsSame(s, t, ev, ev.prevState);
      if CheckPrevs(s, ev, ev.prevState) == Accept {
        StableBefore(env, s, t, U, ev);
      }
    }
  }

  lemma StableBefore(env: Env, s: Store, t: Store, U: set<Event>, ev: Event)
    requires Universe(U) && From(s, U) && From(t, U) && Matches(s, t) && Inv(s) && RoomsOk(t)
    requires ev.prevState != [] && CheckPrevs(s, ev, ev.prevState) == Accept
    ensures StateAfter(env, s, ev.prevState).Some?
      && StateAfter(env, t, ev.prevState) == StateAfter(env, s, ev.prevState)
    ensures AuthView(t, StateAfter(env, s, ev.prevState).value, ev)
      == AuthView(s, StateAfter(env, s, ev.prevState).value, ev)
    ensures OnlyPrevIsCreate(t, ev) == OnlyPrevIsCreate(s, ev)
  {
    hide StateAfter, AuthView, Universe, From, EventsOk, EdgesOk, HeadsOk, Snapshotted, RoomOk, EntryOk, CheckPrevs,
      RoomCreate;
    var room := ev.roomId;
    CheckedParents(s, ev, ev.prevState);
    CheckedSnapshots(s, ev);
    var p := ev.prevState[0];
    assert p in ev.prevState && s.Accepted(p) && t.Accepted(p);
    AllStatesOk(s);
    AllStatesOk(t);
    RoomCreateSame(s, t, U, room);
    StateAfterSame(env, s, t, U, room, ev.prevState);
    StateAfterOk(env, s, room, ev.prevState);
    EntriesStored(s, room, StateAfter(env, s, ev.prevState).value);
    AuthViewSame(s, t, StateAfter(env, s, ev.prevState).value, ev);
  }

  lemma EntriesStored(s: Store, room: string, st: State)
    requires forall k | k in st :: EntryOk(s, room, k, st[k])
    ensures forall k | k in st :: st[k] in s.rows
  {
  }

  // ---- every stored decision is the one the final store would make ----

  ghost predicate Decided(env: Env, s: Store, id: string) {
    && id in s.rows
    && Check(env, s, s.rows[id].ev) == (if id in s.rejected then Reject else Accept)
    && (s.Accepted(id) ==>
          && id in s.snapshots && id in s.auth
          && StateBefore(env, s, s.rows[id].ev).Some?
          && s.snapshots[id] == WithOwnTuple(StateBefore(env, s, s.rows[id].ev).value, s.rows[id].ev)
          && s.auth[id] == Selected(StateBefore(env, s, s.rows[id].ev).value, Selection(env, s.rows[id].ev)))
  }

  ghost predicate RoomCurrent(env: Env, s: Store, room: string) {
    && room in s.roomState && HeadIds(s, room) != {}
    && StateAfter(env, s, HeadList(s, room)) == Some(s.roomState[room])
  }

  ghost predicate Consistent(env: Env, s: Store) {
    && (forall id {:trigger Decided(env, s, id)} | id in s.rows :: Decided(env, s, id))
    && (forall room {:trigger RoomCurrent(env, s, room)} | room in s.roomState :: RoomCurrent(env, s, room))
  }

  lemma DecidedStays(env: Env, s: Store, t: Store, U: set<Event>, id: string)
    requires Universe(U) && From(s, U) && From(t, U) && Matches(s, t) && Inv(s) && RoomsOk(t)
    requires Decided(env, s, id)
    ensures Decided(env, t, id)
  {
    hide Check, StateAfter, CheckPrevs, Universe, From, WithOwnTuple, Selected, Selection, Inv, RoomsOk;
    Stable(env, s, t, U, s.rows[id].ev);
    CheckedShapeOf(env, s, s.rows[id].ev);
  }

  lemma CheckedShapeOf(env: Env, s: Store, ev: Event)
    ensures Check(env, s, ev) == Accept && ev.IsCreate() ==> ev.prevState == []
    ensures Check(env, s, ev) == Accept && !ev.IsCreate()
      ==> ev.prevState != [] && CheckPrevs(s, ev, ev.prevState) == Accept
  {
    if Check(env, s, ev) == Accept { CheckedShape(env, s, ev); }
  }

  lemma SameHeadList(s: Store, t: Store, room: string)
    requires HeadIds(t, room) == HeadIds(s, room)
    ensures HeadList(t, room) == HeadList(s, room)
  {
    hide HeadIds, SortSet, StrictTotal;
  }

  /** A room whose heads did not change keeps its current state. */
  lemma RoomStays(env: Env, s: Store, t: Store, U: set<Event>, room: string)
    requires Universe(U) && From(s, U) && From(t, U) && Matches(s, t) && Inv(s) && RoomsOk(t)
    requires RoomCurrent(env, s, room) && room in t.roomState && t.roomState[room] == s.roomState[room]
    requires HeadIds(t, room) == HeadIds(s, room)
    ensures RoomCurrent(env, t, room)
  {
    hide StateAfter, Universe, From, Matches, RoomOk, TablesOk, EventsOk, EdgesOk, HeadsOk, Snapshotted, RoomCreate,
      HeadIds, HeadList;
    HeadsSnapshotted(s, room);
    AllStatesOk(s);
    AllStatesOk(t);
    RoomCreateSame(s, t, U, room);
    StateAfterSame(env, s, t, U, room, HeadList(s, room));
    SameHeadList(s, t, room);
  }

  lemma HeadsElsewhere(s: Store, edges: set<Edge>, ev: Event, room: string)
    requires room != ev.room
    ensures (set h | h in AdvancedHeads(s.heads, edges, ev) && h.room == room)
      == (set h | h in s.heads && h.room == room)
  {
  }

  lemma RejectedFrom(s: Store, U: set<Event>, ev: Event)
    requires From(s, U) && ev in U && ev.Deliverable()
    ensures From(RejectEvent(s, ev), U)
  {
  }

  lemma ConsistentReject(env: Env, s: Store, U: set<Event>, ev: Event)
    requires Universe(U) && From(s, U) && Inv(s) && Consistent(env, s)
    requires ev in U && ev.Deliverable() && ev.id !in s.rows && Check(env, s, ev) == Reject
    ensures From(RejectEvent(s, ev), U) && Consistent(env, RejectEvent(s, ev))
  {
    hide Check, StateAfter, TablesOk, EventsOk, EdgesOk, HeadsOk, Grows, Matches, RoomOk, RejectEvent, Universe, From,
      Decided, RoomCurrent;
    var t := RejectEvent(s, ev);
    RejectedFrom(s, U, ev);
    InvReject(s, ev);
    GrowsMatches(s, t);
    InvHasRooms(t);
    RejectedShape(s, ev);
    forall id | id in t.rows ensures Decided(env, t, id) {
      if id == ev.id { RejectedDecided(env, s, t, U, ev); } else { DecidedStays(env, s, t, U, id); }
    }
    forall room | room in t.roomState ensures RoomCurrent(env, t, room) {
      assert RoomCurrent(env, s, room);
      RoomStays(env, s, t, U, room);
    }
  }

  lemma RejectedShape(s: Store, ev: Event)
    ensures var t := RejectEvent(s, ev);
      && t.rows == s.rows[ev.id := Row(ev, |s.rows|)] && ev.id in t.rejected && t.roomState == s.roomState
      && forall room :: HeadIds(t, room) == HeadIds(s, room)
  {
  }

  lemma RejectedDecided(env: Env, s: Store, t: Store, U: set<Event>, ev: Event)
    requires Universe(U) && From(s, U) && From(t, U) && Matches(s, t) && Inv(s) && RoomsOk(t)
    requires Check(env, s, ev) == Reject && ev.id in t.rows && t.rows[ev.id].ev == ev && ev.id in t.rejected
    ensures Decided(env, t, ev.id)
  {
    hide Check, StateAfter, Universe, From, Matches, Inv, RoomsOk;
    Stable(env, s, t, U, ev);
  }

  lemma InvHasRooms(s: Store)
    requires Inv(s)
    ensures RoomsOk(s)
  {
  }

  /** The accepted event's own entry, in the store that holds it. */
  lemma NewDecided(env: Env, s: Store, w: Store, U: set<Event>, ev: Event)
    requires Universe(U) && From(s, U) && Inv(s) && AuthRules(env) && ev.Deliverable() && ev.id !in s.rows
    requires Check(env, s, ev) == Accept && From(w, U) && Inv(w) && Grows(s, w)
    requires StateBefore(env, Persist(s, ev), ev).Some?
    requires ev.id in w.rows && w.rows[ev.id].ev == ev && ev.id !in w.rejected
    requires ev.id in w.snapshots && ev.id in w.auth
    requires w.snapshots[ev.id] == WithOwnTuple(StateBefore(env, Persist(s, ev), ev).value, ev)
    requires w.auth[ev.id] == Selected(StateBefore(env, Persist(s, ev), ev).value, Selection(env, ev))
    ensures Decided(env, w, ev.id)
  {
    hide Selected, Selection, WithOwnTuple, Check, StateAfter, TablesOk, EventsOk, EdgesOk, HeadsOk, RoomsOk, Grows,
      Matches,
      AuthRules, Universe, From, CheckPrevs, Persist;
    GrowsMatches(s, w);
    Stable(env, s, w, U, ev);
    CheckedShapeOf(env, s, ev);
    if !ev.IsCreate() {
      PersistedBefore(env, s, U, ev);
    }
  }

  lemma PersistedRoomCreate(s: Store, U: set<Event>, ev: Event)
    requires StatesOk(s) && ev.id !in s.rows
    ensures RoomsAgree(s, Persist(s, ev), U, ev.roomId)
  {
    forall room ensures RoomCreate(s, room) == RoomCreate(Persist(s, ev), room) {
      if room in s.roomState {
        assert RoomOk(s, room);
        assert EntryOk(s, room, CREATE_KEY, s.roomState[room][CREATE_KEY]);
      }
    }
    hide RoomCreate, Persist;
  }

  /** Persisting the event's own row first does not change the state before it. */
  lemma PersistedBefore(env: Env, s: Store, U: set<Event>, ev: Event)
    requires Universe(U) && From(s, U) && Inv(s) && ev.id !in s.rows
    requires ev.prevState != [] && CheckPrevs(s, ev, ev.prevState) == Accept
    ensures StateAfter(env, Persist(s, ev), ev.prevState) == StateAfter(env, s, ev.prevState)
  {
    hide StateAfter, CheckPrevs, EdgesOk, HeadsOk, Snapshotted, Grows, Matches, Universe, From, EventsOk, RoomOk,
      RoomCreate;
    PersistGrows(s, ev);
    GrowsMatches(s, Persist(s, ev));
    CheckedSnapshots(s, ev);
    AllStatesOk(s);
    PersistedRoomCreate(s, U, ev);
    StateAfterSame(env, s, Persist(s, ev), U, ev.roomId, ev.prevState);
  }

  lemma ConsistentAccept(env: Env, s: Store, U: set<Event>, ev: Event)
    requires Universe(U) && From(s, U) && Inv(s) && Consistent(env, s) && AuthRules(env)
    requires ev in U && ev.Deliverable() && ev.id !in s.rows && Check(env, s, ev) == Accept
    ensures From(AcceptEvent(env, s, ev), U) && Consistent(env, AcceptEvent(env, s, ev))
  {
    hide Check, StateAfter, TablesOk, EventsOk, EdgesOk, HeadsOk, RoomOk, AuthRules, Grows, Matches, AcceptEvent,
      Recompute, Advance, BeforeEntries,
      Decided, RoomCurrent, Universe, StateBefore, WithOwnTuple, Selected, Selection, Persist, HeadIds;
    var w := AcceptEvent(env, s, ev);
    InvAccept(env, s, ev);
    BeforeOk(env, s, ev);
    AcceptedRows(env, s, ev);
    assert From(w, U);
    hide From;
    InvHasRooms(w);
    GrowsMatches(s, w);
    forall id | id in w.rows ensures Decided(env, w, id) {
      if id == ev.id { NewDecided(env, s, w, U, ev); } else { DecidedStays(env, s, w, U, id); }
    }
    forall room | room in w.roomState ensures RoomCurrent(env, w, room) {
      if room == ev.room {
        RecomputedIsCurrent(env, s, U, ev);
      } else {
        assert RoomCurrent(env, s, room);
        RoomStays(env, s, w, U, room);
      }
    }
  }

  lemma HeadIdsElsewhere(s: Store, u: Store, ev: Event, room: string)
    requires room != ev.room
    requires exists edges :: u.heads == AdvancedHeads(s.heads, edges, ev)
    ensures HeadIds(u, room) == HeadIds(s, room)
  {
    var edges :| u.heads == AdvancedHeads(s.heads, edges, ev);
    HeadsElsewhere(s, edges, ev, room);
    hide AdvancedHeads;
    assert forall h | h in u.heads && h.room == room :: h in (set x | x in u.heads && x.room == room);
    assert forall h | h in s.heads && h.room == room :: h in (set x | x in s.heads && x.room == room);
  }

  lemma RecomputeRows(env: Env, u: Store, room: string)
    ensures var w := Recompute(env, u, room);
      w == u.(roomState := w.roomState)
      && forall r | r != room ::
        (r in w.roomState <==> r in u.roomState) && (r in u.roomState ==> w.roomState[r] == u.roomState[r])
  {
    hide StateAfter, HeadIds, HeadList;
  }

  lemma AcceptedHeads(env: Env, s: Store, u: Store, w: Store, before: State, ev: Event)
    requires u == Advance(env, Persist(s, ev), before, ev) && w.heads == u.heads
    ensures forall room | room != ev.room :: HeadIds(w, room) == HeadIds(s, room)
  {
    hide AdvancedHeads, WithOwnTuple, Selected, Selection, EdgesFor;
    assert u.heads == AdvancedHeads(s.heads, u.edges, ev);
    hide Advance;
    forall room | room != ev.room ensures HeadIds(w, room) == HeadIds(s, room) { HeadIdsElsewhere(s, w, ev, room); }
  }

  lemma AcceptedRows(env: Env, s: Store, ev: Event)
    requires Inv(s) && ev.id !in s.rows && StateBefore(env, Persist(s, ev), ev).Some?
    ensures var w := AcceptEvent(env, s, ev); var before := StateBefore(env, Persist(s, ev), ev).value;
      && w.rows == s.rows[ev.id := Row(ev, |s.rows|)] && w.rejected == s.rejected && ev.id !in w.rejected
      && w.snapshots == s.snapshots[ev.id := WithOwnTuple(before, ev)]
      && w.auth == s.auth[ev.id := Selected(before, Selection(env, ev))]
      && (forall room | room != ev.room :: room in w.roomState <==> room in s.roomState)
      && (forall room | room != ev.room && room in s.roomState ::
        room in w.roomState && w.roomState[room] == s.roomState[room])
      && (forall room | room != ev.room :: HeadIds(w, room) == HeadIds(s, room))
  {
    hide StateAfter, EventsOk, EdgesOk, HeadsOk, RoomsOk, WithOwnTuple, Selected, Selection, Recompute, HeadIds;
    var t := Persist(s, ev);
    var before := StateBefore(env, t, ev).value;
    var u := Advance(env, t, before, ev);
    var w := AcceptEvent(env, s, ev);
    RecomputeRows(env, u, ev.room);
    AcceptedHeads(env, s, u, w, before, ev);
  }

  lemma RecomputedIsCurrent(env: Env, s: Store, U: set<Event>, ev: Event)
    requires Universe(U) && From(s, U) && Inv(s) && AuthRules(env)
    requires ev in U && ev.Deliverable() && ev.id !in s.rows && Check(env, s, ev) == Accept
    ensures RoomCurrent(env, AcceptEvent(env, s, ev), ev.room)
  {
    BeforeOk(env, s, ev);
    NewParents(env, s, ev);
    var before := StateBefore(env, Persist(s, ev), ev).value;
    var u := Advance(env, Persist(s, ev), before, ev);
    var w := AcceptEvent(env, s, ev);
    hide Check, TablesOk, EventsOk, EdgesOk, HeadsOk, RoomsOk, BeforeEntries, ParentsOk, AuthRules, StateBefore,
      Recompute, OneMore, Universe, From, Grows;
    AdvanceTables(env, s, before, ev);
    AdvanceGrows(env, s, before, ev);
    AdvanceAccepted(env, s, before, ev);
    AdvanceEvents(env, s, before, ev);
    AdvanceEdges(env, s, u, before, ev);
    AdvanceHeads(env, s, u, before, ev);
    InvAccept(env, s, ev);
    RecomputedFrom(env, s, u, w, U, ev);
  }

  lemma OneMoreRooms(s: Store, u: Store, ev: Event)
    requires OneMore(s, u, ev) && RoomsOk(s) && u.roomState == s.roomState
    ensures StatesOk(u)
  {
    hide RoomOk, Grows;
    forall room | room in u.roomState ensures RoomOk(u, room) {
      assert RoomOk(s, room);
      RoomGrows(s, u, room);
    }
  }

  lemma StateOk(s: Store, room: string)
    requires StatesOk(s) && room in s.roomState
    ensures RoomOk(s, room)
  {
    hide RoomOk;
  }

  lemma RoomListed(s: Store, room: string)
    requires RoomOk(s, room)
    ensures room in s.roomState
  {
  }

  /** Writing the room's row leaves the state after its heads as it was. */
  lemma HeadsStateKept(env: Env, s: Store, u: Store, w: Store, U: set<Event>, ev: Event)
    requires Universe(U) && From(u, U) && From(w, U) && Inv(s) && Matches(u, w) && RoomsOk(w) && RoomOk(w, ev.room)
    requires OneMore(s, u, ev) && HeadsOk(u) && EventsOk(u) && u.roomState == s.roomState
    requires HeadIds(u, ev.room) != {} && Snapshotted(u, ev.room, HeadList(u, ev.room))
    ensures StateAfter(env, w, HeadList(u, ev.room)) == StateAfter(env, u, HeadList(u, ev.room))
  {
    hide TablesOk, HeadsOk, EventsOk, EdgesOk, RoomsOk, StateAfter, Snapshotted, RoomOk, Universe, From, Matches,
      OneMore, HeadIds, RoomCreate;
    if |HeadList(u, ev.room)| != 1 {
      AnotherHead(s, u, ev);
      OneMoreRooms(s, u, ev);
      RoomListed(s, ev.room);
      StateOk(u, ev.room);
      AllStatesOk(w);
      RoomCreateSame(u, w, U, ev.room);
    }
    StateAfterSame(env, u, w, U, ev.room, HeadList(u, ev.room));
  }

  lemma OneMoreFrom(s: Store, u: Store, U: set<Event>, ev: Event)
    requires From(s, U) && ev in U && ev.Deliverable() && u.rows == s.rows[ev.id := Row(ev, |s.rows|)]
    ensures From(u, U)
  {
  }

  lemma SameButRoomState(s: Store, u: Store, w: Store, U: set<Event>)
    requires w == u.(roomState := w.roomState) && From(u, U)
    ensures From(w, U) && Matches(u, w) && forall room :: HeadIds(w, room) == HeadIds(u, room)
  {
  }

  lemma WrittenRoomOk(w: Store, room: string)
    requires RoomsOk(w) && room in w.roomState
    ensures RoomOk(w, room)
  {
  }

  lemma OneMoreAccepted(s: Store, u: Store, ev: Event)
    requires OneMore(s, u, ev)
    ensures u.Accepted(ev.id) && u.rows[ev.id].ev == ev
  {
  }

  lemma RecomputedFrom(env: Env, s: Store, u: Store, w: Store, U: set<Event>, ev: Event)
    requires Universe(U) && From(s, U) && Inv(s) && ev in U && ev.Deliverable()
    requires OneMore(s, u, ev) && TablesOk(u) && HeadsOk(u) && EventsOk(u) && u.roomState == s.roomState
    requires u.rows == s.rows[ev.id := Row(ev, |s.rows|)]
    requires w == Recompute(env, u, ev.room) && Inv(w)
    ensures RoomCurrent(env, w, ev.room)
  {
    hide TablesOk, HeadsOk, EventsOk, EdgesOk, RoomsOk, StateAfter, Snapshotted, RoomOk, Universe, Recompute, EntryOk,
      From, OneMore, Matches, HeadIds, HeadList;
    assert u.Accepted(ev.id) && u.rows[ev.id].ev == ev by { OneMoreAccepted(s, u, ev); }
    RoomHasHeads(env, u, ev.room, ev.id);
    StateAfterOk(env, u, ev.room, HeadList(u, ev.room));
    RecomputeShape(env, u, ev.room);
    OneMoreFrom(s, u, U, ev);
    SameButRoomState(s, u, w, U);
    SameHeadList(u, w, ev.room);
    WrittenRoomOk(w, ev.room);
    HeadsStateKept(env, s, u, w, U, ev);
  }

  lemma OtherHead(u: Store, ev: Event)
    requires HeadIds(u, ev.room) != {} && |HeadIds(u, ev.room)| != 1
    ensures exists id :: Head(ev.room, id) in u.heads && id != ev.id
  {
    var ids := HeadIds(u, ev.room);
    assert ids != {ev.id};
    var id :| id in ids && id != ev.id;
    assert Head(ev.room, id) in u.heads;
  }

  lemma AcceptedBefore(s: Store, u: Store, ev: Event, id: string)
    requires OneMore(s, u, ev) && HeadsOk(u) && Head(ev.room, id) in u.heads && id != ev.id
    ensures s.Accepted(id) && s.rows[id].ev.room == ev.room
  {
    assert IsHead(u, Head(ev.room, id));
    assert u.Accepted(id);
  }

  lemma RoomOfAccepted(s: Store, id: string)
    requires RoomsOk(s) && s.Accepted(id)
    ensures RoomOk(s, s.rows[id].ev.room)
  {
  }

  /** With several heads, one of them was accepted before. */
  lemma AnotherHead(s: Store, u: Store, ev: Event)
    requires OneMore(s, u, ev) && HeadsOk(u) && Inv(s) && HeadIds(u, ev.room) != {} && |HeadIds(u, ev.room)| != 1
    ensures RoomOk(s, ev.room)
  {
    hide *;
    OtherHead(u, ev);
    var id :| Head(ev.room, id) in u.heads && id != ev.id;
    AcceptedBefore(s, u, ev, id);
    InvHasRooms(s);
    RoomOfAccepted(s, id);
  }

  lemma ConsistentDeliver(env: Env, s: Store, U: set<Event>, ev: Event)
    requires Universe(U) && From(s, U) && Inv(s) && Consistent(env, s) && AuthRules(env) && ev in U
    ensures From(Deliver(env, s, ev), U) && Consistent(env, Deliver(env, s, ev))
  {
    hide Inv, Consistent, Check, From, RejectEvent, AcceptEvent, Universe;
    if ev.Deliverable() && ev.id !in s.rows {
      match Check(env, s, ev)
      case Missing =>
      case Reject => ConsistentReject(env, s, U, ev);
      case Accept => ConsistentAccept(env, s, U, ev);
    }
  }

  lemma {:induction false} ConsistentRun(env: Env, U: set<Event>, deliveries: seq<Event>)
    requires AuthRules(env) && Universe(U) && forall e | e in deliveries :: e in U
    ensures var s := Run(env, EMPTY, deliveries); Inv(s) && From(s, U) && Consistent(env, s)
    decreases |deliveries|
  {
    if deliveries == [] {
      InvInitial();
    } else {
      var init, e := deliveries[..|deliveries| - 1], deliveries[|deliveries| - 1];
      hide Inv, Consistent, From, Universe, Deliver;
      ConsistentRun(env, U, init);
      ConsistentDeliver(env, Run(env, EMPTY, init), U, e);
      InvDeliver(env, Run(env, EMPTY, init), e);
    }
  }

  // ---- convergence ----

  /** Nothing delivered is still to be decided: every event is stored, or its parents are missing. */
  ghost predicate Settled(env: Env, s: Store, events: set<Event>) {
    forall e | e in events && e.Deliverable() :: e.id in s.rows || Check(env, s, e) == Missing
  }

  /** A good store: reachable, and drawn from U. */
  ghost predicate Good(env: Env, s: Store, U: set<Event>) {
    Inv(s) && From(s, U) && Consistent(env, s)
  }

  lemma KnownEvent(t: Store, U: set<Event>, ev: Event)
    requires Universe(U) && From(t, U) && ev in U && ev.id in t.rows
    ensures t.rows[ev.id].ev == ev
  {
  }

  lemma DecidedRejected(env: Env, t: Store, U: set<Event>, ev: Event)
    requires Universe(U) && Good(env, t, U) && ev in U && Check(env, t, ev) == Reject && ev.id in t.rows
    ensures t.rows[ev.id].ev == ev && ev.id in t.rejected
  {
    hide Check, Inv, StateAfter, RoomCurrent;
    KnownEvent(t, U, ev);
    assert Decided(env, t, ev.id);
  }

  lemma OneMoreRejected(s: Store, t: Store, ev: Event)
    requires Matches(s, t) && ev.id in t.rows && t.rows[ev.id].ev == ev && ev.id in t.rejected
    ensures Matches(RejectEvent(s, ev), t)
  {
  }

  lemma DecidedAccepted(env: Env, t: Store, U: set<Event>, ev: Event)
    requires Universe(U) && Good(env, t, U) && ev in U && Check(env, t, ev) == Accept && ev.id in t.rows
    ensures t.rows[ev.id].ev == ev && ev.id !in t.rejected && ev.id in t.snapshots && ev.id in t.auth
    ensures StateBefore(env, t, ev).Some?
    ensures t.snapshots[ev.id] == WithOwnTuple(StateBefore(env, t, ev).value, ev)
    ensures t.auth[ev.id] == Selected(StateBefore(env, t, ev).value, Selection(env, ev))
  {
    hide Check, Inv, StateAfter, StateBefore, RoomCurrent, Selected, Selection, WithOwnTuple;
    KnownEvent(t, U, ev);
    assert Decided(env, t, ev.id);
  }

  lemma OneMoreAcceptedMatches(s: Store, w: Store, t: Store, ev: Event)
    requires Matches(s, t) && ev.id in w.rows && ev.id in w.snapshots && ev.id in w.auth
    requires w.rows == s.rows[ev.id := w.rows[ev.id]] && w.rows[ev.id].ev == ev && w.rejected == s.rejected
      && ev.id !in w.rejected
    requires w.snapshots == s.snapshots[ev.id := w.snapshots[ev.id]] && w.auth == s.auth[ev.id := w.auth[ev.id]]
    requires ev.id in t.rows && t.rows[ev.id].ev == ev && ev.id !in t.rejected
    requires ev.id in t.snapshots && t.snapshots[ev.id] == w.snapshots[ev.id] && ev.id in t.auth
      && t.auth[ev.id] == w.auth[ev.id]
    ensures Matches(w, t)
  {
  }

  /** The state before an accepted event is the same in the store that accepts it and in a later one. */
  lemma BeforeAgrees(env: Env, s: Store, t: Store, U: set<Event>, ev: Event)
    requires Universe(U) && Inv(s) && From(s, U) && From(t, U) && Matches(s, t) && RoomsOk(t)
    requires ev.id !in s.rows && Check(env, s, ev) == Accept
    ensures Check(env, t, ev) == Accept && StateBefore(env, t, ev) == StateBefore(env, Persist(s, ev), ev)
  {
    hide Check, StateAfter, CheckPrevs, Inv, RoomsOk, Universe, From, Matches, Persist;
    Stable(env, s, t, U, ev);
    CheckedShapeOf(env, s, ev);
    if !ev.IsCreate() { PersistedBefore(env, s, U, ev); }
  }

  lemma MatchesReject(env: Env, s: Store, t: Store, U: set<Event>, ev: Event)
    requires Universe(U) && Good(env, t, U) && Matches(s, t)
    requires ev in U && ev.id !in s.rows && Check(env, t, ev) == Reject && ev.id in t.rows
    ensures Matches(RejectEvent(s, ev), t)
  {
    hide *;
    DecidedRejected(env, t, U, ev);
    OneMoreRejected(s, t, ev);
  }

  lemma GoodParts(env: Env, t: Store, U: set<Event>)
    requires Good(env, t, U)
    ensures Inv(t) && From(t, U) && Consistent(env, t) && RoomsOk(t)
  {
    InvHasRooms(t);
    hide Inv, From, Consistent;
  }

  lemma MatchesAccept(env: Env, s: Store, t: Store, U: set<Event>, ev: Event)
    requires Universe(U) && Inv(s) && From(s, U) && Good(env, t, U) && Matches(s, t) && AuthRules(env)
    requires ev in U && ev.Deliverable() && ev.id !in s.rows && ev.id in t.rows
    requires Check(env, s, ev) == Accept
    ensures Matches(AcceptEvent(env, s, ev), t)
  {
    hide *;
    GoodParts(env, t, U);
    BeforeOk(env, s, ev);
    AcceptedRows(env, s, ev);
    BeforeAgrees(env, s, t, U, ev);
    DecidedAccepted(env, t, U, ev);
    OneMoreAcceptedMatches(s, AcceptEvent(env, s, ev), t, ev);
  }

  lemma InitSettled(env: Env, deliveries: seq<Event>, t: Store)
    requires deliveries != [] && Settled(env, t, Elems(deliveries))
    ensures Settled(env, t, Elems(deliveries[..|deliveries| - 1]))
    ensures var e := deliveries[|deliveries| - 1]; e.Deliverable() ==> e.id in t.rows || Check(env, t, e) == Missing
  {
    hide Check;
    var init, e := deliveries[..|deliveries| - 1], deliveries[|deliveries| - 1];
    assert e in Elems(deliveries) && Elems(init) <= Elems(deliveries);
  }

  lemma EmptyMatches(t: Store)
    ensures Matches(EMPTY, t)
  {
  }

  lemma DeliverCases(env: Env, s: Store, e: Event)
    ensures Deliver(env, s, e) ==
      if !e.Deliverable() || e.id in s.rows || Check(env, s, e) == Missing then s
      else if Check(env, s, e) == Reject then RejectEvent(s, e) else AcceptEvent(env, s, e)
  {
    hide Check, RejectEvent, AcceptEvent;
  }

  lemma DeliverMatches(env: Env, s: Store, t: Store, U: set<Event>, e: Event)
    requires AuthRules(env) && Universe(U) && Inv(s) && From(s, U) && Good(env, t, U) && Matches(s, t) && e in U
    requires e.Deliverable() ==> e.id in t.rows || Check(env, t, e) == Missing
    ensures Matches(Deliver(env, s, e), t)
  {
    hide *;
    GoodParts(env, t, U);
    DeliverCases(env, s, e);
    if e.Deliverable() && e.id !in s.rows && Check(env, s, e) != Missing {
      Stable(env, s, t, U, e);
      if Check(env, s, e) == Reject { MatchesReject(env, s, t, U, e); } else { MatchesAccept(env, s, t, U, e); }
    }
  }

  /** Whatever one server has decided at any point, the other has decided alike by the end. */
  lemma {:induction false} RunMatches(env: Env, U: set<Event>, deliveries: seq<Event>, t: Store)
    requires AuthRules(env) && Universe(U) && Good(env, t, U)
    requires forall e | e in deliveries :: e in U
    requires Settled(env, t, Elems(deliveries))
    ensures Matches(Run(env, EMPTY, deliveries), t)
    decreases |deliveries|
  {
    if deliveries != [] {
      var init, e := deliveries[..|deliveries| - 1], deliveries[|deliveries| - 1];
      InitSettled(env, deliveries, t);
      GoodParts(env, t, U);
      hide Inv, Consistent, StateAfter, Check, Universe, From, Good, Settled, Matches, Deliver, AuthRules, RoomsOk;
      RunMatches(env, U, init, t);
      ConsistentRun(env, U, init);
      DeliverMatches(env, Run(env, EMPTY, init), t, U, e);
    } else {
      EmptyMatches(t);
    }
  }

  /** Equal in everything but arrival positions. */
  ghost predicate SameView(s: Store, t: Store) {
    && s.rows.Keys == t.rows.Keys
    && (forall id | id in s.rows && id in t.rows :: s.rows[id].ev == t.rows[id].ev)
    && s.rejected == t.rejected && s.snapshots == t.snapshots && s.auth == t.auth
    && s.edges == t.edges && s.heads == t.heads && s.roomState == t.roomState
  }

  lemma MutualTables(s: Store, t: Store)
    requires Inv(s) && Inv(t) && Matches(s, t) && Matches(t, s)
    ensures s.rows.Keys == t.rows.Keys && s.rejected == t.rejected
    ensures s.snapshots == t.snapshots && s.auth == t.auth
    ensures forall id :: s.Accepted(id) <==> t.Accepted(id)
  {
    hide EventsOk, EdgesOk, HeadsOk, RoomsOk;
    assert s.snapshots.Keys == t.snapshots.Keys && s.auth.Keys == t.auth.Keys;
  }

  lemma SameEdgesAndHeads(s: Store, t: Store)
    requires EdgesOk(s) && EdgesOk(t) && HeadsOk(s) && HeadsOk(t)
    requires forall id :: s.Accepted(id) <==> t.Accepted(id)
    requires forall id | s.Accepted(id) && t.Accepted(id) :: s.rows[id].ev == t.rows[id].ev
    ensures s.edges == t.edges && s.heads == t.heads
  {
    forall e ensures e in s.edges <==> e in t.edges { assert IsEdge(s, e) <==> IsEdge(t, e); }
    forall id ensures HasStateChild(t, id) <==> HasStateChild(s, id) {
      if c :| s.Accepted(c) && s.rows[c].ev.stateKey.Text? && id in s.rows[c].ev.prevState { assert t.Accepted(c); }
      if c :| t.Accepted(c) && t.rows[c].ev.stateKey.Text? && id in t.rows[c].ev.prevState { assert s.Accepted(c); }
    }
    forall h ensures h in s.heads <==> h in t.heads { assert IsHead(s, h) <==> IsHead(t, h); }
  }

  lemma RoomAcross(s: Store, t: Store, room: string)
    requires RoomOk(s, room) && Matches(s, t) && RoomsOk(t)
    ensures RoomOk(t, room)
  {
    assert EntryOk(s, room, CREATE_KEY, s.roomState[room][CREATE_KEY]);
    assert t.Accepted(s.roomState[room][CREATE_KEY]);
  }

  lemma SameHeadIds(s: Store, t: Store, room: string)
    requires s.heads == t.heads
    ensures HeadIds(t, room) == HeadIds(s, room)
  {
  }

  lemma SameRoomState(env: Env, s: Store, t: Store, U: set<Event>, room: string)
    requires Universe(U) && Good(env, s, U) && Good(env, t, U) && Matches(s, t) && s.heads == t.heads
    requires room in s.roomState
    ensures room in t.roomState && t.roomState[room] == s.roomState[room]
  {
    hide StateAfter, TablesOk, EventsOk, EdgesOk, HeadsOk, RoomOk, Universe, From, Matches, Decided, HeadIds,
      RoomCreate;
    assert RoomCurrent(env, s, room) && RoomOk(s, room);
    RoomAcross(s, t, room);
    assert RoomOk(t, room);
    RoomListed(t, room);
    assert RoomCurrent(env, t, room);
    HeadsSnapshotted(s, room);
    AllStatesOk(s);
    AllStatesOk(t);
    RoomCreateSame(s, t, U, room);
    StateAfterSame(env, s, t, U, room, HeadList(s, room));
    SameHeadIds(s, t, room);
    SameHeadList(s, t, room);
  }

  lemma MutualMatchSame(env: Env, s: Store, t: Store, U: set<Event>)
    requires Universe(U) && Good(env, s, U) && Good(env, t, U) && Matches(s, t) && Matches(t, s)
    ensures SameView(s, t)
  {
    hide Consistent, TablesOk, EventsOk, EdgesOk, HeadsOk, RoomsOk, Universe, From;
    MutualTables(s, t);
    SameEdgesAndHeads(s, t);
    hide Inv, Matches;
    forall room | room in s.roomState ensures room in t.roomState && t.roomState[room] == s.roomState[room] {
      SameRoomState(env, s, t, U, room);
    }
    forall room | room in t.roomState ensures room in s.roomState { SameRoomState(env, t, s, U, room); }
    assert s.roomState.Keys == t.roomState.Keys;
  }

  /** Convergence: two servers that received the same events, each in its own order with its own
      retries, and have nothing left to decide, hold the same state. */
  lemma Convergence(env: Env, d1: seq<Event>, d2: seq<Event>)
    requires AuthRules(env) && Universe(Elems(d1)) && Elems(d1) == Elems(d2)
    requires Settled(env, Run(env, EMPTY, d1), Elems(d1)) && Settled(env, Run(env, EMPTY, d2), Elems(d2))
    ensures SameView(Run(env, EMPTY, d1), Run(env, EMPTY, d2))
  {
    var U := Elems(d1);
    var s, t := Run(env, EMPTY, d1), Run(env, EMPTY, d2);
    ConsistentRun(env, U, d1);
    assert forall e | e in d2 :: e in Elems(d2);
    ConsistentRun(env, U, d2);
    RunMatches(env, U, d1, t);
    RunMatches(env, U, d2, s);
    MutualMatchSame(env, s, t, U);
  }
}
