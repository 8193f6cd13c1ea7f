/** What every reachable state-DAG store satisfies, whatever is delivered and in whatever order. */
module StateDagInvariant {
  import opened Wrappers
  import opened Sorting
  import opened Lexical
  import opened StateRes
  import opened StateDag

  /** rooms.Authorize refuses an m.room.create once the state before it holds one. */
  ghost predicate AuthRules(env: Env) {
    forall ev: Event, view: map<Key, Event>, only: bool :: ev.typ == "m.room.create" && CREATE_KEY in view
      ==> !env.authorize(ev, view, only)
  }

  /** a is reached from d by at most n steps along prev_state_events, and at least one. */
  ghost predicate AncestorWithin(s: Store, n: nat, d: string, a: string) {
    n > 0 && d in s.rows && exists p :: p in s.rows[d].ev.prevState && (p == a || AncestorWithin(s, n - 1, p, a))
  }

  /** a is a strict state-DAG ancestor of d. */
  ghost predicate Ancestor(s: Store, d: string, a: string) {
    exists n: nat :: AncestorWithin(s, n, d, a)
  }

  predicate CreateOk(ev: Event) { ev.typ == "m.room.create" ==> ev.Genesis() }

  ghost predicate EntryOk(s: Store, room: string, k: Key, x: string) {
    && s.Accepted(x) && s.rows[x].ev.stateKey == Text(k.stateKey) && s.rows[x].ev.typ == k.typ
      && s.rows[x].ev.room == room
    && CreateOk(s.rows[x].ev)
  }

  ghost predicate SnapshotOk(s: Store, id: string) {
    && id in s.rows && id in s.snapshots
    && CREATE_KEY in s.snapshots[id]
    && (s.rows[id].ev.stateKey.Text? ==>
          s.rows[id].ev.StKey() in s.snapshots[id] && s.snapshots[id][s.rows[id].ev.StKey()] == id)
    && forall k | k in s.snapshots[id] ::
         EntryOk(s, s.rows[id].ev.room, k, s.snapshots[id][k])
         && (s.snapshots[id][k] == id || Ancestor(s, id, s.snapshots[id][k]))
  }

  ghost predicate AuthOk(s: Store, id: string) {
    && id in s.auth
    && (forall i, j | 0 <= i < j < |s.auth[id]| :: s.auth[id][i] != s.auth[id][j])
    && forall a | a in s.auth[id] :: s.Accepted(a) && s.rows[a].ev.stateKey.Text? && Ancestor(s, id, a)
  }

  ghost predicate ParentOk(s: Store, e: Event, stream: nat, p: string) {
    s.Accepted(p) && s.rows[p].ev.room == e.room && !s.rows[p].ev.stateKey.Absent? && s.rows[p].stream < stream
  }

  ghost predicate ParentsOk(s: Store, e: Event, stream: nat) {
    if e.IsCreate() then e.prevState == []
    else 1 <= |e.prevState| <= MAX_PREV_STATE_EVENTS && forall p | p in e.prevState :: ParentOk(s, e, stream, p)
  }

  ghost predicate TablesOk(s: Store) {
    && (forall id | id in s.rows :: s.rows[id].ev.id == id && s.rows[id].stream < |s.rows|)
    && (forall id | id in s.rejected :: id in s.rows)
    && (forall id :: id in s.snapshots <==> s.Accepted(id))
    && (forall id :: id in s.auth <==> s.Accepted(id))
  }

  /** An accepted event with a string state_key cites id as a parent. */
  ghost predicate HasStateChild(s: Store, id: string) {
    exists c :: s.Accepted(c) && s.rows[c].ev.stateKey.Text? && id in s.rows[c].ev.prevState
  }

  ghost predicate IsHead(s: Store, h: Head) {
    s.Accepted(h.id) && s.rows[h.id].ev.room == h.room && s.rows[h.id].ev.stateKey.Text? && !HasStateChild(s, h.id)
  }

  ghost predicate IsEdge(s: Store, e: Edge) {
    s.Accepted(e.child) && e.parent in s.rows[e.child].ev.prevState
      && e.childIsState == s.rows[e.child].ev.stateKey.Text?
  }

  ghost predicate EdgesOk(s: Store) {
    forall e :: e in s.edges <==> IsEdge(s, e)
  }

  ghost predicate HeadsOk(s: Store) {
    forall h :: h in s.heads <==> IsHead(s, h)
  }

  ghost predicate RoomOk(s: Store, room: string) {
    && room in s.roomState && CREATE_KEY in s.roomState[room]
    && forall k | k in s.roomState[room] :: EntryOk(s, room, k, s.roomState[room][k])
  }

  ghost predicate RoomsOk(s: Store) {
    && (forall id {:trigger RoomOk(s, s.rows[id].ev.room)} | s.Accepted(id) :: RoomOk(s, s.rows[id].ev.room))
    && (forall room {:trigger RoomOk(s, room)} | room in s.roomState :: RoomOk(s, room))
  }

  ghost predicate EventOk(s: Store, id: string) {
    id in s.rows && ParentsOk(s, s.rows[id].ev, s.rows[id].stream) && SnapshotOk(s, id) && AuthOk(s, id)
  }

  ghost predicate EventsOk(s: Store) {
    forall id {:trigger EventOk(s, id)} | s.Accepted(id) :: EventOk(s, id)
  }

  ghost predicate Inv(s: Store) {
    TablesOk(s) && EventsOk(s) && EdgesOk(s) && HeadsOk(s) && RoomsOk(s)
  }

  // ---- growth ----

  /** t extends s: known rows keep their content, verdict, snapshot and calculated auth. */
  ghost predicate Grows(s: Store, t: Store) {
    && (forall id | id in s.rows ::
      id in t.rows && t.rows[id] == s.rows[id] && (id in t.rejected <==> id in s.rejected))
    && (forall id | id in s.snapshots :: id in t.snapshots && t.snapshots[id] == s.snapshots[id])
    && (forall id | id in s.auth :: id in t.auth && t.auth[id] == s.auth[id])
  }

  lemma {:induction false} AncestorWithinGrows(s: Store, t: Store, n: nat, d: string, a: string)
    requires Grows(s, t) && AncestorWithin(s, n, d, a)
    ensures AncestorWithin(t, n, d, a)
    decreases n
  {
    var p :| p in s.rows[d].ev.prevState && (p == a || AncestorWithin(s, n - 1, p, a));
    if p != a { AncestorWithinGrows(s, t, n - 1, p, a); }
  }

  lemma AncestorGrows(s: Store, t: Store, d: string, a: string)
    requires Grows(s, t) && Ancestor(s, d, a)
    ensures Ancestor(t, d, a)
  {
    var n: nat :| AncestorWithin(s, n, d, a);
    AncestorWithinGrows(s, t, n, d, a);
  }

  lemma ParentIsAncestor(s: Store, d: string, p: string)
    requires d in s.rows && p in s.rows[d].ev.prevState
    ensures Ancestor(s, d, p)
  {
    assert AncestorWithin(s, 1, d, p);
  }

  lemma AncestorThroughParent(s: Store, d: string, p: string, a: string)
    requires d in s.rows && p in s.rows[d].ev.prevState && Ancestor(s, p, a)
    ensures Ancestor(s, d, a)
  {
    var n: nat :| AncestorWithin(s, n, p, a);
    assert AncestorWithin(s, n + 1, d, a);
  }

  lemma SnapshotGrows(s: Store, t: Store, id: string)
    requires Grows(s, t) && SnapshotOk(s, id)
    ensures SnapshotOk(t, id)
  {
    forall k | k in t.snapshots[id]
      ensures EntryOk(t, t.rows[id].ev.room, k, t.snapshots[id][k])
      ensures t.snapshots[id][k] == id || Ancestor(t, id, t.snapshots[id][k])
    {
      assert EntryOk(s, s.rows[id].ev.room, k, s.snapshots[id][k]);
      if s.snapshots[id][k] != id { AncestorGrows(s, t, id, s.snapshots[id][k]); }
    }
  }

  lemma AuthGrows(s: Store, t: Store, id: string)
    requires Grows(s, t) && AuthOk(s, id)
    ensures AuthOk(t, id)
  {
    forall a | a in t.auth[id] ensures Ancestor(t, id, a) && t.Accepted(a) { AncestorGrows(s, t, id, a); }
  }

  // ---- resolution over good snapshots ----

  ghost predicate Snapshotted(s: Store, room: string, ids: seq<string>) {
    ids != [] && forall id | id in ids :: SnapshotOk(s, id) && s.rows[id].ev.room == room
  }

  ghost predicate FromOneOf(s: Store, ids: seq<string>, x: string) {
    exists id :: id in ids && (x == id || Ancestor(s, id, x))
  }

  lemma CandidatesOk(s: Store, room: string, ids: seq<string>, x: string)
    requires Snapshotted(s, room, ids) && x in Candidates(s, ids)
    ensures x in s.rows && EntryOk(s, room, s.rows[x].ev.StKey(), x) && FromOneOf(s, ids, x)
  {
    var id, k :| id in ids && id in s.snapshots && k in s.snapshots[id] && s.snapshots[id][k] == x;
    assert SnapshotOk(s, id);
  }

  /** Resolving good snapshots succeeds, keeps the create tuple, and yields only accepted events of
      the room under their own key, each one of the given events or an ancestor of one. */
  lemma StateAfterOk(env: Env, s: Store, room: string, ids: seq<string>)
    requires Snapshotted(s, room, ids)
    ensures StateAfter(env, s, ids).Some?
    ensures CREATE_KEY in StateAfter(env, s, ids).value
    ensures forall k | k in StateAfter(env, s, ids).value ::
      EntryOk(s, room, k, StateAfter(env, s, ids).value[k]) && FromOneOf(s, ids, StateAfter(env, s, ids).value[k])
  {
    assert ids[0] in ids && SnapshotOk(s, ids[0]);
    var st := StateAfter(env, s, ids).value;
    if |ids| == 1 {
      forall k | k in st ensures EntryOk(s, room, k, st[k]) && FromOneOf(s, ids, st[k]) {
        assert EntryOk(s, s.rows[ids[0]].ev.room, k, s.snapshots[ids[0]][k]);
      }
    } else {
      var metas := Metas(env, s, Candidates(s, ids));
      ResolveEntries(metas);
      var c := s.snapshots[ids[0]][CREATE_KEY];
      assert c in Candidates(s, ids);
      CandidatesOk(s, room, ids, c);
      assert EntryOk(s, s.rows[ids[0]].ev.room, CREATE_KEY, c);
      assert MetaOf(env, s, c) in metas && MetaOf(env, s, c).key == CREATE_KEY;
      forall k | k in st ensures EntryOk(s, room, k, st[k]) && FromOneOf(s, ids, st[k]) {
        var m :| m in metas && m.key == k && m.id == st[k];
        CandidatesOk(s, room, ids, m.id);
      }
    }
  }

  lemma {:induction false} SelectedOk(before: State, keys: seq<Key>)
    ensures forall i, j | 0 <= i < j < |Selected(before, keys)| ::
      Selected(before, keys)[i] != Selected(before, keys)[j]
    ensures forall a :: a in Selected(before, keys) <==> exists k :: k in keys && k in before && before[k] == a
    decreases |keys|
  {
    if keys != [] {
      var init, last := keys[..|keys| - 1], keys[|keys| - 1];
      SelectedOk(before, init);
      assert forall k :: k in keys <==> k in init || k == last;
    }
  }

  // ---- preservation ----

  lemma InvInitial()
    ensures Inv(EMPTY)
  {
  }

  lemma PersistGrows(s: Store, ev: Event)
    requires ev.id !in s.rows && TablesOk(s)
    ensures Grows(s, Persist(s, ev))
  {
  }

  lemma ParentsGrow(s: Store, t: Store, e: Event, stream: nat)
    requires Grows(s, t) && ParentsOk(s, e, stream)
    ensures ParentsOk(t, e, stream)
  {
    forall p | p in e.prevState && !e.IsCreate() ensures ParentOk(t, e, stream, p) { assert ParentOk(s, e, stream, p); }
  }

  lemma EventGrows(s: Store, t: Store, id: string)
    requires Grows(s, t) && EventOk(s, id)
    ensures EventOk(t, id)
  {
    ParentsGrow(s, t, s.rows[id].ev, s.rows[id].stream);
    SnapshotGrows(s, t, id);
    AuthGrows(s, t, id);
  }

  lemma EventsGrow(s: Store, t: Store)
    requires Grows(s, t) && EventsOk(s)
    requires forall id | t.Accepted(id) :: s.Accepted(id)
    ensures EventsOk(t)
  {
    forall id | t.Accepted(id) ensures EventOk(t, id) { EventGrows(s, t, id); }
  }

  /** The same events are accepted. */
  ghost predicate SameAccepted(s: Store, t: Store) {
    && (forall id :: t.Accepted(id) <==> s.Accepted(id))
    && (forall id | s.Accepted(id) && t.Accepted(id) :: t.rows[id] == s.rows[id])
  }

  lemma EdgesFollow(s: Store, t: Store)
    requires EdgesOk(s) && t.edges == s.edges && SameAccepted(s, t)
    ensures EdgesOk(t)
  {
    forall e ensures e in t.edges <==> IsEdge(t, e) { assert e in s.edges <==> IsEdge(s, e); }
  }

  lemma HeadsFollow(s: Store, t: Store)
    requires HeadsOk(s) && t.heads == s.heads && SameAccepted(s, t)
    ensures HeadsOk(t)
  {
    forall id ensures HasStateChild(t, id) <==> HasStateChild(s, id) {
      if c :| s.Accepted(c) && s.rows[c].ev.stateKey.Text? && id in s.rows[c].ev.prevState {
        assert t.Accepted(c);
      }
      if c :| t.Accepted(c) && t.rows[c].ev.stateKey.Text? && id in t.rows[c].ev.prevState {
        assert s.Accepted(c);
      }
    }
    forall h ensures h in t.heads <==> IsHead(t, h) { assert h in s.heads <==> IsHead(s, h); }
  }

  lemma InvParts(s: Store)
    requires Inv(s)
    ensures TablesOk(s) && EventsOk(s) && EdgesOk(s) && HeadsOk(s) && RoomsOk(s)
  {
    hide TablesOk, EventsOk, EdgesOk, HeadsOk, RoomsOk;
  }

  lemma InvWhole(s: Store)
    requires TablesOk(s) && EventsOk(s) && EdgesOk(s) && HeadsOk(s) && RoomsOk(s)
    ensures Inv(s)
  {
    hide TablesOk, EventsOk, EdgesOk, HeadsOk, RoomsOk;
  }

  lemma RejectTables(s: Store, ev: Event)
    requires TablesOk(s) && ev.id !in s.rows
    ensures var t := RejectEvent(s, ev);
      && SameAccepted(s, t) && TablesOk(t) && Grows(s, t) && t.edges == s.edges && t.heads == s.heads
        && t.roomState == s.roomState
      && forall id | t.Accepted(id) :: s.Accepted(id)
  {
    hide *;
    RejectGrows(s, ev);
    RejectTablesOk(s, ev);
  }

  lemma RejectGrows(s: Store, ev: Event)
    requires ev.id !in s.rows
    ensures var t := RejectEvent(s, ev);
      && SameAccepted(s, t) && Grows(s, t) && t.edges == s.edges && t.heads == s.heads && t.roomState == s.roomState
      && forall id | t.Accepted(id) :: s.Accepted(id)
  {
  }

  lemma RejectTablesOk(s: Store, ev: Event)
    requires TablesOk(s) && ev.id !in s.rows
    ensures TablesOk(RejectEvent(s, ev))
  {
    assert |RejectEvent(s, ev).rows| == |s.rows| + 1;
  }

  lemma RejectKeeps(s: Store, ev: Event)
    requires Inv(s) && ev.id !in s.rows
    ensures var t := RejectEvent(s, ev);
      && SameAccepted(s, t) && TablesOk(t) && Grows(s, t) && t.edges == s.edges && t.heads == s.heads
        && t.roomState == s.roomState
      && forall id | t.Accepted(id) :: s.Accepted(id)
  {
    hide *;
    InvParts(s);
    RejectTables(s, ev);
  }

  /** A store that differs by one rejected row. */
  lemma InvReject(s: Store, ev: Event)
    requires Inv(s) && ev.id !in s.rows
    ensures Inv(RejectEvent(s, ev)) && Grows(s, RejectEvent(s, ev))
  {
    hide *;
    var t := RejectEvent(s, ev);
    RejectKeeps(s, ev);
    InvParts(s);
    EventsGrow(s, t);
    EdgesFollow(s, t);
    HeadsFollow(s, t);
    RoomsGrow(s, t);
    InvWhole(t);
  }

  lemma RoomGrows(s: Store, t: Store, room: string)
    requires Grows(s, t) && RoomOk(s, room) && room in t.roomState && t.roomState[room] == s.roomState[room]
    ensures RoomOk(t, room)
  {
    forall k | k in t.roomState[room] ensures EntryOk(t, room, k, t.roomState[room][k]) {
      assert EntryOk(s, room, k, s.roomState[room][k]);
    }
  }

  lemma RoomsGrow(s: Store, t: Store)
    requires Grows(s, t) && RoomsOk(s) && t.roomState == s.roomState
    requires forall id | t.Accepted(id) :: s.Accepted(id)
    ensures RoomsOk(t)
  {
    forall room | room in t.roomState ensures RoomOk(t, room) { RoomGrows(s, t, room); }
    forall id | t.Accepted(id) ensures RoomOk(t, t.rows[id].ev.room) { assert RoomOk(s, s.rows[id].ev.room); }
  }

  lemma {:induction false} CheckedParents(s: Store, ev: Event, prevs: seq<string>)
    requires CheckPrevs(s, ev, prevs) == Accept
    ensures forall p | p in prevs ::
      s.Accepted(p) && s.rows[p].ev.room == ev.roomId && !s.rows[p].ev.stateKey.Absent?
    decreases |prevs|
  {
    if prevs != [] { CheckedParents(s, ev, prevs[1..]); }
  }

  lemma CheckedSnapshots(s: Store, ev: Event)
    requires Inv(s) && ev.prevState != [] && CheckPrevs(s, ev, ev.prevState) == Accept
    ensures Snapshotted(s, ev.roomId, ev.prevState)
  {
    CheckedParents(s, ev, ev.prevState);
    forall p | p in ev.prevState ensures SnapshotOk(s, p) { assert EventOk(s, p); }
  }

  lemma SnapshottedGrows(s: Store, t: Store, room: string, ids: seq<string>)
    requires Grows(s, t) && Snapshotted(s, room, ids)
    ensures Snapshotted(t, room, ids)
  {
    forall id | id in ids ensures SnapshotOk(t, id) { SnapshotGrows(s, t, id); }
  }

  /** An authorised event with parents is no m.room.create: the state before it holds one. */
  lemma CreateSeen(env: Env, s: Store, ev: Event)
    requires AuthRules(env) && !ev.IsCreate() && ev.prevState != [] && Check(env, s, ev) == Accept
    requires StateAfter(env, s, ev.prevState).Some? && CREATE_KEY in StateAfter(env, s, ev.prevState).value
    ensures ev.typ != "m.room.create"
  {
    hide StateAfter, CheckPrevs;
    var view := AuthView(s, StateAfter(env, s, ev.prevState).value, ev);
    assert CREATE_KEY in view.value;
    assert env.authorize(ev, view.value, OnlyPrevIsCreate(s, ev));
  }

  /** The structural part of the checks. */
  lemma CheckedShape(env: Env, s: Store, ev: Event)
    requires Check(env, s, ev) == Accept
    ensures ev.IsCreate() ==> ev.Genesis()
    ensures !ev.IsCreate() ==>
      1 <= |ev.prevState| <= MAX_PREV_STATE_EVENTS && CheckPrevs(s, ev, ev.prevState) == Accept
  {
    hide StateAfter, CheckPrevs, AuthView;
  }

  /** An accepted event is a create without parents, or no create at all and filed in its own room. */
  lemma AcceptedShape(env: Env, s: Store, ev: Event)
    requires Inv(s) && ev.Deliverable() && Check(env, s, ev) == Accept && AuthRules(env)
    ensures ev.IsCreate() ==> ev.Genesis()
    ensures !ev.IsCreate() ==>
      && ev.typ != "m.room.create" && ev.roomId == ev.room
      && 1 <= |ev.prevState| <= MAX_PREV_STATE_EVENTS && CheckPrevs(s, ev, ev.prevState) == Accept
      && Snapshotted(s, ev.room, ev.prevState)
  {
    hide Check, StateAfter, CheckPrevs, Snapshotted, Inv, AuthRules;
    CheckedShape(env, s, ev);
    if !ev.IsCreate() {
      CheckedSnapshots(s, ev);
      StateAfterOk(env, s, ev.roomId, ev.prevState);
      CreateSeen(env, s, ev);
    }
  }

  ghost predicate BeforeEntries(t: Store, ev: Event, before: State) {
    && (CREATE_KEY in before || ev.IsCreate()) && CreateOk(ev)
    && forall k | k in before :: EntryOk(t, ev.room, k, before[k]) && Ancestor(t, ev.id, before[k])
  }

  /** The state before an event that passed the checks. */
  lemma BeforeOk(env: Env, s: Store, ev: Event)
    requires Inv(s) && ev.id !in s.rows && ev.Deliverable() && Check(env, s, ev) == Accept && AuthRules(env)
    ensures StateBefore(env, Persist(s, ev), ev).Some?
    ensures BeforeEntries(Persist(s, ev), ev, StateBefore(env, Persist(s, ev), ev).value)
  {
    hide Check, StateAfter, CheckPrevs, Snapshotted, AuthRules, Grows, EventsOk, EdgesOk, HeadsOk, RoomsOk;
    AcceptedShape(env, s, ev);
    if !ev.IsCreate() {
      PersistGrows(s, ev);
      SnapshottedGrows(s, Persist(s, ev), ev.room, ev.prevState);
      ResolvedBefore(env, Persist(s, ev), ev);
    }
  }

  lemma ResolvedBefore(env: Env, t: Store, ev: Event)
    requires ev.id in t.rows && t.rows[ev.id].ev == ev && CreateOk(ev) && Snapshotted(t, ev.room, ev.prevState)
    ensures StateBefore(env, t, ev).Some?
    ensures BeforeEntries(t, ev, StateBefore(env, t, ev).value)
  {
    StateAfterOk(env, t, ev.room, ev.prevState);
    hide StateAfter, EntryOk, SnapshotOk;
    var before := StateBefore(env, t, ev).value;
    forall k | k in before ensures Ancestor(t, ev.id, before[k]) {
      assert FromOneOf(t, ev.prevState, before[k]);
      var p :| p in ev.prevState && (before[k] == p || Ancestor(t, p, before[k]));
      if before[k] == p { ParentIsAncestor(t, ev.id, p); } else { AncestorThroughParent(t, ev.id, p, before[k]); }
    }
  }

  lemma NewParents(env: Env, s: Store, ev: Event)
    requires Inv(s) && ev.id !in s.rows && ev.Deliverable() && Check(env, s, ev) == Accept && AuthRules(env)
    ensures ParentsOk(s, ev, |s.rows|)
  {
    hide Check, StateAfter, CheckPrevs, Snapshotted, AuthRules, EventsOk, EdgesOk, HeadsOk, RoomsOk;
    AcceptedShape(env, s, ev);
    if !ev.IsCreate() {
      CheckedParents(s, ev, ev.prevState);
      forall p | p in ev.prevState ensures ParentOk(s, ev, |s.rows|, p) { assert s.Accepted(p); }
    }
  }

  /** Exactly one more event is accepted. */
  ghost predicate OneMore(s: Store, u: Store, ev: Event) {
    && ev.id !in s.rows && u.Accepted(ev.id) && u.rows[ev.id] == Row(ev, |s.rows|)
    && (forall id :: u.Accepted(id) <==> s.Accepted(id) || id == ev.id)
    && Grows(s, u)
  }

  lemma AdvanceAccepted(env: Env, s: Store, before: State, ev: Event)
    requires TablesOk(s) && ev.id !in s.rows
    ensures var u := Advance(env, Persist(s, ev), before, ev);
      && u.rows == s.rows[ev.id := Row(ev, |s.rows|)] && u.rejected == s.rejected
      && u.snapshots == s.snapshots[ev.id := WithOwnTuple(before, ev)]
      && u.auth == s.auth[ev.id := Selected(before, Selection(env, ev))]
      && u.Accepted(ev.id) && ev.id !in s.snapshots && ev.id !in s.auth
      && forall id :: u.Accepted(id) <==> s.Accepted(id) || id == ev.id
  {
  }

  lemma AdvanceTables(env: Env, s: Store, before: State, ev: Event)
    requires TablesOk(s) && ev.id !in s.rows
    ensures TablesOk(Advance(env, Persist(s, ev), before, ev))
  {
    AdvanceAccepted(env, s, before, ev);
    var u := Advance(env, Persist(s, ev), before, ev);
    hide Advance, WithOwnTuple, Selected, Selection;
    assert |u.rows| == |s.rows| + 1;
  }

  lemma AdvanceGrows(env: Env, s: Store, before: State, ev: Event)
    requires TablesOk(s) && ev.id !in s.rows
    ensures var u := Advance(env, Persist(s, ev), before, ev); OneMore(s, u, ev) && Grows(Persist(s, ev), u)
  {
    AdvanceAccepted(env, s, before, ev);
    AdvanceGrowsOn(env, s, before, ev);
    hide Advance, WithOwnTuple, Selected, Selection, TablesOk, EdgesFor, AdvancedHeads;
  }

  lemma AdvanceGrowsOn(env: Env, s: Store, before: State, ev: Event)
    requires ev.id !in s.rows && ev.id !in s.snapshots && ev.id !in s.auth
    ensures Grows(Persist(s, ev), Advance(env, Persist(s, ev), before, ev))
  {
    hide WithOwnTuple, Selected, Selection, EdgesFor, AdvancedHeads;
  }

  lemma AdvanceEvents(env: Env, s: Store, before: State, ev: Event)
    requires TablesOk(s) && EventsOk(s) && ev.id !in s.rows
    requires ParentsOk(s, ev, |s.rows|) && BeforeEntries(Persist(s, ev), ev, before)
    ensures EventsOk(Advance(env, Persist(s, ev), before, ev))
  {
    var t := Persist(s, ev);
    var u := Advance(env, t, before, ev);
    AdvanceGrows(env, s, before, ev);
    ParentsGrow(s, u, ev, |s.rows|);
    NewSnapshot(env, t, u, before, ev);
    forall id | u.Accepted(id) ensures EventOk(u, id) {
      if id != ev.id { EventGrows(s, u, id); }
    }
  }

  lemma NewSnapshot(env: Env, t: Store, u: Store, before: State, ev: Event)
    requires ev.id in t.rows && t.rows[ev.id].ev == ev && ev.id !in t.rejected
    requires Grows(t, u) && u == Advance(env, t, before, ev)
    requires BeforeEntries(t, ev, before)
    ensures SnapshotOk(u, ev.id) && AuthOk(u, ev.id)
  {
    forall k | k in before ensures EntryOk(u, ev.room, k, before[k]) && Ancestor(u, ev.id, before[k]) {
      assert EntryOk(t, ev.room, k, before[k]);
      AncestorGrows(t, u, ev.id, before[k]);
    }
    SelectedOk(before, Selection(env, ev));
    forall a | a in u.auth[ev.id] ensures u.Accepted(a) && u.rows[a].ev.stateKey.Text? && Ancestor(u, ev.id, a) {
      var k :| k in before && before[k] == a;
      assert EntryOk(u, ev.room, k, before[k]);
    }
  }

  lemma NoParentIsNew(s: Store, ev: Event)
    requires EventsOk(s) && ev.id !in s.rows && ParentsOk(s, ev, |s.rows|)
    ensures ev.id !in ev.prevState
    ensures forall c | s.Accepted(c) :: ev.id !in s.rows[c].ev.prevState
  {
    forall p | p in ev.prevState ensures p != ev.id { assert ParentOk(s, ev, |s.rows|, p); }
    forall c, p | s.Accepted(c) && p in s.rows[c].ev.prevState ensures p != ev.id {
      assert EventOk(s, c);
      assert ParentOk(s, s.rows[c].ev, s.rows[c].stream, p);
    }
  }

  lemma AdvanceEdges(env: Env, s: Store, u: Store, before: State, ev: Event)
    requires EdgesOk(s) && OneMore(s, u, ev) && u == Advance(env, Persist(s, ev), before, ev)
    ensures EdgesOk(u)
  {
    forall e ensures e in u.edges <==> IsEdge(u, e) {
      assert e in s.edges <==> IsEdge(s, e);
      assert e in EdgesFor(ev) <==> e.child == ev.id && IsEdge(u, e);
      if e.child != ev.id { assert IsEdge(u, e) <==> IsEdge(s, e); }
    }
  }

  lemma NewStateChildren(s: Store, u: Store, ev: Event, id: string)
    requires OneMore(s, u, ev)
    ensures HasStateChild(u, id) <==> HasStateChild(s, id) || (ev.stateKey.Text? && id in ev.prevState)
  {
    if c :| s.Accepted(c) && s.rows[c].ev.stateKey.Text? && id in s.rows[c].ev.prevState {
      assert u.Accepted(c);
    }
    if c :| u.Accepted(c) && u.rows[c].ev.stateKey.Text? && id in u.rows[c].ev.prevState {
      assert c == ev.id || s.Accepted(c);
    }
    assert u.Accepted(ev.id);
  }

  lemma AdvanceHeads(env: Env, s: Store, u: Store, before: State, ev: Event)
    requires EventsOk(s) && HeadsOk(s) && EdgesOk(u) && ParentsOk(s, ev, |s.rows|)
    requires OneMore(s, u, ev) && u == Advance(env, Persist(s, ev), before, ev)
    ensures HeadsOk(u)
  {
    NoParentIsNew(s, ev);
    NewStateChildren(s, u, ev, ev.id);
    assert !HasStateChild(s, ev.id);
    forall e | e in u.edges && e.parent == ev.id ensures !e.childIsState {
      assert IsEdge(u, e);
      assert u.Accepted(e.child);
    }
    forall h ensures h in u.heads <==> IsHead(u, h) {
      assert h in s.heads <==> IsHead(s, h);
      NewStateChildren(s, u, ev, h.id);
      if h.id != ev.id && h.id in ev.prevState && IsHead(s, h) {
        assert ParentOk(s, ev, |s.rows|, h.id);
      }
    }
  }

  /** Rooms with an accepted state event have a head: the latest accepted one. */
  lemma {:induction false} LatestIsHead(s: Store, room: string, id: string)
    requires TablesOk(s) && HeadsOk(s) && EventsOk(s)
    requires s.Accepted(id) && s.rows[id].ev.room == room && s.rows[id].ev.stateKey.Text?
    ensures HeadIds(s, room) != {}
    decreases |s.rows| - s.rows[id].stream
  {
    hide SnapshotOk, AuthOk;
    if c :| s.Accepted(c) && s.rows[c].ev.stateKey.Text? && id in s.rows[c].ev.prevState {
      assert EventOk(s, c);
      assert ParentOk(s, s.rows[c].ev, s.rows[c].stream, id);
      LatestIsHead(s, room, c);
    } else {
      assert IsHead(s, Head(room, id));
      assert id in HeadIds(s, room);
    }
  }

  lemma HeadSnapshot(s: Store, room: string, id: string)
    requires HeadsOk(s) && EventsOk(s) && id in HeadIds(s, room)
    ensures SnapshotOk(s, id) && id in s.rows && s.rows[id].ev.room == room
  {
    hide SnapshotOk, ParentsOk, AuthOk;
    var h :| h in s.heads && h.room == room && h.id == id;
    assert IsHead(s, h) && EventOk(s, id);
  }

  lemma NonEmptyList(s: Store, room: string)
    requires HeadIds(s, room) != {}
    ensures HeadList(s, room) != []
  {
    hide HeadIds;
    assert |HeadIds(s, room)| != 0;
  }

  lemma HeadsSnapshotted(s: Store, room: string)
    requires HeadsOk(s) && HeadIds(s, room) != {} && EventsOk(s)
    ensures Snapshotted(s, room, HeadList(s, room))
  {
    hide HeadIds, HeadList, SnapshotOk, EventsOk, HeadsOk;
    forall id | id in HeadList(s, room) ensures SnapshotOk(s, id) && id in s.rows && s.rows[id].ev.room == room {
      HeadSnapshot(s, room, id);
    }
    NonEmptyList(s, room);
  }

  lemma HasCreate(u: Store, room: string, id: string)
    requires EventsOk(u) && u.Accepted(id) && u.rows[id].ev.room == room
    ensures id in u.snapshots && CREATE_KEY in u.snapshots[id]
    ensures var c := u.snapshots[id][CREATE_KEY];
      u.Accepted(c) && u.rows[c].ev.room == room && u.rows[c].ev.stateKey.Text?
  {
    assert EventOk(u, id);
    var c := u.snapshots[id][CREATE_KEY];
    assert EntryOk(u, room, CREATE_KEY, c);
  }

  lemma RoomHasHeads(env: Env, u: Store, room: string, id: string)
    requires TablesOk(u) && HeadsOk(u) && EventsOk(u)
    requires u.Accepted(id) && u.rows[id].ev.room == room
    ensures HeadIds(u, room) != {} && Snapshotted(u, room, HeadList(u, room))
  {
    hide *;
    HasCreate(u, room, id);
    LatestIsHead(u, room, u.snapshots[id][CREATE_KEY]);
    HeadsSnapshotted(u, room);
  }

  /** Recompute changes nothing but the room's row of room_state. */
  lemma RecomputeShape(env: Env, u: Store, room: string)
    requires HeadIds(u, room) != {} && StateAfter(env, u, HeadList(u, room)).Some?
    ensures Recompute(env, u, room) == u.(roomState := u.roomState[room := StateAfter(env, u, HeadList(u, room)).value])
  {
  }

  lemma WithRoomState(s: Store, u: Store, ev: Event, st: State)
    requires OneMore(s, u, ev) && RoomsOk(s) && u.roomState == s.roomState
    requires CREATE_KEY in st && forall k | k in st :: EntryOk(u, ev.room, k, st[k])
    ensures RoomsOk(u.(roomState := u.roomState[ev.room := st]))
  {
    var w := u.(roomState := u.roomState[ev.room := st]);
    forall k | k in st ensures EntryOk(w, ev.room, k, st[k]) { assert EntryOk(u, ev.room, k, st[k]); }
    assert Grows(s, w);
    hide Grows, EntryOk;
    forall r | r in w.roomState ensures RoomOk(w, r) {
      if r != ev.room { RoomGrows(s, w, r); }
    }
    forall i | w.Accepted(i) ensures w.rows[i].ev.room in w.roomState {
      assert u.Accepted(i);
      if i != ev.id { assert s.Accepted(i) && RoomOk(s, s.rows[i].ev.room); }
    }
  }

  lemma SameTables(s: Store, u: Store, w: Store, ev: Event)
    requires OneMore(s, u, ev) && TablesOk(u) && w == u.(roomState := w.roomState)
    ensures TablesOk(w) && Grows(s, w) && Grows(u, w) && SameAccepted(u, w)
  {
  }

  lemma WithRoomStateInv(s: Store, u: Store, w: Store, ev: Event)
    requires OneMore(s, u, ev) && TablesOk(u) && EdgesOk(u) && HeadsOk(u) && EventsOk(u)
    requires w == u.(roomState := w.roomState) && RoomsOk(w)
    ensures Inv(w) && Grows(s, w)
  {
    hide TablesOk, EdgesOk, HeadsOk, EventsOk, RoomsOk, Grows, SameAccepted, OneMore;
    SameTables(s, u, w, ev);
    assert forall id | w.Accepted(id) :: u.Accepted(id);
    EventsGrow(u, w);
    EdgesFollow(u, w);
    HeadsFollow(u, w);
  }

  lemma RecomputeOk(env: Env, s: Store, u: Store, ev: Event)
    requires OneMore(s, u, ev) && RoomsOk(s) && u.roomState == s.roomState
    requires TablesOk(u) && EdgesOk(u) && HeadsOk(u) && EventsOk(u)
    ensures Inv(Recompute(env, u, ev.room)) && Grows(s, Recompute(env, u, ev.room))
  {
    hide TablesOk, EventsOk, EdgesOk, HeadsOk, RoomsOk, StateAfter, Snapshotted, Recompute, EntryOk, Grows;
    RoomHasHeads(env, u, ev.room, ev.id);
    StateAfterOk(env, u, ev.room, HeadList(u, ev.room));
    RecomputeShape(env, u, ev.room);
    WithRoomState(s, u, ev, StateAfter(env, u, HeadList(u, ev.room)).value);
    WithRoomStateInv(s, u, Recompute(env, u, ev.room), ev);
  }

  lemma InvAccept(env: Env, s: Store, ev: Event)
    requires Inv(s) && ev.id !in s.rows && ev.Deliverable() && Check(env, s, ev) == Accept && AuthRules(env)
    ensures Inv(AcceptEvent(env, s, ev)) && Grows(s, AcceptEvent(env, s, ev))
  {
    hide TablesOk, EventsOk, EdgesOk, HeadsOk, RoomsOk, ParentsOk, BeforeEntries, Check, StateAfter, Recompute, OneMore,
      Grows;
    BeforeOk(env, s, ev);
    NewParents(env, s, ev);
    var before := StateBefore(env, Persist(s, ev), ev).value;
    var u := Advance(env, Persist(s, ev), before, ev);
    AdvanceTables(env, s, before, ev);
    AdvanceGrows(env, s, before, ev);
    AdvanceEvents(env, s, before, ev);
    AdvanceEdges(env, s, u, before, ev);
    AdvanceHeads(env, s, u, before, ev);
    RecomputeOk(env, s, u, ev);
  }

  lemma GrowsReflexive(s: Store)
    ensures Grows(s, s)
  {
  }

  lemma InvDeliver(env: Env, s: Store, ev: Event)
    requires Inv(s) && AuthRules(env)
    ensures Inv(Deliver(env, s, ev)) && Grows(s, Deliver(env, s, ev))
  {
    hide Inv, AuthRules, Check, RejectEvent, AcceptEvent, Grows;
    GrowsReflexive(s);
    if ev.Deliverable() && ev.id !in s.rows {
      match Check(env, s, ev)
      case Missing =>
      case Reject => InvReject(s, ev);
      case Accept => InvAccept(env, s, ev);
    }
  }

  /** Every run from the empty store ends in a store that satisfies the invariant. */
  lemma {:induction false} Reachable(env: Env, deliveries: seq<Event>)
    requires AuthRules(env)
    ensures Inv(Run(env, EMPTY, deliveries))
    decreases |deliveries|
  {
    if deliveries != [] {
      Reachable(env, deliveries[..|deliveries| - 1]);
      InvDeliver(env, Run(env, EMPTY, deliveries[..|deliveries| - 1]), deliveries[|deliveries| - 1]);
    }
  }
}
