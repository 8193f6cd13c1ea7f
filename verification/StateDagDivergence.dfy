/** Why convergence asks what it asks of creates: resolution ranks the candidates by the create that
    room_state holds at the time (senderPowerLevel), and what is written then is not revisited. */
module StateDagDivergence {
  import opened Wrappers
  import opened Sorting
  import opened StateRes
  import opened StateDag
  import opened StateDagInvariant
  import opened StateDagConvergence

  const NAME := Key("m.room.name", "")
  const JOIN := Key("m.room.join_rules", "")

  // ---- the resolved order of a few events ----

  /** m is what Kahn's algorithm takes next. */
  ghost predicate NextIs(rem: set<Meta>, m: Meta) {
    m in Leaves(rem) && forall f | f in Leaves(rem) && f != m :: LeafLess(m, f)
  }

  lemma NextChoiceIs(rem: set<Meta>, m: Meta)
    requires DistinctIds(rem) && rem != {} && NextIs(rem, m)
    ensures NextChoice(rem) == m
  {
    ByLeafTotal(Choices(rem));
    var less := ByLeaf();
    var n := Least(less, Choices(rem));
    assert Choices(rem) == Leaves(rem) && n in Leaves(rem);
    hide Leaves, LeafLess;
    assert n != m ==> less(m, n);
    assert n != m ==> less(n, m);
  }

  lemma KahnTakes(rem: set<Meta>, m: Meta)
    requires DistinctIds(rem) && NextIs(rem, m)
    ensures m in rem && DistinctIds(rem - {m}) && KahnOrder(rem) == [m] + KahnOrder(rem - {m})
  {
    assert m in rem;
    NextChoiceIs(rem, m);
    hide NextIs, NextChoice;
  }

  /** Falling levels, and citations only backwards. */
  ghost predicate Falling(order: seq<Meta>) {
    && (forall i, j | 0 <= i < j < |order| :: order[i].level > order[j].level && order[i].id != order[j].id)
    && (forall i, j | 0 <= i <= j < |order| :: !order[i].Cites(order[j].id))
  }

  lemma FallingNext(order: seq<Meta>)
    requires order != [] && Falling(order)
    ensures DistinctIds(Elems(order)) && NextIs(Elems(order), order[0])
    ensures Elems(order) - {order[0]} == Elems(order[1..]) && Falling(order[1..])
  {
    assert order[0] in order;
    forall f | f in Elems(order) && f != order[0] ensures LeafLess(order[0], f) {
      var i :| 0 <= i < |order| && order[i] == f;
    }
    forall x | x in order ensures x == order[0] || x in order[1..] {
      var i :| 0 <= i < |order| && order[i] == x;
      if i > 0 { assert order[1..][i - 1] == x; }
    }
  }

  lemma {:induction false} KahnFalling(order: seq<Meta>)
    requires DistinctIds(Elems(order)) && Falling(order)
    ensures KahnOrder(Elems(order)) == order
    decreases |order|
  {
    hide *;
    if order == [] {
      KahnEmpty();
    } else {
      FallingNext(order);
      KahnTakes(Elems(order), order[0]);
      KahnFalling(order[1..]);
      assert [order[0]] + order[1..] == order;
    }
  }

  lemma KahnEmpty()
    ensures Elems<Meta>([]) == {} && KahnOrder({}) == []
  {
  }

  /** A key that only power events have goes to the last of them in the power order. */
  lemma PowerLast(s: set<Meta>, order: seq<Meta>, i: nat)
    requires DistinctIds(s) && DistinctIds(PowerOf(s)) && KahnOrder(PowerOf(s)) == order && i < |order|
    requires forall j | i < j < |order| :: order[j].key != order[i].key
    requires forall e | e in s && !e.power :: e.key != order[i].key
    ensures order[i].key in Resolve(s) && Resolve(s)[order[i].key] == order[i].id
  {
    PowerFirst(s);
    var all := ResolvedOrder(s);
    hide KahnOrder, PowerOf, ResolvedOrder;
    assert all[i] == all[..|order|][i];
    forall j | i < j < |all| ensures all[j].key != all[i].key {
      if j < |order| {
        assert all[j] == all[..|order|][j];
      } else {
        BehindPower(s, j);
      }
    }
    LastWins(all, i);
    ResolveIsFold(s);
  }

  // ---- one delivery ----

  /** Everything is authorised but a create where there is one; the power levels are free. */
  function Witness(level: (Event, seq<Event>, Option<Event>) -> int): Env {
    Env(true,
      (ev: Event, view: map<Key, Event>, only: bool) => ev.typ == "m.room.create" ==> CREATE_KEY !in view,
      level)
  }

  lemma WitnessRules(level: (Event, seq<Event>, Option<Event>) -> int)
    ensures AuthRules(Witness(level))
  {
  }

  /** A state event without state key text that builds on one parent. */
  function Fork(id: string, room: string, parent: string, key: Key): Event {
    Event(id, room, room, key.typ, Text(key.stateKey), "", "", None, false, true, [parent], [], 1, 1)
  }

  /** The event is accepted, with this snapshot and without calculated auth events. */
  ghost predicate Knows(s: Store, e: Event, snapshot: State) {
    && s.Accepted(e.id) && s.rows[e.id].ev == e
    && e.id in s.snapshots && s.snapshots[e.id] == snapshot
    && e.id in s.auth && s.auth[e.id] == []
  }

  lemma KnowsGrows(s: Store, t: Store, e: Event, snapshot: State)
    requires Grows(s, t) && Knows(s, e, snapshot)
    ensures Knows(t, e, snapshot)
  {
  }

  /** The store holds these events, all of them accepted. */
  ghost predicate Only(s: Store, events: set<Event>) {
    && s.rejected == {} && (forall id | id in s.rows :: s.rows[id].ev in events && s.rows[id].ev.id == id)
    && forall e | e in events :: e.id in s.rows && s.rows[e.id].ev == e
  }

  /** The room's row is the state after its heads, as the rows before the write had it. */
  ghost predicate Written(env: Env, s: Store, t: Store, room: string) {
    && room in t.roomState
    && StateAfter(env, t.(roomState := s.roomState), HeadList(t, room)) == Some(t.roomState[room])
    && forall r | r != room ::
      (r in t.roomState <==> r in s.roomState) && (r in s.roomState ==> t.roomState[r] == s.roomState[r])
  }

  /** What a delivery that is accepted leaves behind. */
  lemma Accepts(env: Env, s: Store, events: set<Event>, ev: Event)
    requires Inv(s) && AuthRules(env) && Only(s, events) && ev.id !in s.rows && ev.Deliverable()
      && Check(env, s, ev) == Accept
    ensures var t := Deliver(env, s, ev);
      && Inv(t) && Grows(s, t) && Only(t, events + {ev}) && Written(env, s, t, ev.room)
      && ev.id in t.rows && t.rows[ev.id].ev == ev && t.Accepted(ev.id)
      && StateBefore(env, Persist(s, ev), ev).Some?
      && var before := StateBefore(env, Persist(s, ev), ev).value;
         && ev.id in t.snapshots && t.snapshots[ev.id] == WithOwnTuple(before, ev)
         && ev.id in t.auth && t.auth[ev.id] == Selected(before, Selection(env, ev))
  {
    var t := Deliver(env, s, ev);
    hide *;
    DeliverCases(env, s, ev);
    InvDeliver(env, s, ev);
    BeforeOk(env, s, ev);
    AcceptedRows(env, s, ev);
    OneMoreOnly(env, s, t, events, ev);
    AcceptWrites(env, s, ev);
  }

  lemma OneMoreOnly(env: Env, s: Store, t: Store, events: set<Event>, ev: Event)
    requires Only(s, events) && ev.id !in s.rows && t.rows == s.rows[ev.id := Row(ev, |s.rows|)]
      && t.rejected == s.rejected
    ensures Only(t, events + {ev}) && ev.id in t.rows && t.rows[ev.id].ev == ev && t.Accepted(ev.id)
  {
  }

  lemma AcceptWrites(env: Env, s: Store, ev: Event)
    requires Inv(s) && AuthRules(env) && ev.id !in s.rows && ev.Deliverable() && Check(env, s, ev) == Accept
    ensures Written(env, s, AcceptEvent(env, s, ev), ev.room)
  {
    hide *;
    BeforeOk(env, s, ev);
    NewParents(env, s, ev);
    var before := StateBefore(env, Persist(s, ev), ev).value;
    var u := Advance(env, Persist(s, ev), before, ev);
    var w := AcceptEvent(env, s, ev);
    InvParts(s);
    AdvanceTables(env, s, before, ev);
    AdvanceGrows(env, s, before, ev);
    AdvanceAccepted(env, s, before, ev);
    AdvanceEvents(env, s, before, ev);
    AdvanceEdges(env, s, u, before, ev);
    AdvanceHeads(env, s, u, before, ev);
    RoomHasHeads(env, u, ev.room, ev.id);
    StateAfterOk(env, u, ev.room, HeadList(u, ev.room));
    RecomputeShape(env, u, ev.room);
    AcceptIsRecompute(env, s, ev);
    SameHeadsListed(u, w, ev.room);
    WrittenBy(env, s, u, w, ev.room, StateAfter(env, u, HeadList(u, ev.room)).value);
  }

  lemma AcceptIsRecompute(env: Env, s: Store, ev: Event)
    requires StateBefore(env, Persist(s, ev), ev).Some?
    ensures var u := Advance(env, Persist(s, ev), StateBefore(env, Persist(s, ev), ev).value, ev);
      AcceptEvent(env, s, ev) == Recompute(env, u, ev.room) && u.roomState == s.roomState
  {
    hide Recompute, StateBefore;
  }

  lemma WrittenBy(env: Env, s: Store, u: Store, w: Store, room: string, st: State)
    requires w == u.(roomState := u.roomState[room := st]) && u.roomState == s.roomState
    requires StateAfter(env, u, HeadList(u, room)) == Some(st) && HeadList(w, room) == HeadList(u, room)
    ensures Written(env, s, w, room)
  {
    hide StateAfter, HeadList;
    assert w.(roomState := s.roomState) == u;
  }

  lemma SameHeadsListed(u: Store, w: Store, room: string)
    requires w.heads == u.heads
    ensures HeadList(w, room) == HeadList(u, room)
  {
    assert HeadIds(w, room) == HeadIds(u, room);
    SameHeadList(u, w, room);
  }

  lemma GenesisAccepts(level: (Event, seq<Event>, Option<Event>) -> int, s: Store, events: set<Event>, c: Event)
    requires Inv(s) && Only(s, events) && c.Genesis() && c.id !in s.rows
    ensures var env := Witness(level); var t := Deliver(env, s, c);
      && Inv(t) && Grows(s, t) && Only(t, events + {c}) && Written(env, s, t, c.room)
        && Knows(t, c, map[CREATE_KEY := c.id])
  {
    var env := Witness(level);
    assert Check(env, s, c) == Accept;
    WitnessRules(level);
    hide Witness, Check, Inv, Only, Grows;
    Accepts(env, s, events, c);
    assert StateBefore(env, Persist(s, c), c) == Some(map[]);
    hide Written, Deliver;
  }

  /** The keys of the events below. */
  ghost predicate Sparse(snapshot: State) { forall k | k in snapshot :: k in {CREATE_KEY, NAME, JOIN} }

  lemma KnownEntries(s: Store, p: Event, snapshot: State)
    requires Inv(s) && Knows(s, p, snapshot) && p.stateKey.Text?
    ensures forall k | k in snapshot :: snapshot[k] in s.rows
  {
    assert EventOk(s, p.id);
    forall k | k in snapshot ensures snapshot[k] in s.rows { assert EntryOk(s, p.room, k, s.snapshots[p.id][k]); }
  }

  lemma ForkChecks(level: (Event, seq<Event>, Option<Event>) -> int, s: Store, p: Event, snapshot: State, ev: Event,
      key: Key)
    requires Inv(s) && Knows(s, p, snapshot) && p.stateKey.Text? && key in {NAME, JOIN}
      && ev == Fork(ev.id, p.room, p.id, key)
    ensures Check(Witness(level), s, ev) == Accept
  {
    assert CheckPrevs(s, ev, [p.id]) == Accept by { assert [p.id][1..] == []; }
    assert StateAfter(Witness(level), s, ev.prevState) == Some(snapshot);
    KnownEntries(s, p, snapshot);
    hide Inv, StateAfter, CheckPrevs, AuthKeys;
    assert AuthView(s, snapshot, ev).Some?;
  }

  lemma ForkAccepts(level: (Event, seq<Event>, Option<Event>) -> int, s: Store, events: set<Event>, p: Event,
      snapshot: State, ev: Event, key: Key)
    requires Inv(s) && Only(s, events) && Knows(s, p, snapshot) && p.stateKey.Text? && Sparse(snapshot)
    requires key in {NAME, JOIN} && ev == Fork(ev.id, p.room, p.id, key) && ev.id !in s.rows
    ensures var env := Witness(level); var t := Deliver(env, s, ev);
      && Inv(t) && Grows(s, t) && Only(t, events + {ev}) && Written(env, s, t, ev.room)
        && Knows(t, ev, snapshot[key := ev.id])
      && Sparse(snapshot[key := ev.id])
  {
    hide *;
    var env := Witness(level);
    ForkChecks(level, s, p, snapshot, ev, key);
    WitnessRules(level);
    ForkBefore(env, s, p, snapshot, ev, key);
    NothingSelected(level, snapshot, ev, key);
    Accepts(env, s, events, ev);
    ForkKnown(Deliver(env, s, ev), snapshot, ev, key);
  }

  lemma ForkBefore(env: Env, s: Store, p: Event, snapshot: State, ev: Event, key: Key)
    requires Knows(s, p, snapshot) && ev == Fork(ev.id, p.room, p.id, key)
    ensures StateBefore(env, Persist(s, ev), ev) == Some(snapshot)
    ensures ev.Deliverable() && ev.prevState != [] && ev == Fork(ev.id, ev.room, ev.prevState[0], key)
    ensures ev.room == p.room && ev.stateKey.Text?
  {
    hide Resolve, Metas, Candidates;
  }

  lemma ForkKnown(t: Store, snapshot: State, ev: Event, key: Key)
    requires ev.id in t.rows && t.rows[ev.id].ev == ev && t.Accepted(ev.id) && Sparse(snapshot) && key in {NAME, JOIN}
    requires ev.prevState != [] && ev == Fork(ev.id, ev.room, ev.prevState[0], key)
    requires ev.id in t.snapshots && t.snapshots[ev.id] == WithOwnTuple(snapshot, ev) && ev.id in t.auth
      && t.auth[ev.id] == []
    ensures Knows(t, ev, snapshot[key := ev.id]) && Sparse(snapshot[key := ev.id])
  {
    assert ev.StKey() == key;
  }

  lemma NothingSelected(level: (Event, seq<Event>, Option<Event>) -> int, snapshot: State, ev: Event, key: Key)
    requires Sparse(snapshot) && key in {NAME, JOIN}
    requires ev.prevState != [] && ev == Fork(ev.id, ev.room, ev.prevState[0], key)
    ensures Selected(snapshot, Selection(Witness(level), ev)) == []
  {
    SelectsNone(snapshot, Selection(Witness(level), ev));
  }

  lemma {:induction false} SelectsNone(before: State, keys: seq<Key>)
    requires forall k | k in keys :: k !in before
    ensures Selected(before, keys) == []
    decreases |keys|
  {
    if keys != [] { SelectsNone(before, keys[..|keys| - 1]); }
  }

  // ---- what the store then shows ----

  /** The heads are the events nothing builds on. */
  lemma HeadIs(s: Store, events: set<Event>, room: string, id: string)
    requires Inv(s) && Only(s, events) && forall e | e in events :: e.stateKey.Text?
    ensures id in HeadIds(s, room) <==>
      exists e :: e in events && e.id == id && e.room == room && forall f | f in events :: id !in f.prevState
  {
    assert HeadsOk(s);
    hide TablesOk, EventsOk, EdgesOk, RoomsOk;
    assert id in HeadIds(s, room) <==> IsHead(s, Head(room, id)) by {
      if id in HeadIds(s, room) { assert Head(room, id) in s.heads; }
      if IsHead(s, Head(room, id)) { assert Head(room, id) in s.heads; }
    }
    hide HeadIds, HeadsOk;
    if f :| f in events && id in f.prevState {
      assert s.Accepted(f.id) && s.rows[f.id].ev == f;
      assert HasStateChild(s, id);
    }
    if HasStateChild(s, id) {
      var k :| s.Accepted(k) && s.rows[k].ev.stateKey.Text? && id in s.rows[k].ev.prevState;
      assert s.rows[k].ev in events;
    }
    if s.Accepted(id) { assert s.rows[id].ev in events && s.rows[id].ev.id == id; }
  }

  /** A room's create is a create of that room. */
  lemma CreateAmong(s: Store, events: set<Event>, room: string)
    requires Inv(s) && Only(s, events) && room in s.roomState
    ensures RoomCreate(s, room).Some?
    ensures var c := RoomCreate(s, room).value; c in events && c.room == room && c.typ == "m.room.create"
  {
    assert RoomOk(s, room);
    assert EntryOk(s, room, CREATE_KEY, s.roomState[room][CREATE_KEY]);
  }

  lemma NoRoomState(s: Store, events: set<Event>, room: string)
    requires Inv(s) && Only(s, events) && forall e | e in events :: e.room != room
    ensures room !in s.roomState
  {
    if room in s.roomState { CreateAmong(s, events, room); }
  }

  /** The event is accepted and has no calculated auth events. */
  ghost predicate Bare(s: Store, e: Event) {
    s.Accepted(e.id) && s.rows[e.id].ev == e && e.id in s.auth && s.auth[e.id] == []
  }

  /** The metadata resolution then reads of it. */
  function MetaIn(env: Env, s: Store, e: Event): Meta {
    var create := if e.roomId == "" then None else RoomCreate(s, e.roomId);
    Meta(e.id, e.StKey(), e.depth, e.ts, e.IsPower(), [], e.prevState, env.level(e, [], create))
  }

  function MetasIn(env: Env, s: Store, events: set<Event>): set<Meta> { set e | e in events :: MetaIn(env, s, e) }
  function IdsOfEvents(events: set<Event>): set<string> { set e | e in events :: e.id }

  lemma MetasAre(env: Env, s: Store, events: set<Event>)
    requires forall e | e in events :: Bare(s, e)
    ensures Metas(env, s, IdsOfEvents(events)) == MetasIn(env, s, events)
  {
    assert Load(s, []) == [];
    hide RoomCreate;
    forall e | e in events ensures e.id in s.rows && MetaOf(env, s, e.id) == MetaIn(env, s, e) { assert Bare(s, e); }
    hide MetaOf, MetaIn, Bare;
  }

  /** The snapshot of some head of the room names x. */
  ghost predicate Named(s: Store, room: string, x: string) {
    exists id, k :: id in HeadIds(s, room) && id in s.snapshots && k in s.snapshots[id] && s.snapshots[id][k] == x
  }

  lemma Names(s: Store, room: string, id: string, k: Key)
    requires id in HeadIds(s, room) && id in s.snapshots && k in s.snapshots[id]
    ensures Named(s, room, s.snapshots[id][k])
  {
    hide HeadIds;
  }

  lemma NamedAre(s: Store, u: Store, room: string, events: set<Event>)
    requires u.snapshots == s.snapshots && forall x :: Named(s, room, x) <==> x in IdsOfEvents(events)
    ensures Candidates(u, HeadList(s, room)) == IdsOfEvents(events)
  {
    hide HeadIds, HeadList, IdsOfEvents;
    forall x ensures x in Candidates(u, HeadList(s, room)) <==> Named(s, room, x) {}
  }

  lemma OneMember(s: set<string>, x: string, y: string)
    requires |s| == 1 && x in s && y in s
    ensures x == y
  {
    assert |s - {x}| == 0;
    assert y != x ==> y in s - {x};
  }

  /** With several heads the room's row is the resolution of what their snapshots name. */
  lemma WrittenResolves(env: Env, s: Store, t: Store, room: string, events: set<Event>, x: string, y: string)
    requires Written(env, s, t, room) && x in HeadIds(t, room) && y in HeadIds(t, room) && x != y
    requires forall id | id in HeadIds(t, room) :: id in t.snapshots
    requires forall z :: Named(t, room, z) <==> z in IdsOfEvents(events)
    requires forall e | e in events :: Bare(t, e)
    ensures DistinctIds(MetasIn(env, t.(roomState := s.roomState), events))
    ensures room in t.roomState && t.roomState[room] == Resolve(MetasIn(env, t.(roomState := s.roomState), events))
  {
    hide *;
    var u := t.(roomState := s.roomState);
    BareStill(t, u, events);
    MetasAre(env, u, events);
    NamedAre(t, u, room, events);
    if |HeadIds(t, room)| == 1 { OneMember(HeadIds(t, room), x, y); }
    WrittenIs(env, s, t, room);
  }

  lemma BareStill(t: Store, u: Store, events: set<Event>)
    requires u == t.(roomState := u.roomState) && forall e | e in events :: Bare(t, e)
    ensures forall e | e in events :: Bare(u, e)
  {
    forall e | e in events ensures Bare(u, e) { assert Bare(t, e); }
  }

  lemma WrittenIs(env: Env, s: Store, t: Store, room: string)
    requires Written(env, s, t, room) && |HeadIds(t, room)| != 1 && forall id | id in HeadIds(t, room) ::
      id in t.snapshots
    ensures var u := t.(roomState := s.roomState); var metas := Metas(env, u, Candidates(u, HeadList(t, room)));
      room in t.roomState && DistinctIds(metas) && t.roomState[room] == Resolve(metas)
  {
    hide HeadIds, HeadList, Metas, Candidates, Resolve;
  }

  // ---- runs ----

  lemma RunMore(env: Env, xs: seq<Event>, e: Event)
    ensures Run(env, EMPTY, xs + [e]) == Deliver(env, Run(env, EMPTY, xs), e)
  {
    assert (xs + [e])[..|xs|] == xs;
    hide Deliver;
  }

  lemma EmptyRun(env: Env)
    ensures Run(env, EMPTY, []) == EMPTY && Inv(EMPTY) && Only(EMPTY, {})
  {
    InvInitial();
  }

  /** Two servers that received the same events, in these orders, and have nothing left to decide, hold
      different room states. */
  ghost predicate Diverges(env: Env, xs: seq<Event>, ys: seq<Event>) {
    && AuthRules(env) && Elems(xs) == Elems(ys)
    && (forall e, f | e in xs && f in xs && e.id == f.id :: e == f)
    && Settled(env, Run(env, EMPTY, xs), Elems(xs)) && Settled(env, Run(env, EMPTY, ys), Elems(xs))
    && Run(env, EMPTY, xs).roomState != Run(env, EMPTY, ys).roomState
  }

  lemma AllSettled(env: Env, s: Store, events: set<Event>)
    requires Only(s, events)
    ensures Settled(env, s, events)
  {
    hide Check;
  }

  // ---- two creates in one room ----

  type Level = (Event, seq<Event>, Option<Event>) -> int

  /** p counts for much only while c is the room's create. */
  function ByCreate(c: Event, d: Event, p: Event): Level {
    (ev: Event, auth: seq<Event>, create: Option<Event>) =>
      if ev == c then 4 else if ev == d then 3 else if ev == p then (if create == Some(c) then 2 else 0) else 1
  }

  ghost predicate TwoCreates(c: Event, d: Event) {
    c.Genesis() && d.Genesis() && c.room == d.room && c.room != "" && c.id != d.id
  }

  function First(c: Event, d: Event): Event { Fork(c.id + d.id + "1", c.room, c.id, JOIN) }
  function Second(c: Event, d: Event): Event { Fork(c.id + d.id + "2", c.room, c.id, JOIN) }

  function Rules(c: Event, d: Event): Env { Witness(ByCreate(c, d, First(c, d))) }

  lemma FreshIds(c: Event, d: Event)
    ensures var p, q := First(c, d), Second(c, d);
      p.id != q.id && p.id != c.id && p.id != d.id && q.id != c.id && q.id != d.id
  {
    var p, q := First(c, d), Second(c, d);
    assert p.id[|p.id| - 1] == '1' && q.id[|q.id| - 1] == '2';
    assert |p.id| > |c.id| && |p.id| > |d.id| && |q.id| > |c.id| && |q.id| > |d.id|;
  }

  /** All four events are in, with their snapshots. */
  ghost predicate HoldsFour(s: Store, c: Event, d: Event) {
    var p, q := First(c, d), Second(c, d);
    && Inv(s) && Only(s, {c, d, p, q})
    && Knows(s, c, map[CREATE_KEY := c.id]) && Knows(s, d, map[CREATE_KEY := d.id])
    && Knows(s, p, map[CREATE_KEY := c.id, JOIN := p.id]) && Knows(s, q, map[CREATE_KEY := c.id, JOIN := q.id])
  }

  lemma HeadOf(s: Store, events: set<Event>, e: Event)
    requires Inv(s) && Only(s, events) && (forall f | f in events :: f.stateKey.Text?) && e in events
    requires forall f | f in events :: e.id !in f.prevState
    ensures e.id in HeadIds(s, e.room)
  {
    HeadIs(s, events, e.room, e.id);
    hide Inv, Only, HeadIds;
  }

  /** c with the two events that build on it, and d. */
  ghost predicate Shape(c: Event, d: Event, p: Event, q: Event) {
    && c.stateKey.Text? && d.stateKey.Text? && p.stateKey.Text? && q.stateKey.Text?
    && d.room == c.room && p.room == c.room && q.room == c.room
    && c.prevState == [] && d.prevState == [] && p.prevState == [c.id] && q.prevState == [c.id]
    && p.id != c.id && q.id != c.id && d.id != c.id
  }

  lemma FourShape(c: Event, d: Event)
    requires TwoCreates(c, d)
    ensures Shape(c, d, First(c, d), Second(c, d)) && First(c, d).id != Second(c, d).id
  {
    FreshIds(c, d);
  }

  lemma ShapeHeads(s: Store, c: Event, d: Event, p: Event, q: Event)
    requires Inv(s) && Only(s, {c, d, p, q}) && Shape(c, d, p, q)
    ensures d.id in HeadIds(s, c.room) && p.id in HeadIds(s, c.room) && q.id in HeadIds(s, c.room)
    ensures forall id | id in HeadIds(s, c.room) :: id in {d.id, p.id, q.id}
  {
    var events := {c, d, p, q};
    hide Inv, Only, HeadIds;
    HeadOf(s, events, d);
    HeadOf(s, events, p);
    HeadOf(s, events, q);
    forall id | id in HeadIds(s, c.room) ensures id in {d.id, p.id, q.id} {
      HeadIs(s, events, c.room, id);
      assert p in events && c.id in p.prevState;
    }
  }

  /** The snapshots of the four. */
  ghost predicate Snapshots(s: Store, c: Event, d: Event, p: Event, q: Event) {
    && Knows(s, c, map[CREATE_KEY := c.id]) && Knows(s, d, map[CREATE_KEY := d.id])
    && Knows(s, p, map[CREATE_KEY := c.id, JOIN := p.id]) && Knows(s, q, map[CREATE_KEY := c.id, JOIN := q.id])
  }

  lemma ShapeNamed(s: Store, room: string, c: Event, d: Event, p: Event, q: Event)
    requires Snapshots(s, c, d, p, q)
    requires d.id in HeadIds(s, room) && p.id in HeadIds(s, room) && q.id in HeadIds(s, room)
    requires forall id | id in HeadIds(s, room) :: id in {d.id, p.id, q.id}
    ensures forall z :: Named(s, room, z) <==> z in IdsOfEvents({c, d, p, q})
    ensures forall e | e in {c, d, p, q} :: Bare(s, e)
    ensures forall id | id in HeadIds(s, room) :: id in s.snapshots
  {
    hide HeadIds;
    Names(s, room, d.id, CREATE_KEY);
    Names(s, room, p.id, CREATE_KEY);
    Names(s, room, p.id, JOIN);
    Names(s, room, q.id, JOIN);
    forall z ensures z in IdsOfEvents({c, d, p, q}) <==> z == c.id || z == d.id || z == p.id || z == q.id {
      assert z == c.id ==> c in {c, d, p, q};
    }
    hide IdsOfEvents;
  }

  lemma FourHeads(s: Store, c: Event, d: Event)
    requires TwoCreates(c, d) && HoldsFour(s, c, d)
    ensures First(c, d).id in HeadIds(s, c.room) && Second(c, d).id in HeadIds(s, c.room)
    ensures forall z :: Named(s, c.room, z) <==> z in IdsOfEvents({c, d, First(c, d), Second(c, d)})
    ensures forall e | e in {c, d, First(c, d), Second(c, d)} :: Bare(s, e)
    ensures forall id | id in HeadIds(s, c.room) :: id in s.snapshots
  {
    FourShape(c, d);
    hide Inv, Only, Knows, HeadIds, First, Second, TwoCreates, Named, Shape, Bare, IdsOfEvents;
    ShapeHeads(s, c, d, First(c, d), Second(c, d));
    ShapeNamed(s, c.room, c, d, First(c, d), Second(c, d));
  }

  /** While c is the create the second fork wins, while d is, the first. */
  lemma FourJoin(s: Store, t: Store, c: Event, d: Event)
    requires TwoCreates(c, d) && HoldsFour(t, c, d) && Written(Rules(c, d), s, t, c.room)
    requires RoomCreate(t.(roomState := s.roomState), c.room) in {Some(c), Some(d)}
    ensures c.room in t.roomState && JOIN in t.roomState[c.room]
    ensures t.roomState[c.room][JOIN] ==
      if RoomCreate(t.(roomState := s.roomState), c.room) == Some(c) then Second(c, d).id else First(c, d).id
  {
    hide *;
    FreshIds(c, d);
    FourHeads(t, c, d);
    WrittenResolves(Rules(c, d), s, t, c.room, {c, d, First(c, d), Second(c, d)}, First(c, d).id, Second(c, d).id);
    FourOrder(t.(roomState := s.roomState), c, d);
  }

  /** The four candidates as resolution sees them while `current` is the room's create. */
  ghost predicate FourMetas(c: Event, d: Event, current: Event, mc: Meta, md: Meta, mp: Meta, mq: Meta) {
    && mc.id == c.id && mc.key == CREATE_KEY && mc.power && mc.level == 4 && mc.prev == [] && mc.auth == []
    && md.id == d.id && md.key == CREATE_KEY && md.power && md.level == 3 && md.prev == [] && md.auth == []
    && mp.id == First(c, d).id && mp.key == JOIN && mp.power && mp.level == (if current == c then 2 else 0)
    && mp.prev == [c.id] && mp.auth == []
    && mq.id == Second(c, d).id && mq.key == JOIN && mq.power && mq.level == 1 && mq.prev == [c.id] && mq.auth == []
  }

  lemma FourMetasAre(u: Store, c: Event, d: Event)
    requires TwoCreates(c, d) && RoomCreate(u, c.room) in {Some(c), Some(d)}
    ensures var env := Rules(c, d);
      FourMetas(c, d, RoomCreate(u, c.room).value, MetaIn(env, u, c), MetaIn(env, u, d), MetaIn(env, u, First(c, d)),
        MetaIn(env, u, Second(c, d)))
  {
    FreshIds(c, d);
    hide RoomCreate;
  }

  lemma FourFalls(c: Event, d: Event, current: Event, mc: Meta, md: Meta, mp: Meta, mq: Meta)
    requires TwoCreates(c, d) && FourMetas(c, d, current, mc, md, mp, mq)
    ensures current == c ==> Falling([mc, md, mp, mq])
    ensures current != c ==> Falling([mc, md, mq, mp])
  {
    FreshIds(c, d);
    hide First, Second;
  }

  lemma ElemsOfFour<T>(a: T, b: T, c: T, d: T)
    ensures Elems([a, b, c, d]) == {a, b, c, d}
  {
  }

  lemma MetasOfFour(env: Env, u: Store, a: Event, b: Event, c: Event, d: Event)
    ensures MetasIn(env, u, {a, b, c, d})
      == {MetaIn(env, u, a), MetaIn(env, u, b), MetaIn(env, u, c), MetaIn(env, u, d)}
  {
    hide MetaIn;
  }

  lemma FourOrder(u: Store, c: Event, d: Event)
    requires TwoCreates(c, d) && RoomCreate(u, c.room) in {Some(c), Some(d)}
    ensures var metas := MetasIn(Rules(c, d), u, {c, d, First(c, d), Second(c, d)});
      DistinctIds(metas) && JOIN in Resolve(metas)
      && Resolve(metas)[JOIN] == if RoomCreate(u, c.room) == Some(c) then Second(c, d).id else First(c, d).id
  {
    hide *;
    var p, q, env := First(c, d), Second(c, d), Rules(c, d);
    var mc, md, mp, mq := MetaIn(env, u, c), MetaIn(env, u, d), MetaIn(env, u, p), MetaIn(env, u, q);
    var current := RoomCreate(u, c.room).value;
    FourMetasAre(u, c, d);
    FourFalls(c, d, current, mc, md, mp, mq);
    MetasOfFour(env, u, c, d, p, q);
    FourJoins(c, d, current, mc, md, mp, mq);
  }

  lemma FourJoins(c: Event, d: Event, current: Event, mc: Meta, md: Meta, mp: Meta, mq: Meta)
    requires FourMetas(c, d, current, mc, md, mp, mq)
    requires if current == c then Falling([mc, md, mp, mq]) else Falling([mc, md, mq, mp])
    ensures var metas := {mc, md, mp, mq};
      DistinctIds(metas) && JOIN in Resolve(metas)
      && Resolve(metas)[JOIN] == if current == c then Second(c, d).id else First(c, d).id
  {
    hide Falling, Resolve, First, Second;
    ElemsOfFour(mc, md, mp, mq);
    ElemsOfFour(mc, md, mq, mp);
    hide Elems;
    ResolveFalling({mc, md, mp, mq}, if current == c then [mc, md, mp, mq] else [mc, md, mq, mp], 3);
  }

  /** All candidates power events with falling levels: a key goes to the last that has it. */
  lemma ResolveFalling(metas: set<Meta>, order: seq<Meta>, i: nat)
    requires Falling(order) && metas == Elems(order) && (forall m | m in metas :: m.power) && i < |order|
    requires forall j | i < j < |order| :: order[j].key != order[i].key
    ensures DistinctIds(metas) && order[i].key in Resolve(metas) && Resolve(metas)[order[i].key] == order[i].id
  {
    FallingDistinct(order);
    assert PowerOf(metas) == metas;
    KahnFalling(order);
    hide Falling, KahnOrder, Resolve, PowerOf;
    PowerLast(metas, order, i);
  }

  lemma FallingDistinct(order: seq<Meta>)
    requires Falling(order)
    ensures DistinctIds(Elems(order))
  {
    forall a, b | a in Elems(order) && b in Elems(order) && a != b ensures a.id != b.id {
      var i :| 0 <= i < |order| && order[i] == a;
      var j :| 0 <= j < |order| && order[j] == b;
    }
  }

  // ---- the two runs ----

  lemma NotYet(s: Store, events: set<Event>, ev: Event)
    requires Only(s, events) && forall e | e in events :: e.id != ev.id
    ensures ev.id !in s.rows
  {
  }

  lemma CreateKept(s: Store, t: Store, room: string)
    requires Grows(s, t) && RoomCreate(s, room).Some?
    ensures RoomCreate(t.(roomState := s.roomState), room) == RoomCreate(s, room)
  {
  }

  /** The forks are no creates, so the room's create is one of the creates among these. */
  lemma CreateIs(s: Store, t: Store, events: set<Event>, room: string)
    requires Inv(s) && Only(s, events) && Grows(s, t) && room in s.roomState
    ensures RoomCreate(t.(roomState := s.roomState), room).Some?
    ensures var e := RoomCreate(t.(roomState := s.roomState), room).value;
      e in events && e.room == room && e.typ == "m.room.create"
  {
    hide *;
    CreateAmong(s, events, room);
    CreateKept(s, t, room);
  }

  /** d, c and the first fork are in. */
  ghost predicate HoldsThree(s: Store, c: Event, d: Event) {
    var p := First(c, d);
    && Inv(s) && Only(s, {c, d, p})
    && Knows(s, c, map[CREATE_KEY := c.id]) && Knows(s, d, map[CREATE_KEY := d.id])
    && Knows(s, p, map[CREATE_KEY := c.id, JOIN := p.id])
  }

  lemma ThreeHeads(s: Store, c: Event, d: Event)
    requires TwoCreates(c, d) && HoldsThree(s, c, d)
    ensures d.id in HeadIds(s, c.room) && First(c, d).id in HeadIds(s, c.room) && d.id != First(c, d).id
    ensures forall z :: Named(s, c.room, z) <==> z in IdsOfEvents({c, d, First(c, d)})
    ensures forall e | e in {c, d, First(c, d)} :: Bare(s, e)
    ensures forall id | id in HeadIds(s, c.room) :: id in s.snapshots
  {
    FreshIds(c, d);
    FourShape(c, d);
    var p := First(c, d);
    assert {c, d, p, p} == {c, d, p};
    hide Inv, Only, Knows, HeadIds, First, Second, TwoCreates, Named, Bare, IdsOfEvents;
    ShapeHeads(s, c, d, p, p);
    ShapeNamed(s, c.room, c, d, p, p);
  }

  /** With those three, d is the create, whichever was. */
  lemma ThreeCreate(s: Store, t: Store, c: Event, d: Event)
    requires TwoCreates(c, d) && HoldsThree(t, c, d) && Written(Rules(c, d), s, t, c.room)
    requires RoomCreate(t.(roomState := s.roomState), c.room) in {Some(c), Some(d)}
    ensures c.room in t.roomState && RoomCreate(t, c.room) == Some(d)
  {
    hide *;
    var u := t.(roomState := s.roomState);
    ThreeHeads(t, c, d);
    WrittenResolves(Rules(c, d), s, t, c.room, {c, d, First(c, d)}, d.id, First(c, d).id);
    ThreeOrder(u, c, d);
    ThreeRows(t, c, d);
  }

  lemma ThreeRows(t: Store, c: Event, d: Event)
    requires TwoCreates(c, d) && HoldsThree(t, c, d) && c.room in t.roomState
    requires CREATE_KEY in t.roomState[c.room] && t.roomState[c.room][CREATE_KEY] == d.id
    ensures RoomCreate(t, c.room) == Some(d)
  {
    hide Inv, Only;
  }

  lemma ThreeOrder(u: Store, c: Event, d: Event)
    requires TwoCreates(c, d) && RoomCreate(u, c.room) in {Some(c), Some(d)}
    ensures var metas := MetasIn(Rules(c, d), u, {c, d, First(c, d)});
      DistinctIds(metas) && CREATE_KEY in Resolve(metas) && Resolve(metas)[CREATE_KEY] == d.id
  {
    hide *;
    var p, q, env := First(c, d), Second(c, d), Rules(c, d);
    var mc, md, mp := MetaIn(env, u, c), MetaIn(env, u, d), MetaIn(env, u, p);
    var current := RoomCreate(u, c.room).value;
    FourMetasAre(u, c, d);
    ThreeFall(c, d, current, mc, md, mp, MetaIn(env, u, q));
    ElemsOfThree(env, u, c, d, p);
    ResolveFalling(MetasIn(env, u, {c, d, p}), [mc, md, mp], 1);
  }

  lemma ThreeFall(c: Event, d: Event, current: Event, mc: Meta, md: Meta, mp: Meta, mq: Meta)
    requires TwoCreates(c, d) && FourMetas(c, d, current, mc, md, mp, mq)
    ensures Falling([mc, md, mp]) && mc.power && md.power && mp.power
    ensures md.key == CREATE_KEY && md.id == d.id && mp.key != CREATE_KEY
  {
    FreshIds(c, d);
    hide First, Second;
  }

  lemma ElemsOfThree(env: Env, u: Store, a: Event, b: Event, c: Event)
    ensures var order := [MetaIn(env, u, a), MetaIn(env, u, b), MetaIn(env, u, c)];
      MetasIn(env, u, {a, b, c}) == Elems(order) && forall m | m in Elems(order) :: m in order
  {
    hide MetaIn;
  }

  lemma Sparseness(c: Event)
    ensures Sparse(map[CREATE_KEY := c.id])
  {
  }

  /** A create is delivered to a store that lacks it. */
  lemma AddCreate(level: Level, xs: seq<Event>, ys: seq<Event>, events: set<Event>, c: Event)
    requires var s := Run(Witness(level), EMPTY, xs); Inv(s) && Only(s, events)
    requires ys == xs + [c] && c.Genesis() && forall e | e in events :: e.id != c.id
    ensures var s, t := Run(Witness(level), EMPTY, xs), Run(Witness(level), EMPTY, ys);
      && Inv(t) && Grows(s, t) && Only(t, events + {c}) && Written(Witness(level), s, t, c.room)
      && Knows(t, c, map[CREATE_KEY := c.id])
  {
    var s := Run(Witness(level), EMPTY, xs);
    hide *;
    RunMore(Witness(level), xs, c);
    NotYet(s, events, c);
    GenesisAccepts(level, s, events, c);
  }

  /** A fork is delivered to a store that has its parent but not itself. */
  lemma AddFork(level: Level, xs: seq<Event>, ys: seq<Event>, events: set<Event>, p: Event, snapshot: State,
                ev: Event, key: Key)
    requires var s := Run(Witness(level), EMPTY, xs); Inv(s) && Only(s, events) && Knows(s, p, snapshot)
    requires p.stateKey.Text? && Sparse(snapshot) && key in {NAME, JOIN} && ev == Fork(ev.id, p.room, p.id, key)
    requires ys == xs + [ev] && forall e | e in events :: e.id != ev.id
    ensures var s, t := Run(Witness(level), EMPTY, xs), Run(Witness(level), EMPTY, ys);
      && Inv(t) && Grows(s, t) && Only(t, events + {ev}) && Written(Witness(level), s, t, ev.room)
      && Knows(t, ev, snapshot[key := ev.id]) && Sparse(snapshot[key := ev.id])
  {
    var s := Run(Witness(level), EMPTY, xs);
    hide *;
    RunMore(Witness(level), xs, ev);
    NotYet(s, events, ev);
    ForkAccepts(level, s, events, p, snapshot, ev, key);
  }

  lemma ForksAre(c: Event, d: Event)
    requires TwoCreates(c, d)
    ensures var p, q := First(c, d), Second(c, d);
      && p == Fork(p.id, c.room, c.id, JOIN) && q == Fork(q.id, c.room, c.id, JOIN) && p.room == c.room
        && q.room == c.room
      && p.typ != "m.room.create" && q.typ != "m.room.create"
    ensures c.stateKey.Text? && d.room == c.room && c.Genesis() && d.Genesis() && c.id != d.id
    ensures Rules(c, d) == Witness(ByCreate(c, d, First(c, d)))
    ensures Sparse(map[CREATE_KEY := c.id])
  {
  }

  lemma AddJoin(level: Level, xs: seq<Event>, ys: seq<Event>, events: set<Event>, c: Event, p: Event)
    requires var s := Run(Witness(level), EMPTY, xs); Inv(s) && Only(s, events) && Knows(s, c, map[CREATE_KEY := c.id])
    requires ys == xs + [p] && c.stateKey.Text? && p == Fork(p.id, c.room, c.id, JOIN) && forall e | e in events ::
      e.id != p.id
    ensures var s, t := Run(Witness(level), EMPTY, xs), Run(Witness(level), EMPTY, ys);
      && Inv(t) && Grows(s, t) && Only(t, events + {p}) && Written(Witness(level), s, t, c.room)
      && Knows(t, p, map[CREATE_KEY := c.id, JOIN := p.id])
  {
    assert map[CREATE_KEY := c.id][JOIN := p.id] == map[CREATE_KEY := c.id, JOIN := p.id];
    assert p.room == c.room;
    hide *;
    Sparseness(c);
    AddFork(level, xs, ys, events, c, map[CREATE_KEY := c.id], p, JOIN);
  }

  /** c with its two forks first, d after them. */
  lemma DComesLast(c: Event, d: Event)
    requires TwoCreates(c, d)
    ensures var p, q := First(c, d), Second(c, d);
      var s, t := Run(Rules(c, d), EMPTY, [c, p, q]), Run(Rules(c, d), EMPTY, [c, p, q, d]);
      && Inv(s) && Only(s, {c, p, q}) && c.room in s.roomState && Grows(s, t)
      && HoldsFour(t, c, d) && Written(Rules(c, d), s, t, c.room)
  {
    hide *;
    var p, q, level, env := First(c, d), Second(c, d), ByCreate(c, d, First(c, d)), Rules(c, d);
    ForksAre(c, d);
    FreshIds(c, d);
    EmptyRun(env);
    AddCreate(level, [], [c], {}, c);
    assert {} + {c} == {c} && {c} + {p} == {c, p} && {c, p} + {q} == {c, p, q};
    AddJoin(level, [c], [c, p], {c}, c, p);
    KnowsGrows(Run(env, EMPTY, [c]), Run(env, EMPTY, [c, p]), c, map[CREATE_KEY := c.id]);
    AddJoin(level, [c, p], [c, p, q], {c, p}, c, q);
    KnowsGrows(Run(env, EMPTY, [c, p]), Run(env, EMPTY, [c, p, q]), c, map[CREATE_KEY := c.id]);
    KnowsGrows(Run(env, EMPTY, [c, p]), Run(env, EMPTY, [c, p, q]), p, map[CREATE_KEY := c.id, JOIN := p.id]);
    AddCreate(level, [c, p, q], [c, p, q, d], {c, p, q}, d);
    var s, t := Run(env, EMPTY, [c, p, q]), Run(env, EMPTY, [c, p, q, d]);
    KnowsGrows(s, t, c, map[CREATE_KEY := c.id]);
    KnowsGrows(s, t, p, map[CREATE_KEY := c.id, JOIN := p.id]);
    KnowsGrows(s, t, q, map[CREATE_KEY := c.id, JOIN := q.id]);
    RoomWritten(env, Run(env, EMPTY, [c, p]), s, c.room);
    Snap(t, c, d, p, q);
    FourHeld(t, c, d, {c, p, q} + {d});
  }

  lemma RoomWritten(env: Env, s: Store, t: Store, room: string)
    requires Written(env, s, t, room)
    ensures room in t.roomState
  {
  }

  lemma FourHeld(s: Store, c: Event, d: Event, events: set<Event>)
    requires Inv(s) && Only(s, events) && events == {c, d, First(c, d), Second(c, d)}
    requires Snapshots(s, c, d, First(c, d), Second(c, d))
    ensures HoldsFour(s, c, d)
  {
    hide Inv, Only, Knows, First, Second;
  }

  lemma Snap(s: Store, c: Event, d: Event, p: Event, q: Event)
    requires Knows(s, c, map[CREATE_KEY := c.id]) && Knows(s, d, map[CREATE_KEY := d.id])
    requires Knows(s, p, map[CREATE_KEY := c.id, JOIN := p.id]) && Knows(s, q, map[CREATE_KEY := c.id, JOIN := q.id])
    ensures Snapshots(s, c, d, p, q)
  {
    hide Knows;
  }

  lemma ThreeHeld(s: Store, c: Event, d: Event)
    requires Inv(s) && Only(s, {c, d, First(c, d)})
    requires Knows(s, c, map[CREATE_KEY := c.id]) && Knows(s, d, map[CREATE_KEY := d.id])
    requires Knows(s, First(c, d), map[CREATE_KEY := c.id, JOIN := First(c, d).id])
    ensures HoldsThree(s, c, d)
  {
  }

  /** d first; before the last fork it is the room's create. */
  lemma DComesFirst(c: Event, d: Event)
    requires TwoCreates(c, d)
    ensures var p, q := First(c, d), Second(c, d);
      var s, t := Run(Rules(c, d), EMPTY, [d, c, p]), Run(Rules(c, d), EMPTY, [d, c, p, q]);
      && c.room in s.roomState && RoomCreate(s, c.room) == Some(d) && Grows(s, t)
      && HoldsFour(t, c, d) && Written(Rules(c, d), s, t, c.room)
  {
    hide *;
    var p, q, level, env := First(c, d), Second(c, d), ByCreate(c, d, First(c, d)), Rules(c, d);
    ForksAre(c, d);
    FreshIds(c, d);
    EmptyRun(env);
    AddCreate(level, [], [d], {}, d);
    assert {} + {d} == {d} && {d} + {c} == {d, c} && {d, c} + {p} == {c, d, p};
    AddCreate(level, [d], [d, c], {d}, c);
    AddJoin(level, [d, c], [d, c, p], {d, c}, c, p);
    var s0, s1, s, t := Run(env, EMPTY, [d]), Run(env, EMPTY, [d, c]), Run(env, EMPTY, [d, c, p]),
      Run(env, EMPTY, [d, c, p, q]);
    KnowsGrows(s0, s1, d, map[CREATE_KEY := d.id]);
    KnowsGrows(s1, s, d, map[CREATE_KEY := d.id]);
    KnowsGrows(s1, s, c, map[CREATE_KEY := c.id]);
    ThreeHeld(s, c, d);
    RoomWritten(env, s0, s1, c.room);
    CreateIs(s1, s, {d, c}, c.room);
    ThreeCreate(s1, s, c, d);
    AddJoin(level, [d, c, p], [d, c, p, q], {c, d, p}, c, q);
    KnowsGrows(s, t, c, map[CREATE_KEY := c.id]);
    KnowsGrows(s, t, d, map[CREATE_KEY := d.id]);
    KnowsGrows(s, t, p, map[CREATE_KEY := c.id, JOIN := p.id]);
    Snap(t, c, d, p, q);
    FourHeld(t, c, d, {c, d, p} + {q});
  }

  /** Any two well-shaped creates of one room: under some rules that refuse a create where the view has one,
      and with two more events, two servers end with different room states. */
  lemma TwoCreatesDiverge(c: Event, d: Event) returns (env: Env, xs: seq<Event>, ys: seq<Event>)
    requires TwoCreates(c, d)
    ensures Diverges(env, xs, ys) && c in xs && d in xs
  {
    hide *;
    var p, q := First(c, d), Second(c, d);
    env, xs, ys := Rules(c, d), [c, p, q, d], [d, c, p, q];
    FreshIds(c, d);
    ForksAre(c, d);
    DComesLast(c, d);
    var s, t := Run(env, EMPTY, [c, p, q]), Run(env, EMPTY, xs);
    CreateIs(s, t, {c, p, q}, c.room);
    FourJoin(s, t, c, d);
    DComesFirst(c, d);
    var u, w := Run(env, EMPTY, [d, c, p]), Run(env, EMPTY, ys);
    CreateKept(u, w, c.room);
    FourJoin(u, w, c, d);
    WitnessRules(ByCreate(c, d, p));
    HeldOnly(t, c, d);
    HeldOnly(w, c, d);
    FourDiverge(env, xs, ys, c, p, q, d);
  }

  lemma HeldOnly(s: Store, c: Event, d: Event)
    requires HoldsFour(s, c, d)
    ensures Only(s, {c, First(c, d), Second(c, d), d})
  {
    assert {c, First(c, d), Second(c, d), d} == {c, d, First(c, d), Second(c, d)};
    hide Only, Inv, First, Second;
  }

  lemma FourDiverge(env: Env, xs: seq<Event>, ys: seq<Event>, a: Event, b: Event, c: Event, d: Event)
    requires AuthRules(env) && xs == [a, b, c, d] && ys == [d, a, b, c]
    requires a.id != b.id && a.id != c.id && a.id != d.id && b.id != c.id && b.id != d.id && c.id != d.id
    requires Only(Run(env, EMPTY, xs), {a, b, c, d}) && Only(Run(env, EMPTY, ys), {a, b, c, d})
    requires Run(env, EMPTY, xs).roomState != Run(env, EMPTY, ys).roomState
    ensures Diverges(env, xs, ys)
  {
    hide AuthRules, Only, Run, Settled, Elems;
    ElemsOfFour(a, b, c, d);
    ElemsOfFour(d, a, b, c);
    assert {d, a, b, c} == {a, b, c, d};
    AllSettled(env, Run(env, EMPTY, xs), {a, b, c, d});
    AllSettled(env, Run(env, EMPTY, ys), {a, b, c, d});
  }

  // ---- a create that names another room ----

  /** c is a create of its room but names f's room, whose create resolution then looks up for c. */
  ghost predicate Foreign(c: Event, f: Event) {
    c.Genesis() && f.Genesis() && c.roomId == f.room != "" && c.room != f.room && c.id != f.id
  }

  function Topic(c: Event, f: Event): Event { Fork(c.id + f.id + "1", c.room, c.id, NAME) }
  function Behind(c: Event, f: Event): Event { Fork(c.id + f.id + "2", c.room, Topic(c, f).id, JOIN) }
  function Beside(c: Event, f: Event): Event { Fork(c.id + f.id + "3", c.room, c.id, JOIN) }

  /** c counts for much only while the room it names has a create. */
  function ByPresence(c: Event, late: Event, early: Event): Level {
    (ev: Event, auth: seq<Event>, create: Option<Event>) =>
      if ev == c then (if create.Some? then 3 else 0) else if ev == late then 2 else if ev == early then 1 else 0
  }

  function ForeignLevel(c: Event, f: Event): Level { ByPresence(c, Beside(c, f), Behind(c, f)) }
  function ForeignRules(c: Event, f: Event): Env { Witness(ForeignLevel(c, f)) }

  lemma ForeignIds(c: Event, f: Event)
    ensures var x, p, q := Topic(c, f), Behind(c, f), Beside(c, f);
      && x.id != c.id && p.id != c.id && q.id != c.id && x.id != f.id && p.id != f.id && q.id != f.id
      && x.id != p.id && x.id != q.id && p.id != q.id
  {
    var x, p, q := Topic(c, f), Behind(c, f), Beside(c, f);
    assert x.id[|x.id| - 1] == '1' && p.id[|p.id| - 1] == '2' && q.id[|q.id| - 1] == '3';
    assert |x.id| > |c.id| && |x.id| > |f.id|;
  }

  lemma ForeignShape(c: Event, f: Event)
    requires Foreign(c, f)
    ensures var x, p, q := Topic(c, f), Behind(c, f), Beside(c, f);
      && x == Fork(x.id, c.room, c.id, NAME) && p == Fork(p.id, c.room, x.id, JOIN)
        && q == Fork(q.id, c.room, c.id, JOIN)
      && x.room == c.room && p.room == c.room && q.room == c.room
      && x.prevState == [c.id] && p.prevState == [x.id] && q.prevState == [c.id]
      && x.stateKey.Text? && p.stateKey.Text? && q.stateKey.Text?
    ensures c.stateKey.Text? && f.stateKey.Text? && c.Genesis() && f.Genesis() && c.prevState == [] && f.prevState == []
    ensures c.room != f.room && c.id != f.id && c.roomId == f.room && f.room != ""
    ensures ForeignRules(c, f) == Witness(ForeignLevel(c, f))
  {
  }

  /** The four events of c's room are in, f perhaps too. */
  ghost predicate HoldsForeign(s: Store, c: Event, f: Event) {
    var x, p, q := Topic(c, f), Behind(c, f), Beside(c, f);
    && Inv(s) && (Only(s, {c, x, p, q}) || Only(s, {f, c, x, p, q}))
    && Knows(s, c, map[CREATE_KEY := c.id]) && Knows(s, x, map[CREATE_KEY := c.id, NAME := x.id])
    && Knows(s, p, map[CREATE_KEY := c.id, NAME := x.id, JOIN := p.id])
    && Knows(s, q, map[CREATE_KEY := c.id, JOIN := q.id])
  }

  lemma ForeignHeadIds(s: Store, c: Event, f: Event, events: set<Event>, x: Event, p: Event, q: Event)
    requires Inv(s) && Only(s, events) && (events == {c, x, p, q} || events == {f, c, x, p, q})
    requires c.stateKey.Text? && f.stateKey.Text? && x.stateKey.Text? && p.stateKey.Text? && q.stateKey.Text?
    requires x.room == c.room && p.room == c.room && q.room == c.room && f.room != c.room
    requires c.prevState == [] && f.prevState == [] && x.prevState == [c.id] && p.prevState == [x.id]
      && q.prevState == [c.id]
    requires p.id !in {c.id, x.id} && q.id !in {c.id, x.id}
    ensures p.id in HeadIds(s, c.room) && q.id in HeadIds(s, c.room)
    ensures forall id | id in HeadIds(s, c.room) :: id in {p.id, q.id}
  {
    hide Inv, Only, HeadIds;
    HeadOf(s, events, p);
    HeadOf(s, events, q);
    forall id | id in HeadIds(s, c.room) ensures id in {p.id, q.id} {
      HeadIs(s, events, c.room, id);
      assert x in events && p in events;
    }
  }

  lemma ForeignNamed(s: Store, room: string, c: Event, x: Event, p: Event, q: Event)
    requires Knows(s, c, map[CREATE_KEY := c.id]) && Knows(s, x, map[CREATE_KEY := c.id, NAME := x.id])
    requires Knows(s, p, map[CREATE_KEY := c.id, NAME := x.id, JOIN := p.id])
    requires Knows(s, q, map[CREATE_KEY := c.id, JOIN := q.id])
    requires p.id in HeadIds(s, room) && q.id in HeadIds(s, room) && forall id | id in HeadIds(s, room) ::
      id in {p.id, q.id}
    ensures forall z :: Named(s, room, z) <==> z in IdsOfEvents({c, x, p, q})
    ensures forall e | e in {c, x, p, q} :: Bare(s, e)
    ensures forall id | id in HeadIds(s, room) :: id in s.snapshots
  {
    hide HeadIds;
    Names(s, room, p.id, CREATE_KEY);
    Names(s, room, p.id, NAME);
    Names(s, room, p.id, JOIN);
    Names(s, room, q.id, JOIN);
    forall z ensures z in IdsOfEvents({c, x, p, q}) <==> z == c.id || z == x.id || z == p.id || z == q.id {
      assert z == c.id ==> c in {c, x, p, q};
    }
    hide IdsOfEvents;
  }

  lemma ForeignHeads(s: Store, c: Event, f: Event)
    requires Foreign(c, f) && HoldsForeign(s, c, f)
    ensures var x, p, q := Topic(c, f), Behind(c, f), Beside(c, f);
      && p.id in HeadIds(s, c.room) && q.id in HeadIds(s, c.room)
      && (forall z :: Named(s, c.room, z) <==> z in IdsOfEvents({c, x, p, q}))
      && (forall e | e in {c, x, p, q} :: Bare(s, e))
      && (forall id | id in HeadIds(s, c.room) :: id in s.snapshots)
  {
    ForeignIds(c, f);
    ForeignShape(c, f);
    var x, p, q := Topic(c, f), Behind(c, f), Beside(c, f);
    hide Inv, Only, Knows, HeadIds, Topic, Behind, Beside, Foreign, Named, Bare, IdsOfEvents;
    ForeignHeadIds(s, c, f, if Only(s, {c, x, p, q}) then {c, x, p, q} else {f, c, x, p, q}, x, p, q);
    ForeignNamed(s, c.room, c, x, p, q);
  }

  /** The four candidates as resolution sees them, with or without a create in the room c names. */
  ghost predicate ForeignMetas(c: Event, f: Event, present: bool, mc: Meta, mx: Meta, mp: Meta, mq: Meta) {
    && mc.id == c.id && mc.key == CREATE_KEY && mc.power && mc.level == (if present then 3 else 0) && mc.prev == []
      && mc.auth == []
    && mx.id == Topic(c, f).id && mx.key == NAME && !mx.power
    && mp.id == Behind(c, f).id && mp.key == JOIN && mp.power && mp.level == 1 && mp.prev == [mx.id] && mp.auth == []
    && mq.id == Beside(c, f).id && mq.key == JOIN && mq.power && mq.level == 2 && mq.prev == [mc.id] && mq.auth == []
  }

  lemma ForeignMetasAre(u: Store, c: Event, f: Event)
    requires Foreign(c, f)
    ensures var env := ForeignRules(c, f);
      ForeignMetas(c, f, RoomCreate(u, f.room).Some?,
        MetaIn(env, u, c), MetaIn(env, u, Topic(c, f)), MetaIn(env, u, Behind(c, f)), MetaIn(env, u, Beside(c, f)))
  {
    ForeignIds(c, f);
    hide RoomCreate;
  }

  /** Of the power events, c comes before the last fork in both orders, but the other fork only without it. */
  lemma ForeignOrders(c: Event, f: Event, present: bool, mc: Meta, mx: Meta, mp: Meta, mq: Meta)
    requires Foreign(c, f) && ForeignMetas(c, f, present, mc, mx, mp, mq)
    ensures present ==> Falling([mc, mq, mp])
    ensures !present ==> NextIs({mc, mp, mq}, mp) && NextIs({mc, mq}, mc) && NextIs({mq}, mq)
  {
    ForeignIds(c, f);
    hide Topic, Behind, Beside;
  }

  lemma ForeignSets(c: Event, f: Event, present: bool, mc: Meta, mx: Meta, mp: Meta, mq: Meta)
    requires ForeignMetas(c, f, present, mc, mx, mp, mq)
    ensures DistinctIds({mc, mx, mp, mq}) && PowerOf({mc, mx, mp, mq}) == {mc, mp, mq}
    ensures {mc, mp, mq} - {mp} == {mc, mq} && {mc, mq} - {mc} == {mq} && {mq} - {mq} == {}
    ensures Elems([mc, mq, mp]) == {mc, mp, mq} && DistinctIds({mc, mp, mq})
    ensures mp.key == JOIN && mq.key == JOIN && mp.id == Behind(c, f).id && mq.id == Beside(c, f).id
    ensures forall e | e in {mc, mx, mp, mq} && !e.power :: e.key != JOIN
  {
    ForeignIds(c, f);
    hide Topic, Behind, Beside;
  }

  lemma ForeignKahn(mc: Meta, mp: Meta, mq: Meta)
    requires DistinctIds({mc, mp, mq}) && NextIs({mc, mp, mq}, mp) && NextIs({mc, mq}, mc) && NextIs({mq}, mq)
    requires {mc, mp, mq} - {mp} == {mc, mq} && {mc, mq} - {mc} == {mq} && {mq} - {mq} == {}
    ensures KahnOrder({mc, mp, mq}) == [mp, mc, mq]
  {
    hide *;
    KahnTakes({mc, mp, mq}, mp);
    KahnTakes({mc, mq}, mc);
    KahnTakes({mq}, mq);
    KahnEmpty();
  }

  lemma ForeignJoins(c: Event, f: Event, present: bool, mc: Meta, mx: Meta, mp: Meta, mq: Meta)
    requires Foreign(c, f) && ForeignMetas(c, f, present, mc, mx, mp, mq)
    ensures var metas := {mc, mx, mp, mq};
      DistinctIds(metas) && JOIN in Resolve(metas)
      && Resolve(metas)[JOIN] == if present then Behind(c, f).id else Beside(c, f).id
  {
    hide *;
    ForeignOrders(c, f, present, mc, mx, mp, mq);
    ForeignSets(c, f, present, mc, mx, mp, mq);
    var order := if present then [mc, mq, mp] else [mp, mc, mq];
    if present { KahnFalling(order); } else { ForeignKahn(mc, mp, mq); }
    PowerLast({mc, mx, mp, mq}, order, 2);
  }

  lemma ForeignOrder(u: Store, c: Event, f: Event)
    requires Foreign(c, f)
    ensures var metas := MetasIn(ForeignRules(c, f), u, {c, Topic(c, f), Behind(c, f), Beside(c, f)});
      DistinctIds(metas) && JOIN in Resolve(metas)
      && Resolve(metas)[JOIN] == if RoomCreate(u, f.room).Some? then Behind(c, f).id else Beside(c, f).id
  {
    hide *;
    var x, p, q, env := Topic(c, f), Behind(c, f), Beside(c, f), ForeignRules(c, f);
    ForeignMetasAre(u, c, f);
    MetasOfFour(env, u, c, x, p, q);
    ForeignJoins(c, f, RoomCreate(u, f.room).Some?, MetaIn(env, u, c), MetaIn(env, u, x), MetaIn(env, u, p),
      MetaIn(env, u, q));
  }

  lemma ForeignJoin(s: Store, t: Store, c: Event, f: Event)
    requires Foreign(c, f) && HoldsForeign(t, c, f) && Written(ForeignRules(c, f), s, t, c.room)
    ensures c.room in t.roomState && JOIN in t.roomState[c.room]
    ensures t.roomState[c.room][JOIN] ==
      if RoomCreate(t.(roomState := s.roomState), f.room).Some? then Behind(c, f).id else Beside(c, f).id
  {
    hide *;
    ForeignIds(c, f);
    ForeignHeads(t, c, f);
    WrittenResolves(ForeignRules(c, f), s, t, c.room, {c, Topic(c, f), Behind(c, f), Beside(c, f)}, Behind(c, f).id,
      Beside(c, f).id);
    ForeignOrder(t.(roomState := s.roomState), c, f);
  }

  lemma RoomKept(env: Env, s: Store, t: Store, room: string, other: string)
    requires Written(env, s, t, room) && other != room
    ensures other in t.roomState <==> other in s.roomState
    ensures other in s.roomState ==> t.roomState[other] == s.roomState[other]
  {
  }

  lemma NoCreate(s: Store, t: Store, room: string)
    requires room !in s.roomState
    ensures RoomCreate(t.(roomState := s.roomState), room) == None
  {
  }

  lemma ForeignSparse(c: Event, x: Event)
    ensures Sparse(map[CREATE_KEY := c.id])
    ensures map[CREATE_KEY := c.id][NAME := x.id] == map[CREATE_KEY := c.id, NAME := x.id]
    ensures map[CREATE_KEY := c.id][JOIN := x.id] == map[CREATE_KEY := c.id, JOIN := x.id]
    ensures forall p: string ::
      map[CREATE_KEY := c.id, NAME := x.id][JOIN := p] == map[CREATE_KEY := c.id, NAME := x.id, JOIN := p]
  {
  }

  /** c and what builds on it arrive after the events of xs. */
  lemma AddForks(c: Event, f: Event, xs: seq<Event>, events: set<Event>)
    requires Foreign(c, f) && events <= {f} && var s := Run(ForeignRules(c, f), EMPTY, xs); Inv(s) && Only(s, events)
    ensures var x, p, q := Topic(c, f), Behind(c, f), Beside(c, f);
      var r, s, t := Run(ForeignRules(c, f), EMPTY, xs), Run(ForeignRules(c, f), EMPTY, xs + [c, x, p]),
        Run(ForeignRules(c, f), EMPTY, xs + [c, x, p, q]);
      && Inv(s) && Only(s, events + {c, x, p}) && Grows(s, t) && Inv(t) && Only(t, events + {c, x, p, q})
      && Knows(t, c, map[CREATE_KEY := c.id]) && Knows(t, x, map[CREATE_KEY := c.id, NAME := x.id])
      && Knows(t, p, map[CREATE_KEY := c.id, NAME := x.id, JOIN := p.id])
      && Knows(t, q, map[CREATE_KEY := c.id, JOIN := q.id])
      && Written(ForeignRules(c, f), s, t, c.room) && (f.room in r.roomState ==> f.room in s.roomState)
  {
    hide *;
    var x, p, q, level, env := Topic(c, f), Behind(c, f), Beside(c, f), ForeignLevel(c, f), ForeignRules(c, f);
    var m0, m1 := map[CREATE_KEY := c.id], map[CREATE_KEY := c.id, NAME := x.id];
    ForeignShape(c, f);
    ForeignIds(c, f);
    ForeignSparse(c, x);
    ForeignSparse(c, q);
    assert events + {c} + {x} + {p} == events + {c, x, p} && events + {c, x, p} + {q} == events + {c, x, p, q};
    AddCreate(level, xs, xs + [c], events, c);
    AddFork(level, xs + [c], xs + [c, x], events + {c}, c, m0, x, NAME);
    AddFork(level, xs + [c, x], xs + [c, x, p], events + {c} + {x}, x, m1, p, JOIN);
    var r, s0, s1, s := Run(env, EMPTY, xs), Run(env, EMPTY, xs + [c]), Run(env, EMPTY, xs + [c, x]),
      Run(env, EMPTY, xs + [c, x, p]);
    KnowsGrows(s0, s1, c, m0);
    KnowsGrows(s1, s, c, m0);
    KnowsGrows(s1, s, x, m1);
    AddFork(level, xs + [c, x, p], xs + [c, x, p, q], events + {c, x, p}, c, m0, q, JOIN);
    var t := Run(env, EMPTY, xs + [c, x, p, q]);
    KnowsGrows(s, t, c, m0);
    KnowsGrows(s, t, x, m1);
    KnowsGrows(s, t, p, m1[JOIN := p.id]);
    RoomKept(env, r, s0, c.room, f.room);
    RoomKept(env, s0, s1, c.room, f.room);
    RoomKept(env, s1, s, c.room, f.room);
  }

  lemma ForeignHeld(s: Store, c: Event, f: Event, events: set<Event>)
    requires var x, p, q := Topic(c, f), Behind(c, f), Beside(c, f);
      && Inv(s) && Only(s, events) && (events == {c, x, p, q} || events == {f, c, x, p, q})
      && Knows(s, c, map[CREATE_KEY := c.id]) && Knows(s, x, map[CREATE_KEY := c.id, NAME := x.id])
      && Knows(s, p, map[CREATE_KEY := c.id, NAME := x.id, JOIN := p.id])
      && Knows(s, q, map[CREATE_KEY := c.id, JOIN := q.id])
    ensures HoldsForeign(s, c, f)
  {
    hide Inv, Only, Knows, Topic, Behind, Beside;
  }

  /** The create c names is known from the start. */
  lemma FComesFirst(c: Event, f: Event)
    requires Foreign(c, f)
    ensures var x, p, q := Topic(c, f), Behind(c, f), Beside(c, f);
      var t := Run(ForeignRules(c, f), EMPTY, [f, c, x, p, q]);
      && Only(t, {f, c, x, p, q}) && c.room in t.roomState && JOIN in t.roomState[c.room]
        && t.roomState[c.room][JOIN] == p.id
  {
    hide *;
    var x, p, q, env := Topic(c, f), Behind(c, f), Beside(c, f), ForeignRules(c, f);
    ForeignShape(c, f);
    EmptyRun(env);
    assert {} + {f} == {f} && {f} + {c, x, p} == {f, c, x, p} && {f} + {c, x, p, q} == {f, c, x, p, q};
    AddCreate(ForeignLevel(c, f), [], [f], {}, f);
    RoomWritten(env, Run(env, EMPTY, []), Run(env, EMPTY, [f]), f.room);
    AddForks(c, f, [f], {f});
    assert [f] + [c, x, p] == [f, c, x, p] && [f] + [c, x, p, q] == [f, c, x, p, q];
    var s, t := Run(env, EMPTY, [f, c, x, p]), Run(env, EMPTY, [f, c, x, p, q]);
    CreateIs(s, t, {f, c, x, p}, f.room);
    ForeignHeld(t, c, f, {f, c, x, p, q});
    ForeignJoin(s, t, c, f);
  }

  /** It arrives when c's room is decided. */
  lemma FComesLast(c: Event, f: Event)
    requires Foreign(c, f)
    ensures var x, p, q := Topic(c, f), Behind(c, f), Beside(c, f);
      var t := Run(ForeignRules(c, f), EMPTY, [c, x, p, q, f]);
      && Only(t, {f, c, x, p, q}) && c.room in t.roomState && JOIN in t.roomState[c.room]
        && t.roomState[c.room][JOIN] == q.id
  {
    hide *;
    var x, p, q, env := Topic(c, f), Behind(c, f), Beside(c, f), ForeignRules(c, f);
    ForeignShape(c, f);
    ForeignIds(c, f);
    EmptyRun(env);
    assert {} + {c, x, p} == {c, x, p} && {} + {c, x, p, q} == {c, x, p, q} && {c, x, p, q} + {f} == {f, c, x, p, q};
    AddForks(c, f, [], {});
    assert [] + [c, x, p] == [c, x, p] && [] + [c, x, p, q] == [c, x, p, q];
    var s, t := Run(env, EMPTY, [c, x, p]), Run(env, EMPTY, [c, x, p, q]);
    NoRoomState(s, {c, x, p}, f.room);
    NoCreate(s, t, f.room);
    ForeignHeld(t, c, f, {c, x, p, q});
    ForeignJoin(s, t, c, f);
    AddCreate(ForeignLevel(c, f), [c, x, p, q], [c, x, p, q, f], {c, x, p, q}, f);
    RoomKept(env, t, Run(env, EMPTY, [c, x, p, q, f]), f.room, c.room);
  }

  /** Any well-shaped create that names another room which has one: as with two creates of one room, under
      some such rules and with three more events, two servers end with different room states. */
  lemma ForeignCreateDiverges(c: Event, f: Event) returns (env: Env, xs: seq<Event>, ys: seq<Event>)
    requires Foreign(c, f)
    ensures Diverges(env, xs, ys) && c in xs && f in xs
  {
    hide *;
    var x, p, q := Topic(c, f), Behind(c, f), Beside(c, f);
    env, xs, ys := ForeignRules(c, f), [f, c, x, p, q], [c, x, p, q, f];
    ForeignIds(c, f);
    ForeignShape(c, f);
    FComesFirst(c, f);
    FComesLast(c, f);
    WitnessRules(ForeignLevel(c, f));
    FiveDiverge(env, f, c, x, p, q);
  }

  lemma FiveDiverge(env: Env, a: Event, b: Event, c: Event, d: Event, e: Event)
    requires AuthRules(env) && a.id !in {b.id, c.id, d.id, e.id} && b.id !in {c.id, d.id, e.id} && c.id !in {d.id, e.id}
      && d.id != e.id
    requires var xs, ys := [a, b, c, d, e], [b, c, d, e, a];
      && Only(Run(env, EMPTY, xs), {a, b, c, d, e}) && Only(Run(env, EMPTY, ys), {a, b, c, d, e})
      && Run(env, EMPTY, xs).roomState != Run(env, EMPTY, ys).roomState
    ensures Diverges(env, [a, b, c, d, e], [b, c, d, e, a])
  {
    hide AuthRules, Only, Run, Settled;
    var xs, ys := [a, b, c, d, e], [b, c, d, e, a];
    assert Elems(xs) == {a, b, c, d, e} && Elems(ys) == {a, b, c, d, e};
    AllSettled(env, Run(env, EMPTY, xs), {a, b, c, d, e});
    AllSettled(env, Run(env, EMPTY, ys), {a, b, c, d, e});
  }

  /** What Convergence asks of creates is the boundary: where a set of events fails it, two of its creates
      alone are enough for two servers to diverge. */
  lemma OutsideUniverseDiverges(U: set<Event>)
    returns (c: Event, d: Event, env: Env, xs: seq<Event>, ys: seq<Event>)
    requires !Universe(U) && forall e, f | e in U && f in U && e.id == f.id :: e == f
    ensures c in U && d in U && c.Genesis() && d.Genesis() && c in xs && d in xs
    ensures Diverges(env, xs, ys)
  {
    if e, f :| e in U && f in U && e.Genesis() && f.Genesis() && e.room == f.room != "" && e != f {
      c, d := e, f;
      hide Diverges;
      env, xs, ys := TwoCreatesDiverge(c, d);
    } else {
      c, d :| c in U && d in U && c.Genesis() && d.Genesis() && c.roomId == d.room != "" && c.room != d.room;
      hide Diverges;
      env, xs, ys := ForeignCreateDiverges(c, d);
    }
  }
}
