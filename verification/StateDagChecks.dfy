/** What the checks decide and what resolution reads, told from the rows (internal/eventstate/statedag.go,
    internal/eventstate/eventstate.go). */
module StateDagChecks {
  import opened Wrappers
  import opened Sorting
  import opened StateRes
  import opened StateResOrder
  import opened StateDag
  import opened StateDagInvariant
  import opened StateDagConvergence
  import opened StateDagDivergence

  // ---- the verdict ----

  /** The event may be cited: known, of the room, a state event, not rejected. */
  predicate Citable(s: Store, ev: Event, id: string) {
    id in s.rows && id !in s.rejected && s.rows[id].ev.room == ev.roomId && !s.rows[id].ev.stateKey.Absent?
  }

  /** The first of these that may not be cited is not known. */
  ghost predicate FirstUnknown(s: Store, ev: Event, prevs: seq<string>) {
    exists i :: 0 <= i < |prevs| && prevs[i] !in s.rows && forall j | 0 <= j < i :: Citable(s, ev, prevs[j])
  }

  lemma FirstUnknownOpens(s: Store, ev: Event, prevs: seq<string>)
    requires prevs != []
    ensures FirstUnknown(s, ev, prevs) <==>
      prevs[0] !in s.rows || (Citable(s, ev, prevs[0]) && FirstUnknown(s, ev, prevs[1..]))
  {
    var rest := prevs[1..];
    assert forall i | 0 < i < |prevs| :: prevs[i] == rest[i - 1];
    if FirstUnknown(s, ev, prevs) {
      var i :| 0 <= i < |prevs| && prevs[i] !in s.rows && forall j | 0 <= j < i :: Citable(s, ev, prevs[j]);
      if i > 0 { assert forall j | 0 <= j < i - 1 :: rest[j] == prevs[j + 1]; }
    }
    if Citable(s, ev, prevs[0]) && FirstUnknown(s, ev, rest) {
      var i :| 0 <= i < |rest| && rest[i] !in s.rows && forall j | 0 <= j < i :: Citable(s, ev, rest[j]);
      assert prevs[i + 1] == rest[i];
    }
  }

  lemma AllCitable(s: Store, ev: Event, prevs: seq<string>)
    requires prevs != []
    ensures (forall id | id in prevs :: Citable(s, ev, id)) <==>
      Citable(s, ev, prevs[0]) && forall id | id in prevs[1..] :: Citable(s, ev, id)
  {
    hide Citable;
    forall id | id in prevs ensures id == prevs[0] || id in prevs[1..] {}
    forall id | id in prevs[1..] ensures id in prevs {}
  }

  lemma {:induction false} PrevsExactly(s: Store, ev: Event, prevs: seq<string>)
    ensures CheckPrevs(s, ev, prevs) == Accept <==> forall id | id in prevs :: Citable(s, ev, id)
    ensures CheckPrevs(s, ev, prevs) == Missing <==> FirstUnknown(s, ev, prevs)
    decreases |prevs|
  {
    if prevs != [] {
      PrevsExactly(s, ev, prevs[1..]);
      FirstUnknownOpens(s, ev, prevs);
      AllCitable(s, ev, prevs);
      hide FirstUnknown;
    }
  }

  /** What the auth rules get to see of a state. */
  predicate Relevant(ev: Event, k: Key) {
    || k == Key("m.room.create", "") || k == Key("m.room.join_rules", "")
    || k == Key("m.room.power_levels", "") || k == Key("m.room.guest_access", "")
    || k == Key("m.room.member", ev.sender)
    || (ev.typ == "m.room.member" && k == Key("m.room.member", if ev.stateKey.Text? then ev.stateKey.s else ""))
    || (ev.typ == "m.room.member" && ev.member.Some? && ev.member.value.token != ""
        && k == Key("m.room.third_party_invite", ev.member.value.token))
  }

  /** view holds the relevant events of the state, all of which are known. */
  ghost predicate Sees(s: Store, ev: Event, before: State, view: map<Key, Event>) {
    && (forall k :: k in view <==> k in before && Relevant(ev, k))
    && forall k | k in view :: before[k] in s.rows && view[k] == s.rows[before[k]].ev
  }

  lemma ViewExactly(s: Store, before: State, ev: Event, view: map<Key, Event>)
    ensures AuthView(s, before, ev) == Some(view) <==> Sees(s, ev, before, view)
  {
    assert forall k :: k in AuthKeys(ev) <==> Relevant(ev, k);
    hide AuthKeys, Relevant;
    if Sees(s, ev, before, view) {
      forall k | k in AuthKeys(ev) && k in before ensures before[k] in s.rows { assert k in view; }
      assert AuthView(s, before, ev).value == view;
    }
  }

  /** Between 1 and 20 parents, all citable, a state to which they resolve, and its relevant events. */
  ghost predicate Founded(env: Env, s: Store, ev: Event, view: map<Key, Event>) {
    && 1 <= |ev.prevState| <= 20 && (forall id | id in ev.prevState :: Citable(s, ev, id))
    && StateAfter(env, s, ev.prevState).Some? && Sees(s, ev, StateAfter(env, s, ev.prevState).value, view)
  }

  /** The verdict on an event that is no m.room.create: accepted exactly when it is well founded and the
      auth rules admit it, told whether a create is all it builds on; put off exactly when the first parent
      that is not citable is unknown. */
  lemma CheckExactly(env: Env, s: Store, ev: Event)
    requires !(ev.typ == "m.room.create" && ev.stateKey == Text(""))
    ensures Check(env, s, ev) == Accept <==> ev.hasPrevState && exists view ::
      && Founded(env, s, ev, view)
      && env.authorize(ev, view,
           |ev.prevState| == 1 && ev.prevState[0] in s.rows && s.rows[ev.prevState[0]].ev.typ == "m.room.create")
    ensures Check(env, s, ev) == Missing <==>
      && ev.hasPrevState && 1 <= |ev.prevState| <= 20
      && exists i :: 0 <= i < |ev.prevState| && ev.prevState[i] !in s.rows
           && forall j | 0 <= j < i :: Citable(s, ev, ev.prevState[j])
  {
    PrevsExactly(s, ev, ev.prevState);
    hide CheckPrevs, StateAfter;
    if 1 <= |ev.prevState| <= 20 && StateAfter(env, s, ev.prevState).Some? {
      var before := StateAfter(env, s, ev.prevState).value;
      forall view ensures AuthView(s, before, ev) == Some(view) <==> Sees(s, ev, before, view) {
        ViewExactly(s, before, ev, view);
      }
      hide AuthView, Sees;
      if forall id | id in ev.prevState :: Citable(s, ev, id) {
        assert ev.prevState[0] in ev.prevState && Citable(s, ev, ev.prevState[0]);
        if AuthView(s, before, ev).Some? {
          assert Founded(env, s, ev, AuthView(s, before, ev).value);
        }
      }
    }
  }

  /** The verdict on a create: accepted exactly when it builds on nothing and the auth rules admit it. */
  lemma CreateCheckExactly(env: Env, s: Store, ev: Event)
    requires ev.typ == "m.room.create" && ev.stateKey == Text("")
    ensures Check(env, s, ev) ==
      if ev.hasPrevState && ev.prevState == [] && ev.prevEvents == [] && env.authorize(ev, map[], false)
      then Accept else Reject
  {
  }

  // ---- what resolution reads ----

  /** The create the room's state names, when it is known. */
  ghost predicate CreateOf(s: Store, room: string, create: Option<Event>) {
    var key := Key("m.room.create", "");
    if room in s.roomState && key in s.roomState[room] && s.roomState[room][key] in s.rows
    then create == Some(s.rows[s.roomState[room][key]].ev) else create == None
  }

  /** m tells of the stored event x what its row, its calculated auth events and the room's create say. */
  ghost predicate Tells(env: Env, s: Store, x: string, m: Meta) {
    && x in s.rows && m.id == x
    && var ev := s.rows[x].ev;
    && m.key == Key(ev.typ, if ev.stateKey.Text? then ev.stateKey.s else "")
    && m.depth == ev.depth && m.ts == ev.ts && m.prev == ev.prevState
    && m.auth == (if x in s.auth then s.auth[x] else [])
    && (m.power <==>
         || ev.typ == "m.room.create" || ev.typ == "m.room.power_levels" || ev.typ == "m.room.join_rules"
         || (ev.typ == "m.room.member" && ev.thirdPartyInvite))
    && exists loaded, create :: LoadedFrom(s, m.auth, loaded) && m.level == env.level(ev, loaded, create)
         && (if ev.roomId == "" then create == None else CreateOf(s, ev.roomId, create))
  }

  /** The known ones of the ids, in order. */
  ghost predicate LoadedFrom(s: Store, ids: seq<string>, loaded: seq<Event>)
    decreases |ids|
  {
    if ids == [] then loaded == []
    else if ids[|ids| - 1] !in s.rows then LoadedFrom(s, ids[..|ids| - 1], loaded)
    else
      && loaded != [] && loaded[|loaded| - 1] == s.rows[ids[|ids| - 1]].ev
      && LoadedFrom(s, ids[..|ids| - 1], loaded[..|loaded| - 1])
  }

  lemma {:induction false} LoadIs(s: Store, ids: seq<string>)
    ensures LoadedFrom(s, ids, Load(s, ids))
    decreases |ids|
  {
    if ids != [] {
      var init, last := ids[..|ids| - 1], ids[|ids| - 1];
      LoadIs(s, init);
      LoadAppends(s, init, last);
      assert init + [last] == ids;
      assert Load(s, ids) == Load(s, init) + (if last in s.rows then [s.rows[last].ev] else []);
      hide Load;
      if last in s.rows {
        assert (Load(s, init) + [s.rows[last].ev])[..|Load(s, init)|] == Load(s, init);
      } else {
        assert Load(s, init) + [] == Load(s, init);
      }
    }
  }

  lemma {:induction false} LoadAppends(s: Store, ids: seq<string>, x: string)
    ensures Load(s, ids + [x]) == Load(s, ids) + (if x in s.rows then [s.rows[x].ev] else [])
    decreases |ids|
  {
    if ids == [] {
      assert [] + [x] == [x] && [x][1..] == [];
    } else {
      assert (ids + [x])[1..] == ids[1..] + [x] && (ids + [x])[0] == ids[0];
      LoadAppends(s, ids[1..], x);
    }
  }

  lemma MetaTells(env: Env, s: Store, x: string)
    requires x in s.rows
    ensures Tells(env, s, x, MetaOf(env, s, x))
  {
    var m, ev := MetaOf(env, s, x), s.rows[x].ev;
    LoadIs(s, m.auth);
    var create := if ev.roomId == "" then None else RoomCreate(s, ev.roomId);
    assert ev.roomId != "" ==> CreateOf(s, ev.roomId, create);
    hide CreateOf, LoadedFrom, RoomCreate, Load;
    assert m.level == env.level(ev, Load(s, m.auth), create);
  }

  /** Some of the snapshots names x. */
  ghost predicate NamedBy(s: Store, ids: seq<string>, x: string) {
    exists id, k :: id in ids && id in s.snapshots && k in s.snapshots[id] && s.snapshots[id][k] == x
  }

  /** The state after one event is its snapshot; after several, the resolution of the known events their
      snapshots name, each with what is stored of it; and there is none where a snapshot is missing. */
  lemma StateAfterExactly(env: Env, s: Store, ids: seq<string>) returns (metas: set<Meta>)
    ensures DistinctIds(metas)
    ensures forall m | m in metas :: NamedBy(s, ids, m.id) && Tells(env, s, m.id, m)
    ensures forall x | x in s.rows && NamedBy(s, ids, x) :: exists m :: m in metas && m.id == x
    ensures StateAfter(env, s, ids) ==
      if exists id :: id in ids && id !in s.snapshots then None
      else if |ids| == 1 then Some(s.snapshots[ids[0]]) else Some(Resolve(metas))
  {
    metas := Metas(env, s, Candidates(s, ids));
    forall x ensures x in Candidates(s, ids) <==> NamedBy(s, ids, x) {}
    forall x | x in s.rows ensures Tells(env, s, x, MetaOf(env, s, x)) && MetaOf(env, s, x).id == x {
      MetaTells(env, s, x);
    }
    hide MetaOf, Tells, NamedBy, Candidates;
    forall x | x in s.rows && NamedBy(s, ids, x) ensures exists m :: m in metas && m.id == x {
      assert MetaOf(env, s, x) in metas;
    }
    hide Resolve, Metas;
    if |ids| == 1 { assert ids[0] in ids && forall id | id in ids :: id == ids[0]; }
  }

  // ---- a room gets past its create ----

  /** Nobody may join but the first, right behind the create. */
  function FirstJoinOnly(level: Level): Env {
    Env(true,
      (ev: Event, view: map<Key, Event>, only: bool) =>
        if ev.typ == "m.room.create" then CREATE_KEY !in view else only,
      level)
  }

  /** j is the creator's join, citing the create c alone. */
  predicate Joins(c: Event, j: Event) {
    && c.Genesis() && c.room == j.room == j.roomId && j.id != c.id && j.hasPrevState && j.prevState == [c.id]
    && j.typ == "m.room.member" && j.stateKey == Text(j.sender)
  }

  lemma FirstJoinRules(level: Level)
    ensures AuthRules(FirstJoinOnly(level))
  {
  }

  lemma CreateIn(level: Level, c: Event, j: Event)
    requires Joins(c, j)
    ensures var t := Run(FirstJoinOnly(level), EMPTY, [c]);
      Inv(t) && Only(t, {c}) && c.id in t.snapshots && t.snapshots[c.id] == map[CREATE_KEY := c.id]
  {
    var env := FirstJoinOnly(level);
    FirstJoinRules(level);
    EmptyRun(env);
    RunMore(env, [], c);
    assert [] + [c] == [c] && {} + {c} == {c};
    CreateCheckExactly(env, EMPTY, c);
    assert StateBefore(env, Persist(EMPTY, c), c) == Some(map[]);
    hide Check, Inv, Only, Run, Deliver, Written;
    Accepts(env, EMPTY, {}, c);
  }

  lemma JoinChecks(level: Level, s: Store, c: Event, j: Event)
    requires Joins(c, j) && Inv(s) && Only(s, {c}) && c.id in s.snapshots
      && s.snapshots[c.id] == map[CREATE_KEY := c.id]
    ensures Check(FirstJoinOnly(level), s, j) == Accept
  {
    var env := FirstJoinOnly(level);
    assert StateAfter(env, s, j.prevState) == Some(map[CREATE_KEY := c.id]);
    var view := map[CREATE_KEY := c];
    assert Sees(s, j, map[CREATE_KEY := c.id], view);
    CheckExactly(env, s, j);
    hide Check, Inv, StateAfter, Sees;
    assert c in {c} && forall id | id in j.prevState :: id == c.id;
    assert Founded(env, s, j, view);
  }

  /** Under rules that admit a join only right behind the create, the creator's first join is accepted and
      stands in the room's state. */
  lemma FirstJoinAccepted(level: Level, c: Event, j: Event)
    requires Joins(c, j)
    ensures var t := Run(FirstJoinOnly(level), EMPTY, [c, j]);
      && t.Accepted(j.id) && t.rows[j.id].ev == j && j.room in t.roomState
      && t.roomState[j.room] == map[CREATE_KEY := c.id, Key("m.room.member", j.sender) := j.id]
  {
    hide *;
    var env := FirstJoinOnly(level);
    FirstJoinRules(level);
    CreateIn(level, c, j);
    var s := Run(env, EMPTY, [c]);
    JoinChecks(level, s, c, j);
    JoinFacts(c, j);
    RunMore(env, [c], j);
    assert [c] + [j] == [c, j];
    NotYet(s, {c}, j);
    Accepts(env, s, {c}, j);
    JoinWritten(env, s, Run(env, EMPTY, [c, j]), c, j);
  }

  lemma JoinFacts(c: Event, j: Event)
    requires Joins(c, j)
    ensures j.Deliverable() && j.id != c.id
  {
  }

  lemma JoinWritten(env: Env, s: Store, t: Store, c: Event, j: Event)
    requires Joins(c, j) && Inv(t) && Only(t, {c} + {j}) && Written(env, s, t, j.room)
    requires c.id in s.snapshots && s.snapshots[c.id] == map[CREATE_KEY := c.id]
    requires StateBefore(env, Persist(s, j), j).Some?
    requires j.id in t.snapshots && t.snapshots[j.id] == WithOwnTuple(StateBefore(env, Persist(s, j), j).value, j)
    ensures j.room in t.roomState
    ensures t.roomState[j.room] == map[CREATE_KEY := c.id, Key("m.room.member", j.sender) := j.id]
  {
    hide *;
    var u := t.(roomState := s.roomState);
    JoinHead(t, c, j);
    JoinBefore(env, s, c, j);
    OneHead(HeadList(t, j.room), j.id);
    OneHeadWritten(env, s, t, j.room, j.id);
    JoinTuple(c, j);
  }

  lemma JoinHead(t: Store, c: Event, j: Event)
    requires Joins(c, j) && Inv(t) && Only(t, {c} + {j})
    ensures HeadIds(t, j.room) == {j.id}
  {
    var events := {c} + {j};
    assert c in events && j in events && forall f | f in events :: f == c || f == j;
    hide HeadIds, Inv, Only;
    forall id ensures id in HeadIds(t, j.room) <==> id in {j.id} { HeadIs(t, events, j.room, id); }
  }

  lemma JoinBefore(env: Env, s: Store, c: Event, j: Event)
    requires Joins(c, j) && c.id in s.snapshots && s.snapshots[c.id] == map[CREATE_KEY := c.id]
    ensures StateBefore(env, Persist(s, j), j) == Some(map[CREATE_KEY := c.id])
  {
  }

  lemma OneHeadWritten(env: Env, s: Store, t: Store, room: string, id: string)
    requires Written(env, s, t, room) && HeadList(t, room) == [id] && id in t.snapshots
    ensures room in t.roomState && t.roomState[room] == t.snapshots[id]
  {
    hide HeadList, Resolve, Metas, Candidates;
  }

  lemma JoinTuple(c: Event, j: Event)
    requires Joins(c, j)
    ensures WithOwnTuple(map[CREATE_KEY := c.id], j) == map[CREATE_KEY := c.id, Key("m.room.member", j.sender) := j.id]
  {
  }

  lemma OneHead(list: seq<string>, id: string)
    requires |list| == |{id}| && forall x :: x in list <==> x in {id}
    ensures list == [id]
  {
    assert list[0] in list;
  }
}
