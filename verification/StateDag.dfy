/** State-DAG rooms (MSC4242): internal/eventstate/statedag.go over the tables of
    internal/storage/statedag.go. */
module StateDag {
  import opened Wrappers
  import opened Sorting
  import opened Lexical
  import opened StateRes

  const MAX_PREV_STATE_EVENTS := 20
  const CREATE_KEY := Key("m.room.create", "")

  /** The state_key field of a PDU: IsState asks for presence, StateKey for a string. */
  datatype StateKeyField = Absent | NotString | Text(s: string)

  /** What rooms.ParseMember and the third-party token lookup read of a member event's content;
      token is "" when there is none. */
  datatype Member = Member(membership: string, authorisedVia: string, token: string)

  datatype Event = Event(
    id: string,
    room: string,      // the room it is delivered in and filed under
    roomId: string,    // its own room_id field, "" when absent
    typ: string, stateKey: StateKeyField, sender: string, content: string,
    member: Option<Member>, thirdPartyInvite: bool,
    hasPrevState: bool, prevState: seq<string>, prevEvents: seq<string>,
    depth: int, ts: int)
  {
    function Sk(): string { if stateKey.Text? then stateKey.s else "" }
    function StKey(): Key { Key(typ, Sk()) }
    predicate IsCreate() { typ == "m.room.create" && stateKey == Text("") }
    /** A create of the shape the checks accept. */
    predicate Genesis() { IsCreate() && hasPrevState && prevState == [] && prevEvents == [] }
    /** parseStateDAGPDU keeps the event: it names its room, unless it is an m.room.create. */
    predicate Deliverable() { hasPrevState && (typ == "m.room.create" || roomId == room) }
    predicate IsPower() {
      typ in {"m.room.create", "m.room.power_levels", "m.room.join_rules"}
        || (typ == "m.room.member" && thirdPartyInvite)
    }
  }

  /** rooms.Authorize and senderPowerLevel, as functions of what the callers hand them. */
  datatype Env = Env(
    roomIdIsCreateHash: bool,
    authorize: (Event, map<Key, Event>, bool) -> bool,
    level: (Event, seq<Event>, Option<Event>) -> int)

  datatype Row = Row(ev: Event, stream: nat)
  datatype Edge = Edge(child: string, parent: string, childIsState: bool)
  datatype Head = Head(room: string, id: string)

  datatype Store = Store(
    rows: map<string, Row>,          // events
    rejected: set<string>,           // rejected_events
    auth: map<string, seq<string>>,  // event_calculated_auth
    snapshots: map<string, State>,   // event_state_snapshots
    edges: set<Edge>,                // state_dag_edges
    heads: set<Head>,                // state_dag_extremities
    roomState: map<string, State>)   // room_state
  {
    predicate Accepted(id: string) { id in rows && id !in rejected }
  }

  const EMPTY := Store(map[], {}, map[], map[], {}, {}, map[])

  datatype Verdict = Accept | Reject | Missing

  // ---- checks ----

  /** The first prev_state_event that fails a check decides. */
  function CheckPrevs(s: Store, ev: Event, prevs: seq<string>): Verdict {
    if prevs == [] then Accept
    else if prevs[0] !in s.rows then Missing
    else if s.rows[prevs[0]].ev.room != ev.roomId then Reject
    else if s.rows[prevs[0]].ev.stateKey.Absent? then Reject
    else if prevs[0] in s.rejected then Reject
    else CheckPrevs(s, ev, prevs[1..])
  }

  function RoomCreate(s: Store, room: string): Option<Event> {
    if room in s.roomState && CREATE_KEY in s.roomState[room] && s.roomState[room][CREATE_KEY] in s.rows
    then Some(s.rows[s.roomState[room][CREATE_KEY]].ev) else None
  }

  function CalculatedAuthOf(s: Store, id: string): seq<string> {
    if id in s.auth then s.auth[id] else []
  }

  function Load(s: Store, ids: seq<string>): seq<Event> {
    if ids == [] then []
    else (if ids[0] in s.rows then [s.rows[ids[0]].ev] else []) + Load(s, ids[1..])
  }

  /** buildEventMeta for a state-DAG room. */
  function MetaOf(env: Env, s: Store, id: string): Meta
    requires id in s.rows
  {
    var ev := s.rows[id].ev;
    var auth := CalculatedAuthOf(s, id);
    var create := if ev.roomId == "" then None else RoomCreate(s, ev.roomId);
    Meta(id, ev.StKey(), ev.depth, ev.ts, ev.IsPower(), auth, ev.prevState, env.level(ev, Load(s, auth), create))
  }

  ghost function Metas(env: Env, s: Store, cands: set<string>): (r: set<Meta>)
    ensures DistinctIds(r)
  {
    set id | id in cands && id in s.rows :: MetaOf(env, s, id)
  }

  ghost function Candidates(s: Store, ids: seq<string>): set<string> {
    set id, k | id in ids && id in s.snapshots && k in s.snapshots[id] :: s.snapshots[id][k]
  }

  /** resolveSnapshotsTx: the state after the given events; None when one has no snapshot. */
  ghost function StateAfter(env: Env, s: Store, ids: seq<string>): Option<State> {
    if |ids| == 1 then
      if ids[0] in s.snapshots then Some(s.snapshots[ids[0]]) else None
    else if forall id | id in ids :: id in s.snapshots then
      Some(Resolve(Metas(env, s, Candidates(s, ids))))
    else None
  }

  /** The state tuples snapshotFromState loads for the auth rules. */
  function AuthKeys(ev: Event): set<Key> {
    {CREATE_KEY, Key("m.room.join_rules", ""), Key("m.room.power_levels", ""), Key("m.room.guest_access", ""),
     Key("m.room.member", ev.sender)}
    + (if ev.typ == "m.room.member" then {Key("m.room.member", ev.Sk())} else {})
    + (if ev.typ == "m.room.member" && ev.member.Some? && ev.member.value.token != ""
       then {Key("m.room.third_party_invite", ev.member.value.token)} else {})
  }

  /** The auth-relevant events of a state; None when one of them cannot be loaded. */
  function AuthView(s: Store, before: State, ev: Event): Option<map<Key, Event>> {
    if forall k | k in AuthKeys(ev) && k in before :: before[k] in s.rows then
      Some(map k | k in AuthKeys(ev) && k in before :: s.rows[before[k]].ev)
    else None
  }

  ghost function Check(env: Env, s: Store, ev: Event): Verdict {
    if !ev.hasPrevState then Reject
    else if ev.IsCreate() then
      if ev.prevState != [] || ev.prevEvents != [] then Reject
      else if env.authorize(ev, map[], false) then Accept else Reject
    else if ev.prevState == [] || |ev.prevState| > MAX_PREV_STATE_EVENTS then Reject
    else if CheckPrevs(s, ev, ev.prevState) != Accept then CheckPrevs(s, ev, ev.prevState)
    else
      var before := StateAfter(env, s, ev.prevState);
      if before.None? then Reject
      else
        var view := AuthView(s, before.value, ev);
        if view.None? then Reject
        else if env.authorize(ev, view.value, OnlyPrevIsCreate(s, ev)) then Accept else Reject
  }

  predicate OnlyPrevIsCreate(s: Store, ev: Event) {
    |ev.prevState| == 1 && ev.prevState[0] in s.rows && s.rows[ev.prevState[0]].ev.typ == "m.room.create"
  }

  // ---- acceptance ----

  /** The tuples of the spec's auth-event selection, in the order calculatedAuthEvents adds them. */
  function Selection(env: Env, ev: Event): seq<Key> {
    if ev.typ == "m.room.create" then [] else
      (if env.roomIdIsCreateHash then [] else [CREATE_KEY])
      + [Key("m.room.power_levels", ""), Key("m.room.member", ev.sender)]
      + (if ev.typ != "m.room.member" then [] else
           [Key("m.room.member", ev.Sk())]
           + (if ev.member.None? then [] else
                (if ev.member.value.membership in {"join", "invite", "knock"} then [Key("m.room.join_rules", "")]
                  else [])
                + (if ev.member.value.authorisedVia != "" then [Key("m.room.member", ev.member.value.authorisedVia)]
                  else [])
                + (if ev.member.value.token != "" then [Key("m.room.third_party_invite", ev.member.value.token)]
                  else [])))
  }

  /** The ids the keys select from a state, first occurrences only. */
  function Selected(before: State, keys: seq<Key>): seq<string> {
    if keys == [] then [] else
      var out := Selected(before, keys[..|keys| - 1]);
      var k := keys[|keys| - 1];
      if k in before && before[k] !in out then out + [before[k]] else out
  }

  ghost function StateBefore(env: Env, s: Store, ev: Event): Option<State> {
    if ev.prevState == [] then Some(map[]) else StateAfter(env, s, ev.prevState)
  }

  function WithOwnTuple(before: State, ev: Event): State {
    if ev.stateKey.Text? then before[ev.StKey() := ev.id] else before
  }

  function EdgesFor(ev: Event): set<Edge> {
    set p | p in ev.prevState :: Edge(ev.id, p, ev.stateKey.Text?)
  }

  function AdvancedHeads(heads: set<Head>, edges: set<Edge>, ev: Event): set<Head> {
    if !ev.stateKey.Text? then heads else
      var rest := set h | h in heads && !(h.room == ev.room && h.id in ev.prevState);
      if exists e | e in edges :: e.parent == ev.id && e.childIsState then rest else rest + {Head(ev.room, ev.id)}
  }

  function HeadIds(s: Store, room: string): set<string> {
    set h | h in s.heads && h.room == room :: h.id
  }

  /** ORDER BY event_id. */
  ghost function HeadList(s: Store, room: string): (r: seq<string>)
    ensures forall id :: id in r <==> id in HeadIds(s, room)
    ensures |r| == |HeadIds(s, room)|
  {
    LessIsTotal(HeadIds(s, room));
    SortSet(ByBytes(), HeadIds(s, room))
  }

  ghost function Recompute(env: Env, s: Store, room: string): Store {
    if HeadIds(s, room) == {} then s
    else
      var st := StateAfter(env, s, HeadList(s, room));
      if st.None? then s else s.(roomState := s.roomState[room := st.value])
  }

  function Persist(s: Store, ev: Event): Store {
    s.(rows := s.rows[ev.id := Row(ev, |s.rows|)])
  }

  /** The rows maintainStateDAGTx writes before it recomputes room_state. */
  function Advance(env: Env, s: Store, before: State, ev: Event): Store {
    var edges := s.edges + EdgesFor(ev);
    s.(auth := s.auth[ev.id := Selected(before, Selection(env, ev))],
       snapshots := s.snapshots[ev.id := WithOwnTuple(before, ev)],
       edges := edges,
       heads := AdvancedHeads(s.heads, edges, ev))
  }

  /** An accepted event: its row, then maintainStateDAGTx; an error there rejects it after all. */
  ghost function AcceptEvent(env: Env, s: Store, ev: Event): Store {
    var s1 := Persist(s, ev);
    var before := StateBefore(env, s1, ev);
    if before.None? then s1.(rejected := s1.rejected + {ev.id})
    else Recompute(env, Advance(env, s1, before.value, ev), ev.room)
  }

  function RejectEvent(s: Store, ev: Event): Store {
    Persist(s, ev).(rejected := s.rejected + {ev.id})
  }

  /** One delivery to applyStateDAGEvents: known events keep their verdict, an event with unknown
      parents leaves no trace. */
  ghost function Deliver(env: Env, s: Store, ev: Event): Store {
    if !ev.Deliverable() || ev.id in s.rows then s
    else match Check(env, s, ev)
      case Missing => s
      case Reject => RejectEvent(s, ev)
      case Accept => AcceptEvent(env, s, ev)
  }

  ghost function Run(env: Env, s: Store, deliveries: seq<Event>): Store {
    if deliveries == [] then s
    else Deliver(env, Run(env, s, deliveries[..|deliveries| - 1]), deliveries[|deliveries| - 1])
  }

  // ---- the program, over mutable tables ----

  class Tables {
    var rows: map<string, Row>
    var rejected: set<string>
    var auth: map<string, seq<string>>
    var snapshots: map<string, State>
    var edges: set<Edge>
    var heads: set<Head>
    var roomState: map<string, State>

    function View(): Store
      reads this
    {
      Store(rows, rejected, auth, snapshots, edges, heads, roomState)
    }

    constructor ()
      ensures View() == EMPTY
    {
      rows, rejected, auth, snapshots, edges, heads, roomState := map[], {}, map[], map[], {}, {}, map[];
    }

    /** The deduplicated metadata of the candidate events that are stored. */
    method LoadMetas(env: Env, cands: seq<string>) returns (metas: seq<Meta>)
      ensures Elems(metas) == Metas(env, View(), Elems(cands))
      ensures forall i, j | 0 <= i < j < |metas| :: metas[i] != metas[j]
    {
      metas := [];
      var seen: set<string> := {};
      for i := 0 to |cands|
        invariant seen == Elems(cands[..i])
        invariant Elems(metas) == Metas(env, View(), seen)
        invariant forall a, b | 0 <= a < b < |metas| :: metas[a] != metas[b]
      {
        var id := cands[i];
        assert cands[..i + 1] == cands[..i] + [id];
        if id !in seen && id in rows {
          var m := MetaOf(env, View(), id);
          assert m !in metas by { assert forall x | x in Metas(env, View(), seen) :: x.id in seen; }
          metas := metas + [m];
          assert Metas(env, View(), seen + {id}) == Metas(env, View(), seen) + {m};
        } else {
          assert Metas(env, View(), seen + {id}) == Metas(env, View(), seen);
        }
        seen := seen + {id};
      }
      assert cands[..|cands|] == cands;
    }

    /** Applying the resolved events in order to an empty state map. */
    method ApplyInOrder(ids: seq<string>, ghost order: seq<Meta>) returns (st: State)
      requires |ids| == |order|
      requires forall i | 0 <= i < |ids| ::
        ids[i] in rows && ids[i] == order[i].id && rows[ids[i]].ev.StKey() == order[i].key
      ensures st == Fold(order)
    {
      st := map[];
      for i := 0 to |ids|
        invariant st == Fold(order[..i])
      {
        assert order[..i + 1][..i] == order[..i];
        st := st[rows[ids[i]].ev.StKey() := ids[i]];
      }
      assert order[..|ids|] == order;
    }

    /** resolveOverCandidates. */
    method ResolveOverCandidates(env: Env, cands: seq<string>) returns (st: State)
      ensures st == Resolve(Metas(env, View(), Elems(cands)))
    {
      var metas := LoadMetas(env, cands);
      ghost var order := ResolvedOrder(Elems(metas));
      var ids := ResolveV2(metas);
      forall i | 0 <= i < |ids|
        ensures ids[i] in rows && ids[i] == order[i].id && rows[ids[i]].ev.StKey() == order[i].key
      {
        assert order[i] in Metas(env, View(), Elems(cands));
      }
      st := ApplyInOrder(ids, order);
    }

    method ResolveSnapshots(env: Env, ids: seq<string>) returns (r: Option<State>)
      ensures r == StateAfter(env, View(), ids)
    {
      if |ids| == 1 {
        return if ids[0] in snapshots then Some(snapshots[ids[0]]) else None;
      }
      var cands := [];
      for i := 0 to |ids|
        invariant forall j | 0 <= j < i :: ids[j] in snapshots
        invariant Elems(cands) == Candidates(View(), ids[..i])
      {
        if ids[i] !in snapshots {
          return None;
        }
        var listed := ValuesOf(snapshots[ids[i]]);
        assert ids[..i + 1] == ids[..i] + [ids[i]];
        assert Candidates(View(), ids[..i + 1]) == Candidates(View(), ids[..i]) + snapshots[ids[i]].Values;
        cands := cands + listed;
      }
      assert ids[..|ids|] == ids;
      var st := ResolveOverCandidates(env, cands);
      return Some(st);
    }

    /** CheckStateDAGEvent. */
    method CheckEvent(env: Env, ev: Event) returns (v: Verdict)
      ensures v == Check(env, View(), ev)
    {
      if !ev.hasPrevState {
        return Reject;
      }
      if ev.IsCreate() {
        if |ev.prevState| > 0 || |ev.prevEvents| > 0 {
          return Reject;
        }
        return if env.authorize(ev, map[], false) then Accept else Reject;
      }
      if |ev.prevState| == 0 || |ev.prevState| > MAX_PREV_STATE_EVENTS {
        return Reject;
      }
      for i := 0 to |ev.prevState|
        invariant CheckPrevs(View(), ev, ev.prevState) == CheckPrevs(View(), ev, ev.prevState[i..])
      {
        var p := ev.prevState[i];
        assert ev.prevState[i..][1..] == ev.prevState[i + 1..];
        if p !in rows {
          return Missing;
        }
        if rows[p].ev.room != ev.roomId || rows[p].ev.stateKey.Absent? || p in rejected {
          return Reject;
        }
      }
      var before := ResolveSnapshots(env, ev.prevState);
      if before.None? {
        return Reject;
      }
      var view := AuthView(View(), before.value, ev);
      if view.None? {
        return Reject;
      }
      return if env.authorize(ev, view.value, OnlyPrevIsCreate(View(), ev)) then Accept else Reject;
    }

    method CalculatedAuthEvents(env: Env, before: State, ev: Event) returns (out: seq<string>)
      ensures out == Selected(before, Selection(env, ev))
    {
      var keys := Selection(env, ev);
      out := [];
      for i := 0 to |keys|
        invariant out == Selected(before, keys[..i])
      {
        assert keys[..i + 1][..i] == keys[..i];
        if keys[i] in before && before[keys[i]] !in out {
          out := out + [before[keys[i]]];
        }
      }
      assert keys[..|keys|] == keys;
    }

    method RecomputeCurrentState(env: Env, room: string)
      modifies this`roomState
      ensures View() == Recompute(env, old(View()), room)
    {
      var ids := HeadIds(View(), room);
      if ids == {} {
        return;
      }
      var list := ListOf(ids);
      LessIsTotal(Elems(list));
      var hs := Sort(ByBytes(), list);
      assert Elems(list) == ids;
      var st := ResolveSnapshots(env, hs);
      if st.Some? {
        roomState := roomState[room := st.value];
      }
    }

    /** maintainStateDAGTx; ok is false when the snapshots could not be loaded. */
    method MaintainEvent(env: Env, ev: Event) returns (ok: bool)
      modifies this
      ensures ok == StateBefore(env, old(View()), ev).Some?
      ensures !ok ==> View() == old(View())
      ensures ok ==>
        View() == Recompute(env, Advance(env, old(View()), StateBefore(env, old(View()), ev).value, ev), ev.room)
    {
      var before: State := map[];
      if |ev.prevState| > 0 {
        var r := ResolveSnapshots(env, ev.prevState);
        if r.None? {
          return false;
        }
        before := r.value;
      }
      var authIds := CalculatedAuthEvents(env, before, ev);
      auth := auth[ev.id := authIds];
      snapshots := snapshots[ev.id := WithOwnTuple(before, ev)];
      edges := edges + EdgesFor(ev);
      heads := AdvancedHeads(heads, edges, ev);
      assert View() == Advance(env, old(View()), before, ev);
      RecomputeCurrentState(env, ev.room);
      return true;
    }

    /** applyStateDAGEvents, one event. */
    method Receive(env: Env, ev: Event)
      modifies this
      ensures View() == Deliver(env, old(View()), ev)
    {
      if !ev.Deliverable() || ev.id in rows {
        return;
      }
      var v := CheckEvent(env, ev);
      if v == Missing {
        return;
      }
      rows := rows[ev.id := Row(ev, |rows|)];
      assert View() == Persist(old(View()), ev);
      if v == Reject {
        rejected := rejected + {ev.id};
        return;
      }
      var ok := MaintainEvent(env, ev);
      if !ok {
        rejected := rejected + {ev.id};
      }
    }
  }

  method ValuesOf(st: State) returns (list: seq<string>)
    ensures Elems(list) == st.Values
  {
    list := ListOf(st.Values);
  }
}
