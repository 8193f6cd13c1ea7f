/** The shape of the history a reachable store holds: ancestry, auth chains, single-parent
    chains, and the parents chosen for a new local event. */
module StateDagHistory {
  import opened Wrappers
  import opened Sorting
  import opened Lexical
  import opened StateRes
  import opened StateDag
  import opened StateDagInvariant

  // ---- ancestry ----

  lemma DirectParents(s: Store, id: string)
    requires TablesOk(s) && EventsOk(s) && s.Accepted(id)
    ensures s.rows[id].ev.prevState == [] <==> s.rows[id].ev.IsCreate()
    ensures |s.rows[id].ev.prevState| <= MAX_PREV_STATE_EVENTS
    ensures forall p | p in s.rows[id].ev.prevState ::
      && s.Accepted(p) && s.rows[p].ev.room == s.rows[id].ev.room && !s.rows[p].ev.stateKey.Absent?
      && s.rows[p].stream < s.rows[id].stream
  {
    hide SnapshotOk, AuthOk;
    assert EventOk(s, id);
    forall p | p in s.rows[id].ev.prevState ensures ParentOk(s, s.rows[id].ev, s.rows[id].stream, p) {
      assert !s.rows[id].ev.IsCreate();
    }
  }

  lemma ParentTowards(s: Store, n: nat, d: string, a: string) returns (p: string)
    requires AncestorWithin(s, n, d, a)
    ensures n > 0 && d in s.rows && p in s.rows[d].ev.prevState && (p == a || AncestorWithin(s, n - 1, p, a))
  {
    p :| p in s.rows[d].ev.prevState && (p == a || AncestorWithin(s, n - 1, p, a));
  }

  lemma {:induction false} AncestorWithinAccepted(s: Store, n: nat, d: string, a: string)
    requires TablesOk(s) && EventsOk(s) && s.Accepted(d) && AncestorWithin(s, n, d, a)
    ensures s.Accepted(a) && s.rows[a].ev.room == s.rows[d].ev.room && !s.rows[a].ev.stateKey.Absent?
    ensures s.rows[a].stream < s.rows[d].stream
    decreases n
  {
    hide TablesOk, EventsOk;
    var p := ParentTowards(s, n, d, a);
    hide AncestorWithin;
    DirectParents(s, d);
    if p != a { AncestorWithinAccepted(s, n - 1, p, a); }
  }

  /** Everything an accepted event descends from is an accepted state event of its room, stored
      before it: rejection cascades, and no event is its own ancestor. */
  lemma AncestorsAccepted(s: Store, d: string, a: string)
    requires Inv(s) && s.Accepted(d) && Ancestor(s, d, a)
    ensures s.Accepted(a) && s.rows[a].ev.room == s.rows[d].ev.room && !s.rows[a].ev.stateKey.Absent?
    ensures s.rows[a].stream < s.rows[d].stream && a != d
  {
    hide TablesOk, EventsOk, EdgesOk, HeadsOk, RoomsOk, AncestorWithin;
    var n: nat :| AncestorWithin(s, n, d, a);
    AncestorWithinAccepted(s, n, d, a);
  }

  lemma RejectedHasNoAcceptedDescendant(env: Env, deliveries: seq<Event>, d: string, a: string)
    requires AuthRules(env)
    requires a in Run(env, EMPTY, deliveries).rejected && Ancestor(Run(env, EMPTY, deliveries), d, a)
    ensures !Run(env, EMPTY, deliveries).Accepted(d)
  {
    Reachable(env, deliveries);
    var s := Run(env, EMPTY, deliveries);
    if s.Accepted(d) { AncestorsAccepted(s, d, a); }
  }

  /** Each event of the path cites the next one as a parent. */
  ghost predicate ParentPath(s: Store, path: seq<string>) {
    && path != []
    && (forall i | 0 <= i < |path| :: path[i] in s.rows)
    && forall i | 0 <= i < |path| - 1 :: path[i + 1] in s.rows[path[i]].ev.prevState
  }

  lemma {:induction false} PathStep(s: Store, path: seq<string>, i: nat)
    requires Inv(s) && ParentPath(s, path) && s.Accepted(path[0]) && i < |path|
    ensures s.Accepted(path[i]) && s.rows[path[i]].ev.room == s.rows[path[0]].ev.room
    ensures s.rows[path[i]].stream + i <= s.rows[path[0]].stream
    decreases i
  {
    hide TablesOk, EventsOk, EdgesOk, HeadsOk, RoomsOk;
    if i > 0 {
      PathStep(s, path, i - 1);
      DirectParents(s, path[i - 1]);
      assert path[i - 1 + 1] in s.rows[path[i - 1]].ev.prevState;
    }
  }

  /** Every ancestry chain is finite, and one that cannot be extended ends at an m.room.create. */
  lemma ChainEndsAtCreate(s: Store, path: seq<string>)
    requires Inv(s) && ParentPath(s, path) && s.Accepted(path[0])
    ensures |path| <= s.rows[path[0]].stream + 1
    ensures var last := s.rows[path[|path| - 1]].ev; last.prevState == [] <==> last.IsCreate()
  {
    hide TablesOk, EventsOk, EdgesOk, HeadsOk, RoomsOk;
    PathStep(s, path, |path| - 1);
    DirectParents(s, path[|path| - 1]);
  }

  /** From every accepted event some chain does reach an m.room.create. */
  lemma {:induction false} ReachesCreate(s: Store, id: string) returns (path: seq<string>)
    requires s.Accepted(id)
    requires Inv(s)
    ensures path != [] && path[0] == id
    ensures path[|path| - 1] in s.rows && s.rows[path[|path| - 1]].ev.IsCreate()
    ensures ParentPath(s, path)
    decreases s.rows[id].stream
  {
    hide TablesOk, EventsOk, EdgesOk, HeadsOk, RoomsOk;
    DirectParents(s, id);
    if s.rows[id].ev.IsCreate() {
      path := [id];
    } else {
      var p := s.rows[id].ev.prevState[0];
      assert p in s.rows[id].ev.prevState;
      var rest := ReachesCreate(s, p);
      path := [id] + rest;
      forall i | 0 <= i < |path| - 1 ensures path[i + 1] in s.rows[path[i]].ev.prevState {
        if i > 0 { assert rest[i - 1 + 1] in s.rows[rest[i - 1]].ev.prevState; }
      }
    }
  }

  // ---- auth chains ----

  /** Each event of the path names the next one among its calculated auth events. */
  ghost predicate AuthPath(s: Store, path: seq<string>) {
    path != [] && forall i | 0 <= i < |path| - 1 :: path[i + 1] in CalculatedAuthOf(s, path[i])
  }

  lemma DirectAuth(s: Store, id: string)
    requires Inv(s) && s.Accepted(id)
    ensures forall a | a in CalculatedAuthOf(s, id) :: s.Accepted(a) && s.rows[a].stream < s.rows[id].stream
  {
    hide TablesOk, EdgesOk, HeadsOk, RoomsOk, SnapshotOk, Ancestor;
    assert EventOk(s, id);
    forall a | a in s.auth[id] ensures s.Accepted(a) && s.rows[a].stream < s.rows[id].stream {
      AncestorsAccepted(s, id, a);
    }
  }

  lemma {:induction false} AuthPathStep(s: Store, path: seq<string>, i: nat)
    requires Inv(s) && AuthPath(s, path) && s.Accepted(path[0]) && i < |path|
    ensures s.Accepted(path[i]) && s.rows[path[i]].stream + i <= s.rows[path[0]].stream
    decreases i
  {
    hide Inv;
    if i > 0 {
      AuthPathStep(s, path, i - 1);
      assert path[i - 1 + 1] in CalculatedAuthOf(s, path[i - 1]);
      DirectAuth(s, path[i - 1]);
    }
  }

  /** Following calculated auth edges never revisits an event, so every auth chain is finite. */
  lemma AuthChainsAcyclic(s: Store, path: seq<string>, i: nat, j: nat)
    requires AuthPath(s, path) && i < j < |path| && s.Accepted(path[0])
    requires Inv(s)
    ensures path[i] != path[j]
    ensures path[0] in s.rows && |path| <= s.rows[path[0]].stream + 1
  {
    hide Inv, CalculatedAuthOf;
    AuthPathStep(s, path, |path| - 1);
    AuthPathStep(s, path, i);
    var rest := path[i..];
    forall k | 0 <= k < |rest| - 1 ensures rest[k + 1] in CalculatedAuthOf(s, rest[k]) {
      assert rest[k + 1] == path[i + k + 1] && rest[k] == path[i + k];
    }
    AuthPathStep(s, rest, j - i);
  }

  /** The tuples the auth-event selection of the Server-Server API names for an event. */
  ghost predicate Selects(env: Env, ev: Event, k: Key) {
    ev.typ != "m.room.create" && match k.typ
      case "m.room.create" => k.stateKey == "" && !env.roomIdIsCreateHash
      case "m.room.power_levels" => k.stateKey == ""
      case "m.room.join_rules" => k.stateKey == "" && MembershipOf(ev) in {"join", "invite", "knock"}
      case "m.room.third_party_invite" => MemberOf(ev).Some? && k.stateKey == MemberOf(ev).value.token != ""
      case "m.room.member" =>
        || k.stateKey == ev.sender
        || (ev.typ == "m.room.member" && k.stateKey == ev.Sk())
        || (MemberOf(ev).Some? && k.stateKey == MemberOf(ev).value.authorisedVia != "")
      case _ => false
  }

  function MemberOf(ev: Event): Option<Member> {
    if ev.typ == "m.room.member" then ev.member else None
  }

  function MembershipOf(ev: Event): string {
    if MemberOf(ev).Some? then MemberOf(ev).value.membership else ""
  }

  lemma SelectionExactly(env: Env, ev: Event, k: Key)
    ensures k in Selection(env, ev) <==> Selects(env, ev, k)
  {
    if ev.typ != "m.room.create" {
      SelectedTuples(env, ev, k);
      MemberTuples(ev, k);
      hide Selection;
    }
  }

  /** The tuples named for every event, and those named for a membership event. */
  predicate AlwaysSelects(env: Env, ev: Event, k: Key) {
    || (k == CREATE_KEY && !env.roomIdIsCreateHash)
    || k == Key("m.room.power_levels", "") || k == Key("m.room.member", ev.sender)
  }

  function MemberSelection(ev: Event): seq<Key> {
    if ev.typ != "m.room.member" then [] else
      [Key("m.room.member", ev.Sk())]
      + (if ev.member.None? then [] else
           (if ev.member.value.membership in {"join", "invite", "knock"} then [Key("m.room.join_rules", "")] else [])
           + (if ev.member.value.authorisedVia != "" then [Key("m.room.member", ev.member.value.authorisedVia)] else [])
           + (if ev.member.value.token != "" then [Key("m.room.third_party_invite", ev.member.value.token)] else []))
  }

  lemma SelectedTuples(env: Env, ev: Event, k: Key)
    requires ev.typ != "m.room.create"
    ensures k in Selection(env, ev) <==> AlwaysSelects(env, ev, k) || k in MemberSelection(ev)
  {
    var a := if env.roomIdIsCreateHash then [] else [CREATE_KEY];
    var b := [Key("m.room.power_levels", ""), Key("m.room.member", ev.sender)];
    assert Selection(env, ev) == a + b + MemberSelection(ev);
    hide Selection, MemberSelection;
  }

  lemma MemberTuples(ev: Event, k: Key)
    ensures k in MemberSelection(ev) <==>
      || (ev.typ == "m.room.member" && k == Key("m.room.member", ev.Sk()))
      || (k == Key("m.room.join_rules", "") && MembershipOf(ev) in {"join", "invite", "knock"})
      || (MemberOf(ev).Some? && k == Key("m.room.member", MemberOf(ev).value.authorisedVia)
          && MemberOf(ev).value.authorisedVia != "")
      || (MemberOf(ev).Some? && k == Key("m.room.third_party_invite", MemberOf(ev).value.token)
          && MemberOf(ev).value.token != "")
  {
  }

  /** Of the tuples the auth rules read, these are not selected. */
  predicate Unrecorded(env: Env, ev: Event, k: Key) {
    || k == Key("m.room.guest_access", "")
    || (k == Key("m.room.join_rules", "") && MembershipOf(ev) !in {"join", "invite", "knock"})
    || (k == CREATE_KEY && env.roomIdIsCreateHash)
  }

  lemma ReadButNotSelected(env: Env, ev: Event, k: Key)
    requires ev.typ != "m.room.create"
    ensures k in AuthKeys(ev) && !Selects(env, ev, k) <==> Unrecorded(env, ev, k)
  {
  }

  lemma OneKeyEach(s: Store, room: string, before: State, k: Key, x: Key)
    requires k in before && x in before && before[x] == before[k]
    requires forall y | y in before :: EntryOk(s, room, y, before[y])
    ensures x == k
  {
    assert EntryOk(s, room, x, before[x]) && EntryOk(s, room, k, before[k]);
  }

  /** Each event of the state before stands in the calculated auth events exactly when its tuple is
      selected; so of what the auth rules read, only the guest access, the join rules of an event that
      is no join, invite or knock, and the create that is the room id stay out. */
  lemma AuthRulesRecorded(env: Env, s: Store, room: string, before: State, ev: Event, k: Key)
    requires ev.typ != "m.room.create" && k in before
    requires forall x | x in before :: EntryOk(s, room, x, before[x])
    ensures before[k] in Selected(before, Selection(env, ev)) <==> Selects(env, ev, k)
    ensures k in AuthKeys(ev) && before[k] !in Selected(before, Selection(env, ev)) <==> Unrecorded(env, ev, k)
  {
    hide *;
    SelectedOk(before, Selection(env, ev));
    SelectionExactly(env, ev, k);
    ReadButNotSelected(env, ev, k);
    forall x | x in Selection(env, ev) && x in before && before[x] == before[k] ensures x == k {
      OneKeyEach(s, room, before, k, x);
    }
  }

  /** id is reached along auth paths from one of the seeds. */
  ghost predicate AuthReaches(s: Store, seed: seq<string>, id: string) {
    exists path :: AuthPath(s, path) && path[0] in seed && path[|path| - 1] == id
  }

  lemma ReachesOn(s: Store, seed: seq<string>, id: string, next: string)
    requires AuthReaches(s, seed, id) && next in CalculatedAuthOf(s, id)
    ensures AuthReaches(s, seed, next)
  {
    var path :| AuthPath(s, path) && path[0] in seed && path[|path| - 1] == id;
    var longer := path + [next];
    hide CalculatedAuthOf;
    forall i | 0 <= i < |longer| - 1 ensures longer[i + 1] in CalculatedAuthOf(s, longer[i]) {
      if i < |path| - 1 { assert path[i + 1] in CalculatedAuthOf(s, path[i]); }
    }
    assert AuthPath(s, longer) && longer[0] in seed && longer[|longer| - 1] == next;
  }

  /** A set that holds the seeds and is closed under auth edges holds all they reach. */
  lemma {:induction false} ClosedHoldsReached(s: Store, visited: set<string>, path: seq<string>)
    requires AuthPath(s, path) && path[0] in visited
    requires forall x, y | x in visited && y in CalculatedAuthOf(s, x) :: y in visited
    ensures path[|path| - 1] in visited
    decreases |path|
  {
    hide CalculatedAuthOf;
    if |path| > 1 {
      var init := path[..|path| - 1];
      forall k | 0 <= k < |init| - 1 ensures init[k + 1] in CalculatedAuthOf(s, init[k]) {
        assert path[k + 1] in CalculatedAuthOf(s, path[k]);
      }
      ClosedHoldsReached(s, visited, init);
      assert path[|path| - 2 + 1] in CalculatedAuthOf(s, path[|path| - 2]);
    }
  }

  /** Every id a seed or a calculated auth list names. */
  ghost function Named(s: Store, seed: seq<string>): set<string> {
    (set id | id in seed) + (set id, a | id in s.auth && a in s.auth[id] :: a)
  }

  /** What the walk keeps: the stack holds every frontier id, and nothing unreached is taken up. */
  ghost predicate Walking(s: Store, seed: seq<string>, visited: set<string>, stack: seq<string>) {
    && (forall id | id in visited || id in stack :: AuthReaches(s, seed, id) && id in Named(s, seed))
    && (forall id | id in seed :: id in visited || id in stack)
    && (forall x, y | x in visited && y in CalculatedAuthOf(s, x) :: y in visited || y in stack)
  }

  lemma WalkStarts(s: Store, seed: seq<string>)
    ensures Walking(s, seed, {}, seed)
  {
    forall id | id in seed ensures AuthReaches(s, seed, id) {
      assert AuthPath(s, [id]) && [id][0] in seed && [id][|[id]| - 1] == id;
    }
  }

  lemma WalkExpands(s: Store, seed: seq<string>, visited: set<string>, stack: seq<string>, pushed: seq<string>)
    requires stack != [] && Walking(s, seed, visited, stack)
    requires var id, rest := stack[|stack| - 1], stack[..|stack| - 1];
      forall x :: x in pushed <==> x in rest || (x in CalculatedAuthOf(s, id) && x !in visited + {id})
    ensures Walking(s, seed, visited + {stack[|stack| - 1]}, pushed)
  {
    var id, rest := stack[|stack| - 1], stack[..|stack| - 1];
    assert forall x :: x in stack <==> x in rest || x == id;
    hide AuthReaches, CalculatedAuthOf;
    forall a | a in CalculatedAuthOf(s, id) ensures AuthReaches(s, seed, a) && a in Named(s, seed) {
      ReachesOn(s, seed, id, a);
      NamedBy(s, seed, id, a);
    }
  }

  lemma NamedBy(s: Store, seed: seq<string>, id: string, a: string)
    requires a in CalculatedAuthOf(s, id)
    ensures a in Named(s, seed)
  {
  }

  lemma WalkSkips(s: Store, seed: seq<string>, visited: set<string>, stack: seq<string>)
    requires stack != [] && Walking(s, seed, visited, stack) && stack[|stack| - 1] in visited
    ensures Walking(s, seed, visited, stack[..|stack| - 1])
  {
    hide AuthReaches, CalculatedAuthOf, Named;
    assert forall x :: x in stack <==> x in stack[..|stack| - 1] || x == stack[|stack| - 1];
  }

  lemma WalkEnds(s: Store, seed: seq<string>, visited: set<string>)
    requires Walking(s, seed, visited, [])
    ensures forall id :: id in visited <==> AuthReaches(s, seed, id)
  {
    hide CalculatedAuthOf, Named;
    forall id | AuthReaches(s, seed, id) ensures id in visited {
      var path :| AuthPath(s, path) && path[0] in seed && path[|path| - 1] == id;
      ClosedHoldsReached(s, visited, path);
    }
  }

  /** walkAuthChain: depth first with a visited set. It stops on any table, cyclic or not. */
  method WalkAuthChain(s: Store, seed: seq<string>) returns (visited: set<string>)
    ensures forall id :: id in visited <==> AuthReaches(s, seed, id)
  {
    hide AuthReaches, CalculatedAuthOf, Named;
    visited := {};
    var stack := seed;
    WalkStarts(s, seed);
    while |stack| > 0
      invariant Walking(s, seed, visited, stack)
      decreases Named(s, seed) - visited, |stack|
    {
      var id := stack[|stack| - 1];
      var rest := stack[..|stack| - 1];
      assert id in stack && id in Named(s, seed);
      if id in visited {
        WalkSkips(s, seed, visited, stack);
        stack := rest;
      } else {
        var pushed := PushUnvisited(rest, CalculatedAuthOf(s, id), visited + {id});
        WalkExpands(s, seed, visited, stack, pushed);
        visited, stack := visited + {id}, pushed;
      }
    }
    WalkEnds(s, seed, visited);
  }

  method PushUnvisited(stack: seq<string>, found: seq<string>, visited: set<string>) returns (out: seq<string>)
    ensures forall id :: id in out <==> id in stack || (id in found && id !in visited)
  {
    out := stack;
    for i := 0 to |found|
      invariant forall id :: id in out <==> id in stack || (id in found[..i] && id !in visited)
    {
      if found[i] !in visited { out := out + [found[i]]; }
      assert found[..i + 1] == found[..i] + [found[i]];
    }
    assert found[..|found|] == found;
  }

  ghost function Streams(s: Store): map<string, nat> {
    map id | id in s.rows :: s.rows[id].stream
  }

  lemma CitesWhat(env: Env, s: Store, id: string, ref: string)
    requires s.Accepted(id)
    ensures MetaOf(env, s, id).Cites(ref) <==> ref in CalculatedAuthOf(s, id) || ref in s.rows[id].ev.prevState
  {
  }

  lemma CitedIsOlder(env: Env, s: Store, id: string, ref: string)
    requires s.Accepted(id)
    requires Inv(s) && MetaOf(env, s, id).Cites(ref)
    ensures s.Accepted(ref) && s.rows[ref].stream < s.rows[id].stream
  {
    hide *;
    CitesWhat(env, s, id, ref);
    InvParts(s);
    DirectAuth(s, id);
    DirectParents(s, id);
  }

  /** In a reachable store the events that resolution orders cite each other without a cycle: the power
      events come out in topological order, and an event that a later one of its key cites never wins. */
  lemma ResolutionAcyclic(env: Env, s: Store, cands: set<string>)
    requires Inv(s) && forall id | id in cands :: s.Accepted(id)
    ensures Acyclic(PowerOf(Metas(env, s, cands)), Streams(s))
    ensures Topological(KahnOrder(PowerOf(Metas(env, s, cands))))
  {
    var power := PowerOf(Metas(env, s, cands));
    hide Inv, MetaOf, KahnOrder;
    forall e | e in power ensures e.id in cands && s.Accepted(e.id) && e == MetaOf(env, s, e.id) && e.id in Streams(s) {
      MetaKnown(env, s, cands, e);
    }
    forall e, f | e in power && f in power && e.Cites(f.id) ensures Streams(s)[f.id] < Streams(s)[e.id] {
      CitedIsOlder(env, s, e.id, f.id);
    }
    hide Metas, PowerOf;
    KahnTopological(power, Streams(s));
  }

  lemma MetaKnown(env: Env, s: Store, cands: set<string>, e: Meta)
    requires e in Metas(env, s, cands)
    ensures e.id in cands && e.id in s.rows && e == MetaOf(env, s, e.id)
  {
    var id :| id in cands && id in s.rows && e == MetaOf(env, s, id);
  }

  // ---- single-parent chains: last writer wins ----

  /** Events with at most one parent hold their parent's snapshot plus their own tuple. */
  ghost predicate LinearOk(s: Store) {
    forall id | s.Accepted(id) && |s.rows[id].ev.prevState| <= 1 :: LinearAt(s, id)
  }

  ghost predicate LinearAt(s: Store, id: string) {
    && id in s.rows && id in s.snapshots && |s.rows[id].ev.prevState| <= 1
    && var ev := s.rows[id].ev;
       if ev.prevState == [] then s.snapshots[id] == WithOwnTuple(map[], ev)
       else ev.prevState[0] in s.snapshots && s.snapshots[id] == WithOwnTuple(s.snapshots[ev.prevState[0]], ev)
  }

  lemma LinearAtGrows(s: Store, t: Store, id: string)
    requires Grows(s, t) && LinearAt(s, id)
    ensures LinearAt(t, id)
  {
  }

  lemma RecomputeKeeps(env: Env, u: Store, room: string)
    ensures var w := Recompute(env, u, room); w == u.(roomState := w.roomState)
  {
    hide StateAfter, HeadIds, HeadList;
  }

  lemma LinearNew(env: Env, s: Store, ev: Event)
    requires TablesOk(s) && ev.id !in s.rows && |ev.prevState| <= 1 && StateBefore(env, Persist(s, ev), ev).Some?
    ensures LinearAt(AcceptEvent(env, s, ev), ev.id)
  {
    var t := Persist(s, ev);
    var before := StateBefore(env, t, ev).value;
    RecomputeKeeps(env, Advance(env, t, before, ev), ev.room);
    OnlyParentBefore(env, s, ev);
    hide Recompute, StateBefore, StateAfter, Selected, Selection, AdvancedHeads;
    if ev.prevState != [] { assert s.Accepted(ev.prevState[0]); }
  }

  /** The state before an event with one parent is the snapshot behind that. */
  lemma OnlyParentBefore(env: Env, s: Store, ev: Event)
    requires |ev.prevState| <= 1 && StateBefore(env, Persist(s, ev), ev).Some?
    ensures ev.prevState == [] ==> StateBefore(env, Persist(s, ev), ev).value == map[]
    ensures ev.prevState != [] ==>
      ev.prevState[0] in s.snapshots && StateBefore(env, Persist(s, ev), ev).value == s.snapshots[ev.prevState[0]]
  {
    hide Resolve, Metas, Candidates;
  }

  lemma LinearDeliver(env: Env, s: Store, ev: Event)
    requires Inv(s) && AuthRules(env) && LinearOk(s)
    ensures LinearOk(Deliver(env, s, ev))
  {
    var t := Deliver(env, s, ev);
    hide AuthRules, Check, Grows, WithOwnTuple, TablesOk, EventsOk, EdgesOk, HeadsOk, RoomsOk, LinearAt, StateBefore,
      AcceptEvent, BeforeEntries;
    InvDeliver(env, s, ev);
    if ev.Deliverable() && ev.id !in s.rows && Check(env, s, ev) == Accept {
      BeforeOk(env, s, ev);
      AcceptedOnly(env, s, ev);
      hide Deliver, Inv;
      forall id | t.Accepted(id) && |t.rows[id].ev.prevState| <= 1 ensures LinearAt(t, id) {
        if id == ev.id { LinearNew(env, s, ev); } else { LinearAtGrows(s, t, id); }
      }
    } else {
      RejectedOnly(env, s, ev);
      hide Deliver, Inv;
      forall id | t.Accepted(id) && |t.rows[id].ev.prevState| <= 1 ensures LinearAt(t, id) {
        LinearAtGrows(s, t, id);
      }
    }
  }

  lemma AcceptedOnly(env: Env, s: Store, ev: Event)
    requires TablesOk(s) && ev.id !in s.rows && StateBefore(env, Persist(s, ev), ev).Some?
    ensures var w := AcceptEvent(env, s, ev);
      && ev.id in w.rows && w.rows[ev.id].ev == ev
      && forall id | w.Accepted(id) && id != ev.id :: s.Accepted(id) && w.rows[id] == s.rows[id]
  {
    hide StateAfter, Selected, Selection, WithOwnTuple, HeadIds, HeadList;
  }

  lemma RejectedOnly(env: Env, s: Store, ev: Event)
    requires TablesOk(s) && !(ev.Deliverable() && ev.id !in s.rows && Check(env, s, ev) == Accept)
    ensures var w := Deliver(env, s, ev); forall id | w.Accepted(id) :: s.Accepted(id) && w.rows[id] == s.rows[id]
  {
    hide Check;
  }

  lemma {:induction false} LinearReachable(env: Env, deliveries: seq<Event>)
    requires AuthRules(env)
    ensures LinearOk(Run(env, EMPTY, deliveries))
    decreases |deliveries|
  {
    if deliveries != [] {
      var init := deliveries[..|deliveries| - 1];
      LinearReachable(env, init);
      Reachable(env, init);
      hide Inv, LinearOk, Deliver;
      LinearDeliver(env, Run(env, EMPTY, init), deliveries[|deliveries| - 1]);
    }
  }

  /** A chain from a parentless event on, oldest first, each event with its predecessor as only parent. */
  ghost predicate SingleParentChain(s: Store, chain: seq<string>) {
    && (forall i | 0 <= i < |chain| :: s.Accepted(chain[i]))
    && (forall i | 0 < i < |chain| :: s.rows[chain[i]].ev.prevState == [chain[i - 1]])
    && (chain != [] ==> s.rows[chain[0]].ev.prevState == [])
  }

  /** i is the last position of the chain that writes key k. */
  ghost predicate LastWriter(s: Store, chain: seq<string>, k: Key, i: int) {
    && 0 <= i < |chain| && chain[i] in s.rows && Writes(s, chain[i], k)
    && forall j | i < j < |chain| :: !Writes(s, chain[j], k)
  }

  ghost predicate Writes(s: Store, id: string, k: Key) {
    id in s.rows && s.rows[id].ev.stateKey.Text? && s.rows[id].ev.StKey() == k
  }

  lemma ChainLinear(s: Store, chain: seq<string>, n: nat)
    requires TablesOk(s) && LinearOk(s) && SingleParentChain(s, chain) && n < |chain|
    ensures LinearAt(s, chain[n]) && s.rows[chain[n]].ev.id == chain[n]
  {
    assert s.Accepted(chain[n]);
    if n > 0 { assert s.rows[chain[n]].ev.prevState == [chain[n - 1]]; }
    assert |s.rows[chain[n]].ev.prevState| <= 1;
  }

  lemma ChainInit(s: Store, chain: seq<string>)
    requires SingleParentChain(s, chain) && |chain| > 1
    ensures SingleParentChain(s, chain[..|chain| - 1]) && chain[..|chain| - 1][|chain| - 2] == chain[|chain| - 2]
    ensures s.Accepted(chain[|chain| - 1]) && s.rows[chain[|chain| - 1]].ev.prevState == [chain[|chain| - 2]]
  {
  }

  /** What the snapshot of the chain's last event says of k is what its last writer of k says. */
  ghost predicate ByLastWriter(s: Store, chain: seq<string>, k: Key)
    requires chain != []
  {
    chain[|chain| - 1] in s.snapshots
    && var snapshot := s.snapshots[chain[|chain| - 1]];
       (k in snapshot <==> exists i :: LastWriter(s, chain, k, i))
       && forall i | LastWriter(s, chain, k, i) :: k in snapshot && snapshot[k] == chain[i]
  }

  lemma FirstWrites(s: Store, chain: seq<string>, k: Key)
    requires |chain| == 1 && SingleParentChain(s, chain) && LinearAt(s, chain[0]) && s.rows[chain[0]].ev.id == chain[0]
    ensures ByLastWriter(s, chain, k)
  {
    if Writes(s, chain[0], k) { assert LastWriter(s, chain, k, 0); }
  }

  lemma LastWriterShift(s: Store, chain: seq<string>, k: Key, i: int)
    requires |chain| > 1 && !Writes(s, chain[|chain| - 1], k)
    ensures LastWriter(s, chain, k, i) <==> LastWriter(s, chain[..|chain| - 1], k, i)
  {
    hide Writes;
    var init := chain[..|chain| - 1];
    assert forall j | 0 <= j < |init| :: init[j] == chain[j];
  }

  lemma NextWrites(s: Store, chain: seq<string>, k: Key)
    requires |chain| > 1 && LinearAt(s, chain[|chain| - 1]) && s.rows[chain[|chain| - 1]].ev.id == chain[|chain| - 1]
    requires s.rows[chain[|chain| - 1]].ev.prevState == [chain[|chain| - 2]]
    requires chain[..|chain| - 1][|chain| - 2] == chain[|chain| - 2] && ByLastWriter(s, chain[..|chain| - 1], k)
    ensures ByLastWriter(s, chain, k)
  {
    var n := |chain| - 1;
    if Writes(s, chain[n], k) {
      hide LinearOk, SingleParentChain;
      assert LastWriter(s, chain, k, n);
    } else {
      forall i ensures LastWriter(s, chain, k, i) <==> LastWriter(s, chain[..n], k, i) {
        LastWriterShift(s, chain, k, i);
      }
      hide LastWriter;
    }
  }

  /** On a single-parent chain the snapshot is last-writer-wins over the chain. */
  lemma {:induction false} LastWriterWins(s: Store, chain: seq<string>, k: Key)
    requires TablesOk(s) && LinearOk(s) && SingleParentChain(s, chain) && chain != []
    ensures ByLastWriter(s, chain, k)
    decreases |chain|
  {
    hide *;
    var n := |chain| - 1;
    ChainLinear(s, chain, n);
    if n == 0 {
      FirstWrites(s, chain, k);
    } else {
      ChainInit(s, chain);
      LastWriterWins(s, chain[..n], k);
      NextWrites(s, chain, k);
    }
  }

  /** In every run: the snapshot after a single-parent chain maps each key to the last event of the chain
      that wrote it, and has no other key. */
  lemma LastWriterOnRuns(env: Env, deliveries: seq<Event>, chain: seq<string>, k: Key)
    requires AuthRules(env) && chain != [] && SingleParentChain(Run(env, EMPTY, deliveries), chain)
    ensures ByLastWriter(Run(env, EMPTY, deliveries), chain, k)
  {
    hide *;
    Reachable(env, deliveries);
    InvParts(Run(env, EMPTY, deliveries));
    LinearReachable(env, deliveries);
    LastWriterWins(Run(env, EMPTY, deliveries), chain, k);
  }

  // ---- the parents of a new local event ----

  function ServerOf(userId: string): string {
    if userId == "" then "" else if userId[0] == ':' then userId[1..] else ServerOf(userId[1..])
  }

  /** The first colon of the user id stands at i. */
  ghost predicate ColonAt(userId: string, i: int) {
    0 <= i < |userId| && userId[i] == ':' && forall k | 0 <= k < i :: userId[k] != ':'
  }

  /** The server of a user id is what follows its first colon, "" without one. */
  lemma {:induction false} ServerExactly(userId: string)
    ensures forall i | ColonAt(userId, i) :: ServerOf(userId) == userId[i + 1..]
    ensures (forall i :: !ColonAt(userId, i)) ==> ServerOf(userId) == ""
    decreases |userId|
  {
    if userId != "" && userId[0] != ':' {
      ServerExactly(userId[1..]);
      forall i | ColonAt(userId, i) ensures ServerOf(userId) == userId[i + 1..] {
        assert ColonAt(userId[1..], i - 1) && userId[1..][i..] == userId[i + 1..];
      }
      if i :| ColonAt(userId[1..], i) { assert ColonAt(userId, i + 1); }
    } else if userId != "" {
      assert ColonAt(userId, 0);
    }
  }

  /** A membership change for somebody else whose server has no joined user in the room. */
  predicate AbsentTarget(joined: seq<string>, eventType: string, sender: string, stateKey: string) {
    && eventType == "m.room.member" && stateKey != "" && stateKey != sender
    && forall u | u in joined :: ServerOf(u) != ServerOf(stateKey)
  }

  /** The membership row an absent target's new event cites beside the heads. */
  predicate CitesMembership(s: Store, room: string, joined: seq<string>, eventType: string, sender: string,
      stateKey: string) {
    && AbsentTarget(joined, eventType, sender, stateKey)
    && room in s.roomState && Key("m.room.member", stateKey) in s.roomState[room]
    && s.roomState[room][Key("m.room.member", stateKey)] != ""
  }

  /** The heads, and the absent target's membership unless it is one of them; at most 20 with it. */
  function Chosen(s: Store, heads: seq<string>, room: string, joined: seq<string>, eventType: string, sender: string,
      stateKey: string): seq<string> {
    var member := Key("m.room.member", stateKey);
    if CitesMembership(s, room, joined, eventType, sender, stateKey) && s.roomState[room][member] !in heads
    then (if |heads| >= MAX_PREV_STATE_EVENTS then heads[..MAX_PREV_STATE_EVENTS - 1] else heads)
      + [s.roomState[room][member]]
    else heads
  }

  /** PrevStateEventsForNew, over the head list and the joined users the store returns. */
  method PrevStateEventsForNew(s: Store, heads: seq<string>, room: string, joined: seq<string>, eventType: string,
      sender: string, stateKey: string)
    returns (out: seq<string>)
    ensures out == Chosen(s, heads, room, joined, eventType, sender, stateKey)
  {
    if eventType != "m.room.member" || stateKey == "" || stateKey == sender {
      return heads;
    }
    var targetServer := ServerOf(stateKey);
    for i := 0 to |joined|
      invariant forall u | u in joined[..i] :: ServerOf(u) != targetServer
    {
      if ServerOf(joined[i]) == targetServer {
        return heads;
      }
      assert joined[..i + 1] == joined[..i] + [joined[i]];
    }
    assert joined[..|joined|] == joined;
    if room !in s.roomState || Key("m.room.member", stateKey) !in s.roomState[room]
      || s.roomState[room][Key("m.room.member", stateKey)] == "" {
      return heads;
    }
    var memberId := s.roomState[room][Key("m.room.member", stateKey)];
    for i := 0 to |heads|
      invariant memberId !in heads[..i]
    {
      if heads[i] == memberId {
        return heads;
      }
      assert heads[..i + 1] == heads[..i] + [heads[i]];
    }
    assert heads[..|heads|] == heads;
    out := heads;
    if |out| >= MAX_PREV_STATE_EVENTS {
      out := out[..MAX_PREV_STATE_EVENTS - 1];
    }
    out := out + [memberId];
  }

  /** The choice over the room's own head list. */
  ghost function NewParentsOf(s: Store, room: string, joined: seq<string>, eventType: string, sender: string,
      stateKey: string): seq<string> {
    Chosen(s, HeadList(s, room), room, joined, eventType, sender, stateKey)
  }

  lemma HeadListDistinct(s: Store, room: string)
    ensures forall i, j | 0 <= i < j < |HeadList(s, room)| :: HeadList(s, room)[i] != HeadList(s, room)[j]
  {
    LessIsTotal(HeadIds(s, room));
    SortSetAscending(ByBytes(), HeadIds(s, room));
    forall i, j | 0 <= i < j < |HeadList(s, room)| ensures HeadList(s, room)[i] != HeadList(s, room)[j] {
      assert Less(HeadList(s, room)[i], HeadList(s, room)[j]);
      Irreflexive(HeadList(s, room)[i]);
    }
  }

  ghost predicate StateEventOf(s: Store, room: string, id: string) {
    s.Accepted(id) && s.rows[id].ev.room == room && s.rows[id].ev.stateKey.Text?
  }

  /** The parents chosen for a new event: duplicate-free accepted state events of the room, the
      target's membership among them when its server is absent, and one at least. */
  lemma NewParentsGood(s: Store, room: string, joined: seq<string>, eventType: string, sender: string, stateKey: string)
    requires Inv(s) && room in s.roomState
    ensures var out := NewParentsOf(s, room, joined, eventType, sender, stateKey);
      && out != []
      && (forall i, j | 0 <= i < j < |out| :: out[i] != out[j])
      && (forall id | id in out :: StateEventOf(s, room, id))
      && (CitesMembership(s, room, joined, eventType, sender, stateKey)
        ==> s.roomState[room][Key("m.room.member", stateKey)] in out)
  {
    hide TablesOk, EventsOk, EdgesOk, HeadsOk, HeadIds, HeadList;
    var out := NewParentsOf(s, room, joined, eventType, sender, stateKey);
    RoomOkOf(s, room);
    assert EntryOk(s, room, CREATE_KEY, s.roomState[room][CREATE_KEY]);
    RoomHasHeads(Env(false, (e, v, b) => false, (e, a, c) => 0), s, room, s.roomState[room][CREATE_KEY]);
    HeadListDistinct(s, room);
    HeadsAreState(s, room);
    if CitesMembership(s, room, joined, eventType, sender, stateKey) {
      var member := Key("m.room.member", stateKey);
      assert EntryOk(s, room, member, s.roomState[room][member]);
    }
  }

  lemma RoomOkOf(s: Store, room: string)
    requires RoomsOk(s) && room in s.roomState
    ensures RoomOk(s, room)
  {
  }

  lemma HeadsAreState(s: Store, room: string)
    requires HeadsOk(s)
    ensures forall id | id in HeadList(s, room) :: StateEventOf(s, room, id)
  {
    forall id | id in HeadList(s, room) ensures StateEventOf(s, room, id) {
      var h :| h in s.heads && h.room == room && h.id == id;
      assert IsHead(s, h);
    }
  }

  lemma {:induction false} GoodParentsPass(s: Store, ev: Event, prevs: seq<string>)
    requires forall id | id in prevs :: StateEventOf(s, ev.roomId, id)
    ensures CheckPrevs(s, ev, prevs) == Accept
    decreases |prevs|
  {
    if prevs != [] {
      assert prevs[0] in prevs;
      GoodParentsPass(s, ev, prevs[1..]);
    }
  }

  /** The checks of the event's shape and parents, all but the auth rules. */
  ghost predicate PassesStructure(s: Store, ev: Event) {
    && ev.hasPrevState && 1 <= |ev.prevState| <= MAX_PREV_STATE_EVENTS
    && CheckPrevs(s, ev, ev.prevState) == Accept
  }

  /** The choice is short enough exactly when the room has at most 20 heads, or the absent target's
      membership displaces the surplus. */
  lemma NewParentsLength(s: Store, room: string, joined: seq<string>, eventType: string, sender: string,
      stateKey: string)
    ensures |NewParentsOf(s, room, joined, eventType, sender, stateKey)| <= MAX_PREV_STATE_EVENTS <==>
      || |HeadList(s, room)| <= MAX_PREV_STATE_EVENTS
      || (&& CitesMembership(s, room, joined, eventType, sender, stateKey)
          && s.roomState[room][Key("m.room.member", stateKey)] !in HeadList(s, room))
  {
    hide HeadList;
  }

  /** A non-create event built on these parents passes every structural check exactly when the
      choice fits the limit; what is left to decide is the auth rules, against a state that resolves. */
  lemma NewEventPasses(env: Env, s: Store, joined: seq<string>, ev: Event)
    requires Inv(s) && ev.roomId in s.roomState && ev.hasPrevState && !ev.IsCreate()
    requires ev.prevState == NewParentsOf(s, ev.roomId, joined, ev.typ, ev.sender, ev.Sk())
    ensures PassesStructure(s, ev) <==> |ev.prevState| <= MAX_PREV_STATE_EVENTS
    ensures StateAfter(env, s, ev.prevState).Some?
    ensures PassesStructure(s, ev) ==>
      (Check(env, s, ev) == Accept <==>
            && AuthView(s, StateAfter(env, s, ev.prevState).value, ev).Some?
            && env.authorize(ev, AuthView(s, StateAfter(env, s, ev.prevState).value, ev).value,
              |ev.prevState| == 1 && ev.prevState[0] in s.rows
                && s.rows[ev.prevState[0]].ev.typ == "m.room.create"))
  {
    hide NewParentsOf, CitesMembership, TablesOk, EventsOk, EdgesOk, HeadsOk, RoomsOk, StateAfter, CheckPrevs, AuthView,
      Snapshotted, StateEventOf, EntryOk;
    NewParentsGood(s, ev.roomId, joined, ev.typ, ev.sender, ev.Sk());
    GoodParentsPass(s, ev, ev.prevState);
    CheckedSnapshots(s, ev);
    StateAfterOk(env, s, ev.roomId, ev.prevState);
  }

  /** An accepted state event that cites every head becomes the room's only head. */
  lemma MergesHeads(env: Env, s: Store, ev: Event)
    requires Inv(s) && AuthRules(env) && ev.id !in s.rows && ev.Deliverable() && ev.stateKey.Text?
    requires Check(env, s, ev) == Accept && forall id | id in HeadIds(s, ev.room) :: id in ev.prevState
    ensures HeadIds(Deliver(env, s, ev), ev.room) == {ev.id}
  {
    hide Check, TablesOk, EventsOk, EdgesOk, HeadsOk, RoomsOk, Grows, StateAfter, AuthRules, BeforeEntries, Recompute,
      Selected, Selection, WithOwnTuple;
    BeforeOk(env, s, ev);
    InvDeliver(env, s, ev);
    var before := StateBefore(env, Persist(s, ev), ev).value;
    var u := Advance(env, Persist(s, ev), before, ev);
    var w := Deliver(env, s, ev);
    RecomputeKeeps(env, u, ev.room);
    NewAcceptedIn(w, ev, env, s);
    LatestIsHead(w, ev.room, ev.id);
    assert w.heads == AdvancedHeads(s.heads, u.edges, ev);
    hide Deliver, Inv;
    OnlyNewHead(s, u.edges, w, ev);
  }

  lemma OnlyNewHead(s: Store, edges: set<Edge>, w: Store, ev: Event)
    requires w.heads == AdvancedHeads(s.heads, edges, ev) && ev.stateKey.Text?
    requires forall id | id in HeadIds(s, ev.room) :: id in ev.prevState
    ensures forall id | id in HeadIds(w, ev.room) :: id == ev.id
  {
    forall h | h in w.heads && h.room == ev.room ensures h.id == ev.id {
      if h in s.heads { assert h.id in HeadIds(s, ev.room); }
    }
  }

  lemma NewAcceptedIn(w: Store, ev: Event, env: Env, s: Store)
    requires Inv(s) && ev.id !in s.rows && ev.Deliverable() && Check(env, s, ev) == Accept
    requires StateBefore(env, Persist(s, ev), ev).Some? && w == Deliver(env, s, ev)
    ensures w.Accepted(ev.id) && w.rows[ev.id].ev == ev
  {
    hide Check, StateAfter, Selected, Selection, WithOwnTuple, HeadIds, HeadList, EventsOk, EdgesOk, HeadsOk, RoomsOk;
    RecomputeKeeps(env, Advance(env, Persist(s, ev), StateBefore(env, Persist(s, ev), ev).value, ev), ev.room);
  }
}
