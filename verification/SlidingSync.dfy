/** MSC4186 sliding sync (internal/csapi/sliding_sync.go, internal/csapi/ssconns.go): the
    per-connection state, one response, and the long poll around it. */
module SlidingSync {
  import opened Wrappers
  import opened EventStore

  const UNBOUNDED := 0x4000_0000

  // ---- the world a response is computed from ----

  datatype Kind = Join | Invite | Knock | Leave | Ban
  datatype Membership = Membership(kind: Kind, stream: int)

  /** events: a room's timeline as stream orderings, ascending. order: the user's rooms as listed,
      most recent first. */
  datatype World = World(
    maxStream: int, events: map<string, seq<int>>, members: map<string, Membership>, order: seq<string>)

  function EventsOf(w: World, room: string): seq<int> {
    if room in w.events then w.events[room] else []
  }

  // ---- requests and responses ----

  type Required = seq<(string, string)>
  datatype Sub = Sub(limit: Option<int>, required: Required)
  datatype ListReq = ListReq(ranges: seq<(int, int)>, limit: Option<int>, required: Required, isInvite: Option<bool>)

  /** Go ranges over the maps of a request in an unspecified order: subs and lists are in the order
      taken. */
  datatype Request = Request(subs: seq<(string, Sub)>, lists: seq<ListReq>)

  datatype RoomResp = RoomResp(kind: Kind, initial: bool, limited: bool, timeline: seq<int>, prevBatch: Option<int>,
    numLive: Option<int>)
  datatype Response = Response(pos: int, rooms: map<string, RoomResp>, listed: bool)

  datatype Config = Config(limit: int, required: Required)
  datatype Conn = Conn(delivered: map<string, Config>, subscribed: set<string>, window: set<string>)

  const NEW_CONN := Conn(map[], {}, {})

  function ConfigOf(limit: Option<int>, required: Required): Config {
    Config(if limit.Some? then limit.value else 1, required)
  }

  predicate SameRequired(a: Required, b: Required) {
    |a| == |b| && forall p | p in b :: p in a
  }

  /** The room was delivered with a smaller limit or another required state. */
  predicate NeedsRedelivery(conn: Conn, room: string, limit: Option<int>, required: Required) {
    room in conn.delivered
    && (ConfigOf(limit, required).limit > conn.delivered[room].limit
      || !SameRequired(required, conn.delivered[room].required))
  }

  // ---- one room ----

  function Limit(limit: Option<int>): nat {
    if limit.Some? && limit.value >= 0 then limit.value else 1
  }

  /** The initial window: the events among the limit+1 stream positions up to the room's latest
      event, all but the oldest when the window is full. */
  function InitialEvents(w: World, room: string, limit: nat): seq<int> {
    var evs := EventsOf(w, room);
    var roomMax := if evs == [] then w.maxStream else evs[|evs| - 1];
    var from := if roomMax - limit - 1 < 0 then 0 else roomMax - limit - 1;
    EventsForRoom(evs, from, roomMax, limit + 1)
  }

  function RoomResult(w: World, room: string, m: Membership, since: int, limit: Option<int>, force: bool): RoomResp {
    var isNew := since == 0 || m.stream > since || force;
    match m.kind
    case Join =>
      if isNew then
        var n := Limit(limit);
        var evs := InitialEvents(w, room, n);
        var shown := if |evs| > n then evs[|evs| - n..] else evs;
        RoomResp(Join, true, |evs| > n, shown, if shown == [] then None else Some(shown[0] - 1), None)
      else
        var evs := EventsForRoom(EventsOf(w, room), since, w.maxStream, UNBOUNDED);
        RoomResp(Join, false, false, evs, if evs == [] then None else Some(since),
          if since > 0 then Some(|evs|) else None)
    case Leave => RoomResp(Leave, true, false, [], None, None)
    case Ban => RoomResp(Ban, true, false, [], None, None)
    case kind => RoomResp(kind, isNew, false, [], None, None)
  }

  // ---- one response, as a function of the connection before it ----

  datatype Acc = Acc(conn: Conn, rooms: map<string, RoomResp>, window: set<string>)

  function SubStep(w: World, since: int, acc: Acc, room: string, sub: Sub): Acc {
    if room !in w.members then acc else
      var force := NeedsRedelivery(acc.conn, room, sub.limit, sub.required);
      var conn := acc.conn.(subscribed := acc.conn.subscribed + {room});
      acc.(conn := conn.(delivered := conn.delivered[room := ConfigOf(sub.limit, sub.required)]),
           rooms := acc.rooms[room := RoomResult(w, room, w.members[room], since, sub.limit, force)])
  }

  function Subs(w: World, since: int, acc: Acc, subs: seq<(string, Sub)>): Acc {
    if subs == [] then acc else
      SubStep(w, since, Subs(w, since, acc, subs[..|subs| - 1]), subs[|subs| - 1].0, subs[|subs| - 1].1)
  }

  /** The room at a position of a list's range. */
  function ListStep(w: World, since: int, prev: set<string>, acc: Acc, room: string, l: ListReq): Acc
    requires room in w.members
  {
    var seen := acc.(window := acc.window + {room});
    if room in acc.rooms then seen else
      var force := (since > 0 && room !in prev) || NeedsRedelivery(acc.conn, room, l.limit, l.required);
      seen.(conn := acc.conn.(delivered := acc.conn.delivered[room := ConfigOf(l.limit, l.required)]),
            rooms := acc.rooms[room := RoomResult(w, room, w.members[room], since, l.limit, force)])
  }

  predicate Listed(w: World, rooms: seq<string>) {
    forall r | r in rooms :: r in w.members
  }

  function Filtered(w: World, rooms: seq<string>, isInvite: Option<bool>): (r: seq<string>)
    requires Listed(w, rooms)
    ensures forall x | x in r :: x in rooms
  {
    if rooms == [] || isInvite.None? then rooms else
      var last := rooms[|rooms| - 1];
      var rest := Filtered(w, rooms[..|rooms| - 1], isInvite);
      assert last in rooms;
      if isInvite.value == (w.members[last].kind == Invite) then rest + [last] else rest
  }

  /** Positions start to end, both included. */
  function Span(w: World, since: int, prev: set<string>, acc: Acc, rooms: seq<string>, l: ListReq, start: int,
      end: int): Acc
    requires Listed(w, rooms) && 0 <= start && end < |rooms|
    decreases end - start
  {
    if end < start then acc else
      assert rooms[end] in rooms;
      ListStep(w, since, prev, Span(w, since, prev, acc, rooms, l, start, end - 1), rooms[end], l)
  }

  predicate RangesOk(l: ListReq) { forall g | g in l.ranges :: 0 <= g.0 }

  function ClampEnd(start: int, end: int, n: nat): int {
    var e := if end < start then start else end;
    if e >= n then n - 1 else e
  }

  function Ranges(w: World, since: int, prev: set<string>, acc: Acc, rooms: seq<string>, l: ListReq,
      ranges: seq<(int, int)>): Acc
    requires Listed(w, rooms) && forall g | g in ranges :: 0 <= g.0
    decreases |ranges|
  {
    if ranges == [] then acc else
      var g := ranges[|ranges| - 1];
      var before := Ranges(w, since, prev, acc, rooms, l, ranges[..|ranges| - 1]);
      assert g in ranges;
      if g.0 >= |rooms| then before
      else Span(w, since, prev, before, rooms, l, g.0, ClampEnd(g.0, g.1, |rooms|))
  }

  function Lists(w: World, since: int, prev: set<string>, acc: Acc, lists: seq<ListReq>): Acc
    requires Listed(w, w.order) && forall l | l in lists :: RangesOk(l)
    decreases |lists|
  {
    if lists == [] then acc else
      var l := lists[|lists| - 1];
      assert l in lists && RangesOk(l);
      Ranges(w, since, prev, Lists(w, since, prev, acc, lists[..|lists| - 1]), Filtered(w, w.order, l.isInvite), l,
        l.ranges)
  }

  /** What the server can compute from: a well-formed room list, and range starts that are indices. */
  predicate Answerable(w: World, req: Request) {
    Listed(w, w.order) && forall l | l in req.lists :: RangesOk(l)
  }

  function Build(w: World, since: int, req: Request, conn: Conn): (Response, Conn)
    requires Answerable(w, req)
  {
    var subs := Subs(w, since, Acc(conn, map[], {}), req.subs);
    if req.lists == [] then (Response(w.maxStream, subs.rooms, false), subs.conn)
    else
      var acc := Lists(w, since, subs.conn.window, subs, req.lists);
      (Response(w.maxStream, acc.rooms, true), acc.conn.(window := acc.window))
  }

  /** extensions: whether the extension part of the response carries data. */
  predicate HasData(resp: Response, extensions: bool) {
    resp.rooms != map[] || resp.listed || extensions
  }

  // ---- the program ----

  datatype ConnKey = ConnKey(user: string, connId: string)

  class ConnStore {
    var conns: map<ConnKey, Conn>

    constructor ()
      ensures conns == map[]
    {
      conns := map[];
    }

    /** The state of a connection; one nobody has used yet is empty. */
    function State(k: ConnKey): Conn
      reads this
    {
      if k in conns then conns[k] else NEW_CONN
    }

    /** Every other connection is as it was. */
    twostate predicate OthersKept(k: ConnKey)
      reads this
    {
      forall o | o != k :: State(o) == old(State(o))
    }

    method Open(k: ConnKey)
      modifies this
      ensures k in conns && State(k) == old(State(k)) && OthersKept(k)
    {
      if k !in conns { conns := conns[k := NEW_CONN]; }
    }

    method WasDelivered(k: ConnKey, room: string) returns (cfg: Option<Config>)
      modifies this
      ensures State(k) == old(State(k)) && OthersKept(k)
      ensures cfg == if room in State(k).delivered then Some(State(k).delivered[room]) else None
    {
      Open(k);
      return if room in conns[k].delivered then Some(conns[k].delivered[room]) else None;
    }

    method MarkDelivered(k: ConnKey, room: string, cfg: Config)
      modifies this
      ensures State(k) == old(State(k)).(delivered := old(State(k)).delivered[room := cfg]) && OthersKept(k)
    {
      Open(k);
      conns := conns[k := conns[k].(delivered := conns[k].delivered[room := cfg])];
    }

    method SetSubscribed(k: ConnKey, room: string, subscribed: bool)
      modifies this
      ensures State(k) == old(State(k)).(subscribed :=
        if subscribed then old(State(k)).subscribed + {room} else old(State(k)).subscribed - {room})
      ensures OthersKept(k)
    {
      Open(k);
      var st := conns[k];
      conns := conns[k := st.(subscribed := if subscribed then st.subscribed + {room} else st.subscribed - {room})];
    }

    method ListWindow(k: ConnKey) returns (win: set<string>)
      modifies this
      ensures State(k) == old(State(k)) && OthersKept(k) && win == State(k).window
    {
      Open(k);
      return conns[k].window;
    }

    method SetListWindow(k: ConnKey, window: set<string>)
      modifies this
      ensures State(k) == old(State(k)).(window := window) && OthersKept(k)
    {
      Open(k);
      conns := conns[k := conns[k].(window := window)];
    }
  }

  method FilterRooms(w: World, rooms: seq<string>, isInvite: Option<bool>) returns (out: seq<string>)
    requires Listed(w, rooms)
    ensures out == Filtered(w, rooms, isInvite)
  {
    if isInvite.None? {
      return rooms;
    }
    out := [];
    for i := 0 to |rooms|
      invariant Listed(w, rooms[..i]) && out == Filtered(w, rooms[..i], isInvite)
    {
      assert rooms[..i + 1][..i] == rooms[..i];
      assert rooms[i] in rooms;
      if isInvite.value == (w.members[rooms[i]].kind == Invite) { out := out + [rooms[i]]; }
    }
    assert rooms[..|rooms|] == rooms;
  }

  /** The handler's stores: one shared ConnStore, and the world as it is when a response is computed. */
  class Api {
    const store: ConnStore

    constructor (s: ConnStore)
      ensures store == s
    {
      store := s;
    }

    method Redeliver(k: ConnKey, room: string, limit: Option<int>, required: Required) returns (again: bool)
      modifies store
      ensures store.State(k) == old(store.State(k)) && store.OthersKept(k)
      ensures again == NeedsRedelivery(store.State(k), room, limit, required)
    {
      var cfg := store.WasDelivered(k, room);
      if cfg.None? {
        return false;
      }
      var n := if limit.Some? then limit.value else 1;
      return n > cfg.value.limit || !SameRequired(required, cfg.value.required);
    }

    method Subscriptions(w: World, since: int, k: ConnKey, subs: seq<(string, Sub)>)
        returns (rooms: map<string, RoomResp>)
      modifies store
      ensures var acc := Subs(w, since, Acc(old(store.State(k)), map[], {}), subs);
        rooms == acc.rooms && store.State(k) == acc.conn && acc.window == {}
      ensures store.OthersKept(k)
    {
      rooms := map[];
      ghost var start := Acc(store.State(k), map[], {});
      for i := 0 to |subs|
        invariant Subs(w, since, start, subs[..i]) == Acc(store.State(k), rooms, {})
        invariant store.OthersKept(k)
      {
        assert subs[..i + 1][..i] == subs[..i];
        var room, sub := subs[i].0, subs[i].1;
        if room in w.members {
          var force := Redeliver(k, room, sub.limit, sub.required);
          store.SetSubscribed(k, room, true);
          rooms := rooms[room := RoomResult(w, room, w.members[room], since, sub.limit, force)];
          store.MarkDelivered(k, room, ConfigOf(sub.limit, sub.required));
        }
      }
      assert subs[..|subs|] == subs;
    }

    method ListRange(w: World, since: int, k: ConnKey, prev: set<string>, found: seq<string>, l: ListReq, start: int,
        end: int, acc: Acc)
      returns (rooms: map<string, RoomResp>, window: set<string>)
      requires Listed(w, found) && 0 <= start <= end < |found| && acc.conn == store.State(k)
      modifies store
      ensures Span(w, since, prev, acc, found, l, start, end) == Acc(store.State(k), rooms, window)
      ensures store.OthersKept(k)
    {
      rooms, window := acc.rooms, acc.window;
      for i := start to end + 1
        invariant Span(w, since, prev, acc, found, l, start, i - 1) == Acc(store.State(k), rooms, window)
        invariant store.OthersKept(k)
      {
        var room := found[i];
        assert room in found;
        window := window + {room};
        if room !in rooms {
          var force := since > 0 && room !in prev;
          var again := Redeliver(k, room, l.limit, l.required);
          rooms := rooms[room := RoomResult(w, room, w.members[room], since, l.limit, force || again)];
          store.MarkDelivered(k, room, ConfigOf(l.limit, l.required));
        }
      }
    }

    method OneList(w: World, since: int, k: ConnKey, prev: set<string>, l: ListReq, acc: Acc)
      returns (rooms: map<string, RoomResp>, window: set<string>)
      requires Listed(w, w.order) && RangesOk(l) && acc.conn == store.State(k)
      modifies store
      ensures Ranges(w, since, prev, acc, Filtered(w, w.order, l.isInvite), l, l.ranges)
        == Acc(store.State(k), rooms, window)
      ensures store.OthersKept(k)
    {
      var found := FilterRooms(w, w.order, l.isInvite);
      rooms, window := acc.rooms, acc.window;
      for i := 0 to |l.ranges|
        invariant forall g | g in l.ranges[..i] :: 0 <= g.0
        invariant Ranges(w, since, prev, acc, found, l, l.ranges[..i]) == Acc(store.State(k), rooms, window)
        invariant store.OthersKept(k)
      {
        assert l.ranges[..i + 1][..i] == l.ranges[..i];
        var g := l.ranges[i];
        assert g in l.ranges;
        if g.0 < |found| {
          rooms, window := ListRange(w, since, k, prev, found, l, g.0, ClampEnd(g.0, g.1, |found|),
            Acc(store.State(k), rooms, window));
        }
      }
      assert l.ranges[..|l.ranges|] == l.ranges;
    }

    /** buildSlidingSync. */
    method BuildSlidingSync(w: World, since: int, k: ConnKey, req: Request) returns (resp: Response)
      requires Answerable(w, req)
      modifies store
      ensures (resp, store.State(k)) == Build(w, since, req, old(store.State(k)))
      ensures store.OthersKept(k)
    {
      var rooms := Subscriptions(w, since, k, req.subs);
      if |req.lists| == 0 {
        return Response(w.maxStream, rooms, false);
      }
      ghost var start := Acc(store.State(k), rooms, {});
      var prev := store.ListWindow(k);
      var window: set<string> := {};
      for i := 0 to |req.lists|
        invariant forall l | l in req.lists[..i] :: RangesOk(l)
        invariant Lists(w, since, prev, start, req.lists[..i]) == Acc(store.State(k), rooms, window)
        invariant store.OthersKept(k)
      {
        assert req.lists[..i + 1][..i] == req.lists[..i];
        var l := req.lists[i];
        assert l in req.lists;
        rooms, window := OneList(w, since, k, prev, l, Acc(store.State(k), rooms, window));
      }
      assert req.lists[..|req.lists|] == req.lists;
      store.SetListWindow(k, window);
      return Response(w.maxStream, rooms, true);
    }

    /** The handler: compute; when a pos and a timeout were given and there is nothing to say,
        compute again behind the registered waiter, and once more after the park. w0, w1, w2 and
        e0, e1, e2 are the worlds and extension data the three computes would see. Whatever is
        discarded, the response and the connection are those of one compute from the state before. */
    method SlidingSync(k: ConnKey, since: int, timeout: int, req: Request,
                       w0: World, e0: bool, w1: World, e1: bool, w2: World, e2: bool)
      returns (resp: Response, ghost last: World)
      requires Answerable(w0, req) && Answerable(w1, req) && Answerable(w2, req)
      modifies store
      ensures last in {w0, w1, w2} && (resp, store.State(k)) == Build(last, since, req, old(store.State(k)))
      ensures store.OthersKept(k)
    {
      hide Build;
      last := w0;
      resp := BuildSlidingSync(w0, since, k, req);
      if since > 0 && timeout > 0 && !HasData(resp, e0) {
        DiscardedKeepsState(w0, since, req, old(store.State(k)));
        last := w1;
        resp := BuildSlidingSync(w1, since, k, req);
        if !HasData(resp, e1) {
          DiscardedKeepsState(w1, since, req, old(store.State(k)));
          last := w2;
          resp := BuildSlidingSync(w2, since, k, req);
        }
      }
    }
  }

  // ---- a response without data leaves the connection alone ----

  lemma {:induction false} SubsSilent(w: World, since: int, acc: Acc, subs: seq<(string, Sub)>)
    ensures acc.rooms.Keys <= Subs(w, since, acc, subs).rooms.Keys
    ensures Subs(w, since, acc, subs).rooms == map[] ==> Subs(w, since, acc, subs) == acc
    decreases |subs|
  {
    if subs != [] {
      SubsSilent(w, since, acc, subs[..|subs| - 1]);
      var room := subs[|subs| - 1].0;
      if room in w.members { assert room in Subs(w, since, acc, subs).rooms; }
    }
  }

  lemma DiscardedKeepsState(w: World, since: int, req: Request, conn: Conn)
    requires Answerable(w, req) && !HasData(Build(w, since, req, conn).0, false)
    ensures Build(w, since, req, conn).1 == conn
  {
    SubsSilent(w, since, Acc(conn, map[], {}), req.subs);
  }
}
