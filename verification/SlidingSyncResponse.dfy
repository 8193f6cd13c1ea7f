/** What one sliding-sync response holds of a room, and whether as new, told from the request and the
    connection before it (internal/csapi/sliding_sync.go). */
module SlidingSyncResponse {
  import opened Wrappers
  import opened EventStore
  import opened SlidingSync

  // ---- subscriptions ----

  predicate Subscribed(req: Request, room: string) {
    exists s :: s in req.subs && s.0 == room
  }

  /** A request holds its subscriptions in a map. */
  predicate DistinctSubs(subs: seq<(string, Sub)>) {
    forall i, j | 0 <= i < j < |subs| :: subs[i].0 != subs[j].0
  }

  /** The room was last delivered alike on both. */
  predicate SameDelivered(a: Conn, b: Conn, room: string) {
    (room in a.delivered <==> room in b.delivered)
    && (room in a.delivered ==> a.delivered[room] == b.delivered[room])
  }

  /** The room counts as delivered with this limit, 1 where none was given, and this required state. */
  predicate Remembers(conn: Conn, room: string, limit: Option<int>, required: Required) {
    && room in conn.delivered && conn.delivered[room].required == required
    && conn.delivered[room].limit == (if limit.Some? then limit.value else 1)
  }

  /** It was delivered before, with a smaller limit, or with a required state of another length or with an
      entry that is not asked for now. */
  predicate AsksMore(conn: Conn, room: string, limit: Option<int>, required: Required) {
    && room in conn.delivered
    && var was := conn.delivered[room];
    || (if limit.Some? then limit.value else 1) > was.limit
    || |required| != |was.required| || exists p :: p in was.required && p !in required
  }

  lemma NeedsIsMore(conn: Conn, room: string)
    ensures forall limit, required ::
      NeedsRedelivery(conn, room, limit, required) == AsksMore(conn, room, limit, required)
  {
  }

  /** The result is that of a subscription, which the connection then remembers; when there is but one to
      the room, it is forced new exactly when that asks for more than was delivered. */
  ghost predicate BySub(w: World, since: int, conn: Conn, subs: seq<(string, Sub)>, room: string, rr: RoomResp,
      after: Conn)
  {
    room in w.members && exists s, force ::
      && s in subs && s.0 == room && Remembers(after, room, s.1.limit, s.1.required)
      && rr == RoomResult(w, room, w.members[room], since, s.1.limit, force)
      && (DistinctSubs(subs) ==> force == AsksMore(conn, room, s.1.limit, s.1.required))
  }

  lemma {:induction false} SubsElsewhere(w: World, since: int, acc: Acc, subs: seq<(string, Sub)>, room: string)
    requires room !in w.members || forall s | s in subs :: s.0 != room
    ensures var r := Subs(w, since, acc, subs);
      (room in r.rooms <==> room in acc.rooms) && SameDelivered(acc.conn, r.conn, room)
    decreases |subs|
  {
    if subs != [] {
      assert subs[|subs| - 1] in subs;
      hide RoomResult;
      SubsElsewhere(w, since, acc, subs[..|subs| - 1], room);
    }
  }

  lemma {:induction false} SubsWindow(w: World, since: int, acc: Acc, subs: seq<(string, Sub)>)
    ensures var r := Subs(w, since, acc, subs); r.window == acc.window && r.conn.window == acc.conn.window
    decreases |subs|
  {
    hide RoomResult, NeedsRedelivery;
    if subs != [] { SubsWindow(w, since, acc, subs[..|subs| - 1]); }
  }

  lemma {:induction false} SubsExactly(w: World, since: int, acc: Acc, subs: seq<(string, Sub)>, room: string)
    requires room in w.members && exists s :: s in subs && s.0 == room
    ensures var r := Subs(w, since, acc, subs);
      room in r.rooms && BySub(w, since, acc.conn, subs, room, r.rooms[room], r.conn)
    decreases |subs|
  {
    var last, init := subs[|subs| - 1], subs[..|subs| - 1];
    assert last in subs && forall s | s in subs :: s in init || s == last;
    hide RoomResult;
    if last.0 == room {
      var before := Subs(w, since, acc, init);
      NeedsIsMore(before.conn, room);
      hide NeedsRedelivery, AsksMore;
      LastSub(w, since, acc, subs, room);
      assert Subs(w, since, acc, subs).rooms[room] == RoomResult(w, room, w.members[room], since, last.1.limit,
        AsksMore(before.conn, room, last.1.limit, last.1.required));
    } else {
      SubsExactly(w, since, acc, init, room);
      assert DistinctSubs(subs) ==> DistinctSubs(init);
    }
  }

  /** The one subscription to a room finds it as it was delivered before. */
  lemma LastSub(w: World, since: int, acc: Acc, subs: seq<(string, Sub)>, room: string)
    requires subs != [] && subs[|subs| - 1].0 == room
    ensures var before, s := Subs(w, since, acc, subs[..|subs| - 1]), subs[|subs| - 1].1;
      DistinctSubs(subs) ==>
        AsksMore(before.conn, room, s.limit, s.required) == AsksMore(acc.conn, room, s.limit, s.required)
  {
    hide Subs;
    if DistinctSubs(subs) { SubsElsewhere(w, since, acc, subs[..|subs| - 1], room); }
  }

  // ---- lists ----

  /** The room stands at a requested position of the list. */
  ghost predicate AtPosition(w: World, l: ListReq, room: string)
    requires Listed(w, w.order)
  {
    var found := Filtered(w, w.order, l.isInvite);
    exists g, i :: InSpan(l, g, found, i) && found[i] == room
  }

  predicate InSpan(l: ListReq, g: (int, int), found: seq<string>, i: int) {
    g in l.ranges && 0 <= g.0 <= i < |found| && (i == g.0 || i <= g.1)
  }

  /** A list forces a room new that was not visible, or asks for more than was delivered. */
  predicate ListForces(since: int, prev: set<string>, conn: Conn, room: string, l: ListReq) {
    (since > 0 && room !in prev) || AsksMore(conn, room, l.limit, l.required)
  }

  ghost predicate ByList(w: World, since: int, prev: set<string>, conn: Conn, l: ListReq, room: string, rr: RoomResp,
      after: Conn)
  {
    room in w.members && Remembers(after, room, l.limit, l.required)
    && rr == RoomResult(w, room, w.members[room], since, l.limit, ListForces(since, prev, conn, room, l))
  }

  /** What positions of one list do to a room: what is in the response stays; else the room is put there
      if it stands at one of them (`at`). */
  ghost predicate Puts(w: World, since: int, prev: set<string>, before: Acc, after: Acc, l: ListReq, room: string,
      at: bool)
  {
    && (room in after.window <==> room in before.window || at)
    && (room in after.rooms <==> room in before.rooms || at)
    && (room in before.rooms ==> after.rooms[room] == before.rooms[room])
    && (room in after.rooms && room !in before.rooms ==>
          ByList(w, since, prev, before.conn, l, room, after.rooms[room], after.conn))
    && (room in before.rooms || room !in after.rooms ==> SameDelivered(before.conn, after.conn, room))
  }

  lemma StepPuts(w: World, since: int, prev: set<string>, acc: Acc, at: string, l: ListReq, room: string)
    requires at in w.members
    ensures Puts(w, since, prev, acc, ListStep(w, since, prev, acc, at, l), l, room, at == room)
  {
    NeedsIsMore(acc.conn, room);
    hide RoomResult, NeedsRedelivery, AsksMore;
  }

  lemma PutsTwice(w: World, since: int, prev: set<string>, a: Acc, b: Acc, c: Acc, l: ListReq, room: string, p: bool,
      q: bool)
    requires Puts(w, since, prev, a, b, l, room, p) && Puts(w, since, prev, b, c, l, room, q)
    ensures Puts(w, since, prev, a, c, l, room, p || q)
  {
    hide RoomResult;
  }

  lemma {:induction false} SpanPuts(w: World, since: int, prev: set<string>, acc: Acc, rooms: seq<string>, l: ListReq,
      start: int, end: int, room: string)
    requires Listed(w, rooms) && 0 <= start && end < |rooms|
    ensures Puts(w, since, prev, acc, Span(w, since, prev, acc, rooms, l, start, end), l, room,
      exists i :: start <= i <= end && rooms[i] == room)
    decreases end - start
  {
    hide Puts, ListStep;
    if start <= end {
      var before := Span(w, since, prev, acc, rooms, l, start, end - 1);
      SpanPuts(w, since, prev, acc, rooms, l, start, end - 1, room);
      assert rooms[end] in rooms;
      StepPuts(w, since, prev, before, rooms[end], l, room);
      PutsTwice(w, since, prev, acc, before, ListStep(w, since, prev, before, rooms[end], l), l, room,
        exists i :: start <= i <= end - 1 && rooms[i] == room, rooms[end] == room);
    } else {
      PutsNone(w, since, prev, acc, l, room);
    }
  }

  lemma PutsNone(w: World, since: int, prev: set<string>, acc: Acc, l: ListReq, room: string)
    ensures Puts(w, since, prev, acc, acc, l, room, false)
  {
  }

  lemma {:induction false} RangesPut(w: World, since: int, prev: set<string>, acc: Acc, rooms: seq<string>, l: ListReq,
      n: nat, room: string)
    requires Listed(w, rooms) && RangesOk(l) && n <= |l.ranges|
    ensures forall g | g in l.ranges[..n] :: 0 <= g.0
    ensures Puts(w, since, prev, acc, Ranges(w, since, prev, acc, rooms, l, l.ranges[..n]), l, room,
      exists j, i :: 0 <= j < n && InSpan(l, l.ranges[j], rooms, i) && rooms[i] == room)
    decreases n
  {
    hide Puts, Span;
    if n > 0 {
      var g := l.ranges[n - 1];
      assert g in l.ranges;
      assert l.ranges[..n][..n - 1] == l.ranges[..n - 1];
      RangesPut(w, since, prev, acc, rooms, l, n - 1, room);
      var before := Ranges(w, since, prev, acc, rooms, l, l.ranges[..n - 1]);
      if g.0 < |rooms| {
        SpanPuts(w, since, prev, before, rooms, l, g.0, ClampEnd(g.0, g.1, |rooms|), room);
        assert forall i :: InSpan(l, g, rooms, i) <==> g.0 <= i <= ClampEnd(g.0, g.1, |rooms|);
        PutsTwice(w, since, prev, acc, before, Span(w, since, prev, before, rooms, l, g.0, ClampEnd(g.0, g.1, |rooms|)),
          l, room, exists j, i :: 0 <= j < n - 1 && InSpan(l, l.ranges[j], rooms, i) && rooms[i] == room,
          exists i :: g.0 <= i <= ClampEnd(g.0, g.1, |rooms|) && rooms[i] == room);
      }
    } else {
      PutsNone(w, since, prev, acc, l, room);
    }
  }

  /** One list puts the rooms at its positions. */
  lemma ListPuts(w: World, since: int, prev: set<string>, acc: Acc, l: ListReq, room: string)
    requires Listed(w, w.order) && RangesOk(l)
    ensures Puts(w, since, prev, acc, Ranges(w, since, prev, acc, Filtered(w, w.order, l.isInvite), l, l.ranges), l,
      room, AtPosition(w, l, room))
  {
    var found := Filtered(w, w.order, l.isInvite);
    RangesPut(w, since, prev, acc, found, l, |l.ranges|, room);
    assert l.ranges[..|l.ranges|] == l.ranges;
    hide Puts, Ranges, InSpan;
    if AtPosition(w, l, room) {
      var g, i :| InSpan(l, g, found, i) && found[i] == room;
      SpanIndex(l, g, found, i);
    }
  }

  lemma SpanIndex(l: ListReq, g: (int, int), found: seq<string>, i: int)
    requires InSpan(l, g, found, i)
    ensures exists j :: 0 <= j < |l.ranges| && InSpan(l, l.ranges[j], found, i)
  {
    var j :| 0 <= j < |l.ranges| && l.ranges[j] == g;
    assert InSpan(l, l.ranges[j], found, i);
  }

  /** The first of the lists, in the order taken, with the room at one of its positions. */
  ghost predicate FirstListed(w: World, lists: seq<ListReq>, i: int, room: string)
    requires Listed(w, w.order)
  {
    0 <= i < |lists| && AtPosition(w, lists[i], room) && forall j | 0 <= j < i :: !AtPosition(w, lists[j], room)
  }

  ghost predicate SomeListed(w: World, lists: seq<ListReq>, room: string)
    requires Listed(w, w.order)
  {
    exists l :: l in lists && AtPosition(w, l, room)
  }

  /** What all the lists do to a room. */
  ghost predicate ListsPut(w: World, since: int, prev: set<string>, before: Acc, after: Acc, lists: seq<ListReq>,
      room: string)
    requires Listed(w, w.order)
  {
    && (room in after.window <==> room in before.window || SomeListed(w, lists, room))
    && (room in after.rooms <==> room in before.rooms || SomeListed(w, lists, room))
    && (room in before.rooms ==> after.rooms[room] == before.rooms[room])
    && (room in after.rooms && room !in before.rooms ==> exists i ::
          && FirstListed(w, lists, i, room)
          && ByList(w, since, prev, before.conn, lists[i], room, after.rooms[room], after.conn))
    && (room in before.rooms || room !in after.rooms ==> SameDelivered(before.conn, after.conn, room))
  }

  lemma {:induction false} ListsPutAll(w: World, since: int, prev: set<string>, acc: Acc, lists: seq<ListReq>,
      room: string)
    requires Listed(w, w.order) && forall l | l in lists :: RangesOk(l)
    ensures ListsPut(w, since, prev, acc, Lists(w, since, prev, acc, lists), lists, room)
    decreases |lists|
  {
    if lists != [] {
      var l, init := lists[|lists| - 1], lists[..|lists| - 1];
      assert l in lists;
      hide Ranges, ListsPut, Puts, AtPosition;
      var before := Lists(w, since, prev, acc, init);
      ListsPutAll(w, since, prev, acc, init, room);
      ListPuts(w, since, prev, before, l, room);
      ListAfterLists(w, since, prev, acc, before, Lists(w, since, prev, acc, lists), lists, room);
    }
  }

  lemma ListAfterLists(w: World, since: int, prev: set<string>, a: Acc, b: Acc, c: Acc, lists: seq<ListReq>,
      room: string)
    requires Listed(w, w.order) && lists != []
    requires ListsPut(w, since, prev, a, b, lists[..|lists| - 1], room)
    requires Puts(w, since, prev, b, c, lists[|lists| - 1], room, AtPosition(w, lists[|lists| - 1], room))
    ensures ListsPut(w, since, prev, a, c, lists, room)
  {
    var l, init := lists[|lists| - 1], lists[..|lists| - 1];
    hide RoomResult, AtPosition;
    assert forall x :: x in lists <==> x in init || x == l;
    forall i | FirstListed(w, init, i, room) ensures FirstListed(w, lists, i, room) {}
    if room in c.rooms && room !in b.rooms { assert FirstListed(w, lists, |init|, room); }
  }

  // ---- the response ----

  /** Exactly which rooms a response holds, how each was computed, and what the connection remembers of it:
      a subscription goes first, else it is the first list that shows the room. */
  lemma ResponseExactly(w: World, since: int, req: Request, conn: Conn, room: string)
    requires Answerable(w, req)
    ensures var (resp, after) := Build(w, since, req, conn);
      var rooms := resp.rooms;
      && (room in rooms <==> (Subscribed(req, room) && room in w.members) || SomeListed(w, req.lists, room))
      && (room in rooms && Subscribed(req, room) ==> BySub(w, since, conn, req.subs, room, rooms[room], after))
      && (room in rooms && !Subscribed(req, room) ==> exists i ::
            && FirstListed(w, req.lists, i, room)
            && ByList(w, since, conn.window, conn, req.lists[i], room, rooms[room], after))
      && (room !in rooms ==> SameDelivered(conn, after, room))
  {
    var acc := Acc(conn, map[], {});
    var subs := Subs(w, since, acc, req.subs);
    SubsWindow(w, since, acc, req.subs);
    ListedIsMember(w, req.lists, room);
    if Subscribed(req, room) && room in w.members {
      SubsExactly(w, since, acc, req.subs, room);
    } else {
      SubsElsewhere(w, since, acc, req.subs, room);
    }
    hide BySub, FirstListed, SomeListed, Subs, Lists, RoomResult;
    if req.lists != [] {
      ListsPutAll(w, since, conn.window, subs, req.lists, room);
    } else {
      NoLists(w, room);
    }
  }

  lemma ListedIsMember(w: World, lists: seq<ListReq>, room: string)
    requires Listed(w, w.order)
    ensures SomeListed(w, lists, room) ==> room in w.members
  {
  }

  lemma NoLists(w: World, room: string)
    requires Listed(w, w.order)
    ensures !SomeListed(w, [], room)
  {
  }

  /** A joined room in a response is new exactly on the first request, after a newer membership, or when
      forced: by its subscription if that asks for more than was delivered, else by the first list that
      shows it, if that does, or if the room was not in the window before. */
  lemma InitialExactly(w: World, since: int, req: Request, conn: Conn, room: string)
    requires Answerable(w, req) && DistinctSubs(req.subs)
    requires room in Build(w, since, req, conn).0.rooms && room in w.members && w.members[room].kind == Join
    ensures Build(w, since, req, conn).0.rooms[room].initial <==>
      || since == 0 || w.members[room].stream > since
      || (if Subscribed(req, room)
          then exists s :: s in req.subs && s.0 == room && AsksMore(conn, room, s.1.limit, s.1.required)
          else exists i ::
            FirstListed(w, req.lists, i, room) && ListForces(since, conn.window, conn, room, req.lists[i]))
  {
    ResponseExactly(w, since, req, conn, room);
    var rr := Build(w, since, req, conn).0.rooms[room];
    hide Build, InitialEvents, EventsForRoom, ListForces, AsksMore;
    if Subscribed(req, room) {
      OneSubOnly(req.subs, room);
    } else {
      OneFirst(w, req.lists, room);
    }
    hide AtPosition;
  }

  lemma OneSubOnly(subs: seq<(string, Sub)>, room: string)
    requires DistinctSubs(subs)
    ensures forall s, t | s in subs && t in subs && s.0 == room && t.0 == room :: s == t
  {
  }

  lemma OneFirst(w: World, lists: seq<ListReq>, room: string)
    requires Listed(w, w.order)
    ensures forall i, j | FirstListed(w, lists, i, room) && FirstListed(w, lists, j, room) :: i == j
  {
    hide AtPosition;
  }

  /** The window a connection remembers is exactly the rooms at the requested positions; a request without
      lists leaves it as it was. */
  lemma WindowExactly(w: World, since: int, req: Request, conn: Conn, room: string)
    requires Answerable(w, req)
    ensures room in Build(w, since, req, conn).1.window <==>
      if req.lists == [] then room in conn.window else SomeListed(w, req.lists, room)
  {
    var subs := Subs(w, since, Acc(conn, map[], {}), req.subs);
    SubsWindow(w, since, Acc(conn, map[], {}), req.subs);
    hide Subs, Lists, SomeListed;
    if req.lists != [] { ListsPutAll(w, since, conn.window, subs, req.lists, room); }
  }

  // ---- in the client's terms ----

  /** The request asks for at least one event of each room. */
  predicate Showing(req: Request) {
    (forall l | l in req.lists :: Limit(l.limit) > 0) && forall s | s in req.subs :: Limit(s.1.limit) > 0
  }

  /** Whatever a response holds of a room was computed with a limit of the request. */
  ghost predicate Sent(w: World, since: int, room: string, rr: RoomResp, shown: bool) {
    room in w.members && exists limit, force ::
      rr == RoomResult(w, room, w.members[room], since, limit, force) && (shown ==> Limit(limit) > 0)
  }

  lemma AllSent(w: World, since: int, req: Request, conn: Conn, room: string, shown: bool)
    requires Answerable(w, req) && room in Build(w, since, req, conn).0.rooms && (shown ==> Showing(req))
    ensures Sent(w, since, room, Build(w, since, req, conn).0.rooms[room], shown)
  {
    ResponseExactly(w, since, req, conn, room);
    hide Build, RoomResult, AsksMore, ListForces, AtPosition;
  }

  /** A subscribed room the user has to do with is in the response, whatever the lists ask for. */
  lemma SubscribedIsSent(w: World, since: int, req: Request, conn: Conn, room: string, shown: bool)
    requires Answerable(w, req) && Subscribed(req, room) && room in w.members && (shown ==> Showing(req))
    ensures var rooms := Build(w, since, req, conn).0.rooms; room in rooms && Sent(w, since, room, rooms[room], shown)
  {
    ResponseExactly(w, since, req, conn, room);
    AllSent(w, since, req, conn, room, shown);
  }

  /** A room in a list's window is in the response; a joined one that was not in the window before, and
      has no subscription, is there as new. */
  lemma VisibleIsDelivered(w: World, since: int, req: Request, conn: Conn, room: string)
    requires Answerable(w, req) && req.lists != []
    ensures var (resp, after) := Build(w, since, req, conn);
      room in after.window ==>
        && room in resp.rooms && room in w.members
        && (since >= 0 && w.members[room].kind == Join && room !in conn.window && !Subscribed(req, room) ==>
              resp.rooms[room].initial)
  {
    WindowExactly(w, since, req, conn, room);
    ResponseExactly(w, since, req, conn, room);
    ListedIsMember(w, req.lists, room);
    var (resp, after) := Build(w, since, req, conn);
    hide Build, SomeListed, BySub, FirstListed, AsksMore;
    if since >= 0 && room in after.window && w.members[room].kind == Join && room !in conn.window
      && !Subscribed(req, room) {
      var i :| FirstListed(w, req.lists, i, room)
        && ByList(w, since, conn.window, conn, req.lists[i], room, resp.rooms[room], after);
      FirstIsList(w, req.lists, i, room);
      NewByList(w, since, conn.window, conn, req.lists[i], room, resp.rooms[room], after);
    }
  }

  lemma FirstIsList(w: World, lists: seq<ListReq>, i: int, room: string)
    requires Listed(w, w.order) && FirstListed(w, lists, i, room)
    ensures 0 <= i < |lists|
  {
  }

  lemma NewByList(w: World, since: int, prev: set<string>, conn: Conn, l: ListReq, room: string, rr: RoomResp,
      after: Conn)
    requires ByList(w, since, prev, conn, l, room, rr, after) && w.members[room].kind == Join
    requires since >= 0 && room !in prev
    ensures rr.initial
  {
    hide AsksMore, InitialEvents;
  }

  // ---- a list's rooms, and one room's result ----

  /** A list is of all rooms, or of invites only, or of none of them. */
  predicate Admits(w: World, room: string, isInvite: Option<bool>) {
    isInvite.None? || (isInvite.value <==> room in w.members && w.members[room].kind == Invite)
  }

  /** found holds, in their order, exactly the rooms the list is of, standing in `rooms` at these positions. */
  ghost predicate PickedAt(w: World, rooms: seq<string>, isInvite: Option<bool>, found: seq<string>, at: seq<int>) {
    && |at| == |found| && (forall k | 0 <= k < |at| :: 0 <= at[k] < |rooms| && found[k] == rooms[at[k]])
    && (forall k, m | 0 <= k < m < |at| :: at[k] < at[m])
    && (forall i | 0 <= i < |rooms| :: i in at <==> Admits(w, rooms[i], isInvite))
  }

  /** A filtered list keeps the rooms it is of, in their order, and no others. */
  lemma {:induction false} FilteredExactly(w: World, rooms: seq<string>, isInvite: Option<bool>) returns (at: seq<int>)
    requires Listed(w, rooms)
    ensures PickedAt(w, rooms, isInvite, Filtered(w, rooms, isInvite), at)
    decreases |rooms|
  {
    hide *;
    FilteredOpens(w, rooms, isInvite);
    if rooms == [] || isInvite.None? {
      at := PickedAll(w, rooms, isInvite);
    } else {
      var n := |rooms| - 1;
      var init := FilteredExactly(w, rooms[..n], isInvite);
      PickedMore(w, rooms, isInvite, Filtered(w, rooms[..n], isInvite), init);
      at := if Admits(w, rooms[n], isInvite) then init + [n] else init;
    }
  }

  lemma FilteredOpens(w: World, rooms: seq<string>, isInvite: Option<bool>)
    requires Listed(w, rooms)
    ensures rooms == [] || isInvite.None? ==> Filtered(w, rooms, isInvite) == rooms
    ensures rooms != [] && isInvite.Some? ==>
      var n := |rooms| - 1;
      Listed(w, rooms[..n]) && Filtered(w, rooms, isInvite) ==
        Filtered(w, rooms[..n], isInvite) + if Admits(w, rooms[n], isInvite) then [rooms[n]] else []
  {
    if rooms != [] { assert rooms[|rooms| - 1] in rooms; }
  }

  lemma PickedAll(w: World, rooms: seq<string>, isInvite: Option<bool>) returns (at: seq<int>)
    requires rooms == [] || isInvite.None?
    ensures PickedAt(w, rooms, isInvite, rooms, at)
  {
    at := seq(|rooms|, i => i);
    forall i | 0 <= i < |rooms| ensures i in at { assert at[i] == i; }
  }

  lemma PickedMore(w: World, rooms: seq<string>, isInvite: Option<bool>, found: seq<string>, at: seq<int>)
    requires rooms != [] && PickedAt(w, rooms[..|rooms| - 1], isInvite, found, at)
    ensures var n := |rooms| - 1;
      PickedAt(w, rooms, isInvite, found + if Admits(w, rooms[n], isInvite) then [rooms[n]] else [],
        if Admits(w, rooms[n], isInvite) then at + [n] else at)
  {
    var n := |rooms| - 1;
    hide Admits;
    assert forall i | 0 <= i < n :: rooms[..n][i] == rooms[i];
    assert n !in at;
    forall i | 0 <= i < |rooms| ensures i in at + [n] <==> i in at || i == n {}
  }

  /** The result of one room: new on a first request, after a newer membership, or when forced, and a room
      left always; only a joined room has a timeline. That of a new one is the end of its events up to the
      newest, flagged when it is cut at the limit, 1 where none is given; else it is what came since. */
  lemma RoomExactly(w: World, room: string, m: Membership, since: int, limit: Option<int>, force: bool)
    ensures var r := RoomResult(w, room, m, since, limit, force);
      var isNew := since == 0 || m.stream > since || force;
      var evs := if room in w.events then w.events[room] else [];
      && r.kind == m.kind && (r.initial <==> isNew || m.kind == Leave || m.kind == Ban)
      && (m.kind != Join ==> r.timeline == [] && !r.limited && r.prevBatch == None && r.numLive == None)
      && (m.kind == Join && !isNew ==>
            && r.timeline == EventsForRoom(evs, since, w.maxStream, 0x4000_0000) && !r.limited
            && r.numLive == (if since > 0 then Some(|r.timeline|) else None)
            && r.prevBatch == if r.timeline == [] then None else Some(since))
      && (m.kind == Join && isNew ==>
            && r.numLive == None && (r.prevBatch == if r.timeline == [] then None else Some(r.timeline[0] - 1))
            && var n := if limit.Some? && limit.value >= 0 then limit.value else 1;
               var newest := if evs == [] then w.maxStream else evs[|evs| - 1];
               var window := EventsForRoom(evs, if newest > n then newest - n - 1 else 0, newest, n + 1);
               (r.limited <==> |window| > n) && r.timeline == if |window| > n then window[|window| - n..] else window)
  {
    hide EventsForRoom;
  }
}
