/** What a sliding-sync client ends up holding: the tail of each room's timeline, without gaps. */
module SlidingSyncClient {
  import opened Wrappers
  import opened EventStore
  import opened SlidingSync

  // ---- timelines ----

  /** Live orderings are positive, and a timeline is read in stream order. */
  ghost predicate WorldOk(w: World) {
    && 0 <= w.maxStream < MAX_STREAM
    && forall room ::
         && Increasing(EventsOf(w, room))
         && forall i | 0 <= i < |EventsOf(w, room)| :: 0 < EventsOf(w, room)[i] <= w.maxStream
  }

  /** Time passes: new events and new memberships take positions above all earlier ones, and no room gets
      more events at once than one incremental query returns. */
  ghost predicate Evolves(w0: World, w1: World) {
    && w0.maxStream <= w1.maxStream
    && (forall room :: Extends(EventsOf(w0, room), EventsOf(w1, room), w0.maxStream))
    && (w0.maxStream > 0 ==> forall room :: |EventsOf(w1, room)| <= |EventsOf(w0, room)| + UNBOUNDED)
    && forall room | room in w1.members && w1.members[room].kind == Join ::
         (room in w0.members && w0.members[room].kind == Join) || w1.members[room].stream > w0.maxStream
  }

  ghost predicate Extends(before: seq<int>, after: seq<int>, from: int) {
    before <= after && forall i | |before| <= i < |after| :: after[i] > from
  }

  /** The lower end of the initial window. */
  function WindowStart(w: World, room: string, limit: nat): int
    requires EventsOf(w, room) != []
  {
    var evs := EventsOf(w, room);
    if evs[|evs| - 1] - limit - 1 < 0 then 0 else evs[|evs| - 1] - limit - 1
  }

  /** The initial window holds exactly the events behind its start, with no gap at the end. */
  lemma InitialSplit(w: World, room: string, limit: nat) returns (k: nat)
    requires WorldOk(w)
    ensures k <= |EventsOf(w, room)| && InitialEvents(w, room, limit) == EventsOf(w, room)[k..]
    ensures |EventsOf(w, room)| - k <= limit + 1 && (EventsOf(w, room) != [] ==> k < |EventsOf(w, room)|)
    ensures EventsOf(w, room) != [] ==> forall i | 0 <= i < |EventsOf(w, room)| ::
      i >= k <==> EventsOf(w, room)[i] > WindowStart(w, room, limit)
  {
    hide EventsForRoom;
    var evs := EventsOf(w, room);
    if evs == [] {
      k := 0;
      NoEvents(w, room, limit);
    } else {
      assert Increasing(evs) && 0 < evs[0] && 0 < evs[|evs| - 1] < MAX_STREAM;
      k := WindowOf(evs, WindowStart(w, room, limit), limit);
      hide WorldOk;
    }
  }

  lemma NoEvents(w: World, room: string, limit: nat)
    requires EventsOf(w, room) == []
    ensures InitialEvents(w, room, limit) == []
  {
    assert forall from, to :: InRange([], from, to) == [];
    hide InRange;
  }

  /** The same on a timeline that has events. */
  lemma WindowOf(evs: seq<int>, from: int, limit: nat) returns (k: nat)
    requires Increasing(evs) && evs != [] && 0 < evs[0] && 0 < evs[|evs| - 1] < MAX_STREAM
    requires from == if evs[|evs| - 1] - limit - 1 < 0 then 0 else evs[|evs| - 1] - limit - 1
    ensures k < |evs| && |evs| - k <= limit + 1 && EventsForRoom(evs, from, evs[|evs| - 1], limit + 1) == evs[k..]
    ensures forall i | 0 <= i < |evs| :: i >= k <==> evs[i] > from
  {
    hide InRange;
    var roomMax := evs[|evs| - 1];
    assert forall i | 0 <= i < |evs| :: evs[i] <= roomMax;
    k := SplitAt(evs, Lower(from), roomMax);
    SplitIsStart(evs, from, k);
    var tail := evs[k..];
    forall i | 0 <= i < |tail| ensures from < tail[i] <= roomMax { assert tail[i] == evs[k + i]; }
    Crowded(tail, from, roomMax);
  }

  lemma SplitIsStart(evs: seq<int>, from: int, k: nat)
    requires evs != [] && 0 < evs[0] && Increasing(evs) && k <= |evs| && from >= 0
    requires forall i | 0 <= i < k :: evs[i] <= Lower(from)
    requires forall i | k <= i < |evs| :: evs[i] > Lower(from)
    ensures forall i | 0 <= i < |evs| :: i >= k <==> evs[i] > from
  {
  }

  // ---- how much an initial window holds ----

  function LastOf(evs: seq<int>, n: nat): seq<int> { if |evs| > n then evs[|evs| - n..] else evs }

  /** The most recent `limit` events of the room. */
  function Recent(w: World, room: string, limit: nat): seq<int> { LastOf(EventsOf(w, room), limit) }

  lemma FreshShape(w: World, room: string, m: Membership, since: int, limit: Option<int>, force: bool)
    requires m.kind == Join && (since == 0 || m.stream > since || force)
    ensures var r := RoomResult(w, room, m, since, limit, force);
      r.initial && r.timeline == LastOf(InitialEvents(w, room, Limit(limit)), Limit(limit))
  {
    hide InitialEvents, EventsOf, EventsForRoom, Limit;
  }

  lemma SameSuffix(evs: seq<int>, a: nat, b: nat)
    requires a <= |evs| && b <= |evs|
    ensures evs[a..] == evs[b..] <==> a == b
  {
    assert |evs[a..]| == |evs| - a && |evs[b..]| == |evs| - b;
  }

  /** An initial timeline is the most recent `limit` events exactly when they all lie within limit+1
      stream positions of the newest one; the stream is shared, so other rooms' events thin it out. */
  lemma InitialIsRecent(w: World, room: string, m: Membership, since: int, limit: Option<int>, force: bool)
    requires WorldOk(w) && m.kind == Join && (since == 0 || m.stream > since || force)
    ensures var recent := Recent(w, room, Limit(limit));
      RoomResult(w, room, m, since, limit, force).timeline == recent <==>
        recent == [] || recent[0] > WindowStart(w, room, Limit(limit))
  {
    hide WorldOk, EventsOf, InitialEvents, Limit, RoomResult;
    var n := Limit(limit);
    var k := InitialSplit(w, room, n);
    FreshShape(w, room, m, since, limit, force);
    hide WindowStart;
    var evs, from := EventsOf(w, room), if EventsOf(w, room) == [] then 0 else WindowStart(w, room, n);
    RecentIs(evs, k, from, n);
  }

  /** Of an end piece that starts behind `from` the last n are those of the whole exactly when these all
      lie behind it too. */
  lemma RecentIs(evs: seq<int>, k: nat, from: int, n: nat)
    requires k <= |evs| && forall i | 0 <= i < |evs| :: i >= k <==> evs[i] > from
    ensures var piece := evs[k..];
      LastOf(piece, n) == LastOf(evs, n) <==> LastOf(evs, n) == [] || LastOf(evs, n)[0] > from
  {
    var cut := if |evs| - k > n then |evs| - n else k;
    var first := if |evs| > n then |evs| - n else 0;
    assert LastOf(evs[k..], n) == evs[cut..];
    SameSuffix(evs, cut, first);
    if first < |evs| { assert evs[first..][0] == evs[first]; }
  }

  /** Two events ten positions apart: a limit of 2 shows only one. */
  lemma ThinWindow()
    ensures var w := World(20, map["!a" := [10, 20]], map["!a" := Membership(Join, 1)], ["!a"]);
      RoomResult(w, "!a", w.members["!a"], 0, Some(2), false).timeline == [20]
  {
    assert InRange([10, 20], 17, 20) == InRange([10, 20][..1], 17, 20) + [20];
    assert [10, 20][..1] == [10];
    assert InRange([10], 17, 20) == InRange([10][..0], 17, 20) + [];
  }

  // ---- the client ----

  datatype Client = Client(pos: int, rooms: map<string, seq<int>>)

  function Held(c: Client, room: string): seq<int> {
    if room in c.rooms then c.rooms[room] else []
  }

  /** initial replaces what the client has of a room, anything else is appended. */
  function Receive(c: Client, resp: Response): Client {
    Client(resp.pos, map r | r in c.rooms.Keys + resp.rooms.Keys ::
      if r !in resp.rooms then Held(c, r)
      else if resp.rooms[r].initial then resp.rooms[r].timeline
      else Held(c, r) + resp.rooms[r].timeline)
  }

  ghost predicate IsSuffix(h: seq<int>, evs: seq<int>) { |h| <= |evs| && h == evs[|evs| - |h|..] }

  /** h is a contiguous end piece of the room's timeline; if `shown`, it ends with the newest event. */
  ghost predicate Tail(w: World, room: string, h: seq<int>, shown: bool) {
    IsSuffix(h, EventsOf(w, room)) && (shown && EventsOf(w, room) != [] ==> h != [])
  }

  lemma FreshIsTail(w: World, room: string, m: Membership, since: int, limit: Option<int>, force: bool)
    requires WorldOk(w) && m.kind == Join && (since == 0 || m.stream > since || force)
    ensures RoomResult(w, room, m, since, limit, force).initial
    ensures Tail(w, room, RoomResult(w, room, m, since, limit, force).timeline, Limit(limit) > 0)
  {
    hide *;
    var n := Limit(limit);
    var k := InitialSplit(w, room, n);
    FreshShape(w, room, m, since, limit, force);
    LastOfPiece(InitialEvents(w, room, n), EventsOf(w, room), k, n);
    SuffixIsTail(w, room, LastOf(InitialEvents(w, room, n), n), n > 0);
  }

  lemma SuffixIsTail(w: World, room: string, h: seq<int>, shown: bool)
    requires IsSuffix(h, EventsOf(w, room)) && (shown && EventsOf(w, room) != [] ==> h != [])
    ensures Tail(w, room, h, shown)
  {
    hide IsSuffix, EventsOf;
  }

  /** The last n of an end piece are an end piece. */
  lemma LastOfPiece(piece: seq<int>, evs: seq<int>, k: nat, n: nat)
    requires k <= |evs| && piece == evs[k..]
    ensures IsSuffix(LastOf(piece, n), evs) && (n > 0 && piece != [] ==> LastOf(piece, n) != [])
  {
  }


  lemma OnlySplit(a: seq<int>, b: seq<int>, at: int, k: nat)
    requires Extends(a, b, at) && (forall i | 0 <= i < |a| :: a[i] <= at)
    requires k <= |b| && (forall i | 0 <= i < k :: b[i] <= at) && (forall i | k <= i < |b| :: b[i] > at)
    ensures k == |a|
  {
    assert forall j | 0 <= j < |a| :: b[j] == a[j];
    var i := if k < |a| then k else |a|;
    assert i == |b| || b[i] <= at || b[i] > at;
  }

  lemma DeltaIsRest(w0: World, w: World, room: string)
    requires WorldOk(w0) && WorldOk(w) && Evolves(w0, w) && w0.maxStream > 0
    ensures EventsForRoom(EventsOf(w, room), w0.maxStream, w.maxStream, UNBOUNDED)
      == EventsOf(w, room)[|EventsOf(w0, room)|..]
  {
    var a, b := EventsOf(w0, room), EventsOf(w, room);
    assert Extends(a, b, w0.maxStream);
    var k := SplitAt(b, w0.maxStream, w.maxStream);
    OnlySplit(a, b, w0.maxStream, k);
  }

  // ---- sessions ----

  datatype Session = Session(conn: Conn, client: Client, w: World)
  datatype Exchange = Exchange(w: World, req: Request)

  const EMPTY_WORLD := World(0, map[], map[], [])
  const START := Session(NEW_CONN, Client(0, map[]), EMPTY_WORLD)

  /** The response to a request that echoes the last position. */
  function Reply(s: Session, x: Exchange): Response
    requires Answerable(x.w, x.req)
  {
    Build(x.w, s.client.pos, x.req, s.conn).0
  }

  function Turn(s: Session, x: Exchange): Session
    requires Answerable(x.w, x.req)
  {
    var (resp, conn) := Build(x.w, s.client.pos, x.req, s.conn);
    Session(conn, Receive(s.client, resp), x.w)
  }

  predicate AllAnswerable(xs: seq<Exchange>) { forall x | x in xs :: Answerable(x.w, x.req) }

  function Converse(xs: seq<Exchange>): Session
    requires AllAnswerable(xs)
  {
    if xs == [] then START else
      assert xs[|xs| - 1] in xs;
      Turn(Converse(xs[..|xs| - 1]), xs[|xs| - 1])
  }

  predicate JoinedIn(w: World, room: string) { room in w.members && w.members[room].kind == Join }

  /** The worlds of the exchanges, each after the one before. */
  ghost predicate MovesOn(xs: seq<Exchange>) {
    && (forall x | x in xs :: WorldOk(x.w))
    && (forall i | 0 < i < |xs| :: Evolves(xs[i - 1].w, xs[i].w))
    && (xs != [] ==> Evolves(EMPTY_WORLD, xs[0].w))
  }

  /** The client is at the position of the world it last heard of. */
  ghost predicate Level(s: Session) { s.client.pos == s.w.maxStream && WorldOk(s.w) }

  lemma TurnLevel(s: Session, x: Exchange)
    requires Answerable(x.w, x.req) && WorldOk(x.w)
    ensures Level(Turn(s, x)) && Turn(s, x).w == x.w
  {
    hide WorldOk;
  }

  lemma StartLevel()
    ensures Level(START) && Converse([]) == START
  {
  }

  /** What a run is before its last exchange. */
  lemma RunOpens(xs: seq<Exchange>)
    requires AllAnswerable(xs) && MovesOn(xs) && xs != []
    ensures var init, x := xs[..|xs| - 1], xs[|xs| - 1];
      && AllAnswerable(init) && MovesOn(init) && Answerable(x.w, x.req) && WorldOk(x.w)
      && Evolves(if init == [] then EMPTY_WORLD else init[|init| - 1].w, x.w)
      && Converse(xs) == Turn(Converse(init), x)
  {
    hide Turn, Answerable, WorldOk, Evolves;
    assert xs[|xs| - 1] in xs && forall y | y in xs[..|xs| - 1] :: y in xs;
  }

  /** At the end of a run the client is level with the last world. */
  lemma {:induction false} RunLevel(xs: seq<Exchange>)
    requires AllAnswerable(xs) && MovesOn(xs)
    ensures Level(Converse(xs)) && Converse(xs).w == if xs == [] then EMPTY_WORLD else xs[|xs| - 1].w
  {
    hide *;
    if xs == [] {
      StartLevel();
      StartWorld();
    } else {
      RunOpens(xs);
      TurnLevel(Converse(xs[..|xs| - 1]), xs[|xs| - 1]);
    }
  }

  lemma StartWorld()
    ensures START.w == EMPTY_WORLD
  {
  }

  /** The last exchange finds a level client, in a world that only moved on. */
  lemma LastTurn(xs: seq<Exchange>)
    requires AllAnswerable(xs) && MovesOn(xs) && xs != []
    ensures var init, x := xs[..|xs| - 1], xs[|xs| - 1];
      && AllAnswerable(init) && MovesOn(init) && Answerable(x.w, x.req) && WorldOk(x.w)
      && Level(Converse(init)) && Evolves(Converse(init).w, x.w) && Converse(xs) == Turn(Converse(init), x)
  {
    hide *;
    RunOpens(xs);
    RunLevel(xs[..|xs| - 1]);
  }
}
